/** Merging term filters as the request parser does it: on linked clause records, replacing their lists. */
module TermNodes {
  import opened Clauses
  import opened ClauseNodes
  import opened TermMerging

  /** A nil clause, which the original would dereference, is passed through. */
  method MergeTermQueries(clauses: seq<ClauseNode?>, ghost ts: seq<Clause>) returns (result: seq<ClauseNode?>)
    requires Forest(clauses, ts)
    modifies Region(clauses)
    ensures Forest(result, MergeList(ts))
    ensures fresh(Region(result) - old(Region(clauses)))
    decreases ts, 2
  {
    var col := Collection(map[], []);
    result := [];
    ghost var start := Region(clauses);
    HalfwayStart(clauses, ts);
    for i := 0 to |clauses|
      invariant Halfway(clauses, ts, i, col, result, start)
      invariant fresh(Region(result) - start)
    {
      col, result := MergeAt(clauses, ts, i, col, result, start);
    }
    HalfwayEnd(clauses, ts, col, result, start);
    result := AppendMerged(result, Rest(MergeEach(ts)), col, MergeEach(ts));
  }

  lemma HalfwayStart(clauses: seq<ClauseNode?>, ts: seq<Clause>)
    requires Forest(clauses, ts)
    ensures Halfway(clauses, ts, 0, Collection(map[], []), [], Region(clauses))
  {
    assert clauses[0..] == clauses && ts[0..] == ts;
  }

  lemma HalfwayEnd(clauses: seq<ClauseNode?>, ts: seq<Clause>, col: Collection, result: seq<ClauseNode?>,
                   start: set<ClauseNode>)
    requires |clauses| == |ts| && Halfway(clauses, ts, |clauses|, col, result, start)
    ensures Forest(result, Rest(MergeEach(ts))) && Collected(col, MergeEach(ts))
  {
    assert MergeEach(ts)[..|clauses|] == MergeEach(ts);
  }

  /** The clauses before the `i`-th are merged, the others as they were. */
  ghost predicate Halfway(clauses: seq<ClauseNode?>, ts: seq<Clause>, i: nat, col: Collection, result: seq<ClauseNode?>,
                          start: set<ClauseNode>)
    requires i <= |clauses| == |ts|
    reads clauses[i..], result, Region(clauses[i..]), Region(result)
  {
    && Forest(result, Rest(MergeEach(ts)[..i])) && Collected(col, MergeEach(ts)[..i])
    && Forest(clauses[i..], ts[i..]) && Region(clauses[i..]) <= start && Region(result) !! Region(clauses[i..])
  }

  /** One turn of the loop. */
  method MergeAt(clauses: seq<ClauseNode?>, ghost ts: seq<Clause>, i: nat, col: Collection, result: seq<ClauseNode?>,
                 ghost start: set<ClauseNode>)
    returns (col': Collection, result': seq<ClauseNode?>)
    requires i < |clauses| == |ts| && Halfway(clauses, ts, i, col, result, start)
    modifies Foot(clauses[i])
    ensures Halfway(clauses, ts, i + 1, col', result', start)
    ensures fresh(Region(result') - old(Region(result)) - start)
    decreases ts[i], 7
  {
    FirstOf(clauses, ts, i);
    col', result' := MergeOne(clauses[i], ts[i], col, result, MergeEach(ts)[..i], clauses[i + 1..], ts[i + 1..]);
    EachPrefix(ts, i);
  }

  /** The first tree of what is left, and the rest. */
  lemma FirstOf(clauses: seq<ClauseNode?>, ts: seq<Clause>, i: nat)
    requires i < |clauses| == |ts| && Forest(clauses[i..], ts[i..])
    ensures Rep(clauses[i], ts[i]) && Forest(clauses[i + 1..], ts[i + 1..])
    ensures Foot(clauses[i]) !! Region(clauses[i + 1..])
    ensures Region(clauses[i..]) == Foot(clauses[i]) + Region(clauses[i + 1..])
  {
    assert clauses[i..] == [clauses[i]] + clauses[i + 1..] && ts[i..] == [ts[i]] + ts[i + 1..];
    ForestOfParts([clauses[i]], [ts[i]], clauses[i + 1..], ts[i + 1..]);
    RegionOfConcat([clauses[i]], clauses[i + 1..]);
    FirstApart(clauses[i..]);
  }

  lemma FirstApart(list: seq<ClauseNode?>)
    requires list != [] && Apart(list)
    ensures Foot(list[0]) !! Region(list[1..])
  {
    forall c, x | c in list[1..] && x in Foot(c) ensures x !in Foot(list[0]) {
      var j :| 0 <= j < |list[1..]| && list[1..][j] == c;
      assert Foot(list[0]) !! Foot(list[j + 1]);
    }
  }

  lemma EachPrefix(ts: seq<Clause>, i: nat)
    requires i < |ts|
    ensures MergeEach(ts)[..i] + [MergeClause(ts[i])] == MergeEach(ts)[..i + 1]
  {
    OneMore(MergeEach(ts), i);
  }

  lemma OneMore(all: seq<Clause>, i: nat)
    requires i < |all|
    ensures all[..i] + [all[i]] == all[..i + 1]
  {
  }

  /** The records not yet visited (`rest`) are left alone. */
  method MergeOne(c: ClauseNode?, ghost t: Clause, col: Collection, result: seq<ClauseNode?>,
                  ghost done: seq<Clause>, ghost rest: seq<ClauseNode?>, ghost todo: seq<Clause>)
    returns (col': Collection, result': seq<ClauseNode?>)
    requires Forest(result, Rest(done)) && Rep(c, t) && Forest(rest, todo)
    requires Region(result) !! Foot(c) !! Region(rest)
    requires Collected(col, done)
    modifies Foot(c)
    ensures Forest(result', Rest(done + [MergeClause(t)]))
    ensures fresh(Region(result') - old(Region(result) + Foot(c)))
    ensures Region(result') !! Region(rest)
    ensures Forest(rest, todo) && Region(rest) == old(Region(rest))
    ensures Collected(col', done + [MergeClause(t)])
    decreases t, 6
  {
    MergeBetween(c, t, result, Rest(done), rest, todo);
    Collects(c, MergeClause(t), col, result, done);
    col', result' := col, result;
    if c != null && c.op == "term" && |c.must| == 0 && |c.mustNot| == 0 && |c.should| == 0 && |c.filter| == 0 {
      col' := Noted(col, c.field, c.value);
    } else {
      result' := result + [c];
    }
  }

  function Noted(col: Collection, field: string, value: Value): Collection {
    Collection(AddValue(col.grouped, field, value), if field in col.grouped then col.order else col.order + [field])
  }

  lemma Collects(c: ClauseNode?, t: Clause, col: Collection, result: seq<ClauseNode?>, done: seq<Clause>)
    requires Forest(result, Rest(done)) && Rep(c, t) && Region(result) !! Foot(c) && Collected(col, done)
    ensures PlainTerm(t) ==> Forest(result, Rest(done + [t])) && Collected(Noted(col, t.field, t.value), done + [t])
    ensures !PlainTerm(t) ==> Forest(result + [c], Rest(done + [t])) && Collected(col, done + [t])
    ensures Region(result + [c]) == Region(result) + Foot(c)
  {
    CollectedNext(col, done, t);
    RegionOfConcat(result, [c]);
    if !PlainTerm(t) {
      ForestOfConcat(result, Rest(done), [c], [t]);
    }
  }

  lemma CollectedNext(col: Collection, done: seq<Clause>, t: Clause)
    requires Collected(col, done)
    ensures Rest(done + [t]) == if PlainTerm(t) then Rest(done) else Rest(done) + [t]
    ensures PlainTerm(t) ==> Collected(Noted(col, t.field, t.value), done + [t])
    ensures !PlainTerm(t) ==> Collected(col, done + [t])
  {
    Snoc(done, t);
    if PlainTerm(t) {
      AddTerm(col.grouped, done, t);
      AddField(col.grouped, col.order, t.field, t.value);
    } else {
      AddOther(col.grouped, done, t);
    }
  }

  method MergeBetween(c: ClauseNode?, ghost t: Clause, ghost before: seq<ClauseNode?>, ghost done: seq<Clause>,
                      ghost rest: seq<ClauseNode?>, ghost todo: seq<Clause>)
    requires Forest(before, done) && Rep(c, t) && Forest(rest, todo)
    requires Region(before) !! Foot(c) !! Region(rest)
    modifies Foot(c)
    ensures Rep(c, MergeClause(t)) && fresh(Foot(c) - old(Foot(c)))
    ensures Forest(before, done) && Region(before) == old(Region(before))
    ensures Forest(rest, todo) && Region(rest) == old(Region(rest))
    ensures Foot(c) !! Region(before) && Foot(c) !! Region(rest)
    decreases t, 5
  {
    ForestOfConcat(before, done, rest, todo);
    RegionOfConcat(before, rest);
    RootsInRegion(before, done);
    RootsInRegion(rest, todo);
    MergeApart(c, t, before + rest, done + todo);
    ForestOfParts(before, done, rest, todo);
  }

  method MergeApart(c: ClauseNode?, ghost t: Clause, ghost others: seq<ClauseNode?>, ghost ts: seq<Clause>)
    requires Rep(c, t) && Forest(others, ts) && Foot(c) !! Region(others)
    modifies Foot(c)
    ensures Rep(c, MergeClause(t)) && fresh(Foot(c) - old(Foot(c)))
    ensures Forest(others, ts) == old(Forest(others, ts))
    decreases t, 4
  {
    RootsInRegion(others, ts);
    if c != null {
      MergeSubClauses(c, t);
    }
  }

  /** Replace the four lists of a record. */
  method MergeSubClauses(c: ClauseNode, ghost t: Clause)
    requires Rep(c, t)
    modifies Foot(c)
    ensures Rep(c, MergeClause(t)) && fresh(c.repr - old(c.repr))
    decreases t, 3
  {
    var must, mustNot, should, filter := MergeFour(t, c.must, c.mustNot, c.should, c.filter);
    ghost var added := Region(filter) + Region(must) + Region(should) + Region(mustNot);
    StoreLists(c, MergeClause(t), filter, must, should, mustNot, c.repr + added);
  }

  method MergeFour(ghost t: Clause, m: seq<ClauseNode?>, n: seq<ClauseNode?>, s: seq<ClauseNode?>, f: seq<ClauseNode?>)
    returns (m': seq<ClauseNode?>, n': seq<ClauseNode?>, s': seq<ClauseNode?>, f': seq<ClauseNode?>)
    requires t.Clause? && FourForests(t, f, m, s, n)
    modifies Region(f) + Region(m) + Region(s) + Region(n)
    ensures FourForests(MergeClause(t), f', m', s', n')
    ensures fresh(Region(f') - old(Region(f))) && fresh(Region(m') - old(Region(m)))
    ensures fresh(Region(s') - old(Region(s))) && fresh(Region(n') - old(Region(n)))
    decreases t, 2
  {
    m', n' := MergeTwo(t, m, t.must, n, t.mustNot, s, t.should, f, t.filter);
    s', f' := MergeTwo(t, s, t.should, f, t.filter, m', MergeList(t.must), n', MergeList(t.mustNot));
  }

  /** Merge two lists beside two others. */
  method MergeTwo(ghost t: Clause, p: seq<ClauseNode?>, ghost tp: seq<Clause>, q: seq<ClauseNode?>,
                  ghost tq: seq<Clause>,
                  ghost a: seq<ClauseNode?>, ghost ta: seq<Clause>, ghost b: seq<ClauseNode?>, ghost tb: seq<Clause>)
    returns (p': seq<ClauseNode?>, q': seq<ClauseNode?>)
    requires Forest(p, tp) && Forest(q, tq) && Forest(a, ta) && Forest(b, tb)
    requires Region(p) !! Region(q) !! Region(a) !! Region(b)
    requires t.Clause? && ((tp == t.must && tq == t.mustNot) || (tp == t.should && tq == t.filter))
    modifies Region(p) + Region(q)
    ensures Forest(p', MergeList(tp)) && fresh(Region(p') - old(Region(p)))
    ensures Forest(q', MergeList(tq)) && fresh(Region(q') - old(Region(q)))
    ensures Region(p') !! Region(q') !! Region(a) !! Region(b)
    ensures Forest(a, ta) == old(Forest(a, ta)) && Region(a) == old(Region(a))
    ensures Forest(b, tb) == old(Forest(b, tb)) && Region(b) == old(Region(b))
    decreases t, 1
  {
    p' := MergeListApart(p, tp, q, tq, a, ta, b, tb);
    q' := MergeListApart(q, tq, p', MergeList(tp), a, ta, b, tb);
  }

  /** Merging one list leaves three others as they were. */
  method MergeListApart(list: seq<ClauseNode?>, ghost ts: seq<Clause>,
                        ghost a: seq<ClauseNode?>, ghost ta: seq<Clause>,
                        ghost b: seq<ClauseNode?>, ghost tb: seq<Clause>,
                        ghost d: seq<ClauseNode?>, ghost td: seq<Clause>)
    returns (result: seq<ClauseNode?>)
    requires Forest(list, ts) && Forest(a, ta) && Forest(b, tb) && Forest(d, td)
    requires Region(list) !! Region(a) !! Region(b) !! Region(d)
    modifies Region(list)
    ensures Forest(result, MergeList(ts)) && fresh(Region(result) - old(Region(list)))
    ensures Region(result) !! Region(a) && Region(result) !! Region(b) && Region(result) !! Region(d)
    ensures Forest(a, ta) == old(Forest(a, ta)) && Region(a) == old(Region(a))
    ensures Forest(b, tb) == old(Forest(b, tb)) && Region(b) == old(Region(b))
    ensures Forest(d, td) == old(Forest(d, td)) && Region(d) == old(Region(d))
    decreases ts, 5
  {
    RootsInRegion(d, td);
    result := MergeBesideTwo(list, ts, a, ta, b, tb);
  }

  method MergeBesideTwo(list: seq<ClauseNode?>, ghost ts: seq<Clause>,
                        ghost a: seq<ClauseNode?>, ghost ta: seq<Clause>,
                        ghost b: seq<ClauseNode?>, ghost tb: seq<Clause>)
    returns (result: seq<ClauseNode?>)
    requires Forest(list, ts) && Forest(a, ta) && Forest(b, tb) && Region(list) !! Region(a) !! Region(b)
    modifies Region(list)
    ensures Forest(result, MergeList(ts)) && fresh(Region(result) - old(Region(list)))
    ensures Region(result) !! Region(a) && Region(result) !! Region(b)
    ensures Forest(a, ta) == old(Forest(a, ta)) && Region(a) == old(Region(a))
    ensures Forest(b, tb) == old(Forest(b, tb)) && Region(b) == old(Region(b))
    decreases ts, 4
  {
    RootsInRegion(b, tb);
    result := MergeBeside(list, ts, a, ta);
  }

  method MergeBeside(list: seq<ClauseNode?>, ghost ts: seq<Clause>, ghost a: seq<ClauseNode?>, ghost ta: seq<Clause>)
    returns (result: seq<ClauseNode?>)
    requires Forest(list, ts) && Forest(a, ta) && Region(list) !! Region(a)
    modifies Region(list)
    ensures Forest(result, MergeList(ts)) && fresh(Region(result) - old(Region(list))) && Region(result) !! Region(a)
    ensures Forest(a, ta) == old(Forest(a, ta)) && Region(a) == old(Region(a))
    decreases ts, 3
  {
    RootsInRegion(a, ta);
    result := MergeTermQueries(list, ts);
  }

  // ---------- merged clauses ----------

  method NewLeaf(field: string, op: string, value: Value) returns (c: ClauseNode)
    ensures Rep(c, Leaf(field, op, value)) && fresh(c) && c.repr == {c}
  {
    c := NewNode();
    c.field, c.op, c.value := field, op, value;
    StoreLists(c, Leaf(field, op, value), [], [], [], [], {c});
  }

  method AppendMerged(list: seq<ClauseNode?>, ghost ts: seq<Clause>, col: Collection, ghost all: seq<Clause>)
    returns (result: seq<ClauseNode?>)
    requires Forest(list, ts) && Collected(col, all)
    ensures Forest(result, ts + MergedTerms(all))
    ensures fresh(Region(result) - old(Region(list)))
  {
    result := list;
    assert ts + MergedTerms(all)[..0] == ts;
    for k := 0 to |col.order|
      invariant Forest(result, ts + MergedTerms(all)[..k])
      invariant fresh(Region(result) - old(Region(list)))
    {
      var field := col.order[k];
      Looked(ts, col, all, k);
      result := AppendLeaf(result, ts + MergedTerms(all)[..k], field, col.grouped[field]);
    }
    assert MergedTerms(all)[..|col.order|] == MergedTerms(all);
  }

  lemma Looked(ts: seq<Clause>, col: Collection, all: seq<Clause>, k: nat)
    requires Collected(col, all) && k < |col.order|
    ensures col.order[k] in col.grouped
    ensures ts + MergedTerms(all)[..k] + [Merged(col.order[k], col.grouped[col.order[k]])]
         == ts + MergedTerms(all)[..k + 1]
  {
    var field := col.order[k];
    assert field in col.order;
    assert Look(col.grouped, field) == ValuesFor(all, field);
    assert MergedTerms(all)[..k + 1] == MergedTerms(all)[..k] + [MergedTerms(all)[k]];
  }

  method AppendLeaf(list: seq<ClauseNode?>, ghost ts: seq<Clause>, field: string,
                    values: seq<Value>) returns (result: seq<ClauseNode?>)
    requires Forest(list, ts)
    ensures Forest(result, ts + [Merged(field, values)])
    ensures fresh(Region(result) - old(Region(list)))
  {
    var c := NewMerged(field, values, list, ts);
    ForestOfConcat(list, ts, [c], [Merged(field, values)]);
    RegionOfConcat(list, [c]);
    result := list + [c];
  }

  method NewMerged(field: string, values: seq<Value>, ghost list: seq<ClauseNode?>,
                   ghost ts: seq<Clause>) returns (c: ClauseNode)
    requires Forest(list, ts)
    ensures Rep(c, Merged(field, values)) && fresh(c) && c.repr == {c}
    ensures Forest(list, ts) == old(Forest(list, ts)) && Region(list) == old(Region(list))
  {
    if |values| == 1 {
      c := NewLeaf(field, "term", values[0]);
    } else {
      c := NewLeaf(field, "terms", Many(values));
    }
  }
}
