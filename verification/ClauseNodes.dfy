/** The simplifier as the query builder runs it: on linked clause records, overwriting their lists.
    Each record carries the set of records below it, so that a tree shares nothing with another. */
module ClauseNodes {
  import opened Clauses
  import opened Simplifier

  class ClauseNode {
    var field: string
    var op: string
    var value: Value
    var minShould: int
    var filter: seq<ClauseNode?>
    var must: seq<ClauseNode?>
    var should: seq<ClauseNode?>
    var mustNot: seq<ClauseNode?>
    ghost var repr: set<ClauseNode>
  }

  ghost function Foot(c: ClauseNode?): set<ClauseNode>
    reads c
  {
    if c == null then {} else c.repr
  }

  ghost function Region(list: seq<ClauseNode?>): set<ClauseNode>
    reads list
  {
    set c, x | c in list && x in Foot(c) :: x
  }

  /** `c` is the root of a tree that stands for the clause `t`. */
  ghost predicate Rep(c: ClauseNode?, t: Clause)
    reads c, Foot(c)
    decreases t, 0
  {
    if c == null then t.Nil?
    else
      && t.Clause? && c in c.repr
      && c.field == t.field && c.op == t.op && c.value == t.value && c.minShould == t.minShould
      && Below(c, c.filter) && Below(c, c.must) && Below(c, c.should) && Below(c, c.mustNot)
      && Region(c.filter) + Region(c.must) + Region(c.should) + Region(c.mustNot) <= c.repr - {c}
      && Region(c.filter) !! Region(c.must) !! Region(c.should) !! Region(c.mustNot)
      && Forest(c.filter, t.filter) && Forest(c.must, t.must)
      && Forest(c.should, t.should) && Forest(c.mustNot, t.mustNot)
  }

  ghost predicate Below(c: ClauseNode, list: seq<ClauseNode?>)
    reads c
  {
    forall x | x in list && x != null :: x in c.repr
  }

  /** The list holds separate trees that stand for the clauses `ts`. */
  ghost predicate Forest(list: seq<ClauseNode?>, ts: seq<Clause>)
    reads list, Region(list)
    decreases ts, 1
  {
    && |list| == |ts|
    && (forall i | 0 <= i < |list| :: Rep(list[i], ts[i]))
    && Apart(list)
  }

  // ---------- forests ----------

  lemma RegionOfConcat(a: seq<ClauseNode?>, b: seq<ClauseNode?>)
    ensures Region(a + b) == Region(a) + Region(b)
  {
    forall c, x | c in a + b && x in Foot(c) ensures x in Region(a) + Region(b) {
      if c in a {} else { assert c in b; }
    }
    forall c, x | c in a && x in Foot(c) ensures x in Region(a + b) { assert c in a + b; }
    forall c, x | c in b && x in Foot(c) ensures x in Region(a + b) { assert c in a + b; }
  }

  lemma ForestOfConcat(a: seq<ClauseNode?>, ta: seq<Clause>, b: seq<ClauseNode?>, tb: seq<Clause>)
    requires Forest(a, ta) && Forest(b, tb) && Region(a) !! Region(b)
    ensures Forest(a + b, ta + tb)
  {
    FeetOfConcat(a, b);
  }

  ghost predicate Apart(list: seq<ClauseNode?>)
    reads list
  {
    forall i, j | 0 <= i < j < |list| :: Foot(list[i]) !! Foot(list[j])
  }

  lemma FeetOfConcat(a: seq<ClauseNode?>, b: seq<ClauseNode?>)
    requires Apart(a) && Apart(b) && Region(a) !! Region(b)
    ensures Apart(a + b)
  {
    var list := a + b;
    forall i, j | 0 <= i < j < |list| ensures Foot(list[i]) !! Foot(list[j]) {
      if i < |a| <= j {
        FootInRegion(a, list[i]);
        FootInRegion(b, list[j]);
      }
    }
  }

  lemma ForestOfParts(a: seq<ClauseNode?>, ta: seq<Clause>, b: seq<ClauseNode?>, tb: seq<Clause>)
    requires Forest(a + b, ta + tb) && |a| == |ta|
    ensures Forest(a, ta) && Forest(b, tb)
  {
    var list, ts := a + b, ta + tb;
    forall i | 0 <= i < |a| ensures Rep(a[i], ta[i]) { assert Rep(list[i], ts[i]); }
    forall i | 0 <= i < |b| ensures Rep(b[i], tb[i]) { assert Rep(list[|a| + i], ts[|a| + i]); }
    forall i, j | 0 <= i < j < |a| ensures Foot(a[i]) !! Foot(a[j]) { assert Foot(list[i]) !! Foot(list[j]); }
    forall i, j | 0 <= i < j < |b| ensures Foot(b[i]) !! Foot(b[j]) {
      assert Foot(list[|a| + i]) !! Foot(list[|a| + j]);
    }
  }

  /** Roots lie in their own region. */
  lemma RootsInRegion(list: seq<ClauseNode?>, ts: seq<Clause>)
    requires Forest(list, ts)
    ensures forall x | x in list && x != null :: x in Region(list)
  {
    forall x | x in list && x != null ensures x in Region(list) {
      var i :| 0 <= i < |list| && list[i] == x;
      assert Rep(list[i], ts[i]) && x in Foot(x);
    }
  }

  lemma RepChildren(c: ClauseNode, t: Clause)
    requires Rep(c, t)
    ensures |c.must| > 0 ==> Foot(c.must[0]) <= c.repr
    ensures |c.should| > 0 ==> Foot(c.should[0]) <= c.repr
  {
    if |c.must| > 0 { FootInRegion(c.must, c.must[0]); }
    if |c.should| > 0 { FootInRegion(c.should, c.should[0]); }
  }

  lemma FootInRegion(list: seq<ClauseNode?>, x: ClauseNode?)
    requires x in list
    ensures Foot(x) <= Region(list)
  {
  }

  predicate IsLeafNode(c: ClauseNode)
    reads c
  {
    c.op != ""
  }

  function CountNodes(c: ClauseNode): nat
    reads c
  {
    |c.filter| + |c.must| + |c.mustNot| + |c.should|
  }

  function NodesByType(c: ClauseNode, typ: BoolType): seq<ClauseNode?>
    reads c
  {
    match typ
    case Filter => c.filter
    case Must => c.must
    case Should => c.should
    case MustNot => c.mustNot
  }

  // ---------- the rewrite ----------

  method SimplifyClause(c: ClauseNode?, ghost t: Clause) returns (r: ClauseNode?)
    requires Rep(c, t)
    modifies Foot(c)
    ensures Rep(r, Simplify(t))
    ensures Foot(r) <= old(Foot(c))
    decreases t, 2
  {
    if c == null || IsLeafNode(c) {
      return c;
    }
    SimplifyFields(c, t);

    if |c.must| == 1 && |c.should| == 0 && |c.mustNot| == 0 && |c.filter| == 0 {
      RepChildren(c, SimplifyLists(t));
      return c.must[0];
    }
    if |c.should| == 1 && |c.must| == 0 && |c.mustNot| == 0 && |c.filter| == 0 {
      RepChildren(c, SimplifyLists(t));
      return c.should[0];
    }
    return c;
  }

  /** Overwrite the four lists of a boolean. */
  method SimplifyFields(c: ClauseNode, ghost t: Clause)
    requires Rep(c, t) && IsBool(t)
    modifies Foot(c)
    ensures c.repr == old(c.repr) && Rep(c, SimplifyLists(t))
    decreases t, 1
  {
    var filter, must, should, mustNot :=
      SimplifyFour(t, c.filter, c.must, c.should, c.mustNot);
    StoreLists(c, SimplifyLists(t), filter, must, should, mustNot, c.repr);
  }

  method StoreLists(c: ClauseNode, ghost l: Clause, filter: seq<ClauseNode?>, must: seq<ClauseNode?>,
                    should: seq<ClauseNode?>, mustNot: seq<ClauseNode?>, ghost foot: set<ClauseNode>)
    requires l.Clause? && c in foot
    requires c.field == l.field && c.op == l.op && c.value == l.value && c.minShould == l.minShould
    requires FourForests(l, filter, must, should, mustNot)
    requires Region(filter) + Region(must) + Region(should) + Region(mustNot) <= foot - {c}
    modifies c
    ensures c.repr == foot && Rep(c, l)
  {
    RootsInRegion(filter, l.filter);
    RootsInRegion(must, l.must);
    RootsInRegion(should, l.should);
    RootsInRegion(mustNot, l.mustNot);
    Overwrite(c, filter, must, should, mustNot, foot);
    assert Region(filter) == old(Region(filter)) && Region(must) == old(Region(must));
    assert Region(should) == old(Region(should)) && Region(mustNot) == old(Region(mustNot));
    assert FourForests(l, filter, must, should, mustNot);
    Assemble(c, l);
  }

  ghost predicate FourForests(l: Clause, filter: seq<ClauseNode?>, must: seq<ClauseNode?>,
                              should: seq<ClauseNode?>, mustNot: seq<ClauseNode?>)
    requires l.Clause?
    reads filter, must, should, mustNot, Region(filter) + Region(must) + Region(should) + Region(mustNot)
  {
    && Forest(filter, l.filter) && Forest(must, l.must) && Forest(should, l.should) && Forest(mustNot, l.mustNot)
    && Region(filter) !! Region(must) !! Region(should) !! Region(mustNot)
  }

  method Overwrite(c: ClauseNode, filter: seq<ClauseNode?>, must: seq<ClauseNode?>,
                   should: seq<ClauseNode?>, mustNot: seq<ClauseNode?>, ghost foot: set<ClauseNode>)
    modifies c
    ensures c.filter == filter && c.must == must && c.should == should && c.mustNot == mustNot && c.repr == foot
    ensures unchanged(c`field, c`op, c`value, c`minShould)
  {
    c.filter, c.must, c.should, c.mustNot := filter, must, should, mustNot;
    c.repr := foot;
  }

  lemma Assemble(c: ClauseNode, l: Clause)
    requires l.Clause? && c in c.repr
    requires c.field == l.field && c.op == l.op && c.value == l.value && c.minShould == l.minShould
    requires FourForests(l, c.filter, c.must, c.should, c.mustNot)
    requires Region(c.filter) + Region(c.must) + Region(c.should) + Region(c.mustNot) <= c.repr - {c}
    ensures Rep(c, l)
  {
    RootsInRegion(c.filter, l.filter);
    RootsInRegion(c.must, l.must);
    RootsInRegion(c.should, l.should);
    RootsInRegion(c.mustNot, l.mustNot);
  }

  method SimplifyFour(ghost t: Clause, f: seq<ClauseNode?>, m: seq<ClauseNode?>, s: seq<ClauseNode?>,
                      n: seq<ClauseNode?>)
    returns (f': seq<ClauseNode?>, m': seq<ClauseNode?>, s': seq<ClauseNode?>, n': seq<ClauseNode?>)
    requires t.Clause?
    requires Forest(f, t.filter) && Forest(m, t.must) && Forest(s, t.should) && Forest(n, t.mustNot)
    requires Region(f) !! Region(m) !! Region(s) !! Region(n)
    modifies Region(f) + Region(m) + Region(s) + Region(n)
    ensures Forest(f', SimplifyList(t.filter, Filter)) && Region(f') <= old(Region(f))
    ensures Forest(m', SimplifyList(t.must, Must)) && Region(m') <= old(Region(m))
    ensures Forest(s', SimplifyList(t.should, Should)) && Region(s') <= old(Region(s))
    ensures Forest(n', SimplifyList(t.mustNot, MustNot)) && Region(n') <= old(Region(n))
    decreases t, 0
  {
    ghost var tf, tm, ts := SimplifyList(t.filter, Filter), SimplifyList(t.must, Must), SimplifyList(t.should, Should);
    f' := SimplifyNodesApart(f, Filter, t.filter, m, t.must, s, t.should, n, t.mustNot);
    m' := SimplifyNodesApart(m, Must, t.must, f', tf, s, t.should, n, t.mustNot);
    s' := SimplifyNodesApart(s, Should, t.should, f', tf, m', tm, n, t.mustNot);
    n' := SimplifyNodesApart(n, MustNot, t.mustNot, f', tf, m', tm, s', ts);
  }

  method SimplifyNodesApart(list: seq<ClauseNode?>, typ: BoolType, ghost ts: seq<Clause>,
                            ghost a: seq<ClauseNode?>, ghost ta: seq<Clause>,
                            ghost b: seq<ClauseNode?>, ghost tb: seq<Clause>,
                            ghost d: seq<ClauseNode?>, ghost td: seq<Clause>)
    returns (result: seq<ClauseNode?>)
    requires Forest(list, ts) && Forest(a, ta) && Forest(b, tb) && Forest(d, td)
    requires Region(list) !! Region(a) !! Region(b) !! Region(d)
    modifies Region(list)
    ensures Forest(result, SimplifyList(ts, typ)) && Region(result) <= old(Region(list))
    ensures Forest(a, ta) == old(Forest(a, ta)) && Region(a) == old(Region(a))
    ensures Forest(b, tb) == old(Forest(b, tb)) && Region(b) == old(Region(b))
    ensures Forest(d, td) == old(Forest(d, td)) && Region(d) == old(Region(d))
    decreases ts, 1
  {
    RootsInRegion(a, ta);
    RootsInRegion(b, tb);
    RootsInRegion(d, td);
    result := SimplifyNodes(list, typ, ts);
  }

  method SimplifyNodes(list: seq<ClauseNode?>, typ: BoolType, ghost ts: seq<Clause>)
    returns (result: seq<ClauseNode?>)
    requires Forest(list, ts)
    modifies Region(list)
    ensures Forest(result, SimplifyList(ts, typ))
    ensures Region(result) <= old(Region(list))
    decreases ts, 0
  {
    result := [];
    for i := 0 to |list|
      invariant Forest(result, SimplifyList(ts[..i], typ))
      invariant Region(result) <= old(Region(list))
      invariant Forest(list[i..], ts[i..]) && Region(list[i..]) <= old(Region(list))
      invariant Region(result) !! Region(list[i..])
    {
      assert list[i..][1..] == list[i + 1..] && ts[i..][1..] == ts[i + 1..];
      result := AppendSimplified(result, SimplifyList(ts[..i], typ), list[i], ts[i], typ,
                                 list[i + 1..], ts[i + 1..]);
      SimplifyListGrows(ts, i, typ);
    }
    assert ts[..|list|] == ts;
  }

  lemma SimplifyListGrows(ts: seq<Clause>, i: nat, typ: BoolType)
    requires i < |ts|
    ensures SimplifyList(ts[..i + 1], typ) == SimplifyList(ts[..i], typ) + Keep(Simplify(ts[i]), typ)
  {
    assert ts[..i + 1] == ts[..i] + [ts[i]];
    SimplifyListSplits(ts[..i], [ts[i]], typ);
    assert SimplifyList([ts[i]], typ) == Keep(Simplify(ts[i]), typ) + SimplifyList([], typ);
  }

  /** One turn of the loop: the records not yet visited (`rest`) are left alone. */
  method AppendSimplified(result: seq<ClauseNode?>, ghost done: seq<Clause>, c: ClauseNode?, ghost t: Clause,
                          typ: BoolType, ghost rest: seq<ClauseNode?>, ghost todo: seq<Clause>)
    returns (more: seq<ClauseNode?>)
    requires Forest(result, done) && Rep(c, t) && Forest(rest, todo)
    requires Region(result) !! Foot(c) !! Region(rest)
    modifies Foot(c)
    ensures Forest(more, done + Keep(Simplify(t), typ))
    ensures Region(more) <= old(Region(result) + Foot(c))
    ensures Forest(rest, todo) && Region(rest) == old(Region(rest))
    decreases t, 5
  {
    var simplified := SimplifyBetween(c, t, result, done, rest, todo);
    more := AppendKept(result, done, simplified, Simplify(t), typ);
  }

  method SimplifyBetween(c: ClauseNode?, ghost t: Clause, ghost before: seq<ClauseNode?>, ghost done: seq<Clause>,
                         ghost rest: seq<ClauseNode?>, ghost todo: seq<Clause>)
    returns (r: ClauseNode?)
    requires Forest(before, done) && Rep(c, t) && Forest(rest, todo)
    requires Region(before) !! Foot(c) !! Region(rest)
    modifies Foot(c)
    ensures Rep(r, Simplify(t)) && Foot(r) <= old(Foot(c))
    ensures Forest(before, done) && Region(before) == old(Region(before))
    ensures Forest(rest, todo) && Region(rest) == old(Region(rest))
    decreases t, 4
  {
    ForestOfConcat(before, done, rest, todo);
    RegionOfConcat(before, rest);
    RootsInRegion(before, done);
    RootsInRegion(rest, todo);
    r := SimplifyApart(c, t, before + rest, done + todo);
    ForestOfParts(before, done, rest, todo);
  }

  /** Simplifying one tree leaves separate trees as they were. */
  method SimplifyApart(c: ClauseNode?, ghost t: Clause, ghost others: seq<ClauseNode?>, ghost ts: seq<Clause>)
    returns (r: ClauseNode?)
    requires Rep(c, t) && Forest(others, ts) && Foot(c) !! Region(others)
    modifies Foot(c)
    ensures Rep(r, Simplify(t)) && Foot(r) <= old(Foot(c))
    ensures Forest(others, ts) == old(Forest(others, ts))
    decreases t, 3
  {
    RootsInRegion(others, ts);
    r := SimplifyClause(c, t);
  }

  method AppendKept(result: seq<ClauseNode?>, ghost done: seq<Clause>, simplified: ClauseNode?, ghost d: Clause,
                    typ: BoolType)
    returns (more: seq<ClauseNode?>)
    requires Forest(result, done) && Rep(simplified, d) && Region(result) !! Foot(simplified)
    ensures Forest(more, done + Keep(d, typ))
    ensures Region(more) <= Region(result) + Foot(simplified)
  {
    var kept := KeepNode(simplified, typ, d);
    ForestOfConcat(result, done, kept, Keep(d, typ));
    RegionOfConcat(result, kept);
    more := result + kept;
  }

  method KeepNode(simplified: ClauseNode?, typ: BoolType, ghost d: Clause) returns (kept: seq<ClauseNode?>)
    requires Rep(simplified, d)
    ensures Forest(kept, Keep(d, typ))
    ensures Region(kept) <= Foot(simplified)
  {
    if simplified == null {
      return [];
    }
    if IsLeafNode(simplified) && simplified.field == "" && simplified.value == Null {
      return [];
    }
    if !IsLeafNode(simplified) && CountNodes(simplified) == 0 {
      return [];
    }
    if !IsLeafNode(simplified) && |NodesByType(simplified, typ)| > 0 &&
       CountNodes(simplified) == |NodesByType(simplified, typ)| {
      return NodesByType(simplified, typ);
    }
    kept := [simplified];
    assert kept[1..] == [] && [d][1..] == [];
  }

  // ---------- the builder ----------

  function ShouldOf(ts: seq<Clause>): Clause {
    Clause("", "", Null, 0, [], [], ts, [])
  }

  /** The root once the clauses generated from the free-text query are added to it. */
  function WithText(t: Clause, ts: seq<Clause>): Clause
    requires t.Clause?
  {
    if |ts| == 0 then t
    else if |ts| == 1 then t.(must := t.must + ts)
    else t.(must := t.must + [ShouldOf(ts)])
  }

  function Rooted(t: Clause, ts: seq<Clause>, skip: bool, query: string): Clause {
    if skip || query == "" || t.Nil? then t else WithText(t, ts)
  }

  class QueryBuilder {
    var root: ClauseNode?
    var query: string
    var skipBuildFuzziness: bool

    /** `clauses` are those generated from `query`; they are added at most once. */
    method Build(clauses: seq<ClauseNode?>, ghost t: Clause, ghost ts: seq<Clause>)
      requires Rep(root, t) && Forest(clauses, ts) && Foot(root) !! Region(clauses)
      requires root == null ==> skipBuildFuzziness || query == "" || clauses == []
      modifies this, Foot(root), Region(clauses)
      ensures skipBuildFuzziness && query == old(query)
      ensures Rep(root, Simplify(Rooted(t, ts, old(skipBuildFuzziness), query)))
      ensures old(skipBuildFuzziness) && Normal(t) ==> Rep(root, t)
    {
      BuildFuzzinessQuery(clauses, t, ts);
      var simplified := SimplifyClause(root, Rooted(t, ts, old(skipBuildFuzziness), query));
      root := simplified;
      NormalIffFixed(t);
    }

    method BuildFuzzinessQuery(clauses: seq<ClauseNode?>, ghost t: Clause, ghost ts: seq<Clause>)
      requires Rep(root, t) && Forest(clauses, ts) && Foot(root) !! Region(clauses)
      requires root == null ==> skipBuildFuzziness || query == "" || clauses == []
      modifies this`skipBuildFuzziness, root
      ensures skipBuildFuzziness
      ensures Rep(root, Rooted(t, ts, old(skipBuildFuzziness), query))
      ensures fresh(Foot(root) - old(Foot(root)) - old(Region(clauses)))
    {
      if skipBuildFuzziness {
        return;
      }
      skipBuildFuzziness := true;
      if query == "" {
        return;
      }
      if clauses != [] {
        AppendText(root, t, clauses, ts);
      }
    }
  }

  method AppendText(root: ClauseNode, ghost t: Clause, clauses: seq<ClauseNode?>, ghost ts: seq<Clause>)
    requires Rep(root, t) && Forest(clauses, ts) && root.repr !! Region(clauses) && clauses != []
    modifies root
    ensures Rep(root, WithText(t, ts))
    ensures fresh(root.repr - old(root.repr) - old(Region(clauses)))
  {
    if |clauses| == 1 {
      FootInRegion(clauses, clauses[0]);
      assert ts == [ts[0]];
      AppendMust(root, t, clauses[0], ts[0]);
    } else {
      var any := NewShould(clauses, ts);
      AppendMust(root, t, any, ShouldOf(ts));
    }
  }

  method NewShould(clauses: seq<ClauseNode?>, ghost ts: seq<Clause>) returns (c: ClauseNode)
    requires Forest(clauses, ts)
    ensures Rep(c, ShouldOf(ts)) && fresh(c)
    ensures c.repr == {c} + Region(clauses)
    ensures Region(clauses) == old(Region(clauses))
  {
    c := NewNode();
    StoreLists(c, ShouldOf(ts), [], [], clauses, [], {c} + Region(clauses));
  }

  method NewNode() returns (c: ClauseNode)
    ensures fresh(c) && c.field == "" && c.op == "" && c.value == Null && c.minShould == 0
  {
    c := new ClauseNode;
    c.field, c.op, c.value, c.minShould := "", "", Null, 0;
  }

  method AppendMust(c: ClauseNode, ghost t: Clause, x: ClauseNode?, ghost d: Clause)
    requires Rep(c, t) && Rep(x, d) && c.repr !! Foot(x)
    modifies c
    ensures Rep(c, t.(must := t.must + [d]))
    ensures c.repr == old(c.repr) + old(Foot(x))
  {
    ghost var l := t.(must := t.must + [d]);
    ForestOfConcat(c.must, t.must, [x], [d]);
    RegionOfConcat(c.must, [x]);
    StoreLists(c, l, c.filter, c.must + [x], c.should, c.mustNot, c.repr + Foot(x));
  }
}
