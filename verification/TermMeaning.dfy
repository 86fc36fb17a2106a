/** What merging term filters does to the meaning of a query. */
module TermMeaning {
  import opened Clauses
  import opened TermMerging

  /** A leaf is judged by its field, operator and value alone, and a terms leaf matches when some of
      its values would match as a term. */
  ghost predicate Coherent(o: Oracle) {
    && (forall c | IsLeaf(c) :: o(c) == o(Leaf(c.field, c.op, c.value)))
    && (forall f, vs :: o(Terms(f, vs)) <==> SomeValue(o, f, vs))
  }

  ghost predicate SomeValue(o: Oracle, f: string, vs: seq<Value>) {
    exists i | 0 <= i < |vs| :: o(Term(f, vs[i]))
  }

  ghost predicate All(cs: seq<Clause>, o: Oracle) {
    forall c | c in cs :: Matches(c, o)
  }

  ghost predicate Some(cs: seq<Clause>, o: Oracle) {
    exists c :: c in cs && Matches(c, o)
  }

  predicate TermOn(c: Clause, f: string) {
    PlainTerm(c) && c.field == f
  }

  /** Some term clause on the field matches. */
  ghost predicate SomeTerm(cs: seq<Clause>, f: string, o: Oracle) {
    exists c :: c in cs && TermOn(c, f) && Matches(c, o)
  }

  // ---------- one list ----------

  lemma {:induction false} RestHolds(cs: seq<Clause>, c: Clause)
    ensures c in Rest(cs) <==> c in cs && !PlainTerm(c)
    decreases |cs|
  {
    if cs != [] {
      var n := |cs| - 1;
      RestHolds(cs[..n], c);
      assert cs == cs[..n] + [cs[n]];
    }
  }

  lemma {:induction false} OrderHolds(cs: seq<Clause>, f: string)
    ensures f in FieldOrder(cs) <==> exists c :: c in cs && TermOn(c, f)
    decreases |cs|
  {
    if cs != [] {
      var n := |cs| - 1;
      OrderHolds(cs[..n], f);
      assert cs == cs[..n] + [cs[n]];
      if TermOn(cs[n], f) { assert cs[n] in cs; }
    }
  }

  /** One merged clause for each field. */
  lemma {:induction false} OrderDistinct(cs: seq<Clause>)
    ensures forall i, j | 0 <= i < j < |FieldOrder(cs)| :: FieldOrder(cs)[i] != FieldOrder(cs)[j]
    decreases |cs|
  {
    if cs != [] { OrderDistinct(cs[..|cs| - 1]); }
  }

  lemma {:induction false} ValuesHold(cs: seq<Clause>, f: string, v: Value)
    ensures v in ValuesFor(cs, f) <==> exists c :: c in cs && TermOn(c, f) && c.value == v
    decreases |cs|
  {
    if cs != [] {
      var n := |cs| - 1;
      ValuesHold(cs[..n], f, v);
      assert cs == cs[..n] + [cs[n]];
      if TermOn(cs[n], f) && cs[n].value == v { assert cs[n] in cs; }
    }
  }

  // ---------- what is kept ----------

  function Count(cs: seq<Clause>, f: string, v: Value): nat {
    if cs == [] then 0
    else (if TermOn(cs[|cs| - 1], f) && cs[|cs| - 1].value == v then 1 else 0) + Count(cs[..|cs| - 1], f, v)
  }

  /** The merged clause for a field lists each value as often as there were terms for it. */
  lemma {:induction false} ValuesCounted(cs: seq<Clause>, f: string, v: Value)
    ensures multiset(ValuesFor(cs, f))[v] == Count(cs, f, v)
    decreases |cs|
  {
    if cs != [] { ValuesCounted(cs[..|cs| - 1], f, v); }
  }

  /** Where a field is first seen. */
  predicate FirstAt(cs: seq<Clause>, f: string, i: nat) {
    i < |cs| && TermOn(cs[i], f) && forall j | 0 <= j < i :: !TermOn(cs[j], f)
  }

  /** The merged clauses come in the order in which their fields are first seen. */
  lemma {:induction false} OrderIsFirstSeen(cs: seq<Clause>, i: nat, j: nat, a: nat, b: nat)
    requires i < j < |FieldOrder(cs)| && FirstAt(cs, FieldOrder(cs)[i], a) && FirstAt(cs, FieldOrder(cs)[j], b)
    ensures a < b
    decreases |cs|
  {
    var n := |cs| - 1;
    var front, fs := cs[..n], FieldOrder(cs[..n]);
    OrderHolds(front, FieldOrder(cs)[i]);
    assert i < |fs|;
    assert a < n by {
      var c :| c in front && TermOn(c, fs[i]);
      var k :| 0 <= k < n && front[k] == c;
      assert TermOn(cs[k], fs[i]);
    }
    if j < |fs| {
      OrderHolds(front, fs[j]);
      assert b < n by {
        var c :| c in front && TermOn(c, fs[j]);
        var k :| 0 <= k < n && front[k] == c;
        assert TermOn(cs[k], fs[j]);
      }
      OrderIsFirstSeen(front, i, j, a, b);
    } else {
      OrderHolds(front, FieldOrder(cs)[j]);
      assert forall k | 0 <= k < n :: front[k] in front && front[k] == cs[k];
    }
  }

  // ---------- meaning ----------

  lemma TermMatches(c: Clause, f: string, o: Oracle)
    requires Coherent(o) && TermOn(c, f)
    ensures Matches(c, o) <==> o(Term(f, c.value))
  {
  }

  /** A merged clause matches when some term clause on its field does. */
  lemma MergedMatches(cs: seq<Clause>, f: string, o: Oracle)
    requires Coherent(o)
    ensures Matches(Merged(f, ValuesFor(cs, f)), o) <==> SomeTerm(cs, f, o)
  {
    var vs := ValuesFor(cs, f);
    assert Matches(Merged(f, vs), o) <==> SomeValue(o, f, vs);
    if SomeValue(o, f, vs) {
      var i :| 0 <= i < |vs| && o(Term(f, vs[i]));
      ValuesHold(cs, f, vs[i]);
      var c :| c in cs && TermOn(c, f) && c.value == vs[i];
      TermMatches(c, f, o);
    }
    if SomeTerm(cs, f, o) {
      var c :| c in cs && TermOn(c, f) && Matches(c, o);
      TermMatches(c, f, o);
      ValuesHold(cs, f, c.value);
      var i :| 0 <= i < |vs| && vs[i] == c.value;
    }
  }

  lemma RegroupHolds(cs: seq<Clause>, c: Clause)
    ensures c in Regroup(cs)
       <==> (c in cs && !PlainTerm(c)) || exists f :: f in FieldOrder(cs) && c == Merged(f, ValuesFor(cs, f))
  {
    RestHolds(cs, c);
    var fs, ms := FieldOrder(cs), MergedTerms(cs);
    if c in ms {
      var i :| 0 <= i < |ms| && ms[i] == c;
      assert fs[i] in fs;
    }
    if exists f :: f in fs && c == Merged(f, ValuesFor(cs, f)) {
      var f :| f in fs && c == Merged(f, ValuesFor(cs, f));
      var i :| 0 <= i < |fs| && fs[i] == f;
      assert ms[i] == c;
    }
  }

  /** As alternatives, and so also as exclusions, the merged list means what the list did. */
  lemma RegroupSome(cs: seq<Clause>, o: Oracle)
    requires Coherent(o)
    ensures Some(Regroup(cs), o) <==> Some(cs, o)
  {
    if Some(Regroup(cs), o) {
      var c :| c in Regroup(cs) && Matches(c, o);
      RegroupHolds(cs, c);
      if !(c in cs && !PlainTerm(c)) {
        var f :| f in FieldOrder(cs) && c == Merged(f, ValuesFor(cs, f));
        MergedMatches(cs, f, o);
      }
    }
    if Some(cs, o) {
      var c :| c in cs && Matches(c, o);
      var m := c;
      if PlainTerm(c) {
        assert TermOn(c, c.field);
        OrderHolds(cs, c.field);
        MergedMatches(cs, c.field, o);
        m := Merged(c.field, ValuesFor(cs, c.field));
      }
      RegroupHolds(cs, m);
    }
  }

  /** As requirements, it asks for all other clauses, and for each field some of its values. */
  ghost predicate AllLoosely(cs: seq<Clause>, o: Oracle) {
    && (forall c | c in cs && !PlainTerm(c) :: Matches(c, o))
    && (forall c | c in cs && PlainTerm(c) :: SomeTerm(cs, c.field, o))
  }

  lemma RegroupAll(cs: seq<Clause>, o: Oracle)
    requires Coherent(o)
    ensures All(Regroup(cs), o) <==> AllLoosely(cs, o)
  {
    if All(Regroup(cs), o) {
      forall c | c in cs && !PlainTerm(c) ensures Matches(c, o) { RegroupHolds(cs, c); }
      forall c | c in cs && PlainTerm(c) ensures SomeTerm(cs, c.field, o) {
        assert TermOn(c, c.field);
        OrderHolds(cs, c.field);
        RegroupHolds(cs, Merged(c.field, ValuesFor(cs, c.field)));
        MergedMatches(cs, c.field, o);
      }
    }
    if AllLoosely(cs, o) {
      forall c | c in Regroup(cs) ensures Matches(c, o) {
        RegroupHolds(cs, c);
        if !(c in cs && !PlainTerm(c)) {
          var f :| f in FieldOrder(cs) && c == Merged(f, ValuesFor(cs, f));
          OrderHolds(cs, f);
          MergedMatches(cs, f, o);
        }
      }
    }
  }

  /** Merging requirements never loses a match. */
  lemma RegroupWidens(cs: seq<Clause>, o: Oracle)
    requires Coherent(o) && All(cs, o)
    ensures All(Regroup(cs), o)
  {
    RegroupAll(cs, o);
    forall c | c in cs && PlainTerm(c) ensures SomeTerm(cs, c.field, o) {
      assert TermOn(c, c.field);
    }
  }

  /** The term clauses on one field all have one value. */
  predicate OneValue(cs: seq<Clause>) {
    forall i, j | 0 <= i < |cs| && 0 <= j < |cs| && PlainTerm(cs[i]) && PlainTerm(cs[j])
                  && cs[i].field == cs[j].field ::
      cs[i].value == cs[j].value
  }

  lemma RegroupSame(cs: seq<Clause>, o: Oracle)
    requires Coherent(o) && OneValue(cs)
    ensures All(Regroup(cs), o) <==> All(cs, o)
  {
    RegroupAll(cs, o);
    if All(cs, o) {
      RegroupWidens(cs, o);
    }
    if AllLoosely(cs, o) {
      forall c | c in cs && PlainTerm(c) ensures Matches(c, o) {
        var d :| d in cs && TermOn(d, c.field) && Matches(d, o);
        TermMatches(c, c.field, o);
        TermMatches(d, c.field, o);
      }
    }
  }

  // ---------- the whole tree ----------

  /** No two term clauses of a list are on one field. */
  predicate DistinctFields(cs: seq<Clause>) {
    forall i, j | 0 <= i < j < |cs| && PlainTerm(cs[i]) && PlainTerm(cs[j]) :: cs[i].field != cs[j].field
  }

  /** No list of requirements, at any depth, asks a field for two values, and no list of alternatives
      of which several are asked for has two on one field. */
  predicate Unambiguous(c: Clause)
    decreases c
  {
    c.Clause? ==>
      && OneValue(c.must) && OneValue(c.filter) && (c.minShould <= 1 || DistinctFields(c.should))
      && (forall i | 0 <= i < |c.filter| :: Unambiguous(c.filter[i]))
      && (forall i | 0 <= i < |c.must| :: Unambiguous(c.must[i]))
      && (forall i | 0 <= i < |c.should| :: Unambiguous(c.should[i]))
      && (forall i | 0 <= i < |c.mustNot| :: Unambiguous(c.mustNot[i]))
  }

  lemma MergeListEmpty(cs: seq<Clause>)
    ensures MergeList(cs) == [] <==> cs == []
  {
    var es := MergeEach(cs);
    if cs != [] {
      var c := es[0];
      assert c in es;
      if PlainTerm(c) {
        assert TermOn(c, c.field);
        OrderHolds(es, c.field);
      } else {
        RestHolds(es, c);
      }
    }
  }

  lemma MergePlainTerm(c: Clause)
    ensures PlainTerm(MergeClause(c)) <==> PlainTerm(c)
    ensures PlainTerm(c) ==> MergeClause(c) == c
  {
    if c.Clause? {
      MergeListEmpty(c.must);
      MergeListEmpty(c.mustNot);
      MergeListEmpty(c.should);
      MergeListEmpty(c.filter);
    }
  }

  lemma MergeEachOneValue(cs: seq<Clause>)
    requires OneValue(cs)
    ensures OneValue(MergeEach(cs))
  {
    forall i | 0 <= i < |cs| ensures PlainTerm(MergeClause(cs[i])) <==> PlainTerm(cs[i])
                             ensures PlainTerm(cs[i]) ==> MergeClause(cs[i]) == cs[i]
    {
      MergePlainTerm(cs[i]);
    }
  }

  ghost predicate EachKept(cs: seq<Clause>, o: Oracle) {
    forall i | 0 <= i < |cs| :: Matches(MergeClause(cs[i]), o) == Matches(cs[i], o)
  }

  lemma EachAll(cs: seq<Clause>, o: Oracle)
    requires EachKept(cs, o)
    ensures All(MergeEach(cs), o) <==> All(cs, o)
  {
    AllByIndex(MergeEach(cs), o);
    AllByIndex(cs, o);
  }

  lemma EachSome(cs: seq<Clause>, o: Oracle)
    requires EachKept(cs, o)
    ensures Some(MergeEach(cs), o) <==> Some(cs, o)
  {
    SomeByIndex(MergeEach(cs), o);
    SomeByIndex(cs, o);
  }

  lemma AllByIndex(cs: seq<Clause>, o: Oracle)
    ensures All(cs, o) <==> forall i | 0 <= i < |cs| :: Matches(cs[i], o)
  {
    forall i | 0 <= i < |cs| ensures cs[i] in cs {}
  }

  lemma SomeByIndex(cs: seq<Clause>, o: Oracle)
    ensures Some(cs, o) <==> exists i | 0 <= i < |cs| :: Matches(cs[i], o)
  {
    forall i | 0 <= i < |cs| ensures cs[i] in cs {}
  }

  lemma ListKept(cs: seq<Clause>, o: Oracle)
    requires Coherent(o) && EachKept(cs, o)
    ensures Some(MergeList(cs), o) <==> Some(cs, o)
    ensures OneValue(cs) ==> (All(MergeList(cs), o) <==> All(cs, o))
  {
    EachSome(cs, o);
    RegroupSome(MergeEach(cs), o);
    if OneValue(cs) {
      EachAll(cs, o);
      MergeEachOneValue(cs);
      RegroupSame(MergeEach(cs), o);
    }
  }

  // ---------- counting alternatives ----------

  lemma ValuesOfOther(cs: seq<Clause>, c: Clause, fs: seq<string>)
    requires PlainTerm(c) ==> c.field !in fs
    ensures forall i | 0 <= i < |fs| :: ValuesFor(cs + [c], fs[i]) == ValuesFor(cs, fs[i])
  {
    forall i | 0 <= i < |fs| ensures ValuesFor(cs + [c], fs[i]) == ValuesFor(cs, fs[i]) {
      ValuesSnoc(cs, c, fs[i]);
    }
  }

  lemma MergedSnoc(cs: seq<Clause>, c: Clause)
    requires DistinctFields(cs + [c])
    ensures PlainTerm(c)
       ==> Rest(cs + [c]) == Rest(cs) && MergedTerms(cs + [c]) == MergedTerms(cs) + [Term(c.field, c.value)]
    ensures !PlainTerm(c) ==> Rest(cs + [c]) == Rest(cs) + [c] && MergedTerms(cs + [c]) == MergedTerms(cs)
  {
    Snoc(cs, c);
    if PlainTerm(c) {
      NewField(cs, c);
      ValuesSnoc(cs, c, c.field);
    }
    ValuesOfOther(cs, c, FieldOrder(cs));
  }

  lemma NewField(cs: seq<Clause>, c: Clause)
    requires DistinctFields(cs + [c]) && PlainTerm(c)
    ensures c.field !in FieldOrder(cs) && ValuesFor(cs, c.field) == []
  {
    forall i | 0 <= i < |cs| ensures !TermOn(cs[i], c.field) {
      assert (cs + [c])[i] == cs[i] && (cs + [c])[|cs|] == c;
    }
    OrderHolds(cs, c.field);
    if v :| v in ValuesFor(cs, c.field) {
      ValuesHold(cs, c.field, v);
      assert false;
    }
    if ValuesFor(cs, c.field) != [] { assert ValuesFor(cs, c.field)[0] in ValuesFor(cs, c.field); }
  }

  /** With one term on each field at most, merging changes no count. */
  lemma {:induction false} RegroupHits(cs: seq<Clause>, o: Oracle)
    requires Coherent(o) && DistinctFields(cs)
    ensures Hits(Regroup(cs), o) == Hits(cs, o)
    decreases |cs|
  {
    if cs != [] {
      var n := |cs| - 1;
      var front, c := cs[..n], cs[n];
      assert cs == front + [c];
      RegroupHits(front, o);
      MergedSnoc(front, c);
      HitsOfConcat(front, [c], o);
      HitsOfConcat(Rest(front), MergedTerms(front), o);
      HitsOfConcat(Rest(cs), MergedTerms(cs), o);
      if PlainTerm(c) {
        HitsOfConcat(MergedTerms(front), [Term(c.field, c.value)], o);
        TermMatches(c, c.field, o);
        assert Hits([Term(c.field, c.value)], o) == Hits([c], o) by {
          assert [c][1..] == [] && [Term(c.field, c.value)][1..] == [];
        }
      } else {
        HitsOfConcat(Rest(front), [c], o);
      }
    }
  }

  lemma HitsKept(cs: seq<Clause>, o: Oracle)
    requires Coherent(o) && EachKept(cs, o) && DistinctFields(cs)
    ensures Hits(MergeList(cs), o) == Hits(cs, o)
  {
    var es := MergeEach(cs);
    forall i | 0 <= i < |cs|
      ensures PlainTerm(es[i]) <==> PlainTerm(cs[i])
      ensures PlainTerm(cs[i]) ==> es[i] == cs[i]
    {
      MergePlainTerm(cs[i]);
    }
    RegroupHits(es, o);
    SameHits(es, cs, o);
  }

  lemma {:induction false} SameHits(es: seq<Clause>, cs: seq<Clause>, o: Oracle)
    requires |es| == |cs| && forall i | 0 <= i < |cs| :: Matches(es[i], o) == Matches(cs[i], o)
    ensures Hits(es, o) == Hits(cs, o)
    decreases |cs|
  {
    if cs != [] { SameHits(es[1..], cs[1..], o); }
  }

  /** Two values of a field, both asked for among alternatives, can never be had once merged. */
  lemma CountedTermsLost(f: string, v: Value, u: Value, o: Oracle)
    requires Coherent(o)
    ensures var c := Clause("", "", Null, 2, [], [], [Term(f, v), Term(f, u)], []);
            && (Matches(c, o) <==> o(Term(f, v)) && o(Term(f, u)))
            && !Matches(MergeClause(c), o)
  {
    var a, b := Term(f, v), Term(f, u);
    TwoHits(a, b, o);
    MergedToOne(f, v, u);
    OneIsNotTwo(MergeList([a, b]), o);
    assert MergeList([]) == [];
  }

  lemma TwoHits(a: Clause, b: Clause, o: Oracle)
    requires IsLeaf(a) && IsLeaf(b)
    ensures Hits([a, b], o) >= 2 <==> o(a) && o(b)
  {
    assert [a, b] == [a] + [b] && [a][1..] == [] && [b][1..] == [];
    HitsOfConcat([a], [b], o);
  }

  lemma MergedToOne(f: string, v: Value, u: Value)
    ensures |MergeList([Term(f, v), Term(f, u)])| == 1
  {
    var a, b := Term(f, v), Term(f, u);
    MergePlainTerm(a);
    MergePlainTerm(b);
    assert MergeEach([a, b]) == [a, b] by { assert [a, b][1..] == [b] && [b][1..] == []; }
    Snoc([], a);
    Snoc([a], b);
    assert [] + [a] == [a] && [a] + [b] == [a, b];
  }

  lemma OneIsNotTwo(cs: seq<Clause>, o: Oracle)
    requires |cs| == 1
    ensures Hits(cs, o) < 2
  {
    assert cs == [cs[0]] && cs[1..] == [];
  }

  lemma BoolMatches(c: Clause, o: Oracle)
    requires IsBool(c)
    ensures Matches(c, o) <==>
              All(c.filter, o) && All(c.must, o) && !Some(c.mustNot, o)
              && (ShouldRequired(c) ==> Hits(c.should, o) >= Needed(c))
  {
  }

  /** Merging a query in which no requirements ask a field for two values keeps its meaning. */
  lemma {:induction false} MergeKeepsMeaning(c: Clause, o: Oracle)
    requires Coherent(o) && Unambiguous(c)
    ensures Matches(MergeClause(c), o) <==> Matches(c, o)
    decreases c, 1
  {
    if IsBool(c) {
      EachMerged(c.filter, o);
      EachMerged(c.must, o);
      EachMerged(c.should, o);
      EachMerged(c.mustNot, o);
      BoolKept(c, o);
    } else if IsLeaf(c) {
      assert IsLeaf(MergeClause(c));
    }
  }

  lemma {:induction false} EachMerged(cs: seq<Clause>, o: Oracle)
    requires Coherent(o) && forall i | 0 <= i < |cs| :: Unambiguous(cs[i])
    ensures EachKept(cs, o)
    decreases cs, 0
  {
    forall i | 0 <= i < |cs| ensures Matches(MergeClause(cs[i]), o) == Matches(cs[i], o) {
      MergeKeepsMeaning(cs[i], o);
    }
  }

  lemma BoolKept(c: Clause, o: Oracle)
    requires Coherent(o) && IsBool(c) && OneValue(c.must) && OneValue(c.filter)
    requires c.minShould <= 1 || DistinctFields(c.should)
    requires EachKept(c.filter, o) && EachKept(c.must, o) && EachKept(c.should, o) && EachKept(c.mustNot, o)
    ensures Matches(MergeClause(c), o) <==> Matches(c, o)
  {
    ListKept(c.filter, o);
    ListKept(c.must, o);
    ListKept(c.mustNot, o);
    ShouldKept(c, o);
    BoolMatches(c, o);
    BoolMatches(MergeClause(c), o);
  }

  lemma ShouldKept(c: Clause, o: Oracle)
    requires Coherent(o) && IsBool(c) && EachKept(c.should, o) && (c.minShould <= 1 || DistinctFields(c.should))
    ensures ShouldRequired(MergeClause(c)) <==> ShouldRequired(c)
    ensures Hits(MergeClause(c).should, o) >= Needed(MergeClause(c)) <==> Hits(c.should, o) >= Needed(c)
  {
    MergeListEmpty(c.should);
    MergeListEmpty(c.filter);
    MergeListEmpty(c.must);
    if c.minShould > 1 {
      HitsKept(c.should, o);
    } else {
      ListKept(c.should, o);
      SomeHit(c.should, o);
      SomeHit(MergeList(c.should), o);
    }
  }

  // ---------- filters of a request ----------

  /** What a filter argument is parsed to: a leaf, or a must_not around one. */
  predicate FilterShape(c: Clause) {
    && c.Clause? && c.filter == [] && c.must == [] && c.should == []
    && (IsLeaf(c) ==> c.mustNot == [])
    && (IsBool(c) ==> |c.mustNot| == 1 && IsLeaf(c.mustNot[0]) && NumOfClauses(c.mustNot[0]) == 0)
  }

  lemma LooselyEach(cs: seq<Clause>, o: Oracle)
    requires EachKept(cs, o)
    ensures AllLoosely(MergeEach(cs), o) <==> AllLoosely(cs, o)
  {
    var es := MergeEach(cs);
    forall i | 0 <= i < |cs|
      ensures PlainTerm(es[i]) <==> PlainTerm(cs[i])
      ensures PlainTerm(cs[i]) ==> es[i] == cs[i]
      ensures Matches(es[i], o) == Matches(cs[i], o) && es[i] in es && cs[i] in cs
    {
      MergePlainTerm(cs[i]);
    }
    forall f ensures SomeTerm(es, f, o) <==> SomeTerm(cs, f, o) { SomeTermEach(cs, f, o); }
    LooselyByIndex(es, o);
    LooselyByIndex(cs, o);
  }

  lemma SomeTermEach(cs: seq<Clause>, f: string, o: Oracle)
    requires EachKept(cs, o)
    ensures SomeTerm(MergeEach(cs), f, o) <==> SomeTerm(cs, f, o)
  {
    var es := MergeEach(cs);
    forall i | 0 <= i < |cs|
      ensures PlainTerm(es[i]) <==> PlainTerm(cs[i])
      ensures PlainTerm(cs[i]) ==> es[i] == cs[i]
    {
      MergePlainTerm(cs[i]);
    }
    if SomeTerm(es, f, o) {
      var c :| c in es && TermOn(c, f) && Matches(c, o);
      var i :| 0 <= i < |es| && es[i] == c;
      assert cs[i] in cs;
    }
    if SomeTerm(cs, f, o) {
      var c :| c in cs && TermOn(c, f) && Matches(c, o);
      var i :| 0 <= i < |cs| && cs[i] == c;
      assert es[i] in es;
    }
  }

  lemma LooselyByIndex(cs: seq<Clause>, o: Oracle)
    ensures AllLoosely(cs, o)
       <==> forall i | 0 <= i < |cs| :: if PlainTerm(cs[i]) then SomeTerm(cs, cs[i].field, o) else Matches(cs[i], o)
  {
    forall i | 0 <= i < |cs| ensures cs[i] in cs {}
  }

  /** The filters of a request, merged and required, ask for every filter that is no term and, for
      each field, one of the values listed for it. */
  lemma FiltersMean(cs: seq<Clause>, o: Oracle)
    requires Coherent(o) && FilterShapes(cs)
    ensures All(MergeList(cs), o) <==> AllLoosely(cs, o)
  {
    FiltersKept(cs, o);
    LooselyEach(cs, o);
    RegroupAll(MergeEach(cs), o);
  }

  lemma FiltersKept(cs: seq<Clause>, o: Oracle)
    requires Coherent(o) && FilterShapes(cs)
    ensures EachKept(cs, o)
  {
    forall i | 0 <= i < |cs| ensures Unambiguous(cs[i]) {
      FilterIsUnambiguous(cs[i]);
    }
    EachMerged(cs, o);
  }

  lemma FilterIsUnambiguous(c: Clause)
    requires FilterShape(c)
    ensures Unambiguous(c)
  {
    if IsBool(c) { LeafIsUnambiguous(c.mustNot[0]); }
  }

  lemma LeafIsUnambiguous(c: Clause)
    requires c.Clause? && NumOfClauses(c) == 0
    ensures Unambiguous(c)
  {
  }

  // ---------- when the merged filters of a request keep their meaning ----------

  predicate FilterShapes(cs: seq<Clause>) {
    forall i | 0 <= i < |cs| :: FilterShape(cs[i])
  }

  /** A leaf judged by the values it lists. */
  predicate ListsValues(d: Clause) {
    IsLeaf(d) && (d.op == "term" || (d.op == "terms" && d.value.Many?))
  }

  function Listed(d: Clause): seq<Value>
    requires ListsValues(d)
  {
    if d.op == "term" then [d.value] else d.value.vs
  }

  predicate SameLeaf(c: Clause, d: Clause) {
    IsLeaf(c) && IsLeaf(d) && c.field == d.field && c.op == d.op && c.value == d.value
  }

  /** A must_not filter of a leaf that lists this value. */
  predicate ExcludesValue(c: Clause, g: string, v: Value) {
    IsBool(c) && |c.mustNot| == 1 && ListsValues(c.mustNot[0]) && c.mustNot[0].field == g && v in Listed(c.mustNot[0])
  }

  predicate ExcludesLeaf(c: Clause, d: Clause) {
    IsBool(c) && |c.mustNot| == 1 && SameLeaf(c.mustNot[0], d)
  }

  /** The value `w` of `f` itself, and every value that some filter excludes. */
  predicate Barred(cs: seq<Clause>, f: string, w: Value, g: string, v: Value) {
    (g == f && v == w) || exists i | 0 <= i < |cs| :: ExcludesValue(cs[i], g, v)
  }

  /** A filter that a document without the value `w` of `f` cannot satisfy together with the
      excluding filters, once the filters are merged. */
  predicate Unmet(cs: seq<Clause>, f: string, w: Value, c: Clause) {
    && IsLeaf(c)
    && if PlainTerm(c) then forall v | v in ValuesFor(cs, c.field) :: Barred(cs, f, w, c.field, v)
       else if ListsValues(c) then forall v | v in Listed(c) :: Barred(cs, f, w, c.field, v)
       else exists i | 0 <= i < |cs| :: ExcludesLeaf(cs[i], c)
  }

  /** Every document that satisfies the merged filters has this value. */
  predicate Forced(cs: seq<Clause>, f: string, w: Value) {
    exists i | 0 <= i < |cs| :: Unmet(cs, f, w, cs[i])
  }

  predicate AllForced(cs: seq<Clause>) {
    forall i | 0 <= i < |cs| && PlainTerm(cs[i]) :: Forced(cs, cs[i].field, cs[i].value)
  }

  lemma ListedMatches(d: Clause, o: Oracle)
    requires Coherent(o) && ListsValues(d)
    ensures o(d) <==> exists v :: v in Listed(d) && o(Term(d.field, v))
  {
    if d.op == "terms" {
      assert Leaf(d.field, d.op, d.value) == Terms(d.field, d.value.vs);
      if SomeValue(o, d.field, d.value.vs) {
        var i :| 0 <= i < |d.value.vs| && o(Term(d.field, d.value.vs[i]));
        assert d.value.vs[i] in Listed(d);
      }
    } else {
      assert d.value in Listed(d);
    }
  }

  /** A must_not filter of the request excludes what its leaf matches. */
  lemma ExcludingMatches(c: Clause, o: Oracle)
    requires FilterShape(c) && IsBool(c)
    ensures Matches(c, o) <==> !o(c.mustNot[0])
  {
    assert c.mustNot == [c.mustNot[0]];
    assert c.mustNot[0] in c.mustNot;
  }

  lemma BarredFails(cs: seq<Clause>, f: string, w: Value, g: string, v: Value, o: Oracle)
    requires Coherent(o) && FilterShapes(cs) && AllLoosely(cs, o) && !o(Term(f, w)) && Barred(cs, f, w, g, v)
    ensures !o(Term(g, v))
  {
    if i :| 0 <= i < |cs| && ExcludesValue(cs[i], g, v) {
      assert cs[i] in cs;
      ExcludingMatches(cs[i], o);
      ListedMatches(cs[i].mustNot[0], o);
    }
  }

  /** A document that satisfies the merged filters satisfies each of them: it has every forced value. */
  lemma ForcedHolds(cs: seq<Clause>, f: string, w: Value, o: Oracle)
    requires Coherent(o) && FilterShapes(cs) && AllLoosely(cs, o) && Forced(cs, f, w)
    ensures o(Term(f, w))
  {
    if !o(Term(f, w)) {
      var i :| 0 <= i < |cs| && Unmet(cs, f, w, cs[i]);
      UnmetFails(cs, f, w, cs[i], o);
    }
  }

  lemma UnmetFails(cs: seq<Clause>, f: string, w: Value, c: Clause, o: Oracle)
    requires Coherent(o) && FilterShapes(cs) && AllLoosely(cs, o) && !o(Term(f, w)) && c in cs
    ensures !Unmet(cs, f, w, c)
  {
    if Unmet(cs, f, w, c) {
      if PlainTerm(c) {
        var d :| d in cs && TermOn(d, c.field) && Matches(d, o);
        TermMatches(d, c.field, o);
        ValuesHold(cs, c.field, d.value);
        BarredFails(cs, f, w, c.field, d.value, o);
      } else if ListsValues(c) {
        ListedMatches(c, o);
        var v :| v in Listed(c) && o(Term(c.field, v));
        BarredFails(cs, f, w, c.field, v, o);
      } else {
        var i :| 0 <= i < |cs| && ExcludesLeaf(cs[i], c);
        assert cs[i] in cs;
        ExcludingMatches(cs[i], o);
      }
    }
  }

  /** An engine that matches all it can without the value `w` of `f`. */
  predicate Generous(cs: seq<Clause>, f: string, w: Value, d: Clause) {
    IsLeaf(d) ==>
      if ListsValues(d) then exists v :: v in Listed(d) && !Barred(cs, f, w, d.field, v)
      else forall i | 0 <= i < |cs| :: !ExcludesLeaf(cs[i], d)
  }

  lemma GenerousTerm(cs: seq<Clause>, f: string, w: Value, g: string, v: Value)
    ensures Generous(cs, f, w, Term(g, v)) <==> !Barred(cs, f, w, g, v)
  {
    assert v in Listed(Term(g, v));
  }

  lemma GenerousIsCoherent(cs: seq<Clause>, f: string, w: Value) returns (o: Oracle)
    ensures Coherent(o) && forall d :: o(d) == Generous(cs, f, w, d)
  {
    o := d => Generous(cs, f, w, d);
    forall c | IsLeaf(c) ensures o(c) == o(Leaf(c.field, c.op, c.value)) { GenerousBare(cs, f, w, c); }
    forall g, vs ensures o(Terms(g, vs)) <==> SomeValue(o, g, vs) {
      forall v ensures Generous(cs, f, w, Term(g, v)) <==> !Barred(cs, f, w, g, v) { GenerousTerm(cs, f, w, g, v); }
      assert Listed(Terms(g, vs)) == vs;
      if SomeValue(o, g, vs) {
        var i :| 0 <= i < |vs| && o(Term(g, vs[i]));
        assert vs[i] in vs;
      }
      if o(Terms(g, vs)) {
        var v :| v in vs && !Barred(cs, f, w, g, v);
        var i :| 0 <= i < |vs| && vs[i] == v;
        assert o(Term(g, vs[i]));
      }
    }
  }

  lemma GenerousBare(cs: seq<Clause>, f: string, w: Value, c: Clause)
    requires IsLeaf(c)
    ensures Generous(cs, f, w, c) <==> Generous(cs, f, w, Leaf(c.field, c.op, c.value))
  {
    var d := Leaf(c.field, c.op, c.value);
    assert forall i | 0 <= i < |cs| :: ExcludesLeaf(cs[i], d) <==> ExcludesLeaf(cs[i], c);
    if ListsValues(c) { assert Listed(d) == Listed(c); }
  }

  /** When a value is not forced, the generous engine satisfies the merged filters without it. */
  lemma GenerousSatisfies(cs: seq<Clause>, f: string, w: Value, o: Oracle)
    requires Coherent(o) && FilterShapes(cs) && !Forced(cs, f, w) && forall d :: o(d) == Generous(cs, f, w, d)
    ensures AllLoosely(cs, o)
  {
    forall c | c in cs
      ensures !PlainTerm(c) ==> Matches(c, o)
      ensures PlainTerm(c) ==> SomeTerm(cs, c.field, o)
    {
      var i :| 0 <= i < |cs| && cs[i] == c;
      assert !Unmet(cs, f, w, c);
      if PlainTerm(c) {
        var v :| v in ValuesFor(cs, c.field) && !Barred(cs, f, w, c.field, v);
        ValuesHold(cs, c.field, v);
        var d :| d in cs && TermOn(d, c.field) && d.value == v;
        GenerousTerm(cs, f, w, c.field, v);
        TermMatches(d, c.field, o);
      } else if IsBool(c) {
        ExcludingMatches(c, o);
        GenerousExcludes(cs, f, w, c);
      }
    }
  }

  lemma GenerousExcludes(cs: seq<Clause>, f: string, w: Value, c: Clause)
    requires c in cs && FilterShape(c) && IsBool(c)
    ensures !Generous(cs, f, w, c.mustNot[0])
  {
    var i :| 0 <= i < |cs| && cs[i] == c;
    var d := c.mustNot[0];
    if ListsValues(d) {
      forall v | v in Listed(d) ensures Barred(cs, f, w, d.field, v) { assert ExcludesValue(cs[i], d.field, v); }
    } else {
      assert ExcludesLeaf(cs[i], d);
    }
  }

  /** The merged filters of a request mean the same to every coherent engine exactly when each value
      asked for by a term is forced. */
  lemma RequirementsKeptIff(cs: seq<Clause>)
    requires FilterShapes(cs)
    ensures (forall o | Coherent(o) :: All(MergeList(cs), o) <==> All(cs, o)) <==> AllForced(cs)
  {
    if AllForced(cs) {
      forall o | Coherent(o) ensures All(MergeList(cs), o) <==> All(cs, o) { ForcedKept(cs, o); }
    } else {
      var i :| 0 <= i < |cs| && PlainTerm(cs[i]) && !Forced(cs, cs[i].field, cs[i].value);
      var f, w := cs[i].field, cs[i].value;
      var o := GenerousIsCoherent(cs, f, w);
      GenerousSatisfies(cs, f, w, o);
      FiltersMean(cs, o);
      GenerousTerm(cs, f, w, f, w);
      TermMatches(cs[i], f, o);
      assert cs[i] in cs;
      assert All(MergeList(cs), o) && !All(cs, o);
    }
  }

  lemma ForcedKept(cs: seq<Clause>, o: Oracle)
    requires FilterShapes(cs) && AllForced(cs) && Coherent(o)
    ensures All(MergeList(cs), o) <==> All(cs, o)
  {
    FiltersMean(cs, o);
    if AllLoosely(cs, o) {
      forall c | c in cs ensures Matches(c, o) {
        if PlainTerm(c) {
          var i :| 0 <= i < |cs| && cs[i] == c;
          ForcedHolds(cs, c.field, c.value, o);
          TermMatches(c, c.field, o);
        }
      }
    } else if All(cs, o) {
      forall c | c in cs && PlainTerm(c) ensures SomeTerm(cs, c.field, o) { assert TermOn(c, c.field); }
    }
  }
}
