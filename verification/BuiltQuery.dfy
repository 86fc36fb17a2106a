/** What a query means once the clauses generated from its free text are added and it is simplified. */
module BuiltQuery {
  import opened Clauses
  import opened Simplifier
  import opened SimplifyMeaning
  import opened ClauseNodes

  /** What the parts of the root and some text clause ask of a document. With text to match, the should
      list of the root is optional unless a number of it is asked for. */
  ghost predicate AsksFor(t: Clause, ts: seq<Clause>, o: Oracle)
    requires t.Clause?
  {
    && (forall d | d in t.filter :: Matches(d, o))
    && (forall d | d in t.must :: Matches(d, o))
    && (forall d | d in t.mustNot :: !Matches(d, o))
    && Hits(ts, o) >= 1
    && (t.minShould >= 1 && t.should != [] ==> Hits(t.should, o) >= t.minShould)
  }

  /** A boolean root with text clauses matches what its parts ask for and at least one text clause. */
  lemma TextIsRequired(t: Clause, ts: seq<Clause>, query: string, o: Oracle)
    requires IsBool(t) && ts != [] && query != ""
    ensures Matches(Rooted(t, ts, false, query), o) <==> AsksFor(t, ts, o)
  {
    var r := Rooted(t, ts, false, query);
    var added := r.must[|t.must|];
    AddedMust(t, ts, query, o);
    assert r.must == t.must + [added];
    AllOfConcat(t.must, [added], o);
  }

  /** The must that is added is there for some text clause to match. */
  lemma AddedMust(t: Clause, ts: seq<Clause>, query: string, o: Oracle)
    requires t.Clause? && ts != [] && query != ""
    ensures var r := Rooted(t, ts, false, query);
            |r.must| == |t.must| + 1 && (Matches(r.must[|t.must|], o) <==> Hits(ts, o) >= 1)
  {
    if |ts| == 1 {
      assert ts == [ts[0]] && ts[1..] == [];
    }
  }

  lemma AllOfConcat(a: seq<Clause>, b: seq<Clause>, o: Oracle)
    ensures (forall d | d in a + b :: Matches(d, o)) <==>
            (forall d | d in a :: Matches(d, o)) && (forall d | d in b :: Matches(d, o))
  {
    assert forall d :: d in a + b <==> d in a || d in b;
  }

  /** Only one must is added; everything else in the root stays as it was. */
  lemma TextAddsOneMust(t: Clause, ts: seq<Clause>, query: string)
    requires t.Clause? && ts != [] && query != ""
    ensures var r := Rooted(t, ts, false, query);
            && r.Clause? && |r.must| == |t.must| + 1 && t.must <= r.must
            && r.field == t.field && r.op == t.op && r.value == t.value && r.minShould == t.minShould
            && r.filter == t.filter && r.should == t.should && r.mustNot == t.mustNot
  {
  }

  /** Without text, without clauses for it, or the second time, nothing is added. */
  lemma NoTextAddsNothing(t: Clause, ts: seq<Clause>, skip: bool, query: string)
    requires skip || query == "" || ts == []
    ensures Rooted(t, ts, skip, query) == t
  {
  }

  lemma {:induction false} PlainText(t: Clause, ts: seq<Clause>, query: string)
    requires IsBool(t) && ts != [] && query != "" && t.minShould <= 1
    requires forall d | d in t.filter + t.must + t.should + ts :: Plain(d)
    requires forall d | d in t.mustNot :: Plain(d) && NoMustNot(d)
    ensures Plain(Rooted(t, ts, false, query))
  {
    var r := Rooted(t, ts, false, query);
    if |ts| > 1 {
      assert r.must[|t.must|].should == ts;
      forall d | d in ts ensures Plain(d) { assert d in t.filter + t.must + t.should + ts; }
      assert Plain(r.must[|t.must|]);
    }
    forall d | d in r.filter + r.must + r.should ensures Plain(d) {
      if d !in t.filter + t.must + t.should + ts { assert d == r.must[|t.must|]; }
    }
  }

  /** What is built from a plain root and plain text clauses matches exactly what those ask for. */
  lemma BuiltMeans(t: Clause, ts: seq<Clause>, query: string, o: Oracle)
    requires IsBool(t) && ts != [] && query != "" && t.minShould <= 1
    requires forall d | d in t.filter + t.must + t.should + ts :: Plain(d)
    requires forall d | d in t.mustNot :: Plain(d) && NoMustNot(d)
    ensures Matches(Simplify(Rooted(t, ts, false, query)), o) <==> AsksFor(t, ts, o)
  {
    PlainText(t, ts, query);
    SimplifyPreservesPlain(Rooted(t, ts, false, query), o);
    TextIsRequired(t, ts, query, o);
  }
}
