/** When simplification keeps what a query matches, and when it turns it upside down.

    Dropping an empty clause, flattening must_not inside must_not, and flattening or collapsing a
    boolean that asks for several of its alternatives can all change the meaning. `Outcomes`
    computes, from the tree alone, every pair of answers that a query and its simplification can
    give together: `FateExact` proves it right in both directions for every tree whose leaves are
    pairwise distinct. */
module SimplifyMeaning {
  import opened Clauses
  import opened Simplifier
  import opened SimplifiedShape

  // ---------- the answers a query and its simplification can give together ----------

  /** Whether a clause matches, whether its simplification does, and how many of the clauses that
      the simplification adds to a should list do. */
  datatype Outcome = Outcome(before: bool, after: bool, score: nat)

  /** The same for a list: whether it holds as a list of its type, before and after, and how many of
      its clauses match, before and after. */
  datatype Tally = Tally(before: bool, after: bool, hits: nat, score: nat)

  predicate Positive(typ: BoolType) {
    typ == Filter || typ == Must
  }

  function Plus(a: Tally, b: Tally): Tally {
    Tally(a.before && b.before, a.after && b.after, a.hits + b.hits, a.score + b.score)
  }

  /** What one clause of the given shape adds to a list. A must_not flattened into a must_not keeps
      the sign it had. */
  function Added(x: Outcome, s: Shape, typ: BoolType): Tally {
    Tally(typ == Should || x.before == Positive(typ),
          typ == Should || s.Gone?
          || (if typ == MustNot && Only(s, MustNot) then x.after else x.after == Positive(typ)),
          if x.before then 1 else 0, x.score)
  }

  predicate RequiredAfter(c: Clause, s: Shape)
    requires c.Clause? && s.Lists?
  {
    s.should > 0 && (c.minShould >= 1 || (s.filter == 0 && s.must == 0))
  }

  /** The outcome of a boolean from those of its lists. A sole should is collapsed, and with it the
      number asked for is lost. */
  function Combined(c: Clause, f: Tally, m: Tally, sh: Tally, n: Tally): Outcome
    requires c.Clause?
  {
    var s := SizesOf(c);
    var before := f.before && m.before && n.before && (ShouldRequired(c) ==> sh.hits >= Needed(c));
    var after := if s == Lists(0, 0, 1, 0) then sh.score >= 1
                 else f.after && m.after && n.after && (RequiredAfter(c, s) ==> sh.score >= Needed(c));
    var score := if s == Lists(0, 0, 0, 0) then 0
                 else if s == Lists(0, 1, 0, 0) then m.score
                 else if Only(s, Should) then sh.score
                 else if after then 1
                 else 0;
    Outcome(before, after, score)
  }

  function Outcomes(c: Clause): set<Outcome>
    decreases c, 1
  {
    if c.Nil? then {Outcome(true, true, 0)}
    else if IsLeaf(c) then {Outcome(true, true, if EmptyLeaf(c) then 0 else 1), Outcome(false, false, 0)}
    else
      set f, m, sh, n | f in Tallies(c.filter, Filter) && m in Tallies(c.must, Must)
                        && sh in Tallies(c.should, Should) && n in Tallies(c.mustNot, MustNot) ::
        Combined(c, f, m, sh, n)
  }

  function Tallies(list: seq<Clause>, typ: BoolType): set<Tally>
    decreases list, 0
  {
    if list == [] then {Tally(true, true, 0, 0)}
    else
      var s := ShapeOf(list[0]);
      set x, t | x in Outcomes(list[0]) && t in Tallies(list[1..], typ) :: Plus(Added(x, s, typ), t)
  }

  datatype Fate = Same | Inverted | Neither

  /** What simplification does to the meaning of `c`. */
  function FateOf(c: Clause): Fate {
    if forall x | x in Outcomes(c) :: x.before == x.after then Same
    else if forall x | x in Outcomes(c) :: x.before != x.after then Inverted
    else Neither
  }

  // ---------- on one document ----------

  /** Every filter or must matches; no must_not does. */
  ghost predicate Holds(list: seq<Clause>, typ: BoolType, o: Oracle) {
    forall d | d in list :: Matches(d, o) == Positive(typ)
  }

  lemma MatchesIsConjunction(c: Clause, o: Oracle)
    requires IsBool(c)
    ensures Matches(c, o) <==>
              && Holds(c.filter, Filter, o) && Holds(c.must, Must, o) && Holds(c.mustNot, MustNot, o)
              && (ShouldRequired(c) ==> Hits(c.should, o) >= Needed(c))
  {
  }

  lemma HoldsOfConcat(a: seq<Clause>, b: seq<Clause>, typ: BoolType, o: Oracle)
    ensures Holds(a + b, typ, o) <==> Holds(a, typ, o) && Holds(b, typ, o)
  {
    if Holds(a + b, typ, o) {
      forall d | d in a ensures Matches(d, o) == Positive(typ) { assert d in a + b; }
      forall d | d in b ensures Matches(d, o) == Positive(typ) { assert d in a + b; }
    }
  }

  ghost function OutcomeOn(c: Clause, o: Oracle): Outcome {
    Outcome(Matches(c, o), Matches(Simplify(c), o), Hits(Keep(Simplify(c), Should), o))
  }

  ghost function Scores(list: seq<Clause>, o: Oracle): nat {
    if list == [] then 0 else Hits(Keep(Simplify(list[0]), Should), o) + Scores(list[1..], o)
  }

  ghost function TallyOn(list: seq<Clause>, typ: BoolType, o: Oracle): Tally {
    Tally(typ == Should || Holds(list, typ, o), typ == Should || Holds(SimplifyList(list, typ), typ, o),
          Hits(list, o), Scores(list, o))
  }

  /** What is kept of one simplified clause, read inside the list that holds it. */
  lemma KeepHolds(d: Clause, typ: BoolType, o: Oracle)
    requires typ != Should
    ensures Holds(Keep(d, typ), typ, o) <==>
            Dropped(d) || (if typ == MustNot
                           && OnlyType(d, MustNot) then Matches(d, o) else Matches(d, o) == Positive(typ))
  {
    if !Dropped(d) && OnlyType(d, typ) { MatchesIsConjunction(d, o); }
  }

  lemma HoldsStep(list: seq<Clause>, typ: BoolType, o: Oracle)
    requires list != []
    ensures Holds(list, typ, o) <==> Matches(list[0], o) == Positive(typ) && Holds(list[1..], typ, o)
  {
    assert list == [list[0]] + list[1..];
    HoldsOfConcat([list[0]], list[1..], typ, o);
  }

  lemma KeptStep(list: seq<Clause>, typ: BoolType, o: Oracle)
    requires list != [] && typ != Should
    ensures Holds(SimplifyList(list, typ), typ, o)
       <==> && Added(OutcomeOn(list[0], o), ShapeOf(list[0]), typ).after
            && Holds(SimplifyList(list[1..], typ), typ, o)
  {
    var d := Simplify(list[0]);
    HoldsOfConcat(Keep(d, typ), SimplifyList(list[1..], typ), typ, o);
    KeepHolds(d, typ, o);
    ShapeIs(list[0]);
    KeptSizeIs(d, MustNot);
  }

  lemma TallyStep(list: seq<Clause>, typ: BoolType, o: Oracle)
    requires list != []
    ensures TallyOn(list, typ, o)
         == Plus(Added(OutcomeOn(list[0], o), ShapeOf(list[0]), typ), TallyOn(list[1..], typ, o))
  {
    HoldsStep(list, typ, o);
    if typ != Should { KeptStep(list, typ, o); }
  }

  lemma {:induction false} ScoresOfShould(list: seq<Clause>, o: Oracle)
    ensures Scores(list, o) == Hits(SimplifyList(list, Should), o)
    decreases |list|
  {
    if list != [] {
      ScoresOfShould(list[1..], o);
      HitsOfConcat(Keep(Simplify(list[0]), Should), SimplifyList(list[1..], Should), o);
    }
  }

  /** When one clause is left of a must list, the list scores what that clause does. */
  lemma {:induction false} ScoresOfSole(list: seq<Clause>, o: Oracle)
    requires |SimplifyList(list, Must)| <= 1
    ensures SimplifyList(list, Must) == [] ==> Scores(list, o) == 0
    ensures SimplifyList(list, Must) != [] ==> Scores(list, o) == Hits(Keep(SimplifyList(list, Must)[0], Should), o)
    decreases |list|
  {
    if list != [] {
      SimplifyIsNormal(list[0]);
      ScoresOfSole(list[1..], o);
    }
  }

  lemma OneHit(c: Clause, o: Oracle)
    ensures Hits([c], o) == if Matches(c, o) then 1 else 0
  {
    assert [c][1..] == [];
  }

  lemma LeafOutcome(c: Clause, o: Oracle)
    requires IsLeaf(c)
    ensures OutcomeOn(c, o) == Outcome(o(c), o(c), if o(c) && !EmptyLeaf(c) then 1 else 0)
  {
    OneHit(c, o);
  }

  ghost function CombinedOn(c: Clause, o: Oracle): Outcome
    requires c.Clause?
  {
    Combined(c, TallyOn(c.filter, Filter, o), TallyOn(c.must, Must, o), TallyOn(c.should, Should, o),
             TallyOn(c.mustNot, MustNot, o))
  }

  lemma SizesAre(c: Clause)
    requires IsBool(c)
    ensures var l := SimplifyLists(c); SizesOf(c) == Lists(|l.filter|, |l.must|, |l.should|, |l.mustNot|)
  {
    SizeIs(c.filter, Filter);
    SizeIs(c.must, Must);
    SizeIs(c.should, Should);
    SizeIs(c.mustNot, MustNot);
  }

  lemma CombinedIs(c: Clause, o: Oracle)
    requires IsBool(c)
    ensures OutcomeOn(c, o) == CombinedOn(c, o)
  {
    SizesAre(c);
    MatchesIsConjunction(c, o);
    if SizesOf(c) == Lists(0, 1, 0, 0) {
      SoleMust(c, o);
    } else if SizesOf(c) == Lists(0, 0, 1, 0) {
      SoleShould(c, o);
    } else {
      Uncollapsed(c, o);
    }
  }

  lemma Uncollapsed(c: Clause, o: Oracle)
    requires IsBool(c) && SizesOf(c) != Lists(0, 1, 0, 0) && SizesOf(c) != Lists(0, 0, 1, 0)
    ensures Matches(Simplify(c), o) == CombinedOn(c, o).after
    ensures Hits(Keep(Simplify(c), Should), o) == CombinedOn(c, o).score
  {
    SizesAre(c);
    assert Simplify(c) == SimplifyLists(c);
    UncollapsedMatches(c, o);
    ScoresOfShould(c.should, o);
    KeptSizeIs(SimplifyLists(c), Should);
    OneHit(SimplifyLists(c), o);
  }

  lemma UncollapsedMatches(c: Clause, o: Oracle)
    requires IsBool(c) && SizesOf(c) != Lists(0, 0, 1, 0)
    ensures Matches(SimplifyLists(c), o) == CombinedOn(c, o).after
  {
    SizesAre(c);
    MatchesIsConjunction(SimplifyLists(c), o);
    ScoresOfShould(c.should, o);
  }

  lemma SoleMust(c: Clause, o: Oracle)
    requires IsBool(c) && SizesOf(c) == Lists(0, 1, 0, 0)
    ensures Matches(Simplify(c), o) == CombinedOn(c, o).after
    ensures Hits(Keep(Simplify(c), Should), o) == CombinedOn(c, o).score
  {
    var l := SimplifyLists(c);
    SizesAre(c);
    UncollapsedMatches(c, o);
    ScoresOfSole(c.must, o);
    assert l.must == [l.must[0]];
  }

  lemma SoleShould(c: Clause, o: Oracle)
    requires IsBool(c) && SizesOf(c) == Lists(0, 0, 1, 0)
    ensures Matches(Simplify(c), o) == CombinedOn(c, o).after
    ensures Hits(Keep(Simplify(c), Should), o) == CombinedOn(c, o).score
  {
    var l := SimplifyLists(c);
    SizesAre(c);
    var d := l.should[0];
    assert l.should == [d] && Simplify(c) == d;
    ScoresOfShould(c.should, o);
    SimplifyListIsNormal(c.should, Should);
    assert d in l.should;
    assert Keep(d, Should) == [d];
    OneHit(d, o);
  }

  // ---------- every outcome is foreseen ----------

  lemma {:induction false} OutcomeForeseen(c: Clause, o: Oracle)
    ensures OutcomeOn(c, o) in Outcomes(c)
    decreases c, 1
  {
    if IsBool(c) {
      TallyForeseen(c.filter, Filter, o);
      TallyForeseen(c.must, Must, o);
      TallyForeseen(c.should, Should, o);
      TallyForeseen(c.mustNot, MustNot, o);
      CombinedIs(c, o);
    } else if IsLeaf(c) {
      LeafOutcome(c, o);
    }
  }

  lemma {:induction false} TallyForeseen(list: seq<Clause>, typ: BoolType, o: Oracle)
    ensures TallyOn(list, typ, o) in Tallies(list, typ)
    decreases list, 0
  {
    if list != [] {
      OutcomeForeseen(list[0], o);
      TallyForeseen(list[1..], typ, o);
      TallyStep(list, typ, o);
    }
  }

  // ---------- locality ----------

  ghost predicate Agree(s: set<Clause>, o: Oracle, o': Oracle) {
    forall x | x in s :: o(x) == o'(x)
  }

  ghost function Splice(s: set<Clause>, o: Oracle, o': Oracle): Oracle {
    x => if x in s then o(x) else o'(x)
  }

  // ---------- leaves ----------

  ghost function Leaves(c: Clause): set<Clause>
    decreases c, 1
  {
    if c.Nil? then {}
    else if IsLeaf(c) then {c}
    else LeavesOf(c.filter) + LeavesOf(c.must) + LeavesOf(c.mustNot) + LeavesOf(c.should)
  }

  ghost function LeavesOf(list: seq<Clause>): set<Clause>
    decreases list, 0
  {
    if list == [] then {} else Leaves(list[0]) + LeavesOf(list[1..])
  }

  /** No two leaves of the tree are the same query. */
  ghost predicate ReadOnce(c: Clause)
    decreases c, 1
  {
    IsBool(c) ==>
      && ReadOnceList(c.filter) && ReadOnceList(c.must) && ReadOnceList(c.mustNot) && ReadOnceList(c.should)
      && LeavesOf(c.filter) !! LeavesOf(c.must) !! LeavesOf(c.mustNot) !! LeavesOf(c.should)
  }

  ghost predicate ReadOnceList(list: seq<Clause>)
    decreases list, 0
  {
    list != [] ==>
      && ReadOnce(list[0]) && ReadOnceList(list[1..])
      && Leaves(list[0]) !! LeavesOf(list[1..])
  }

  lemma {:induction false} LeavesOfMember(list: seq<Clause>, d: Clause)
    requires d in list
    ensures Leaves(d) <= LeavesOf(list)
  {
    if d != list[0] { LeavesOfMember(list[1..], d); }
  }

  lemma {:induction false} MatchesIsLocal(c: Clause, o: Oracle, o': Oracle)
    requires Agree(Leaves(c), o, o')
    ensures Matches(c, o) == Matches(c, o')
    decreases c, 1
  {
    if IsBool(c) {
      ListIsLocal(c.filter, o, o');
      ListIsLocal(c.must, o, o');
      ListIsLocal(c.mustNot, o, o');
      ListIsLocal(c.should, o, o');
    } else if IsLeaf(c) {
      assert c in Leaves(c);
    }
  }

  lemma {:induction false} ListIsLocal(list: seq<Clause>, o: Oracle, o': Oracle)
    requires Agree(LeavesOf(list), o, o')
    ensures forall d | d in list :: Matches(d, o) == Matches(d, o')
    ensures Hits(list, o) == Hits(list, o')
    decreases list, 0
  {
    if list != [] {
      MatchesIsLocal(list[0], o, o');
      ListIsLocal(list[1..], o, o');
    }
  }

  lemma {:induction false} LeavesOfConcat(a: seq<Clause>, b: seq<Clause>)
    ensures LeavesOf(a + b) == LeavesOf(a) + LeavesOf(b)
  {
    if a == [] {
      assert a + b == b;
    } else {
      assert (a + b)[1..] == a[1..] + b;
      LeavesOfConcat(a[1..], b);
    }
  }

  lemma {:induction false} SimplifyKeepsLeaves(c: Clause)
    ensures Leaves(Simplify(c)) <= Leaves(c)
    decreases c
  {
    if IsBool(c) {
      SimplifyListKeepsLeaves(c.filter, Filter);
      SimplifyListKeepsLeaves(c.must, Must);
      SimplifyListKeepsLeaves(c.mustNot, MustNot);
      SimplifyListKeepsLeaves(c.should, Should);
      var l := SimplifyLists(c);
      if |l.must| == 1 { LeavesOfMember(l.must, l.must[0]); }
      if |l.should| == 1 { LeavesOfMember(l.should, l.should[0]); }
    }
  }

  lemma {:induction false} SimplifyListKeepsLeaves(list: seq<Clause>, typ: BoolType)
    ensures LeavesOf(SimplifyList(list, typ)) <= LeavesOf(list)
    decreases list
  {
    if list != [] {
      SimplifyKeepsLeaves(list[0]);
      SimplifyListKeepsLeaves(list[1..], typ);
      KeepKeepsLeaves(Simplify(list[0]), typ);
      LeavesOfConcat(Keep(Simplify(list[0]), typ), SimplifyList(list[1..], typ));
    }
  }

  lemma KeepKeepsLeaves(d: Clause, typ: BoolType)
    ensures LeavesOf(Keep(d, typ)) <= Leaves(d)
  {
    if !Dropped(d) && !OnlyType(d, typ) {
      assert Keep(d, typ)[1..] == [];
    }
  }

  lemma OutcomeIsLocal(c: Clause, o: Oracle, o': Oracle)
    requires Agree(Leaves(c), o, o')
    ensures OutcomeOn(c, o) == OutcomeOn(c, o')
  {
    SimplifyKeepsLeaves(c);
    KeepKeepsLeaves(Simplify(c), Should);
    MatchesIsLocal(c, o, o');
    MatchesIsLocal(Simplify(c), o, o');
    ListIsLocal(Keep(Simplify(c), Should), o, o');
  }

  lemma {:induction false} TallyIsLocal(list: seq<Clause>, typ: BoolType, o: Oracle, o': Oracle)
    requires Agree(LeavesOf(list), o, o')
    ensures TallyOn(list, typ, o) == TallyOn(list, typ, o')
    decreases |list|
  {
    if list != [] {
      OutcomeIsLocal(list[0], o, o');
      TallyIsLocal(list[1..], typ, o, o');
      TallyStep(list, typ, o);
      TallyStep(list, typ, o');
    }
  }

  // ---------- every foreseen outcome happens, when no leaf occurs twice ----------

  lemma {:induction false} OutcomeHappens(c: Clause, x: Outcome) returns (o: Oracle)
    requires ReadOnce(c) && x in Outcomes(c)
    ensures OutcomeOn(c, o) == x
    decreases c, 1
  {
    if IsBool(c) {
      var f, m, sh, n :| f in Tallies(c.filter, Filter) && m in Tallies(c.must, Must)
        && sh in Tallies(c.should, Should) && n in Tallies(c.mustNot, MustNot) && x == Combined(c, f, m, sh, n);
      var of := TallyHappens(c.filter, Filter, f);
      var om := TallyHappens(c.must, Must, m);
      var os := TallyHappens(c.should, Should, sh);
      var on := TallyHappens(c.mustNot, MustNot, n);
      o := Splice(LeavesOf(c.filter), of, Splice(LeavesOf(c.must), om, Splice(LeavesOf(c.should), os, on)));
      TallyIsLocal(c.filter, Filter, o, of);
      TallyIsLocal(c.must, Must, o, om);
      TallyIsLocal(c.should, Should, o, os);
      TallyIsLocal(c.mustNot, MustNot, o, on);
      CombinedIs(c, o);
    } else {
      o := y => x.before;
      if IsLeaf(c) { LeafOutcome(c, o); }
    }
  }

  lemma {:induction false} TallyHappens(list: seq<Clause>, typ: BoolType, t: Tally) returns (o: Oracle)
    requires ReadOnceList(list) && t in Tallies(list, typ)
    ensures TallyOn(list, typ, o) == t
    decreases list, 0
  {
    if list == [] {
      o := y => true;
    } else {
      var x, rest :| x in Outcomes(list[0]) && rest in Tallies(list[1..], typ)
        && t == Plus(Added(x, ShapeOf(list[0]), typ), rest);
      var first := OutcomeHappens(list[0], x);
      var others := TallyHappens(list[1..], typ, rest);
      o := Splice(Leaves(list[0]), first, others);
      OutcomeIsLocal(list[0], o, first);
      TallyIsLocal(list[1..], typ, o, others);
      TallyStep(list, typ, o);
    }
  }

  // ---------- main results ----------

  ghost predicate AlikeOn(c: Clause, d: Clause, o: Oracle) {
    Matches(c, o) == Matches(d, o)
  }

  ghost predicate SameMeaning(c: Clause, d: Clause) {
    forall o: Oracle :: AlikeOn(c, d, o)
  }

  ghost predicate OppositeMeaning(c: Clause, d: Clause) {
    forall o: Oracle :: !AlikeOn(c, d, o)
  }

  /** A simplified query matches the same documents exactly when `FateOf` says so, and matches
      exactly the others precisely when it says that. */
  lemma FateExact(c: Clause)
    requires ReadOnce(c)
    ensures FateOf(c) == Same <==> SameMeaning(Simplify(c), c)
    ensures FateOf(c) == Inverted <==> OppositeMeaning(Simplify(c), c)
  {
    forall o: Oracle
      ensures FateOf(c) == Same ==> AlikeOn(Simplify(c), c, o)
      ensures FateOf(c) == Inverted ==> !AlikeOn(Simplify(c), c, o)
    {
      FateSound(c, o);
    }
    forall x | x in Outcomes(c)
      ensures SameMeaning(Simplify(c), c) ==> x.before == x.after
      ensures OppositeMeaning(Simplify(c), c) ==> x.before != x.after
    {
      var o := OutcomeHappens(c, x);
      assert AlikeOn(Simplify(c), c, o) <==> x.before == x.after;
    }
    var any: Oracle := y => true;
    OutcomeForeseen(c, any);
    assert OppositeMeaning(Simplify(c), c) ==> !AlikeOn(Simplify(c), c, any);
  }

  /** With repeated leaves the fate is still right whenever it is `Same` or `Inverted`. */
  lemma FateSound(c: Clause, o: Oracle)
    ensures FateOf(c) == Same ==> Matches(Simplify(c), o) == Matches(c, o)
    ensures FateOf(c) == Inverted ==> Matches(Simplify(c), o) != Matches(c, o)
  {
    OutcomeForeseen(c, o);
  }

  // ---------- plain queries ----------

  /** Nothing empty anywhere, no must_not list beneath a must_not list, and no boolean that asks for
      more than one of its alternatives. */
  ghost predicate Plain(c: Clause)
    decreases c, 1
  {
    && c.Clause? && !EmptyLeaf(c) && !EmptyBool(c)
    && (IsBool(c) ==>
          && c.minShould <= 1
          && (forall d | d in c.filter + c.must + c.should :: Plain(d))
          && (forall d | d in c.mustNot :: Plain(d) && NoMustNot(d)))
  }

  ghost predicate NoMustNot(c: Clause) {
    IsBool(c) ==> c.mustNot == [] && forall d | d in c.filter + c.must + c.should :: NoMustNot(d)
  }

  /** Every oracle answers a plain query and its simplification alike, repeated leaves or not. */
  lemma SimplifyPreservesPlain(c: Clause, o: Oracle)
    requires Plain(c)
    ensures Matches(Simplify(c), o) == Matches(c, o)
  {
    PlainOutcomes(c);
    FateSound(c, o);
  }

  predicate Kept(x: Outcome) {
    x.before == x.after && (x.score >= 1 <==> x.after)
  }

  predicate KeptTally(t: Tally) {
    t.before == t.after && (t.hits >= 1 <==> t.score >= 1)
  }

  lemma {:induction false} PlainOutcomes(c: Clause)
    requires Plain(c)
    ensures !ShapeOf(c).Gone?
    ensures forall x | x in Outcomes(c) :: Kept(x)
    decreases c, 1
  {
    if IsBool(c) {
      assert forall d | d in c.filter :: d in c.filter + c.must + c.should;
      assert forall d | d in c.must :: d in c.filter + c.must + c.should;
      assert forall d | d in c.should :: d in c.filter + c.must + c.should;
      PlainTallies(c.filter, Filter);
      PlainTallies(c.must, Must);
      PlainTallies(c.should, Should);
      PlainTallies(c.mustNot, MustNot);
      PlainSurvivor(c.must);
      PlainSurvivor(c.should);
      PlainBool(c);
    }
  }

  /** What `PlainTallies` says of a list. */
  ghost predicate Undisturbed(list: seq<Clause>, typ: BoolType) {
    && (forall t | t in Tallies(list, typ) :: KeptTally(t))
    && (list != [] ==> !ShapeOf(list[0]).Gone?)
    && SizeOf(list, typ) >= |list|
    && (SizeOf(list, typ) == 1 && typ == Must ==> forall t | t in Tallies(list, typ) :: t.score >= 1 <==> t.after)
    && (list == [] ==> Tallies(list, typ) == {Tally(true, true, 0, 0)} && SizeOf(list, typ) == 0)
  }

  lemma PlainBool(c: Clause)
    requires IsBool(c) && !EmptyBool(c) && c.minShould <= 1
    requires Undisturbed(c.filter, Filter) && Undisturbed(c.must, Must)
    requires Undisturbed(c.should, Should) && Undisturbed(c.mustNot, MustNot)
    ensures forall x | x in Outcomes(c) :: Kept(x)
  {
    forall f, m, sh, n | f in Tallies(c.filter, Filter) && m in Tallies(c.must, Must)
                         && sh in Tallies(c.should, Should) && n in Tallies(c.mustNot, MustNot)
      ensures Kept(Combined(c, f, m, sh, n))
    {
      PlainCombined(c, f, m, sh, n);
    }
  }

  lemma PlainSurvivor(list: seq<Clause>)
    requires list != [] ==> !ShapeOf(list[0]).Gone?
    ensures list != [] ==> !Survivor(list).Gone?
  {
  }

  lemma PlainCombined(c: Clause, f: Tally, m: Tally, sh: Tally, n: Tally)
    requires IsBool(c) && c.minShould <= 1
    requires KeptTally(f) && KeptTally(m) && KeptTally(sh) && KeptTally(n)
    requires SizeOf(c.filter, Filter) == 0 <==> c.filter == []
    requires SizeOf(c.must, Must) == 0 <==> c.must == []
    requires SizeOf(c.should, Should) == 0 <==> c.should == []
    requires SizeOf(c.mustNot, MustNot) == 0 <==> c.mustNot == []
    requires c.filter == [] ==> f == Tally(true, true, 0, 0)
    requires c.must == [] ==> m == Tally(true, true, 0, 0)
    requires c.mustNot == [] ==> n == Tally(true, true, 0, 0)
    requires c.should == [] ==> sh == Tally(true, true, 0, 0)
    requires SizeOf(c.must, Must) == 1 ==> (m.score >= 1 <==> m.after)
    requires !EmptyBool(c)
    ensures Kept(Combined(c, f, m, sh, n))
  {
  }

  lemma {:induction false} PlainTallies(list: seq<Clause>, typ: BoolType)
    requires forall d | d in list :: Plain(d) && (typ == MustNot ==> NoMustNot(d))
    ensures Undisturbed(list, typ)
    decreases list, 0
  {
    if list != [] {
      var d, rest := list[0], list[1..];
      PlainOutcomes(d);
      PlainTallies(rest, typ);
      if typ == MustNot { NoMustNotShape(d); }
      forall t | t in Tallies(list, typ)
        ensures KeptTally(t)
        ensures SizeOf(list, typ) == 1 && typ == Must ==> (t.score >= 1 <==> t.after)
      {
        var x, u :| x in Outcomes(d) && u in Tallies(rest, typ) && t == Plus(Added(x, ShapeOf(d), typ), u);
        assert Kept(x) && KeptTally(u);
      }
    }
  }

  lemma {:induction false} NoMustNotShape(c: Clause)
    ensures NoMustNot(c) ==> !Only(ShapeOf(c), MustNot)
    decreases c, 1
  {
    if IsBool(c) && NoMustNot(c) {
      assert forall d | d in c.must :: d in c.filter + c.must + c.should;
      assert forall d | d in c.should :: d in c.filter + c.must + c.should;
      NoMustNotSurvivor(c.must);
      NoMustNotSurvivor(c.should);
      assert SizeOf(c.mustNot, MustNot) == 0;
    }
  }

  lemma {:induction false} NoMustNotSurvivor(list: seq<Clause>)
    requires forall d | d in list :: NoMustNot(d)
    ensures !Only(Survivor(list), MustNot)
    decreases list, 0
  {
    if list != [] {
      NoMustNotShape(list[0]);
      NoMustNotSurvivor(list[1..]);
    }
  }

  // ---------- what goes wrong ----------

  function Bool(filter: seq<Clause>, must: seq<Clause>, should: seq<Clause>, mustNot: seq<Clause>): Clause {
    Clause("", "", Null, 0, filter, must, should, mustNot)
  }

  /** A must_not around a preserved query that is itself only a must_not matches the complement. */
  lemma MustNotOfMustNotInverts(d: Clause, o: Oracle)
    requires FateOf(d) == Same && Only(ShapeOf(d), MustNot)
    ensures Matches(Simplify(Bool([], [], [], [d])), o) == !Matches(Bool([], [], [], [d]), o)
  {
    FateSound(d, o);
    ShapeIs(d);
    KeptSizeIs(Simplify(d), MustNot);
    KeepHolds(Simplify(d), MustNot, o);
    SimplifyOne(d, MustNot);
    var c, n := Bool([], [], [], [d]), Bool([], [], [], Keep(Simplify(d), MustNot));
    assert SimplifyLists(c) == n;
    MatchesIsConjunction(c, o);
    MatchesIsConjunction(n, o);
    assert d in c.mustNot;
  }

  lemma SimplifyOne(d: Clause, typ: BoolType)
    ensures SimplifyList([d], typ) == Keep(Simplify(d), typ)
    ensures SimplifyList([], Filter) == SimplifyList([], Must) == SimplifyList([], Should) == []
    ensures SimplifyList([], MustNot) == []
  {
    assert SimplifyList([d], typ) == Keep(Simplify(d), typ) + SimplifyList([], typ);
  }

  /** must_not in must_not: `a` was wanted and is now refused. */
  lemma NestedMustNotChangesMeaning(a: Clause, o: Oracle)
    requires IsLeaf(a) && !EmptyLeaf(a)
    ensures var c := Bool([], [], [], [Bool([], [], [], [a])]);
            Matches(c, o) == o(a) && Matches(Simplify(c), o) == !o(a)
  {
    var n := Bool([], [], [], [a]);
    SimplifyOne(a, MustNot);
    assert Simplify(n) == n;
    SimplifyOne(n, MustNot);
    var c := Bool([], [], [], [n]);
    assert Simplify(c) == n;
    MatchesIsConjunction(n, o);
    MatchesIsConjunction(c, o);
    assert n in c.mustNot && a in n.mustNot;
  }

  /** An empty boolean among alternatives: every document matched, now only those matching `a` do. */
  lemma EmptyShouldChangesMeaning(a: Clause, o: Oracle)
    requires IsLeaf(a) && !EmptyLeaf(a)
    ensures var c := Bool([], [], [Bool([], [], [], []), a], []);
            Matches(c, o) && Matches(Simplify(c), o) == o(a)
  {
    var none := Bool([], [], [], []);
    SimplifyOne(a, Should);
    SimplifyOne(none, Should);
    assert Simplify(none) == none;
    SimplifyListSplits([none], [a], Should);
    var c := Bool([], [], [none, a], []);
    assert c.should == [none] + [a];
    assert SimplifyList(c.should, Should) == [a];
    assert Simplify(c) == a;
    assert none in c.should && Matches(none, o);
  }

  /** An empty must made the alternatives optional; without it they are required. */
  lemma EmptyMustChangesMeaning(a: Clause, o: Oracle)
    requires IsLeaf(a) && !EmptyLeaf(a)
    ensures var c := Bool([], [Bool([], [], [], [])], [a], []);
            Matches(c, o) && Matches(Simplify(c), o) == o(a)
  {
    var none := Bool([], [], [], []);
    SimplifyOne(a, Should);
    SimplifyOne(none, Must);
    assert Simplify(none) == none;
    var c := Bool([], [none], [a], []);
    assert SimplifyList(c.must, Must) == [];
    assert Simplify(c) == a;
  }

  // ---------- lost counts ----------

  /** At least so many of these. */
  function AnyOf(count: int, list: seq<Clause>): Clause {
    Clause("", "", Null, count, [], [], list, [])
  }

  predicate ProperLeaves(list: seq<Clause>) {
    forall i | 0 <= i < |list| :: IsLeaf(list[i]) && !EmptyLeaf(list[i])
  }

  lemma {:induction false} LeavesStay(list: seq<Clause>)
    requires ProperLeaves(list)
    ensures SimplifyList(list, Should) == list
    decreases |list|
  {
    if list != [] { LeavesStay(list[1..]); }
  }

  /** A should-only boolean, whatever it asks for, is flattened into the should list around it. */
  lemma FlattenedShould(inner: seq<Clause>, count: int, rest: seq<Clause>)
    requires ProperLeaves(inner) && |inner| >= 2 && ProperLeaves(rest)
    ensures Simplify(AnyOf(0, [AnyOf(count, inner)] + rest)) == AnyOf(0, inner + rest)
  {
    var d := AnyOf(count, inner);
    LeavesStay(inner);
    LeavesStay(rest);
    SimplifyOne(d, Should);
    SimplifyListSplits([d], rest, Should);
    assert Simplify(d) == d;
  }

  lemma FlattenedReadings(inner: seq<Clause>, count: int, rest: seq<Clause>, o: Oracle)
    requires inner != []
    ensures Matches(AnyOf(0, [AnyOf(count, inner)] + rest), o)
       <==> Hits(inner, o) >= Needed(AnyOf(count, inner)) || Hits(rest, o) >= 1
    ensures Matches(AnyOf(0, inner + rest), o) <==> Hits(inner, o) >= 1 || Hits(rest, o) >= 1
  {
    HitsOfConcat([AnyOf(count, inner)], rest, o);
    HitsOfConcat(inner, rest, o);
    OneHit(AnyOf(count, inner), o);
  }

  /** Two of one boolean's alternatives asked for within another's: flattening forgets that it is two. */
  lemma NestedCountChangesMeaning(a: Clause, b: Clause, x: Clause, o: Oracle)
    requires ProperLeaves([a, b]) && ProperLeaves([x])
    ensures var c := AnyOf(0, [AnyOf(2, [a, b])] + [x]);
            && (Matches(c, o) <==> (o(a) && o(b)) || o(x))
            && (Matches(Simplify(c), o) <==> o(a) || o(b) || o(x))
  {
    FlattenedShould([a, b], 2, [x]);
    FlattenedReadings([a, b], 2, [x], o);
    HitsOfConcat([a], [b], o);
    assert [a] + [b] == [a, b];
    OneHit(a, o);
    OneHit(b, o);
    OneHit(x, o);
    assert IsLeaf([a, b][0]) && IsLeaf([a, b][1]) && IsLeaf([x][0]);
  }

  /** It keeps its meaning there exactly when it asks for one of its alternatives at most. */
  lemma FlattenedShouldIff(inner: seq<Clause>, count: int, rest: seq<Clause>)
    requires ProperLeaves(inner) && |inner| >= 2 && ProperLeaves(rest) && inner[0] !in inner[1..] + rest
    ensures var c := AnyOf(0, [AnyOf(count, inner)] + rest);
            SameMeaning(Simplify(c), c) <==> count <= 1
  {
    var c, c' := AnyOf(0, [AnyOf(count, inner)] + rest), AnyOf(0, inner + rest);
    FlattenedShould(inner, count, rest);
    if count > 1 {
      var o: Oracle := x => x == inner[0];
      forall d | d in inner[1..] + rest ensures !o(d) {}
      OnlyFirst(inner, o);
      forall i | 0 <= i < |rest| ensures !o(rest[i]) { assert rest[i] in inner[1..] + rest; }
      NoneOf(rest, o);
      FlattenedReadings(inner, count, rest, o);
      assert !AlikeOn(c', c, o);
    } else {
      forall o: Oracle ensures AlikeOn(c', c, o) { FlattenedReadings(inner, count, rest, o); }
    }
  }

  lemma {:induction false} NoneOf(list: seq<Clause>, o: Oracle)
    requires forall i | 0 <= i < |list| :: IsLeaf(list[i]) && !o(list[i])
    ensures Hits(list, o) == 0
    decreases |list|
  {
    if list != [] { NoneOf(list[1..], o); }
  }

  lemma OnlyFirst(list: seq<Clause>, o: Oracle)
    requires ProperLeaves(list) && list != [] && o(list[0]) && forall d | d in list[1..] :: !o(d)
    ensures Hits(list, o) == 1
  {
    var rest := list[1..];
    forall i | 0 <= i < |rest| ensures IsLeaf(rest[i]) && !o(rest[i]) { assert rest[i] in rest; }
    NoneOf(rest, o);
  }

  /** A collapsed should forgets its count too: two of one can never be had, one of one can. */
  lemma CollapsedShouldIff(a: Clause, count: int)
    requires IsLeaf(a) && !EmptyLeaf(a)
    ensures SameMeaning(Simplify(AnyOf(count, [a])), AnyOf(count, [a])) <==> count <= 1
  {
    var c := AnyOf(count, [a]);
    SimplifyOne(a, Should);
    assert Simplify(c) == a;
    forall o: Oracle ensures Matches(c, o) <==> o(a) && count <= 1 { OneHit(a, o); }
    if count > 1 {
      var yes: Oracle := x => true;
      assert !AlikeOn(a, c, yes);
    } else {
      forall o: Oracle ensures AlikeOn(a, c, o) {}
    }
  }
}
