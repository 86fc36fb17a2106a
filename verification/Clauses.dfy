/** Query clauses as the query builder assembles them, and what they mean.

    A clause is one record: a non-empty operator makes it a leaf, an empty one makes it a boolean
    over four lists. `Nil` stands for a nil pointer, which the lists may hold. */
module Clauses {

  datatype Value = Null | Text(s: string) | Number(n: int) | Flag(b: bool) | Many(vs: seq<Value>)

  datatype BoolType = Filter | Must | Should | MustNot

  datatype Clause =
    | Nil
    | Clause(field: string, op: string, value: Value,
             minShould: int, // the minimum_should_match parameter, 0 when it is not set
             filter: seq<Clause>, must: seq<Clause>, should: seq<Clause>, mustNot: seq<Clause>)

  /** What the search engine answers for each leaf, on one fixed document. */
  type Oracle = Clause -> bool

  predicate IsLeaf(c: Clause) {
    c.Clause? && c.op != ""
  }

  predicate IsBool(c: Clause) {
    c.Clause? && c.op == ""
  }

  function ByType(c: Clause, typ: BoolType): seq<Clause>
    requires c.Clause?
  {
    match typ
    case Filter => c.filter
    case Must => c.must
    case Should => c.should
    case MustNot => c.mustNot
  }

  function NumOfClauses(c: Clause): nat
    requires c.Clause?
  {
    |c.filter| + |c.must| + |c.mustNot| + |c.should|
  }

  predicate EmptyLeaf(c: Clause) {
    IsLeaf(c) && c.field == "" && c.value == Null
  }

  predicate EmptyBool(c: Clause) {
    IsBool(c) && NumOfClauses(c) == 0
  }

  /** A boolean whose only sub-clauses are those of one type, and which has some. */
  predicate OnlyType(c: Clause, typ: BoolType) {
    IsBool(c) && |ByType(c, typ)| > 0 && NumOfClauses(c) == |ByType(c, typ)|
  }

  /** The should list takes part in matching: it is not empty, and either asked for explicitly or
      there is nothing else that a document must satisfy. */
  predicate ShouldRequired(c: Clause)
    requires c.Clause?
  {
    c.should != [] && (c.minShould >= 1 || (c.filter == [] && c.must == []))
  }

  /** How many of the should list must match when it takes part. */
  function Needed(c: Clause): int
    requires c.Clause?
  {
    if c.minShould > 1 then c.minShould else 1
  }

  ghost predicate Matches(c: Clause, o: Oracle)
    decreases c, 1
  {
    if c.Nil? then true
    else if IsLeaf(c) then o(c)
    else
      && (forall d | d in c.filter :: Matches(d, o))
      && (forall d | d in c.must :: Matches(d, o))
      && (forall d | d in c.mustNot :: !Matches(d, o))
      && (ShouldRequired(c) ==> Hits(c.should, o) >= Needed(c))
  }

  /** How many clauses of a list match. */
  ghost function Hits(list: seq<Clause>, o: Oracle): nat
    decreases list, 0
  {
    if list == [] then 0 else (if Matches(list[0], o) then 1 else 0) + Hits(list[1..], o)
  }

  lemma {:induction false} HitsOfConcat(a: seq<Clause>, b: seq<Clause>, o: Oracle)
    ensures Hits(a + b, o) == Hits(a, o) + Hits(b, o)
    decreases |a|
  {
    if a == [] {
      assert a + b == b;
    } else {
      assert (a + b)[1..] == a[1..] + b;
      HitsOfConcat(a[1..], b, o);
    }
  }

  lemma {:induction false} SomeHit(list: seq<Clause>, o: Oracle)
    ensures Hits(list, o) >= 1 <==> exists d :: d in list && Matches(d, o)
    decreases |list|
  {
    if list != [] {
      SomeHit(list[1..], o);
      assert list == [list[0]] + list[1..];
      assert list[0] in list;
    }
  }
}

/** Rewriting a clause tree: drop empties, flatten a boolean into a list of its own type, and
    replace a boolean by its only must or only should. */
module Simplifier {
  import opened Clauses

  function Simplify(c: Clause): Clause
    decreases c
  {
    if c.Nil? || IsLeaf(c) then c else Collapse(SimplifyLists(c))
  }

  function SimplifyLists(c: Clause): (r: Clause)
    requires IsBool(c)
    decreases c, 0
    ensures IsBool(r) && r.minShould == c.minShould
  {
    c.(filter := SimplifyList(c.filter, Filter), must := SimplifyList(c.must, Must),
       should := SimplifyList(c.should, Should), mustNot := SimplifyList(c.mustNot, MustNot))
  }

  function SimplifyList(list: seq<Clause>, typ: BoolType): seq<Clause>
    decreases list
  {
    if list == [] then []
    else Keep(Simplify(list[0]), typ) + SimplifyList(list[1..], typ)
  }

  predicate Dropped(c: Clause) {
    c.Nil? || EmptyLeaf(c) || EmptyBool(c)
  }

  /** What one simplified sub-clause adds to the list of type `typ` that holds it. */
  function Keep(c: Clause, typ: BoolType): seq<Clause> {
    if Dropped(c) then []
    else if OnlyType(c, typ) then ByType(c, typ)
    else [c]
  }

  function Collapse(c: Clause): Clause
    requires IsBool(c)
  {
    if |c.must| == 1 && NumOfClauses(c) == 1 then c.must[0]
    else if |c.should| == 1 && NumOfClauses(c) == 1 then c.should[0]
    else c
  }

  // ---------- normal form ----------

  ghost predicate Normal(c: Clause)
  {
    IsBool(c) ==>
      && NormalList(c.filter, Filter) && NormalList(c.must, Must)
      && NormalList(c.should, Should) && NormalList(c.mustNot, MustNot)
      && !(NumOfClauses(c) == 1 && (|c.must| == 1 || |c.should| == 1))
  }

  ghost predicate NormalList(list: seq<Clause>, typ: BoolType)
  {
    forall d | d in list :: !Dropped(d) && !OnlyType(d, typ) && Normal(d)
  }

  lemma {:induction false} SimplifyIsNormal(c: Clause)
    ensures Normal(Simplify(c))
    decreases c
  {
    if IsBool(c) {
      SimplifyListIsNormal(c.filter, Filter);
      SimplifyListIsNormal(c.must, Must);
      SimplifyListIsNormal(c.should, Should);
      SimplifyListIsNormal(c.mustNot, MustNot);
    }
  }

  lemma {:induction false} SimplifyListIsNormal(list: seq<Clause>, typ: BoolType)
    ensures NormalList(SimplifyList(list, typ), typ)
    decreases list
  {
    if list != [] {
      SimplifyIsNormal(list[0]);
      SimplifyListIsNormal(list[1..], typ);
      var d := Simplify(list[0]);
      assert NormalList(Keep(d, typ), typ);
    }
  }

  lemma {:induction false} NormalIsFixed(c: Clause)
    requires Normal(c)
    ensures Simplify(c) == c
    decreases c
  {
    if IsBool(c) {
      NormalListIsFixed(c.filter, Filter);
      NormalListIsFixed(c.must, Must);
      NormalListIsFixed(c.should, Should);
      NormalListIsFixed(c.mustNot, MustNot);
    }
  }

  lemma {:induction false} NormalListIsFixed(list: seq<Clause>, typ: BoolType)
    requires NormalList(list, typ)
    ensures SimplifyList(list, typ) == list
    decreases list
  {
    if list != [] {
      NormalIsFixed(list[0]);
      NormalListIsFixed(list[1..], typ);
    }
  }

  lemma SimplifyIdempotent(c: Clause)
    ensures Simplify(Simplify(c)) == Simplify(c)
  {
    SimplifyIsNormal(c);
    NormalIsFixed(Simplify(c));
  }

  /** A clause is a normal form exactly when simplification leaves it alone. */
  lemma NormalIffFixed(c: Clause)
    ensures Normal(c) <==> Simplify(c) == c
  {
    SimplifyIsNormal(c);
    if Normal(c) { NormalIsFixed(c); }
  }

  lemma {:induction false} SimplifyListSplits(a: seq<Clause>, b: seq<Clause>, typ: BoolType)
    ensures SimplifyList(a + b, typ) == SimplifyList(a, typ) + SimplifyList(b, typ)
  {
    if a == [] {
      assert a + b == b;
    } else {
      assert (a + b)[1..] == a[1..] + b;
      SimplifyListSplits(a[1..], b, typ);
    }
  }
}
