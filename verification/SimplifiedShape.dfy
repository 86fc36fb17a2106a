/** What simplification leaves of a clause, told from the clause without rewriting it. */
module SimplifiedShape {
  import opened Clauses
  import opened Simplifier

  /** Nothing, a leaf, or a boolean with so many sub-clauses of each type. */
  datatype Shape = Gone | Whole | Lists(filter: nat, must: nat, should: nat, mustNot: nat)

  function CountOf(s: Shape, typ: BoolType): nat
    requires s.Lists?
  {
    match typ
    case Filter => s.filter
    case Must => s.must
    case Should => s.should
    case MustNot => s.mustNot
  }

  /** A boolean made only of sub-clauses of one type. */
  predicate Only(s: Shape, typ: BoolType) {
    s.Lists? && CountOf(s, typ) > 0 && s.filter + s.must + s.should + s.mustNot == CountOf(s, typ)
  }

  /** How many clauses it adds to a list of type `typ` that holds it. */
  function KeptSize(s: Shape, typ: BoolType): nat {
    if s.Gone? then 0 else if Only(s, typ) then CountOf(s, typ) else 1
  }

  function ShapeOf(c: Clause): Shape
    decreases c, 1
  {
    if c.Nil? || EmptyLeaf(c) then Gone
    else if IsLeaf(c) then Whole
    else
      var s := SizesOf(c);
      if s == Lists(0, 0, 0, 0) then Gone
      else if s == Lists(0, 1, 0, 0) then Survivor(c.must)
      else if s == Lists(0, 0, 1, 0) then Survivor(c.should)
      else s
  }

  /** The sizes of the four lists once simplified. */
  function SizesOf(c: Clause): (s: Shape)
    requires c.Clause?
    ensures s.Lists?
    decreases c, 0
  {
    Lists(SizeOf(c.filter, Filter), SizeOf(c.must, Must), SizeOf(c.should, Should), SizeOf(c.mustNot, MustNot))
  }

  function SizeOf(list: seq<Clause>, typ: BoolType): nat
    decreases list, 0
  {
    if list == [] then 0 else KeptSize(ShapeOf(list[0]), typ) + SizeOf(list[1..], typ)
  }

  /** The shape of the first sub-clause of which something is left. */
  function Survivor(list: seq<Clause>): Shape
    decreases list, 0
  {
    if list == [] then Gone
    else if ShapeOf(list[0]).Gone? then Survivor(list[1..])
    else ShapeOf(list[0])
  }

  // ---------- the shape is that of the simplified clause ----------

  function Seen(c: Clause): Shape {
    if Dropped(c) then Gone
    else if IsLeaf(c) then Whole
    else Lists(|c.filter|, |c.must|, |c.should|, |c.mustNot|)
  }

  lemma KeptSizeIs(c: Clause, typ: BoolType)
    ensures |Keep(c, typ)| == KeptSize(Seen(c), typ)
    ensures OnlyType(c, typ) <==> Only(Seen(c), typ)
  {
  }

  lemma {:induction false} ShapeIs(c: Clause)
    ensures ShapeOf(c) == Seen(Simplify(c))
    decreases c, 1
  {
    if IsBool(c) {
      SizeIs(c.filter, Filter);
      SizeIs(c.must, Must);
      SizeIs(c.should, Should);
      SizeIs(c.mustNot, MustNot);
      if SizesOf(c) == Lists(0, 1, 0, 0) { SurvivorIs(c.must, Must); }
      if SizesOf(c) == Lists(0, 0, 1, 0) { SurvivorIs(c.should, Should); }
    }
  }

  lemma {:induction false} SizeIs(list: seq<Clause>, typ: BoolType)
    ensures SizeOf(list, typ) == |SimplifyList(list, typ)|
    decreases list, 0
  {
    if list != [] {
      ShapeIs(list[0]);
      KeptSizeIs(Simplify(list[0]), typ);
      SizeIs(list[1..], typ);
    }
  }

  lemma {:induction false} SurvivorIs(list: seq<Clause>, typ: BoolType)
    requires typ == Must || typ == Should
    requires |SimplifyList(list, typ)| == 1
    ensures Survivor(list) == Seen(SimplifyList(list, typ)[0])
    decreases list, 0
  {
    var d := Simplify(list[0]);
    ShapeIs(list[0]);
    KeptSizeIs(d, typ);
    if Dropped(d) {
      SurvivorIs(list[1..], typ);
    } else {
      SimplifyIsNormal(list[0]);
      assert !OnlyType(d, typ);
    }
  }
}
