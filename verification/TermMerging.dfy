/** Merging the term filters on one field into one terms filter. */
module TermMerging {
  import opened Clauses

  function Leaf(field: string, op: string, value: Value): Clause {
    Clause(field, op, value, 0, [], [], [], [])
  }

  function Term(field: string, value: Value): Clause {
    Leaf(field, "term", value)
  }

  function Terms(field: string, values: seq<Value>): Clause {
    Leaf(field, "terms", Many(values))
  }

  predicate PlainTerm(c: Clause) {
    c.Clause? && c.op == "term" && NumOfClauses(c) == 0
  }

  // ---------- one list ----------

  function Rest(cs: seq<Clause>): seq<Clause> {
    if cs == [] then []
    else
      var n := |cs| - 1;
      if PlainTerm(cs[n]) then Rest(cs[..n]) else Rest(cs[..n]) + [cs[n]]
  }

  /** The fields of the term clauses, as they are first seen. */
  function FieldOrder(cs: seq<Clause>): seq<string> {
    if cs == [] then []
    else
      var n := |cs| - 1;
      var fs := FieldOrder(cs[..n]);
      if PlainTerm(cs[n]) && cs[n].field !in fs then fs + [cs[n].field] else fs
  }

  function ValuesFor(cs: seq<Clause>, field: string): seq<Value> {
    if cs == [] then []
    else
      var n := |cs| - 1;
      if PlainTerm(cs[n]) && cs[n].field == field then ValuesFor(cs[..n], field) + [cs[n].value]
      else ValuesFor(cs[..n], field)
  }

  function Merged(field: string, values: seq<Value>): Clause {
    if |values| == 1 then Term(field, values[0]) else Terms(field, values)
  }

  function MergedTerms(cs: seq<Clause>): (r: seq<Clause>)
    ensures |r| == |FieldOrder(cs)|
  {
    var fs := FieldOrder(cs);
    seq(|fs|, i requires 0 <= i < |fs| => Merged(fs[i], ValuesFor(cs, fs[i])))
  }

  function Regroup(cs: seq<Clause>): seq<Clause> {
    Rest(cs) + MergedTerms(cs)
  }

  // ---------- the whole tree ----------

  function MergeClause(c: Clause): Clause
    decreases c, 1
  {
    if c.Nil? then c
    else c.(must := MergeList(c.must), mustNot := MergeList(c.mustNot), should := MergeList(c.should),
            filter := MergeList(c.filter))
  }

  function MergeEach(cs: seq<Clause>): (r: seq<Clause>)
    ensures |r| == |cs| && forall i | 0 <= i < |cs| :: r[i] == MergeClause(cs[i])
    decreases cs, 0
  {
    if cs == [] then [] else [MergeClause(cs[0])] + MergeEach(cs[1..])
  }

  function MergeList(cs: seq<Clause>): seq<Clause>
    decreases cs, 1
  {
    Regroup(MergeEach(cs))
  }

  type Groups = map<string, seq<Value>>

  function Look(grouped: Groups, f: string): seq<Value> {
    if f in grouped then grouped[f] else []
  }

  function AddValue(grouped: Groups, f: string, v: Value): Groups {
    grouped[f := Look(grouped, f) + [v]]
  }

  ghost predicate SameFields(grouped: Groups, order: seq<string>) {
    forall f :: f in grouped <==> f in order
  }

  ghost predicate SameValues(grouped: Groups, cs: seq<Clause>) {
    forall f {:trigger Look(grouped, f)} :: Look(grouped, f) == ValuesFor(cs, f)
  }

  lemma Snoc(cs: seq<Clause>, c: Clause)
    ensures Rest(cs + [c]) == if PlainTerm(c) then Rest(cs) else Rest(cs) + [c]
    ensures FieldOrder(cs + [c])
         == if PlainTerm(c) && c.field !in FieldOrder(cs) then FieldOrder(cs) + [c.field] else FieldOrder(cs)
  {
    assert (cs + [c])[..|cs|] == cs;
  }

  lemma ValuesSnoc(cs: seq<Clause>, c: Clause, f: string)
    ensures ValuesFor(cs + [c], f) == ValuesFor(cs, f) + if PlainTerm(c) && c.field == f then [c.value] else []
  {
    assert (cs + [c])[..|cs|] == cs;
  }

  lemma AddField(grouped: Groups, order: seq<string>, f: string, v: Value)
    requires SameFields(grouped, order)
    ensures SameFields(AddValue(grouped, f, v), if f in grouped then order else order + [f])
  {
  }

  lemma AddTerm(grouped: Groups, cs: seq<Clause>, c: Clause)
    requires SameValues(grouped, cs) && PlainTerm(c)
    ensures SameValues(AddValue(grouped, c.field, c.value), cs + [c])
  {
    var grouped' := AddValue(grouped, c.field, c.value);
    forall f ensures Look(grouped', f) == ValuesFor(cs + [c], f) {
      ValuesSnoc(cs, c, f);
      assert Look(grouped, f) == ValuesFor(cs, f);
    }
  }

  lemma AddOther(grouped: Groups, cs: seq<Clause>, c: Clause)
    requires SameValues(grouped, cs) && !PlainTerm(c)
    ensures SameValues(grouped, cs + [c])
  {
    forall f ensures Look(grouped, f) == ValuesFor(cs + [c], f) {
      ValuesSnoc(cs, c, f);
    }
  }

  /** The values seen for each field, and the fields as they were first seen. */
  datatype Collection = Collection(grouped: Groups, order: seq<string>)

  /** The collection after the merged clauses `done`. */
  ghost predicate Collected(col: Collection, done: seq<Clause>) {
    match col
    case Collection(grouped, order) =>
      order == FieldOrder(done) && SameFields(grouped, order) && SameValues(grouped, done)
  }
}
