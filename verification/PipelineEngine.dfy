/** The whole pass over a result tree: every bucket list below, its pipelines, and the sibling pipelines
    of each scope. Each loop over a map may take any order, at every place of the tree anew. */
module PipelineEngine {
  import opened Options
  import opened ScriptGrammar
  import opened Pipelines
  import opened PipelineOrder

  type Scope<N> = map<string, Option<Node<N>>>

  /** What an aggregation of the spec asks of the engine; the first kind asks nothing. */
  datatype Kind = Plain | Parent(pipe: Pipe) | SumBucket(path: string) | MaxBucket(path: string)

  /** An aggregation with those nested in it. */
  datatype Agg = Agg(kind: Kind, nested: map<string, Agg>)

  /** Numbers, and how a list of them is added up and its largest found. */
  datatype Engine<!N> = Engine(nums: Numbers<N>, sum: seq<N> -> N, max: seq<N> -> N)

  // ---------- sibling pipelines ----------

  predicate IsSibling(kind: Kind) {
    kind.SumBucket? || kind.MaxBucket?
  }

  function Siblings(spec: map<string, Agg>): map<string, Kind> {
    map name | name in spec && IsSibling(spec[name].kind) :: spec[name].kind
  }

  /** The values that the second part of a path has in the buckets, where it has one. */
  function ValuesIn<N>(nums: Numbers<N>, bs: seq<Bucket<N>>, path: string): seq<N> {
    if bs == [] then []
    else
      var x := Scalar(nums, bs[0], path);
      (if x.1 then [x.0] else []) + ValuesIn(nums, bs[1..], path)
  }

  /** What a sibling pipeline stores; nothing when its path is not of two parts, or names no node. */
  function SiblingValue<N>(en: Engine<N>, scope: Scope<N>, kind: Kind): Option<N>
    requires IsSibling(kind)
  {
    var parts := Parts(kind.path);
    if |parts| != 2 || Held(scope, parts[0]).None? then None
    else
      var values := ValuesIn(en.nums, Held(scope, parts[0]).value.buckets, parts[1]);
      Some(if kind.SumBucket? then en.sum(values) else en.max(values))
  }

  function StoreSibling<N>(scope: Scope<N>, name: string, v: N): Scope<N> {
    scope[name := Some(NodeWith(Held(scope, name), v))]
  }

  /** The sibling pipelines one after the other, up to the first that fails. */
  function AfterSiblings<N>(en: Engine<N>, scope: Scope<N>, order: seq<string>, sibs: map<string,
                            Kind>): Option<Scope<N>>
    requires forall name | name in order :: name in sibs && IsSibling(sibs[name])
    decreases |order|
  {
    if order == [] then Some(scope)
    else
      var v := SiblingValue(en, scope, sibs[order[0]]);
      if v.None? then None else AfterSiblings(en, StoreSibling(scope, order[0], v.value), order[1..], sibs)
  }

  // ---------- siblings in any order ----------

  /** The node a sibling pipeline reads from. */
  function First(kind: Kind): string
    requires IsSibling(kind)
  {
    Parts(kind.path)[0]
  }

  predicate Malformed(kind: Kind) {
    IsSibling(kind) && |Parts(kind.path)| != 2
  }

  predicate AllSiblings(sibs: map<string, Kind>) {
    forall name | name in sibs :: IsSibling(sibs[name])
  }

  /** Either one fails anyhow, or none reads from the node of another that it could find missing: one
      that reads from its own node needs it to be there already. */
  ghost predicate SiblingsApart(sibs: map<string, Kind>)
    requires AllSiblings(sibs)
  {
    || (exists p | p in sibs :: Malformed(sibs[p]))
    || (forall p, q | p in sibs && q in sibs && p != q && First(sibs[p]) == q :: First(sibs[q]) == q)
  }

  lemma ValueIff<N>(en: Engine<N>, scope: Scope<N>, kind: Kind)
    requires IsSibling(kind)
    ensures SiblingValue(en, scope, kind).Some? <==> !Malformed(kind) && Held(scope, First(kind)).Some?
  {
  }

  /** Storing a value leaves what is read from nodes that are there. */
  lemma StoreKeepsValue<N>(en: Engine<N>, scope: Scope<N>, name: string, v: N, kind: Kind)
    requires IsSibling(kind) && Held(scope, First(kind)).Some?
    ensures Held(StoreSibling(scope, name, v), First(kind)).Some?
    ensures SiblingValue(en, StoreSibling(scope, name, v), kind) == SiblingValue(en, scope, kind)
  {
  }

  /** When every node that is read from is there, all succeed. */
  lemma {:induction false} AllThere<N>(en: Engine<N>, scope: Scope<N>, order: seq<string>, sibs: map<string, Kind>)
    requires forall name | name in order :: name in sibs && IsSibling(sibs[name])
    requires forall name | name in order :: SiblingValue(en, scope, sibs[name]).Some?
    ensures AfterSiblings(en, scope, order, sibs).Some?
    decreases |order|
  {
    if order != [] {
      var next := StoreSibling(scope, order[0], SiblingValue(en, scope, sibs[order[0]]).value);
      forall name | name in order[1..] ensures SiblingValue(en, next, sibs[name]).Some? {
        assert name in order;
        ValueIff(en, scope, sibs[name]);
        StoreKeepsValue(en, scope, order[0], SiblingValue(en, scope, sibs[order[0]]).value, sibs[name]);
      }
      AllThere(en, next, order[1..], sibs);
    }
  }

  /** A pipeline that fails, and whose node only one that reads from itself could create. */
  predicate Doomed<N>(scope: Scope<N>, sibs: map<string, Kind>, x: string)
    requires AllSiblings(sibs)
  {
    x in sibs && (Malformed(sibs[x]) ||
                  (Held(scope, First(sibs[x])).None?
                   && (First(sibs[x]) in sibs ==> First(sibs[First(sibs[x])]) == First(sibs[x]))))
  }

  lemma {:induction false} DoomedFails<N>(en: Engine<N>, scope: Scope<N>, order: seq<string>, sibs: map<string, Kind>,
                                          x: string)
    requires AllSiblings(sibs) && (forall name | name in order :: name in sibs) && x in order && Doomed(scope, sibs, x)
    ensures AfterSiblings(en, scope, order, sibs).None?
    decreases |order|
  {
    var y := order[0];
    var v := SiblingValue(en, scope, sibs[y]);
    ValueIff(en, scope, sibs[x]);
    if v.Some? {
      ValueIff(en, scope, sibs[y]);
      assert x != y && x in order[1..];
      assert Doomed(StoreSibling(scope, y, v.value), sibs, x);
      DoomedFails(en, StoreSibling(scope, y, v.value), order[1..], sibs, x);
    }
  }

  /** The scope with the value of each of these pipelines, computed from the scope before. */
  ghost predicate HasSiblings<N>(en: Engine<N>, before: Scope<N>, names: set<string>, sibs: map<string, Kind>,
                                 after: Scope<N>)
    requires AllSiblings(sibs) && names <= sibs.Keys
  {
    && (forall x | x !in names :: (x in after <==> x in before) && (x in before ==> after[x] == before[x]))
    && (forall x | x in names ::
          && SiblingValue(en, before, sibs[x]).Some? && x in after
          && after[x] == Some(NodeWith(Held(before, x), SiblingValue(en, before, sibs[x]).value)))
  }

  /** Values are read from nodes that were there before. */
  lemma ReadsAsBefore<N>(en: Engine<N>, before: Scope<N>, names: set<string>, sibs: map<string, Kind>, scope: Scope<N>,
                         kind: Kind)
    requires AllSiblings(sibs) && names <= sibs.Keys && HasSiblings(en, before, names, sibs, scope)
    requires IsSibling(kind) && SiblingValue(en, before, kind).Some?
    ensures SiblingValue(en, scope, kind) == SiblingValue(en, before, kind)
  {
    ValueIff(en, before, kind);
    assert Held(scope, First(kind)).Some?;
    assert Held(scope, First(kind)).value.buckets == Held(before, First(kind)).value.buckets;
  }

  lemma HasOneMore<N>(en: Engine<N>, before: Scope<N>, done: set<string>, sibs: map<string, Kind>, scope: Scope<N>,
                      x: string)
    requires AllSiblings(sibs) && done <= sibs.Keys && HasSiblings(en, before, done, sibs, scope)
    requires x in sibs && x !in done && SiblingValue(en, before, sibs[x]).Some?
    ensures HasSiblings(en, before, done + {x}, sibs, StoreSibling(scope, x, SiblingValue(en, before, sibs[x]).value))
  {
    assert Held(scope, x) == Held(before, x);
  }

  lemma {:induction false} SiblingsStore<N>(en: Engine<N>, before: Scope<N>, done: set<string>, scope: Scope<N>,
                                            order: seq<string>, sibs: map<string, Kind>)
    requires AllSiblings(sibs) && done <= sibs.Keys && (forall name | name in order :: name in sibs)
    requires Distinct(order) && (forall name | name in order :: name !in done)
    requires forall name | name in order :: SiblingValue(en, before, sibs[name]).Some?
    requires HasSiblings(en, before, done, sibs, scope)
    ensures var r := AfterSiblings(en, scope, order, sibs);
            r.Some? && HasSiblings(en, before, done + Names(order), sibs, r.value)
    decreases |order|
  {
    if order == [] {
      assert done + Names(order) == done;
    } else {
      var x, rest := order[0], order[1..];
      ReadsAsBefore(en, before, done, sibs, scope, sibs[x]);
      HasOneMore(en, before, done, sibs, scope, x);
      SiblingsStore(en, before, done + {x}, StoreSibling(scope, x, SiblingValue(en, before, sibs[x]).value), rest,
                    sibs);
      assert done + Names(order) == done + {x} + Names(rest);
    }
  }

  lemma SiblingsUnique<N>(en: Engine<N>, before: Scope<N>, names: set<string>, sibs: map<string, Kind>, a: Scope<N>,
                          b: Scope<N>)
    requires AllSiblings(sibs) && names <= sibs.Keys
    requires HasSiblings(en, before, names, sibs, a) && HasSiblings(en, before, names, sibs, b)
    ensures a == b
  {
    forall x ensures (x in a <==> x in b) && (x in a ==> a[x] == b[x]) {
      if x in names {}
    }
  }

  predicate Lists(order: seq<string>, names: set<string>) {
    Distinct(order) && Names(order) == names
  }

  lemma InNames(order: seq<string>, names: set<string>)
    requires Names(order) == names
    ensures forall x :: x in order <==> x in names
  {
    forall x ensures x in order <==> x in names { assert x in Names(order) <==> x in order; }
  }

  lemma SiblingsCommute<N>(en: Engine<N>, scope: Scope<N>, order: seq<string>, order': seq<string>, sibs: map<string,
                           Kind>)
    requires AllSiblings(sibs) && SiblingsApart(sibs) && Lists(order, sibs.Keys) && Lists(order', sibs.Keys)
    ensures forall name | name in order + order' :: name in sibs
    ensures AfterSiblings(en, scope, order, sibs) == AfterSiblings(en, scope, order', sibs)
  {
    InNames(order, sibs.Keys);
    InNames(order', sibs.Keys);
    if x :| x in sibs && SiblingValue(en, scope, sibs[x]).None? {
      ValueIff(en, scope, sibs[x]);
      var y := SomeDoomed(scope, sibs, x);
      DoomedFails(en, scope, order, sibs, y);
      DoomedFails(en, scope, order', sibs, y);
    } else {
      AllStored(en, scope, order, sibs);
      AllStored(en, scope, order', sibs);
      SiblingsUnique(en, scope, sibs.Keys, sibs,
                     AfterSiblings(en, scope, order, sibs).value, AfterSiblings(en, scope, order', sibs).value);
    }
  }

  lemma AllStored<N>(en: Engine<N>, scope: Scope<N>, order: seq<string>, sibs: map<string, Kind>)
    requires AllSiblings(sibs) && Lists(order, sibs.Keys) && (forall name | name in order :: name in sibs)
    requires forall name | name in sibs :: SiblingValue(en, scope, sibs[name]).Some?
    ensures var r := AfterSiblings(en, scope, order, sibs);
            r.Some? && HasSiblings(en, scope, sibs.Keys, sibs, r.value)
  {
    SiblingsStore(en, scope, {}, scope, order, sibs);
    assert {} + Names(order) == sibs.Keys;
  }

  lemma SomeDoomed<N>(scope: Scope<N>, sibs: map<string, Kind>, x: string) returns (y: string)
    requires AllSiblings(sibs) && SiblingsApart(sibs) && x in sibs
    requires Malformed(sibs[x]) || Held(scope, First(sibs[x])).None?
    ensures y in sibs && Doomed(scope, sibs, y)
  {
    if p :| p in sibs && Malformed(sibs[p]) {
      y := p;
    } else {
      y := x;
    }
  }

  // ---------- siblings whose order shows ----------

  ghost predicate SiblingOrderNeverShows<N(!new)>(en: Engine<N>, sibs: map<string, Kind>)
    requires AllSiblings(sibs)
  {
    forall scope, order, order' | Lists(order, sibs.Keys) && Lists(order', sibs.Keys) ::
      SameEffect(en, scope, order, order', sibs)
  }

  ghost predicate SameEffect<N>(en: Engine<N>, scope: Scope<N>, order: seq<string>, order': seq<string>,
                                sibs: map<string, Kind>)
    requires AllSiblings(sibs) && Lists(order, sibs.Keys) && Lists(order', sibs.Keys)
  {
    InNames(order, sibs.Keys);
    InNames(order', sibs.Keys);
    AfterSiblings(en, scope, order, sibs) == AfterSiblings(en, scope, order', sibs)
  }

  /** Every node that is read from but one, without buckets. */
  function AllBut<N>(sibs: map<string, Kind>, q: string, v: N): Scope<N>
    requires AllSiblings(sibs)
  {
    var firsts := set name | name in sibs :: First(sibs[name]);
    map a | a in firsts && a != q :: Some(Node(v, true, [], ""))
  }

  lemma PairListed(p: string, q: string, rest: seq<string>, names: set<string>)
    requires p in names && q in names && p != q && Lists(rest, names - {p, q})
    ensures Lists([p, q] + rest, names)
  {
    assert p !in Names(rest) && q !in Names(rest);
    assert Names([p, q] + rest) == {p, q} + Names(rest);
  }

  lemma ReaderNeedsOther<N(!new)>(en: Engine<N>, sibs: map<string, Kind>, p: string, q: string, v: N)
    requires AllSiblings(sibs) && (forall x | x in sibs :: !Malformed(sibs[x]))
    requires p in sibs && q in sibs && p != q && First(sibs[p]) == q && First(sibs[q]) != q
    ensures !SiblingOrderNeverShows(en, sibs)
  {
    var rest := Listed(sibs.Keys - {p, q});
    PairListed(p, q, rest, sibs.Keys);
    PairListed(q, p, rest, sibs.Keys);
    EffectsDiffer(en, sibs, p, q, [p, q] + rest, [q, p] + rest, v);
    EffectShows(en, AllBut(sibs, q, v), [p, q] + rest, [q, p] + rest, sibs);
  }

  lemma EffectShows<N(!new)>(en: Engine<N>, scope: Scope<N>, a: seq<string>, b: seq<string>, sibs: map<string, Kind>)
    requires AllSiblings(sibs) && Lists(a, sibs.Keys) && Lists(b, sibs.Keys) && !SameEffect(en, scope, a, b, sibs)
    ensures !SiblingOrderNeverShows(en, sibs)
  {
  }

  lemma EffectsDiffer<N>(en: Engine<N>, sibs: map<string, Kind>, p: string, q: string, a: seq<string>, b: seq<string>,
                         v: N)
    requires AllSiblings(sibs) && (forall x | x in sibs :: !Malformed(sibs[x]))
    requires p in sibs && q in sibs && First(sibs[p]) == q && First(sibs[q]) != q
    requires Lists(a, sibs.Keys) && Lists(b, sibs.Keys) && a != [] && a[0] == p && b != [] && b[0] == q
    ensures !SameEffect(en, AllBut(sibs, q, v), a, b, sibs)
  {
    InNames(a, sibs.Keys);
    InNames(b, sibs.Keys);
    ReaderFirst(en, sibs, p, q, a, v);
    OtherFirst(en, sibs, q, b, v);
  }

  lemma ReaderFirst<N>(en: Engine<N>, sibs: map<string, Kind>, p: string, q: string, order: seq<string>, v: N)
    requires AllSiblings(sibs) && p in sibs && First(sibs[p]) == q
    requires order != [] && order[0] == p && forall name | name in order :: name in sibs
    ensures AfterSiblings(en, AllBut(sibs, q, v), order, sibs).None?
  {
    ValueIff(en, AllBut(sibs, q, v), sibs[p]);
  }

  lemma OtherFirst<N>(en: Engine<N>, sibs: map<string, Kind>, q: string, order: seq<string>, v: N)
    requires AllSiblings(sibs) && (forall x | x in sibs :: !Malformed(sibs[x])) && q in sibs && First(sibs[q]) != q
    requires order != [] && order[0] == q && forall name | name in order :: name in sibs
    ensures AfterSiblings(en, AllBut(sibs, q, v), order, sibs).Some?
  {
    var scope := AllBut(sibs, q, v);
    ValueIff(en, scope, sibs[q]);
    var next := StoreSibling(scope, q, SiblingValue(en, scope, sibs[q]).value);
    forall name | name in order[1..] ensures SiblingValue(en, next, sibs[name]).Some? {
      assert name in order;
      ValueIff(en, next, sibs[name]);
    }
    AllThere(en, next, order[1..], sibs);
  }

  /** Sibling pipelines do the same to every scope in all orders exactly when one of them fails anyhow,
      or none reads from the node of another that does not read from that node itself. */
  lemma SiblingsCommuteIff<N(!new)>(en: Engine<N>, sibs: map<string, Kind>)
    requires AllSiblings(sibs)
    ensures SiblingOrderNeverShows(en, sibs) <==> SiblingsApart(sibs)
  {
    if SiblingsApart(sibs) {
      forall scope, order, order' | Lists(order, sibs.Keys) && Lists(order', sibs.Keys)
        ensures SameEffect(en, scope, order, order', sibs)
      {
        SiblingsCommute(en, scope, order, order', sibs);
      }
    } else {
      var p, q :| p in sibs && q in sibs && p != q && First(sibs[p]) == q && First(sibs[q]) != q;
      ReaderNeedsOther(en, sibs, p, q, en.nums.ops.zero);
    }
  }

  // ---------- the whole tree ----------

  /** A place in the tree where a map is iterated. */
  datatype Mark = InNode(name: string) | InBucket(i: nat) | AtSiblings | AtList

  /** The order taken for the names at each place. */
  type Orders = (seq<Mark>, set<string>) -> seq<string>

  ghost predicate Iterates(o: Orders) {
    forall at, names :: Lists(o(at, names), names)
  }

  function PipesOf(spec: map<string, Agg>): map<string, Pipe> {
    map name | name in spec && spec[name].kind.Parent? :: spec[name].kind.pipe
  }

  /** A bucket list: first the scope of each bucket, then the pipelines of the list; nothing when one fails. */
  ghost function ListAfter<N(!new)>(en: Engine<N>, o: Orders, at: seq<Mark>, bs: seq<Bucket<N>>,
                                    agg: Agg): Option<seq<Bucket<N>>>
    requires Iterates(o)
    decreases agg, 2
  {
    if exists i | 0 <= i < |bs| :: ScopeAfter(en, o, at + [InBucket(i)], bs[i].aggs, agg).None? then None
    else
      var inner := seq(|bs|, i requires 0 <= i < |bs| =>
                         bs[i].(aggs := ScopeAfter(en, o, at + [InBucket(i)], bs[i].aggs, agg).value));
      var pipes := PipesOf(agg.nested);
      var order := o(at + [AtList], pipes.Keys);
      InNames(order, pipes.Keys);
      if AllSucceed(en.nums, inner, order, pipes) then Some(AfterAll(en.nums, inner, order, pipes)) else None
  }

  /** A scope: first the bucket lists of its nodes, then its sibling pipelines. */
  ghost function ScopeAfter<N(!new)>(en: Engine<N>, o: Orders, at: seq<Mark>, scope: Option<Scope<N>>,
                                     agg: Agg): Option<Option<Scope<N>>>
    requires Iterates(o)
    decreases agg, 1
  {
    if scope.None? then Some(None)
    else if exists name | name in scope.value :: NodeAfter(en, o, at, name, scope.value[name], agg).None? then None
    else
      var inner := map name | name in scope.value :: NodeAfter(en, o, at, name, scope.value[name], agg).value;
      var sibs := Siblings(agg.nested);
      var order := o(at + [AtSiblings], sibs.Keys);
      InNames(order, sibs.Keys);
      var r := AfterSiblings(en, inner, order, sibs);
      if r.None? then None else Some(r)
  }

  ghost function NodeAfter<N(!new)>(en: Engine<N>, o: Orders, at: seq<Mark>, name: string, node: Option<Node<N>>,
                                    agg: Agg): Option<Option<Node<N>>>
    requires Iterates(o)
    decreases agg, 0
  {
    if node.None? || name !in agg.nested then Some(node)
    else
      var r := ListAfter(en, o, at + [InNode(name)], node.value.buckets, agg.nested[name]);
      if r.None? then None else Some(Some(node.value.(buckets := r.value)))
  }

  /** At every level, no pipeline of a list reads another, and no sibling pipeline needs another first. */
  ghost predicate Tame(agg: Agg) {
    && Unrelated(PipesOf(agg.nested)) && SiblingsApart(Siblings(agg.nested))
    && forall name | name in agg.nested :: Tame(agg.nested[name])
  }

  lemma {:induction false} ListOrderIrrelevant<N(!new)>(en: Engine<N>, o: Orders, o': Orders, at: seq<Mark>,
                                                        bs: seq<Bucket<N>>, agg: Agg)
    requires Iterates(o) && Iterates(o') && Tame(agg)
    ensures ListAfter(en, o, at, bs, agg) == ListAfter(en, o', at, bs, agg)
    decreases agg, 2
  {
    forall i | 0 <= i < |bs|
      ensures ScopeAfter(en, o, at + [InBucket(i)], bs[i].aggs, agg)
           == ScopeAfter(en, o', at + [InBucket(i)], bs[i].aggs, agg)
    {
      EngineOrderIrrelevant(en, o, o', at + [InBucket(i)], bs[i].aggs, agg);
    }
    if forall i | 0 <= i < |bs| :: ScopeAfter(en, o, at + [InBucket(i)], bs[i].aggs, agg).Some? {
      var inner := seq(|bs|, i requires 0 <= i < |bs| =>
                         bs[i].(aggs := ScopeAfter(en, o, at + [InBucket(i)], bs[i].aggs, agg).value));
      var inner' := seq(|bs|, i requires 0 <= i < |bs| =>
                          bs[i].(aggs := ScopeAfter(en, o', at + [InBucket(i)], bs[i].aggs, agg).value));
      assert inner == inner';
      var pipes := PipesOf(agg.nested);
      InNames(o(at + [AtList], pipes.Keys), pipes.Keys);
      OrderIrrelevant(en.nums, inner, o(at + [AtList], pipes.Keys), o'(at + [AtList], pipes.Keys), pipes);
    }
  }

  /** The whole pass gives the same result, or fails, whatever order each loop over a map takes. */
  lemma {:induction false} EngineOrderIrrelevant<N(!new)>(en: Engine<N>, o: Orders, o': Orders, at: seq<Mark>,
                                                          scope: Option<Scope<N>>, agg: Agg)
    requires Iterates(o) && Iterates(o') && Tame(agg)
    ensures ScopeAfter(en, o, at, scope, agg) == ScopeAfter(en, o', at, scope, agg)
    decreases agg, 1
  {
    if scope.Some? {
      forall name | name in scope.value
        ensures NodeAfter(en, o, at, name, scope.value[name], agg)
             == NodeAfter(en, o', at, name, scope.value[name], agg)
      {
        if scope.value[name].Some? && name in agg.nested {
          ListOrderIrrelevant(en, o, o', at + [InNode(name)], scope.value[name].value.buckets, agg.nested[name]);
        }
      }
      if forall name | name in scope.value :: NodeAfter(en, o, at, name, scope.value[name], agg).Some? {
        var inner := map name | name in scope.value :: NodeAfter(en, o, at, name, scope.value[name], agg).value;
        var inner' := map name | name in scope.value :: NodeAfter(en, o', at, name, scope.value[name], agg).value;
        assert inner == inner';
        var sibs := Siblings(agg.nested);
        SiblingsCommute(en, inner, o(at + [AtSiblings], sibs.Keys), o'(at + [AtSiblings], sibs.Keys), sibs);
      }
    }
  }
}
