/** For which derivative pipelines the order of the run shows. */
module PipelineOrder {
  import opened Options
  import opened ScriptGrammar
  import opened Pipelines
  import Separated

  /** An order in which a map with these pipelines can be iterated. */
  predicate IsOrder(order: seq<string>, spec: map<string, Pipe>) {
    Distinct(order) && (forall name | name in order :: name in spec) && Names(order) == spec.Keys
  }

  predicate AllDerivatives(spec: map<string, Pipe>) {
    forall name | name in spec :: spec[name].Derivative?
  }

  /** Every bucket list is left the same whatever the order. */
  ghost predicate OrderNeverShows<N(!new)>(nums: Numbers<N>, spec: map<string, Pipe>) {
    forall bs, order, order' | IsOrder(order, spec) && IsOrder(order', spec) ::
      AfterAll(nums, bs, order, spec) == AfterAll(nums, bs, order', spec)
  }

  function HeldAt<N>(b: Bucket<N>, name: string): Option<Node<N>> {
    if b.aggs.None? then None else Held(b.aggs.value, name)
  }

  predicate IsSetAt<N>(b: Bucket<N>, name: string) {
    HeldAt(b, name).Some? && HeldAt(b, name).value.isSet
  }

  lemma ScalarOfNode<N>(nums: Numbers<N>, b: Bucket<N>, path: string, name: string)
    requires IsNode(path, name)
    ensures Scalar(nums, b, path).1 <==> IsSetAt(b, name)
    ensures IsSetAt(b, name) ==> Scalar(nums, b, path).0 == HeldAt(b, name).value.value
  {
  }

  // ---------- the rest of the order ----------

  lemma NamedParts(a: seq<string>, b: seq<string>, spec: map<string, Pipe>)
    requires forall name | name in a + b :: name in spec
    ensures forall name | name in a :: name in spec
    ensures forall name | name in b :: name in spec
  {
    forall name | name in a ensures name in spec { assert name in a + b; }
    forall name | name in b ensures name in spec { assert name in a + b; }
  }

  lemma {:induction false} AfterConcat<N>(nums: Numbers<N>, bs: seq<Bucket<N>>, a: seq<string>, b: seq<string>,
                                          spec: map<string, Pipe>)
    requires forall name | name in a + b :: name in spec
    ensures forall name | name in a :: name in spec
    ensures forall name | name in b :: name in spec
    ensures AfterAll(nums, bs, a + b, spec) == AfterAll(nums, AfterAll(nums, bs, a, spec), b, spec)
    decreases |b|
  {
    NamedParts(a, b, spec);
    if b == [] {
      assert a + b == a;
    } else {
      var init := b[..|b| - 1];
      assert (a + b)[..|a + b| - 1] == a + init;
      assert a + b == (a + init) + [b[|b| - 1]];
      NamedParts(a + init, [b[|b| - 1]], spec);
      AfterConcat(nums, bs, a, init, spec);
    }
  }

  /** Pipelines leave what other names hold. */
  lemma {:induction false} OthersKept<N>(nums: Numbers<N>, bs: seq<Bucket<N>>, order: seq<string>, spec: map<string,
                                         Pipe>, name: string)
    requires (forall x | x in order :: x in spec) && name !in order
    ensures |AfterAll(nums, bs, order, spec)| == |bs|
    ensures forall i | 0 <= i < |bs| :: HeldAt(AfterAll(nums, bs, order, spec)[i], name) == HeldAt(bs[i], name)
    decreases |order|
  {
    if order != [] {
      OthersKept(nums, bs, order[..|order| - 1], spec, name);
    }
  }

  lemma TwoTurns<N>(nums: Numbers<N>, bs: seq<Bucket<N>>, p: string, q: string, spec: map<string, Pipe>)
    requires p in spec && q in spec
    ensures AfterAll(nums, bs, [p, q], spec) == AfterOne(nums, AfterOne(nums, bs, p, spec[p]), q, spec[q])
  {
    var order := [p, q];
    assert order[..1] == [p] && [p][..0] == [];
    assert AfterAll(nums, bs, [p], spec) == AfterOne(nums, bs, p, spec[p]);
  }

  /** The set in some order. */
  lemma {:induction false} Listed(names: set<string>) returns (order: seq<string>)
    ensures Distinct(order) && Names(order) == names
    decreases |names|
  {
    if names == {} {
      order := [];
    } else {
      var x :| x in names;
      var rest := Listed(names - {x});
      assert x !in Names(rest);
      order := [x] + rest;
      assert Names(order) == {x} + Names(rest);
    }
  }

  /** What two pipelines leave under the first name differs between their two orders. */
  ghost predicate Shows<N>(nums: Numbers<N>, bs: seq<Bucket<N>>, p: string, q: string, spec: map<string, Pipe>)
    requires p in spec && q in spec
  {
    exists i | 0 <= i < |bs| ::
      HeldAt(AfterOne(nums, AfterOne(nums, bs, q, spec[q]), p, spec[p])[i], p)
      != HeldAt(AfterOne(nums, AfterOne(nums, bs, p, spec[p]), q, spec[q])[i], p)
  }

  lemma PairFirst(p: string, q: string, rest: seq<string>, spec: map<string, Pipe>)
    requires p in spec && q in spec && p != q && Distinct(rest) && Names(rest) == spec.Keys - {p, q}
    ensures IsOrder([p, q] + rest, spec)
  {
    var order := [p, q] + rest;
    assert p !in Names(rest) && q !in Names(rest);
    assert Names(order) == {p, q} + Names(rest);
    assert forall x | x in order :: x in Names(order);
  }

  /** The pipelines that run after two others leave what those did. */
  lemma RestKeeps<N>(nums: Numbers<N>, bs: seq<Bucket<N>>, p: string, q: string, rest: seq<string>, spec: map<string,
                     Pipe>, name: string)
    requires IsOrder([p, q] + rest, spec) && name !in rest && p in spec && q in spec
    ensures var r := AfterAll(nums, bs, [p, q] + rest, spec);
            |r| == |bs| && forall i | 0 <= i < |bs| ::
              HeldAt(r[i], name) == HeldAt(AfterOne(nums, AfterOne(nums, bs, p, spec[p]), q, spec[q])[i], name)
  {
    AfterConcat(nums, bs, [p, q], rest, spec);
    TwoTurns(nums, bs, p, q, spec);
    OthersKept(nums, AfterAll(nums, bs, [p, q], spec), rest, spec, name);
  }

  /** Where two pipelines show their order, two orders of the whole spec differ. */
  lemma PairShows<N(!new)>(nums: Numbers<N>, bs: seq<Bucket<N>>, p: string, q: string, spec: map<string, Pipe>)
    requires p in spec && q in spec && p != q && Shows(nums, bs, p, q, spec)
    ensures !OrderNeverShows(nums, spec)
  {
    var rest := Listed(spec.Keys - {p, q});
    assert p !in Names(rest);
    PairFirst(p, q, rest, spec);
    PairFirst(q, p, rest, spec);
    OrdersDiffer(nums, bs, p, q, rest, spec);
    NotNever(nums, bs, [q, p] + rest, [p, q] + rest, spec);
  }

  lemma OrdersDiffer<N>(nums: Numbers<N>, bs: seq<Bucket<N>>, p: string, q: string, rest: seq<string>, spec: map<string,
                        Pipe>)
    requires p in spec && q in spec && p !in rest && Shows(nums, bs, p, q, spec)
    requires IsOrder([p, q] + rest, spec) && IsOrder([q, p] + rest, spec)
    ensures AfterAll(nums, bs, [q, p] + rest, spec) != AfterAll(nums, bs, [p, q] + rest, spec)
  {
    RestKeeps(nums, bs, q, p, rest, spec, p);
    RestKeeps(nums, bs, p, q, rest, spec, p);
  }

  lemma NotNever<N(!new)>(nums: Numbers<N>, bs: seq<Bucket<N>>, order: seq<string>, order': seq<string>,
                          spec: map<string, Pipe>)
    requires IsOrder(order, spec) && IsOrder(order', spec)
    requires AfterAll(nums, bs, order, spec) != AfterAll(nums, bs, order', spec)
    ensures !OrderNeverShows(nums, spec)
  {
  }

  // ---------- a pipeline reads one that reads something else ----------

  /** A bucket in which the node at the end of the path, and no other, has a value. */
  function Reaching<N>(parts: seq<string>, v: N): Bucket<N>
    requires parts != []
    decreases |parts|
  {
    var node := if |parts| == 1 then Node(v, true, [], "") else Node(v, false, [Reaching(parts[1..], v)], "");
    Bucket(0, Some(map[parts[0] := Some(node)]))
  }

  lemma {:induction false} ReachingPresent<N>(nums: Numbers<N>, parts: seq<string>, v: N)
    requires parts != []
    ensures Descend(nums, Reaching(parts, v).aggs, parts) == (v, true)
    decreases |parts|
  {
    if |parts| > 1 { ReachingPresent(nums, parts[1..], v); }
  }

  /** Three equal buckets in which only the path of `q` is present: run first, `p` finds nothing. */
  lemma ChainShows<N>(nums: Numbers<N>, b: Bucket<N>, p: string, q: string, spec: map<string, Pipe>)
    requires p in spec && q in spec && p != q && spec[p].Derivative? && spec[q].Derivative? && IsNode(spec[p].path, q)
    requires Scalar(nums, b, spec[q].path).1 && b.aggs.Some? && !IsSetAt(b, p) && !IsSetAt(b, q)
    ensures Shows(nums, [b, b, b], p, q, spec)
  {
    var bs := [b, b, b];
    var path := spec[p].path;
    var first, then_ := AfterOne(nums, bs, q, spec[q]), AfterOne(nums, bs, p, spec[p]);
    ScalarOfNode(nums, b, path, q);
    assert then_[2] == b;
    assert !IsSetAt(AfterOne(nums, then_, q, spec[q])[2], p);
    assert LastPresent(nums, bs, spec[q].path, 1) == Some(0) && LastPresent(nums, bs, spec[q].path, 2) == Some(1);
    ScalarOfNode(nums, first[1], path, q);
    ScalarOfNode(nums, first[2], path, q);
    assert LastPresent(nums, first, path, 2) == Some(1);
    assert IsSetAt(AfterOne(nums, first, p, spec[p])[2], p);
  }

  // ---------- a pipeline reads one that reads itself, or back ----------

  ghost predicate Subtracts(nums: Numbers<real>) {
    forall x, y :: nums.ops.sub(x, y) == x - y
  }

  /** A bucket in which these two names have values. */
  function Pair(p: string, vp: real, q: string, vq: real): Bucket<real> {
    Bucket(0, Some(map[p := Some(Node(vp, true, [], "")), q := Some(Node(vq, true, [], ""))]))
  }

  /** What a derivative of a node leaves in the second of two buckets that hold it. */
  lemma DerivativeOfNode(nums: Numbers<real>, bs: seq<Bucket<real>>, name: string, path: string, x: string)
    requires Subtracts(nums) && |bs| == 2 && IsNode(path, x) && bs[1].aggs.Some? && IsSetAt(bs[0], x)
    requires IsSetAt(bs[1], x)
    ensures var r := AfterOne(nums, bs, name, Derivative(path));
            && r[0] == bs[0] && r[1].aggs.Some? && IsSetAt(r[1], name)
            && HeldAt(r[1], name).value.value == HeldAt(bs[1], x).value.value - HeldAt(bs[0], x).value.value
            && (forall y | y != name :: HeldAt(r[1], y) == HeldAt(bs[1], y))
  {
    ScalarOfNode(nums, bs[0], path, x);
    ScalarOfNode(nums, bs[1], path, x);
    assert LastPresent(nums, bs, path, 1) == Some(0);
  }

  lemma SelfReaderShows(nums: Numbers<real>, p: string, q: string, spec: map<string, Pipe>)
    requires Subtracts(nums) && p in spec && q in spec && p != q && spec[p].Derivative? && spec[q].Derivative?
    requires IsNode(spec[p].path, q) && IsNode(spec[q].path, q)
    ensures exists bs :: Shows(nums, bs, p, q, spec)
  {
    var bs := [Pair(p, 0.0, q, 1.0), Pair(p, 0.0, q, 1.0)];
    var first, then_ := AfterOne(nums, bs, q, spec[q]), AfterOne(nums, bs, p, spec[p]);
    DerivativeOfNode(nums, bs, q, spec[q].path, q);
    DerivativeOfNode(nums, first, p, spec[p].path, q);
    DerivativeOfNode(nums, bs, p, spec[p].path, q);
    DerivativeOfNode(nums, then_, q, spec[q].path, q);
    assert Shows(nums, bs, p, q, spec);
  }

  lemma MutualReadersShow(nums: Numbers<real>, p: string, q: string, spec: map<string, Pipe>)
    requires Subtracts(nums) && p in spec && q in spec && p != q && spec[p].Derivative? && spec[q].Derivative?
    requires IsNode(spec[p].path, q) && IsNode(spec[q].path, p)
    ensures exists bs :: Shows(nums, bs, p, q, spec)
  {
    var bs := [Pair(p, 0.0, q, 0.0), Pair(p, 0.0, q, 1.0)];
    var first, then_ := AfterOne(nums, bs, q, spec[q]), AfterOne(nums, bs, p, spec[p]);
    DerivativeOfNode(nums, bs, q, spec[q].path, p);
    DerivativeOfNode(nums, first, p, spec[p].path, q);
    DerivativeOfNode(nums, bs, p, spec[p].path, q);
    DerivativeOfNode(nums, then_, q, spec[q].path, p);
    assert Shows(nums, bs, p, q, spec);
  }

  // ---------- exactly when ----------

  lemma ReaderShows(nums: Numbers<real>, p: string, q: string, spec: map<string, Pipe>)
    requires Subtracts(nums) && p in spec && q in spec && p != q && spec[p].Derivative? && spec[q].Derivative?
    requires IsNode(spec[p].path, q)
    ensures exists bs :: Shows(nums, bs, p, q, spec)
  {
    var path := spec[q].path;
    if IsNode(path, q) {
      SelfReaderShows(nums, p, q, spec);
    } else if IsNode(path, p) {
      MutualReadersShow(nums, p, q, spec);
    } else {
      ThirdPathShows(nums, p, q, spec);
    }
  }

  lemma ThirdPathShows(nums: Numbers<real>, p: string, q: string, spec: map<string, Pipe>)
    requires p in spec && q in spec && p != q && spec[p].Derivative? && spec[q].Derivative?
    requires IsNode(spec[p].path, q) && !IsNode(spec[q].path, q) && !IsNode(spec[q].path, p)
    ensures exists bs :: Shows(nums, bs, p, q, spec)
  {
    var path := spec[q].path;
    var b: Bucket<real> := if IsCount(path) then Bucket(0, Some(map[])) else Reaching(Parts(path), 0.0);
    if !IsCount(path) {
      ReachingPresent(nums, Parts(path), 0.0);
      ReachingElsewhere(Parts(path), 0.0, p);
      ReachingElsewhere(Parts(path), 0.0, q);
    }
    ChainShows(nums, b, p, q, spec);
    assert Shows(nums, [b, b, b], p, q, spec);
  }

  lemma ReachingElsewhere<N>(parts: seq<string>, v: N, name: string)
    requires parts != [] && parts != [name]
    ensures !IsSetAt(Reaching(parts, v), name)
  {
    assert |parts| == 1 ==> parts == [parts[0]];
  }

  /** Derivatives leave every bucket list the same in all orders exactly when none reads another. */
  lemma DerivativesCommuteIff(nums: Numbers<real>, spec: map<string, Pipe>)
    requires Subtracts(nums) && AllDerivatives(spec)
    ensures OrderNeverShows(nums, spec) <==> Unrelated(spec)
  {
    if Unrelated(spec) {
      forall bs, order, order' | IsOrder(order, spec) && IsOrder(order', spec)
        ensures AfterAll(nums, bs, order, spec) == AfterAll(nums, bs, order', spec)
      {
        OrderIrrelevant(nums, bs, order, order', spec);
      }
    } else {
      var p, q :| p in spec && q in spec && p != q && Reads(spec[p], q);
      assert IsNode(spec[p].path, q);
      ReaderShows(nums, p, q, spec);
      var bs :| Shows(nums, bs, p, q, spec);
      PairShows(nums, bs, p, q, spec);
    }
  }

  /** The derivative of a derivative of the document count, whatever the numbers are. */
  lemma DependentOrderMatters<N(!new)>(nums: Numbers<N>)
    ensures !OrderNeverShows(nums, map["d" := Derivative("_count"), "e" := Derivative("d")])
  {
    var spec := map["d" := Derivative("_count"), "e" := Derivative("d")];
    var b: Bucket<N> := Bucket(0, Some(map[]));
    OnePart();
    ChainShows(nums, b, "e", "d", spec);
    PairShows(nums, [b, b, b], "e", "d", spec);
  }

  lemma OnePart()
    ensures IsNode("d", "d")
  {
    Separated.SplitFree("d", '>');
  }
}
