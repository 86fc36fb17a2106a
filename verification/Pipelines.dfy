/** Parent pipelines over one bucket list: derivative and bucket_script.
    The engine runs them in the iteration order of a map, so the order is arbitrary. */
module Pipelines {
  import opened Options
  import opened ScriptGrammar
  import ScriptText
  import Separated

  /** One aggregation result; `extra` stands for the parts no pipeline looks at. */
  datatype Node<N> = Node(value: N, isSet: bool, buckets: seq<Bucket<N>>, extra: string)

  /** One bucket. Its scope may be a nil map, and a name may map to a nil node. */
  datatype Bucket<N> = Bucket(docCount: int, aggs: Option<map<string, Option<Node<N>>>>)

  datatype Pipe = Derivative(path: string) | Script(paths: map<string, string>, script: string)

  /** Numbers, and how a document count becomes one. */
  datatype Numbers<!N> = Numbers(ops: Arith<N>, read: string -> Option<N>, ofCount: int -> N)

  // ---------- paths ----------

  function Parts(path: string): (parts: seq<string>)
    ensures parts != []
  {
    Separated.Split(path, '>')
  }

  predicate IsCount(path: string) {
    path == "_count" || path == "._count"
  }

  /** The number a path names in a bucket, and whether it counts as present. */
  function Scalar<N>(nums: Numbers<N>, b: Bucket<N>, path: string): (N, bool) {
    if IsCount(path) then (nums.ofCount(b.docCount), true)
    else Descend(nums, b.aggs, Parts(path))
  }

  function Descend<N>(nums: Numbers<N>, scope: Option<map<string, Option<Node<N>>>>, parts: seq<string>): (N, bool)
    decreases |parts|
  {
    var missing := (nums.ops.zero, false);
    if parts == [] || scope.None? || parts[0] !in scope.value || scope.value[parts[0]].None? then missing
    else
      var node := scope.value[parts[0]].value;
      if |parts| == 1 then (node.value, node.isSet)
      else if node.buckets == [] then missing
      else Descend(nums, node.buckets[0].aggs, parts[1..])
  }

  /** Store a value under a name; a nil scope stays nil. */
  function Store<N>(b: Bucket<N>, name: string, v: N): Bucket<N> {
    if b.aggs.None? then b
    else
      var scope := b.aggs.value;
      var node := if name in scope && scope[name].Some? then scope[name].value.(value := v, isSet := true)
                  else Node(v, true, [], "");
      b.(aggs := Some(scope[name := Some(node)]))
  }

  // ---------- what each pipeline contributes ----------

  /** The nearest earlier bucket in which the path is present. */
  function LastPresent<N>(nums: Numbers<N>, bs: seq<Bucket<N>>, path: string, i: nat): (r: Option<nat>)
    requires i <= |bs|
    ensures r.Some? ==> r.value < i && Scalar(nums, bs[r.value], path).1
    ensures r.Some? ==> forall j | r.value < j < i :: !Scalar(nums, bs[j], path).1
    ensures r.None? ==> forall j | 0 <= j < i :: !Scalar(nums, bs[j], path).1
  {
    if i == 0 then None
    else if Scalar(nums, bs[i - 1], path).1 then Some(i - 1)
    else LastPresent(nums, bs, path, i - 1)
  }

  function ScriptEnv<N>(nums: Numbers<N>, b: Bucket<N>, paths: map<string, string>): Env<N> {
    Env(nums.ops, nums.read, map p | p in paths :: Scalar(nums, b, paths[p]).0)
  }

  /** What a pipeline stores in bucket `i`, if anything; `Failed` when its script does not evaluate. */
  datatype Output<N> = Nothing | Stored(value: N) | Failed

  function OutputAt<N>(nums: Numbers<N>, bs: seq<Bucket<N>>, pipe: Pipe, i: nat): Output<N>
    requires i < |bs|
  {
    match pipe
    case Derivative(path) =>
      var cur, prev := Scalar(nums, bs[i], path), LastPresent(nums, bs, path, i);
      if cur.1 && prev.Some? then Stored(nums.ops.sub(cur.0, Scalar(nums, bs[prev.value], path).0)) else Nothing
    case Script(paths, script) =>
      var r := ScriptText.Eval(script, ScriptEnv(nums, bs[i], paths));
      if r.Value? then Stored(r.value) else Failed
  }

  function WithOutput<N>(b: Bucket<N>, name: string, out: Output<N>): Bucket<N> {
    if out.Stored? then Store(b, name, out.value) else b
  }

  ghost predicate Succeeds<N>(nums: Numbers<N>, bs: seq<Bucket<N>>, pipe: Pipe) {
    forall i | 0 <= i < |bs| :: !OutputAt(nums, bs, pipe, i).Failed?
  }

  /** The bucket list after one pipeline, when it succeeds. */
  function AfterOne<N>(nums: Numbers<N>, bs: seq<Bucket<N>>, name: string, pipe: Pipe): (r: seq<Bucket<N>>)
    ensures |r| == |bs|
    ensures forall i | 0 <= i < |bs| :: r[i] == WithOutput(bs[i], name, OutputAt(nums, bs, pipe, i))
  {
    seq(|bs|, i requires 0 <= i < |bs| => WithOutput(bs[i], name, OutputAt(nums, bs, pipe, i)))
  }

  // ---------- the engine ----------

  /** The last present value is carried along. */
  predicate Carried<N(==)>(nums: Numbers<N>, bs: seq<Bucket<N>>, path: string, i: nat, prev: N, prevSet: bool)
    requires i <= |bs|
  {
    var last := LastPresent(nums, bs, path, i);
    prevSet == last.Some? && (prevSet ==> prev == Scalar(nums, bs[last.value], path).0)
  }

  lemma DerivativeStep<N>(nums: Numbers<N>, bs: seq<Bucket<N>>, name: string, path: string, i: nat, prev: N,
                          prevSet: bool)
    requires i < |bs| && Carried(nums, bs, path, i, prev, prevSet)
    ensures var (cur, ok) := Scalar(nums, bs[i], path);
            && AfterOne(nums, bs, name, Derivative(path))[i]
               == (if ok && prevSet then Store(bs[i], name, nums.ops.sub(cur, prev)) else bs[i])
            && (if ok then Carried(nums, bs, path, i + 1, cur, true) else Carried(nums, bs, path, i + 1, prev, prevSet))
    ensures prevSet ==> i > 0
  {
  }

  method ApplyDerivative<N>(nums: Numbers<N>, buckets: array<Bucket<N>>, name: string, path: string)
    modifies buckets
    ensures buckets[..] == AfterOne(nums, old(buckets[..]), name, Derivative(path))
  {
    ghost var bs := buckets[..];
    ghost var want := AfterOne(nums, bs, name, Derivative(path));
    var prev, prevSet := nums.ops.zero, false;
    for i := 0 to buckets.Length
      invariant Carried(nums, bs, path, i, prev, prevSet)
      invariant forall j | 0 <= j < i :: buckets[j] == want[j]
      invariant forall j | i <= j < buckets.Length :: buckets[j] == bs[j]
    {
      var b := buckets[i];
      var (cur, ok) := Scalar(nums, b, path);
      DerivativeStep(nums, bs, name, path, i, prev, prevSet);
      if i > 0 && ok && prevSet {
        buckets[i] := Store(b, name, nums.ops.sub(cur, prev));
      }
      if ok {
        prev, prevSet := cur, true;
      }
    }
  }

  /** Stops at the first bucket whose script does not evaluate; those before it keep their values. */
  method ApplyBucketScript<N>(nums: Numbers<N>, buckets: array<Bucket<N>>, name: string,
                              paths: map<string, string>, script: string)
    returns (ok: bool)
    modifies buckets
    ensures ok <==> forall i | 0 <= i < buckets.Length ::
              !OutputAt(nums, old(buckets[..]), Script(paths, script), i).Failed?
    ensures ok ==> buckets[..] == AfterOne(nums, old(buckets[..]), name, Script(paths, script))
  {
    ghost var bs := buckets[..];
    for i := 0 to buckets.Length
      invariant forall j | 0 <= j < i :: !OutputAt(nums, bs, Script(paths, script), j).Failed?
      invariant forall j | 0 <= j < i :: buckets[j] == AfterOne(nums, bs, name, Script(paths, script))[j]
      invariant forall j | i <= j < buckets.Length :: buckets[j] == bs[j]
    {
      var r := ScriptText.EvalScript(script, ScriptEnv(nums, buckets[i], paths));
      if !r.Value? {
        assert OutputAt(nums, bs, Script(paths, script), i).Failed?;
        return false;
      }
      buckets[i] := Store(buckets[i], name, r.value);
    }
    return true;
  }

  function AfterAll<N>(nums: Numbers<N>, bs: seq<Bucket<N>>, order: seq<string>, spec: map<string,
                       Pipe>): seq<Bucket<N>>
    requires forall name | name in order :: name in spec
  {
    if order == [] then bs
    else
      var last := order[|order| - 1];
      AfterOne(nums, AfterAll(nums, bs, order[..|order| - 1], spec), last, spec[last])
  }

  ghost predicate AllSucceed<N>(nums: Numbers<N>, bs: seq<Bucket<N>>, order: seq<string>, spec: map<string, Pipe>)
    requires forall name | name in order :: name in spec
  {
    forall k | 0 <= k < |order| :: TurnSucceeds(nums, bs, order, spec, k)
  }

  /** The pipeline run `k`-th succeeds on what the ones before it left. */
  ghost predicate TurnSucceeds<N>(nums: Numbers<N>, bs: seq<Bucket<N>>, order: seq<string>, spec: map<string, Pipe>,
                                  k: nat)
    requires (forall name | name in order :: name in spec) && k < |order|
  {
    Succeeds(nums, AfterAll(nums, bs, order[..k], spec), spec[order[k]])
  }

  lemma AfterOneMore<N>(nums: Numbers<N>, bs: seq<Bucket<N>>, order: seq<string>, spec: map<string, Pipe>, k: nat)
    requires (forall name | name in order :: name in spec) && k < |order|
    ensures AfterAll(nums, bs, order[..k + 1], spec)
         == AfterOne(nums, AfterAll(nums, bs, order[..k], spec), order[k], spec[order[k]])
  {
    assert order[..k + 1][..k] == order[..k];
  }

  method ApplyOne<N>(nums: Numbers<N>, buckets: array<Bucket<N>>, name: string, pipe: Pipe) returns (ok: bool)
    modifies buckets
    ensures ok <==> Succeeds(nums, old(buckets[..]), pipe)
    ensures ok ==> buckets[..] == AfterOne(nums, old(buckets[..]), name, pipe)
  {
    match pipe
    case Derivative(path) =>
      ApplyDerivative(nums, buckets, name, path);
      ok := true;
    case Script(paths, script) =>
      ok := ApplyBucketScript(nums, buckets, name, paths, script);
  }

  /** `order` is the order in which the map happens to be iterated. */
  method ApplyPipelines<N>(nums: Numbers<N>, buckets: array<Bucket<N>>, order: seq<string>, spec: map<string, Pipe>)
    returns (ok: bool)
    requires forall name | name in order :: name in spec
    modifies buckets
    ensures ok <==> AllSucceed(nums, old(buckets[..]), order, spec)
    ensures ok ==> buckets[..] == AfterAll(nums, old(buckets[..]), order, spec)
  {
    ghost var bs := buckets[..];
    for k := 0 to |order|
      invariant buckets[..] == AfterAll(nums, bs, order[..k], spec)
      invariant forall m | 0 <= m < k :: TurnSucceeds(nums, bs, order, spec, m)
    {
      AfterOneMore(nums, bs, order, spec, k);
      var done := ApplyOne(nums, buckets, order[k], spec[order[k]]);
      assert done <==> TurnSucceeds(nums, bs, order, spec, k);
      if !done {
        return false;
      }
    }
    assert order[..|order|] == order;
    return true;
  }

  // ---------- independence ----------

  /** The paths that evaluating the pipeline resolves in a bucket. */
  function PathsOf(pipe: Pipe): set<string> {
    match pipe
    case Derivative(path) => {path}
    case Script(paths, _) => set p | p in paths :: paths[p]
  }

  /** The path names the node of that name itself, not one inside its buckets. */
  predicate IsNode(path: string, name: string) {
    !IsCount(path) && Parts(path) == [name]
  }

  predicate Reads(pipe: Pipe, name: string) {
    exists path | path in PathsOf(pipe) :: IsNode(path, name)
  }

  /** No pipeline's path is the name of another pipeline of the same spec. A path that goes on into the
      buckets of one is allowed: storing a value leaves those alone. */
  ghost predicate Unrelated(spec: map<string, Pipe>) {
    forall p, q | p in spec && q in spec && p != q :: !Reads(spec[p], q)
  }

  /** The buckets of the node of that name. */
  function Inside<N>(scope: map<string, Option<Node<N>>>, name: string): seq<Bucket<N>> {
    if name in scope && scope[name].Some? then scope[name].value.buckets else []
  }

  /** Buckets agree except for the values that the nodes of the given names hold. */
  ghost predicate AgreeExcept<N>(b: Bucket<N>, c: Bucket<N>, names: set<string>) {
    && b.docCount == c.docCount && (b.aggs.None? <==> c.aggs.None?)
    && (b.aggs.Some? ==>
          && (forall x | x !in names :: (x in b.aggs.value <==> x in c.aggs.value) &&
                                        (x in b.aggs.value ==> b.aggs.value[x] == c.aggs.value[x]))
          && (forall x | x in names :: Inside(b.aggs.value, x) == Inside(c.aggs.value, x)))
  }

  /** No name of the set is the one the path names. */
  predicate Avoids(path: string, names: set<string>) {
    forall x | x in names :: !IsNode(path, x)
  }

  lemma ScalarAgrees<N>(nums: Numbers<N>, b: Bucket<N>, c: Bucket<N>, names: set<string>, path: string)
    requires AgreeExcept(b, c, names) && Avoids(path, names)
    ensures Scalar(nums, b, path) == Scalar(nums, c, path)
  {
    if !IsCount(path) && b.aggs.Some? {
      var parts := Parts(path);
      if parts[0] in names {
        assert parts != [parts[0]];
        DescendInside(nums, b.aggs.value, parts);
        DescendInside(nums, c.aggs.value, parts);
      }
    }
  }

  /** A path of several parts looks only at the buckets of the node its first part names. */
  lemma DescendInside<N>(nums: Numbers<N>, scope: map<string, Option<Node<N>>>, parts: seq<string>)
    requires |parts| > 1
    ensures var inside := Inside(scope, parts[0]);
            Descend(nums, Some(scope), parts) == if inside
              == [] then (nums.ops.zero, false) else Descend(nums, inside[0].aggs, parts[1..])
  {
  }

  ghost predicate ListsAgree<N>(bs: seq<Bucket<N>>, cs: seq<Bucket<N>>, names: set<string>) {
    |bs| == |cs| && forall i | 0 <= i < |bs| :: AgreeExcept(bs[i], cs[i], names)
  }

  lemma {:induction false} LastPresentAgrees<N>(nums: Numbers<N>, bs: seq<Bucket<N>>, cs: seq<Bucket<N>>,
                                                names: set<string>, path: string, i: nat)
    requires ListsAgree(bs, cs, names) && Avoids(path, names) && i <= |bs|
    ensures LastPresent(nums, bs, path, i) == LastPresent(nums, cs, path, i)
  {
    if i > 0 {
      ScalarAgrees(nums, bs[i - 1], cs[i - 1], names, path);
      LastPresentAgrees(nums, bs, cs, names, path, i - 1);
    }
  }

  /** A pipeline that reads none of `names` computes the same from lists that differ only there. */
  lemma OutputAgrees<N>(nums: Numbers<N>, bs: seq<Bucket<N>>, cs: seq<Bucket<N>>, names: set<string>,
                        pipe: Pipe, i: nat)
    requires ListsAgree(bs, cs, names) && (forall name | name in names :: !Reads(pipe, name)) && i < |bs|
    ensures OutputAt(nums, bs, pipe, i) == OutputAt(nums, cs, pipe, i)
  {
    match pipe
    case Derivative(path) =>
      assert path in PathsOf(pipe);
      LastPresentAgrees(nums, bs, cs, names, path, i);
      ScalarAgrees(nums, bs[i], cs[i], names, path);
      var prev := LastPresent(nums, bs, path, i);
      if prev.Some? { ScalarAgrees(nums, bs[prev.value], cs[prev.value], names, path); }
    case Script(paths, script) =>
      forall p | p in paths ensures Scalar(nums, bs[i], paths[p]) == Scalar(nums, cs[i], paths[p]) {
        assert paths[p] in PathsOf(pipe);
        ScalarAgrees(nums, bs[i], cs[i], names, paths[p]);
      }
      assert ScriptEnv(nums, bs[i], paths) == ScriptEnv(nums, cs[i], paths);
  }

  // ---------- the result, whatever the order ----------

  function Names(order: seq<string>): set<string> {
    set x | x in order
  }

  predicate Distinct(order: seq<string>) {
    forall i, j | 0 <= i < j < |order| :: order[i] != order[j]
  }

  /** The node a pipeline leaves under its name, from the node that was there. */
  function NodeWith<N>(old_: Option<Node<N>>, v: N): Node<N> {
    if old_.Some? then old_.value.(value := v, isSet := true) else Node(v, true, [], "")
  }

  function Held<N>(scope: map<string, Option<Node<N>>>, name: string): Option<Node<N>> {
    if name in scope then scope[name] else None
  }

  /** Bucket `i` with what each of the named pipelines computes from the untouched list. */
  ghost predicate HasResults<N>(nums: Numbers<N>, bs: seq<Bucket<N>>, names: set<string>, spec: map<string, Pipe>,
                                i: nat, b: Bucket<N>)
    requires i < |bs| && forall name | name in names :: name in spec
  {
    && b.docCount == bs[i].docCount && (b.aggs.None? <==> bs[i].aggs.None?)
    && (b.aggs.Some? ==>
          && (forall x | x !in names ::
                (x in b.aggs.value <==> x in bs[i].aggs.value) &&
                (x in b.aggs.value ==> b.aggs.value[x] == bs[i].aggs.value[x]))
          && (forall x | x in names ::
                var out := OutputAt(nums, bs, spec[x], i);
                if out.Stored? then
                  x in b.aggs.value && b.aggs.value[x] == Some(NodeWith(Held(bs[i].aggs.value, x), out.value))
                else
                  (x in b.aggs.value <==> x in bs[i].aggs.value) &&
                  (x in b.aggs.value ==> b.aggs.value[x] == bs[i].aggs.value[x])))
  }

  lemma ResultsUnique<N>(nums: Numbers<N>, bs: seq<Bucket<N>>, names: set<string>, spec: map<string, Pipe>,
                         i: nat, b: Bucket<N>, c: Bucket<N>)
    requires i < |bs| && forall name | name in names :: name in spec
    requires HasResults(nums, bs, names, spec, i, b) && HasResults(nums, bs, names, spec, i, c)
    ensures b == c
  {
    if b.aggs.Some? {
      var m, n := b.aggs.value, c.aggs.value;
      forall x ensures (x in m <==> x in n) && (x in m ==> m[x] == n[x]) {
        if x in names {}
      }
      assert m == n;
    }
  }

  lemma StoreAddsResult<N>(nums: Numbers<N>, bs: seq<Bucket<N>>, names: set<string>, spec: map<string, Pipe>,
                           i: nat, b: Bucket<N>, name: string)
    requires i < |bs| && (forall x | x in names :: x in spec) && name in spec && name !in names
    requires HasResults(nums, bs, names, spec, i, b)
    ensures HasResults(nums, bs, names + {name}, spec, i, WithOutput(b, name, OutputAt(nums, bs, spec[name], i)))
  {
    if b.aggs.Some? {
      assert Held(b.aggs.value, name) == Held(bs[i].aggs.value, name);
    }
  }

  /** Every pipeline stores what it would store alone, and one that fails would fail alone. */
  lemma {:induction false} AfterAllIs<N>(nums: Numbers<N>, bs: seq<Bucket<N>>, order: seq<string>, spec: map<string,
                                         Pipe>)
    requires (forall name | name in order :: name in spec) && Distinct(order) && Unrelated(spec)
    ensures |AfterAll(nums, bs, order, spec)| == |bs|
    ensures forall i | 0 <= i < |bs| :: HasResults(nums, bs, Names(order), spec, i, AfterAll(nums, bs, order, spec)[i])
    decreases |order|
  {
    if order != [] {
      var init, last := order[..|order| - 1], order[|order| - 1];
      AfterAllIs(nums, bs, init, spec);
      var cs := AfterAll(nums, bs, init, spec);
      assert Names(order) == Names(init) + {last};
      forall i | 0 <= i < |bs|
        ensures HasResults(nums, bs, Names(order), spec, i, AfterAll(nums, bs, order, spec)[i])
      {
        LastOutputAgrees(nums, bs, init, last, spec, cs, i);
        StoreAddsResult(nums, bs, Names(init), spec, i, cs[i], last);
      }
    }
  }

  lemma LastOutputAgrees<N>(nums: Numbers<N>, bs: seq<Bucket<N>>, init: seq<string>, last: string,
                            spec: map<string, Pipe>, cs: seq<Bucket<N>>, i: nat)
    requires (forall name | name in init :: name in spec) && last in spec && last !in init && Unrelated(spec)
    requires |cs| == |bs| && i < |bs|
    requires forall j | 0 <= j < |bs| :: HasResults(nums, bs, Names(init), spec, j, cs[j])
    ensures OutputAt(nums, cs, spec[last], i) == OutputAt(nums, bs, spec[last], i)
  {
    forall j | 0 <= j < |bs| ensures AgreeExcept(cs[j], bs[j], Names(init)) {
      assert HasResults(nums, bs, Names(init), spec, j, cs[j]);
    }
    OutputAgrees(nums, cs, bs, Names(init), spec[last], i);
  }

  /** All pipelines succeed in sequence exactly when each succeeds on the untouched list. */
  lemma AllSucceedIff<N>(nums: Numbers<N>, bs: seq<Bucket<N>>, order: seq<string>, spec: map<string, Pipe>)
    requires (forall name | name in order :: name in spec) && Distinct(order) && Unrelated(spec)
    ensures AllSucceed(nums, bs, order, spec) <==> forall name | name in order :: Succeeds(nums, bs, spec[name])
  {
    forall k | 0 <= k < |order|
      ensures TurnSucceeds(nums, bs, order, spec, k) <==> Succeeds(nums, bs, spec[order[k]])
    {
      var cs := AfterAll(nums, bs, order[..k], spec);
      AfterAllIs(nums, bs, order[..k], spec);
      forall i | 0 <= i < |bs|
        ensures OutputAt(nums, cs, spec[order[k]], i) == OutputAt(nums, bs, spec[order[k]], i)
      {
        LastOutputAgrees(nums, bs, order[..k], order[k], spec, cs, i);
      }
    }
  }

  /** Any two iteration orders of the same pipelines succeed alike and leave the same bucket list. */
  lemma OrderIrrelevant<N>(nums: Numbers<N>, bs: seq<Bucket<N>>, order: seq<string>, order': seq<string>,
                           spec: map<string, Pipe>)
    requires (forall name | name in order :: name in spec) && Distinct(order) && Distinct(order')
    requires Names(order) == Names(order') && Unrelated(spec)
    ensures forall name | name in order' :: name in spec
    ensures AllSucceed(nums, bs, order, spec) <==> AllSucceed(nums, bs, order', spec)
    ensures AfterAll(nums, bs, order, spec) == AfterAll(nums, bs, order', spec)
  {
    forall name | name in order' ensures name in order { assert name in Names(order'); }
    forall name | name in order ensures name in order' { assert name in Names(order); }
    AllSucceedIff(nums, bs, order, spec);
    AllSucceedIff(nums, bs, order', spec);
    AfterAllIs(nums, bs, order, spec);
    AfterAllIs(nums, bs, order', spec);
    forall i | 0 <= i < |bs| ensures AfterAll(nums, bs, order, spec)[i] == AfterAll(nums, bs, order', spec)[i] {
      ResultsUnique(nums, bs, Names(order), spec, i, AfterAll(nums, bs, order, spec)[i],
                    AfterAll(nums, bs, order', spec)[i]);
    }
  }
}
