/** What the pipelines leave in buckets and scopes, told from document counts, node values and texts. */
module PipelineResults {
  import opened Options
  import opened ScriptGrammar
  import opened Pipelines
  import opened PipelineEngine
  import ScriptText
  import Separated

  // ---------- paths ----------

  /** A text that holds the sign names no document count. */
  lemma SignIsNoCount(path: string)
    requires '>' in path
    ensures !IsCount(path)
  {
    assert '>' !in "_count" && '>' !in "._count";
  }

  /** The document count under its two names, and the value of a node under its name. */
  lemma NameNames<N>(nums: Numbers<N>, b: Bucket<N>, name: string)
    requires '>' !in name && b.aggs.Some?
    ensures Scalar(nums, b, "_count") == Scalar(nums, b, "._count") == (nums.ofCount(b.docCount), true)
    ensures var node := Held(b.aggs.value, name);
            name != "_count" && name != "._count" ==>
              Scalar(nums, b, name)
                == if node.Some? then (node.value.value, node.value.isSet) else (nums.ops.zero, false)
  {
    Separated.SplitFree(name, '>');
  }

  /** What the rest of a path names in the first bucket of the node before the sign. */
  lemma PathNames<N>(nums: Numbers<N>, b: Bucket<N>, name: string, rest: string)
    requires '>' !in name && b.aggs.Some? && rest != "_count" && rest != "._count"
    ensures var node := Held(b.aggs.value, name);
            Scalar(nums, b, name + ">" + rest)
              == if node.Some? && node.value.buckets != [] then Scalar(nums, node.value.buckets[0], rest)
                 else (nums.ops.zero, false)
  {
    var path := name + ">" + rest;
    assert path[|name|] == '>';
    SignIsNoCount(path);
    PartsOf(name, rest);
    DescendInto(nums, b.aggs, name, Parts(rest));
  }

  lemma PartsOf(name: string, rest: string)
    requires '>' !in name
    ensures Parts(name + ">" + rest) == [name] + Parts(rest)
  {
    Separated.SplitFree(name, '>');
    assert name + ">" + rest == name + (['>'] + rest);
    Separated.SplitAtSeparator(name, rest, '>');
  }

  lemma DescendInto<N>(nums: Numbers<N>, scope: Option<Scope<N>>, name: string, rest: seq<string>)
    requires scope.Some? && rest != []
    ensures var node := Held(scope.value, name);
            Descend(nums, scope, [name] + rest)
              == if node.Some? && node.value.buckets != [] then Descend(nums, node.value.buckets[0].aggs, rest)
                 else (nums.ops.zero, false)
  {
    assert ([name] + rest)[1..] == rest;
  }

  // ---------- scripts ----------

  /** The quotient of two paths, stored in each bucket under the name of the pipeline: a path that is
      not there is zero, and so is a quotient by zero. */
  lemma RatioStored<N>(nums: Numbers<N>, bs: seq<Bucket<N>>, name: string, x: string, y: string, i: nat)
    requires i < |bs| && bs[i].aggs.Some?
    ensures var pipe := Script(map["a" := x, "b" := y], "params.a / params.b");
            var p, q := Scalar(nums, bs[i], x).0, Scalar(nums, bs[i], y).0;
            && Succeeds(nums, bs, pipe)
            && AfterOne(nums, bs, name, pipe)[i].aggs.Some?
            && Held(AfterOne(nums, bs, name, pipe)[i].aggs.value, name)
               == Some(NodeWith(Held(bs[i].aggs.value, name),
                                if nums.ops.isZero(q) then nums.ops.zero else nums.ops.div(p, q)))
  {
    var paths := map["a" := x, "b" := y];
    forall j | 0 <= j < |bs|
      ensures var p, q := Scalar(nums, bs[j], x).0, Scalar(nums, bs[j], y).0;
              OutputAt(nums, bs, Script(paths, "params.a / params.b"), j)
                == Stored(if nums.ops.isZero(q) then nums.ops.zero else nums.ops.div(p, q))
    {
      RatioOf(nums, bs, x, y, j);
    }
  }

  lemma RatioOf<N>(nums: Numbers<N>, bs: seq<Bucket<N>>, x: string, y: string, i: nat)
    requires i < |bs|
    ensures var p, q := Scalar(nums, bs[i], x).0, Scalar(nums, bs[i], y).0;
            OutputAt(nums, bs, Script(map["a" := x, "b" := y], "params.a / params.b"), i)
              == Stored(if nums.ops.isZero(q) then nums.ops.zero else nums.ops.div(p, q))
  {
    var env := ScriptEnv(nums, bs[i], map["a" := x, "b" := y]);
    assert "params." + "a" + " / " + ("params." + "b") == "params.a / params.b";
    ScriptText.OperationsEvaluate("a", "b", env);
  }

  // ---------- sibling pipelines ----------

  function PresentIn<N>(nums: Numbers<N>, bs: seq<Bucket<N>>, path: string): set<nat> {
    set i: nat | i < |bs| && Scalar(nums, bs[i], path).1
  }

  /** The values added up: one for each bucket that has one, in the order of the buckets. */
  lemma {:induction false} ValuesAre<N>(nums: Numbers<N>, bs: seq<Bucket<N>>, path: string, i: nat)
    requires i < |bs| && Scalar(nums, bs[i], path).1
    ensures var k := |ValuesIn(nums, bs[..i], path)|;
            k < |ValuesIn(nums, bs, path)| && ValuesIn(nums, bs, path)[k] == Scalar(nums, bs[i], path).0
    decreases |bs|
  {
    if i > 0 {
      ValuesAre(nums, bs[1..], path, i - 1);
      assert bs[..i][1..] == bs[1..][..i - 1];
    }
  }

  lemma {:induction false} AsManyAsPresent<N>(nums: Numbers<N>, bs: seq<Bucket<N>>, path: string)
    ensures |ValuesIn(nums, bs, path)| == |PresentIn(nums, bs, path)|
    decreases |bs|
  {
    if bs == [] {
      assert PresentIn(nums, bs, path) == {};
    } else {
      var init, b := bs[..|bs| - 1], bs[|bs| - 1];
      AsManyAsPresent(nums, init, path);
      ValuesMore(nums, init, b, path);
      PresentMore(nums, init, b, path);
      assert bs == init + [b];
    }
  }

  lemma PresentMore<N>(nums: Numbers<N>, bs: seq<Bucket<N>>, b: Bucket<N>, path: string)
    ensures |PresentIn(nums, bs + [b], path)|
         == |PresentIn(nums, bs, path)| + if Scalar(nums, b, path).1 then 1 else 0
  {
    var before, after, n := PresentIn(nums, bs, path), PresentIn(nums, bs + [b], path), |bs|;
    forall i: nat | i < n ensures i in before <==> i in after { assert (bs + [b])[i] == bs[i]; }
    assert (bs + [b])[n] == b;
    if Scalar(nums, b, path).1 {
      assert after == before + {n};
    } else {
      assert after == before;
    }
  }

  lemma {:induction false} ValuesMore<N>(nums: Numbers<N>, bs: seq<Bucket<N>>, b: Bucket<N>, path: string)
    ensures ValuesIn(nums, bs + [b], path)
         == ValuesIn(nums, bs, path) + if Scalar(nums, b, path).1 then [Scalar(nums, b, path).0] else []
    decreases |bs|
  {
    if bs == [] {
      assert bs + [b] == [b] && [b][1..] == [];
    } else {
      assert (bs + [b])[1..] == bs[1..] + [b];
      ValuesMore(nums, bs[1..], b, path);
    }
  }

  /** A sum_bucket leaves the sum of those values and a max_bucket their largest, on the path `a>m`; both
      fail without a node `a`, and on a path of one part. */
  lemma SiblingLeaves<N>(en: Engine<N>, scope: Scope<N>, a: string, m: string)
    requires '>' !in a && '>' !in m
    ensures var node := Held(scope, a);
            && SiblingValue(en, scope, SumBucket(a + ">" + m))
               == (if node.None? then None else Some(en.sum(ValuesIn(en.nums, node.value.buckets, m))))
            && SiblingValue(en, scope, MaxBucket(a + ">" + m))
               == (if node.None? then None else Some(en.max(ValuesIn(en.nums, node.value.buckets, m))))
            && SiblingValue(en, scope, SumBucket(a)) == SiblingValue(en, scope, MaxBucket(a)) == None
  {
    assert a + ">" + m == a + (['>'] + m);
    Separated.SplitAtSeparator(a, m, '>');
    Separated.SplitFree(a, '>');
    Separated.SplitFree(m, '>');
    assert Parts(a + ">" + m) == [a, m];
  }

  // ---------- inner before outer ----------

  const COUNT_CHANGE := Agg(Parent(Derivative("_count")), map[])

  /** A list under `a` with the derivative `d` of its document count, and beside it the sum of `d`. */
  const SUM_OF_CHANGES := Agg(Plain, map["a" := Agg(Plain, map["d" := COUNT_CHANGE]),
                                         "s" := Agg(SumBucket("a>d"), map[])])

  function Counts<N>(counts: seq<int>): seq<Bucket<N>> {
    seq(|counts|, i requires 0 <= i < |counts| => Bucket(counts[i], Some(map[])))
  }

  /** The list once the derivative is in it. */
  function Changes<N>(nums: Numbers<N>, counts: seq<int>): seq<Bucket<N>> {
    seq(|counts|, i requires 0 <= i < |counts| =>
      Bucket(counts[i], Some(if i == 0 then map[] else
        map["d" := Some(Node(nums.ops.sub(nums.ofCount(counts[i]), nums.ofCount(counts[i - 1])), true, [], ""))])))
  }

  lemma ChangeOf<N>(nums: Numbers<N>, counts: seq<int>, i: nat)
    requires i < |counts|
    ensures WithOutput(Counts<N>(counts)[i], "d", OutputAt(nums, Counts<N>(counts), Derivative("_count"), i))
         == Changes(nums, counts)[i]
  {
    var bs := Counts<N>(counts);
    assert bs[i] == Bucket(counts[i], Some(map[]));
    if i > 0 {
      assert LastPresent(nums, bs, "_count", i) == Some(i - 1);
      var change := nums.ops.sub(nums.ofCount(counts[i]), nums.ofCount(counts[i - 1]));
      assert OutputAt(nums, bs, Derivative("_count"), i) == Stored(change);
      FreshNode(counts[i], change);
    }
  }

  lemma FreshNode<N>(count: int, v: N)
    ensures Store(Bucket(count, Some(map[])), "d", v) == Bucket(count, Some(map["d" := Some(Node(v, true, [], ""))]))
  {
  }

  lemma ChangesAre<N>(nums: Numbers<N>, counts: seq<int>)
    ensures AfterOne(nums, Counts<N>(counts), "d", Derivative("_count")) == Changes(nums, counts)
    ensures Succeeds(nums, Counts<N>(counts), Derivative("_count"))
  {
    forall i | 0 <= i < |counts|
      ensures AfterOne(nums, Counts<N>(counts), "d", Derivative("_count"))[i] == Changes(nums, counts)[i] {
      ChangeOf(nums, counts, i);
    }
  }

  lemma OnlyOne(order: seq<string>, x: string)
    requires Lists(order, {x})
    ensures order == [x]
  {
    assert |order| < 2 || order[0] != order[1];
    assert x in Names(order);
    forall i | 0 <= i < |order| ensures order[i] == x { assert order[i] in Names(order); }
  }

  lemma NoneListed(order: seq<string>)
    requires Lists(order, {})
    ensures order == []
  {
    assert order == [] || order[0] in order;
    InNames(order, {});
  }

  /** A scope without nodes and without sibling pipelines stays. */
  lemma EmptyScopeStays<N(!new)>(en: Engine<N>, o: Orders, at: seq<Mark>, agg: Agg)
    requires Iterates(o) && Siblings(agg.nested) == map[]
    ensures ScopeAfter(en, o, at, Some(map[]), agg) == Some(Some(map[]))
  {
    NoneListed(o(at + [AtSiblings], {}));
  }

  lemma InnerListAfter<N(!new)>(en: Engine<N>, o: Orders, at: seq<Mark>, counts: seq<int>)
    requires Iterates(o)
    ensures ListAfter(en, o, at, Counts<N>(counts), SUM_OF_CHANGES.nested["a"]) == Some(Changes(en.nums, counts))
  {
    var agg, bs := SUM_OF_CHANGES.nested["a"], Counts<N>(counts);
    assert Siblings(agg.nested) == map[];
    forall i | 0 <= i < |bs| ensures ScopeAfter(en, o, at + [InBucket(i)], bs[i].aggs, agg) == Some(Some(map[])) {
      EmptyScopeStays(en, o, at + [InBucket(i)], agg);
    }
    var inner := seq(|bs|, i requires 0 <= i < |bs| =>
                       bs[i].(aggs := ScopeAfter(en, o, at + [InBucket(i)], bs[i].aggs, agg).value));
    assert inner == bs;
    var pipes := PipesOf(agg.nested);
    assert pipes == map["d" := Derivative("_count")];
    OneAfter(en.nums, bs, o(at + [AtList], {"d"}), pipes);
    ChangesAre(en.nums, counts);
  }

  lemma OneAfter<N>(nums: Numbers<N>, bs: seq<Bucket<N>>, order: seq<string>, pipes: map<string, Pipe>)
    requires pipes.Keys == {"d"} && Lists(order, {"d"})
    ensures forall name | name in order :: name in pipes
    ensures AfterAll(nums, bs, order, pipes) == AfterOne(nums, bs, "d", pipes["d"])
    ensures AllSucceed(nums, bs, order, pipes) <==> Succeeds(nums, bs, pipes["d"])
  {
    OnlyOne(order, "d");
    assert order[..0] == [];
    assert AfterAll(nums, bs, [], pipes) == bs;
    assert TurnSucceeds(nums, bs, order, pipes, 0) <==> Succeeds(nums, bs, pipes["d"]);
  }

  /** In every order of every loop, the sum beside a list is that of the values its pipelines left in it. */
  lemma SumSeesInner<N(!new)>(en: Engine<N>, o: Orders, at: seq<Mark>, counts: seq<int>, v: N)
    requires Iterates(o)
    ensures var scope: Scope<N> := map["a" := Some(Node(v, false, Counts(counts), ""))];
            var changes := Changes(en.nums, counts);
            ScopeAfter(en, o, at, Some(scope), SUM_OF_CHANGES)
              == Some(Some(map["a" := Some(Node(v, false, changes, "")),
                               "s" := Some(Node(en.sum(ValuesIn(en.nums, changes, "d")), true, [], ""))]))
  {
    var scope: Scope<N> := map["a" := Some(Node(v, false, Counts(counts), ""))];
    var changed: Scope<N> := map["a" := Some(Node(v, false, Changes(en.nums, counts), ""))];
    InnerListAfter(en, o, at + [InNode("a")], counts);
    SumAfter(en, o, at, scope, changed);
  }

  /** A scope whose nodes are done, and then its sibling pipelines. */
  lemma SiblingsAfterNodes<N(!new)>(en: Engine<N>, o: Orders, at: seq<Mark>, scope: Scope<N>, agg: Agg,
                                    changed: Scope<N>)
    requires Iterates(o) && scope.Keys == changed.Keys
    requires forall name | name in scope :: NodeAfter(en, o, at, name, scope[name], agg) == Some(changed[name])
    ensures var sibs := Siblings(agg.nested);
            var order := o(at + [AtSiblings], sibs.Keys);
            && (forall name | name in order :: name in sibs)
            && (AfterSiblings(en, changed, order, sibs).Some? ==>
                  ScopeAfter(en, o, at, Some(scope), agg) == Some(AfterSiblings(en, changed, order, sibs)))
  {
    var inner := map name | name in scope :: NodeAfter(en, o, at, name, scope[name], agg).value;
    assert inner == changed;
    InNames(o(at + [AtSiblings], Siblings(agg.nested).Keys), Siblings(agg.nested).Keys);
  }

  lemma SumAfter<N(!new)>(en: Engine<N>, o: Orders, at: seq<Mark>, scope: Scope<N>, changed: Scope<N>)
    requires Iterates(o) && scope.Keys == changed.Keys == {"a"} && changed["a"].Some?
    requires NodeAfter(en, o, at, "a", scope["a"], SUM_OF_CHANGES) == Some(changed["a"])
    ensures ScopeAfter(en, o, at, Some(scope), SUM_OF_CHANGES)
         == Some(Some(StoreSibling(changed, "s", en.sum(ValuesIn(en.nums, changed["a"].value.buckets, "d")))))
  {
    var sibs := Siblings(SUM_OF_CHANGES.nested);
    OneSum();
    OnlyOne(o(at + [AtSiblings], sibs.Keys), "s");
    OneSibling(en, changed, sibs);
    SiblingsAfterNodes(en, o, at, scope, SUM_OF_CHANGES, changed);
  }

  lemma OneSum()
    ensures Siblings(SUM_OF_CHANGES.nested) == map["s" := SumBucket("a>d")]
  {
  }

  lemma OneSibling<N>(en: Engine<N>, scope: Scope<N>, sibs: map<string, Kind>)
    requires sibs == map["s" := SumBucket("a>d")] && "a" in scope && scope["a"].Some?
    ensures AfterSiblings(en, scope, ["s"], sibs)
         == Some(StoreSibling(scope, "s", en.sum(ValuesIn(en.nums, scope["a"].value.buckets, "d"))))
  {
    assert "a" + ">" + "d" == "a>d";
    SiblingLeaves(en, scope, "a", "d");
    assert ["s"][1..] == [];
  }
}
