/** Merging the partitions of two indexes that were cut by the same histogram. */
module Partitions {

  /** `F` is the type of query filters. */
  datatype Partition<F> = Partition(key: real, start: real, end: real, filter: F, docs: int, other: bool)

  function Min(a: real, b: real): real {
    if a < b then a else b
  }

  function Max(a: real, b: real): real {
    if a > b then a else b
  }

  /** One partition for two with the same key; `filterFor` builds the filter for a range. */
  function Both<F>(a: Partition<F>, b: Partition<F>, filterFor: (real, real) -> F): Partition<F> {
    var start, end := Min(a.start, b.start), Max(a.end, b.end);
    Partition(a.key, start, end, filterFor(start, end), if a.docs > b.docs then a.docs else b.docs, false)
  }

  function Merge<F>(s: seq<Partition<F>>, t: seq<Partition<F>>, filterFor: (real, real) -> F): seq<Partition<F>> {
    if s == [] then t
    else if t == [] then s
    else if s[0].key < t[0].key then [s[0]] + Merge(s[1..], t, filterFor)
    else if s[0].key > t[0].key then [t[0]] + Merge(s, t[1..], filterFor)
    else [Both(s[0], t[0], filterFor)] + Merge(s[1..], t[1..], filterFor)
  }

  method MergePartitions<F(!new)>(source: seq<Partition<F>>, target: seq<Partition<F>>, filterFor: (real, real) -> F)
    returns (ret: seq<Partition<F>>)
    ensures ret == Merge(source, target, filterFor)
  {
    var i, j := 0, 0;
    ret := [];
    PendingStart(source, target, filterFor);
    while i < |source| && j < |target|
      invariant 0 <= i <= |source| && 0 <= j <= |target|
      invariant Pending(ret, source, i, target, j, filterFor)
      decreases |source| + |target| - i - j
    {
      var s, t := source[i], target[j];
      PendingStep(ret, source, i, target, j, filterFor);
      if s.key < t.key {
        ret := ret + [s];
        i := i + 1;
        continue;
      }
      if s.key > t.key {
        ret := ret + [t];
        j := j + 1;
        continue;
      }
      ret := ret + [Both(s, t, filterFor)];
      i, j := i + 1, j + 1;
    }
    PendingEnd(ret, source, i, target, j, filterFor);
    ret := AppendFrom(ret, source, i);
    ret := AppendFrom(ret, target, j);
  }

  method AppendFrom<F>(ret: seq<Partition<F>>, list: seq<Partition<F>>, from: nat) returns (r: seq<Partition<F>>)
    requires from <= |list|
    ensures r == ret + list[from..]
  {
    r := ret;
    for k := from to |list|
      invariant r == ret + list[from..k]
    {
      r := r + [list[k]];
    }
  }

  /** What the loops still have to append. */
  ghost predicate Pending<F(!new)>(
    ret: seq<Partition<F>>, source: seq<Partition<F>>, i: nat, target: seq<Partition<F>>, j: nat,
    filterFor: (real, real) -> F)
    requires i <= |source| && j <= |target|
  {
    ret + Merge(source[i..], target[j..], filterFor) == Merge(source, target, filterFor)
  }

  lemma PendingStart<F(!new)>(source: seq<Partition<F>>, target: seq<Partition<F>>, filterFor: (real, real) -> F)
    ensures Pending([], source, 0, target, 0, filterFor)
  {
    assert source[0..] == source && target[0..] == target;
    assert [] + Merge(source, target, filterFor) == Merge(source, target, filterFor);
  }

  lemma PendingEnd<F(!new)>(
    ret: seq<Partition<F>>, source: seq<Partition<F>>, i: nat, target: seq<Partition<F>>, j: nat,
    filterFor: (real, real) -> F)
    requires i <= |source| && j <= |target| && (i == |source| || j == |target|)
    requires Pending(ret, source, i, target, j, filterFor)
    ensures ret + source[i..] + target[j..] == Merge(source, target, filterFor)
  {
    var s, t := source[i..], target[j..];
    assert Merge(s, t, filterFor) == s + t;
    assert ret + s + t == ret + (s + t);
  }

  lemma PendingStep<F(!new)>(
    ret: seq<Partition<F>>, source: seq<Partition<F>>, i: nat, target: seq<Partition<F>>, j: nat,
    filterFor: (real, real) -> F)
    requires i < |source| && j < |target| && Pending(ret, source, i, target, j, filterFor)
    ensures source[i].key < target[j].key ==> Pending(ret + [source[i]], source, i + 1, target, j, filterFor)
    ensures source[i].key > target[j].key ==> Pending(ret + [target[j]], source, i, target, j + 1, filterFor)
    ensures source[i].key == target[j].key ==>
              Pending(ret + [Both(source[i], target[j], filterFor)], source, i + 1, target, j + 1, filterFor)
  {
    var s, t := source[i..], target[j..];
    assert s[1..] == source[i + 1..] && t[1..] == target[j + 1..];
    var p := if s[0].key < t[0].key then s[0] else if s[0].key > t[0].key then t[0] else Both(s[0], t[0], filterFor);
    var rest := Merge(s, t, filterFor)[1..];
    assert Merge(s, t, filterFor) == [p] + rest;
    assert ret + ([p] + rest) == ret + [p] + rest;
  }

  // ---------- sorted lists ----------

  predicate Increasing<F>(s: seq<Partition<F>>) {
    forall i, j | 0 <= i < j < |s| :: s[i].key < s[j].key
  }

  predicate HasKey<F>(s: seq<Partition<F>>, key: real) {
    exists i | 0 <= i < |s| :: s[i].key == key
  }

  ghost predicate Merged<F(!new)>(p: Partition<F>, s: seq<Partition<F>>, t: seq<Partition<F>>,
                                  filterFor: (real, real) -> F) {
    || (p in s && !HasKey(t, p.key))
    || (p in t && !HasKey(s, p.key))
    || (exists a, b :: Meet(a, b, s, t) && p == Both(a, b, filterFor))
  }

  predicate Meet<F(==)>(a: Partition<F>, b: Partition<F>, s: seq<Partition<F>>, t: seq<Partition<F>>) {
    a in s && b in t && a.key == b.key
  }

  lemma KeyAbove<F(!new)>(s: seq<Partition<F>>, key: real)
    requires Increasing(s) && s != [] && key < s[0].key
    ensures !HasKey(s, key)
  {
  }

  lemma TailKeys<F(!new)>(s: seq<Partition<F>>)
    requires Increasing(s) && s != []
    ensures Increasing(s[1..]) && !HasKey(s[1..], s[0].key)
    ensures forall p :: p in s <==> p == s[0] || p in s[1..]
    ensures forall key :: HasKey(s, key) <==> key == s[0].key || HasKey(s[1..], key)
  {
    assert s == [s[0]] + s[1..];
    forall key | HasKey(s[1..], key) ensures HasKey(s, key) {
      var i :| 0 <= i < |s[1..]| && s[1..][i].key == key;
      assert s[i + 1].key == key;
    }
    forall key | HasKey(s, key) && key != s[0].key ensures HasKey(s[1..], key) {
      var i :| 0 <= i < |s| && s[i].key == key;
      assert s[1..][i - 1].key == key;
    }
  }

  /** The result is strictly increasing, and its keys are those of both lists. */
  lemma {:induction false} MergeIncreasing<F(!new)>(s: seq<Partition<F>>, t: seq<Partition<F>>,
                                                    filterFor: (real, real) -> F)
    requires Increasing(s) && Increasing(t)
    ensures Increasing(Merge(s, t, filterFor))
    ensures forall key :: HasKey(Merge(s, t, filterFor), key) <==> HasKey(s, key) || HasKey(t, key)
    decreases |s| + |t|
  {
    if s != [] && t != [] {
      TailKeys(s);
      TailKeys(t);
      if s[0].key < t[0].key {
        MergeIncreasing(s[1..], t, filterFor);
        PutFirst(s[0], s[1..], t, Merge(s[1..], t, filterFor));
      } else if s[0].key > t[0].key {
        MergeIncreasing(s, t[1..], filterFor);
        PutFirst(t[0], s, t[1..], Merge(s, t[1..], filterFor));
      } else {
        MergeIncreasing(s[1..], t[1..], filterFor);
        PutFirst(Both(s[0], t[0], filterFor), s[1..], t[1..], Merge(s[1..], t[1..], filterFor));
      }
    }
  }

  predicate Below<F>(key: real, s: seq<Partition<F>>) {
    forall i | 0 <= i < |s| :: key < s[i].key
  }

  lemma PutFirst<F(!new)>(p: Partition<F>, s: seq<Partition<F>>, t: seq<Partition<F>>, m: seq<Partition<F>>)
    requires Increasing(m) && Below(p.key, s) && Below(p.key, t)
    requires forall key :: HasKey(m, key) <==> HasKey(s, key) || HasKey(t, key)
    ensures Increasing([p] + m)
    ensures forall key :: HasKey([p] + m, key) <==> key == p.key || HasKey(s, key) || HasKey(t, key)
  {
    forall i | 0 <= i < |m| ensures p.key < m[i].key {
      assert HasKey(m, m[i].key);
    }
    forall key ensures HasKey([p] + m, key) <==> key == p.key || HasKey(m, key) {
      if key == p.key {
        assert ([p] + m)[0].key == key;
      } else if HasKey(m, key) {
        var i :| 0 <= i < |m| && m[i].key == key;
        assert ([p] + m)[i + 1].key == key;
      }
    }
  }

  /** The result holds exactly the partitions of one list whose key the other lacks, and one for each common key. */
  lemma {:induction false} MergeHolds<F(!new)>(p: Partition<F>, s: seq<Partition<F>>, t: seq<Partition<F>>,
                                               filterFor: (real, real) -> F)
    requires Increasing(s) && Increasing(t)
    ensures p in Merge(s, t, filterFor) <==> Merged(p, s, t, filterFor)
    decreases |s| + |t|
  {
    if s != [] && t != [] {
      TailKeys(s);
      TailKeys(t);
      if s[0].key < t[0].key {
        MergeHolds(p, s[1..], t, filterFor);
        KeyAbove(t, s[0].key);
        assert forall a, b :: Meet(a, b, s, t) <==> Meet(a, b, s[1..], t) by { NoMeet(s[0], t); }
      } else if s[0].key > t[0].key {
        MergeHolds(p, s, t[1..], filterFor);
        KeyAbove(s, t[0].key);
        assert forall a, b :: Meet(a, b, s, t) <==> Meet(a, b, s, t[1..]) by { NoMeet(t[0], s); }
      } else {
        MergeHolds(p, s[1..], t[1..], filterFor);
        NoMeet(s[0], t[1..]);
        NoMeet(t[0], s[1..]);
        assert Meet(s[0], t[0], s, t);
        assert forall a, b :: Meet(a, b, s, t) <==> (a == s[0] && b == t[0]) || Meet(a, b, s[1..], t[1..]);
      }
    }
  }

  /** Two partitions with one key give one that reaches from the earlier start to the later end, with the
      filter for just that range and the larger document count; it is never one for documents without
      a value. */
  lemma HullOfTwo<F(!new)>(a: Partition<F>, b: Partition<F>, s: seq<Partition<F>>, t: seq<Partition<F>>,
                           filterFor: (real, real) -> F)
    requires Increasing(s) && Increasing(t) && a in s && b in t && a.key == b.key
    ensures exists p | p in Merge(s, t, filterFor) ::
              && p.key == a.key && !p.other && p.filter == filterFor(p.start, p.end)
              && p.start <= a.start && p.start <= b.start && (p.start == a.start || p.start == b.start)
              && p.end >= a.end && p.end >= b.end && (p.end == a.end || p.end == b.end)
              && p.docs >= a.docs && p.docs >= b.docs && (p.docs == a.docs || p.docs == b.docs)
  {
    assert Meet(a, b, s, t);
    MergeHolds(Both(a, b, filterFor), s, t, filterFor);
  }

  lemma NoMeet<F(!new)>(p: Partition<F>, t: seq<Partition<F>>)
    requires !HasKey(t, p.key)
    ensures forall b | b in t :: b.key != p.key
  {
  }

  // ---------- ranges ----------

  predicate Covers<F>(p: Partition<F>, x: real) {
    p.start <= x <= p.end
  }

  /** The range of a partition lies in its bucket. */
  predicate InBucket<F>(p: Partition<F>, step: real) {
    p.key <= p.start && p.end < p.key + step
  }

  /** Two lists cut by one histogram: ranges lie in their buckets, and different buckets do not overlap. */
  predicate SameCut<F>(s: seq<Partition<F>>, step: real) {
    && (forall i | 0 <= i < |s| :: InBucket(s[i], step))
    && (forall i, j | 0 <= i < |s| && 0 <= j < |s| && s[i].key < s[j].key :: s[i].key + step <= s[j].key)
  }

  predicate CoveredBy<F>(x: real, s: seq<Partition<F>>, i: int) {
    0 <= i < |s| && Covers(s[i], x)
  }

  lemma MergedFrom<F(!new)>(p: Partition<F>, s: seq<Partition<F>>, t: seq<Partition<F>>, filterFor: (real, real) -> F,
                            step: real)
    returns (a: Partition<F>)
    requires Increasing(s) && Increasing(t) && SameCut(s + t, step) && p in Merge(s, t, filterFor)
    ensures a in s + t && a.key == p.key && InBucket(p, step)
  {
    MergeHolds(p, s, t, filterFor);
    if p in s || p in t {
      a := p;
    } else {
      var b, c :| Meet(b, c, s, t) && p == Both(b, c, filterFor);
      a := b;
      assert b in s + t && c in s + t;
    }
  }

  /** At most one partition of the result covers a value. */
  lemma AtMostOneCovers<F(!new)>(s: seq<Partition<F>>, t: seq<Partition<F>>, filterFor: (real, real) -> F, step: real,
                                 x: real, i: int, j: int)
    requires Increasing(s) && Increasing(t) && SameCut(s + t, step)
    requires CoveredBy(x, Merge(s, t, filterFor), i) && CoveredBy(x, Merge(s, t, filterFor), j)
    ensures i == j
  {
    var m := Merge(s, t, filterFor);
    MergeIncreasing(s, t, filterFor);
    var a := MergedFrom(m[i], s, t, filterFor, step);
    var b := MergedFrom(m[j], s, t, filterFor, step);
  }

  lemma KeyOf<F(!new)>(s: seq<Partition<F>>, key: real) returns (p: Partition<F>)
    requires HasKey(s, key)
    ensures p in s && p.key == key
  {
    var i :| 0 <= i < |s| && s[i].key == key;
    p := s[i];
  }

  /** A value in the range of a partition of either list is in the range of one of the result. */
  lemma SomeCovers<F(!new)>(s: seq<Partition<F>>, t: seq<Partition<F>>, filterFor: (real, real) -> F, x: real,
                            p: Partition<F>)
    returns (i: nat)
    requires Increasing(s) && Increasing(t) && p in s + t && Covers(p, x)
    ensures CoveredBy(x, Merge(s, t, filterFor), i)
  {
    var q := p;
    if p in s && HasKey(t, p.key) {
      var b := KeyOf(t, p.key);
      assert Meet(p, b, s, t);
      q := Both(p, b, filterFor);
    } else if p !in s && HasKey(s, p.key) {
      var a := KeyOf(s, p.key);
      assert Meet(a, p, s, t);
      q := Both(a, p, filterFor);
    }
    MergeHolds(q, s, t, filterFor);
    i :| 0 <= i < |Merge(s, t, filterFor)| && Merge(s, t, filterFor)[i] == q;
  }

  ghost predicate ExactlyOneCovers<F(!new)>(x: real, s: seq<Partition<F>>) {
    exists i :: CoveredBy(x, s, i) && forall j :: CoveredBy(x, s, j) ==> j == i
  }

  /** Every value in any range of the two lists is in exactly one range of the result. */
  lemma CoveredOnce<F(!new)>(s: seq<Partition<F>>, t: seq<Partition<F>>, filterFor: (real, real) -> F, step: real,
                             x: real, p: Partition<F>)
    requires Increasing(s) && Increasing(t) && SameCut(s + t, step) && p in s + t && Covers(p, x)
    ensures ExactlyOneCovers(x, Merge(s, t, filterFor))
  {
    var i := SomeCovers(s, t, filterFor, x, p);
    forall j | CoveredBy(x, Merge(s, t, filterFor), j) ensures j == i {
      AtMostOneCovers(s, t, filterFor, step, x, i, j);
    }
  }

  // ---------- documents without a value ----------

  /** The partition for documents without a value is put at the end of a list, with zeros for key and range. */
  predicate IsOther<F>(p: Partition<F>) {
    p.other && p.key == 0.0 && p.start == 0.0 && p.end == 0.0
  }

  predicate AllProper<F>(s: seq<Partition<F>>) {
    forall i | 0 <= i < |s| :: !s[i].other
  }

  predicate AllNegative<F>(s: seq<Partition<F>>) {
    forall i | 0 <= i < |s| :: s[i].key < 0.0
  }

  function Others<F>(s: seq<Partition<F>>): nat {
    if s == [] then 0 else (if s[0].other then 1 else 0) + Others(s[1..])
  }

  predicate EndTogether<F>(s: seq<Partition<F>>, t: seq<Partition<F>>) {
    if s == [] || t == [] then |s| == |t| else s[|s| - 1].key == t[|t| - 1].key
  }

  lemma {:induction false} OneOther<F(!new)>(s: seq<Partition<F>>, o: Partition<F>)
    requires AllProper(s) && IsOther(o)
    ensures Others(s + [o]) == 1
  {
    if s != [] {
      assert (s + [o])[1..] == s[1..] + [o];
      OneOther(s[1..], o);
    } else {
      assert (s + [o])[1..] == [];
    }
  }

  /** How many such partitions are left when both lists end with one. They meet each other when the
      lists end on the same key, or below zero; one meets a proper partition with key zero when the
      other list reaches that after this one has ended; otherwise both are kept. */
  ghost function OthersLeft<F(!new)>(s: seq<Partition<F>>, t: seq<Partition<F>>): nat {
    if EndTogether(s, t) || (AllNegative(s) && AllNegative(t)) then 0
    else if (AllNegative(s) && HasKey(t, 0.0)) || (AllNegative(t) && HasKey(s, 0.0)) then 1
    else 2
  }

  lemma OneNegativeLess<F(!new)>(s: seq<Partition<F>>)
    requires s != [] && Increasing(s)
    ensures s[0].key < 0.0 ==> (AllNegative(s) <==> AllNegative(s[1..])) && (HasKey(s, 0.0) <==> HasKey(s[1..], 0.0))
    ensures s[0].key >= 0.0 ==> !AllNegative(s) && (AllNegative(s[1..]) ==> s[1..] == [])
    ensures s[0].key > 0.0 ==> !HasKey(s, 0.0)
    ensures HasKey(s[1..], 0.0) ==> s[0].key < 0.0 && HasKey(s, 0.0)
    ensures s[1..] != [] ==> s[0].key < s[|s| - 1].key
  {
    if HasKey(s, 0.0) {
      var i :| 0 <= i < |s| && s[i].key == 0.0;
      if i > 0 { assert s[1..][i - 1].key == 0.0; }
    }
    if HasKey(s[1..], 0.0) {
      var i :| 0 <= i < |s[1..]| && s[1..][i].key == 0.0;
      assert s[i + 1].key == 0.0;
    }
    if AllNegative(s[1..]) && s[0].key < 0.0 {
      forall i | 0 <= i < |s| ensures s[i].key < 0.0 { if i > 0 { assert s[1..][i - 1].key < 0.0; } }
    }
    if s[1..] != [] { assert s[1..][0] == s[1]; }
  }

  lemma LeftStep<F(!new)>(s: seq<Partition<F>>, t: seq<Partition<F>>)
    requires Increasing(s) && Increasing(t) && s != [] && t != []
    ensures s[0].key < t[0].key ==> OthersLeft(s, t) == OthersLeft(s[1..], t)
    ensures s[0].key > t[0].key ==> OthersLeft(s, t) == OthersLeft(s, t[1..])
    ensures s[0].key == t[0].key ==> OthersLeft(s, t) == OthersLeft(s[1..], t[1..])
  {
    OneNegativeLess(s);
    OneNegativeLess(t);
  }

  lemma {:induction false} OnlyInFirst<F(!new)>(o: Partition<F>, t: seq<Partition<F>>, u: Partition<F>,
                                                filterFor: (real, real) -> F)
    requires Increasing(t) && AllProper(t) && IsOther(o) && IsOther(u)
    ensures Others(Merge([o], t + [u], filterFor)) == OthersLeft([], t)
    decreases |t|
  {
    var b := t + [u];
    assert [o][1..] == [];
    if t == [] {
      assert b[1..] == [];
      assert Merge([o], b, filterFor) == [Both(o, u, filterFor)];
    } else {
      assert b[1..] == t[1..] + [u];
      OneNegativeLess(t);
      OneOther(t[1..], u);
      if t[0].key < 0.0 {
        OnlyInFirst(o, t[1..], u, filterFor);
      } else if t[0].key == 0.0 {
        assert Merge([o], b, filterFor) == [Both(o, t[0], filterFor)] + b[1..];
        assert HasKey(t, 0.0);
      } else {
        assert Merge([o], b, filterFor) == [o] + b;
      }
    }
  }

  lemma {:induction false} OnlyInSecond<F(!new)>(s: seq<Partition<F>>, o: Partition<F>, u: Partition<F>,
                                                 filterFor: (real, real) -> F)
    requires Increasing(s) && AllProper(s) && IsOther(o) && IsOther(u)
    ensures Others(Merge(s + [o], [u], filterFor)) == OthersLeft(s, [])
    decreases |s|
  {
    var a := s + [o];
    assert [u][1..] == [];
    if s == [] {
      assert a[1..] == [];
      assert Merge(a, [u], filterFor) == [Both(o, u, filterFor)];
    } else {
      assert a[1..] == s[1..] + [o];
      OneNegativeLess(s);
      OneOther(s[1..], o);
      if s[0].key < 0.0 {
        OnlyInSecond(s[1..], o, u, filterFor);
      } else if s[0].key == 0.0 {
        assert Merge(a, [u], filterFor) == [Both(s[0], u, filterFor)] + a[1..];
        assert HasKey(s, 0.0);
      } else {
        assert Merge(a, [u], filterFor) == [u] + a;
      }
    }
  }

  /** When both lists end with such a partition the result seldom does: both are lost or both are kept,
      except that one is kept when the other met a proper partition with key zero. */
  lemma {:induction false} OtherLostOrDoubled<F(!new)>(
    s: seq<Partition<F>>, t: seq<Partition<F>>, o: Partition<F>, u: Partition<F>, filterFor: (real, real) -> F)
    requires Increasing(s) && Increasing(t) && AllProper(s) && AllProper(t) && IsOther(o) && IsOther(u)
    ensures Others(Merge(s + [o], t + [u], filterFor)) == OthersLeft(s, t)
    decreases |s| + |t|
  {
    var a, b := s + [o], t + [u];
    if s == [] {
      assert a == [o];
      OnlyInFirst(o, t, u, filterFor);
    } else if t == [] {
      assert b == [u];
      OnlyInSecond(s, o, u, filterFor);
    } else {
      assert a[1..] == s[1..] + [o] && b[1..] == t[1..] + [u];
      LeftStep(s, t);
      if s[0].key < t[0].key {
        OtherLostOrDoubled(s[1..], t, o, u, filterFor);
      } else if s[0].key > t[0].key {
        OtherLostOrDoubled(s, t[1..], o, u, filterFor);
      } else {
        OtherLostOrDoubled(s[1..], t[1..], o, u, filterFor);
      }
    }
  }
}
