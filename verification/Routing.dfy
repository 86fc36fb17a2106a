/** Which shard a document goes to. Go's `/` and `%` truncate toward zero, so they are written out;
    the document hash is an arbitrary integer. */
module Routing {

  function Abs(x: int): nat {
    if x < 0 then -x else x
  }

  function GoDiv(a: int, b: int): int
    requires b != 0
  {
    if (a < 0) == (b < 0) then Abs(a) / Abs(b) else -(Abs(a) / Abs(b))
  }

  function GoMod(a: int, b: int): int
    requires b != 0
  {
    if a < 0 then -(Abs(a) % Abs(b)) else Abs(a) % Abs(b)
  }

  /** Number of bits needed to write x: 32 minus the leading zeros of a 32-bit word. */
  function BitLen(x: nat): nat {
    if x == 0 then 0 else 1 + BitLen(x / 2)
  }

  function Pow2(k: nat): (r: nat)
    ensures r >= 1
  {
    if k == 0 then 1 else 2 * Pow2(k - 1)
  }

  /** The number of routing shards when an index does not set one. */
  function DefaultRoutingShards(shards: int, version: int): int {
    if version < 7 then shards
    else
      var log2 := BitLen((shards - 1) % 0x1_0000_0000);
      var splits := if 10 - log2 > 1 then 10 - log2 else 1;
      shards * Pow2(splits)
  }

  datatype Outcome = Shard(id: int) | DivideByZero

  function OffsetHash(hash: int, offset: int): int
    requires offset != 0
  {
    if offset != 1 then hash + GoMod(hash, offset) else hash
  }

  function RoutingMod(hash: int, routing: int): int
    requires routing != 0
  {
    if hash < 0 then
      var m := GoMod(routing - Abs(hash), routing);
      if m < 0 then m + routing else m
    else GoMod(hash, routing)
  }

  function ShardId(version: int, hash: int, shards: int, routing: int, offset: int): Outcome {
    var r := if routing <= 0 then DefaultRoutingShards(shards, version) else routing;
    if offset == 0 || shards == 0 || r == 0 || GoDiv(r, shards) == 0 then DivideByZero
    else Shard(GoDiv(RoutingMod(OffsetHash(hash, offset), r), GoDiv(r, shards)))
  }

  // ---------- arithmetic ----------

  lemma {:induction false} DivModUnique(a: int, b: int, q: int, r: int)
    requires b > 0 && 0 <= r < b && a == q * b + r
    ensures a / b == q && a % b == r
  {
    var q', r' := a / b, a % b;
    assert (q - q') * b == r' - r;
    if q > q' { MulMono(1, q - q', b); assert false; }
    if q < q' { MulMono(q - q', -1, b); assert false; }
  }

  lemma MulMono(a: int, b: int, c: int)
    requires a <= b && c >= 0
    ensures a * c <= b * c
  {
  }

  lemma ModOfShift(a: int, b: int)
    requires b > 0
    ensures (a + b) % b == a % b
  {
    DivModUnique(a + b, b, a / b + 1, a % b);
  }

  lemma NegMod(a: int, b: int)
    requires a >= 0 && b > 0
    ensures (-a) % b == (if a % b == 0 then 0 else b - a % b)
  {
    if a % b == 0 {
      DivModUnique(-a, b, -(a / b), 0);
    } else {
      DivModUnique(-a, b, -(a / b) - 1, b - a % b);
    }
  }

  /** The residue the code computes is the floor residue, whatever the sign of the hash. */
  lemma RoutingModIsFloor(hash: int, routing: int)
    requires routing > 0
    ensures RoutingMod(hash, routing) == hash % routing
  {
    if hash < 0 {
      var x := routing - Abs(hash);
      ModOfShift(hash, routing);
      assert x == hash + routing;
      if x < 0 {
        NegMod(Abs(x), routing);
        assert Abs(x) == -x;
      }
    }
  }

  lemma DivRange(x: int, f: int, n: int)
    requires f > 0 && 0 <= x < n * f
    ensures 0 <= x / f < n
  {
    if x / f >= n { MulMono(n, x / f, f); assert false; }
  }

  lemma AtLeastOne(a: int, b: int)
    requires a >= 1 && b >= 1
    ensures a * b >= 1
  {
    MulMono(1, a, b);
  }

  lemma Associate(a: int, b: int, c: int)
    ensures a * b * c == a * (b * c)
  {
  }

  lemma Regroup(p: int, k: int, s: int, f: int)
    ensures (p * k + s) * f == p * (f * k) + s * f
  {
    assert (p * k) * f == p * (f * k);
  }

  lemma DivOfDiv(x: int, f: int, k: int)
    requires x >= 0 && f > 0 && k > 0
    ensures f * k > 0 && (x / f) / k == x / (f * k)
  {
    var q, r := x / f, x % f;
    var p, s := q / k, q % k;
    Regroup(p, k, s, f);
    MulMono(0, s, f);
    MulMono(s + 1, k, f);
    MulMono(1, f, k);
    DivModUnique(x, f * k, p, s * f + r);
  }

  // ---------- shards ----------

  /** The hash with its remainder by the offset added, taken toward zero; an offset of one adds nothing. */
  lemma OffsetHashIs(hash: int, offset: int)
    requires offset != 0
    ensures var size := if offset < 0 then -offset else offset;
            OffsetHash(hash, offset) == if hash < 0 then hash - (-hash) % size else hash + hash % size
    ensures OffsetHash(hash, 1) == OffsetHash(hash, -1) == hash
  {
  }

  lemma ShardIdByFactor(version: int, hash: int, shards: int, factor: int, offset: int)
    requires shards >= 1 && factor >= 1 && offset != 0
    ensures shards * factor >= 1
    ensures ShardId(version, hash, shards, shards * factor, offset)
         == Shard((OffsetHash(hash, offset) % (shards * factor)) / factor)
  {
    var r := shards * factor;
    assert r >= 1;
    DivModUnique(r, shards, factor, 0);
    RoutingModIsFloor(OffsetHash(hash, offset), r);
  }

  /** What a call computes when the shard count divides the routing count: the hash, with its remainder
      by the offset added, taken modulo the routing shards, in groups of the routing factor. */
  lemma ShardIdIs(version: int, hash: int, shards: int, factor: int, offset: int)
    requires shards >= 1 && factor >= 1 && offset != 0
    ensures shards * factor >= 1
    ensures var size := if offset < 0 then -offset else offset;
            var shifted := if hash < 0 then hash - (-hash) % size else hash + hash % size;
            ShardId(version, hash, shards, shards * factor, offset) == Shard((shifted % (shards * factor)) / factor)
  {
    OffsetHashIs(hash, offset);
    ShardIdByFactor(version, hash, shards, factor, offset);
  }

  ghost predicate AlwaysInRange(version: int, shards: int, routing: int) {
    forall hash: int, offset: int | offset != 0 :: Lands(version, hash, shards, routing, offset)
  }

  /** Every document lands in an existing shard, for every hash, exactly when there are shards and the
      number of routing shards is the default or a multiple of theirs. */
  lemma InRangeIffDivides(version: int, shards: int, routing: int)
    ensures AlwaysInRange(version, shards, routing) <==> shards >= 1 && (routing <= 0 || routing % shards == 0)
  {
    if shards < 1 {
      NoShards(version, shards, routing);
    } else if routing <= 0 {
      DefaultInRange(version, shards, routing);
    } else if routing < shards {
      TooFewRoutingShards(version, shards, routing);
    } else if routing % shards == 0 {
      MultipleInRange(version, shards, routing);
    } else {
      LastResidueOutOfRange(version, shards, routing);
    }
  }

  ghost predicate Lands(version: int, hash: int, shards: int, routing: int, offset: int) {
    var r := ShardId(version, hash, shards, routing, offset);
    r.Shard? && 0 <= r.id < shards
  }

  lemma NoShards(version: int, shards: int, routing: int)
    requires shards < 1
    ensures !AlwaysInRange(version, shards, routing)
  {
    assert !Lands(version, 0, shards, routing, 1);
  }

  lemma TooFewRoutingShards(version: int, shards: int, routing: int)
    requires 0 < routing < shards
    ensures !AlwaysInRange(version, shards, routing) && routing % shards != 0
  {
    DivModUnique(routing, shards, 0, routing);
    assert GoDiv(routing, shards) == 0;
    assert !Lands(version, 0, shards, routing, 1);
  }

  lemma MultipleInRange(version: int, shards: int, routing: int)
    requires 1 <= shards <= routing && routing % shards == 0
    ensures AlwaysInRange(version, shards, routing)
  {
    var factor := routing / shards;
    assert routing == shards * factor;
    InRangeWhenDivides(version, shards, factor);
  }

  lemma DefaultInRange(version: int, shards: int, routing: int)
    requires shards >= 1 && routing <= 0
    ensures AlwaysInRange(version, shards, routing)
  {
    var factor := 1;
    if version >= 7 {
      var j := DefaultIsPowerMultiple(shards, version);
      factor := Pow2(j);
    }
    var r := shards * factor;
    assert r == DefaultRoutingShards(shards, version);
    MulMono(1, shards, factor);
    InRangeWhenDivides(version, shards, factor);
    forall hash: int, offset: int | offset != 0 ensures Lands(version, hash, shards, routing, offset) {
      assert Lands(version, hash, shards, r, offset);
      assert ShardId(version, hash, shards, routing, offset) == ShardId(version, hash, shards, r, offset);
    }
  }

  lemma InRangeWhenDivides(version: int, shards: int, factor: int)
    requires shards >= 1 && factor >= 1
    ensures AlwaysInRange(version, shards, shards * factor)
  {
    var r := shards * factor;
    forall hash: int, offset: int | offset != 0 ensures Lands(version, hash, shards, r, offset) {
      ShardIdByFactor(version, hash, shards, factor, offset);
      DivRange(OffsetHash(hash, offset) % r, factor, shards);
    }
  }

  lemma LastResidueOutOfRange(version: int, shards: int, routing: int)
    requires 1 <= shards <= routing && routing % shards != 0
    ensures !AlwaysInRange(version, shards, routing)
  {
    var f, last := routing / shards, routing - 1;
    RoutingModIsFloor(last, routing);
    DivModUnique(last, routing, 0, last);
    assert last >= f * shards;
    if last / f < shards {
      MulMono(last / f + 1, shards, f);
      assert false;
    }
    assert !Lands(version, last, shards, routing, 1);
  }

  ghost function Interval(lo: int, hi: int): (s: set<int>)
    ensures forall r :: r in s <==> lo <= r < hi
    decreases hi - lo
  {
    if lo >= hi then {} else Interval(lo, hi - 1) + {hi - 1}
  }

  lemma {:induction false} IntervalSize(lo: int, hi: int)
    requires lo <= hi
    ensures |Interval(lo, hi)| == hi - lo
    decreases hi - lo
  {
    if lo < hi {
      IntervalSize(lo, hi - 1);
    }
  }

  ghost function Owned(version: int, shards: int, routing: int, id: int): set<int> {
    set r | 0 <= r < routing && ShardId(version, r, shards, routing, 1) == Shard(id)
  }

  lemma QuotientIs(r: int, factor: int, id: int)
    requires factor >= 1
    ensures r / factor == id <==> id * factor <= r < (id + 1) * factor
  {
    var q := r / factor;
    assert (q + 1) * factor == q * factor + factor;
    if q < id {
      MulMono(q + 1, id, factor);
    } else if q > id {
      MulMono(id + 1, q, factor);
    }
  }

  lemma OwnedResidue(version: int, shards: int, factor: int, id: int, r: int)
    requires shards >= 1 && factor >= 1 && 0 <= r < shards * factor
    ensures ShardId(version, r, shards, shards * factor, 1) == Shard(id) <==> id * factor <= r < (id + 1) * factor
  {
    ShardIdByFactor(version, r, shards, factor, 1);
    DivModUnique(r, shards * factor, 0, r);
    QuotientIs(r, factor, id);
  }

  /** Each shard owns the same number of residues. */
  lemma ShardsAreEven(version: int, shards: int, factor: int, id: int)
    requires shards >= 1 && factor >= 1 && 0 <= id < shards
    ensures |Owned(version, shards, shards * factor, id)| == factor
  {
    var n := shards * factor;
    MulMono(0, id, factor);
    MulMono(id + 1, shards, factor);
    forall r ensures r in Owned(version, shards, n, id) <==> r in Interval(id * factor, (id + 1) * factor) {
      if 0 <= r < n { OwnedResidue(version, shards, factor, id, r); }
    }
    assert Owned(version, shards, n, id) == Interval(id * factor, (id + 1) * factor);
    IntervalSize(id * factor, (id + 1) * factor);
    assert (id + 1) * factor - id * factor == factor;
  }

  /** Splitting every shard in `k` keeps each document within its parent shard. */
  lemma SplitKeepsParent(version: int, hash: int, shards: int, k: int, factor: int, offset: int)
    requires shards >= 1 && k >= 1 && factor >= 1 && offset != 0
    ensures var routing := shards * k * factor;
            var parent := ShardId(version, hash, shards, routing, offset);
            var child := ShardId(version, hash, shards * k, routing, offset);
            parent.Shard? && child.Shard? && child.id / k == parent.id
  {
    AtLeastOne(shards, k);
    AtLeastOne(k, factor);
    Associate(shards, k, factor);
    ShardIdByFactor(version, hash, shards * k, factor, offset);
    ShardIdByFactor(version, hash, shards, k * factor, offset);
    assert factor * k == k * factor;
    DivOfDiv(OffsetHash(hash, offset) % (shards * k * factor), factor, k);
  }

  // ---------- the default number of routing shards ----------

  lemma {:induction false} BitLenBounds(x: nat, k: nat)
    ensures BitLen(x) <= k <==> x < Pow2(k)
    decreases k
  {
    if k > 0 && x > 0 {
      BitLenBounds(x / 2, k - 1);
    }
  }

  /** From version 7 on the default is the shard count times a power of two, at least two. */
  lemma DefaultIsPowerMultiple(shards: int, version: int) returns (j: nat)
    requires version >= 7
    ensures j >= 1 && DefaultRoutingShards(shards, version) == shards * Pow2(j)
  {
    var log2: int := BitLen((shards - 1) % 0x1_0000_0000);
    j := if 10 - log2 > 1 then 10 - log2 else 1;
  }

  /** Before version 7 the default is the shard count, and a document goes to the shard that its hash
      leaves as remainder. */
  lemma ShardIdBefore7(version: int, hash: int, shards: int, routing: int)
    requires version < 7 && shards >= 1 && routing <= 0
    ensures ShardId(version, hash, shards, routing, 1) == Shard(hash % shards)
  {
    ShardIdByFactor(version, hash, shards, 1, 1);
    assert ShardId(version, hash, shards, routing, 1) == ShardId(version, hash, shards, shards, 1);
    DivModUnique(hash % shards, 1, hash % shards, 0);
  }

  const MAX_SHARDS := 0x4000_0000

  lemma Powers()
    ensures Pow2(1) == 2 && Pow2(8) == 256 && Pow2(9) == 512
  {
    assert Pow2(2) == 4 && Pow2(4) == 16 && Pow2(6) == 64;
  }

  /** The default, for shard counts that fit in a 32-bit word. */
  lemma DefaultIs(shards: int, version: int)
    requires version >= 7 && 1 <= shards <= 2 * MAX_SHARDS
    ensures var bits := BitLen(shards - 1);
            DefaultRoutingShards(shards, version) == shards * Pow2(if bits < 9 then 10 - bits else 1)
  {
    assert (shards - 1) % 0x1_0000_0000 == shards - 1;
  }

  lemma DefaultBelow512(shards: int, version: int)
    requires version >= 7 && 1 <= shards <= 512
    ensures BitLen(shards - 1) <= 9
    ensures DefaultRoutingShards(shards, version) == shards * Pow2(10 - BitLen(shards - 1))
  {
    Powers();
    BitLenBounds(shards - 1, 9);
    DefaultIs(shards, version);
  }

  lemma {:induction false} PowSum(a: nat, b: nat)
    ensures Pow2(a + b) == Pow2(a) * Pow2(b)
  {
    if a > 0 {
      PowSum(a - 1, b);
      assert a - 1 + b == a + b - 1;
      assert 2 * (Pow2(a - 1) * Pow2(b)) == (2 * Pow2(a - 1)) * Pow2(b);
    }
  }

  /** Up to 512 shards are doubled as often as they fit in 1024, and more than that are doubled once:
      with `DefaultIsPowerMultiple` this leaves one value. */
  lemma DefaultFits1024(shards: int, version: int)
    requires version >= 7 && 1 <= shards <= 2 * MAX_SHARDS
    ensures if shards <= 512 then 512 < DefaultRoutingShards(shards, version) <= 1024
            else DefaultRoutingShards(shards, version) == 2 * shards
  {
    if shards > 512 {
      DefaultFrom257(shards, version);
    } else {
      DefaultBelow512(shards, version);
      FitsBits(shards, BitLen(shards - 1));
    }
  }

  lemma FitsBits(shards: int, bits: nat)
    requires shards >= 1 && bits == BitLen(shards - 1) && bits <= 9
    ensures 512 < shards * Pow2(10 - bits) <= 1024
  {
    PowProduct(bits);
    BitLenBounds(shards - 1, bits);
    if bits > 0 {
      BitLenBounds(shards - 1, bits - 1);
      ProductsBetween(shards, Pow2(bits - 1), Pow2(bits), Pow2(10 - bits));
    }
  }

  lemma PowProduct(bits: nat)
    requires bits <= 9
    ensures Pow2(bits) * Pow2(10 - bits) == 1024
    ensures bits > 0 ==> Pow2(bits - 1) * Pow2(10 - bits) == 512
  {
    Powers();
    PowSum(bits, 10 - bits);
    assert Pow2(bits + (10 - bits)) == 2 * Pow2(9);
    if bits > 0 { PowSum(bits - 1, 10 - bits); }
  }

  lemma ProductsBetween(n: int, lo: int, hi: int, p: int)
    requires lo < n <= hi && p > 0
    ensures lo * p < n * p <= hi * p
  {
    MulMono(lo + 1, n, p);
    MulMono(n, hi, p);
  }

  lemma DefaultFrom257(shards: int, version: int)
    requires version >= 7 && 257 <= shards <= 2 * MAX_SHARDS
    ensures DefaultRoutingShards(shards, version) == 2 * shards
  {
    Powers();
    BitLenBounds(shards - 1, 8);
    assert BitLen(shards - 1) >= 9;
    DefaultIs(shards, version);
    TimesTwo(shards, Pow2(1));
  }

  lemma TimesTwo(n: int, p: int)
    requires p == 2
    ensures n * p == 2 * n
  {
  }

  lemma BitLenDoubles(shards: int)
    requires 1 <= shards
    ensures BitLen(2 * shards - 1) == 1 + BitLen(shards - 1)
  {
    assert (2 * shards - 1) / 2 == shards - 1;
  }

  lemma PowHalves(n: int, k: nat)
    requires k >= 1
    ensures 2 * n * Pow2(k - 1) == n * Pow2(k)
  {
    assert Pow2(k) == 2 * Pow2(k - 1);
  }

  /** Doubling the shard count leaves the default unchanged exactly up to 256 shards. */
  lemma DoublingKeepsDefault(shards: int, version: int)
    requires version >= 7 && 1 <= shards <= MAX_SHARDS
    ensures DefaultRoutingShards(2 * shards, version) == DefaultRoutingShards(shards, version) <==> shards <= 256
  {
    if shards <= 256 {
      DoubledDefault(shards, version);
    } else {
      DefaultFrom257(shards, version);
      DefaultFrom257(2 * shards, version);
    }
  }

  lemma DoubledDefault(shards: int, version: int)
    requires version >= 7 && 1 <= shards <= 256
    ensures BitLen(shards - 1) <= 8
    ensures DefaultRoutingShards(shards, version) == shards * Pow2(10 - BitLen(shards - 1))
    ensures DefaultRoutingShards(2 * shards, version) == DefaultRoutingShards(shards, version)
  {
    var bits, twice := BitLen(shards - 1), 2 * shards;
    DefaultBelow512(shards, version);
    DefaultBelow512(twice, version);
    BitLenDoubles(shards);
    assert BitLen(twice - 1) == bits + 1;
    SameProduct(shards, twice, 10 - bits, 10 - (bits + 1));
  }

  lemma SameProduct(n: int, twice: int, k: nat, less: nat)
    requires twice == 2 * n && k == less + 1
    ensures twice * Pow2(less) == n * Pow2(k)
  {
    PowHalves(n, k);
  }

  predicate DoublingKeepsDocument(shards: int, version: int, hash: int) {
    var parent, child := ShardId(version, hash, shards, -1, 1), ShardId(version, hash, 2 * shards, -1, 1);
    parent.Shard? && child.Shard? && child.id / 2 == parent.id
  }

  /** For every 32-bit hash. */
  ghost predicate DoublingKeepsParent(shards: int, version: int) {
    forall hash: int | -0x8000_0000 <= hash < 0x8000_0000 :: DoublingKeepsDocument(shards, version, hash)
  }

  /** With default routing, doubling an index keeps every document in its parent shard exactly when
      the index had at most 256 shards. */
  lemma DefaultDoublingIff(shards: int, version: int)
    requires version >= 7 && 1 <= shards < MAX_SHARDS
    ensures DoublingKeepsParent(shards, version) <==> shards <= 256
  {
    if shards <= 256 {
      DoublingUpTo256(shards, version);
    } else {
      DoublingBeyond256(shards, version);
    }
  }

  lemma DoublingUpTo256(shards: int, version: int)
    requires version >= 7 && 1 <= shards <= 256
    ensures DoublingKeepsParent(shards, version)
  {
    DoubledDefault(shards, version);
    var half := Pow2(9 - BitLen(shards - 1));
    PowHalves(shards, 10 - BitLen(shards - 1));
    forall hash: int | -0x8000_0000 <= hash < 0x8000_0000 ensures DoublingKeepsDocument(shards, version, hash) {
      DoublingKeepsOne(shards, version, hash, half);
    }
  }

  lemma DoublingKeepsOne(shards: int, version: int, hash: int, half: int)
    requires version >= 7 && 1 <= shards && half >= 1
    requires DefaultRoutingShards(shards, version) == 2 * shards * half == DefaultRoutingShards(2 * shards, version)
    ensures DoublingKeepsDocument(shards, version, hash)
  {
    assert shards * 2 == 2 * shards;
    SplitKeepsParent(version, hash, shards, 2, half, 1);
    DefaultRoutingUsed(version, hash, shards);
    DefaultRoutingUsed(version, hash, 2 * shards);
  }

  lemma DefaultRoutingUsed(version: int, hash: int, shards: int)
    requires version >= 7 && 1 <= shards
    ensures DefaultRoutingShards(shards, version) > 0
    ensures ShardId(version, hash, shards, -1, 1)
         == ShardId(version, hash, shards, DefaultRoutingShards(shards, version), 1)
  {
    var j := DefaultIsPowerMultiple(shards, version);
    MulMono(1, shards, Pow2(j));
  }

  lemma DoublingBeyond256(shards: int, version: int)
    requires version >= 7 && 256 < shards < MAX_SHARDS
    ensures !DoublingKeepsParent(shards, version)
  {
    DefaultFrom257(shards, version);
    DefaultFrom257(2 * shards, version);
    var hash := 2 * shards;
    ShardIdByFactor(version, hash, shards, 2, 1);
    ShardIdByFactor(version, hash, 2 * shards, 2, 1);
    DivModUnique(hash, 2 * shards, 1, 0);
    DivModUnique(hash, 4 * shards, 0, hash);
    assert ShardId(version, hash, shards, 2 * shards, 1) == Shard(0);
    assert ShardId(version, hash, 2 * shards, 4 * shards, 1) == Shard(shards);
    DefaultRoutingUsed(version, hash, shards);
    DefaultRoutingUsed(version, hash, 2 * shards);
    assert !DoublingKeepsDocument(shards, version, hash);
  }
}
