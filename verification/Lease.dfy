/** The lease lock: one record in a key-value store names the holder and when it last took the lock. */
module Lease {
  import opened Options
  import opened Separated
  import Json

  const SECOND := 1_000_000_000
  const DEFAULT_TIMEOUT := 30 * SECOND

  // ---------- the record as text ----------

  function Record(client: string, seconds: int): string {
    client + ("/" + Json.Decimal(seconds))
  }

  function ParseDigits(s: string): Option<nat> {
    if s == "" || !Json.IsDigit(s[|s| - 1]) then None
    else
      var digit := s[|s| - 1] as int - '0' as int;
      if |s| == 1 then Some(digit)
      else
        var front := ParseDigits(s[..|s| - 1]);
        if front.None? then None else Some(10 * front.value + digit)
  }

  function ParseInt(s: string): Option<int> {
    if s != "" && (s[0] == '-' || s[0] == '+') then
      var n := ParseDigits(s[1..]);
      if n.None? then None else Some((if s[0] == '-' then -1 else 1) * n.value)
    else
      var n := ParseDigits(s);
      if n.None? then None else Some(n.value)
  }

  datatype Info = Absent | Invalid | Taken(client: string, seconds: int)

  function ReadInfo(value: Option<string>): Info {
    if value.None? then Absent
    else
      var parts := Split(value.value, '/');
      if |parts| != 2 then Invalid
      else
        var n := ParseInt(parts[1]);
        if n.None? then Invalid else Taken(parts[0], n.value)
  }

  lemma {:induction false} ParseNaturals(n: nat)
    ensures ParseDigits(Json.Naturals(n)) == Some(n)
  {
    var s := Json.Naturals(n);
    if n >= 10 {
      ParseNaturals(n / 10);
      assert s[..|s| - 1] == Json.Naturals(n / 10);
    }
  }

  lemma ParseDecimal(n: int)
    ensures ParseInt(Json.Decimal(n)) == Some(n)
    ensures '/' !in Json.Decimal(n)
  {
    ParseNaturals(if n < 0 then -n else n);
    if n < 0 { assert Json.Decimal(n)[1..] == Json.Naturals(-n); }
  }

  /** A record is read back as it was written exactly when the client's name holds no slash. */
  lemma RecordReadsBack(client: string, seconds: int)
    ensures ReadInfo(Some(Record(client, seconds))) == if '/' in client then Invalid else Taken(client, seconds)
  {
    var number := Json.Decimal(seconds);
    SplitAtSeparator(client, number, '/');
    ParseDecimal(seconds);
    SplitFree(number, '/');
    SplitFree(client, '/');
  }

  lemma RecordInjective(c: string, s: int, d: string, t: int)
    requires Record(c, s) == Record(d, t)
    ensures c == d && s == t
  {
    var m, n := Json.Decimal(s), Json.Decimal(t);
    SplitAtSeparator(c, m, '/');
    SplitAtSeparator(d, n, '/');
    ParseDecimal(s);
    ParseDecimal(t);
    SplitFree(m, '/');
    SplitFree(n, '/');
    var parts := Split(Record(c, s), '/');
    assert m == parts[|parts| - 1] == n;
    assert c == Record(c, s)[..|Record(c, s)| - |m| - 1] == d;
  }

  // ---------- the operations ----------

  datatype Answer = Granted | Refused | Panicked

  function Effective(timeout: int): int {
    if timeout <= 0 then DEFAULT_TIMEOUT else timeout
  }

  predicate Expired(seconds: int, now: int, timeout: int) {
    now - seconds * SECOND > Effective(timeout)
  }

  /** The answer to a hold on what was read from the store. */
  function Decide(value: Option<string>, client: string, timeout: int, allocate: bool, now: int): Answer {
    match ReadInfo(value)
    case Absent => Granted
    case Invalid => Panicked
    case Taken(owner, seconds) =>
      if owner == client then Granted
      else if Expired(seconds, now, timeout) && allocate then Granted
      else Refused
  }

  predicate CanRelease(value: Option<string>, client: string) {
    match ReadInfo(value)
    case Absent => true
    case Invalid => false
    case Taken(owner, _) => owner == client
  }

  /** A readable record of another client is taken over exactly by one that asks for it, once the record
      is older than the client's timeout, 30 seconds if it gives none; one's own is always renewed. */
  lemma HeldIff(owner: string, seconds: int, client: string, timeout: int, allocate: bool, now: int)
    requires '/' !in owner
    ensures var answer := Decide(Some(Record(owner, seconds)), client, timeout, allocate, now);
            var age := now - seconds * 1_000_000_000;
            if owner == client || (allocate && age > if timeout > 0 then timeout else 30_000_000_000)
            then answer == Granted else answer == Refused
    ensures CanRelease(Some(Record(owner, seconds)), client) <==> owner == client
  {
    RecordReadsBack(owner, seconds);
  }

  class Locker {
    var value: Option<string>

    constructor ()
      ensures value == None
    {
      value := None;
    }

    method GetAllocateInfo() returns (info: Info)
      ensures info == ReadInfo(value)
    {
      if value.None? {
        return Absent;
      }
      var arr := Split(value.value, '/');
      if |arr| != 2 {
        return Invalid;
      }
      var unix := ParseInt(arr[1]);
      if unix.None? {
        return Invalid;
      }
      return Taken(arr[0], unix.value);
    }

    method PlaceLock(client: string, clock: int)
      modifies this
      ensures value == Some(Record(client, clock / SECOND))
    {
      value := Some(client + ("/" + Json.Decimal(clock / SECOND)));
    }

    /** `now` is the clock the expiry is measured with, `clock` the coarser one that is recorded. */
    method Hold(client: string, expireTimeout: int, allocateIfNot: bool, now: int, clock: int) returns (answer: Answer)
      modifies this
      ensures answer == Decide(old(value), client, expireTimeout, allocateIfNot, now)
      ensures value == if answer == Granted then Some(Record(client, clock / SECOND)) else old(value)
    {
      var info := GetAllocateInfo();
      match info
      case Invalid => return Panicked;
      case Absent =>
        PlaceLock(client, clock);
        return Granted;
      case Taken(owner, seconds) =>
        var timeout := if expireTimeout <= 0 then DEFAULT_TIMEOUT else expireTimeout;
        if owner != client {
          if now - seconds * SECOND > timeout {
            if allocateIfNot {
              PlaceLock(client, clock);
              return Granted;
            } else {
              return Refused;
            }
          } else {
            return Refused;
          }
        } else {
          PlaceLock(client, clock);
          return Granted;
        }
    }

    method Release(client: string) returns (ok: bool)
      modifies this
      ensures ok == CanRelease(old(value), client)
      ensures value == if ok then None else old(value)
    {
      var info := GetAllocateInfo();
      if info.Invalid? {
        return false;
      }
      if info.Taken? {
        if info.client != client {
          return false;
        }
        value := None;
      }
      return true;
    }
  }

  // ---------- runs ----------

  datatype Call =
    | Hold(client: string, allocate: bool, now: int, clock: int)
    | Release(client: string, now: int)

  /** The store, and for each client the seconds recorded by its last granted hold, unless it released since. */
  datatype System = System(value: Option<string>, leases: map<string, int>)

  /** One call, atomic. Each client has a timeout of its own. */
  function Step(sys: System, call: Call, timeouts: string -> int): System {
    match call
    case Hold(c, allocate, now, clock) =>
      if Decide(sys.value, c, timeouts(c), allocate, now) == Granted then
        System(Some(Record(c, clock / SECOND)), sys.leases[c := clock / SECOND])
      else sys
    case Release(c, now) =>
      if CanRelease(sys.value, c) then System(None, sys.leases - {c}) else sys
  }

  function Run(sys: System, calls: seq<Call>, timeouts: string -> int): System
    decreases |calls|
  {
    if calls == [] then sys else Run(Step(sys, calls[0], timeouts), calls[1..], timeouts)
  }

  function Start(): System {
    System(None, map[])
  }

  /** The clock never goes back, up to `now`. */
  predicate Timely(calls: seq<Call>, now: int) {
    && (forall i, j | 0 <= i < j < |calls| :: calls[i].now <= calls[j].now)
    && (forall i | 0 <= i < |calls| :: calls[i].now <= now)
  }

  predicate Active(sys: System, c: string, now: int, timeouts: string -> int) {
    c in sys.leases && !Expired(sys.leases[c], now, timeouts(c))
  }

  ghost predicate Exclusive(sys: System, now: int, timeouts: string -> int) {
    forall c, d | Active(sys, c, now, timeouts) && Active(sys, d, now, timeouts) :: c == d
  }

  /** Nobody gives up on another's readable record sooner than that other does itself. */
  ghost predicate NoShorter(timeouts: string -> int) {
    forall c, d | c != d && '/' !in c :: Effective(timeouts(c)) <= Effective(timeouts(d))
  }

  predicate Owns(sys: System, c: string) {
    c in sys.leases && sys.value == Some(Record(c, sys.leases[c]))
  }

  /** The record, if there is one, is that of a lease, and every other lease has run out. */
  ghost predicate Consistent(sys: System, now: int, timeouts: string -> int) {
    && (sys.value.Some? ==> exists c :: Owns(sys, c))
    && (forall c | c in sys.leases :: Owns(sys, c) || Expired(sys.leases[c], now, timeouts(c)))
  }

  lemma OneOwner(sys: System, c: string, d: string)
    requires Owns(sys, c) && Owns(sys, d)
    ensures c == d
  {
    RecordInjective(c, sys.leases[c], d, sys.leases[d]);
  }

  lemma OwnerIsRead(sys: System, c: string)
    requires Owns(sys, c)
    ensures ReadInfo(sys.value) == if '/' in c then Invalid else Taken(c, sys.leases[c])
  {
    RecordReadsBack(c, sys.leases[c]);
  }

  lemma ConsistentIsExclusive(sys: System, now: int, timeouts: string -> int)
    requires Consistent(sys, now, timeouts)
    ensures Exclusive(sys, now, timeouts)
  {
    forall c, d | Active(sys, c, now, timeouts) && Active(sys, d, now, timeouts) ensures c == d {
      OneOwner(sys, c, d);
    }
  }

  lemma HoldKeepsConsistent(sys: System, call: Call, timeouts: string -> int)
    requires call.Hold? && NoShorter(timeouts) && Consistent(sys, call.now, timeouts)
    ensures Consistent(Step(sys, call, timeouts), call.now, timeouts)
  {
    var c, sys' := call.client, Step(sys, call, timeouts);
    if Decide(sys.value, c, timeouts(c), call.allocate, call.now) == Granted {
      assert Owns(sys', c);
      forall d | d in sys'.leases && d != c ensures Expired(sys'.leases[d], call.now, timeouts(d)) {
        if Owns(sys, d) { OwnerIsRead(sys, d); }
      }
    }
  }

  lemma ReleaseKeepsConsistent(sys: System, call: Call, timeouts: string -> int)
    requires call.Release? && Consistent(sys, call.now, timeouts)
    ensures Consistent(Step(sys, call, timeouts), call.now, timeouts)
  {
    var c, sys' := call.client, Step(sys, call, timeouts);
    if CanRelease(sys.value, c) {
      forall d | d in sys'.leases ensures Expired(sys'.leases[d], call.now, timeouts(d)) {
        if Owns(sys, d) { OwnerIsRead(sys, d); }
      }
    }
  }

  lemma {:induction false} RunKeepsConsistent(sys: System, calls: seq<Call>, now: int, timeouts: string -> int)
    requires NoShorter(timeouts) && Timely(calls, now)
    requires Consistent(sys, if calls == [] then now else calls[0].now, timeouts)
    ensures Consistent(Run(sys, calls, timeouts), now, timeouts)
    decreases |calls|
  {
    if calls != [] {
      var call, rest := calls[0], calls[1..];
      if call.Hold? {
        HoldKeepsConsistent(sys, call, timeouts);
      } else {
        ReleaseKeepsConsistent(sys, call, timeouts);
      }
      var sys', next := Step(sys, call, timeouts), if rest == [] then now else rest[0].now;
      assert call.now <= next;
      assert Consistent(sys', next, timeouts) by {
        assert sys'.value.Some? ==> exists c :: Owns(sys', c);
      }
      RunKeepsConsistent(sys', rest, now, timeouts);
    }
  }

  /** At no time do two clients both have a lease that has not run out. */
  lemma RunIsExclusive(calls: seq<Call>, now: int, timeouts: string -> int)
    requires NoShorter(timeouts) && Timely(calls, now)
    ensures Exclusive(Run(Start(), calls, timeouts), now, timeouts)
  {
    RunKeepsConsistent(Start(), calls, now, timeouts);
    ConsistentIsExclusive(Run(Start(), calls, timeouts), now, timeouts);
  }

  /** A client with a shorter timeout takes over a lease its holder still counts on. */
  lemma ShorterTimeoutOverlaps(c: string, d: string, timeouts: string -> int) returns (calls: seq<Call>, now: int)
    requires c != d && '/' !in c && SECOND <= Effective(timeouts(d)) < Effective(timeouts(c))
    ensures Timely(calls, now) && !Exclusive(Run(Start(), calls, timeouts), now, timeouts)
  {
    now := Effective(timeouts(d)) + 1;
    var first, second := Hold(c, true, 0, 0), Hold(d, true, now, now);
    calls := [first, second];
    var sys1 := Step(Start(), first, timeouts);
    RecordReadsBack(c, 0);
    var sys2 := Step(sys1, second, timeouts);
    assert calls[1..] == [second] && [second][1..] == [];
    assert Run(sys1, [second], timeouts) == Run(sys2, [], timeouts) == sys2;
    assert Active(sys2, c, now, timeouts) && Active(sys2, d, now, timeouts);
  }

  /** Leases of at least a second exclude each other in every run exactly when no client gives up on
      another sooner than that one does itself. */
  lemma ExclusiveIff(timeouts: string -> int)
    requires forall c :: Effective(timeouts(c)) >= SECOND
    ensures (forall calls, now | Timely(calls, now) :: Exclusive(Run(Start(), calls, timeouts), now, timeouts))
       <==> NoShorter(timeouts)
  {
    if NoShorter(timeouts) {
      forall calls, now | Timely(calls, now) ensures Exclusive(Run(Start(), calls, timeouts), now, timeouts) {
        RunIsExclusive(calls, now, timeouts);
      }
    } else {
      var c, d :| c != d && '/' !in c && Effective(timeouts(c)) > Effective(timeouts(d));
      var calls, now := ShorterTimeoutOverlaps(c, d, timeouts);
    }
  }

  /** A call by anyone but the recorded owner changes the record exactly when it takes over a lease
      that has run out for the caller; in particular it never deletes it. */
  lemma OnlyTakeoverChangesRecord(sys: System, call: Call, timeouts: string -> int)
    requires ReadInfo(sys.value).Taken? && ReadInfo(sys.value).client != call.client
    ensures var sys' := Step(sys, call, timeouts);
            && sys'.value.Some?
            && (sys'.value != sys.value
                <==> && call.Hold? && call.allocate
                     && Expired(ReadInfo(sys.value).seconds, call.now, timeouts(call.client)))
  {
    if call.Hold? {
      RecordReadsBack(call.client, call.clock / SECOND);
    }
  }

  /** A record stays as it is through any calls of others that come before it has run out for them. */
  lemma {:induction false} RecordSurvives(sys: System, calls: seq<Call>, timeouts: string -> int)
    requires ReadInfo(sys.value).Taken?
    requires forall i | 0 <= i < |calls| ::
               && calls[i].client != ReadInfo(sys.value).client
               && (calls[i].Hold? ==> !Expired(ReadInfo(sys.value).seconds, calls[i].now, timeouts(calls[i].client)))
    ensures Run(sys, calls, timeouts) == sys
  {
    if calls != [] {
      assert Step(sys, calls[0], timeouts) == sys;
      RecordSurvives(sys, calls[1..], timeouts);
    }
  }

  ghost predicate GrantedFrom(value: Option<string>, client: string, timeout: int, t: int) {
    exists now :: now >= t && Decide(value, client, timeout, true, now) == Granted
  }

  /** After any time there is one at which a hold is granted. */
  ghost predicate GrantedLater(value: Option<string>, client: string, timeout: int) {
    forall t :: GrantedFrom(value, client, timeout, t)
  }

  /** Some later hold is granted exactly when the record, if there is one, can be read. */
  lemma GrantableIff(value: Option<string>, client: string, timeout: int)
    ensures GrantedLater(value, client, timeout) <==> !ReadInfo(value).Invalid?
  {
    var info := ReadInfo(value);
    if info.Invalid? {
      assert !GrantedFrom(value, client, timeout, 0);
    } else {
      var free := if info.Taken? then info.seconds * SECOND + Effective(timeout) + 1 else 0;
      forall t ensures GrantedFrom(value, client, timeout, t) {
        var now := if t > free then t else free;
        assert Decide(value, client, timeout, true, now) == Granted;
      }
    }
  }

  predicate Readable(value: Option<string>) {
    !ReadInfo(value).Invalid?
  }

  lemma {:induction false} RunStaysReadable(sys: System, calls: seq<Call>, timeouts: string -> int)
    requires Readable(sys.value) && forall i | 0 <= i < |calls| :: '/' !in calls[i].client
    ensures Readable(Run(sys, calls, timeouts).value)
    decreases |calls|
  {
    if calls != [] {
      var call := calls[0];
      if call.Hold? { RecordReadsBack(call.client, call.clock / SECOND); }
      RunStaysReadable(Step(sys, call, timeouts), calls[1..], timeouts);
    }
  }

  /** As long as no client's name holds a slash, every client can get the lock some time after any run. */
  lemma NeverStuck(calls: seq<Call>, timeouts: string -> int, client: string)
    requires forall i | 0 <= i < |calls| :: '/' !in calls[i].client
    ensures GrantedLater(Run(Start(), calls, timeouts).value, client, timeouts(client))
  {
    RunStaysReadable(Start(), calls, timeouts);
    GrantableIff(Run(Start(), calls, timeouts).value, client, timeouts(client));
  }

  /** A record written under a name with a slash can neither be taken over nor released, by anyone, ever. */
  lemma {:induction false} SlashIsForever(sys: System, c: string, seconds: int, calls: seq<Call>,
                                          timeouts: string -> int)
    requires '/' in c && sys.value == Some(Record(c, seconds))
    ensures Run(sys, calls, timeouts) == sys
  {
    RecordReadsBack(c, seconds);
    if calls != [] {
      SlashIsForever(sys, c, seconds, calls[1..], timeouts);
    }
  }
}
