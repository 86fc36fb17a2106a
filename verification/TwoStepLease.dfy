/** The lease lock when a call reads the record in one step and writes or deletes it in another, with
    steps of other clients in between. */
module TwoStepLease {
  import opened Options
  import opened Lease

  datatype Action =
    | ReadToHold(client: string, allocate: bool, now: int)
    | ReadToRelease(client: string, now: int)
    | Place(client: string, now: int, clock: int)
    | Remove(client: string, now: int)

  /** What a call is about to do after its read: place its own record, or remove the one there is. The
      flag says whether another client has placed a record since. */
  datatype Plan = Plan(place: bool, disturbed: bool)

  /** The store and the leases, and the call each client has under way. */
  datatype Shared = Shared(sys: System, plans: map<string, Plan>)

  function Disturb(plans: map<string, Plan>): map<string, Plan> {
    map c | c in plans :: plans[c].(disturbed := true)
  }

  function Act(s: Shared, a: Action, timeouts: string -> int): Shared {
    match a
    case ReadToHold(c, allocate, now) =>
      if Decide(s.sys.value, c, timeouts(c), allocate, now) == Granted then s.(plans := s.plans[c := Plan(true, false)])
      else s.(plans := s.plans - {c})
    case ReadToRelease(c, _) =>
      if ReadInfo(s.sys.value).Absent? then Shared(s.sys.(leases := s.sys.leases - {c}), s.plans - {c})
      else if CanRelease(s.sys.value, c) then s.(plans := s.plans[c := Plan(false, false)])
      else s.(plans := s.plans - {c})
    case Place(c, _, clock) =>
      if Places(s, c) then
        Shared(System(Some(Record(c, clock / SECOND)), s.sys.leases[c := clock / SECOND]), Disturb(s.plans - {c}))
      else s
    case Remove(c, _) =>
      if Removes(s, c) then Shared(System(None, s.sys.leases - {c}), s.plans - {c}) else s
  }

  predicate Places(s: Shared, c: string) {
    c in s.plans && s.plans[c].place
  }

  predicate Removes(s: Shared, c: string) {
    c in s.plans && !s.plans[c].place
  }

  function ActAll(s: Shared, actions: seq<Action>, timeouts: string -> int): Shared
    decreases |actions|
  {
    if actions == [] then s else ActAll(Act(s, actions[0], timeouts), actions[1..], timeouts)
  }

  function Begin(): Shared {
    Shared(Start(), map[])
  }

  predicate InTime(actions: seq<Action>, now: int) {
    && (forall i, j | 0 <= i < j < |actions| :: actions[i].now <= actions[j].now)
    && (forall i | 0 <= i < |actions| :: actions[i].now <= now)
  }

  /** The action goes through with no plan that another client's record has come in between. */
  predicate Clean(s: Shared, a: Action) {
    (a.Place? && Places(s, a.client)) || (a.Remove? && Removes(s, a.client)) ==> !s.plans[a.client].disturbed
  }

  /** No other client's record falls between the read of a call and its own change. */
  predicate Undisturbed(s: Shared, actions: seq<Action>, timeouts: string -> int)
    decreases |actions|
  {
    actions == [] || (Clean(s, actions[0]) && Undisturbed(Act(s, actions[0], timeouts), actions[1..], timeouts))
  }

  // ---------- calls in one piece ----------

  function Actions(call: Call): seq<Action> {
    match call
    case Hold(c, allocate, now, clock) => [ReadToHold(c, allocate, now), Place(c, now, clock)]
    case Release(c, now) => [ReadToRelease(c, now), Remove(c, now)]
  }

  function AllActions(calls: seq<Call>): seq<Action>
    decreases |calls|
  {
    if calls == [] then [] else Actions(calls[0]) + AllActions(calls[1..])
  }

  lemma CallInOnePiece(sys: System, call: Call, timeouts: string -> int)
    ensures var s, a := Shared(sys, map[]), Actions(call);
            && Act(Act(s, a[0], timeouts), a[1], timeouts) == Shared(Step(sys, call, timeouts), map[])
            && Clean(s, a[0]) && Clean(Act(s, a[0], timeouts), a[1])
  {
    var s, a, c := Shared(sys, map[]), Actions(call), call.client;
    var none: map<string, Plan> := map[];
    assert none - {c} == none;
    assert none[c := Plan(true, false)] - {c} == none == none[c := Plan(false, false)] - {c};
    assert Disturb(none) == none;
  }

  /** Calls whose two steps follow each other are the atomic calls, and disturb nobody. */
  lemma {:induction false} AtomicCalls(sys: System, calls: seq<Call>, timeouts: string -> int)
    ensures ActAll(Shared(sys, map[]), AllActions(calls), timeouts) == Shared(Run(sys, calls, timeouts), map[])
    ensures Undisturbed(Shared(sys, map[]), AllActions(calls), timeouts)
    decreases |calls|
  {
    if calls != [] {
      var a, rest := Actions(calls[0]), AllActions(calls[1..]);
      CallInOnePiece(sys, calls[0], timeouts);
      AtomicCalls(Step(sys, calls[0], timeouts), calls[1..], timeouts);
      assert (a + rest)[1..] == [a[1]] + rest && ([a[1]] + rest)[1..] == rest;
    }
  }

  // ---------- exclusion ----------

  /** Everybody else's lease has run out. */
  ghost predicate Alone(sys: System, c: string, now: int, timeouts: string -> int) {
    forall d | d in sys.leases && d != c :: Expired(sys.leases[d], now, timeouts(d))
  }

  ghost predicate PlanHolds(s: Shared, c: string, now: int, timeouts: string -> int) {
    Alone(s.sys, c, now, timeouts) && (Removes(s, c) ==> s.sys.value == None || Owns(s.sys, c))
  }

  ghost predicate Sound(s: Shared, now: int, timeouts: string -> int) {
    && Consistent(s.sys, now, timeouts)
    && (forall c | c in s.plans && !s.plans[c].disturbed :: PlanHolds(s, c, now, timeouts))
  }

  lemma SoundLater(s: Shared, now: int, later: int, timeouts: string -> int)
    requires Sound(s, now, timeouts) && now <= later
    ensures Sound(s, later, timeouts)
  {
    assert s.sys.value.Some? ==> exists c :: Owns(s.sys, c);
    forall c | c in s.plans && !s.plans[c].disturbed ensures PlanHolds(s, c, later, timeouts) {
      assert PlanHolds(s, c, now, timeouts);
    }
  }

  /** Whoever is granted the lock, or finds its own record, is alone. */
  lemma ReaderIsAlone(sys: System, c: string, allocate: bool, now: int, timeouts: string -> int)
    requires NoShorter(timeouts) && Consistent(sys, now, timeouts)
    requires Decide(sys.value, c, timeouts(c), allocate, now) == Granted || CanRelease(sys.value, c)
    ensures Alone(sys, c, now, timeouts)
    ensures ReadInfo(sys.value).Taken? && ReadInfo(sys.value).client == c ==> Owns(sys, c)
  {
    if sys.value.Some? {
      var owner :| Owns(sys, owner);
      OwnerIsRead(sys, owner);
      forall d | d in sys.leases && d != c ensures Expired(sys.leases[d], now, timeouts(d)) {
        if Owns(sys, d) { OwnerIsRead(sys, d); }
      }
    }
  }

  lemma ReadKeepsSound(s: Shared, a: Action, timeouts: string -> int)
    requires (a.ReadToHold? || a.ReadToRelease?) && NoShorter(timeouts) && Sound(s, a.now, timeouts)
    ensures Sound(Act(s, a, timeouts), a.now, timeouts)
  {
    var c, s' := a.client, Act(s, a, timeouts);
    var allocate := a.ReadToHold? && a.allocate;
    if Decide(s.sys.value, c, timeouts(c), allocate, a.now) == Granted || CanRelease(s.sys.value, c) {
      ReaderIsAlone(s.sys, c, allocate, a.now, timeouts);
    }
    assert s'.sys.value.Some? ==> s'.sys == s.sys;
    forall d | d in s'.plans && !s'.plans[d].disturbed ensures PlanHolds(s', d, a.now, timeouts) {
      if d != c { assert PlanHolds(s, d, a.now, timeouts); }
    }
  }

  lemma ChangeKeepsSound(s: Shared, a: Action, timeouts: string -> int)
    requires (a.Place? || a.Remove?) && Clean(s, a) && Sound(s, a.now, timeouts)
    ensures Sound(Act(s, a, timeouts), a.now, timeouts)
  {
    var c, s' := a.client, Act(s, a, timeouts);
    if s' != s {
      assert PlanHolds(s, c, a.now, timeouts);
      if a.Place? { assert Owns(s'.sys, c); }
      forall d | d in s'.plans && !s'.plans[d].disturbed ensures PlanHolds(s', d, a.now, timeouts) {
        assert PlanHolds(s, d, a.now, timeouts);
      }
    }
  }

  lemma {:induction false} RunKeepsSound(s: Shared, actions: seq<Action>, now: int, timeouts: string -> int)
    requires NoShorter(timeouts) && InTime(actions, now) && Undisturbed(s, actions, timeouts)
    requires Sound(s, if actions == [] then now else actions[0].now, timeouts)
    ensures Sound(ActAll(s, actions, timeouts), now, timeouts)
    decreases |actions|
  {
    if actions != [] {
      var a, rest := actions[0], actions[1..];
      if a.Place? || a.Remove? {
        ChangeKeepsSound(s, a, timeouts);
      } else {
        ReadKeepsSound(s, a, timeouts);
      }
      SoundLater(Act(s, a, timeouts), a.now, if rest == [] then now else rest[0].now, timeouts);
      RunKeepsSound(Act(s, a, timeouts), rest, now, timeouts);
    }
  }

  /** However the steps of all clients interleave: as long as no other client's record falls between
      the read of a call and its change, no two clients both have a lease that has not run out. */
  lemma UndisturbedIsExclusive(actions: seq<Action>, now: int, timeouts: string -> int)
    requires NoShorter(timeouts) && InTime(actions, now) && Undisturbed(Begin(), actions, timeouts)
    ensures Exclusive(ActAll(Begin(), actions, timeouts).sys, now, timeouts)
  {
    RunKeepsSound(Begin(), actions, now, timeouts);
    ConsistentIsExclusive(ActAll(Begin(), actions, timeouts).sys, now, timeouts);
  }

  /** Nor does a release then remove another client's record. */
  lemma UndisturbedRemovesOwn(actions: seq<Action>, a: Action, timeouts: string -> int)
    requires NoShorter(timeouts) && InTime(actions, a.now) && Undisturbed(Begin(), actions, timeouts)
    requires a.Remove? && Clean(ActAll(Begin(), actions, timeouts), a)
    requires Removes(ActAll(Begin(), actions, timeouts), a.client)
    ensures var sys := ActAll(Begin(), actions, timeouts).sys; sys.value == None || Owns(sys, a.client)
  {
    RunKeepsSound(Begin(), actions, a.now, timeouts);
    assert PlanHolds(ActAll(Begin(), actions, timeouts), a.client, a.now, timeouts);
  }

  lemma {:induction false} ActionsInTime(calls: seq<Call>, now: int)
    requires Timely(calls, now)
    ensures InTime(AllActions(calls), now)
    ensures calls != [] ==> forall i | 0 <= i < |AllActions(calls)| :: calls[0].now <= AllActions(calls)[i].now
    decreases |calls|
  {
    if calls != [] {
      var rest := calls[1..];
      ActionsInTime(rest, now);
      assert rest != [] ==> calls[0].now <= rest[0].now;
      assert forall i | 0 <= i < 2 :: Actions(calls[0])[i].now == calls[0].now;
    }
  }

  /** Leases of at least a second exclude each other in every undisturbed run exactly when no client gives
      up on another sooner than that one does itself. */
  lemma UndisturbedExclusiveIff(timeouts: string -> int)
    requires forall c :: Effective(timeouts(c)) >= SECOND
    ensures (forall actions, now | InTime(actions, now) && Undisturbed(Begin(), actions, timeouts) ::
               Exclusive(ActAll(Begin(), actions, timeouts).sys, now, timeouts))
       <==> NoShorter(timeouts)
  {
    if NoShorter(timeouts) {
      forall actions, now | InTime(actions, now) && Undisturbed(Begin(), actions, timeouts)
        ensures Exclusive(ActAll(Begin(), actions, timeouts).sys, now, timeouts)
      {
        UndisturbedIsExclusive(actions, now, timeouts);
      }
    } else {
      var c, d :| c != d && '/' !in c && Effective(timeouts(c)) > Effective(timeouts(d));
      var calls, now := ShorterTimeoutOverlaps(c, d, timeouts);
      AtomicCalls(Start(), calls, timeouts);
      ActionsInTime(calls, now);
      assert !Exclusive(ActAll(Begin(), AllActions(calls), timeouts).sys, now, timeouts);
    }
  }

  /** When nobody else has a call under way, the steps of others leave a record alone until it has run out
      for them, whatever order they come in. */
  lemma {:induction false} RecordSurvivesSteps(s: Shared, actions: seq<Action>, timeouts: string -> int)
    requires ReadInfo(s.sys.value).Taken? && forall c | c in s.plans :: c == ReadInfo(s.sys.value).client
    requires forall i | 0 <= i < |actions| ::
               && actions[i].client != ReadInfo(s.sys.value).client
               && (actions[i].ReadToHold?
                   ==> !Expired(ReadInfo(s.sys.value).seconds, actions[i].now, timeouts(actions[i].client)))
    ensures ActAll(s, actions, timeouts) == s
    decreases |actions|
  {
    if actions != [] {
      assert s.plans - {actions[0].client} == s.plans;
      assert Act(s, actions[0], timeouts) == s;
      RecordSurvivesSteps(s, actions[1..], timeouts);
    }
  }

  // ---------- what a disturbed call can do ----------

  /** No other client's record falls between the read of a hold and its write; releases may be disturbed. */
  predicate HoldsUndisturbed(s: Shared, actions: seq<Action>, timeouts: string -> int)
    decreases |actions|
  {
    actions == [] || ((actions[0].Place? ==> Clean(s, actions[0]))
                      && HoldsUndisturbed(Act(s, actions[0], timeouts), actions[1..], timeouts))
  }

  /** The states a run goes through. */
  ghost predicate GoesThrough(states: seq<Shared>, actions: seq<Action>, timeouts: string -> int) {
    |states| == |actions| + 1 && forall i | 0 <= i < |actions| :: Act(states[i], actions[i], timeouts) == states[i + 1]
  }

  lemma {:induction false} RunEnds(states: seq<Shared>, actions: seq<Action>, timeouts: string -> int)
    requires GoesThrough(states, actions, timeouts)
    ensures ActAll(states[0], actions, timeouts) == states[|actions|]
    ensures (forall i | 0 <= i < |actions| && actions[i].Place? :: Clean(states[i], actions[i]))
       ==> HoldsUndisturbed(states[0], actions, timeouts)
    decreases |actions|
  {
    if actions != [] {
      assert Act(states[0], actions[0], timeouts) == states[1];
      RunEnds(states[1..], actions[1..], timeouts);
    }
  }

  /** Any two clients that both read before either writes are both granted the lock. */
  lemma ReadsBeforeWritesOverlap(c: string, d: string, now: int, timeouts: string -> int) returns (actions: seq<Action>)
    requires c != d && Effective(timeouts(c)) >= SECOND && Effective(timeouts(d)) >= SECOND
    ensures InTime(actions, now) && !Exclusive(ActAll(Begin(), actions, timeouts).sys, now, timeouts)
  {
    actions := [ReadToHold(c, true, now), ReadToHold(d, true, now), Place(c, now, now), Place(d, now, now)];
    var t := now / SECOND;
    var sys := System(Some(Record(d, t)), map[c := t, d := t]);
    BothPlace(c, d, t, now, timeouts);
    RunEnds([Begin(), OneRead(c), BothRead(c, d), OnePlaced(c, d, t), Shared(sys, map[])], actions, timeouts);
    assert Active(sys, c, now, timeouts) && Active(sys, d, now, timeouts);
  }

  function OneRead(c: string): Shared {
    Shared(Start(), map[c := Plan(true, false)])
  }

  function BothRead(c: string, d: string): Shared {
    Shared(Start(), map[c := Plan(true, false), d := Plan(true, false)])
  }

  function OnePlaced(c: string, d: string, t: int): Shared {
    Shared(System(Some(Record(c, t)), map[c := t]), map[d := Plan(true, true)])
  }

  lemma BothPlace(c: string, d: string, t: int, now: int, timeouts: string -> int)
    requires c != d && t == now / SECOND
    ensures Act(BothRead(c, d), Place(c, now, now), timeouts) == OnePlaced(c, d, t)
    ensures Act(OnePlaced(c, d, t), Place(d, now, now), timeouts)
         == Shared(System(Some(Record(d, t)), map[c := t, d := t]), map[])
  {
    var plans: map<string, Plan> := map[c := Plan(true, false), d := Plan(true, false)];
    assert Disturb(plans - {c}) == map[d := Plan(true, true)];
  }

  lemma {:induction false} RunConcat(s: Shared, a: seq<Action>, b: seq<Action>, timeouts: string -> int)
    ensures ActAll(s, a + b, timeouts) == ActAll(ActAll(s, a, timeouts), b, timeouts)
    ensures HoldsUndisturbed(s, a, timeouts) && HoldsUndisturbed(ActAll(s, a, timeouts), b, timeouts)
       ==> HoldsUndisturbed(s, a + b, timeouts)
    decreases |a|
  {
    if a == [] {
      assert a + b == b;
    } else {
      assert (a + b)[1..] == a[1..] + b;
      RunConcat(Act(s, a[0], timeouts), a[1..], b, timeouts);
    }
  }

  lemma InTimeConcat(a: seq<Action>, b: seq<Action>, now: int)
    requires InTime(a, now) && forall i | 0 <= i < |b| :: b[i].now == now
    ensures InTime(a + b, now)
  {
  }

  /** One client has lost the lock to another, and is about to remove the record it read before. */
  function Lost(c: string, d: string, t: int): Shared {
    Shared(System(Some(Record(d, t)), map[c := 0, d := t]), map[c := Plan(false, true)])
  }

  /** One client holds the lock since time zero and has these calls under way. */
  function Held(c: string, plans: map<string, Plan>): Shared {
    Shared(System(Some(Record(c, 0)), map[c := 0]), plans)
  }

  lemma TakesLock(c: string, timeouts: string -> int)
    ensures Act(Begin(), ReadToHold(c, true, 0), timeouts) == OneRead(c)
    ensures Act(OneRead(c), Place(c, 0, 0), timeouts) == Held(c, map[])
  {
    assert Disturb(OneRead(c).plans - {c}) == map[];
  }

  lemma BeginsRelease(c: string, timeouts: string -> int)
    requires '/' !in c
    ensures Act(Held(c, map[]), ReadToRelease(c, 0), timeouts) == Held(c, map[c := Plan(false, false)])
  {
    RecordReadsBack(c, 0);
  }

  lemma FindsExpired(c: string, d: string, now: int, timeouts: string -> int)
    requires c != d && '/' !in c && now > Effective(timeouts(d))
    ensures Act(Held(c, map[c := Plan(false, false)]), ReadToHold(d, true, now), timeouts)
         == Held(c, map[c := Plan(false, false), d := Plan(true, false)])
  {
    RecordReadsBack(c, 0);
  }

  lemma TakesOver(c: string, d: string, now: int, timeouts: string -> int)
    requires c != d
    ensures Act(Held(c, map[c := Plan(false, false), d := Plan(true, false)]), Place(d, now, now), timeouts)
         == Lost(c, d, now / SECOND)
  {
    var plans: map<string, Plan> := map[c := Plan(false, false), d := Plan(true, false)];
    assert Disturb(plans - {d}) == map[c := Plan(false, true)];
  }

  /** It takes the lock, begins to release it, and loses it. */
  lemma LosesInRelease(c: string, d: string, now: int, timeouts: string -> int) returns (actions: seq<Action>)
    requires c != d && '/' !in c && now > Effective(timeouts(d))
    ensures InTime(actions, now) && HoldsUndisturbed(Begin(), actions, timeouts)
    ensures ActAll(Begin(), actions, timeouts) == Lost(c, d, now / SECOND)
  {
    TakesLock(c, timeouts);
    BeginsRelease(c, timeouts);
    FindsExpired(c, d, now, timeouts);
    TakesOver(c, d, now, timeouts);
    var before := [ReadToHold(c, true, 0), Place(c, 0, 0), ReadToRelease(c, 0)];
    var after := [ReadToHold(d, true, now), Place(d, now, now)];
    var mine := Held(c, map[c := Plan(false, false)]);
    var both := Held(c, map[c := Plan(false, false), d := Plan(true, false)]);
    RunEnds([Begin(), OneRead(c), Held(c, map[]), mine], before, timeouts);
    RunEnds([mine, both, Lost(c, d, now / SECOND)], after, timeouts);
    RunConcat(Begin(), before, after, timeouts);
    InTimeConcat(before, after, now);
    actions := before + after;
  }

  /** The other's record is gone, though its lease is not. */
  function Robbed(d: string, t: int, plans: map<string, Plan>): Shared {
    Shared(System(None, map[d := t]), plans)
  }

  lemma RobsAndTakes(c: string, d: string, t: int, now: int, timeouts: string -> int)
    requires c != d && t == now / SECOND
    ensures Act(Lost(c, d, t), Remove(c, now), timeouts) == Robbed(d, t, map[])
    ensures Act(Robbed(d, t, map[]), ReadToHold(c, true, now), timeouts) == Robbed(d, t, map[c := Plan(true, false)])
    ensures Act(Robbed(d, t, map[c := Plan(true, false)]), Place(c, now, now), timeouts)
         == Shared(System(Some(Record(c, t)), map[c := t, d := t]), map[])
  {
    var plans: map<string, Plan> := map[c := Plan(true, false)];
    assert Disturb(plans - {c}) == map[];
    var leases := map[c := 0, d := t];
    assert leases - {c} == map[d := t];
  }

  /** It removes the other's record, and takes the lock again. */
  lemma RemovesOther(c: string, d: string, now: int, timeouts: string -> int) returns (actions: seq<Action>)
    requires c != d
    ensures HoldsUndisturbed(Lost(c, d, now / SECOND), actions, timeouts)
    ensures forall i | 0 <= i < |actions| :: actions[i].now == now
    ensures ActAll(Lost(c, d, now / SECOND), actions, timeouts).sys.leases == map[c := now / SECOND, d := now / SECOND]
  {
    var t := now / SECOND;
    actions := [Remove(c, now), ReadToHold(c, true, now), Place(c, now, now)];
    RobsAndTakes(c, d, t, now, timeouts);
    RunEnds([Lost(c, d, t), Robbed(d, t, map[]), Robbed(d, t, map[c := Plan(true, false)]),
             Shared(System(Some(Record(c, t)), map[c := t, d := t]), map[])], actions, timeouts);
  }

  /** That holds are not disturbed is not enough: a client that is slow to release removes the record of
      the one that took over, and can then have the lock beside it. */
  lemma SlowReleaseOverlaps(c: string, d: string, timeouts: string -> int) returns (actions: seq<Action>, now: int)
    requires c != d && '/' !in c && Effective(timeouts(c)) >= SECOND && Effective(timeouts(d)) >= SECOND
    ensures InTime(actions, now) && HoldsUndisturbed(Begin(), actions, timeouts)
    ensures !Exclusive(ActAll(Begin(), actions, timeouts).sys, now, timeouts)
  {
    now := Effective(timeouts(d)) + 1;
    var before := LosesInRelease(c, d, now, timeouts);
    var after := RemovesOther(c, d, now, timeouts);
    actions := before + after;
    InTimeConcat(before, after, now);
    RunConcat(Begin(), before, after, timeouts);
    var sys := ActAll(Begin(), actions, timeouts).sys;
    assert Active(sys, c, now, timeouts) && Active(sys, d, now, timeouts);
  }
}
