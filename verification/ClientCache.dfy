/** The cache of search clients under concurrent lookups and invalidations. */
module ClientCache {

  /** A call in progress or finished. Clients are numbered in the order in which they are built. */
  datatype Call =
    | Looking(key: string)
    | Building(key: string)
    | Built(key: string, client: nat)
    | Done(key: string, client: nat)
    | Failed(key: string)

  datatype State = State(cache: map<string, nat>, calls: seq<Call>, built: nat)

  /** The steps of a call between which others may run; each is one critical section or the build. */
  datatype Step =
    | Begin(key: string)
    | Lookup(call: nat)
    | Build(call: nat, ok: bool)
    | Publish(call: nat)
    | Invalidate(key: string)

  predicate Enabled(s: State, step: Step) {
    match step
    case Begin(_) => true
    case Lookup(i) => i < |s.calls| && s.calls[i].Looking?
    case Build(i, _) => i < |s.calls| && s.calls[i].Building?
    case Publish(i) => i < |s.calls| && s.calls[i].Built?
    case Invalidate(_) => true
  }

  function Next(s: State, step: Step): State
    requires Enabled(s, step)
  {
    match step
    case Begin(key) => s.(calls := s.calls + [Looking(key)])
    case Lookup(i) =>
      var key := s.calls[i].key;
      s.(calls := s.calls[i := if key in s.cache then Done(key, s.cache[key]) else Building(key)])
    case Build(i, ok) =>
      var key := s.calls[i].key;
      if ok then State(s.cache, s.calls[i := Built(key, s.built)], s.built + 1)
      else s.(calls := s.calls[i := Failed(key)])
    case Publish(i) =>
      var key, client := s.calls[i].key, s.calls[i].client;
      if key in s.cache then s.(calls := s.calls[i := Done(key, s.cache[key])])
      else State(s.cache[key := client], s.calls[i := Done(key, client)], s.built)
    case Invalidate(key) => s.(cache := s.cache - {key})
  }

  /** A run: every step is enabled where it is taken. */
  predicate Run(s: State, steps: seq<Step>)
    decreases |steps|
  {
    steps != [] ==> Enabled(s, steps[0]) && Run(Next(s, steps[0]), steps[1..])
  }

  function After(s: State, steps: seq<Step>): State
    requires Run(s, steps)
    decreases |steps|
  {
    if steps == [] then s else After(Next(s, steps[0]), steps[1..])
  }

  /** Nothing is cached and nobody has called. */
  function Start(): State {
    State(map[], [], 0)
  }

  predicate Quiet(steps: seq<Step>, key: string) {
    forall i | 0 <= i < |steps| :: steps[i] != Invalidate(key)
  }

  // ---------- entries ----------

  /** Between two invalidations of a key its entry, once there, stays. */
  lemma {:induction false} EntryStays(s: State, steps: seq<Step>, key: string)
    requires Run(s, steps) && Quiet(steps, key) && key in s.cache
    ensures key in After(s, steps).cache && After(s, steps).cache[key] == s.cache[key]
    decreases |steps|
  {
    if steps != [] {
      EntryStays(Next(s, steps[0]), steps[1..], key);
    }
  }

  /** The step by which a call returns: what it returns is the entry at that moment. */
  predicate Returns(s: State, step: Step, key: string, client: nat) {
    && Enabled(s, step) && (step.Lookup? || step.Publish?)
    && Next(s, step).calls[step.call] == Done(key, client)
  }

  lemma ReturnsEntry(s: State, step: Step, key: string, client: nat)
    requires Returns(s, step, key, client)
    ensures key in Next(s, step).cache && Next(s, step).cache[key] == client
  {
  }

  /** Two calls that return with no invalidation of the key in between return the same client. */
  lemma SameClient(s: State, first: Step, between: seq<Step>, second: Step, key: string, c: nat, d: nat)
    requires Returns(s, first, key, c) && Run(Next(s, first), between) && Quiet(between, key)
    requires Returns(After(Next(s, first), between), second, key, d)
    ensures c == d
  {
    ReturnsEntry(s, first, key, c);
    EntryStays(Next(s, first), between, key);
    ReturnsEntry(After(Next(s, first), between), second, key, d);
  }

  // ---------- a call that nothing interrupts ----------

  /** The call finds the entry, if there is one, and changes nothing. Otherwise it builds the next client,
      caches it for its key and returns it, or fails with the build and leaves the cache alone. */
  lemma CallAlone(s: State, key: string)
    ensures var n := |s.calls|;
            if key in s.cache then
              Leads(s, [Begin(key), Lookup(n)], s.(calls := s.calls + [Done(key, s.cache[key])]))
            else
              && Leads(s, [Begin(key), Lookup(n), Build(n, true), Publish(n)],
                       State(s.cache[key := s.built], s.calls + [Done(key, s.built)], s.built + 1))
              && Leads(s, [Begin(key), Lookup(n), Build(n, false)], s.(calls := s.calls + [Failed(key)]))
  {
    var n := |s.calls|;
    var begun := s.(calls := s.calls + [Looking(key)]);
    if key in s.cache {
      LeadsLast(begun, Lookup(n), s.(calls := s.calls + [Done(key, s.cache[key])]));
      LeadsMore(s, Begin(key), begun, [Lookup(n)], s.(calls := s.calls + [Done(key, s.cache[key])]));
    } else {
      var missed := s.(calls := s.calls + [Building(key)]);
      var built := State(s.cache, s.calls + [Built(key, s.built)], s.built + 1);
      var done := State(s.cache[key := s.built], s.calls + [Done(key, s.built)], s.built + 1);
      var failed := s.(calls := s.calls + [Failed(key)]);
      LeadsLast(built, Publish(n), done);
      LeadsMore(missed, Build(n, true), built, [Publish(n)], done);
      LeadsMore(begun, Lookup(n), missed, [Build(n, true), Publish(n)], done);
      LeadsMore(s, Begin(key), begun, [Lookup(n), Build(n, true), Publish(n)], done);
      LeadsLast(missed, Build(n, false), failed);
      LeadsMore(begun, Lookup(n), missed, [Build(n, false)], failed);
      LeadsMore(s, Begin(key), begun, [Lookup(n), Build(n, false)], failed);
    }
  }

  predicate Leads(s: State, steps: seq<Step>, t: State) {
    Run(s, steps) && After(s, steps) == t
  }

  lemma LeadsLast(s: State, step: Step, t: State)
    requires Enabled(s, step) && Next(s, step) == t
    ensures Leads(s, [step], t)
  {
    assert [step][1..] == [];
  }

  lemma LeadsMore(s: State, step: Step, next: State, steps: seq<Step>, t: State)
    requires Enabled(s, step) && Next(s, step) == next && Leads(next, steps, t)
    ensures Leads(s, [step] + steps, t)
  {
    assert ([step] + steps)[1..] == steps;
  }

  // ---------- what a call returns ----------

  predicate Finished(c: Call) {
    c.Done? || c.Failed?
  }

  lemma {:induction false} FinishedStays(s: State, steps: seq<Step>, i: nat)
    requires Run(s, steps) && i < |s.calls| && Finished(s.calls[i])
    ensures i < |After(s, steps).calls| && After(s, steps).calls[i] == s.calls[i]
    decreases |steps|
  {
    if steps != [] {
      FinishedStays(Next(s, steps[0]), steps[1..], i);
    }
  }

  lemma {:induction false} RunSplits(s: State, steps: seq<Step>, k: nat)
    requires Run(s, steps) && k <= |steps|
    ensures Run(s, steps[..k]) && Run(After(s, steps[..k]), steps[k..])
    ensures After(After(s, steps[..k]), steps[k..]) == After(s, steps)
    decreases |steps|
  {
    if k == 0 {
      assert steps[k..] == steps;
    } else {
      RunSplits(Next(s, steps[0]), steps[1..], k - 1);
      assert steps[..k][1..] == steps[1..][..k - 1];
      assert steps[k..] == steps[1..][k - 1..];
    }
  }

  /** The entry of the key at some moment of a run. */
  ghost predicate WasEntry(s: State, steps: seq<Step>, key: string, client: nat)
    requires Run(s, steps)
  {
    exists k | 0 <= k <= |steps| :: EntryAt(s, steps, k, key, client)
  }

  ghost predicate EntryAt(s: State, steps: seq<Step>, k: nat, key: string, client: nat)
    requires Run(s, steps) && k <= |steps|
  {
    RunSplits(s, steps, k);
    var cache := After(s, steps[..k]).cache;
    key in cache && cache[key] == client
  }

  lemma EntryLater(s: State, steps: seq<Step>, k: nat, key: string, client: nat)
    requires steps != [] && Run(s, steps) && k < |steps| && EntryAt(Next(s, steps[0]), steps[1..], k, key, client)
    ensures EntryAt(s, steps, k + 1, key, client)
  {
    RunSplits(s, steps, k + 1);
    assert steps[..k + 1][1..] == steps[1..][..k];
  }

  /** A call that is not finished at the start of a run, and has returned a client by its end,
      returned one that was the entry for its key at some moment of the run. */
  lemma {:induction false} ReturnedEntry(s: State, steps: seq<Step>, i: nat, key: string, client: nat)
    requires Run(s, steps) && i < |After(s, steps).calls| && After(s, steps).calls[i] == Done(key, client)
    requires i < |s.calls| ==> !Finished(s.calls[i])
    ensures WasEntry(s, steps, key, client)
    decreases |steps|
  {
    if steps != [] {
      var s', rest := Next(s, steps[0]), steps[1..];
      if i < |s'.calls| && Finished(s'.calls[i]) {
        FinishedStays(s', rest, i);
        assert Returns(s, steps[0], key, client);
        ReturnsEntry(s, steps[0], key, client);
        EntryNow(s', rest, key, client);
        EntryLater(s, steps, 0, key, client);
      } else {
        ReturnedEntry(s', rest, i, key, client);
        var k :| 0 <= k <= |rest| && EntryAt(s', rest, k, key, client);
        EntryLater(s, steps, k, key, client);
      }
    }
  }

  lemma EntryNow(s: State, steps: seq<Step>, key: string, client: nat)
    requires Run(s, steps) && key in s.cache && s.cache[key] == client
    ensures EntryAt(s, steps, 0, key, client)
  {
    assert steps[..0] == [];
  }

  // ---------- rebuilding after an invalidation ----------

  /** Clients are numbered below the number built so far. */
  predicate Numbered(s: State) {
    && (forall key | key in s.cache :: s.cache[key] < s.built)
    && (forall i | 0 <= i < |s.calls| && (s.calls[i].Built? || s.calls[i].Done?) :: s.calls[i].client < s.built)
  }

  lemma {:induction false} RunKeepsNumbered(s: State, steps: seq<Step>)
    requires Run(s, steps) && Numbered(s)
    ensures Numbered(After(s, steps))
    decreases |steps|
  {
    if steps != [] {
      RunKeepsNumbered(Next(s, steps[0]), steps[1..]);
    }
  }

  /** A call for the key has a client built and not yet published. */
  predicate Unpublished(s: State, key: string) {
    exists i | 0 <= i < |s.calls| :: s.calls[i].Built? && s.calls[i].key == key
  }

  /** All that can still be returned for the key by calls from `from` on was built since `base`. */
  predicate Recent(s: State, key: string, from: nat, base: nat) {
    && base <= s.built
    && (key in s.cache ==> s.cache[key] >= base)
    && (forall i | 0 <= i < |s.calls| && s.calls[i].key == key ::
          && (s.calls[i].Built? ==> s.calls[i].client >= base)
          && (i >= from && s.calls[i].Done? ==> s.calls[i].client >= base))
  }

  lemma RecentStep(s: State, step: Step, key: string, from: nat, base: nat)
    requires Enabled(s, step) && from <= |s.calls| && Recent(s, key, from, base)
    ensures Recent(Next(s, step), key, from, base) && from <= |Next(s, step).calls|
  {
  }

  lemma {:induction false} RunKeepsRecent(s: State, steps: seq<Step>, key: string, from: nat, base: nat)
    requires Run(s, steps) && from <= |s.calls| && Recent(s, key, from, base)
    ensures Recent(After(s, steps), key, from, base)
    decreases |steps|
  {
    if steps != [] {
      RecentStep(s, steps[0], key, from, base);
      RunKeepsRecent(Next(s, steps[0]), steps[1..], key, from, base);
    }
  }

  /** Some run from here ends with a call begun here or later that returned a client built before. */
  ghost predicate MayReturnOld(s: State, key: string) {
    exists steps, i :: ReturnsOld(s, steps, i, key)
  }

  predicate ReturnsOld(s: State, steps: seq<Step>, i: int, key: string) {
    && Run(s, steps) && |s.calls| <= i < |After(s, steps).calls|
    && After(s, steps).calls[i].Done? && After(s, steps).calls[i].key == key
    && After(s, steps).calls[i].client < s.built
  }

  /** After an invalidation at the end of any run, calls for the key that begin later return only clients built later,
      exactly when no client for the key was built and waiting to be published at that moment. */
  lemma RebuildsIff(steps: seq<Step>, key: string)
    requires Run(Start(), steps)
    ensures var s := After(Start(), steps); MayReturnOld(Next(s, Invalidate(key)), key) <==> Unpublished(s, key)
  {
    RunKeepsNumbered(Start(), steps);
    RebuildsFrom(After(Start(), steps), key);
  }

  lemma RebuildsFrom(s: State, key: string)
    requires Numbered(s)
    ensures MayReturnOld(Next(s, Invalidate(key)), key) <==> Unpublished(s, key)
  {
    var t := Next(s, Invalidate(key));
    if Unpublished(s, key) {
      var i :| 0 <= i < |s.calls| && s.calls[i].Built? && s.calls[i].key == key;
      PublishThenLookup(t, i, key);
    } else {
      forall steps, i ensures !ReturnsOld(t, steps, i, key) {
        if ReturnsOld(t, steps, i, key) {
          RunKeepsRecent(t, steps, key, |t.calls|, t.built);
          assert false;
        }
      }
    }
  }

  lemma PublishThenLookup(t: State, i: nat, key: string)
    requires Numbered(t) && key !in t.cache && i < |t.calls| && t.calls[i].Built? && t.calls[i].key == key
    ensures MayReturnOld(t, key)
  {
    var n, c := |t.calls|, t.calls[i].client;
    var a := Next(t, Publish(i));
    var b := Next(a, Begin(key));
    var z := Next(b, Lookup(n));
    var steps := [Publish(i), Begin(key), Lookup(n)];
    assert steps[1..] == [Begin(key), Lookup(n)] && steps[1..][1..] == [Lookup(n)] && steps[1..][1..][1..] == [];
    assert Run(z, []) && After(z, []) == z;
    assert Run(b, [Lookup(n)]) && After(b, [Lookup(n)]) == z;
    assert Run(a, steps[1..]) && After(a, steps[1..]) == z;
    assert z.calls[n] == Done(key, c);
    assert ReturnsOld(t, steps, n, key);
  }
}
