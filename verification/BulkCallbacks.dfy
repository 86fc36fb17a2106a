/** Which callbacks the walk over a bulk body makes, told from the lines and the callbacks alone. */
module BulkCallbacks {
  import opened Options
  import opened BulkLines
  import opened BulkWalk

  /** The callback was for a meta line whose operation has its payload on the next line. */
  predicate Awaits(e: Option<Event>) {
    e.Some? && e.value.OnMeta? && e.value.info.action != "delete"
  }

  /** What is reported of a meta line: the line as it is when it names an index; otherwise the index of
      the path, with its type where the line has none, written into the line. */
  predicate FilledIn(env: Env, line: Bytes, bytes: Bytes, info: Meta) {
    var m := env.parse(line);
    && m.Some? && info.action == m.value.action && info.id == m.value.id && info.routing == m.value.routing
    && if m.value.index != "" then
         bytes == line && info.index == m.value.index && info.typeName == m.value.typeName
       else
         && info.index == env.urlIndex != ""
         && info.typeName == (if m.value.typeName != "" then m.value.typeName else env.urlType)
         && Some(bytes) == env.update(m.value.action, line, env.urlIndex,
                                      if m.value.typeName != "" then "" else env.urlType)
  }

  /** The callback for a line, after the one for the line before, when `n` operations were begun. */
  predicate Suits(env: Env, skipped: bool, prev: Option<Event>, n: nat, line: Bytes, now: Option<Event>) {
    if skipped then now == None
    else if Awaits(prev) then now == Some(OnPayload(line, prev.value.info, prev.value.offset))
    else now.Some? && now.value.OnMeta? && now.value.offset == n && FilledIn(env, line, now.value.bytes, now.value.info)
  }

  /** How many operations are begun. */
  function Begun(told: seq<Option<Event>>): nat {
    if told == [] then 0 else (if told[0].Some? && told[0].value.OnMeta? then 1 else 0) + Begun(told[1..])
  }

  function Somes(told: seq<Option<Event>>): seq<Event> {
    if told == [] then [] else (if told[0].Some? then [told[0].value] else []) + Somes(told[1..])
  }

  predicate SuitsAt(env: Env, skip: nat -> bool, asked: nat, prev: Option<Event>, n: nat, lines: seq<Bytes>,
                    told: seq<Option<Event>>, i: nat)
    requires i < |told| && i < |lines|
  {
    Suits(env, skip(asked + i), if i == 0 then prev else told[i - 1], n + Begun(told[..i]), lines[i], told[i])
  }

  /** One callback or none for every line, each as it should be after those before. */
  ghost predicate Told(env: Env, skip: nat -> bool, asked: nat, prev: Option<Event>, n: nat, lines: seq<Bytes>,
                       told: seq<Option<Event>>) {
    |told| == |lines| && forall i: nat | i < |told| :: SuitsAt(env, skip, asked, prev, n, lines, told, i)
  }

  lemma ToldFirst(env: Env, skip: nat -> bool, asked: nat, prev: Option<Event>, n: nat, lines: seq<Bytes>,
                  now: Option<Event>, rest: seq<Option<Event>>)
    requires lines != []
    ensures Told(env, skip, asked, prev, n, lines, [now] + rest)
       <==> && Suits(env, skip(asked), prev, n, lines[0], now)
            && Told(env, skip, asked + 1, now, n + Begun([now]), lines[1..], rest)
  {
    var told, asked', n', lines' := [now] + rest, asked + 1, n + Begun([now]), lines[1..];
    if |told| == |lines| {
      assert told[..0] == [];
      assert SuitsAt(env, skip, asked, prev, n, lines, told, 0) <==> Suits(env, skip(asked), prev, n, lines[0], now);
      if Told(env, skip, asked, prev, n, lines, told) {
        forall i: nat | i < |rest| ensures SuitsAt(env, skip, asked', now, n', lines', rest, i) {
          assert SuitsAt(env, skip, asked, prev, n, lines, told, i + 1);
          SuitsNext(env, skip, asked, prev, n, lines, now, rest, i);
        }
      }
      if Told(env, skip, asked', now, n', lines', rest) {
        forall i: nat | 0 < i < |told| ensures SuitsAt(env, skip, asked, prev, n, lines, told, i) {
          SuitsNext(env, skip, asked, prev, n, lines, now, rest, i - 1);
        }
      }
    }
  }

  lemma BegunFirst(now: Option<Event>, rest: seq<Option<Event>>)
    ensures Begun([now] + rest) == Begun([now]) + Begun(rest)
  {
    assert ([now] + rest)[1..] == rest && [now][1..] == [];
  }

  lemma SuitsNext(env: Env, skip: nat -> bool, asked: nat, prev: Option<Event>, n: nat, lines: seq<Bytes>,
                  now: Option<Event>, rest: seq<Option<Event>>, i: nat)
    requires |lines| == |rest| + 1 && i < |rest|
    ensures SuitsAt(env, skip, asked, prev, n, lines, [now] + rest, i + 1)
       <==> SuitsAt(env, skip, asked + 1, now, n + Begun([now]), lines[1..], rest, i)
  {
    var told := [now] + rest;
    assert told[..i + 1] == [now] + rest[..i];
    BegunFirst(now, rest[..i]);
    assert asked + (i + 1) == asked + 1 + i;
  }

  /** The state of the walk after a callback, when `n` operations were begun. */
  function StateAfter(prev: Option<Event>, n: nat): State {
    if Awaits(prev) then PayloadDue(prev.value.info, n) else MetaDue(n)
  }

  predicate Latest(prev: Option<Event>, n: nat) {
    Awaits(prev) ==> prev.value.offset + 1 == n
  }

  lemma FilledInIff(env: Env, line: Bytes, bytes: Bytes, info: Meta)
    ensures FilledIn(env, line, bytes, info) <==> Resolve(env, line) == Some((bytes, info))
  {
    var m := env.parse(line);
    if m.Some? && m.value.index == "" {
      assert info == Meta(info.action, info.index, info.typeName, info.id, info.routing);
    }
  }

  /** What a line adds is what suits it. */
  lemma TurnSuits(env: Env, skip: bool, prev: Option<Event>, n: nat, line: Bytes, now: Option<Event>)
    requires Latest(prev, n)
    ensures Latest(now, n + Begun([now])) || !Suits(env, skip, prev, n, line, now)
    ensures Suits(env, skip, prev, n, line, now)
       <==> Turn(env, skip, StateAfter(prev, n), line) == Some((Somes([now]), StateAfter(now, n + Begun([now]))))
  {
    assert [now][1..] == [];
    if now == None {
      assert Somes([now]) == [];
    } else {
      var e := now.value;
      FilledInIff(env, line, e.bytes, e.info);
      assert Somes([now]) == [e];
      if !skip && !Awaits(prev) {
        var r := Resolve(env, line);
        if r.Some? { assert [OnMeta(r.value.0, r.value.1, n)] == [e] ==> OnMeta(r.value.0, r.value.1, n) == e; }
      } else if !skip {
        var paid := OnPayload(line, prev.value.info, n - 1);
        assert [paid] == [e] ==> paid == e;
      }
    }
  }

  // ---------- the walk ----------

  /** Callbacks that suit their lines are those the walk makes. */
  lemma {:induction false} ToldIsWalked(env: Env, skip: nat -> bool, asked: nat, prev: Option<Event>, n: nat,
                                        lines: seq<Bytes>, told: seq<Option<Event>>)
    requires Latest(prev, n) && Told(env, skip, asked, prev, n, lines, told)
    ensures WalkHooked(env, skip, asked, StateAfter(prev, n), lines) == Trace(Somes(told), n + Begun(told))
    decreases |lines|
  {
    if lines != [] {
      var now, rest := told[0], told[1..];
      assert told == [now] + rest;
      ToldFirst(env, skip, asked, prev, n, lines, now, rest);
      TurnSuits(env, skip(asked), prev, n, lines[0], now);
      ToldIsWalked(env, skip, asked + 1, now, n + Begun([now]), lines[1..], rest);
      assert [now][1..] == [];
    }
  }

  /** A walk to the end makes callbacks that suit their lines. */
  lemma {:induction false} WalkedIsTold(env: Env, skip: nat -> bool, asked: nat, prev: Option<Event>, n: nat,
                                        lines: seq<Bytes>) returns (told: seq<Option<Event>>)
    requires Latest(prev, n) && WalkHooked(env, skip, asked, StateAfter(prev, n), lines).Trace?
    ensures Told(env, skip, asked, prev, n, lines, told)
    decreases |lines|
  {
    if lines == [] {
      told := [];
    } else {
      var turn := Turn(env, skip(asked), StateAfter(prev, n), lines[0]).value;
      var now: Option<Event> := if turn.0 == [] then None else Some(turn.0[0]);
      assert [now][1..] == [];
      assert turn.0 == Somes([now]);
      TurnSuits(env, skip(asked), prev, n, lines[0], now);
      var rest := WalkedIsTold(env, skip, asked + 1, now, n + Begun([now]), lines[1..]);
      ToldFirst(env, skip, asked, prev, n, lines, now, rest);
      told := [now] + rest;
    }
  }

  /** Whatever the hook says: the walk ends with these callbacks exactly when there is one or none for
      every line that suits it, and it panics exactly when there is no such choice. */
  lemma WalkIff(env: Env, skip: nat -> bool, data: Bytes, events: seq<Event>, count: nat)
    ensures WalkHooked(env, skip, 0, MetaDue(0), Lines(data)) == Trace(events, count)
       <==> exists told :: Told(env, skip, 0, None, 0, Lines(data), told) && Somes(told) == events
                           && Begun(told) == count
    ensures WalkHooked(env, skip, 0, MetaDue(0), Lines(data)).Panic?
       <==> !exists told :: Told(env, skip, 0, None, 0, Lines(data), told)
  {
    forall told | Told(env, skip, 0, None, 0, Lines(data), told)
      ensures WalkHooked(env, skip, 0, MetaDue(0), Lines(data)) == Trace(Somes(told), Begun(told)) {
      ToldIsWalked(env, skip, 0, None, 0, Lines(data), told);
    }
    if WalkHooked(env, skip, 0, MetaDue(0), Lines(data)).Trace? {
      var told := WalkedIsTold(env, skip, 0, None, 0, Lines(data));
    }
  }

  // ---------- without a hook ----------

  lemma {:induction false} SomesOfAll(told: seq<Option<Event>>)
    requires forall i | 0 <= i < |told| :: told[i].Some?
    ensures |Somes(told)| == |told| && forall i | 0 <= i < |told| :: Some(Somes(told)[i]) == told[i]
  {
    if told != [] { SomesOfAll(told[1..]); }
  }

  const NEVER := (asked: nat) => false

  lemma NoneSkipped(env: Env, data: Bytes) returns (told: seq<Option<Event>>)
    requires Walk(env, data).Trace?
    ensures Told(env, NEVER, 0, None, 0, Lines(data), told) && Walk(env, data).count == Begun(told)
    ensures var events := Walk(env, data).events;
            |events| == |told| && forall i | 0 <= i < |told| :: told[i] == Some(events[i])
  {
    NeverSkipping(env, NEVER, 0, MetaDue(0), Lines(data));
    told := WalkedIsTold(env, NEVER, 0, None, 0, Lines(data));
    ToldIsWalked(env, NEVER, 0, None, 0, Lines(data), told);
    forall i: nat | i < |told| ensures told[i].Some? {
      assert SuitsAt(env, NEVER, 0, None, 0, Lines(data), told, i);
    }
    SomesOfAll(told);
  }

  /** The callback for the `i`-th line is for a payload exactly when the one before awaits it, and then
      has its operation and the bytes of the line. */
  predicate FollowsAt(env: Env, lines: seq<Bytes>, events: seq<Event>, i: nat)
    requires i < |events| && i < |lines|
  {
    if i > 0 && events[i - 1].OnMeta? && events[i - 1].info.action != "delete" then
      events[i] == OnPayload(lines[i], events[i - 1].info, events[i - 1].offset)
    else events[i].OnMeta? && FilledIn(env, lines[i], events[i].bytes, events[i].info)
  }

  /** One callback for every line, in order. */
  lemma OneCallbackALine(env: Env, data: Bytes)
    requires Walk(env, data).Trace?
    ensures var events := Walk(env, data).events;
            |events| == |Lines(data)| && forall i: nat | i < |events| :: FollowsAt(env, Lines(data), events, i)
  {
    var lines, events := Lines(data), Walk(env, data).events;
    var told := NoneSkipped(env, data);
    forall i: nat | i < |events| ensures FollowsAt(env, lines, events, i) {
      assert SuitsAt(env, NEVER, 0, None, 0, lines, told, i);
      assert Some(events[i]) == told[i] && (i > 0 ==> Some(events[i - 1]) == told[i - 1]);
    }
  }

  /** The operations that meta lines begin, in order. */
  function Operations(events: seq<Event>): seq<Meta> {
    if events == [] then []
    else Operations(events[..|events| - 1])
         + if events[|events| - 1].OnMeta? then [events[|events| - 1].info] else []
  }

  /** The operation whose payload never came. */
  function Outstanding(events: seq<Event>): seq<Meta> {
    if events != [] && Awaits(Some(events[|events| - 1])) then [events[|events| - 1].info] else []
  }

  /** Every operation begun is reported as done, in order, but for one without its payload at the end. */
  lemma {:induction false} BegunAreFinished(env: Env, lines: seq<Bytes>, events: seq<Event>)
    requires |events| <= |lines| && forall i: nat | i < |events| :: FollowsAt(env, lines, events, i)
    ensures Operations(events) == Finished(events) + Outstanding(events)
    decreases |events|
  {
    if events != [] {
      var n := |events| - 1;
      var init := events[..n];
      forall i: nat | i < n ensures FollowsAt(env, lines, init, i) { assert FollowsAt(env, lines, events, i); }
      BegunAreFinished(env, lines, init);
      assert FollowsAt(env, lines, events, n);
      assert n > 0 ==> init[n - 1] == events[n - 1];
    }
  }

  lemma {:induction false} BegunIsOperations(told: seq<Option<Event>>, events: seq<Event>)
    requires |told| == |events| && forall i | 0 <= i < |told| :: told[i] == Some(events[i])
    ensures Begun(told) == |Operations(events)|
    decreases |told|
  {
    if told != [] {
      var n := |told| - 1;
      BegunIsOperations(told[..n], events[..n]);
      BegunMore(told[..n], told[n]);
      assert told == told[..n] + [told[n]];
    }
  }

  lemma {:induction false} BegunMore(told: seq<Option<Event>>, e: Option<Event>)
    ensures Begun(told + [e]) == Begun(told) + if e.Some? && e.value.OnMeta? then 1 else 0
  {
    if told == [] {
      assert told + [e] == [e] && [e][1..] == [];
    } else {
      assert (told + [e])[1..] == told[1..] + [e];
      BegunMore(told[1..], e);
    }
  }

  /** The count of a walk is that of its operations, all of them done when no payload is outstanding. */
  lemma CountIsFinished(env: Env, data: Bytes)
    requires Walk(env, data).Trace?
    ensures var t := Walk(env, data);
            && t.count == |Operations(t.events)|
            && Operations(t.events) == Finished(t.events) + Outstanding(t.events)
  {
    var events := Walk(env, data).events;
    var told := NoneSkipped(env, data);
    BegunIsOperations(told, events);
    OneCallbackALine(env, data);
    BegunAreFinished(env, Lines(data), events);
  }
}
