/** What becomes of each operation of a bulk request, given the items of its response. */
module BulkOutcome {
  import opened Options
  import opened BulkLines
  import opened BulkWalk
  import Json

  /** An item that carries an error. */
  datatype Failure = Failure(status: int, error: string, id: string)

  /** `failed`: the response carries an error of its own. `failures`: the failed items by offset.
      `retry`: the retry rules. */
  datatype Response = Response(failed: bool, failures: map<nat, Failure>, retry: (int, string) -> bool)

  datatype Class = Succeeded | Retryable | Rejected

  function ClassOf(resp: Response, offset: nat): Class {
    if offset !in resp.failures then Succeeded
    else if resp.retry(resp.failures[offset].status, resp.failures[offset].error) then Retryable
    else Rejected
  }

  /** The id reported for an operation that has none. */
  function Unnamed(offset: nat): string {
    "N/A(" + Json.Naturals(offset) + ")"
  }

  function IdOf(resp: Response, e: Event): string {
    var id := if e.offset in resp.failures then resp.failures[e.offset].id else e.info.id;
    if id == "" then Unnamed(e.offset) else id
  }

  // ---------- selections from the walk ----------

  /** The callbacks of the operations of one class, in order. */
  function Select(resp: Response, cls: Class, events: seq<Event>): seq<Event> {
    if events == [] then []
    else
      var rest := Select(resp, cls, events[1..]);
      if ClassOf(resp, events[0].offset) == cls then [events[0]] + rest else rest
  }

  function LinesOf(events: seq<Event>): seq<Bytes> {
    if events == [] then [] else Lines(events[0].bytes) + LinesOf(events[1..])
  }

  function IdsOf(resp: Response, events: seq<Event>): seq<string> {
    if events == [] then []
    else (if events[0].OnMeta? then [IdOf(resp, events[0])] else []) + IdsOf(resp, events[1..])
  }

  /** The non-empty reasons of the failed operations among the callbacks. */
  function ReasonsOf(resp: Response, events: seq<Event>): seq<string> {
    if events == [] then []
    else
      var e := events[0];
      (if e.OnMeta? && e.offset in resp.failures && resp.failures[e.offset].error != ""
       then [resp.failures[e.offset].error] else []) + ReasonsOf(resp, events[1..])
  }

  lemma {:induction false} SelectMore(resp: Response, cls: Class, events: seq<Event>, e: Event)
    ensures Select(resp, cls, events + [e])
         == Select(resp, cls, events) + if ClassOf(resp, e.offset) == cls then [e] else []
  {
    if events == [] {
      assert events + [e] == [e] && [e][1..] == [];
    } else {
      assert (events + [e])[1..] == events[1..] + [e];
      SelectMore(resp, cls, events[1..], e);
    }
  }

  lemma {:induction false} LinesOfMore(events: seq<Event>, e: Event)
    ensures LinesOf(events + [e]) == LinesOf(events) + Lines(e.bytes)
  {
    if events == [] {
      assert events + [e] == [e] && [e][1..] == [];
    } else {
      assert (events + [e])[1..] == events[1..] + [e];
      LinesOfMore(events[1..], e);
    }
  }

  lemma {:induction false} IdsOfMore(resp: Response, events: seq<Event>, e: Event)
    ensures IdsOf(resp, events + [e]) == IdsOf(resp, events) + if e.OnMeta? then [IdOf(resp, e)] else []
  {
    if events == [] {
      assert events + [e] == [e] && [e][1..] == [];
    } else {
      assert (events + [e])[1..] == events[1..] + [e];
      IdsOfMore(resp, events[1..], e);
    }
  }

  lemma {:induction false} ReasonsOfMore(resp: Response, events: seq<Event>, e: Event)
    ensures ReasonsOf(resp, events + [e])
         == ReasonsOf(resp, events) + ReasonsOf(resp, [e])
  {
    assert [e][1..] == [];
    if events == [] {
      assert events + [e] == [e];
    } else {
      assert (events + [e])[1..] == events[1..] + [e];
      ReasonsOfMore(resp, events[1..], e);
    }
  }

  // ---------- buffers ----------

  class BulkBuffer {
    var bytes: Bytes
    var messageIDs: seq<string>
    var reason: seq<string>

    constructor ()
      ensures bytes == [] && messageIDs == [] && reason == []
    {
      bytes, messageIDs, reason := [], [], [];
    }

    method ResetData()
      modifies this
      ensures bytes == [] && messageIDs == [] && reason == []
    {
      bytes, messageIDs, reason := [], [], [];
    }

    method WriteNewByteBufferLine(data: Bytes)
      modifies this`bytes
      ensures bytes == AddLine(old(bytes), data)
      ensures Lines(bytes) == old(Lines(bytes)) + Lines(data)
    {
      AddLineAppends(bytes, data);
      if |data| <= 0 {
        return;
      }
      if |bytes| == 0 || EndsWithNewline(bytes) {
        bytes := bytes + data;
        return;
      }
      if data[0] != NEWLINE {
        bytes := bytes + [NEWLINE];
      }
      bytes := bytes + data;
    }

    method SafetyEndWithNewline()
      modifies this`bytes
      ensures bytes == Terminated(old(bytes))
      ensures Lines(bytes) == old(Lines(bytes)) && (bytes != [] ==> EndsWithNewline(bytes))
    {
      TerminatedKeepsLines(bytes);
      if |bytes| > 0 && !EndsWithNewline(bytes) {
        bytes := bytes + [NEWLINE];
      }
    }

    /** The source panics on an empty id. */
    method WriteMessageID(id: string)
      requires id != ""
      modifies this`messageIDs
      ensures messageIDs == old(messageIDs) + [id]
    {
      messageIDs := messageIDs + [id];
    }

    method WriteErrorReason(reason: string)
      modifies this`reason
      ensures this.reason == old(this.reason) + if reason == "" then [] else [reason]
    {
      if reason != "" {
        this.reason := this.reason + [reason];
      }
    }

    /** The buffer holds the lines, ids and reasons of exactly these callbacks. */
    ghost predicate HoldsExactly(resp: Response, events: seq<Event>)
      reads this
    {
      Lines(bytes) == LinesOf(events) && messageIDs == IdsOf(resp, events) && reason == ReasonsOf(resp, events)
    }

    /** Write one callback into the buffer. */
    method Record(resp: Response, ghost before: seq<Event>, e: Event)
      requires HoldsExactly(resp, before)
      modifies this
      ensures HoldsExactly(resp, before + [e])
    {
      LinesOfMore(before, e);
      IdsOfMore(resp, before, e);
      ReasonsOfMore(resp, before, e);
      WriteNewByteBufferLine(e.bytes);
      if e.OnMeta? {
        WriteMessageID(IdOf(resp, e));
        if e.offset in resp.failures {
          WriteErrorReason(resp.failures[e.offset].error);
        }
      }
    }
  }

  // ---------- the shape of a walk ----------

  /** A payload directly follows the meta line of its operation. */
  ghost predicate Paired(events: seq<Event>) {
    PairedAfter(MetaDue(0), events)
  }

  /** A payload callback comes right after the meta callback of its operation, or first when that was before. */
  ghost predicate PairedAfter(st: State, events: seq<Event>)
    requires st.PayloadDue? ==> st.count > 0
  {
    forall i | 0 <= i < |events| && events[i].OnPayload? :: PairedAt(st, events, i)
  }

  predicate PairedAt(st: State, events: seq<Event>, i: nat)
    requires (st.PayloadDue? ==> st.count > 0) && i < |events|
  {
    if i == 0 then st.PayloadDue? && events[i].offset == st.count - 1 && events[i].info == st.info
    else events[i - 1].OnMeta? && events[i - 1].offset == events[i].offset && events[i - 1].info == events[i].info
  }

  lemma TurnIsPaired(env: Env, skip: bool, st: State, line: Bytes, rest: seq<Event>)
    requires (st.PayloadDue? ==> st.count > 0) && Turn(env, skip, st, line).Some?
    requires PairedAfter(Turn(env, skip, st, line).value.1, rest)
    ensures PairedAfter(st, Turn(env, skip, st, line).value.0 + rest)
  {
    var (now, st') := Turn(env, skip, st, line).value;
    var events := now + rest;
    forall i | 0 <= i < |events| && events[i].OnPayload? ensures PairedAt(st, events, i) {
      if i >= |now| {
        assert events[i] == rest[i - |now|] && PairedAt(st', rest, i - |now|);
      }
    }
  }

  lemma {:induction false} WalkIsPaired(env: Env, skip: nat -> bool, asked: nat, st: State, lines: seq<Bytes>)
    requires (st.PayloadDue? ==> st.count > 0) && WalkHooked(env, skip, asked, st, lines).Trace?
    ensures PairedAfter(st, WalkHooked(env, skip, asked, st, lines).events)
    decreases |lines|
  {
    if lines != [] {
      var st' := Turn(env, skip(asked), st, lines[0]).value.1;
      WalkIsPaired(env, skip, asked + 1, st', lines[1..]);
      TurnIsPaired(env, skip(asked), st, lines[0], WalkHooked(env, skip, asked + 1, st', lines[1..]).events);
    }
  }

  // ---------- splitting a response ----------

  /** The ids reported when the whole request failed. */
  function UnnamedAll(events: seq<Event>): seq<string> {
    if events == [] then []
    else UnnamedAll(events[..|events| - 1]) +
         if events[|events| - 1].OnMeta? then [Unnamed(events[|events| - 1].offset)] else []
  }

  method HandleBulkResponse(env: Env, resp: Response, data: Bytes,
                            successItems: BulkBuffer, nonRetryableItems: BulkBuffer, retryableItems: BulkBuffer)
    returns (walk: Trace)
    requires successItems != nonRetryableItems && nonRetryableItems != retryableItems && successItems != retryableItems
    modifies successItems, nonRetryableItems, retryableItems
    ensures walk == Walk(env, data)
    ensures walk.Trace? && !resp.failed ==>
              && successItems.HoldsExactly(resp, Select(resp, Succeeded, walk.events))
              && retryableItems.HoldsExactly(resp, Select(resp, Retryable, walk.events))
              && nonRetryableItems.HoldsExactly(resp, Select(resp, Rejected, walk.events))
    ensures walk.Trace? && resp.failed ==>
              && successItems.bytes == retryableItems.bytes == nonRetryableItems.bytes == []
              && successItems.messageIDs == retryableItems.messageIDs == []
              && nonRetryableItems.messageIDs == UnnamedAll(walk.events)
  {
    nonRetryableItems.ResetData();
    retryableItems.ResetData();
    successItems.ResetData();
    var never := (asked: nat) => false;
    NeverSkipping(env, never, 0, MetaDue(0), Lines(data));
    var operations;
    walk, operations := WalkBulkRequests(env, never, data);
    if walk.Panic? {
      return;
    }
    WalkIsPaired(env, never, 0, MetaDue(0), Lines(data));
    if resp.failed {
      ReportAllFailed(walk.events, nonRetryableItems);
    } else {
      SplitItems(resp, walk.events, successItems, nonRetryableItems, retryableItems);
    }
  }

  method ReportAllFailed(events: seq<Event>, nonRetryableItems: BulkBuffer)
    requires nonRetryableItems.messageIDs == []
    modifies nonRetryableItems`messageIDs
    ensures nonRetryableItems.messageIDs == UnnamedAll(events)
  {
    for i := 0 to |events|
      invariant nonRetryableItems.messageIDs == UnnamedAll(events[..i])
    {
      assert events[..i + 1][..i] == events[..i];
      if events[i].OnMeta? {
        nonRetryableItems.WriteMessageID(Unnamed(events[i].offset));
      }
    }
    assert events[..|events|] == events;
  }

  /** `matched` and `retryable` are set by a meta line and read again by its payload. */
  method SplitItems(resp: Response, events: seq<Event>,
                    successItems: BulkBuffer, nonRetryableItems: BulkBuffer, retryableItems: BulkBuffer)
    requires successItems != nonRetryableItems && nonRetryableItems != retryableItems && successItems != retryableItems
    requires Paired(events)
    requires successItems.HoldsExactly(resp, []) && retryableItems.HoldsExactly(resp, [])
    requires nonRetryableItems.HoldsExactly(resp, [])
    modifies successItems, nonRetryableItems, retryableItems
    ensures successItems.HoldsExactly(resp, Select(resp, Succeeded, events))
    ensures retryableItems.HoldsExactly(resp, Select(resp, Retryable, events))
    ensures nonRetryableItems.HoldsExactly(resp, Select(resp, Rejected, events))
  {
    var matched, retryable := false, false;
    ghost var yes: seq<Event>, again: seq<Event>, no: seq<Event> := [], [], [];
    for i := 0 to |events|
      invariant i > 0 ==> (matched <==> events[i - 1].offset in resp.failures)
      invariant i > 0 && matched ==> (retryable <==> ClassOf(resp, events[i - 1].offset) == Retryable)
      invariant yes == Select(resp, Succeeded, events[..i]) && successItems.HoldsExactly(resp, yes)
      invariant again == Select(resp, Retryable, events[..i]) && retryableItems.HoldsExactly(resp, again)
      invariant no == Select(resp, Rejected, events[..i]) && nonRetryableItems.HoldsExactly(resp, no)
    {
      var e := events[i];
      if e.OnMeta? {
        matched := e.offset in resp.failures;
        if matched {
          retryable := resp.retry(resp.failures[e.offset].status, resp.failures[e.offset].error);
        }
      }
      SelectNext(resp, events, i);
      if matched {
        if retryable {
          retryableItems.Record(resp, again, e);
          again := again + [e];
        } else {
          nonRetryableItems.Record(resp, no, e);
          no := no + [e];
        }
      } else {
        successItems.Record(resp, yes, e);
        yes := yes + [e];
      }
    }
    assert events[..|events|] == events;
  }

  /** Selecting one more callback. */
  function Grown(resp: Response, cls: Class, selected: seq<Event>, e: Event): seq<Event> {
    if ClassOf(resp, e.offset) == cls then selected + [e] else selected
  }

  lemma SelectNext(resp: Response, events: seq<Event>, i: nat)
    requires i < |events|
    ensures forall cls ::
              Select(resp, cls, events[..i + 1]) == Grown(resp, cls, Select(resp, cls, events[..i]), events[i])
  {
    assert events[..i + 1] == events[..i] + [events[i]];
    forall cls
      ensures Select(resp, cls, events[..i + 1]) == Grown(resp, cls, Select(resp, cls, events[..i]), events[i]) {
      SelectMore(resp, cls, events[..i], events[i]);
    }
  }

  // ---------- conservation ----------

  lemma {:induction false} MetasCounted(env: Env, resp: Response, st: State, lines: seq<Bytes>)
    requires (st.PayloadDue? ==> st.count > 0) && WalkLines(env, st, lines).Trace?
    ensures var t := WalkLines(env, st, lines); t.count == st.count + |IdsOf(resp, t.events)|
    decreases |lines|
  {
    if lines != [] {
      var r := Step(env, st, lines[0]);
      MetasCounted(env, resp, r.value.1, lines[1..]);
      var t, rest := WalkLines(env, st, lines), WalkLines(env, r.value.1, lines[1..]);
      assert t.events[1..] == rest.events;
    }
  }

  lemma {:induction false} SplitConservesIds(resp: Response, events: seq<Event>)
    ensures |IdsOf(resp, Select(resp, Succeeded, events))| + |IdsOf(resp, Select(resp, Retryable, events))|
              + |IdsOf(resp, Select(resp, Rejected, events))| == |IdsOf(resp, events)|
  {
    if events != [] {
      var e, rest := events[0], events[1..];
      SplitConservesIds(resp, rest);
      var cls := ClassOf(resp, e.offset);
      assert Select(resp, cls, events)[1..] == Select(resp, cls, rest);
    }
  }

  /** The parts of a list by class, as one multiset. */
  ghost function Parts(resp: Response, events: seq<Event>): multiset<Event> {
    multiset(Select(resp, Succeeded, events)) + multiset(Select(resp, Retryable, events))
      + multiset(Select(resp, Rejected, events))
  }

  lemma SelectStep(resp: Response, cls: Class, e: Event, rest: seq<Event>)
    ensures multiset(Select(resp, cls, [e] + rest))
         == multiset(Select(resp, cls, rest)) + if ClassOf(resp, e.offset) == cls then multiset{e} else multiset{}
  {
    assert ([e] + rest)[1..] == rest;
  }

  lemma PartsStep(resp: Response, e: Event, rest: seq<Event>)
    ensures Parts(resp, [e] + rest) == Parts(resp, rest) + multiset{e}
  {
    SelectStep(resp, Succeeded, e, rest);
    SelectStep(resp, Retryable, e, rest);
    SelectStep(resp, Rejected, e, rest);
  }

  lemma {:induction false} SplitConserves(resp: Response, events: seq<Event>)
    ensures Parts(resp, events) == multiset(events)
  {
    if events != [] {
      var e, rest := events[0], events[1..];
      SplitConserves(resp, rest);
      PartsStep(resp, e, rest);
      assert events == [e] + rest;
    }
  }

  /** Which buffer a callback lands in, as often as it was made: that of successes when the response has
      no failed item at its offset, else that of the operations to retry when the rules say so for the
      status and the error of the item, else that of the rejected. */
  lemma {:induction false} SelectedIff(resp: Response, events: seq<Event>, e: Event)
    ensures var made, failed := multiset(events)[e], e.offset in resp.failures;
            var again := failed && resp.retry(resp.failures[e.offset].status, resp.failures[e.offset].error);
            && multiset(Select(resp, Succeeded, events))[e] == (if !failed then made else 0)
            && multiset(Select(resp, Retryable, events))[e] == (if again then made else 0)
            && multiset(Select(resp, Rejected, events))[e] == (if failed && !again then made else 0)
  {
    if events != [] {
      var first, rest := events[0], events[1..];
      SelectedIff(resp, rest, e);
      assert events == [first] + rest;
      SelectStep(resp, Succeeded, first, rest);
      SelectStep(resp, Retryable, first, rest);
      SelectStep(resp, Rejected, first, rest);
    }
  }

  /** The id recorded for an operation: the id of its failed item or else its own, and its number when
      that is empty. */
  lemma {:induction false} IdRecorded(resp: Response, events: seq<Event>, i: nat)
    requires i < |events| && events[i].OnMeta?
    ensures var e, k := events[i], |IdsOf(resp, events[..i])|;
            && k < |IdsOf(resp, events)|
            && IdsOf(resp, events)[k] ==
                 (if e.offset !in resp.failures && e.info.id != "" then e.info.id
                  else if e.offset in resp.failures && resp.failures[e.offset].id != ""
                    then resp.failures[e.offset].id
                  else "N/A(" + Json.Naturals(e.offset) + ")")
    decreases i
  {
    if i > 0 {
      IdRecorded(resp, events[1..], i - 1);
      assert events[..i][1..] == events[1..][..i - 1];
    }
  }

  /** Every callback lands in exactly one buffer, and the three message counts add up to the number
      of operations walked. */
  lemma EveryOperationOnce(env: Env, resp: Response, data: Bytes)
    requires Walk(env, data).Trace?
    ensures var w := Walk(env, data);
            && multiset(Select(resp, Succeeded, w.events)) + multiset(Select(resp, Retryable, w.events))
                 + multiset(Select(resp, Rejected, w.events)) == multiset(w.events)
            && |IdsOf(resp, Select(resp, Succeeded, w.events))| + |IdsOf(resp, Select(resp, Retryable, w.events))|
                 + |IdsOf(resp, Select(resp, Rejected, w.events))| == w.count
  {
    SplitConserves(resp, Walk(env, data).events);
    SplitConservesIds(resp, Walk(env, data).events);
    MetasCounted(env, resp, MetaDue(0), Lines(data));
  }

  // ---------- resending ----------

  /** A filled-in meta line is one line and is understood the same way when read again. */
  ghost predicate Stable(env: Env) {
    forall line {:trigger Resolve(env, line)} ::
      var r := Resolve(env, line);
      Clean(line) && r.Some? ==> Clean(r.value.0) && Resolve(env, r.value.0) == r
  }

  /** Requests sent to the bulk endpoint itself fill nothing in. */
  lemma BareEndpointIsStable(env: Env)
    requires env.urlIndex == ""
    ensures Stable(env)
  {
  }

  /** The same callbacks, up to the numbering of operations. */
  ghost predicate SameCalls(a: seq<Event>, b: seq<Event>) {
    |a| == |b| && forall i | 0 <= i < |a| ::
      a[i].OnMeta? == b[i].OnMeta? && a[i].bytes == b[i].bytes && a[i].info == b[i].info
  }

  /** Where a walk over the selected lines stands when the full walk is in state `st`. */
  function SelectedState(resp: Response, cls: Class, st: State, k: nat): State
    requires st.PayloadDue? ==> st.count > 0
  {
    if st.PayloadDue? && ClassOf(resp, st.count - 1) == cls then PayloadDue(st.info, k) else MetaDue(k)
  }

  /** Walking the lines of these callbacks from state `st` reports them again. */
  ghost predicate Replays(env: Env, st: State, events: seq<Event>)
    requires st.PayloadDue? ==> st.count > 0
  {
    var again := WalkLines(env, st, LinesOf(events));
    again.Trace? && SameCalls(again.events, events)
  }

  ghost predicate ReplaysSelected(env: Env, resp: Response, cls: Class, st: State, lines: seq<Bytes>, k: nat)
    requires st.PayloadDue? ==> st.count > 0
  {
    WalkLines(env, st, lines).Trace? && (SelectedState(resp, cls, st, k).PayloadDue? ==> k > 0)
    ==> Replays(env, SelectedState(resp, cls, st, k), Select(resp, cls, WalkLines(env, st, lines).events))
  }

  lemma {:induction false} SelectedWalk(env: Env, resp: Response, cls: Class, st: State, lines: seq<Bytes>, k: nat)
    requires Stable(env) && (forall l | l in lines :: Clean(l)) && (st.PayloadDue? ==> st.count > 0)
    ensures ReplaysSelected(env, resp, cls, st, lines, k)
    decreases |lines|
  {
    if lines != [] && Step(env, st, lines[0]).Some? {
      var (e, st') := Step(env, st, lines[0]).value;
      SelectedWalk(env, resp, cls, st', lines[1..], NextCount(resp, cls, e, k));
      if ClassOf(resp, e.offset) == cls {
        SelectedHere(env, resp, cls, st, lines, k);
      } else {
        SelectedElsewhere(env, resp, cls, st, lines, k);
      }
    }
  }

  function NextCount(resp: Response, cls: Class, e: Event, k: nat): nat {
    if ClassOf(resp, e.offset) == cls && e.OnMeta? then k + 1 else k
  }

  /** What is selected from a walk, by its first line. */
  lemma SelectedFirst(env: Env, resp: Response, cls: Class, st: State, lines: seq<Bytes>)
    requires (st.PayloadDue? ==> st.count > 0) && lines != [] && WalkLines(env, st, lines).Trace?
    ensures var (e, st') := Step(env, st, lines[0]).value;
            && WalkLines(env, st', lines[1..]).Trace?
            && Select(resp, cls, WalkLines(env, st, lines).events)
               == (if ClassOf(resp, e.offset) == cls then [e] else [])
                 + Select(resp, cls, WalkLines(env, st', lines[1..]).events)
  {
    var (e, st') := Step(env, st, lines[0]).value;
    var events := WalkLines(env, st', lines[1..]).events;
    assert WalkLines(env, st, lines).events == [e] + events && ([e] + events)[1..] == events;
  }

  lemma SelectedHere(env: Env, resp: Response, cls: Class, st: State, lines: seq<Bytes>, k: nat)
    requires Stable(env) && (st.PayloadDue? ==> st.count > 0) && lines != [] && Clean(lines[0])
    requires Step(env, st, lines[0]).Some?
    requires var (e, st') := Step(env, st, lines[0]).value;
             ClassOf(resp, e.offset) == cls
             && ReplaysSelected(env, resp, cls, st', lines[1..], NextCount(resp, cls, e, k))
    ensures ReplaysSelected(env, resp, cls, st, lines, k)
  {
    if WalkLines(env, st, lines).Trace? && (SelectedState(resp, cls, st, k).PayloadDue? ==> k > 0) {
      var (e, st') := Step(env, st, lines[0]).value;
      SelectedFirst(env, resp, cls, st, lines);
      SelectedStep(env, resp, cls, st, lines[0], k, Select(resp, cls, WalkLines(env, st', lines[1..]).events));
    }
  }

  lemma SelectedElsewhere(env: Env, resp: Response, cls: Class, st: State, lines: seq<Bytes>, k: nat)
    requires (st.PayloadDue? ==> st.count > 0) && lines != [] && Step(env, st, lines[0]).Some?
    requires var (e, st') := Step(env, st, lines[0]).value;
             ClassOf(resp, e.offset) != cls && ReplaysSelected(env, resp, cls, st', lines[1..], k)
    ensures ReplaysSelected(env, resp, cls, st, lines, k)
  {
    ElsewhereState(env, resp, cls, st, lines[0], k);
    if WalkLines(env, st, lines).Trace? {
      SelectedFirst(env, resp, cls, st, lines);
    }
  }

  /** A callback that is not selected leaves the walk over the selected ones where it is. */
  lemma ElsewhereState(env: Env, resp: Response, cls: Class, st: State, line: Bytes, k: nat)
    requires (st.PayloadDue? ==> st.count > 0) && Step(env, st, line).Some?
    requires ClassOf(resp, Step(env, st, line).value.0.offset) != cls
    ensures SelectedState(resp, cls, Step(env, st, line).value.1, k) == SelectedState(resp, cls, st, k)
  {
  }

  lemma SelectedStep(env: Env, resp: Response, cls: Class, st: State, line: Bytes, k: nat, selected: seq<Event>)
    requires Stable(env) && Clean(line) && (st.PayloadDue? ==> st.count > 0) && Step(env, st, line).Some?
    requires ClassOf(resp, Step(env, st, line).value.0.offset) == cls
    requires SelectedState(resp, cls, st, k).PayloadDue? ==> k > 0
    requires var (e, st') := Step(env, st, line).value;
             SelectedState(resp, cls, st', if e.OnMeta? then k + 1 else k).PayloadDue? ==> e.OnMeta? || k > 0
    requires var (e, st') := Step(env, st, line).value;
             Replays(env, SelectedState(resp, cls, st', if e.OnMeta? then k + 1 else k), selected)
    ensures Replays(env, SelectedState(resp, cls, st, k), [Step(env, st, line).value.0] + selected)
  {
    var (e, st') := Step(env, st, line).value;
    var next := SelectedState(resp, cls, st', if e.OnMeta? then k + 1 else k);
    var e' := if e.OnMeta? then OnMeta(e.bytes, e.info, k) else OnPayload(e.bytes, e.info, k - 1);
    assert st.MetaDue? ==> Resolve(env, e.bytes) == Resolve(env, line);
    assert Clean(e.bytes);
    assert Step(env, SelectedState(resp, cls, st, k), e.bytes) == Some((e', next));
    ReplayMore(env, SelectedState(resp, cls, st, k), e, e', next, selected);
  }

  lemma ReplayMore(env: Env, st: State, e: Event, e': Event, next: State, selected: seq<Event>)
    requires (st.PayloadDue? ==> st.count > 0) && (next.PayloadDue? ==> next.count > 0) && Clean(e.bytes)
    requires Step(env, st, e.bytes) == Some((e', next)) && e.OnMeta? == e'.OnMeta? && e.bytes == e'.bytes
    requires e.info == e'.info
    requires Replays(env, next, selected)
    ensures Replays(env, st, [e] + selected)
  {
    LinesOfClean(e.bytes);
    assert ([e] + selected)[1..] == selected;
    assert LinesOf([e] + selected) == [e.bytes] + LinesOf(selected);
    assert ([e.bytes] + LinesOf(selected))[1..] == LinesOf(selected);
    SameCallsMore(e', WalkLines(env, next, LinesOf(selected)).events, e, selected);
  }

  lemma SameCallsMore(e: Event, a: seq<Event>, f: Event, b: seq<Event>)
    requires SameCalls(a, b) && e.OnMeta? == f.OnMeta? && e.bytes == f.bytes && e.info == f.info
    ensures SameCalls([e] + a, [f] + b)
  {
  }

  /** Walking the retryable buffer again, terminated as it is before resending, reports exactly the
      retryable operations: the same meta and payload lines in the same order. */
  lemma ResendIsExact(env: Env, resp: Response, data: Bytes, buffer: Bytes)
    requires Stable(env) && Walk(env, data).Trace?
    requires Lines(buffer) == LinesOf(Select(resp, Retryable, Walk(env, data).events))
    ensures var again := Walk(env, Terminated(buffer));
            && again.Trace?
            && SameCalls(again.events, Select(resp, Retryable, Walk(env, data).events))
            && again.count == |IdsOf(resp, Select(resp, Retryable, Walk(env, data).events))|
  {
    LinesAreClean(data);
    TerminatedKeepsLines(buffer);
    SelectedWalk(env, resp, Retryable, MetaDue(0), Lines(data), 0);
    var selected, again := Select(resp, Retryable, Walk(env, data).events), Walk(env, Terminated(buffer));
    MetasCounted(env, resp, MetaDue(0), Lines(buffer));
    SameCallsSameCount(resp, again.events, selected);
  }

  lemma {:induction false} SameCallsSameCount(resp: Response, a: seq<Event>, b: seq<Event>)
    requires SameCalls(a, b)
    ensures |IdsOf(resp, a)| == |IdsOf(resp, b)|
  {
    if a != [] { SameCallsSameCount(resp, a[1..], b[1..]); }
  }
}
