/** Newline-delimited bulk bodies: lines, line-wise buffers, and the walk over meta and payload lines. */
module BulkLines {
  import Separated

  type Bytes = string

  const NEWLINE := '\n'

  /** The pieces between newlines; always at least one. */
  function Pieces(d: Bytes): (r: seq<Bytes>)
    ensures |r| >= 1
  {
    Separated.Split(d, NEWLINE)
  }

  function NonEmpty(ls: seq<Bytes>): seq<Bytes> {
    if ls == [] then []
    else if ls[0] == [] then NonEmpty(ls[1..])
    else [ls[0]] + NonEmpty(ls[1..])
  }

  /** The lines a walk looks at. */
  function Lines(d: Bytes): seq<Bytes> {
    NonEmpty(Pieces(d))
  }

  /** One line: not empty, and no newline in it. */
  predicate Clean(l: Bytes) {
    l != [] && NEWLINE !in l
  }

  function EndsWithNewline(d: Bytes): bool {
    |d| > 0 && d[|d| - 1] == NEWLINE
  }

  /** Append a chunk, separating it from what is there by a newline unless one is there already. */
  function AddLine(buf: Bytes, data: Bytes): Bytes {
    if data == [] then buf
    else if buf == [] || EndsWithNewline(buf) || data[0] == NEWLINE then buf + data
    else buf + [NEWLINE] + data
  }

  function Terminated(buf: Bytes): Bytes {
    if buf != [] && !EndsWithNewline(buf) then buf + [NEWLINE] else buf
  }

  /** Replace every pair of newlines by one, left to right, without rescanning. */
  function Compact(d: Bytes): Bytes {
    if |d| >= 2 && d[0] == NEWLINE && d[1] == NEWLINE then [NEWLINE] + Compact(d[2..])
    else if d == [] then []
    else [d[0]] + Compact(d[1..])
  }

  lemma PiecesAtNewline(a: Bytes, b: Bytes)
    ensures Pieces(a + [NEWLINE] + b) == Pieces(a) + Pieces(b)
  {
    Separated.SplitAtSeparator(a, b, NEWLINE);
    assert a + [NEWLINE] + b == a + ([NEWLINE] + b);
  }

  lemma {:induction false} NonEmptyOfConcat(a: seq<Bytes>, b: seq<Bytes>)
    ensures NonEmpty(a + b) == NonEmpty(a) + NonEmpty(b)
  {
    if a == [] {
      assert a + b == b;
    } else {
      assert (a + b)[1..] == a[1..] + b;
      NonEmptyOfConcat(a[1..], b);
    }
  }

  /** A newline separates lines, wherever it stands. */
  lemma LinesAtNewline(a: Bytes, b: Bytes)
    ensures Lines(a + [NEWLINE] + b) == Lines(a) + Lines(b)
  {
    PiecesAtNewline(a, b);
    NonEmptyOfConcat(Pieces(a), Pieces(b));
  }

  lemma LinesOfEmpty()
    ensures Lines([]) == []
  {
  }

  lemma LinesOfClean(l: Bytes)
    requires Clean(l)
    ensures Lines(l) == [l]
  {
    Separated.SplitFree(l, NEWLINE);
    assert NonEmpty([l]) == [l] + NonEmpty([]);
  }

  lemma {:induction false} PiecesAreClean(d: Bytes)
    ensures forall l | l in Pieces(d) :: NEWLINE !in l
  {
    if d != [] {
      PiecesAreClean(d[1..]);
      var rest := Pieces(d[1..]);
      assert rest[0] in rest;
    }
  }

  lemma {:induction false} NonEmptyMembers(ls: seq<Bytes>)
    ensures forall l | l in NonEmpty(ls) :: l in ls && l != []
  {
    if ls != [] { NonEmptyMembers(ls[1..]); }
  }

  lemma LinesAreClean(d: Bytes)
    ensures forall l | l in Lines(d) :: Clean(l)
  {
    PiecesAreClean(d);
    NonEmptyMembers(Pieces(d));
  }

  /** Whatever the chunk and the buffer, appending a chunk appends its lines. */
  lemma AddLineAppends(buf: Bytes, data: Bytes)
    ensures Lines(AddLine(buf, data)) == Lines(buf) + Lines(data)
  {
    LinesOfEmpty();
    if data == [] {
    } else if buf == [] {
      assert buf + data == data;
    } else if EndsWithNewline(buf) {
      var b := buf[..|buf| - 1];
      assert buf + data == b + [NEWLINE] + data;
      assert buf == b + [NEWLINE] + [];
      LinesAtNewline(b, data);
      LinesAtNewline(b, []);
    } else if data[0] == NEWLINE {
      var d := data[1..];
      assert buf + data == buf + [NEWLINE] + d;
      assert data == [] + [NEWLINE] + d;
      LinesAtNewline(buf, d);
      LinesAtNewline([], d);
    } else {
      LinesAtNewline(buf, data);
    }
  }

  lemma TerminatedKeepsLines(buf: Bytes)
    ensures Lines(Terminated(buf)) == Lines(buf)
  {
    LinesOfEmpty();
    assert buf + [NEWLINE] == buf + [NEWLINE] + [];
    LinesAtNewline(buf, []);
  }

  /** Removing doubled newlines never changes the lines. */
  lemma {:induction false} CompactKeepsLines(d: Bytes)
    ensures NonEmpty(Pieces(Compact(d))[1..]) == NonEmpty(Pieces(d)[1..])
    ensures Pieces(Compact(d))[0] == Pieces(d)[0]
    ensures Lines(Compact(d)) == Lines(d)
  {
    if |d| >= 2 && d[0] == NEWLINE && d[1] == NEWLINE {
      var rest := d[2..];
      CompactKeepsLines(rest);
      assert d == [] + [NEWLINE] + ([NEWLINE] + rest);
      assert [NEWLINE] + rest == [] + [NEWLINE] + rest;
      PiecesAtNewline([], [NEWLINE] + rest);
      PiecesAtNewline([], rest);
      PiecesAtNewline([], Compact(rest));
      assert Pieces(d) == [[]] + ([[]] + Pieces(rest));
      assert Pieces(Compact(d)) == [[]] + Pieces(Compact(rest));
      assert NonEmpty([[]] + Pieces(rest)) == NonEmpty(Pieces(rest));
    } else if d != [] {
      CompactKeepsLines(d[1..]);
      assert Compact(d)[1..] == Compact(d[1..]);
    }
  }
}

/** The walk over a bulk body, and the split of its operations by the outcome of each. */
module BulkWalk {
  import opened Options
  import opened BulkLines

  datatype Meta = Meta(action: string, index: string, typeName: string, id: string, routing: string)

  /** What the walk cannot see: the meta-line parser, the meta-line editor and the request path. */
  datatype Env = Env(parse: Bytes -> Option<Meta>, update: (string, Bytes, string, string) -> Option<Bytes>,
                     urlIndex: string, urlType: string)

  /** A meta line with the index and type of the path filled in where it has none; nothing when the
      walk panics on it. */
  function Resolve(env: Env, line: Bytes): Option<(Bytes, Meta)> {
    var m := env.parse(line);
    if m.None? then None
    else if m.value.index != "" then Some((line, m.value))
    else if env.urlIndex == "" then None
    else
      var fillType := m.value.typeName == "" && env.urlType != "";
      var line' := env.update(m.value.action, line, env.urlIndex, if fillType then env.urlType else "");
      if line'.None? then None
      else Some((line'.value, m.value.(index := env.urlIndex,
                                       typeName := if fillType then env.urlType else m.value.typeName)))
  }

  /** One callback of the walk, with the number of the operation it belongs to. */
  datatype Event =
    | OnMeta(bytes: Bytes, info: Meta, offset: nat)
    | OnPayload(bytes: Bytes, info: Meta, offset: nat)

  /** The state between two lines: whether a meta line is due, else the operation awaiting its payload. */
  datatype State = MetaDue(count: nat) | PayloadDue(info: Meta, count: nat)

  function Step(env: Env, st: State, line: Bytes): Option<(Event, State)>
    requires st.PayloadDue? ==> st.count > 0
  {
    match st
    case MetaDue(count) =>
      var r := Resolve(env, line);
      if r.None? then None
      else
        var (line', info) := r.value;
        Some((OnMeta(line', info, count),
              if info.action == "delete" then MetaDue(count + 1) else PayloadDue(info, count + 1)))
    case PayloadDue(info, count) =>
      Some((OnPayload(line, info, count - 1), MetaDue(count)))
  }

  datatype Trace = Trace(events: seq<Event>, count: nat) | Panic

  function Then(e: Event, rest: Trace): Trace {
    if rest.Panic? then Panic else Trace([e] + rest.events, rest.count)
  }

  function WalkLines(env: Env, st: State, lines: seq<Bytes>): Trace
    requires st.PayloadDue? ==> st.count > 0
    decreases |lines|
  {
    if lines == [] then Trace([], st.count)
    else
      var r := Step(env, st, lines[0]);
      if r.None? then Panic else Then(r.value.0, WalkLines(env, r.value.1, lines[1..]))
  }

  function Walk(env: Env, data: Bytes): Trace {
    WalkLines(env, MetaDue(0), Lines(data))
  }

  // ---------- the hook for each line ----------

  /** What one line adds when the hook was asked about it: a skipped line is passed over, and the next
      one is taken for a meta line. */
  function Turn(env: Env, skip: bool, st: State, line: Bytes): Option<(seq<Event>, State)>
    requires st.PayloadDue? ==> st.count > 0
  {
    if skip then Some(([], MetaDue(st.count)))
    else
      var r := Step(env, st, line);
      if r.None? then None else Some(([r.value.0], r.value.1))
  }

  function After(done: seq<Event>, rest: Trace): Trace {
    if rest.Panic? then Panic else Trace(done + rest.events, rest.count)
  }

  /** `skip` gives the answers of the hook, call by call; `asked` counts the calls so far. */
  function WalkHooked(env: Env, skip: nat -> bool, asked: nat, st: State, lines: seq<Bytes>): Trace
    requires st.PayloadDue? ==> st.count > 0
    decreases |lines|
  {
    if lines == [] then Trace([], st.count)
    else
      var r := Turn(env, skip(asked), st, lines[0]);
      if r.None? then Panic else After(r.value.0, WalkHooked(env, skip, asked + 1, r.value.1, lines[1..]))
  }

  /** A hook that never skips is no hook. */
  lemma {:induction false} NeverSkipping(env: Env, skip: nat -> bool, asked: nat, st: State, lines: seq<Bytes>)
    requires (st.PayloadDue? ==> st.count > 0) && forall n :: !skip(n)
    ensures WalkHooked(env, skip, asked, st, lines) == WalkLines(env, st, lines)
    decreases |lines|
  {
    if lines != [] {
      var r := Step(env, st, lines[0]);
      if r.Some? { NeverSkipping(env, skip, asked + 1, r.value.1, lines[1..]); }
    }
  }

  lemma HookedOneLine(env: Env, skip: nat -> bool, asked: nat, st: State, done: seq<Event>, line: Bytes,
                      rest: seq<Bytes>)
    requires st.PayloadDue? ==> st.count > 0
    ensures var r := Turn(env, skip(asked), st, line);
            After(done, WalkHooked(env, skip, asked, st, [line] + rest)) ==
              if r.None? then Panic else After(done + r.value.0, WalkHooked(env, skip, asked + 1, r.value.1, rest))
  {
    assert ([line] + rest)[1..] == rest;
    var r := Turn(env, skip(asked), st, line);
    if r.Some? {
      var t := WalkHooked(env, skip, asked + 1, r.value.1, rest);
      if t.Trace? { assert done + (r.value.0 + t.events) == done + r.value.0 + t.events; }
    }
  }

  lemma NonEmptyFrom(lines: seq<Bytes>, i: nat)
    requires i < |lines|
    ensures NonEmpty(lines[i..]) == (if lines[i] == [] then [] else [lines[i]]) + NonEmpty(lines[i + 1..])
  {
    assert lines[i..][1..] == lines[i + 1..];
  }

  // ---------- the loop ----------

  /** The operations that are reported as done: a delete by its meta line, any other by its payload. */
  function Finished(events: seq<Event>): seq<Meta> {
    if events == [] then []
    else Finished(events[..|events| - 1]) + FinishedBy(events[|events| - 1])
  }

  function FinishedBy(e: Event): seq<Meta> {
    if e.OnPayload? || e.info.action == "delete" then [e.info] else []
  }

  lemma FinishedMore(done: seq<Event>, e: Event)
    ensures Finished(done + [e]) == Finished(done) + FinishedBy(e)
  {
    assert (done + [e])[..|done|] == done;
  }

  lemma {:induction false} FinishedFirst(e: Event, rest: seq<Event>)
    ensures Finished([e] + rest) == FinishedBy(e) + Finished(rest)
    decreases |rest|
  {
    var all := [e] + rest;
    if rest == [] {
      assert all[..0] == [];
    } else {
      var init := rest[..|rest| - 1];
      assert all[..|all| - 1] == [e] + init;
      FinishedFirst(e, init);
    }
  }

  /** Whatever the hook says, no operation is reported as done twice, nor one that was not begun. */
  lemma {:induction false} FinishedOnce(env: Env, skip: nat -> bool, asked: nat, st: State, lines: seq<Bytes>)
    requires (st.PayloadDue? ==> st.count > 0) && WalkHooked(env, skip, asked, st, lines).Trace?
    ensures var t := WalkHooked(env, skip, asked, st, lines);
            |Finished(t.events)| <= t.count - st.count + if st.PayloadDue? then 1 else 0
    decreases |lines|
  {
    if lines != [] {
      var (now, st') := Turn(env, skip(asked), st, lines[0]).value;
      var rest := WalkHooked(env, skip, asked + 1, st', lines[1..]).events;
      FinishedOnce(env, skip, asked + 1, st', lines[1..]);
      if now == [] {
        assert now + rest == rest;
      } else {
        FinishedFirst(now[0], rest);
        assert now + rest == [now[0]] + rest;
      }
    }
  }

  function StateOf(nextIsMeta: bool, info: Meta, docCount: nat): State {
    if nextIsMeta then MetaDue(docCount) else PayloadDue(info, docCount)
  }

  /** The local variables of the walk. */
  datatype Vars = Vars(nextIsMeta: bool, info: Meta, docCount: nat, events: seq<Event>, operations: seq<Meta>)

  /** One line that is not empty; nothing when the walk panics. */
  method WalkLine(env: Env, skip: bool, line: Bytes, vars: Vars) returns (r: Option<Vars>)
    requires !vars.nextIsMeta ==> vars.docCount > 0
    ensures var t := Turn(env, skip, StateOf(vars.nextIsMeta, vars.info, vars.docCount), line);
            && (r.None? <==> t.None?)
            && (r.Some? ==>
                  && StateOf(r.value.nextIsMeta, r.value.info, r.value.docCount) == t.value.1
                  && r.value.events == vars.events + t.value.0)
    ensures r.Some? && vars.operations == Finished(vars.events) ==> r.value.operations == Finished(r.value.events)
    ensures r.Some? && !r.value.nextIsMeta ==> r.value.docCount > 0
  {
    if skip {
      return Some(vars.(nextIsMeta := true));
    }
    if vars.nextIsMeta {
      var resolved := Resolve(env, line);
      if resolved.None? {
        return None;
      }
      var (bytes, info) := resolved.value;
      var e := OnMeta(bytes, info, vars.docCount);
      FinishedMore(vars.events, e);
      var operations := if info.action == "delete" then vars.operations + [info] else vars.operations;
      return Some(Vars(info.action == "delete", info, vars.docCount + 1, vars.events + [e], operations));
    } else {
      var e := OnPayload(line, vars.info, vars.docCount - 1);
      FinishedMore(vars.events, e);
      return Some(Vars(true, vars.info, vars.docCount, vars.events + [e], vars.operations + [vars.info]));
    }
  }

  /** What is still to be walked after the first lines. */
  ghost predicate StillToWalk(env: Env, skip: nat -> bool, asked: nat, vars: Vars, todo: seq<Bytes>, want: Trace) {
    && (!vars.nextIsMeta ==> vars.docCount > 0)
    && want == After(vars.events,
                     WalkHooked(env, skip, asked, StateOf(vars.nextIsMeta, vars.info, vars.docCount), todo))
  }

  method WalkBulkRequests(env: Env, skip: nat -> bool, data: Bytes) returns (r: Trace, operations: seq<Meta>)
    ensures r == WalkHooked(env, skip, 0, MetaDue(0), Lines(data))
    ensures r.Trace? ==> operations == Finished(r.events)
  {
    var lines := Pieces(data);
    var vars, asked := Vars(true, Meta("", "", "", "", ""), 0, [], []), 0;
    ghost var want := WalkHooked(env, skip, 0, MetaDue(0), Lines(data));
    assert lines[0..] == lines;
    for i := 0 to |lines|
      invariant StillToWalk(env, skip, asked, vars, NonEmpty(lines[i..]), want)
      invariant vars.operations == Finished(vars.events)
    {
      NonEmptyFrom(lines, i);
      if lines[i] != [] {
        HookedOneLine(env, skip, asked, StateOf(vars.nextIsMeta, vars.info, vars.docCount), vars.events, lines[i],
                      NonEmpty(lines[i + 1..]));
        var next := WalkLine(env, skip(asked), lines[i], vars);
        if next.None? {
          return Panic, [];
        }
        vars, asked := next.value, asked + 1;
      }
    }
    return Trace(vars.events, vars.docCount), vars.operations;
  }

  /** Compacting doubled newlines changes nothing the walk reports. */
  lemma CompactKeepsWalk(env: Env, data: Bytes)
    ensures Walk(env, Compact(data)) == Walk(env, data)
  {
    CompactKeepsLines(data);
  }
}
