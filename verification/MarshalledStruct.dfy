/** What the emitted method of a struct writes, when the code for each of its fields writes the field. */
module MarshalledStruct {
  import opened Options
  import opened Json
  import opened EmittedCode
  import opened Generator
  import opened Documents
  import opened Marshalled

  function MethodLocals(recv: GoValue): Locals {
    Locals(map["v" := recv], 0)
  }

  /** What the proofs below know of the receiver: typed fields, and the code for each written out. */
  ghost predicate FieldsWritten(m: Machine, p: Package, d: nat, fs: seq<Field>, recv: GoValue)
    requires AllSupported(p, fs) && recv.VStruct? && HasFields(p, recv, fs)
  {
    forall i | 0 <= i < |fs| ::
      ValueWritten(m, p, d, FieldExpr(fs[i]), fs[i].typ, MethodLocals(recv), recv.fields[fs[i].fieldName])
  }

  function FieldDoc(w: World, p: Package, f: Field, v: GoValue): Doc
    requires HasType(p, v, f.typ)
  {
    if PrintsNull(f, v) then Atom("null") else DocOf(w, p, v, f.typ)
  }

  predicate FieldSafe(w: World, p: Package, f: Field, v: GoValue)
    requires HasType(p, v, f.typ)
  {
    Present(w, f, v) && !PrintsNull(f, v) ==> Safe(w, p, v, f.typ)
  }

  // ---------- one field ----------

  /** Whether a comma is due: by the run-time flag, or by the position. */
  predicate CommaDue(check: bool, i: nat, st: State) {
    if check then !st.first else i != 0
  }

  function Comma(due: bool): string {
    if due then "," else ""
  }

  function AfterName(w: World, f: Field, check: bool, i: nat, st: State): State {
    State(st.out + (Comma(CommaDue(check, i, st)) + Name(w, f)), if check then false else st.first)
  }

  lemma PrefixRuns(m: Machine, d: nat, f: Field, check: bool, i: nat, l: Locals, st: State)
    ensures RunAll(m, d, PrefixCode(m.world, f, check, i), l, st) == Some(AfterName(m.world, f, check, i, st))
  {
    var name := Name(m.world, f);
    if check {
      RunOne(m, d, If(First, [SetFirst(false)] + [Emit(name)], [Emit("," + name)]), l, st);
      RunConcat(m, d, [SetFirst(false)], [Emit(name)], l, st);
      RunOne(m, d, SetFirst(false), l, st);
      RunOne(m, d, Emit(name), l, st.(first := false));
      RunOne(m, d, Emit("," + name), l, st);
    } else {
      RunOne(m, d, Emit(if i == 0 then name else "," + name), l, st);
    }
    assert "" + name == name;
  }

  lemma ValueCodeWrites(m: Machine, p: Package, d: nat, f: Field, l: Locals, v: GoValue)
    requires Supported(p, f.typ) && HasType(p, v, f.typ) && Eval(FieldExpr(f), l) == Some(v)
    requires ValueWritten(m, p, d, FieldExpr(f), f.typ, l, v)
    ensures Writes(m, d, ValueCode(p, f), l, PrintsNull(f, v) || Safe(m.world, p, v, f.typ),
                   Print(FieldDoc(m.world, p, f, v)))
  {
    ZeroOfUnderlying(f.typ);
    if !f.omitempty && Nillable(f.typ) {
      var test := If(IsNil(FieldExpr(f)), [Emit("null")], GenValue(p, FieldExpr(f), f.typ));
      WritesEmit(m, d, "null", l);
      forall st
        ensures RunAll(m, d, [test], l, st)
             == RunAll(m, d, if v.VNil? then [Emit("null")] else GenValue(p, FieldExpr(f), f.typ), l, st) {
        RunOne(m, d, test, l, st);
      }
    }
  }

  /** The emitted zero test tells whether the field differs from the zero value of its type, or what
      the method of its type says. */
  lemma {:induction false} TestRuns(p: Package, w: World, f: Field, l: Locals, st: State, v: GoValue)
    requires f.omitempty && FieldSupported(p, f) && Eval(FieldExpr(f), l) == Some(v) && HasType(p, v, f.typ)
    ensures Test(w, NonZero(FieldExpr(f), f.typ), l, st) == Some(Present(w, f, v))
  {
    ZeroOfUnderlying(f.typ);
    TypeOfUnderlying(p, v, f.typ);
  }

  lemma {:induction false} ZeroOfUnderlying(t: GoType)
    ensures ZeroValue(t) == ZeroValue(Underlying(t)) && !Underlying(t).Named?
  {
    if t.Named? { ZeroOfUnderlying(t.under); }
  }

  lemma {:induction false} TypeOfUnderlying(p: Package, v: GoValue, t: GoType)
    requires HasType(p, v, t)
    ensures HasType(p, v, Underlying(t))
    decreases t
  {
    if t.Named? { TypeOfUnderlying(p, v, t.under); }
  }

  /** The state after one field: nothing written when it is absent. */
  function AfterField(w: World, p: Package, f: Field, check: bool, i: nat, st: State, v: GoValue): State
    requires HasType(p, v, f.typ)
  {
    if Present(w, f, v) then Say(AfterName(w, f, check, i, st), Print(FieldDoc(w, p, f, v))) else st
  }

  lemma FieldRuns(m: Machine, p: Package, d: nat, f: Field, check: bool, i: nat, l: Locals, st: State, v: GoValue)
    requires FieldSupported(p, f) && Eval(FieldExpr(f), l) == Some(v) && HasType(p, v, f.typ)
    requires ValueWritten(m, p, d, FieldExpr(f), f.typ, l, v)
    ensures RunAll(m, d, FieldCode(m.world, p, f, check, i), l, st)
         == if FieldSafe(m.world, p, f, v) then Some(AfterField(m.world, p, f, check, i, st, v)) else None
  {
    var w := m.world;
    var code := PrefixCode(w, f, check, i) + ValueCode(p, f);
    RunConcat(m, d, PrefixCode(w, f, check, i), ValueCode(p, f), l, st);
    PrefixRuns(m, d, f, check, i, l, st);
    ValueCodeWrites(m, p, d, f, l, v);
    if f.omitempty {
      RunOne(m, d, If(NonZero(FieldExpr(f), f.typ), code, []), l, st);
      TestRuns(p, w, f, l, st, v);
    }
  }

  // ---------- all fields ----------

  function MembersText(w: World, p: Package, fs: seq<Field>, recv: GoValue, i: nat, comma: bool): string
    requires recv.VStruct? && HasFields(p, recv, fs) && i <= |fs|
  {
    var texts := MemberTexts(MembersFrom(w, p, recv, fs, i));
    if comma then Commas(texts) else Join(texts)
  }

  /** The text once the fields from the `i`-th on are written after this state. */
  function Written(w: World, p: Package, fs: seq<Field>, recv: GoValue, i: nat, st: State): string
    requires recv.VStruct? && HasFields(p, recv, fs) && i <= |fs|
  {
    st.out + MembersText(w, p, fs, recv, i, CommaDue(ChecksFirst(fs), i, st))
  }

  predicate SafeFrom(w: World, p: Package, fs: seq<Field>, recv: GoValue, i: nat)
    requires recv.VStruct? && HasFields(p, recv, fs)
  {
    forall j | i <= j < |fs| :: FieldSafe(w, p, fs[j], recv.fields[fs[j].fieldName])
  }

  predicate Outcome(w: World, p: Package, fs: seq<Field>, recv: GoValue, i: nat, st: State, r: Option<State>)
    requires recv.VStruct? && HasFields(p, recv, fs) && i <= |fs|
  {
    (r.Some? <==> SafeFrom(w, p, fs, recv, i)) && (r.Some? ==> r.value.out == Written(w, p, fs, recv, i, st))
  }

  lemma MembersTextStep(w: World, p: Package, fs: seq<Field>, recv: GoValue, i: nat, comma: bool)
    requires recv.VStruct? && HasFields(p, recv, fs) && i < |fs|
    ensures var v := recv.fields[fs[i].fieldName];
            if Present(w, fs[i], v) then
              MembersText(w, p, fs, recv, i, comma)
                == Comma(comma) + (Name(w, fs[i]) + Print(FieldDoc(w, p, fs[i], v)))
                  + MembersText(w, p, fs, recv, i + 1, true)
            else MembersText(w, p, fs, recv, i, comma) == MembersText(w, p, fs, recv, i + 1, comma)
  {
    var v := recv.fields[fs[i].fieldName];
    var ms, rest := MembersFrom(w, p, recv, fs, i), MembersFrom(w, p, recv, fs, i + 1);
    if Present(w, fs[i], v) {
      var x := Member(w.goQuote(fs[i].jsonName), FieldDoc(w, p, fs[i], v));
      assert ms == [x] + rest && ms[1..] == rest;
      TextsStep(x, rest, comma);
    } else {
      assert ms == rest;
    }
  }

  lemma TextsStep(x: Member, rest: seq<Member>, comma: bool)
    ensures var texts := MemberTexts([x] + rest);
            (if comma then Commas(texts) else Join(texts))
              == Comma(comma) + (x.name + ":" + Print(x.value)) + Commas(MemberTexts(rest))
  {
    var texts := MemberTexts([x] + rest);
    assert ([x] + rest)[1..] == rest;
    assert texts[0] == x.name + ":" + Print(x.value) && texts[1..] == MemberTexts(rest);
    assert "" + texts[0] == texts[0];
  }

  function FieldDone(w: World, p: Package, fs: seq<Field>, recv: GoValue, i: nat, st: State): State
    requires recv.VStruct? && HasFields(p, recv, fs) && i < |fs|
  {
    AfterField(w, p, fs[i], ChecksFirst(fs), i, st, recv.fields[fs[i].fieldName])
  }

  lemma TextStep(w: World, p: Package, fs: seq<Field>, recv: GoValue, i: nat, st: State)
    requires recv.VStruct? && HasFields(p, recv, fs) && i < |fs|
    ensures Written(w, p, fs, recv, i + 1, FieldDone(w, p, fs, recv, i, st)) == Written(w, p, fs, recv, i, st)
  {
    var f, check := fs[i], ChecksFirst(fs);
    var v := recv.fields[f.fieldName];
    var st', comma := FieldDone(w, p, fs, recv, i, st), CommaDue(check, i, st);
    MembersTextStep(w, p, fs, recv, i, comma);
    if Present(w, f, v) {
      assert CommaDue(check, i + 1, st');
      RegroupField(st.out, Comma(comma), Name(w, f), Print(FieldDoc(w, p, f, v)),
                   MembersText(w, p, fs, recv, i + 1, true));
    } else {
      assert i + 1 == |fs|
        ==> MembersText(w, p, fs, recv, i + 1, true) == MembersText(w, p, fs, recv, i + 1, false) == "";
    }
  }

  lemma RegroupField(out: string, comma: string, name: string, text: string, rest: string)
    ensures out + (comma + name) + text + rest == out + (comma + (name + text) + rest)
  {
  }

  lemma NoFields(w: World, p: Package, fs: seq<Field>, recv: GoValue, st: State)
    requires recv.VStruct? && HasFields(p, recv, fs)
    ensures Outcome(w, p, fs, recv, |fs|, st, Some(st))
  {
    assert st.out + "" == st.out;
  }

  lemma OutcomeStep(w: World, p: Package, fs: seq<Field>, recv: GoValue, i: nat, st: State, r: Option<State>,
                    rest: Option<State>)
    requires recv.VStruct? && HasFields(p, recv, fs) && i < |fs|
    requires Outcome(w, p, fs, recv, i + 1, FieldDone(w, p, fs, recv, i, st), rest)
    requires r == if FieldSafe(w, p, fs[i], recv.fields[fs[i].fieldName]) then rest else None
    ensures Outcome(w, p, fs, recv, i, st, r)
  {
    SafeStep(w, p, fs, recv, i);
    TextStep(w, p, fs, recv, i, st);
  }

  lemma SafeStep(w: World, p: Package, fs: seq<Field>, recv: GoValue, i: nat)
    requires recv.VStruct? && HasFields(p, recv, fs) && i < |fs|
    ensures SafeFrom(w, p, fs, recv, i)
       <==> FieldSafe(w, p, fs[i], recv.fields[fs[i].fieldName]) && SafeFrom(w, p, fs, recv, i + 1)
  {
  }

  lemma NextField(m: Machine, p: Package, d: nat, fs: seq<Field>, recv: GoValue, i: nat, st: State)
    requires AllSupported(p, fs) && recv.VStruct? && HasFields(p, recv, fs) && FieldsWritten(m, p, d, fs, recv)
    requires i < |fs|
    ensures RunAll(m, d, FieldsCode(m.world, p, fs, i), MethodLocals(recv), st)
         == if FieldSafe(m.world, p, fs[i], recv.fields[fs[i].fieldName])
            then RunAll(m, d, FieldsCode(m.world, p, fs, i + 1), MethodLocals(recv),
                        FieldDone(m.world, p, fs, recv, i, st))
            else None
  {
    var w, l, f := m.world, MethodLocals(recv), fs[i];
    assert ValueWritten(m, p, d, FieldExpr(f), f.typ, l, recv.fields[f.fieldName]);
    RunConcat(m, d, FieldCode(w, p, f, ChecksFirst(fs), i), FieldsCode(w, p, fs, i + 1), l, st);
    FieldRuns(m, p, d, f, ChecksFirst(fs), i, l, st, recv.fields[f.fieldName]);
  }

  /** The code of the fields from the `i`-th on does what it should. */
  ghost predicate RunsFrom(m: Machine, p: Package, d: nat, fs: seq<Field>, recv: GoValue, i: nat, st: State)
    requires AllSupported(p, fs) && recv.VStruct? && HasFields(p, recv, fs) && i <= |fs|
  {
    Outcome(m.world, p, fs, recv, i, st, RunAll(m, d, FieldsCode(m.world, p, fs, i), MethodLocals(recv), st))
  }

  lemma RunsFromNext(m: Machine, p: Package, d: nat, fs: seq<Field>, recv: GoValue, i: nat, st: State)
    requires AllSupported(p, fs) && recv.VStruct? && HasFields(p, recv, fs) && FieldsWritten(m, p, d, fs, recv)
    requires i < |fs|
    requires RunsFrom(m, p, d, fs, recv, i + 1, FieldDone(m.world, p, fs, recv, i, st))
    ensures RunsFrom(m, p, d, fs, recv, i, st)
  {
    var w, l, st' := m.world, MethodLocals(recv), FieldDone(m.world, p, fs, recv, i, st);
    NextField(m, p, d, fs, recv, i, st);
    OutcomeStep(w, p, fs, recv, i, st,
                RunAll(m, d, FieldsCode(w, p, fs, i), l, st), RunAll(m, d, FieldsCode(w, p, fs, i + 1), l, st'));
  }

  /** Without the run-time flag a field after the first always follows one that was written. */
  lemma {:induction false} FieldsRun(m: Machine, p: Package, d: nat, fs: seq<Field>, recv: GoValue, i: nat, st: State)
    requires AllSupported(p, fs) && recv.VStruct? && HasFields(p, recv, fs) && FieldsWritten(m, p, d, fs, recv)
    requires i <= |fs|
    ensures RunsFrom(m, p, d, fs, recv, i, st)
    decreases |fs| - i
  {
    if i == |fs| {
      NoFields(m.world, p, fs, recv, st);
    } else {
      FieldsRun(m, p, d, fs, recv, i + 1, FieldDone(m.world, p, fs, recv, i, st));
      RunsFromNext(m, p, d, fs, recv, i, st);
    }
  }

  // ---------- the method ----------

  /** A run that writes the text after what was there, or dereferences nil. */
  ghost predicate MethodWrites(m: Machine, d: nat, code: seq<Stmt>, l: Locals, ok: bool, text: string) {
    forall st {:trigger RunAll(m, d, code, l, st)} ::
      var r := RunAll(m, d, code, l, st);
      (r.Some? <==> ok) && (r.Some? ==> r.value.out == st.out + text)
  }

  lemma BodyWrites(m: Machine, p: Package, d: nat, fs: seq<Field>, recv: GoValue)
    requires AllSupported(p, fs) && recv.VStruct? && HasFields(p, recv, fs) && FieldsWritten(m, p, d, fs, recv)
    ensures MethodWrites(m, d, Body(m.world, p, fs), MethodLocals(recv), SafeFrom(m.world, p, fs, recv, 0),
                         MembersText(m.world, p, fs, recv, 0, false))
  {
    var w, l := m.world, MethodLocals(recv);
    forall st
      ensures var r := RunAll(m, d, Body(w, p, fs), l, st);
              (r.Some? <==> SafeFrom(w, p, fs, recv, 0))
              && (r.Some? ==> r.value.out == st.out + MembersText(w, p, fs, recv, 0, false))
    {
      RunConcat(m, d, if ChecksFirst(fs) then [SetFirst(true)] else [], FieldsCode(w, p, fs, 0), l, st);
      RunOne(m, d, SetFirst(true), l, st);
      FieldsRun(m, p, d, fs, recv, 0, if ChecksFirst(fs) then st.(first := true) else st);
    }
  }

  lemma BracesWrite(m: Machine, d: nat, body: seq<Stmt>, l: Locals, ok: bool, text: string)
    requires MethodWrites(m, d, body, l, ok, text)
    ensures MethodWrites(m, d, [Emit("{")] + body + [Emit("}")], l, ok, "{" + text + "}")
  {
    var code := [Emit("{")] + body + [Emit("}")];
    forall st
      ensures var r := RunAll(m, d, code, l, st);
              (r.Some? <==> ok) && (r.Some? ==> r.value.out == st.out + ("{" + text + "}"))
    {
      RunConcat(m, d, [Emit("{")] + body, [Emit("}")], l, st);
      RunConcat(m, d, [Emit("{")], body, l, st);
      RunOne(m, d, Emit("{"), l, st);
      var r := RunAll(m, d, body, l, Say(st, "{"));
      if r.Some? {
        RunOne(m, d, Emit("}"), l, r.value);
        assert st.out + "{" + text + "}" == st.out + ("{" + text + "}");
      }
    }
  }

  /** The method of a struct writes an opening brace, the present fields in order joined by single
      commas, and a closing brace. */
  lemma StructWrites(m: Machine, p: Package, d: nat, fs: seq<Field>, recv: GoValue)
    requires AllSupported(p, fs) && recv.VStruct? && HasFields(p, recv, fs) && FieldsWritten(m, p, d, fs, recv)
    ensures MethodWrites(m, d, StructCode(m.world, p, fs), MethodLocals(recv), FieldsSafe(m.world, p, recv, fs),
                         Print(Obj(MembersFrom(m.world, p, recv, fs, 0))))
  {
    BodyWrites(m, p, d, fs, recv);
    BracesWrite(m, d, Body(m.world, p, fs), MethodLocals(recv), SafeFrom(m.world, p, fs, recv, 0),
                MembersText(m.world, p, fs, recv, 0, false));
    assert FieldsSafe(m.world, p, recv, fs) <==> SafeFrom(m.world, p, fs, recv, 0);
  }

  /** What a field adds to the members of its struct. One that is always there adds its name with
      null when it is a nil pointer, slice, map or interface, and with its document when it is not
      nil. One marked omitempty adds nothing when it is nil, false, zero or empty, unless its type
      has a method of its own that tells. */
  lemma {:induction false} MembersOfField(w: World, p: Package, fs: seq<Field>, recv: GoValue, i: nat)
    requires recv.VStruct? && HasFields(p, recv, fs) && i < |fs|
    ensures var f, v, u := fs[i], recv.fields[fs[i].fieldName], Underlying(fs[i].typ);
            var ms, rest := MembersFrom(w, p, recv, fs, i), MembersFrom(w, p, recv, fs, i + 1);
            && (!f.omitempty && v.VNil? && (u.Pointer? || u.Slice? || u.Map? || u.Interface?)
                ==> ms == [Member(w.goQuote(f.jsonName), Atom("null"))] + rest)
            && (!f.omitempty && !v.VNil?
                ==> ms == [Member(w.goQuote(f.jsonName), DocOf(w, p, v, f.typ))] + rest)
            && (f.omitempty && !(f.typ.Named? && f.typ.isZero)
                && (v.VNil? || v == VBool(false) || v == VInt(0) || v == VFloat(0) || v == VString(""))
                && !u.Interface?
                ==> ms == rest)
  {
    var f, v := fs[i], recv.fields[fs[i].fieldName];
    ZeroOfUnderlying(f.typ);
    TypeOfUnderlying(p, v, f.typ);
    assert i + 1 <= |fs|;
  }

  // ---------- a nil receiver ----------

  /** Code for a value that cannot be read fails. */
  lemma {:induction false} UnreadableFails(m: Machine, p: Package, d: nat, e: Expr, t: GoType, l: Locals, st: State)
    requires Supported(p, t) && Eval(e, l) == None
    ensures RunAll(m, d, GenValue(p, e, t), l, st) == None
    decreases t
  {
    match t
    case Named(marshals, _, under) => if !marshals { UnreadableFails(m, p, d, e, under, l, st); }
    case Slice(elem) => OpenFails(m, d, "[", RangeSlice(e, ElemBody(p, elem)), "]", l, st);
    case Map(_, _) =>
      var loop := RangeMap(e, EntryBody(p, t));
      RunConcat(m, d, [SetFirst(true)], [loop], l, Say(st, "{"));
      RunOne(m, d, SetFirst(true), l, Say(st, "{"));
      RunOne(m, d, loop, l, Say(st, "{").(first := true));
      OpenFails(m, d, "{", Block([SetFirst(true)] + [loop]), "}", l, st);
    case _ =>
  }

  lemma OpenFails(m: Machine, d: nat, open: string, s: Stmt, close: string, l: Locals, st: State)
    requires Run(m, d, s, l, Say(st, open)) == None
    ensures RunAll(m, d, [Emit(open)] + [s] + [Emit(close)], l, st) == None
  {
    RunConcat(m, d, [Emit(open)] + [s], [Emit(close)], l, st);
    RunConcat(m, d, [Emit(open)], [s], l, st);
    RunOne(m, d, Emit(open), l, st);
    RunOne(m, d, s, l, Say(st, open));
  }

  lemma NilFieldFails(m: Machine, p: Package, d: nat, f: Field, check: bool, i: nat, st: State)
    requires FieldSupported(p, f)
    ensures RunAll(m, d, FieldCode(m.world, p, f, check, i), MethodLocals(VNil), st) == None
  {
    var w, l, e := m.world, MethodLocals(VNil), FieldExpr(f);
    assert Eval(e, l) == None;
    if f.omitempty {
      RunOne(m, d, If(NonZero(e, f.typ), PrefixCode(w, f, check, i) + ValueCode(p, f), []), l, st);
    } else {
      RunConcat(m, d, PrefixCode(w, f, check, i), ValueCode(p, f), l, st);
      PrefixRuns(m, d, f, check, i, l, st);
      var st' := AfterName(w, f, check, i, st);
      if Nillable(f.typ) {
        RunOne(m, d, If(IsNil(e), [Emit("null")], GenValue(p, e, f.typ)), l, st');
      } else {
        UnreadableFails(m, p, d, e, f.typ, l, st');
      }
    }
  }

  /** On a nil receiver the method fails as soon as there is a field to read. */
  lemma NilReceiverWrites(m: Machine, p: Package, d: nat, fs: seq<Field>)
    requires AllSupported(p, fs)
    ensures MethodWrites(m, d, StructCode(m.world, p, fs), MethodLocals(VNil), fs == [], "{}")
  {
    var w, l := m.world, MethodLocals(VNil);
    forall st
      ensures var r := RunAll(m, d, Body(w, p, fs), l, st);
              (r.Some? <==> fs == []) && (r.Some? ==> r.value.out == st.out + "")
    {
      if fs == [] {
        assert Body(w, p, fs) == [] && st.out + "" == st.out;
      } else {
        var lead := if ChecksFirst(fs) then [SetFirst(true)] else [];
        var ready := if ChecksFirst(fs) then st.(first := true) else st;
        RunConcat(m, d, lead, FieldsCode(w, p, fs, 0), l, st);
        RunOne(m, d, SetFirst(true), l, st);
        RunConcat(m, d, FieldCode(w, p, fs[0], ChecksFirst(fs), 0), FieldsCode(w, p, fs, 1), l, ready);
        NilFieldFails(m, p, d, fs[0], ChecksFirst(fs), 0, ready);
      }
    }
    BracesWrite(m, d, Body(w, p, fs), l, fs == [], "");
    assert "{" + "" + "}" == "{}";
  }

  /** Calling a method writes what its body does. */
  lemma CallWrites(m: Machine, d: nat, name: string, e: Expr, l: Locals, v: GoValue, ok: bool, text: string)
    requires d > 0 && name in m.methods && Eval(e, l) == Some(v)
    requires MethodWrites(m, d - 1, m.methods[name], MethodLocals(Receiver(v)), ok, text)
    ensures Writes(m, d, [CallStruct(name, e)], l, ok, text)
  {
    forall st ensures RunAll(m, d, [CallStruct(name, e)], l, st) == Wrote(ok, st, text) {
      RunOne(m, d, CallStruct(name, e), l, st);
    }
  }
}
