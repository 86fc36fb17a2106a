/** What the emitted methods of a whole package write, each calling the others. */
module MarshalledPackage {
  import opened Options
  import opened Json
  import opened EmittedCode
  import opened Generator
  import opened Documents
  import opened Marshalled
  import opened MarshalledStruct

  /** The emitted code for a value writes the JSON document of the value, or dereferences nil. */
  lemma {:induction false} ValueWrites(m: Machine, p: Package, d: nat, e: Expr, t: GoType, l: Locals, v: GoValue)
    requires Compiled(m, p) && Supported(p, t) && HasType(p, v, t) && Eval(e, l) == Some(v) && Nests(v, d)
    ensures ValueWritten(m, p, d, e, t, l, v)
    decreases v, 2, t
  {
    match t
    case Basic(k) => BasicWrites(m, p, d, e, k, l, v);
    case Pointer(elem) => PointerWrites(m, p, d, e, elem, l, v);
    case Slice(elem) =>
      if v.VSlice? {
        forall i | 0 <= i < |v.elems|
          ensures ValueWritten(m, p, d, Var("v"), elem, Locals(l.vars["v" := v.elems[i]], i), v.elems[i]) {
          ValueWrites(m, p, d, Var("v"), elem, Locals(l.vars["v" := v.elems[i]], i), v.elems[i]);
        }
      }
      SliceWrites(m, p, d, e, t, l, v);
    case Map(key, elem) =>
      if v.VMap? {
        forall i | 0 <= i < |v.entries|
          ensures ValueWritten(m, p, d, Var("k"), key, EntryLocals(l, v.entries[i]), v.entries[i].key)
          ensures ValueWritten(m, p, d, Var("v"), elem, EntryLocals(l, v.entries[i]), v.entries[i].value)
        {
          ValueWrites(m, p, d, Var("k"), key, EntryLocals(l, v.entries[i]), v.entries[i].key);
          ValueWrites(m, p, d, Var("v"), elem, EntryLocals(l, v.entries[i]), v.entries[i].value);
        }
      }
      MapValueWrites(m, p, d, e, t, l, v);
    case Interface => AnyWrites(m, d, e, l, v);
    case Struct(name) =>
      MethodsWrite(m, p, d - 1, name, v);
      CallWrites(m, d, name, e, l, v, Safe(m.world, p, v, t), Print(DocOf(m.world, p, v, t)));
    case Named(marshals, _, under) =>
      if marshals {
        HandWrites(m, d, e, l, v);
      } else {
        ValueWrites(m, p, d, e, under, l, v);
      }
  }

  /** The emitted method of a struct writes its document, or dereferences nil. */
  ghost predicate MethodWritten(m: Machine, p: Package, d: nat, name: string, v: GoValue)
    requires Compiled(m, p) && name in p && HasType(p, v, Struct(name))
  {
    MethodWrites(m, d, m.methods[name], MethodLocals(v), FieldsSafe(m.world, p, v, p[name]),
                 Print(Obj(MembersFrom(m.world, p, v, p[name], 0))))
  }

  lemma {:induction false} MethodsWrite(m: Machine, p: Package, d: nat, name: string, v: GoValue)
    requires Compiled(m, p) && name in p && HasType(p, v, Struct(name)) && Nests(v, d + 1)
    ensures MethodWritten(m, p, d, name, v)
    decreases v, 1
  {
    var fs := p[name];
    forall i | 0 <= i < |fs|
      ensures ValueWritten(m, p, d, FieldExpr(fs[i]), fs[i].typ, MethodLocals(v), v.fields[fs[i].fieldName])
    {
      ValueWrites(m, p, d, FieldExpr(fs[i]), fs[i].typ, MethodLocals(v), v.fields[fs[i].fieldName]);
    }
    StructWrites(m, p, d, fs, v);
  }

  lemma {:induction false} PointerWrites(m: Machine, p: Package, d: nat, e: Expr, elem: GoType, l: Locals, v: GoValue)
    requires Compiled(m, p) && Supported(p, Pointer(elem)) && HasType(p, v, Pointer(elem)) && Eval(e, l) == Some(v)
    requires Nests(v, d)
    ensures ValueWritten(m, p, d, e, Pointer(elem), l, v)
    decreases v, 1
  {
    var u := Underlying(elem);
    if u.Basic? {
      if v.VPtr? { TypeOfUnderlying(p, v.target, elem); }
      DerefWrites(m, p, d, e, elem, l, v);
    } else if HandWritten(elem) {
      HandWrites(m, d, e, l, v);
    } else if v.VNil? {
      NilPointerWrites(m, p, d, e, elem, l);
    } else {
      TypeOfUnderlying(p, v.target, elem);
      assert Nests(v.target, d);
      MethodsWrite(m, p, d - 1, u.name, v.target);
      StructPointerWrites(m, p, d, e, elem, l, v);
    }
  }

  lemma NilPointerWrites(m: Machine, p: Package, d: nat, e: Expr, elem: GoType, l: Locals)
    requires Compiled(m, p) && Supported(p, Pointer(elem)) && Underlying(elem).Struct? && !HandWritten(elem)
    requires d > 0 && Eval(e, l) == Some(VNil)
    ensures ValueWritten(m, p, d, e, Pointer(elem), l, VNil)
  {
    var name := Underlying(elem).name;
    NilReceiverWrites(m, p, d - 1, p[name]);
    CallWrites(m, d, name, e, l, VNil, p[name] == [], "{}");
    EmptyObject();
  }

  lemma StructPointerWrites(m: Machine, p: Package, d: nat, e: Expr, elem: GoType, l: Locals, v: GoValue)
    requires Compiled(m, p) && Supported(p, Pointer(elem)) && HasType(p, v, Pointer(elem)) && v.VPtr?
    requires Underlying(elem).Struct? && !HandWritten(elem) && HasType(p, v.target, Underlying(elem))
    requires d > 0 && Eval(e, l) == Some(v)
    requires MethodWritten(m, p, d - 1, Underlying(elem).name, v.target)
    ensures ValueWritten(m, p, d, e, Pointer(elem), l, v)
  {
    var w, name := m.world, Underlying(elem).name;
    AtUnderlying(w, p, v.target, elem);
    CallWrites(m, d, name, e, l, v, FieldsSafe(w, p, v.target, p[name]),
               Print(Obj(MembersFrom(w, p, v.target, p[name], 0))));
  }

  lemma EmptyObject()
    ensures Print(Obj([])) == "{}"
  {
    assert MemberTexts([]) == [];
  }

  lemma {:induction false} AtUnderlying(w: World, p: Package, v: GoValue, t: GoType)
    requires HasType(p, v, t) && Underlying(t).Struct?
    ensures HasType(p, v, Underlying(t))
    ensures StructDocAt(w, p, v, t) == Obj(MembersFrom(w, p, v, p[Underlying(t).name], 0))
    ensures StructSafeAt(w, p, v, t) <==> FieldsSafe(w, p, v, p[Underlying(t).name])
    decreases t
  {
    if t.Named? { AtUnderlying(w, p, v, t.under); }
  }

  /** Through a pointer to a type with a method of its own that method prints; otherwise the members
      of the struct behind it are printed, or the basic value. */
  lemma BehindPointer(w: World, p: Package, v: GoValue, elem: GoType)
    requires Supported(p, Pointer(elem)) && HasType(p, v, Pointer(elem)) && v.VPtr?
    ensures HasType(p, v.target, Underlying(elem))
    ensures var doc, u := DocOf(w, p, v, Pointer(elem)), Underlying(elem);
            if u.Basic? then doc == DocOf(w, p, v.target, u)
            else if elem.Named? && elem.marshals then doc == Atom(w.method_(v))
            else doc == Obj(MembersFrom(w, p, v.target, p[u.name], 0))
  {
    TypeOfUnderlying(p, v.target, elem);
    if Underlying(elem).Struct? { AtUnderlying(w, p, v.target, elem); }
  }

  // ---------- values that no emitted method writes ----------

  lemma BasicWrites(m: Machine, p: Package, d: nat, e: Expr, k: Kind, l: Locals, v: GoValue)
    requires Handled(k) && HasKind(v, k) && Eval(e, l) == Some(v)
    ensures ValueWritten(m, p, d, e, Basic(k), l, v)
  {
    OneWrites(m, d, Write(WriterFor(k), e), l, true, BasicText(m.world, v));
  }

  lemma DerefWrites(m: Machine, p: Package, d: nat, e: Expr, elem: GoType, l: Locals, v: GoValue)
    requires Supported(p, Pointer(elem)) && HasType(p, v, Pointer(elem)) && Eval(e, l) == Some(v)
    requires Underlying(elem).Basic? && (v.VPtr? ==> HasType(p, v.target, Underlying(elem)))
    ensures ValueWritten(m, p, d, e, Pointer(elem), l, v)
  {
    var text := if v.VPtr? then BasicText(m.world, v.target) else "";
    OneWrites(m, d, Write(WriterFor(Underlying(elem).kind), Deref(e)), l, v.VPtr?, text);
  }

  lemma AnyWrites(m: Machine, d: nat, e: Expr, l: Locals, v: GoValue)
    requires Eval(e, l) == Some(v)
    ensures Writes(m, d, [CallAny(e)], l, true, m.world.any(v))
  {
    OneWrites(m, d, CallAny(e), l, true, m.world.any(v));
  }

  lemma HandWrites(m: Machine, d: nat, e: Expr, l: Locals, v: GoValue)
    requires Eval(e, l) == Some(v)
    ensures Writes(m, d, [CallMarshal(e)], l, true, m.world.method_(v))
  {
    OneWrites(m, d, CallMarshal(e), l, true, m.world.method_(v));
  }

  lemma OneWrites(m: Machine, d: nat, s: Stmt, l: Locals, ok: bool, text: string)
    requires forall st :: Run(m, d, s, l, st) == Wrote(ok, st, text)
    ensures Writes(m, d, [s], l, ok, text)
  {
    forall st ensures RunAll(m, d, [s], l, st) == Wrote(ok, st, text) { RunOne(m, d, s, l, st); }
  }

  // ---------- the whole package ----------

  /** Calling the emitted method of a struct after any text: it runs to the end exactly when no nil
      pointer is dereferenced, and then it has written the JSON document of the receiver. */
  ghost predicate PrintsDocument(m: Machine, p: Package, d: nat, name: string, recv: GoValue, st: State)
    requires name in p && name in m.methods && HasType(p, recv, Struct(name))
  {
    var r := RunAll(m, d, m.methods[name], MethodLocals(recv), st);
    && (r.Some? <==> Safe(m.world, p, recv, Struct(name)))
    && (r.Some? ==> r.value.out == st.out + Print(DocOf(m.world, p, recv, Struct(name))))
  }

  lemma StructRuns(m: Machine, p: Package, d: nat, name: string, recv: GoValue, st: State)
    requires Compiled(m, p) && name in p && HasType(p, recv, Struct(name)) && Nests(recv, d + 1)
    ensures PrintsDocument(m, p, d, name, recv, st)
  {
    MethodsWrite(m, p, d, name, recv);
  }

  /** For every receiver there is a depth of calls from which on this is so. */
  lemma DeepEnough(m: Machine, p: Package, name: string, recv: GoValue) returns (depth: nat)
    requires Compiled(m, p) && name in p && HasType(p, recv, Struct(name))
    ensures forall d: nat, st | d >= depth :: PrintsDocument(m, p, d, name, recv, st)
  {
    depth := NestsSome(recv);
    forall d: nat, st | d >= depth ensures PrintsDocument(m, p, d, name, recv, st) {
      NestsMore(recv, depth, d + 1);
      StructRuns(m, p, d, name, recv, st);
    }
  }

  /** On a nil receiver the method of a struct with a field runs to no end. */
  lemma NilReceiverRuns(m: Machine, p: Package, d: nat, name: string, st: State)
    requires Compiled(m, p) && name in p
    ensures var r := RunAll(m, d, m.methods[name], MethodLocals(VNil), st);
            && (r.Some? <==> p[name] == [])
            && (r.Some? ==> r.value.out == st.out + "{}")
  {
    NilReceiverWrites(m, p, d, p[name]);
  }
}
