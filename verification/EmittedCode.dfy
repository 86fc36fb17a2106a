/** The statements the marshaller generator emits, and what running them writes. */
module EmittedCode {
  import opened Options
  import opened Json

  /** Go values. A map is given with its entries in the order in which a range visits them. */
  datatype GoValue =
    | VNil
    | VBool(b: bool)
    | VInt(n: int)
    | VFloat(id: int)
    | VString(s: string)
    | VPtr(target: GoValue)
    | VSlice(elems: seq<GoValue>)
    | VMap(entries: seq<Entry>)
    | VStruct(fields: map<string, GoValue>)
    | VOther(id: int)
  datatype Entry = Entry(key: GoValue, value: GoValue)

  /** Code the generator does not emit: string quoting and number formatting of the writer,
      hand-written marshal methods, the marshalling of interface values, `isZero` methods, and
      quoting at generation time. */
  datatype World = World(
    quote: string -> string, float: int -> string, method_: GoValue -> string, any: GoValue -> string,
    isZero: GoValue -> bool, goQuote: string -> string)

  datatype Expr = Var(name: string) | Select(of: Expr, field: string) | Deref(ptr: Expr)

  datatype Cond =
    | IsNil(e: Expr)
    | NotNil(e: Expr)
    | NotZero(e: Expr, zero: GoValue)
    | NotIsZero(e: Expr)
    | IndexNotZero
    | First

  datatype Writer = WriteBool | WriteInt | WriteFloat | WriteString

  /** A call of a marshal method is resolved by the static type: to the method emitted for a struct,
      or to a hand-written one. */
  datatype Stmt =
    | Emit(text: string)
    | SetFirst(b: bool)
    | If(cond: Cond, then_: seq<Stmt>, else_: seq<Stmt>)
    | Write(writer: Writer, e: Expr)
    | CallStruct(struct_: string, e: Expr)
    | CallMarshal(e: Expr)
    | CallAny(e: Expr)
    | RangeSlice(e: Expr, body: seq<Stmt>)
    | RangeMap(e: Expr, body: seq<Stmt>)
    | Block(body: seq<Stmt>)

  /** The emitted methods, by the name of their struct, and the world they run in. */
  datatype Machine = Machine(world: World, methods: map<string, seq<Stmt>>)

  /** Local variables, and the index variable of the innermost slice loop. */
  datatype Locals = Locals(vars: map<string, GoValue>, i: nat)

  /** What was written so far, and the innermost variable `first`. */
  datatype State = State(out: string, first: bool)

  function Eval(e: Expr, l: Locals): Option<GoValue> {
    match e
    case Var(x) => if x in l.vars then Some(l.vars[x]) else None
    case Select(of, f) =>
      var v := Eval(of, l);
      if v.Some? && v.value.VStruct? && f in v.value.fields then Some(v.value.fields[f]) else None
    case Deref(p) =>
      var v := Eval(p, l);
      if v.Some? && v.value.VPtr? then Some(v.value.target) else None
  }

  function Test(w: World, c: Cond, l: Locals, st: State): Option<bool> {
    match c
    case IndexNotZero => Some(l.i != 0)
    case First => Some(st.first)
    case IsNil(e) => var v := Eval(e, l); if v.Some? then Some(v.value.VNil?) else None
    case NotNil(e) => var v := Eval(e, l); if v.Some? then Some(!v.value.VNil?) else None
    case NotZero(e, zero) => var v := Eval(e, l); if v.Some? then Some(v.value != zero) else None
    case NotIsZero(e) => var v := Eval(e, l); if v.Some? then Some(!w.isZero(v.value)) else None
  }

  function Render(w: World, wr: Writer, v: GoValue): Option<string> {
    match wr
    case WriteBool => if v.VBool? then Some(if v.b then "true" else "false") else None
    case WriteInt => if v.VInt? then Some(Decimal(v.n)) else None
    case WriteFloat => if v.VFloat? then Some(w.float(v.id)) else None
    case WriteString => if v.VString? then Some(w.quote(v.s)) else None
  }

  function Say(st: State, text: string): State {
    st.(out := st.out + text)
  }

  /** What a method reads its fields from: methods have pointer receivers, and a nil one has no fields. */
  function Receiver(v: GoValue): GoValue {
    if v.VPtr? then v.target else v
  }

  /** Run a statement with at most `d` emitted methods inside each other; nothing on a nil dereference,
      or when that many are not enough. */
  function Run(m: Machine, d: nat, s: Stmt, l: Locals, st: State): Option<State>
    decreases d, s, 2, 0
  {
    match s
    case Emit(text) => Some(Say(st, text))
    case SetFirst(b) => Some(st.(first := b))
    case If(c, a, b) =>
      var t := Test(m.world, c, l, st);
      if t.None? then None else if t.value then RunAll(m, d, a, l, st) else RunAll(m, d, b, l, st)
    case Write(wr, e) =>
      var v := Eval(e, l);
      if v.None? then None
      else var text := Render(m.world, wr, v.value); if text.None? then None else Some(Say(st, text.value))
    case CallStruct(name, e) =>
      var v := Eval(e, l);
      if v.None? || d == 0 || name !in m.methods then None
      else
        var r := RunAll(m, d - 1, m.methods[name], Locals(map["v" := Receiver(v.value)], 0), st);
        if r.None? then None else Some(r.value.(first := st.first))
    case CallMarshal(e) =>
      var v := Eval(e, l); if v.None? then None else Some(Say(st, m.world.method_(v.value)))
    case CallAny(e) =>
      var v := Eval(e, l); if v.None? then None else Some(Say(st, m.world.any(v.value)))
    case RangeSlice(e, body) =>
      var v := Eval(e, l);
      if v.None? then None
      else if v.value.VNil? then Some(st)
      else if v.value.VSlice? then RunElems(m, d, body, l, v.value.elems, 0, st)
      else None
    case RangeMap(e, body) =>
      var v := Eval(e, l);
      if v.None? then None
      else if v.value.VNil? then Some(st)
      else if v.value.VMap? then RunEntries(m, d, body, l, v.value.entries, st)
      else None
    case Block(body) =>
      var r := RunAll(m, d, body, l, st);
      if r.None? then None else Some(r.value.(first := st.first))
  }

  function RunAll(m: Machine, d: nat, ss: seq<Stmt>, l: Locals, st: State): Option<State>
    decreases d, ss, 0, 0
  {
    if ss == [] then Some(st)
    else
      var r := Run(m, d, ss[0], l, st);
      if r.None? then None else RunAll(m, d, ss[1..], l, r.value)
  }

  function RunElems(m: Machine, d: nat, body: seq<Stmt>, l: Locals, elems: seq<GoValue>, i: nat,
                    st: State): Option<State>
    requires i <= |elems|
    decreases d, body, 1, |elems| - i
  {
    if i == |elems| then Some(st)
    else
      var r := RunAll(m, d, body, Locals(l.vars["v" := elems[i]], i), st);
      if r.None? then None else RunElems(m, d, body, l, elems, i + 1, r.value)
  }

  function EntryLocals(l: Locals, e: Entry): Locals {
    l.(vars := l.vars["k" := e.key]["v" := e.value])
  }

  function RunEntries(m: Machine, d: nat, body: seq<Stmt>, l: Locals, entries: seq<Entry>, st: State): Option<State>
    decreases d, body, 1, |entries|
  {
    if entries == [] then Some(st)
    else
      var r := RunAll(m, d, body, EntryLocals(l, entries[0]), st);
      if r.None? then None else RunEntries(m, d, body, l, entries[1..], r.value)
  }

  function After(m: Machine, d: nat, r: Option<State>, ss: seq<Stmt>, l: Locals): Option<State> {
    if r.None? then None else RunAll(m, d, ss, l, r.value)
  }

  lemma {:induction false} RunConcat(m: Machine, d: nat, a: seq<Stmt>, b: seq<Stmt>, l: Locals, st: State)
    ensures RunAll(m, d, a + b, l, st) == After(m, d, RunAll(m, d, a, l, st), b, l)
    decreases a
  {
    if a == [] {
      assert a + b == b;
    } else {
      assert (a + b)[1..] == a[1..] + b;
      var r := Run(m, d, a[0], l, st);
      if r.Some? { RunConcat(m, d, a[1..], b, l, r.value); }
    }
  }

  lemma RunOne(m: Machine, d: nat, s: Stmt, l: Locals, st: State)
    ensures RunAll(m, d, [s], l, st) == Run(m, d, s, l, st)
  {
    assert [s][1..] == [];
  }

  // ---------- code that writes one text ----------

  /** The state once `text` was written, or nothing when the code dereferences nil. */
  function Wrote(ok: bool, st: State, text: string): Option<State> {
    if ok then Some(Say(st, text)) else None
  }

  /** The code writes this text, whatever was written before, or dereferences nil. */
  ghost predicate Writes(m: Machine, d: nat, code: seq<Stmt>, l: Locals, ok: bool, text: string) {
    forall st {:trigger RunAll(m, d, code, l, st)} :: RunAll(m, d, code, l, st) == Wrote(ok, st, text)
  }

  lemma SayTwice(st: State, a: string, b: string)
    ensures Say(Say(st, a), b) == Say(st, a + b)
  {
    assert st.out + a + b == st.out + (a + b);
  }

  lemma WritesEmit(m: Machine, d: nat, text: string, l: Locals)
    ensures Writes(m, d, [Emit(text)], l, true, text)
  {
    forall st ensures RunAll(m, d, [Emit(text)], l, st) == Wrote(true, st, text) { RunOne(m, d, Emit(text), l, st); }
  }

  lemma WritesConcat(m: Machine, d: nat, a: seq<Stmt>, b: seq<Stmt>, l: Locals, okA: bool, textA: string, okB: bool,
                     textB: string)
    requires Writes(m, d, a, l, okA, textA) && Writes(m, d, b, l, okB, textB)
    ensures Writes(m, d, a + b, l, okA && okB, textA + textB)
  {
    forall st ensures RunAll(m, d, a + b, l, st) == Wrote(okA && okB, st, textA + textB) {
      RunConcat(m, d, a, b, l, st);
      SayTwice(st, textA, textB);
    }
  }

  /** Code between two texts. */
  lemma WritesBetween(m: Machine, d: nat, open: string, body: seq<Stmt>, close: string, l: Locals, ok: bool,
                      text: string)
    requires Writes(m, d, body, l, ok, text)
    ensures Writes(m, d, [Emit(open)] + body + [Emit(close)], l, ok, open + text + close)
  {
    WritesEmit(m, d, open, l);
    WritesEmit(m, d, close, l);
    WritesConcat(m, d, [Emit(open)], body, l, true, open, ok, text);
    WritesConcat(m, d, [Emit(open)] + body, [Emit(close)], l, ok, open + text, true, close);
  }
}
