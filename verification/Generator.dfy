/** The generator of JSON marshallers: the code it emits for types, fields and structs. */
module Generator {
  import opened Options
  import opened EmittedCode

  /** Basic kinds; integers of less than 64 bits are apart, because those are converted to be written. */
  datatype Kind = Bool | Signed | Signed64 | Unsigned | Unsigned64 | Float | String | Unhandled

  /** Types as the generator distinguishes them. A named type says which hand-written methods it has,
      and what its underlying type is, which is never itself a named one. A struct is known by its
      name, so that structs may refer to each other and to themselves. */
  datatype GoType =
    | Basic(kind: Kind)
    | Pointer(elem: GoType)
    | Slice(elem: GoType)
    | Map(key: GoType, elem: GoType)
    | Interface
    | Struct(name: string)
    | Named(marshals: bool, isZero: bool, under: GoType)
    | Unsupported

  datatype Field = Field(fieldName: string, jsonName: string, typ: GoType, omitempty: bool)

  /** The structs that methods are emitted for, each with its fields as the sort leaves them. */
  type Package = map<string, seq<Field>>

  function Underlying(t: GoType): GoType {
    if t.Named? then Underlying(t.under) else t
  }

  predicate Handled(k: Kind) {
    k != Unhandled
  }

  predicate HandWritten(t: GoType) {
    t.Named? && t.marshals
  }

  predicate Converted(k: Kind) {
    k == Signed || k == Unsigned
  }

  /** The writer takes a value of the type: of a named type only when it is converted. */
  predicate Accepted(t: GoType) {
    Underlying(t).Basic? ==> t.Basic? || Converted(Underlying(t).kind)
  }

  /** The generator emits code for the type instead of giving up, and that code compiles. */
  predicate Supported(p: Package, t: GoType) {
    match t
    case Basic(k) => Handled(k)
    case Pointer(elem) =>
      var u := Underlying(elem);
      (u.Basic? && Handled(u.kind) && Accepted(elem)) || (u.Struct? && (HandWritten(elem) || u.name in p))
    case Slice(elem) => Supported(p, elem)
    case Map(key, elem) => Supported(p, key) && Supported(p, elem)
    case Interface => true
    case Struct(name) => name in p
    case Named(marshals, _, under) => marshals || (Supported(p, under) && Accepted(t))
    case Unsupported => false
  }

  /** The types the generator comes to while it writes the code for one. */
  function Parts(t: GoType): set<GoType> {
    {t} + match t
          case Slice(elem) => Parts(elem)
          case Map(key, elem) => Parts(key) + Parts(elem)
          case Named(marshals, _, under) => if marshals then {} else Parts(under)
          case _ => {}
  }

  /** No place to give up at: no type of another form, no basic kind without a writer, no struct
      without a method, no pointer but to a struct or a basic type, and no basic type with a name
      that the writer would take only converted. */
  predicate Writable(p: Package, t: GoType) {
    match t
    case Unsupported => false
    case Basic(k) => k != Unhandled
    case Struct(name) => name in p
    case Named(marshals, _, _) =>
      var u := Underlying(t);
      marshals || !u.Basic? || u.kind == Signed || u.kind == Unsigned
    case Pointer(elem) =>
      (match Underlying(elem)
       case Basic(k) => k == Signed || k == Unsigned || (k != Unhandled && elem.Basic?)
       case Struct(name) => (elem.Named? && elem.marshals) || name in p
       case _ => false)
    case _ => true
  }

  ghost predicate AllWritable(p: Package, parts: set<GoType>) {
    forall part | part in parts :: Writable(p, part)
  }

  lemma WritableUnion(p: Package, a: set<GoType>, b: set<GoType>)
    ensures AllWritable(p, a + b) <==> AllWritable(p, a) && AllWritable(p, b)
  {
    if AllWritable(p, a + b) {
      forall part | part in a ensures Writable(p, part) { assert part in a + b; }
      forall part | part in b ensures Writable(p, part) { assert part in a + b; }
    }
  }

  /** The generator gives up on a type exactly when it comes to a part it cannot write. */
  lemma {:induction false} SupportedIff(p: Package, t: GoType)
    ensures Supported(p, t) <==> AllWritable(p, Parts(t))
  {
    assert AllWritable(p, {t}) <==> Writable(p, t) by { assert t in {t}; }
    match t
    case Slice(elem) =>
      SupportedIff(p, elem);
      WritableUnion(p, {t}, Parts(elem));
    case Map(key, elem) =>
      SupportedIff(p, key);
      SupportedIff(p, elem);
      WritableUnion(p, Parts(key), Parts(elem));
      WritableUnion(p, {t}, Parts(key) + Parts(elem));
    case Named(marshals, _, under) =>
      if !marshals {
        SupportedIff(p, under);
        WritableUnion(p, {t}, Parts(under));
        NamedWritable(p, t);
      }
    case _ =>
      assert Parts(t) == {t};
  }

  lemma NamedWritable(p: Package, t: GoType)
    requires t.Named? && !t.marshals
    ensures Writable(p, t) <==> Accepted(t)
  {
  }

  // ---------- values ----------

  function WriterFor(k: Kind): Writer
    requires Handled(k)
  {
    match k
    case Bool => WriteBool
    case Signed => WriteInt
    case Signed64 => WriteInt
    case Unsigned => WriteInt
    case Unsigned64 => WriteInt
    case Float => WriteFloat
    case String => WriteString
  }

  function GenValue(p: Package, e: Expr, t: GoType): seq<Stmt>
    requires Supported(p, t)
    decreases t, 3
  {
    match t
    case Named(marshals, _, under) => if marshals then [CallMarshal(e)] else GenValue(p, e, under)
    case Pointer(elem) =>
      var u := Underlying(elem);
      if u.Basic? then [Write(WriterFor(u.kind), Deref(e))]
      else if HandWritten(elem) then [CallMarshal(e)]
      else [CallStruct(u.name, e)]
    case Slice(elem) => [Emit("[")] + [RangeSlice(e, ElemBody(p, elem))] + [Emit("]")]
    case Basic(k) => [Write(WriterFor(k), e)]
    case Map(_, _) => [Emit("{")] + [Block([SetFirst(true)] + [RangeMap(e, EntryBody(p, t))])] + [Emit("}")]
    case Interface => [CallAny(e)]
    case Struct(name) => [CallStruct(name, e)]
  }

  function ElemBody(p: Package, elem: GoType): seq<Stmt>
    requires Supported(p, elem)
    decreases elem, 4
  {
    [If(IndexNotZero, [Emit(",")], [])] + GenValue(p, Var("v"), elem)
  }

  function EntryBody(p: Package, t: GoType): seq<Stmt>
    requires t.Map? && Supported(p, t)
    decreases t, 2
  {
    [If(First, [SetFirst(false)], [Emit(",")])] + EntryCode(p, t)
  }

  function EntryCode(p: Package, t: GoType): seq<Stmt>
    requires t.Map? && Supported(p, t)
    decreases t, 1
  {
    GenValue(p, Var("k"), t.key) + ([Emit(":")] + GenValue(p, Var("v"), t.elem))
  }

  // ---------- order of the fields ----------

  predicate TextLess(a: string, b: string) {
    if b == "" then false
    else if a == "" then true
    else a[0] < b[0] || (a[0] == b[0] && TextLess(a[1..], b[1..]))
  }

  /** Go's order of strings: the first character that differs decides, and a proper prefix is less. */
  lemma {:induction false} TextLessIff(a: string, b: string)
    ensures TextLess(a, b)
       <==> exists k | 0 <= k <= |a| && k < |b| :: a[..k] == b[..k] && (k == |a| || a[k] < b[k])
  {
    if b == "" {
    } else if a == "" {
      assert a[..0] == b[..0];
    } else {
      TextLessIff(a[1..], b[1..]);
      if TextLess(a, b) {
        if a[0] < b[0] {
          assert a[..0] == b[..0];
        } else {
          var k :| 0 <= k <= |a| - 1 && k < |b| - 1 && a[1..][..k] == b[1..][..k]
                   && (k == |a| - 1 || a[1..][k] < b[1..][k]);
          assert a[..k + 1] == [a[0]] + a[1..][..k] && b[..k + 1] == [b[0]] + b[1..][..k];
        }
      }
      forall k | 0 <= k <= |a| && k < |b| && a[..k] == b[..k] && (k == |a| || a[k] < b[k]) ensures TextLess(a, b) {
        if k > 0 {
          assert a[..k][0] == b[..k][0];
          assert a[1..][..k - 1] == a[..k][1..] && b[1..][..k - 1] == b[..k][1..];
        }
      }
    }
  }

  predicate Less(a: Field, b: Field) {
    if a.omitempty != b.omitempty then b.omitempty else TextLess(a.jsonName, b.jsonName)
  }

  predicate SortedFields(fs: seq<Field>) {
    forall i, j | 0 <= i < j < |fs| :: !Less(fs[j], fs[i])
  }

  // ---------- fields ----------

  /** A zero test the generator can write for the type. On a struct it writes a comparison with nil,
      which is no Go program. */
  predicate Testable(t: GoType) {
    (t.Named? && t.isZero) || (!Underlying(t).Struct? && !Underlying(t).Unsupported?)
  }

  function NonZero(e: Expr, t: GoType): Cond {
    if t.Named? && t.isZero then NotIsZero(e)
    else
      match Underlying(t)
      case Basic(String) => NotZero(e, VString(""))
      case Basic(Bool) => NotZero(e, VBool(false))
      case Basic(Float) => NotZero(e, VFloat(0))
      case Basic(Unhandled) => NotZero(e, VOther(0))
      case Basic(_) => NotZero(e, VInt(0))
      case _ => NotNil(e)
  }

  predicate Nillable(t: GoType) {
    var u := Underlying(t);
    u.Pointer? || u.Slice? || u.Map? || u.Interface?
  }

  predicate FieldSupported(p: Package, f: Field) {
    Supported(p, f.typ) && (f.omitempty ==> Testable(f.typ))
  }

  /** A zero test can be written for a type that says itself what is zero, and for those compared with
      a literal or with nil. */
  lemma FieldSupportedIff(p: Package, f: Field)
    ensures FieldSupported(p, f)
       <==> && AllWritable(p, Parts(f.typ))
            && (f.omitempty ==>
                  var u := Underlying(f.typ);
                  (f.typ.Named? && f.typ.isZero) || u.Basic? || u.Pointer? || u.Slice? || u.Map? || u.Interface?)
  {
    SupportedIff(p, f.typ);
    UnderlyingHasNoName(f.typ);
  }

  lemma {:induction false} UnderlyingHasNoName(t: GoType)
    ensures !Underlying(t).Named?
  {
    if t.Named? { UnderlyingHasNoName(t.under); }
  }

  predicate AllSupported(p: Package, fs: seq<Field>) {
    forall i | 0 <= i < |fs| :: FieldSupported(p, fs[i])
  }

  predicate PackageSupported(p: Package) {
    forall name | name in p :: AllSupported(p, p[name])
  }

  function FieldExpr(f: Field): Expr {
    Select(Var("v"), f.fieldName)
  }

  predicate ChecksFirst(fs: seq<Field>) {
    |fs| > 1 && fs[0].omitempty
  }

  function Name(w: World, f: Field): string {
    w.goQuote(f.jsonName) + ":"
  }

  function PrefixCode(w: World, f: Field, check: bool, i: nat): seq<Stmt> {
    if check then [If(First, [SetFirst(false)] + [Emit(Name(w, f))], [Emit("," + Name(w, f))])]
    else [Emit(if i == 0 then Name(w, f) else "," + Name(w, f))]
  }

  function ValueCode(p: Package, f: Field): seq<Stmt>
    requires Supported(p, f.typ)
  {
    var code := GenValue(p, FieldExpr(f), f.typ);
    if !f.omitempty && Nillable(f.typ) then [If(IsNil(FieldExpr(f)), [Emit("null")], code)] else code
  }

  function FieldCode(w: World, p: Package, f: Field, check: bool, i: nat): seq<Stmt>
    requires FieldSupported(p, f)
  {
    var code := PrefixCode(w, f, check, i) + ValueCode(p, f);
    if f.omitempty then [If(NonZero(FieldExpr(f), f.typ), code, [])] else code
  }

  /** The code of the fields from the `i`-th on. */
  function FieldsCode(w: World, p: Package, fs: seq<Field>, i: nat): seq<Stmt>
    requires i <= |fs| && AllSupported(p, fs)
    decreases |fs| - i
  {
    if i == |fs| then [] else FieldCode(w, p, fs[i], ChecksFirst(fs), i) + FieldsCode(w, p, fs, i + 1)
  }

  function Body(w: World, p: Package, fs: seq<Field>): seq<Stmt>
    requires AllSupported(p, fs)
  {
    (if ChecksFirst(fs) then [SetFirst(true)] else []) + FieldsCode(w, p, fs, 0)
  }

  function StructCode(w: World, p: Package, fs: seq<Field>): seq<Stmt>
    requires AllSupported(p, fs)
  {
    [Emit("{")] + Body(w, p, fs) + [Emit("}")]
  }

  // ---------- the generator ----------

  /** `sorted` is what the sort of `structFields` leaves. Nothing is emitted when some field is of a
      type the generator gives up on, or of one it can write no zero test for. */
  method Generate(w: World, p: Package, structFields: seq<Field>, sorted: seq<Field>) returns (code: Option<seq<Stmt>>)
    requires multiset(sorted) == multiset(structFields) && SortedFields(sorted)
    ensures code.Some? <==> AllSupported(p, structFields)
    ensures code.Some? ==> AllSupported(p, sorted) && code.value == StructCode(w, p, sorted)
  {
    SupportedInAnyOrder(p, sorted, structFields);
    var checkFirst := |sorted| > 1 && sorted[0].omitempty;
    var body: seq<Stmt> := if checkFirst then [SetFirst(true)] else [];
    for i := 0 to |sorted|
      invariant forall j | 0 <= j < i :: FieldSupported(p, sorted[j])
      invariant AllSupported(p, sorted) ==> Pending(w, p, sorted, i, body)
    {
      var f := sorted[i];
      if !FieldSupported(p, f) {
        return None;
      }
      var fieldBody := PrefixCode(w, f, checkFirst, i) + ValueCode(p, f);
      var code := if f.omitempty then [If(NonZero(FieldExpr(f), f.typ), fieldBody, [])] else fieldBody;
      if AllSupported(p, sorted) {
        PendingStep(w, p, sorted, i, body);
      }
      body := body + code;
    }
    return Some([Emit("{")] + body + [Emit("}")]);
  }

  /** What is left to emit after `body`. */
  ghost predicate Pending(w: World, p: Package, fs: seq<Field>, i: nat, body: seq<Stmt>)
    requires i <= |fs| && AllSupported(p, fs)
  {
    body + FieldsCode(w, p, fs, i) == Body(w, p, fs)
  }

  lemma PendingStep(w: World, p: Package, fs: seq<Field>, i: nat, body: seq<Stmt>)
    requires i < |fs| && AllSupported(p, fs) && Pending(w, p, fs, i, body)
    ensures Pending(w, p, fs, i + 1, body + FieldCode(w, p, fs[i], ChecksFirst(fs), i))
  {
    var code, rest := FieldCode(w, p, fs[i], ChecksFirst(fs), i), FieldsCode(w, p, fs, i + 1);
    assert body + (code + rest) == body + code + rest;
  }

  lemma SupportedInAnyOrder(p: Package, a: seq<Field>, b: seq<Field>)
    requires multiset(a) == multiset(b)
    ensures AllSupported(p, a) <==> AllSupported(p, b)
  {
    assert forall f :: f in a <==> f in multiset(a);
    assert forall f :: f in b <==> f in multiset(b);
    assert AllSupported(p, a) <==> forall f | f in a :: FieldSupported(p, f);
    assert AllSupported(p, b) <==> forall f | f in b :: FieldSupported(p, f);
  }

  /** The methods of a package. */
  function Methods(w: World, p: Package): map<string, seq<Stmt>>
    requires PackageSupported(p)
  {
    map name | name in p :: StructCode(w, p, p[name])
  }

  /** A declared type: a struct with its fields as declared and as the sort leaves them, one that is
      passed over because it is not exported or has the method already, or anything else. */
  datatype Decl =
    | StructDecl(name: string, fields: seq<Field>, sorted: seq<Field>)
    | PassedOver
    | OtherDecl

  predicate Fits(decl: Decl, p: Package) {
    decl.StructDecl? ==>
      && decl.name in p && p[decl.name] == decl.sorted
      && multiset(decl.sorted) == multiset(decl.fields) && SortedFields(decl.sorted)
  }

  predicate Declares(decls: seq<Decl>, p: Package) {
    && (forall i | 0 <= i < |decls| :: Fits(decls[i], p))
    && (forall name | name in p :: exists i | 0 <= i < |decls| :: decls[i].StructDecl? && decls[i].name == name)
  }

  /** The loop over the declarations: either it emits the methods of the whole package, or it gives up. */
  method GeneratePackage(w: World, p: Package, decls: seq<Decl>) returns (methods: Option<map<string, seq<Stmt>>>)
    requires Declares(decls, p)
    ensures methods.Some? <==> PackageSupported(p) && OtherDecl !in decls
    ensures methods.Some? ==> methods.value == Methods(w, p)
  {
    var ms: map<string, seq<Stmt>> := map[];
    for i := 0 to |decls|
      invariant EmittedUpTo(w, p, decls, i, ms)
    {
      if decls[i].OtherDecl? {
        return None;
      }
      if decls[i].StructDecl? {
        var code := GenerateDecl(w, p, decls[i]);
        if code.None? {
          return None;
        }
        EmittedOneMore(w, p, decls, i, ms, code.value);
        ms := ms[decls[i].name := code.value];
      }
    }
    AllEmitted(w, p, decls, ms);
    return Some(ms);
  }

  method GenerateDecl(w: World, p: Package, decl: Decl) returns (code: Option<seq<Stmt>>)
    requires decl.StructDecl? && Fits(decl, p)
    ensures code.Some? ==> Emitted(w, p, decl.name, code.value)
    ensures code.None? ==> !PackageSupported(p)
  {
    code := Generate(w, p, decl.fields, decl.sorted);
    SupportedInAnyOrder(p, decl.sorted, decl.fields);
  }

  predicate Emitted(w: World, p: Package, name: string, code: seq<Stmt>) {
    name in p && AllSupported(p, p[name]) && code == StructCode(w, p, p[name])
  }

  predicate EmittedUpTo(w: World, p: Package, decls: seq<Decl>, n: nat, ms: map<string, seq<Stmt>>)
    requires n <= |decls|
  {
    && (forall i | 0 <= i < n :: !decls[i].OtherDecl? && (decls[i].StructDecl? ==> decls[i].name in ms))
    && (forall name | name in ms :: Emitted(w, p, name, ms[name]))
  }

  lemma EmittedOneMore(w: World, p: Package, decls: seq<Decl>, n: nat, ms: map<string, seq<Stmt>>, code: seq<Stmt>)
    requires n < |decls| && decls[n].StructDecl? && EmittedUpTo(w, p, decls, n, ms)
    requires Emitted(w, p, decls[n].name, code)
    ensures EmittedUpTo(w, p, decls, n + 1, ms[decls[n].name := code])
  {
  }

  lemma AllEmitted(w: World, p: Package, decls: seq<Decl>, ms: map<string, seq<Stmt>>)
    requires Declares(decls, p) && EmittedUpTo(w, p, decls, |decls|, ms)
    ensures PackageSupported(p) && ms == Methods(w, p)
  {
    forall name | name in p ensures name in ms && Emitted(w, p, name, ms[name]) {
      var i :| 0 <= i < |decls| && decls[i].StructDecl? && decls[i].name == name;
    }
  }

  /** Sorting puts the fields that are always written first, so the run-time flag is declared only
      when every field may be absent, and then each declaration of a prefix has a block of its own. */
  lemma FlagOnlyWhenAllOptional(fs: seq<Field>)
    requires SortedFields(fs) && ChecksFirst(fs)
    ensures forall i | 0 <= i < |fs| :: fs[i].omitempty
  {
    forall i | 0 <= i < |fs| ensures fs[i].omitempty {
      if i > 0 { assert !Less(fs[i], fs[0]); }
    }
  }
}
