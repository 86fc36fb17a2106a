/** The JSON document that a Go value of a type stands for, and the values for which the emitted
    code dereferences no nil pointer. */
module Documents {
  import opened Options
  import opened Json
  import opened EmittedCode
  import opened Generator

  predicate HasKind(v: GoValue, k: Kind) {
    match k
    case Bool => v.VBool?
    case Signed => v.VInt?
    case Signed64 => v.VInt?
    case Unsigned => v.VInt? && v.n >= 0
    case Unsigned64 => v.VInt? && v.n >= 0
    case Float => v.VFloat?
    case String => v.VString?
    case Unhandled => v.VOther?
  }

  predicate HasType(p: Package, v: GoValue, t: GoType)
    decreases v, 1, t
  {
    match t
    case Basic(k) => HasKind(v, k)
    case Pointer(elem) => v.VNil? || (v.VPtr? && HasType(p, v.target, elem))
    case Slice(elem) => v.VNil? || (v.VSlice? && forall i | 0 <= i < |v.elems| :: HasType(p, v.elems[i], elem))
    case Map(key, elem) =>
      v.VNil? || (v.VMap? && forall i | 0 <= i < |v.entries| ::
                    HasType(p, v.entries[i].key, key) && HasType(p, v.entries[i].value, elem))
    case Interface => true
    case Struct(name) => v.VStruct? && name in p && HasFields(p, v, p[name])
    case Named(_, _, under) => HasType(p, v, under)
    case Unsupported => v.VOther?
  }

  predicate HasFields(p: Package, v: GoValue, fs: seq<Field>)
    requires v.VStruct?
    decreases v, 0
  {
    forall i | 0 <= i < |fs| :: fs[i].fieldName in v.fields && HasType(p, v.fields[fs[i].fieldName], fs[i].typ)
  }

  /** The value every variable of the type starts with. */
  function ZeroValue(t: GoType): GoValue {
    match t
    case Basic(k) => (match k
                      case Bool => VBool(false)
                      case Signed => VInt(0)
                      case Signed64 => VInt(0)
                      case Unsigned => VInt(0)
                      case Unsigned64 => VInt(0)
                      case Float => VFloat(0)
                      case String => VString("")
                      case Unhandled => VOther(0))
    case Named(_, _, under) => ZeroValue(under)
    case Struct(_) => VOther(0) // no literal stands for it
    case Unsupported => VOther(0)
    case _ => VNil
  }

  /** A field marked omitempty is there unless it has the zero value of its type; a type may have a
      method of its own that says what counts as zero. */
  predicate Present(w: World, f: Field, v: GoValue) {
    f.omitempty ==> if f.typ.Named? && f.typ.isZero then !w.isZero(v) else v != ZeroValue(f.typ)
  }

  /** A field that is always there prints null when it is nil and nil is the zero value of its type. */
  predicate PrintsNull(f: Field, v: GoValue) {
    !f.omitempty && v.VNil? && ZeroValue(f.typ) == VNil
  }

  // ---------- documents ----------

  function BasicText(w: World, v: GoValue): string {
    match v
    case VBool(b) => if b then "true" else "false"
    case VInt(n) => Decimal(n)
    case VFloat(id) => w.float(id)
    case VString(s) => w.quote(s)
    case _ => ""
  }

  function DocOf(w: World, p: Package, v: GoValue, t: GoType): Doc
    requires HasType(p, v, t)
    decreases v, 2, t
  {
    match t
    case Basic(_) => Atom(BasicText(w, v))
    case Pointer(elem) =>
      var u := Underlying(elem);
      if u.Struct? && !HandWritten(elem) then if v.VPtr? then StructDocAt(w, p, v.target, elem) else Obj([])
      else if u.Basic? && v.VPtr? then Atom(BasicText(w, v.target))
      else Atom(w.method_(v))
    case Slice(elem) =>
      Arr(if v.VSlice? then seq(|v.elems|, i requires 0 <= i < |v.elems| => DocOf(w, p, v.elems[i], elem)) else [])
    case Map(key, elem) =>
      Obj(if v.VMap? then seq(|v.entries|, i requires 0 <= i < |v.entries| =>
                            Member(Print(DocOf(w, p, v.entries[i].key, key)),
                                   DocOf(w, p, v.entries[i].value, elem))) else [])
    case Interface => Atom(w.any(v))
    case Struct(name) => Obj(MembersFrom(w, p, v, p[name], 0))
    case Named(marshals, _, under) => if marshals then Atom(w.method_(v)) else DocOf(w, p, v, under)
    case Unsupported => Atom("")
  }

  /** What is behind a pointer to a struct, whatever the name of its type. */
  function StructDocAt(w: World, p: Package, v: GoValue, t: GoType): Doc
    requires HasType(p, v, t) && Underlying(t).Struct?
    decreases v, 1, t
  {
    if t.Named? then StructDocAt(w, p, v, t.under) else Obj(MembersFrom(w, p, v, p[t.name], 0))
  }

  /** The members for the fields from the `i`-th on that are present. */
  function MembersFrom(w: World, p: Package, v: GoValue, fs: seq<Field>, i: nat): seq<Member>
    requires v.VStruct? && HasFields(p, v, fs) && i <= |fs|
    decreases v, 0, |fs| - i
  {
    if i == |fs| then []
    else
      var f := fs[i];
      var x := v.fields[f.fieldName];
      var member := Member(w.goQuote(f.jsonName), if PrintsNull(f, x) then Atom("null") else DocOf(w, p, x, f.typ));
      (if Present(w, f, x) then [member] else []) + MembersFrom(w, p, v, fs, i + 1)
  }

  // ---------- nil pointers ----------

  /** No nil pointer stands where the emitted code dereferences one: that of a pointer to a basic
      type, and that of a receiver whose struct has a field to read. */
  predicate Safe(w: World, p: Package, v: GoValue, t: GoType)
    requires HasType(p, v, t)
    decreases v, 2, t
  {
    match t
    case Pointer(elem) =>
      var u := Underlying(elem);
      if u.Basic? then v.VPtr?
      else if u.Struct? && !HandWritten(elem) then
        if v.VPtr? then StructSafeAt(w, p, v.target, elem) else u.name in p && p[u.name] == []
      else true
    case Slice(elem) => v.VSlice? ==> forall i | 0 <= i < |v.elems| :: Safe(w, p, v.elems[i], elem)
    case Map(key, elem) =>
      v.VMap? ==> forall i | 0 <= i < |v.entries| ::
        Safe(w, p, v.entries[i].key, key) && Safe(w, p, v.entries[i].value, elem)
    case Struct(name) => FieldsSafe(w, p, v, p[name])
    case Named(marshals, _, under) => marshals || Safe(w, p, v, under)
    case _ => true
  }

  predicate StructSafeAt(w: World, p: Package, v: GoValue, t: GoType)
    requires HasType(p, v, t) && Underlying(t).Struct?
    decreases v, 1, t
  {
    if t.Named? then StructSafeAt(w, p, v, t.under) else FieldsSafe(w, p, v, p[t.name])
  }

  predicate FieldsSafe(w: World, p: Package, v: GoValue, fs: seq<Field>)
    requires v.VStruct? && HasFields(p, v, fs)
    decreases v, 0
  {
    forall i | 0 <= i < |fs| && Present(w, fs[i], v.fields[fs[i].fieldName])
               && !PrintsNull(fs[i], v.fields[fs[i].fieldName]) ::
      Safe(w, p, v.fields[fs[i].fieldName], fs[i].typ)
  }

  // ---------- how deep structs nest ----------

  /** At most `d` methods run inside each other for the value; a nil pointer may be a receiver too. */
  predicate Nests(v: GoValue, d: nat) {
    match v
    case VNil => d > 0
    case VPtr(target) => Nests(target, d)
    case VSlice(elems) => forall i | 0 <= i < |elems| :: Nests(elems[i], d)
    case VMap(entries) => forall i | 0 <= i < |entries| :: Nests(entries[i].key, d) && Nests(entries[i].value, d)
    case VStruct(fields) => d > 0 && forall x | x in fields :: Nests(fields[x], d - 1)
    case _ => true
  }

  lemma {:induction false} NestsMore(v: GoValue, d: nat, d': nat)
    requires Nests(v, d) && d <= d'
    ensures Nests(v, d')
    decreases v
  {
    match v
    case VPtr(target) => NestsMore(target, d, d');
    case VSlice(elems) => forall i | 0 <= i < |elems| ensures Nests(elems[i], d') { NestsMore(elems[i], d, d'); }
    case VMap(entries) =>
      forall i | 0 <= i < |entries| ensures Nests(entries[i].key, d') && Nests(entries[i].value, d') {
        NestsMore(entries[i].key, d, d');
        NestsMore(entries[i].value, d, d');
      }
    case VStruct(fields) =>
      forall x | x in fields ensures Nests(fields[x], d' - 1) { NestsMore(fields[x], d - 1, d' - 1); }
    case _ =>
  }

  /** Every value nests to some depth. */
  lemma {:induction false} NestsSome(v: GoValue) returns (d: nat)
    ensures Nests(v, d)
    decreases v, 1, 0
  {
    match v
    case VPtr(target) => d := NestsSome(target);
    case VSlice(elems) =>
      d := 0;
      for i := 0 to |elems|
        invariant forall j | 0 <= j < i :: Nests(elems[j], d)
      {
        var k := NestsSome(elems[i]);
        forall j | 0 <= j < i ensures Nests(elems[j], d + k) { NestsMore(elems[j], d, d + k); }
        NestsMore(elems[i], k, d + k);
        d := d + k;
      }
    case VMap(entries) =>
      d := 0;
      for i := 0 to |entries|
        invariant forall j | 0 <= j < i :: Nests(entries[j].key, d) && Nests(entries[j].value, d)
      {
        var k := NestsSome(entries[i].key);
        var x := NestsSome(entries[i].value);
        forall j | 0 <= j < i ensures Nests(entries[j].key, d + k + x) && Nests(entries[j].value, d + k + x) {
          NestsMore(entries[j].key, d, d + k + x);
          NestsMore(entries[j].value, d, d + k + x);
        }
        NestsMore(entries[i].key, k, d + k + x);
        NestsMore(entries[i].value, x, d + k + x);
        d := d + k + x;
      }
    case VStruct(fields) =>
      d := NestsFields(v, fields.Keys);
      d := d + 1;
    case _ => d := 1;
  }

  lemma {:induction false} NestsFields(v: GoValue, keys: set<string>) returns (d: nat)
    requires v.VStruct? && keys <= v.fields.Keys
    ensures forall x | x in keys :: Nests(v.fields[x], d)
    decreases v, 0, |keys|
  {
    if keys == {} {
      d := 0;
    } else {
      var x :| x in keys;
      var rest := NestsFields(v, keys - {x});
      var k := NestsSome(v.fields[x]);
      d := rest + k;
      forall y | y in keys ensures Nests(v.fields[y], d) {
        NestsMore(v.fields[y], if y == x then k else rest, d);
      }
    }
  }
}
