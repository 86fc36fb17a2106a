/** Exactly when what a generated marshaller writes is JSON. */
module MarshalledJson {
  import opened Options
  import opened Json
  import opened JsonScan
  import opened EmittedCode
  import opened Generator
  import opened Documents
  import opened Marshalled
  import opened MarshalledStruct
  import opened MarshalledPackage

  /** The writer quotes strings and formats numbers as JSON has them, and hand-written methods and the
      marshalling of interface values write JSON. */
  ghost predicate Sane(w: World) {
    && (forall s :: IsString(w.quote(s)))
    && (forall id :: IsNumber(w.float(id)))
    && (forall v :: IsJson(w.method_(v)))
    && (forall v :: IsJson(w.any(v)))
  }

  /** Field names, quoted when the code is generated, are JSON strings. */
  predicate NamesQuoted(w: World, p: Package) {
    forall name, i | name in p && 0 <= i < |p[name]| :: IsString(w.goQuote(p[name][i].jsonName))
  }

  // ---------- documents of values ----------

  lemma BasicIsJson(w: World, v: GoValue, k: Kind)
    requires Sane(w) && Handled(k) && HasKind(v, k)
    ensures IsJson(BasicText(w, v))
    ensures IsString(BasicText(w, v)) <==> k == String
  {
    if v.VInt? {
      DecimalIsJson(v.n);
      assert Decimal(v.n)[0] != '"';
    } else {
      assert IsLiteral(BasicText(w, v));
      LiteralIsJson(BasicText(w, v));
    }
    if v.VFloat? {
      NumberIsOrdinary(w.float(v.id));
    }
  }

  /** A loose document does not begin like a string unless it is one. */
  lemma LooseIsNameLike(d: Doc)
    requires Loose(d)
    ensures NameLike(Print(d))
  {
    if d.Atom? { JsonIsNameLike(d.text); }
  }

  lemma {:induction false} ValueIsLoose(w: World, p: Package, v: GoValue, t: GoType)
    requires Sane(w) && PackageSupported(p) && NamesQuoted(w, p)
    requires Supported(p, t) && HasType(p, v, t) && Safe(w, p, v, t)
    ensures Loose(DocOf(w, p, v, t))
    decreases v, 2, t
  {
    match t
    case Basic(k) => BasicIsJson(w, v, k);
    case Pointer(elem) =>
      var u := Underlying(elem);
      if u.Basic? {
        TypeOfUnderlying(p, v.target, elem);
        BasicIsJson(w, v.target, u.kind);
      } else if v.VPtr? && !HandWritten(elem) {
        AtUnderlying(w, p, v.target, elem);
        StructIsLoose(w, p, v.target, u.name);
      }
    case Slice(elem) =>
      if v.VSlice? {
        forall i | 0 <= i < |v.elems| ensures Loose(DocOf(w, p, v.elems[i], elem)) {
          ValueIsLoose(w, p, v.elems[i], elem);
        }
      }
    case Map(key, elem) =>
      if v.VMap? {
        forall i | 0 <= i < |v.entries| ensures MemberIsLoose(DocOf(w, p, v, t).members[i]) {
          ValueIsLoose(w, p, v.entries[i].key, key);
          LooseIsNameLike(DocOf(w, p, v.entries[i].key, key));
          ValueIsLoose(w, p, v.entries[i].value, elem);
        }
        MembersAreLoose(DocOf(w, p, v, t).members);
      }
    case Named(marshals, _, under) => if !marshals { ValueIsLoose(w, p, v, under); }
    case Interface =>
    case Struct(name) => StructIsLoose(w, p, v, name);
  }

  ghost predicate MemberIsLoose(m: Member) {
    NameLike(m.name) && Loose(m.value)
  }

  lemma MembersAreLoose(ms: seq<Member>)
    requires forall i | 0 <= i < |ms| :: MemberIsLoose(ms[i])
    ensures Loose(Obj(ms))
  {
  }

  lemma {:induction false} StructIsLoose(w: World, p: Package, v: GoValue, name: string)
    requires Sane(w) && PackageSupported(p) && NamesQuoted(w, p)
    requires HasType(p, v, Struct(name)) && FieldsSafe(w, p, v, p[name])
    ensures Loose(Obj(MembersFrom(w, p, v, p[name], 0)))
    decreases v, 1, name
  {
    var fs := p[name];
    forall i | 0 <= i < |fs| && Present(w, fs[i], v.fields[fs[i].fieldName])
      ensures Loose(FieldDoc(w, p, fs[i], v.fields[fs[i].fieldName]))
    {
      var f := fs[i];
      assert AllSupported(p, fs);
      if PrintsNull(f, v.fields[f.fieldName]) {
        LiteralIsJson("null");
      } else {
        ValueIsLoose(w, p, v.fields[f.fieldName], f.typ);
      }
    }
    assert forall i | 0 <= i < |fs| :: IsString(w.goQuote(p[name][i].jsonName));
    FieldsAreLoose(w, p, fs, v, 0);
    MembersAreLoose(MembersFrom(w, p, v, fs, 0));
  }

  lemma {:induction false} FieldsAreLoose(w: World, p: Package, fs: seq<Field>, v: GoValue, i: nat)
    requires v.VStruct? && HasFields(p, v, fs) && i <= |fs|
    requires forall j | 0 <= j < |fs| :: IsString(w.goQuote(fs[j].jsonName))
    requires forall j | 0 <= j < |fs| && Present(w, fs[j], v.fields[fs[j].fieldName]) ::
               Loose(FieldDoc(w, p, fs[j], v.fields[fs[j].fieldName]))
    ensures forall j | 0 <= j < |MembersFrom(w, p, v, fs, i)| :: MemberIsLoose(MembersFrom(w, p, v, fs, i)[j])
    decreases |fs| - i
  {
    if i < |fs| {
      FieldsAreLoose(w, p, fs, v, i + 1);
      assert IsString(w.goQuote(fs[i].jsonName));
    }
  }

  // ---------- the keys a value prints ----------

  /** Every map that is printed within the value has keys that are printed as strings. */
  predicate KeysAreStrings(w: World, p: Package, v: GoValue, t: GoType)
    requires HasType(p, v, t)
    decreases v, 2, t
  {
    match t
    case Pointer(elem) =>
      Underlying(elem).Struct? && !HandWritten(elem) && v.VPtr? ==> StructKeysAt(w, p, v.target, elem)
    case Slice(elem) => v.VSlice? ==> forall i | 0 <= i < |v.elems| :: KeysAreStrings(w, p, v.elems[i], elem)
    case Map(key, elem) =>
      v.VMap? ==> forall i | 0 <= i < |v.entries| ::
        IsString(Print(DocOf(w, p, v.entries[i].key, key))) && KeysAreStrings(w, p, v.entries[i].value, elem)
    case Struct(name) => FieldKeys(w, p, v, p[name])
    case Named(marshals, _, under) => marshals || KeysAreStrings(w, p, v, under)
    case _ => true
  }

  predicate StructKeysAt(w: World, p: Package, v: GoValue, t: GoType)
    requires HasType(p, v, t) && Underlying(t).Struct?
    decreases v, 1, t
  {
    if t.Named? then StructKeysAt(w, p, v, t.under) else FieldKeys(w, p, v, p[t.name])
  }

  predicate FieldKeys(w: World, p: Package, v: GoValue, fs: seq<Field>)
    requires v.VStruct? && HasFields(p, v, fs)
    decreases v, 0
  {
    forall i | 0 <= i < |fs| && Printed(w, fs[i], v.fields[fs[i].fieldName]) ::
      KeysAreStrings(w, p, v.fields[fs[i].fieldName], fs[i].typ)
  }

  /** The field is there, and not as null. */
  predicate Printed(w: World, f: Field, v: GoValue) {
    Present(w, f, v) && !PrintsNull(f, v)
  }

  lemma {:induction false} KeysAt(w: World, p: Package, v: GoValue, t: GoType)
    requires HasType(p, v, t) && Underlying(t).Struct?
    ensures HasType(p, v, Underlying(t)) && (StructKeysAt(w, p, v, t) <==> FieldKeys(w, p, v, p[Underlying(t).name]))
    decreases t
  {
    if t.Named? { KeysAt(w, p, v, t.under); }
  }

  lemma {:induction false} ValueNamed(w: World, p: Package, v: GoValue, t: GoType)
    requires HasType(p, v, t) && NamesQuoted(w, p)
    ensures StringNames(DocOf(w, p, v, t)) <==> KeysAreStrings(w, p, v, t)
    decreases v, 2, t
  {
    match t
    case Pointer(elem) =>
      if Underlying(elem).Struct? && !HandWritten(elem) && v.VPtr? {
        KeysAt(w, p, v.target, elem);
        StructNamed(w, p, v.target, Underlying(elem).name);
        AtUnderlying(w, p, v.target, elem);
      }
    case Slice(elem) =>
      if v.VSlice? {
        forall i | 0 <= i < |v.elems|
          ensures StringNames(DocOf(w, p, v, t).items[i]) <==> KeysAreStrings(w, p, v.elems[i], elem)
        {
          ValueNamed(w, p, v.elems[i], elem);
        }
      }
    case Map(key, elem) =>
      if v.VMap? {
        forall i | 0 <= i < |v.entries|
          ensures StringNames(DocOf(w, p, v, t).members[i].value) <==> KeysAreStrings(w, p, v.entries[i].value, elem)
        {
          ValueNamed(w, p, v.entries[i].value, elem);
        }
      }
    case Named(marshals, _, under) => if !marshals { ValueNamed(w, p, v, under); }
    case Struct(name) => StructNamed(w, p, v, name);
    case _ =>
  }

  lemma {:induction false} StructNamed(w: World, p: Package, v: GoValue, name: string)
    requires HasType(p, v, Struct(name)) && NamesQuoted(w, p)
    ensures StringNames(Obj(MembersFrom(w, p, v, p[name], 0))) <==> FieldKeys(w, p, v, p[name])
    decreases v, 1, name
  {
    var fs := p[name];
    forall i | 0 <= i < |fs|
      ensures FieldNamed(w, p, fs[i], v.fields[fs[i].fieldName]) <==> FieldFine(w, p, fs[i], v.fields[fs[i].fieldName])
    {
      ValueNamed(w, p, v.fields[fs[i].fieldName], fs[i].typ);
    }
    FieldsNamed(w, p, fs, v, 0);
  }

  predicate FieldNamed(w: World, p: Package, f: Field, v: GoValue)
    requires HasType(p, v, f.typ)
  {
    Present(w, f, v) ==> StringNames(FieldDoc(w, p, f, v))
  }

  predicate FieldFine(w: World, p: Package, f: Field, v: GoValue)
    requires HasType(p, v, f.typ)
  {
    Printed(w, f, v) ==> KeysAreStrings(w, p, v, f.typ)
  }

  predicate NamedFrom(w: World, p: Package, fs: seq<Field>, v: GoValue, i: nat)
    requires v.VStruct? && HasFields(p, v, fs)
  {
    forall j | i <= j < |fs| :: FieldNamed(w, p, fs[j], v.fields[fs[j].fieldName])
  }

  lemma NamedFromNext(w: World, p: Package, fs: seq<Field>, v: GoValue, i: nat)
    requires v.VStruct? && HasFields(p, v, fs) && i < |fs|
    ensures NamedFrom(w, p, fs, v, i)
       <==> FieldNamed(w, p, fs[i], v.fields[fs[i].fieldName]) && NamedFrom(w, p, fs, v, i + 1)
  {
  }

  lemma MembersNext(w: World, p: Package, fs: seq<Field>, v: GoValue, i: nat)
    requires v.VStruct? && HasFields(p, v, fs) && i < |fs|
    ensures var f, x, rest := fs[i], v.fields[fs[i].fieldName], MembersFrom(w, p, v, fs, i + 1);
            MembersFrom(w, p, v, fs, i)
            == if Present(w, f, x) then [Member(w.goQuote(f.jsonName), FieldDoc(w, p, f, x))] + rest else rest
  {
  }

  /** The members from a field on are named by strings when those of the printed fields are. */
  predicate MembersAgree(w: World, p: Package, fs: seq<Field>, v: GoValue, i: nat)
    requires v.VStruct? && HasFields(p, v, fs) && i <= |fs|
  {
    StringNames(Obj(MembersFrom(w, p, v, fs, i))) <==> NamedFrom(w, p, fs, v, i)
  }

  lemma MembersAgreeNext(w: World, p: Package, fs: seq<Field>, v: GoValue, i: nat)
    requires v.VStruct? && HasFields(p, v, fs) && i < |fs| && IsString(w.goQuote(fs[i].jsonName))
    requires MembersAgree(w, p, fs, v, i + 1)
    ensures MembersAgree(w, p, fs, v, i)
  {
    var f, x, rest := fs[i], v.fields[fs[i].fieldName], MembersFrom(w, p, v, fs, i + 1);
    var first := Member(w.goQuote(f.jsonName), FieldDoc(w, p, f, x));
    MembersNext(w, p, fs, v, i);
    NamedFromNext(w, p, fs, v, i);
    FirstNamed(first, rest);
    assert FieldNamed(w, p, f, x) <==> (Present(w, f, x) ==> StringNames(first.value));
    assert StringNames(Obj(MembersFrom(w, p, v, fs, i)))
      <==> (Present(w, f, x) ==> StringNames(first.value)) && StringNames(Obj(rest));
  }

  lemma {:induction false} FieldsNamed(w: World, p: Package, fs: seq<Field>, v: GoValue, i: nat)
    requires v.VStruct? && HasFields(p, v, fs) && i <= |fs|
    requires forall j | 0 <= j < |fs| :: IsString(w.goQuote(fs[j].jsonName))
    ensures MembersAgree(w, p, fs, v, i)
    decreases |fs| - i
  {
    if i < |fs| {
      FieldsNamed(w, p, fs, v, i + 1);
      MembersAgreeNext(w, p, fs, v, i);
    }
  }

  lemma FirstNamed(m: Member, rest: seq<Member>)
    ensures StringNames(Obj([m] + rest)) <==> IsString(m.name) && StringNames(m.value) && StringNames(Obj(rest))
  {
    var ms := [m] + rest;
    assert ms[0] == m && ms[1..] == rest;
    assert forall i | 0 <= i < |rest| :: ms[i + 1] == rest[i];
  }

  // ---------- exactly when ----------

  /** What is printed for a value is JSON exactly when every map in it has keys printed as strings. */
  lemma ValueIsJsonIff(w: World, p: Package, v: GoValue, t: GoType)
    requires Sane(w) && PackageSupported(p) && NamesQuoted(w, p)
    requires Supported(p, t) && HasType(p, v, t) && Safe(w, p, v, t)
    ensures IsJson(Print(DocOf(w, p, v, t))) <==> KeysAreStrings(w, p, v, t)
  {
    ValueIsLoose(w, p, v, t);
    ValueNamed(w, p, v, t);
    JsonIff(DocOf(w, p, v, t));
  }

  /** Whatever method of the package is called on whatever receiver, it runs to the end and has written
      JSON exactly when it meets no nil pointer and every map it prints has keys printed as strings. */
  lemma StructIsJsonIff(m: Machine, p: Package, d: nat, name: string, recv: GoValue, first: bool)
    requires Compiled(m, p) && Sane(m.world) && NamesQuoted(m.world, p)
    requires name in p && HasType(p, recv, Struct(name)) && Nests(recv, d + 1)
    ensures var r := RunAll(m, d, m.methods[name], MethodLocals(recv), State("", first));
            r.Some? && IsJson(r.value.out)
            <==> Safe(m.world, p, recv, Struct(name)) && KeysAreStrings(m.world, p, recv, Struct(name))
  {
    StructRuns(m, p, d, name, recv, State("", first));
    if Safe(m.world, p, recv, Struct(name)) {
      ValueIsJsonIff(m.world, p, recv, Struct(name));
      assert "" + Print(DocOf(m.world, p, recv, Struct(name))) == Print(DocOf(m.world, p, recv, Struct(name)));
    }
  }

  // ---------- told from the types ----------

  /** The kind of basic value that code for the type writes, if it writes one. */
  function Kinds(t: GoType): Option<Kind> {
    match t
    case Basic(k) => Some(k)
    case Pointer(elem) => if Underlying(elem).Basic? then Some(Underlying(elem).kind) else None
    case Named(marshals, _, under) => if marshals then None else Kinds(under)
    case _ => None
  }

  /** Every map inside the type has keys written as strings. */
  predicate StringKeys(t: GoType) {
    match t
    case Slice(elem) => StringKeys(elem)
    case Map(key, elem) => Kinds(key) == Some(String) && StringKeys(elem)
    case Named(marshals, _, under) => marshals || StringKeys(under)
    case _ => true
  }

  predicate AllStringKeys(p: Package) {
    forall name, i | name in p && 0 <= i < |p[name]| :: StringKeys(p[name][i].typ)
  }

  lemma {:induction false} KeyIsString(w: World, p: Package, v: GoValue, t: GoType)
    requires Sane(w) && Supported(p, t) && Kinds(t).Some? && HasType(p, v, t) && Safe(w, p, v, t)
    ensures IsString(Print(DocOf(w, p, v, t))) <==> Kinds(t) == Some(String)
    decreases t
  {
    match t
    case Basic(k) => BasicIsJson(w, v, k);
    case Pointer(elem) =>
      TypeOfUnderlying(p, v.target, elem);
      BasicIsJson(w, v.target, Underlying(elem).kind);
    case Named(_, _, under) => KeyIsString(w, p, v, under);
  }

  lemma {:induction false} StringKeysSuffice(w: World, p: Package, v: GoValue, t: GoType)
    requires Sane(w) && PackageSupported(p) && AllStringKeys(p)
    requires Supported(p, t) && StringKeys(t) && HasType(p, v, t) && Safe(w, p, v, t)
    ensures KeysAreStrings(w, p, v, t)
    decreases v, 2, t
  {
    match t
    case Pointer(elem) =>
      if Underlying(elem).Struct? && !HandWritten(elem) && v.VPtr? {
        AtUnderlying(w, p, v.target, elem);
        KeysAt(w, p, v.target, elem);
        StructKeysSuffice(w, p, v.target, Underlying(elem).name);
      }
    case Slice(elem) =>
      if v.VSlice? {
        forall i | 0 <= i < |v.elems| ensures KeysAreStrings(w, p, v.elems[i], elem) {
          StringKeysSuffice(w, p, v.elems[i], elem);
        }
      }
    case Map(key, elem) =>
      if v.VMap? {
        forall i | 0 <= i < |v.entries|
          ensures IsString(Print(DocOf(w, p, v.entries[i].key, key))) && KeysAreStrings(w, p, v.entries[i].value, elem)
        {
          KeyIsString(w, p, v.entries[i].key, key);
          StringKeysSuffice(w, p, v.entries[i].value, elem);
        }
      }
    case Named(marshals, _, under) => if !marshals { StringKeysSuffice(w, p, v, under); }
    case Struct(name) => StructKeysSuffice(w, p, v, name);
    case _ =>
  }

  lemma {:induction false} StructKeysSuffice(w: World, p: Package, v: GoValue, name: string)
    requires Sane(w) && PackageSupported(p) && AllStringKeys(p)
    requires HasType(p, v, Struct(name)) && FieldsSafe(w, p, v, p[name])
    ensures FieldKeys(w, p, v, p[name])
    decreases v, 1, name
  {
    var fs := p[name];
    forall i | 0 <= i < |fs| && Printed(w, fs[i], v.fields[fs[i].fieldName])
      ensures KeysAreStrings(w, p, v.fields[fs[i].fieldName], fs[i].typ)
    {
      assert AllSupported(p, fs) && StringKeys(p[name][i].typ);
      StringKeysSuffice(w, p, v.fields[fs[i].fieldName], fs[i].typ);
    }
  }

  /** In a package whose maps all have keys written as strings, a method that runs to the end has
      written JSON. */
  lemma StructIsJson(m: Machine, p: Package, d: nat, name: string, recv: GoValue, first: bool)
    requires Compiled(m, p) && Sane(m.world) && NamesQuoted(m.world, p) && AllStringKeys(p)
    requires name in p && HasType(p, recv, Struct(name)) && Nests(recv, d + 1)
    ensures var r := RunAll(m, d, m.methods[name], MethodLocals(recv), State("", first));
            r.Some? ==> IsJson(r.value.out)
  {
    StructRuns(m, p, d, name, recv, State("", first));
    StructIsJsonIff(m, p, d, name, recv, first);
    if Safe(m.world, p, recv, Struct(name)) { StringKeysSuffice(m.world, p, recv, Struct(name)); }
  }

  /** A non-empty map whose keys are written as basic values is written as JSON exactly when these are
      strings and its values have nothing else wrong with them. */
  lemma MapIsJsonIff(w: World, p: Package, v: GoValue, t: GoType)
    requires Sane(w) && PackageSupported(p) && NamesQuoted(w, p)
    requires t.Map? && Supported(p, t) && Kinds(t.key).Some?
    requires HasType(p, v, t) && Safe(w, p, v, t) && v.VMap? && v.entries != []
    ensures IsJson(Print(DocOf(w, p, v, t)))
       <==> && Kinds(t.key) == Some(String)
            && forall i | 0 <= i < |v.entries| :: KeysAreStrings(w, p, v.entries[i].value, t.elem)
  {
    ValueIsJsonIff(w, p, v, t);
    forall i | 0 <= i < |v.entries|
      ensures IsString(Print(DocOf(w, p, v.entries[i].key, t.key))) <==> Kinds(t.key) == Some(String)
    {
      KeyIsString(w, p, v.entries[i].key, t.key);
    }
    assert v.entries[0] in v.entries;
  }
}
