/** What the emitted methods write: the document of the value they are called on. */
module Marshalled {
  import opened Options
  import opened Json
  import opened EmittedCode
  import opened Generator
  import opened Documents

  // ---------- loops over slices ----------

  /** The texts from `i` on, as they follow those before. */
  function TextFrom(texts: seq<string>, i: nat): string
    requires i <= |texts|
  {
    if i == 0 then Join(texts) else Commas(texts[i..])
  }

  function Lead(i: nat): string {
    if i == 0 then "" else ","
  }

  lemma TextFromStep(texts: seq<string>, i: nat)
    requires i < |texts|
    ensures TextFrom(texts, i) == Lead(i) + texts[i] + TextFrom(texts, i + 1)
  {
    assert texts[i..][1..] == texts[i + 1..];
    assert texts[0..] == texts;
  }

  predicate AllFrom(safe: seq<bool>, i: nat) {
    forall j | i <= j < |safe| :: safe[j]
  }

  function ElemLocals(l: Locals, v: GoValue, i: nat): Locals {
    Locals(l.vars["v" := v], i)
  }

  /** Each round of a loop over `vs` writes the text of its element. */
  ghost predicate RoundsWrite(m: Machine, d: nat, body: seq<Stmt>, l: Locals, vs: seq<GoValue>, texts: seq<string>,
                              safe: seq<bool>)
    requires |vs| == |texts| == |safe|
  {
    forall i {:trigger ElemLocals(l, vs[i], i)} | 0 <= i < |vs| ::
      Writes(m, d, body, ElemLocals(l, vs[i], i), safe[i], Lead(i) + texts[i])
  }

  /** A loop whose every round writes its element writes them all. */
  lemma {:induction false} LoopRuns(
    m: Machine, d: nat, body: seq<Stmt>, l: Locals,
    vs: seq<GoValue>, texts: seq<string>, safe: seq<bool>, i: nat, st: State)
    requires i <= |vs| == |texts| == |safe| && RoundsWrite(m, d, body, l, vs, texts, safe)
    ensures RunElems(m, d, body, l, vs, i, st) == Wrote(AllFrom(safe, i), st, TextFrom(texts, i))
    decreases |vs| - i
  {
    if i == |vs| {
      assert texts[i..] == [];
      assert st.out + "" == st.out;
    } else {
      assert Writes(m, d, body, ElemLocals(l, vs[i], i), safe[i], Lead(i) + texts[i]);
      LoopRuns(m, d, body, l, vs, texts, safe, i + 1, Say(st, Lead(i) + texts[i]));
      TextFromStep(texts, i);
      SayTwice(st, Lead(i) + texts[i], TextFrom(texts, i + 1));
      assert AllFrom(safe, i) <==> safe[i] && AllFrom(safe, i + 1);
    }
  }

  lemma LoopWrites(m: Machine, d: nat, e: Expr, body: seq<Stmt>, l: Locals, v: GoValue, texts: seq<string>,
                   safe: seq<bool>)
    requires Eval(e, l) == Some(v) && (v.VNil? || v.VSlice?)
    requires var vs := if v.VSlice? then v.elems else [];
             |vs| == |texts| == |safe| && RoundsWrite(m, d, body, l, vs, texts, safe)
    ensures Writes(m, d, [RangeSlice(e, body)], l, AllFrom(safe, 0), Join(texts))
  {
    var loop := RangeSlice(e, body);
    forall st ensures RunAll(m, d, [loop], l, st) == Wrote(AllFrom(safe, 0), st, Join(texts)) {
      RunOne(m, d, loop, l, st);
      if v.VSlice? {
        LoopRuns(m, d, body, l, v.elems, texts, safe, 0, st);
      } else {
        assert st.out + "" == st.out;
      }
    }
  }

  /** The comma before an element that is not the first. */
  lemma ElemWrites(m: Machine, d: nat, code: seq<Stmt>, l: Locals, ok: bool, text: string)
    requires Writes(m, d, code, l, ok, text)
    ensures Writes(m, d, [If(IndexNotZero, [Emit(",")], [])] + code, l, ok, Lead(l.i) + text)
  {
    var comma := If(IndexNotZero, [Emit(",")], []);
    forall st ensures RunAll(m, d, [comma], l, st) == Wrote(true, st, Lead(l.i)) {
      RunOne(m, d, comma, l, st);
      RunOne(m, d, Emit(","), l, st);
      assert st.out + "" == st.out;
    }
    WritesConcat(m, d, [comma], code, l, true, Lead(l.i), ok, text);
  }

  // ---------- loops over maps ----------

  ghost predicate EntriesWrite(m: Machine, d: nat, code: seq<Stmt>, l: Locals, es: seq<Entry>, texts: seq<string>,
                               safe: seq<bool>)
    requires |es| == |texts| == |safe|
  {
    forall i {:trigger EntryLocals(l, es[i])} | 0 <= i < |es| ::
      Writes(m, d, code, EntryLocals(l, es[i]), safe[i], texts[i])
  }

  function EntryRound(code: seq<Stmt>): seq<Stmt> {
    [If(First, [SetFirst(false)], [Emit(",")])] + code
  }

  lemma RoundRuns(m: Machine, d: nat, code: seq<Stmt>, l: Locals, ok: bool, text: string, st: State)
    requires Writes(m, d, code, l, ok, text)
    ensures RunAll(m, d, EntryRound(code), l, st)
         == if ok then Some(State(st.out + ((if st.first then "" else ",") + text), false)) else None
  {
    var comma, lead := If(First, [SetFirst(false)], [Emit(",")]), if st.first then "" else ",";
    RunConcat(m, d, [comma], code, l, st);
    RunOne(m, d, comma, l, st);
    RunOne(m, d, SetFirst(false), l, st);
    RunOne(m, d, Emit(","), l, st);
    assert st.out + "" == st.out;
    assert RunAll(m, d, [comma], l, st) == Some(State(st.out + lead, false));
    assert st.out + lead + text == st.out + (lead + text);
  }

  lemma {:induction false} EntriesRun(
    m: Machine, d: nat, code: seq<Stmt>, l: Locals, es: seq<Entry>, texts: seq<string>, safe: seq<bool>, st: State)
    requires |es| == |texts| == |safe| && EntriesWrite(m, d, code, l, es, texts, safe)
    ensures RunEntries(m, d, EntryRound(code), l, es, st)
         == if AllFrom(safe, 0)
            then Some(State(st.out + (if st.first then Join(texts) else Commas(texts)), st.first && es == []))
            else None
    decreases |es|
  {
    if es == [] {
      assert st.out + "" == st.out;
    } else {
      assert Writes(m, d, code, EntryLocals(l, es[0]), safe[0], texts[0]);
      RoundRuns(m, d, code, EntryLocals(l, es[0]), safe[0], texts[0], st);
      var lead := if st.first then "" else ",";
      var st' := State(st.out + (lead + texts[0]), false);
      forall i | 0 <= i < |es[1..]|
        ensures Writes(m, d, code, EntryLocals(l, es[1..][i]), safe[1..][i], texts[1..][i]) {
        assert es[1..][i] == es[i + 1];
        assert Writes(m, d, code, EntryLocals(l, es[i + 1]), safe[i + 1], texts[i + 1]);
      }
      EntriesRun(m, d, code, l, es[1..], texts[1..], safe[1..], st');
      assert AllFrom(safe, 0) <==> safe[0] && AllFrom(safe[1..], 0) by { AllFromStep(safe); }
      assert "" + texts[0] == texts[0];
      assert (if st.first then Join(texts) else Commas(texts)) == lead + texts[0] + Commas(texts[1..]);
      assert st'.out + Commas(texts[1..]) == st.out + (lead + texts[0] + Commas(texts[1..]));
    }
  }

  lemma AllFromStep(safe: seq<bool>)
    requires safe != []
    ensures AllFrom(safe, 0) <==> safe[0] && AllFrom(safe[1..], 0)
  {
    forall j | 0 <= j < |safe[1..]| ensures safe[1..][j] == safe[j + 1] {}
  }

  lemma MapWrites(m: Machine, d: nat, e: Expr, code: seq<Stmt>, l: Locals, v: GoValue, texts: seq<string>,
                  safe: seq<bool>)
    requires Eval(e, l) == Some(v) && (v.VNil? || v.VMap?)
    requires var es := if v.VMap? then v.entries else [];
             |es| == |texts| == |safe| && EntriesWrite(m, d, code, l, es, texts, safe)
    ensures Writes(m, d, [Block([SetFirst(true)] + [RangeMap(e, EntryRound(code))])], l, AllFrom(safe, 0), Join(texts))
  {
    var loop := RangeMap(e, EntryRound(code));
    var block := Block([SetFirst(true)] + [loop]);
    forall st ensures RunAll(m, d, [block], l, st) == Wrote(AllFrom(safe, 0), st, Join(texts)) {
      RunOne(m, d, block, l, st);
      RunConcat(m, d, [SetFirst(true)], [loop], l, st);
      RunOne(m, d, SetFirst(true), l, st);
      RunOne(m, d, loop, l, st.(first := true));
      if v.VMap? {
        EntriesRun(m, d, code, l, v.entries, texts, safe, st.(first := true));
      } else {
        assert st.out + "" == st.out;
      }
    }
  }

  // ---------- values ----------

  ghost predicate Compiled(m: Machine, p: Package) {
    PackageSupported(p) && m.methods == Methods(m.world, p)
  }

  /** The code for a value writes its document, and fails exactly on a nil pointer it dereferences. */
  ghost predicate ValueWritten(m: Machine, p: Package, d: nat, e: Expr, t: GoType, l: Locals, v: GoValue)
    requires Supported(p, t) && HasType(p, v, t)
  {
    Writes(m, d, GenValue(p, e, t), l, Safe(m.world, p, v, t), Print(DocOf(m.world, p, v, t)))
  }

  function ElemTexts(w: World, p: Package, vs: seq<GoValue>, t: GoType): seq<string>
    requires forall i | 0 <= i < |vs| :: HasType(p, vs[i], t)
  {
    seq(|vs|, i requires 0 <= i < |vs| => Print(DocOf(w, p, vs[i], t)))
  }

  function ElemsSafe(w: World, p: Package, vs: seq<GoValue>, t: GoType): seq<bool>
    requires forall i | 0 <= i < |vs| :: HasType(p, vs[i], t)
  {
    seq(|vs|, i requires 0 <= i < |vs| => Safe(w, p, vs[i], t))
  }

  function Elems(v: GoValue): seq<GoValue> {
    if v.VSlice? then v.elems else []
  }

  lemma SliceWrites(m: Machine, p: Package, d: nat, e: Expr, t: GoType, l: Locals, v: GoValue)
    requires t.Slice? && Supported(p, t) && HasType(p, v, t) && Eval(e, l) == Some(v)
    requires forall i | 0 <= i < |Elems(v)| ::
               ValueWritten(m, p, d, Var("v"), t.elem, ElemLocals(l, Elems(v)[i], i), Elems(v)[i])
    ensures ValueWritten(m, p, d, e, t, l, v)
  {
    var vs, w := Elems(v), m.world;
    var texts, safe := ElemTexts(w, p, vs, t.elem), ElemsSafe(w, p, vs, t.elem);
    forall i | 0 <= i < |vs|
      ensures Writes(m, d, ElemBody(p, t.elem), ElemLocals(l, vs[i], i), safe[i], Lead(i) + texts[i]) {
      assert ValueWritten(m, p, d, Var("v"), t.elem, ElemLocals(l, vs[i], i), vs[i]);
      ElemWrites(m, d, GenValue(p, Var("v"), t.elem), ElemLocals(l, vs[i], i), safe[i], texts[i]);
    }
    LoopWrites(m, d, e, ElemBody(p, t.elem), l, v, texts, safe);
    WritesBetween(m, d, "[", [RangeSlice(e, ElemBody(p, t.elem))], "]", l, AllFrom(safe, 0), Join(texts));
    SliceText(w, p, t, v);
  }

  lemma SliceText(w: World, p: Package, t: GoType, v: GoValue)
    requires t.Slice? && HasType(p, v, t)
    ensures Print(DocOf(w, p, v, t)) == "[" + Join(ElemTexts(w, p, Elems(v), t.elem)) + "]"
    ensures Safe(w, p, v, t) <==> AllFrom(ElemsSafe(w, p, Elems(v), t.elem), 0)
  {
    var vs := Elems(v);
    var safe := ElemsSafe(w, p, vs, t.elem);
    assert forall i | 0 <= i < |vs| :: safe[i] == Safe(w, p, vs[i], t.elem);
    assert Texts(DocOf(w, p, v, t).items) == ElemTexts(w, p, vs, t.elem);
  }

  function Entries(v: GoValue): seq<Entry> {
    if v.VMap? then v.entries else []
  }

  function EntryTexts(w: World, p: Package, es: seq<Entry>, t: GoType): seq<string>
    requires t.Map? && forall i | 0 <= i < |es| :: HasType(p, es[i].key, t.key) && HasType(p, es[i].value, t.elem)
  {
    seq(|es|, i requires 0 <= i < |es| =>
          Print(DocOf(w, p, es[i].key, t.key)) + (":" + Print(DocOf(w, p, es[i].value, t.elem))))
  }

  function EntriesSafe(w: World, p: Package, es: seq<Entry>, t: GoType): seq<bool>
    requires t.Map? && forall i | 0 <= i < |es| :: HasType(p, es[i].key, t.key) && HasType(p, es[i].value, t.elem)
  {
    seq(|es|, i requires 0 <= i < |es| => Safe(w, p, es[i].key, t.key) && Safe(w, p, es[i].value, t.elem))
  }

  lemma MapValueWrites(m: Machine, p: Package, d: nat, e: Expr, t: GoType, l: Locals, v: GoValue)
    requires t.Map? && Supported(p, t) && HasType(p, v, t) && Eval(e, l) == Some(v)
    requires forall i | 0 <= i < |Entries(v)| ::
               && ValueWritten(m, p, d, Var("k"), t.key, EntryLocals(l, Entries(v)[i]), Entries(v)[i].key)
               && ValueWritten(m, p, d, Var("v"), t.elem, EntryLocals(l, Entries(v)[i]), Entries(v)[i].value)
    ensures ValueWritten(m, p, d, e, t, l, v)
  {
    var es, w, code := Entries(v), m.world, EntryCode(p, t);
    var texts, safe := EntryTexts(w, p, es, t), EntriesSafe(w, p, es, t);
    forall i | 0 <= i < |es| ensures Writes(m, d, code, EntryLocals(l, es[i]), safe[i], texts[i]) {
      EntryWrites(m, p, d, t, EntryLocals(l, es[i]), es[i]);
    }
    MapWrites(m, d, e, code, l, v, texts, safe);
    WritesBetween(m, d, "{", [Block([SetFirst(true)] + [RangeMap(e, EntryRound(code))])], "}", l, AllFrom(safe, 0),
                  Join(texts));
    MapText(w, p, t, v);
  }

  lemma EntryWrites(m: Machine, p: Package, d: nat, t: GoType, l: Locals, x: Entry)
    requires t.Map? && Supported(p, t) && HasType(p, x.key, t.key) && HasType(p, x.value, t.elem)
    requires ValueWritten(m, p, d, Var("k"), t.key, l, x.key) && ValueWritten(m, p, d, Var("v"), t.elem, l, x.value)
    ensures Writes(m, d, EntryCode(p, t), l, Safe(m.world, p, x.key, t.key) && Safe(m.world, p, x.value, t.elem),
                   Print(DocOf(m.world, p, x.key, t.key)) + (":" + Print(DocOf(m.world, p, x.value, t.elem))))
  {
    var w := m.world;
    var key, value := Print(DocOf(w, p, x.key, t.key)), Print(DocOf(w, p, x.value, t.elem));
    WritesEmit(m, d, ":", l);
    WritesConcat(m, d, [Emit(":")], GenValue(p, Var("v"), t.elem), l, true, ":", Safe(w, p, x.value, t.elem), value);
    WritesConcat(m, d, GenValue(p, Var("k"), t.key), [Emit(":")] + GenValue(p, Var("v"), t.elem), l,
                 Safe(w, p, x.key, t.key), key, Safe(w, p, x.value, t.elem), ":" + value);
  }

  lemma MapText(w: World, p: Package, t: GoType, v: GoValue)
    requires t.Map? && HasType(p, v, t)
    ensures Print(DocOf(w, p, v, t)) == "{" + Join(EntryTexts(w, p, Entries(v), t)) + "}"
    ensures Safe(w, p, v, t) <==> AllFrom(EntriesSafe(w, p, Entries(v), t), 0)
  {
    MapPrinted(w, p, t, v);
    var es := Entries(v);
    var safe := EntriesSafe(w, p, es, t);
    assert forall i | 0 <= i < |es| :: safe[i] == (Safe(w, p, es[i].key, t.key) && Safe(w, p, es[i].value, t.elem));
  }

  lemma MapPrinted(w: World, p: Package, t: GoType, v: GoValue)
    requires t.Map? && HasType(p, v, t)
    ensures MemberTexts(DocOf(w, p, v, t).members) == EntryTexts(w, p, Entries(v), t)
  {
    var es, ms := Entries(v), DocOf(w, p, v, t).members;
    forall i | 0 <= i < |es| ensures MemberTexts(ms)[i] == EntryTexts(w, p, es, t)[i] {
      Colon(Print(DocOf(w, p, es[i].key, t.key)), Print(DocOf(w, p, es[i].value, t.elem)));
    }
  }

  lemma Colon(key: string, value: string)
    ensures key + ":" + value == key + (":" + value)
  {
  }
}
