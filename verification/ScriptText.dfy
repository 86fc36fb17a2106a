/** From script text to its value: the tokenizer, the evaluator, and writing an expression as text. */
module ScriptText {
  import opened Options
  import opened ScriptGrammar
  import opened ScriptParsing
  import Json

  // ---------- tokens of a text ----------

  predicate IsSpace(c: char) {
    c == ' ' || c == '\t' || c == '\n'
  }

  predicate IsSign(c: char) {
    c == '+' || c == '-' || c == '*' || c == '/' || c == '(' || c == ')'
  }

  /** A dot between two digits is a decimal point; any other dot separates. */
  predicate DecimalPoint(s: string, i: nat)
    requires i < |s|
  {
    i > 0 && Json.IsDigit(s[i - 1]) && i + 1 < |s| && Json.IsDigit(s[i + 1])
  }

  function Flush(cur: string): seq<string> {
    if cur == "" then [] else [cur]
  }

  /** The tokens from position `i` on, with `cur` read but not yet emitted. */
  function TokensFrom(s: string, i: nat, cur: string): seq<string>
    requires i <= |s|
    decreases |s| - i
  {
    if i == |s| then Flush(cur)
    else if IsSpace(s[i]) then Flush(cur) + TokensFrom(s, i + 1, "")
    else if IsSign(s[i]) then Flush(cur) + [[s[i]]] + TokensFrom(s, i + 1, "")
    else if s[i] == '.' && !DecimalPoint(s, i) then Flush(cur) + ["."] + TokensFrom(s, i + 1, "")
    else TokensFrom(s, i + 1, cur + [s[i]])
  }

  function Tokenize(s: string): seq<string> {
    TokensFrom(s, 0, "")
  }

  method TokenizeScript(s: string) returns (toks: seq<string>)
    ensures toks == Tokenize(s)
  {
    toks := [];
    var cur := "";
    for i := 0 to |s|
      invariant toks + TokensFrom(s, i, cur) == Tokenize(s)
    {
      var emitted;
      emitted, cur := ReadChar(s, i, cur);
      Regroup(toks, emitted, TokensFrom(s, i + 1, cur));
      toks := toks + emitted;
    }
    toks := toks + Flush(cur);
  }

  /** One turn of the loop: the tokens that end here, and what is left to read on. */
  method ReadChar(s: string, i: nat, cur: string) returns (emitted: seq<string>, cur': string)
    requires i < |s|
    ensures TokensFrom(s, i, cur) == emitted + TokensFrom(s, i + 1, cur')
  {
    if IsSpace(s[i]) {
      return Flush(cur), "";
    } else if IsSign(s[i]) {
      return Flush(cur) + [[s[i]]], "";
    } else if s[i] == '.' && !DecimalPoint(s, i) {
      return Flush(cur) + ["."], "";
    } else {
      return [], cur + [s[i]];
    }
  }

  lemma Regroup(a: seq<string>, b: seq<string>, c: seq<string>)
    ensures a + (b + c) == a + b + c
  {
  }

  // ---------- what the tokens are ----------

  /** The text without its spaces, tabs and newlines. */
  function Visible(s: string): string {
    if s == "" then "" else (if s[0] in " \t\n" then "" else [s[0]]) + Visible(s[1..])
  }

  function Together(toks: seq<string>): string {
    if toks == [] then "" else toks[0] + Together(toks[1..])
  }

  lemma {:induction false} TogetherConcat(a: seq<string>, b: seq<string>)
    ensures Together(a + b) == Together(a) + Together(b)
    decreases |a|
  {
    if a == [] {
      assert a + b == b;
    } else {
      assert (a + b)[1..] == a[1..] + b;
      TogetherConcat(a[1..], b);
    }
  }

  lemma {:induction false} TokensFromCover(s: string, i: nat, cur: string)
    requires i <= |s|
    ensures Together(TokensFrom(s, i, cur)) == cur + Visible(s[i..])
    decreases |s| - i
  {
    if i == |s| {
      TogetherFlush(cur);
    } else {
      var visible := if IsSpace(s[i]) then "" else [s[i]];
      assert Visible(s[i..]) == visible + Visible(s[i + 1..]) by { assert s[i..][1..] == s[i + 1..]; }
      if IsSpace(s[i]) || IsSign(s[i]) || (s[i] == '.' && !DecimalPoint(s, i)) {
        TokensFromCover(s, i + 1, "");
        TogetherEmitted(cur, if IsSpace(s[i]) then [] else [[s[i]]], TokensFrom(s, i + 1, ""));
      } else {
        TokensFromCover(s, i + 1, cur + [s[i]]);
      }
    }
  }

  lemma TogetherEmitted(cur: string, sign: seq<string>, rest: seq<string>)
    requires |sign| <= 1
    ensures Together(Flush(cur) + sign + rest) == cur + (if sign == [] then "" else sign[0]) + Together(rest)
    ensures sign == [] ==> Flush(cur) + sign + rest == Flush(cur) + rest
  {
    TogetherFlush(cur);
    TogetherConcat(Flush(cur) + sign, rest);
    if sign == [] {
      assert Flush(cur) + sign == Flush(cur);
    } else {
      TogetherConcat(Flush(cur), sign);
      TogetherFlush(sign[0]);
      assert sign == [sign[0]] && (sign[0] != "" ==> sign == Flush(sign[0]));
      assert sign[0] == "" ==> Together(sign) == "";
    }
  }

  lemma TogetherFlush(cur: string)
    ensures Together(Flush(cur)) == cur
  {
    assert [cur][1..] == [];
  }

  /** Together the tokens are the text without its white space, in order. */
  lemma TokensCover(s: string)
    ensures Together(Tokenize(s)) == Visible(s)
  {
    TokensFromCover(s, 0, "");
    assert s[0..] == s;
  }

  /** A sign or a dot of its own, or a word: no white space, no sign, and dots only between digits. */
  predicate Proper(t: string) {
    || t in ["+", "-", "*", "/", "(", ")", "."]
    || (&& t != "" && (forall k | 0 <= k < |t| :: t[k] !in " \t\n+-*/()")
        && (forall k | 0 <= k < |t| && t[k] == '.' ::
              0 < k < |t| - 1 && '0' <= t[k - 1] <= '9' && '0' <= t[k + 1] <= '9'))
  }

  /** What was read but not yet emitted: the characters up to `i`, since the last separator. */
  ghost predicate ReadSoFar(s: string, i: nat, cur: string)
    requires i <= |s|
  {
    && |cur| <= i && s[i - |cur|..i] == cur
    && (|cur| < i ==> !Json.IsDigit(s[i - |cur| - 1]))
    && (forall k | 0 <= k < |cur| :: !IsSpace(cur[k]) && !IsSign(cur[k]))
    && (forall k | 0 <= k < |cur| && cur[k] == '.' :: DecimalPoint(s, i - |cur| + k))
  }

  lemma FlushedIsProper(s: string, i: nat, cur: string)
    requires i <= |s| && ReadSoFar(s, i, cur) && (i < |s| ==> !Json.IsDigit(s[i]))
    ensures forall t | t in Flush(cur) :: Proper(t)
  {
    if cur != "" {
      forall k | 0 <= k < |cur| && cur[k] == '.'
        ensures 0 < k < |cur| - 1 && '0' <= cur[k - 1] <= '9' && '0' <= cur[k + 1] <= '9'
      {
        var j := i - |cur| + k;
        assert DecimalPoint(s, j) && j + 1 < i;
        assert cur[k - 1] == s[j - 1] && cur[k + 1] == s[j + 1];
      }
      assert Proper(cur);
    }
  }

  lemma {:induction false} TokensFromProper(s: string, i: nat, cur: string)
    requires i <= |s| && ReadSoFar(s, i, cur)
    ensures forall t | t in TokensFrom(s, i, cur) :: Proper(t)
    decreases |s| - i
  {
    if i == |s| {
      FlushedIsProper(s, i, cur);
    } else if IsSpace(s[i]) || IsSign(s[i]) || (s[i] == '.' && !DecimalPoint(s, i)) {
      FlushedIsProper(s, i, cur);
      assert ReadSoFar(s, i + 1, "");
      TokensFromProper(s, i + 1, "");
      assert IsSign(s[i]) ==> Proper([s[i]]);
    } else {
      ReadOneMore(s, i, cur);
      TokensFromProper(s, i + 1, cur + [s[i]]);
    }
  }

  lemma ReadOneMore(s: string, i: nat, cur: string)
    requires i < |s| && ReadSoFar(s, i, cur) && !IsSpace(s[i]) && !IsSign(s[i]) && (s[i] == '.' ==> DecimalPoint(s, i))
    ensures ReadSoFar(s, i + 1, cur + [s[i]])
  {
    assert s[i - |cur|..i + 1] == s[i - |cur|..i] + [s[i]];
  }

  lemma TokensProper(s: string)
    ensures forall t | t in Tokenize(s) :: Proper(t)
  {
    TokensFromProper(s, 0, "");
  }

  function Kinds(ss: seq<string>): (ks: seq<Token>)
    ensures |ks| == |ss|
    ensures forall i | 0 <= i < |ss| :: ks[i] == Classify(ss[i])
  {
    seq(|ss|, i requires 0 <= i < |ss| => Classify(ss[i]))
  }

  function Eval<N>(script: string, env: Env<N>): Outcome<N> {
    EvalTokens(Kinds(Tokenize(script)), env)
  }

  // ---------- the parser object ----------

  class ScriptParser<N> {
    const toks: seq<string>
    const env: Env<N>
    var pos: nat

    constructor (toks: seq<string>, env: Env<N>)
      ensures this.toks == toks && this.env == env && pos == 0
    {
      this.toks, this.env, pos := toks, env, 0;
    }

    function Current(): (t: string)
      reads this
      ensures Classify(t) == Peek(Kinds(toks), pos) && t == Spell(Classify(t))
    {
      var t := if pos < |toks| then toks[pos] else "";
      SpellOfClassify(t);
      t
    }

    method Next() returns (t: string)
      modifies this`pos
      ensures pos == old(pos) + 1 && t == old(Current())
    {
      t := Current();
      pos := pos + 1;
    }

    /** The outcome agrees with the parse `want`; on success so does the position. */
    ghost predicate Agrees(r: Option<N>, want: Parsed<N>)
      reads this
    {
      (r.Some? <==> want.Done?) && (r.Some? ==> want == Done(r.value, pos))
    }

    method Expression() returns (r: Option<N>)
      modifies this`pos
      ensures Agrees(r, ParseExpr(Kinds(toks), env, old(pos)))
      decreases Left(Kinds(toks), pos), 2
    {
      ghost var ks := Kinds(toks);
      r := Product();
      if r.None? {
        return;
      }
      var left := r.value;
      ghost var want := ParseExpr(ks, env, old(pos));
      while true
        invariant old(pos) < pos <= |ks| + 1
        invariant want == ParseExprRest(ks, env, left, pos)
        decreases |ks| + 1 - pos
      {
        var more;
        more, r := Added(left);
        if !more {
          return;
        }
        left := r.value;
      }
    }

    /** One turn of the loop over terms; `more` says that it goes on. */
    method Added(left: N) returns (more: bool, r: Option<N>)
      requires pos <= |toks| + 1
      modifies this`pos
      ensures !more ==> Agrees(r, ParseExprRest(Kinds(toks), env, left, old(pos)))
      ensures more ==> r.Some? && old(pos) < pos <= |toks| + 1
      ensures more ==> ParseExprRest(Kinds(toks), env, left, old(pos)) == ParseExprRest(Kinds(toks), env, r.value, pos)
      decreases Left(Kinds(toks), pos), 1, 1
    {
      var op := Current();
      if op != "+" && op != "-" {
        return false, Some(left);
      }
      var _ := Next();
      var right := Product();
      if right.None? {
        return false, None;
      }
      if op == "+" {
        r := Some(env.ops.add(left, right.value));
      } else {
        r := Some(env.ops.sub(left, right.value));
      }
      return true, r;
    }

    method Product() returns (r: Option<N>)
      modifies this`pos
      ensures Agrees(r, ParseTerm(Kinds(toks), env, old(pos)))
      decreases Left(Kinds(toks), pos), 1
    {
      ghost var ks := Kinds(toks);
      r := Atom();
      if r.None? {
        return;
      }
      var left := r.value;
      ghost var want := ParseTerm(ks, env, old(pos));
      while true
        invariant old(pos) < pos <= |ks| + 1
        invariant want == ParseTermRest(ks, env, left, pos)
        decreases |ks| + 1 - pos
      {
        var more;
        more, r := Scaled(left);
        if !more {
          return;
        }
        left := r.value;
      }
    }

    /** One turn of the loop over factors; `more` says that it goes on. */
    method Scaled(left: N) returns (more: bool, r: Option<N>)
      requires pos <= |toks| + 1
      modifies this`pos
      ensures !more ==> Agrees(r, ParseTermRest(Kinds(toks), env, left, old(pos)))
      ensures more ==> r.Some? && old(pos) < pos <= |toks| + 1
      ensures more ==> ParseTermRest(Kinds(toks), env, left, old(pos)) == ParseTermRest(Kinds(toks), env, r.value, pos)
      decreases Left(Kinds(toks), pos), 0, 1
    {
      var op := Current();
      if op != "*" && op != "/" {
        return false, Some(left);
      }
      var _ := Next();
      var right := Atom();
      if right.None? {
        return false, None;
      }
      if op == "*" {
        r := Some(env.ops.mul(left, right.value));
      } else if env.ops.isZero(right.value) {
        r := Some(env.ops.zero);
      } else {
        r := Some(env.ops.div(left, right.value));
      }
      return true, r;
    }

    method Atom() returns (r: Option<N>)
      modifies this`pos
      ensures Agrees(r, ParseFactor(Kinds(toks), env, old(pos)))
      decreases Left(Kinds(toks), pos), 0
    {
      var t := Next();
      if t == "" {
        return None;
      }
      if t == "(" {
        r := Inner();
      } else if t == "-" {
        r := Atom();
        if r.Some? {
          r := Some(env.ops.neg(r.value));
        }
      } else if t == "params" {
        r := Parameter();
      } else {
        r := env.read(t);
      }
    }

    /** After an opening parenthesis. */
    method Inner() returns (r: Option<N>)
      requires pos > 0 && Peek(Kinds(toks), pos - 1).Open?
      modifies this`pos
      ensures Agrees(r, ParseFactor(Kinds(toks), env, old(pos) - 1))
      decreases Left(Kinds(toks), pos), 3
    {
      r := Expression();
      if r.Some? {
        var close := Next();
        if close != ")" {
          return None;
        }
      }
    }

    /** After the word params. */
    method Parameter() returns (r: Option<N>)
      requires pos > 0 && Peek(Kinds(toks), pos - 1).Params?
      modifies this`pos
      ensures Agrees(r, ParseFactor(Kinds(toks), env, old(pos) - 1))
    {
      var dot := Next();
      if dot != "." {
        return None;
      }
      var name := Next();
      if name !in env.params {
        return None;
      }
      r := Some(env.params[name]);
    }
  }

  method EvalScript<N>(script: string, env: Env<N>) returns (r: Outcome<N>)
    ensures r == Eval(script, env)
  {
    var toks := TokenizeScript(script);
    var p := new ScriptParser(toks, env);
    var v := p.Expression();
    if v.None? {
      return Error;
    }
    if p.pos != |toks| {
      return if p.pos < |toks| then Error else IndexPanic;
    }
    return Value(v.value);
  }

  // ---------- writing an expression as text ----------

  function ExprText(e: Expr): string {
    match e
    case Just(t) => TermText(t)
    case Sum(l, op, r) => ExprText(l) + " " + Spell(AddSign(op)) + " " + TermText(r)
  }

  function TermText(t: Term): string {
    match t
    case One(f) => FactorText(f)
    case Scale(l, op, r) => TermText(l) + " " + Spell(MulSign(op)) + " " + FactorText(r)
  }

  function FactorText(f: Factor): string {
    match f
    case Num(t) => Spell(t)
    case Param(name) => "params." + Spell(name)
    case Paren(e) => "(" + ExprText(e) + ")"
    case Neg(g) => "-" + FactorText(g)
  }

  /** A text that the tokenizer keeps in one piece: no separators, and dots only as decimal points. */
  predicate Solid(w: string) {
    && w != ""
    && (forall k | 0 <= k < |w| :: !IsSpace(w[k]) && !IsSign(w[k]))
    && (forall k | 0 <= k < |w| && w[k] == '.' :: DecimalPoint(w, k))
  }

  predicate ExprWritable(e: Expr) {
    match e
    case Just(t) => TermWritable(t)
    case Sum(l, _, r) => ExprWritable(l) && TermWritable(r)
  }

  predicate TermWritable(t: Term) {
    match t
    case One(f) => FactorWritable(f)
    case Scale(l, _, r) => TermWritable(l) && FactorWritable(r)
  }

  predicate FactorWritable(f: Factor) {
    match f
    case Num(t) => Solid(Spell(t)) && Classify(Spell(t)) == t
    case Param(name) => Solid(Spell(name)) && '.' !in Spell(name) && Classify(Spell(name)) == name
    case Paren(e) => ExprWritable(e)
    case Neg(g) => FactorWritable(g)
  }

  /** A word that ends here is complete. */
  predicate Boundary(s: string, j: nat) {
    j <= |s| && (j < |s| ==> IsSpace(s[j]) || IsSign(s[j]))
  }

  /** `w` is written from position `i` on. */
  predicate Written(s: string, i: nat, w: string) {
    i + |w| <= |s| && s[i..i + |w|] == w
  }

  lemma WrittenParts(s: string, i: nat, a: string, b: string)
    requires Written(s, i, a + b)
    ensures Written(s, i, a) && Written(s, i + |a|, b)
  {
    var x := s[i..i + |a + b|];
    assert s[i..i + |a|] == x[..|a|] == a;
    assert s[i + |a|..i + |a| + |b|] == x[|a|..] == b;
  }

  lemma FlushAtBoundary(s: string, j: nat, cur: string)
    requires Boundary(s, j)
    ensures TokensFrom(s, j, cur) == Flush(cur) + TokensFrom(s, j, "")
  {
  }

  lemma {:induction false} WordScanned(s: string, i: nat, w: string, k: nat)
    requires Written(s, i, w) && k <= |w|
    requires forall m | 0 <= m < |w| :: !IsSpace(w[m]) && !IsSign(w[m])
    requires forall m | 0 <= m < |w| && w[m] == '.' :: DecimalPoint(w, m)
    ensures TokensFrom(s, i + k, w[..k]) == TokensFrom(s, i + |w|, w)
    decreases |w| - k
  {
    if k < |w| {
      assert forall m | 0 <= m < |w| :: s[i + m] == w[m] by {
        forall m | 0 <= m < |w| ensures s[i + m] == w[m] { assert s[i..i + |w|][m] == s[i + m]; }
      }
      assert w[k] == '.' ==> DecimalPoint(s, i + k);
      WordScanned(s, i, w, k + 1);
      assert w[..k] + [s[i + k]] == w[..k + 1];
    } else {
      assert w[..k] == w;
    }
  }

  /** A solid word up to a boundary is one token. */
  lemma WordToken(s: string, i: nat, w: string)
    requires Written(s, i, w) && Solid(w) && Boundary(s, i + |w|)
    ensures TokensFrom(s, i, "") == [w] + TokensFrom(s, i + |w|, "")
  {
    WordScanned(s, i, w, 0);
    FlushAtBoundary(s, i + |w|, w);
  }

  lemma SignToken(s: string, i: nat, c: char)
    requires Written(s, i, [c]) && IsSign(c)
    ensures TokensFrom(s, i, "") == [[c]] + TokensFrom(s, i + 1, "")
  {
    assert s[i..i + 1][0] == s[i];
  }

  /** An operator with a space on each side. */
  lemma SpacedSign(s: string, i: nat, c: char)
    requires Written(s, i, " " + [c] + " ") && IsSign(c)
    ensures Boundary(s, i)
    ensures TokensFrom(s, i, "") == [[c]] + TokensFrom(s, i + 3, "")
  {
    var w := s[i..i + 3];
    assert w[0] == s[i] && w[1] == s[i + 1] && w[2] == s[i + 2];
    assert TokensFrom(s, i + 2, "") == TokensFrom(s, i + 3, "");
    assert TokensFrom(s, i + 1, "") == [[c]] + TokensFrom(s, i + 2, "");
  }

  lemma ParamTokens(s: string, i: nat, name: string)
    requires Written(s, i, "params." + name) && Solid(name) && '.' !in name && Boundary(s, i + 7 + |name|)
    ensures TokensFrom(s, i, "") == ["params", ".", name] + TokensFrom(s, i + 7 + |name|, "")
  {
    WrittenParts(s, i, "params.", name);
    WrittenParts(s, i, "params", ".");
    WordScanned(s, i, "params", 0);
    assert s[i..i + 6][5] == s[i + 5] == 's';
    assert s[i + 6..i + 7][0] == s[i + 6] == '.';
    WordToken(s, i + 7, name);
  }

  lemma KindsOfConcat(a: seq<string>, b: seq<string>)
    ensures Kinds(a + b) == Kinds(a) + Kinds(b)
  {
  }

  /** The kinds of the tokens from a position on. */
  function KindsFrom(s: string, i: nat): seq<Token>
    requires i <= |s|
  {
    Kinds(TokensFrom(s, i, ""))
  }

  lemma KindsStep(s: string, i: nat, ws: seq<string>, j: nat)
    requires i <= |s| && j <= |s| && TokensFrom(s, i, "") == ws + TokensFrom(s, j, "")
    ensures KindsFrom(s, i) == Kinds(ws) + KindsFrom(s, j)
  {
    KindsOfConcat(ws, TokensFrom(s, j, ""));
  }

  /** `k` gives the kinds of the tokens from each position of `s` on. */
  ghost predicate Scans(k: nat -> seq<Token>, s: string) {
    forall j: nat {:trigger KindsFrom(s, j)} | j <= |s| :: k(j) == KindsFrom(s, j)
  }

  lemma WordKinds(k: nat -> seq<Token>, s: string, i: nat, ws: seq<string>, j: nat)
    requires Scans(k, s) && i <= |s| && j <= |s| && TokensFrom(s, i, "") == ws + TokensFrom(s, j, "")
    ensures k(i) == Kinds(ws) + k(j)
  {
    KindsStep(s, i, ws, j);
  }

  lemma KindsOfOne(w: string, t: Token)
    requires Classify(w) == t
    ensures Kinds([w]) == [t]
  {
  }

  lemma NumScanned(k: nat -> seq<Token>, s: string, i: nat, f: Factor)
    requires Scans(k, s) && f.Num? && FactorWritable(f)
    ensures Scanned(k, s, i, FactorText(f), FactorTokens(f))
  {
    var w := Spell(f.token);
    if Written(s, i, w) && Boundary(s, i + |w|) {
      WordToken(s, i, w);
      WordKinds(k, s, i, [w], i + |w|);
      KindsOfOne(w, f.token);
    }
  }

  lemma ParamScanned(k: nat -> seq<Token>, s: string, i: nat, f: Factor)
    requires Scans(k, s) && f.Param? && FactorWritable(f)
    ensures Scanned(k, s, i, FactorText(f), FactorTokens(f))
  {
    var w := Spell(f.name);
    if Written(s, i, "params." + w) && Boundary(s, i + 7 + |w|) {
      ParamTokens(s, i, w);
      WordKinds(k, s, i, ["params", ".", w], i + 7 + |w|);
      KindsOfParam(w, f.name);
    }
  }

  lemma KindsOfParam(w: string, t: Token)
    requires Classify(w) == t
    ensures Kinds(["params", ".", w]) == [Params, Dot, t]
  {
  }

  lemma SignKind(k: nat -> seq<Token>, s: string, i: nat, c: char, t: Token)
    requires Scans(k, s) && Written(s, i, [c]) && IsSign(c) && Classify([c]) == t
    ensures k(i) == [t] + k(i + 1)
  {
    SignToken(s, i, c);
    WordKinds(k, s, i, [[c]], i + 1);
    KindsOfOne([c], t);
  }

  lemma ParenOpened(s: string, i: nat, w: string)
    requires Written(s, i, "(" + w + ")")
    ensures Written(s, i, "(") && Written(s, i + 1, w) && Written(s, i + 1 + |w|, ")")
    ensures Boundary(s, i + 1 + |w|)
  {
    WrittenParts(s, i, "(" + w, ")");
    WrittenParts(s, i, "(", w);
    assert s[i + 1 + |w|..i + 2 + |w|][0] == s[i + 1 + |w|];
  }

  /** Two texts joined by an operator with a space on each side. */
  lemma SignWritten(s: string, i: nat, a: string, c: char, b: string)
    requires IsSign(c) && Written(s, i, a + " " + [c] + " " + b)
    ensures Written(s, i, a) && Boundary(s, i + |a|) && Written(s, i + |a| + 3, b)
    ensures |a + " " + [c] + " " + b| == |a| + 3 + |b|
    ensures TokensFrom(s, i + |a|, "") == [[c]] + TokensFrom(s, i + |a| + 3, "")
  {
    var sign := " " + [c] + " ";
    assert a + " " + [c] + " " + b == a + sign + b;
    WrittenParts(s, i, a + sign, b);
    WrittenParts(s, i, a, sign);
    SpacedSign(s, i + |a|, c);
  }

  lemma SignScanned(k: nat -> seq<Token>, s: string, i: nat, a: string, c: char, t: Token, b: string)
    requires Scans(k, s) && IsSign(c) && Classify([c]) == t && Written(s, i, a + " " + [c] + " " + b)
    ensures Written(s, i, a) && Boundary(s, i + |a|) && Written(s, i + |a| + 3, b)
    ensures |a + " " + [c] + " " + b| == |a| + 3 + |b|
    ensures k(i + |a|) == [t] + k(i + |a| + 3)
  {
    SignWritten(s, i, a, c, b);
    WordKinds(k, s, i + |a|, [[c]], i + |a| + 3);
    KindsOfOne([c], t);
  }

  function MulChar(op: MulOp): (c: char)
    ensures IsSign(c) && Spell(MulSign(op)) == [c] && Classify([c]) == MulSign(op)
  {
    match op case Times => '*' case Over => '/'
  }

  function AddChar(op: AddOp): (c: char)
    ensures IsSign(c) && Spell(AddSign(op)) == [c] && Classify([c]) == AddSign(op)
  {
    match op case Plus => '+' case Minus => '-'
  }

  lemma ThreeParts(all: seq<Token>, a: seq<Token>, afterA: seq<Token>, sign: Token, afterSign: seq<Token>,
                   b: seq<Token>, rest: seq<Token>)
    requires all == a + afterA && afterA == [sign] + afterSign && afterSign == b + rest
    ensures all == a + [sign] + b + rest
  {
  }

  /** Where a phrase is written, its tokens are scanned. */
  ghost predicate Scanned(k: nat -> seq<Token>, s: string, i: nat, text: string, tokens: seq<Token>) {
    Written(s, i, text) && Boundary(s, i + |text|) ==> k(i) == tokens + k(i + |text|)
  }

  /** Two phrases joined by an operator. */
  lemma JoinScanned(k: nat -> seq<Token>, s: string, i: nat,
                    a: string, left: seq<Token>, c: char, sign: Token, b: string, right: seq<Token>)
    requires Scans(k, s) && IsSign(c) && Classify([c]) == sign
    requires Scanned(k, s, i, a, left) && Scanned(k, s, i + |a| + 3, b, right)
    ensures Scanned(k, s, i, a + " " + [c] + " " + b, left + [sign] + right)
  {
    var text := a + " " + [c] + " " + b;
    if Written(s, i, text) && Boundary(s, i + |text|) {
      SignScanned(k, s, i, a, c, sign, b);
      ThreeParts(k(i), left, k(i + |a|), sign, k(i + |a| + 3), right, k(i + |a| + 3 + |b|));
    }
  }

  lemma ParenScanned(k: nat -> seq<Token>, s: string, i: nat, w: string, tokens: seq<Token>)
    requires Scans(k, s) && Scanned(k, s, i + 1, w, tokens)
    ensures Scanned(k, s, i, "(" + w + ")", [Open] + tokens + [Close])
  {
    var text := "(" + w + ")";
    if Written(s, i, text) && Boundary(s, i + |text|) {
      ParenOpened(s, i, w);
      SignKind(k, s, i, '(', Open);
      SignKind(k, s, i + 1 + |w|, ')', Close);
    }
  }

  lemma NegScanned(k: nat -> seq<Token>, s: string, i: nat, w: string, tokens: seq<Token>)
    requires Scans(k, s) && Scanned(k, s, i + 1, w, tokens)
    ensures Scanned(k, s, i, "-" + w, [MinusSign] + tokens)
  {
    if Written(s, i, "-" + w) && Boundary(s, i + |"-" + w|) {
      WrittenParts(s, i, "-", w);
      SignKind(k, s, i, '-', MinusSign);
    }
  }

  lemma {:induction false} FactorTokenized(k: nat -> seq<Token>, s: string, i: nat, f: Factor)
    requires Scans(k, s) && FactorWritable(f)
    ensures Scanned(k, s, i, FactorText(f), FactorTokens(f))
    decreases f
  {
    match f
    case Num(_) => NumScanned(k, s, i, f);
    case Param(_) => ParamScanned(k, s, i, f);
    case Paren(e) =>
      ExprTokenized(k, s, i + 1, e);
      ParenScanned(k, s, i, ExprText(e), ExprTokens(e));
    case Neg(g) =>
      FactorTokenized(k, s, i + 1, g);
      NegScanned(k, s, i, FactorText(g), FactorTokens(g));
  }

  lemma {:induction false} TermTokenized(k: nat -> seq<Token>, s: string, i: nat, t: Term)
    requires Scans(k, s) && TermWritable(t)
    ensures Scanned(k, s, i, TermText(t), TermTokens(t))
    decreases t
  {
    match t
    case One(f) => FactorTokenized(k, s, i, f);
    case Scale(l, op, r) =>
      TermTokenized(k, s, i, l);
      FactorTokenized(k, s, i + |TermText(l)| + 3, r);
      JoinScanned(k, s, i, TermText(l), TermTokens(l), MulChar(op), MulSign(op), FactorText(r), FactorTokens(r));
  }

  lemma {:induction false} ExprTokenized(k: nat -> seq<Token>, s: string, i: nat, e: Expr)
    requires Scans(k, s) && ExprWritable(e)
    ensures Scanned(k, s, i, ExprText(e), ExprTokens(e))
    decreases e
  {
    match e
    case Just(t) => TermTokenized(k, s, i, t);
    case Sum(l, op, r) =>
      ExprTokenized(k, s, i, l);
      TermTokenized(k, s, i + |ExprText(l)| + 3, r);
      JoinScanned(k, s, i, ExprText(l), ExprTokens(l), AddChar(op), AddSign(op), TermText(r), TermTokens(r));
  }

  /** Tokenizing the text of an expression gives its tokens back. */
  lemma TokenizeText(e: Expr)
    requires ExprWritable(e)
    ensures Kinds(Tokenize(ExprText(e))) == ExprTokens(e)
  {
    var s := ExprText(e);
    var k: nat -> seq<Token> := (j: nat) => if j <= |s| then KindsFrom(s, j) else [];
    assert s[0..0 + |s|] == s;
    ExprTokenized(k, s, 0, e);
    assert KindsFrom(s, |s|) == [];
    assert KindsFrom(s, 0) == k(0);
  }

  lemma DanglingParam()
    ensures Kinds(Tokenize("params.")) == [Params, Dot]
  {
    var s := "params.";
    assert Written(s, 0, "params");
    WordScanned(s, 0, "params", 0);
    assert TokensFrom(s, 6, "params") == ["params", "."];
  }

  /** Some script makes evaluation run off its tokens exactly when a parameter has the empty name. */
  lemma PanicPossibleIff<N>(env: Env<N>)
    ensures (exists script :: Eval(script, env) == IndexPanic) <==> "" in env.params
  {
    forall script | Eval(script, env) == IndexPanic ensures "" in env.params {
      PanicNeedsEmptyName(Kinds(Tokenize(script)), env);
    }
    if "" in env.params {
      DanglingParam();
      PanicAfterDot(env);
      assert Eval("params.", env) == IndexPanic;
    }
  }

  // ---------- expression trees ----------

  datatype Op = OpAdd(sign: AddOp) | OpMul(scale: MulOp)
  datatype Tree = Lit(text: string) | Ref(name: string) | Minus(arg: Tree) | Binary(op: Op, left: Tree, right: Tree)

  /** The phrase for a tree, with the parentheses that precedence and left association call for. */
  function ToExpr(t: Tree): Expr
    decreases t, if t.Binary? && t.op.OpAdd? then 0 else if t.Binary? then 1 else 2
  {
    if t.Binary? && t.op.OpAdd? then Sum(ToExpr(t.left), t.op.sign, ToTerm(t.right))
    else Just(ToTerm(t))
  }

  function ToTerm(t: Tree): Term
    decreases t, if t.Binary? && t.op.OpAdd? then 2 else if t.Binary? then 0 else 1
  {
    if t.Binary? && t.op.OpMul? then Scale(ToTerm(t.left), t.op.scale, ToFactor(t.right))
    else One(ToFactor(t))
  }

  function ToFactor(t: Tree): Factor
    decreases t, if t.Binary? && t.op.OpAdd? then 1 else if t.Binary? then 2 else 0
  {
    match t
    case Lit(text) => Num(Classify(text))
    case Ref(name) => Param(Classify(name))
    case Minus(arg) => Neg(ToFactor(arg))
    case Binary(_, _, _) => Paren(ToExpr(t))
  }

  /** Numerals the reader knows, parameters that exist, both spelled without separators. */
  predicate Readable<N>(t: Tree, env: Env<N>) {
    match t
    case Lit(text) => Solid(text) && text != "params" && env.read(text).Some?
    case Ref(name) => Solid(name) && '.' !in name && name in env.params
    case Minus(arg) => Readable(arg, env)
    case Binary(_, l, r) => Readable(l, env) && Readable(r, env)
  }

  /** The value of a tree; what is divided by zero is zero. */
  function TreeValue<N>(t: Tree, env: Env<N>): N
    requires Readable(t, env)
  {
    match t
    case Lit(text) => env.read(text).value
    case Ref(name) => env.params[name]
    case Minus(arg) => env.ops.neg(TreeValue(arg, env))
    case Binary(op, l, r) =>
      var a, b := TreeValue(l, env), TreeValue(r, env);
      if op == OpAdd(Plus) then env.ops.add(a, b)
      else if op == OpAdd(AddOp.Minus) then env.ops.sub(a, b)
      else if op == OpMul(Times) then env.ops.mul(a, b)
      else if env.ops.isZero(b) then env.ops.zero
      else env.ops.div(a, b)
  }

  lemma SolidIsNoSign(text: string)
    requires Solid(text)
    ensures Classify(text).Word? || Classify(text).Params? || Classify(text).Dot?
    ensures Spell(Classify(text)) == text
  {
    SpellOfClassify(text);
    assert !IsSign(text[0]);
  }

  lemma AtomMeans<N>(f: Factor, env: Env<N>)
    requires FactorWritable(f) && FactorDefined(f, env)
    ensures TermWritable(One(f)) && TermDefined(One(f), env) && TermValue(One(f), env) == FactorValue(f, env)
    ensures var e := Just(One(f));
            ExprWritable(e) && ExprDefined(e, env) && ExprValue(e, env) == FactorValue(f, env)
  {
  }

  lemma {:induction false} ToExprMeans<N>(t: Tree, env: Env<N>)
    requires Readable(t, env)
    ensures PhraseMeans(t, env)
  {
    match t
    case Lit(text) =>
      SolidIsNoSign(text);
      AtomMeans(ToFactor(t), env);
    case Ref(name) =>
      SolidIsNoSign(name);
      AtomMeans(ToFactor(t), env);
    case Minus(arg) =>
      ToExprMeans(arg, env);
      AtomMeans(ToFactor(t), env);
    case Binary(_, l, r) =>
      ToExprMeans(l, env);
      ToExprMeans(r, env);
      BinaryMeans(t, env);
  }

  ghost predicate PhraseMeans<N>(t: Tree, env: Env<N>)
    requires Readable(t, env)
  {
    && ExprWritable(ToExpr(t)) && ExprDefined(ToExpr(t), env) && ExprValue(ToExpr(t), env) == TreeValue(t, env)
    && TermWritable(ToTerm(t)) && TermDefined(ToTerm(t), env) && TermValue(ToTerm(t), env) == TreeValue(t, env)
    && FactorWritable(ToFactor(t)) && FactorDefined(ToFactor(t), env)
    && FactorValue(ToFactor(t), env) == TreeValue(t, env)
  }

  lemma BinaryMeans<N>(t: Tree, env: Env<N>)
    requires Readable(t, env) && t.Binary? && PhraseMeans(t.left, env) && PhraseMeans(t.right, env)
    ensures PhraseMeans(t, env)
  {
    var e := ToExpr(t);
    if t.op.OpAdd? {
      assert ExprDefined(e, env) && ExprWritable(e) && ExprValue(e, env) == TreeValue(t, env);
      AtomMeans(Paren(e), env);
    } else {
      var m := ToTerm(t);
      assert TermDefined(m, env) && TermWritable(m) && TermValue(m, env) == TreeValue(t, env);
      assert e == Just(m);
    }
  }

  // ---------- trees as they are written ----------

  /** The text of a tree: a product needs no parentheses in a sum, nor does anything on the left that binds
      as strongly; whatever else is not a single number or parameter is put in parentheses. */
  function SumText(t: Tree): string
    decreases t, if t.Binary? && t.op.OpAdd? then 0 else if t.Binary? then 1 else 2
  {
    if t.Binary? && t.op.OpAdd? then SumText(t.left) + (if t.op.sign.Plus? then " + " else " - ") + ProductText(t.right)
    else ProductText(t)
  }

  function ProductText(t: Tree): string
    decreases t, if t.Binary? && t.op.OpAdd? then 2 else if t.Binary? then 0 else 1
  {
    if t.Binary? && t.op.OpMul? then
      ProductText(t.left) + (if t.op.scale.Times? then " * " else " / ") + AtomText(t.right)
    else AtomText(t)
  }

  function AtomText(t: Tree): string
    decreases t, if t.Binary? && t.op.OpAdd? then 1 else if t.Binary? then 2 else 0
  {
    match t
    case Lit(text) => text
    case Ref(name) => "params." + name
    case Minus(arg) => "-" + AtomText(arg)
    case Binary(_, _, _) => "(" + SumText(t) + ")"
  }

  lemma SingleText(t: Tree)
    requires !t.Binary?
    ensures SumText(t) == ProductText(t) == AtomText(t)
    ensures ExprText(ToExpr(t)) == TermText(ToTerm(t)) == FactorText(ToFactor(t))
  {
    assert ProductText(t) == AtomText(t);
    assert ToTerm(t) == One(ToFactor(t)) && ToExpr(t) == Just(ToTerm(t));
    assert TermText(One(ToFactor(t))) == FactorText(ToFactor(t));
  }

  ghost predicate WrittenAlike(t: Tree) {
    ExprText(ToExpr(t)) == SumText(t) && TermText(ToTerm(t)) == ProductText(t) && FactorText(ToFactor(t)) == AtomText(t)
  }

  lemma SumWritten(t: Tree)
    requires t.Binary? && t.op.OpAdd? && WrittenAlike(t.left) && WrittenAlike(t.right)
    ensures WrittenAlike(t)
  {
    var a, b := ExprText(ToExpr(t.left)), TermText(ToTerm(t.right));
    Spaced(a, Spell(AddSign(t.op.sign)), b);
    var e := ToExpr(t);
    assert e == Sum(ToExpr(t.left), t.op.sign, ToTerm(t.right));
    assert ExprText(e) == SumText(t);
    InBrackets(t, e);
  }

  lemma InBrackets(t: Tree, e: Expr)
    requires t.Binary? && t.op.OpAdd? && e == ToExpr(t) && ExprText(e) == SumText(t)
    ensures FactorText(ToFactor(t)) == AtomText(t) && TermText(ToTerm(t)) == ProductText(t)
  {
    assert ToFactor(t) == Paren(e) && ToTerm(t) == One(Paren(e));
    assert FactorText(Paren(e)) == "(" + ExprText(e) + ")";
  }

  lemma ProductWritten(t: Tree)
    requires t.Binary? && t.op.OpMul? && WrittenAlike(t.left) && WrittenAlike(t.right)
    ensures WrittenAlike(t)
  {
    var a, b := TermText(ToTerm(t.left)), FactorText(ToFactor(t.right));
    Spaced(a, Spell(MulSign(t.op.scale)), b);
    var m := ToTerm(t);
    assert m == Scale(ToTerm(t.left), t.op.scale, ToFactor(t.right));
    assert TermText(m) == ProductText(t);
    assert ToExpr(t) == Just(m) && ExprText(Just(m)) == TermText(m) && SumText(t) == ProductText(t);
    assert ToFactor(t) == Paren(Just(m));
  }

  /** The phrase for a tree is written as the tree is. */
  lemma {:induction false} WrittenAsTree<N>(t: Tree, env: Env<N>)
    requires Readable(t, env)
    ensures WrittenAlike(t)
  {
    if t.Binary? {
      WrittenAsTree(t.left, env);
      WrittenAsTree(t.right, env);
      if t.op.OpAdd? { SumWritten(t); } else { ProductWritten(t); }
    } else {
      SingleText(t);
      match t
      case Lit(text) => SolidIsNoSign(text);
      case Ref(name) => SolidIsNoSign(name);
      case Minus(arg) => WrittenAsTree(arg, env);
    }
  }

  lemma Spaced(a: string, sign: string, b: string)
    ensures a + " " + sign + " " + b == a + (" " + sign + " ") + b
  {
  }

  /** Evaluating the text of an expression tree gives the value of the tree. */
  lemma EvalOfText<N>(t: Tree, env: Env<N>)
    requires Readable(t, env)
    ensures Eval(SumText(t), env) == Value(TreeValue(t, env))
  {
    var e := ToExpr(t);
    ToExprMeans(t, env);
    WrittenAsTree(t, env);
    TokenizeText(e);
    ValueIff(ExprTokens(e), env, TreeValue(t, env));
  }

  /** Names that a script can mention. */
  predicate Mentionable<N>(name: string, env: Env<N>) {
    Solid(name) && '.' !in name && name in env.params
  }

  /** Two parameters added, subtracted, multiplied and divided, and one negated. */
  lemma OperationsEvaluate<N>(a: string, b: string, env: Env<N>)
    requires Mentionable(a, env) && Mentionable(b, env)
    ensures var x, y := env.params[a], env.params[b];
            && Eval("params." + a + " + " + ("params." + b), env) == Value(env.ops.add(x, y))
            && Eval("params." + a + " - " + ("params." + b), env) == Value(env.ops.sub(x, y))
            && Eval("params." + a + " * " + ("params." + b), env) == Value(env.ops.mul(x, y))
            && Eval("params." + a + " / " + ("params." + b), env)
               == Value(if env.ops.isZero(y) then env.ops.zero else env.ops.div(x, y))
            && Eval("-" + ("params." + a), env) == Value(env.ops.neg(x))
  {
    OperationEvaluates(a, OpAdd(Plus), " + ", b, env);
    OperationEvaluates(a, OpAdd(AddOp.Minus), " - ", b, env);
    OperationEvaluates(a, OpMul(Times), " * ", b, env);
    OperationEvaluates(a, OpMul(Over), " / ", b, env);
    EvalOfText(Tree.Minus(Ref(a)), env);
    SingleText(Tree.Minus(Ref(a)));
  }

  lemma OperationEvaluates<N>(a: string, op: Op, sign: string, b: string, env: Env<N>)
    requires Mentionable(a, env) && Mentionable(b, env)
    requires sign == (match op
                      case OpAdd(Plus) => " + "
                      case OpAdd(Minus) => " - "
                      case OpMul(Times) => " * "
                      case OpMul(Over) => " / ")
    ensures Readable(Binary(op, Ref(a), Ref(b)), env)
    ensures Eval("params." + a + sign + ("params." + b), env) == Value(TreeValue(Binary(op, Ref(a), Ref(b)), env))
  {
    var t := Binary(op, Ref(a), Ref(b));
    assert Readable(Ref(a), env) && Readable(Ref(b), env);
    EvalOfText(t, env);
    SingleText(Ref(a));
    SingleText(Ref(b));
    assert op.OpMul? ==> SumText(t) == ProductText(t);
  }

  /** No script indexes past its tokens unless some parameter has the empty name. */
  lemma NoIndexPanic<N>(script: string, env: Env<N>)
    requires "" !in env.params
    ensures !Eval(script, env).IndexPanic?
  {
    PanicPossibleIff(env);
  }
}
