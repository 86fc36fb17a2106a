/** The arithmetic script language of bucket_script: tokens, grammar, evaluation.
    The numbers are any type with any operations, so that nothing here depends on rounding; `read`
    stands for the library's number reader, an arbitrary partial function. */
module ScriptGrammar {
  import opened Options

  datatype Arith<!N> = Arith(
    add: (N, N) -> N, sub: (N, N) -> N, mul: (N, N) -> N, div: (N, N) -> N, neg: N -> N,
    isZero: N -> bool, zero: N)

  datatype Env<!N> = Env(ops: Arith<N>, read: string -> Option<N>, params: map<string, N>)

  /** What a token's text stands for; `End` is the empty text that reading past the end returns. */
  datatype Token = End | Open | Close | Dot | Star | Slash | PlusSign | MinusSign | Params | Word(text: string)

  function Classify(s: string): Token {
    if s == "" then End
    else if s == "(" then Open
    else if s == ")" then Close
    else if s == "." then Dot
    else if s == "*" then Star
    else if s == "/" then Slash
    else if s == "+" then PlusSign
    else if s == "-" then MinusSign
    else if s == "params" then Params
    else Word(s)
  }

  function Spell(t: Token): string {
    match t
    case End => ""
    case Open => "("
    case Close => ")"
    case Dot => "."
    case Star => "*"
    case Slash => "/"
    case PlusSign => "+"
    case MinusSign => "-"
    case Params => "params"
    case Word(text) => text
  }

  lemma SpellOfClassify(s: string)
    ensures Spell(Classify(s)) == s
  {
  }

  datatype Factor = Num(token: Token) | Param(name: Token) | Paren(inner: Expr) | Neg(arg: Factor)
  datatype Term = One(factor: Factor) | Scale(left: Term, op: MulOp, right: Factor)
  datatype Expr = Just(term: Term) | Sum(left: Expr, op: AddOp, right: Term)
  datatype MulOp = Times | Over
  datatype AddOp = Plus | Minus

  function MulSign(op: MulOp): Token {
    match op case Times => Star case Over => Slash
  }

  function AddSign(op: AddOp): Token {
    match op case Plus => PlusSign case Minus => MinusSign
  }

  function ExprTokens(e: Expr): seq<Token> {
    match e
    case Just(t) => TermTokens(t)
    case Sum(l, op, r) => ExprTokens(l) + [AddSign(op)] + TermTokens(r)
  }

  function TermTokens(t: Term): seq<Token> {
    match t
    case One(f) => FactorTokens(f)
    case Scale(l, op, r) => TermTokens(l) + [MulSign(op)] + FactorTokens(r)
  }

  function FactorTokens(f: Factor): seq<Token> {
    match f
    case Num(t) => [t]
    case Param(name) => [Params, Dot, name]
    case Paren(e) => [Open] + ExprTokens(e) + [Close]
    case Neg(g) => [MinusSign] + FactorTokens(g)
  }

  /** Tokens the reader is asked about: everything that does not start another kind of factor. */
  predicate NumeralToken(t: Token) {
    !t.End? && !t.Open? && !t.MinusSign? && !t.Params?
  }

  predicate ExprDefined<N>(e: Expr, env: Env<N>) {
    match e
    case Just(t) => TermDefined(t, env)
    case Sum(l, _, r) => ExprDefined(l, env) && TermDefined(r, env)
  }

  predicate TermDefined<N>(t: Term, env: Env<N>) {
    match t
    case One(f) => FactorDefined(f, env)
    case Scale(l, _, r) => TermDefined(l, env) && FactorDefined(r, env)
  }

  predicate FactorDefined<N>(f: Factor, env: Env<N>) {
    match f
    case Num(t) => NumeralToken(t) && env.read(Spell(t)).Some?
    case Param(name) => Spell(name) in env.params
    case Paren(e) => ExprDefined(e, env)
    case Neg(g) => FactorDefined(g, env)
  }

  function AddUp<N>(ops: Arith<N>, op: AddOp, a: N, b: N): N {
    match op case Plus => ops.add(a, b) case Minus => ops.sub(a, b)
  }

  /** Division by zero yields zero. */
  function ScaleBy<N>(ops: Arith<N>, op: MulOp, a: N, b: N): N {
    match op
    case Times => ops.mul(a, b)
    case Over => if ops.isZero(b) then ops.zero else ops.div(a, b)
  }

  function ExprValue<N>(e: Expr, env: Env<N>): N
    requires ExprDefined(e, env)
  {
    match e
    case Just(t) => TermValue(t, env)
    case Sum(l, op, r) => AddUp(env.ops, op, ExprValue(l, env), TermValue(r, env))
  }

  function TermValue<N>(t: Term, env: Env<N>): N
    requires TermDefined(t, env)
  {
    match t
    case One(f) => FactorValue(f, env)
    case Scale(l, op, r) => ScaleBy(env.ops, op, TermValue(l, env), FactorValue(r, env))
  }

  function FactorValue<N>(f: Factor, env: Env<N>): N
    requires FactorDefined(f, env)
  {
    match f
    case Num(t) => env.read(Spell(t)).value
    case Param(name) => env.params[Spell(name)]
    case Paren(e) => ExprValue(e, env)
    case Neg(g) => env.ops.neg(FactorValue(g, env))
  }
}

/** Recursive descent over a token list, as a function of the position. */
module ScriptParsing {
  import opened Options
  import opened ScriptGrammar

  datatype Parsed<+N> = Done(value: N, pos: nat) | Fail

  /** The token at a position, empty past the end. */
  function Peek(toks: seq<Token>, pos: nat): Token {
    if pos < |toks| then toks[pos] else End
  }

  function Left(toks: seq<Token>, pos: nat): nat {
    if pos < |toks| then |toks| - pos else 0
  }

  function ParseExpr<N>(toks: seq<Token>, env: Env<N>, pos: nat): (r: Parsed<N>)
    ensures r.Done? ==> pos < r.pos <= |toks| + 1
    decreases Left(toks, pos), 4
  {
    var left := ParseTerm(toks, env, pos);
    if left.Fail? then Fail else ParseExprRest(toks, env, left.value, left.pos)
  }

  function ParseExprRest<N>(toks: seq<Token>, env: Env<N>, left: N, pos: nat): (r: Parsed<N>)
    requires pos <= |toks| + 1
    ensures r.Done? ==> pos <= r.pos <= |toks| + 1
    decreases Left(toks, pos), 3
  {
    var op := Peek(toks, pos);
    if !op.PlusSign? && !op.MinusSign? then Done(left, pos)
    else
      var right := ParseTerm(toks, env, pos + 1);
      if right.Fail? then Fail
      else ParseExprRest(toks, env, AddUp(env.ops, if op.PlusSign? then Plus else Minus, left, right.value), right.pos)
  }

  function ParseTerm<N>(toks: seq<Token>, env: Env<N>, pos: nat): (r: Parsed<N>)
    ensures r.Done? ==> pos < r.pos <= |toks| + 1
    decreases Left(toks, pos), 2
  {
    var left := ParseFactor(toks, env, pos);
    if left.Fail? then Fail else ParseTermRest(toks, env, left.value, left.pos)
  }

  function ParseTermRest<N>(toks: seq<Token>, env: Env<N>, left: N, pos: nat): (r: Parsed<N>)
    requires pos <= |toks| + 1
    ensures r.Done? ==> pos <= r.pos <= |toks| + 1
    decreases Left(toks, pos), 1
  {
    var op := Peek(toks, pos);
    if !op.Star? && !op.Slash? then Done(left, pos)
    else
      var right := ParseFactor(toks, env, pos + 1);
      if right.Fail? then Fail
      else ParseTermRest(toks, env, ScaleBy(env.ops, if op.Star? then Times else Over, left, right.value), right.pos)
  }

  function ParseFactor<N>(toks: seq<Token>, env: Env<N>, pos: nat): (r: Parsed<N>)
    ensures r.Done? ==> pos < r.pos <= |toks| + 1
    decreases Left(toks, pos), 0
  {
    var t := Peek(toks, pos);
    if t.End? then Fail
    else if t.Open? then
      var inner := ParseExpr(toks, env, pos + 1);
      if inner.Fail? || !Peek(toks, inner.pos).Close? then Fail else Done(inner.value, inner.pos + 1)
    else if t.MinusSign? then
      var arg := ParseFactor(toks, env, pos + 1);
      if arg.Fail? then Fail else Done(env.ops.neg(arg.value), arg.pos)
    else if t.Params? then
      if !Peek(toks, pos + 1).Dot? then Fail
      else
        var name := Spell(Peek(toks, pos + 2));
        if name in env.params then Done(env.params[name], pos + 3) else Fail
    else
      var v := env.read(Spell(t));
      if v.Some? then Done(v.value, pos + 1) else Fail
  }

  datatype Outcome<+N> = Value(value: N) | Error | IndexPanic

  /** What evaluating a token list gives. Reporting the unexpected token at a position past the end
      is an index out of range. */
  function EvalTokens<N>(toks: seq<Token>, env: Env<N>): Outcome<N> {
    var r := ParseExpr(toks, env, 0);
    if r.Fail? then Error
    else if r.pos == |toks| then Value(r.value)
    else if r.pos < |toks| then Error
    else IndexPanic
  }

  // ---------- where a phrase stands in a token list ----------

  function ExprLen(e: Expr): nat {
    match e
    case Just(t) => TermLen(t)
    case Sum(l, _, r) => ExprLen(l) + 1 + TermLen(r)
  }

  function TermLen(t: Term): nat {
    match t
    case One(f) => FactorLen(f)
    case Scale(l, _, r) => TermLen(l) + 1 + FactorLen(r)
  }

  function FactorLen(f: Factor): nat {
    match f
    case Num(_) => 1
    case Param(_) => 3
    case Paren(e) => ExprLen(e) + 2
    case Neg(g) => 1 + FactorLen(g)
  }

  /** Position `pos` holds `t`; the end of the list counts as one empty token. */
  predicate TokenAt(toks: seq<Token>, pos: nat, t: Token) {
    pos <= |toks| && Peek(toks, pos) == t
  }

  predicate ExprAt(toks: seq<Token>, pos: nat, e: Expr)
    decreases e
  {
    match e
    case Just(t) => TermAt(toks, pos, t)
    case Sum(l, op, r) =>
      var at := pos + ExprLen(l);
      ExprAt(toks, pos, l) && TokenAt(toks, at, AddSign(op)) && TermAt(toks, at + 1, r)
  }

  predicate TermAt(toks: seq<Token>, pos: nat, t: Term)
    decreases t
  {
    match t
    case One(f) => FactorAt(toks, pos, f)
    case Scale(l, op, r) =>
      var at := pos + TermLen(l);
      TermAt(toks, pos, l) && TokenAt(toks, at, MulSign(op)) && FactorAt(toks, at + 1, r)
  }

  predicate FactorAt(toks: seq<Token>, pos: nat, f: Factor)
    decreases f
  {
    match f
    case Num(t) => TokenAt(toks, pos, t)
    case Param(name) => TokenAt(toks, pos, Params) && TokenAt(toks, pos + 1, Dot) && TokenAt(toks, pos + 2, name)
    case Paren(e) =>
      TokenAt(toks, pos, Open) && ExprAt(toks, pos + 1, e) && TokenAt(toks, pos + 1 + ExprLen(e), Close)
    case Neg(g) => TokenAt(toks, pos, MinusSign) && FactorAt(toks, pos + 1, g)
  }

  predicate NoFactorFollows(toks: seq<Token>, pos: nat) {
    !Peek(toks, pos).Star? && !Peek(toks, pos).Slash?
  }

  // ---------- one turn of each loop ----------

  lemma TermTurn<N>(toks: seq<Token>, env: Env<N>, left: N, pos: nat, op: MulOp, right: N, end: nat)
    requires TokenAt(toks, pos, MulSign(op))
    requires ParseFactor(toks, env, pos + 1) == Done(right, end)
    ensures ParseTermRest(toks, env, left, pos) == ParseTermRest(toks, env, ScaleBy(env.ops, op, left, right), end)
  {
  }

  lemma ExprTurn<N>(toks: seq<Token>, env: Env<N>, left: N, pos: nat, op: AddOp, right: N, end: nat)
    requires TokenAt(toks, pos, AddSign(op))
    requires ParseTerm(toks, env, pos + 1) == Done(right, end)
    ensures ParseExprRest(toks, env, left, pos) == ParseExprRest(toks, env, AddUp(env.ops, op, left, right), end)
    ensures NoFactorFollows(toks, pos)
  {
  }

  // ---------- every phrase of the grammar is parsed, to its value ----------

  lemma {:induction false} FactorComplete<N>(toks: seq<Token>, env: Env<N>, pos: nat, f: Factor)
    requires FactorDefined(f, env) && FactorAt(toks, pos, f)
    ensures ParseFactor(toks, env, pos) == Done(FactorValue(f, env), pos + FactorLen(f))
    decreases f, 0
  {
    match f
    case Num(_) =>
    case Param(_) =>
    case Paren(e) =>
      ExprComplete(toks, env, pos + 1, e);
    case Neg(g) =>
      FactorComplete(toks, env, pos + 1, g);
  }

  ghost predicate FactorRead<N>(toks: seq<Token>, env: Env<N>, pos: nat, f: Factor) {
    FactorDefined(f, env) && FactorAt(toks, pos, f) ==>
      ParseFactor(toks, env, pos) == Done(FactorValue(f, env), pos + FactorLen(f))
  }

  ghost predicate TermRead<N>(toks: seq<Token>, env: Env<N>, pos: nat, t: Term) {
    TermDefined(t, env) && TermAt(toks, pos, t) ==>
      GoesOn(toks, env, pos, TermValue(t, env), pos + TermLen(t))
  }

  /** Parsing a term from `pos` goes on at `at`, with this value on the left. */
  ghost predicate GoesOn<N>(toks: seq<Token>, env: Env<N>, pos: nat, left: N, at: nat) {
    at <= |toks| + 1 && ParseTerm(toks, env, pos) == ParseTermRest(toks, env, left, at)
  }

  lemma {:induction false} FactorReads<N>(toks: seq<Token>, env: Env<N>, pos: nat, f: Factor)
    ensures FactorRead(toks, env, pos, f)
    decreases f, 1
  {
    if FactorDefined(f, env) && FactorAt(toks, pos, f) { FactorComplete(toks, env, pos, f); }
  }

  lemma {:induction false} TermComplete<N>(toks: seq<Token>, env: Env<N>, pos: nat, t: Term)
    ensures TermRead(toks, env, pos, t)
    decreases t, 0
  {
    match t
    case One(f) =>
      FactorReads(toks, env, pos, f);
      OneRead(toks, env, pos, f);
    case Scale(l, op, r) =>
      TermComplete(toks, env, pos, l);
      FactorReads(toks, env, pos + TermLen(l) + 1, r);
      ScaleRead(toks, env, pos, l, op, r);
  }

  lemma OneRead<N>(toks: seq<Token>, env: Env<N>, pos: nat, f: Factor)
    requires FactorRead(toks, env, pos, f)
    ensures TermRead(toks, env, pos, One(f))
  {
    if FactorDefined(f, env) && FactorAt(toks, pos, f) {
      TermStart(toks, env, pos, FactorValue(f, env), pos + FactorLen(f));
    }
  }

  lemma ScaleRead<N>(toks: seq<Token>, env: Env<N>, pos: nat, l: Term, op: MulOp, r: Factor)
    requires TermRead(toks, env, pos, l) && FactorRead(toks, env, pos + TermLen(l) + 1, r)
    ensures TermRead(toks, env, pos, Scale(l, op, r))
  {
    var t := Scale(l, op, r);
    ScaleUnfolds(toks, env, pos, l, op, r);
    if TermDefined(t, env) && TermAt(toks, pos, t) {
      var lv, rv, at, end := TermValue(l, env), FactorValue(r, env), pos + TermLen(l), pos + TermLen(t);
      assert GoesOn(toks, env, pos, lv, at);
      assert ParseFactor(toks, env, at + 1) == Done(rv, end);
      TermGrows(toks, env, pos, lv, at, op, rv, end);
    }
  }

  /** A product stands at a position, and has a value, by its parts. */
  lemma ScaleUnfolds<N>(toks: seq<Token>, env: Env<N>, pos: nat, l: Term, op: MulOp, r: Factor)
    ensures var t := Scale(l, op, r);
            && TermLen(t) == TermLen(l) + 1 + FactorLen(r)
            && (TermDefined(t, env) <==> TermDefined(l, env) && FactorDefined(r, env))
            && (TermDefined(t, env) ==>
                  TermValue(t, env) == ScaleBy(env.ops, op, TermValue(l, env), FactorValue(r, env)))
            && (TermAt(toks, pos, t) <==>
                  && TermAt(toks, pos, l) && TokenAt(toks, pos + TermLen(l), MulSign(op))
                  && FactorAt(toks, pos + TermLen(l) + 1, r))
  {
  }

  lemma TermGrows<N>(toks: seq<Token>, env: Env<N>, pos: nat, left: N, at: nat, op: MulOp, right: N, end: nat)
    ensures && GoesOn(toks, env, pos, left, at) && TokenAt(toks, at, MulSign(op))
            && ParseFactor(toks, env, at + 1) == Done(right, end)
            ==> GoesOn(toks, env, pos, ScaleBy(env.ops, op, left, right), end)
  {
    if TokenAt(toks, at, MulSign(op)) && ParseFactor(toks, env, at + 1) == Done(right, end) {
      TermTurn(toks, env, left, at, op, right, end);
    }
  }

  lemma TermStart<N>(toks: seq<Token>, env: Env<N>, pos: nat, v: N, end: nat)
    requires ParseFactor(toks, env, pos) == Done(v, end)
    ensures GoesOn(toks, env, pos, v, end)
  {
  }

  /** A term is read to its end when no factor follows it. */
  lemma {:induction false} TermStops<N>(toks: seq<Token>, env: Env<N>, pos: nat, t: Term)
    requires TermDefined(t, env) && TermAt(toks, pos, t) && NoFactorFollows(toks, pos + TermLen(t))
    ensures pos + TermLen(t) <= |toks| + 1
    ensures ParseTerm(toks, env, pos) == Done(TermValue(t, env), pos + TermLen(t))
    decreases t, 1
  {
    TermComplete(toks, env, pos, t);
  }

  lemma {:induction false} ExprComplete<N>(toks: seq<Token>, env: Env<N>, pos: nat, e: Expr)
    requires ExprDefined(e, env) && ExprAt(toks, pos, e) && NoFactorFollows(toks, pos + ExprLen(e))
    ensures pos + ExprLen(e) <= |toks| + 1
    ensures ParseExpr(toks, env, pos) == ParseExprRest(toks, env, ExprValue(e, env), pos + ExprLen(e))
    decreases e
  {
    match e
    case Just(t) =>
      TermStops(toks, env, pos, t);
    case Sum(l, op, r) =>
      TermStops(toks, env, pos + ExprLen(l) + 1, r);
      ExprTurn(toks, env, ExprValue(l, env), pos + ExprLen(l), op, TermValue(r, env), pos + ExprLen(e));
      ExprComplete(toks, env, pos, l);
      assert ExprValue(e, env) == AddUp(env.ops, op, ExprValue(l, env), TermValue(r, env));
  }

  // ---------- everything parsed is a phrase of the grammar ----------

  lemma {:induction false} FactorSound<N>(toks: seq<Token>, env: Env<N>, pos: nat) returns (f: Factor)
    requires ParseFactor(toks, env, pos).Done?
    ensures FactorDefined(f, env) && FactorAt(toks, pos, f)
    ensures ParseFactor(toks, env, pos) == Done(FactorValue(f, env), pos + FactorLen(f))
    decreases Left(toks, pos), 0
  {
    var t := Peek(toks, pos);
    if t.Open? {
      var e := ExprSound(toks, env, pos + 1);
      f := Paren(e);
    } else if t.MinusSign? {
      var g := FactorSound(toks, env, pos + 1);
      f := Neg(g);
    } else if t.Params? {
      f := Param(Peek(toks, pos + 2));
    } else {
      f := Num(t);
    }
  }

  lemma {:induction false} TermSound<N>(toks: seq<Token>, env: Env<N>, pos: nat) returns (t: Term)
    requires ParseTerm(toks, env, pos).Done?
    ensures TermDefined(t, env) && TermAt(toks, pos, t)
    ensures ParseTerm(toks, env, pos) == Done(TermValue(t, env), pos + TermLen(t))
    decreases Left(toks, pos), 2
  {
    var f := FactorSound(toks, env, pos);
    t := TermRestSound(toks, env, pos, One(f), pos + FactorLen(f));
  }

  lemma {:induction false} TermRestSound<N>(toks: seq<Token>, env: Env<N>, start: nat, l: Term,
                                            pos: nat) returns (t: Term)
    requires TermDefined(l, env) && TermAt(toks, start, l) && pos == start + TermLen(l) <= |toks| + 1
    requires ParseTermRest(toks, env, TermValue(l, env), pos).Done?
    ensures TermDefined(t, env) && TermAt(toks, start, t)
    ensures ParseTermRest(toks, env, TermValue(l, env), pos) == Done(TermValue(t, env), start + TermLen(t))
    decreases Left(toks, pos), 1
  {
    var op := Peek(toks, pos);
    if !op.Star? && !op.Slash? {
      t := l;
    } else {
      var r := FactorSound(toks, env, pos + 1);
      var product := ScaleParsed(toks, env, start, l, pos, r);
      t := TermRestSound(toks, env, start, product, pos + 1 + FactorLen(r));
    }
  }

  lemma ScaleParsed<N>(toks: seq<Token>, env: Env<N>, start: nat, l: Term, pos: nat, r: Factor) returns (product: Term)
    requires TermDefined(l, env) && TermAt(toks, start, l) && pos == start + TermLen(l) < |toks|
    requires Peek(toks, pos).Star? || Peek(toks, pos).Slash?
    requires FactorDefined(r, env) && FactorAt(toks, pos + 1, r)
    requires ParseFactor(toks, env, pos + 1) == Done(FactorValue(r, env), pos + 1 + FactorLen(r))
    ensures TermDefined(product, env) && TermAt(toks, start, product)
    ensures TermLen(product) == TermLen(l) + 1 + FactorLen(r)
    ensures ParseTermRest(toks, env, TermValue(l, env), pos)
         == ParseTermRest(toks, env, TermValue(product, env), pos + 1 + FactorLen(r))
  {
    product := Scale(l, if Peek(toks, pos).Star? then Times else Over, r);
    ScaleUnfolds(toks, env, start, l, product.op, r);
    TermTurn(toks, env, TermValue(l, env), pos, product.op, FactorValue(r, env), pos + 1 + FactorLen(r));
  }

  lemma {:induction false} ExprSound<N>(toks: seq<Token>, env: Env<N>, pos: nat) returns (e: Expr)
    requires ParseExpr(toks, env, pos).Done?
    ensures ExprDefined(e, env) && ExprAt(toks, pos, e)
    ensures ParseExpr(toks, env, pos) == Done(ExprValue(e, env), pos + ExprLen(e))
    decreases Left(toks, pos), 4
  {
    var t := TermSound(toks, env, pos);
    e := ExprRestSound(toks, env, pos, Just(t), pos + TermLen(t));
  }

  lemma {:induction false} ExprRestSound<N>(toks: seq<Token>, env: Env<N>, start: nat, l: Expr,
                                            pos: nat) returns (e: Expr)
    requires ExprDefined(l, env) && ExprAt(toks, start, l) && pos == start + ExprLen(l) <= |toks| + 1
    requires ParseExprRest(toks, env, ExprValue(l, env), pos).Done?
    ensures ExprDefined(e, env) && ExprAt(toks, start, e)
    ensures ParseExprRest(toks, env, ExprValue(l, env), pos) == Done(ExprValue(e, env), start + ExprLen(e))
    decreases Left(toks, pos), 3
  {
    var op := Peek(toks, pos);
    if !op.PlusSign? && !op.MinusSign? {
      e := l;
    } else {
      TermFollows(toks, env, ExprValue(l, env), pos);
      var r := TermSound(toks, env, pos + 1);
      var sum := SumParsed(toks, env, start, l, pos, r);
      e := ExprRestSound(toks, env, start, sum, pos + 1 + TermLen(r));
    }
  }

  lemma TermFollows<N>(toks: seq<Token>, env: Env<N>, left: N, pos: nat)
    requires pos <= |toks| + 1 && ParseExprRest(toks, env, left, pos).Done?
    requires Peek(toks, pos).PlusSign? || Peek(toks, pos).MinusSign?
    ensures pos < |toks| && ParseTerm(toks, env, pos + 1).Done?
  {
  }

  lemma SumParsed<N>(toks: seq<Token>, env: Env<N>, start: nat, l: Expr, pos: nat, r: Term) returns (sum: Expr)
    requires ExprDefined(l, env) && ExprAt(toks, start, l) && pos == start + ExprLen(l) < |toks|
    requires Peek(toks, pos).PlusSign? || Peek(toks, pos).MinusSign?
    requires TermDefined(r, env) && TermAt(toks, pos + 1, r)
    requires ParseTerm(toks, env, pos + 1) == Done(TermValue(r, env), pos + 1 + TermLen(r))
    ensures ExprDefined(sum, env) && ExprAt(toks, start, sum) && ExprLen(sum) == ExprLen(l) + 1 + TermLen(r)
    ensures ParseExprRest(toks, env, ExprValue(l, env), pos)
         == ParseExprRest(toks, env, ExprValue(sum, env), pos + 1 + TermLen(r))
  {
    sum := Sum(l, if Peek(toks, pos).PlusSign? then Plus else Minus, r);
    ExprTurn(toks, env, ExprValue(l, env), pos, sum.op, TermValue(r, env), pos + 1 + TermLen(r));
  }

  // ---------- standing at a position is spelling the tokens from there ----------

  /** The tokens with the empty token that reading past the end returns once. */
  function Padded(toks: seq<Token>): seq<Token> {
    toks + [End]
  }

  /** `ys` are the tokens from `pos` on. */
  predicate At(toks: seq<Token>, pos: nat, ys: seq<Token>) {
    pos + |ys| <= |toks| + 1 && Padded(toks)[pos..pos + |ys|] == ys
  }

  lemma AtParts(toks: seq<Token>, pos: nat, a: seq<Token>, b: seq<Token>)
    ensures At(toks, pos, a + b) <==> At(toks, pos, a) && At(toks, pos + |a|, b)
  {
    if pos + |a| + |b| <= |toks| + 1 {
      var p := Padded(toks);
      var x, y := p[pos..pos + |a|], p[pos + |a|..pos + |a| + |b|];
      assert p[pos..pos + |a + b|] == x + y;
      if x + y == a + b {
        assert x == (x + y)[..|a|] == a;
        assert y == (x + y)[|a|..] == b;
      }
    }
  }

  lemma AtOne(toks: seq<Token>, pos: nat, t: Token)
    ensures At(toks, pos, [t]) <==> TokenAt(toks, pos, t)
  {
    if pos <= |toks| { assert Padded(toks)[pos..pos + 1] == [Peek(toks, pos)]; }
  }

  /** An operator token with what stands on both sides of it. */
  lemma AtOperator(toks: seq<Token>, pos: nat, a: seq<Token>, op: Token, b: seq<Token>)
    ensures At(toks, pos, a + [op] + b) <==>
            At(toks, pos, a) && TokenAt(toks, pos + |a|, op) && At(toks, pos + |a| + 1, b)
  {
    AtParts(toks, pos, a + [op], b);
    AtParts(toks, pos, a, [op]);
    AtOne(toks, pos + |a|, op);
  }

  lemma {:induction false} ExprSpelled(toks: seq<Token>, pos: nat, e: Expr)
    ensures |ExprTokens(e)| == ExprLen(e)
    ensures ExprAt(toks, pos, e) <==> At(toks, pos, ExprTokens(e))
    decreases e
  {
    match e
    case Just(t) => TermSpelled(toks, pos, t);
    case Sum(l, op, r) =>
      ExprSpelled(toks, pos, l);
      TermSpelled(toks, pos + ExprLen(l) + 1, r);
      AtOperator(toks, pos, ExprTokens(l), AddSign(op), TermTokens(r));
  }

  lemma {:induction false} TermSpelled(toks: seq<Token>, pos: nat, t: Term)
    ensures |TermTokens(t)| == TermLen(t)
    ensures TermAt(toks, pos, t) <==> At(toks, pos, TermTokens(t))
    decreases t
  {
    match t
    case One(f) => FactorSpelled(toks, pos, f);
    case Scale(l, op, r) =>
      TermSpelled(toks, pos, l);
      FactorSpelled(toks, pos + TermLen(l) + 1, r);
      AtOperator(toks, pos, TermTokens(l), MulSign(op), FactorTokens(r));
  }

  lemma {:induction false} FactorSpelled(toks: seq<Token>, pos: nat, f: Factor)
    ensures |FactorTokens(f)| == FactorLen(f)
    ensures FactorAt(toks, pos, f) <==> At(toks, pos, FactorTokens(f))
    decreases f
  {
    match f
    case Num(t) => AtOne(toks, pos, t);
    case Param(name) =>
      assert FactorTokens(f) == [Params] + [Dot] + [name];
      AtOperator(toks, pos, [Params], Dot, [name]);
      AtOne(toks, pos, Params);
      AtOne(toks, pos + 2, name);
    case Paren(e) =>
      ExprSpelled(toks, pos + 1, e);
      AtBrackets(toks, pos, ExprTokens(e));
    case Neg(g) =>
      FactorSpelled(toks, pos + 1, g);
      AtParts(toks, pos, [MinusSign], FactorTokens(g));
      AtOne(toks, pos, MinusSign);
  }

  lemma AtBrackets(toks: seq<Token>, pos: nat, inner: seq<Token>)
    ensures At(toks, pos, [Open] + inner + [Close]) <==>
            TokenAt(toks, pos, Open) && At(toks, pos + 1, inner) && TokenAt(toks, pos + 1 + |inner|, Close)
  {
    AtParts(toks, pos, [Open] + inner, [Close]);
    AtParts(toks, pos, [Open], inner);
    AtOne(toks, pos, Open);
    AtOne(toks, pos + 1 + |inner|, Close);
  }

  // ---------- main results on tokens ----------

  /** A token list evaluates to `v` exactly when it is an expression whose value is `v`. */
  lemma ValueIff<N>(toks: seq<Token>, env: Env<N>, v: N)
    ensures EvalTokens(toks, env) == Value(v) <==>
            exists e :: ExprDefined(e, env) && ExprTokens(e) == toks && ExprValue(e, env) == v
  {
    if EvalTokens(toks, env) == Value(v) {
      var e := ExprSound(toks, env, 0);
      ExprSpelled(toks, 0, e);
      assert Padded(toks)[0..|toks|] == toks;
    }
    forall e | ExprDefined(e, env) && ExprTokens(e) == toks && ExprValue(e, env) == v
      ensures EvalTokens(toks, env) == Value(v)
    {
      assert Padded(toks)[0..|toks|] == toks;
      ExprSpelled(toks, 0, e);
      ExprComplete(toks, env, 0, e);
    }
  }

  /** Evaluation runs off the token list exactly when an empty parameter name would complete it. */
  lemma PanicIff<N>(toks: seq<Token>, env: Env<N>)
    ensures EvalTokens(toks, env) == IndexPanic <==>
            exists e :: ExprDefined(e, env) && ExprTokens(e) == toks + [End]
  {
    if EvalTokens(toks, env) == IndexPanic {
      var e := ExprSound(toks, env, 0);
      ExprSpelled(toks, 0, e);
      assert Padded(toks)[0..|toks| + 1] == toks + [End];
    }
    forall e | ExprDefined(e, env) && ExprTokens(e) == toks + [End]
      ensures EvalTokens(toks, env) == IndexPanic
    {
      assert Padded(toks)[0..|toks| + 1] == toks + [End];
      ExprSpelled(toks, 0, e);
      ExprComplete(toks, env, 0, e);
    }
  }

  lemma {:induction false} LastEmptyIsParam<N>(e: Expr, env: Env<N>)
    requires ExprDefined(e, env)
    ensures |ExprTokens(e)| > 0
    ensures ExprTokens(e)[|ExprTokens(e)| - 1].End? ==> "" in env.params
    decreases e
  {
    match e
    case Just(t) => LastEmptyIsParamTerm(t, env);
    case Sum(_, _, r) => LastEmptyIsParamTerm(r, env);
  }

  lemma {:induction false} LastEmptyIsParamTerm<N>(t: Term, env: Env<N>)
    requires TermDefined(t, env)
    ensures |TermTokens(t)| > 0
    ensures TermTokens(t)[|TermTokens(t)| - 1].End? ==> "" in env.params
    decreases t
  {
    match t
    case One(f) => LastEmptyIsParamFactor(f, env);
    case Scale(_, _, r) => LastEmptyIsParamFactor(r, env);
  }

  lemma {:induction false} LastEmptyIsParamFactor<N>(f: Factor, env: Env<N>)
    requires FactorDefined(f, env)
    ensures |FactorTokens(f)| > 0
    ensures FactorTokens(f)[|FactorTokens(f)| - 1].End? ==> "" in env.params
    decreases f
  {
    match f
    case Num(_) =>
    case Param(_) =>
    case Paren(_) =>
    case Neg(g) => LastEmptyIsParamFactor(g, env);
  }

  /** Running off the tokens takes a parameter with the empty name. */
  lemma PanicNeedsEmptyName<N>(toks: seq<Token>, env: Env<N>)
    requires EvalTokens(toks, env) == IndexPanic
    ensures "" in env.params
  {
    PanicIff(toks, env);
    var e :| ExprDefined(e, env) && ExprTokens(e) == toks + [End];
    LastEmptyIsParam(e, env);
  }

  /** And with one, two tokens are enough. */
  lemma PanicAfterDot<N>(env: Env<N>)
    requires "" in env.params
    ensures EvalTokens([Params, Dot], env) == IndexPanic
  {
    var e := Just(One(Param(End)));
    assert ExprTokens(e) == [Params, Dot] + [End];
    PanicIff([Params, Dot], env);
  }
}
