/** JSON text as in sections 2 to 7 of RFC 8259, without optional whitespace. */
module Json {

  /** A document: literals, arrays, and objects whose member names are given as written. */
  datatype Doc = Atom(text: string) | Arr(items: seq<Doc>) | Obj(members: seq<Member>)
  datatype Member = Member(name: string, value: Doc)

  /** Each text after the first is preceded by a comma. */
  function Join(ss: seq<string>): string {
    if ss == [] then "" else ss[0] + Commas(ss[1..])
  }

  function Commas(ss: seq<string>): string {
    if ss == [] then "" else "," + ss[0] + Commas(ss[1..])
  }

  function Print(d: Doc): string
    decreases d, 1
  {
    match d
    case Atom(text) => text
    case Arr(items) => "[" + Join(Texts(items)) + "]"
    case Obj(members) => "{" + Join(MemberTexts(members)) + "}"
  }

  function Texts(items: seq<Doc>): (r: seq<string>)
    decreases items, 0
    ensures |r| == |items|
    ensures forall i | 0 <= i < |items| :: r[i] == Print(items[i])
  {
    if items == [] then [] else [Print(items[0])] + Texts(items[1..])
  }

  function MemberTexts(members: seq<Member>): (r: seq<string>)
    decreases members, 0
    ensures |r| == |members|
    ensures forall i | 0 <= i < |members| :: r[i] == members[i].name + ":" + Print(members[i].value)
  {
    if members == [] then []
    else [members[0].name + ":" + Print(members[0].value)] + MemberTexts(members[1..])
  }

  // ---------- literals ----------

  predicate IsDigit(c: char) {
    '0' <= c <= '9'
  }

  predicate IsHex(c: char) {
    IsDigit(c) || 'a' <= c <= 'f' || 'A' <= c <= 'F'
  }

  predicate AllDigits(s: string) {
    forall i | 0 <= i < |s| :: IsDigit(s[i])
  }

  /** An integer without superfluous leading zeros. */
  predicate IsNatural(s: string) {
    |s| > 0 && AllDigits(s) && (s[0] == '0' ==> |s| == 1)
  }

  predicate IsFraction(s: string) {
    |s| > 1 && s[0] == '.' && AllDigits(s[1..])
  }

  predicate IsExponent(s: string) {
    && |s| > 1 && (s[0] == 'e' || s[0] == 'E')
    && (AllDigits(s[1..]) || (|s| > 2 && (s[1] == '+' || s[1] == '-') && AllDigits(s[2..])))
  }

  ghost predicate IsNumber(s: string) {
    exists minus, int_, frac, exp ::
      && s == minus + int_ + frac + exp && (minus == "" || minus == "-") && IsNatural(int_)
      && (frac == "" || IsFraction(frac)) && (exp == "" || IsExponent(exp))
  }

  /** What may stand between the quotes of a string. */
  predicate IsStringBody(s: string) {
    if s == "" then true
    else if s[0] == '\\' then
      if |s| >= 2 && s[1] in "\"\\/bfnrt" then IsStringBody(s[2..])
      else |s| >= 6 && s[1] == 'u' && (forall i | 2 <= i < 6 :: IsHex(s[i])) && IsStringBody(s[6..])
    else s[0] != '"' && s[0] >= ' ' && IsStringBody(s[1..])
  }

  predicate IsString(s: string) {
    |s| >= 2 && s[0] == '"' && s[|s| - 1] == '"' && IsStringBody(s[1..|s| - 1])
  }

  ghost predicate IsLiteral(s: string) {
    s == "true" || s == "false" || s == "null" || IsNumber(s) || IsString(s)
  }

  /** A document made of literals, with strings for member names. */
  ghost predicate Strict(d: Doc)
    decreases d
  {
    match d
    case Atom(text) => IsLiteral(text)
    case Arr(items) => forall i | 0 <= i < |items| :: Strict(items[i])
    case Obj(members) => forall i | 0 <= i < |members| :: IsString(members[i].name) && Strict(members[i].value)
  }

  ghost predicate IsJson(s: string) {
    exists d :: Strict(d) && Print(d) == s
  }

  /** A document whose atoms are JSON texts themselves. */
  ghost predicate WellFormed(d: Doc)
    decreases d
  {
    match d
    case Atom(text) => IsJson(text)
    case Arr(items) => forall i | 0 <= i < |items| :: WellFormed(items[i])
    case Obj(members) => forall i | 0 <= i < |members| :: IsString(members[i].name) && WellFormed(members[i].value)
  }

  /** The document with its atoms expanded, which is printed the same. */
  ghost function Expand(d: Doc): (e: Doc)
    requires WellFormed(d)
    ensures Strict(e) && Print(e) == Print(d)
  {
    match d
    case Atom(text) =>
      var e :| Strict(e) && Print(e) == text;
      e
    case Arr(items) =>
      var es := seq(|items|, i requires 0 <= i < |items| => Expand(items[i]));
      assert Texts(es) == Texts(items);
      Arr(es)
    case Obj(members) =>
      var ms := seq(|members|, i requires 0 <= i < |members| => Member(members[i].name, Expand(members[i].value)));
      assert MemberTexts(ms) == MemberTexts(members);
      Obj(ms)
  }

  /** A well-formed document prints JSON. */
  lemma WellFormedIsJson(d: Doc)
    requires WellFormed(d)
    ensures IsJson(Print(d))
  {
    var e := Expand(d);
  }

  lemma LiteralIsJson(s: string)
    requires IsLiteral(s)
    ensures IsJson(s)
  {
    assert Strict(Atom(s)) && Print(Atom(s)) == s;
  }

  // ---------- integers ----------

  function Naturals(n: nat): (r: string)
    ensures IsNatural(r) && (n > 0 ==> r[0] != '0')
  {
    if n < 10 then [('0' as int + n) as char] else Naturals(n / 10) + [('0' as int + n % 10) as char]
  }

  function Decimal(n: int): string {
    if n < 0 then "-" + Naturals(-n) else Naturals(n)
  }

  lemma DecimalIsJson(n: int)
    ensures IsJson(Decimal(n))
  {
    var minus, digits := if n < 0 then "-" else "", Naturals(if n < 0 then -n else n);
    assert Decimal(n) == minus + digits + "" + "";
    assert IsNumber(Decimal(n));
    LiteralIsJson(Decimal(n));
  }
}
