/** Exactly which printed documents are JSON, by a scanner that tracks brackets and strings. */
module JsonScan {
  import opened Json

  /** Between tokens, where a member name is due, and inside a string. */
  datatype Mode = Between | NameDue | Inside | Escaped

  /** The brackets that are open, innermost last, true for an object; `Broken` once a member begins
      with anything but a string, or a bracket closes that none opened. */
  datatype Scanner = Scanner(mode: Mode, open: seq<bool>) | Broken

  function Closed(open: seq<bool>): Scanner {
    if open == [] then Broken else Scanner(Between, open[..|open| - 1])
  }

  function Next(s: Scanner, c: char): Scanner {
    if s.Broken? then Broken
    else
      match s.mode
      case Between =>
        if c == '"' then Scanner(Inside, s.open)
        else if c == '{' then Scanner(NameDue, s.open + [true])
        else if c == '[' then Scanner(Between, s.open + [false])
        else if c == '}' || c == ']' then Closed(s.open)
        else if c == ',' && s.open != [] && s.open[|s.open| - 1] then Scanner(NameDue, s.open)
        else s
      case NameDue =>
        if c == '"' then Scanner(Inside, s.open) else if c == '}' then Closed(s.open) else Broken
      case Inside =>
        if c == '"' then Scanner(Between, s.open) else if c == '\\' then Scanner(Escaped, s.open) else s
      case Escaped => Scanner(Inside, s.open)
  }

  function Scan(s: Scanner, text: string): Scanner
    decreases |text|
  {
    if text == "" then s else Scan(Next(s, text[0]), text[1..])
  }

  lemma {:induction false} ScanConcat(s: Scanner, a: string, b: string)
    ensures Scan(s, a + b) == Scan(Scan(s, a), b)
    decreases |a|
  {
    if a == "" {
      assert a + b == b;
    } else {
      assert (a + b)[1..] == a[1..] + b;
      ScanConcat(Next(s, a[0]), a[1..], b);
    }
  }

  lemma ScanOne(s: Scanner, c: char)
    ensures Scan(s, [c]) == Next(s, c)
  {
    assert [c][1..] == "";
  }

  lemma {:induction false} StaysBroken(text: string)
    ensures Scan(Broken, text) == Broken
  {
    if text != "" { StaysBroken(text[1..]); }
  }

  // ---------- literals ----------

  predicate Ordinary(c: char) {
    c != '"' && c != '{' && c != '}' && c != '[' && c != ']' && c != ','
  }

  lemma {:induction false} OrdinaryScans(open: seq<bool>, text: string)
    requires forall i | 0 <= i < |text| :: Ordinary(text[i])
    ensures Scan(Scanner(Between, open), text) == Scanner(Between, open)
  {
    if text != "" { OrdinaryScans(open, text[1..]); }
  }

  lemma {:induction false} BodyScans(open: seq<bool>, body: string)
    requires IsStringBody(body)
    ensures Scan(Scanner(Inside, open), body) == Scanner(Inside, open)
  {
    if body != "" {
      if body[0] != '\\' {
        BodyScans(open, body[1..]);
      } else {
        assert Scan(Scanner(Inside, open), body) == Scan(Scanner(Inside, open), body[2..]) by {
          assert body[1..][0] == body[1] && body[1..][1..] == body[2..];
        }
        if body[1] in "\"\\/bfnrt" {
          BodyScans(open, body[2..]);
        } else {
          BodyScans(open, body[6..]);
          HexScans(open, body[2..6]);
          ScanConcat(Scanner(Inside, open), body[2..6], body[6..]);
          assert body[2..] == body[2..6] + body[6..];
        }
      }
    }
  }

  lemma {:induction false} HexScans(open: seq<bool>, text: string)
    requires forall i | 0 <= i < |text| :: IsHex(text[i])
    ensures Scan(Scanner(Inside, open), text) == Scanner(Inside, open)
  {
    if text != "" { HexScans(open, text[1..]); }
  }

  /** A string is scanned alike where a name is due and elsewhere. */
  lemma StringScans(mode: Mode, open: seq<bool>, s: string)
    requires IsString(s) && (mode == Between || mode == NameDue)
    ensures Scan(Scanner(mode, open), s) == Scanner(Between, open)
  {
    var body := s[1..|s| - 1];
    assert s[1..] == body + "\"";
    BodyScans(open, body);
    ScanConcat(Scanner(Inside, open), body, "\"");
    ScanOne(Scanner(Inside, open), '"');
  }

  lemma NumberIsOrdinary(s: string)
    requires IsNumber(s)
    ensures forall i | 0 <= i < |s| :: Ordinary(s[i])
    ensures s != "" && (s[0] == '-' || IsDigit(s[0]))
  {
    var minus, int_, frac, exp :|
      && s == minus + int_ + frac + exp && (minus == "" || minus == "-") && IsNatural(int_)
      && (frac == "" || IsFraction(frac)) && (exp == "" || IsExponent(exp));
    assert s[0] == if minus == "" then int_[0] else '-';
    assert forall i | 0 <= i < |int_| :: Ordinary(int_[i]);
    FractionIsOrdinary(frac);
    ExponentIsOrdinary(exp);
  }

  lemma FractionIsOrdinary(s: string)
    requires s == "" || IsFraction(s)
    ensures forall i | 0 <= i < |s| :: Ordinary(s[i])
  {
    forall i | 0 <= i < |s| ensures Ordinary(s[i]) { if i > 0 { assert s[i] == s[1..][i - 1]; } }
  }

  lemma ExponentIsOrdinary(s: string)
    requires s == "" || IsExponent(s)
    ensures forall i | 0 <= i < |s| :: Ordinary(s[i])
  {
    forall i | 0 <= i < |s| ensures Ordinary(s[i]) {
      if i > 0 && AllDigits(s[1..]) {
        assert s[i] == s[1..][i - 1];
      } else if i > 1 {
        assert s[i] == s[2..][i - 2];
      }
    }
  }

  /** A text that the scanner passes over. */
  ghost predicate Passes(text: string) {
    forall open {:trigger Scanner(Between, open)} :: Scan(Scanner(Between, open), text) == Scanner(Between, open)
  }

  lemma LiteralPasses(s: string)
    requires IsLiteral(s)
    ensures Passes(s)
  {
    forall open ensures Scan(Scanner(Between, open), s) == Scanner(Between, open) {
      if IsString(s) {
        StringScans(Between, open, s);
      } else {
        if IsNumber(s) { NumberIsOrdinary(s); }
        OrdinaryScans(open, s);
      }
    }
  }

  // ---------- documents ----------

  /** A text that can only be taken for a string if it is one. */
  predicate NameLike(s: string) {
    s != "" && s[0] != '}' && (s[0] == '"' ==> IsString(s))
  }

  ghost predicate Scannable(d: Doc)
    decreases d
  {
    match d
    case Atom(text) => Passes(text)
    case Arr(items) => forall i | 0 <= i < |items| :: Scannable(items[i])
    case Obj(members) => forall i | 0 <= i < |members| :: NameLike(members[i].name) && Scannable(members[i].value)
  }

  predicate StringNames(d: Doc)
    decreases d
  {
    match d
    case Atom(_) => true
    case Arr(items) => forall i | 0 <= i < |items| :: StringNames(items[i])
    case Obj(members) => forall i | 0 <= i < |members| :: IsString(members[i].name) && StringNames(members[i].value)
  }

  /** Where the scanner is after a document, or part of one, whose names are strings or not. */
  function Reached(fine: bool, mode: Mode, open: seq<bool>): Scanner {
    if fine then Scanner(mode, open) else Broken
  }

  lemma {:induction false} DocScans(d: Doc, open: seq<bool>)
    requires Scannable(d)
    ensures Scan(Scanner(Between, open), Print(d)) == Reached(StringNames(d), Between, open)
    decreases d
  {
    match d
    case Atom(_) =>
    case Arr(items) =>
      var inside, fine := Scanner(Between, open + [false]), ItemsNamed(items);
      forall i | 0 <= i < |items| ensures Scan(inside, Texts(items)[i]) == if fine[i] then inside else Broken {
        DocScans(items[i], open + [false]);
      }
      ArrayText(Texts(items), fine, open);
    case Obj(members) =>
      var due, inside, fine := Scanner(NameDue, open + [true]), Scanner(Between, open + [true]), MembersNamed(members);
      forall i | 0 <= i < |members| ensures Scan(due, MemberTexts(members)[i]) == if fine[i] then inside else Broken {
        DocScans(members[i].value, open + [true]);
        MemberScans(members[i], open);
      }
      ObjectText(MemberTexts(members), fine, open);
  }

  function ItemsNamed(items: seq<Doc>): (fine: seq<bool>)
    ensures |fine| == |items| && forall i | 0 <= i < |items| :: fine[i] == StringNames(items[i])
    ensures AllTrue(fine) <==> StringNames(Arr(items))
  {
    seq(|items|, i requires 0 <= i < |items| => StringNames(items[i]))
  }

  lemma ArrayText(texts: seq<string>, fine: seq<bool>, open: seq<bool>)
    requires EachScans(Scanner(Between, open + [false]), texts, fine, Scanner(Between, open + [false]))
    ensures Scan(Scanner(Between, open), "[" + Join(texts) + "]") == Reached(AllTrue(fine), Between, open)
  {
    var inside := Scanner(Between, open + [false]);
    JoinScans(inside, inside, texts, fine);
    BracketScans(Scanner(Between, open), '[', Join(texts), ']', inside, AllTrue(fine), open);
  }

  function MembersNamed(members: seq<Member>): (fine: seq<bool>)
    ensures |fine| == |members|
    ensures forall i | 0 <= i < |members| :: fine[i] == (IsString(members[i].name) && StringNames(members[i].value))
    ensures AllTrue(fine) <==> StringNames(Obj(members))
  {
    seq(|members|, i requires 0 <= i < |members| => IsString(members[i].name) && StringNames(members[i].value))
  }

  lemma ObjectText(texts: seq<string>, fine: seq<bool>, open: seq<bool>)
    requires EachScans(Scanner(NameDue, open + [true]), texts, fine, Scanner(Between, open + [true]))
    ensures Scan(Scanner(Between, open), "{" + Join(texts) + "}") == Reached(AllTrue(fine), Between, open)
  {
    var due, inside := Scanner(NameDue, open + [true]), Scanner(Between, open + [true]);
    JoinScans(due, inside, texts, fine);
    BracketScans(Scanner(Between, open), '{', Join(texts), '}', if texts == [] then due else inside, AllTrue(fine),
                 open);
  }

  predicate AllTrue(fine: seq<bool>) {
    forall i | 0 <= i < |fine| :: fine[i]
  }

  lemma BracketScans(s: Scanner, left: char, text: string, right: char, inside: Scanner, fine: bool, open: seq<bool>)
    requires Scan(Next(s, left), text) == (if fine then inside else Broken)
    requires Next(inside, right) == Scanner(Between, open)
    ensures Scan(s, [left] + text + [right]) == Reached(fine, Between, open)
  {
    ScanConcat(s, [left] + text, [right]);
    ScanConcat(s, [left], text);
    ScanOne(s, left);
    ScanOne(inside, right);
    StaysBroken([right]);
  }

  /** Each text leads from `due` to `s`, or breaks the scanner. */
  ghost predicate EachScans(due: Scanner, texts: seq<string>, fine: seq<bool>, s: Scanner) {
    |texts| == |fine| && forall i | 0 <= i < |texts| :: Scan(due, texts[i]) == if fine[i] then s else Broken
  }

  lemma {:induction false} CommasScan(due: Scanner, s: Scanner, texts: seq<string>, fine: seq<bool>)
    requires due == Next(s, ',') && EachScans(due, texts, fine, s)
    ensures Scan(s, Commas(texts)) == if AllTrue(fine) then s else Broken
    decreases |texts|
  {
    if texts != [] {
      CommasScan(due, s, texts[1..], fine[1..]);
      assert ("," + texts[0])[1..] == texts[0];
      ThenScans(s, "," + texts[0], fine[0], s, Commas(texts[1..]), AllTrue(fine[1..]), s);
      assert fine == [fine[0]] + fine[1..];
    }
  }

  lemma JoinScans(due: Scanner, s: Scanner, texts: seq<string>, fine: seq<bool>)
    requires due == Next(s, ',') && EachScans(due, texts, fine, s)
    ensures Scan(due, Join(texts)) == if texts == [] then due else if AllTrue(fine) then s else Broken
  {
    if texts != [] {
      CommasScan(due, s, texts[1..], fine[1..]);
      ThenScans(due, texts[0], fine[0], s, Commas(texts[1..]), AllTrue(fine[1..]), s);
      assert fine == [fine[0]] + fine[1..];
    }
  }

  lemma ThenScans(s: Scanner, a: string, fineA: bool, mid: Scanner, b: string, fineB: bool, end: Scanner)
    requires Scan(s, a) == (if fineA then mid else Broken) && Scan(mid, b) == (if fineB then end else Broken)
    ensures Scan(s, a + b) == if fineA && fineB then end else Broken
  {
    ScanConcat(s, a, b);
    StaysBroken(b);
  }

  lemma MemberScans(m: Member, open: seq<bool>)
    requires NameLike(m.name)
    requires Scan(Scanner(Between, open + [true]), Print(m.value))
         == Reached(StringNames(m.value), Between, open + [true])
    ensures Scan(Scanner(NameDue, open + [true]), m.name + ":" + Print(m.value))
         == Reached(IsString(m.name) && StringNames(m.value), Between, open + [true])
  {
    var s, due := Scanner(Between, open + [true]), Scanner(NameDue, open + [true]);
    NameScans(m.name, open + [true]);
    ScanOne(s, ':');
    ThenScans(due, m.name, IsString(m.name), s, ":", true, s);
    ThenScans(due, m.name + ":", IsString(m.name), s, Print(m.value), StringNames(m.value), s);
  }

  lemma NameScans(name: string, open: seq<bool>)
    requires NameLike(name)
    ensures Scan(Scanner(NameDue, open), name) == Reached(IsString(name), Between, open)
  {
    if IsString(name) {
      StringScans(NameDue, open, name);
    } else {
      StaysBroken(name[1..]);
    }
  }

  // ---------- JSON ----------

  lemma {:induction false} StrictIsScannable(d: Doc)
    requires Strict(d)
    ensures Scannable(d) && StringNames(d)
    decreases d
  {
    match d
    case Atom(text) => LiteralPasses(text);
    case Arr(items) =>
      forall i | 0 <= i < |items| ensures Scannable(items[i]) && StringNames(items[i]) { StrictIsScannable(items[i]); }
    case Obj(members) =>
      forall i | 0 <= i < |members| ensures Scannable(members[i].value) && StringNames(members[i].value) {
        StrictIsScannable(members[i].value);
      }
  }

  lemma JsonPasses(s: string)
    requires IsJson(s)
    ensures Passes(s)
  {
    var d :| Strict(d) && Print(d) == s;
    StrictIsScannable(d);
    forall open ensures Scan(Scanner(Between, open), s) == Scanner(Between, open) { DocScans(d, open); }
  }

  /** No JSON text but a string begins like one. */
  lemma JsonIsNameLike(s: string)
    requires IsJson(s)
    ensures NameLike(s)
  {
    var d :| Strict(d) && Print(d) == s;
    if d.Atom? && IsNumber(d.text) { NumberIsOrdinary(d.text); }
  }

  /** Atoms are JSON, and no name but a string begins like one. */
  ghost predicate Loose(d: Doc)
    decreases d
  {
    match d
    case Atom(text) => IsJson(text)
    case Arr(items) => forall i | 0 <= i < |items| :: Loose(items[i])
    case Obj(members) => forall i | 0 <= i < |members| :: NameLike(members[i].name) && Loose(members[i].value)
  }

  lemma {:induction false} LooseIsScannable(d: Doc)
    requires Loose(d)
    ensures Scannable(d) && (StringNames(d) ==> WellFormed(d))
    decreases d
  {
    match d
    case Atom(text) => JsonPasses(text);
    case Arr(items) =>
      forall i | 0 <= i < |items| ensures Scannable(items[i]) && (StringNames(items[i]) ==> WellFormed(items[i])) {
        LooseIsScannable(items[i]);
      }
    case Obj(members) =>
      forall i | 0 <= i < |members|
        ensures Scannable(members[i].value) && (StringNames(members[i].value) ==> WellFormed(members[i].value))
      {
        LooseIsScannable(members[i].value);
      }
  }

  /** Such a document is printed as JSON exactly when every name in it is a string. */
  lemma JsonIff(d: Doc)
    requires Loose(d)
    ensures IsJson(Print(d)) <==> StringNames(d)
  {
    LooseIsScannable(d);
    if StringNames(d) {
      WellFormedIsJson(d);
    } else {
      DocScans(d, []);
      if IsJson(Print(d)) { JsonPasses(Print(d)); }
    }
  }
}
