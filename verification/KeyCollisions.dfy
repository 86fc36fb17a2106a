/** Which configurations share their cache key with no other. */
module KeyCollisions {
  import opened Options
  import opened Separated
  import opened CacheKey

  ghost predicate Collides(c: Config) {
    exists d :: Key(d) == Key(c) && !SameConnection(c, d)
  }

  function List(c: Config): string {
    Join(c.endpoints, ',')
  }

  /** Without credentials the key is five fields; this is the text from the second on. */
  function Tail(list: string, distribution: string, token: string, version: string): string {
    list + "|" + distribution + "|" + token + "|" + version
  }

  lemma BareKey(c: Config)
    requires c.auth.None?
    ensures Key(c) == Resolved(c) + "|" + Tail(List(c), c.distribution, c.token, c.version)
  {
    KeyText(c);
    EndText(c);
    var r, e, d, t, v := Resolved(c), List(c), c.distribution, c.token, c.version;
    assert r + "|" + e + "|" + d + "|" + (t + "|" + v) == r + "|" + (e + "|" + d + "|" + t + "|" + v);
  }

  // ---------- the texts that a configuration can have for its endpoints ----------

  /** The list with no resolved endpoint is empty, or begins with an empty endpoint. */
  predicate Possible(resolved: string, list: string) {
    resolved != "" || list == "" || list[0] == ','
  }

  lemma AlwaysPossible(c: Config)
    ensures Possible(Resolved(c), List(c))
  {
  }

  /** A configuration that resolves to this endpoint and lists these. */
  function Bare(resolved: string, list: string, distribution: string, token: string, version: string): Config
    requires Possible(resolved, list)
  {
    var endpoints := if resolved != "" then [list] else if list == "" then [] else ["", list[1..]];
    Config(resolved, endpoints, "", [], "", distribution, None, token, version)
  }

  lemma BareIs(resolved: string, list: string, distribution: string, token: string, version: string)
    requires Possible(resolved, list)
    ensures var c := Bare(resolved, list, distribution, token, version); Resolved(c) == resolved && List(c) == list
    ensures Key(Bare(resolved, list, distribution, token, version))
         == resolved + "|" + Tail(list, distribution, token, version)
  {
    var c := Bare(resolved, list, distribution, token, version);
    if resolved == "" && list != "" {
      assert ["", list[1..]][1..] == [list[1..]];
      assert Join(["", list[1..]], ',') == "" + ([','] + list[1..]) == list;
    }
    BareKey(c);
  }

  // ---------- fields with a bar in them ----------

  predicate HasBar(s: string) {
    '|' in s
  }

  /** The text up to the first bar, and after it. */
  lemma {:induction false} FirstBar(s: string, sep: char) returns (a: string, b: string)
    requires sep in s
    ensures s == a + [sep] + b && sep !in a
  {
    if s[0] == sep {
      a, b := "", s[1..];
    } else {
      a, b := FirstBar(s[1..], sep);
      a := [s[0]] + a;
    }
  }

  lemma BarInDistribution(c: Config)
    requires c.auth.None? && HasBar(c.distribution)
    ensures Collides(c)
  {
    var a, b := FirstBar(c.distribution, '|');
    var d := c.(distribution := a, token := b + "|" + c.token);
    BareKey(c);
    BareKey(d);
    assert Tail(List(c), a + ['|'] + b, c.token, c.version) == Tail(List(c), a, b + "|" + c.token, c.version);
    assert Key(d) == Key(c) && !SameConnection(c, d);
  }

  lemma BarInToken(c: Config)
    requires c.auth.None? && HasBar(c.token)
    ensures Collides(c)
  {
    var a, b := FirstBar(c.token, '|');
    var d := c.(distribution := c.distribution + "|" + a, token := b);
    BareKey(c);
    BareKey(d);
    assert Tail(List(c), c.distribution, a + ['|'] + b, c.version)
      == Tail(List(c), c.distribution + "|" + a, b, c.version);
    assert |d.distribution| > |c.distribution|;
    assert Key(d) == Key(c) && !SameConnection(c, d);
  }

  lemma BarInVersion(c: Config)
    requires c.auth.None? && HasBar(c.version)
    ensures Collides(c)
  {
    var a, b := FirstBar(c.version, '|');
    var d := c.(token := c.token + "|" + a, version := b);
    BareKey(c);
    BareKey(d);
    assert Tail(List(c), c.distribution, c.token, a + ['|'] + b) == Tail(List(c), c.distribution, c.token + "|" + a, b);
    assert |d.token| > |c.token|;
    assert Key(d) == Key(c) && !SameConnection(c, d);
  }

  /** The first field cut in two at a bar, the others moved up by one. */
  lemma MovedUp(c: Config, a: string, b: string)
    requires c.auth.None? && Resolved(c) == a + "|" + b && Possible(a, b)
    ensures Collides(c)
  {
    var d := Bare(a, b, List(c), c.distribution, c.token + "|" + c.version);
    BareKey(c);
    BareIs(a, b, List(c), c.distribution, c.token + "|" + c.version);
    assert a + "|" + b + "|" + Tail(List(c), c.distribution, c.token, c.version)
        == a + "|" + Tail(b, List(c), c.distribution, c.token + "|" + c.version);
    assert |Resolved(c)| > |Resolved(d)|;
    assert Key(d) == Key(c) && !SameConnection(c, d);
  }

  lemma BarInList(c: Config)
    requires c.auth.None? && HasBar(List(c))
    ensures Collides(c)
  {
    var a, b := FirstBar(List(c), '|');
    AlwaysPossible(c);
    assert List(c)[0] == (a + ['|'] + b)[0];
    assert Possible(Resolved(c), a);
    var d := Bare(Resolved(c), a, b, c.distribution, c.token + "|" + c.version);
    BareKey(c);
    BareIs(Resolved(c), a, b, c.distribution, c.token + "|" + c.version);
    assert Tail(a + ['|'] + b, c.distribution, c.token, c.version)
      == Tail(a, b, c.distribution, c.token + "|" + c.version);
    assert |List(c)| > |List(d)|;
    assert Key(d) == Key(c) && !SameConnection(c, d);
  }

  /** A resolved endpoint that can be read in one way: without a bar, or with just one, in front, when
      what follows cannot be a list without a resolved endpoint. */
  predicate EndpointFixed(resolved: string) {
    !HasBar(resolved) || (resolved[0] == '|' && !HasBar(resolved[1..]) && !Possible("", resolved[1..]))
  }

  lemma BarInEndpoint(c: Config)
    requires c.auth.None? && !EndpointFixed(Resolved(c))
    ensures Collides(c)
  {
    var r := Resolved(c);
    var a, b := FirstBar(r, '|');
    if Possible(a, b) {
      MovedUp(c, a, b);
    } else {
      assert a == "" && r[0] == '|' && r[1..] == b;
      var a', b' := FirstBar(b, '|');
      assert r == "|" + a' + "|" + b';
      MovedUp(c, "|" + a', b');
    }
  }

  // ---------- lists ----------

  /** A list of endpoints that can be read in one way. */
  predicate ListFixed(c: Config) {
    if Resolved(c) == "" then |c.endpoints| == 2 && ',' !in c.endpoints[1]
    else |c.endpoints| == 1 && c.endpoints[0] != "" && ',' !in c.endpoints[0]
  }

  lemma OtherList(c: Config, endpoints: seq<string>)
    requires c.auth.None? && endpoints != c.endpoints && Join(endpoints, ',') == List(c)
    requires Resolved(c) == "" && endpoints != [] ==> endpoints[0] == ""
    ensures Collides(c)
  {
    var d := c.(endpoint := Resolved(c), endpoints := endpoints);
    BareKey(c);
    BareKey(d);
    assert Key(d) == Key(c) && !SameConnection(c, d);
  }

  lemma CommaInEndpoint(c: Config, i: nat)
    requires c.auth.None? && i < |c.endpoints| && ',' in c.endpoints[i] && i == |c.endpoints| - 1
    requires Resolved(c) == "" ==> i > 0
    ensures Collides(c)
  {
    var a, b := FirstBar(c.endpoints[i], ',');
    JoinLast(c.endpoints[..i], c.endpoints[i], a, b);
    assert c.endpoints == c.endpoints[..i] + [c.endpoints[i]];
    OtherList(c, c.endpoints[..i] + [a, b]);
  }

  lemma {:induction false} JoinLast(front: seq<string>, last: string, a: string, b: string)
    requires last == a + [','] + b
    ensures Join(front + [last], ',') == Join(front + [a, b], ',')
    decreases |front|
  {
    if front == [] {
      assert [a, b][1..] == [b];
      assert front + [last] == [last] && front + [a, b] == [a, b];
      assert a + [','] + b == a + ([','] + b);
    } else {
      assert (front + [last])[1..] == front[1..] + [last] && (front + [a, b])[1..] == front[1..] + [a, b];
      JoinLast(front[1..], last, a, b);
    }
  }

  lemma ListNotFixed(c: Config)
    requires c.auth.None? && !ListFixed(c)
    ensures Collides(c)
  {
    var es := c.endpoints;
    if es == [] {
      OtherList(c, [""]);
    } else if es == [""] {
      OtherList(c, []);
    } else if Resolved(c) != "" && |es| > 1 {
      OtherList(c, [List(c)]);
    } else if Resolved(c) != "" {
      CommaInEndpoint(c, 0);
    } else if |es| > 2 {
      assert ["", Join(es[1..], ',')][1..] == [Join(es[1..], ',')];
      OtherList(c, ["", Join(es[1..], ',')]);
    } else {
      CommaInEndpoint(c, 1);
    }
  }

  // ---------- credentials ----------

  /** Whatever the configuration, its key is also that of one without credentials. */
  lemma CredentialsCollide(c: Config)
    requires c.auth.Some?
    ensures Key(WithoutCredentials(c)) == Key(c) && Collides(c)
  {
    var d := WithoutCredentials(c);
    KeyText(c);
    KeyText(d);
    EndText(c);
    EndText(d);
    var auth, end := c.auth.value.username + ":" + c.auth.value.password, c.token + "|" + c.version;
    var start := Resolved(c) + "|" + List(c) + "|" + c.distribution;
    assert start + "|" + (auth + "|" + end) == start + "|" + auth + "|" + end;
    assert Resolved(c) + "|" + List(c) + "|" + (c.distribution + "|" + auth) == start + "|" + auth;
    assert "" + end == end;
    assert !SameConnection(c, d);
  }

  function WithoutCredentials(c: Config): Config
    requires c.auth.Some?
  {
    c.(auth := None, distribution := c.distribution + "|" + (c.auth.value.username + ":" + c.auth.value.password))
  }

  // ---------- no collision ----------

  /** Only one configuration can have been meant. */
  predicate Unmistakable(c: Config) {
    && c.auth.None? && EndpointFixed(Resolved(c)) && ListFixed(c)
    && !HasBar(List(c)) && !HasBar(c.distribution) && !HasBar(c.token) && !HasBar(c.version)
  }

  /** The pieces of all parts between bars. */
  function Pieces(parts: seq<string>): seq<string> {
    if parts == [] then [] else Split(parts[0], '|') + Pieces(parts[1..])
  }

  lemma {:induction false} SplitOfJoin(parts: seq<string>)
    requires parts != []
    ensures Split(Join(parts, '|'), '|') == Pieces(parts)
  {
    if |parts| > 1 {
      SplitAtSeparator(parts[0], Join(parts[1..], '|'), '|');
      SplitOfJoin(parts[1..]);
    } else {
      assert parts[1..] == [];
    }
  }

  /** There are at least as many pieces as parts, and as many only if no part has a bar. */
  lemma {:induction false} PiecesCounted(parts: seq<string>)
    ensures |Pieces(parts)| >= |parts|
    ensures |Pieces(parts)| == |parts| ==> Pieces(parts) == parts
    ensures AllFree(parts, '|') ==> Pieces(parts) == parts
  {
    if parts != [] {
      SplitFree(parts[0], '|');
      PiecesCounted(parts[1..]);
      assert parts == [parts[0]] + parts[1..];
    }
  }

  lemma SplitDetermines(s: string, t: string)
    requires Split(s, '|') == Split(t, '|')
    ensures s == t
  {
    JoinOfSplit(s, '|');
    JoinOfSplit(t, '|');
  }

  /** With one reading of the resolved endpoint and no other bars, the parts are those of the configuration. */
  lemma SameParts(c: Config, d: Config)
    requires Unmistakable(c) && Key(c) == Key(d)
    ensures Parts(c) == Parts(d)
  {
    var p, q := Parts(c), Parts(d);
    SplitOfJoin(p);
    SplitOfJoin(q);
    if !HasBar(Resolved(c)) {
      assert |p| == 5 && AllFree(p, '|') && |q| >= 5;
      PiecesCounted(p);
      PiecesCounted(q);
    } else {
      BarInFront(c, d);
    }
  }

  lemma BarInFront(c: Config, d: Config)
    requires Unmistakable(c) && HasBar(Resolved(c)) && Pieces(Parts(c)) == Pieces(Parts(d))
    ensures Parts(c) == Parts(d)
  {
    var p, q, r := Parts(c), Parts(d), Resolved(c);
    var name, first := r[1..], Split(Resolved(d), '|');
    SplitFree(name, '|');
    assert Split(r, '|') == [""] + Split(name, '|') == ["", name];
    PiecesCounted(p[1..]);
    assert Pieces(p) == ["", name] + p[1..];
    PiecesCounted(q[1..]);
    assert Pieces(q) == first + Pieces(q[1..]);
    if |first| == 1 {
      assert first == [Pieces(q)[0]] == [""];
      PieceOfList(d);
      assert false;
    } else {
      assert |first| == 2 && first == Pieces(q)[..2] == ["", name];
      assert q[1..] == Pieces(q)[2..] == p[1..];
      SplitDetermines(r, Resolved(d));
    }
  }

  /** When no endpoint is resolved, the second piece is empty or begins with a comma. */
  lemma PieceOfList(d: Config)
    requires Split(Resolved(d), '|') == [""]
    ensures var pieces := Pieces(Parts(d)); |pieces| > 1 && Possible("", pieces[1])
  {
    var q := Parts(d);
    SplitFree(Resolved(d), '|');
    assert Pieces(q) == Split(q[0], '|') + (Split(q[1], '|') + Pieces(q[1..][1..]));
    AlwaysPossible(d);
  }

  lemma CommaFree(parts: seq<string>)
    ensures parts != [] && ',' !in Join(parts, ',') ==> parts == [Join(parts, ',')]
  {
    if |parts| > 1 {
      assert Join(parts, ',')[|parts[0]|] == ',';
    }
  }

  /** A list whose first endpoint is empty, and which is not. */
  lemma AfterEmpty(c: Config)
    requires Resolved(c) == "" && List(c) != ""
    ensures |c.endpoints| > 1 && c.endpoints[0] == "" && List(c) == "," + Join(c.endpoints[1..], ',')
  {
    assert c.endpoints[0] == "";
    assert "" + ([','] + Join(c.endpoints[1..], ',')) == "," + Join(c.endpoints[1..], ',');
  }

  lemma SameList(c: Config, d: Config)
    requires ListFixed(c) && List(c) == List(d) && Resolved(c) == Resolved(d)
    ensures c.endpoints == d.endpoints
  {
    if Resolved(c) != "" {
      assert c.endpoints == [List(c)];
      if d.endpoints != [] { CommaFree(d.endpoints); }
    } else {
      assert c.endpoints[1..] == [c.endpoints[1]];
      AfterEmpty(c);
      AfterEmpty(d);
      assert Join(c.endpoints[1..], ',') == List(c)[1..] == List(d)[1..] == Join(d.endpoints[1..], ',');
      CommaFree(d.endpoints[1..]);
      assert c.endpoints == [""] + c.endpoints[1..] && d.endpoints == [""] + d.endpoints[1..];
    }
  }

  lemma UnmistakableIsUnique(c: Config, d: Config)
    requires Unmistakable(c) && Key(c) == Key(d)
    ensures SameConnection(c, d)
  {
    SameParts(c, d);
    var p, q := Parts(c), Parts(d);
    assert |p| == 5 && |q| == 5 && d.auth.None?;
    assert p[0] == q[0] && p[1] == q[1] && p[2] == q[2] && p[3] == q[3] && p[4] == q[4];
    SameList(c, d);
  }

  /** A configuration shares its key with a different connection exactly unless it has no credentials,
      no bar where one could separate fields, and a list of endpoints that can be read in one way. */
  lemma CollidesIff(c: Config)
    ensures Collides(c) <==> !Unmistakable(c)
  {
    if Unmistakable(c) {
      forall d | Key(d) == Key(c) ensures SameConnection(c, d) { UnmistakableIsUnique(c, d); }
    } else if c.auth.Some? {
      CredentialsCollide(c);
    } else if HasBar(c.distribution) {
      BarInDistribution(c);
    } else if HasBar(c.token) {
      BarInToken(c);
    } else if HasBar(c.version) {
      BarInVersion(c);
    } else if HasBar(List(c)) {
      BarInList(c);
    } else if !EndpointFixed(Resolved(c)) {
      BarInEndpoint(c);
    } else {
      ListNotFixed(c);
    }
  }
}
