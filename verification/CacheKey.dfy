/** The key under which a client is cached: one text for everything that identifies a connection. */
module CacheKey {
  import opened Options
  import opened Separated

  datatype BasicAuth = BasicAuth(username: string, password: string)

  datatype Config = Config(
    endpoint: string, endpoints: seq<string>, host: string, hosts: seq<string>, schema: string,
    distribution: string, auth: Option<BasicAuth>, token: string, version: string)

  /** Nothing when the configuration names no endpoint at all, on which the original panics. */
  function GetAnyEndpoint(c: Config): Option<string> {
    if c.endpoint != "" then Some(c.endpoint)
    else if c.endpoints != [] then Some(c.endpoints[0])
    else if c.host != "" then Some(c.schema + "://" + c.host)
    else if c.hosts != [] then Some(c.schema + "://" + c.hosts[0])
    else None
  }

  /** The endpoint that takes part in the key: that of a configuration with only hosts does not. */
  function Resolved(c: Config): (r: string)
    ensures c.endpoint != "" || c.endpoints != [] ==> Some(r) == GetAnyEndpoint(c)
  {
    if c.endpoint != "" then c.endpoint else if c.endpoints != [] then c.endpoints[0] else ""
  }

  method ConfigCacheKey(c: Config) returns (key: string)
    ensures key == Key(c)
  {
    var anyEndpoint := "";
    if c.endpoint != "" || |c.endpoints| > 0 {
      anyEndpoint := GetAnyEndpoint(c).value;
    }
    key := anyEndpoint + "|" + Join(c.endpoints, ',') + "|" + c.distribution + "|";
    ghost var start := key;
    if c.auth.Some? {
      key := key + (c.auth.value.username + ":" + c.auth.value.password + "|");
    }
    key := key + (c.token + "|" + c.version);
    KeyText(c);
    EndText(c);
    assert key == start + Join(EndParts(c), '|');
  }

  // ---------- the key as joined parts ----------

  function AuthParts(c: Config): seq<string> {
    if c.auth.None? then [] else [c.auth.value.username + ([':'] + c.auth.value.password)]
  }

  function Parts(c: Config): seq<string> {
    [Resolved(c), Join(c.endpoints, ','), c.distribution] + AuthParts(c) + [c.token, c.version]
  }

  function Key(c: Config): string {
    Join(Parts(c), '|')
  }

  lemma JoinStep(part: string, rest: seq<string>, sep: char)
    requires rest != []
    ensures Join([part] + rest, sep) == part + ([sep] + Join(rest, sep))
  {
    assert ([part] + rest)[1..] == rest;
  }

  function EndParts(c: Config): seq<string> {
    AuthParts(c) + [c.token, c.version]
  }

  lemma EndText(c: Config)
    ensures Join(EndParts(c), '|')
         == (if c.auth.Some? then c.auth.value.username + ":" + c.auth.value.password + "|" else "")
           + (c.token + "|" + c.version)
  {
    var tail := [c.token, c.version];
    assert tail == [c.token] + [c.version];
    JoinStep(c.token, [c.version], '|');
    if c.auth.Some? {
      JoinStep(AuthParts(c)[0], tail, '|');
    } else {
      assert EndParts(c) == tail;
    }
  }

  lemma KeyText(c: Config)
    ensures Key(c) == Resolved(c) + "|" + Join(c.endpoints, ',') + "|" + c.distribution + "|" + Join(EndParts(c), '|')
  {
    var end, list := EndParts(c), Join(c.endpoints, ',');
    JoinStep(c.distribution, end, '|');
    JoinStep(list, [c.distribution] + end, '|');
    JoinStep(Resolved(c), [list] + ([c.distribution] + end), '|');
    assert Parts(c) == [Resolved(c)] + ([list] + ([c.distribution] + end));
    Regroup(Resolved(c), list, c.distribution, Join(end, '|'));
  }

  lemma Regroup(a: string, b: string, c: string, d: string)
    ensures a + ("|" + (b + ("|" + (c + ("|" + d))))) == a + "|" + b + "|" + c + "|" + d
  {
  }

  // ---------- what the key tells apart ----------

  /** No field holds a character the key uses to separate fields from each other. */
  predicate Plain(c: Config) {
    && '|' !in Resolved(c) && '|' !in c.distribution && '|' !in c.token && '|' !in c.version
    && (c.auth.Some?
        ==> '|' !in c.auth.value.username && '|' !in c.auth.value.password && ':' !in c.auth.value.username)
    && (forall i | 0 <= i < |c.endpoints| :: c.endpoints[i] != "" && '|' !in c.endpoints[i] && ',' !in c.endpoints[i])
  }

  predicate SameConnection(a: Config, b: Config) {
    && Resolved(a) == Resolved(b) && a.endpoints == b.endpoints && a.distribution == b.distribution
    && a.auth == b.auth && a.token == b.token && a.version == b.version
  }

  lemma {:induction false} JoinFree(parts: seq<string>, sep: char, c: char)
    requires c != sep && AllFree(parts, c)
    ensures c !in Join(parts, sep)
  {
    if |parts| > 1 { JoinFree(parts[1..], sep, c); }
  }

  lemma PartsFree(c: Config)
    requires Plain(c)
    ensures AllFree(Parts(c), '|')
  {
    JoinFree(c.endpoints, ',', '|');
  }

  lemma EndpointsDetermined(a: seq<string>, b: seq<string>)
    requires AllFree(a, ',') && AllFree(b, ',') && Join(a, ',') == Join(b, ',')
    requires (forall i | 0 <= i < |a| :: a[i] != "") && (forall i | 0 <= i < |b| :: b[i] != "")
    ensures a == b
  {
    if a != [] && b != [] { JoinInjective(a, b, ','); }
  }

  lemma AuthDetermined(a: BasicAuth, b: BasicAuth)
    requires ':' !in a.username && ':' !in b.username
    requires a.username + ([':'] + a.password) == b.username + ([':'] + b.password)
    ensures a == b
  {
    SplitAtSeparator(a.username, a.password, ':');
    SplitAtSeparator(b.username, b.password, ':');
    SplitFree(a.username, ':');
    SplitFree(b.username, ':');
    var text := a.username + ([':'] + a.password);
    assert a.username == Split(text, ':')[0] == b.username;
    assert a.password == text[|a.username| + 1..] == b.password;
  }

  /** Two plain configurations share a key exactly when they agree on everything that identifies a connection. */
  lemma SameKeyIff(a: Config, b: Config)
    requires Plain(a) && Plain(b)
    ensures Key(a) == Key(b) <==> SameConnection(a, b)
  {
    if Key(a) == Key(b) {
      PartsFree(a);
      PartsFree(b);
      JoinInjective(Parts(a), Parts(b), '|');
      assert |AuthParts(a)| == |AuthParts(b)|;
      var p, q, n := Parts(a), Parts(b), |AuthParts(a)|;
      assert p[0] == q[0] && p[1] == q[1] && p[2] == q[2];
      assert p[3 + n] == q[3 + n] && p[4 + n] == q[4 + n];
      EndpointsDetermined(a.endpoints, b.endpoints);
      if n == 1 {
        assert p[3] == q[3];
        AuthDetermined(a.auth.value, b.auth.value);
      }
    }
  }

  /** The fields of a plain configuration, read back from its key. */
  lemma KeyReadsBack(c: Config)
    requires Plain(c)
    ensures var endpoint := if c.endpoint != "" then c.endpoint
                            else if c.endpoints != [] then c.endpoints[0] else "";
            Split(Key(c), '|')
              == [endpoint, Join(c.endpoints, ','), c.distribution]
                + (if c.auth.Some? then [c.auth.value.username + ":" + c.auth.value.password] else [])
                + [c.token, c.version]
  {
    PartsFree(c);
    SplitJoin(Parts(c), '|');
    if c.auth.Some? {
      var name, word := c.auth.value.username, c.auth.value.password;
      assert name + ([':'] + word) == name + ":" + word;
    }
  }

  /** With a colon in a user name, two different credentials share a key. */
  lemma ColonInUserName(c: Config, x: string, y: string, z: string)
    ensures var a := c.(auth := Some(BasicAuth(x + ":" + y, z)));
            var b := c.(auth := Some(BasicAuth(x, y + ":" + z)));
            Key(a) == Key(b) && !SameConnection(a, b)
  {
    var a := c.(auth := Some(BasicAuth(x + ":" + y, z)));
    var b := c.(auth := Some(BasicAuth(x, y + ":" + z)));
    assert AuthParts(a) == AuthParts(b) by {
      assert x + ":" + y + ([':'] + z) == x + ([':'] + (y + ":" + z));
    }
    assert |x + ":" + y| > |x|;
  }
}
