/** Aggregation arguments: keys like agg[types][terms][field] become a nested map. */
module NestedMap {
  import opened Options

  datatype Node = Leaf(text: string) | Dir(children: Map)
  type Map = map<string, Node>

  /** A query argument: its key cut into parts, and its value. */
  datatype Argument = Argument(parts: seq<string>, value: string)

  type Path = seq<string>
  datatype Entry = Entry(path: Path, value: string)

  /** Nothing when the path leads through a leaf. */
  function Insert(m: Map, path: Path, value: string): Option<Map>
    requires path != []
    decreases |path|
  {
    if |path| == 1 then Some(m[path[0] := Leaf(value)])
    else
      var sub := if path[0] in m then m[path[0]] else Dir(map[]);
      if sub.Leaf? then None
      else
        var r := Insert(sub.children, path[1..], value);
        if r.None? then None else Some(m[path[0] := Dir(r.value)])
  }

  predicate Relevant(a: Argument) {
    |a.parts| > 1 && a.parts[0] == "agg"
  }

  /** The entries the arguments stand for; others are skipped. */
  function Entries(args: seq<Argument>): (es: seq<Entry>)
    ensures AllPaths(es)
  {
    if args == [] then []
    else (if Relevant(args[0]) then [Entry(args[0].parts[1..], args[0].value)] else []) + Entries(args[1..])
  }

  predicate AllPaths(es: seq<Entry>) {
    forall i | 0 <= i < |es| :: es[i].path != []
  }

  function InsertAll(m: Map, es: seq<Entry>): Option<Map>
    requires AllPaths(es)
    decreases |es|
  {
    if es == [] then Some(m)
    else
      var r := Insert(m, es[0].path, es[0].value);
      if r.None? then None else InsertAll(r.value, es[1..])
  }

  lemma EntriesStep(args: seq<Argument>, i: nat)
    requires i < |args|
    ensures !Relevant(args[i]) ==> Entries(args[i..]) == Entries(args[i + 1..])
    ensures Relevant(args[i]) ==>
              && Entries(args[i..]) != [] && Entries(args[i..])[0] == Entry(args[i].parts[1..], args[i].value)
              && Entries(args[i..])[1..] == Entries(args[i + 1..])
  {
    assert args[i..][1..] == args[i + 1..];
  }

  function Lookup(m: Map, path: Path): Option<string>
    decreases |path|
  {
    if path == [] || path[0] !in m then None
    else if |path| == 1 then if m[path[0]].Leaf? then Some(m[path[0]].text) else None
    else if m[path[0]].Dir? then Lookup(m[path[0]].children, path[1..])
    else None
  }

  // ---------- the tree of a set of paths ----------

  type Values = imap<Path, string>

  ghost predicate Bounded(vs: Values, n: nat) {
    forall p | p in vs :: 1 <= |p| <= n
  }

  /** No path is a proper prefix of another. */
  ghost predicate NoPrefix(vs: Values) {
    forall p, q {:trigger Leads(p, q)} | p in vs && q in vs :: !Leads(p, q)
  }

  predicate Leads(p: Path, q: Path) {
    p < q
  }

  ghost function Below(vs: Values, k: string): Values {
    imap q | q != [] && [k] + q in vs :: vs[[k] + q]
  }

  function At(m: Map, k: string): Option<Node> {
    if k in m then Some(m[k]) else None
  }

  /** What stands at one key of a map with exactly these leaves. */
  ghost predicate ShowsAt(node: Option<Node>, vs: Values, k: string, n: nat)
    decreases n, 0
  {
    match node
    case None => [k] !in vs && Below(vs, k) == imap[]
    case Some(Leaf(text)) => [k] in vs && vs[[k]] == text
    case Some(Dir(children)) => [k] !in vs && Below(vs, k) != imap[] && n > 0 && Shows(children, Below(vs, k), n - 1)
  }

  /** The map has exactly these leaves, and nothing that leads to none; it is at most `n` maps deep below. */
  ghost predicate Shows(m: Map, vs: Values, n: nat)
    decreases n, 1
  {
    forall k {:trigger At(m, k)} :: ShowsAt(At(m, k), vs, k, n)
  }

  /** The leaves of the map are the given paths, with their values. */
  lemma {:induction false} ShowsLookup(m: Map, vs: Values, n: nat, path: Path)
    requires Shows(m, vs, n) && NoPrefix(vs) && [] !in vs
    ensures Lookup(m, path) == Get(vs, path)
    decreases n
  {
    if path != [] {
      var k := path[0];
      assert ShowsAt(At(m, k), vs, k, n);
      if |path| == 1 {
        assert path == [k];
      } else {
        BelowGet(vs, path);
        HeadIsPrefix(path);
        if k in m && m[k].Dir? {
          BelowNoPrefix(vs, k);
          ShowsLookup(m[k].children, Below(vs, k), n - 1, path[1..]);
        }
      }
    }
  }

  /** There is only one such map. */
  lemma {:induction false} ShowsUnique(a: Map, b: Map, vs: Values, n: nat)
    requires Shows(a, vs, n) && Shows(b, vs, n)
    ensures a == b
    decreases n
  {
    forall k ensures At(a, k) == At(b, k) {
      assert ShowsAt(At(a, k), vs, k, n) && ShowsAt(At(b, k), vs, k, n);
      if k in a && k in b && a[k].Dir? && b[k].Dir? {
        ShowsUnique(a[k].children, b[k].children, Below(vs, k), n - 1);
      }
    }
    SameMap(a, b);
  }

  lemma SameMap(a: Map, b: Map)
    requires forall k :: At(a, k) == At(b, k)
    ensures a == b
  {
    forall k ensures k in a <==> k in b ensures k in a ==> a[k] == b[k] {
      assert At(a, k) == At(b, k);
    }
  }

  ghost function Get(vs: Values, path: Path): Option<string> {
    if path in vs then Some(vs[path]) else None
  }

  lemma BelowGet(vs: Values, path: Path)
    requires |path| > 1
    ensures Get(Below(vs, path[0]), path[1..]) == Get(vs, path)
  {
    assert path == [path[0]] + path[1..];
  }

  lemma PrefixBelow(k: string, p: Path, q: Path)
    ensures Leads(p, q) <==> Leads([k] + p, [k] + q)
  {
    assert ([k] + p)[1..] == p && ([k] + q)[1..] == q;
  }

  lemma BelowNoPrefix(vs: Values, k: string)
    requires NoPrefix(vs)
    ensures NoPrefix(Below(vs, k))
  {
    forall p, q | p in Below(vs, k) && q in Below(vs, k) ensures !Leads(p, q) {
      PrefixBelow(k, p, q);
    }
  }

  // ---------- inserting ----------

  lemma BelowUpdateAt(vs: Values, path: Path, value: string, k: string, q: Path)
    requires path != []
    ensures var onPath := |path| > 1 && k == path[0] && q == path[1..];
            Get(Below(vs[path := value], k), q) == if onPath then Some(value) else Get(Below(vs, k), q)
  {
    var ws := vs[path := value];
    assert path == [path[0]] + path[1..];
    assert ([k] + q)[0] == k && ([k] + q)[1..] == q;
    assert [k] + q == path <==> k == path[0] && q == path[1..];
  }

  lemma SameGet(vs: Values, ws: Values)
    requires forall q :: Get(vs, q) == Get(ws, q)
    ensures vs == ws
  {
    forall q ensures q in vs <==> q in ws ensures q in vs ==> vs[q] == ws[q] {
      assert Get(vs, q) == Get(ws, q);
    }
  }

  lemma BelowUpdate(vs: Values, path: Path, value: string, k: string)
    requires path != []
    ensures |path| > 1 && k == path[0] ==> Below(vs[path := value], k) == Below(vs, k)[path[1..] := value]
    ensures |path| == 1 || k != path[0] ==> Below(vs[path := value], k) == Below(vs, k)
  {
    var updated := if |path| > 1 && k == path[0] then Below(vs, k)[path[1..] := value] else Below(vs, k);
    forall q ensures Get(Below(vs[path := value], k), q) == Get(updated, q) {
      BelowUpdateAt(vs, path, value, k, q);
    }
    SameGet(Below(vs[path := value], k), updated);
  }

  /** Children other than the one the path leads to stay as they are. */
  lemma OtherChild(node: Option<Node>, vs: Values, path: Path, value: string, n: nat, k: string)
    requires path != [] && k != path[0] && ShowsAt(node, vs, k, n)
    ensures ShowsAt(node, vs[path := value], k, n)
  {
    BelowUpdate(vs, path, value, k);
    assert [k] != path;
  }

  lemma HeadIsPrefix(path: Path)
    requires |path| > 1
    ensures Leads([path[0]], path)
  {
  }

  lemma OnTheWay(vs: Values, path: Path, value: string)
    requires NoPrefix(vs[path := value]) && |path| > 1
    ensures [path[0]] !in vs
  {
    HeadIsPrefix(path);
    var ws, head := vs[path := value], [path[0]];
    assert path in ws && (head in vs ==> head in ws);
  }

  /** Inserting into a map with some leaves gives a map with the updated ones. */
  lemma {:induction false} InsertShows(m: Map, vs: Values, path: Path, value: string, n: nat, ws: Values)
    requires path != [] && |path| <= n + 1 && ws == vs[path := value]
    ensures InsertKeeps(m, vs, path, value, n, ws)
    decreases |path|
  {
    if |path| == 1 {
      InsertLeaf(m, vs, path, value, n, ws);
    } else {
      var k, rest := path[0], path[1..];
      var below, below' := Below(vs, k), Below(ws, k);
      assert below' == below[rest := value] by { BelowUpdate(vs, path, value, k); }
      InsertShows(MapAt(m, k), below, rest, value, n - 1, below');
      InsertStep(m, vs, path, value, n, ws);
    }
  }

  ghost predicate InsertKeeps(m: Map, vs: Values, path: Path, value: string, n: nat, ws: Values)
    requires path != []
  {
    Shows(m, vs, n) && NoPrefix(ws) ==> Inserted(m, path, value, ws, n)
  }

  ghost predicate Inserted(m: Map, path: Path, value: string, ws: Values, n: nat)
    requires path != []
  {
    Insert(m, path, value).Some? && Shows(Insert(m, path, value).value, ws, n)
  }

  lemma InsertLeaf(m: Map, vs: Values, path: Path, value: string, n: nat, ws: Values)
    requires |path| == 1 && ws == vs[path := value]
    ensures InsertKeeps(m, vs, path, value, n, ws)
  {
    if Shows(m, vs, n) {
      assert path == [path[0]];
      ReplaceChild(m, vs, path, value, n, Leaf(value), ws);
    }
  }

  lemma InsertStep(m: Map, vs: Values, path: Path, value: string, n: nat, ws: Values)
    requires 1 < |path| <= n + 1 && ws == vs[path := value]
    ensures InsertKeeps(MapAt(m, path[0]), Below(vs, path[0]), path[1..], value, n - 1, Below(ws, path[0]))
        ==> InsertKeeps(m, vs, path, value, n, ws)
  {
    if Shows(m, vs, n) && NoPrefix(ws)
       && InsertKeeps(MapAt(m, path[0]), Below(vs, path[0]), path[1..], value, n - 1, Below(ws, path[0])) {
      var k := path[0];
      OnTheWay(vs, path, value);
      SubMap(m, vs, k, n);
      BelowNoPrefix(ws, k);
      var sub := Insert(MapAt(m, k), path[1..], value).value;
      assert [k] != path;
      ShowsDir(sub, path, n, ws);
      ReplaceChild(m, vs, path, value, n, Dir(sub), ws);
      InsertBelow(m, path, value, sub);
    }
  }

  lemma ShowsDir(sub: Map, path: Path, n: nat, ws: Values)
    requires |path| > 1 && n > 0 && path in ws && [path[0]] !in ws
    ensures Shows(sub, Below(ws, path[0]), n - 1) ==> ShowsAt(Some(Dir(sub)), ws, path[0], n)
  {
    assert path == [path[0]] + path[1..];
    assert path[1..] in Below(ws, path[0]);
  }

  function MapAt(m: Map, k: string): Map {
    if k in m && m[k].Dir? then m[k].children else map[]
  }

  /** On a longer path, insertion goes on below its first part. */
  lemma InsertBelow(m: Map, path: Path, value: string, sub: Map)
    requires |path| > 1 && (path[0] in m ==> m[path[0]].Dir?)
    requires Insert(MapAt(m, path[0]), path[1..], value) == Some(sub)
    ensures Insert(m, path, value) == Some(m[path[0] := Dir(sub)])
  {
  }

  lemma SubMap(m: Map, vs: Values, k: string, n: nat)
    requires Shows(m, vs, n) && [k] !in vs && n > 0
    ensures k in m ==> m[k].Dir?
    ensures Shows(MapAt(m, k), Below(vs, k), n - 1)
  {
    assert ShowsAt(At(m, k), vs, k, n);
    if k !in m { NoneShown(n - 1); }
  }

  lemma NoneShown(n: nat)
    ensures Shows(map[], imap[], n)
  {
    forall k ensures ShowsAt(At(map[], k), imap[], k, n) {}
  }

  lemma ReplaceChild(m: Map, vs: Values, path: Path, value: string, n: nat, child: Node, ws: Values)
    requires path != [] && Shows(m, vs, n) && ws == vs[path := value] && ShowsAt(Some(child), ws, path[0], n)
    ensures Shows(m[path[0] := child], ws, n)
  {
    var m' := m[path[0] := child];
    forall k ensures ShowsAt(At(m', k), ws, k, n) {
      if k != path[0] {
        assert At(m', k) == At(m, k);
        OtherChild(At(m, k), vs, path, value, n, k);
      }
    }
  }

  // ---------- all arguments ----------

  /** The values the entries leave, the last one for a path winning. */
  ghost function Collect(vs: Values, es: seq<Entry>): Values
    decreases |es|
  {
    if es == [] then vs else Collect(vs[es[0].path := es[0].value], es[1..])
  }

  lemma {:induction false} CollectKeys(vs: Values, es: seq<Entry>, p: Path)
    ensures p in Collect(vs, es) <==> p in vs || exists i | 0 <= i < |es| :: es[i].path == p
    decreases |es|
  {
    if es != [] {
      CollectKeys(vs[es[0].path := es[0].value], es[1..], p);
      if p !in vs && (exists i | 0 <= i < |es| :: es[i].path == p) {
        var i :| 0 <= i < |es| && es[i].path == p;
        if i > 0 { assert es[1..][i - 1].path == p; }
      }
      if exists i | 0 <= i < |es[1..]| :: es[1..][i].path == p {
        var i :| 0 <= i < |es[1..]| && es[1..][i].path == p;
        assert es[i + 1].path == p;
      }
    }
  }

  lemma {:induction false} InsertAllShows(m: Map, vs: Values, es: seq<Entry>, n: nat)
    requires AllPaths(es) && Shows(m, vs, n) && Bounded(Collect(vs, es), n) && NoPrefix(Collect(vs, es))
    ensures InsertAll(m, es).Some? && Shows(InsertAll(m, es).value, Collect(vs, es), n)
    decreases |es|
  {
    if es != [] {
      var e := es[0];
      var ws := vs[e.path := e.value];
      forall p | p in ws ensures p in Collect(vs, es) { CollectKeys(ws, es[1..], p); }
      assert e.path in ws;
      InsertShows(m, vs, e.path, e.value, n, ws);
      InsertAllShows(Insert(m, e.path, e.value).value, ws, es[1..], n);
    }
  }

  predicate NoEntryPrefix(es: seq<Entry>) {
    forall i, j | 0 <= i < |es| && 0 <= j < |es| :: !(es[i].path < es[j].path)
  }

  function Longest(es: seq<Entry>): (n: nat)
    ensures forall i | 0 <= i < |es| :: |es[i].path| <= n
  {
    if es == [] then 0
    else var n := Longest(es[1..]); if |es[0].path| > n then |es[0].path| else n
  }

  lemma CollectIsFine(es: seq<Entry>)
    requires AllPaths(es)
    ensures Bounded(Collect(imap[], es), Longest(es))
    ensures NoEntryPrefix(es) ==> NoPrefix(Collect(imap[], es))
  {
    var vs := Collect(imap[], es);
    forall p | p in vs ensures exists i | 0 <= i < |es| :: es[i].path == p { CollectKeys(imap[], es, p); }
  }

  /** Without a path that leads through another, there is no conflict, and the leaves of the result
      are the given paths with their values. */
  lemma NoConflict(es: seq<Entry>)
    requires AllPaths(es) && NoEntryPrefix(es)
    ensures InsertAll(map[], es).Some?
    ensures forall path :: Lookup(InsertAll(map[], es).value, path) == Get(Collect(imap[], es), path)
  {
    var vs, n := Collect(imap[], es), Longest(es);
    CollectIsFine(es);
    NoneShown(n);
    InsertAllShows(map[], imap[], es, n);
    var m := InsertAll(map[], es).value;
    forall path ensures Lookup(m, path) == Get(vs, path) {
      ShowsLookup(m, vs, n, path);
    }
  }

  // ---------- order ----------

  predicate DistinctPaths(es: seq<Entry>) {
    forall i, j | 0 <= i < j < |es| :: es[i].path != es[j].path
  }

  lemma FirstIsDistinct(es: seq<Entry>)
    requires DistinctPaths(es) && es != []
    ensures DistinctPaths(es[1..]) && forall e | e in es[1..] :: e.path != es[0].path
  {
    forall i | 0 <= i < |es[1..]| ensures es[1..][i].path != es[0].path {
      assert es[1..][i] == es[i + 1];
    }
  }

  lemma {:induction false} CollectDistinct(vs: Values, es: seq<Entry>, p: Path, v: string)
    requires DistinctPaths(es)
    ensures p in Collect(vs, es) && Collect(vs, es)[p] == v
       <==> Entry(p, v) in es || (p in vs && vs[p] == v && forall i | 0 <= i < |es| :: es[i].path != p)
    decreases |es|
  {
    if es != [] {
      var e, rest := es[0], es[1..];
      assert es == [e] + rest;
      CollectDistinct(vs[e.path := e.value], rest, p, v);
      assert (forall i | 0 <= i < |es| :: es[i].path != p)
        <==> e.path != p && forall i | 0 <= i < |rest| :: rest[i].path != p;
      assert Entry(p, v) in es <==> e == Entry(p, v) || Entry(p, v) in rest;
      FirstIsDistinct(es);
    }
  }

  /** The same entries in another order. */
  predicate Reordered(a: seq<Entry>, b: seq<Entry>) {
    multiset(a) == multiset(b)
  }

  lemma SameElements(a: seq<Entry>, b: seq<Entry>, e: Entry)
    requires Reordered(a, b)
    ensures e in a <==> e in b
  {
    assert e in a <==> e in multiset(a);
    assert e in b <==> e in multiset(b);
  }

  lemma ReorderedNoPrefix(a: seq<Entry>, b: seq<Entry>)
    requires Reordered(a, b) && AllPaths(a) && NoEntryPrefix(a)
    ensures AllPaths(b) && NoEntryPrefix(b)
  {
    forall i | 0 <= i < |b| ensures b[i] in a { SameElements(a, b, b[i]); }
  }

  /** With distinct paths none of which leads through another, the order does not matter. */
  lemma OrderIrrelevant(a: seq<Entry>, b: seq<Entry>)
    requires Reordered(a, b) && AllPaths(a) && NoEntryPrefix(a) && DistinctPaths(a) && DistinctPaths(b)
    ensures AllPaths(b) && InsertAll(map[], a) == InsertAll(map[], b)
  {
    ReorderedNoPrefix(a, b);
    var vs, ws := Collect(imap[], a), Collect(imap[], b);
    forall p, v ensures Maps(vs, p, v) <==> Maps(ws, p, v) {
      CollectDistinct(imap[], a, p, v);
      CollectDistinct(imap[], b, p, v);
      SameElements(a, b, Entry(p, v));
    }
    SameValues(vs, ws);
    var n := Longest(a);
    CollectIsFine(a);
    CollectIsFine(b);
    NoneShown(n);
    InsertAllShows(map[], imap[], a, n);
    InsertAllShows(map[], imap[], b, n);
    ShowsUnique(InsertAll(map[], a).value, InsertAll(map[], b).value, vs, n);
  }

  ghost predicate Maps(vs: Values, p: Path, v: string) {
    p in vs && vs[p] == v
  }

  lemma SameValues(vs: Values, ws: Values)
    requires forall p, v :: Maps(vs, p, v) <==> Maps(ws, p, v)
    ensures vs == ws
  {
    forall p ensures p in vs <==> p in ws ensures p in vs ==> ws[p] == vs[p] {
      if p in vs { assert Maps(vs, p, vs[p]); }
      if p in ws { assert Maps(ws, p, ws[p]); }
    }
  }

  // ---------- conflicts ----------

  lemma {:induction false} ThroughLeaf(m: Map, path: Path, more: Path, v: string, u: string)
    requires path != [] && path < more && Insert(m, path, v).Some?
    ensures Insert(Insert(m, path, v).value, more, u).None?
    decreases |path|
  {
    if |path| > 1 {
      var sub: Map := if path[0] in m then m[path[0]].children else map[];
      assert path[1..] < more[1..];
      ThroughLeaf(sub, path[1..], more[1..], v, u);
    }
  }

  /** Every order of the entries is free of conflicts exactly when no path leads through another. */
  lemma AnyOrderIff(es: seq<Entry>)
    requires AllPaths(es)
    ensures (forall other | Reordered(es, other) && AllPaths(other) :: InsertAll(map[], other).Some?)
       <==> NoEntryPrefix(es)
  {
    if NoEntryPrefix(es) {
      forall other | Reordered(es, other) && AllPaths(other) ensures InsertAll(map[], other).Some? {
        ReorderedNoPrefix(es, other);
        NoConflict(other);
      }
    } else {
      var i, j :| 0 <= i < |es| && 0 <= j < |es| && es[i].path < es[j].path;
      var other := BringForward(es, i, j);
      var m := Insert(map[], es[i].path, es[i].value);
      assert other[1..][0] == es[j];
      if m.Some? { ThroughLeaf(map[], es[i].path, es[j].path, es[i].value, es[j].value); }
    }
  }

  function Without(es: seq<Entry>, i: nat): seq<Entry>
    requires i < |es|
  {
    es[..i] + es[i + 1..]
  }

  lemma MoveFirst(es: seq<Entry>, i: nat)
    requires i < |es|
    ensures multiset([es[i]] + Without(es, i)) == multiset(es)
  {
    assert es == es[..i] + ([es[i]] + es[i + 1..]);
  }

  lemma BringForward(es: seq<Entry>, i: nat, j: nat) returns (other: seq<Entry>)
    requires i < |es| && j < |es| && i != j && AllPaths(es)
    ensures Reordered(es, other) && AllPaths(other) && |other| >= 2 && other[0] == es[i] && other[1] == es[j]
  {
    MoveFirst(es, i);
    var rest, k := Without(es, i), if j < i then j else j - 1;
    assert rest[k] == es[j];
    MoveFirst(rest, k);
    other := [es[i]] + ([rest[k]] + Without(rest, k));
    assert multiset(other) == multiset([es[i]]) + multiset(rest);
    forall x | 0 <= x < |other| ensures other[x].path != [] {
      SameElements(es, other, other[x]);
    }
  }

  // ---------- told from the arguments ----------

  /** The last argument whose key is `agg` and then this path. */
  predicate LastFor(args: seq<Argument>, i: nat, path: Path) {
    i < |args| && args[i].parts == ["agg"] + path && forall j | i < j < |args| :: args[j].parts != ["agg"] + path
  }

  predicate NoneFor(args: seq<Argument>, path: Path) {
    forall i | 0 <= i < |args| :: args[i].parts != ["agg"] + path
  }

  lemma EntryFor(a: Argument, path: Path)
    requires path != []
    ensures a.parts == ["agg"] + path <==> Relevant(a) && a.parts[1..] == path
  {
    if Relevant(a) { assert a.parts == ["agg"] + a.parts[1..]; }
  }

  lemma {:induction false} CollectedFor(vs: Values, args: seq<Argument>, path: Path)
    requires path != []
    ensures NoneFor(args, path) ==> Get(Collect(vs, Entries(args)), path) == Get(vs, path)
    ensures forall i: nat | LastFor(args, i, path) :: Get(Collect(vs, Entries(args)), path) == Some(args[i].value)
    decreases |args|
  {
    if args != [] {
      var a, rest := args[0], args[1..];
      EntryFor(a, path);
      var ws := if Relevant(a) then vs[a.parts[1..] := a.value] else vs;
      assert Collect(vs, Entries(args)) == Collect(ws, Entries(rest)) by {
        EntriesStep(args, 0);
        assert args[0..] == args;
      }
      CollectedFor(ws, rest, path);
      if NoneFor(args, path) {
        assert args[0].parts != ["agg"] + path;
        assert NoneFor(rest, path);
      }
      forall i: nat | LastFor(args, i, path) ensures Get(Collect(ws, Entries(rest)), path) == Some(args[i].value) {
        if i == 0 {
          assert NoneFor(rest, path);
        } else {
          assert LastFor(rest, i - 1, path);
        }
      }
    }
  }

  /** No key that starts with `agg` leads through another. */
  predicate KeysApart(args: seq<Argument>) {
    forall i, j | 0 <= i < |args| && 0 <= j < |args| && |args[i].parts| > 1 && args[i].parts[0] == "agg" ::
      !(args[i].parts < args[j].parts)
  }

  lemma {:induction false} EntryFromArgument(args: seq<Argument>, k: nat) returns (i: nat)
    requires k < |Entries(args)|
    ensures i < |args| && args[i].parts == ["agg"] + Entries(args)[k].path && Entries(args)[k].path != []
    decreases |args|
  {
    var a, rest := args[0], args[1..];
    if Relevant(a) {
      if k == 0 {
        EntryFor(a, a.parts[1..]);
        i := 0;
      } else {
        i := EntryFromArgument(rest, k - 1);
        i := i + 1;
      }
    } else {
      assert Entries(args) == Entries(rest);
      i := EntryFromArgument(rest, k);
      i := i + 1;
    }
  }

  lemma ApartHasNoPrefix(args: seq<Argument>)
    requires KeysApart(args)
    ensures NoEntryPrefix(Entries(args))
  {
    var es := Entries(args);
    forall k, m | 0 <= k < |es| && 0 <= m < |es| ensures !(es[k].path < es[m].path) {
      var i := EntryFromArgument(args, k);
      var j := EntryFromArgument(args, m);
      assert es[k].path < es[m].path <==> args[i].parts < args[j].parts;
    }
  }

  /** When no key leads through another: under each path is the value of the last argument whose key is
      `agg` and then that path, and nothing when there is no such argument. */
  lemma LeavesOfArguments(args: seq<Argument>, path: Path)
    requires KeysApart(args)
    ensures InsertAll(map[], Entries(args)).Some?
    ensures var m := InsertAll(map[], Entries(args)).value;
            && (path == [] || NoneFor(args, path) ==> Lookup(m, path) == None)
            && (forall i: nat | path != [] && LastFor(args, i, path) :: Lookup(m, path) == Some(args[i].value))
  {
    ApartHasNoPrefix(args);
    NoConflict(Entries(args));
    if path != [] { CollectedFor(imap[], args, path); }
  }
}
