/** Aggregation arguments as the parser collects them: nested maps, created and changed in place. */
module MapNodes {
  import opened Options
  import opened NestedMap

  datatype Slot = Text(text: string) | Sub(node: MapNode)
  type Slots = map<string, Slot>

  /** A map object, with the set of map objects from it on. */
  class MapNode {
    var entries: Slots
    ghost var repr: set<MapNode>

    constructor ()
      ensures entries == map[] && repr == {this}
    {
      entries := map[];
      repr := {this};
    }
  }

  ghost function Root(s: Slot): set<MapNode> {
    if s.Sub? then {s.node} else {}
  }

  ghost function Foot(s: Slot): set<MapNode>
    reads Root(s)
  {
    if s.Sub? then {s.node} + s.node.repr else {}
  }

  ghost function Roots(es: Slots): set<MapNode> {
    set k, x | k in es && x in Root(es[k]) :: x
  }

  ghost function Region(es: Slots): set<MapNode>
    reads Roots(es)
  {
    set k, x | k in es && x in Foot(es[k]) :: x
  }

  /** `node` is the root of a tree of map objects that stands for the map `m`. */
  ghost predicate Rep(node: MapNode, m: Map)
    reads node, node.repr
    decreases node.repr, 0
  {
    node in node.repr && Roots(node.entries) <= node.repr && Region(node.entries) <= node.repr - {node}
    && Shown(node.entries, m)
  }

  /** The slots hold texts and separate trees that stand for the entries of `m`. */
  ghost predicate Shown(es: Slots, m: Map)
    reads Roots(es), Region(es)
    decreases Region(es), 2
  {
    && es.Keys == m.Keys
    && (forall k | k in es :: Foot(es[k]) <= Region(es) && SlotShown(es[k], m[k]))
    && (forall k, l | k in es && l in es && k != l :: Foot(es[k]) !! Foot(es[l]))
  }

  ghost predicate SlotShown(s: Slot, n: Node)
    reads Root(s), Foot(s)
    decreases Foot(s), 1
  {
    match s
    case Text(text) => n == Leaf(text)
    case Sub(child) => n.Dir? && child in child.repr && Rep(child, n.children)
  }

  // ---------- slots ----------

  lemma ShownUpdate(es: Slots, m: Map, part: string, s: Slot, n: Node)
    requires Shown(es, m) && part !in es && SlotShown(s, n) && Foot(s) !! Region(es)
    ensures Shown(es[part := s], m[part := n]) && Region(es[part := s]) == Region(es) + Foot(s)
  {
    RegionUpdate(es, part, s);
    var es', m' := es[part := s], m[part := n];
    forall k | k in es' ensures Foot(es'[k]) <= Region(es') && SlotShown(es'[k], m'[k]) {}
    forall k, l | k in es' && l in es' && k != l ensures Foot(es'[k]) !! Foot(es'[l]) {
      if k != part { assert Foot(es[k]) <= Region(es); }
      if l != part { assert Foot(es[l]) <= Region(es); }
    }
  }

  lemma RegionUpdate(es: Slots, part: string, s: Slot)
    requires part !in es
    ensures Region(es[part := s]) == Region(es) + Foot(s)
    ensures Roots(es[part := s]) == Roots(es) + Root(s)
  {
    var es' := es[part := s];
    assert es'[part] == s;
    forall x | x in Region(es) ensures x in Region(es') {
      var k :| k in es && x in Foot(es[k]);
      assert es'[k] == es[k];
    }
    forall x | x in Roots(es) ensures x in Roots(es') {
      var k :| k in es && x in Root(es[k]);
      assert es'[k] == es[k];
    }
  }

  lemma ShownRemove(es: Slots, m: Map, part: string)
    requires Shown(es, m)
    ensures Shown(es - {part}, m - {part}) && Region(es - {part}) <= Region(es) && Roots(es - {part}) <= Roots(es)
    ensures part in es ==> Foot(es[part]) !! Region(es - {part}) && SlotShown(es[part], m[part])
  {
    var rest := es - {part};
    forall k | k in rest ensures Foot(rest[k]) <= Region(rest) && SlotShown(rest[k], (m - {part})[k]) {
      assert rest[k] == es[k];
    }
  }

  lemma RootsInRegion(es: Slots)
    ensures Roots(es) <= Region(es)
  {
    forall x | x in Roots(es) ensures x in Region(es) {
      var k :| k in es && x in Root(es[k]);
      assert x in Foot(es[k]);
    }
  }

  // ---------- inserting ----------

  /** Put a text or a separate tree into a node. */
  method SetSlot(node: MapNode, part: string, s: Slot, ghost m: Map, ghost n: Node)
    requires Rep(node, m) && SlotShown(s, n) && Foot(s) !! node.repr
    modifies node
    ensures Rep(node, m[part := n])
    ensures node.repr == old(node.repr) + Foot(s) && node.entries == old(node.entries)[part := s]
    ensures SlotShown(s, n) == old(SlotShown(s, n)) && Foot(s) == old(Foot(s))
  {
    ghost var rest := node.entries - {part};
    ShownRemove(node.entries, m, part);
    RootsInRegion(rest);
    node.entries := node.entries[part := s];
    Attach(node, rest, m, part, s, n);
  }

  /** Claim what hangs from a slot for the node. */
  method Attach(node: MapNode, ghost rest: Slots, ghost m: Map, part: string, s: Slot, ghost n: Node)
    requires Shown(rest, m - {part}) && part !in rest && SlotShown(s, n) && Foot(s) !! Region(rest)
    requires node.entries == rest[part := s] && node in node.repr && node !in Region(rest) && node !in Foot(s)
    requires Region(rest) <= node.repr
    modifies node`repr
    ensures Rep(node, m[part := n]) && node.repr == old(node.repr) + Foot(s) && Foot(s) == old(Foot(s))
    ensures SlotShown(s, n) == old(SlotShown(s, n))
  {
    RootsInRegion(rest);
    node.repr := node.repr + Foot(s);
    assert Shown(rest, m - {part}) == old(Shown(rest, m - {part}));
    assert SlotShown(s, n) == old(SlotShown(s, n));
    Reassemble(node, rest, m, part, s, n);
  }

  lemma Reassemble(node: MapNode, rest: Slots, m: Map, part: string, s: Slot, n: Node)
    requires Shown(rest, m - {part}) && part !in rest && SlotShown(s, n) && Foot(s) !! Region(rest)
    requires node.entries == rest[part := s] && node in node.repr && Region(rest) + Foot(s) <= node.repr - {node}
    ensures Rep(node, m[part := n])
  {
    ShownUpdate(rest, m - {part}, part, s, n);
    RootsInRegion(node.entries);
    assert (m - {part})[part := n] == m[part := n];
  }

  /** Follow the path down, creating what is missing; false when it leads through a text. One call
      for each turn of the original's loop over the parts. */
  method Place(node: MapNode, parts: Path, value: string, ghost m: Map) returns (ok: bool)
    requires Rep(node, m) && parts != []
    modifies node.repr
    ensures ok <==> Insert(m, parts, value).Some?
    ensures ok ==> Rep(node, Insert(m, parts, value).value)
    ensures fresh(node.repr - old(node.repr))
    decreases |parts|, 1
  {
    var part := parts[0];
    if |parts| == 1 {
      SetSlot(node, part, Text(value), m, Leaf(value));
      return true;
    }
    ghost var m' := m;
    if part !in node.entries {
      AddMap(node, part, m);
      m' := m[part := Dir(map[])];
    }
    SlotOf(node, part, m');
    if node.entries[part].Text? {
      return false;
    }
    ok := PlaceBelow(node, part, parts[1..], value, m', m'[part].children);
    InsertThrough(m, m', parts, value);
  }

  method AddMap(node: MapNode, part: string, ghost m: Map)
    requires Rep(node, m)
    modifies node
    ensures Rep(node, m[part := Dir(map[])]) && fresh(node.repr - old(node.repr))
  {
    var child := new MapNode();
    assert Rep(child, map[]);
    SetSlot(node, part, Sub(child), m, Dir(map[]));
  }

  lemma SlotOf(node: MapNode, part: string, m: Map)
    requires Rep(node, m) && part in m
    ensures part in node.entries && (node.entries[part].Text? <==> m[part].Leaf?)
  {
    ShownRemove(node.entries, m, part);
  }

  /** An empty map on the way makes no difference. */
  lemma InsertThrough(m: Map, m': Map, parts: Path, value: string)
    requires |parts| > 1 && m' == (if parts[0] in m then m else m[parts[0] := Dir(map[])]) && m'[parts[0]].Dir?
    ensures Insert(m, parts, value).Some? <==> Insert(m'[parts[0]].children, parts[1..], value).Some?
    ensures Insert(m, parts, value).Some? ==>
              Insert(m, parts,
                     value).value == m'[parts[0] := Dir(Insert(m'[parts[0]].children, parts[1..], value).value)]
  {
  }

  method PlaceBelow(node: MapNode, part: string, parts: Path, value: string, ghost m: Map,
                    ghost sub: Map) returns (ok: bool)
    requires Rep(node, m) && part in m && m[part] == Dir(sub) && parts != []
    modifies node.repr
    ensures ok <==> Insert(sub, parts, value).Some?
    ensures ok ==> Rep(node, m[part := Dir(Insert(sub, parts, value).value)])
    ensures fresh(node.repr - old(node.repr))
    decreases |parts|, 3
  {
    SlotOf(node, part, m);
    var next := node.entries[part].node;
    ghost var rest := node.entries - {part};
    ShownRemove(node.entries, m, part);
    ok := PlaceApart(next, parts, value, sub, rest, m - {part});
    if ok {
      Attach(node, rest, m, part, Sub(next), Dir(Insert(sub, parts, value).value));
    }
  }

  /** Inserting into one tree leaves separate ones as they were. */
  method PlaceApart(next: MapNode, parts: Path, value: string, ghost sub: Map, ghost rest: Slots,
                    ghost m: Map) returns (ok: bool)
    requires Rep(next, sub) && parts != [] && Shown(rest, m) && Region(rest) !! next.repr
    modifies next.repr
    ensures ok <==> Insert(sub, parts, value).Some?
    ensures ok ==> Rep(next, Insert(sub, parts, value).value)
    ensures fresh(next.repr - old(next.repr))
    ensures Shown(rest, m) == old(Shown(rest, m)) && Region(rest) == old(Region(rest))
    decreases |parts|, 2
  {
    RootsInRegion(rest);
    ok := Place(next, parts, value, sub);
  }

  // ---------- all arguments ----------

  /** `args` is the order in which the arguments happen to be visited. */
  method ParseToNestedMap(args: seq<Argument>) returns (result: Option<MapNode>)
    ensures result.Some? <==> InsertAll(map[], Entries(args)).Some?
    ensures result.Some? ==> Rep(result.value, InsertAll(map[], Entries(args)).value)
  {
    var root := new MapNode();
    ghost var m: Map := map[];
    for i := 0 to |args|
      invariant Rep(root, m) && fresh(root.repr)
      invariant InsertAll(m, Entries(args[i..])) == InsertAll(map[], Entries(args))
    {
      EntriesStep(args, i);
      var parts := args[i].parts;
      if |parts| == 0 || parts[0] != "agg" || |parts| == 1 {
        continue;
      }
      var ok := Place(root, parts[1..], args[i].value, m);
      if !ok {
        return None;
      }
      m := Insert(m, parts[1..], args[i].value).value;
    }
    return Some(root);
  }
}
