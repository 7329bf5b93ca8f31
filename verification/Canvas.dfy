/** The cards of a canvas and the groups that hold them (internal/canvas/canvas.go). */
module Canvas {
  import opened Text

  datatype Kind = TextCard | FileCard | LinkCard | GroupCard | OtherCard

  datatype Node = Node(id: string, kind: Kind, x: real, y: real, width: real, height: real)

  datatype Edge = Edge(fromNode: string, toNode: string)

  // ----- Parse -----

  predicate HasId(nodes: seq<Node>, id: string) { exists i :: 0 <= i < |nodes| && nodes[i].id == id }

  /** The cards kept of those of a file: the first of each id, and none without. */
  function Kept(nodes: seq<Node>): seq<Node> {
    if nodes == [] then []
    else
      var n := nodes[|nodes| - 1];
      var before := nodes[..|nodes| - 1];
      Kept(before) + (if n.id == "" || HasId(before, n.id) then [] else [n])
  }

  predicate Distinct(nodes: seq<Node>) { forall i, j :: 0 <= i < j < |nodes| ==> nodes[i].id != nodes[j].id }

  /** n is there, and no card before it has its id. */
  predicate IsFirst(nodes: seq<Node>, n: Node) {
    exists i :: 0 <= i < |nodes| && nodes[i] == n && forall j :: 0 <= j < i ==> nodes[j].id != n.id
  }

  lemma {:induction false} KeptIs(nodes: seq<Node>)
    ensures Distinct(Kept(nodes)) && forall n :: n in Kept(nodes) ==> n in nodes && n.id != ""
    ensures forall id :: id != "" ==> (HasId(Kept(nodes), id) <==> HasId(nodes, id))
    ensures forall n :: n in Kept(nodes) ==> IsFirst(nodes, n)
  {
    if nodes != [] {
      var k := |nodes| - 1;
      var before, n := nodes[..k], nodes[k];
      KeptIs(before);
      assert nodes == before + [n];
      HasSnoc(before, n);
      HasSnoc(Kept(before), n);
      forall m | m in Kept(before) ensures IsFirst(nodes, m) {
        var i :| 0 <= i < |before| && before[i] == m && forall j :: 0 <= j < i ==> before[j].id != m.id;
        assert nodes[i] == m && forall j :: 0 <= j < i ==> nodes[j].id != m.id;
      }
      if n.id != "" && !HasId(before, n.id) {
        assert !HasId(Kept(before), n.id);
        assert nodes[k] == n && forall j :: 0 <= j < k ==> before[j].id != n.id;
      } else {
        assert Kept(nodes) == Kept(before);
      }
    }
  }

  /** The first card with the id, |nodes| when there is none. */
  function FirstAt(nodes: seq<Node>, id: string): (i: nat)
    ensures i <= |nodes| && (i < |nodes| ==> nodes[i].id == id) && forall j :: 0 <= j < i ==> nodes[j].id != id
  {
    if nodes == [] || nodes[0].id == id then 0 else 1 + FirstAt(nodes[1..], id)
  }

  /** The cards kept are in the order of the file. */
  lemma {:induction false} KeptInOrder(nodes: seq<Node>)
    ensures forall i, j :: 0 <= i < j < |Kept(nodes)| ==> FirstAt(nodes, Kept(nodes)[i].id) < FirstAt(nodes, Kept(nodes)[j].id)
  {
    if nodes != [] {
      var k := |nodes| - 1;
      var before, kept := nodes[..k], Kept(nodes[..k]);
      KeptInOrder(before);
      KeptIs(before);
      forall i | 0 <= i < |kept| ensures FirstAt(nodes, kept[i].id) == FirstAt(before, kept[i].id) < k {
        assert HasId(kept, kept[i].id);
        SameFirst(nodes, kept[i].id);
      }
    }
  }

  lemma SameFirst(nodes: seq<Node>, id: string)
    requires nodes != [] && HasId(nodes[..|nodes| - 1], id)
    ensures FirstAt(nodes, id) == FirstAt(nodes[..|nodes| - 1], id) < |nodes| - 1
  {
    var before := nodes[..|nodes| - 1];
    var i, j := FirstAt(nodes, id), FirstAt(before, id);
    assert i < |before| ==> before[i] == nodes[i];
    assert j < |before| ==> before[j] == nodes[j];
  }

  lemma HasSnoc(nodes: seq<Node>, n: Node)
    ensures forall id :: HasId(nodes + [n], id) <==> HasId(nodes, id) || n.id == id
  {
    forall id ensures HasId(nodes + [n], id) <==> HasId(nodes, id) || n.id == id {
      if HasId(nodes, id) {
        var i :| 0 <= i < |nodes| && nodes[i].id == id;
        assert (nodes + [n])[i].id == id;
      }
      assert (nodes + [n])[|nodes|] == n;
    }
  }

  /** The loops of Parse: ids is the set of ids seen. */
  method Parse(nodes: seq<Node>, edges: seq<Edge>) returns (ns: seq<Node>, es: seq<Edge>)
    ensures ns == Kept(nodes)
    ensures es == Filter((e: Edge) => HasId(ns, e.fromNode) && HasId(ns, e.toNode), edges)
  {
    var ids;
    ns, ids := ParseNodes(nodes);
    es := [];
    for i := 0 to |edges|
      invariant es == Filter((e: Edge) => HasId(ns, e.fromNode) && HasId(ns, e.toNode), edges[..i])
    {
      FilterSnoc((e: Edge) => HasId(ns, e.fromNode) && HasId(ns, e.toNode), edges, i);
      if edges[i].fromNode in ids && edges[i].toNode in ids { es := es + [edges[i]]; }
    }
    assert edges[..|edges|] == edges;
  }

  /** Its first loop. */
  method ParseNodes(nodes: seq<Node>) returns (ns: seq<Node>, ids: set<string>)
    ensures ns == Kept(nodes) && forall id :: id in ids <==> HasId(ns, id)
  {
    ids, ns := {}, [];
    for i := 0 to |nodes|
      invariant ns == Kept(nodes[..i])
      invariant forall id :: id in ids <==> HasId(ns, id)
    {
      assert nodes[..i + 1][..i] == nodes[..i];
      KeptIs(nodes[..i]);
      HasSnoc(ns, nodes[i]);
      if nodes[i].id != "" && nodes[i].id !in ids {
        ids := ids + {nodes[i].id};
        ns := ns + [nodes[i]];
      }
    }
    assert nodes[..|nodes|] == nodes;
  }

  // ----- Parents -----

  predicate Contains(g: Node, n: Node) {
    && n.x >= g.x && n.y >= g.y && n.x + n.width <= g.x + g.width && n.y + n.height <= g.y + g.height
    && !(n.kind == GroupCard && n.width == g.width && n.height == g.height && n.x == g.x && n.y == g.y)
  }

  /** The point is of the card, its edges too. */
  predicate Holds(n: Node, x: real, y: real) { n.x <= x <= n.x + n.width && n.y <= y <= n.y + n.height }

  /** A group contains a card exactly when every point of the card is of the group, but for a
      group of its own place and size. */
  lemma ContainsIsPoints(g: Node, n: Node)
    requires n.width >= 0.0 && n.height >= 0.0
    ensures Contains(g, n) <==>
              && (forall x, y :: Holds(n, x, y) ==> Holds(g, x, y))
              && !(n.kind == GroupCard && (n.x, n.y, n.width, n.height) == (g.x, g.y, g.width, g.height))
  {
    assert Holds(n, n.x, n.y) && Holds(n, n.x + n.width, n.y + n.height);
  }

  function Area(n: Node): real { n.width * n.height }

  /** The smallest of gs that contains n, the first of them. */
  function Best(gs: seq<Node>, n: Node): Option<Node> {
    if gs == [] then None
    else
      var g := gs[|gs| - 1];
      var best := Best(gs[..|gs| - 1], n);
      if g.id == n.id || !Contains(g, n) then best
      else if best.None? || Area(g) < Area(best.value) then Some(g)
      else best
  }

  function GroupsOf(nodes: seq<Node>): seq<Node> { Filter((n: Node) => n.kind == GroupCard, nodes) }

  function Parent(nodes: seq<Node>, n: Node): Option<Node> { Best(GroupsOf(nodes), n) }

  /** A card's parent is a group of the canvas that contains it, the smallest; a card
      has none only when no other group contains it. */
  lemma {:induction false} BestIs(gs: seq<Node>, n: Node)
    ensures var b := Best(gs, n);
            && (b.Some? ==> b.value in gs && b.value.id != n.id && Contains(b.value, n))
            && forall g :: g in gs && g.id != n.id && Contains(g, n) ==> b.Some? && Area(b.value) <= Area(g)
  {
    if gs != [] {
      BestIs(gs[..|gs| - 1], n);
      assert gs == gs[..|gs| - 1] + [gs[|gs| - 1]];
    }
  }

  predicate Candidate(g: Node, n: Node) { g.id != n.id && Contains(g, n) }

  /** g is smaller than every group before it that contains n. */
  predicate FirstSmallest(gs: seq<Node>, n: Node, g: Node) {
    exists i :: 0 <= i < |gs| && gs[i] == g && forall j :: 0 <= j < i && Candidate(gs[j], n) ==> Area(g) < Area(gs[j])
  }

  /** No group that contains the card covers less. */
  lemma SmallestByArea(gs: seq<Node>, n: Node, g: Node)
    requires g in gs && g.id != n.id && Contains(g, n)
    ensures Best(gs, n).Some? && Best(gs, n).value.width * Best(gs, n).value.height <= g.width * g.height
  {
    BestIs(gs, n);
  }

  /** Of groups as small as each other it is the first. */
  lemma {:induction false} BestIsFirst(gs: seq<Node>, n: Node)
    ensures Best(gs, n).Some? ==> FirstSmallest(gs, n, Best(gs, n).value)
  {
    if gs != [] {
      var k := |gs| - 1;
      var b, before := Best(gs, n), Best(gs[..k], n);
      BestIsFirst(gs[..k], n);
      BestIs(gs[..k], n);
      if b.Some? && b == before {
        SmallestStays(gs, n, b.value);
      } else if b.Some? {
        forall j | 0 <= j < k && Candidate(gs[j], n) ensures Area(b.value) < Area(gs[j]) { assert gs[j] in gs[..k]; }
      }
    }
  }

  lemma SmallestStays(gs: seq<Node>, n: Node, g: Node)
    requires gs != [] && FirstSmallest(gs[..|gs| - 1], n, g)
    ensures FirstSmallest(gs, n, g)
  {
    var before := gs[..|gs| - 1];
    var i :| 0 <= i < |before| && before[i] == g && forall j :: 0 <= j < i && Candidate(before[j], n) ==> Area(g) < Area(before[j]);
    forall j | 0 <= j < i && Candidate(gs[j], n) ensures Area(g) < Area(gs[j]) { assert before[j] == gs[j]; }
    assert gs[i] == g;
  }

  /** The inner loop of Parents: the number of the smallest group, -1 for none. */
  method Smallest(groups: seq<Node>, n: Node) returns (best: int)
    ensures -1 <= best < |groups|
    ensures Best(groups, n) == if best < 0 then None else Some(groups[best])
  {
    best := -1;
    for i := 0 to |groups|
      invariant -1 <= best < i
      invariant Best(groups[..i], n) == if best < 0 then None else Some(groups[best])
    {
      assert groups[..i + 1][..i] == groups[..i];
      var g := groups[i];
      if g.id != n.id && Contains(g, n) && (best < 0 || Area(g) < Area(groups[best])) {
        best := i;
      }
    }
    assert groups[..|groups|] == groups;
  }

  /** out has the parent of n, and nothing when it has none. */
  predicate ParentIn(nodes: seq<Node>, out: map<string, string>, n: Node) {
    if Parent(nodes, n).Some? then n.id in out && out[n.id] == Parent(nodes, n).value.id else n.id !in out
  }

  /** The loops of Parents. */
  method Parents(nodes: seq<Node>) returns (out: map<string, string>)
    requires Distinct(nodes)
    ensures forall j :: 0 <= j < |nodes| ==> ParentIn(nodes, out, nodes[j])
    ensures forall id :: id in out ==> HasId(nodes, id)
  {
    var groups := [];
    for i := 0 to |nodes|
      invariant groups == GroupsOf(nodes[..i])
    {
      FilterSnoc((n: Node) => n.kind == GroupCard, nodes, i);
      if nodes[i].kind == GroupCard { groups := groups + [nodes[i]]; }
    }
    assert nodes[..|nodes|] == nodes;
    out := map[];
    for k := 0 to |nodes|
      invariant forall j :: 0 <= j < k ==> ParentIn(nodes, out, nodes[j])
      invariant forall j :: k <= j < |nodes| ==> nodes[j].id !in out
      invariant forall id :: id in out ==> HasId(nodes, id)
    {
      var n := nodes[k];
      var best := Smallest(groups, n);
      if best >= 0 {
        ghost var was := out;
        out := out[n.id := groups[best].id];
        forall j | 0 <= j < k ensures ParentIn(nodes, out, nodes[j]) { assert ParentIn(nodes, was, nodes[j]); }
        assert HasId(nodes, n.id);
      }
      assert ParentIn(nodes, out, n);
    }
  }

  /** Containment among groups is a strict partial order, whatever their sizes. */
  lemma ContainsIsStrict(a: Node, b: Node, c: Node)
    requires b.kind == GroupCard && c.kind == GroupCard
    ensures !(Contains(a, a) && a.kind == GroupCard)
    ensures Contains(a, b) && Contains(b, c) ==> Contains(a, c)
    ensures a.kind == GroupCard ==> !(Contains(a, b) && Contains(b, a))
  {
  }

  /** What a group contains, a group that contains it contains too. */
  lemma ContainsThrough(a: Node, b: Node, n: Node)
    requires b.kind == GroupCard && Contains(a, b) && Contains(b, n)
    ensures Contains(a, n)
  {
  }

  // ----- The way up from a card -----

  /** The groups that contain n, among nodes. */
  function Around(nodes: seq<Node>, n: Node): set<Node> {
    set i | 0 <= i < |nodes| && nodes[i].kind == GroupCard && Contains(nodes[i], n) :: nodes[i]
  }

  lemma ParentIs(nodes: seq<Node>, n: Node)
    requires Parent(nodes, n).Some?
    ensures var p := Parent(nodes, n).value;
            p in nodes && p.kind == GroupCard && p.id != n.id && Contains(p, n)
            && |Around(nodes, p)| < |Around(nodes, n)|
  {
    BestIs(GroupsOf(nodes), n);
    var p := Parent(nodes, n).value;
    assert p in Around(nodes, n) && p !in Around(nodes, p);
    forall g | g in Around(nodes, p) ensures g in Around(nodes, n) { ContainsThrough(g, p, n); }
    Smaller(Around(nodes, p), Around(nodes, n), p);
  }

  lemma Smaller(s: set<Node>, t: set<Node>, x: Node)
    requires s <= t && x in t && x !in s
    ensures |s| < |t|
  {
    assert s <= t - {x};
    Sizes(s, t - {x});
  }

  lemma {:induction false} Sizes(s: set<Node>, t: set<Node>)
    requires s <= t
    ensures |s| <= |t|
    decreases |s|
  {
    if s != {} {
      var x :| x in s;
      Sizes(s - {x}, t - {x});
    }
  }

  /** From a card to its group, and on to the top: it ends, so the cards are a forest. */
  function PathUp(nodes: seq<Node>, n: Node): (p: seq<Node>)
    ensures p != [] && p[0] == n
    decreases |Around(nodes, n)|
  {
    var up := Parent(nodes, n);
    if up.None? then [n]
    else
      ParentIs(nodes, n);
      [n] + PathUp(nodes, up.value)
  }

  function Depth(nodes: seq<Node>, n: Node): nat { |PathUp(nodes, n)| - 1 }

  /** Every card on the way up from n is a card of the canvas that holds those before. */
  lemma {:induction false} PathHolds(nodes: seq<Node>, n: Node, a: Node)
    requires a in PathUp(nodes, n) && a != n
    ensures a in nodes && a.kind == GroupCard && Contains(a, n)
    ensures Parent(nodes, n).Some? && a in PathUp(nodes, Parent(nodes, n).value)
    decreases |Around(nodes, n)|
  {
    ParentIs(nodes, n);
    var p := Parent(nodes, n).value;
    if a != p {
      PathHolds(nodes, p, a);
      ContainsThrough(a, p, n);
    }
  }

  /** No card is on its own way up. */
  lemma NoLoop(nodes: seq<Node>, n: Node)
    requires Parent(nodes, n).Some?
    ensures n !in PathUp(nodes, Parent(nodes, n).value)
  {
    ParentIs(nodes, n);
    var p := Parent(nodes, n).value;
    if n in PathUp(nodes, p) && n != p {
      PathHolds(nodes, p, n);
      ContainsIsStrict(n, p, n);
    }
  }
}
