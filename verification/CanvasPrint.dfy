/** The cards of a canvas as a note lists them (internal/canvas/canvas.go, Markdown):
    every card once, under the groups that hold it. */
module CanvasPrint {
  import opened Text
  import opened Canvas

  // ----- Reading order -----

  predicate Ahead(a: Node, b: Node) { if a.y != b.y then a.y < b.y else a.x < b.x }

  /** A card put in its place, after those it is not ahead of. */
  function Put(s: seq<Node>, n: Node): (r: seq<Node>)
    ensures multiset(r) == multiset(s) + multiset{n} && |r| == |s| + 1
  {
    if s == [] || !Ahead(n, s[|s| - 1]) then s + [n]
    else
      assert s == s[..|s| - 1] + [s[|s| - 1]];
      Put(s[..|s| - 1], n) + [s[|s| - 1]]
  }

  /** readingOrder: a stable sort, top to bottom and left to right. */
  function ReadingOrder(s: seq<Node>): (r: seq<Node>)
    ensures multiset(r) == multiset(s) && |r| == |s|
  {
    if s == [] then []
    else
      assert s == s[..|s| - 1] + [s[|s| - 1]];
      Put(ReadingOrder(s[..|s| - 1]), s[|s| - 1])
  }

  ghost predicate Ordered(s: seq<Node>) { forall i, j :: 0 <= i < j < |s| ==> !Ahead(s[j], s[i]) }

  lemma {:induction false} PutOrdered(s: seq<Node>, n: Node)
    requires Ordered(s)
    ensures Ordered(Put(s, n)) && forall x :: x in Put(s, n) <==> x in s || x == n
  {
    if s != [] && Ahead(n, s[|s| - 1]) {
      var last := s[|s| - 1];
      PutOrdered(s[..|s| - 1], n);
      assert s == s[..|s| - 1] + [last];
      var r := Put(s[..|s| - 1], n);
      forall i | 0 <= i < |r| ensures !Ahead(last, r[i]) {
        assert r[i] in r;
        if r[i] != n { assert r[i] in s[..|s| - 1]; }
      }
    }
  }

  /** The list goes top to bottom, and left to right at the same height. */
  lemma {:induction false} ReadingOrdered(s: seq<Node>)
    ensures Ordered(ReadingOrder(s))
    ensures var r := ReadingOrder(s);
            forall i, j :: 0 <= i < j < |r| ==> r[i].y < r[j].y || (r[i].y == r[j].y && r[i].x <= r[j].x)
  {
    if s != [] {
      ReadingOrdered(s[..|s| - 1]);
      PutOrdered(ReadingOrder(s[..|s| - 1]), s[|s| - 1]);
    }
  }

  /** The cards at a place, in their order. */
  function AtPlace(s: seq<Node>, x: real, y: real): seq<Node> { Filter(IsAt(x, y), s) }

  function IsAt(x: real, y: real): Node -> bool { (n: Node) => n.x == x && n.y == y }

  function One(f: Node -> bool, n: Node): seq<Node> { if f(n) then [n] else [] }

  lemma LastKept(f: Node -> bool, s: seq<Node>, n: Node)
    ensures Filter(f, s + [n]) == Filter(f, s) + One(f, n)
  {
    FilterSnoc(f, s + [n], |s|);
    assert (s + [n])[..|s| + 1] == s + [n] && (s + [n])[..|s|] == s;
  }

  /** A card put in its place is the last of those f keeps, of which none is ahead of
      another. */
  lemma {:induction false} PutLast(f: Node -> bool, s: seq<Node>, n: Node)
    requires forall a, b :: f(a) && f(b) ==> !Ahead(a, b)
    ensures Filter(f, Put(s, n)) == Filter(f, s) + One(f, n)
  {
    if s != [] && Ahead(n, s[|s| - 1]) {
      var before, last := s[..|s| - 1], s[|s| - 1];
      PutLast(f, before, n);
      LastKept(f, Put(before, n), last);
      LastKept(f, before, last);
      assert s == before + [last];
      Exchange(Filter(f, before), One(f, n), One(f, last));
    } else {
      LastKept(f, s, n);
    }
  }

  lemma Exchange(s: seq<Node>, a: seq<Node>, b: seq<Node>)
    ensures a == [] || b == [] ==> s + a + b == s + b + a
  {
  }

  lemma {:induction false} SortKeeps(f: Node -> bool, s: seq<Node>)
    requires forall a, b :: f(a) && f(b) ==> !Ahead(a, b)
    ensures Filter(f, ReadingOrder(s)) == Filter(f, s)
  {
    if s != [] {
      var before, last := s[..|s| - 1], s[|s| - 1];
      SortKeeps(f, before);
      PutLast(f, ReadingOrder(before), last);
      LastKept(f, before, last);
      assert s == before + [last];
    }
  }

  /** The sort is stable: the cards of one place keep their order. */
  lemma ReadingStable(s: seq<Node>, x: real, y: real)
    ensures AtPlace(ReadingOrder(s), x, y) == AtPlace(s, x, y)
  {
    SortKeeps(IsAt(x, y), s);
  }

  // ----- The list -----

  /** A line of the list: a card and how deep it is indented. */
  datatype Line = Line(node: Node, depth: nat)

  function Children(nodes: seq<Node>, n: Node): seq<Node> {
    ReadingOrder(Filter((k: Node) => Parent(nodes, k) == Some(n), nodes))
  }

  function Top(nodes: seq<Node>): seq<Node> { ReadingOrder(Filter((k: Node) => Parent(nodes, k) == None, nodes)) }

  lemma Ordering(s: seq<Node>)
    ensures forall k :: k in ReadingOrder(s) <==> k in s
  {
    forall k ensures k in ReadingOrder(s) <==> k in s { assert k in multiset(ReadingOrder(s)) <==> k in multiset(s); }
  }

  lemma ChildrenAre(nodes: seq<Node>, n: Node)
    ensures forall k :: k in Children(nodes, n) <==> k in nodes && Parent(nodes, k) == Some(n)
    ensures |Children(nodes, n)| <= |nodes|
  {
    Ordering(Filter((k: Node) => Parent(nodes, k) == Some(n), nodes));
  }

  /** How many cards a group may hold, at most, at any depth. */
  function Inside(nodes: seq<Node>, n: Node): set<Node> {
    set i | 0 <= i < |nodes| && nodes[i].kind == GroupCard && Contains(n, nodes[i]) :: nodes[i]
  }

  function Size(nodes: seq<Node>, n: Node): nat { if n.kind == GroupCard then 1 + |Inside(nodes, n)| else 0 }

  lemma ChildIsSmaller(nodes: seq<Node>, n: Node, k: Node)
    requires k in nodes && n.kind == GroupCard && Parent(nodes, k) == Some(n)
    ensures Size(nodes, k) < Size(nodes, n)
  {
    if k.kind == GroupCard {
      ParentIs(nodes, k);
      assert k in Inside(nodes, n) && k !in Inside(nodes, k);
      forall g | g in Inside(nodes, k) ensures g in Inside(nodes, n) { ContainsThrough(n, k, g); }
      Smaller(Inside(nodes, k), Inside(nodes, n), k);
    }
  }

  /** writeCard: a card and, for a group, those it holds, one step in. */
  function Printed(nodes: seq<Node>, n: Node, depth: nat): seq<Line>
    decreases Size(nodes, n), |nodes| + 1
  {
    if n.kind != GroupCard then [Line(n, depth)]
    else
      ChildrenAre(nodes, n);
      [Line(n, depth)] + PrintedUnder(nodes, n, Children(nodes, n), depth + 1)
  }

  function PrintedUnder(nodes: seq<Node>, n: Node, kids: seq<Node>, depth: nat): seq<Line>
    requires n.kind == GroupCard && forall k :: k in kids ==> k in nodes && Parent(nodes, k) == Some(n)
    decreases Size(nodes, n), |kids|
  {
    if kids == [] then []
    else
      ChildIsSmaller(nodes, n, kids[|kids| - 1]);
      PrintedUnder(nodes, n, kids[..|kids| - 1], depth) + Printed(nodes, kids[|kids| - 1], depth)
  }

  function PrintedTop(nodes: seq<Node>, top: seq<Node>): seq<Line> {
    if top == [] then [] else PrintedTop(nodes, top[..|top| - 1]) + Printed(nodes, top[|top| - 1], 0)
  }

  /** The list of a canvas. */
  function Cards(nodes: seq<Node>): seq<Line> { PrintedTop(nodes, Top(nodes)) }

  // ----- Every card once -----

  /** How often l is printed of n: once under each card on the way up from its card, as
      deep as that way is long. */
  function Times(nodes: seq<Node>, n: Node, l: Line): nat {
    if l.node in nodes && n in PathUp(nodes, l.node) && l.depth == Depth(nodes, l.node) then 1 else 0
  }

  /** The way up from m goes through a child of n, when it goes through n; m is n otherwise. */
  lemma {:induction false} ThroughChild(nodes: seq<Node>, n: Node, m: Node) returns (k: Option<Node>)
    requires m in nodes && n in PathUp(nodes, m)
    ensures k.None? <==> m == n
    ensures k.Some? ==> k.value in nodes && Parent(nodes, k.value) == Some(n) && k.value in PathUp(nodes, m)
    decreases |Around(nodes, m)|
  {
    if m == n {
      k := None;
    } else {
      ParentIs(nodes, m);
      var p := Parent(nodes, m).value;
      if p == n {
        k := Some(m);
      } else {
        k := ThroughChild(nodes, n, p);
      }
    }
  }

  /** A card on the way up from m with a given parent, or none, is the only one. */
  lemma {:induction false} OneChild(nodes: seq<Node>, up: Option<Node>, m: Node, k1: Node, k2: Node)
    requires k1 in PathUp(nodes, m) && k2 in PathUp(nodes, m)
    requires Parent(nodes, k1) == up && Parent(nodes, k2) == up
    ensures k1 == k2
    decreases |Around(nodes, m)|
  {
    if k1 != m { PathHolds(nodes, m, k1); }
    if k2 != m { PathHolds(nodes, m, k2); }
    if k1 != m && k2 != m {
      ParentIs(nodes, m);
      OneChild(nodes, up, Parent(nodes, m).value, k1, k2);
    } else if up.Some? {
      NoLoop(nodes, k1);
      NoLoop(nodes, k2);
    }
  }

  /** The way up ends at a card with no parent. */
  lemma {:induction false} TopOf(nodes: seq<Node>, m: Node) returns (t: Node)
    requires m in nodes
    ensures t in nodes && t in PathUp(nodes, m) && Parent(nodes, t) == None
    decreases |Around(nodes, m)|
  {
    if Parent(nodes, m).None? {
      t := m;
    } else {
      ParentIs(nodes, m);
      t := TopOf(nodes, Parent(nodes, m).value);
    }
  }

  // ----- Lists without repetition -----

  ghost predicate NoRepeat(s: seq<Node>) { forall x :: multiset(s)[x] <= 1 }

  lemma {:induction false} DistinctOnce(nodes: seq<Node>)
    requires Distinct(nodes)
    ensures NoRepeat(nodes)
  {
    if nodes != [] {
      var n := |nodes| - 1;
      DistinctOnce(nodes[..n]);
      assert nodes == nodes[..n] + [nodes[n]];
      assert nodes[n] !in nodes[..n];
    }
  }

  lemma OrderedOnce(nodes: seq<Node>, f: Node -> bool)
    requires Distinct(nodes)
    ensures NoRepeat(ReadingOrder(Filter(f, nodes)))
  {
    DistinctOnce(nodes);
    forall x ensures multiset(ReadingOrder(Filter(f, nodes)))[x] <= 1 {
      FilterCount(f, nodes, x);
    }
  }

  lemma WithoutLast(s: seq<Node>)
    requires NoRepeat(s) && s != []
    ensures NoRepeat(s[..|s| - 1]) && s[|s| - 1] !in s[..|s| - 1]
    ensures forall x :: x in s <==> x in s[..|s| - 1] || x == s[|s| - 1]
  {
    var before, last := s[..|s| - 1], s[|s| - 1];
    assert s == before + [last];
    assert multiset(s)[last] == multiset(before)[last] + 1;
    forall x ensures multiset(before)[x] <= 1 { assert multiset(s)[x] >= multiset(before)[x]; }
  }

  // ----- The count -----

  /** How often l is printed of kids. */
  ghost function TimesAny(nodes: seq<Node>, kids: seq<Node>, l: Line): nat {
    if l.node in nodes && l.depth == Depth(nodes, l.node) && exists k :: k in kids && k in PathUp(nodes, l.node) then 1 else 0
  }

  /** One more of the cards with a given parent. */
  lemma TimesNext(nodes: seq<Node>, up: Option<Node>, kids: seq<Node>, l: Line)
    requires NoRepeat(kids) && kids != [] && forall k :: k in kids ==> Parent(nodes, k) == up
    ensures TimesAny(nodes, kids, l)
            == TimesAny(nodes, kids[..|kids| - 1], l) + Times(nodes, kids[|kids| - 1], l)
  {
    var before, last := kids[..|kids| - 1], kids[|kids| - 1];
    WithoutLast(kids);
    if last in PathUp(nodes, l.node) {
      forall k | k in before ensures k !in PathUp(nodes, l.node) {
        if k in PathUp(nodes, l.node) { OneChild(nodes, up, l.node, k, last); }
      }
    }
  }

  lemma {:induction false} PrintedTimes(nodes: seq<Node>, n: Node, l: Line)
    requires Distinct(nodes) && n in nodes
    ensures multiset(Printed(nodes, n, Depth(nodes, n)))[l] == Times(nodes, n, l)
    decreases Size(nodes, n), |nodes| + 1
  {
    var d := Depth(nodes, n);
    if n.kind == GroupCard {
      ChildrenAre(nodes, n);
      OrderedOnce(nodes, (k: Node) => Parent(nodes, k) == Some(n));
      UnderTimes(nodes, n, Children(nodes, n), l);
      OwnOrChild(nodes, n, l);
    } else if l.node in nodes && n in PathUp(nodes, l.node) && l.node != n {
      PathHolds(nodes, l.node, n);
    }
  }

  /** A line printed of a group is its own or one of its children's. */
  lemma OwnOrChild(nodes: seq<Node>, n: Node, l: Line)
    requires n in nodes
    ensures Times(nodes, n, l) == (if l == Line(n, Depth(nodes, n)) then 1 else 0) + TimesAny(nodes, Children(nodes, n), l)
  {
    ChildrenAre(nodes, n);
    if l.node in nodes {
      if n in PathUp(nodes, l.node) {
        var k := ThroughChild(nodes, n, l.node);
        if k.None? {
          forall c | c in Children(nodes, n) ensures c !in PathUp(nodes, n) { NoLoop(nodes, c); }
        }
      } else {
        forall c | c in Children(nodes, n) ensures c !in PathUp(nodes, l.node) {
          if c in PathUp(nodes, l.node) { ParentAbove(nodes, c, l.node); }
        }
      }
    }
  }

  lemma {:induction false} ParentAbove(nodes: seq<Node>, k: Node, m: Node)
    requires k in PathUp(nodes, m) && Parent(nodes, k).Some?
    ensures Parent(nodes, k).value in PathUp(nodes, m)
    decreases |Around(nodes, m)|
  {
    if k != m {
      PathHolds(nodes, m, k);
      ParentIs(nodes, m);
      ParentAbove(nodes, k, Parent(nodes, m).value);
    }
  }

  lemma {:induction false} UnderTimes(nodes: seq<Node>, n: Node, kids: seq<Node>, l: Line)
    requires Distinct(nodes) && n in nodes && n.kind == GroupCard && NoRepeat(kids)
    requires forall k :: k in kids ==> k in nodes && Parent(nodes, k) == Some(n)
    ensures multiset(PrintedUnder(nodes, n, kids, Depth(nodes, n) + 1))[l] == TimesAny(nodes, kids, l)
    decreases Size(nodes, n), |kids|
  {
    if kids != [] {
      var last := kids[|kids| - 1];
      WithoutLast(kids);
      TimesNext(nodes, Some(n), kids, l);
      UnderTimes(nodes, n, kids[..|kids| - 1], l);
      ChildIsSmaller(nodes, n, last);
      PrintedTimes(nodes, last, l);
      assert Depth(nodes, last) == Depth(nodes, n) + 1;
    }
  }

  lemma {:induction false} TopTimes(nodes: seq<Node>, top: seq<Node>, l: Line)
    requires Distinct(nodes) && NoRepeat(top) && forall k :: k in top ==> k in nodes && Parent(nodes, k) == None
    ensures multiset(PrintedTop(nodes, top))[l] == TimesAny(nodes, top, l)
  {
    if top != [] {
      var last := top[|top| - 1];
      WithoutLast(top);
      TimesNext(nodes, None, top, l);
      TopTimes(nodes, top[..|top| - 1], l);
      PrintedTimes(nodes, last, l);
      assert Depth(nodes, last) == 0;
    }
  }

  /** Every card of a canvas is listed once, indented by the number of groups on its way
      up, and nothing else is. */
  lemma EveryCardOnce(nodes: seq<Node>, l: Line)
    requires Distinct(nodes)
    ensures multiset(Cards(nodes))[l] == if l.node in nodes && l.depth == Depth(nodes, l.node) then 1 else 0
  {
    var top := Filter((k: Node) => Parent(nodes, k) == None, nodes);
    Ordering(top);
    OrderedOnce(nodes, (k: Node) => Parent(nodes, k) == None);
    TopTimes(nodes, Top(nodes), l);
    if l.node in nodes {
      var t := TopOf(nodes, l.node);
      assert t in Top(nodes);
    }
  }
}
