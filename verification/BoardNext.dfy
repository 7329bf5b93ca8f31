/** The card an agent takes from a board: Waits and Next (internal/fleet/task.go,
    board.go), and why a board of ready cards never gets stuck. */
module BoardNext {
  import opened Text
  import opened Fleet
  import Board
  import Chains

  // ----- Waits -----

  predicate Held(t: Task, now: int) { t.leaseUntil.Some? && now < t.leaseUntil.value }

  predicate Done(deps: map<string, Task>, d: string) { d in deps && deps[d].status == Completed }

  /** Waits says nothing. */
  predicate Ready(t: Task, deps: map<string, Task>, now: int) {
    && t.status == Submitted && !Held(t, now)
    && forall d :: d in t.dependsOn ==> Done(deps, d)
  }

  /** Waits, dependency by dependency. */
  method WaitsNot(t: Task, deps: map<string, Task>, now: int) returns (ready: bool)
    ensures ready <==> Ready(t, deps, now)
  {
    if t.status != Submitted || Held(t, now) { return false; }
    for i := 0 to |t.dependsOn|
      invariant forall j :: 0 <= j < i ==> Done(deps, t.dependsOn[j])
    {
      var d := t.dependsOn[i];
      if d !in deps || deps[d].status != Completed {
        assert !Done(deps, t.dependsOn[i]);
        return false;
      }
    }
    return true;
  }

  // ----- Next -----

  function ByPath(cards: seq<Task>): map<string, Task> {
    if cards == [] then map[]
    else ByPath(cards[..|cards| - 1])[cards[|cards| - 1].path := cards[|cards| - 1]]
  }

  /** t is a card of b's i-th column, one of submitted, for agents to take. */
  predicate InColumn(b: Fleet.Board, i: nat, t: Task) {
    && i < |b.columns| && b.columns[i].status == Submitted
    && t.board == b.path && t.team == "" && SameName(ColumnOf(b, t), b.columns[i].name)
  }

  predicate Takes(b: Fleet.Board, cards: seq<Task>, now: int, i: nat, t: Task) {
    t in cards && InColumn(b, i, t) && Ready(t, ByPath(cards), now)
  }

  /** No card an agent may take comes before t of the i-th column: none of a column
      before, none of that column before it by Order. */
  ghost predicate IsNext(b: Fleet.Board, cards: seq<Task>, now: int, i: nat, t: Task) {
    && Takes(b, cards, now, i, t)
    && forall j: nat, u :: Takes(b, cards, now, j, u) ==> i < j || (i == j && !Board.Before(u, t))
  }

  /** Sorted as slices.SortFunc leaves it: no card before one ahead of it. */
  ghost predicate InOrder(s: seq<Task>) { forall i, j :: 0 <= i < j < |s| ==> !Board.Before(s[j], s[i]) }

  lemma NotBeforeTransitive(a: Task, b: Task, c: Task)
    requires !Board.Before(b, a) && !Board.Before(c, b)
    ensures !Board.Before(c, a)
  {
    if Board.Before(c, a) {
      Board.OrderIsStrict(a, b);
      Board.OrderIsStrict(b, c);
      if Board.Before(a, b) { Board.BeforeTransitive(c, a, b); }
      if Board.Before(b, c) { Board.BeforeTransitive(b, c, a); }
    }
  }

  /** A card put in among those in order. */
  lemma PutIn(s: seq<Task>, t: Task, k: nat)
    requires InOrder(s) && k <= |s|
    requires forall i :: 0 <= i < k ==> !Board.Before(t, s[i])
    requires forall i :: k <= i < |s| ==> !Board.Before(s[i], t)
    ensures InOrder(s[..k] + [t] + s[k..]) && multiset(s[..k] + [t] + s[k..]) == multiset(s) + multiset{t}
  {
    var r := s[..k] + [t] + s[k..];
    assert s == s[..k] + s[k..];
    forall i | 0 <= i < |r| ensures r[i] == if i < k then s[i] else if i == k then t else s[i - 1] {}
    forall i, j | 0 <= i < j < |r| ensures !Board.Before(r[j], r[i]) {
      var x, y := if i < k then i else i - 1, if j < k then j else j - 1;
      assert i != k && j != k ==> !Board.Before(s[y], s[x]);
    }
  }

  method Sort(cards: seq<Task>) returns (s: seq<Task>)
    ensures InOrder(s) && multiset(s) == multiset(cards)
  {
    s := [];
    for i := 0 to |cards|
      invariant InOrder(s) && multiset(s) == multiset(cards[..i])
    {
      var k := |s|;
      while k > 0 && Board.Before(cards[i], s[k - 1])
        invariant 0 <= k <= |s|
        invariant forall j :: k <= j < |s| ==> !Board.Before(s[j], cards[i])
      {
        Board.OrderIsStrict(cards[i], s[k - 1]);
        k := k - 1;
      }
      forall j | 0 <= j < k ensures !Board.Before(cards[i], s[j]) {
        if j < k - 1 { NotBeforeTransitive(s[j], s[k - 1], cards[i]); }
      }
      PutIn(s, cards[i], k);
      s := s[..k] + [cards[i]] + s[k..];
      assert cards[..i + 1] == cards[..i] + [cards[i]];
    }
    assert cards[..|cards|] == cards;
  }

  /** The cards of one column, sorted. */
  method CardsIn(b: Fleet.Board, cards: seq<Task>, i: nat) returns (s: seq<Task>)
    requires i < |b.columns| && b.columns[i].status == Submitted
    ensures InOrder(s) && forall t :: t in s <==> t in cards && InColumn(b, i, t)
  {
    var in_ := [];
    for k := 0 to |cards|
      invariant forall t :: t in in_ <==> t in cards[..k] && InColumn(b, i, t)
    {
      assert cards[..k + 1] == cards[..k] + [cards[k]];
      var t := cards[k];
      if t.board == b.path && t.team == "" && SameName(ColumnOf(b, t), b.columns[i].name) {
        in_ := in_ + [t];
      }
    }
    assert cards[..|cards|] == cards;
    s := Sort(in_);
    forall t ensures t in s <==> t in in_ { assert t in multiset(s) <==> t in multiset(in_); }
  }

  method Next(b: Fleet.Board, cards: seq<Task>, now: int) returns (r: Option<Task>)
    ensures r.Some? ==> exists i: nat :: IsNext(b, cards, now, i, r.value)
    ensures r.None? ==> forall i: nat, t :: !Takes(b, cards, now, i, t)
  {
    var byPath := ByPath(cards);
    for i := 0 to |b.columns|
      invariant forall j: nat, t :: j < i ==> !Takes(b, cards, now, j, t)
    {
      if b.columns[i].status == Submitted {
        var s := CardsIn(b, cards, i);
        for k := 0 to |s|
          invariant forall j :: 0 <= j < k ==> !Ready(s[j], byPath, now)
        {
          var ready := WaitsNot(s[k], byPath, now);
          if ready {
            FirstReady(b, cards, now, i, s, k);
            return Some(s[k]);
          }
        }
      }
    }
    return None;
  }

  lemma FirstReady(b: Fleet.Board, cards: seq<Task>, now: int, i: nat, s: seq<Task>, k: nat)
    requires InOrder(s) && forall t :: t in s <==> t in cards && InColumn(b, i, t)
    requires k < |s| && Ready(s[k], ByPath(cards), now) && forall j :: 0 <= j < k ==> !Ready(s[j], ByPath(cards), now)
    requires forall j: nat, t :: j < i ==> !Takes(b, cards, now, j, t)
    ensures IsNext(b, cards, now, i, s[k])
  {
    assert s[k] in s;
    forall j: nat, u | Takes(b, cards, now, j, u) ensures i < j || (i == j && !Board.Before(u, s[k])) {
      if i == j {
        var m :| 0 <= m < |s| && s[m] == u;
        assert m >= k;
        if m == k { Board.OrderIsStrict(u, s[k]); }
      }
    }
  }

  // ----- What the card given is -----

  /** The task at path d, the last of the cards there, is completed. */
  predicate CompletedAt(cards: seq<Task>, d: string) {
    exists k :: 0 <= k < |cards| && cards[k].path == d && cards[k].status == Completed
                && forall j :: k < j < |cards| ==> cards[j].path != d
  }

  lemma {:induction false} ByPathLast(cards: seq<Task>, d: string)
    ensures Done(ByPath(cards), d) <==> CompletedAt(cards, d)
    ensures d in ByPath(cards) <==> exists k :: 0 <= k < |cards| && cards[k].path == d
  {
    if cards != [] {
      var n := |cards| - 1;
      ByPathLast(cards[..n], d);
      if cards[n].path != d {
        if k :| 0 <= k < |cards| && cards[k].path == d && cards[k].status == Completed
                && forall j :: k < j < |cards| ==> cards[j].path != d {
          assert cards[..n][k].path == d;
        }
        if k :| 0 <= k < n && cards[..n][k].path == d { assert cards[k].path == d; }
      }
    }
  }

  /** An agent takes a card of the board exactly when it is submitted, past any lease, of no
      team, in that column of submitted, and every task it depends on is completed. */
  lemma TakesIs(b: Fleet.Board, cards: seq<Task>, now: int, i: nat, t: Task)
    ensures Takes(b, cards, now, i, t) <==>
              && t in cards && t.board == b.path && t.team == "" && t.status == Submitted
              && (t.leaseUntil.Some? ==> t.leaseUntil.value <= now)
              && (forall d :: d in t.dependsOn ==> CompletedAt(cards, d))
              && i < |b.columns| && b.columns[i].status == Submitted && SameName(ColumnOf(b, t), b.columns[i].name)
  {
    forall d ensures Done(ByPath(cards), d) <==> CompletedAt(cards, d) { ByPathLast(cards, d); }
  }

  // ----- A board never gets stuck -----

  predicate Open(b: Fleet.Board, t: Task) { t.board == b.path && !Ended(t.status) }

  predicate DistinctPaths(cards: seq<Task>) {
    forall i, j :: 0 <= i < j < |cards| ==> cards[i].path != cards[j].path
  }

  lemma {:induction false} ByPathIs(cards: seq<Task>)
    requires DistinctPaths(cards)
    ensures forall t :: t in cards ==> t.path in ByPath(cards) && ByPath(cards)[t.path] == t
    ensures forall p :: p in ByPath(cards) ==> ByPath(cards)[p] in cards && ByPath(cards)[p].path == p
  {
    if cards != [] {
      var n := |cards| - 1;
      ByPathIs(cards[..n]);
      assert cards == cards[..n] + [cards[n]];
    }
  }

  function OpenPaths(b: Fleet.Board, cards: seq<Task>): set<string> {
    set i | 0 <= i < |cards| && Open(b, cards[i]) :: cards[i].path
  }

  predicate DependsOn(cards: seq<Task>, x: string, y: string) {
    var m := ByPath(cards);
    x in m && y in m[x].dependsOn
  }

  /** Nothing but the cards themselves can hold the board up: every open card is
      submitted, held by nobody and of no team; it depends on completed tasks and on
      open cards of the board, and these dependencies go round in no circle. */
  ghost predicate Flows(b: Fleet.Board, cards: seq<Task>, now: int) {
    && DistinctPaths(cards)
    && (exists c :: c in b.columns && c.status == Submitted)
    && (forall t :: t in cards && Open(b, t) ==> t.status == Submitted && t.team == "" && !Held(t, now))
    && (forall t :: t in cards && Open(b, t) ==> DepsKnown(b, cards, t))
    && Chains.Acyclic((x, y) => DependsOn(cards, x, y), OpenPaths(b, cards))
  }

  ghost predicate DepsKnown(b: Fleet.Board, cards: seq<Task>, t: Task) {
    forall d :: d in t.dependsOn ==> Done(ByPath(cards), d) || d in OpenPaths(b, cards)
  }

  /** A submitted card is in a column of submitted, when the board has one. */
  lemma SubmittedHasColumn(b: Fleet.Board, t: Task) returns (i: nat)
    requires t.board == b.path && t.team == "" && t.status == Submitted
    requires exists c :: c in b.columns && c.status == Submitted
    ensures InColumn(b, i, t)
  {
    TargetAgrees(b, t, "", None);
    NamedIsThere(b.columns, t.column);
    var c := Target(b, t, "", None).value;
    i :| 0 <= i < |b.columns| && b.columns[i] == c;
  }

  /** On such a board, as long as a card is open, Next finds one to take. */
  lemma NeverStuck(b: Fleet.Board, cards: seq<Task>, now: int)
    requires Flows(b, cards, now) && OpenPaths(b, cards) != {}
    ensures exists i: nat, t :: Takes(b, cards, now, i, t)
  {
    var leads := (x, y) => DependsOn(cards, x, y);
    ByPathIs(cards);
    var x := Chains.SomeEnds(leads, OpenPaths(b, cards));
    var k :| 0 <= k < |cards| && Open(b, cards[k]) && cards[k].path == x;
    var t := cards[k];
    assert t in cards && DepsKnown(b, cards, t);
    forall d | d in t.dependsOn ensures Done(ByPath(cards), d) {
      assert leads(x, d);
    }
    var i := SubmittedHasColumn(b, t);
    assert Takes(b, cards, now, i, t);
  }

  /** The k-th card completed. */
  function Completing(cards: seq<Task>, k: nat): (r: seq<Task>)
    requires k < |cards|
    ensures |r| == |cards| && forall i :: 0 <= i < |cards| ==> r[i] == if i == k then cards[k].(status := Completed) else cards[i]
  {
    cards[k := cards[k].(status := Completed)]
  }

  lemma {:induction false} ByPathCompleting(cards: seq<Task>, k: nat)
    requires DistinctPaths(cards) && k < |cards|
    ensures DistinctPaths(Completing(cards, k))
    ensures forall x, y :: DependsOn(Completing(cards, k), x, y) <==> DependsOn(cards, x, y)
    ensures forall d :: Done(ByPath(cards), d) || d == cards[k].path ==> Done(ByPath(Completing(cards, k)), d)
  {
    var r := Completing(cards, k);
    assert DistinctPaths(r);
    ByPathIs(cards);
    ByPathIs(r);
    forall x ensures x in ByPath(r) <==> x in ByPath(cards) { SamePaths(cards, k, x); }
    forall x | x in ByPath(cards) ensures ByPath(r)[x] == if x == cards[k].path then cards[k].(status := Completed) else ByPath(cards)[x] {
      var i :| 0 <= i < |cards| && cards[i] == ByPath(cards)[x];
      assert r[i] in r && r[i].path == x;
    }
  }

  lemma SamePaths(cards: seq<Task>, k: nat, x: string)
    requires k < |cards| && DistinctPaths(cards) && DistinctPaths(Completing(cards, k))
    ensures x in ByPath(Completing(cards, k)) <==> x in ByPath(cards)
  {
    var r := Completing(cards, k);
    ByPathIs(cards);
    ByPathIs(r);
    if x in ByPath(cards) {
      var i :| 0 <= i < |cards| && cards[i] == ByPath(cards)[x];
      assert r[i] in r && r[i].path == x;
    }
    if x in ByPath(r) {
      var i :| 0 <= i < |r| && r[i] == ByPath(r)[x];
      assert cards[i] in cards && cards[i].path == x;
    }
  }

  /** Completing a card keeps the board flowing, with one card less open. */
  lemma CompletingKeepsFlow(b: Fleet.Board, cards: seq<Task>, now: int, k: nat)
    requires Flows(b, cards, now) && k < |cards| && Open(b, cards[k])
    ensures Flows(b, Completing(cards, k), now)
    ensures OpenPaths(b, Completing(cards, k)) == OpenPaths(b, cards) - {cards[k].path}
  {
    var r := Completing(cards, k);
    ByPathCompleting(cards, k);
    var s := OpenPaths(b, r);
    assert s == OpenPaths(b, cards) - {cards[k].path};
    forall t | t in r && Open(b, t)
      ensures t.status == Submitted && t.team == "" && !Held(t, now) && DepsKnown(b, r, t)
    {
      var i :| 0 <= i < |r| && r[i] == t;
      assert t == cards[i] && t in cards && DepsKnown(b, cards, t);
    }
    Chains.AcyclicStays((x, y) => DependsOn(cards, x, y), (x, y) => DependsOn(r, x, y), OpenPaths(b, cards), s);
  }

  /** Taking what Next gives and completing it, over and over, closes every card of the
      board, in as many rounds as there were open cards. */
  lemma {:induction false} RunsDry(b: Fleet.Board, cards: seq<Task>, now: int) returns (taken: seq<nat>)
    requires Flows(b, cards, now)
    ensures |taken| == |OpenPaths(b, cards)| && Rounds(b, cards, now, taken)
    ensures OpenPaths(b, AfterRounds(cards, taken)) == {}
    ensures forall t :: t in AfterRounds(cards, taken) && t.board == b.path ==> t.status in {Completed, Failed, Canceled}
    decreases |OpenPaths(b, cards)|
  {
    if OpenPaths(b, cards) == {} {
      taken := [];
    } else {
      var k := ATake(b, cards, now);
      CompletingKeepsFlow(b, cards, now, k);
      assert cards[k].path in OpenPaths(b, cards);
      var rest := RunsDry(b, Completing(cards, k), now);
      taken := [k] + rest;
      assert taken[1..] == rest;
    }
    forall t | t in AfterRounds(cards, taken) && t.board == b.path ensures t.status in {Completed, Failed, Canceled} {
      assert Open(b, t) ==> t.path in OpenPaths(b, AfterRounds(cards, taken));
    }
  }

  /** Each of taken, in turn, is the number of a card Next may give; it is completed. */
  ghost predicate Rounds(b: Fleet.Board, cards: seq<Task>, now: int, taken: seq<nat>)
    decreases |taken|
  {
    taken == [] ||
    (taken[0] < |cards| && (exists i: nat :: IsNext(b, cards, now, i, cards[taken[0]]))
     && Rounds(b, Completing(cards, taken[0]), now, taken[1..]))
  }

  function AfterRounds(cards: seq<Task>, taken: seq<nat>): seq<Task>
    decreases |taken|
  {
    if taken == [] || taken[0] >= |cards| then cards else AfterRounds(Completing(cards, taken[0]), taken[1..])
  }

  /** The least of the first n cards taken from column i. */
  lemma {:induction false} LeastOf(b: Fleet.Board, cards: seq<Task>, now: int, i: nat, n: nat) returns (k: Option<nat>)
    requires n <= |cards|
    ensures k.Some? ==> k.value < n && Takes(b, cards, now, i, cards[k.value])
    ensures forall m :: 0 <= m < n && Takes(b, cards, now, i, cards[m]) ==>
              k.Some? && !Board.Before(cards[m], cards[k.value])
  {
    if n == 0 {
      k := None;
    } else {
      k := LeastOf(b, cards, now, i, n - 1);
      var t := cards[n - 1];
      if Takes(b, cards, now, i, t) && (k.None? || Board.Before(t, cards[k.value])) {
        Board.OrderIsStrict(t, t);
        forall m | 0 <= m < n - 1 && Takes(b, cards, now, i, cards[m]) ensures !Board.Before(cards[m], t) {
          if Board.Before(cards[m], t) { Board.BeforeTransitive(cards[m], t, cards[k.value]); }
        }
        k := Some(n - 1);
      } else if k.None? || !Board.Before(t, cards[k.value]) {
      }
    }
  }

  /** The first column some card is taken from, and the least card of it. */
  lemma {:induction false} LeastTake(b: Fleet.Board, cards: seq<Task>, now: int, i: nat, t: Task) returns (k: nat)
    requires Takes(b, cards, now, i, t)
    ensures k < |cards| && exists j: nat :: IsNext(b, cards, now, j, cards[k])
    decreases i
  {
    if j: nat, u :| j < i && Takes(b, cards, now, j, u) {
      k := LeastTake(b, cards, now, j, u);
    } else {
      var m := LeastOf(b, cards, now, i, |cards|);
      var n :| 0 <= n < |cards| && cards[n] == t;
      k := m.value;
      forall j: nat, u | Takes(b, cards, now, j, u) ensures i < j || (i == j && !Board.Before(u, cards[k])) {
        var l :| 0 <= l < |cards| && cards[l] == u;
      }
      assert IsNext(b, cards, now, i, cards[k]);
    }
  }

  /** There is a card Next gives, and it is open. */
  lemma ATake(b: Fleet.Board, cards: seq<Task>, now: int) returns (k: nat)
    requires Flows(b, cards, now) && OpenPaths(b, cards) != {}
    ensures k < |cards| && Open(b, cards[k]) && exists i: nat :: IsNext(b, cards, now, i, cards[k])
  {
    NeverStuck(b, cards, now);
    var i: nat, t :| Takes(b, cards, now, i, t);
    k := LeastTake(b, cards, now, i, t);
  }
}
