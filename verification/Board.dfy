/** The ranks of a column's cards: Order and Place (internal/fleet/board.go). */
module Board {
  import opened Text
  import opened Fleet

  // ----- Order -----

  function Compare(a: string, b: string): int { if a == b then 0 else if Less(a, b) then -1 else 1 }

  function Order(a: Task, b: Task): int {
    if a.rank > 0.0 && b.rank > 0.0 && a.rank != b.rank then (if a.rank < b.rank then -1 else 1)
    else if a.rank > 0.0 && b.rank <= 0.0 then -1
    else if a.rank <= 0.0 && b.rank > 0.0 then 1
    else Compare(a.path, b.path)
  }

  predicate Before(a: Task, b: Task) { Order(a, b) < 0 }

  lemma OrderIsStrict(a: Task, b: Task)
    ensures Order(a, b) == 0 ==> a.path == b.path
    ensures Before(a, b) <==> Order(b, a) > 0
  {
    LessTrichotomy(a.path, b.path);
  }

  predicate IsRanked(a: Task) { a.rank > 0.0 }

  /** A card a person ranked comes before one nobody did, the lower rank first; of two cards
      with one rank, or with none, the one whose path comes first in the order of text. */
  lemma OrderIs(a: Task, b: Task)
    ensures Before(a, b) <==>
              || (IsRanked(a) && !IsRanked(b))
              || (IsRanked(a) && IsRanked(b) && a.rank < b.rank)
              || ((if IsRanked(a) then b.rank == a.rank else !IsRanked(b)) && Precedes(a.path, b.path))
  {
    LessIs(a.path, b.path);
  }

  lemma BeforeTransitive(a: Task, b: Task, c: Task)
    requires Before(a, b) && Before(b, c)
    ensures Before(a, c)
  {
    LessTrichotomy(a.path, b.path);
    LessTrichotomy(b.path, c.path);
    LessTrichotomy(a.path, c.path);
    if Less(a.path, b.path) && Less(b.path, c.path) { LessTransitive(a.path, b.path, c.path); }
  }

  ghost predicate Sorted(s: seq<Task>) { forall i, j :: 0 <= i < j < |s| ==> Before(s[i], s[j]) }

  lemma FirstIsLeast(s: seq<Task>, c: Task)
    requires Sorted(s) && c in s
    ensures c == s[0] || Before(s[0], c)
  {
    var i :| 0 <= i < |s| && s[i] == c;
  }

  lemma Headless(s: seq<Task>)
    requires Sorted(s) && s != []
    ensures Sorted(s[1..]) && multiset(s[1..]) == multiset(s) - multiset{s[0]}
  {
    assert s == [s[0]] + s[1..];
    assert forall i :: 0 <= i < |s[1..]| ==> s[1..][i] == s[i + 1];
  }

  /** Two sortings of the same cards are one. */
  lemma {:induction false} SortedOnce(s: seq<Task>, t: seq<Task>)
    requires Sorted(s) && Sorted(t) && multiset(s) == multiset(t)
    ensures s == t
    decreases |s|
  {
    assert |s| == |multiset(s)| && |t| == |multiset(t)|;
    if s != [] {
      assert s[0] in multiset(t) && t[0] in multiset(s);
      FirstIsLeast(s, t[0]);
      FirstIsLeast(t, s[0]);
      OrderIsStrict(s[0], t[0]);
      Headless(s);
      Headless(t);
      SortedOnce(s[1..], t[1..]);
      assert s == [s[0]] + s[1..] && t == [t[0]] + t[1..];
    }
  }

  // ----- Place -----

  const MIN_GAP: real := 1.0 / 1024.0

  /** The rank of a new card, and the new ranks of the others when they change. */
  datatype Placed = Placed(rank: real, others: Option<seq<real>>)

  function Clamp(at: int, n: nat): nat { if at < 0 then 0 else if at > n then n else at }

  /** The ranks 1, 2, 3… with a place left at at. */
  function Renumbered(n: nat, at: nat): (r: seq<real>)
    ensures |r| == n
    ensures forall i :: 0 <= i < n ==> r[i] == (if i >= at then i + 2 else i + 1) as real
  {
    seq(n, i requires 0 <= i < n => (if i >= at then i + 2 else i + 1) as real)
  }

  predicate AllRanked(ranks: seq<real>) { forall i :: 0 <= i < |ranks| ==> ranks[i] > 0.0 }

  /** The rank before position at: 0 at the top. */
  function Below(ranks: seq<real>, at: nat): real
    requires at <= |ranks|
  {
    if at == 0 then 0.0 else ranks[at - 1]
  }

  /** Place without its loops. */
  function PlaceAt(ranks: seq<real>, at: int): Placed {
    var k := Clamp(at, |ranks|);
    if !AllRanked(ranks) then Placed((k + 1) as real, Some(Renumbered(|ranks|, k)))
    else if ranks == [] then Placed(1.0, None)
    else if k == |ranks| then Placed(ranks[k - 1] + 1.0, None)
    else if (ranks[k] - Below(ranks, k)) / 2.0 >= MIN_GAP then
      Placed(Below(ranks, k) + (ranks[k] - Below(ranks, k)) / 2.0, None)
    else Placed((k + 1) as real, Some(Renumbered(|ranks|, k)))
  }

  method Place(ranks: seq<real>, at: int) returns (rank: real, others: Option<seq<real>>)
    ensures Placed(rank, others) == PlaceAt(ranks, at)
  {
    var k := Clamp(at, |ranks|);
    var renumber := false;
    for i := 0 to |ranks|
      invariant renumber <==> exists j :: 0 <= j < i && ranks[j] <= 0.0
    {
      if ranks[i] <= 0.0 { renumber := true; }
    }
    if !renumber {
      if |ranks| == 0 { return 1.0, None; }
      if k == |ranks| { return ranks[k - 1] + 1.0, None; }
      var lo := 0.0;
      if k > 0 { lo := ranks[k - 1]; }
      var hi := ranks[k];
      if (hi - lo) / 2.0 >= MIN_GAP { return lo + (hi - lo) / 2.0, None; }
    }
    var renumbered := [];
    for i := 0 to |ranks|
      invariant |renumbered| == i
      invariant forall j :: 0 <= j < i ==> renumbered[j] == Renumbered(|ranks|, k)[j]
    {
      var r := (i + 1) as real;
      if i >= k { r := r + 1.0; }
      renumbered := renumbered + [r];
    }
    assert renumbered == Renumbered(|ranks|, k);
    return (k + 1) as real, Some(renumbered);
  }

  // ----- A card placed in its column -----

  function RanksOf(cards: seq<Task>): (r: seq<real>)
    ensures |r| == |cards| && forall i :: 0 <= i < |cards| ==> r[i] == cards[i].rank
  {
    seq(|cards|, i requires 0 <= i < |cards| => cards[i].rank)
  }

  /** The column's cards with the new ranks written. */
  function Reranked(cards: seq<Task>, others: Option<seq<real>>): (r: seq<Task>)
    requires others.Some? ==> |others.value| == |cards|
    ensures |r| == |cards|
    ensures forall i :: 0 <= i < |cards| ==>
              r[i] == if others.Some? then cards[i].(rank := others.value[i]) else cards[i]
  {
    seq(|cards|, i requires 0 <= i < |cards| => if others.Some? then cards[i].(rank := others.value[i]) else cards[i])
  }

  /** The column after card is placed at at, its cards in the order asked. */
  function Asked(cards: seq<Task>, card: Task, at: int): (r: seq<Task>)
    ensures |r| == |cards| + 1
  {
    var p := PlaceAt(RanksOf(cards), at);
    var k := Clamp(at, |cards|);
    var others := Reranked(cards, p.others);
    others[..k] + [card.(rank := p.rank)] + others[k..]
  }

  /** The ranks Place leaves are positive and grow, where the ranks it got do; they
      grow strictly across the new card. */
  lemma PlacedBetween(cards: seq<Task>, card: Task, at: int)
    requires Sorted(cards)
    ensures var p := PlaceAt(RanksOf(cards), at);
            var k := Clamp(at, |cards|);
            var others := Reranked(cards, p.others);
            && p.rank > 0.0
            && (forall i :: 0 <= i < |cards| ==> others[i].rank > 0.0)
            && (forall i :: 0 <= i < k ==> others[i].rank < p.rank)
            && (forall i :: k <= i < |cards| ==> p.rank < others[i].rank)
  {
    var p := PlaceAt(RanksOf(cards), at);
    var k := Clamp(at, |cards|);
    if p.others.None? {
      forall i, j | 0 <= i < j < |cards| ensures cards[i].rank <= cards[j].rank {
        assert RanksOf(cards)[i] > 0.0 && RanksOf(cards)[j] > 0.0;
        assert Before(cards[i], cards[j]);
      }
      forall i | 0 <= i < |cards| ensures cards[i].rank > 0.0 { assert RanksOf(cards)[i] > 0.0; }
    }
  }

  lemma RerankedSorted(cards: seq<Task>, at: int)
    requires Sorted(cards)
    ensures Sorted(Reranked(cards, PlaceAt(RanksOf(cards), at).others))
  {
    var p := PlaceAt(RanksOf(cards), at);
    var r := Reranked(cards, p.others);
    forall i, j | 0 <= i < j < |r| ensures Before(r[i], r[j]) {
      assert Before(cards[i], cards[j]);
    }
  }

  /** A card placed at a position of a sorted column is there when the column is
      sorted again: whatever sorting gives, it is the order asked, with every card
      ranked. */
  lemma PlaceIsWhereAsked(cards: seq<Task>, card: Task, at: int, again: seq<Task>)
    requires Sorted(cards)
    requires multiset(again) == multiset(Asked(cards, card, at)) && Sorted(again)
    ensures again == Asked(cards, card, at)
    ensures forall i :: 0 <= i < |again| ==> again[i].rank > 0.0
  {
    AskedSorted(cards, card, at);
    SortedOnce(again, Asked(cards, card, at));
  }

  lemma InsertSorted(r: seq<Task>, c: Task, k: nat)
    requires Sorted(r) && k <= |r|
    requires forall i :: 0 <= i < k ==> Before(r[i], c)
    requires forall i :: k <= i < |r| ==> Before(c, r[i])
    ensures Sorted(r[..k] + [c] + r[k..])
  {
    var a := r[..k] + [c] + r[k..];
    forall i | 0 <= i < |a| ensures a[i] == if i < k then r[i] else if i == k then c else r[i - 1] {}
    forall i, j | 0 <= i < j < |a| ensures Before(a[i], a[j]) {
      var x, y := if i < k then i else i - 1, if j < k then j else j - 1;
      assert i != k && j != k ==> Before(r[x], r[y]);
    }
  }

  /** A ranked card put between those of lower and of higher rank. */
  lemma InsertRanked(r: seq<Task>, c: Task, k: nat)
    requires Sorted(r) && k <= |r| && c.rank > 0.0
    requires forall i :: 0 <= i < |r| ==> r[i].rank > 0.0
    requires forall i :: 0 <= i < k ==> r[i].rank < c.rank
    requires forall i :: k <= i < |r| ==> c.rank < r[i].rank
    ensures Sorted(r[..k] + [c] + r[k..])
    ensures forall i :: 0 <= i < |r| + 1 ==> (r[..k] + [c] + r[k..])[i].rank > 0.0
  {
    InsertSorted(r, c, k);
  }

  lemma AskedSorted(cards: seq<Task>, card: Task, at: int)
    requires Sorted(cards)
    ensures Sorted(Asked(cards, card, at))
    ensures forall i :: 0 <= i < |cards| + 1 ==> Asked(cards, card, at)[i].rank > 0.0
  {
    var p := PlaceAt(RanksOf(cards), at);
    PlacedBetween(cards, card, at);
    RerankedSorted(cards, at);
    InsertRanked(Reranked(cards, p.others), card.(rank := p.rank), Clamp(at, |cards|));
  }

  // ----- Columns filled by placing alone -----

  /** 1 / 2^k. */
  function Half(k: nat): real { if k == 0 then 1.0 else Half(k - 1) / 2.0 }

  predicate IsGap(gap: real) { exists k :: 0 <= k <= 10 && gap == Half(k) }

  /** Every rank is a power of two between 1/1024 and 1 above the one before it. */
  ghost predicate Gaps(ranks: seq<real>) {
    forall i :: 0 <= i < |ranks| ==> IsGap(ranks[i] - Below(ranks, i))
  }

  /** The ranks after a placing. */
  function PlaceIn(ranks: seq<real>, at: int): seq<real> {
    var p := PlaceAt(ranks, at);
    var k := Clamp(at, |ranks|);
    var others := if p.others.Some? then p.others.value else ranks;
    others[..k] + [p.rank] + others[k..]
  }

  function PlaceAll(ats: seq<int>): seq<real> {
    if ats == [] then [] else PlaceIn(PlaceAll(ats[..|ats| - 1]), ats[|ats| - 1])
  }

  /** The ranks are given, and a card fits at position k: at the end, or where half of the
      gap is not too small. */
  predicate HasRoom(ranks: seq<real>, k: nat)
    requires k <= |ranks|
  {
    (forall i :: 0 <= i < |ranks| ==> ranks[i] > 0.0) && (k < |ranks| ==> ranks[k] - Below(ranks, k) >= 2.0 / 1024.0)
  }

  /** Where a card fits, no other changes, and it is halfway between its neighbours, the top
      counting as 0, or 1 past the last; where it does not, the column is ranked 1, 2, 3…
      A position before the first is the first, and one past the end is the end. */
  lemma PlaceIs(ranks: seq<real>, at: int)
    ensures var p, k := PlaceAt(ranks, at), Clamp(at, |ranks|);
            && (k == at || (at < 0 && k == 0) || (at > |ranks| && k == |ranks|))
            && |PlaceIn(ranks, at)| == |ranks| + 1 && PlaceIn(ranks, at)[k] == p.rank
            && (HasRoom(ranks, k) <==> p.others.None?)
            && (HasRoom(ranks, k) && k < |ranks| ==> p.rank - Below(ranks, k) == ranks[k] - p.rank)
            && (HasRoom(ranks, k) && k == |ranks| ==> p.rank - Below(ranks, k) == 1.0)
            && (!HasRoom(ranks, k) ==> forall i :: 0 <= i <= |ranks| ==> PlaceIn(ranks, at)[i] == (i + 1) as real)
  {
  }

  lemma {:induction false} HalfShrinks(k: nat)
    ensures 0.0 < Half(k) <= 1.0 && (k >= 11 ==> Half(k) < MIN_GAP)
  {
    if k > 0 { HalfShrinks(k - 1); }
    if k == 11 {
      assert Half(11) == Half(10) / 2.0 && Half(10) == Half(9) / 2.0 && Half(9) == Half(8) / 2.0 && Half(8) == Half(7) / 2.0;
      assert Half(7) == Half(6) / 2.0 && Half(6) == Half(5) / 2.0 && Half(5) == Half(4) / 2.0 && Half(4) == Half(3) / 2.0;
    }
  }

  /** A gap is one of eleven sizes, never below MIN_GAP. */
  lemma GapBounds(gap: real)
    requires IsGap(gap)
    ensures MIN_GAP <= gap <= 1.0
  {
    var k :| 0 <= k <= 10 && gap == Half(k);
    HalfShrinks(k);
    HalfFalls(k, 10);
    TenHalves();
  }

  lemma {:induction false} HalfFalls(j: nat, k: nat)
    requires j <= k
    ensures Half(k) <= Half(j)
  {
    if j < k {
      HalfFalls(j, k - 1);
      HalfShrinks(k - 1);
    }
  }

  lemma TenHalves()
    ensures Half(10) == MIN_GAP
  {
    assert Half(10) == Half(9) / 2.0 && Half(9) == Half(8) / 2.0 && Half(8) == Half(7) / 2.0 && Half(7) == Half(6) / 2.0;
    assert Half(6) == Half(5) / 2.0 && Half(5) == Half(4) / 2.0 && Half(4) == Half(3) / 2.0 && Half(3) == Half(2) / 2.0;
  }

  /** Half of a gap is a gap, when it is wide enough to be taken. */
  lemma HalfGap(gap: real)
    requires IsGap(gap) && gap / 2.0 >= MIN_GAP
    ensures IsGap(gap / 2.0)
  {
    var k :| 0 <= k <= 10 && gap == Half(k);
    HalfShrinks(k + 1);
    assert gap / 2.0 == Half(k + 1);
  }

  lemma RenumberedGaps(n: nat, at: nat)
    requires at <= n
    ensures var r := Renumbered(n, at); Gaps(r[..at] + [(at + 1) as real] + r[at..])
  {
    var r := Renumbered(n, at);
    var ranks := r[..at] + [(at + 1) as real] + r[at..];
    forall i | 0 <= i < |ranks| ensures ranks[i] == (i + 1) as real {
    }
    assert Half(0) == 1.0;
    forall i | 0 <= i < |ranks| ensures IsGap(ranks[i] - Below(ranks, i)) {
      assert ranks[i] - Below(ranks, i) == Half(0);
    }
  }

  /** A rank put at k, halfway to the next one or one past the last. */
  lemma InsertGap(ranks: seq<real>, k: nat, rank: real)
    requires Gaps(ranks) && k <= |ranks| && IsGap(rank - Below(ranks, k))
    requires k < |ranks| ==> IsGap(ranks[k] - rank)
    ensures Gaps(ranks[..k] + [rank] + ranks[k..])
  {
    var r := ranks[..k] + [rank] + ranks[k..];
    forall i | 0 <= i < |r| ensures r[i] == if i < k then ranks[i] else if i == k then rank else ranks[i - 1] {}
    forall i | 0 <= i < |r| ensures IsGap(r[i] - Below(r, i)) {
      if i < k {
        assert IsGap(ranks[i] - Below(ranks, i));
      } else if i > k + 1 {
        assert IsGap(ranks[i - 1] - Below(ranks, i - 1));
      }
    }
  }

  lemma PlaceKeepsGaps(ranks: seq<real>, at: int)
    requires Gaps(ranks)
    ensures Gaps(PlaceIn(ranks, at))
  {
    var k := Clamp(at, |ranks|);
    var p := PlaceAt(ranks, at);
    assert Half(0) == 1.0;
    if p.others.Some? {
      RenumberedGaps(|ranks|, k);
    } else if k == |ranks| {
      assert p.rank - Below(ranks, k) == Half(0);
      InsertGap(ranks, k, p.rank);
    } else {
      var gap := ranks[k] - Below(ranks, k);
      HalfGap(gap);
      assert p.rank - Below(ranks, k) == gap / 2.0 && ranks[k] - p.rank == gap / 2.0;
      InsertGap(ranks, k, p.rank);
    }
  }

  /** However cards are placed in a column that was empty, each rank is a power of two
      between 1/1024 and 1 above the one before it. */
  lemma {:induction false} PlacedGaps(ats: seq<int>)
    ensures Gaps(PlaceAll(ats)) && |PlaceAll(ats)| == |ats|
    ensures forall i :: 0 <= i < |PlaceAll(ats)| ==> MIN_GAP <= PlaceAll(ats)[i] - Below(PlaceAll(ats), i) <= 1.0
  {
    if ats != [] {
      PlacedGaps(ats[..|ats| - 1]);
      PlaceKeepsGaps(PlaceAll(ats[..|ats| - 1]), ats[|ats| - 1]);
    }
    forall i | 0 <= i < |PlaceAll(ats)| ensures MIN_GAP <= PlaceAll(ats)[i] - Below(PlaceAll(ats), i) <= 1.0 {
      assert IsGap(PlaceAll(ats)[i] - Below(PlaceAll(ats), i));
      GapBounds(PlaceAll(ats)[i] - Below(PlaceAll(ats), i));
    }
  }
}
