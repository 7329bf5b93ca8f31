/** Which lines of a frontmatter are of which key, which hang after it, and which values an
    edit refuses to touch, said on lines (internal/frontmatter/frontmatter.go). */
module FrontmatterPlaces {
  import opened Text
  import opened Frontmatter
  import opened FrontmatterEdit
  import opened FrontmatterSpans
  import opened FrontmatterLines

  // ----- Which lines are of which key -----

  ghost predicate IsHead(l: string) { exists k :: Heads(l, k) }

  /** The key line of which line j is part: itself, or that of the line before when it goes on
      it. */
  ghost function HeadOf(fm: seq<string>, j: nat): Option<nat>
    requires j < |fm|
  {
    if IsHead(fm[j]) then Some(j)
    else if GoesOn(fm[j]) && j > 0 then HeadOf(fm, j - 1)
    else None
  }

  /** The last key line up to line j. */
  ghost function LastHead(fm: seq<string>, j: nat): Option<nat>
    requires j < |fm|
  {
    if IsHead(fm[j]) then Some(j) else if j > 0 then LastHead(fm, j - 1) else None
  }

  /** Line j is part of the entry of the key at line i. */
  ghost predicate PartOf(fm: seq<string>, i: nat, j: nat) { j < |fm| && HeadOf(fm, j) == Some(i) }

  /** Line j goes on nothing, after the entry of the key at line i was ended. */
  ghost predicate HangsAfter(fm: seq<string>, i: nat, j: nat) {
    j < |fm| && GoesOn(fm[j]) && HeadOf(fm, j) == None && LastHead(fm, j) == Some(i)
  }

  ghost predicate HeadAt(fm: seq<string>, i: nat, k: string) { i < |fm| && Heads(fm[i], k) }

  // ----- They are the entries read -----

  lemma IsHeadIs(l: string)
    ensures IsHead(l) <==> IsKey(l)
  {
    HeadsIs(l, KeyOf(l));
    if k :| Heads(l, k) { HeadsIs(l, k); }
  }

  /** The line the n-th entry starts on. */
  function StartOf(p: Parsed, n: nat): nat
    requires n <= |p.blocks|
  {
    Start(p.blocks, |p.pre|, n)
  }

  lemma {:induction false} BlocksSplit(bs: seq<Block>, n: nat)
    requires n < |bs|
    ensures |BlocksLines(bs[..n])| + |BlockLines(bs[n])| <= |BlocksLines(bs)|
    ensures forall m :: 0 <= m < |BlockLines(bs[n])| ==> BlocksLines(bs)[|BlocksLines(bs[..n])| + m] == BlockLines(bs[n])[m]
  {
    if n < |bs| - 1 {
      BlocksSplit(bs[..|bs| - 1], n);
      assert bs[..|bs| - 1][..n] == bs[..n];
    }
  }

  lemma LineOfBlock(p: Parsed, n: nat)
    requires n < |p.blocks|
    ensures StartOf(p, n) + |BlockLines(p.blocks[n])| <= |Lines(p)|
    ensures forall m :: 0 <= m < |BlockLines(p.blocks[n])| ==> Lines(p)[StartOf(p, n) + m] == BlockLines(p.blocks[n])[m]
  {
    BlocksSplit(p.blocks, n);
  }

  /** The m-th line of an entry: of it up to what continues it, and hanging or of nothing
      after. */
  lemma {:induction false} PlaceInBlock(p: Parsed, n: nat, m: nat)
    requires GoodParsed(p) && n < |p.blocks| && m < |BlockLines(p.blocks[n])|
    ensures var j := StartOf(p, n) + m;
            && j < |Lines(p)|
            && HeadOf(Lines(p), j) == (if m <= |p.blocks[n].cont| then Some(StartOf(p, n)) else None)
            && LastHead(Lines(p), j) == Some(StartOf(p, n))
  {
    var b := p.blocks[n];
    var fm := Lines(p);
    var j := StartOf(p, n) + m;
    LineOfBlock(p, n);
    assert Good(b) && fm[j] == BlockLines(b)[m];
    IsHeadIs(fm[j]);
    GoesOnIs(fm[j]);
    if m > 0 {
      PlaceInBlock(p, n, m - 1);
      BlockLine(b, m);
    }
  }

  lemma BlockLine(b: Block, m: nat)
    requires Good(b) && 0 < m < |BlockLines(b)|
    ensures var l := BlockLines(b)[m];
            && !IsKey(l)
            && (m <= |b.cont| ==> l == b.cont[m - 1] && Continues(l))
            && (m > |b.cont| ==> l == b.rest[m - 1 - |b.cont|])
            && (m == |b.cont| + 1 ==> !Continues(l))
  {
    var l := BlockLines(b)[m];
    if m <= |b.cont| {
      assert l == b.cont[m - 1] && l in b.cont;
      if IsKey(l) { KeyDoesNotContinue(l); }
    } else {
      assert l == b.rest[m - 1 - |b.cont|] && l in b.rest;
    }
  }

  lemma {:induction false} PlaceBefore(p: Parsed, j: nat)
    requires GoodParsed(p) && j < |p.pre|
    ensures HeadOf(Lines(p), j) == None && LastHead(Lines(p), j) == None
  {
    assert Lines(p)[j] == p.pre[j] && p.pre[j] in p.pre;
    IsHeadIs(Lines(p)[j]);
    if j > 0 { PlaceBefore(p, j - 1); }
  }

  /** Every line is before the first entry or in one. */
  lemma {:induction false} Locate(p: Parsed, j: nat, top: nat) returns (n: nat, m: nat)
    requires top <= |p.blocks| && |p.pre| <= j < StartOf(p, top)
    ensures n < top && m < |BlockLines(p.blocks[n])| && j == StartOf(p, n) + m
    decreases top
  {
    StartNext(p.blocks, |p.pre|, top - 1);
    if j >= StartOf(p, top - 1) {
      n, m := top - 1, j - StartOf(p, top - 1);
    } else {
      n, m := Locate(p, j, top - 1);
    }
  }

  lemma LastStart(p: Parsed)
    ensures StartOf(p, |p.blocks|) == |Lines(p)|
  {
    assert p.blocks[..|p.blocks|] == p.blocks;
  }

  /** A line and where it is. */
  lemma Where(p: Parsed, j: nat) returns (n: nat, m: nat)
    requires GoodParsed(p) && j < |Lines(p)|
    ensures j < |p.pre| ==> HeadOf(Lines(p), j) == None && LastHead(Lines(p), j) == None
    ensures j >= |p.pre| ==> n < |p.blocks| && IsPlace(p, j, n, m)
  {
    n, m := 0, 0;
    if j < |p.pre| {
      PlaceBefore(p, j);
    } else {
      LastStart(p);
      n, m := Locate(p, j, |p.blocks|);
      Placed(p, j, n, m);
    }
  }

  /** Line j is the m-th of the n-th entry. */
  ghost predicate IsPlace(p: Parsed, j: nat, n: nat, m: nat)
    requires n < |p.blocks| && j < |Lines(p)|
  {
    && m < |BlockLines(p.blocks[n])| && j == StartOf(p, n) + m
    && HeadOf(Lines(p), j) == (if m <= |p.blocks[n].cont| then Some(StartOf(p, n)) else None)
    && LastHead(Lines(p), j) == Some(StartOf(p, n))
  }

  lemma Placed(p: Parsed, j: nat, n: nat, m: nat)
    requires GoodParsed(p) && j < |Lines(p)|
    requires n < |p.blocks| && m < |BlockLines(p.blocks[n])| && j == StartOf(p, n) + m
    ensures IsPlace(p, j, n, m)
  {
    PlaceInBlock(p, n, m);
  }

  lemma StartsDiffer(p: Parsed, a: nat, b: nat)
    requires a < |p.blocks| && b < |p.blocks| && StartOf(p, a) == StartOf(p, b)
    ensures a == b
  {
    if a < b { StartsApart(p.blocks, |p.pre|, a, b); }
    if b < a { StartsApart(p.blocks, |p.pre|, b, a); }
  }

  /** The lines of the entry at i are it and the next n. */
  ghost predicate Parts(fm: seq<string>, i: nat, n: nat) {
    forall j: nat :: PartOf(fm, i, j) <==> i <= j <= i + n
  }

  /** The lines after line i are those of cont. */
  predicate Follows(fm: seq<string>, i: nat, cont: seq<string>) {
    i + |cont| < |fm| && forall q :: 0 <= q < |cont| ==> fm[i + 1 + q] == cont[q]
  }

  /** The lines of an entry are its key line and what continues it. */
  lemma PartsAre(p: Parsed, n: nat)
    requires GoodParsed(p) && n < |p.blocks|
    ensures Parts(Lines(p), StartOf(p, n), |p.blocks[n].cont|)
  {
    var i := StartOf(p, n);
    forall j: nat ensures PartOf(Lines(p), i, j) <==> i <= j <= i + |p.blocks[n].cont| { PartIs(p, n, j); }
  }

  lemma PartIs(p: Parsed, n: nat, j: nat)
    requires GoodParsed(p) && n < |p.blocks|
    ensures PartOf(Lines(p), StartOf(p, n), j) <==> StartOf(p, n) <= j <= StartOf(p, n) + |p.blocks[n].cont|
  {
    LineOfBlock(p, n);
    if j < |Lines(p)| {
      var n2, m2 := Where(p, j);
      if j >= |p.pre| && StartOf(p, n2) == StartOf(p, n) { StartsDiffer(p, n2, n); }
      if StartOf(p, n) <= j <= StartOf(p, n) + |p.blocks[n].cont| { Placed(p, j, n, j - StartOf(p, n)); }
    }
  }

  lemma ContAre(p: Parsed, n: nat)
    requires GoodParsed(p) && n < |p.blocks|
    ensures Follows(Lines(p), StartOf(p, n), p.blocks[n].cont)
  {
    var i, b := StartOf(p, n), p.blocks[n];
    LineOfBlock(p, n);
    assert Good(b);
    forall q | 0 <= q < |b.cont| ensures i + 1 + q < |Lines(p)| && Lines(p)[i + 1 + q] == b.cont[q] {
      assert Lines(p)[i + (1 + q)] == BlockLines(b)[1 + q];
      BlockLine(b, 1 + q);
    }
  }

  /** The key line of an entry. */
  lemma EntryOnLines(p: Parsed, n: nat)
    requires GoodParsed(p) && n < |p.blocks|
    ensures StartOf(p, n) < |Lines(p)| && Lines(p)[StartOf(p, n)] == p.blocks[n].line
    ensures KeyAt(Lines(p)[StartOf(p, n)], p.blocks[n].key, p.blocks[n].inline)
    ensures HeadAt(Lines(p), StartOf(p, n), p.blocks[n].key)
  {
    var b := p.blocks[n];
    LineOfBlock(p, n);
    assert Good(b) && Lines(p)[StartOf(p, n) + 0] == BlockLines(b)[0];
    KeyLineIs(b.line, b.key, b.inline);
  }

  lemma HangsIs(p: Parsed, n: nat)
    requires GoodParsed(p) && n < |p.blocks|
    ensures (exists j: nat :: HangsAfter(Lines(p), StartOf(p, n), j)) <==> Orphans(p.blocks[n])
  {
    if j: nat :| HangsAfter(Lines(p), StartOf(p, n), j) { HangingIsOrphan(p, n, j); }
    if Orphans(p.blocks[n]) { var j := OrphanHangs(p, n); }
  }

  lemma HangingIsOrphan(p: Parsed, n: nat, j: nat)
    requires GoodParsed(p) && n < |p.blocks| && HangsAfter(Lines(p), StartOf(p, n), j)
    ensures Orphans(p.blocks[n])
  {
    var b := p.blocks[n];
    LineOfBlock(p, n);
    assert Good(b);
    var n2, m2 := Where(p, j);
    StartsDiffer(p, n2, n);
    BlockLine(b, m2);
    GoesOnIs(Lines(p)[j]);
    assert Lines(p)[j] == BlockLines(b)[m2] && Lines(p)[j] in b.rest;
  }

  lemma OrphanHangs(p: Parsed, n: nat) returns (j: nat)
    requires GoodParsed(p) && n < |p.blocks| && Orphans(p.blocks[n])
    ensures HangsAfter(Lines(p), StartOf(p, n), j)
  {
    var b := p.blocks[n];
    var l :| l in b.rest && Continues(l);
    var q :| 0 <= q < |b.rest| && b.rest[q] == l;
    assert BlockLines(b)[1 + |b.cont| + q] == l;
    j := StartOf(p, n) + (1 + |b.cont| + q);
    LineHangs(p, n, 1 + |b.cont| + q);
  }

  lemma LineHangs(p: Parsed, n: nat, m: nat)
    requires GoodParsed(p) && n < |p.blocks| && |p.blocks[n].cont| < m < |BlockLines(p.blocks[n])|
    requires Continues(BlockLines(p.blocks[n])[m])
    ensures HangsAfter(Lines(p), StartOf(p, n), StartOf(p, n) + m)
  {
    LineOfBlock(p, n);
    Placed(p, StartOf(p, n) + m, n, m);
    GoesOnIs(BlockLines(p.blocks[n])[m]);
  }

  /** Every key line starts an entry of its key. */
  lemma HeadStarts(p: Parsed, i: nat, k: string) returns (n: nat)
    requires GoodParsed(p) && HeadAt(Lines(p), i, k)
    ensures n < |p.blocks| && StartOf(p, n) == i && p.blocks[n].key == k
  {
    var m: nat;
    n, m := Where(p, i);
    IsHeadIs(Lines(p)[i]);
    HeadsIs(Lines(p)[i], k);
    LineOfBlock(p, n);
    assert Good(p.blocks[n]) && Lines(p)[i] == BlockLines(p.blocks[n])[m];
  }

  // ----- What is refused -----

  ghost predicate Twice(fm: seq<string>, k: string) {
    exists i: nat, j: nat :: i < j && HeadAt(fm, i, k) && HeadAt(fm, j, k)
  }

  /** Lines of the entry at i besides its key line. */
  ghost predicate Spreads(fm: seq<string>, i: nat) { exists j: nat :: j != i && PartOf(fm, i, j) }

  /** Its value, at line i, cannot be replaced by one line: it is an anchor or a block scalar,
      or goes on over lines, or has lines that are no scalars of a list, or others hang after
      it. */
  ghost predicate Knotted(fm: seq<string>, i: nat, v: string) {
    || (v != "" && (v[0] == '&' || v[0] == '|' || v[0] == '>' || Spreads(fm, i)))
    || (v == "" && exists j: nat :: j != i && PartOf(fm, i, j) && !ScalarLine(fm[j]))
    || (exists j: nat :: HangsAfter(fm, i, j))
  }

  /** Its value, at line i, cannot be taken out: it is an anchor, or lines hang after it. */
  ghost predicate Anchored(fm: seq<string>, i: nat, v: string) {
    (v != "" && v[0] == '&') || exists j: nat :: HangsAfter(fm, i, j)
  }

  ghost predicate CannotSet(fm: seq<string>, k: string) {
    Twice(fm, k) || exists i: nat, v :: i < |fm| && KeyAt(fm[i], k, v) && Knotted(fm, i, v)
  }

  ghost predicate CannotRemove(fm: seq<string>, k: string) {
    Twice(fm, k) || exists i: nat, v :: i < |fm| && KeyAt(fm[i], k, v) && Anchored(fm, i, v)
  }

  lemma {:induction false} TwoEntries(bs: seq<Block>, k: string)
    ensures |ByKey(bs, k)| >= 1 <==> exists a :: 0 <= a < |bs| && bs[a].key == k
    ensures |ByKey(bs, k)| > 1 <==> exists a, b :: 0 <= a < b < |bs| && bs[a].key == k && bs[b].key == k
  {
    if bs != [] {
      var n := |bs| - 1;
      TwoEntries(bs[..n], k);
      if bs[n].key == k {
        if a :| 0 <= a < n && bs[..n][a].key == k { assert bs[a].key == k && bs[n].key == k; }
      }
      if a, b :| 0 <= a < b < |bs| && bs[a].key == k && bs[b].key == k {
        assert bs[..n][a].key == k;
        if b < n { assert bs[..n][b].key == k; }
      }
      if a :| 0 <= a < |bs| && bs[a].key == k { assert a < n ==> bs[..n][a].key == k; }
      if a :| 0 <= a < n && bs[..n][a].key == k { assert bs[a].key == k; }
      if a, b :| 0 <= a < b < n && bs[..n][a].key == k && bs[..n][b].key == k { assert bs[a].key == k && bs[b].key == k; }
    }
  }

  lemma TwiceIs(p: Parsed, k: string)
    requires GoodParsed(p)
    ensures |ByKey(p.blocks, k)| > 1 <==> Twice(Lines(p), k)
  {
    var fm := Lines(p);
    TwoEntries(p.blocks, k);
    if a, b :| 0 <= a < b < |p.blocks| && p.blocks[a].key == k && p.blocks[b].key == k {
      EntryOnLines(p, a);
      EntryOnLines(p, b);
      StartsApart(p.blocks, |p.pre|, a, b);
      assert HeadAt(fm, StartOf(p, a), k) && HeadAt(fm, StartOf(p, b), k);
    }
    if i: nat, j: nat :| i < j && HeadAt(fm, i, k) && HeadAt(fm, j, k) {
      var a := HeadStarts(p, i, k);
      var b := HeadStarts(p, j, k);
      assert a != b;
      if b < a { assert p.blocks[b].key == k && p.blocks[a].key == k; }
    }
  }

  lemma SpreadsIs(p: Parsed, n: nat)
    requires GoodParsed(p) && n < |p.blocks|
    ensures Spreads(Lines(p), StartOf(p, n)) <==> p.blocks[n].cont != []
  {
    PartsAre(p, n);
    if p.blocks[n].cont != [] { assert PartOf(Lines(p), StartOf(p, n), StartOf(p, n) + 1); }
  }

  lemma OddLinesIs(p: Parsed, n: nat)
    requires GoodParsed(p) && n < |p.blocks|
    ensures var fm, i := Lines(p), StartOf(p, n);
            (exists j: nat :: j != i && PartOf(fm, i, j) && !ScalarLine(fm[j]))
            <==> exists l :: l in p.blocks[n].cont && !PlainItem(l)
  {
    PartsAre(p, n);
    ContAre(p, n);
    OddLines(Lines(p), StartOf(p, n), p.blocks[n].cont);
  }

  lemma OddLines(fm: seq<string>, i: nat, cont: seq<string>)
    requires Parts(fm, i, |cont|) && Follows(fm, i, cont)
    ensures (exists j: nat :: j != i && PartOf(fm, i, j) && !ScalarLine(fm[j])) <==> exists l :: l in cont && !PlainItem(l)
  {
    if j: nat :| j != i && PartOf(fm, i, j) && !ScalarLine(fm[j]) {
      PlainIsScalar(fm[j]);
      assert fm[i + 1 + (j - i - 1)] == cont[j - i - 1];
    }
    if l :| l in cont && !PlainItem(l) {
      PlainIsScalar(l);
      var q :| 0 <= q < |cont| && cont[q] == l;
      assert PartOf(fm, i, i + 1 + q) && fm[i + 1 + q] == l;
    }
  }

  lemma KnottedIs(p: Parsed, n: nat)
    requires GoodParsed(p) && n < |p.blocks|
    ensures Knotted(Lines(p), StartOf(p, n), p.blocks[n].inline) <==> !Editable(p.blocks[n])
    ensures Anchored(Lines(p), StartOf(p, n), p.blocks[n].inline) <==> !Removable(p.blocks[n])
  {
    SpreadsIs(p, n);
    OddLinesIs(p, n);
    HangsIs(p, n);
  }

  /** A key line has one value. */
  lemma OneValue(l: string, k: string, v: string, w: string)
    requires KeyAt(l, k, v) && KeyAt(l, k, w)
    ensures v == w
  {
    KeyLineIs(l, k, v);
    KeyLineIs(l, k, w);
  }

  /** A line of key k with value v starts an entry of that key and value. */
  lemma ValueStarts(p: Parsed, i: nat, k: string, v: string) returns (n: nat)
    requires GoodParsed(p) && i < |Lines(p)| && KeyAt(Lines(p)[i], k, v)
    ensures n < |p.blocks| && StartOf(p, n) == i && p.blocks[n].key == k && p.blocks[n].inline == v
  {
    assert HeadAt(Lines(p), i, k);
    n := HeadStarts(p, i, k);
    EntryOnLines(p, n);
    OneValue(Lines(p)[i], k, v, p.blocks[n].inline);
  }

  lemma CannotSetIs(p: Parsed, k: string)
    requires GoodParsed(p)
    ensures TooComplex(p.blocks, k) <==> CannotSet(Lines(p), k)
  {
    var fm := Lines(p);
    TwiceIs(p, k);
    if b :| b in p.blocks && b.key == k && !Editable(b) {
      var n :| 0 <= n < |p.blocks| && p.blocks[n] == b;
      EntryOnLines(p, n);
      KnottedIs(p, n);
    }
    if i: nat, v :| i < |fm| && KeyAt(fm[i], k, v) && Knotted(fm, i, v) {
      var n := ValueStarts(p, i, k, v);
      KnottedIs(p, n);
    }
  }

  lemma CannotRemoveIs(p: Parsed, k: string)
    requires GoodParsed(p)
    ensures Stuck(p.blocks, k) <==> CannotRemove(Lines(p), k)
  {
    var fm := Lines(p);
    TwiceIs(p, k);
    if b :| b in p.blocks && b.key == k && !Removable(b) {
      var n :| 0 <= n < |p.blocks| && p.blocks[n] == b;
      EntryOnLines(p, n);
      KnottedIs(p, n);
    }
    if i: nat, v :| i < |fm| && KeyAt(fm[i], k, v) && Anchored(fm, i, v) {
      var n := ValueStarts(p, i, k, v);
      KnottedIs(p, n);
    }
  }
}
