/** SetKeys as it works on the lines of a note (internal/frontmatter/frontmatter.go,
    74-216): it marks the lines to replace and to drop, and writes the others. */
module FrontmatterLoop {
  import opened Text
  import opened Frontmatter
  import opened FrontmatterEdit
  import opened FrontmatterSet
  import opened FrontmatterSpans

  // ----- The lines marked -----

  function Range(lo: nat, hi: nat): (r: set<nat>)
    ensures forall i :: i in r <==> lo <= i < hi
    decreases hi - lo
  {
    if hi <= lo then {} else {lo} + Range(lo + 1, hi)
  }

  /** What is done with the lines of an entry. */
  datatype Mode = Keep | Replace(line: string) | Drop

  function ModeOf(key: string, writes: seq<Write>, unset: seq<string>, cr: string): Mode {
    if key in unset then Drop else if Names(writes, key) then Replace(LineFor(writes, key) + cr) else Keep
  }

  predicate Unmarked(drop: set<nat>, replace: map<nat, string>, lo: nat, hi: nat) {
    forall i :: lo <= i < hi ==> i !in drop && i !in replace
  }

  /** The lines of entry b, the first of them on s, are marked for mode. */
  predicate Marked(drop: set<nat>, replace: map<nat, string>, s: nat, b: Block, mode: Mode) {
    var rest := s + 1 + |b.cont|;
    && Unmarked(drop, replace, rest, s + |BlockLines(b)|)
    && match mode
       case Keep => Unmarked(drop, replace, s, rest)
       case Replace(l) => s !in drop && s in replace && replace[s] == l && forall i :: s < i < rest ==> i in drop
       case Drop => forall i :: s <= i < rest ==> i in drop
  }

  predicate AllMarked(
    bs: seq<Block>, from: nat, drop: set<nat>, replace: map<nat, string>, writes: seq<Write>, unset: seq<string>, cr: string)
  {
    forall k :: 0 <= k < |bs| ==> Marked(drop, replace, Start(bs, from, k), bs[k], ModeOf(bs[k].key, writes, unset, cr))
  }

  /** Only lines of entries are marked. */
  ghost predicate Within(drop: set<nat>, replace: map<nat, string>, from: nat, closing: nat) {
    forall i :: i in drop || i in replace ==> from <= i < closing
  }

  /** Marking the lines of one entry leaves those of another. */
  lemma MarkedStays(
    bs: seq<Block>, from: nat, drop: set<nat>, replace: map<nat, string>, drop2: set<nat>, replace2: map<nat, string>,
    k: nat, j: nat, mode: Mode)
    requires j < |bs| && k < |bs| && j != k
    requires Marked(drop, replace, Start(bs, from, j), bs[j], mode)
    requires forall i :: !(Start(bs, from, k) <= i < Start(bs, from, k) + |BlockLines(bs[k])|) ==>
               && (i in drop2 <==> i in drop) && (i in replace2 <==> i in replace)
               && (i in replace ==> replace2[i] == replace[i])
    ensures Marked(drop2, replace2, Start(bs, from, j), bs[j], mode)
  {
    if j < k { StartsApart(bs, from, j, k); } else { StartsApart(bs, from, k, j); }
  }

  /** A key set marks its one entry. */
  lemma MarkSet(
    bs: seq<Block>, from: nat, drop: set<nat>, replace: map<nat, string>, writes: seq<Write>, n: nat, cr: string, k: nat)
    returns (drop2: set<nat>, replace2: map<nat, string>)
    requires n < |writes| && k < |bs| && AllMarked(bs, from, drop, replace, writes[..n], [], cr)
    requires !Names(writes[..n], writes[n].key)
    requires forall j :: 0 <= j < |bs| ==> (bs[j].key == writes[n].key <==> j == k)
    ensures var e := SpanOf(bs[k], Start(bs, from, k));
            && drop2 == drop + Range(e.start + 1, e.end)
            && replace2 == replace[e.start := writes[n].line + cr]
    ensures AllMarked(bs, from, drop2, replace2, writes[..n + 1], [], cr)
  {
    var s := Start(bs, from, k);
    drop2 := drop + Range(s + 1, s + 1 + |bs[k].cont|);
    replace2 := replace[s := writes[n].line + cr];
    assert writes[..n + 1][..n] == writes[..n];
    forall j | 0 <= j < |bs|
      ensures Marked(drop2, replace2, Start(bs, from, j), bs[j], ModeOf(bs[j].key, writes[..n + 1], [], cr))
    {
      assert Marked(drop, replace, Start(bs, from, j), bs[j], ModeOf(bs[j].key, writes[..n], [], cr));
      if j != k { MarkedStays(bs, from, drop, replace, drop2, replace2, k, j, ModeOf(bs[j].key, writes[..n], [], cr)); }
    }
  }

  /** A key removed marks its one entry. */
  lemma MarkUnset(
    bs: seq<Block>, from: nat, drop: set<nat>, replace: map<nat, string>, writes: seq<Write>, unset: seq<string>, n: nat,
    cr: string, k: nat)
    returns (drop2: set<nat>)
    requires n < |unset| && k < |bs| && AllMarked(bs, from, drop, replace, writes, unset[..n], cr)
    requires !Names(writes, unset[n])
    requires forall j :: 0 <= j < |bs| ==> (bs[j].key == unset[n] <==> j == k)
    ensures var e := SpanOf(bs[k], Start(bs, from, k)); drop2 == drop + Range(e.start, e.end)
    ensures AllMarked(bs, from, drop2, replace, writes, unset[..n + 1], cr)
  {
    var s := Start(bs, from, k);
    drop2 := drop + Range(s, s + 1 + |bs[k].cont|);
    assert unset[..n + 1] == unset[..n] + [unset[n]];
    forall j | 0 <= j < |bs|
      ensures Marked(drop2, replace, Start(bs, from, j), bs[j], ModeOf(bs[j].key, writes, unset[..n + 1], cr))
    {
      assert Marked(drop, replace, Start(bs, from, j), bs[j], ModeOf(bs[j].key, writes, unset[..n], cr));
      if j != k { MarkedStays(bs, from, drop, replace, drop2, replace, k, j, ModeOf(bs[j].key, writes, unset[..n], cr)); }
    }
  }

  /** A key no entry has marks nothing. */
  lemma MarkNone(
    bs: seq<Block>, from: nat, drop: set<nat>, replace: map<nat, string>, writes: seq<Write>, n: nat, cr: string)
    requires n < |writes| && AllMarked(bs, from, drop, replace, writes[..n], [], cr)
    requires forall j :: 0 <= j < |bs| ==> bs[j].key != writes[n].key
    ensures AllMarked(bs, from, drop, replace, writes[..n + 1], [], cr)
  {
    assert writes[..n + 1][..n] == writes[..n];
    forall j | 0 <= j < |bs|
      ensures ModeOf(bs[j].key, writes[..n + 1], [], cr) == ModeOf(bs[j].key, writes[..n], [], cr)
    {
    }
  }

  lemma UnmarkNone(
    bs: seq<Block>, from: nat, drop: set<nat>, replace: map<nat, string>, writes: seq<Write>, unset: seq<string>, n: nat,
    cr: string)
    requires n < |unset| && AllMarked(bs, from, drop, replace, writes, unset[..n], cr)
    requires forall j :: 0 <= j < |bs| ==> bs[j].key != unset[n]
    ensures AllMarked(bs, from, drop, replace, writes, unset[..n + 1], cr)
  {
    assert unset[..n + 1] == unset[..n] + [unset[n]];
    forall j | 0 <= j < |bs|
      ensures ModeOf(bs[j].key, writes, unset[..n + 1], cr) == ModeOf(bs[j].key, writes, unset[..n], cr)
    {
    }
  }

  // ----- The lines written -----

  /** What is written of the lines from lo to hi. */
  function Emit(lines: seq<string>, drop: set<nat>, replace: map<nat, string>, lo: nat, hi: nat): seq<string>
    requires lo <= hi <= |lines|
  {
    if lo == hi then []
    else
      var i := hi - 1;
      Emit(lines, drop, replace, lo, i)
      + (if i in drop then [] else if i in replace then [replace[i]] else [lines[i]])
  }

  lemma {:induction false} EmitConcat(
    lines: seq<string>, drop: set<nat>, replace: map<nat, string>, lo: nat, mid: nat, hi: nat)
    requires lo <= mid <= hi <= |lines|
    ensures Emit(lines, drop, replace, lo, hi) == Emit(lines, drop, replace, lo, mid) + Emit(lines, drop, replace, mid, hi)
  {
    if mid < hi { EmitConcat(lines, drop, replace, lo, mid, hi - 1); }
  }

  lemma {:induction false} EmitKept(lines: seq<string>, drop: set<nat>, replace: map<nat, string>, lo: nat, hi: nat)
    requires lo <= hi <= |lines| && Unmarked(drop, replace, lo, hi)
    ensures Emit(lines, drop, replace, lo, hi) == lines[lo..hi]
  {
    if lo < hi {
      EmitKept(lines, drop, replace, lo, hi - 1);
      assert lines[lo..hi] == lines[lo..hi - 1] + [lines[hi - 1]];
    }
  }

  lemma {:induction false} EmitDropped(lines: seq<string>, drop: set<nat>, replace: map<nat, string>, lo: nat, hi: nat)
    requires lo <= hi <= |lines| && forall i :: lo <= i < hi ==> i in drop
    ensures Emit(lines, drop, replace, lo, hi) == []
  {
    if lo < hi { EmitDropped(lines, drop, replace, lo, hi - 1); }
  }

  function Written(b: Block, mode: Mode): seq<string> {
    match mode
    case Keep => BlockLines(b)
    case Replace(l) => [l] + b.rest
    case Drop => b.rest
  }

  /** The lines of b are those of the note from s on. */
  predicate LiesAt(lines: seq<string>, s: nat, b: Block) {
    var rest := s + 1 + |b.cont|;
    && s + |BlockLines(b)| <= |lines| && lines[s] == b.line
    && lines[s..rest] == [b.line] + b.cont && lines[rest..s + |BlockLines(b)|] == b.rest
  }

  lemma Lies(lines: seq<string>, s: nat, b: Block)
    requires s + |BlockLines(b)| <= |lines| && lines[s..s + |BlockLines(b)|] == BlockLines(b)
    ensures LiesAt(lines, s, b)
  {
    var got, n := lines[s..s + |BlockLines(b)|], 1 + |b.cont|;
    assert lines[s] == got[0];
    assert lines[s..s + n] == got[..n];
    assert lines[s + n..s + |BlockLines(b)|] == got[n..];
  }

  lemma EmitHead(lines: seq<string>, drop: set<nat>, replace: map<nat, string>, s: nat, b: Block, mode: Mode)
    requires LiesAt(lines, s, b) && Marked(drop, replace, s, b, mode)
    ensures Emit(lines, drop, replace, s, s + 1 + |b.cont|)
            == match mode case Keep => [b.line] + b.cont case Replace(l) => [l] case Drop => []
  {
    var rest := s + 1 + |b.cont|;
    match mode
    case Keep =>
      EmitKept(lines, drop, replace, s, rest);
    case Replace(l) =>
      EmitConcat(lines, drop, replace, s, s + 1, rest);
      EmitDropped(lines, drop, replace, s + 1, rest);
      EmitOne(lines, drop, replace, s);
    case Drop =>
      EmitDropped(lines, drop, replace, s, rest);
  }

  lemma EmitBlock(lines: seq<string>, drop: set<nat>, replace: map<nat, string>, s: nat, b: Block, mode: Mode)
    requires LiesAt(lines, s, b) && Marked(drop, replace, s, b, mode)
    ensures Emit(lines, drop, replace, s, s + |BlockLines(b)|) == Written(b, mode)
  {
    var rest, end := s + 1 + |b.cont|, s + |BlockLines(b)|;
    EmitHead(lines, drop, replace, s, b, mode);
    EmitConcat(lines, drop, replace, s, rest, end);
    EmitKept(lines, drop, replace, rest, end);
  }

  lemma EmitOne(lines: seq<string>, drop: set<nat>, replace: map<nat, string>, i: nat)
    requires i < |lines|
    ensures Emit(lines, drop, replace, i, i + 1)
            == if i in drop then [] else if i in replace then [replace[i]] else [lines[i]]
  {
    assert Emit(lines, drop, replace, i, i) == [];
  }

  /** What is written of entries. */
  function AllWritten(bs: seq<Block>, writes: seq<Write>, unset: seq<string>, cr: string): seq<string> {
    if bs == [] then []
    else
      var b := bs[|bs| - 1];
      AllWritten(bs[..|bs| - 1], writes, unset, cr) + Written(b, ModeOf(b.key, writes, unset, cr))
  }

  lemma {:induction false} BlockAt(bs: seq<Block>, k: nat)
    requires k < |bs|
    ensures var s := |BlocksLines(bs[..k])|;
            && s + |BlockLines(bs[k])| <= |BlocksLines(bs)|
            && BlocksLines(bs)[s..s + |BlockLines(bs[k])|] == BlockLines(bs[k])
  {
    if k < |bs| - 1 {
      BlockAt(bs[..|bs| - 1], k);
      assert bs[..|bs| - 1][..k] == bs[..k];
      SliceOfPrefix(BlocksLines(bs[..|bs| - 1]), BlockLines(bs[|bs| - 1]), |BlocksLines(bs[..k])|,
                    |BlocksLines(bs[..k])| + |BlockLines(bs[k])|);
    }
  }

  lemma SliceOfPrefix(a: seq<string>, b: seq<string>, lo: nat, hi: nat)
    requires lo <= hi <= |a|
    ensures (a + b)[lo..hi] == a[lo..hi]
  {
  }

  /** The note's lines hold the frontmatter p up to closing. */
  predicate Holds(lines: seq<string>, p: Parsed, closing: nat) {
    && 1 <= closing < |lines| && closing == 1 + |Lines(p)|
    && lines[1..closing] == Lines(p)
  }

  lemma HeldBlock(lines: seq<string>, p: Parsed, closing: nat, k: nat)
    requires Holds(lines, p, closing) && k < |p.blocks|
    ensures var s := Start(p.blocks, 1 + |p.pre|, k);
            s + |BlockLines(p.blocks[k])| <= closing && LiesAt(lines, s, p.blocks[k])
  {
    BlockAt(p.blocks, k);
    var a := |BlocksLines(p.blocks[..k])|;
    var b := a + |BlockLines(p.blocks[k])|;
    SliceOfRest(lines, closing, p.pre, BlocksLines(p.blocks), a, b);
    Lies(lines, 1 + |p.pre| + a, p.blocks[k]);
  }

  lemma SliceOfRest(lines: seq<string>, closing: nat, pre: seq<string>, rest: seq<string>, a: nat, b: nat)
    requires 1 <= closing <= |lines| && closing == 1 + |pre| + |rest| && lines[1..closing] == pre + rest && a <= b <= |rest|
    ensures lines[1 + |pre| + a..1 + |pre| + b] == rest[a..b]
  {
    forall i | a <= i < b ensures lines[1 + |pre| + i] == rest[i] {
      assert lines[1..closing][|pre| + i] == (pre + rest)[|pre| + i];
    }
  }

  lemma EmitHeld(lines: seq<string>, p: Parsed, closing: nat, drop: set<nat>, replace: map<nat, string>, k: nat, mode: Mode)
    requires Holds(lines, p, closing) && k < |p.blocks|
    requires Marked(drop, replace, Start(p.blocks, 1 + |p.pre|, k), p.blocks[k], mode)
    ensures var s, t := Start(p.blocks, 1 + |p.pre|, k), Start(p.blocks, 1 + |p.pre|, k + 1);
            s <= t <= closing && Emit(lines, drop, replace, s, t) == Written(p.blocks[k], mode)
  {
    HeldBlock(lines, p, closing, k);
    StartNext(p.blocks, 1 + |p.pre|, k);
    EmitBlock(lines, drop, replace, Start(p.blocks, 1 + |p.pre|, k), p.blocks[k], mode);
  }

  lemma {:induction false} EmitBlocks(
    lines: seq<string>, p: Parsed, closing: nat, drop: set<nat>, replace: map<nat, string>, writes: seq<Write>,
    unset: seq<string>, cr: string, k: nat)
    requires Holds(lines, p, closing) && k <= |p.blocks|
    requires AllMarked(p.blocks, 1 + |p.pre|, drop, replace, writes, unset, cr)
    ensures Start(p.blocks, 1 + |p.pre|, k) <= closing
    ensures Emit(lines, drop, replace, 1 + |p.pre|, Start(p.blocks, 1 + |p.pre|, k))
            == AllWritten(p.blocks[..k], writes, unset, cr)
  {
    var from := 1 + |p.pre|;
    if k > 0 {
      EmitBlocks(lines, p, closing, drop, replace, writes, unset, cr, k - 1);
      EmitHeld(lines, p, closing, drop, replace, k - 1, ModeOf(p.blocks[k - 1].key, writes, unset, cr));
      EmitConcat(lines, drop, replace, from, Start(p.blocks, from, k - 1), Start(p.blocks, from, k));
      assert p.blocks[..k][..k - 1] == p.blocks[..k - 1];
    }
  }

  lemma ExtendLines(q: Parsed, rest: seq<string>)
    ensures Lines(Extend(q, rest)) == Lines(q) + rest
  {
    if q.blocks != [] {
      var n := |q.blocks| - 1;
      var b := q.blocks[n];
      assert q.blocks == q.blocks[..n] + [b];
      BlocksSnoc(q.blocks[..n], b);
      BlocksSnoc(q.blocks[..n], b.(rest := b.rest + rest));
      Assoc([b.line] + b.cont, b.rest, rest);
      Assoc(BlocksLines(q.blocks[..n]), BlockLines(b), rest);
      Assoc(q.pre, BlocksLines(q.blocks), rest);
    }
  }

  lemma SnocLines(q: Parsed, b: Block)
    ensures Lines(q.(blocks := q.blocks + [b])) == Lines(q) + BlockLines(b)
  {
    BlocksSnoc(q.blocks, b);
    Assoc(q.pre, BlocksLines(q.blocks), BlockLines(b));
  }

  /** What is written of the entries is the edit of them. */
  lemma {:induction false} WrittenIsReplaced(pre: seq<string>, bs: seq<Block>, writes: seq<Write>, unset: seq<string>, cr: string)
    ensures Lines(Replaced(pre, bs, writes, unset, cr)) == pre + AllWritten(bs, writes, unset, cr)
  {
    if bs != [] {
      var n := |bs| - 1;
      var b := bs[n];
      WrittenIsReplaced(pre, bs[..n], writes, unset, cr);
      var q := Replaced(pre, bs[..n], writes, unset, cr);
      Assoc(pre, AllWritten(bs[..n], writes, unset, cr), Written(b, ModeOf(b.key, writes, unset, cr)));
      if b.key in unset { ExtendLines(q, b.rest); } else { SnocLines(q, Rewritten(b, writes, cr)); }
    }
  }

  // ----- The whole note -----

  /** Where the new entries go. */
  function InsertAt(bs: seq<Block>, from: nat, closing: nat, unset: seq<string>): nat {
    if BeforeTags(bs, unset) then Start(bs, from, |bs| - 1) else closing
  }

  lemma {:induction false} AddedLines(bs: seq<Block>, writes: seq<Write>, cr: string, n: nat)
    requires n < |writes|
    ensures BlocksLines(Added(bs, writes[..n + 1], cr))
            == BlocksLines(Added(bs, writes[..n], cr)) + (if ByKey(bs, writes[n].key) != [] then [] else [writes[n].line + cr])
  {
    assert writes[..n + 1][..n] == writes[..n];
    if ByKey(bs, writes[n].key) == [] {
      BlocksSnoc(Added(bs, writes[..n], cr), KeyLine(writes[n].line + cr));
    } else {
      assert Added(bs, writes[..n + 1], cr) == Added(bs, writes[..n], cr);
    }
  }

  lemma {:induction false} LinesConcat(a: seq<Block>, b: seq<Block>)
    ensures BlocksLines(a + b) == BlocksLines(a) + BlocksLines(b)
  {
    if b == [] {
      assert a + b == a;
    } else {
      var n := |b| - 1;
      assert (a + b)[..|a + b| - 1] == a + b[..n];
      LinesConcat(a, b[..n]);
      Assoc(BlocksLines(a), BlocksLines(b[..n]), BlockLines(b[n]));
    }
  }

  /** The lines of the edit, from those of its parts. */
  lemma EditedBefore(p: Parsed, writes: seq<Write>, unset: seq<string>, cr: string)
    requires BeforeTags(p.blocks, unset)
    ensures var n := |p.blocks| - 1;
            Lines(Edited(p, writes, unset, cr))
            == p.pre + AllWritten(p.blocks[..n], writes, unset, cr) + BlocksLines(Added(p.blocks, writes, cr))
               + Written(p.blocks[n], ModeOf(p.blocks[n].key, writes, unset, cr))
  {
    var n := |p.blocks| - 1;
    var q := Replaced(p.pre, p.blocks[..n], writes, unset, cr);
    WrittenIsReplaced(p.pre, p.blocks[..n], writes, unset, cr);
    InsertedBefore(q, Added(p.blocks, writes, cr), Rewritten(p.blocks[n], writes, cr));
  }

  lemma EditedAfter(p: Parsed, writes: seq<Write>, unset: seq<string>, cr: string)
    requires !BeforeTags(p.blocks, unset)
    ensures Lines(Edited(p, writes, unset, cr))
            == p.pre + AllWritten(p.blocks, writes, unset, cr) + BlocksLines(Added(p.blocks, writes, cr))
  {
    WrittenIsReplaced(p.pre, p.blocks, writes, unset, cr);
    InsertedAfter(Replaced(p.pre, p.blocks, writes, unset, cr), Added(p.blocks, writes, cr));
  }

  lemma InsertedAfter(q: Parsed, added: seq<Block>)
    ensures Lines(q.(blocks := Inserted(q.blocks, added, false))) == Lines(q) + BlocksLines(added)
  {
    LinesConcat(q.blocks, added);
    Assoc(q.pre, BlocksLines(q.blocks), BlocksLines(added));
  }

  lemma InsertedBefore(q: Parsed, added: seq<Block>, b: Block)
    ensures Lines(q.(blocks := Inserted(q.blocks + [b], added, true))) == Lines(q) + BlocksLines(added) + BlockLines(b)
  {
    assert Inserted(q.blocks + [b], added, true) == q.blocks + added + [b];
    LinesConcat(q.blocks, added);
    Assoc(q.pre, BlocksLines(q.blocks), BlocksLines(added));
    SnocLines(q.(blocks := q.blocks + added), b);
  }

  /** What the marked lines and the added ones give is the edit. */
  lemma EmittedIsEdited(
    lines: seq<string>, p: Parsed, closing: nat, drop: set<nat>, replace: map<nat, string>, writes: seq<Write>,
    unset: seq<string>, cr: string)
    requires Holds(lines, p, closing) && Within(drop, replace, 1 + |p.pre|, closing)
    requires AllMarked(p.blocks, 1 + |p.pre|, drop, replace, writes, unset, cr)
    ensures var at := InsertAt(p.blocks, 1 + |p.pre|, closing, unset);
            && 1 <= at <= closing
            && Emit(lines, drop, replace, 1, at) + BlocksLines(Added(p.blocks, writes, cr)) + Emit(lines, drop, replace, at, closing)
               == Lines(Edited(p, writes, unset, cr))
  {
    var from := 1 + |p.pre|;
    EmitPre(lines, p, closing, drop, replace);
    if BeforeTags(p.blocks, unset) {
      EditedBefore(p, writes, unset, cr);
      var n := |p.blocks| - 1;
      var b := p.blocks[n];
      var at := Start(p.blocks, from, n);
      EmitBlocks(lines, p, closing, drop, replace, writes, unset, cr, n);
      EmitConcat(lines, drop, replace, 1, from, at);
      EmitHeld(lines, p, closing, drop, replace, n, ModeOf(b.key, writes, unset, cr));
      LastStart(p, closing);
    } else {
      EditedAfter(p, writes, unset, cr);
      EmitBlocks(lines, p, closing, drop, replace, writes, unset, cr, |p.blocks|);
      LastStart(p, closing);
      EmitConcat(lines, drop, replace, 1, from, closing);
      assert p.blocks[..|p.blocks|] == p.blocks;
    }
  }

  lemma LastStart(p: Parsed, closing: nat)
    requires closing == 1 + |Lines(p)|
    ensures Start(p.blocks, 1 + |p.pre|, |p.blocks|) == closing
  {
    assert p.blocks[..|p.blocks|] == p.blocks;
  }

  lemma EmitPre(lines: seq<string>, p: Parsed, closing: nat, drop: set<nat>, replace: map<nat, string>)
    requires Holds(lines, p, closing) && Within(drop, replace, 1 + |p.pre|, closing)
    ensures 1 + |p.pre| <= closing && Emit(lines, drop, replace, 1, 1 + |p.pre|) == p.pre
  {
    EmitKept(lines, drop, replace, 1, 1 + |p.pre|);
    assert lines[1..1 + |p.pre|] == lines[1..closing][..|p.pre|];
  }
}
