/** Where the entries of a frontmatter are in the lines of the note, and the loop
    that finds them (internal/frontmatter/frontmatter.go, parseEntries). */
module FrontmatterSpans {
  import opened Text
  import opened Frontmatter
  import opened FrontmatterEdit

  /** An entry as the source keeps it: its lines are [start, end). */
  datatype Span = Span(key: string, start: nat, end: nat, inline: string, orphans: bool)

  /** The line the k-th entry starts on, when the first starts on from. */
  function Start(bs: seq<Block>, from: nat, k: nat): nat
    requires k <= |bs|
  {
    from + |BlocksLines(bs[..k])|
  }

  function SpanOf(b: Block, start: nat): Span { Span(b.key, start, start + 1 + |b.cont|, b.inline, Orphans(b)) }

  function Spans(bs: seq<Block>, from: nat): (r: seq<Span>)
    ensures |r| == |bs|
  {
    if bs == [] then []
    else Spans(bs[..|bs| - 1], from) + [SpanOf(bs[|bs| - 1], from + |BlocksLines(bs[..|bs| - 1])|)]
  }

  lemma {:induction false} SpanAt(bs: seq<Block>, from: nat, k: nat)
    requires k < |bs|
    ensures Spans(bs, from)[k] == SpanOf(bs[k], Start(bs, from, k))
  {
    if k < |bs| - 1 {
      SpanAt(bs[..|bs| - 1], from, k);
      assert bs[..|bs| - 1][..k] == bs[..k];
    }
  }

  lemma StartNext(bs: seq<Block>, from: nat, k: nat)
    requires k < |bs|
    ensures Start(bs, from, k + 1) == Start(bs, from, k) + |BlockLines(bs[k])|
  {
    assert bs[..k + 1] == bs[..k] + [bs[k]];
    BlocksSnoc(bs[..k], bs[k]);
  }

  lemma {:induction false} StartsApart(bs: seq<Block>, from: nat, j: nat, k: nat)
    requires j < k <= |bs|
    ensures Start(bs, from, j) + |BlockLines(bs[j])| <= Start(bs, from, k)
    decreases k
  {
    StartNext(bs, from, k - 1);
    if j < k - 1 { StartsApart(bs, from, j, k - 1); }
  }

  /** What the loop knows of the entry it is in: its number, none after a line that
      ends it. */
  predicate InEntry(p: Parsed, cur: Option<nat>) {
    cur == if p.blocks != [] && p.blocks[|p.blocks| - 1].rest == [] then Some(|p.blocks| - 1) else None
  }

  predicate LastEntry(p: Parsed, last: Option<nat>) {
    last == if p.blocks != [] then Some(|p.blocks| - 1) else None
  }

  lemma SpansSnoc(bs: seq<Block>, b: Block, from: nat)
    ensures Spans(bs + [b], from) == Spans(bs, from) + [SpanOf(b, from + |BlocksLines(bs)|)]
  {
    assert (bs + [b])[..|bs|] == bs;
  }

  lemma LongerSpan(b: Block, line: string, s: nat)
    ensures SpanOf(Longer(b, line), s)
            == if !Continues(line) then SpanOf(b, s)
               else if b.rest == [] then SpanOf(b, s).(end := SpanOf(b, s).end + 1)
               else SpanOf(b, s).(orphans := true)
  {
    var c := Longer(b, line);
    if b.rest != [] || !Continues(line) {
      assert c.rest == b.rest + [line] && line in c.rest;
      assert forall l :: l in c.rest <==> l in b.rest || l == line;
    }
  }

  /** What the loop has read so far: the entries, the one it is in, the last one. */
  predicate Tracks(p: Parsed, out: seq<Span>, cur: Option<nat>, last: Option<nat>) {
    out == Spans(p.blocks, 1 + |p.pre|) && InEntry(p, cur) && LastEntry(p, last)
  }

  function NewSpan(line: string, i: nat): Span { Span(KeyOf(line), i, i + 1, InlineOf(line), false) }

  lemma ReadKey(p: Parsed, line: string, i: nat, out: seq<Span>, cur: Option<nat>, last: Option<nat>)
    requires IsKey(line) && Tracks(p, out, cur, last) && i == 1 + |Lines(p)|
    ensures Tracks(Read(p, line), out + [NewSpan(line, i)], Some(|out|), Some(|out|))
  {
    SpansSnoc(p.blocks, KeyLine(line), 1 + |p.pre|);
  }

  lemma ReadOther(p: Parsed, line: string, out: seq<Span>, cur: Option<nat>, last: Option<nat>)
    requires !IsKey(line) && Tracks(p, out, cur, last)
    ensures last.Some? ==> last.value < |out|
    ensures cur.Some? ==> cur == last && out[cur.value].end == 1 + |Lines(p)|
    ensures if Continues(line) && cur.Some? then
              Tracks(Read(p, line), out[cur.value := out[cur.value].(end := out[cur.value].end + 1)], cur, last)
            else if Continues(line) && last.Some? then
              Tracks(Read(p, line), out[last.value := out[last.value].(orphans := true)], cur, last)
            else Tracks(Read(p, line), out, None, last)
  {
    if p.blocks != [] {
      var n := |p.blocks| - 1;
      var b := p.blocks[n];
      var before := p.blocks[..n];
      var s := 1 + |p.pre| + |BlocksLines(before)|;
      assert p.blocks == before + [b];
      SpansSnoc(before, b, 1 + |p.pre|);
      SpansSnoc(before, Longer(b, line), 1 + |p.pre|);
      BlocksSnoc(before, b);
      LongerSpan(b, line, s);
      assert Read(p, line) == p.(blocks := before + [Longer(b, line)]);
    }
  }

  lemma SliceSnoc(lines: seq<string>, i: nat)
    requires 1 <= i < |lines|
    ensures lines[1..i + 1] == lines[1..i] + [lines[i]]
  {
  }

  /** p is what is read in the lines before i. */
  ghost predicate Reads(lines: seq<string>, i: nat, p: Parsed) {
    1 <= i <= |lines| && GoodParsed(p) && Lines(p) == lines[1..i]
  }

  lemma ReadsNext(lines: seq<string>, i: nat, p: Parsed)
    requires Reads(lines, i, p) && i < |lines|
    ensures Reads(lines, i + 1, Read(p, lines[i])) && 1 + |Lines(p)| == i
  {
    SliceSnoc(lines, i);
    ReadLines(p, lines[i]);
  }

  ghost predicate At(lines: seq<string>, i: nat, p: Parsed, out: seq<Span>, cur: Option<nat>, last: Option<nat>) {
    Reads(lines, i, p) && Tracks(p, out, cur, last)
  }

  ghost predicate ReadTo(lines: seq<string>, i: nat, out: seq<Span>, cur: Option<nat>, last: Option<nat>) {
    exists p :: At(lines, i, p, out, cur, last)
  }

  lemma ReadToKey(lines: seq<string>, i: nat, out: seq<Span>, cur: Option<nat>, last: Option<nat>)
    requires ReadTo(lines, i, out, cur, last) && i < |lines| && IsKey(lines[i])
    ensures ReadTo(lines, i + 1, out + [NewSpan(lines[i], i)], Some(|out|), Some(|out|))
  {
    var p :| At(lines, i, p, out, cur, last);
    var q := NextKey(lines, i, p, out, cur, last);
  }

  lemma NextKey(lines: seq<string>, i: nat, p: Parsed, out: seq<Span>, cur: Option<nat>, last: Option<nat>)
    returns (q: Parsed)
    requires At(lines, i, p, out, cur, last) && i < |lines| && IsKey(lines[i])
    ensures At(lines, i + 1, q, out + [NewSpan(lines[i], i)], Some(|out|), Some(|out|))
  {
    ReadsNext(lines, i, p);
    ReadKey(p, lines[i], i, out, cur, last);
    q := Read(p, lines[i]);
  }

  lemma ReadToOther(lines: seq<string>, i: nat, out: seq<Span>, cur: Option<nat>, last: Option<nat>)
    requires ReadTo(lines, i, out, cur, last) && i < |lines| && !IsKey(lines[i])
    ensures last.Some? ==> last.value < |out|
    ensures cur.Some? ==> cur == last
    ensures if Continues(lines[i]) && cur.Some? then
              ReadTo(lines, i + 1, out[cur.value := out[cur.value].(end := i + 1)], cur, last)
            else if Continues(lines[i]) && last.Some? then
              ReadTo(lines, i + 1, out[last.value := out[last.value].(orphans := true)], cur, last)
            else ReadTo(lines, i + 1, out, None, last)
  {
    var p :| At(lines, i, p, out, cur, last);
    var q := NextOther(lines, i, p, out, cur, last);
  }

  lemma NextOther(lines: seq<string>, i: nat, p: Parsed, out: seq<Span>, cur: Option<nat>, last: Option<nat>)
    returns (q: Parsed)
    requires At(lines, i, p, out, cur, last) && i < |lines| && !IsKey(lines[i])
    ensures last.Some? ==> last.value < |out|
    ensures cur.Some? ==> cur == last
    ensures if Continues(lines[i]) && cur.Some? then
              At(lines, i + 1, q, out[cur.value := out[cur.value].(end := i + 1)], cur, last)
            else if Continues(lines[i]) && last.Some? then
              At(lines, i + 1, q, out[last.value := out[last.value].(orphans := true)], cur, last)
            else At(lines, i + 1, q, out, None, last)
  {
    ReadsNext(lines, i, p);
    ReadOther(p, lines[i], out, cur, last);
    q := Read(p, lines[i]);
  }

  lemma ReadAll(lines: seq<string>, i: nat, out: seq<Span>, cur: Option<nat>, last: Option<nat>)
    requires ReadTo(lines, i, out, cur, last)
    ensures 1 <= i <= |lines|
    ensures var p := Parse(lines[1..i]); out == Spans(p.blocks, 1 + |p.pre|)
  {
    var p :| At(lines, i, p, out, cur, last);
    ParseLines(p);
  }

  lemma ReadNothing(lines: seq<string>)
    requires lines != []
    ensures ReadTo(lines, 1, [], None, None)
  {
    var p := Parsed([], []);
    assert Lines(p) == lines[1..1];
    assert At(lines, 1, p, [], None, None);
  }

  method ParseEntries(lines: seq<string>, closing: nat) returns (out: seq<Span>)
    requires 1 <= closing <= |lines|
    ensures var p := Parse(lines[1..closing]);
            out == Spans(p.blocks, 1 + |p.pre|)
  {
    out := [];
    var cur: Option<nat>, last: Option<nat> := None, None;
    ReadNothing(lines);
    for i := 1 to closing
      invariant ReadTo(lines, i, out, cur, last)
    {
      var line := lines[i];
      if IsKey(line) {
        ReadToKey(lines, i, out, cur, last);
        cur := Some(|out|);
        last := cur;
        out := out + [NewSpan(line, i)];
      } else {
        ReadToOther(lines, i, out, cur, last);
        if Continues(line) && cur.Some? {
          out := out[cur.value := out[cur.value].(end := i + 1)];
        } else if Continues(line) && last.Some? {
          out := out[last.value := out[last.value].(orphans := true)];
        } else {
          cur := None;
        }
      }
    }
    ReadAll(lines, closing, out, cur, last);
  }
}
