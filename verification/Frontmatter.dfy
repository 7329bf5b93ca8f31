/** The frontmatter of a note as lines, read into the entries of its keys
    (internal/frontmatter/frontmatter.go, parseEntries). */
module Frontmatter {
  import opened Text

  // ----- Lines -----

  /** A line without the carriage returns at its end. */
  function Bare(line: string): string {
    if line != "" && line[|line| - 1] == '\r' then Bare(line[..|line| - 1]) else line
  }

  predicate KeyStart(c: char) { 'a' <= c <= 'z' || 'A' <= c <= 'Z' || c == '_' }

  predicate KeyChar(c: char) { KeyStart(c) || '0' <= c <= '9' || c == '-' }

  /** keyRe. */
  predicate ValidKey(k: string) {
    k != "" && KeyStart(k[0]) && forall i :: 0 <= i < |k| ==> KeyChar(k[i])
  }

  /** keyLineRe: the line names a key at its start, up to a colon. */
  predicate IsKey(line: string) {
    var b := Bare(line);
    var i := IndexOf(b, ':');
    i < |b| && ValidKey(b[..i])
  }

  function KeyOf(line: string): string {
    var b := Bare(line);
    b[..IndexOf(b, ':')]
  }

  /** The value on the key's line, trimmed. */
  function InlineOf(line: string): string {
    var b := Bare(line);
    var i := IndexOf(b, ':');
    if i < |b| then TrimSpace(b[i + 1..]) else ""
  }

  /** An indented line, or one of a block list. */
  predicate Continues(line: string) {
    var b := Bare(line);
    b != "" && (b[0] == ' ' || b[0] == '\t' || b[0] == '-')
  }

  predicate Contains(s: string, sub: string) {
    exists i :: 0 <= i <= |s| && sub <= s[i..]
  }

  /** An item of a block list whose value is a plain scalar. */
  predicate PlainItem(line: string) {
    var t := TrimSpace(Bare(line));
    && "- " <= t
    && (var item := TrimSpace(t[2..]);
        item != "" && item[0] !in "-[{|>&*!?" && !Contains(item, ": "))
  }

  lemma KeyDoesNotContinue(line: string)
    requires IsKey(line)
    ensures !Continues(line) && Bare(line) != "---"
  {
    var b := Bare(line);
    assert b[..IndexOf(b, ':')][0] == b[0];
  }

  // ----- Entries -----

  /** A key, the value on its line, the line, the lines that continue it, and the
      lines after them up to the next key: comments, blank lines, and lines that
      hang in the air. */
  datatype Block = Block(key: string, inline: string, line: string, cont: seq<string>, rest: seq<string>)

  function KeyLine(line: string): Block { Block(KeyOf(line), InlineOf(line), line, [], []) }

  /** A frontmatter: the lines before its first key, and its keys. */
  datatype Parsed = Parsed(pre: seq<string>, blocks: seq<Block>)

  predicate Good(b: Block) {
    && IsKey(b.line) && b.key == KeyOf(b.line) && b.inline == InlineOf(b.line)
    && (forall l :: l in b.cont ==> Continues(l))
    && (forall l :: l in b.rest ==> !IsKey(l))
    && (b.rest != [] ==> !Continues(b.rest[0]))
  }

  predicate GoodParsed(p: Parsed) {
    && (forall l :: l in p.pre ==> !IsKey(l))
    && (forall i :: 0 <= i < |p.blocks| ==> Good(p.blocks[i]))
  }

  /** The last entry with one more line. */
  function Longer(b: Block, line: string): Block {
    if Continues(line) && b.rest == [] then b.(cont := b.cont + [line]) else b.(rest := b.rest + [line])
  }

  /** One more line read. */
  function Read(p: Parsed, line: string): Parsed {
    if IsKey(line) then p.(blocks := p.blocks + [KeyLine(line)])
    else if p.blocks == [] then p.(pre := p.pre + [line])
    else
      var n := |p.blocks| - 1;
      p.(blocks := p.blocks[..n] + [Longer(p.blocks[n], line)])
  }

  function Parse(fm: seq<string>): Parsed {
    if fm == [] then Parsed([], []) else Read(Parse(fm[..|fm| - 1]), fm[|fm| - 1])
  }

  function BlockLines(b: Block): seq<string> { [b.line] + b.cont + b.rest }

  function BlocksLines(bs: seq<Block>): seq<string> {
    if bs == [] then [] else BlocksLines(bs[..|bs| - 1]) + BlockLines(bs[|bs| - 1])
  }

  function Lines(p: Parsed): seq<string> { p.pre + BlocksLines(p.blocks) }

  lemma {:induction false} ParseGood(fm: seq<string>)
    ensures GoodParsed(Parse(fm)) && Lines(Parse(fm)) == fm
  {
    if fm != [] {
      var before, line := fm[..|fm| - 1], fm[|fm| - 1];
      ParseGood(before);
      assert fm == before + [line];
      assert Parse(fm) == Read(Parse(before), line);
      ReadLines(Parse(before), line);
    }
  }

  lemma BlocksSnoc(bs: seq<Block>, b: Block)
    ensures BlocksLines(bs + [b]) == BlocksLines(bs) + BlockLines(b)
  {
    assert (bs + [b])[..|bs|] == bs;
  }

  lemma Assoc(a: seq<string>, b: seq<string>, c: seq<string>)
    ensures (a + b) + c == a + (b + c)
  {
  }

  lemma LongerIs(b: Block, line: string)
    requires Good(b) && !IsKey(line)
    ensures Good(Longer(b, line)) && BlockLines(Longer(b, line)) == BlockLines(b) + [line]
  {
    Assoc([b.line] + b.cont, b.rest, [line]);
    Assoc([b.line], b.cont, [line]);
  }

  lemma ReadLines(p: Parsed, line: string)
    requires GoodParsed(p)
    ensures GoodParsed(Read(p, line)) && Lines(Read(p, line)) == Lines(p) + [line]
  {
    if IsKey(line) {
      BlocksSnoc(p.blocks, KeyLine(line));
      Assoc(p.pre, BlocksLines(p.blocks), [line]);
    } else if p.blocks != [] {
      LongerLines(p, line);
    }
  }

  lemma LongerLines(p: Parsed, line: string)
    requires GoodParsed(p) && p.blocks != [] && !IsKey(line)
    ensures GoodParsed(Read(p, line)) && Lines(Read(p, line)) == Lines(p) + [line]
  {
    var before, b := p.blocks[..|p.blocks| - 1], p.blocks[|p.blocks| - 1];
    assert p.blocks == before + [b];
    assert Good(b);
    LongerIs(b, line);
    LinesSnoc(p.pre, before, b);
    LinesSnoc(p.pre, before, Longer(b, line));
    var x := p.pre + BlocksLines(before);
    assert Lines(p) == x + BlockLines(b);
    Assoc(x, BlockLines(b), [line]);
    LongerGood(p.blocks, before, Longer(b, line));
  }

  lemma LongerGood(bs: seq<Block>, before: seq<Block>, b: Block)
    requires (forall i :: 0 <= i < |bs| ==> Good(bs[i])) && before <= bs && Good(b)
    ensures forall i :: 0 <= i < |before + [b]| ==> Good((before + [b])[i])
  {
  }

  lemma LinesSnoc(pre: seq<string>, bs: seq<Block>, b: Block)
    ensures Lines(Parsed(pre, bs + [b])) == pre + BlocksLines(bs) + BlockLines(b)
  {
    BlocksSnoc(bs, b);
    Assoc(pre, BlocksLines(bs), BlockLines(b));
  }

  /** The last line, taken off again. */
  lemma Unread(p: Parsed) returns (q: Parsed, line: string)
    requires GoodParsed(p) && Lines(p) != []
    ensures GoodParsed(q) && Read(q, line) == p
  {
    if p.blocks == [] {
      var n := |p.pre| - 1;
      q, line := p.(pre := p.pre[..n]), p.pre[n];
      assert p.pre == p.pre[..n] + [line];
    } else {
      var n := |p.blocks| - 1;
      var b := p.blocks[n];
      assert Good(b);
      assert p.blocks == p.blocks[..n] + [b];
      if b.cont == [] && b.rest == [] {
        q, line := p.(blocks := p.blocks[..n]), b.line;
      } else {
        var c: Block;
        c, line := Shorter(b);
        q := p.(blocks := p.blocks[..n] + [c]);
      }
    }
  }

  lemma Shorter(b: Block) returns (c: Block, line: string)
    requires Good(b) && (b.cont != [] || b.rest != [])
    ensures Good(c) && !IsKey(line) && Longer(c, line) == b
  {
    if b.rest != [] {
      var n := |b.rest| - 1;
      c, line := b.(rest := b.rest[..n]), b.rest[n];
      assert b.rest == b.rest[..n] + [line] && line in b.rest;
    } else {
      var n := |b.cont| - 1;
      c, line := b.(cont := b.cont[..n]), b.cont[n];
      assert b.cont == b.cont[..n] + [line] && line in b.cont;
      if IsKey(line) { KeyDoesNotContinue(line); }
    }
  }

  /** Reading the lines of a good frontmatter gives it back. */
  lemma {:induction false} ParseLines(p: Parsed)
    requires GoodParsed(p)
    ensures Parse(Lines(p)) == p
    decreases |Lines(p)|
  {
    if Lines(p) == [] {
      assert p.blocks == [];
    } else {
      var q, line := Unread(p);
      ReadLines(q, line);
      ParseLines(q);
      assert (Lines(q) + [line])[..|Lines(q)|] == Lines(q);
    }
  }
}
