/** The sections of a task's note (internal/fleet/task.go, AppendSection, LastSection,
    demoteHeadings, headingLevel; internal/parser/fences.go), on the lines of its body. */
module Sections {
  import opened Text

  // ----- Lines and text -----

  function SplitLines(s: string): (r: seq<string>)
    ensures r != []
  {
    Text.Split(s, '\n')
  }

  function JoinLines(lines: seq<string>): string { Text.Join(lines, '\n') }

  lemma {:induction false} JoinFirst(lines: seq<string>)
    requires lines != []
    ensures JoinLines([""] + lines) == "\n" + JoinLines(lines)
  {
    assert ([""] + lines)[1..] == lines;
  }

  lemma JoinLast(lines: seq<string>)
    requires lines != []
    ensures JoinLines(lines + [""]) == JoinLines(lines) + "\n"
  {
    JoinSnoc(lines, "", '\n');
  }

  lemma {:induction false} JoinEnds(lines: seq<string>)
    requires lines != [] && lines[0] != "" && lines[|lines| - 1] != ""
    ensures var s := JoinLines(lines); var last := lines[|lines| - 1];
            s != "" && s[0] == lines[0][0] && s[|s| - 1] == last[|last| - 1]
  {
    JoinEnd(lines);
  }

  lemma {:induction false} JoinEnd(lines: seq<string>)
    requires lines != [] && lines[|lines| - 1] != ""
    ensures var s := JoinLines(lines); var last := lines[|lines| - 1]; s != "" && s[|s| - 1] == last[|last| - 1]
  {
    if |lines| > 1 { JoinEnd(lines[1..]); }
  }

  // ----- Trimmed text -----

  lemma TrimSpaceTrims(s: string)
    ensures Trimmed(TrimSpace(s))
  {
    var a, b := TrimSplits(s);
  }

  lemma {:induction false} TrimLeftBefore(s: string)
    ensures TrimSpace("\n" + s) == TrimSpace(s)
  {
    assert ("\n" + s)[1..] == s;
  }

  lemma {:induction false} TrimLeftAfter(s: string)
    ensures TrimRight(TrimLeft(s + "\n")) == TrimRight(TrimLeft(s))
    decreases |s|
  {
    if s == "" {
      assert s + "\n" == "\n";
    } else if IsSpace(s[0]) {
      assert (s + "\n")[1..] == s[1..] + "\n";
      TrimLeftAfter(s[1..]);
    } else {
      assert (s + "\n")[..|s|] == s;
    }
  }

  /** Blank lines around a text are trimmed away. */
  lemma TrimBlank(lines: seq<string>)
    requires lines != []
    ensures TrimSpace(JoinLines([""] + lines)) == TrimSpace(JoinLines(lines))
    ensures TrimSpace(JoinLines(lines + [""])) == TrimSpace(JoinLines(lines))
  {
    JoinFirst(lines);
    TrimLeftBefore(JoinLines(lines));
    JoinLast(lines);
    TrimLeftAfter(JoinLines(lines));
  }

  // ----- Fences -----

  function RunFrom(s: string, c: char): (n: nat)
    ensures n <= |s|
  {
    if s != "" && s[0] == c then 1 + RunFrom(s[1..], c) else 0
  }

  /** fenceRun: the backticks or tildes a trimmed line starts with, three or more. */
  function FenceRun(s: string): string {
    if |s| < 3 || (s[0] != '`' && s[0] != '~') then ""
    else
      var n := RunFrom(s, s[0]);
      if n < 3 then "" else s[..n]
  }

  /** Fences.Code: the fence open after the line. */
  function OpenAfter(open: string, line: string): string {
    var trim := TrimSpace(line);
    var run := FenceRun(trim);
    if open == "" then run
    else if run != "" && run[0] == open[0] && |run| >= |open| && TrimSpace(trim[|run|..]) == "" then ""
    else open
  }

  /** Fences.Code: the line is a fence or inside a block. */
  predicate IsCode(open: string, line: string) { open != "" || FenceRun(TrimSpace(line)) != "" }

  function OpenAfterAll(open: string, lines: seq<string>): string {
    if lines == [] then open else OpenAfter(OpenAfterAll(open, lines[..|lines| - 1]), lines[|lines| - 1])
  }

  lemma {:induction false} OpenConcat(open: string, a: seq<string>, b: seq<string>)
    ensures OpenAfterAll(open, a + b) == OpenAfterAll(OpenAfterAll(open, a), b)
  {
    if b == [] {
      assert a + b == a;
    } else {
      assert (a + b)[..|a + b| - 1] == a + b[..|b| - 1];
      OpenConcat(open, a, b[..|b| - 1]);
    }
  }

  // ----- Headings -----

  function Hashes(line: string, max: nat): (n: nat)
    ensures n <= |line| && n <= max && forall i :: 0 <= i < n ==> line[i] == '#'
    ensures n < |line| && n < max ==> line[n] != '#'
  {
    if line != "" && max > 0 && line[0] == '#' then 1 + Hashes(line[1..], max - 1) else 0
  }

  function HeadingLevel(line: string): (n: nat)
    ensures n <= 6 && (n > 0 ==> n < |line| && line[n] == ' ' && line[0] == '#')
  {
    var n := Hashes(line, 6);
    if n == 0 || n >= |line| || line[n] != ' ' then 0 else n
  }

  method HeadingLevelLoop(line: string) returns (level: nat)
    ensures level == HeadingLevel(line)
  {
    var n := 0;
    while n < |line| && line[n] == '#' && n < 6
      invariant n <= |line| && n <= 6 && forall i :: 0 <= i < n ==> line[i] == '#'
    {
      n := n + 1;
    }
    HashesIs(line, 6, n);
    if n == 0 || n >= |line| || line[n] != ' ' { return 0; }
    return n;
  }

  lemma {:induction false} HashesIs(line: string, max: nat, n: nat)
    requires n <= |line| && n <= max && forall i :: 0 <= i < n ==> line[i] == '#'
    requires n == |line| || n == max || line[n] != '#'
    ensures Hashes(line, max) == n
  {
    if n > 0 { HashesIs(line[1..], max - 1, n - 1); }
  }

  function Repeat(n: nat): (s: string)
    ensures |s| == n && forall i :: 0 <= i < n ==> s[i] == '#'
  {
    seq(n, i => '#')
  }

  /** A line two levels down, when it is a heading. */
  function Demoted(line: string): string {
    var n := HeadingLevel(line);
    if n == 0 then line else Repeat(if n + 2 < 6 then n + 2 else 6) + line[n..]
  }

  /** A line as it is left, after lines that leave the fence open or none. */
  function DemotedAfter(open: string, line: string): string {
    if IsCode(open, line) then line else Demoted(line)
  }

  /** demoteHeadings, on lines. */
  function DemoteAll(lines: seq<string>): (r: seq<string>)
    ensures |r| == |lines|
  {
    if lines == [] then []
    else
      var n := |lines| - 1;
      DemoteAll(lines[..n]) + [DemotedAfter(OpenAfterAll("", lines[..n]), lines[n])]
  }

  function DemoteHeadings(text: string): string { JoinLines(DemoteAll(SplitLines(text))) }

  lemma DemoteNext(lines: seq<string>, i: nat)
    requires i < |lines|
    ensures DemoteAll(lines[..i + 1])
            == DemoteAll(lines[..i]) + [DemotedAfter(OpenAfterAll("", lines[..i]), lines[i])]
    ensures OpenAfterAll("", lines[..i + 1]) == OpenAfter(OpenAfterAll("", lines[..i]), lines[i])
  {
    assert lines[..i + 1][..i] == lines[..i];
  }

  /** The loop of demoteHeadings, in place. */
  method Demote(lines: array<string>)
    modifies lines
    ensures lines[..] == DemoteAll(old(lines[..]))
  {
    ghost var was := lines[..];
    var open := "";
    for i := 0 to lines.Length
      invariant open == OpenAfterAll("", was[..i])
      invariant lines[..i] == DemoteAll(was[..i])
      invariant forall k :: i <= k < lines.Length ==> lines[k] == was[k]
    {
      var line := lines[i];
      DemoteNext(was, i);
      var code := IsCode(open, line);
      if !code {
        lines[i] := Demoted(line);
      }
      assert lines[i] == DemotedAfter(open, line);
      open := OpenAfter(open, line);
      assert lines[..i + 1] == lines[..i] + [lines[i]];
    }
    assert was[..lines.Length] == was && lines[..lines.Length] == lines[..];
  }

  /** A heading that goes down stays a heading, of level three or more. */
  lemma DemotedLevel(line: string)
    ensures HeadingLevel(Demoted(line)) == 0 <==> HeadingLevel(line) == 0
    ensures HeadingLevel(Demoted(line)) == 0 || HeadingLevel(Demoted(line)) >= 3
    ensures line != "" ==> Demoted(line) != "" && (HeadingLevel(line) > 0 ==> Demoted(line)[0] == '#')
    ensures line != "" ==> Demoted(line)[|Demoted(line)| - 1] == line[|line| - 1]
  {
    var n := HeadingLevel(line);
    if n > 0 {
      var m := if n + 2 < 6 then n + 2 else 6;
      var d := Demoted(line);
      assert d[m] == line[n] == ' ';
      HashesIs(d, 6, m);
    }
  }

  /** Demoting a heading opens and closes no fence. */
  lemma HashIsNoFence(line: string)
    requires HeadingLevel(line) > 0
    ensures FenceRun(TrimSpace(line)) == ""
  {
    assert TrimLeft(line) == line;
    var b := RightIsBlank(line);
  }

  lemma DemotedFence(line: string)
    requires FenceRun(TrimSpace(line)) == ""
    ensures FenceRun(TrimSpace(Demoted(line))) == ""
  {
    if HeadingLevel(line) > 0 {
      DemotedLevel(line);
      HashIsNoFence(Demoted(line));
    }
  }

  /** The demoted text opens and closes the same fences, and outside code it has no
      heading of level one or two. */
  lemma {:induction false} DemotedText(lines: seq<string>)
    ensures OpenAfterAll("", DemoteAll(lines)) == OpenAfterAll("", lines)
    ensures forall i :: 0 <= i < |lines| ==> Deep(DemoteAll(lines), i)
  {
    if lines != [] {
      var n := |lines| - 1;
      DemotedText(lines[..n]);
      var d, e := DemoteAll(lines[..n]), DemoteAll(lines);
      var open := OpenAfterAll("", lines[..n]);
      assert e[..n] == d;
      DemotedLevel(lines[n]);
      if !IsCode(open, lines[n]) { DemotedFence(lines[n]); }
      forall i | 0 <= i < |lines| ensures Deep(e, i) {
        if i < n {
          assert Deep(d, i);
          assert e[..i] == d[..i];
        }
      }
    }
  }

  /** The i-th line is code, or no heading of level one or two. */
  predicate Deep(lines: seq<string>, i: nat)
    requires i < |lines|
  {
    IsCode(OpenAfterAll("", lines[..i]), lines[i]) || HeadingLevel(lines[i]) == 0 || HeadingLevel(lines[i]) >= 3
  }

  /** A text demoted is trimmed when the text is. */
  lemma DemotedTrimmed(text: string)
    requires Trimmed(text)
    ensures Trimmed(DemoteHeadings(text)) && TrimSpace(DemoteHeadings(text)) == DemoteHeadings(text)
  {
    if text == "" {
      assert DemoteAll([""]) == [""] by { assert [""][..0] == []; }
    } else {
      JoinSplit(text, '\n');
      SplitEnd(text, '\n');
      DemotedEnds(SplitLines(text));
    }
    TrimmedFixed(DemoteHeadings(text));
  }

  /** Demoting leaves the last character, and the first but for a #. */
  lemma DemotedEnds(lines: seq<string>)
    requires lines != [] && lines[0] != "" && lines[|lines| - 1] != ""
    ensures var s, t := JoinLines(lines), JoinLines(DemoteAll(lines));
            s != "" && t != "" && t[|t| - 1] == s[|s| - 1] && (t[0] == s[0] || t[0] == '#')
  {
    DemotedFirst(lines);
    DemotedLast(lines);
    JoinEnds(lines);
    JoinEnds(DemoteAll(lines));
  }

  lemma DemotedLast(lines: seq<string>)
    requires lines != [] && lines[|lines| - 1] != ""
    ensures var l, d := lines[|lines| - 1], DemoteAll(lines)[|lines| - 1]; d != "" && d[|d| - 1] == l[|l| - 1]
  {
    DemotedLevel(lines[|lines| - 1]);
  }

  lemma {:induction false} DemotedFirst(lines: seq<string>)
    requires lines != [] && lines[0] != ""
    ensures var d := DemoteAll(lines); d[0] != "" && (d[0][0] == lines[0][0] || d[0][0] == '#')
  {
    DemotedLevel(lines[0]);
    if |lines| > 1 {
      DemotedFirst(lines[..|lines| - 1]);
      assert DemoteAll(lines)[0] == DemoteAll(lines[..|lines| - 1])[0];
    }
  }

  lemma TrimmedFixed(s: string)
    requires Trimmed(s)
    ensures TrimSpace(s) == s
  {
  }
}
