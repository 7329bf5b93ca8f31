/** What the lines of a note are, without the functions that read them: headings, the
    lines that open and close a block of code, the last section of a heading, and the text
    of a section appended (internal/fleet/task.go, internal/parser/fences.go). */
module SectionsLines {
  import opened Text
  import opened Sections
  import opened SectionsRead

  /** n times the character c. */
  function Times(c: char, n: nat): (s: string)
    ensures |s| == n && forall i :: 0 <= i < n ==> s[i] == c
  {
    seq(n, i => c)
  }

  // ----- Headings -----

  /** An ATX heading of level n: one to six # and a space. */
  predicate IsHeading(line: string, n: nat) {
    1 <= n <= 6 && Times('#', n) + " " <= line
  }

  lemma HeadingStarts(line: string, n: nat)
    ensures IsHeading(line, n) <==>
              1 <= n <= 6 && n < |line| && line[n] == ' ' && forall i :: 0 <= i < n ==> line[i] == '#'
  {
    var h := Times('#', n) + " ";
    if n < |line| {
      if line[n] == ' ' && forall i :: 0 <= i < n ==> line[i] == '#' { assert line[..n + 1] == h; }
      if h <= line { assert forall i :: 0 <= i <= n ==> line[i] == h[i]; }
    }
  }

  lemma LevelIsHeading(line: string, n: nat)
    requires n > 0
    ensures HeadingLevel(line) == n <==> IsHeading(line, n)
  {
    HeadingStarts(line, n);
    if IsHeading(line, n) { HashesIs(line, 6, n); }
  }

  /** A heading two levels down, to the sixth at most, with its text; any other line is
      left. */
  lemma DemotedIs(line: string)
    ensures forall n: nat :: IsHeading(line, n) ==>
              Demoted(line) == Times('#', if n <= 4 then n + 2 else 6) + line[n..]
    ensures (forall n: nat :: !IsHeading(line, n)) ==> Demoted(line) == line
  {
    forall n: nat | IsHeading(line, n)
      ensures Demoted(line) == Times('#', if n <= 4 then n + 2 else 6) + line[n..]
    {
      LevelIsHeading(line, n);
      var m: nat := if n <= 4 then n + 2 else 6;
      assert Repeat(m) == Times('#', m);
    }
    if HeadingLevel(line) > 0 { LevelIsHeading(line, HeadingLevel(line)); }
  }

  // ----- Blocks of code -----

  predicate IsMark(c: char) { c == '`' || c == '~' }

  /** A line that opens a block with mark: three or more backticks or tildes, after blanks
      alone, and no more of them. */
  ghost predicate Opens(line: string, mark: string) {
    exists a: string, rest: string :: OpensWith(line, mark, a, rest)
  }

  predicate OpensWith(line: string, mark: string, a: string, rest: string) {
    && |mark| >= 3 && IsMark(mark[0]) && mark == Times(mark[0], |mark|)
    && Blank(a) && line == a + mark + rest && (rest != "" ==> rest[0] != mark[0])
  }

  /** A line that closes the block a mark opened: as many of its character or more, with
      blanks alone around them. */
  ghost predicate Closes(line: string, mark: string)
    requires mark != ""
  {
    exists a: string, m: nat, b: string :: ClosesWith(line, mark, a, m, b)
  }

  predicate ClosesWith(line: string, mark: string, a: string, m: nat, b: string)
    requires mark != ""
  {
    Blank(a) && Blank(b) && m >= |mark| && line == a + Times(mark[0], m) + b
  }

  lemma {:induction false} RunIs(s: string, c: char)
    ensures var n := RunFrom(s, c); (forall i :: 0 <= i < n ==> s[i] == c) && (n < |s| ==> s[n] != c)
  {
    if s != "" && s[0] == c { RunIs(s[1..], c); }
  }

  lemma {:induction false} RunOf(s: string, c: char, n: nat)
    requires n <= |s| && (forall i :: 0 <= i < n ==> s[i] == c) && (n < |s| ==> s[n] != c)
    ensures RunFrom(s, c) == n
  {
    if n > 0 { RunOf(s[1..], c, n - 1); }
  }

  /** What a trimmed line starts with, when it starts with a mark. */
  lemma RunStarts(mark: string, rest: string)
    requires |mark| >= 3 && IsMark(mark[0]) && mark == Times(mark[0], |mark|)
    requires rest != "" ==> rest[0] != mark[0]
    ensures FenceRun(mark + rest) == mark
  {
    var s := mark + rest;
    RunOf(s, mark[0], |mark|);
    assert s[..|mark|] == mark;
  }

  lemma RunSplits(s: string)
    requires FenceRun(s) != ""
    ensures var mark := FenceRun(s);
            && |mark| >= 3 && IsMark(mark[0]) && mark == Times(mark[0], |mark|) && mark <= s
            && (|mark| < |s| ==> s[|mark|] != mark[0])
  {
    RunIs(s, s[0]);
  }

  lemma MarkTrims(mark: string, rest: string)
    requires |mark| >= 3 && IsMark(mark[0]) && mark == Times(mark[0], |mark|)
    ensures Trimmed(mark + TrimRight(rest))
  {
    var b := RightIsBlank(rest);
    assert IsMark(mark[|mark| - 1]);
  }

  lemma OpenedIs(line: string, mark: string, a: string, rest: string)
    requires OpensWith(line, mark, a, rest)
    ensures FenceRun(TrimSpace(line)) == mark
  {
    var b := RightIsBlank(rest);
    MarkTrims(mark, rest);
    TrimIs(a, mark + TrimRight(rest), b);
    assert line == a + (mark + TrimRight(rest)) + b;
    RunStarts(mark, TrimRight(rest));
  }

  lemma RunOpens(line: string)
    requires FenceRun(TrimSpace(line)) != ""
    ensures Opens(line, FenceRun(TrimSpace(line)))
  {
    var t := TrimSpace(line);
    var mark := FenceRun(t);
    var a, b := TrimSplits(line);
    RunSplits(t);
    var rest := t[|mark|..] + b;
    assert t == mark + t[|mark|..];
    assert a + mark + rest == a + t + b;
    assert OpensWith(line, mark, a, rest);
  }

  lemma ClosedIs(line: string, mark: string, a: string, m: nat, b: string)
    requires |mark| >= 3 && IsMark(mark[0]) && ClosesWith(line, mark, a, m, b)
    ensures TrimSpace(line) == Times(mark[0], m) == FenceRun(TrimSpace(line))
  {
    var s := Times(mark[0], m);
    TrimIs(a, s, b);
    RunStarts(s, "");
    assert s + "" == s;
  }

  lemma BlankAll(s: string)
    requires TrimSpace(s) == ""
    ensures Blank(s)
  {
    var a, b := TrimSplits(s);
    assert s == a + b;
  }

  lemma RunCloses(line: string, mark: string)
    requires |mark| >= 3 && IsMark(mark[0])
    requires var t := TrimSpace(line); var run := FenceRun(t);
             run != "" && run[0] == mark[0] && |run| >= |mark| && TrimSpace(t[|run|..]) == ""
    ensures Closes(line, mark)
  {
    var t := TrimSpace(line);
    var run := FenceRun(t);
    var a, b := TrimSplits(line);
    RunSplits(t);
    assert t == run + t[|run|..];
    BlankAll(t[|run|..]);
    assert t[|run|..] == "";
    assert ClosesWith(line, mark, a, |run|, b);
  }

  /** Outside a block a line is code exactly when it opens one; inside, every line is, and
      the block goes on until a line closes it. */
  lemma CodeIs(open: string, line: string)
    requires open != "" ==> |open| >= 3 && IsMark(open[0])
    ensures open == "" ==>
              && (IsCode(open, line) <==> exists mark: string :: Opens(line, mark))
              && forall mark: string :: Opens(line, mark) <==> mark != "" && OpenAfter(open, line) == mark
    ensures open != "" ==> IsCode(open, line) && OpenAfter(open, line) == if Closes(line, open) then "" else open
    ensures var next := OpenAfter(open, line); next != "" ==> |next| >= 3 && IsMark(next[0])
  {
    var t := TrimSpace(line);
    if FenceRun(t) != "" {
      RunSplits(t);
      RunOpens(line);
    }
    forall mark: string | Opens(line, mark) ensures FenceRun(t) == mark != "" {
      var a: string, rest: string :| OpensWith(line, mark, a, rest);
      OpenedIs(line, mark, a, rest);
    }
    if open != "" {
      if Closes(line, open) {
        var a: string, m: nat, b: string :| ClosesWith(line, open, a, m, b);
        ClosedIs(line, open, a, m, b);
      } else if OpenAfter(open, line) == "" {
        RunCloses(line, open);
      }
    }
  }

  // ----- The last section of a heading -----

  /** The i-th line is in a block of code, or opens one. */
  predicate InCode(lines: seq<string>, i: nat)
    requires i < |lines|
  {
    IsCode(OpenAfterAll("", lines[..i]), lines[i])
  }

  /** The i-th line ends a section: a heading of level one or two outside code. */
  predicate Parts(lines: seq<string>, i: nat)
    requires i < |lines|
  {
    !InCode(lines, i) && (IsHeading(lines[i], 1) || IsHeading(lines[i], 2))
  }

  /** The i-th line is the heading of level two, outside code. */
  predicate Titles(lines: seq<string>, i: nat, heading: string)
    requires i < |lines|
  {
    !InCode(lines, i) && IsHeading(lines[i], 2) && TrimSpace(lines[i][2..]) == heading
  }

  /** Which lines are titles, and which end a section. */
  function TitleLines(lines: seq<string>, heading: string): (r: seq<bool>)
    ensures |r| == |lines| && forall i :: 0 <= i < |lines| ==> r[i] == Titles(lines, i, heading)
  {
    seq(|lines|, i requires 0 <= i < |lines| => Titles(lines, i, heading))
  }

  function PartLines(lines: seq<string>): (r: seq<bool>)
    ensures |r| == |lines| && forall i :: 0 <= i < |lines| ==> r[i] == Parts(lines, i)
  {
    seq(|lines|, i requires 0 <= i < |lines| => Parts(lines, i))
  }

  /** What is found before line n: the last title, and the first line after it that ends
      its section. */
  ghost predicate FoundIs(st: Scan, titles: seq<bool>, parts: seq<bool>, n: nat)
    requires n <= |titles| == |parts|
  {
    && (st.start.None? ==> st.end.None? && forall i :: 0 <= i < n ==> !titles[i])
    && (st.start.Some? ==>
          && st.start.value < n && titles[st.start.value]
          && (forall i :: st.start.value < i < n ==> !titles[i])
          && var end := if st.end.Some? then st.end.value else n;
          && st.start.value < end <= n && (forall i :: st.start.value < i < end ==> !parts[i])
          && (st.end.Some? ==> end < n && parts[end]))
  }

  /** What a line changes, by what it is. */
  predicate FoundStep(st: Scan, next: Scan, titles: bool, parts: bool, n: nat) {
    && next.start == (if titles then Some(n) else st.start)
    && next.end == if titles then None else if parts && st.start.Some? && st.end.None? then Some(n) else st.end
  }

  lemma FoundOn(st: Scan, next: Scan, titles: seq<bool>, parts: seq<bool>, n: nat)
    requires n < |titles| == |parts| && FoundIs(st, titles, parts, n)
    requires FoundStep(st, next, titles[n], parts[n], n)
    ensures FoundIs(next, titles, parts, n + 1)
  {
  }

  lemma FindCases(st: Scan, lines: seq<string>, n: nat, heading: string)
    requires n < |lines| && st.open == OpenAfterAll("", lines[..n])
    ensures FoundStep(st, Find(st, lines[n], n, heading), Titles(lines, n, heading), Parts(lines, n), n)
  {
    LevelIsHeading(lines[n], 1);
    LevelIsHeading(lines[n], 2);
  }

  lemma {:induction false} FoundToIs(lines: seq<string>, n: nat, heading: string)
    requires n <= |lines|
    ensures FoundIs(FindTo(lines, n, By(heading)), TitleLines(lines, heading), PartLines(lines), n)
  {
    if n > 0 {
      FoundToIs(lines, n - 1, heading);
      FindOpen(lines, n - 1, heading);
      var st := FindTo(lines, n - 1, By(heading));
      FindCases(st, lines, n - 1, heading);
      FoundOn(st, Find(st, lines[n - 1], n - 1, heading), TitleLines(lines, heading), PartLines(lines), n - 1);
    }
  }

  /** The last section of the heading has its title on line i and ends before line j. */
  ghost predicate IsSection(lines: seq<string>, heading: string, i: int, j: int) {
    && 0 <= i < j <= |lines| && Titles(lines, i, heading)
    && (forall k :: i < k < |lines| ==> !Titles(lines, k, heading))
    && (forall k :: i < k < j ==> !Parts(lines, k))
    && (j < |lines| ==> Parts(lines, j))
  }

  /** The section read is the text from after the last line outside code that is the
      heading, level two, up to the next heading of level one or two outside code, or to
      the end of the note; without such a line there is none. */
  lemma LastSectionIs(lines: seq<string>, heading: string)
    ensures (forall i :: 0 <= i < |lines| ==> !Titles(lines, i, heading)) ==> LastSection(lines, heading) == ""
    ensures forall i, j :: IsSection(lines, heading, i, j) ==>
              LastSection(lines, heading) == TrimSpace(JoinLines(lines[i + 1..j]))
  {
    FoundToIs(lines, |lines|, heading);
    FoundInLines(lines, heading);
    var st, titles, parts := FindAll(lines, heading), TitleLines(lines, heading), PartLines(lines);
    assert st.start.Some? ==> titles[st.start.value];
    forall i, j | IsSection(lines, heading, i, j)
      ensures LastSection(lines, heading) == TrimSpace(JoinLines(lines[i + 1..j]))
    {
      SectionAt(st, titles, parts, i, j);
    }
  }

  lemma SectionAt(st: Scan, titles: seq<bool>, parts: seq<bool>, i: int, j: int)
    requires |titles| == |parts| && FoundIs(st, titles, parts, |titles|) && 0 <= i < j <= |titles| && titles[i]
    requires (forall k :: i < k < |titles| ==> !titles[k]) && (forall k :: i < k < j ==> !parts[k])
    requires j < |titles| ==> parts[j]
    ensures st.start == Some(i) && j == if st.end.Some? then st.end.value else |titles|
  {
  }

  // ----- The text of an appended section -----

  lemma {:induction false} JoinThen(a: seq<string>, b: seq<string>)
    requires a != [] && b != []
    ensures JoinLines(a + b) == JoinLines(a) + "\n" + JoinLines(b)
  {
    JoinConcat(a, b, '\n');
  }

  /** A note with a section appended: what it was, an empty line, the heading after two
      marks, an empty line, the text with its headings demoted, and the end of the line. */
  lemma AppendedAsText(lines: seq<string>, heading: string, text: string)
    requires lines != []
    ensures JoinLines(Append(lines, heading, text))
            == JoinLines(TrimEmpty(lines)) + "\n"
               + ("\n## " + heading + "\n\n" + DemoteHeadings(TrimSpace(text)) + "\n")
    ensures TrimEmpty(lines) <= lines && forall i :: |TrimEmpty(lines)| <= i < |lines| ==> lines[i] == ""
    ensures |TrimEmpty(lines)| > 1 ==> TrimEmpty(lines)[|TrimEmpty(lines)| - 1] != ""
  {
    TrimmedEnd(lines);
    NoEmptyEnd(lines);
    var t := TrimEmpty(lines);
    var added := ["", HeadingLine(heading), ""] + TextLines(text) + [""];
    assert Append(lines, heading, text) == t + added;
    JoinThen(t, added);
    AddedAsText(heading, TextLines(text));
  }

  lemma {:induction false} NoEmptyEnd(lines: seq<string>)
    requires lines != []
    ensures |TrimEmpty(lines)| > 1 ==> TrimEmpty(lines)[|TrimEmpty(lines)| - 1] != ""
  {
    if |lines| > 1 && lines[|lines| - 1] == "" { NoEmptyEnd(lines[..|lines| - 1]); }
  }

  lemma AddedAsText(heading: string, body: seq<string>)
    requires body != []
    ensures JoinLines(["", HeadingLine(heading), ""] + body + [""])
            == "\n## " + heading + "\n\n" + JoinLines(body) + "\n"
  {
    var h := HeadingLine(heading);
    JoinLast(body);
    JoinFirst(body + [""]);
    var rest := [""] + (body + [""]);
    JoinThen([h], rest);
    assert JoinLines([h]) == h;
    JoinFirst([h] + rest);
    assert ["", h, ""] + body + [""] == [""] + ([h] + rest);
    var b := JoinLines(body);
    assert "\n" + ("## " + heading + "\n" + ("\n" + (b + "\n"))) == "\n## " + heading + "\n\n" + b + "\n";
  }
}
