/** A section added at the end of a task's note is the one read back
    (internal/fleet/task.go, AppendSection, LastSection). */
module SectionsRead {
  import opened Text
  import opened Sections

  // ----- LastSection -----

  /** What the loop knows: the fence open, where the last section starts, and where it
      ends (None for the end of the note). */
  datatype Scan = Scan(open: string, start: Option<nat>, end: Option<nat>)

  const NOTHING := Scan("", None, None)

  function Find(st: Scan, line: string, i: nat, heading: string): Scan {
    var next := st.(open := OpenAfter(st.open, line));
    var n := HeadingLevel(line);
    if IsCode(st.open, line) || n == 0 || n > 2 then next
    else if n == 2 && TrimSpace(line[n..]) == heading then next.(start := Some(i), end := None)
    else if st.start.Some? && st.end.None? then next.(end := Some(i))
    else next
  }

  /** The loop's body, for a heading. */
  function By(heading: string): (Scan, string, nat) -> Scan {
    (st: Scan, line: string, i: nat) => Find(st, line, i, heading)
  }

  /** What the loop knows before line n, when f is its body. */
  function FindTo(lines: seq<string>, n: nat, f: (Scan, string, nat) -> Scan): Scan
    requires n <= |lines|
  {
    if n == 0 then NOTHING else f(FindTo(lines, n - 1, f), lines[n - 1], n - 1)
  }

  function FindAll(lines: seq<string>, heading: string): Scan { FindTo(lines, |lines|, By(heading)) }

  /** The section found: its line and the line it ends before. */
  predicate InLines(st: Scan, lines: seq<string>) {
    st.start.Some? ==>
      && st.start.value < |lines| && lines[st.start.value] != ""
      && (st.end.Some? ==> st.start.value < st.end.value < |lines| && lines[st.end.value] != "")
  }

  /** What is found before line n is in the lines before it. */
  predicate Before(st: Scan, lines: seq<string>, n: nat) {
    && InLines(st, lines) && (st.start.Some? ==> st.start.value < n)
    && (st.end.Some? ==> st.start.Some?)
  }

  lemma FindNext(st: Scan, lines: seq<string>, n: nat, heading: string)
    requires n < |lines| && Before(st, lines, n)
    ensures Before(Find(st, lines[n], n, heading), lines, n + 1)
  {
  }

  lemma {:induction false} FoundBefore(lines: seq<string>, n: nat, heading: string)
    requires n <= |lines|
    ensures Before(FindTo(lines, n, By(heading)), lines, n)
  {
    if n > 0 {
      FoundBefore(lines, n - 1, heading);
      FindNext(FindTo(lines, n - 1, By(heading)), lines, n - 1, heading);
    }
  }

  lemma FoundInLines(lines: seq<string>, heading: string)
    ensures InLines(FindAll(lines, heading), lines)
  {
    FoundBefore(lines, |lines|, heading);
  }

  lemma FoundEnd(lines: seq<string>, n: nat, heading: string)
    requires n <= |lines|
    ensures var st := FindTo(lines, n, By(heading)); st.end.Some? ==> st.start.Some? && st.end.value < |lines|
  {
    FoundBefore(lines, n, heading);
  }

  function EndOf(st: Scan, lines: seq<string>): nat { if st.end.Some? then st.end.value else |lines| }

  function SectionOf(st: Scan, lines: seq<string>): string
    requires InLines(st, lines)
  {
    if st.start.None? then "" else TrimSpace(JoinLines(lines[st.start.value + 1..EndOf(st, lines)]))
  }

  function LastSection(lines: seq<string>, heading: string): string {
    FoundInLines(lines, heading);
    SectionOf(FindAll(lines, heading), lines)
  }

  /** What the loop holds before line i: start is -1 for none, end |lines| for the end of
      the note. */
  ghost predicate LoopAt(lines: seq<string>, i: nat, heading: string, open: string, start: int, end: int)
    requires i <= |lines|
  {
    var st := FindTo(lines, i, By(heading));
    && st.open == open && end == EndOf(st, lines)
    && start == (if st.start.Some? then st.start.value else -1)
  }

  lemma LoopNext(lines: seq<string>, i: nat, heading: string, open: string, start: int, end: int)
    requires i < |lines| && LoopAt(lines, i, heading, open, start, end)
    ensures var line, n, next := lines[i], HeadingLevel(lines[i]), OpenAfter(open, lines[i]);
            if IsCode(open, line) || n == 0 || n > 2 then LoopAt(lines, i + 1, heading, next, start, end)
            else if n == 2 && TrimSpace(line[n..]) == heading then LoopAt(lines, i + 1, heading, next, i, |lines|)
            else if start >= 0 && end == |lines| then LoopAt(lines, i + 1, heading, next, start, i)
            else LoopAt(lines, i + 1, heading, next, start, end)
  {
    FoundEnd(lines, i, heading);
  }

  /** The loop of LastSection. */
  method LastSectionLoop(lines: seq<string>, heading: string) returns (text: string)
    ensures text == LastSection(lines, heading)
  {
    var open, start, end := "", -1, |lines|;
    for i := 0 to |lines|
      invariant LoopAt(lines, i, heading, open, start, end)
    {
      LoopNext(lines, i, heading, open, start, end);
      var line := lines[i];
      var code := IsCode(open, line);
      open := OpenAfter(open, line);
      if !code {
        var n := HeadingLevelLoop(line);
        if n != 0 && n <= 2 {
          if n == 2 && TrimSpace(line[n..]) == heading {
            start, end := i, |lines|;
          } else if start >= 0 && end == |lines| {
            end := i;
          }
        }
      }
    }
    FoundInLines(lines, heading);
    if start < 0 { return ""; }
    return TrimSpace(JoinLines(lines[start + 1..end]));
  }

  /** What the loop knows depends on the lines before alone. */
  lemma {:induction false} FindSame(a: seq<string>, b: seq<string>, n: nat, f: (Scan, string, nat) -> Scan)
    requires n <= |a| && n <= |b| && forall i :: 0 <= i < n ==> a[i] == b[i]
    ensures FindTo(a, n, f) == FindTo(b, n, f)
  {
    if n > 0 { FindSame(a, b, n - 1, f); }
  }

  /** An empty line changes nothing. */
  ghost predicate SkipsEmpty(f: (Scan, string, nat) -> Scan) { forall st: Scan, i: nat :: f(st, "", i) == st }

  lemma FindEmpty(heading: string)
    ensures SkipsEmpty(By(heading))
  {
    forall st: Scan, i: nat ensures By(heading)(st, "", i) == st {}
  }

  lemma {:induction false} FindBlank(lines: seq<string>, m: nat, n: nat, f: (Scan, string, nat) -> Scan)
    requires m <= n <= |lines| && SkipsEmpty(f) && forall i :: m <= i < n ==> lines[i] == ""
    ensures FindTo(lines, n, f) == FindTo(lines, m, f)
  {
    if m < n { FindBlank(lines, m, n - 1, f); }
  }

  lemma {:induction false} FindOpen(lines: seq<string>, n: nat, heading: string)
    requires n <= |lines|
    ensures FindTo(lines, n, By(heading)).open == OpenAfterAll("", lines[..n])
  {
    if n > 0 {
      FindOpen(lines, n - 1, heading);
      assert lines[..n][..n - 1] == lines[..n - 1];
    }
  }

  lemma FindAllOpen(lines: seq<string>, heading: string)
    ensures FindAll(lines, heading).open == OpenAfterAll("", lines)
  {
    FindOpen(lines, |lines|, heading);
    assert lines[..|lines|] == lines;
  }

  // ----- AppendSection -----

  /** bytes.TrimRight(content, "\n"). */
  function TrimEmpty(lines: seq<string>): seq<string> {
    if |lines| > 1 && lines[|lines| - 1] == "" then TrimEmpty(lines[..|lines| - 1]) else lines
  }

  function TextLines(text: string): seq<string> { DemoteAll(SplitLines(TrimSpace(text))) }

  function HeadingLine(heading: string): string { "## " + heading }

  function Append(lines: seq<string>, heading: string, text: string): seq<string> {
    TrimEmpty(lines) + ["", HeadingLine(heading), ""] + TextLines(text) + [""]
  }

  /** The line the section appended starts on. */
  function AppendedAt(lines: seq<string>): nat { |TrimEmpty(lines)| + 1 }

  /** What comes before is only trimmed of empty lines at its end. */
  lemma {:induction false} TrimmedEnd(lines: seq<string>)
    requires lines != []
    ensures TrimEmpty(lines) != [] && TrimEmpty(lines) <= lines
    ensures forall i :: |TrimEmpty(lines)| <= i < |lines| ==> lines[i] == ""
  {
    if |lines| > 1 && lines[|lines| - 1] == "" { TrimmedEnd(lines[..|lines| - 1]); }
  }

  /** The lines of the note before the section, read where it was appended. */
  lemma FindBefore(lines: seq<string>, out: seq<string>, heading: string)
    requires lines != [] && TrimEmpty(lines) <= out
    ensures FindTo(out, |TrimEmpty(lines)|, By(heading)) == FindAll(lines, heading)
  {
    TrimmedEnd(lines);
    FindEmpty(heading);
    FindSame(out, lines, |TrimEmpty(lines)|, By(heading));
    FindBlank(lines, |TrimEmpty(lines)|, |lines|, By(heading));
  }

  /** The i-th line of body, read after those before it, changes only the fence. */
  ghost predicate Plain(f: (Scan, string, nat) -> Scan, body: seq<string>, i: nat)
    requires i < |body|
  {
    forall st: Scan, at: nat | st.open == OpenAfterAll("", body[..i]) ::
      f(st, body[i], at) == st.(open := OpenAfterAll("", body[..i + 1]))
  }

  lemma DeepIsPlain(body: seq<string>, i: nat, heading: string)
    requires i < |body| && Deep(body, i)
    ensures Plain(By(heading), body, i)
  {
    assert body[..i + 1][..i] == body[..i];
  }

  /** Reading lines with no heading of level one or two outside code finds nothing. */
  lemma {:induction false} FindNone(
    lines: seq<string>, at: nat, body: seq<string>, n: nat, f: (Scan, string, nat) -> Scan)
    requires n <= |body| && at + |body| <= |lines| && forall i :: 0 <= i < |body| ==> lines[at + i] == body[i]
    requires FindTo(lines, at, f).open == "" && forall i :: 0 <= i < |body| ==> Plain(f, body, i)
    ensures FindTo(lines, at + n, f) == FindTo(lines, at, f).(open := OpenAfterAll("", body[..n]))
  {
    if n > 0 {
      FindNone(lines, at, body, n - 1, f);
      assert Plain(f, body, n - 1);
      assert lines[at + (n - 1)] == body[n - 1];
    }
  }

  lemma HeadingIs(heading: string)
    ensures HeadingLevel(HeadingLine(heading)) == 2 && FenceRun(TrimSpace(HeadingLine(heading))) == ""
    ensures TrimSpace(HeadingLine(heading)[2..]) == TrimSpace(heading)
  {
    var l := HeadingLine(heading);
    HashesIs(l, 6, 2);
    HashIsNoFence(l);
    assert l[2..] == " " + heading;
    assert (" " + heading)[1..] == heading;
  }

  /** What reading finds after a section with another heading. */
  function Passed(st: Scan, at: nat): Scan { if st.start.Some? && st.end.None? then st.(end := Some(at)) else st }

  /** What reading finds after a section was appended to a note with no open fence. */
  lemma AppendedScan(lines: seq<string>, h: string, text: string, heading: string)
    requires lines != [] && OpenAfterAll("", lines) == ""
    ensures var st, open := FindAll(lines, heading), OpenAfterAll("", SplitLines(TrimSpace(text)));
            FindAll(Append(lines, h, text), heading)
            == if TrimSpace(h) == heading then Scan(open, Some(AppendedAt(lines)), None)
               else Passed(st, AppendedAt(lines)).(open := open)
  {
    AppendedLines(lines, h, text);
    TextIsPlain(SplitLines(TrimSpace(text)), heading);
    SectionScan(lines, Append(lines, h, text), h, TextLines(text), heading);
  }

  /** out is lines, trimmed, and a section with heading h and lines body. */
  predicate Appended(lines: seq<string>, out: seq<string>, h: string, body: seq<string>) {
    var n := AppendedAt(lines);
    && |out| == n + 2 + |body| + 1 && TrimEmpty(lines) <= out
    && out[n - 1] == "" && out[n] == HeadingLine(h) && out[n + 1] == "" && out[|out| - 1] == ""
    && forall i :: 0 <= i < |body| ==> out[n + 2 + i] == body[i]
  }

  lemma SectionScan(lines: seq<string>, out: seq<string>, h: string, body: seq<string>, heading: string)
    requires lines != [] && OpenAfterAll("", lines) == "" && Appended(lines, out, h, body)
    requires forall i :: 0 <= i < |body| ==> Plain(By(heading), body, i)
    ensures var st, open := FindAll(lines, heading), OpenAfterAll("", body);
            FindAll(out, heading)
            == if TrimSpace(h) == heading then Scan(open, Some(AppendedAt(lines)), None)
               else Passed(st, AppendedAt(lines)).(open := open)
  {
    var n, f := AppendedAt(lines), By(heading);
    FindBefore(lines, out, heading);
    FindAllOpen(lines, heading);
    FindEmpty(heading);
    LineScan(FindAll(lines, heading), n, h, heading);
    PartsScan(out, n, HeadingLine(h), body, f);
  }

  lemma LineScan(st: Scan, n: nat, h: string, heading: string)
    requires st.open == ""
    ensures By(heading)(st, HeadingLine(h), n)
            == if TrimSpace(h) == heading then Scan("", Some(n), None) else Passed(st, n)
    ensures By(heading)(st, HeadingLine(h), n).open == ""
  {
    HeadingFound(st, n, h, heading);
  }

  lemma TextIsPlain(lines: seq<string>, heading: string)
    ensures forall i :: 0 <= i < |lines| ==> Plain(By(heading), DemoteAll(lines), i)
    ensures OpenAfterAll("", DemoteAll(lines)) == OpenAfterAll("", lines)
  {
    DemotedText(lines);
    forall i | 0 <= i < |lines| ensures Plain(By(heading), DemoteAll(lines), i) {
      assert Deep(DemoteAll(lines), i);
      DeepIsPlain(DemoteAll(lines), i, heading);
    }
  }

  /** Reading a blank line, a line that leaves no fence open, a blank line, text without
      headings of level one or two, and a blank line. */
  lemma PartsScan(out: seq<string>, n: nat, line: string, body: seq<string>, f: (Scan, string, nat) -> Scan)
    requires n > 0 && |out| == n + 2 + |body| + 1 && SkipsEmpty(f)
    requires out[n - 1] == "" && out[n] == line && out[n + 1] == "" && out[|out| - 1] == ""
    requires forall i :: 0 <= i < |body| ==> out[n + 2 + i] == body[i]
    requires forall i :: 0 <= i < |body| ==> Plain(f, body, i)
    requires f(FindTo(out, n - 1, f), line, n).open == ""
    ensures FindTo(out, |out|, f) == f(FindTo(out, n - 1, f), line, n).(open := OpenAfterAll("", body))
  {
    HeadScan(out, n, line, f);
    FindNone(out, n + 2, body, |body|, f);
    assert body[..|body|] == body;
    FindBlank(out, |out| - 1, |out|, f);
  }

  lemma HeadScan(out: seq<string>, n: nat, line: string, f: (Scan, string, nat) -> Scan)
    requires 0 < n && n + 2 <= |out| && SkipsEmpty(f)
    requires out[n - 1] == "" && out[n] == line && out[n + 1] == ""
    ensures FindTo(out, n + 2, f) == f(FindTo(out, n - 1, f), line, n)
  {
    FindBlank(out, n - 1, n, f);
    FindBlank(out, n + 1, n + 2, f);
  }

  /** The lines of a note with a section appended. */
  lemma AppendedLines(lines: seq<string>, h: string, text: string)
    ensures Appended(lines, Append(lines, h, text), h, TextLines(text))
  {
  }

  lemma HeadingFound(st: Scan, at: nat, h: string, heading: string)
    requires st.open == ""
    ensures Find(st, HeadingLine(h), at, heading)
            == if TrimSpace(h) == heading then Scan("", Some(at), None) else Passed(st, at)
  {
    HeadingIs(h);
  }

  // ----- The section appended is read back -----

  /** Read after a note with no open fence, a section appended is the last of its heading,
      and its text is what was appended, its headings demoted. */
  lemma ReadsBack(lines: seq<string>, heading: string, text: string)
    requires lines != [] && OpenAfterAll("", lines) == "" && Trimmed(heading)
    ensures LastSection(Append(lines, heading, text), heading) == DemoteHeadings(TrimSpace(text))
    ensures FindAll(Append(lines, heading, text), heading).start.Some?
  {
    AppendedScan(lines, heading, text, heading);
    TrimmedFixed(heading);
    AppendedLines(lines, heading, text);
    AppendedText(lines, Append(lines, heading, text), heading, TextLines(text));
    AppendedTrimmed(text);
    LastSectionIs(Append(lines, heading, text), heading, AppendedAt(lines), [""] + TextLines(text) + [""]);
  }

  /** A section that goes to the end of the note. */
  lemma LastSectionIs(all: seq<string>, heading: string, at: nat, body: seq<string>)
    requires at < |all| && all[at + 1..] == body
    requires FindAll(all, heading).start == Some(at) && FindAll(all, heading).end == None
    ensures LastSection(all, heading) == TrimSpace(JoinLines(body))
  {
    assert all[at + 1..|all|] == all[at + 1..];
  }

  /** The lines after the appended heading. */
  lemma AppendedText(lines: seq<string>, out: seq<string>, h: string, body: seq<string>)
    requires Appended(lines, out, h, body)
    ensures out[AppendedAt(lines) + 1..] == [""] + body + [""]
  {
    var got := out[AppendedAt(lines) + 1..];
    forall i | 0 <= i < |got| ensures got[i] == ([""] + body + [""])[i] {
      assert got[i] == out[AppendedAt(lines) + 1 + i];
      assert 0 < i <= |body| ==> got[i] == out[AppendedAt(lines) + 2 + (i - 1)];
    }
  }

  lemma AppendedTrimmed(text: string)
    ensures TrimSpace(JoinLines([""] + TextLines(text) + [""])) == DemoteHeadings(TrimSpace(text))
  {
    TrimBlank(TextLines(text));
    TrimBlank([""] + TextLines(text));
    TrimSpaceTrims(text);
    DemotedTrimmed(TrimSpace(text));
  }

  /** The section found is the one appended exactly when no fence was open: inside one,
      its heading is code. */
  lemma FoundIffClosed(lines: seq<string>, heading: string, text: string)
    requires lines != [] && Trimmed(heading)
    ensures FindAll(Append(lines, heading, text), heading).start == Some(AppendedAt(lines)) <==> OpenAfterAll("", lines) == ""
  {
    if OpenAfterAll("", lines) == "" {
      AppendedScan(lines, heading, text, heading);
      TrimmedFixed(heading);
    } else {
      AppendedLines(lines, heading, text);
      OpenHidesIt(lines, Append(lines, heading, text), heading, TextLines(text));
    }
  }

  lemma OpenHidesIt(lines: seq<string>, out: seq<string>, heading: string, body: seq<string>)
    requires lines != [] && Appended(lines, out, heading, body) && OpenAfterAll("", lines) != ""
    ensures FindAll(out, heading).start != Some(AppendedAt(lines))
  {
    var k := AppendedAt(lines);
    FindBefore(lines, out, heading);
    FindAllOpen(lines, heading);
    FindEmpty(heading);
    FindBlank(out, k - 1, k, By(heading));
    CodeIsNotFound(out, heading, k, |out|);
  }

  /** A line inside a fence is never where a section starts. */
  lemma {:induction false} CodeIsNotFound(lines: seq<string>, heading: string, k: nat, n: nat)
    requires k < n <= |lines| && FindTo(lines, k, By(heading)).open != ""
    ensures FindTo(lines, n, By(heading)).start != Some(k)
  {
    if k < n - 1 {
      CodeIsNotFound(lines, heading, k, n - 1);
    } else {
      StartsBefore(lines, k, heading);
    }
    FindElse(FindTo(lines, n - 1, By(heading)), lines[n - 1], n - 1, heading, k);
  }

  lemma StartsBefore(lines: seq<string>, n: nat, heading: string)
    requires n <= |lines|
    ensures FindTo(lines, n, By(heading)).start != Some(n)
  {
    FoundBefore(lines, n, heading);
  }

  lemma FindElse(st: Scan, line: string, i: nat, heading: string, k: nat)
    requires st.start != Some(k) && (i != k || st.open != "")
    ensures Find(st, line, i, heading).start != Some(k)
  {
  }

  // ----- Section after section -----

  /** A section appended. */
  datatype Section = Section(heading: string, text: string)

  function AppendAll(lines: seq<string>, sections: seq<Section>): seq<string> {
    if sections == [] then lines
    else
      var n := |sections| - 1;
      Append(AppendAll(lines, sections[..n]), sections[n].heading, sections[n].text)
  }

  /** No text leaves a fence open. */
  predicate Closed(sections: seq<Section>) {
    forall i :: 0 <= i < |sections| ==> OpenAfterAll("", SplitLines(TrimSpace(sections[i].text))) == ""
  }

  lemma {:induction false} StaysClosed(lines: seq<string>, sections: seq<Section>)
    requires lines != [] && OpenAfterAll("", lines) == "" && Closed(sections)
    ensures AppendAll(lines, sections) != [] && OpenAfterAll("", AppendAll(lines, sections)) == ""
  {
    if sections != [] {
      var n := |sections| - 1;
      var s := sections[n];
      StaysClosed(lines, sections[..n]);
      AppendedScan(AppendAll(lines, sections[..n]), s.heading, s.text, "");
      FindAllOpen(AppendAll(lines, sections), "");
    }
  }

  /** After any sections, the last one of a heading is read as it was appended: a task sent
      again closes again, and its last report is the one. */
  lemma {:induction false} LastIsRead(lines: seq<string>, sections: seq<Section>, k: nat, heading: string)
    requires lines != [] && OpenAfterAll("", lines) == "" && Closed(sections) && Trimmed(heading)
    requires k < |sections| && sections[k].heading == heading
    requires forall i :: k < i < |sections| ==> TrimSpace(sections[i].heading) != heading
    ensures var all := AppendAll(lines, sections);
            && LastSection(all, heading) == DemoteHeadings(TrimSpace(sections[k].text))
            && FindAll(all, heading).start.Some?
    decreases |sections|
  {
    var n := |sections| - 1;
    var before, last := sections[..n], sections[n];
    StaysClosed(lines, before);
    if k == n {
      ReadsBack(AppendAll(lines, before), heading, last.text);
    } else {
      assert before[k] == sections[k];
      LastIsRead(lines, before, k, heading);
      ReadPast(AppendAll(lines, before), last.heading, last.text, heading);
    }
    AppendLast(lines, sections);
  }

  lemma AppendLast(lines: seq<string>, sections: seq<Section>)
    requires sections != []
    ensures var n := |sections| - 1;
            AppendAll(lines, sections) == Append(AppendAll(lines, sections[..n]), sections[n].heading, sections[n].text)
  {
  }

  /** A section of another heading, appended, leaves the last one of heading as it is
      read. */
  lemma ReadPast(lines: seq<string>, h: string, text: string, heading: string)
    requires lines != [] && OpenAfterAll("", lines) == "" && TrimSpace(h) != heading
    requires FindAll(lines, heading).start.Some?
    ensures LastSection(Append(lines, h, text), heading) == LastSection(lines, heading)
    ensures FindAll(Append(lines, h, text), heading).start.Some?
  {
    AppendedScan(lines, h, text, heading);
    AppendedLines(lines, h, text);
    SectionStays(lines, Append(lines, h, text), h, TextLines(text), heading);
  }

  lemma SectionStays(lines: seq<string>, out: seq<string>, h: string, body: seq<string>, heading: string)
    requires lines != [] && Appended(lines, out, h, body) && FindAll(lines, heading).start.Some?
    requires var st := FindAll(lines, heading);
             && FindAll(out, heading).start == st.start
             && FindAll(out, heading).end == Passed(st, AppendedAt(lines)).end
    ensures LastSection(out, heading) == LastSection(lines, heading)
  {
    FoundInLines(lines, heading);
    FoundInLines(out, heading);
    TrimmedEnd(lines);
    var st, t := FindAll(lines, heading), TrimEmpty(lines);
    assert out[..|t|] == t;
    SameSection(lines, t, out, st.start.value + 1, st.end);
  }

  /** The lines of a section, when the note is cut at its last line and goes on with an
      empty one. */
  lemma SameSection(lines: seq<string>, t: seq<string>, out: seq<string>, s: nat, end: Option<nat>)
    requires t <= lines && s <= |t| && forall i :: |t| <= i < |lines| ==> lines[i] == ""
    requires t <= out && |t| < |out| && out[|t|] == ""
    requires end.Some? ==> s <= end.value < |lines| && lines[end.value] != ""
    ensures if end.Some? then end.value <= |out| && out[s..end.value] == lines[s..end.value]
            else TrimSpace(JoinLines(out[s..|t| + 1])) == TrimSpace(JoinLines(lines[s..|lines|]))
  {
    if end.None? {
      assert out[s..|t| + 1] == t[s..] + [""];
      assert lines[s..|lines|] == t[s..] + lines[|t|..];
      BlankEnd(t[s..], lines[|t|..]);
      BlankEnd(t[s..], [""]);
    }
  }

  /** Blank lines at the end are trimmed away. */
  lemma {:induction false} BlankEnd(lines: seq<string>, blank: seq<string>)
    requires forall i :: 0 <= i < |blank| ==> blank[i] == ""
    ensures TrimSpace(JoinLines(lines + blank)) == TrimSpace(JoinLines(lines))
    decreases |blank|
  {
    if blank == [] {
      assert lines + blank == lines;
    } else {
      var b := blank[..|blank| - 1];
      BlankEnd(lines, b);
      assert lines + blank == (lines + b) + [""];
      if lines + b == [] {
        assert JoinLines([""]) == "" && JoinLines(lines) == "";
      } else {
        TrimBlank(lines + b);
      }
    }
  }
}
