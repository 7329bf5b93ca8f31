/** The notes a restore from the trash lists in the audit log, joined by commas, read
    back (cmd/gosidian/authors.go, restoreFromTrash). */
module TrashList {
  import opened Text

  /** A path at or under the place restored. */
  predicate Inside(origin: string, p: string) { p == origin || Under(origin, p) }

  /** Name by name: the names of the place are the first names of the path, or all. */
  lemma InsideIsNames(origin: string, p: string)
    ensures Inside(origin, p) <==> Split(origin, '/') <= Split(p, '/')
  {
    UnderIsNames(origin, p);
    JoinSplit(origin, '/');
    JoinSplit(p, '/');
    assert Split(origin, '/') == Split(p, '/') ==> origin == p;
  }

  /** A part of the list that starts no path goes with the one before. */
  function Glue(origin: string, parts: seq<string>): seq<string> {
    if parts == [] then []
    else
      var before, part := Glue(origin, parts[..|parts| - 1]), parts[|parts| - 1];
      if before != [] && !Inside(origin, part) then before[|before| - 1 := before[|before| - 1] + "," + part]
      else before + [part]
  }

  /** The notes read from the list. */
  function NotesIn(origin: string, to: string): seq<string> {
    Filter((p: string) => Inside(origin, p), Glue(origin, Split(to, ',')))
  }

  /** The loop of restoreFromTrash. */
  method ReadNotes(origin: string, to: string) returns (notes: seq<string>)
    ensures notes == NotesIn(origin, to)
  {
    var parts := Split(to, ',');
    var glued := [];
    for i := 0 to |parts|
      invariant glued == Glue(origin, parts[..i])
    {
      assert parts[..i + 1][..i] == parts[..i];
      var part, n := parts[i], |glued|;
      if n > 0 && !Inside(origin, part) {
        glued := glued[n - 1 := glued[n - 1] + "," + part];
      } else {
        glued := glued + [part];
      }
    }
    assert parts[..|parts|] == parts;
    notes := [];
    for i := 0 to |glued|
      invariant notes == Filter((p: string) => Inside(origin, p), glued[..i])
    {
      FilterSnoc((p: string) => Inside(origin, p), glued, i);
      if Inside(origin, glued[i]) { notes := notes + [glued[i]]; }
    }
    assert glued[..|glued|] == glued;
  }

  // ----- Gluing -----

  lemma GlueSnoc(origin: string, parts: seq<string>, part: string, glued: string)
    requires Glue(origin, parts) == [glued] && !Inside(origin, part)
    ensures Glue(origin, parts + [part]) == [glued + "," + part]
  {
    assert (parts + [part])[..|parts|] == parts;
  }

  /** No part starts a path: all go with the first. */
  lemma {:induction false} GlueOne(origin: string, parts: seq<string>)
    requires parts != [] && forall i :: 1 <= i < |parts| ==> !Inside(origin, parts[i])
    ensures Glue(origin, parts) == [Join(parts, ',')]
  {
    if |parts| == 1 {
      assert parts[..0] == [];
    } else {
      var before, part := parts[..|parts| - 1], parts[|parts| - 1];
      GlueOne(origin, before);
      JoinSnoc(before, part, ',');
      GlueSnoc(origin, before, part, Join(before, ','));
      assert parts == before + [part];
    }
  }

  /** Parts after one that starts a path do not touch those before it. */
  lemma {:induction false} GlueConcat(origin: string, a: seq<string>, b: seq<string>)
    requires b != [] && Inside(origin, b[0])
    ensures Glue(origin, a + b) == Glue(origin, a) + Glue(origin, b)
    ensures Glue(origin, b) != []
    decreases |b|
  {
    var n := |b| - 1;
    assert (a + b)[..|a + b| - 1] == a + b[..n];
    if n > 0 {
      GlueConcat(origin, a, b[..n]);
      var x, y := Glue(origin, a), Glue(origin, b[..n]);
      if !Inside(origin, b[n]) {
        var l := y[|y| - 1] + "," + b[n];
        assert (x + y)[|x + y| - 1 := l] == x + y[|y| - 1 := l];
      }
    } else {
      assert b[..0] == [] && a + b[..0] == a;
    }
  }

  /** How many paths are read of parts: one for each that starts one, and the first. */
  function Starts(origin: string, parts: seq<string>): nat {
    if parts == [] then 0
    else
      Starts(origin, parts[..|parts| - 1])
      + (if |parts| == 1 || Inside(origin, parts[|parts| - 1]) then 1 else 0)
  }

  lemma {:induction false} GlueCount(origin: string, parts: seq<string>)
    ensures |Glue(origin, parts)| == Starts(origin, parts)
    ensures parts != [] ==> Starts(origin, parts) >= 1
  {
    if parts != [] { GlueCount(origin, parts[..|parts| - 1]); }
  }

  lemma {:induction false} StartsOne(origin: string, parts: seq<string>)
    requires parts != []
    ensures Starts(origin, parts) == 1 <==> forall i :: 1 <= i < |parts| ==> !Inside(origin, parts[i])
  {
    var n := |parts| - 1;
    if n > 0 {
      StartsOne(origin, parts[..n]);
      GlueCount(origin, parts[..n]);
    }
  }

  // ----- The list of notes -----

  predicate AllInside(origin: string, notes: seq<string>) { forall n :: n in notes ==> Inside(origin, n) }

  /** The parts of a note after its first comma. */
  predicate LaterPartInside(origin: string, note: string) {
    exists i :: 1 <= i < |Split(note, ',')| && Inside(origin, Split(note, ',')[i])
  }

  /** Every note reads back as itself alone. */
  predicate Plain(origin: string, notes: seq<string>) { forall n :: n in notes ==> !LaterPartInside(origin, n) }

  /** The first part of a path at or under a place whose name has no comma starts there
      too. */
  lemma FirstPart(origin: string, note: string)
    requires ',' !in origin && Inside(origin, note)
    ensures Inside(origin, Split(note, ',')[0])
  {
    if note == origin {
      NoComma(origin);
    } else {
      var rest := note[|origin| + 1..];
      assert note == (origin + "/") + rest;
      PrefixPart(origin + "/", rest);
    }
  }

  lemma {:induction false} NoComma(s: string)
    requires ',' !in s
    ensures Split(s, ',') == [s]
  {
    if s != "" {
      NoComma(s[1..]);
      assert s == [s[0]] + s[1..];
      assert s[0] in s;
    }
  }

  lemma {:induction false} PrefixPart(a: string, rest: string)
    requires ',' !in a
    ensures Split(a + rest, ',')[0] == a + Split(rest, ',')[0]
  {
    if a == "" {
      assert a + rest == rest;
    } else {
      assert a[0] in a;
      assert (a + rest)[1..] == a[1..] + rest;
      PrefixPart(a[1..], rest);
      assert a == [a[0]] + a[1..];
    }
  }

  /** One note, glued: as many paths as its parts start. */
  lemma GlueNote(origin: string, note: string)
    requires ',' !in origin && Inside(origin, note)
    ensures var g := Glue(origin, Split(note, ','));
            g != [] && (|g| == 1 <==> !LaterPartInside(origin, note)) && (|g| == 1 ==> g == [note])
  {
    var parts := Split(note, ',');
    GlueCount(origin, parts);
    StartsOne(origin, parts);
    if !LaterPartInside(origin, note) {
      GlueOne(origin, parts);
      JoinSplit(note, ',');
    }
  }

  /** Two lists glued one after the other. */
  lemma GlueTwo(origin: string, before: string, last: string)
    requires ',' !in origin && Inside(origin, last)
    ensures Glue(origin, Split(before + "," + last, ','))
            == Glue(origin, Split(before, ',')) + Glue(origin, Split(last, ','))
  {
    SplitConcat(before, last, ',');
    FirstPart(origin, last);
    GlueConcat(origin, Split(before, ','), Split(last, ','));
  }

  lemma PlainSnoc(origin: string, before: seq<string>, last: string)
    ensures Plain(origin, before + [last]) <==> Plain(origin, before) && !LaterPartInside(origin, last)
  {
    if Plain(origin, before + [last]) {
      forall n | n in before ensures !LaterPartInside(origin, n) { assert n in before + [last]; }
      assert last in before + [last];
    }
  }

  /** The notes of a list, glued: at least as many as there are, and these exactly when
      each reads back as itself. */
  lemma {:induction false} GlueNotes(origin: string, notes: seq<string>)
    requires ',' !in origin && notes != [] && AllInside(origin, notes)
    ensures var g := Glue(origin, Split(Join(notes, ','), ','));
            |g| >= |notes| && (Plain(origin, notes) ==> g == notes) && (!Plain(origin, notes) ==> |g| > |notes|)
    decreases |notes|
  {
    var before, last := notes[..|notes| - 1], notes[|notes| - 1];
    assert notes == before + [last];
    GlueNote(origin, last);
    PlainSnoc(origin, before, last);
    if before == [] {
      assert notes == [last];
    } else {
      GlueNotes(origin, before);
      JoinSnoc(before, last, ',');
      GlueTwo(origin, Join(before, ','), last);
    }
  }

  /** The length of a list in text: each part and a comma. */
  function Total(parts: seq<string>): nat { if parts == [] then 0 else Total(parts[..|parts| - 1]) + |parts[|parts| - 1]| + 1 }

  lemma {:induction false} TotalFront(parts: seq<string>)
    requires parts != []
    ensures Total(parts) == |parts[0]| + 1 + Total(parts[1..])
  {
    if |parts| > 1 {
      var n := |parts| - 1;
      TotalFront(parts[..n]);
      assert parts[..n][1..] == parts[1..][..n - 1];
    }
  }

  lemma {:induction false} TotalGlue(origin: string, parts: seq<string>)
    ensures Total(Glue(origin, parts)) == Total(parts)
  {
    if parts != [] {
      var before, part := Glue(origin, parts[..|parts| - 1]), parts[|parts| - 1];
      TotalGlue(origin, parts[..|parts| - 1]);
      if before != [] && !Inside(origin, part) {
        var k := |before| - 1;
        assert before[k := before[k] + "," + part][..k] == before[..k];
      } else {
        assert (before + [part])[..|before|] == before;
      }
    }
  }

  lemma {:induction false} TotalSplit(s: string)
    ensures Total(Split(s, ',')) == |s| + 1
  {
    if s == "" {
      assert Total([""]) == 1 by { assert [""][..0] == []; }
    } else {
      var rest := Split(s[1..], ',');
      TotalSplit(s[1..]);
      TotalFront(Split(s, ','));
      TotalFront(rest);
      assert s[0] != ',' ==> Split(s, ',')[1..] == rest[1..];
    }
  }

  lemma {:induction false} TotalJoin(parts: seq<string>)
    requires parts != []
    ensures |Join(parts, ',')| + 1 == Total(parts)
  {
    TotalFront(parts);
    if |parts| > 1 { TotalJoin(parts[1..]); }
  }

  /** A list that loses a part is shorter. */
  lemma {:induction false} TotalFilter(f: string -> bool, parts: seq<string>)
    ensures Total(Filter(f, parts)) <= Total(parts)
    ensures |Filter(f, parts)| < |parts| ==> Total(Filter(f, parts)) < Total(parts)
  {
    if parts != [] {
      TotalFilter(f, parts[1..]);
      TotalFront(parts);
      var r := Filter(f, parts[1..]);
      if f(parts[0]) {
        TotalFront([parts[0]] + r);
        assert ([parts[0]] + r)[1..] == r;
      } else {
        assert [] + r == r;
      }
    }
  }

  /** What is read of a list of notes, when it is the notes, has lost no part. */
  lemma NoneLost(origin: string, notes: seq<string>)
    requires notes != [] && NotesIn(origin, Join(notes, ',')) == notes
    ensures |Glue(origin, Split(Join(notes, ','), ','))| == |notes|
  {
    var parts := Split(Join(notes, ','), ',');
    TotalJoin(notes);
    TotalSplit(Join(notes, ','));
    TotalGlue(origin, parts);
    TotalFilter((p: string) => Inside(origin, p), Glue(origin, parts));
  }

  /** A list of notes at or under a place is read back as it was written exactly when no
      part of a note after a comma is itself at or under the place; where the name of
      the place has a comma, exactly when there is one note at most. */
  lemma ReadsBackIff(origin: string, notes: seq<string>)
    requires origin != "" && AllInside(origin, notes)
    ensures NotesIn(origin, Join(notes, ',')) == notes <==>
              if ',' in origin then |notes| <= 1 else Plain(origin, notes)
  {
    if notes == [] {
      NoNotes(origin);
    } else if ',' in origin {
      CommaOrigin(origin, notes);
    } else {
      GlueNotes(origin, notes);
      KeepInside(origin, notes);
      if NotesIn(origin, Join(notes, ',')) == notes { NoneLost(origin, notes); }
    }
  }

  lemma NoNotes(origin: string)
    requires origin != ""
    ensures NotesIn(origin, Join([], ',')) == []
  {
    assert Glue(origin, [""]) == [""] by { assert [""][..0] == []; }
  }

  lemma {:induction false} KeepInside(origin: string, notes: seq<string>)
    requires AllInside(origin, notes)
    ensures Filter((p: string) => Inside(origin, p), notes) == notes
  {
    if notes != [] {
      KeepInside(origin, notes[1..]);
      assert notes == [notes[0]] + notes[1..];
    }
  }

  /** Where the name of the place has a comma, no part starts a path: all the notes are
      read as one. */
  lemma CommaOrigin(origin: string, notes: seq<string>)
    requires ',' in origin && notes != [] && AllInside(origin, notes)
    ensures NotesIn(origin, Join(notes, ',')) == notes <==> |notes| == 1
  {
    var to := Join(notes, ',');
    var parts := Split(to, ',');
    PartsHaveNone(to, ',');
    forall i | 0 <= i < |parts| ensures !Inside(origin, parts[i]) {
      assert parts[i] in parts;
      assert Inside(origin, parts[i]) ==> origin <= parts[i];
      if origin <= parts[i] { PrefixHas(origin, parts[i]); }
    }
    GlueOne(origin, parts);
    JoinSplit(to, ',');
    assert Glue(origin, parts) == [to];
    assert |NotesIn(origin, to)| <= 1;
    if |notes| == 1 { KeepInside(origin, [to]); }
  }

  lemma PrefixHas(a: string, b: string)
    requires a <= b && ',' in a
    ensures ',' in b
  {
    var i :| 0 <= i < |a| && a[i] == ',';
    assert b[i] == ',';
  }

  /** A note called "a,p/b" in the folder p, restored, is read back as two. */
  lemma SplitInTwo()
    ensures AllInside("p", ["p/a,p/b"]) && NotesIn("p", Join(["p/a,p/b"], ',')) != ["p/a,p/b"]
  {
    var note := "p/a,p/b";
    assert "p/" <= note;
    assert note == "p/a" + [','] + "p/b";
    NoComma("p/a");
    NoComma("p/b");
    SplitConcat("p/a", "p/b", ',');
    assert Split(note, ',') == ["p/a", "p/b"];
    assert Inside("p", Split(note, ',')[1]);
    assert LaterPartInside("p", note);
    ReadsBackIff("p", [note]);
  }
}
