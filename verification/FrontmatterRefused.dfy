/** When SetKeys does an edit, and each reason it does not, on the fields, the keys and the
    lines given (internal/frontmatter/frontmatter.go). */
module FrontmatterRefused {
  import opened Text
  import opened Frontmatter
  import opened FrontmatterEdit
  import opened FrontmatterSet
  import opened FrontmatterLines
  import opened FrontmatterPlaces
  import opened FrontmatterNote

  // ----- The fields -----

  /** What is wrong with field i, after those before it. */
  predicate Wrong(fields: seq<Field>, i: nat, e: Error)
    requires i < |fields|
  {
    match e
    case BadKey(k) => k == fields[i].key && !ValidKey(k)
    case SetTwice(k) => k == fields[i].key && ValidKey(k) && Earlier(fields, i, k)
    case BadValue(k) => k == fields[i].key && ValidKey(k) && !Earlier(fields, i, k) && fields[i].line.None?
    case _ => false
  }

  predicate Earlier(fields: seq<Field>, i: nat, k: string)
    requires i <= |fields|
  {
    exists j :: 0 <= j < i && fields[j].key == k
  }

  ghost predicate Right(fields: seq<Field>, i: nat)
    requires i < |fields|
  {
    ValidKey(fields[i].key) && fields[i].line.Some? && forall j :: 0 <= j < i ==> fields[j].key != fields[i].key
  }

  /** e is what is wrong with field i, and those before it are right. */
  ghost predicate FirstWrong(fields: seq<Field>, i: nat, e: Error) {
    i < |fields| && Wrong(fields, i, e) && forall j :: 0 <= j < i ==> Right(fields, j)
  }

  /** The fields are refused for the first of them that is wrong. */
  lemma {:induction false} FieldErrorIs(fields: seq<Field>)
    ensures FieldError(fields).None? <==> forall i :: 0 <= i < |fields| ==> Right(fields, i)
    ensures FieldError(fields).Some? ==>
              exists i: nat :: FirstWrong(fields, i, FieldError(fields).value)
  {
    if fields != [] {
      var n := |fields| - 1;
      var before := fields[..n];
      FieldErrorIs(before);
      assert Sets(before, fields[n].key) <==> Earlier(fields, n, fields[n].key) by {
        if Sets(before, fields[n].key) {
          var f :| f in before && f.key == fields[n].key;
        }
        if j :| 0 <= j < n && fields[j].key == fields[n].key { assert before[j] in before; }
      }
      forall i | 0 <= i < n ensures Right(before, i) == Right(fields, i) {}
      if FieldError(before).Some? {
        var i: nat :| FirstWrong(before, i, FieldError(before).value);
        SameWrong(fields, n, i, FieldError(before).value);
        assert FirstWrong(fields, i, FieldError(before).value);
      } else if FieldError(fields).Some? {
        assert FirstWrong(fields, n, FieldError(fields).value);
        assert !Right(fields, n);
      }
    }
  }

  lemma SameWrong(fields: seq<Field>, n: nat, i: nat, e: Error)
    requires i < n <= |fields|
    ensures Wrong(fields[..n], i, e) == Wrong(fields, i, e)
  {
    assert forall k :: Earlier(fields[..n], i, k) == Earlier(fields, i, k);
  }

  /** The keys to remove are refused for the first that is no key, or that is set as well. */
  lemma {:induction false} UnsetErrorIs(fields: seq<Field>, unset: seq<string>)
    ensures UnsetError(fields, unset).None? <==> forall k :: k in unset ==> Removes(fields, k)
    ensures UnsetError(fields, unset).Some? ==>
              exists i: nat :: FirstKept(fields, unset, i, UnsetError(fields, unset).value)
  {
    if unset != [] {
      var rest := unset[1..];
      UnsetErrorIs(fields, rest);
      assert unset == [unset[0]] + rest;
      if !Removes(fields, unset[0]) {
        assert FirstKept(fields, unset, 0, UnsetError(fields, unset).value);
      } else if UnsetError(fields, rest).Some? {
        var i: nat :| FirstKept(fields, rest, i, UnsetError(fields, rest).value);
        assert FirstKept(fields, unset, i + 1, UnsetError(fields, rest).value);
      }
    }
  }

  predicate Removes(fields: seq<Field>, k: string) { ValidKey(k) && !Sets(fields, k) }

  ghost predicate FirstKept(fields: seq<Field>, unset: seq<string>, i: nat, e: Error) {
    && i < |unset| && !Removes(fields, unset[i])
    && e == (if ValidKey(unset[i]) then SetAndRemoved(unset[i]) else BadKey(unset[i]))
    && forall j :: 0 <= j < i ==> Removes(fields, unset[j])
  }

  /** A letter, of ASCII, an underscore, a digit or a hyphen, by its code. */
  predicate InKey(c: char) {
    var n := c as int;
    97 <= n <= 122 || 65 <= n <= 90 || n == 95 || 48 <= n <= 57 || n == 45
  }

  /** A key is letters, digits, underscores and hyphens, and starts with neither a digit nor a
      hyphen. */
  lemma ValidKeyIs(k: string)
    ensures ValidKey(k) <==>
              && k != "" && k[0] != '-' && !('0' <= k[0] <= '9')
              && forall i :: 0 <= i < |k| ==> InKey(k[i])
  {
    forall i | 0 <= i < |k| ensures KeyChar(k[i]) <==> InKey(k[i]) { CharIs(k[i]); }
    if k != "" { CharIs(k[0]); }
  }

  lemma CharIs(c: char)
    ensures KeyChar(c) <==> InKey(c)
    ensures KeyStart(c) <==> InKey(c) && c != '-' && !('0' <= c <= '9')
  {
  }

  // ----- The marks and the ends of lines -----

  /** A line marks a block: three dashes, and nothing after them but carriage returns. */
  lemma MarksIs(l: string)
    ensures Marks(l) <==> "---" <= l && forall i :: 3 <= i < |l| ==> l[i] == '\r'
  {
    BareIs(l);
    if "---" <= l && forall i :: 3 <= i < |l| ==> l[i] == '\r' {
      assert l == "---" + l[3..];
      BareOf("---", l[3..]);
    }
  }

  lemma {:induction false} BareIs(l: string)
    ensures Bare(l) <= l && forall i :: |Bare(l)| <= i < |l| ==> l[i] == '\r'
  {
    if l != "" && l[|l| - 1] == '\r' { BareIs(l[..|l| - 1]); }
  }

  lemma {:induction false} BareOf(s: string, crs: string)
    requires s != "" && s[|s| - 1] != '\r' && forall i :: 0 <= i < |crs| ==> crs[i] == '\r'
    ensures Bare(s + crs) == s
  {
    if crs == "" {
      assert s + crs == s;
    } else {
      assert (s + crs)[..|s + crs| - 1] == s + crs[..|crs| - 1];
      BareOf(s, crs[..|crs| - 1]);
    }
  }

  /** The lines written for a note that has no block end as its lines do: in a carriage
      return and a newline when there are these two somewhere in its text. */
  lemma {:induction false} EolIs(text: string)
    ensures EolOf(Split(text, '\n')) == (if HasTwo(text) then "\r" else "")
  {
    if text != "" {
      EolIs(text[1..]);
      EolNext(text[0], text[1..]);
      assert text == [text[0]] + text[1..];
    }
  }

  predicate HasTwo(text: string) { exists i :: 0 <= i < |text| - 1 && text[i] == '\r' && text[i + 1] == '\n' }

  lemma EolNext(c: char, rest: string)
    ensures HasCrlf(Split([c] + rest, '\n'))
            <==> HasCrlf(Split(rest, '\n')) || (c == '\r' && rest != "" && rest[0] == '\n')
    ensures HasTwo([c] + rest) <==> HasTwo(rest) || (c == '\r' && rest != "" && rest[0] == '\n')
  {
    SplitPut(c, rest, '\n');
    CrlfPut(c, Split(rest, '\n'));
    TwoNext(c, rest);
    if rest != "" {
      SplitPut(rest[0], rest[1..], '\n');
      assert [rest[0]] + rest[1..] == rest;
    }
  }

  lemma TwoNext(c: char, rest: string)
    ensures HasTwo([c] + rest) <==> HasTwo(rest) || (c == '\r' && rest != "" && rest[0] == '\n')
  {
    var s := [c] + rest;
    if i :| 0 <= i < |rest| - 1 && rest[i] == '\r' && rest[i + 1] == '\n' {
      assert s[i + 1] == '\r' && s[i + 2] == '\n';
    }
    if i :| 0 <= i < |s| - 1 && s[i] == '\r' && s[i + 1] == '\n' {
      assert i > 0 ==> rest[i - 1] == '\r' && rest[i] == '\n';
    }
    if c == '\r' && rest != "" && rest[0] == '\n' { assert s[0] == '\r' && s[1] == '\n'; }
  }

  lemma CrlfPut(c: char, r: seq<string>)
    requires r != []
    ensures HasCrlf(Put(c, r, '\n')) <==> HasCrlf(r) || (c == '\r' && |r| > 1 && r[0] == "")
  {
    var s := Put(c, r, '\n');
    if c == '\n' {
      forall i | 0 <= i < |r| ensures s[i + 1] == r[i] {}
      if i :| 0 <= i < |r| - 1 && CrOf(r[i]) == "\r" { assert CrOf(s[i + 1]) == "\r"; }
      if i :| 0 <= i < |s| - 1 && CrOf(s[i]) == "\r" { assert i > 0 && CrOf(r[i - 1]) == "\r"; }
    } else {
      CrPut(c, r[0]);
      if i :| 0 <= i < |r| - 1 && CrOf(r[i]) == "\r" { assert CrOf(s[i]) == "\r"; }
      if i :| 0 <= i < |s| - 1 && CrOf(s[i]) == "\r" { assert i > 0 ==> CrOf(r[i]) == "\r"; }
      if c == '\r' && |r| > 1 && r[0] == "" { assert CrOf(s[0]) == "\r"; }
    }
  }

  lemma CrPut(c: char, l: string)
    ensures CrOf([c] + l) == if l == "" then (if c == '\r' then "\r" else "") else CrOf(l)
  {
  }

  // ----- The whole decision -----

  /** The fields and the keys to remove can be asked for together. */
  ghost predicate Askable(fields: seq<Field>, unset: seq<string>) {
    && (forall i :: 0 <= i < |fields| ==> Right(fields, i))
    && (forall k :: k in unset ==> Removes(fields, k))
  }

  /** Every key can be set or removed, as its lines are. */
  ghost predicate Editable(fm: seq<string>, fields: seq<Field>, unset: seq<string>) {
    && (forall f :: f in fields ==> !CannotSet(fm, f.key))
    && (forall k :: k in unset ==> !CannotRemove(fm, k))
  }

  /** The lines may be written: valid YAML, or not valid before either and no item of a list
      set holds a comma. */
  predicate Writable(was: seq<string>, after: seq<string>, fields: seq<Field>, valid: seq<string> -> bool) {
    valid(after) || (!valid(was) && forall f :: f in fields ==> !f.comma)
  }

  lemma {:induction false} FirstCommaIs(fields: seq<Field>)
    ensures FirstComma(fields).None? <==> forall f :: f in fields ==> !f.comma
  {
    if fields != [] {
      FirstCommaIs(fields[1..]);
      assert fields == [fields[0]] + fields[1..];
    }
  }

  /** A later line marks the end of the block. */
  predicate Ends(lines: seq<string>) { exists j :: 1 <= j < |lines| && Marks(lines[j]) }

  /** The lines the edit of the block would leave in it. */
  function WrittenTo(lines: seq<string>, fields: seq<Field>, unset: seq<string>): seq<string>
    requires HasBlock(lines) && HaveLines(fields)
  {
    Lines(Edited(Parse(BlockOf(lines)), WritesOf(fields), unset, CrOf(lines[0])))
  }

  /** An edit is done exactly when it can be asked for and, where the note starts with a
      block, the block ends, no key is too complex, and what is written may be. */
  lemma DoneIff(lines: seq<string>, fields: seq<Field>, unset: seq<string>, valid: seq<string> -> bool)
    requires lines != []
    ensures SetKeys(lines, fields, unset, valid).Ok? <==>
              && Askable(fields, unset)
              && (Marks(lines[0]) ==>
                    && Ends(lines) && HasBlock(lines) && HaveLines(fields) && Editable(BlockOf(lines), fields, unset)
                    && Writable(BlockOf(lines), WrittenTo(lines, fields, unset), fields, valid))
    ensures Askable(fields, unset) && Marks(lines[0]) ==>
              (SetKeys(lines, fields, unset, valid) == Err(Unterminated) <==> !Ends(lines))
    ensures Askable(fields, unset) && !Marks(lines[0]) && fields == [] ==>
              SetKeys(lines, fields, unset, valid) == Ok(lines)
  {
    FieldErrorIs(fields);
    UnsetErrorIs(fields, unset);
    if Askable(fields, unset) && Marks(lines[0]) {
      NoFieldError(fields);
      EndsIs(lines);
      if HasBlock(lines) { BlockDoneIff(lines, fields, unset, valid); }
    }
  }

  lemma EndsIs(lines: seq<string>)
    requires lines != [] && Marks(lines[0])
    ensures Ends(lines) <==> HasBlock(lines)
  {
  }

  lemma BlockDoneIff(lines: seq<string>, fields: seq<Field>, unset: seq<string>, valid: seq<string> -> bool)
    requires HasBlock(lines) && HaveLines(fields)
    ensures var e := EditBlock(lines, fields, unset, valid);
            && (e.Ok? <==>
                  && Editable(BlockOf(lines), fields, unset)
                  && Writable(BlockOf(lines), WrittenTo(lines, fields, unset), fields, valid))
            && e != Err(Unterminated)
  {
    var p := Parse(BlockOf(lines));
    ParseGood(BlockOf(lines));
    NoneCannotSet(p, fields);
    NoneCannotRemove(p, unset);
    WriteErrorIs(BlockOf(lines), WrittenTo(lines, fields, unset), fields, valid);
  }

  lemma NoneCannotSet(p: Parsed, fields: seq<Field>)
    requires GoodParsed(p) && HaveLines(fields)
    ensures var e := FirstComplex(p.blocks, WritesOf(fields));
            (e.None? <==> forall f :: f in fields ==> !CannotSet(Lines(p), f.key)) && (e.Some? ==> e.value.Complex?)
  {
    NoneComplex(p.blocks, WritesOf(fields));
    FirstOfComplex(p.blocks, fields);
    ByFields(p.blocks, fields);
    forall f | f in fields ensures TooComplex(p.blocks, f.key) <==> CannotSet(Lines(p), f.key) { CannotSetIs(p, f.key); }
  }

  lemma NoneCannotRemove(p: Parsed, unset: seq<string>)
    requires GoodParsed(p)
    ensures var e := FirstStuck(p.blocks, unset);
            (e.None? <==> forall k :: k in unset ==> !CannotRemove(Lines(p), k)) && (e.Some? ==> e.value.Complex?)
  {
    NoneStuck(p.blocks, unset);
    FirstOfStuck(p.blocks, unset);
    forall k | k in unset ensures Stuck(p.blocks, k) <==> CannotRemove(Lines(p), k) { CannotRemoveIs(p, k); }
  }

  lemma WriteErrorIs(was: seq<string>, after: seq<string>, fields: seq<Field>, valid: seq<string> -> bool)
    ensures var e := WriteError(was, after, fields, valid);
            (e.None? <==> Writable(was, after, fields, valid)) && (e.Some? ==> e.value.BreaksYaml? || e.value.CommaItem?)
  {
    FirstCommaIs(fields);
    NotComplex(fields);
  }
}
