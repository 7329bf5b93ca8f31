/** SetKeys on the lines of a note (internal/frontmatter/frontmatter.go): its
    errors, the block it edits, and what its result promises. */
module FrontmatterSet {
  import opened Text
  import opened Frontmatter
  import opened FrontmatterEdit

  datatype Error =
    | BadKey(key: string) | SetTwice(key: string) | SetAndRemoved(key: string) | BadValue(key: string)
    | Complex(key: string) | Unterminated | BreaksYaml | CommaItem(key: string)

  datatype Result<+T> = Ok(value: T) | Err(error: Error)

  /** A key to set, the line encodeLine writes for it (None when it refuses the
      value), and whether an item of its list holds a comma. */
  datatype Field = Field(key: string, line: Option<string>, comma: bool)

  predicate FieldsEncoded(fields: seq<Field>) {
    forall f :: f in fields && f.line.Some? ==> Encoded(Write(f.key, f.line.value))
  }

  predicate Sets(fields: seq<Field>, key: string) { exists f :: f in fields && f.key == key }

  // ----- The checks before anything is read -----

  /** What is wrong with the fields, the first of them first. */
  function FieldError(fields: seq<Field>): Option<Error> {
    if fields == [] then None
    else
      var before, f := fields[..|fields| - 1], fields[|fields| - 1];
      if FieldError(before).Some? then FieldError(before)
      else if !ValidKey(f.key) then Some(BadKey(f.key))
      else if Sets(before, f.key) then Some(SetTwice(f.key))
      else if f.line.None? then Some(BadValue(f.key))
      else None
  }

  function UnsetError(fields: seq<Field>, unset: seq<string>): Option<Error> {
    if unset == [] then None
    else if !ValidKey(unset[0]) then Some(BadKey(unset[0]))
    else if Sets(fields, unset[0]) then Some(SetAndRemoved(unset[0]))
    else UnsetError(fields, unset[1..])
  }

  predicate HaveLines(fields: seq<Field>) { forall f :: f in fields ==> f.line.Some? }

  function WritesOf(fields: seq<Field>): (writes: seq<Write>)
    requires HaveLines(fields)
    ensures |writes| == |fields|
    ensures forall i :: 0 <= i < |fields| ==> writes[i] == Write(fields[i].key, fields[i].line.value)
  {
    seq(|fields|, i requires 0 <= i < |fields| => Write(fields[i].key, fields[i].line.value))
  }

  lemma {:induction false} NoFieldError(fields: seq<Field>)
    requires FieldError(fields).None?
    ensures HaveLines(fields) && Distinct(WritesOf(fields))
    ensures FieldsEncoded(fields) ==> AllEncoded(WritesOf(fields))
  {
    if fields != [] {
      var n := |fields| - 1;
      NoFieldError(fields[..n]);
      assert fields == fields[..n] + [fields[n]];
      forall i, j | 0 <= i < j < |fields| ensures WritesOf(fields)[i].key != WritesOf(fields)[j].key {
        if j == n {
          assert fields[i] in fields[..n];
        } else {
          assert WritesOf(fields[..n])[i].key != WritesOf(fields[..n])[j].key;
        }
      }
    }
  }

  lemma {:induction false} NoUnsetError(fields: seq<Field>, unset: seq<string>)
    requires UnsetError(fields, unset).None?
    ensures forall k :: k in unset ==> !Sets(fields, k)
  {
    if unset != [] {
      NoUnsetError(fields, unset[1..]);
      assert unset == [unset[0]] + unset[1..];
    }
  }

  // ----- The block of a note -----

  predicate Marks(line: string) { Bare(line) == "---" }

  function CrOf(line: string): string { if line != "" && line[|line| - 1] == '\r' then "\r" else "" }

  /** The first closing line from i on, |lines| when there is none. */
  function ClosingFrom(lines: seq<string>, i: nat): (c: nat)
    requires i <= |lines|
    ensures i <= c <= |lines|
    ensures forall j :: i <= j < c ==> !Marks(lines[j])
    ensures c < |lines| ==> Marks(lines[c])
    decreases |lines| - i
  {
    if i == |lines| || Marks(lines[i]) then i else ClosingFrom(lines, i + 1)
  }

  predicate HasBlock(lines: seq<string>) {
    lines != [] && Marks(lines[0]) && ClosingFrom(lines, 1) < |lines|
  }

  /** The frontmatter between the two marks. */
  function BlockOf(lines: seq<string>): seq<string>
    requires HasBlock(lines)
  {
    lines[1..ClosingFrom(lines, 1)]
  }

  // ----- The edit of a note -----

  function FirstComplex(bs: seq<Block>, writes: seq<Write>): Option<Error> {
    if writes == [] then None
    else if TooComplex(bs, writes[0].key) then Some(Complex(writes[0].key))
    else FirstComplex(bs, writes[1..])
  }

  function FirstStuck(bs: seq<Block>, unset: seq<string>): Option<Error> {
    if unset == [] then None
    else if Stuck(bs, unset[0]) then Some(Complex(unset[0]))
    else FirstStuck(bs, unset[1..])
  }

  lemma {:induction false} NoneComplex(bs: seq<Block>, writes: seq<Write>)
    ensures FirstComplex(bs, writes).None? <==> forall w :: w in writes ==> !TooComplex(bs, w.key)
  {
    if writes != [] {
      NoneComplex(bs, writes[1..]);
      assert writes == [writes[0]] + writes[1..];
    }
  }

  lemma {:induction false} NoneStuck(bs: seq<Block>, unset: seq<string>)
    ensures FirstStuck(bs, unset).None? <==> forall k :: k in unset ==> !Stuck(bs, k)
  {
    if unset != [] {
      NoneStuck(bs, unset[1..]);
      assert unset == [unset[0]] + unset[1..];
    }
  }

  function FirstComma(fields: seq<Field>): Option<Error> {
    if fields == [] then None
    else if fields[0].comma then Some(CommaItem(fields[0].key))
    else FirstComma(fields[1..])
  }

  /** The checks of what would be written: it is valid YAML when the block was, and
      no list item holds a comma when it is not. */
  function WriteError(was: seq<string>, after: seq<string>, fields: seq<Field>, valid: seq<string> -> bool): Option<Error> {
    if valid(was) && !valid(after) then Some(BreaksYaml)
    else if !valid(after) then FirstComma(fields)
    else None
  }

  /** The edit of the entries p, between the first line and line closing. */
  function EditOf(
    p: Parsed, lines: seq<string>, closing: nat, fields: seq<Field>, unset: seq<string>, valid: seq<string> -> bool)
    : Result<seq<string>>
    requires 1 <= closing <= |lines| && HaveLines(fields)
  {
    var writes := WritesOf(fields);
    if FirstComplex(p.blocks, writes).Some? then Err(FirstComplex(p.blocks, writes).value)
    else if FirstStuck(p.blocks, unset).Some? then Err(FirstStuck(p.blocks, unset).value)
    else
      var after := Lines(Edited(p, writes, unset, CrOf(lines[0])));
      var e := WriteError(lines[1..closing], after, fields, valid);
      if e.Some? then Err(e.value) else Ok([lines[0]] + after + lines[closing..])
  }

  /** The edit of the block of a note that has one. */
  function EditBlock(lines: seq<string>, fields: seq<Field>, unset: seq<string>, valid: seq<string> -> bool)
    : Result<seq<string>>
    requires HasBlock(lines) && HaveLines(fields)
  {
    EditOf(Parse(BlockOf(lines)), lines, ClosingFrom(lines, 1), fields, unset, valid)
  }

  /** The text has a line that ends in "\r\n". */
  predicate HasCrlf(lines: seq<string>) {
    exists i :: 0 <= i < |lines| - 1 && CrOf(lines[i]) == "\r"
  }

  function WithEol(lines: seq<string>, cr: string): (r: seq<string>)
    ensures |r| == |lines|
    ensures forall i :: 0 <= i < |lines| ==> r[i] == lines[i] + cr
  {
    if lines == [] then [] else WithEol(lines[..|lines| - 1], cr) + [lines[|lines| - 1] + cr]
  }

  function LinesOf(writes: seq<Write>): (r: seq<string>)
    ensures |r| == |writes| && forall i :: 0 <= i < |writes| ==> r[i] == writes[i].line
  {
    seq(|writes|, i requires 0 <= i < |writes| => writes[i].line)
  }

  /** A block put before a note that has none. */
  function NewBlock(lines: seq<string>, writes: seq<Write>): seq<string> {
    Enclosed(Mark(EolOf(lines)), WithEol(LinesOf(writes), EolOf(lines)), lines)
  }

  function EolOf(lines: seq<string>): string { if HasCrlf(lines) then "\r" else "" }

  function Mark(cr: string): string { "---" + cr }

  function Enclosed(mark: string, block: seq<string>, lines: seq<string>): seq<string> {
    [mark] + block + [mark] + lines
  }

  /** lines are those strings.Split finds in the note: at least one. valid is what
      yaml makes of the lines between the marks. */
  function SetKeys(lines: seq<string>, fields: seq<Field>, unset: seq<string>, valid: seq<string> -> bool)
    : Result<seq<string>>
    requires lines != []
  {
    if FieldError(fields).Some? then Err(FieldError(fields).value)
    else if UnsetError(fields, unset).Some? then Err(UnsetError(fields, unset).value)
    else
      NoFieldError(fields);
      if !Marks(lines[0]) then Ok(if fields == [] then lines else NewBlock(lines, WritesOf(fields)))
      else if !HasBlock(lines) then Err(Unterminated)
      else EditBlock(lines, fields, unset, valid)
  }

  // ----- What the result promises -----

  lemma {:induction false} ClosingIs(lines: seq<string>, i: nat, c: nat)
    requires i <= c < |lines| && Marks(lines[c])
    requires forall j :: i <= j < c ==> !Marks(lines[j])
    ensures ClosingFrom(lines, i) == c
  {
  }

  /** A note put together from an opening line, entries and the rest is read as
      these entries. */
  lemma ReadsAs(first: string, p: Parsed, rest: seq<string>)
    requires Marks(first) && GoodParsed(p) && rest != [] && Marks(rest[0])
    requires forall l :: l in Lines(p) ==> !Marks(l)
    ensures var out := [first] + Lines(p) + rest;
            && HasBlock(out) && BlockOf(out) == Lines(p) && Parse(BlockOf(out)) == p
            && out[ClosingFrom(out, 1)..] == rest && out[0] == first
  {
    var out := [first] + Lines(p) + rest;
    var c := 1 + |Lines(p)|;
    assert out[c] == rest[0];
    forall j | 1 <= j < c ensures !Marks(out[j]) { assert out[j] == Lines(p)[j - 1]; }
    ClosingIs(out, 1, c);
    assert out[1..c] == Lines(p);
    ParseLines(p);
  }

  /** No line of a good entry closes a block, when none of the others does. */
  lemma {:induction false} NoneMarks(p: Parsed, keys: set<string>)
    requires GoodParsed(p)
    requires forall l :: l in Others(p, keys) ==> !Marks(l)
    requires forall b :: b in p.blocks && b.key in keys ==> b.cont == []
    ensures forall l :: l in Lines(p) ==> !Marks(l)
    decreases |p.blocks|
  {
    if p.blocks != [] {
      var n := |p.blocks| - 1;
      var b := p.blocks[n];
      var q := p.(blocks := p.blocks[..n]);
      assert Good(b);
      KeyDoesNotContinue(b.line);
      assert forall l :: l in Others(q, keys) ==> l in Others(p, keys);
      NoneMarks(q, keys);
      forall l | l in BlockLines(b) ensures !Marks(l) {
        if l != b.line { assert l in Others(p, keys); }
      }
    }
  }

  lemma {:induction false} OthersAreLines(p: Parsed, keys: set<string>)
    ensures forall l :: l in OthersOf(p.blocks, keys) ==> l in BlocksLines(p.blocks)
    decreases |p.blocks|
  {
    if p.blocks != [] {
      var b := p.blocks[|p.blocks| - 1];
      OthersAreLines(p.(blocks := p.blocks[..|p.blocks| - 1]), keys);
      assert forall l :: l in b.rest ==> l in BlockLines(b);
    }
  }

  lemma DoneHasNoCont(bs: seq<Block>, writes: seq<Write>, unset: seq<string>, cr: string)
    requires Done(bs, writes, unset, cr)
    ensures forall b :: b in bs && b.key in Keys(writes, unset) ==> b.cont == []
  {
    forall b | b in bs && b.key in Keys(writes, unset) ensures b.cont == [] {
      var i :| 0 <= i < |bs| && bs[i] == b;
      ByKeyHas(bs, i);
    }
  }

  lemma EditedHasNoMarks(p: Parsed, writes: seq<Write>, unset: seq<string>, cr: string)
    requires GoodParsed(p) && Possible(p.blocks, writes, unset) && AllEncoded(writes) && Distinct(writes) && Cr(cr)
    requires forall w :: w in writes ==> w.key !in unset
    requires forall l :: l in Lines(p) ==> !Marks(l)
    ensures GoodParsed(Edited(p, writes, unset, cr))
    ensures forall l :: l in Lines(Edited(p, writes, unset, cr)) ==> !Marks(l)
  {
    var q := Edited(p, writes, unset, cr);
    var keys := Keys(writes, unset);
    EditKeepsTheRest(p, writes, unset, cr);
    EditIsDone(p, writes, unset, cr);
    OthersAreLines(p, keys);
    DoneHasNoCont(q.blocks, writes, unset, cr);
    NoneMarks(q, keys);
  }

  /** A successful edit of a note with a block, taken apart. */
  predicate Edits(lines: seq<string>, fields: seq<Field>, unset: seq<string>, valid: seq<string> -> bool) {
    lines != [] && Marks(lines[0]) && FieldsEncoded(fields) && SetKeys(lines, fields, unset, valid).Ok?
  }

  lemma EditsIs(lines: seq<string>, fields: seq<Field>, unset: seq<string>, valid: seq<string> -> bool)
    requires Edits(lines, fields, unset, valid)
    ensures HasBlock(lines) && HaveLines(fields)
    ensures var p, writes, cr := Parse(BlockOf(lines)), WritesOf(fields), CrOf(lines[0]);
            && GoodParsed(p) && Lines(p) == BlockOf(lines) && Cr(cr)
            && AllEncoded(writes) && Distinct(writes) && (forall w :: w in writes ==> w.key !in unset)
            && Possible(p.blocks, writes, unset)
            && WriteError(BlockOf(lines), Lines(Edited(p, writes, unset, cr)), fields, valid).None?
            && SetKeys(lines, fields, unset, valid).value
               == [lines[0]] + Lines(Edited(p, writes, unset, cr)) + lines[ClosingFrom(lines, 1)..]
  {
    NoFieldError(fields);
    NoUnsetError(fields, unset);
    var p := Parse(BlockOf(lines));
    var writes := WritesOf(fields);
    ParseGood(BlockOf(lines));
    NoneComplex(p.blocks, writes);
    NoneStuck(p.blocks, unset);
    forall w | w in writes ensures w.key !in unset {
      var i :| 0 <= i < |writes| && writes[i] == w;
      assert fields[i] in fields;
    }
  }

  /** The entries of the note written are exactly those of the edit. */
  lemma WrittenReadsAs(lines: seq<string>, fields: seq<Field>, unset: seq<string>, valid: seq<string> -> bool)
    requires Edits(lines, fields, unset, valid)
    ensures HasBlock(lines) && HaveLines(fields)
    ensures var out := SetKeys(lines, fields, unset, valid).value;
            && HasBlock(out) && out[0] == lines[0]
            && out[ClosingFrom(out, 1)..] == lines[ClosingFrom(lines, 1)..]
            && BlockOf(out) == Lines(Parse(BlockOf(out)))
            && Parse(BlockOf(out)) == Edited(Parse(BlockOf(lines)), WritesOf(fields), unset, CrOf(lines[0]))
  {
    EditsIs(lines, fields, unset, valid);
    var p, writes, cr := Parse(BlockOf(lines)), WritesOf(fields), CrOf(lines[0]);
    EditedHasNoMarks(p, writes, unset, cr);
    ReadsAs(lines[0], Edited(p, writes, unset, cr), lines[ClosingFrom(lines, 1)..]);
  }

  /** What is not of a key set or removed is as it was: the opening line, the closing
      line and the note after it, the lines in between in their order, and every
      other entry as it is read. */
  lemma SetKeysKeepsTheRest(lines: seq<string>, fields: seq<Field>, unset: seq<string>, valid: seq<string> -> bool)
    requires Edits(lines, fields, unset, valid)
    ensures HasBlock(lines) && HaveLines(fields)
    ensures var out := SetKeys(lines, fields, unset, valid).value;
            var keys := Keys(WritesOf(fields), unset);
            && HasBlock(out) && out[0] == lines[0]
            && out[ClosingFrom(out, 1)..] == lines[ClosingFrom(lines, 1)..]
            && Others(Parse(BlockOf(out)), keys) == Others(Parse(BlockOf(lines)), keys)
            && Entries(Parse(BlockOf(out)).blocks, keys, false) == Entries(Parse(BlockOf(lines)).blocks, keys, false)
  {
    EditsIs(lines, fields, unset, valid);
    WrittenReadsAs(lines, fields, unset, valid);
    EditKeepsTheRest(Parse(BlockOf(lines)), WritesOf(fields), unset, CrOf(lines[0]));
  }

  /** Read again, each key set has exactly one entry, its encoded line, and no key
      removed has any. */
  lemma SetKeysReadsBack(lines: seq<string>, fields: seq<Field>, unset: seq<string>, valid: seq<string> -> bool)
    requires Edits(lines, fields, unset, valid)
    ensures var out := SetKeys(lines, fields, unset, valid).value;
            && HasBlock(out) && HaveLines(fields)
            && (forall f :: f in fields ==>
                  ByKey(Parse(BlockOf(out)).blocks, f.key) == [Entry(f.line.value + CrOf(lines[0]), [], false)])
            && (forall k :: k in unset ==> ByKey(Parse(BlockOf(out)).blocks, k) == [])
  {
    EditsIs(lines, fields, unset, valid);
    WrittenReadsAs(lines, fields, unset, valid);
    EditIsDone(Parse(BlockOf(lines)), WritesOf(fields), unset, CrOf(lines[0]));
    forall f | f in fields
      ensures ByKey(Parse(BlockOf(SetKeys(lines, fields, unset, valid).value)).blocks, f.key)
              == [Entry(f.line.value + CrOf(lines[0]), [], false)]
    {
      var i :| 0 <= i < |fields| && fields[i] == f;
      assert WritesOf(fields)[i] in WritesOf(fields);
    }
  }

  /** The same edit again changes nothing. */
  lemma SetKeysAgain(lines: seq<string>, fields: seq<Field>, unset: seq<string>, valid: seq<string> -> bool)
    requires Edits(lines, fields, unset, valid)
    ensures var out := SetKeys(lines, fields, unset, valid).value;
            out != [] && SetKeys(out, fields, unset, valid) == Ok(out)
  {
    EditsIs(lines, fields, unset, valid);
    WrittenReadsAs(lines, fields, unset, valid);
    var p, writes, cr := Parse(BlockOf(lines)), WritesOf(fields), CrOf(lines[0]);
    EditIsDone(p, writes, unset, cr);
    EditKeepsTheRest(p, writes, unset, cr);
    EditBlockDone(SetKeys(lines, fields, unset, valid).value, fields, unset, valid);
  }

  /** A block whose edit is done is edited to itself, unless a list item to be set
      holds a comma and the block is not valid YAML. */
  lemma EditBlockDone(lines: seq<string>, fields: seq<Field>, unset: seq<string>, valid: seq<string> -> bool)
    requires HasBlock(lines) && HaveLines(fields) && GoodParsed(Parse(BlockOf(lines)))
    requires AllEncoded(WritesOf(fields)) && Done(Parse(BlockOf(lines)).blocks, WritesOf(fields), unset, CrOf(lines[0]))
    ensures EditBlock(lines, fields, unset, valid)
            == if !valid(BlockOf(lines)) && FirstComma(fields).Some? then Err(FirstComma(fields).value) else Ok(lines)
  {
    var p, writes := Parse(BlockOf(lines)), WritesOf(fields);
    DoneAgain(p, writes, unset, CrOf(lines[0]));
    NoneComplex(p.blocks, writes);
    NoneStuck(p.blocks, unset);
    ParseGood(BlockOf(lines));
    Parts(lines, ClosingFrom(lines, 1));
  }

  lemma Parts(lines: seq<string>, c: nat)
    requires 1 <= c <= |lines|
    ensures [lines[0]] + lines[1..c] + lines[c..] == lines
  {
  }

  // ----- A note without a block -----

  /** The block made for a note without one, read: the keys set, in order. */
  function NewEntries(writes: seq<Write>, cr: string): seq<Block> {
    if writes == [] then [] else NewEntries(writes[..|writes| - 1], cr) + [KeyLine(writes[|writes| - 1].line + cr)]
  }

  lemma {:induction false} NewAreGood(writes: seq<Write>, cr: string)
    requires AllEncoded(writes) && Cr(cr)
    ensures forall b :: b in NewEntries(writes, cr) ==> Good(b)
    ensures forall l :: l in WithEol(LinesOf(writes), cr) ==> !Marks(l)
  {
    if writes != [] {
      var n := |writes| - 1;
      NewAreGood(writes[..n], cr);
      assert Encoded(writes[n]);
      WrittenIs(writes[n], cr, []);
      KeyDoesNotContinue(writes[n].line + cr);
      assert LinesOf(writes)[..n] == LinesOf(writes[..n]);
    }
  }

  lemma {:induction false} NewLines(writes: seq<Write>, cr: string)
    ensures BlocksLines(NewEntries(writes, cr)) == WithEol(LinesOf(writes), cr)
  {
    if writes != [] {
      var n := |writes| - 1;
      NewLines(writes[..n], cr);
      BlocksSnoc(NewEntries(writes[..n], cr), KeyLine(writes[n].line + cr));
      assert LinesOf(writes)[..n] == LinesOf(writes[..n]);
    }
  }

  lemma {:induction false} NewByKey(writes: seq<Write>, cr: string, key: string)
    requires AllEncoded(writes) && Distinct(writes) && Cr(cr)
    ensures ByKey(NewEntries(writes, cr), key)
            == if Names(writes, key) then [Entry(LineFor(writes, key) + cr, [], false)] else []
  {
    if writes != [] {
      var n := |writes| - 1;
      NewByKey(writes[..n], cr, key);
      assert Encoded(writes[n]);
      WrittenIs(writes[n], cr, []);
      SnocByKey(NewEntries(writes[..n], cr), KeyLine(writes[n].line + cr), key);
      NamesIff(writes[..n], key);
    }
  }

  lemma NewIsDone(writes: seq<Write>, unset: seq<string>, cr: string)
    requires AllEncoded(writes) && Distinct(writes) && Cr(cr)
    requires forall w :: w in writes ==> w.key !in unset
    ensures Done(NewEntries(writes, cr), writes, unset, cr)
  {
    forall w | w in writes ensures ByKey(NewEntries(writes, cr), w.key) == [Entry(w.line + cr, [], false)] {
      NewByKey(writes, cr, w.key);
      NamesIff(writes, w.key);
      LineForIs(writes, w.key);
    }
    forall k | k in unset ensures ByKey(NewEntries(writes, cr), k) == [] {
      NewByKey(writes, cr, k);
      NamesIff(writes, k);
    }
  }

  /** A note without a block gets one that is read as the keys set, and the whole note
      stays after it. The same edit again changes nothing, exactly when the new block
      is valid YAML or no list item set holds a comma. */
  lemma NewBlockAgain(lines: seq<string>, fields: seq<Field>, unset: seq<string>, valid: seq<string> -> bool)
    requires lines != [] && !Marks(lines[0]) && fields != [] && FieldsEncoded(fields)
    requires SetKeys(lines, fields, unset, valid).Ok?
    ensures var out := SetKeys(lines, fields, unset, valid).value;
            && HaveLines(fields) && HasBlock(out)
            && out[ClosingFrom(out, 1) + 1..] == lines
            && Parse(BlockOf(out)) == Parsed([], NewEntries(WritesOf(fields), CrOf(out[0])))
            && (SetKeys(out, fields, unset, valid) == Ok(out)
                <==> valid(BlockOf(out)) || forall f :: f in fields ==> !f.comma)
  {
    NoFieldError(fields);
    NoUnsetError(fields, unset);
    var cr := EolOf(lines);
    var writes := WritesOf(fields);
    var out := SetKeys(lines, fields, unset, valid).value;
    forall w | w in writes ensures w.key !in unset {
      var i :| 0 <= i < |writes| && writes[i] == w;
      assert fields[i] in fields;
    }
    NewBlockReads(lines, writes, cr);
    NewIsDone(writes, unset, cr);
    EditBlockDone(out, fields, unset, valid);
    NoComma(fields);
  }

  lemma NewBlockReads(lines: seq<string>, writes: seq<Write>, cr: string)
    requires AllEncoded(writes) && cr == EolOf(lines)
    ensures var out := NewBlock(lines, writes);
            && HasBlock(out) && out[ClosingFrom(out, 1) + 1..] == lines && CrOf(out[0]) == cr
            && Parse(BlockOf(out)) == Parsed([], NewEntries(writes, cr))
            && GoodParsed(Parse(BlockOf(out)))
  {
    NewLines(writes, cr);
    NewAreGood(writes, cr);
    MarkIs(cr);
    ClosedReads(Mark(cr), NewEntries(writes, cr), WithEol(LinesOf(writes), cr), lines);
  }

  lemma MarkIs(cr: string)
    requires Cr(cr)
    ensures Marks(Mark(cr)) && CrOf(Mark(cr)) == cr
  {
    BareCr("---", cr);
  }

  lemma ClosedReads(mark: string, bs: seq<Block>, block: seq<string>, lines: seq<string>)
    requires Marks(mark) && GoodParsed(Parsed([], bs)) && BlocksLines(bs) == block
    requires forall l :: l in block ==> !Marks(l)
    ensures var out := Enclosed(mark, block, lines);
            && HasBlock(out) && out[ClosingFrom(out, 1) + 1..] == lines && out[0] == mark
            && Parse(BlockOf(out)) == Parsed([], bs)
  {
    var p := Parsed([], bs);
    assert Lines(p) == block;
    Closed(mark, block, lines);
    ReadsAs(mark, p, [mark] + lines);
    var out := [mark] + Lines(p) + ([mark] + lines);
    assert out[ClosingFrom(out, 1) + 1..] == out[ClosingFrom(out, 1)..][1..];
  }

  lemma Closed(mark: string, block: seq<string>, lines: seq<string>)
    ensures Enclosed(mark, block, lines) == [mark] + block + ([mark] + lines)
    ensures ([mark] + lines)[1..] == lines
  {
  }

  lemma {:induction false} NoComma(fields: seq<Field>)
    ensures FirstComma(fields).None? <==> forall f :: f in fields ==> !f.comma
  {
    if fields != [] {
      NoComma(fields[1..]);
      assert fields == [fields[0]] + fields[1..];
    }
  }
}
