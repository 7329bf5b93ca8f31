/** SetKeys on the lines of a whole note: which lines an edit keeps and takes out, which
    edits it refuses, and where a new key goes (internal/frontmatter/frontmatter.go). */
module FrontmatterNote {
  import opened Text
  import opened Frontmatter
  import opened FrontmatterEdit
  import opened FrontmatterSpans
  import opened FrontmatterSet
  import opened FrontmatterLines
  import opened FrontmatterPlaces

  // ----- What is kept -----

  /** Line j is of an entry of one of keys. */
  ghost predicate OfKeys(fm: seq<string>, j: nat, keys: set<string>)
    requires j < |fm|
  {
    exists i: nat, k :: PartOf(fm, i, j) && HeadAt(fm, i, k) && k in keys
  }

  /** The lines before n that are of no entry of keys, in order. */
  ghost function Kept(fm: seq<string>, keys: set<string>, n: nat): seq<string>
    requires n <= |fm|
  {
    if n == 0 then [] else Kept(fm, keys, n - 1) + (if OfKeys(fm, n - 1, keys) then [] else [fm[n - 1]])
  }

  lemma OfKeysIs(p: Parsed, keys: set<string>, n: nat, m: nat)
    requires GoodParsed(p) && n < |p.blocks| && m < |BlockLines(p.blocks[n])|
    ensures StartOf(p, n) + m < |Lines(p)|
    ensures OfKeys(Lines(p), StartOf(p, n) + m, keys) <==> m <= |p.blocks[n].cont| && p.blocks[n].key in keys
  {
    LineOfBlock(p, n);
    PartOfOne(p, n, m, StartOf(p, n) + m);
    HeadOfEntry(p, n);
    OfOneEntry(Lines(p), StartOf(p, n), StartOf(p, n) + m, keys, p.blocks[n].key, m <= |p.blocks[n].cont|);
  }

  lemma PartOfOne(p: Parsed, n: nat, m: nat, j: nat)
    requires GoodParsed(p) && n < |p.blocks| && m < |BlockLines(p.blocks[n])| && j == StartOf(p, n) + m < |Lines(p)|
    ensures forall i: nat :: PartOf(Lines(p), i, j) <==> i == StartOf(p, n) && m <= |p.blocks[n].cont|
  {
    Placed(p, j, n, m);
  }

  lemma HeadOfEntry(p: Parsed, n: nat)
    requires GoodParsed(p) && n < |p.blocks|
    ensures HeadAt(Lines(p), StartOf(p, n), p.blocks[n].key)
  {
    EntryOnLines(p, n);
  }

  /** Line j is of the entry at s, of that key, or of none. */
  lemma OfOneEntry(fm: seq<string>, s: nat, j: nat, keys: set<string>, key: string, inside: bool)
    requires j < |fm| && HeadAt(fm, s, key)
    requires forall i: nat :: PartOf(fm, i, j) <==> i == s && inside
    ensures OfKeys(fm, j, keys) <==> inside && key in keys
  {
    HeadsIs(fm[s], key);
    if i: nat, k :| PartOf(fm, i, j) && HeadAt(fm, i, k) && k in keys { HeadsIs(fm[i], k); }
    if inside && key in keys { assert PartOf(fm, s, j) && HeadAt(fm, s, key); }
  }

  /** What is kept of the first m lines of an entry. */
  function KeptOf(b: Block, keys: set<string>, m: nat): seq<string>
    requires m <= |BlockLines(b)|
  {
    if b.key !in keys then BlockLines(b)[..m]
    else if m <= 1 + |b.cont| then [] else b.rest[..m - 1 - |b.cont|]
  }

  lemma KeptOfNext(b: Block, keys: set<string>, m: nat)
    requires m < |BlockLines(b)|
    ensures KeptOf(b, keys, m + 1)
         == KeptOf(b, keys, m) + (if m <= |b.cont| && b.key in keys then [] else [BlockLines(b)[m]])
  {
    if b.key !in keys {
      assert BlockLines(b)[..m + 1] == BlockLines(b)[..m] + [BlockLines(b)[m]];
    } else if m > |b.cont| {
      var q := m - 1 - |b.cont|;
      assert BlockLines(b)[m] == b.rest[q] && b.rest[..q + 1] == b.rest[..q] + [b.rest[q]];
    }
  }

  /** b is the lines of fm from s on, kept as an entry is. */
  ghost predicate Holds(fm: seq<string>, keys: set<string>, s: nat, b: Block) {
    && s + |BlockLines(b)| <= |fm|
    && forall m :: 0 <= m < |BlockLines(b)| ==>
         && fm[s + m] == BlockLines(b)[m]
         && (OfKeys(fm, s + m, keys) <==> m <= |b.cont| && b.key in keys)
  }

  lemma {:induction false} KeptRun(fm: seq<string>, keys: set<string>, s: nat, b: Block, m: nat)
    requires Holds(fm, keys, s, b) && m <= |BlockLines(b)|
    ensures Kept(fm, keys, s + m) == Kept(fm, keys, s) + KeptOf(b, keys, m)
  {
    if m > 0 {
      KeptRun(fm, keys, s, b, m - 1);
      KeptOfNext(b, keys, m - 1);
      assert fm[s + (m - 1)] == BlockLines(b)[m - 1];
      Assoc(Kept(fm, keys, s), KeptOf(b, keys, m - 1), if m - 1 <= |b.cont| && b.key in keys then [] else [BlockLines(b)[m - 1]]);
    } else {
      assert KeptOf(b, keys, 0) == [];
    }
  }

  lemma BlockHolds(p: Parsed, keys: set<string>, n: nat)
    requires GoodParsed(p) && n < |p.blocks|
    ensures Holds(Lines(p), keys, StartOf(p, n), p.blocks[n])
  {
    LineOfBlock(p, n);
    var b := p.blocks[n];
    forall m | 0 <= m < |BlockLines(b)|
      ensures Lines(p)[StartOf(p, n) + m] == BlockLines(b)[m]
      ensures OfKeys(Lines(p), StartOf(p, n) + m, keys) <==> m <= |b.cont| && b.key in keys
    {
      OfKeysIs(p, keys, n, m);
    }
  }

  /** A whole entry, kept or not. */
  lemma KeptEntry(p: Parsed, keys: set<string>, n: nat)
    requires GoodParsed(p) && n < |p.blocks|
    ensures StartOf(p, n + 1) <= |Lines(p)| && StartOf(p, n) <= StartOf(p, n + 1)
    ensures Kept(Lines(p), keys, StartOf(p, n + 1))
         == Kept(Lines(p), keys, StartOf(p, n)) + (if p.blocks[n].key in keys then p.blocks[n].rest else BlockLines(p.blocks[n]))
  {
    var fm, s := Lines(p), StartOf(p, n);
    BlockHolds(p, keys, n);
    KeptWhole(fm, keys, s, p.blocks[n]);
    StartNext(p.blocks, |p.pre|, n);
    assert StartOf(p, n + 1) == s + |BlockLines(p.blocks[n])|;
  }

  lemma KeptWhole(fm: seq<string>, keys: set<string>, s: nat, b: Block)
    requires Holds(fm, keys, s, b)
    ensures Kept(fm, keys, s + |BlockLines(b)|) == Kept(fm, keys, s) + (if b.key in keys then b.rest else BlockLines(b))
  {
    var n := |BlockLines(b)|;
    var all := if b.key in keys then b.rest else BlockLines(b);
    assert Kept(fm, keys, s + n) == Kept(fm, keys, s) + KeptOf(b, keys, n) by { KeptRun(fm, keys, s, b, n); }
    assert KeptOf(b, keys, n) == all by { WholeKept(b, keys); }
  }

  lemma {:induction false} KeptBefore(p: Parsed, keys: set<string>, j: nat)
    requires GoodParsed(p) && j <= |p.pre|
    ensures j <= |Lines(p)| && Kept(Lines(p), keys, j) == p.pre[..j]
  {
    if j > 0 {
      KeptBefore(p, keys, j - 1);
      PlaceBefore(p, j - 1);
      assert Lines(p)[j - 1] == p.pre[j - 1] && p.pre[..j] == p.pre[..j - 1] + [p.pre[j - 1]];
    }
  }

  lemma {:induction false} KeptTo(p: Parsed, keys: set<string>, n: nat)
    requires GoodParsed(p) && n <= |p.blocks|
    ensures StartOf(p, n) <= |Lines(p)|
    ensures Kept(Lines(p), keys, StartOf(p, n)) == p.pre + OthersOf(p.blocks[..n], keys)
    decreases n
  {
    if n == 0 {
      KeptBefore(p, keys, |p.pre|);
      assert p.pre[..|p.pre|] == p.pre;
    } else {
      KeptTo(p, keys, n - 1);
      KeptEntry(p, keys, n - 1);
      OthersNext(p.pre, p.blocks, keys, n - 1);
    }
  }

  lemma OthersNext(pre: seq<string>, bs: seq<Block>, keys: set<string>, n: nat)
    requires n < |bs|
    ensures pre + OthersOf(bs[..n + 1], keys)
         == pre + OthersOf(bs[..n], keys) + (if bs[n].key in keys then bs[n].rest else BlockLines(bs[n]))
  {
    assert bs[..n + 1] == bs[..n] + [bs[n]];
    Snoc(bs[..n], bs[n], keys, false);
    Assoc(pre, OthersOf(bs[..n], keys), if bs[n].key in keys then bs[n].rest else BlockLines(bs[n]));
  }

  lemma WholeKept(b: Block, keys: set<string>)
    ensures KeptOf(b, keys, |BlockLines(b)|) == if b.key in keys then b.rest else BlockLines(b)
  {
    assert b.rest[..|b.rest|] == b.rest && BlockLines(b)[..|BlockLines(b)|] == BlockLines(b);
  }

  /** The lines of no entry of keys, as the note has them and as they are read. */
  lemma OthersAreKept(p: Parsed, keys: set<string>)
    requires GoodParsed(p)
    ensures Others(p, keys) == Kept(Lines(p), keys, |Lines(p)|)
  {
    KeptTo(p, keys, |p.blocks|);
    LastStart(p);
    assert p.blocks[..|p.blocks|] == p.blocks;
  }

  // ----- The whole note -----

  /** The keys an edit names. */
  function Named(fields: seq<Field>, unset: seq<string>): set<string> {
    (set f | f in fields :: f.key) + (set k | k in unset)
  }

  lemma NamedIs(fields: seq<Field>, unset: seq<string>)
    requires HaveLines(fields)
    ensures Named(fields, unset) == Keys(WritesOf(fields), unset)
  {
    var writes := WritesOf(fields);
    forall f | f in fields ensures exists w :: w in writes && w.key == f.key {
      var i :| 0 <= i < |fields| && fields[i] == f;
      assert writes[i] in writes;
    }
    forall w | w in writes ensures exists f :: f in fields && f.key == w.key {
      var i :| 0 <= i < |writes| && writes[i] == w;
      assert fields[i] in fields;
    }
  }

  /** The one line of a key: at i, alone. */
  ghost predicate OnlyLine(fm: seq<string>, k: string, l: string) {
    && !Twice(fm, k)
    && exists i: nat :: HeadAt(fm, i, k) && fm[i] == l && !Spreads(fm, i) && forall j: nat :: !HangsAfter(fm, i, j)
  }

  /** When an edit of a note with a block is done, what it has lost of the block are the key
      lines of the keys named, what continued those removed, and of those set only lines of
      scalars of a list: every other line stays, in order. Each key set has its line, one,
      and no key removed has any. */
  lemma EditOnLines(lines: seq<string>, fields: seq<Field>, unset: seq<string>, valid: seq<string> -> bool)
    requires Edits(lines, fields, unset, valid)
    ensures HasBlock(lines) && HasBlock(SetKeys(lines, fields, unset, valid).value)
    ensures var fm, after := BlockOf(lines), BlockOf(SetKeys(lines, fields, unset, valid).value);
            && Kept(after, Named(fields, unset), |after|) == Kept(fm, Named(fields, unset), |fm|)
            && (forall i: nat, j: nat, k :: HeadAt(fm, i, k) && Sets(fields, k) && PartOf(fm, i, j) && j != i ==> ScalarLine(fm[j]))
            && (forall f :: f in fields ==> f.line.Some? && OnlyLine(after, f.key, f.line.value + CrOf(lines[0])))
            && (forall k :: k in unset ==> forall i: nat :: !HeadAt(after, i, k))
  {
    EditsIs(lines, fields, unset, valid);
    WrittenReadsAs(lines, fields, unset, valid);
    NamedIs(fields, unset);
    var p, writes, cr := Parse(BlockOf(lines)), WritesOf(fields), CrOf(lines[0]);
    var q := Edited(p, writes, unset, cr);
    EditKeepsTheRest(p, writes, unset, cr);
    OthersAreKept(p, Keys(writes, unset));
    OthersAreKept(q, Keys(writes, unset));
    EditIsDone(p, writes, unset, cr);
    forall i: nat, j: nat, k | HeadAt(BlockOf(lines), i, k) && Sets(fields, k) && PartOf(BlockOf(lines), i, j) && j != i
      ensures ScalarLine(BlockOf(lines)[j])
    {
      LostIsScalar(p, fields, unset, i, j, k);
    }
    forall f | f in fields ensures f.line.Some? && OnlyLine(BlockOf(SetKeys(lines, fields, unset, valid).value), f.key, f.line.value + cr) {
      var n :| 0 <= n < |fields| && fields[n] == f;
      assert writes[n] in writes;
      OneEntryOneLine(q, f.key, f.line.value + cr);
    }
    forall k, i: nat | k in unset ensures !HeadAt(Lines(q), i, k) {
      if HeadAt(Lines(q), i, k) {
        var n := HeadStarts(q, i, k);
        ByKeyHas(q.blocks, n);
      }
    }
  }

  lemma LostIsScalar(p: Parsed, fields: seq<Field>, unset: seq<string>, i: nat, j: nat, k: string)
    requires GoodParsed(p) && HaveLines(fields) && Possible(p.blocks, WritesOf(fields), unset)
    requires HeadAt(Lines(p), i, k) && Sets(fields, k) && PartOf(Lines(p), i, j) && j != i
    ensures ScalarLine(Lines(p)[j])
  {
    var f :| f in fields && f.key == k;
    var n :| 0 <= n < |fields| && fields[n] == f;
    assert WritesOf(fields)[n] in WritesOf(fields);
    CannotSetIs(p, k);
    var v :| KeyAt(Lines(p)[i], k, v);
    assert !Knotted(Lines(p), i, v);
    assert Spreads(Lines(p), i);
  }

  lemma OneEntryOneLine(p: Parsed, k: string, l: string)
    requires GoodParsed(p) && ByKey(p.blocks, k) == [Entry(l, [], false)]
    ensures OnlyLine(Lines(p), k, l)
  {
    TwiceIs(p, k);
    TwoEntries(p.blocks, k);
    var n :| 0 <= n < |p.blocks| && p.blocks[n].key == k;
    ByKeyHas(p.blocks, n);
    EntryOnLines(p, n);
    SpreadsIs(p, n);
    HangsIs(p, n);
  }

  /** An edit of a block is refused as too complex exactly when a key it sets appears twice or
      has a value that one line cannot replace, or a key it removes appears twice or cannot
      be taken out; and it is refused for such a key. */
  lemma RefusedOnLines(lines: seq<string>, fields: seq<Field>, unset: seq<string>, valid: seq<string> -> bool)
    requires lines != [] && Marks(lines[0]) && HasBlock(lines)
    requires FieldError(fields).None? && UnsetError(fields, unset).None?
    ensures (exists k :: SetKeys(lines, fields, unset, valid) == Err(Complex(k)))
            <==> (exists f :: f in fields && CannotSet(BlockOf(lines), f.key)) || (exists k :: k in unset && CannotRemove(BlockOf(lines), k))
    ensures forall k :: SetKeys(lines, fields, unset, valid) == Err(Complex(k)) ==>
              (Sets(fields, k) && CannotSet(BlockOf(lines), k)) || (k in unset && CannotRemove(BlockOf(lines), k))
  {
    NoFieldError(fields);
    var p, writes := Parse(BlockOf(lines)), WritesOf(fields);
    ParseGood(BlockOf(lines));
    NoneComplex(p.blocks, writes);
    NoneStuck(p.blocks, unset);
    FirstOfComplex(p.blocks, fields);
    FirstOfStuck(p.blocks, unset);
    forall k ensures TooComplex(p.blocks, k) <==> CannotSet(BlockOf(lines), k) { CannotSetIs(p, k); }
    forall k ensures Stuck(p.blocks, k) <==> CannotRemove(BlockOf(lines), k) { CannotRemoveIs(p, k); }
    ByFields(p.blocks, fields);
    assert FirstComplex(p.blocks, writes).Some? ==>
      SetKeys(lines, fields, unset, valid) == Err(Complex(FirstComplex(p.blocks, writes).value.key));
    assert FirstComplex(p.blocks, writes).None? && FirstStuck(p.blocks, unset).Some? ==>
      SetKeys(lines, fields, unset, valid) == Err(Complex(FirstStuck(p.blocks, unset).value.key));
    NotComplex(fields);
  }

  lemma {:induction false} NotComplex(fields: seq<Field>)
    ensures FirstComma(fields).Some? ==> FirstComma(fields).value.CommaItem?
  {
    if fields != [] { NotComplex(fields[1..]); }
  }

  lemma ByFields(bs: seq<Block>, fields: seq<Field>)
    requires HaveLines(fields)
    ensures (exists w :: w in WritesOf(fields) && TooComplex(bs, w.key)) <==> exists f :: f in fields && TooComplex(bs, f.key)
  {
    var writes := WritesOf(fields);
    if w :| w in writes && TooComplex(bs, w.key) {
      var i :| 0 <= i < |writes| && writes[i] == w;
      assert fields[i] in fields;
    }
    if f :| f in fields && TooComplex(bs, f.key) {
      var i :| 0 <= i < |fields| && fields[i] == f;
      assert writes[i] in writes;
    }
  }

  lemma FirstOfComplex(bs: seq<Block>, fields: seq<Field>)
    requires HaveLines(fields)
    ensures var e := FirstComplex(bs, WritesOf(fields));
            e.Some? ==> e.value.Complex? && Sets(fields, e.value.key) && TooComplex(bs, e.value.key)
  {
    FirstWrite(bs, WritesOf(fields));
    var e := FirstComplex(bs, WritesOf(fields));
    if e.Some? {
      var w :| w in WritesOf(fields) && w.key == e.value.key;
      var i :| 0 <= i < |fields| && WritesOf(fields)[i] == w;
      assert fields[i] in fields;
    }
  }

  lemma {:induction false} FirstWrite(bs: seq<Block>, writes: seq<Write>)
    ensures var e := FirstComplex(bs, writes);
            e.Some? ==> e.value.Complex? && TooComplex(bs, e.value.key) && exists w :: w in writes && w.key == e.value.key
  {
    if writes != [] {
      FirstWrite(bs, writes[1..]);
      assert writes == [writes[0]] + writes[1..];
    }
  }

  lemma {:induction false} FirstOfStuck(bs: seq<Block>, unset: seq<string>)
    ensures var e := FirstStuck(bs, unset);
            e.Some? ==> e.value.Complex? && Stuck(bs, e.value.key) && e.value.key in unset
  {
    if unset != [] { FirstOfStuck(bs, unset[1..]); }
  }

  // ----- Where a new key goes -----

  /** The keys of the lines, in order. */
  function KeysRead(fm: seq<string>): seq<string> {
    if fm == [] then []
    else
      var n := |fm| - 1;
      KeysRead(fm[..n]) + (if IsKey(fm[n]) then [KeyOf(fm[n])] else [])
  }

  function KeysIn(bs: seq<Block>): (r: seq<string>)
    ensures |r| == |bs| && forall i :: 0 <= i < |bs| ==> r[i] == bs[i].key
  {
    seq(|bs|, i requires 0 <= i < |bs| => bs[i].key)
  }

  lemma {:induction false} KeysAreRead(fm: seq<string>)
    ensures KeysRead(fm) == KeysIn(Parse(fm).blocks)
  {
    if fm != [] {
      var n := |fm| - 1;
      KeysAreRead(fm[..n]);
      var p := Parse(fm[..n]);
      if IsKey(fm[n]) {
        assert KeysIn(p.blocks + [KeyLine(fm[n])]) == KeysIn(p.blocks) + [KeyOf(fm[n])];
      } else {
        assert KeysIn(Read(p, fm[n]).blocks) == KeysIn(p.blocks);
      }
    }
  }

  lemma EditOneKeys(q: Parsed, b: Block, writes: seq<Write>, unset: seq<string>, cr: string)
    requires AllEncoded(writes) && Cr(cr)
    ensures KeysIn(EditOne(q, b, writes, unset, cr).blocks) == KeysIn(q.blocks) + (if b.key in unset then [] else [b.key])
  {
    if b.key in unset {
      assert KeysIn(Extend(q, b.rest).blocks) == KeysIn(q.blocks);
    } else {
      RewrittenKey(b, writes, cr);
      assert KeysIn(q.blocks + [Rewritten(b, writes, cr)]) == KeysIn(q.blocks) + [b.key];
    }
  }

  function Staying(keys: seq<string>, unset: seq<string>): seq<string> { Filter((k: string) => k !in unset, keys) }

  lemma StayingNext(bs: seq<Block>, unset: seq<string>)
    requires bs != []
    ensures var n := |bs| - 1;
            Staying(KeysIn(bs), unset) == Staying(KeysIn(bs[..n]), unset) + (if bs[n].key in unset then [] else [bs[n].key])
  {
    var n := |bs| - 1;
    assert KeysIn(bs)[..n] == KeysIn(bs[..n]) && KeysIn(bs)[..n + 1] == KeysIn(bs);
    FilterSnoc((k: string) => k !in unset, KeysIn(bs), n);
  }

  lemma {:induction false} ReplacedKeys(pre: seq<string>, bs: seq<Block>, writes: seq<Write>, unset: seq<string>, cr: string)
    requires AllEncoded(writes) && Cr(cr)
    ensures KeysIn(Replaced(pre, bs, writes, unset, cr).blocks) == Staying(KeysIn(bs), unset)
  {
    if bs != [] {
      var n := |bs| - 1;
      ReplacedKeys(pre, bs[..n], writes, unset, cr);
      EditOneKeys(Replaced(pre, bs[..n], writes, unset, cr), bs[n], writes, unset, cr);
      StayingNext(bs, unset);
    }
  }

  /** The keys of the fields. */
  function KeysSet(fields: seq<Field>): (r: seq<string>)
    ensures |r| == |fields| && forall i :: 0 <= i < |fields| ==> r[i] == fields[i].key
  {
    seq(|fields|, i requires 0 <= i < |fields| => fields[i].key)
  }

  /** Those of named that are not of was. */
  function NewOf(was: seq<string>, named: seq<string>): seq<string> { Filter((k: string) => k !in was, named) }

  lemma AddedOneKey(bs: seq<Block>, writes: seq<Write>, w: Write, cr: string)
    requires Encoded(w) && Cr(cr)
    ensures KeysIn(Added(bs, writes + [w], cr)) == KeysIn(Added(bs, writes, cr)) + (if w.key in KeysIn(bs) then [] else [w.key])
  {
    var more := writes + [w];
    assert more[..|more| - 1] == writes;
    TwoEntries(bs, w.key);
    KeyIn(bs, w.key);
    WrittenIs(w, cr, []);
    var before := Added(bs, writes, cr);
    assert KeysIn(before + [KeyLine(w.line + cr)]) == KeysIn(before) + [w.key];
  }

  lemma {:induction false} AddedKeys(bs: seq<Block>, fields: seq<Field>, n: nat, cr: string)
    requires HaveLines(fields) && AllEncoded(WritesOf(fields)) && Cr(cr) && n <= |fields|
    ensures KeysIn(Added(bs, WritesOf(fields)[..n], cr)) == NewOf(KeysIn(bs), KeysSet(fields)[..n])
  {
    var writes := WritesOf(fields);
    if n > 0 {
      AddedKeys(bs, fields, n - 1, cr);
      assert writes[n - 1] in writes && writes[..n] == writes[..n - 1] + [writes[n - 1]];
      FilterSnoc((k: string) => k !in KeysIn(bs), KeysSet(fields), n - 1);
      AddedOneKey(bs, writes[..n - 1], writes[n - 1], cr);
    }
  }

  lemma KeyIn(bs: seq<Block>, k: string)
    ensures k in KeysIn(bs) <==> exists a :: 0 <= a < |bs| && bs[a].key == k
  {
    if k in KeysIn(bs) { var a :| 0 <= a < |bs| && KeysIn(bs)[a] == k; }
    if a :| 0 <= a < |bs| && bs[a].key == k { assert KeysIn(bs)[a] == k; }
  }

  /** The last key is the only tags, and stays. */
  predicate TagsLast(keys: seq<string>, unset: seq<string>) {
    keys != [] && keys[|keys| - 1] == "tags" && "tags" !in keys[..|keys| - 1] && "tags" !in unset
  }

  lemma TagsLastIs(bs: seq<Block>, unset: seq<string>)
    ensures BeforeTags(bs, unset) <==> TagsLast(KeysIn(bs), unset)
  {
    TwoEntries(bs, "tags");
    if bs != [] {
      var n := |bs| - 1;
      if "tags" in KeysIn(bs)[..n] { var a :| 0 <= a < n && KeysIn(bs)[a] == "tags"; assert bs[a].key == "tags"; }
      if a, b :| 0 <= a < b < |bs| && bs[a].key == "tags" && bs[b].key == "tags" { assert KeysIn(bs)[..n][a] == "tags"; }
    }
  }

  /** The keys a block has after an edit: those that stay and then the new ones, or the new
      ones just before tags when that is the last. */
  function KeysAfter(was: seq<string>, named: seq<string>, unset: seq<string>): seq<string> {
    var stay := Staying(was, unset);
    if TagsLast(was, unset) && stay != [] then stay[..|stay| - 1] + NewOf(was, named) + ["tags"]
    else stay + NewOf(was, named)
  }

  lemma EditedKeys(p: Parsed, fields: seq<Field>, unset: seq<string>, cr: string)
    requires HaveLines(fields) && AllEncoded(WritesOf(fields)) && Cr(cr)
    ensures KeysIn(Edited(p, WritesOf(fields), unset, cr).blocks) == KeysAfter(KeysIn(p.blocks), KeysSet(fields), unset)
  {
    var writes := WritesOf(fields);
    ReplacedKeys(p.pre, p.blocks, writes, unset, cr);
    AddedKeys(p.blocks, fields, |fields|, cr);
    assert writes[..|fields|] == writes && KeysSet(fields)[..|fields|] == KeysSet(fields);
    TagsLastIs(p.blocks, unset);
    KeysInserted(Replaced(p.pre, p.blocks, writes, unset, cr).blocks, Added(p.blocks, writes, cr), BeforeTags(p.blocks, unset));
    if TagsLast(KeysIn(p.blocks), unset) { TagsStayLast(KeysIn(p.blocks), unset); }
  }

  /** A key set that was there keeps its place; a new one goes last, in the order the keys are
      set, or just before tags when that is the last key of the note. */
  lemma NewKeysGoLast(lines: seq<string>, fields: seq<Field>, unset: seq<string>, valid: seq<string> -> bool)
    requires Edits(lines, fields, unset, valid)
    ensures HasBlock(lines) && HasBlock(SetKeys(lines, fields, unset, valid).value)
    ensures KeysRead(BlockOf(SetKeys(lines, fields, unset, valid).value))
         == KeysAfter(KeysRead(BlockOf(lines)), KeysSet(fields), unset)
  {
    EditsIs(lines, fields, unset, valid);
    WrittenReadsAs(lines, fields, unset, valid);
    KeysAreRead(BlockOf(lines));
    KeysAreRead(BlockOf(SetKeys(lines, fields, unset, valid).value));
    EditedKeys(Parse(BlockOf(lines)), fields, unset, CrOf(lines[0]));
  }

  lemma TagsStayLast(keys: seq<string>, unset: seq<string>)
    requires TagsLast(keys, unset)
    ensures var stay := Staying(keys, unset); stay != [] && stay[|stay| - 1] == "tags"
  {
    FilterSnoc((k: string) => k !in unset, keys, |keys| - 1);
    assert keys[..|keys|] == keys;
  }

  lemma KeysInserted(bs: seq<Block>, added: seq<Block>, before: bool)
    ensures KeysIn(Inserted(bs, added, before))
         == if before && bs != [] then KeysIn(bs)[..|bs| - 1] + KeysIn(added) + [bs[|bs| - 1].key] else KeysIn(bs) + KeysIn(added)
  {
  }
}
