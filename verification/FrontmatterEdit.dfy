/** What an edit does to a frontmatter (internal/frontmatter/frontmatter.go,
    SetKeys), said on its entries, and what it promises: the rest stays as
    written, what is set is read back, and the same edit again changes nothing. */
module FrontmatterEdit {
  import opened Frontmatter

  /** A key to set, and the line encodeLine writes for it. */
  datatype Write = Write(key: string, line: string)

  /** What encodeLine promises of a line: it is one line, of its key, whose value
      starts no anchor and no block scalar. */
  predicate Encoded(w: Write) {
    && '\n' !in w.line && Bare(w.line) == w.line && IsKey(w.line) && KeyOf(w.line) == w.key
    && (InlineOf(w.line) != "" ==> InlineOf(w.line)[0] !in "&|>")
  }

  predicate AllEncoded(writes: seq<Write>) { forall w :: w in writes ==> Encoded(w) }

  predicate Distinct(writes: seq<Write>) {
    forall i, j :: 0 <= i < j < |writes| ==> writes[i].key != writes[j].key
  }

  predicate Names(writes: seq<Write>, key: string) {
    writes != [] && (writes[|writes| - 1].key == key || Names(writes[..|writes| - 1], key))
  }

  lemma {:induction false} NamesIff(writes: seq<Write>, key: string)
    ensures Names(writes, key) <==> exists w :: w in writes && w.key == key
  {
    if writes != [] {
      NamesIff(writes[..|writes| - 1], key);
      assert writes == writes[..|writes| - 1] + [writes[|writes| - 1]];
    }
  }

  /** The line written for key. */
  function LineFor(writes: seq<Write>, key: string): string
    requires Names(writes, key)
  {
    if writes[|writes| - 1].key == key then writes[|writes| - 1].line else LineFor(writes[..|writes| - 1], key)
  }

  /** It is the line of the one write of that key. */
  lemma {:induction false} LineForIs(writes: seq<Write>, key: string)
    requires Names(writes, key)
    ensures Write(key, LineFor(writes, key)) in writes
    ensures Distinct(writes) ==> forall w :: w in writes && w.key == key ==> w.line == LineFor(writes, key)
  {
    var n := |writes| - 1;
    assert writes == writes[..n] + [writes[n]];
    if writes[n].key != key { LineForIs(writes[..n], key); }
  }

  predicate Cr(cr: string) { cr == "" || cr == "\r" }

  lemma BareCr(l: string, cr: string)
    requires Cr(cr) && Bare(l) == l
    ensures Bare(l + cr) == l
  {
    if cr == "\r" {
      assert (l + cr)[..|l + cr| - 1] == l;
    } else {
      assert l + cr == l;
    }
  }

  /** A line written is a good entry of its key, that can be edited. */
  lemma WrittenIs(w: Write, cr: string, rest: seq<string>)
    requires Encoded(w) && Cr(cr)
    ensures KeyLine(w.line + cr).key == w.key
    ensures IsKey(w.line + cr) && (InlineOf(w.line + cr) != "" ==> InlineOf(w.line + cr)[0] !in "&|>")
  {
    BareCr(w.line, cr);
  }

  // ----- The entries, as they are read -----

  predicate Orphans(b: Block) { exists l :: l in b.rest && Continues(l) }

  /** An entry: its line, what continues it, and whether lines hang after it. */
  datatype Entry = Entry(line: string, cont: seq<string>, orphans: bool)

  function EntryOf(b: Block): Entry { Entry(b.line, b.cont, Orphans(b)) }

  /** The entries of keys when inside, the others when not, in order. */
  function Entries(bs: seq<Block>, keys: set<string>, inside: bool): seq<Entry> {
    if bs == [] then []
    else
      var b := bs[|bs| - 1];
      Entries(bs[..|bs| - 1], keys, inside) + (if (b.key in keys) == inside then [EntryOf(b)] else [])
  }

  /** The entries of one key: byKey. */
  function ByKey(bs: seq<Block>, key: string): seq<Entry> { Entries(bs, {key}, true) }

  /** The lines that are not of an entry of keys, in order. */
  function OthersOf(bs: seq<Block>, keys: set<string>): seq<string> {
    if bs == [] then []
    else
      var b := bs[|bs| - 1];
      OthersOf(bs[..|bs| - 1], keys) + (if b.key in keys then b.rest else BlockLines(b))
  }

  function Others(p: Parsed, keys: set<string>): seq<string> { p.pre + OthersOf(p.blocks, keys) }

  lemma {:induction false} EntriesConcat(a: seq<Block>, b: seq<Block>, keys: set<string>, inside: bool)
    ensures Entries(a + b, keys, inside) == Entries(a, keys, inside) + Entries(b, keys, inside)
  {
    if b == [] {
      assert a + b == a;
    } else {
      assert (a + b)[..|a + b| - 1] == a + b[..|b| - 1];
      EntriesConcat(a, b[..|b| - 1], keys, inside);
    }
  }

  lemma {:induction false} OthersConcat(a: seq<Block>, b: seq<Block>, keys: set<string>)
    ensures OthersOf(a + b, keys) == OthersOf(a, keys) + OthersOf(b, keys)
  {
    if b == [] {
      assert a + b == a;
    } else {
      var n := |b| - 1;
      assert (a + b)[..|a + b| - 1] == a + b[..n];
      OthersConcat(a, b[..n], keys);
      Assoc(OthersOf(a, keys), OthersOf(b[..n], keys), if b[n].key in keys then b[n].rest else BlockLines(b[n]));
    }
  }

  lemma Snoc(bs: seq<Block>, b: Block, keys: set<string>, inside: bool)
    ensures OthersOf(bs + [b], keys) == OthersOf(bs, keys) + (if b.key in keys then b.rest else BlockLines(b))
    ensures Entries(bs + [b], keys, inside) == Entries(bs, keys, inside) + (if (b.key in keys) == inside then [EntryOf(b)] else [])
  {
    assert (bs + [b])[..|bs|] == bs;
  }

  // ----- The edit -----

  /** editable: the value is one line, or a block list of plain scalars. */
  predicate Editable(b: Block) {
    && !Orphans(b)
    && (if b.inline != "" then b.cont == [] && b.inline[0] !in "&|>"
        else forall l :: l in b.cont ==> PlainItem(l))
  }

  /** The entry can be taken out. */
  predicate Removable(b: Block) { !Orphans(b) && !("&" <= b.inline) }

  /** A key to set has two entries, or one too complex to edit. */
  predicate TooComplex(bs: seq<Block>, key: string) {
    |ByKey(bs, key)| > 1 || exists b :: b in bs && b.key == key && !Editable(b)
  }

  /** A key to remove has two entries, or one that cannot be taken out. */
  predicate Stuck(bs: seq<Block>, key: string) {
    |ByKey(bs, key)| > 1 || exists b :: b in bs && b.key == key && !Removable(b)
  }

  /** No key named makes the edit fail. */
  predicate Possible(bs: seq<Block>, writes: seq<Write>, unset: seq<string>) {
    && (forall w :: w in writes ==> !TooComplex(bs, w.key))
    && (forall k :: k in unset ==> !Stuck(bs, k))
  }

  /** Lines added after the last entry, or after the lines before the first. */
  function Extend(p: Parsed, rest: seq<string>): Parsed {
    if p.blocks == [] then p.(pre := p.pre + rest)
    else
      var n := |p.blocks| - 1;
      p.(blocks := p.blocks[..n] + [p.blocks[n].(rest := p.blocks[n].rest + rest)])
  }

  /** An entry rewritten when its key is set: replace, and drop of what continues it. */
  function Rewritten(b: Block, writes: seq<Write>, cr: string): Block {
    if Names(writes, b.key) then KeyLine(LineFor(writes, b.key) + cr).(rest := b.rest) else b
  }

  /** The next entry, edited: removed, and the lines after it stay; else rewritten. */
  function EditOne(q: Parsed, b: Block, writes: seq<Write>, unset: seq<string>, cr: string): Parsed {
    if b.key in unset then Extend(q, b.rest) else q.(blocks := q.blocks + [Rewritten(b, writes, cr)])
  }

  function Replaced(pre: seq<string>, bs: seq<Block>, writes: seq<Write>, unset: seq<string>, cr: string): Parsed {
    if bs == [] then Parsed(pre, [])
    else EditOne(Replaced(pre, bs[..|bs| - 1], writes, unset, cr), bs[|bs| - 1], writes, unset, cr)
  }

  /** The entries of the keys set that had none, in the order they are set. */
  function Added(bs: seq<Block>, writes: seq<Write>, cr: string): seq<Block> {
    if writes == [] then []
    else
      var w := writes[|writes| - 1];
      Added(bs, writes[..|writes| - 1], cr) + (if ByKey(bs, w.key) != [] then [] else [KeyLine(w.line + cr)])
  }

  /** New entries go before the last one when it is the only tags and stays. */
  predicate BeforeTags(bs: seq<Block>, unset: seq<string>) {
    bs != [] && bs[|bs| - 1].key == "tags" && |ByKey(bs, "tags")| == 1 && "tags" !in unset
  }

  function Inserted(bs: seq<Block>, added: seq<Block>, before: bool): seq<Block> {
    if before && bs != [] then bs[..|bs| - 1] + added + [bs[|bs| - 1]] else bs + added
  }

  function Edited(p: Parsed, writes: seq<Write>, unset: seq<string>, cr: string): Parsed {
    var q := Replaced(p.pre, p.blocks, writes, unset, cr);
    q.(blocks := Inserted(q.blocks, Added(p.blocks, writes, cr), BeforeTags(p.blocks, unset)))
  }

  function Keys(writes: seq<Write>, unset: seq<string>): set<string> {
    (set w | w in writes :: w.key) + (set k | k in unset)
  }

  // ----- One entry edited -----

  /** An entry can be edited. */
  predicate Ready(b: Block, writes: seq<Write>, unset: seq<string>) {
    && (b.key in unset ==> Removable(b))
    && (Names(writes, b.key) ==> Editable(b))
  }

  /** keys are those set or removed, as far as b goes. */
  predicate Touches(b: Block, writes: seq<Write>, unset: seq<string>, keys: set<string>) {
    b.key in keys <==> Names(writes, b.key) || b.key in unset
  }

  lemma ExtendOthers(q: Parsed, rest: seq<string>, keys: set<string>)
    ensures Others(Extend(q, rest), keys) == Others(q, keys) + rest
  {
    if q.blocks != [] {
      var n := |q.blocks| - 1;
      var b := q.blocks[n];
      var c := b.(rest := b.rest + rest);
      Snoc(q.blocks[..n], c, keys, false);
      Assoc([b.line] + b.cont, b.rest, rest);
      Assoc(OthersOf(q.blocks[..n], keys), if b.key in keys then b.rest else BlockLines(b), rest);
      Assoc(q.pre, OthersOf(q.blocks, keys), rest);
    }
  }

  lemma ExtendEntries(q: Parsed, rest: seq<string>, keys: set<string>, inside: bool)
    requires forall l :: l in rest ==> !Continues(l)
    ensures Entries(Extend(q, rest).blocks, keys, inside) == Entries(q.blocks, keys, inside)
  {
    if q.blocks != [] {
      var n := |q.blocks| - 1;
      var b := q.blocks[n];
      var c := b.(rest := b.rest + rest);
      assert Orphans(c) == Orphans(b);
      Snoc(q.blocks[..n], c, keys, inside);
    }
  }

  lemma EditOneOthers(q: Parsed, b: Block, writes: seq<Write>, unset: seq<string>, cr: string, keys: set<string>)
    requires Touches(b, writes, unset, keys) && AllEncoded(writes) && Cr(cr)
    ensures Others(EditOne(q, b, writes, unset, cr), keys)
            == Others(q, keys) + (if b.key in keys then b.rest else BlockLines(b))
  {
    if b.key in unset {
      ExtendOthers(q, b.rest, keys);
    } else {
      RewrittenKey(b, writes, cr);
      var c := Rewritten(b, writes, cr);
      Snoc(q.blocks, c, keys, false);
      Assoc(q.pre, OthersOf(q.blocks, keys), if b.key in keys then b.rest else BlockLines(b));
    }
  }

  lemma EditOneEntries(q: Parsed, b: Block, writes: seq<Write>, unset: seq<string>, cr: string, keys: set<string>)
    requires Ready(b, writes, unset) && Touches(b, writes, unset, keys) && AllEncoded(writes) && Cr(cr)
    ensures Entries(EditOne(q, b, writes, unset, cr).blocks, keys, false)
            == Entries(q.blocks, keys, false) + (if b.key in keys then [] else [EntryOf(b)])
  {
    if b.key in unset {
      ExtendEntries(q, b.rest, keys, false);
    } else {
      RewrittenKey(b, writes, cr);
      Snoc(q.blocks, Rewritten(b, writes, cr), keys, false);
    }
  }

  lemma RewrittenKey(b: Block, writes: seq<Write>, cr: string)
    requires AllEncoded(writes) && Cr(cr)
    ensures Rewritten(b, writes, cr).key == b.key && Rewritten(b, writes, cr).rest == b.rest
  {
    if Names(writes, b.key) {
      LineForIs(writes, b.key);
      WrittenIs(Write(b.key, LineFor(writes, b.key)), cr, b.rest);
    }
  }

  lemma EditOneGood(q: Parsed, b: Block, writes: seq<Write>, unset: seq<string>, cr: string)
    requires GoodParsed(q) && Good(b) && Ready(b, writes, unset)
    requires AllEncoded(writes) && Cr(cr)
    ensures GoodParsed(EditOne(q, b, writes, unset, cr))
  {
    var r := EditOne(q, b, writes, unset, cr);
    if b.key in unset {
      forall i | 0 <= i < |r.blocks| ensures Good(r.blocks[i]) { assert Good(q.blocks[i]); }
    } else {
      if Names(writes, b.key) {
        LineForIs(writes, b.key);
        WrittenIs(Write(b.key, LineFor(writes, b.key)), cr, b.rest);
      }
      assert Good(Rewritten(b, writes, cr));
    }
  }

  /** What becomes of an entry: none when removed, its line when set. */
  function EntryAfter(b: Block, writes: seq<Write>, unset: seq<string>, cr: string): seq<Entry> {
    if b.key in unset then []
    else if Names(writes, b.key) then [Entry(LineFor(writes, b.key) + cr, [], false)]
    else [EntryOf(b)]
  }

  lemma EditOneByKey(q: Parsed, b: Block, writes: seq<Write>, unset: seq<string>, cr: string, key: string)
    requires Ready(b, writes, unset) && AllEncoded(writes) && Cr(cr)
    ensures ByKey(EditOne(q, b, writes, unset, cr).blocks, key)
            == ByKey(q.blocks, key) + (if b.key == key then EntryAfter(b, writes, unset, cr) else [])
  {
    if b.key in unset {
      ExtendEntries(q, b.rest, {key}, true);
    } else {
      RewrittenKey(b, writes, cr);
      Snoc(q.blocks, Rewritten(b, writes, cr), {key}, true);
      assert Orphans(Rewritten(b, writes, cr)) == Orphans(b);
    }
  }

  // ----- All the entries edited -----

  predicate AllReady(bs: seq<Block>, writes: seq<Write>, unset: seq<string>) {
    forall i :: 0 <= i < |bs| ==> Ready(bs[i], writes, unset)
  }

  predicate AllTouch(bs: seq<Block>, writes: seq<Write>, unset: seq<string>, keys: set<string>) {
    forall i :: 0 <= i < |bs| ==> Touches(bs[i], writes, unset, keys)
  }

  lemma PossibleIsReady(bs: seq<Block>, writes: seq<Write>, unset: seq<string>)
    requires Possible(bs, writes, unset)
    ensures AllReady(bs, writes, unset) && AllTouch(bs, writes, unset, Keys(writes, unset))
  {
    forall i | 0 <= i < |bs|
      ensures Ready(bs[i], writes, unset) && Touches(bs[i], writes, unset, Keys(writes, unset))
    {
      var b := bs[i];
      NamesIff(writes, b.key);
      if Names(writes, b.key) {
        var w :| w in writes && w.key == b.key;
        assert !TooComplex(bs, w.key);
      }
    }
  }

  lemma {:induction false} ReplacedKeeps(
    pre: seq<string>, bs: seq<Block>, writes: seq<Write>, unset: seq<string>, cr: string, keys: set<string>)
    requires AllReady(bs, writes, unset) && AllTouch(bs, writes, unset, keys) && AllEncoded(writes) && Cr(cr)
    ensures var q := Replaced(pre, bs, writes, unset, cr);
            && Others(q, keys) == Others(Parsed(pre, bs), keys)
            && Entries(q.blocks, keys, false) == Entries(bs, keys, false)
  {
    if bs != [] {
      var n := |bs| - 1;
      ReplacedKeeps(pre, bs[..n], writes, unset, cr, keys);
      assert Ready(bs[n], writes, unset) && Touches(bs[n], writes, unset, keys);
      EditOneOthers(Replaced(pre, bs[..n], writes, unset, cr), bs[n], writes, unset, cr, keys);
      EditOneEntries(Replaced(pre, bs[..n], writes, unset, cr), bs[n], writes, unset, cr, keys);
      Assoc(pre, OthersOf(bs[..n], keys), if bs[n].key in keys then bs[n].rest else BlockLines(bs[n]));
    }
  }

  lemma {:induction false} ReplacedGood(p: Parsed, writes: seq<Write>, unset: seq<string>, cr: string)
    requires GoodParsed(p) && AllReady(p.blocks, writes, unset) && AllEncoded(writes) && Cr(cr)
    ensures GoodParsed(Replaced(p.pre, p.blocks, writes, unset, cr))
    decreases |p.blocks|
  {
    if p.blocks != [] {
      var n := |p.blocks| - 1;
      ReplacedGood(Parsed(p.pre, p.blocks[..n]), writes, unset, cr);
      assert Good(p.blocks[n]) && Ready(p.blocks[n], writes, unset);
      EditOneGood(Replaced(p.pre, p.blocks[..n], writes, unset, cr), p.blocks[n], writes, unset, cr);
    }
  }

  /** A key removed has no entry left; one set keeps as many as it had, each with
      its line. */
  lemma {:induction false} ReplacedByKey(
    pre: seq<string>, bs: seq<Block>, writes: seq<Write>, unset: seq<string>, cr: string, key: string)
    requires AllReady(bs, writes, unset) && AllEncoded(writes) && Cr(cr)
    ensures var es := ByKey(Replaced(pre, bs, writes, unset, cr).blocks, key);
            && (key in unset ==> es == [])
            && (key !in unset && Names(writes, key) ==>
                  && |es| == |ByKey(bs, key)|
                  && forall i :: 0 <= i < |es| ==> es[i] == Entry(LineFor(writes, key) + cr, [], false))
  {
    if bs != [] {
      var n := |bs| - 1;
      ReplacedByKey(pre, bs[..n], writes, unset, cr, key);
      assert Ready(bs[n], writes, unset);
      EditOneByKey(Replaced(pre, bs[..n], writes, unset, cr), bs[n], writes, unset, cr, key);
    }
  }

  // ----- The entries added -----

  lemma SnocKeeps(bs: seq<Block>, c: Block, keys: set<string>)
    requires OthersOf(bs, keys) == [] && Entries(bs, keys, false) == []
    requires c.key in keys && c.rest == []
    ensures OthersOf(bs + [c], keys) == [] && Entries(bs + [c], keys, false) == []
  {
    Snoc(bs, c, keys, false);
  }

  lemma {:induction false} AddedKeeps(bs: seq<Block>, writes: seq<Write>, cr: string, keys: set<string>)
    requires AllEncoded(writes) && Cr(cr)
    requires forall w :: w in writes ==> w.key in keys
    ensures OthersOf(Added(bs, writes, cr), keys) == [] && Entries(Added(bs, writes, cr), keys, false) == []
  {
    if writes != [] {
      var n := |writes| - 1;
      var w := writes[n];
      AddedKeeps(bs, writes[..n], cr, keys);
      assert Encoded(w);
      WrittenIs(w, cr, []);
      if ByKey(bs, w.key) == [] {
        SnocKeeps(Added(bs, writes[..n], cr), KeyLine(w.line + cr), keys);
      } else {
        assert Added(bs, writes, cr) == Added(bs, writes[..n], cr);
      }
    }
  }

  lemma {:induction false} AddedGood(bs: seq<Block>, writes: seq<Write>, cr: string)
    requires AllEncoded(writes) && Cr(cr)
    ensures forall b :: b in Added(bs, writes, cr) ==> Good(b)
  {
    if writes != [] {
      var n := |writes| - 1;
      AddedGood(bs, writes[..n], cr);
      assert Encoded(writes[n]);
      WrittenIs(writes[n], cr, []);
      assert Good(KeyLine(writes[n].line + cr));
    }
  }

  lemma SnocByKey(bs: seq<Block>, c: Block, key: string)
    requires c.rest == []
    ensures ByKey(bs + [c], key) == ByKey(bs, key) + (if c.key == key then [Entry(c.line, c.cont, false)] else [])
  {
    Snoc(bs, c, {key}, true);
  }

  lemma AddedOne(bs: seq<Block>, writes: seq<Write>, cr: string, key: string)
    requires writes != [] && Encoded(writes[|writes| - 1]) && Cr(cr)
    ensures var w := writes[|writes| - 1];
            ByKey(Added(bs, writes, cr), key)
            == ByKey(Added(bs, writes[..|writes| - 1], cr), key)
               + (if ByKey(bs, key) == [] && w.key == key then [Entry(w.line + cr, [], false)] else [])
  {
    var w := writes[|writes| - 1];
    WrittenIs(w, cr, []);
    if ByKey(bs, w.key) == [] {
      SnocByKey(Added(bs, writes[..|writes| - 1], cr), KeyLine(w.line + cr), key);
    } else {
      assert Added(bs, writes, cr) == Added(bs, writes[..|writes| - 1], cr);
    }
  }

  /** A key is added when it is set and had no entry. */
  lemma {:induction false} AddedByKey(bs: seq<Block>, writes: seq<Write>, cr: string, key: string)
    requires AllEncoded(writes) && Distinct(writes) && Cr(cr)
    ensures ByKey(Added(bs, writes, cr), key)
            == if Names(writes, key) && ByKey(bs, key) == [] then [Entry(LineFor(writes, key) + cr, [], false)] else []
  {
    if writes != [] {
      var before := writes[..|writes| - 1];
      AddedByKey(bs, before, cr, key);
      assert Encoded(writes[|writes| - 1]);
      AddedOne(bs, writes, cr, key);
      NamesIff(before, key);
    }
  }

  // ----- The whole edit -----

  /** Every line of another key, comment and blank line stays as it was and where it
      was, and the other entries are read as before. */
  lemma EditKeepsTheRest(p: Parsed, writes: seq<Write>, unset: seq<string>, cr: string)
    requires GoodParsed(p) && Possible(p.blocks, writes, unset) && AllEncoded(writes) && Cr(cr)
    ensures var q := Edited(p, writes, unset, cr);
            var keys := Keys(writes, unset);
            && GoodParsed(q)
            && Others(q, keys) == Others(p, keys)
            && Entries(q.blocks, keys, false) == Entries(p.blocks, keys, false)
  {
    var keys := Keys(writes, unset);
    PossibleIsReady(p.blocks, writes, unset);
    ReplacedKeeps(p.pre, p.blocks, writes, unset, cr, keys);
    AddedKeeps(p.blocks, writes, cr, keys);
    InsertedKeeps(Replaced(p.pre, p.blocks, writes, unset, cr).blocks, Added(p.blocks, writes, cr),
                  BeforeTags(p.blocks, unset), keys, false);
    EditIsGood(p, writes, unset, cr);
  }

  lemma EditIsGood(p: Parsed, writes: seq<Write>, unset: seq<string>, cr: string)
    requires GoodParsed(p) && AllReady(p.blocks, writes, unset) && AllEncoded(writes) && Cr(cr)
    ensures GoodParsed(Edited(p, writes, unset, cr))
  {
    ReplacedGood(p, writes, unset, cr);
    AddedGood(p.blocks, writes, cr);
    InsertedGood(Replaced(p.pre, p.blocks, writes, unset, cr).blocks, Added(p.blocks, writes, cr), BeforeTags(p.blocks, unset));
  }

  lemma InsertedGood(bs: seq<Block>, added: seq<Block>, before: bool)
    requires forall i :: 0 <= i < |bs| ==> Good(bs[i])
    requires forall b :: b in added ==> Good(b)
    ensures forall i :: 0 <= i < |Inserted(bs, added, before)| ==> Good(Inserted(bs, added, before)[i])
  {
  }

  /** Where entries are added does not matter to the lines and entries of others. */
  lemma InsertedKeeps(bs: seq<Block>, added: seq<Block>, before: bool, keys: set<string>, inside: bool)
    requires OthersOf(added, keys) == [] && Entries(added, keys, inside) == []
    ensures OthersOf(Inserted(bs, added, before), keys) == OthersOf(bs, keys)
    ensures Entries(Inserted(bs, added, before), keys, inside) == Entries(bs, keys, inside)
  {
    if before && bs != [] {
      var n := |bs| - 1;
      Snoc(bs[..n] + added, bs[n], keys, inside);
      OthersConcat(bs[..n], added, keys);
      EntriesConcat(bs[..n], added, keys, inside);
    } else {
      OthersConcat(bs, added, keys);
      EntriesConcat(bs, added, keys, inside);
    }
  }

  /** The entries of one key are the same, wherever entries are added. */
  lemma InsertedByKey(bs: seq<Block>, added: seq<Block>, before: bool, key: string)
    requires ByKey(bs, key) == [] || ByKey(added, key) == []
    ensures ByKey(Inserted(bs, added, before), key) == ByKey(bs, key) + ByKey(added, key)
  {
    if before && bs != [] {
      var n := |bs| - 1;
      Snoc(bs[..n] + added, bs[n], {key}, true);
      EntriesConcat(bs[..n], added, {key}, true);
    } else {
      EntriesConcat(bs, added, {key}, true);
    }
  }

  /** Each key set has one entry, with its line, and no key removed has one. */
  lemma EditIsReadBack(p: Parsed, writes: seq<Write>, unset: seq<string>, cr: string, key: string)
    requires Possible(p.blocks, writes, unset) && AllEncoded(writes) && Distinct(writes) && Cr(cr)
    requires Names(writes, key) ==> key !in unset
    ensures var es := ByKey(Edited(p, writes, unset, cr).blocks, key);
            && (Names(writes, key) ==> es == [Entry(LineFor(writes, key) + cr, [], false)])
            && (key in unset ==> es == [])
  {
    PossibleIsReady(p.blocks, writes, unset);
    ReplacedByKey(p.pre, p.blocks, writes, unset, cr, key);
    AddedByKey(p.blocks, writes, cr, key);
    if Names(writes, key) {
      AtMostOne(p.blocks, writes, unset, key);
      EditedByKey(p, writes, unset, cr, key);
    } else if key in unset {
      EditedByKey(p, writes, unset, cr, key);
    }
  }

  lemma AtMostOne(bs: seq<Block>, writes: seq<Write>, unset: seq<string>, key: string)
    requires Possible(bs, writes, unset) && Names(writes, key)
    ensures |ByKey(bs, key)| <= 1
  {
    NamesIff(writes, key);
    var w :| w in writes && w.key == key;
    assert !TooComplex(bs, w.key);
  }

  lemma EditedByKey(p: Parsed, writes: seq<Write>, unset: seq<string>, cr: string, key: string)
    requires ByKey(Replaced(p.pre, p.blocks, writes, unset, cr).blocks, key) == [] || ByKey(Added(p.blocks, writes, cr), key) == []
    ensures ByKey(Edited(p, writes, unset, cr).blocks, key)
            == ByKey(Replaced(p.pre, p.blocks, writes, unset, cr).blocks, key) + ByKey(Added(p.blocks, writes, cr), key)
  {
    InsertedByKey(Replaced(p.pre, p.blocks, writes, unset, cr).blocks, Added(p.blocks, writes, cr),
                  BeforeTags(p.blocks, unset), key);
  }

  // ----- The same edit again -----

  /** An entry of key is one of those ByKey lists. */
  lemma {:induction false} ByKeyHas(bs: seq<Block>, i: nat)
    requires i < |bs|
    ensures EntryOf(bs[i]) in ByKey(bs, bs[i].key)
  {
    if i < |bs| - 1 { ByKeyHas(bs[..|bs| - 1], i); }
  }

  /** The edit is done: what it sets is written as it writes it, what it removes is gone. */
  predicate Done(bs: seq<Block>, writes: seq<Write>, unset: seq<string>, cr: string) {
    && (forall w :: w in writes ==> ByKey(bs, w.key) == [Entry(w.line + cr, [], false)])
    && (forall k :: k in unset ==> ByKey(bs, k) == [])
  }

  lemma EditIsDone(p: Parsed, writes: seq<Write>, unset: seq<string>, cr: string)
    requires Possible(p.blocks, writes, unset) && AllEncoded(writes) && Distinct(writes) && Cr(cr)
    requires forall w :: w in writes ==> w.key !in unset
    ensures Done(Edited(p, writes, unset, cr).blocks, writes, unset, cr)
  {
    forall w | w in writes
      ensures ByKey(Edited(p, writes, unset, cr).blocks, w.key) == [Entry(w.line + cr, [], false)]
    {
      NamesIff(writes, w.key);
      LineForIs(writes, w.key);
      EditIsReadBack(p, writes, unset, cr, w.key);
    }
    forall k | k in unset ensures ByKey(Edited(p, writes, unset, cr).blocks, k) == [] {
      NamesIff(writes, k);
      EditIsReadBack(p, writes, unset, cr, k);
    }
  }

  lemma DoneEntry(bs: seq<Block>, writes: seq<Write>, unset: seq<string>, cr: string, i: nat)
    requires Done(bs, writes, unset, cr) && AllEncoded(writes) && Cr(cr) && i < |bs| && Good(bs[i])
    ensures bs[i].key !in unset && Rewritten(bs[i], writes, cr) == bs[i]
    ensures Names(writes, bs[i].key) ==> Editable(bs[i])
  {
    var b := bs[i];
    ByKeyHas(bs, i);
    if Names(writes, b.key) {
      LineForIs(writes, b.key);
      var w := Write(b.key, LineFor(writes, b.key));
      assert ByKey(bs, w.key) == [Entry(w.line + cr, [], false)];
      WrittenIs(w, cr, b.rest);
    }
  }

  /** An entry the edit leaves as it is. */
  predicate Steady(b: Block, writes: seq<Write>, unset: seq<string>, cr: string) {
    b.key !in unset && Rewritten(b, writes, cr) == b
  }

  lemma {:induction false} SteadyReplaced(pre: seq<string>, bs: seq<Block>, writes: seq<Write>, unset: seq<string>, cr: string)
    requires forall i :: 0 <= i < |bs| ==> Steady(bs[i], writes, unset, cr)
    ensures Replaced(pre, bs, writes, unset, cr) == Parsed(pre, bs)
  {
    if bs != [] {
      var before, b := bs[..|bs| - 1], bs[|bs| - 1];
      SteadyReplaced(pre, before, writes, unset, cr);
      assert Steady(b, writes, unset, cr);
      assert bs == before + [b];
    }
  }

  lemma {:induction false} DoneAdded(bs: seq<Block>, writes: seq<Write>, cr: string)
    requires forall w :: w in writes ==> ByKey(bs, w.key) != []
    ensures Added(bs, writes, cr) == []
  {
    if writes != [] { DoneAdded(bs, writes[..|writes| - 1], cr); }
  }

  lemma DonePossible(p: Parsed, writes: seq<Write>, unset: seq<string>, cr: string)
    requires GoodParsed(p) && Done(p.blocks, writes, unset, cr) && AllEncoded(writes) && Cr(cr)
    ensures Possible(p.blocks, writes, unset)
  {
    forall w | w in writes ensures !TooComplex(p.blocks, w.key) {
      NamesIff(writes, w.key);
      forall b | b in p.blocks && b.key == w.key ensures Editable(b) {
        var j :| 0 <= j < |p.blocks| && p.blocks[j] == b;
        assert Good(b);
        DoneEntry(p.blocks, writes, unset, cr, j);
      }
    }
    forall k | k in unset ensures !Stuck(p.blocks, k) {
      forall b | b in p.blocks ensures b.key != k {
        var j :| 0 <= j < |p.blocks| && p.blocks[j] == b;
        ByKeyHas(p.blocks, j);
      }
    }
  }

  /** An edit that is done is possible, and changes nothing. */
  lemma DoneAgain(p: Parsed, writes: seq<Write>, unset: seq<string>, cr: string)
    requires GoodParsed(p) && Done(p.blocks, writes, unset, cr) && AllEncoded(writes) && Cr(cr)
    ensures Possible(p.blocks, writes, unset) && Edited(p, writes, unset, cr) == p
  {
    DonePossible(p, writes, unset, cr);
    forall i | 0 <= i < |p.blocks| ensures Steady(p.blocks[i], writes, unset, cr) {
      assert Good(p.blocks[i]);
      DoneEntry(p.blocks, writes, unset, cr, i);
    }
    SteadyReplaced(p.pre, p.blocks, writes, unset, cr);
    DoneAdded(p.blocks, writes, cr);
    assert Inserted(p.blocks, [], BeforeTags(p.blocks, unset)) == p.blocks;
  }
}
