/** The loops of SetKeys (internal/frontmatter/frontmatter.go, 74-216), proved to
    give what FrontmatterSet.SetKeys says. */
module FrontmatterMethod {
  import opened Text
  import opened Frontmatter
  import opened FrontmatterEdit
  import opened FrontmatterSet
  import opened FrontmatterSpans
  import opened FrontmatterLoop

  // ----- Entries looked up by key -----

  /** The numbers of the entries of a key: byKey. */
  function IndicesOf(es: seq<Span>, key: string): (r: seq<nat>)
    ensures forall j :: 0 <= j < |r| ==> r[j] < |es| && es[r[j]].key == key
    ensures forall i :: 0 <= i < |es| && es[i].key == key ==> i in r
  {
    if es == [] then []
    else
      var n := |es| - 1;
      IndicesOf(es[..n], key) + (if es[n].key == key then [n] else [])
  }

  lemma {:induction false} IndicesCount(bs: seq<Block>, from: nat, key: string)
    ensures |IndicesOf(Spans(bs, from), key)| == |ByKey(bs, key)|
  {
    if bs != [] {
      var n := |bs| - 1;
      IndicesCount(bs[..n], from, key);
      assert Spans(bs, from)[..n] == Spans(bs[..n], from);
    }
  }

  /** editable, of the entry and the lines that continue it. */
  predicate EditableSpan(e: Span, cont: seq<string>) {
    if e.orphans then false
    else if e.inline != "" then cont == [] && e.inline[0] !in "&|>"
    else forall l :: l in cont ==> PlainItem(l)
  }

  predicate RemovableSpan(e: Span) { !e.orphans && !("&" <= e.inline) }

  /** What the entries found say of a key. */
  lemma LookUp(p: Parsed, lines: seq<string>, closing: nat, key: string)
    requires Holds(lines, p, closing)
    ensures var es, bs := Spans(p.blocks, 1 + |p.pre|), p.blocks;
            var at := IndicesOf(es, key);
            && |at| == |ByKey(bs, key)|
            && (|at| == 0 ==> forall j :: 0 <= j < |bs| ==> bs[j].key != key)
            && (|at| == 1 ==>
                  && at[0] < |bs| && (forall j :: 0 <= j < |bs| ==> (bs[j].key == key <==> j == at[0]))
                  && es[at[0]] == SpanOf(bs[at[0]], Start(bs, 1 + |p.pre|, at[0]))
                  && es[at[0]].end <= closing
                  && lines[es[at[0]].start + 1..es[at[0]].end] == bs[at[0]].cont)
  {
    var es, bs := Spans(p.blocks, 1 + |p.pre|), p.blocks;
    var at := IndicesOf(es, key);
    IndicesCount(bs, 1 + |p.pre|, key);
    SpanKeys(bs, 1 + |p.pre|);
    KeyAt(es, bs, key);
    if |at| == 1 { FoundAt(p, lines, closing, at[0]); }
  }

  lemma SpanKeys(bs: seq<Block>, from: nat)
    ensures forall j :: 0 <= j < |bs| ==> Spans(bs, from)[j].key == bs[j].key
  {
    forall j | 0 <= j < |bs| ensures Spans(bs, from)[j].key == bs[j].key { SpanAt(bs, from, j); }
  }

  lemma KeyAt(es: seq<Span>, bs: seq<Block>, key: string)
    requires |es| == |bs| && forall j :: 0 <= j < |bs| ==> es[j].key == bs[j].key
    ensures var at := IndicesOf(es, key);
            && (|at| == 0 ==> forall j :: 0 <= j < |bs| ==> bs[j].key != key)
            && (|at| == 1 ==> at[0] < |bs| && forall j :: 0 <= j < |bs| ==> (bs[j].key == key <==> j == at[0]))
  {
    var at := IndicesOf(es, key);
    forall j | 0 <= j < |bs| ensures bs[j].key == key ==> j in at { assert es[j].key == bs[j].key; }
    if |at| == 1 { assert at == [at[0]]; }
  }

  lemma FoundAt(p: Parsed, lines: seq<string>, closing: nat, k: nat)
    requires Holds(lines, p, closing) && k < |p.blocks|
    ensures var e := Spans(p.blocks, 1 + |p.pre|)[k];
            && e == SpanOf(p.blocks[k], Start(p.blocks, 1 + |p.pre|, k))
            && e.end <= closing && lines[e.start + 1..e.end] == p.blocks[k].cont
  {
    SpanAt(p.blocks, 1 + |p.pre|, k);
    HeldBlock(lines, p, closing, k);
    ContAt(lines, Start(p.blocks, 1 + |p.pre|, k), p.blocks[k]);
  }

  lemma ContAt(lines: seq<string>, s: nat, b: Block)
    requires LiesAt(lines, s, b)
    ensures lines[s + 1..s + 1 + |b.cont|] == b.cont
  {
    assert lines[s + 1..s + 1 + |b.cont|] == lines[s..s + 1 + |b.cont|][1..];
  }

  /** The checks on the entries found are those of the key. */
  lemma CheckedAs(p: Parsed, lines: seq<string>, closing: nat, key: string)
    requires Holds(lines, p, closing)
    ensures var es := Spans(p.blocks, 1 + |p.pre|);
            var at := IndicesOf(es, key);
            && |at| == |ByKey(p.blocks, key)|
            && (|at| == 1 ==> at[0] < |p.blocks| && es[at[0]].start + 1 <= es[at[0]].end <= closing)
            && (TooComplex(p.blocks, key) <==>
                  |at| > 1 || (|at| == 1 && !EditableSpan(es[at[0]], lines[es[at[0]].start + 1..es[at[0]].end])))
            && (Stuck(p.blocks, key) <==> |at| > 1 || (|at| == 1 && !RemovableSpan(es[at[0]])))
  {
    LookUp(p, lines, closing, key);
    var es, bs := Spans(p.blocks, 1 + |p.pre|), p.blocks;
    var at := IndicesOf(es, key);
    if |at| == 1 {
      var b := bs[at[0]];
      assert b in bs && b.key == key;
      assert forall c :: c in bs && c.key == key ==> c == b;
      assert EditableSpan(es[at[0]], b.cont) <==> Editable(b);
      assert RemovableSpan(es[at[0]]) <==> Removable(b);
    }
    if |at| == 0 {
      assert forall c :: c in bs ==> c.key != key;
    }
  }

  // ----- The lines to replace and to drop -----

  /** The first j writes are marked. */
  ghost predicate MarkedTo(
    p: Parsed, closing: nat, writes: seq<Write>, cr: string, j: nat, drop: set<nat>, replace: map<nat, string>)
  {
    && j <= |writes|
    && AllMarked(p.blocks, 1 + |p.pre|, drop, replace, writes[..j], [], cr)
    && Within(drop, replace, 1 + |p.pre|, closing)
  }

  /** The lines of those of the first j writes that had no entry. */
  ghost predicate AddedTo(p: Parsed, writes: seq<Write>, cr: string, j: nat, added: seq<string>) {
    j <= |writes| && added == BlocksLines(Added(p.blocks, writes[..j], cr))
  }

  lemma AddedNext(p: Parsed, writes: seq<Write>, cr: string, j: nat, added: seq<string>)
    requires AddedTo(p, writes, cr, j, added) && j < |writes|
    ensures AddedTo(p, writes, cr, j + 1, added + if ByKey(p.blocks, writes[j].key) != [] then [] else [writes[j].line + cr])
  {
    AddedLines(p.blocks, writes, cr, j);
  }

  lemma MarkedNone(
    p: Parsed, lines: seq<string>, closing: nat, writes: seq<Write>, cr: string, j: nat, drop: set<nat>,
    replace: map<nat, string>)
    requires Holds(lines, p, closing) && MarkedTo(p, closing, writes, cr, j, drop, replace) && j < |writes|
    requires IndicesOf(Spans(p.blocks, 1 + |p.pre|), writes[j].key) == []
    ensures MarkedTo(p, closing, writes, cr, j + 1, drop, replace)
  {
    LookUp(p, lines, closing, writes[j].key);
    MarkNone(p.blocks, 1 + |p.pre|, drop, replace, writes, j, cr);
  }

  lemma Only(p: Parsed, lines: seq<string>, closing: nat, key: string, k: nat)
    requires Holds(lines, p, closing) && IndicesOf(Spans(p.blocks, 1 + |p.pre|), key) == [k] && k < |p.blocks|
    ensures forall i :: 0 <= i < |p.blocks| ==> (p.blocks[i].key == key <==> i == k)
    ensures var e := Spans(p.blocks, 1 + |p.pre|)[k];
            && e == SpanOf(p.blocks[k], Start(p.blocks, 1 + |p.pre|, k))
            && 1 + |p.pre| <= e.start < e.end <= closing
  {
    LookUp(p, lines, closing, key);
  }

  lemma MarkedOne(
    p: Parsed, lines: seq<string>, closing: nat, writes: seq<Write>, cr: string, j: nat, drop: set<nat>,
    replace: map<nat, string>, k: nat, e: Span)
    requires Holds(lines, p, closing) && MarkedTo(p, closing, writes, cr, j, drop, replace) && j < |writes|
    requires Distinct(writes) && IndicesOf(Spans(p.blocks, 1 + |p.pre|), writes[j].key) == [k]
    requires k < |p.blocks| && e == Spans(p.blocks, 1 + |p.pre|)[k]
    ensures MarkedTo(p, closing, writes, cr, j + 1, drop + Range(e.start + 1, e.end), replace[e.start := writes[j].line + cr])
  {
    Only(p, lines, closing, writes[j].key, k);
    MarkedOnly(p, closing, writes, cr, j, drop, replace, k, e);
    WithinStays(drop, replace, 1 + |p.pre|, closing, e.start, e.end, writes[j].line + cr);
  }

  lemma MarkedOnly(
    p: Parsed, closing: nat, writes: seq<Write>, cr: string, j: nat, drop: set<nat>, replace: map<nat, string>,
    k: nat, e: Span)
    requires MarkedTo(p, closing, writes, cr, j, drop, replace) && j < |writes| && Distinct(writes)
    requires k < |p.blocks| && e == SpanOf(p.blocks[k], Start(p.blocks, 1 + |p.pre|, k))
    requires forall i :: 0 <= i < |p.blocks| ==> (p.blocks[i].key == writes[j].key <==> i == k)
    ensures AllMarked(p.blocks, 1 + |p.pre|, drop + Range(e.start + 1, e.end), replace[e.start := writes[j].line + cr],
                      writes[..j + 1], [], cr)
  {
    NotYet(writes, j);
    EntryMarked(p.blocks, 1 + |p.pre|, drop, replace, writes, j, cr, k, e);
  }

  lemma EntryMarked(
    bs: seq<Block>, from: nat, drop: set<nat>, replace: map<nat, string>, writes: seq<Write>, j: nat, cr: string,
    k: nat, e: Span)
    requires j < |writes| && k < |bs| && AllMarked(bs, from, drop, replace, writes[..j], [], cr)
    requires !Names(writes[..j], writes[j].key) && e == SpanOf(bs[k], Start(bs, from, k))
    requires forall i :: 0 <= i < |bs| ==> (bs[i].key == writes[j].key <==> i == k)
    ensures AllMarked(bs, from, drop + Range(e.start + 1, e.end), replace[e.start := writes[j].line + cr],
                      writes[..j + 1], [], cr)
  {
    var drop2, replace2 := MarkSet(bs, from, drop, replace, writes, j, cr, k);
  }

  lemma WithinStays(drop: set<nat>, replace: map<nat, string>, from: nat, closing: nat, lo: nat, hi: nat, line: string)
    requires Within(drop, replace, from, closing) && from <= lo < hi <= closing
    ensures Within(drop + Range(lo + 1, hi), replace[lo := line], from, closing)
  {
  }

  /** One key set. */
  method MarkWrite(
    ghost p: Parsed, lines: seq<string>, closing: nat, es: seq<Span>, writes: seq<Write>, cr: string, j: nat,
    drop: set<nat>, replace: map<nat, string>)
    returns (err: Option<Error>, drop2: set<nat>, replace2: map<nat, string>, added: seq<string>)
    requires Holds(lines, p, closing) && es == Spans(p.blocks, 1 + |p.pre|) && Distinct(writes)
    requires j < |writes| && MarkedTo(p, closing, writes, cr, j, drop, replace)
    ensures err == if TooComplex(p.blocks, writes[j].key) then Some(Complex(writes[j].key)) else None
    ensures err.None? ==>
              && MarkedTo(p, closing, writes, cr, j + 1, drop2, replace2)
              && added == if ByKey(p.blocks, writes[j].key) != [] then [] else [writes[j].line + cr]
  {
    err, drop2, replace2, added := None, drop, replace, [];
    var w := writes[j];
    var at := IndicesOf(es, w.key);
    CheckedAs(p, lines, closing, w.key);
    if |at| > 1 {
      err := Some(Complex(w.key));
    } else if |at| == 0 {
      MarkedNone(p, lines, closing, writes, cr, j, drop, replace);
      added := [w.line + cr];
    } else {
      var k := at[0];
      var e := es[k];
      assert at == [k];
      if !EditableSpan(e, lines[e.start + 1..e.end]) {
        err := Some(Complex(w.key));
      } else {
        MarkedOne(p, lines, closing, writes, cr, j, drop, replace, k, e);
        replace2 := replace[e.start := w.line + cr];
        drop2 := drop + Range(e.start + 1, e.end);
      }
    }
  }

  method MarkWrites(ghost p: Parsed, lines: seq<string>, closing: nat, es: seq<Span>, writes: seq<Write>, cr: string)
    returns (err: Option<Error>, drop: set<nat>, replace: map<nat, string>, added: seq<string>)
    requires Holds(lines, p, closing) && es == Spans(p.blocks, 1 + |p.pre|) && Distinct(writes)
    ensures err == FirstComplex(p.blocks, writes)
    ensures err.None? ==>
              MarkedTo(p, closing, writes, cr, |writes|, drop, replace) && AddedTo(p, writes, cr, |writes|, added)
  {
    err, drop, replace, added := None, {}, map[], [];
    for j := 0 to |writes|
      invariant FirstComplex(p.blocks, writes) == FirstComplex(p.blocks, writes[j..])
      invariant MarkedTo(p, closing, writes, cr, j, drop, replace) && AddedTo(p, writes, cr, j, added)
      invariant err.None?
    {
      FirstNext(p.blocks, writes, j);
      AddedNext(p, writes, cr, j, added);
      var more: seq<string>;
      err, drop, replace, more := MarkWrite(p, lines, closing, es, writes, cr, j, drop, replace);
      if err.Some? { return; }
      added := added + more;
    }
  }

  lemma FirstNext(bs: seq<Block>, writes: seq<Write>, j: nat)
    requires j < |writes|
    ensures FirstComplex(bs, writes[j..])
            == if TooComplex(bs, writes[j].key) then Some(Complex(writes[j].key)) else FirstComplex(bs, writes[j + 1..])
  {
    assert writes[j..][1..] == writes[j + 1..];
  }

  lemma NotYet(writes: seq<Write>, j: nat)
    requires Distinct(writes) && j < |writes|
    ensures !Names(writes[..j], writes[j].key)
  {
    NamesIff(writes[..j], writes[j].key);
  }

  /** The writes, and the first j keys removed, are marked. */
  ghost predicate RemovedTo(
    p: Parsed, closing: nat, writes: seq<Write>, unset: seq<string>, cr: string, j: nat, drop: set<nat>,
    replace: map<nat, string>)
  {
    && j <= |unset|
    && AllMarked(p.blocks, 1 + |p.pre|, drop, replace, writes, unset[..j], cr)
    && Within(drop, replace, 1 + |p.pre|, closing)
  }

  lemma RemovedNone(
    p: Parsed, lines: seq<string>, closing: nat, writes: seq<Write>, unset: seq<string>, cr: string, j: nat,
    drop: set<nat>, replace: map<nat, string>)
    requires Holds(lines, p, closing) && RemovedTo(p, closing, writes, unset, cr, j, drop, replace) && j < |unset|
    requires IndicesOf(Spans(p.blocks, 1 + |p.pre|), unset[j]) == []
    ensures RemovedTo(p, closing, writes, unset, cr, j + 1, drop, replace)
  {
    LookUp(p, lines, closing, unset[j]);
    UnmarkNone(p.blocks, 1 + |p.pre|, drop, replace, writes, unset, j, cr);
  }

  lemma RemovedOne(
    p: Parsed, lines: seq<string>, closing: nat, writes: seq<Write>, unset: seq<string>, cr: string, j: nat,
    drop: set<nat>, replace: map<nat, string>, k: nat, e: Span)
    requires Holds(lines, p, closing) && RemovedTo(p, closing, writes, unset, cr, j, drop, replace) && j < |unset|
    requires !Names(writes, unset[j]) && IndicesOf(Spans(p.blocks, 1 + |p.pre|), unset[j]) == [k]
    requires k < |p.blocks| && e == Spans(p.blocks, 1 + |p.pre|)[k]
    ensures RemovedTo(p, closing, writes, unset, cr, j + 1, drop + Range(e.start, e.end), replace)
  {
    Only(p, lines, closing, unset[j], k);
    var drop2 := MarkUnset(p.blocks, 1 + |p.pre|, drop, replace, writes, unset, j, cr, k);
  }

  lemma StuckNext(bs: seq<Block>, unset: seq<string>, j: nat)
    requires j < |unset|
    ensures FirstStuck(bs, unset[j..])
            == if Stuck(bs, unset[j]) then Some(Complex(unset[j])) else FirstStuck(bs, unset[j + 1..])
  {
    assert unset[j..][1..] == unset[j + 1..];
  }

  /** One key removed. */
  method MarkOneRemoved(
    ghost p: Parsed, lines: seq<string>, closing: nat, es: seq<Span>, ghost writes: seq<Write>, unset: seq<string>,
    ghost cr: string, j: nat, drop: set<nat>, ghost replace: map<nat, string>)
    returns (err: Option<Error>, drop2: set<nat>)
    requires Holds(lines, p, closing) && es == Spans(p.blocks, 1 + |p.pre|)
    requires j < |unset| && !Names(writes, unset[j]) && RemovedTo(p, closing, writes, unset, cr, j, drop, replace)
    ensures err == if Stuck(p.blocks, unset[j]) then Some(Complex(unset[j])) else None
    ensures err.None? ==> RemovedTo(p, closing, writes, unset, cr, j + 1, drop2, replace)
  {
    err, drop2 := None, drop;
    var key := unset[j];
    var at := IndicesOf(es, key);
    CheckedAs(p, lines, closing, key);
    if |at| > 1 {
      err := Some(Complex(key));
    } else if |at| == 0 {
      RemovedNone(p, lines, closing, writes, unset, cr, j, drop, replace);
    } else {
      var k := at[0];
      var e := es[k];
      assert at == [k];
      if !RemovableSpan(e) {
        err := Some(Complex(key));
      } else {
        RemovedOne(p, lines, closing, writes, unset, cr, j, drop, replace, k, e);
        drop2 := drop + Range(e.start, e.end);
      }
    }
  }

  method MarkRemoved(
    ghost p: Parsed, lines: seq<string>, closing: nat, es: seq<Span>, ghost writes: seq<Write>, unset: seq<string>,
    ghost cr: string, marked: set<nat>, ghost replace: map<nat, string>)
    returns (err: Option<Error>, drop: set<nat>)
    requires Holds(lines, p, closing) && es == Spans(p.blocks, 1 + |p.pre|)
    requires forall k :: k in unset ==> !Names(writes, k)
    requires RemovedTo(p, closing, writes, unset, cr, 0, marked, replace)
    ensures err == FirstStuck(p.blocks, unset)
    ensures err.None? ==> RemovedTo(p, closing, writes, unset, cr, |unset|, drop, replace)
  {
    err, drop := None, marked;
    for j := 0 to |unset|
      invariant FirstStuck(p.blocks, unset) == FirstStuck(p.blocks, unset[j..])
      invariant RemovedTo(p, closing, writes, unset, cr, j, drop, replace)
      invariant err.None?
    {
      StuckNext(p.blocks, unset, j);
      err, drop := MarkOneRemoved(p, lines, closing, es, writes, unset, cr, j, drop, replace);
      if err.Some? { return; }
    }
  }

  // ----- The lines written -----

  function Min(a: nat, b: nat): nat { if a < b then a else b }

  /** What is written between the marks, up to line i. */
  function RawTo(
    lines: seq<string>, closing: nat, insertAt: nat, added: seq<string>, drop: set<nat>, replace: map<nat, string>, i: nat)
    : seq<string>
    requires 1 <= insertAt <= closing < |lines| && 1 <= i
  {
    if i <= insertAt then Emit(lines, drop, replace, 1, i)
    else Emit(lines, drop, replace, 1, insertAt) + added + Emit(lines, drop, replace, insertAt, Min(i, closing))
  }

  /** One more line written. */
  function LineAt(lines: seq<string>, drop: set<nat>, replace: map<nat, string>, i: nat): seq<string>
    requires i < |lines|
  {
    if i in drop then [] else if i in replace then [replace[i]] else [lines[i]]
  }

  lemma EmitNext(lines: seq<string>, drop: set<nat>, replace: map<nat, string>, lo: nat, i: nat)
    requires lo <= i < |lines|
    ensures Emit(lines, drop, replace, lo, i + 1) == Emit(lines, drop, replace, lo, i) + LineAt(lines, drop, replace, i)
    ensures Emit(lines, drop, replace, i, i) == []
  {
  }

  lemma RawNext(
    lines: seq<string>, closing: nat, insertAt: nat, added: seq<string>, drop: set<nat>, replace: map<nat, string>, i: nat)
    requires 1 <= insertAt <= closing < |lines| && 1 <= i < |lines|
    ensures RawTo(lines, closing, insertAt, added, drop, replace, i + 1)
            == RawTo(lines, closing, insertAt, added, drop, replace, i)
               + (if i == insertAt then added else [])
               + (if i >= closing then [] else LineAt(lines, drop, replace, i))
  {
    var l := LineAt(lines, drop, replace, i);
    if i < insertAt {
      EmitNext(lines, drop, replace, 1, i);
    } else if i < closing {
      EmitNext(lines, drop, replace, insertAt, i);
      Assoc(Emit(lines, drop, replace, 1, insertAt) + added, Emit(lines, drop, replace, insertAt, i), l);
    } else {
      EmitNext(lines, drop, replace, insertAt, insertAt);
    }
  }

  /** The lines before i are written. */
  ghost predicate WrittenTo(
    lines: seq<string>, closing: nat, insertAt: nat, added: seq<string>, drop: set<nat>, replace: map<nat, string>, i: nat,
    out: seq<string>, raw: seq<string>)
    requires 1 <= insertAt <= closing < |lines|
  {
    if i == 0 then out == [] && raw == []
    else
      && i <= |lines| && raw == RawTo(lines, closing, insertAt, added, drop, replace, i)
      && out == [lines[0]] + raw + lines[closing..if i <= closing then closing else i]
  }

  lemma WrittenNext(
    lines: seq<string>, closing: nat, insertAt: nat, added: seq<string>, drop: set<nat>, replace: map<nat, string>, i: nat,
    out: seq<string>, raw: seq<string>)
    requires 1 <= insertAt <= closing < |lines| && Within(drop, replace, 1, closing) && i < |lines|
    requires WrittenTo(lines, closing, insertAt, added, drop, replace, i, out, raw)
    ensures var before := if i == insertAt then added else [];
            var l := LineAt(lines, drop, replace, i);
            WrittenTo(lines, closing, insertAt, added, drop, replace, i + 1, out + before + l,
                      raw + before + if 0 < i < closing then l else [])
  {
    var before := if i == insertAt then added else [];
    var l := LineAt(lines, drop, replace, i);
    if i == 0 {
      assert lines[closing..closing] == [];
    } else {
      RawNext(lines, closing, insertAt, added, drop, replace, i);
      if i < closing {
        assert lines[closing..closing] == [];
        Appended(lines[0], raw, before, l);
      } else {
        assert lines[closing..i + 1] == lines[closing..i] + l;
        Tail(lines[0], raw, before, lines[closing..i], l);
      }
    }
  }

  lemma Appended(first: string, raw: seq<string>, before: seq<string>, l: seq<string>)
    ensures [first] + raw + [] + before + l == [first] + (raw + before + l) + []
  {
  }

  lemma Tail(first: string, raw: seq<string>, before: seq<string>, rest: seq<string>, l: seq<string>)
    ensures before == [] || rest == [] ==> [first] + raw + rest + before + l == [first] + (raw + before + []) + (rest + l)
  {
  }

  method WriteLines(
    lines: seq<string>, closing: nat, insertAt: nat, added: seq<string>, drop: set<nat>, replace: map<nat, string>)
    returns (out: seq<string>, raw: seq<string>)
    requires 1 <= insertAt <= closing < |lines| && Within(drop, replace, 1, closing)
    ensures raw == Emit(lines, drop, replace, 1, insertAt) + added + Emit(lines, drop, replace, insertAt, closing)
    ensures out == [lines[0]] + raw + lines[closing..]
  {
    out, raw := [], [];
    for i := 0 to |lines|
      invariant WrittenTo(lines, closing, insertAt, added, drop, replace, i, out, raw)
    {
      WrittenNext(lines, closing, insertAt, added, drop, replace, i, out, raw);
      if i == insertAt {
        out, raw := out + added, raw + added;
      }
      if i !in drop {
        var l := if i in replace then replace[i] else lines[i];
        out := out + [l];
        if 0 < i < closing { raw := raw + [l]; }
      }
    }
    assert lines[closing..|lines|] == lines[closing..];
  }

  lemma BlockHolds(lines: seq<string>)
    requires HasBlock(lines)
    ensures Holds(lines, Parse(BlockOf(lines)), ClosingFrom(lines, 1))
  {
    ParseGood(BlockOf(lines));
  }

  method EditLines(lines: seq<string>, fields: seq<Field>, unset: seq<string>, valid: seq<string> -> bool)
    returns (r: Result<seq<string>>)
    requires HasBlock(lines) && HaveLines(fields) && Distinct(WritesOf(fields))
    requires forall k :: k in unset ==> !Names(WritesOf(fields), k)
    ensures r == EditBlock(lines, fields, unset, valid)
  {
    var closing := ClosingFrom(lines, 1);
    BlockHolds(lines);
    var entries := ParseEntries(lines, closing);
    r := EditEntries(Parse(BlockOf(lines)), lines, closing, entries, fields, unset, valid);
  }

  /** The loops over the keys, and the last one. */
  method EditEntries(
    ghost p: Parsed, lines: seq<string>, closing: nat, es: seq<Span>, fields: seq<Field>, unset: seq<string>,
    valid: seq<string> -> bool)
    returns (r: Result<seq<string>>)
    requires Holds(lines, p, closing) && es == Spans(p.blocks, 1 + |p.pre|)
    requires HaveLines(fields) && Distinct(WritesOf(fields))
    requires forall k :: k in unset ==> !Names(WritesOf(fields), k)
    ensures r == EditOf(p, lines, closing, fields, unset, valid)
  {
    var writes, cr := WritesOf(fields), CrOf(lines[0]);
    var err, marked, replace, added := MarkWrites(p, lines, closing, es, writes, cr);
    if err.Some? { return Err(err.value); }
    AllWrites(p, closing, writes, unset, cr, marked, replace, added);
    var stuck, drop := MarkRemoved(p, lines, closing, es, writes, unset, cr, marked, replace);
    if stuck.Some? { return Err(stuck.value); }
    AllRemoved(p, closing, writes, unset, cr, drop, replace);
    r := WriteEdited(p, lines, closing, es, writes, fields, unset, cr, drop, replace, added, valid);
  }

  lemma AllWrites(
    p: Parsed, closing: nat, writes: seq<Write>, unset: seq<string>, cr: string, drop: set<nat>,
    replace: map<nat, string>, added: seq<string>)
    requires MarkedTo(p, closing, writes, cr, |writes|, drop, replace) && AddedTo(p, writes, cr, |writes|, added)
    ensures RemovedTo(p, closing, writes, unset, cr, 0, drop, replace) && added == BlocksLines(Added(p.blocks, writes, cr))
  {
    assert writes[..|writes|] == writes && unset[..0] == [];
  }

  lemma AllRemoved(
    p: Parsed, closing: nat, writes: seq<Write>, unset: seq<string>, cr: string, drop: set<nat>,
    replace: map<nat, string>)
    requires RemovedTo(p, closing, writes, unset, cr, |unset|, drop, replace)
    ensures AllMarked(p.blocks, 1 + |p.pre|, drop, replace, writes, unset, cr)
    ensures Within(drop, replace, 1 + |p.pre|, closing)
  {
    assert unset[..|unset|] == unset;
  }

  /** The last loop, and the checks of what it wrote. */
  method WriteEdited(
    ghost p: Parsed, lines: seq<string>, closing: nat, es: seq<Span>, ghost writes: seq<Write>, fields: seq<Field>,
    unset: seq<string>, ghost cr: string, drop: set<nat>, replace: map<nat, string>, added: seq<string>,
    valid: seq<string> -> bool)
    returns (r: Result<seq<string>>)
    requires Holds(lines, p, closing) && es == Spans(p.blocks, 1 + |p.pre|)
    requires AllMarked(p.blocks, 1 + |p.pre|, drop, replace, writes, unset, cr)
    requires Within(drop, replace, 1 + |p.pre|, closing) && added == BlocksLines(Added(p.blocks, writes, cr))
    ensures var after := Lines(Edited(p, writes, unset, cr));
            var e := WriteError(lines[1..closing], after, fields, valid);
            r == if e.Some? then Err(e.value) else Ok([lines[0]] + after + lines[closing..])
  {
    var insertAt := InsertionPoint(p, lines, closing, es, unset);
    EmittedIsEdited(lines, p, closing, drop, replace, writes, unset, cr);
    var out, raw := WriteLines(lines, closing, insertAt, added, drop, replace);
    var e := WriteError(lines[1..closing], raw, fields, valid);
    return if e.Some? then Err(e.value) else Ok(out);
  }

  /** insertAt. */
  method InsertionPoint(ghost p: Parsed, lines: seq<string>, closing: nat, es: seq<Span>, unset: seq<string>)
    returns (at: nat)
    requires Holds(lines, p, closing) && es == Spans(p.blocks, 1 + |p.pre|)
    ensures at == InsertAt(p.blocks, 1 + |p.pre|, closing, unset)
  {
    at := closing;
    IndicesCount(p.blocks, 1 + |p.pre|, "tags");
    if es != [] {
      SpanAt(p.blocks, 1 + |p.pre|, |es| - 1);
      if es[|es| - 1].key == "tags" && |IndicesOf(es, "tags")| == 1 && "tags" !in unset {
        at := es[|es| - 1].start;
      }
    }
  }

  /** The whole of SetKeys. */
  method SetLines(lines: seq<string>, fields: seq<Field>, unset: seq<string>, valid: seq<string> -> bool)
    returns (r: Result<seq<string>>)
    requires lines != []
    ensures r == SetKeys(lines, fields, unset, valid)
  {
    var bad := FieldError(fields);
    if bad.Some? { return Err(bad.value); }
    bad := UnsetError(fields, unset);
    if bad.Some? { return Err(bad.value); }
    NoFieldError(fields);
    NoUnsetError(fields, unset);
    if !Marks(lines[0]) {
      return Ok(if fields == [] then lines else NewBlock(lines, WritesOf(fields)));
    }
    if ClosingFrom(lines, 1) == |lines| { return Err(Unterminated); }
    forall k | k in unset ensures !Names(WritesOf(fields), k) {
      NamesIff(WritesOf(fields), k);
      assert forall i :: 0 <= i < |fields| ==> fields[i] in fields;
    }
    r := EditLines(lines, fields, unset, valid);
  }
}
