/** A frontmatter edit said on the lines of the note alone: which lines are of a key, which
    an edit takes out, and which it refuses to (internal/frontmatter/frontmatter.go). */
module FrontmatterLines {
  import opened Text
  import opened Frontmatter
  import opened FrontmatterEdit
  import opened FrontmatterSpans

  // ----- One line -----

  /** A line of key k with value v: the key, a colon, and the value between blanks. */
  ghost predicate KeyAt(l: string, k: string, v: string) {
    && ValidKey(k) && Trimmed(v)
    && exists a, b :: Blank(a) && Blank(b) && l == k + ":" + a + v + b
  }

  ghost predicate Heads(l: string, k: string) { exists v :: KeyAt(l, k, v) }

  /** A line that goes on the one before: indented, or of a block list. */
  predicate GoesOn(l: string) { l != "" && (l[0] == ' ' || l[0] == '\t' || l[0] == '-') }

  /** A plain scalar of a block list: it opens no list, map, quote of YAML or other node, and
      is no map itself. */
  predicate Scalar(item: string) {
    && item != "" && Trimmed(item)
    && item[0] != '-' && item[0] != '[' && item[0] != '{' && item[0] != '|' && item[0] != '>'
    && item[0] != '&' && item[0] != '*' && item[0] != '!' && item[0] != '?'
    && forall i :: 0 <= i < |item| - 1 ==> !(item[i] == ':' && item[i + 1] == ' ')
  }

  ghost predicate ScalarLine(l: string) {
    exists a, g, item, b :: Blank(a) && Blank(g) && Blank(b) && Scalar(item) && l == a + "- " + g + item + b
  }

  lemma {:induction false} BareSplits(l: string) returns (b: string)
    ensures l == Bare(l) + b && Blank(b)
    ensures Bare(l) != "" ==> Bare(l)[|Bare(l)| - 1] != '\r'
  {
    b := "";
    if l != "" && l[|l| - 1] == '\r' {
      var c := BareSplits(l[..|l| - 1]);
      b := c + ['\r'];
      assert l == l[..|l| - 1] + ['\r'];
    }
  }

  lemma TrimBare(l: string)
    ensures TrimSpace(Bare(l)) == TrimSpace(l)
  {
    var cr := BareSplits(l);
    var a, b := TrimSplits(Bare(l));
    var s := TrimSpace(Bare(l));
    assert l == a + s + (b + cr);
    TrimIs(a, s, b + cr);
  }

  lemma ColonSpace(item: string)
    ensures Contains(item, ": ") <==> exists i :: 0 <= i < |item| - 1 && item[i] == ':' && item[i + 1] == ' '
  {
    if i :| 0 <= i < |item| - 1 && item[i] == ':' && item[i + 1] == ' ' {
      assert item[i..][..2] == ": ";
    }
    if Contains(item, ": ") {
      var i :| 0 <= i <= |item| && ": " <= item[i..];
      assert item[i..][0] == item[i] && item[i..][1] == item[i + 1];
    }
  }

  /** The lines an edit takes for items of a list of scalars are those. */
  lemma PlainIsScalar(l: string)
    ensures PlainItem(l) <==> ScalarLine(l)
  {
    TrimBare(l);
    var t := TrimSpace(l);
    if PlainItem(l) {
      var a, b := TrimSplits(l);
      var g, c := TrimSplits(t[2..]);
      var item := TrimSpace(t[2..]);
      ColonSpace(item);
      ScalarParts(l, a, g, item, c, b);
    }
    if ScalarLine(l) {
      var a, g, item, b :| Blank(a) && Blank(g) && Blank(b) && Scalar(item) && l == a + "- " + g + item + b;
      PartsPlain(l, a, g, item, b);
    }
  }

  lemma Regroup(a: string, d: string, g: string, item: string, c: string, b: string)
    ensures a + (d + (g + item + c)) + b == a + d + g + item + (c + b)
  {
    var x := g + item;
    assert d + (x + c) == (d + x) + c;
    assert a + ((d + x) + c) == (a + (d + x)) + c;
    assert a + (d + x) == a + d + g + item;
    assert (a + d + g + item + c) + b == a + d + g + item + (c + b);
  }

  lemma ScalarParts(l: string, a: string, g: string, item: string, c: string, b: string)
    requires Blank(a) && Blank(g) && Blank(c) && Blank(b) && Scalar(item)
    requires l == a + TrimSpace(l) + b && "- " <= TrimSpace(l) && TrimSpace(l)[2..] == g + item + c
    ensures ScalarLine(l)
  {
    var t := TrimSpace(l);
    assert t == t[..2] + t[2..];
    Regroup(a, "- ", g, item, c, b);
    ScalarIs(l, a, g, item, c + b);
  }

  lemma ScalarIs(l: string, a: string, g: string, item: string, b: string)
    requires Blank(a) && Blank(g) && Blank(b) && Scalar(item) && l == a + "- " + g + item + b
    ensures ScalarLine(l)
  {
  }

  lemma PartsPlain(l: string, a: string, g: string, item: string, b: string)
    requires Blank(a) && Blank(g) && Blank(b) && Scalar(item) && l == a + "- " + g + item + b
    ensures PlainItem(l)
  {
    var t := "- " + g + item;
    assert t[0] == '-' && t[|t| - 1] == item[|item| - 1];
    assert l == a + t + b;
    TrimIs(a, t, b);
    TrimBare(l);
    assert t[2..] == g + item + "";
    TrimIs(g, item, "");
    ColonSpace(item);
  }

  lemma KeyHasNoColon(k: string)
    requires ValidKey(k)
    ensures ':' !in k
  {
  }

  /** The lines read as key lines are those of a key and a value. */
  lemma KeyLineIs(l: string, k: string, v: string)
    ensures IsKey(l) && KeyOf(l) == k && InlineOf(l) == v <==> KeyAt(l, k, v)
  {
    if IsKey(l) && KeyOf(l) == k && InlineOf(l) == v { ReadIsWritten(l, k, v); }
    if KeyAt(l, k, v) {
      var a, b :| Blank(a) && Blank(b) && l == k + ":" + a + v + b;
      WrittenIsRead(l, k, v, a, b);
    }
  }

  lemma ReadIsWritten(l: string, k: string, v: string)
    requires IsKey(l) && KeyOf(l) == k && InlineOf(l) == v
    ensures KeyAt(l, k, v)
  {
    var cr := BareSplits(l);
    var bare := Bare(l);
    var rest := bare[|k| + 1..];
    var a, b := TrimSplits(rest);
    assert bare == k + ":" + rest;
    Onward(k + ":", a, v, b, cr);
    KeyIs(l, k, v, a, b + cr);
  }

  lemma Onward(k: string, a: string, v: string, b: string, cr: string)
    ensures k + (a + v + b) + cr == k + a + v + (b + cr)
  {
    assert k + ((a + v) + b) == (k + (a + v)) + b;
    assert k + (a + v) == k + a + v;
  }

  lemma KeyIs(l: string, k: string, v: string, a: string, b: string)
    requires ValidKey(k) && Trimmed(v) && Blank(a) && Blank(b) && l == k + ":" + a + v + b
    ensures KeyAt(l, k, v)
  {
  }

  lemma WrittenIsRead(l: string, k: string, v: string, a: string, b: string)
    requires ValidKey(k) && Trimmed(v) && Blank(a) && Blank(b) && l == k + ":" + a + v + b
    ensures IsKey(l) && KeyOf(l) == k && InlineOf(l) == v
  {
    var tail := a + v + b;
    assert l == (k + ":") + tail by { Onward(k + ":", a, v, b, ""); assert (k + ":") + tail + "" == (k + ":") + tail; }
    var cr := BareSplits(l);
    BareKey(l, Bare(l), cr, k, tail);
    var rest := Bare(l)[|k| + 1..];
    var c, d := TrimSplits(rest);
    TrimIs(a, v, b);
    Onward("", c, TrimSpace(rest), d, cr);
    assert "" + (c + TrimSpace(rest) + d) == rest && "" + c == c;
    TrimIs(c, TrimSpace(rest), d + cr);
  }

  lemma BareKey(l: string, bare: string, cr: string, k: string, tail: string)
    requires ValidKey(k) && l == (k + ":") + tail && l == bare + cr && Blank(cr)
    ensures |k| < |bare| && bare[..|k|] == k && IndexOf(bare, ':') == |k| && bare[|k| + 1..] + cr == tail
  {
    KeyHasNoColon(k);
    ColonIn(l, bare, cr, |k|);
    Beginning(bare, cr, k + ":", tail);
    FirstColon(bare, k);
  }

  lemma ColonIn(l: string, bare: string, cr: string, n: nat)
    requires l == bare + cr && Blank(cr) && n < |l| && l[n] == ':'
    ensures n < |bare|
  {
    forall i | |bare| <= i < |l| ensures IsSpace(l[i]) { assert l[i] == cr[i - |bare|]; }
  }

  lemma Beginning(bare: string, cr: string, k: string, tail: string)
    requires bare + cr == k + tail && |k| <= |bare|
    ensures bare[..|k|] == k && bare[|k|..] + cr == tail
  {
    assert (bare + cr)[..|k|] == k && (bare + cr)[|k|..] == tail;
    assert (bare + cr)[|k|..] == bare[|k|..] + cr;
  }

  lemma FirstColon(bare: string, k: string)
    requires |k| < |bare| && bare[..|k| + 1] == k + ":" && ':' !in k
    ensures bare[..|k|] == k && IndexOf(bare, ':') == |k|
  {
    assert bare[..|k| + 1][..|k|] == bare[..|k|] && bare[|k|] == bare[..|k| + 1][|k|];
    assert forall i :: 0 <= i < |k| ==> bare[i] == bare[..|k|][i];
  }

  lemma HeadsIs(l: string, k: string)
    ensures Heads(l, k) <==> IsKey(l) && KeyOf(l) == k
  {
    if IsKey(l) { KeyLineIs(l, KeyOf(l), InlineOf(l)); }
    if Heads(l, k) {
      var v :| KeyAt(l, k, v);
      KeyLineIs(l, k, v);
    }
  }

  lemma GoesOnIs(l: string)
    ensures GoesOn(l) <==> Continues(l)
  {
    var b := BareSplits(l);
    if Bare(l) != "" { assert l[0] == Bare(l)[0]; }
    if Bare(l) == "" && l != "" { BareEmpty(l); }
  }

  lemma {:induction false} BareEmpty(l: string)
    requires Bare(l) == "" && l != ""
    ensures l[0] == '\r'
  {
    if |l| > 1 { BareEmpty(l[..|l| - 1]); }
  }
}
