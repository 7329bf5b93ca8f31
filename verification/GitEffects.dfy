/** What each action does to the files of the vault, said on its own, and that a write
    names exactly the files it may change (internal/gitsync/writes.go, covers). */
module GitEffects {
  import opened Text
  import opened GitWrites
  import opened GitGroups

  // ----- The files before and after a write -----

  /** The files by path, each with its content. */
  type Tree = map<string, string>

  function At(t: Tree, p: string): Option<string> { if p in t then Some(t[p]) else None }

  /** What RenameProject leaves at q: what was at the same place of the old project, else
      what was at q, unless it moved. */
  function AfterMove(t: Tree, from: string, to: string, q: string): Option<string> {
    if Under(to, q) && from + q[|to|..] in t then At(t, from + q[|to|..])
    else if Under(from, q) then None
    else At(t, q)
  }

  /** w may leave u of t: a write of a note or an attachment leaves some content at its path;
      a delete takes a note, or a folder with all under it, away; a rename moves one file, or
      all of a project; what comes back from the trash is at the path or under it. */
  ghost predicate Effect(w: Write, t: Tree, u: Tree) {
    match w.action
    case Create | Update | Append | Restore | UploadAttachment => w.path in u && u == t[w.path := u[w.path]]
    case DeleteAttachment => u == t - {w.path}
    case Rename => w.path in t && u == (t - {w.path})[w.to := t[w.path]]
    case Delete => u == map p | p in t && p != w.path && !Under(w.path, p) :: t[p]
    case DeleteProject => u == map p | p in t && !Under(w.path, p) :: t[p]
    case RenameProject => forall q :: At(u, q) == AfterMove(t, w.path, w.to, q)
    case RestoreFromTrash =>
      && (forall p :: p in t ==> p in u && u[p] == t[p])
      && (forall p :: p in u && p !in t ==> p == w.path || Under(w.path, p))
  }

  /** w may change what is at p. */
  ghost predicate CanChange(w: Write, p: string) {
    exists t, u :: Effect(w, t, u) && At(t, p) != At(u, p)
  }

  /** A write as it is recorded: a rename has a new name, another one, and what is written
      to a note has none. */
  predicate Recordable(w: Write) {
    match w.action
    case Rename | RenameProject => w.to != "" && w.to != w.path
    case Create | Update | Append => w.to == ""
    case _ => true
  }

  /** The to of a project deleted is a trash entry, which holds no file of the vault. */
  predicate InTrash(w: Write, p: string) { w.action.DeleteProject? && w.to != "" && Under(w.to, p) }

  // ----- A write names exactly what it may change -----

  lemma CoveredCanChange(w: Write, p: string) returns (t: Tree, u: Tree)
    requires Recordable(w) && Covers(w, p) && !InTrash(w, p)
    ensures Effect(w, t, u) && At(t, p) != At(u, p)
  {
    match w.action
    case Create | Update | Append | Restore | UploadAttachment =>
      t, u := map[], map[p := "x"];
    case DeleteAttachment | Delete | DeleteProject =>
      t, u := map[p := "x"], map[];
    case RestoreFromTrash =>
      t, u := map[], map[p := "x"];
    case Rename =>
      t, u := map[w.path := "x"], map[w.to := "x"];
    case RenameProject =>
      var s := if Under(w.path, p) then p[|w.path|..] else p[|w.to|..];
      t, u := map[w.path + s := "x"], map[w.to + s := "x"];
      assert s[0] == '/' && (p == w.path + s || p == w.to + s);
      MovesOne(w.path, w.to, s);
      assert At(u, p) == AfterMove(t, w.path, w.to, p);
  }

  lemma MovesOne(from: string, to: string, s: string)
    requires from != to && s != "" && s[0] == '/'
    ensures from + s != to + s && Under(from, from + s) && Under(to, to + s)
    ensures forall q :: At(map[to + s := "x"], q) == AfterMove(map[from + s := "x"], from, to, q)
  {
    assert (from + s)[..|from| + 1] == from + "/" && (to + s)[..|to| + 1] == to + "/";
    assert (from + s)[..|from|] == from && (to + s)[..|to|] == to;
    assert from + s == to + s ==> |from| == |to|;
    forall q ensures At(map[to + s := "x"], q) == AfterMove(map[from + s := "x"], from, to, q) {
      if Under(to, q) {
        assert q == to + q[|to|..];
        assert from + q[|to|..] == from + s <==> q[|to|..] == s by {
          assert (from + q[|to|..])[|from|..] == q[|to|..] && (from + s)[|from|..] == s;
        }
      }
    }
  }

  lemma ChangedIsCovered(w: Write, t: Tree, u: Tree, p: string)
    requires Recordable(w) && Effect(w, t, u) && At(t, p) != At(u, p)
    ensures Covers(w, p)
  {
    if w.action.RenameProject? { assert At(u, p) == AfterMove(t, w.path, w.to, p); }
  }

  /** A write names a path exactly when it may change what is there: a delete what is at or
      under its path, a rename both ends, a project's rename all under both names. It names
      under its trash entry besides, where no file of the vault is. */
  lemma CoversIsEffect(w: Write, p: string)
    requires Recordable(w)
    ensures Covers(w, p) <==> CanChange(w, p) || InTrash(w, p)
  {
    if Covers(w, p) && !InTrash(w, p) { var t, u := CoveredCanChange(w, p); }
    if CanChange(w, p) {
      var t, u :| Effect(w, t, u) && At(t, p) != At(u, p);
      ChangedIsCovered(w, t, u, p);
    }
  }

  // ----- Changes, by their effects -----

  /** w may change an end of c. */
  ghost predicate CanMake(w: Write, c: Change) {
    CanChange(w, c.path) || (c.from != "" && CanChange(w, c.from))
  }

  predicate Recorded(ws: seq<Write>) { forall w :: w in ws ==> Recordable(w) }

  /** No end of c is under a trash entry. */
  predicate InVault(ws: seq<Write>, c: Change) {
    forall w :: w in ws ==> !InTrash(w, c.path) && (c.from != "" ==> !InTrash(w, c.from))
  }

  lemma NamesIsEffect(w: Write, c: Change)
    requires Recordable(w) && !InTrash(w, c.path) && (c.from != "" ==> !InTrash(w, c.from))
    ensures Names(w, c) <==> CanMake(w, c)
  {
    CoversIsEffect(w, c.path);
    if c.from != "" { CoversIsEffect(w, c.from); }
  }

  lemma AllNamesAreEffects(ws: seq<Write>, c: Change)
    requires Recorded(ws) && InVault(ws, c)
    ensures forall w :: w in ws ==> (Names(w, c) <==> CanMake(w, c))
  {
    forall w | w in ws ensures Names(w, c) <==> CanMake(w, c) { NamesIsEffect(w, c); }
  }

  /** A change is committed in the name of the last write that may have made it, with the
      changes of the folder its path begins with, and in nobody's when none may. */
  lemma CommittedAsMade(groups: seq<Group>, changes: seq<Change>, ws: seq<Write>, i: nat, c: Change)
    requires Grouping(groups, changes, ws) && Recorded(ws) && InVault(ws, c)
    requires i < |groups| && c in groups[i].files
    ensures groups[i].writes == [] ==> groups[i].author == "" && forall w :: w in ws ==> !CanMake(w, c)
    ensures groups[i].writes != [] ==>
              && (exists n :: 0 <= n < |ws| && CanMake(ws[n], c) && groups[i].author == ws[n].author
                              && ws[n] in groups[i].writes && forall m :: n < m < |ws| ==> !CanMake(ws[m], c))
              && InProject(groups[i].project, c.path)
  {
    AllNamesAreEffects(ws, c);
    GroupIsLastWriters(groups, changes, ws, i, c);
    var n := LastNamingIs(ws, c);
    if LastNaming(ws, c).Some? {
      assert CanMake(ws[n], c);
      forall m | n < m < |ws| ensures !CanMake(ws[m], c) { assert ws[m] in ws; }
    }
  }

  /** The trees the writes leave, one after the other. */
  ghost predicate Trees(ws: seq<Write>, trees: seq<Tree>) {
    |trees| == |ws| + 1 && forall i :: 0 <= i < |ws| ==> Effect(ws[i], trees[i], trees[i + 1])
  }

  lemma {:induction false} SomeStepChanges(ws: seq<Write>, trees: seq<Tree>, p: string, n: nat) returns (i: nat)
    requires Trees(ws, trees) && n <= |ws| && At(trees[0], p) != At(trees[n], p)
    ensures i < n && At(trees[i], p) != At(trees[i + 1], p)
  {
    i := 0;
    if At(trees[n - 1], p) != At(trees[n], p) { i := n - 1; } else { i := SomeStepChanges(ws, trees, p, n - 1); }
  }

  /** Whatever the writes change of the files is committed in the name of a writer: every
      path that differs at the end is of a group with a write that may have changed it. */
  lemma ChangedHasWriter(groups: seq<Group>, changes: seq<Change>, ws: seq<Write>, trees: seq<Tree>, i: nat, c: Change)
    requires Grouping(groups, changes, ws) && Recorded(ws) && InVault(ws, c)
    requires Trees(ws, trees) && At(trees[0], c.path) != At(trees[|ws|], c.path)
    requires i < |groups| && c in groups[i].files
    ensures groups[i].writes != []
  {
    var k := SomeStepChanges(ws, trees, c.path, |ws|);
    assert CanMake(ws[k], c);
    assert ws[k] in ws;
    CommittedAsMade(groups, changes, ws, i, c);
  }

  /** What a commit takes is free and no write made since may have made it; what is
      forgotten is of the snapshot and may have made nothing left out. */
  lemma TakenAndKeptByEffect(changes: seq<Change>, busy: seq<bool>, ws: seq<Write>, from: nat, c: Change)
    requires |busy| == |changes| && Recorded(ws) && InVault(ws, c)
    ensures c in Taken(changes, busy, Since(ws, from)) <==>
              && (exists i :: 0 <= i < |changes| && changes[i] == c && !busy[i])
              && forall w :: w in ws && w.num > from ==> !CanMake(w, c)
    ensures forall w :: w in Forget(ws, from, [c]) <==> w in ws && (w.num > from || CanMake(w, c))
  {
    AllNamesAreEffects(ws, c);
    AnsweredMember(changes, busy, false, c);
    forall w | w in ws ensures NamesSome(w, [c]) <==> Names(w, c) {
      assert Names(w, c) ==> c in [c];
    }
  }

  // ----- The commits, and their order -----

  /** The writes told by a commit are those of its author that may have made one of its
      files, in the order they were recorded. */
  lemma TellsItsWrites(groups: seq<Group>, changes: seq<Change>, ws: seq<Write>, upTo: nat, i: nat)
    requires Grouping(groups, changes, ws) && Recorded(ws) && Numbered(ws, upTo)
    requires forall c :: c in changes ==> InVault(ws, c)
    requires i < |groups| && groups[i].writes != []
    ensures forall w :: w in groups[i].writes <==>
                          && w in ws && w.author == groups[i].author
                          && exists c :: c in groups[i].files && CanMake(w, c)
    ensures Numbered(groups[i].writes, upTo)
  {
    var g := groups[i];
    assert g == GroupOf(changes, ws, GroupKey(g)) by {
      if RestOf(changes, ws) != [] && i < |groups| - 1 { assert groups[..|groups| - 1][i] == g; }
    }
    FilterNumbered((w: Write) => w.author == g.author && NamesSome(w, g.files), ws, upTo);
    forall c, w | c in g.files && w in ws ensures Names(w, c) <==> CanMake(w, c) { NamesIsEffect(w, c); }
    forall w | w in ws ensures NamesSome(w, g.files) <==> exists c :: c in g.files && CanMake(w, c) {
      if c :| c in g.files && CanMake(w, c) { assert Names(w, c); }
      if c :| c in g.files && Names(w, c) { assert CanMake(w, c); }
    }
  }

  /** The commits come in the order of the first write each tells, those of one write in the
      order of their projects, and the files nobody wrote last. */
  lemma CommitsInOrder(groups: seq<Group>, changes: seq<Change>, ws: seq<Write>, upTo: nat, i: nat, j: nat)
    requires Grouping(groups, changes, ws) && Numbered(ws, upTo) && i < j < |groups|
    ensures groups[i].writes != [] && (groups[j].writes == [] ==> j == |groups| - 1)
    ensures groups[j].writes != [] ==> Sooner(groups[i], groups[j])
  {
    var gs := if RestOf(changes, ws) == [] then groups else groups[..|groups| - 1];
    assert gs[i] == groups[i] && (j < |gs| ==> gs[j] == groups[j]);
    if groups[j].writes != [] { InOrder(gs[i], gs[j], changes, ws, upTo); }
  }

  /** The first write of a was recorded before that of b, or it is one, and a's project comes
      first. */
  ghost predicate Sooner(a: Group, b: Group) {
    exists v, w :: && First(a.writes, v) && First(b.writes, w)
                   && (v.num < w.num || (v.num == w.num && Precedes(a.project, b.project)))
  }

  /** w was recorded before any other of ws. */
  predicate First(ws: seq<Write>, w: Write) { w in ws && forall v :: v in ws && v != w ==> w.num < v.num }

  lemma InOrder(a: Group, b: Group, changes: seq<Change>, ws: seq<Write>, upTo: nat)
    requires a == GroupOf(changes, ws, GroupKey(a)) && b == GroupOf(changes, ws, GroupKey(b)) && Numbered(ws, upTo)
    requires a.writes != [] && b.writes != [] && Before(a, b)
    ensures Sooner(a, b)
  {
    LessIs(a.project, b.project);
    FirstIs(a, changes, ws, upTo);
    FirstIs(b, changes, ws, upTo);
  }

  lemma FirstIs(g: Group, changes: seq<Change>, ws: seq<Write>, upTo: nat)
    requires g == GroupOf(changes, ws, GroupKey(g)) && g.writes != [] && Numbered(ws, upTo)
    ensures First(g.writes, g.writes[0])
  {
    FilterNumbered((w: Write) => w.author == g.author && NamesSome(w, g.files), ws, upTo);
  }
}
