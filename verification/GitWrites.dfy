/** Who wrote what since the last commit (internal/gitsync/writes.go): the list
    of recorded writes, which staged changes a commit takes, and how it splits
    them into one commit per writer. */
module GitWrites {
  import opened Text

  datatype Action =
    | Create | Update | Append | Rename | Restore | Delete
    | DeleteProject | RenameProject | RestoreFromTrash
    | UploadAttachment | DeleteAttachment

  /** One recorded write; num is its number in the order of the records. */
  datatype Write = Write(num: nat, action: Action, path: string, to: string, author: string)

  /** One staged change; from is the path a rename came from, "" for none. */
  datatype Change = Change(path: string, from: string)

  // ----- What a write names -----

  predicate Covers(w: Write, path: string) {
    match w.action
    case DeleteProject | RenameProject =>
      Under(w.path, path) || (w.to != "" && Under(w.to, path))
    case Restore | UploadAttachment | DeleteAttachment =>
      path == w.path
    case Delete | RestoreFromTrash =>
      path == w.path || Under(w.path, path)
    case Create | Update | Append | Rename =>
      path == w.path || (w.to != "" && path == w.to)
  }

  predicate Names(w: Write, c: Change) {
    Covers(w, c.path) || (c.from != "" && Covers(w, c.from))
  }

  /** Some write of ws names c. */
  predicate Named(ws: seq<Write>, c: Change) {
    exists w :: w in ws && Names(w, c)
  }

  // ----- The list of recorded writes -----

  /** The numbers grow along the list, from 1, and none is past upTo. */
  ghost predicate Numbered(ws: seq<Write>, upTo: nat) {
    && (forall i :: 0 <= i < |ws| ==> 1 <= ws[i].num <= upTo)
    && (forall i, j :: 0 <= i < j < |ws| ==> ws[i].num < ws[j].num)
  }

  function Since(ws: seq<Write>, from: nat): seq<Write> {
    Filter((w: Write) => w.num > from, ws)
  }

  /** Some change of left is named by w. */
  predicate NamesSome(w: Write, left: seq<Change>) {
    exists c :: c in left && Names(w, c)
  }

  function Forget(ws: seq<Write>, upTo: nat, left: seq<Change>): seq<Write> {
    Filter((w: Write) => w.num > upTo || NamesSome(w, left), ws)
  }

  lemma NumberedFrom(w: Write, ws: seq<Write>, upTo: nat)
    requires Numbered(ws, upTo) && 1 <= w.num <= upTo && forall i :: 0 <= i < |ws| ==> w.num < ws[i].num
    ensures Numbered([w] + ws, upTo) && [] + ws == ws
  {
  }

  /** Filtering keeps the numbers growing. */
  lemma {:induction false} FilterNumbered(f: Write -> bool, ws: seq<Write>, upTo: nat)
    requires Numbered(ws, upTo)
    ensures Numbered(Filter(f, ws), upTo)
  {
    if ws != [] {
      var rest := ws[1..];
      assert forall i :: 0 <= i < |rest| ==> rest[i] == ws[i + 1];
      FilterNumbered(f, rest, upTo);
      var r := Filter(f, rest);
      forall i | 0 <= i < |r| ensures ws[0].num < r[i].num {
        assert r[i] in r;
      }
      NumberedFrom(ws[0], r, upTo);
    }
  }

  // ----- Which changes a commit takes -----

  /** The changes whose lock was asked with this answer: busy or not. */
  function Answered(changes: seq<Change>, busy: seq<bool>, answer: bool): seq<Change>
    requires |busy| == |changes|
  {
    if changes == [] then []
    else
      (if busy[0] == answer then [changes[0]] else []) + Answered(changes[1..], busy[1..], answer)
  }

  lemma {:induction false} AnsweredMember(changes: seq<Change>, busy: seq<bool>, answer: bool, c: Change)
    requires |busy| == |changes|
    ensures c in Answered(changes, busy, answer) <==>
            exists i :: 0 <= i < |changes| && changes[i] == c && busy[i] == answer
  {
    if changes != [] {
      AnsweredMember(changes[1..], busy[1..], answer, c);
      forall i | 0 <= i < |changes[1..]| ensures changes[1..][i] == changes[i + 1] && busy[1..][i] == busy[i + 1] {}
      if i :| 0 <= i < |changes| && changes[i] == c && busy[i] == answer {
        if i > 0 { assert changes[1..][i - 1] == c && busy[1..][i - 1] == answer; }
      }
    }
  }

  function Taken(changes: seq<Change>, busy: seq<bool>, since: seq<Write>): seq<Change>
    requires |busy| == |changes|
  {
    Filter((c: Change) => !Named(since, c), Answered(changes, busy, false))
  }

  function Left(changes: seq<Change>, busy: seq<bool>, since: seq<Write>): seq<Change>
    requires |busy| == |changes|
  {
    Answered(changes, busy, true) + Filter((c: Change) => Named(since, c), Answered(changes, busy, false))
  }

  /** Nothing is lost or taken twice: the staged changes are split in two. */
  lemma TakenAndLeftPartition(changes: seq<Change>, busy: seq<bool>, since: seq<Write>)
    requires |busy| == |changes|
    ensures multiset(Taken(changes, busy, since)) + multiset(Left(changes, busy, since)) == multiset(changes)
  {
    var free := Answered(changes, busy, false);
    forall c: Change
      ensures multiset(Taken(changes, busy, since))[c] + multiset(Left(changes, busy, since))[c] == multiset(changes)[c]
    {
      FilterCount((c: Change) => !Named(since, c), free, c);
      FilterCount((c: Change) => Named(since, c), free, c);
      AnsweredCount(changes, busy, c);
    }
  }

  lemma {:induction false} AnsweredCount(changes: seq<Change>, busy: seq<bool>, c: Change)
    requires |busy| == |changes|
    ensures multiset(Answered(changes, busy, false))[c] + multiset(Answered(changes, busy, true))[c] == multiset(changes)[c]
  {
    if changes != [] {
      AnsweredCount(changes[1..], busy[1..], c);
      assert changes == [changes[0]] + changes[1..];
    }
  }

  // ----- One commit per writer -----

  /** The project of a vault path: its first folder, "" for a file at the root. */
  function ProjectOf(path: string): string {
    var i := IndexOf(path, '/');
    if i < |path| then path[..i] else ""
  }

  /** The last write of ws that names c. */
  function LastNaming(ws: seq<Write>, c: Change): Option<Write> {
    if ws == [] then None
    else if Names(ws[|ws| - 1], c) then Some(ws[|ws| - 1])
    else LastNaming(ws[..|ws| - 1], c)
  }

  lemma {:induction false} LastNamingIs(ws: seq<Write>, c: Change) returns (i: nat)
    ensures LastNaming(ws, c).None? <==> !Named(ws, c)
    ensures LastNaming(ws, c).Some? ==> i < |ws| && ws[i] == LastNaming(ws, c).value && Names(ws[i], c)
    ensures LastNaming(ws, c).Some? ==> forall j :: i < j < |ws| ==> !Names(ws[j], c)
  {
    i := 0;
    if ws != [] {
      var n := |ws| - 1;
      assert ws == ws[..n] + [ws[n]];
      if Names(ws[n], c) {
        i := n;
      } else {
        i := LastNamingIs(ws[..n], c);
        assert forall j :: 0 <= j < n ==> ws[..n][j] == ws[j];
      }
    }
  }

  /** The writer and the project a commit is made for. */
  datatype Key = Key(author: string, project: string)

  function KeyFor(ws: seq<Write>, c: Change): Option<Key> {
    match LastNaming(ws, c)
    case None => None
    case Some(w) => Some(Key(w.author, ProjectOf(c.path)))
  }

  datatype Group = Group(author: string, project: string, files: seq<Change>, writes: seq<Write>)

  function GroupKey(g: Group): Key { Key(g.author, g.project) }

  function FilesOf(changes: seq<Change>, ws: seq<Write>, k: Key): seq<Change> {
    Filter((c: Change) => KeyFor(ws, c) == Some(k), changes)
  }

  function RestOf(changes: seq<Change>, ws: seq<Write>): seq<Change> {
    Filter((c: Change) => KeyFor(ws, c) == None, changes)
  }

  function WritesOf(ws: seq<Write>, author: string, files: seq<Change>): seq<Write> {
    Filter((w: Write) => w.author == author && NamesSome(w, files), ws)
  }

  function GroupOf(changes: seq<Change>, ws: seq<Write>, k: Key): Group {
    var files := FilesOf(changes, ws, k);
    Group(k.author, k.project, files, WritesOf(ws, k.author, files))
  }

  /** The order of the commits: by first write, then by project. */
  predicate Before(a: Group, b: Group)
    requires a.writes != [] && b.writes != []
  {
    a.writes[0].num < b.writes[0].num
    || (a.writes[0].num == b.writes[0].num && Less(a.project, b.project))
  }

  /** gs are the groups of the writers of changes, in order. */
  ghost predicate WriterGroups(gs: seq<Group>, changes: seq<Change>, ws: seq<Write>) {
    && (forall i :: 0 <= i < |gs| ==>
          gs[i].files != [] && gs[i].writes != [] && gs[i] == GroupOf(changes, ws, GroupKey(gs[i])))
    && (forall k :: FilesOf(changes, ws, k) != [] ==> exists i :: 0 <= i < |gs| && GroupKey(gs[i]) == k)
    && (forall i, j :: 0 <= i < j < |gs| ==> Before(gs[i], gs[j]))
  }

  /** groups is what a commit of changes is split into: the writers' groups,
      then the files no write names, if there are any. */
  ghost predicate Grouping(groups: seq<Group>, changes: seq<Change>, ws: seq<Write>) {
    var rest := RestOf(changes, ws);
    if rest == [] then WriterGroups(groups, changes, ws)
    else
      && groups != []
      && groups[|groups| - 1] == Group("", "", rest, [])
      && WriterGroups(groups[..|groups| - 1], changes, ws)
  }

  /** A writer's group has a write: the last one that names any file of it. */
  lemma GroupHasWrite(changes: seq<Change>, ws: seq<Write>, k: Key, c: Change)
    requires c in changes && KeyFor(ws, c) == Some(k)
    ensures LastNaming(ws, c).Some? && LastNaming(ws, c).value in GroupOf(changes, ws, k).writes
    ensures c in GroupOf(changes, ws, k).files
  {
    var w := LastNaming(ws, c).value;
    var i := LastNamingIs(ws, c);
    assert Names(w, c) && w in ws && w.author == k.author;
    assert NamesSome(w, FilesOf(changes, ws, k));
  }

  lemma BeforeTransitive(a: Group, b: Group, c: Group)
    requires a.writes != [] && b.writes != [] && c.writes != []
    requires Before(a, b) && Before(b, c)
    ensures Before(a, c)
  {
    if a.writes[0].num == b.writes[0].num == c.writes[0].num {
      LessTransitive(a.project, b.project, c.project);
    }
  }

  /** Two groups of different keys are always in order, one way only: a tie on
      the first write is a tie on the writer, so the projects differ. */
  lemma BeforeTotal(a: Group, b: Group, changes: seq<Change>, ws: seq<Write>, upTo: nat)
    requires Numbered(ws, upTo)
    requires a == GroupOf(changes, ws, GroupKey(a)) && b == GroupOf(changes, ws, GroupKey(b))
    requires a.writes != [] && b.writes != []
    requires GroupKey(a) != GroupKey(b)
    ensures Before(a, b) != Before(b, a)
  {
    LessTrichotomy(a.project, b.project);
    var wa, wb := a.writes[0], b.writes[0];
    assert wa in a.writes && wb in b.writes;
    var i :| 0 <= i < |ws| && ws[i] == wa;
    var j :| 0 <= j < |ws| && ws[j] == wb;
    if wa.num == wb.num {
      assert i == j;
    }
  }

  // ----- Sorting -----

  ghost predicate SortedGroups(gs: seq<Group>) {
    && (forall i :: 0 <= i < |gs| ==> gs[i].writes != [])
    && (forall i, j :: 0 <= i < j < |gs| ==> Before(gs[i], gs[j]))
  }

  /** Puts g at its place in gs; any two groups must be in order. */
  method InsertGroup(gs: seq<Group>, g: Group) returns (r: seq<Group>)
    requires SortedGroups(gs) && g.writes != []
    requires forall i :: 0 <= i < |gs| ==> Before(gs[i], g) || Before(g, gs[i])
    ensures SortedGroups(r) && multiset(r) == multiset(gs) + multiset{g}
    ensures forall h :: h in r <==> h in gs || h == g
  {
    var i := 0;
    while i < |gs| && Before(gs[i], g)
      invariant 0 <= i <= |gs|
      invariant forall j :: 0 <= j < i ==> Before(gs[j], g)
    {
      i := i + 1;
    }
    r := gs[..i] + [g] + gs[i..];
    InsertedSorted(gs, g, i);
    assert gs == gs[..i] + gs[i..];
  }

  /** A group put where those before it go first and the next one after. */
  lemma InsertedSorted(gs: seq<Group>, g: Group, i: nat)
    requires SortedGroups(gs) && g.writes != [] && i <= |gs|
    requires forall j :: 0 <= j < i ==> Before(gs[j], g)
    requires i < |gs| ==> Before(g, gs[i])
    ensures SortedGroups(gs[..i] + [g] + gs[i..])
  {
    forall j | i <= j < |gs| ensures Before(g, gs[j]) {
      if i < j { BeforeTransitive(g, gs[i], gs[j]); }
    }
    var r := gs[..i] + [g] + gs[i..];
    forall j, k | 0 <= j < k < |r| ensures r[j].writes != [] && r[k].writes != [] && Before(r[j], r[k]) {
      var x, y := if j < i then j else j - 1, if k < i then k else k - 1;
      assert j != i ==> r[j] == gs[x];
      assert k != i ==> r[k] == gs[y];
    }
  }

  // ----- The loops of the source -----

  /** The key of the map of groups, "<by> NUL <project>". */
  function MapKey(k: Key): string { k.author + ['\0'] + k.project }

  /** No two keys meet in the map: no path holds a NUL. */
  lemma {:induction false} MapKeyInjective(a: Key, b: Key)
    requires '\0' !in a.project && '\0' !in b.project
    requires MapKey(a) == MapKey(b)
    ensures a == b
  {
    var s := MapKey(a);
    assert s[|a.author|] == '\0' && s[|b.author|] == '\0';
    assert forall i :: |a.author| < i < |s| ==> s[i] == a.project[i - |a.author| - 1];
    assert forall i :: |b.author| < i < |s| ==> s[i] == b.project[i - |b.author| - 1];
    assert |a.author| == |b.author|;
    assert s[..|a.author|] == a.author && s[..|b.author|] == b.author;
    assert s[|a.author| + 1..] == a.project && s[|b.author| + 1..] == b.project;
  }

  /** The groups of the changes read so far. */
  ghost predicate Collected(byWriter: map<string, Group>, changes: seq<Change>, ws: seq<Write>) {
    && (forall s :: s in byWriter ==>
          && s == MapKey(GroupKey(byWriter[s])) && '\0' !in byWriter[s].project
          && byWriter[s].files != []
          && byWriter[s].files == FilesOf(changes, ws, GroupKey(byWriter[s])))
    && (forall c :: c in changes && KeyFor(ws, c).Some? ==> MapKey(KeyFor(ws, c).value) in byWriter)
  }

  method FindLastNaming(ws: seq<Write>, c: Change) returns (w: Option<Write>)
    ensures w == LastNaming(ws, c)
  {
    var i := |ws|;
    assert ws[..i] == ws;
    while i > 0
      invariant 0 <= i <= |ws|
      invariant LastNaming(ws, c) == LastNaming(ws[..i], c)
    {
      assert ws[..i][..i - 1] == ws[..i - 1] && ws[..i][i - 1] == ws[i - 1];
      i := i - 1;
      if Names(ws[i], c) {
        return Some(ws[i]);
      }
    }
    w := None;
  }

  /** The whole loop over the staged changes: each goes to the group of its
      last write, or to the rest. */
  method CollectFiles(changes: seq<Change>, ws: seq<Write>)
    returns (byWriter: map<string, Group>, rest: seq<Change>)
    requires forall c :: c in changes ==> '\0' !in c.path
    ensures Collected(byWriter, changes, ws)
    ensures rest == RestOf(changes, ws)
  {
    byWriter, rest := map[], [];
    for i := 0 to |changes|
      invariant Collected(byWriter, changes[..i], ws)
      invariant rest == RestOf(changes[..i], ws)
    {
      var c := changes[i];
      var w := FindLastNaming(ws, c);
      FilterSnoc((c: Change) => KeyFor(ws, c) == None, changes, i);
      if w.None? {
        CollectedSkip(byWriter, changes, ws, i);
        rest := rest + [c];
      } else {
        var k := Key(w.value.author, ProjectOf(c.path));
        var g := if MapKey(k) in byWriter then byWriter[MapKey(k)] else Group(k.author, k.project, [], []);
        CollectedAdd(byWriter, changes, ws, i, k, g);
        byWriter := byWriter[MapKey(k) := g.(files := g.files + [c])];
      }
    }
    assert changes[..|changes|] == changes;
  }

  lemma FilesOfSnoc(changes: seq<Change>, ws: seq<Write>, i: nat, k: Key)
    requires i < |changes|
    ensures FilesOf(changes[..i + 1], ws, k)
         == FilesOf(changes[..i], ws, k) + (if KeyFor(ws, changes[i]) == Some(k) then [changes[i]] else [])
  {
    FilterSnoc((c: Change) => KeyFor(ws, c) == Some(k), changes, i);
  }

  lemma CollectedSkip(byWriter: map<string, Group>, changes: seq<Change>, ws: seq<Write>, i: nat)
    requires i < |changes| && Collected(byWriter, changes[..i], ws)
    requires KeyFor(ws, changes[i]) == None
    ensures Collected(byWriter, changes[..i + 1], ws)
  {
    forall s | s in byWriter
      ensures byWriter[s].files == FilesOf(changes[..i + 1], ws, GroupKey(byWriter[s]))
    {
      FilesOfSnoc(changes, ws, i, GroupKey(byWriter[s]));
    }
    assert forall c :: c in changes[..i + 1] ==> c in changes[..i] || c == changes[i];
  }

  lemma CollectedAdd(byWriter: map<string, Group>, changes: seq<Change>, ws: seq<Write>, i: nat, k: Key, g: Group)
    requires i < |changes| && Collected(byWriter, changes[..i], ws)
    requires forall c :: c in changes ==> '\0' !in c.path
    requires KeyFor(ws, changes[i]) == Some(k)
    requires g == if MapKey(k) in byWriter then byWriter[MapKey(k)] else Group(k.author, k.project, [], [])
    ensures GroupKey(g) == k
    ensures Collected(byWriter[MapKey(k) := g.(files := g.files + [changes[i]])], changes[..i + 1], ws)
  {
    var c := changes[i];
    assert k.project == ProjectOf(c.path) && '\0' !in k.project;
    if MapKey(k) in byWriter {
      MapKeyInjective(k, GroupKey(g));
    }
    var fs := FilesOf(changes[..i], ws, k);
    assert fs != [] ==> fs[0] in fs;
    assert g.files == fs;
    var after := byWriter[MapKey(k) := g.(files := g.files + [c])];
    FilesOfSnoc(changes, ws, i, k);
    forall s | s in after && s != MapKey(k)
      ensures after[s].files == FilesOf(changes[..i + 1], ws, GroupKey(after[s]))
    {
      FilesOfSnoc(changes, ws, i, GroupKey(after[s]));
    }
    assert forall d :: d in changes[..i + 1] ==> d in changes[..i] || d == c;
  }

  /** groupByWriter: the loop over the changes, the loop over the map in
      whatever order it comes, and the sort. */
  method GroupByWriter(changes: seq<Change>, ws: seq<Write>, ghost upTo: nat) returns (groups: seq<Group>)
    requires Numbered(ws, upTo)
    requires forall c :: c in changes ==> '\0' !in c.path
    ensures Grouping(groups, changes, ws)
  {
    var byWriter, rest := CollectFiles(changes, ws);
    groups := [];
    var todo := byWriter.Keys;
    while todo != {}
      invariant todo <= byWriter.Keys
      invariant SortedGroups(groups)
      invariant forall g :: g in groups ==> IsWriterGroup(g, changes, ws)
      invariant forall s :: s in byWriter.Keys - todo ==> exists g :: g in groups && GroupKey(g) == GroupKey(byWriter[s])
      invariant forall g :: g in groups ==> MapKey(GroupKey(g)) !in todo
      decreases |todo|
    {
      var s :| s in todo;
      var g := byWriter[s];
      var written := WritesNaming(ws, g.author, g.files);
      g := g.(writes := written);
      CollectedGroup(g, changes, ws);
      InOrderWith(groups, g, changes, ws, upTo);
      groups := InsertGroup(groups, g);
      todo := todo - {s};
    }
    AllCollected(groups, byWriter, changes, ws);
    if rest != [] {
      groups := groups + [Group("", "", rest, [])];
      assert groups[..|groups| - 1] == groups[..|groups| - 1];
    }
  }

  lemma InOrderWith(groups: seq<Group>, g: Group, changes: seq<Change>, ws: seq<Write>, upTo: nat)
    requires Numbered(ws, upTo) && IsWriterGroup(g, changes, ws)
    requires forall h :: h in groups ==> IsWriterGroup(h, changes, ws) && GroupKey(h) != GroupKey(g)
    requires SortedGroups(groups)
    ensures forall i :: 0 <= i < |groups| ==> Before(groups[i], g) || Before(g, groups[i])
  {
    forall i | 0 <= i < |groups| ensures Before(groups[i], g) || Before(g, groups[i]) {
      assert groups[i] in groups;
      BeforeTotal(groups[i], g, changes, ws, upTo);
    }
  }

  method WritesNaming(ws: seq<Write>, author: string, files: seq<Change>) returns (written: seq<Write>)
    ensures written == WritesOf(ws, author, files)
  {
    written := [];
    for j := 0 to |ws|
      invariant written == WritesOf(ws[..j], author, files)
    {
      FilterSnoc((w: Write) => w.author == author && NamesSome(w, files), ws, j);
      if ws[j].author == author && NamesSome(ws[j], files) {
        written := written + [ws[j]];
      }
    }
    assert ws[..|ws|] == ws;
  }

  lemma CollectedGroup(g: Group, changes: seq<Change>, ws: seq<Write>)
    requires g.files != [] && g.files == FilesOf(changes, ws, GroupKey(g))
    requires g.writes == WritesOf(ws, g.author, g.files)
    ensures IsWriterGroup(g, changes, ws)
  {
    var c := g.files[0];
    assert c in FilesOf(changes, ws, GroupKey(g));
    GroupHasWrite(changes, ws, GroupKey(g), c);
  }

  ghost predicate IsWriterGroup(g: Group, changes: seq<Change>, ws: seq<Write>) {
    g.files != [] && g.writes != [] && g == GroupOf(changes, ws, GroupKey(g))
  }

  lemma AllCollected(groups: seq<Group>, byWriter: map<string, Group>, changes: seq<Change>, ws: seq<Write>)
    requires Collected(byWriter, changes, ws) && SortedGroups(groups)
    requires forall g :: g in groups ==> IsWriterGroup(g, changes, ws)
    requires forall s :: s in byWriter.Keys ==> exists g :: g in groups && GroupKey(g) == GroupKey(byWriter[s])
    requires forall c :: c in changes ==> '\0' !in c.path
    ensures WriterGroups(groups, changes, ws)
  {
    forall k | FilesOf(changes, ws, k) != []
      ensures exists i :: 0 <= i < |groups| && GroupKey(groups[i]) == k
    {
      var c := FilesOf(changes, ws, k)[0];
      assert c in FilesOf(changes, ws, k);
      var s := MapKey(k);
      assert KeyFor(ws, c) == Some(k) && s in byWriter;
      assert '\0' !in ProjectOf(c.path);
      MapKeyInjective(k, GroupKey(byWriter[s]));
      var g :| g in groups && GroupKey(g) == GroupKey(byWriter[s]);
    }
    forall i | 0 <= i < |groups| ensures IsWriterGroup(groups[i], changes, ws) {
      assert groups[i] in groups;
    }
  }
}
