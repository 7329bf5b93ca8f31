/** What the split of a commit promises: every staged change is in one group,
    the group of the last write that names it, and the order the map of groups
    comes in changes nothing. */
module GitGroups {
  import opened Text
  import opened GitWrites

  function AllFiles(groups: seq<Group>): seq<Change> {
    if groups == [] then [] else AllFiles(groups[..|groups| - 1]) + groups[|groups| - 1].files
  }

  predicate HasKey(gs: seq<Group>, k: Option<Key>) {
    exists i :: 0 <= i < |gs| && Some(GroupKey(gs[i])) == k
  }

  lemma HasKeySnoc(gs: seq<Group>, k: Option<Key>)
    requires gs != []
    ensures HasKey(gs, k) <==> HasKey(gs[..|gs| - 1], k) || Some(GroupKey(gs[|gs| - 1])) == k
  {
    var n := |gs| - 1;
    if HasKey(gs[..n], k) {
      var i :| 0 <= i < n && Some(GroupKey(gs[..n][i])) == k;
      assert Some(GroupKey(gs[i])) == k;
    }
    if HasKey(gs, k) {
      var i :| 0 <= i < |gs| && Some(GroupKey(gs[i])) == k;
      assert i < n ==> gs[..n][i] == gs[i];
    }
  }

  lemma FilesOfCount(changes: seq<Change>, ws: seq<Write>, k: Key, c: Change)
    ensures multiset(FilesOf(changes, ws, k))[c] == if KeyFor(ws, c) == Some(k) then multiset(changes)[c] else 0
  {
    FilterCount((d: Change) => KeyFor(ws, d) == Some(k), changes, c);
  }

  /** In groups of different keys, a change is counted in the group of its key
      alone, as often as it was staged. */
  lemma {:induction false} GroupsCount(gs: seq<Group>, changes: seq<Change>, ws: seq<Write>, c: Change)
    requires forall i :: 0 <= i < |gs| ==> gs[i].files == FilesOf(changes, ws, GroupKey(gs[i]))
    requires forall i, j :: 0 <= i < j < |gs| ==> GroupKey(gs[i]) != GroupKey(gs[j])
    ensures multiset(AllFiles(gs))[c] == if HasKey(gs, KeyFor(ws, c)) then multiset(changes)[c] else 0
  {
    if gs != [] {
      var n := |gs| - 1;
      var before, g := gs[..n], gs[n];
      GroupsCount(before, changes, ws, c);
      FilesOfCount(changes, ws, GroupKey(g), c);
      HasKeySnoc(gs, KeyFor(ws, c));
      assert multiset(AllFiles(before) + g.files) == multiset(AllFiles(before)) + multiset(g.files);
      if KeyFor(ws, c) == Some(GroupKey(g)) {
        assert !HasKey(before, KeyFor(ws, c));
      }
    }
  }

  lemma WriterKeysDiffer(gs: seq<Group>, changes: seq<Change>, ws: seq<Write>)
    requires WriterGroups(gs, changes, ws)
    ensures forall i, j :: 0 <= i < j < |gs| ==> GroupKey(gs[i]) != GroupKey(gs[j])
  {
    forall i, j | 0 <= i < j < |gs| ensures GroupKey(gs[i]) != GroupKey(gs[j]) {
      assert Before(gs[i], gs[j]);
      LessTrichotomy(gs[i].project, gs[j].project);
    }
  }

  /** Conservation: the commits of a split take every staged change, as often
      as it was staged, and nothing else. */
  lemma GroupingPartitions(groups: seq<Group>, changes: seq<Change>, ws: seq<Write>)
    requires Grouping(groups, changes, ws)
    ensures multiset(AllFiles(groups)) == multiset(changes)
  {
    var rest := RestOf(changes, ws);
    var gs := if rest == [] then groups else groups[..|groups| - 1];
    WriterKeysDiffer(gs, changes, ws);
    assert AllFiles(groups) == AllFiles(gs) + rest;
    forall c: Change ensures multiset(AllFiles(groups))[c] == multiset(changes)[c] {
      assert multiset(AllFiles(gs) + rest) == multiset(AllFiles(gs)) + multiset(rest);
      GroupsCount(gs, changes, ws, c);
      RestCount(changes, ws, c);
      KeyIsThere(gs, changes, ws, c);
    }
  }

  lemma RestCount(changes: seq<Change>, ws: seq<Write>, c: Change)
    ensures multiset(RestOf(changes, ws))[c] == if KeyFor(ws, c) == None then multiset(changes)[c] else 0
  {
    FilterCount((d: Change) => KeyFor(ws, d) == None, changes, c);
  }

  lemma KeyIsThere(gs: seq<Group>, changes: seq<Change>, ws: seq<Write>, c: Change)
    requires WriterGroups(gs, changes, ws)
    ensures HasKey(gs, KeyFor(ws, c)) ==> KeyFor(ws, c).Some?
    ensures c in changes && KeyFor(ws, c).Some? ==> HasKey(gs, KeyFor(ws, c))
  {
    if c in changes && KeyFor(ws, c).Some? {
      assert c in FilesOf(changes, ws, KeyFor(ws, c).value);
    }
  }

  /** project is the folder path begins with, or "" when path is in none. */
  predicate InProject(project: string, path: string) {
    if '/' in path then Under(project, path) && '/' !in project else project == ""
  }

  /** Every change of a group is there by the last write that names it, whose
      author the commit is made for and whose record the group holds; the
      group without a writer holds the changes no write names. All the files
      of a group are of one project. */
  lemma GroupIsLastWriters(groups: seq<Group>, changes: seq<Change>, ws: seq<Write>, i: nat, c: Change)
    requires Grouping(groups, changes, ws)
    requires i < |groups| && c in groups[i].files
    ensures c in changes
    ensures match LastNaming(ws, c)
            case None => i == |groups| - 1 && groups[i].writes == [] && groups[i].author == ""
            case Some(w) => && w in groups[i].writes && groups[i].author == w.author
                            && groups[i].project == ProjectOf(c.path) && InProject(groups[i].project, c.path)
  {
    var rest := RestOf(changes, ws);
    if rest == [] || i < |groups| - 1 {
      var k := GroupKey(groups[i]);
      assert groups[i] == GroupOf(changes, ws, k) by {
        if rest != [] { assert groups[..|groups| - 1][i] == groups[i]; }
      }
      GroupHasWrite(changes, ws, k, c);
      ProjectIs(c.path);
    }
  }

  lemma ProjectIs(path: string)
    ensures InProject(ProjectOf(path), path)
  {
    var i := IndexOf(path, '/');
    if i < |path| { assert path[..i + 1] == path[..i] + "/"; }
  }

  lemma {:induction false} SortedSameElements(a: seq<Group>, b: seq<Group>)
    requires SortedGroups(a) && SortedGroups(b)
    requires forall g :: g in a <==> g in b
    ensures a == b
  {
    if a == [] {
      assert forall i :: 0 <= i < |b| ==> b[i] in b;
    } else {
      assert a[0] in b && b != [];
      assert b[0] in a;
      assert a[0] == b[0] by {
        if a[0] != b[0] {
          BeforeTransitive(a[0], b[0], a[0]);
          LessTrichotomy(a[0].project, a[0].project);
        }
      }
      forall g ensures g in a[1..] <==> g in b[1..] {
        TailElements(a, g);
        TailElements(b, g);
      }
      SortedSameElements(a[1..], b[1..]);
      assert a == [a[0]] + a[1..] && b == [b[0]] + b[1..];
    }
  }

  lemma TailElements(a: seq<Group>, g: Group)
    requires SortedGroups(a) && a != []
    ensures g in a[1..] <==> g in a && g != a[0]
  {
    LessTrichotomy(a[0].project, a[0].project);
    assert forall i :: 1 <= i < |a| ==> Before(a[0], a[i]);
    assert a == [a[0]] + a[1..];
  }

  lemma WriterGroupsUnique(a: seq<Group>, b: seq<Group>, changes: seq<Change>, ws: seq<Write>)
    requires WriterGroups(a, changes, ws) && WriterGroups(b, changes, ws)
    ensures a == b
  {
    SameGroups(a, b, changes, ws);
    SameGroups(b, a, changes, ws);
    assert SortedGroups(a) && SortedGroups(b);
    SortedSameElements(a, b);
  }

  /** Whatever order the map is read in, and whatever the sort does with ties,
      the commits and their order are the same. */
  lemma GroupingUnique(g1: seq<Group>, g2: seq<Group>, changes: seq<Change>, ws: seq<Write>)
    requires Grouping(g1, changes, ws) && Grouping(g2, changes, ws)
    ensures g1 == g2
  {
    if RestOf(changes, ws) == [] {
      WriterGroupsUnique(g1, g2, changes, ws);
    } else {
      WriterGroupsUnique(g1[..|g1| - 1], g2[..|g2| - 1], changes, ws);
      assert g1 == g1[..|g1| - 1] + [g1[|g1| - 1]] && g2 == g2[..|g2| - 1] + [g2[|g2| - 1]];
    }
  }

  lemma SameGroups(a: seq<Group>, b: seq<Group>, changes: seq<Change>, ws: seq<Write>)
    requires WriterGroups(a, changes, ws) && WriterGroups(b, changes, ws)
    ensures forall g :: g in a ==> g in b
  {
    forall g | g in a ensures g in b {
      var i :| 0 <= i < |a| && a[i] == g;
      var k := GroupKey(g);
      assert FilesOf(changes, ws, k) != [];
      var j :| 0 <= j < |b| && GroupKey(b[j]) == k;
      assert b[j] == g;
    }
  }
}
