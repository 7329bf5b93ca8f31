/** The project scope of tokens (internal/auth/auth.go): what a token reaches, and how
    it follows its projects when they are renamed or deleted. */
module Tokens {
  import opened Text

  /** A token: its legacy project, its list, whether it has the write scope, and the
      folders it writes in. */
  datatype Token = Token(id: string, project: string, projects: seq<string>, write: bool, writePaths: seq<string>)

  function ProjectList(t: Token): seq<string> {
    if t.projects != [] then t.projects else if t.project != "" then [t.project] else []
  }

  predicate IsAdmin(t: Token) { ProjectList(t) == [] }

  predicate AllowsProject(t: Token, project: string) { IsAdmin(t) || project in ProjectList(t) }

  predicate AllowsPath(t: Token, path: string) {
    IsAdmin(t) || exists p :: p in ProjectList(t) && (path == p || Under(p, path))
  }

  /** ProjectOf: the top folder of a path. */
  function ProjectOf(path: string): string { path[..IndexOf(path, '/')] }

  predicate IsName(p: string) { p != "" && '/' !in p }

  /** For projects named as folders are, a path is reached as its project is. */
  lemma AllowsPathIs(t: Token, path: string)
    requires forall p :: p in ProjectList(t) ==> IsName(p)
    ensures AllowsPath(t, path) <==> AllowsProject(t, ProjectOf(path))
  {
    forall p | p in ProjectList(t) ensures (path == p || Under(p, path)) <==> ProjectOf(path) == p {
      TopFolder(p, path);
    }
  }

  lemma TopFolder(p: string, path: string)
    requires IsName(p)
    ensures (path == p || Under(p, path)) <==> ProjectOf(path) == p
  {
    var i := IndexOf(path, '/');
    forall j | 0 <= j < |p| ensures p[j] != '/' { assert p[j] in p; }
    if i < |path| { assert path[..i + 1] == path[..i] + [path[i]]; } else { assert path[..i] == path; }
    if Under(p, path) {
      assert path[|p|] == (p + "/")[|p|];
      assert path[..|p|] == p;
    }
  }

  // ----- Names -----

  /** normalizeProjects: trimmed, without empties, each once, in order. */
  function Normalize(projects: seq<string>): seq<string> {
    if projects == [] then []
    else
      var before := Normalize(projects[..|projects| - 1]);
      var p := TrimSpace(projects[|projects| - 1]);
      if p == "" || p in before then before else before + [p]
  }

  lemma {:induction false} NormalizeIs(projects: seq<string>)
    ensures forall q :: q in Normalize(projects) <==> q != "" && exists i :: 0 <= i < |projects| && TrimSpace(projects[i]) == q
    ensures forall i, j :: 0 <= i < j < |Normalize(projects)| ==> Normalize(projects)[i] != Normalize(projects)[j]
  {
    if projects != [] {
      var n := |projects| - 1;
      NormalizeIs(projects[..n]);
      forall q ensures q in Normalize(projects) <==> q != "" && exists i :: 0 <= i < |projects| && TrimSpace(projects[i]) == q {
        if i :| 0 <= i < |projects| && TrimSpace(projects[i]) == q {
          assert i < n ==> projects[..n][i] == projects[i];
        }
        if i :| 0 <= i < n && TrimSpace(projects[..n][i]) == q {
          assert TrimSpace(projects[i]) == q;
        }
      }
    }
  }

  /** The loop of normalizeProjects. */
  method NormalizeProjects(projects: seq<string>) returns (out: seq<string>)
    ensures out == Normalize(projects)
  {
    out := [];
    var seen: set<string> := {};
    for i := 0 to |projects|
      invariant out == Normalize(projects[..i]) && forall p :: p in seen <==> p in out
    {
      assert projects[..i + 1][..i] == projects[..i];
      var p := TrimSpace(projects[i]);
      if p != "" && p !in seen {
        seen := seen + {p};
        out := out + [p];
      }
    }
    assert projects[..|projects|] == projects;
  }

  // ----- A project renamed -----

  function Ren(from: string, to: string, p: string): string { if p == from then to else p }

  function RenAll(from: string, to: string, ps: seq<string>): (r: seq<string>)
    ensures |r| == |ps| && forall i :: 0 <= i < |ps| ==> r[i] == Ren(from, to, ps[i])
  {
    seq(|ps|, i requires 0 <= i < |ps| => Ren(from, to, ps[i]))
  }

  /** A folder under from, under to. */
  function Moved(from: string, to: string, dir: string): string {
    if Under(from, dir) then to + "/" + dir[|from| + 1..] else dir
  }

  function MovedAll(from: string, to: string, dirs: seq<string>): (r: seq<string>)
    ensures |r| == |dirs| && forall i :: 0 <= i < |dirs| ==> r[i] == Moved(from, to, dirs[i])
  {
    seq(|dirs|, i requires 0 <= i < |dirs| => Moved(from, to, dirs[i]))
  }

  function Renamed(t: Token, from: string, to: string): Token {
    Token(
      t.id, Ren(from, to, t.project),
      if from in t.projects then Normalize(RenAll(from, to, t.projects)) else t.projects,
      t.write, MovedAll(from, to, t.writePaths))
  }

  predicate Changes(t: Token, from: string) {
    t.project == from || from in t.projects || exists i :: 0 <= i < |t.writePaths| && Under(from, t.writePaths[i])
  }

  /** A token's names as mint stores them. */
  predicate Clean(t: Token) {
    && (forall p :: p in t.projects ==> p != "" && TrimSpace(p) == p)
    && (t.projects != [] ==> t.project in t.projects)
  }

  /** A scoped token follows its project: it reaches the new name when it reached the old
      or the new one, no longer the old one, and any other as before. */
  lemma RenameFollows(t: Token, from: string, to: string, q: string)
    requires Clean(t) && from != "" && to != "" && from != to && TrimSpace(to) == to
    ensures AllowsProject(Renamed(t, from, to), q)
            <==> if IsAdmin(t) then true
                 else if q == to then AllowsProject(t, from) || AllowsProject(t, to)
                 else q != from && AllowsProject(t, q)
    ensures IsAdmin(Renamed(t, from, to)) <==> IsAdmin(t)
    ensures Clean(Renamed(t, from, to))
  {
    if from in t.projects { ListRenamed(t.projects, from, to); }
  }

  /** A list of clean names renamed: each is there under its new name, and no other. */
  lemma ListRenamed(ps: seq<string>, from: string, to: string)
    requires (forall p :: p in ps ==> p != "" && TrimSpace(p) == p) && from in ps
    requires to != "" && TrimSpace(to) == to && from != to
    ensures var r := Normalize(RenAll(from, to, ps));
            && to in r && (forall y :: y in r ==> y != "" && TrimSpace(y) == y)
            && (forall y :: y in r <==> y == to || (y != from && y in ps))
  {
    var all := RenAll(from, to, ps);
    NormalizeIs(all);
    forall x | x in ps ensures Ren(from, to, x) in Normalize(all) {
      var i :| 0 <= i < |ps| && ps[i] == x;
      assert TrimSpace(all[i]) == Ren(from, to, x);
    }
    assert Ren(from, to, from) == to;
    forall y | y in ps && y != from ensures y in Normalize(all) { assert Ren(from, to, y) == y; }
    forall y | y in Normalize(all) ensures TrimSpace(y) == y && (y == to || (y != from && y in ps)) {
      var i :| 0 <= i < |all| && TrimSpace(all[i]) == y;
      assert ps[i] in ps;
    }
  }

  /** A rename leaves a scoped token without a scope, which makes it an administrator's,
      exactly when the new name is blank and the token's list had no other name to keep,
      nor a legacy project. */
  lemma RenameUnscopes(t: Token, from: string, to: string)
    requires from != "" && to != ""
    ensures IsAdmin(Renamed(t, from, to)) <==>
              || IsAdmin(t)
              || (from in t.projects && TrimSpace(to) == "" && t.project == ""
                  && forall p :: p in t.projects ==> p == from || TrimSpace(p) == "")
  {
    var r := RenAll(from, to, t.projects);
    NormalizeIs(r);
    if from in t.projects {
      forall i | 0 <= i < |r| ensures TrimSpace(r[i]) == "" || TrimSpace(r[i]) in Normalize(r) {}
      if Normalize(r) == [] {
        forall p | p in t.projects ensures TrimSpace(Ren(from, to, p)) == "" {
          var i :| 0 <= i < |t.projects| && t.projects[i] == p;
          assert r[i] == Ren(from, to, p);
        }
      } else {
        assert Normalize(r)[0] in Normalize(r);
        var i :| 0 <= i < |r| && TrimSpace(r[i]) == Normalize(r)[0];
        assert t.projects[i] in t.projects;
      }
    }
  }

  // ----- A project deleted -----

  function Without(name: string, ps: seq<string>): seq<string> { Filter((p: string) => p != name, ps) }

  /** The token without the project, None when it is revoked. */
  function Removed(t: Token, name: string): Option<Token> {
    if name !in ProjectList(t) then Some(t)
    else
      var rest := Without(name, ProjectList(t));
      if rest == [] then None
      else Some(t.(project := rest[0], projects := if |rest| > 1 then rest else []))
  }

  /** A token that stays reaches what it reached but the project deleted, and an
      administrator's token alone is one; a token is revoked exactly when it reached that
      project and no other. One that loses a project has its first left, and a list only of
      several; the rest of a token stays. */
  lemma RemoveNarrows(t: Token, name: string, q: string)
    requires name != "" && forall p :: p in t.projects ==> p != ""
    ensures var r := Removed(t, name);
            && (r.Some? ==>
                  && (IsAdmin(r.value) <==> IsAdmin(t))
                  && (AllowsProject(r.value, q) <==> IsAdmin(t) || (q != name && AllowsProject(t, q))))
            && (r.None? <==> !IsAdmin(t) && forall p :: p in ProjectList(t) ==> p == name)
            && (r.Some? ==> r.value.id == t.id && r.value.write == t.write && r.value.writePaths == t.writePaths)
            && (r.Some? && name !in ProjectList(t) ==> r.value == t)
            && (r.Some? && name in ProjectList(t) ==>
                  && ProjectList(r.value) == Without(name, ProjectList(t)) && r.value.project == ProjectList(r.value)[0]
                  && (r.value.projects == [] <==> |ProjectList(r.value)| == 1))
    ensures Clean(t) && Removed(t, name).Some? ==> Clean(Removed(t, name).value)
  {
    var list := ProjectList(t);
    var rest := Without(name, list);
    if name in list {
      if rest == [] {
        forall p | p in list ensures p == name { assert p != name ==> p in rest; }
      } else {
        assert rest[0] in rest;
        assert |rest| == 1 ==> rest == [rest[0]];
      }
    }
  }

  // ----- The store -----

  function RenamedAll(ts: seq<Token>, from: string, to: string): (r: seq<Token>)
    ensures |r| == |ts| && forall i :: 0 <= i < |ts| ==> r[i] == Renamed(ts[i], from, to)
  {
    seq(|ts|, i requires 0 <= i < |ts| => Renamed(ts[i], from, to))
  }

  function ChangedCount(ts: seq<Token>, from: string): nat {
    if ts == [] then 0 else ChangedCount(ts[..|ts| - 1], from) + (if Changes(ts[|ts| - 1], from) then 1 else 0)
  }

  function RemovedOf(name: string): Token -> Option<Token> { (t: Token) => Removed(t, name) }

  function RemovedAll(ts: seq<Token>, name: string): seq<Token> { Pick(RemovedOf(name), ts) }

  /** Token after token, in their order: what is left of each, if anything. */
  lemma RemovedInOrder(ts: seq<Token>, t: Token, us: seq<Token>, name: string)
    ensures RemovedAll(ts + [t] + us, name)
            == RemovedAll(ts, name) + PickOne(RemovedOf(name), t) + RemovedAll(us, name)
  {
    PickMiddle(RemovedOf(name), ts, t, us);
  }

  /** The tokens that name the project. */
  function Holders(ts: seq<Token>, name: string): seq<Token> { Filter(Holding(name), ts) }

  function Holding(name: string): Token -> bool { (t: Token) => name in ProjectList(t) }

  class Store {
    var tokens: seq<Token>

    constructor (ts: seq<Token>)
      ensures tokens == ts
    {
      tokens := ts;
    }

    /** RenameProject: every token's names, in place, and how many changed. */
    method RenameProject(from: string, to: string) returns (n: nat)
      modifies this
      ensures tokens == if from == "" || to == "" || from == to then old(tokens) else RenamedAll(old(tokens), from, to)
      ensures n == if from == "" || to == "" || from == to then 0 else ChangedCount(old(tokens), from)
    {
      n := 0;
      if from == "" || to == "" || from == to { return; }
      var ts := tokens;
      for i := 0 to |ts|
        invariant |ts| == |old(tokens)| && n == ChangedCount(old(tokens)[..i], from)
        invariant forall j :: 0 <= j < i ==> ts[j] == Renamed(old(tokens)[j], from, to)
        invariant forall j :: i <= j < |ts| ==> ts[j] == old(tokens)[j]
      {
        assert old(tokens)[..i + 1][..i] == old(tokens)[..i];
        var t, changed := RenameToken(ts[i], from, to);
        if changed { n := n + 1; }
        ts := ts[i := t];
      }
      assert old(tokens)[..|old(tokens)|] == old(tokens);
      tokens := ts;
    }

    /** RemoveProject: a token of that project alone is revoked, one of several loses it. */
    method RemoveProject(name: string) returns (revoked: nat, narrowed: nat)
      modifies this
      ensures tokens == if name == "" then old(tokens) else RemovedAll(old(tokens), name)
      ensures |tokens| + revoked == |old(tokens)|
      ensures revoked + narrowed == if name == "" then 0 else |Holders(old(tokens), name)|
    {
      revoked, narrowed := 0, 0;
      if name == "" { return; }
      var ts := tokens;
      var kept := [];
      for i := 0 to |ts|
        invariant ts == old(tokens) && kept == RemovedAll(ts[..i], name) && |kept| + revoked == i
        invariant revoked + narrowed == |Holders(ts[..i], name)|
      {
        FilterSnoc(Holding(name), ts, i);
        PickSnoc(RemovedOf(name), ts, i);
        var left, gone, cut := RemoveToken(ts[i], name);
        kept, revoked, narrowed := kept + left, revoked + gone, narrowed + cut;
      }
      assert ts[..|ts|] == ts;
      tokens := kept;
    }
  }

  /** The body of the loop of RemoveProject: what is left of a token, and whether it is revoked or narrowed. */
  method RemoveToken(t: Token, name: string) returns (left: seq<Token>, revoked: nat, narrowed: nat)
    ensures left == PickOne(RemovedOf(name), t)
    ensures |left| + revoked == 1 && revoked + narrowed == if name in ProjectList(t) then 1 else 0
  {
    var list := ProjectList(t);
    if name !in list { return [t], 0, 0; }
    var rest := Without(name, list);
    if |rest| == 0 { return [], 1, 0; }
    return [t.(project := rest[0], projects := if |rest| > 1 then rest else [])], 0, 1;
  }

  /** The body of the loop of RenameProject: the three parts of a token that follow the name. */
  method RenameToken(was: Token, from: string, to: string) returns (t: Token, changed: bool)
    ensures t == Renamed(was, from, to) && (changed <==> Changes(was, from))
  {
    t, changed := was, was.project == from;
    if changed { t := t.(project := to); }
    if from in t.projects {
      var names := NormalizeProjects(RenAll(from, to, t.projects));
      t := t.(projects := names);
      changed := true;
    }
    if exists k :: 0 <= k < |t.writePaths| && Under(from, t.writePaths[k]) {
      t := t.(writePaths := MovedAll(from, to, t.writePaths));
      changed := true;
    }
    UnmovedIs(was, from, to);
  }

  lemma UnmovedIs(t: Token, from: string, to: string)
    ensures (forall k :: 0 <= k < |t.writePaths| ==> !Under(from, t.writePaths[k])) ==>
              MovedAll(from, to, t.writePaths) == t.writePaths
  {
  }

  // ----- Whole runs -----

  datatype Change = Rename(from: string, to: string) | Remove(name: string)

  /** A change to the projects as the vault makes it: of names that are no blanks. */
  predicate Sane(c: Change) {
    match c
    case Rename(from, to) => from != "" && to != "" && from != to && TrimSpace(to) == to
    case Remove(name) => name != ""
  }

  function AfterOne(t: Token, c: Change): Option<Token> {
    match c
    case Rename(from, to) => Some(Renamed(t, from, to))
    case Remove(name) => Removed(t, name)
  }

  function AfterAll(t: Token, cs: seq<Change>): Option<Token> {
    if cs == [] then Some(t)
    else
      var before := AfterAll(t, cs[..|cs| - 1]);
      if before.None? then None else AfterOne(before.value, cs[|cs| - 1])
  }

  /** The name a project of that name has after the changes, None once it was deleted. */
  function NameAfter(p: string, cs: seq<Change>): Option<string> {
    if cs == [] then Some(p)
    else
      var before := NameAfter(p, cs[..|cs| - 1]);
      if before.None? then None
      else
        match cs[|cs| - 1]
        case Rename(from, to) => Some(Ren(from, to, before.value))
        case Remove(name) => if before.value == name then None else before
  }

  /** Some project given is called q now. */
  ghost predicate Now(t: Token, cs: seq<Change>, q: string) {
    exists p :: p in ProjectList(t) && NameAfter(p, cs) == Some(q)
  }

  /** The token, if any, reaches the projects it was given under the names they have now. */
  ghost predicate Tracks(t: Token, cs: seq<Change>, r: Option<Token>) {
    && (r.None? <==> forall q :: !Now(t, cs, q))
    && (r.Some? ==> Clean(r.value) && !IsAdmin(r.value) && forall q :: AllowsProject(r.value, q) <==> Now(t, cs, q))
  }

  lemma NowNext(t: Token, cs: seq<Change>, c: Change, q: string)
    requires Sane(c)
    ensures Now(t, cs + [c], q) <==>
              match c
              case Rename(from, to) => if q == to then Now(t, cs, from) || Now(t, cs, to) else q != from && Now(t, cs, q)
              case Remove(name) => q != name && Now(t, cs, q)
  {
    assert (cs + [c])[..|cs|] == cs;
    forall p ensures NameAfter(p, cs + [c])
                     == match NameAfter(p, cs)
                        case None => None
                        case Some(x) => (match c
                                         case Rename(from, to) => Some(Ren(from, to, x))
                                         case Remove(name) => if x == name then None else Some(x))
    {
    }
    match c
    case Rename(from, to) =>
      if Now(t, cs, from) {
        var p :| p in ProjectList(t) && NameAfter(p, cs) == Some(from);
        assert NameAfter(p, cs + [c]) == Some(to);
      }
      if q != from && Now(t, cs, q) {
        var p :| p in ProjectList(t) && NameAfter(p, cs) == Some(q);
        assert NameAfter(p, cs + [c]) == Some(q);
      }
    case Remove(name) =>
      if q != name && Now(t, cs, q) {
        var p :| p in ProjectList(t) && NameAfter(p, cs) == Some(q);
        assert NameAfter(p, cs + [c]) == Some(q);
      }
  }

  lemma TracksRename(t: Token, cs: seq<Change>, r: Token, c: Change)
    requires Tracks(t, cs, Some(r)) && Sane(c) && c.Rename?
    ensures Tracks(t, cs + [c], Some(Renamed(r, c.from, c.to)))
  {
    var s := Renamed(r, c.from, c.to);
    forall q ensures AllowsProject(s, q) <==> Now(t, cs + [c], q) {
      RenameFollows(r, c.from, c.to, q);
      NowNext(t, cs, c, q);
    }
    RenameFollows(r, c.from, c.to, "");
    assert AllowsProject(s, ProjectList(s)[0]);
  }

  lemma TracksRemove(t: Token, cs: seq<Change>, r: Token, c: Change)
    requires Tracks(t, cs, Some(r)) && Sane(c) && c.Remove?
    ensures Tracks(t, cs + [c], Removed(r, c.name))
  {
    var s := Removed(r, c.name);
    RemoveNarrows(r, c.name, "");
    forall q ensures Now(t, cs + [c], q) <==> q != c.name && AllowsProject(r, q) { NowNext(t, cs, c, q); }
    if s.Some? {
      forall q ensures AllowsProject(s.value, q) <==> Now(t, cs + [c], q) { RemoveNarrows(r, c.name, q); }
      assert AllowsProject(s.value, ProjectList(s.value)[0]);
    } else {
      forall q ensures !Now(t, cs + [c], q) {
        assert AllowsProject(r, q) ==> q in ProjectList(r);
      }
    }
  }

  lemma TracksGone(t: Token, cs: seq<Change>, c: Change)
    requires Tracks(t, cs, None) && Sane(c)
    ensures Tracks(t, cs + [c], None)
  {
    forall q ensures !Now(t, cs + [c], q) { NowNext(t, cs, c, q); }
  }

  /** Over any run of renames and deletes, a scoped token reaches exactly the projects it
      was given, under the names they have now; it is revoked exactly when all of them
      are gone, and it never becomes an administrator's. */
  lemma {:induction false} RunFollows(t: Token, cs: seq<Change>)
    requires Clean(t) && !IsAdmin(t) && forall c :: c in cs ==> Sane(c)
    ensures Tracks(t, cs, AfterAll(t, cs))
  {
    if cs == [] {
      assert forall p :: NameAfter(p, cs) == Some(p);
      forall q ensures AllowsProject(t, q) <==> Now(t, cs, q) {
        if q in ProjectList(t) { assert NameAfter(q, cs) == Some(q); }
      }
      assert AllowsProject(t, ProjectList(t)[0]);
    } else {
      var before, c := cs[..|cs| - 1], cs[|cs| - 1];
      RunFollows(t, before);
      assert cs == before + [c];
      var r := AfterAll(t, before);
      if r.None? {
        TracksGone(t, before, c);
      } else if c.Rename? {
        TracksRename(t, before, r.value, c);
      } else {
        TracksRemove(t, before, r.value, c);
      }
    }
  }
}
