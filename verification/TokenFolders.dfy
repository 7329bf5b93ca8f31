/** The folders a token writes in, by the names of their paths: which paths are in them and
    how they follow a project that is renamed (internal/auth/auth.go). */
module TokenFolders {
  import opened Text
  import opened Tokens
  import opened TokenNarrow

  /** The names of a path. */
  function Names(path: string): (r: seq<string>)
    ensures r != []
  {
    Split(path, '/')
  }

  // ----- A path in the folders -----

  /** Some write folder's names, it ends in a slash, are the first names of the path, which
      has more. */
  ghost predicate InFolders(dirs: seq<string>, path: string) {
    exists dir: string :: dir + "/" in dirs && Names(dir) < Names(path)
  }

  /** The path goes up out of the vault, or starts at the root. */
  predicate GoesOut(path: string) {
    Names(path)[0] == ".." || (Names(path)[0] == "" && |Names(path)| > 1)
  }

  predicate Slashed(dirs: seq<string>) {
    forall i :: 0 <= i < |dirs| ==> dirs[i] != "" && dirs[i][|dirs[i]| - 1] == '/'
  }

  lemma FirstName(path: string)
    ensures Names(path)[0] == ".." <==> path == ".." || "../" <= path
    ensures Names(path)[0] == "" && |Names(path)| > 1 <==> "/" <= path
  {
    UnderIsNames("..", path);
    UnderIsNames("", path);
    assert "" + "/" == "/" && Names("") == [""];
    DotsName();
    if Names(path)[0] == ".." && |Names(path)| == 1 {
      JoinSplit(path, '/');
      assert Names(path) == [".."];
    }
    if Names(path)[0] == ".." && |Names(path)| > 1 { assert Names(path)[..1] == Names(".."); }
    if Names(path)[0] == "" && |Names(path)| > 1 { assert Names(path)[..1] == Names(""); }
  }

  lemma DotsName()
    ensures Names("..") == [".."]
  {
    SplitPut('.', "", '/');
    SplitPut('.', ".", '/');
    assert ['.'] + "" == "." && ['.'] + "." == "..";
  }

  /** A path is where a token with write folders writes exactly when, cleaned, it does not go
      out of the vault and is strictly under one of them, name by name. */
  lemma InWritePathsIs(t: Token, path: string, clean: string -> string)
    requires Slashed(t.writePaths) && t.writePaths != []
    ensures InWritePaths(t, path, clean) <==> !GoesOut(clean(path)) && InFolders(t.writePaths, clean(path))
  {
    var p := clean(path);
    FirstName(p);
    forall i | 0 <= i < |t.writePaths| && t.writePaths[i] <= p ensures InFolders(t.writePaths, p) {
      var d := t.writePaths[i];
      var dir := d[..|d| - 1];
      assert dir + "/" == d;
      UnderIsNames(dir, p);
    }
    if InFolders(t.writePaths, p) {
      var dir: string :| dir + "/" in t.writePaths && Names(dir) < Names(p);
      UnderIsNames(dir, p);
      var i :| 0 <= i < |t.writePaths| && t.writePaths[i] == dir + "/";
    }
  }

  // ----- The folders of a renamed project -----

  /** The folders keep their place in the project under its new name; the others stay. */
  lemma MovedIs(from: string, to: string, dir: string)
    ensures Names(Moved(from, to, dir))
            == if Names(from) < Names(dir) then Names(to) + Names(dir)[|Names(from)|..] else Names(dir)
  {
    UnderIsNames(from, dir);
    if Under(from, dir) {
      var rest := dir[|from| + 1..];
      assert dir == from + ['/'] + rest;
      SplitConcat(from, rest, '/');
      SplitConcat(to, rest, '/');
      assert to + "/" + rest == to + ['/'] + rest;
    }
  }

  /** The project of a path is its first name. */
  lemma {:induction false} ProjectOfIs(path: string)
    ensures Tokens.ProjectOf(path) == Names(path)[0]
  {
    if path != "" {
      ProjectOfIs(path[1..]);
      assert path == [path[0]] + path[1..];
      SplitPut(path[0], path[1..], '/');
      FirstSlash(path);
    }
  }

  lemma FirstSlash(path: string)
    requires path != ""
    ensures IndexOf(path, '/') == if path[0] == '/' then 0 else 1 + IndexOf(path[1..], '/')
  {
  }

  /** A renamed project's token is written back exactly when something of it changed. */
  lemma ChangesIs(t: Token, from: string, to: string)
    requires Clean(t) && from != "" && to != "" && from != to && TrimSpace(to) == to
    ensures Changes(t, from) <==> Renamed(t, from, to) != t
  {
    var r := Renamed(t, from, to);
    if from in t.projects {
      ListRenamed(t.projects, from, to);
      assert from !in r.projects;
    }
    if i :| 0 <= i < |t.writePaths| && Under(from, t.writePaths[i]) {
      MovedAway(from, to, t.writePaths[i]);
      assert r.writePaths[i] != t.writePaths[i];
    } else {
      UnmovedIs(t, from, to);
    }
  }

  lemma MovedAway(from: string, to: string, dir: string)
    requires Under(from, dir) && from != to
    ensures Moved(from, to, dir) != dir
  {
    var rest := dir[|from| + 1..];
    assert dir == from + ("/" + rest) && Moved(from, to, dir) == to + ("/" + rest);
    SameStart(from, to, "/" + rest);
  }

  lemma SameStart(a: string, b: string, s: string)
    ensures a + s == b + s ==> a == b
  {
    assert (a + s)[..|a + s| - |s|] == a && (b + s)[..|b + s| - |s|] == b;
  }

  /** How many tokens RenameProject says it changed: those that differ. */
  function Differ(ts: seq<Token>, us: seq<Token>): nat
    requires |ts| == |us|
  {
    |set i | 0 <= i < |ts| && ts[i] != us[i]|
  }

  lemma DifferNext(ts: seq<Token>, us: seq<Token>)
    requires |ts| == |us| && ts != []
    ensures var n := |ts| - 1; Differ(ts, us) == Differ(ts[..n], us[..n]) + if ts[n] != us[n] then 1 else 0
  {
    var n := |ts| - 1;
    var before := set i | 0 <= i < n && ts[..n][i] != us[..n][i];
    assert (set i | 0 <= i < |ts| && ts[i] != us[i]) == before + if ts[n] != us[n] then {n} else {};
  }

  lemma {:induction false} CountIsDiffer(ts: seq<Token>, from: string, to: string)
    requires (forall t :: t in ts ==> Clean(t)) && from != "" && to != "" && from != to && TrimSpace(to) == to
    ensures ChangedCount(ts, from) == Differ(ts, RenamedAll(ts, from, to))
  {
    if ts != [] {
      var n := |ts| - 1;
      var us := RenamedAll(ts, from, to);
      CountIsDiffer(ts[..n], from, to);
      ChangesIs(ts[n], from, to);
      DifferNext(ts, us);
      assert us[..n] == RenamedAll(ts[..n], from, to);
    }
  }
}
