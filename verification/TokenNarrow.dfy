/** A token cut down to what its owner's account may do (internal/authz/token.go), and
    the level an account has on a project (internal/authz/authz.go). */
module TokenNarrow {
  import opened Text
  import opened Tokens

  // ----- Levels -----

  datatype Role = Owner | Member | Guest | NoRole

  datatype Principal = Principal(userId: string, role: Role, restricted: bool)

  datatype Visibility = Public | Internal | Private

  /** None, read, write and admin, in increasing order. */
  const NONE := 0
  const READ := 1
  const WRITE := 2
  const ADMIN := 3

  /** What is looked up of projects: their visibility and the levels granted to a user,
      where there is something to look up. */
  datatype Access = Access(visibility: Option<string -> Visibility>, grants: Option<(string, string) -> seq<int>>)

  function VisibilityOf(cfg: Access, project: string): Visibility {
    if cfg.visibility.None? then Private else cfg.visibility.value(project)
  }

  /** The level visibility alone gives. */
  function BaseLevel(p: Principal, project: string, cfg: Access): int {
    var v := VisibilityOf(cfg, project);
    if !p.restricted && (v == Public || (v == Internal && p.role == Member)) then READ else NONE
  }

  /** The grants that count for p. */
  function GrantsOf(p: Principal, project: string, cfg: Access): seq<int> {
    if (p.role == Member || p.role == Guest) && cfg.grants.Some? && p.userId != "" then cfg.grants.value(p.userId, project)
    else []
  }

  function Highest(levels: seq<int>, least: int): int {
    if levels == [] then least
    else
      var before, l := Highest(levels[..|levels| - 1], least), levels[|levels| - 1];
      if l > NONE && l > before then l else before
  }

  function Level(p: Principal, project: string, cfg: Access): int {
    if p.role == Owner then ADMIN
    else
      var l := Highest(GrantsOf(p, project, cfg), BaseLevel(p, project, cfg));
      if p.role == Guest && l > READ then READ else l
  }

  lemma {:induction false} HighestIs(levels: seq<int>, least: int)
    requires least >= NONE
    ensures var h := Highest(levels, least);
            && h >= least && (h == least || h in levels) && forall l :: l in levels ==> l <= h
  {
    if levels != [] {
      HighestIs(levels[..|levels| - 1], least);
      assert levels == levels[..|levels| - 1] + [levels[|levels| - 1]];
    }
  }

  /** The loop of Explain. */
  method Explain(p: Principal, project: string, cfg: Access) returns (level: int)
    ensures level == Level(p, project, cfg)
  {
    if p.role == Owner { return ADMIN; }
    level := NONE;
    if !p.restricted {
      var v := VisibilityOf(cfg, project);
      if v == Public || (v == Internal && p.role == Member) { level := READ; }
    }
    if (p.role == Member || p.role == Guest) && cfg.grants.Some? && p.userId != "" {
      var gs := cfg.grants.value(p.userId, project);
      ghost var base := level;
      for i := 0 to |gs|
        invariant level == Highest(gs[..i], base)
      {
        assert gs[..i + 1][..i] == gs[..i];
        if gs[i] > NONE && gs[i] > level { level := gs[i]; }
      }
      assert gs[..|gs|] == gs;
    }
    if p.role == Guest && level > READ { level := READ; }
  }

  predicate CanAccess(p: Principal, project: string, cfg: Access) { Level(p, project, cfg) >= READ }

  predicate CanWrite(p: Principal, project: string, cfg: Access) { Level(p, project, cfg) >= WRITE }

  /** Who writes a project: the owner, and a member with a grant to write. */
  lemma WhoWrites(p: Principal, project: string, cfg: Access)
    ensures CanWrite(p, project, cfg) <==>
              p.role == Owner || (p.role == Member && Granted(p, project, cfg, WRITE))
    ensures CanWrite(p, project, cfg) ==> CanAccess(p, project, cfg)
  {
    HighestIs(GrantsOf(p, project, cfg), BaseLevel(p, project, cfg));
  }

  /** A grant of level at least least that the access list gives p on the project: to a member
      or a guest with an account. */
  predicate Granted(p: Principal, project: string, cfg: Access, least: int) {
    && (p.role == Member || p.role == Guest) && p.userId != "" && cfg.grants.Some?
    && exists g :: g in cfg.grants.value(p.userId, project) && g >= least
  }

  /** What everybody not restricted sees: a public project, and, of members, an internal one.
      Where no visibility is looked up every project is private. */
  predicate SeesByVisibility(p: Principal, project: string, cfg: Access) {
    && !p.restricted && cfg.visibility.Some?
    && (cfg.visibility.value(project).Public? || (cfg.visibility.value(project).Internal? && p.role == Member))
  }

  /** Who reads a project: the owner, who sees it by its visibility, and a member or guest
      with a grant. A private one is read by no other than the owner without a grant. */
  lemma WhoReads(p: Principal, project: string, cfg: Access)
    ensures CanAccess(p, project, cfg) <==>
              p.role == Owner || SeesByVisibility(p, project, cfg) || Granted(p, project, cfg, READ)
  {
    HighestIs(GrantsOf(p, project, cfg), BaseLevel(p, project, cfg));
  }

  // ----- Tokens at run time -----

  /** A token and the filter narrowing its writes, None for none. */
  datatype Live = Live(token: Token, filter: Option<string -> bool>)

  predicate Passes(t: Live, project: string) { t.filter.None? || t.filter.value(project) }

  /** The path, cleaned, is under one of the token's write folders; a token without any
      writes anywhere. clean is path.Clean. */
  predicate InWritePaths(t: Token, path: string, clean: string -> string) {
    || t.writePaths == []
    || (&& clean(path) != ".." && !("../" <= clean(path)) && !("/" <= clean(path))
        && exists i :: 0 <= i < |t.writePaths| && t.writePaths[i] <= clean(path))
  }

  /** AllowsWrite. */
  predicate Writes(t: Live, path: string, clean: string -> string) {
    && t.token.write && AllowsPath(t.token, path) && InWritePaths(t.token, path, clean)
    && Passes(t, ProjectOf(path))
  }

  // ----- NarrowToken -----

  /** The token's projects, or every project when it has none. */
  function Candidates(t: Token, all: seq<string>): seq<string> { if IsAdmin(t) then all else ProjectList(t) }

  function Readable(t: Token, p: Principal, cfg: Access, all: seq<string>): seq<string> {
    Filter((name: string) => CanAccess(p, name, cfg), Candidates(t, all))
  }

  function Writable(t: Token, p: Principal, cfg: Access, all: seq<string>): (r: set<string>)
    ensures forall name :: name in r <==> name in Candidates(t, all) && CanAccess(p, name, cfg) && CanWrite(p, name, cfg)
  {
    set i | 0 <= i < |Candidates(t, all)| && CanAccess(p, Candidates(t, all)[i], cfg)
            && CanWrite(p, Candidates(t, all)[i], cfg) :: Candidates(t, all)[i]
  }

  /** The owner writes some of the projects it reads of the token's, and not all. */
  predicate Partly(t: Token, p: Principal, cfg: Access, all: seq<string>) {
    0 < |Writable(t, p, cfg, all)| < |Readable(t, p, cfg, all)|
  }

  /** The filter that passes the projects of names. */
  function Only(names: set<string>): string -> bool { (q: string) => q in names }

  /** None is ErrNoAccess. */
  function Narrow(t: Live, p: Principal, cfg: Access, all: seq<string>): Option<Live> {
    if p.role == Owner then Some(t)
    else
      var readable, writable := Readable(t.token, p, cfg, all), Writable(t.token, p, cfg, all);
      if readable == [] then None
      else
        var eff := t.token.(project := "", projects := readable);
        if writable == {} then Some(Live(eff.(write := false), t.filter))
        else if |writable| < |readable| then Some(Live(eff, Some(Only(writable))))
        else Some(Live(eff, t.filter))
  }

  /** The cases of NarrowToken, and the copy it makes. */
  method NarrowToken(t: Live, p: Principal, cfg: Access, all: seq<string>) returns (eff: Option<Live>)
    ensures eff == Narrow(t, p, cfg, all)
    ensures p.role == Owner ==> eff == Some(t)
    ensures p.role != Owner && eff.Some? ==>
              (eff.value.token.write <==>
                t.token.write && exists q :: q in Candidates(t.token, all) && CanWrite(p, q, cfg))
    ensures eff.Some? ==> eff.value.token.id == t.token.id && eff.value.token.writePaths == t.token.writePaths
  {
    if p.role == Owner { return Some(t); }
    var readable, writable := ReadableWritable(t.token, p, cfg, all);
    if |readable| == 0 { return None; }
    SomeWritable(t.token, p, cfg, all);
    var cut := t.token.(project := "", projects := readable);
    if |writable| == 0 { return Some(Live(cut.(write := false), t.filter)); }
    if |writable| < |readable| { return Some(Live(cut, Some(Only(writable)))); }
    return Some(Live(cut, t.filter));
  }

  lemma SomeWritable(t: Token, p: Principal, cfg: Access, all: seq<string>)
    ensures Writable(t, p, cfg, all) != {} <==> exists q :: q in Candidates(t, all) && CanWrite(p, q, cfg)
  {
    if q :| q in Candidates(t, all) && CanWrite(p, q, cfg) {
      WhoWrites(p, q, cfg);
      assert q in Writable(t, p, cfg, all);
    }
    if Writable(t, p, cfg, all) != {} {
      var q :| q in Writable(t, p, cfg, all);
    }
  }

  /** The projects of the token that p reads, and those of them it writes. */
  method ReadableWritable(t: Token, p: Principal, cfg: Access, all: seq<string>)
    returns (readable: seq<string>, writable: set<string>)
    ensures readable == Readable(t, p, cfg, all) && writable == Writable(t, p, cfg, all)
  {
    var candidates := Candidates(t, all);
    readable, writable := [], {};
    for i := 0 to |candidates|
      invariant readable == Filter((name: string) => CanAccess(p, name, cfg), candidates[..i])
      invariant forall name :: name in writable <==>
                  name in candidates[..i] && CanAccess(p, name, cfg) && CanWrite(p, name, cfg)
    {
      FilterSnoc((name: string) => CanAccess(p, name, cfg), candidates, i);
      assert candidates[..i + 1] == candidates[..i] + [candidates[i]];
      var name := candidates[i];
      var level := Explain(p, name, cfg);
      if level >= READ {
        readable := readable + [name];
        if level >= WRITE { writable := writable + {name}; }
      }
    }
    assert candidates[..|candidates|] == candidates;
    assert writable == Writable(t, p, cfg, all);
  }

  // ----- The intersection -----

  predicate Named(t: Token, all: seq<string>) { forall p :: p in Candidates(t, all) ==> IsName(p) }

  /** A narrowed token reads exactly what the token and its owner both read, of the
      projects there are; there is none exactly when that is nothing. */
  lemma NarrowReads(t: Live, p: Principal, cfg: Access, all: seq<string>, path: string)
    requires p.role != Owner && Named(t.token, all) && ProjectOf(path) in all
    ensures var r := Narrow(t, p, cfg, all);
            && (r.None? <==> forall q :: q in Candidates(t.token, all) ==> !CanAccess(p, q, cfg))
            && (r.Some? ==>
                  (AllowsPath(r.value.token, path) <==> AllowsPath(t.token, path) && CanAccess(p, ProjectOf(path), cfg)))
  {
    var readable := Readable(t.token, p, cfg, all);
    if readable == [] {
      forall q | q in Candidates(t.token, all) ensures !CanAccess(p, q, cfg) {
        assert CanAccess(p, q, cfg) ==> q in readable;
      }
    } else {
      assert readable[0] in readable;
      var r := Narrow(t, p, cfg, all).value;
      assert ProjectList(r.token) == readable;
      AllowsPathIs(r.token, path);
      if !IsAdmin(t.token) { AllowsPathIs(t.token, path); }
    }
  }

  /** A narrowed token writes what the token and its owner both write. */
  predicate WritesBoth(t: Live, r: Live, p: Principal, cfg: Access, path: string, clean: string -> string) {
    Writes(r, path, clean) <==> Writes(t, path, clean) && CanWrite(p, ProjectOf(path), cfg)
  }

  /** The narrowed token's filter, where the owner writes only some of the projects,
      replaces the token's own: here that refuses the path, in a folder the token writes in
      and a project the owner writes. */
  predicate FilterLostAt(t: Live, p: Principal, cfg: Access, all: seq<string>, path: string, clean: string -> string) {
    && Partly(t.token, p, cfg, all) && t.token.write && InWritePaths(t.token, path, clean)
    && ProjectOf(path) in Writable(t.token, p, cfg, all) && !Passes(t, ProjectOf(path))
  }

  lemma BothWritable(t: Live, p: Principal, cfg: Access, all: seq<string>, path: string)
    requires Named(t.token, all) && ProjectOf(path) in all
    ensures ProjectOf(path) in Writable(t.token, p, cfg, all) <==> AllowsPath(t.token, path) && CanWrite(p, ProjectOf(path), cfg)
    ensures AllowsPath(t.token, path) <==> ProjectOf(path) in Candidates(t.token, all)
    ensures CanWrite(p, ProjectOf(path), cfg) ==> CanAccess(p, ProjectOf(path), cfg)
  {
    WhoWrites(p, ProjectOf(path), cfg);
    if !IsAdmin(t.token) { AllowsPathIs(t.token, path); }
    assert AllowsPath(t.token, path) <==> ProjectOf(path) in Candidates(t.token, all);
  }

  /** What the narrowed token's write scope and filter pass, of the projects it reads. */
  lemma NarrowPasses(t: Live, p: Principal, cfg: Access, all: seq<string>, q: string)
    requires p.role != Owner && Narrow(t, p, cfg, all).Some?
    ensures var r := Narrow(t, p, cfg, all).value;
            q in Readable(t.token, p, cfg, all) ==>
              (r.token.write && Passes(r, q) <==>
                t.token.write && q in Writable(t.token, p, cfg, all) && (Partly(t.token, p, cfg, all) || Passes(t, q)))
    ensures q in Readable(t.token, p, cfg, all) <==> q in Candidates(t.token, all) && CanAccess(p, q, cfg)
  {
    var readable, writable := Readable(t.token, p, cfg, all), Writable(t.token, p, cfg, all);
    if |writable| >= |readable| { AllWritable(readable, writable); }
  }

  /** A narrowed token writes a path exactly when the token and its owner both write it, but
      where a filter the token had is lost. */
  lemma NarrowWritesPath(t: Live, p: Principal, cfg: Access, all: seq<string>, path: string, clean: string -> string)
    requires p.role != Owner && Named(t.token, all) && ProjectOf(path) in all
    requires Narrow(t, p, cfg, all).Some?
    ensures WritesBoth(t, Narrow(t, p, cfg, all).value, p, cfg, path, clean) <==> !FilterLostAt(t, p, cfg, all, path, clean)
  {
    var r := Narrow(t, p, cfg, all).value;
    NarrowReads(t, p, cfg, all, path);
    BothWritable(t, p, cfg, all, path);
    NarrowPasses(t, p, cfg, all, ProjectOf(path));
    PathCases(t, r, p, cfg, path, clean, Partly(t.token, p, cfg, all), Writable(t.token, p, cfg, all));
  }

  lemma PathCases(t: Live, r: Live, p: Principal, cfg: Access, path: string, clean: string -> string,
                  partly: bool, writable: set<string>)
    requires var q := ProjectOf(path);
             && r.token.writePaths == t.token.writePaths
             && (AllowsPath(r.token, path) <==> AllowsPath(t.token, path) && CanAccess(p, q, cfg))
             && (q in writable <==> AllowsPath(t.token, path) && CanWrite(p, q, cfg))
             && (CanWrite(p, q, cfg) ==> CanAccess(p, q, cfg))
             && (AllowsPath(r.token, path) ==>
                   (r.token.write && Passes(r, q) <==> t.token.write && q in writable && (partly || Passes(t, q))))
    ensures WritesBoth(t, r, p, cfg, path, clean) <==>
              !(partly && t.token.write && InWritePaths(t.token, path, clean) && ProjectOf(path) in writable
                && !Passes(t, ProjectOf(path)))
  {
  }

  /** As many names as a list has places are all its names. */
  lemma AllWritable(list: seq<string>, names: set<string>)
    requires |names| >= |list| && forall n :: n in names ==> n in list
    ensures forall n :: n in list ==> n in names
  {
    Names(list);
    var all := set i | 0 <= i < |list| :: list[i];
    assert names <= all;
    SameSize(names, all);
  }

  lemma {:induction false} Names(list: seq<string>)
    ensures |set i | 0 <= i < |list| :: list[i]| <= |list|
  {
    if list != [] {
      var n := |list| - 1;
      Names(list[..n]);
      assert (set i | 0 <= i < |list| :: list[i]) == (set i | 0 <= i < n :: list[..n][i]) + {list[n]};
    }
  }

  lemma {:induction false} SameSize(s: set<string>, t: set<string>)
    requires s <= t && |s| >= |t|
    ensures s == t
    decreases |s|
  {
    if s != {} {
      var x :| x in s;
      SameSize(s - {x}, t - {x});
      assert s == (s - {x}) + {x} && t == (t - {x}) + {x};
    } else {
      assert |t| == 0;
    }
  }

  /** Where the owner writes some of what it reads of the token's and not all, the token's
      own filter passes what the owner writes. */
  predicate FilterKept(t: Live, p: Principal, cfg: Access, all: seq<string>) {
    Partly(t.token, p, cfg, all) && t.token.write ==>
      forall q :: q in Writable(t.token, p, cfg, all) ==> Passes(t, q)
  }

  ghost predicate WritesBothEverywhere(t: Live, r: Live, p: Principal, cfg: Access, all: seq<string>,
                                       clean: string -> string) {
    forall path :: ProjectOf(path) in all ==> WritesBoth(t, r, p, cfg, path, clean)
  }

  /** A narrowed token writes exactly what the token and its owner both write, on every path
      of the projects there are, when narrowing loses no filter; of tokens without write
      folders, exactly then. A token that had no filter always does. */
  lemma NarrowWrites(t: Live, p: Principal, cfg: Access, all: seq<string>, clean: string -> string)
    requires p.role != Owner && Named(t.token, all) && Narrow(t, p, cfg, all).Some?
    requires forall q :: q in Candidates(t.token, all) ==> q in all
    ensures FilterKept(t, p, cfg, all) ==> WritesBothEverywhere(t, Narrow(t, p, cfg, all).value, p, cfg, all, clean)
    ensures t.token.writePaths == [] ==>
              (WritesBothEverywhere(t, Narrow(t, p, cfg, all).value, p, cfg, all, clean) <==> FilterKept(t, p, cfg, all))
    ensures t.filter.None? ==> FilterKept(t, p, cfg, all)
  {
    if FilterKept(t, p, cfg, all) {
      forall path | ProjectOf(path) in all
        ensures WritesBoth(t, Narrow(t, p, cfg, all).value, p, cfg, path, clean)
      {
        NarrowWritesPath(t, p, cfg, all, path, clean);
      }
    } else {
      var q :| q in Writable(t.token, p, cfg, all) && !Passes(t, q);
      TopFolder(q, q);
      NarrowWritesPath(t, p, cfg, all, q, clean);
    }
  }

  /** What is lost with a filter is a refusal: the narrowed token writes what the token
      itself did not. Tokens are narrowed as they are read from a store, without a filter,
      so none is lost today. */
  lemma FilterLost(t: Live, p: Principal, cfg: Access, all: seq<string>, path: string, clean: string -> string)
    requires p.role != Owner && Named(t.token, all) && ProjectOf(path) in all
    requires FilterLostAt(t, p, cfg, all, path, clean)
    ensures Narrow(t, p, cfg, all).Some?
    ensures Writes(Narrow(t, p, cfg, all).value, path, clean) && !Writes(t, path, clean)
  {
    var q := ProjectOf(path);
    NarrowReads(t, p, cfg, all, path);
    WhoWrites(p, q, cfg);
    var r := Narrow(t, p, cfg, all).value;
    assert q in ProjectList(r.token);
    AllowsPathIs(r.token, path);
  }
}
