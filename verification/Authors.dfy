/** Who created and last modified each note (internal/index/authors.go): the
    fold of one audit event into the authors table. */
module Authors {
  import opened Text

  datatype Action =
    | Create | Update | Append | Restore | Rename | Delete | DeleteProject | RenameProject
    | Other

  datatype Event = Event(at: string, action: Action, path: string, to: string, author: string)

  datatype Author = Author(createdBy: string, createdAt: string, modifiedBy: string, modifiedAt: string)

  type Table = map<string, Author>

  function Lookup(t: Table, p: string): Option<Author> {
    if p in t then Some(t[p]) else None
  }

  lemma SameTable(a: Table, b: Table)
    requires forall p :: Lookup(a, p) == Lookup(b, p)
    ensures a == b
  {
    forall p ensures p in a <==> p in b { assert Lookup(a, p) == Lookup(b, p); }
    forall p | p in a ensures a[p] == b[p] { assert Lookup(a, p) == Lookup(b, p); }
  }

  // ----- One event -----

  function Written(t: Table, e: Event): Author {
    var a := if e.path in t then t[e.path] else Author("", "", "", "");
    var b := if e.action.Create? then a.(createdBy := e.author, createdAt := e.at) else a;
    b.(modifiedBy := e.author, modifiedAt := e.at)
  }

  /** The path a row moves to when its project is renamed. */
  function Moved(from: string, to: string, p: string): string
    requires Under(from, p)
  {
    to + "/" + p[|from| + 1..]
  }

  /** What the row of q is once the rows of visited are moved: the row that
      moved there, else its own unless that moved. */
  function RowAfter(t: Table, from: string, to: string, visited: set<string>, q: string): Option<Author> {
    var p := if Under(to, q) then from + q[|to|..] else q;
    if Under(to, q) && p in t && p in visited then Some(t[p])
    else if q in t && !(q in visited && Under(from, q)) then Some(t[q])
    else None
  }

  function RenamedProject(t: Table, from: string, to: string): Table {
    var targets := set p | p in t && Under(from, p) :: Moved(from, to, p);
    map q | q in t.Keys + targets && RowAfter(t, from, to, t.Keys, q).Some? :: RowAfter(t, from, to, t.Keys, q).value
  }

  function Apply(t: Table, e: Event): Table {
    match e.action
    case Create | Update | Append | Restore => t[e.path := Written(t, e)]
    case Rename =>
      if e.path in t && e.to != "" then
        (t - {e.path})[e.to := t[e.path].(modifiedBy := e.author, modifiedAt := e.at)]
      else t
    case Delete => map p | p in t && p != e.path && !Under(e.path, p) :: t[p]
    case DeleteProject => map p | p in t && !Under(e.path, p) :: t[p]
    case RenameProject => if e.to == "" then t else RenamedProject(t, e.path, e.to)
    case Other => t
  }

  /** The authors table a log gives, from t. */
  function Replay(t: Table, es: seq<Event>): Table
    decreases |es|
  {
    if es == [] then t else Replay(Apply(t, es[0]), es[1..])
  }

  lemma {:induction false} ReplaySnoc(t: Table, es: seq<Event>, e: Event)
    ensures Replay(t, es + [e]) == Apply(Replay(t, es), e)
    decreases |es|
  {
    if es == [] {
      assert es + [e] == [e];
      assert [e][1..] == [];
    } else {
      assert (es + [e])[1..] == es[1..] + [e];
      ReplaySnoc(Apply(t, es[0]), es[1..], e);
    }
  }

  // ----- The loop over the map it changes -----

  /** One turn of the loop that renames a project: Go may come to the entries
      the loop put in the map, or not, and never to one it took out. */
  function Visit(t: Table, from: string, to: string, p: string): Table {
    if p in t && Under(from, p) then (t - {p})[Moved(from, to, p) := t[p]] else t
  }

  function VisitAll(t: Table, from: string, to: string, order: seq<string>): Table {
    if order == [] then t
    else
      var n := |order| - 1;
      Visit(VisitAll(t, from, to, order[..n]), from, to, order[n])
  }

  function SetOf(order: seq<string>): set<string> { set p | p in order }

  lemma MovedBack(from: string, to: string, p: string)
    requires Under(from, p)
    ensures Under(to, Moved(from, to, p)) && from + Moved(from, to, p)[|to|..] == p
  {
    assert p == from + "/" + p[|from| + 1..];
  }

  /** No project is renamed to a folder of itself, or of which it is a folder. */
  predicate Apart(from: string, to: string) {
    from == to || (!Under(from, to) && !Under(to, from))
  }

  /** A row moved out of from is not in from again, unless it stayed. */
  lemma MovedOut(from: string, to: string, p: string)
    requires Under(from, p) && Apart(from, to)
    ensures Under(from, Moved(from, to, p)) ==> to == from
  {
    var q := Moved(from, to, p);
    assert forall i :: 0 <= i < |to| ==> q[i] == to[i];
    if Under(from, q) {
      assert forall i :: 0 <= i < |from| ==> q[i] == from[i];
      assert q[|from|] == '/' && q[|to|] == '/';
      assert |from| == |to|;
      assert from == to;
    }
  }

  /** Whatever the loop has come to, in whatever order, the rows are as if the
      rows it came to had moved at once. */
  lemma {:induction false} VisitAllIs(t: Table, from: string, to: string, order: seq<string>, q: string)
    requires Apart(from, to)
    ensures Lookup(VisitAll(t, from, to, order), q) == RowAfter(t, from, to, SetOf(order), q)
  {
    if order != [] {
      var n := |order| - 1;
      var p := order[n];
      var before := VisitAll(t, from, to, order[..n]);
      assert SetOf(order) == SetOf(order[..n]) + {p};
      VisitAllIs(t, from, to, order[..n], q);
      VisitAllIs(t, from, to, order[..n], p);
      VisitOne(t, from, to, SetOf(order[..n]), before, p, q);
    }
  }

  lemma VisitOne(t: Table, from: string, to: string, visited: set<string>, before: Table, p: string, q: string)
    requires Apart(from, to)
    requires Lookup(before, q) == RowAfter(t, from, to, visited, q)
    requires Lookup(before, p) == RowAfter(t, from, to, visited, p)
    ensures Lookup(Visit(before, from, to, p), q) == RowAfter(t, from, to, visited + {p}, q)
  {
    if Under(from, p) {
      MovedBack(from, to, p);
      MovedOut(from, to, p);
    }
    if Under(to, q) {
      var o := from + q[|to|..];
      assert Under(from, o) by { assert q[|to|] == '/'; assert o[..|from| + 1] == from + "/"; }
      MovedOut(from, to, o);
      assert Moved(from, to, o) == q by { assert q == to + "/" + q[|to| + 1..]; }
    }
  }

  /** The loop reaches every row of the start, whatever else it reaches. */
  predicate Complete(t: Table, order: seq<string>) {
    t.Keys <= SetOf(order)
  }

  /** So the loop that renames a project gives one table, in whatever order the
      map comes, when neither name is a folder of the other. */
  lemma RenameInAnyOrder(t: Table, from: string, to: string, order: seq<string>)
    requires Apart(from, to) && Complete(t, order)
    ensures VisitAll(t, from, to, order) == RenamedProject(t, from, to)
  {
    forall q ensures Lookup(VisitAll(t, from, to, order), q) == Lookup(RenamedProject(t, from, to), q) {
      VisitAllIs(t, from, to, order, q);
      RenamedIs(t, from, to, q);
      assert RowAfter(t, from, to, SetOf(order), q) == RowAfter(t, from, to, t.Keys, q);
    }
    SameTable(VisitAll(t, from, to, order), RenamedProject(t, from, to));
  }

  lemma RenamedIs(t: Table, from: string, to: string, q: string)
    ensures Lookup(RenamedProject(t, from, to), q) == RowAfter(t, from, to, t.Keys, q)
  {
    if Under(to, q) {
      var o := from + q[|to|..];
      assert Under(from, o) by { assert q[|to|] == '/'; assert o[..|from| + 1] == from + "/"; }
      assert Moved(from, to, o) == q by { assert q == to + "/" + q[|to| + 1..]; }
    }
  }

  /** Two complete orders of the same rows that give different tables. */
  ghost predicate OrderMatters(t: Table, from: string, to: string, one: seq<string>, two: seq<string>) {
    Complete(t, one) && Complete(t, two) && VisitAll(t, from, to, one) != VisitAll(t, from, to, two)
  }

  /** The order of the map matters exactly when one name is a folder of the
      other: the loop may come again to a row it has moved. Projects are renamed by names
      without a slash, so they never meet this. */
  lemma OrderMattersIff(from: string, to: string)
    ensures (exists t, one, two :: OrderMatters(t, from, to, one, two)) <==> !Apart(from, to)
  {
    if Apart(from, to) {
      forall t, one, two ensures !OrderMatters(t, from, to, one, two) {
        if Complete(t, one) && Complete(t, two) {
          RenameInAnyOrder(t, from, to, one);
          RenameInAnyOrder(t, from, to, two);
        }
      }
    } else if Under(from, to) {
      var p := from + "/x";
      TwiceMoved(from, to, p);
    } else {
      var p := from + "/" + from[|to| + 1..] + "/x";
      assert Moved(from, to, p) == from + "/x" by {
        assert p[|from| + 1..] == from[|to| + 1..] + "/x";
        assert from == to + "/" + from[|to| + 1..];
      }
      TwiceMoved(from, to, p);
    }
  }

  /** A row that moves to where it moves again. */
  lemma TwiceMoved(from: string, to: string, p: string)
    requires Under(from, p) && from != to && Under(from, Moved(from, to, p))
    ensures exists t, one, two :: OrderMatters(t, from, to, one, two)
  {
    var q := Moved(from, to, p);
    var r := Moved(from, to, q);
    var a := Author("", "", "", "");
    var t: Table := map[p := a];
    assert |q| - |p| == |r| - |q|;
    assert q != r by {
      if |from| == |to| { MovedSameLength(from, to, p); }
    }
    var one, two := [p], [p, q];
    assert two[..1] == one && one[..0] == [];
    assert VisitAll(t, from, to, one) == map[q := a];
    assert VisitAll(t, from, to, two) == map[r := a];
    assert q in map[q := a] && q !in map[r := a];
    assert OrderMatters(t, from, to, one, two);
  }

  lemma MovedSameLength(from: string, to: string, p: string)
    requires Under(from, p) && |from| == |to| && from != to
    ensures !Under(from, Moved(from, to, p))
  {
    var q := Moved(from, to, p);
    assert q[..|to|] == to;
  }

  // ----- The fold as the source does it -----

  /** Takes the rows under a folder out of t, row by row. */
  method DeleteUnder(t: Table, folder: string, order: seq<string>) returns (r: Table)
    requires Complete(t, order)
    ensures r == map p | p in t && !Under(folder, p) :: t[p]
  {
    r := t;
    for i := 0 to |order|
      invariant r == map p | p in t && !(Under(folder, p) && p in order[..i]) :: t[p]
    {
      assert order[..i + 1] == order[..i] + [order[i]];
      if order[i] in r && Under(folder, order[i]) {
        r := r - {order[i]};
      }
    }
    assert order[..|order|] == order;
    assert forall p :: p in t ==> p in SetOf(order);
  }

  /** apply: order is the order the loops come to the entries of the map in. */
  method ApplyInPlace(t: Table, e: Event, order: seq<string>) returns (r: Table)
    requires Complete(t, order)
    requires e.action.RenameProject? ==> Apart(e.path, e.to)
    ensures r == Apply(t, e)
  {
    r := t;
    match e.action
    case Create | Update | Append | Restore =>
      var a := if e.path in r then r[e.path] else Author("", "", "", "");
      if e.action.Create? {
        a := a.(createdBy := e.author, createdAt := e.at);
      }
      r := r[e.path := a.(modifiedBy := e.author, modifiedAt := e.at)];
    case Rename =>
      if e.path in r && e.to != "" {
        var a := r[e.path];
        r := r - {e.path};
        r := r[e.to := a.(modifiedBy := e.author, modifiedAt := e.at)];
      }
    case Delete =>
      r := r - {e.path};
      r := DeleteUnder(r, e.path, order);
    case DeleteProject =>
      r := DeleteUnder(r, e.path, order);
    case RenameProject =>
      if e.to != "" {
        for i := 0 to |order|
          invariant r == VisitAll(t, e.path, e.to, order[..i])
        {
          assert order[..i + 1][..i] == order[..i];
          if order[i] in r && Under(e.path, order[i]) {
            var a := r[order[i]];
            r := r - {order[i]};
            r := r[Moved(e.path, e.to, order[i]) := a];
          }
        }
        assert order[..|order|] == order;
        RenameInAnyOrder(t, e.path, e.to, order);
      }
    case Other =>
  }
}
