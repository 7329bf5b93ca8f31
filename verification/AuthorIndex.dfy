/** The authors table and the fields derived from it, kept one event at a time
    (internal/index/authors.go: RebuildAuthors, RecordAuthor, syncAuthorFields). */
module AuthorIndex {
  import opened Text
  import opened Authors

  // ----- One event on the rows it can touch -----

  /** The paths the query asks for by name. */
  function PathsOf(e: Event): seq<string> {
    if e.action.Rename? then [e.path, e.to] else [e.path]
  }

  /** The query asks for the rows under the path as well. */
  predicate AsksUnder(e: Event) { e.action.Delete? || e.action.DeleteProject? || e.action.RenameProject? }

  /** A row the query must return: LIKE may return others, as it does not tell
      the case of letters. */
  predicate Asked(e: Event, p: string) {
    p in PathsOf(e) || (AsksUnder(e) && Under(e.path, p))
  }

  /** rows is what the query may return of t for e. */
  predicate Loads(t: Table, e: Event, rows: Table) {
    && (forall p :: p in rows ==> p in t && rows[p] == t[p])
    && (forall p :: p in t && Asked(e, p) ==> p in rows)
  }

  /** The paths whose rows are deleted and inserted again. */
  function Touched(e: Event, rows: Table): set<string> {
    rows.Keys + SetOf(PathsOf(e)) + (if e.action.RenameProject? then Apply(rows, e).Keys else {})
  }

  function Recorded(t: Table, e: Event, rows: Table): Table {
    if e.action.Other? then t else (t - Touched(e, rows)) + Apply(rows, e)
  }

  /** Applying an event to the rows loaded, or to the whole table, gives the same
      row of any path. */
  lemma ApplyOnLoaded(t: Table, e: Event, rows: Table, q: string)
    requires Loads(t, e, rows) && !e.action.Other?
    requires e.action.RenameProject? ==> Apart(e.path, e.to)
    ensures if q in Touched(e, rows) then Lookup(Apply(t, e), q) == Lookup(Apply(rows, e), q)
            else Lookup(Apply(t, e), q) == Lookup(t, q)
    ensures q in Apply(rows, e) ==> q in Touched(e, rows)
  {
    assert e.path in PathsOf(e);
    if e.action.RenameProject? {
      if e.to != "" { RenameOnLoaded(t, e, rows, q); }
    } else {
      assert e.action.Rename? ==> e.to in PathsOf(e);
      assert forall p :: p in PathsOf(e) ==> p in SetOf(PathsOf(e));
    }
  }

  lemma RenameOnLoaded(t: Table, e: Event, rows: Table, q: string)
    requires Loads(t, e, rows) && e.action.RenameProject? && e.to != "" && Apart(e.path, e.to)
    ensures if q in Touched(e, rows) then Lookup(Apply(t, e), q) == Lookup(Apply(rows, e), q)
            else Lookup(Apply(t, e), q) == Lookup(t, q)
  {
    RenamedIs(t, e.path, e.to, q);
    RenamedIs(rows, e.path, e.to, q);
    if Under(e.to, q) {
      var o := e.path + q[|e.to|..];
      assert Under(e.path, o) by { assert q[|e.to|] == '/'; assert o[..|e.path| + 1] == e.path + "/"; }
      assert Asked(e, o);
    }
  }

  /** One event recorded on what was loaded is the event applied to the table:
      load the rows, apply, delete, insert. */
  lemma RecordedIsApplied(t: Table, e: Event, rows: Table)
    requires Loads(t, e, rows)
    requires e.action.RenameProject? ==> Apart(e.path, e.to)
    ensures Recorded(t, e, rows) == Apply(t, e)
  {
    if !e.action.Other? {
      forall q ensures Lookup(Recorded(t, e, rows), q) == Lookup(Apply(t, e), q) {
        ApplyOnLoaded(t, e, rows, q);
      }
      SameTable(Recorded(t, e, rows), Apply(t, e));
    }
  }

  /** Every event of a log recorded in turn, each on any rows its query may
      return, is the log replayed. */
  function RecordAll(t: Table, es: seq<Event>, loads: seq<Table>): Table
    requires |loads| == |es|
    decreases |es|
  {
    if es == [] then t else RecordAll(Recorded(t, es[0], loads[0]), es[1..], loads[1..])
  }

  ghost predicate LoadsAll(t: Table, es: seq<Event>, loads: seq<Table>)
    requires |loads| == |es|
    decreases |es|
  {
    es == [] || (Loads(t, es[0], loads[0]) && LoadsAll(Recorded(t, es[0], loads[0]), es[1..], loads[1..]))
  }

  lemma {:induction false} RecordAllIsReplay(t: Table, es: seq<Event>, loads: seq<Table>)
    requires |loads| == |es| && LoadsAll(t, es, loads)
    requires forall e :: e in es && e.action.RenameProject? ==> Apart(e.path, e.to)
    ensures RecordAll(t, es, loads) == Replay(t, es)
    decreases |es|
  {
    if es != [] {
      RecordedIsApplied(t, es[0], loads[0]);
      RecordAllIsReplay(Apply(t, es[0]), es[1..], loads[1..]);
    }
  }

  // ----- The derived fields -----

  /** The audit fields of a note whose own fields are own. */
  function AuditFields(own: set<string>, a: Option<Author>): map<string, string> {
    if a.None? then map[]
    else
      var all := map["created_by" := a.value.createdBy, "modified_by" := a.value.modifiedBy,
                     "created_at" := a.value.createdAt, "modified_at" := a.value.modifiedAt];
      map k | k in all && all[k] != "" && k !in own :: all[k]
  }

  /** The audit fields of every note, from the whole table. */
  function AllFields(notes: map<string, set<string>>, t: Table): map<string, map<string, string>> {
    map p | p in notes :: AuditFields(notes[p], Lookup(t, p))
  }

  // ----- The index -----

  class Index {
    var authors: Table
    var notes: map<string, set<string>>                    // each note's own fields
    var fields: map<string, map<string, string>>           // the fields of source audit

    /** The derived fields say what the table says, of every note. */
    ghost predicate Synced()
      reads this
    {
      fields == AllFields(notes, authors)
    }

    constructor (notes: map<string, set<string>>)
      ensures this.notes == notes && authors == map[] && Synced()
    {
      this.notes := notes;
      authors := map[];
      fields := AllFields(notes, map[]);
    }

    /** syncAuthorFields: the note at path, or every note for "". */
    method Sync(path: string)
      modifies this`fields
      requires fields.Keys == notes.Keys
      ensures fields.Keys == notes.Keys
      ensures path == "" ==> Synced()
      ensures path != "" ==> forall p :: p in notes ==>
                fields[p] == if p == path then AuditFields(notes[p], Lookup(authors, p)) else old(fields)[p]
    {
      if path == "" {
        fields := AllFields(notes, authors);
      } else if path in notes {
        fields := fields[path := AuditFields(notes[path], Lookup(authors, path))];
      }
    }

    /** Syncs the notes at the paths of touched, in any order. */
    method SyncEach(touched: set<string>)
      modifies this`fields
      requires fields.Keys == notes.Keys
      requires forall p :: p in notes && p !in touched ==> fields[p] == AuditFields(notes[p], Lookup(authors, p))
      ensures Synced()
    {
      var todo := touched;
      while todo != {}
        invariant fields.Keys == notes.Keys
        invariant forall p :: p in notes && p !in todo ==> fields[p] == AuditFields(notes[p], Lookup(authors, p))
        decreases |todo|
      {
        var p :| p in todo;
        Sync(p);
        todo := todo - {p};
      }
    }

    /** Replaces the table with the replay of a log; orders are those the map
        comes in, event by event. */
    method RebuildAuthors(events: seq<Event>, orders: seq<seq<string>>)
      requires fields.Keys == notes.Keys && |orders| == |events|
      requires forall i :: 0 <= i < |events| ==> Complete(Replay(map[], events[..i]), orders[i])
      requires forall e :: e in events && e.action.RenameProject? ==> Apart(e.path, e.to)
      modifies this`authors, this`fields
      ensures authors == Replay(map[], events) && Synced()
    {
      var t: Table := map[];
      for i := 0 to |events|
        invariant t == Replay(map[], events[..i])
        invariant fields == old(fields)
      {
        ReplaySnoc(map[], events[..i], events[i]);
        assert events[..i + 1] == events[..i] + [events[i]];
        t := ApplyInPlace(t, events[i], orders[i]);
      }
      assert events[..|events|] == events;
      authors := t;
      Sync("");
    }

    /** Records one event on the rows its query returned: applies it to them,
        deletes what it touched, inserts what it left, and syncs the fields. */
    method RecordAuthor(e: Event, rows: Table, order: seq<string>)
      requires Loads(authors, e, rows) && Synced() && Complete(rows, order)
      requires e.action.RenameProject? ==> Apart(e.path, e.to)
      modifies this`authors, this`fields
      ensures authors == Apply(old(authors), e) && Synced()
    {
      if e.action.Other? {
        return;
      }
      var t := ApplyInPlace(rows, e, order);
      var touched := Touched(e, rows);
      RecordedIsApplied(authors, e, rows);
      NoConflict(authors, e, rows);
      authors := authors - touched;
      assert t.Keys !! authors.Keys;
      authors := authors + t;
      forall p | p in notes && p !in touched ensures Lookup(authors, p) == Lookup(old(authors), p) {
        ApplyOnLoaded(old(authors), e, rows, p);
      }
      SyncEach(touched);
    }
  }

  /** No row is inserted over one that is there. */
  lemma NoConflict(t: Table, e: Event, rows: Table)
    requires Loads(t, e, rows) && !e.action.Other?
    requires e.action.RenameProject? ==> Apart(e.path, e.to)
    ensures Apply(rows, e).Keys <= Touched(e, rows)
  {
    forall q | q in Apply(rows, e) ensures q in Touched(e, rows) { ApplyOnLoaded(t, e, rows, q); }
  }
}
