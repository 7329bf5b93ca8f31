/** Whom the authors table names, said of one note at a time: its life traced back through
    the log, from the last event to the one that made its row (internal/index/authors.go). */
module AuthorTrace {
  import opened Text
  import opened Authors
  import opened AuthorIndex

  // ----- One note, back through the log -----

  /** e writes the note at p. */
  predicate Writes(e: Event, p: string) {
    (e.action.Create? || e.action.Update? || e.action.Append? || e.action.Restore?) && e.path == p
  }

  /** Where e moves what is now at p from, when it moves anything there. */
  function MovedFrom(e: Event, p: string): Option<string> {
    if e.action.Rename? && e.to != "" && p == e.to then Some(e.path)
    else if e.action.RenameProject? && e.to != "" && Under(e.to, p) then Some(e.path + p[|e.to|..])
    else None
  }

  /** e takes what was at p away, or moves it. */
  predicate Takes(e: Event, p: string) {
    match e.action
    case Rename => e.to != "" && p == e.path
    case Delete => p == e.path || Under(e.path, p)
    case DeleteProject => Under(e.path, p)
    case RenameProject => e.to != "" && Under(e.path, p)
    case _ => false
  }

  /** The log tells of a note at p. */
  predicate Has(es: seq<Event>, p: string)
    decreases |es|, 0
  {
    if es == [] then false
    else
      var before, e := es[..|es| - 1], es[|es| - 1];
      Writes(e, p) || CameFrom(before, e, p).Some?
  }

  /** Where the note that is at p after e was before e: moved there, or there already; None
      when no note the log tells of is. */
  function CameFrom(before: seq<Event>, e: Event, p: string): Option<string>
    decreases |before|, 1
  {
    if MovedFrom(e, p).Some? && Has(before, MovedFrom(e, p).value) then MovedFrom(e, p)
    else if !Takes(e, p) && Has(before, p) then Some(p)
    else None
  }

  /** Who created the note at p: the last create of it, under the name it had then, since
      its row was made. */
  function Creator(es: seq<Event>, p: string): Option<Event>
    decreases |es|
  {
    if es == [] then None
    else
      var before, e := es[..|es| - 1], es[|es| - 1];
      if e.action.Create? && e.path == p then Some(e)
      else
        var q := CameFrom(before, e, p);
        if q.Some? then Creator(before, q.value) else None
  }

  /** e changes the note at p: it writes it, or renames it to p. A project renamed changes
      none. */
  predicate Modifies(before: seq<Event>, e: Event, p: string) {
    Writes(e, p) || (e.action.Rename? && e.to != "" && p == e.to && Has(before, e.path))
  }

  /** Who changed the note at p last. */
  function Modifier(es: seq<Event>, p: string): Option<Event>
    decreases |es|
  {
    if es == [] then None
    else
      var before, e := es[..|es| - 1], es[|es| - 1];
      if Modifies(before, e, p) then Some(e)
      else
        var q := CameFrom(before, e, p);
        if q.Some? then Modifier(before, q.value) else None
  }

  // ----- The table says that -----

  function By(e: Option<Event>): string { if e.Some? then e.value.author else "" }

  function When(e: Option<Event>): string { if e.Some? then e.value.at else "" }

  /** The row of p as its trace tells it. */
  function Traced(es: seq<Event>, p: string): Option<Author> {
    if !Has(es, p) then None
    else Some(Author(By(Creator(es, p)), When(Creator(es, p)), By(Modifier(es, p)), When(Modifier(es, p))))
  }

  /** The table of any log names, of every note, who its trace names: the author and the
      time of the last create of it, followed through renames, or nobody when the log has
      none, and of the last write or rename that reached it. */
  lemma {:induction false} TableIsTrace(es: seq<Event>, p: string)
    ensures Lookup(Replay(map[], es), p) == Traced(es, p)
    decreases |es|
  {
    if es != [] {
      var before, e := es[..|es| - 1], es[|es| - 1];
      assert es == before + [e];
      ReplaySnoc(map[], before, e);
      TableIsTrace(before, p);
      if MovedFrom(e, p).Some? { TableIsTrace(before, MovedFrom(e, p).value); }
      StepIsTrace(Replay(map[], before), before, e, p);
    }
  }

  lemma StepIsTrace(t: Table, before: seq<Event>, e: Event, p: string)
    requires Lookup(t, p) == Traced(before, p)
    requires MovedFrom(e, p).Some? ==> Lookup(t, MovedFrom(e, p).value) == Traced(before, MovedFrom(e, p).value)
    ensures Lookup(Apply(t, e), p) == Traced(before + [e], p)
  {
    var es := before + [e];
    assert es[..|es| - 1] == before;
    var q := CameFrom(before, e, p);
    assert Has(es, p) == (Writes(e, p) || q.Some?);
    match e.action
    case Create | Update | Append | Restore =>
    case Rename =>
    case Delete | DeleteProject =>
    case RenameProject => if e.to != "" { RenamedIs(t, e.path, e.to, p); }
    case Other =>
  }

  // ----- The fields a note shows -----

  /** The text a field shows, kept out when it is empty or the note has a field of its own. */
  predicate Shows(fields: map<string, string>, own: set<string>, key: string, text: string) {
    (key in fields <==> text != "" && key !in own) && (key in fields ==> fields[key] == text)
  }

  /** After any log a note shows as created_by and created_at who created it and when, and as
      modified_by and modified_at who changed it last and when, and no other field. */
  lemma FieldsTell(notes: map<string, set<string>>, es: seq<Event>, p: string)
    requires p in notes
    ensures var fields := AllFields(notes, Replay(map[], es))[p];
            var made, changed := if Has(es, p) then Creator(es, p) else None, if Has(es, p) then Modifier(es, p) else None;
            && Shows(fields, notes[p], "created_by", By(made)) && Shows(fields, notes[p], "created_at", When(made))
            && Shows(fields, notes[p], "modified_by", By(changed)) && Shows(fields, notes[p], "modified_at", When(changed))
            && forall k :: k in fields ==> k in {"created_by", "created_at", "modified_by", "modified_at"}
  {
    TableIsTrace(es, p);
    var made, changed := if Has(es, p) then Creator(es, p) else None, if Has(es, p) then Modifier(es, p) else None;
    assert AllFields(notes, Replay(map[], es))[p] == AuditFields(notes[p], Traced(es, p));
    if Has(es, p) {
      ShownOf(notes[p], Author(By(made), When(made), By(changed), When(changed)));
    }
  }

  lemma ShownOf(own: set<string>, a: Author)
    ensures var fields := AuditFields(own, Some(a));
            && Shows(fields, own, "created_by", a.createdBy) && Shows(fields, own, "created_at", a.createdAt)
            && Shows(fields, own, "modified_by", a.modifiedBy) && Shows(fields, own, "modified_at", a.modifiedAt)
            && forall k :: k in fields ==> k in {"created_by", "created_at", "modified_by", "modified_at"}
  {
  }
}
