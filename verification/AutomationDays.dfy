/** A row is handed off for a day, the first ten characters of its date, said on rows and
    dates alone (internal/automation/engine.go, rowKey): a new day is a new firing, and two
    dates of one day are one. */
module AutomationDays {
  import opened Text
  import opened Schedules
  import opened Automation
  import opened AutomationRuns
  import opened AutomationRows

  /** Two dates of one day: they agree in their first ten characters, or whole when one is
      shorter. */
  predicate SameDay(a: string, b: string) {
    a == b || (|a| >= 10 && |b| >= 10 && a[..10] == b[..10])
  }

  /** The same row, for the same day. */
  predicate SameRow(a: Row, b: Row) { a.path == b.path && SameDay(a.due, b.due) }

  /** k is a firing of the row at path for the day of due. */
  predicate FiringOf(k: Key, path: string, due: string) { k.RowKey? && k.path == path && SameDay(k.date, due) }

  lemma KeyIsDay(a: Row, b: Row)
    ensures KeyOf(a) == KeyOf(b) <==> SameRow(a, b)
    ensures FiringOf(KeyOf(a), b.path, b.due) <==> SameRow(a, b)
  {
  }

  // ----- What was handed off -----

  /** The rows of rule r an event hands off. */
  function HandsOff(w: World, e: Event, r: string): seq<Row>
    requires Enabled(w, e)
  {
    if e.TickDue? && e.rule == r && e.rows.Ok? then
      var rs := Seen(w.rules, r, e.now);
      var outcome := FireDue(rs, e.rows, e.before, e.acting, e.now).1;
      if outcome.Acted? || outcome.Queued? then
        Due(RowsRead(rs, e.rows.value, e.now), CapRows(e.rows.value).0, e.before, e.now)
      else []
    else []
  }

  /** Those a run hands off, in order. */
  function HandedOff(w: World, es: seq<Event>, r: string): seq<Row>
    requires Runs(w, es)
    decreases |es|
  {
    if es == [] then [] else HandsOff(w, es[0], r) + HandedOff(Apply(w, es[0]), es[1..], r)
  }

  /** k, if it is of a row, is of one of rows. */
  ghost predicate From(rows: seq<Row>, k: Key) {
    k.RowKey? ==> exists h :: h in rows && KeyOf(h) == k
  }

  lemma FromMore(a: seq<Row>, b: seq<Row>, k: Key)
    requires From(a, k) || From(b, k)
    ensures From(a + b, k)
  {
    if k.RowKey? {
      if h :| h in a && KeyOf(h) == k { assert h in a + b; }
      if h :| h in b && KeyOf(h) == k { assert h in a + b; }
    }
  }

  ghost predicate FiredFrom(rs: RuleState, rows: seq<Row>) {
    forall k :: k in rs.fired || k in rs.pending ==> From(rows, k)
  }

  ghost predicate JobFrom(w: World, r: string, rows: seq<Row>, id: string) {
    id in w.jobs && w.jobs[id].rule == r ==> forall k :: k in w.jobs[id].keys ==> From(rows, k)
  }

  /** Whatever rule r has fired, waits for or won is of a row handed off. */
  ghost predicate Traced(w: World, r: string, rows: seq<Row>) {
    && (r in w.rules ==> FiredFrom(w.rules[r], rows))
    && (forall id :: JobFrom(w, r, rows, id))
    && (forall i :: 0 <= i < |w.wins| && w.wins[i].0 == r ==> From(rows, w.wins[i].1))
  }

  lemma TracedMore(w: World, r: string, a: seq<Row>, b: seq<Row>)
    requires Traced(w, r, a)
    ensures Traced(w, r, a + b)
  {
    forall k | From(a, k) ensures From(a + b, k) { FromMore(a, b, k); }
    forall id ensures JobFrom(w, r, a + b, id) { assert JobFrom(w, r, a, id); }
  }

  lemma ActFrom(rs: RuleState, keys: seq<Key>, acting: Acting, now: int, rows: seq<Row>)
    requires FiredFrom(rs, rows)
    requires Works(acting) ==>
               forall k :: k in keys ==> From(rows, k)
    ensures FiredFrom(Act(rs, keys, acting, now).0, rows)
    ensures var o := Act(rs, keys, acting, now).1; o.Acted? || o.Queued? ==> o.keys == keys
  {
  }

  lemma KeysFrom(rows: seq<Row>)
    ensures forall k :: k in KeysOf(rows) ==> From(rows, k)
  {
    forall k | k in KeysOf(rows) ensures From(rows, k) {
      var i :| 0 <= i < |rows| && KeysOf(rows)[i] == k;
      assert rows[i] in rows && KeyOf(rows[i]) == k;
    }
  }

  /** After a rule was read, what it has and what it did is of rows handed off. */
  lemma HappenedTraced(w: World, r: string, rule: string, now: int, rs: RuleState, outcome: Outcome, rows: seq<Row>)
    requires Traced(w, r, rows) && (rule == r ==> FiredFrom(rs, rows))
    requires rule == r && (outcome.Acted? || outcome.Queued?) ==> forall k :: k in outcome.keys ==> From(rows, k)
    ensures Traced(Happened(w, rule, now, rs, outcome), r, rows)
  {
    var w2 := Happened(w, rule, now, rs, outcome);
    forall id ensures JobFrom(w2, r, rows, id) { assert JobFrom(w, r, rows, id); }
    forall i | 0 <= i < |w2.wins| && w2.wins[i].0 == r ensures From(rows, w2.wins[i].1) {
      if i >= |w.wins| { assert w2.wins[i].1 in outcome.keys; }
    }
  }

  lemma EveryTraced(w: World, e: Event, r: string, rows: seq<Row>)
    requires Traced(w, r, rows) && Enabled(w, e) && e.TickEvery?
    ensures Traced(Apply(w, e), r, rows)
  {
    var (rs, outcome) := FireEvery(Seen(w.rules, e.rule, e.now), LastSlot(e.schedule, e.now), e.acting, e.now);
    HappenedTraced(w, r, e.rule, e.now, rs, outcome, rows);
  }

  lemma DueTraced(w: World, e: Event, r: string, rows: seq<Row>)
    requires Traced(w, r, rows) && Enabled(w, e) && e.TickDue?
    ensures Traced(Apply(w, e), r, rows + HandsOff(w, e, r))
  {
    var s0 := Seen(w.rules, e.rule, e.now);
    var all := rows + HandsOff(w, e, r);
    var (rs, outcome) := FireDue(s0, e.rows, e.before, e.acting, e.now);
    TracedMore(w, r, rows, HandsOff(w, e, r));
    if e.rule == r && e.rows.Ok? {
      var due := Due(RowsRead(s0, e.rows.value, e.now), CapRows(e.rows.value).0, e.before, e.now);
      KeysFrom(due);
      if outcome.Acted? || outcome.Queued? {
        forall k | k in KeysOf(due) ensures From(all, k) { FromMore(rows, due, k); }
      }
      if due != [] {
        DueActs(s0, e.rows.value, e.before, e.acting, e.now);
        ActFrom(RowsRead(s0, e.rows.value, e.now), KeysOf(due), e.acting, e.now, all);
      }
    }
    HappenedTraced(w, r, e.rule, e.now, rs, outcome, all);
  }

  /** A tick with due rows is its action on their keys, and does something when that works. */
  lemma DueActs(s0: RuleState, rows: seq<Row>, before: int, acting: Acting, now: int)
    ensures var after := RowsRead(s0, rows, now);
            var due := Due(after, CapRows(rows).0, before, now);
            due != [] ==>
              && FireDue(s0, Ok(rows), before, acting, now) == Act(after, KeysOf(due), acting, now)
              && (Works(acting) ==> var o := FireDue(s0, Ok(rows), before, acting, now).1; o.Acted? || o.Queued?)
  {
  }

  predicate Works(acting: Acting) { if acting.AtOnce? then acting.done.Ok? else acting.job.Ok? }

  lemma OtherTraced(w: World, e: Event, r: string, rows: seq<Row>)
    requires Traced(w, r, rows) && Enabled(w, e) && !e.TickEvery? && !e.TickDue?
    ensures Traced(Apply(w, e), r, rows)
  {
    var w2 := Apply(w, e);
    forall id ensures JobFrom(w2, r, rows, id) { assert JobFrom(w, r, rows, id); }
    if e.JobEnds? {
      assert JobFrom(w, r, rows, e.id);
      forall i | |w.wins| <= i < |w2.wins| && w2.wins[i].0 == r ensures From(rows, w2.wins[i].1) {
        assert w2.wins[i].1 in w.jobs[e.id].keys;
      }
    }
    if e.Settle? { assert JobFrom(w, r, rows, e.id); }
  }

  lemma EventTraced(w: World, e: Event, r: string, rows: seq<Row>)
    requires Traced(w, r, rows) && Enabled(w, e)
    ensures Traced(Apply(w, e), r, rows + HandsOff(w, e, r))
  {
    if e.TickDue? {
      DueTraced(w, e, r, rows);
    } else {
      if e.TickEvery? { EveryTraced(w, e, r, rows); } else { OtherTraced(w, e, r, rows); }
      assert rows + HandsOff(w, e, r) == rows;
    }
  }

  lemma InTurn(a: seq<Row>, b: seq<Row>, c: seq<Row>)
    ensures (a + b) + c == a + (b + c)
  {
  }

  lemma {:induction false} RunTraced(w: World, es: seq<Event>, r: string, rows: seq<Row>)
    requires Traced(w, r, rows) && Runs(w, es)
    ensures Traced(After(w, es), r, rows + HandedOff(w, es, r))
    decreases |es|
  {
    if es == [] {
      assert rows + [] == rows;
    } else {
      var first, rest := HandsOff(w, es[0], r), HandedOff(Apply(w, es[0]), es[1..], r);
      EventTraced(w, es[0], r, rows);
      RunTraced(Apply(w, es[0]), es[1..], r, rows + first);
      InTurn(rows, first, rest);
    }
  }

  lemma InitTraced(w: World, r: string)
    requires Init(w)
    ensures Traced(w, r, [])
  {
    forall id ensures JobFrom(w, r, [], id) {}
  }

  // ----- A new day is a new firing -----

  /** After any run, a row that comes in for a day it was never handed off for is handed off
      by the tick: its date moved to another day, it is acted on again. */
  lemma NewDayIsHandedOff(w0: World, es: seq<Event>, r: string, now: int, rows: seq<Row>, before: int, acting: Acting, row: Row)
    requires Init(w0) && Runs(w0, es) && Enabled(After(w0, es), TickDue(now, r, Ok(rows), before, acting))
    requires row in CapRows(rows).0 && row.day.Some? && row.day.value - before <= DayOf(now)
    requires forall h :: h in HandedOff(w0, es, r) ==> !SameRow(h, row)
    requires Works(acting)
    ensures var w := After(w0, es);
            var (rs, outcome) := FireDue(Seen(w.rules, r, now), Ok(rows), before, acting, now);
            && (outcome.Acted? || outcome.Queued?)
            && row in HandsOff(w, TickDue(now, r, Ok(rows), before, acting), r)
            && (exists k :: k in outcome.keys && FiringOf(k, row.path, row.due))
  {
    var w := After(w0, es);
    InitTraced(w0, r);
    RunTraced(w0, es, r, []);
    assert [] + HandedOff(w0, es, r) == HandedOff(w0, es, r);
    var s0 := Seen(w.rules, r, now);
    var after := RowsRead(s0, rows, now);
    NeverHandedIsFree(s0, HandedOff(w0, es, r), row);
    assert Free(after, KeyOf(row));
    assert row in ComeIn(CapRows(rows).0, before, now);
    var due := Due(after, CapRows(rows).0, before, now);
    assert row in due;
    DueActs(s0, rows, before, acting, now);
    HasKey(due, row);
    KeyIsDay(row, row);
  }

  lemma NeverHandedIsFree(rs: RuleState, rows: seq<Row>, row: Row)
    requires FiredFrom(rs, rows) && forall h :: h in rows ==> !SameRow(h, row)
    ensures Free(rs, KeyOf(row))
  {
    forall h | h in rows ensures KeyOf(h) != KeyOf(row) { KeyIsDay(h, row); }
    assert From(rows, KeyOf(row)) ==> exists h :: h in rows && KeyOf(h) == KeyOf(row);
  }

  lemma HasKey(rows: seq<Row>, row: Row)
    requires row in rows
    ensures KeyOf(row) in KeysOf(rows)
  {
    var i :| 0 <= i < |rows| && rows[i] == row;
    assert KeysOf(rows)[i] == KeyOf(row);
  }

  // ----- Two dates of one day are one firing -----

  /** How often rule r was won with success for the row at path on the day of due. */
  function DayWins(wins: seq<(string, Key)>, r: string, path: string, due: string): nat {
    if wins == [] then 0
    else
      var last := wins[|wins| - 1];
      DayWins(wins[..|wins| - 1], r, path, due) + (if last.0 == r && FiringOf(last.1, path, due) then 1 else 0)
  }

  predicate DistinctDays(rows: seq<Row>) { forall i, j :: 0 <= i < j < |rows| ==> !SameRow(rows[i], rows[j]) }

  /** A reading that forgets nothing of a row's day: above the cap, or with the row for that
      day, or before its firing is long past. */
  predicate KeepsDay(rs: RuleState, rows: seq<Row>, path: string, due: string, now: int) {
    && DistinctDays(rows)
    && (|| |rows| > MAX_ROWS
        || (exists x :: x in rows && x.path == path && SameDay(x.due, due))
        || (forall k :: k in rs.fired && FiringOf(k, path, due) ==> now - rs.fired[k] <= FORGET_AFTER))
  }

  predicate RemembersDay(w: World, e: Event, r: string, path: string, due: string) {
    match e
    case Prune(now) => r in w.rules ==> now - w.rules[r].lastSeen <= FORGET_AFTER
    case TickDue(now, rule, rows, _, _) =>
      rule == r && rows.Ok? ==> KeepsDay(Seen(w.rules, rule, now), rows.value, path, due, now)
    case _ => true
  }

  predicate RemembersDays(w: World, es: seq<Event>, r: string, path: string, due: string)
    requires Runs(w, es)
    decreases |es|
  {
    es == [] || (RemembersDay(w, es[0], r, path, due) && RemembersDays(Apply(w, es[0]), es[1..], r, path, due))
  }

  lemma DayIsKept(rs: RuleState, rows: seq<Row>, row: Row, now: int)
    requires KeepsDay(rs, rows, row.path, row.due, now)
    ensures Keeps(rs, rows, KeyOf(row), now)
  {
    forall i, j | 0 <= i < j < |rows| ensures KeyOf(rows[i]) != KeyOf(rows[j]) { KeyIsDay(rows[i], rows[j]); }
    KeyIsDay(row, row);
    if x :| x in rows && x.path == row.path && SameDay(x.due, row.due) { KeyIsDay(x, row); }
  }

  lemma {:induction false} DaysAreKept(w: World, es: seq<Event>, r: string, row: Row)
    requires Runs(w, es) && RemembersDays(w, es, r, row.path, row.due)
    ensures RemembersAll(w, es, r, KeyOf(row))
    decreases |es|
  {
    if es != [] {
      var e := es[0];
      if e.TickDue? && e.rule == r && e.rows.Ok? { DayIsKept(Seen(w.rules, r, e.now), e.rows.value, row, e.now); }
      DaysAreKept(Apply(w, e), es[1..], r, row);
    }
  }

  lemma {:induction false} DayWinsCount(wins: seq<(string, Key)>, r: string, row: Row, rows: seq<Row>)
    requires forall i :: 0 <= i < |wins| && wins[i].0 == r ==> From(rows, wins[i].1)
    ensures DayWins(wins, r, row.path, row.due) == multiset(wins)[(r, KeyOf(row))]
  {
    if wins != [] {
      var n := |wins| - 1;
      DayWinsCount(wins[..n], r, row, rows);
      assert wins == wins[..n] + [wins[n]];
      KeyIsDay(row, row);
      var k := wins[n].1;
      if wins[n].0 == r && k.RowKey? {
        var h :| h in rows && KeyOf(h) == k;
        KeyIsDay(h, row);
      }
    }
  }

  /** In any run whose rule is not away for long, a row is acted on with success at most once
      for a day, under whatever dates of that day it comes. */
  lemma EachDayOnce(w0: World, es: seq<Event>, r: string, row: Row)
    requires Init(w0) && Runs(w0, es) && RemembersDays(w0, es, r, row.path, row.due)
    ensures DayWins(After(w0, es).wins, r, row.path, row.due) <= 1
  {
    DaysAreKept(w0, es, r, row);
    EachRowOnce(w0, es, r, KeyOf(row));
    InitTraced(w0, r);
    RunTraced(w0, es, r, []);
    DayWinsCount(After(w0, es).wins, r, row, [] + HandedOff(w0, es, r));
  }
}
