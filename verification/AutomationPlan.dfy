/** The dry run: what a rule would do at a moment, and when it acts next, without doing it
    (internal/automation/engine.go, plan). */
module AutomationPlan {
  import opened Text
  import opened Schedules
  import opened Automation
  import opened AutomationEngine

  const MAX_UPCOMING: nat := 20

  /** A row still to come, with the day it comes in. */
  datatype Coming = Coming(row: Row, from: int)

  /** next is a moment for an every rule and a day for one on rows. */
  datatype Plan = Plan(
    fires: bool, slot: Option<int>, next: Option<int>,
    rows: seq<Row>, fired: seq<Row>, upcoming: seq<Coming>,
    error: string, warning: string)

  // ----- What the plan says -----

  /** The rule as it is remembered, or as new. */
  function Known(rules: map<string, RuleState>, key: string, now: int): RuleState {
    if key in rules then rules[key] else RuleState(now, now, map[], map[], "", "")
  }

  /** What the plan takes as done: the firings, and what is queued. */
  function TakenKeys(rs: RuleState): map<Key, int> {
    rs.fired + map k | k in rs.pending :: rs.lastSeen
  }

  function PlanEvery(rules: map<string, RuleState>, key: string, schedule: Schedule, now: int, asOf: int): Plan
    requires Valid(schedule)
  {
    var rs := Known(rules, key, now);
    var slot := LastSlot(schedule, asOf);
    var fires := rs.firstSeen <= slot && Slot(slot) !in TakenKeys(rs);
    Plan(fires, if fires then Some(slot) else None, Some(NextSlot(schedule, asOf)), [], [], [], rs.error, "")
  }

  function Paths(rows: seq<Row>): set<string> { set row | row in rows :: row.path }

  function NotIn(rows: seq<Row>, paths: set<string>): (r: seq<Row>)
    ensures forall row :: row in r ==> row.day.Some?
  {
    Filter((row: Row) => row.path !in paths && row.day.Some?, rows)
  }

  /** The rows nothing was done of for their date, and the others. */
  function Todo(rows: seq<Row>, taken: map<Key, int>): seq<Row> {
    Filter((row: Row) => KeyOf(row) !in taken, rows)
  }

  function Done(rows: seq<Row>, taken: map<Key, int>): seq<Row> {
    Filter((row: Row) => KeyOf(row) in taken, rows)
  }

  /** The rows with a date that do not come in yet. */
  function LaterRows(rows: seq<Row>, before: int, asOf: int): seq<Row> {
    NotIn(rows, Paths(ComeIn(rows, before, asOf)))
  }

  function ComingOf(rows: seq<Row>, before: int): seq<Coming>
    requires forall row :: row in rows ==> row.day.Some?
  {
    seq(|rows|, i requires 0 <= i < |rows| => Coming(rows[i], rows[i].day.value - before))
  }

  function PutComing(s: seq<Coming>, c: Coming): (r: seq<Coming>)
    ensures multiset(r) == multiset(s) + multiset{c}
  {
    if s == [] || s[|s| - 1].from <= c.from then s + [c]
    else
      assert s == s[..|s| - 1] + [s[|s| - 1]];
      PutComing(s[..|s| - 1], c) + [s[|s| - 1]]
  }

  /** A stable sort by the day a row comes in. */
  function Soonest(s: seq<Coming>): (r: seq<Coming>)
    ensures multiset(r) == multiset(s)
  {
    if s == [] then []
    else
      assert s == s[..|s| - 1] + [s[|s| - 1]];
      PutComing(Soonest(s[..|s| - 1]), s[|s| - 1])
  }

  function Later(rows: seq<Row>, before: int, asOf: int): seq<Coming> {
    Soonest(ComingOf(LaterRows(rows, before, asOf), before))
  }

  function FirstComing(later: seq<Coming>): Option<int> { if later == [] then None else Some(later[0].from) }

  function PlanDue(rules: map<string, RuleState>, key: string, rows: Result<seq<Row>>, before: int, now: int,
                   asOf: int): Plan {
    var rs := Known(rules, key, now);
    match rows
    case Err(msg) => Plan(false, None, None, [], [], [], msg, "")
    case Ok(all) =>
      var (read, warning) := CapRows(all);
      var come := ComeIn(read, before, asOf);
      var todo := Todo(come, TakenKeys(rs));
      var later := Later(read, before, asOf);
      Plan(todo != [], None, FirstComing(later),
           todo, Done(come, TakenKeys(rs)),
           if |later| > MAX_UPCOMING then later[..MAX_UPCOMING] else later, rs.error, warning)
  }

  // ----- The loops -----

  method MergePending(rs: RuleState) returns (taken: map<Key, int>)
    ensures taken == TakenKeys(rs)
  {
    taken := rs.fired;
    var todo := rs.pending.Keys;
    while todo != {}
      invariant todo <= rs.pending.Keys
      invariant taken == rs.fired + map k | k in rs.pending && k !in todo :: rs.lastSeen
      decreases |todo|
    {
      var k :| k in todo;
      taken := taken[k := rs.lastSeen];
      todo := todo - {k};
    }
  }

  /** plan of an every rule: it changes nothing. */
  method PlanSlot(e: Engine, key: string, schedule: Schedule, now: int, asOf: int) returns (plan: Plan)
    requires Valid(schedule)
    ensures plan == PlanEvery(e.rules, key, schedule, now, asOf)
  {
    var rs := if key in e.rules then e.rules[key] else RuleState(now, now, map[], map[], "", "");
    var taken := MergePending(rs);
    var slot := Last(schedule, asOf);
    var next := Next(schedule, asOf);
    plan := Plan(false, None, Some(next), [], [], [], rs.error, "");
    if rs.firstSeen <= slot && Slot(slot) !in taken {
      plan := plan.(fires := true, slot := Some(slot));
    }
  }

  lemma PathsSnoc(rows: seq<Row>, i: nat)
    requires i < |rows|
    ensures Paths(rows[..i + 1]) == Paths(rows[..i]) + {rows[i].path}
  {
    assert rows[..i + 1] == rows[..i] + [rows[i]];
  }

  lemma ApartSnoc(rows: seq<Row>, taken: map<Key, int>, i: nat)
    requires i < |rows|
    ensures Todo(rows[..i + 1], taken) == Todo(rows[..i], taken) + (if KeyOf(rows[i]) in taken then [] else [rows[i]])
    ensures Done(rows[..i + 1], taken) == Done(rows[..i], taken) + (if KeyOf(rows[i]) in taken then [rows[i]] else [])
  {
    FilterSnoc((row: Row) => KeyOf(row) !in taken, rows, i);
    FilterSnoc((row: Row) => KeyOf(row) in taken, rows, i);
  }

  /** The rows that come in, apart by what was done of them. */
  method PlanComeIn(rows: seq<Row>, taken: map<Key, int>) returns (todo: seq<Row>, done: seq<Row>, paths: set<string>)
    ensures todo == Todo(rows, taken) && done == Done(rows, taken) && paths == Paths(rows)
  {
    todo, done, paths := [], [], {};
    for i := 0 to |rows|
      invariant todo == Todo(rows[..i], taken) && done == Done(rows[..i], taken)
      invariant paths == Paths(rows[..i])
    {
      ApartSnoc(rows, taken, i);
      PathsSnoc(rows, i);
      paths := paths + {rows[i].path};
      if KeyOf(rows[i]) in taken {
        done := done + [rows[i]];
      } else {
        todo := todo + [rows[i]];
      }
    }
    assert rows[..|rows|] == rows;
  }

  lemma LaterSnoc(rows: seq<Row>, paths: set<string>, i: nat)
    requires i < |rows|
    ensures NotIn(rows[..i + 1], paths)
         == NotIn(rows[..i], paths) + (if rows[i].path !in paths && rows[i].day.Some? then [rows[i]] else [])
  {
    FilterSnoc((row: Row) => row.path !in paths && row.day.Some?, rows, i);
  }

  lemma ComingSnoc(rows: seq<Row>, row: Row, before: int)
    requires row.day.Some? && forall r :: r in rows ==> r.day.Some?
    ensures ComingOf(rows + [row], before) == ComingOf(rows, before) + [Coming(row, row.day.value - before)]
  {
  }

  /** The rows with a date whose path is not in paths. */
  method PlanLater(rows: seq<Row>, before: int, paths: set<string>) returns (later: seq<Coming>)
    ensures later == ComingOf(NotIn(rows, paths), before)
  {
    later := [];
    for i := 0 to |rows|
      invariant later == ComingOf(NotIn(rows[..i], paths), before)
    {
      LaterSnoc(rows, paths, i);
      if rows[i].path !in paths && rows[i].day.Some? {
        ComingSnoc(NotIn(rows[..i], paths), rows[i], before);
        later := later + [Coming(rows[i], rows[i].day.value - before)];
      }
    }
    assert rows[..|rows|] == rows;
  }

  /** plan of a rule on rows: it changes nothing. */
  method PlanRows(e: Engine, key: string, rows: Result<seq<Row>>, before: int, now: int, asOf: int) returns (plan: Plan)
    ensures plan == PlanDue(e.rules, key, rows, before, now, asOf)
  {
    var rs := if key in e.rules then e.rules[key] else RuleState(now, now, map[], map[], "", "");
    if rows.Err? {
      return Plan(false, None, None, [], [], [], rows.msg, "");
    }
    var taken := MergePending(rs);
    var (read, warning) := CapRows(rows.value);
    var come := ComeInRows(read, before, asOf);
    var todo, done, paths := PlanComeIn(come, taken);
    var found := PlanLater(read, before, paths);
    var later := Soonest(found);
    var next := if later != [] then Some(later[0].from) else None;
    if |later| > MAX_UPCOMING {
      later := later[..MAX_UPCOMING];
    }
    plan := Plan(todo != [], None, next, todo, done, later, rs.error, warning);
  }

  // ----- The plan is the tick -----

  /** The memory a tick finds at asOf when one at now did nothing but see the rule. */
  function SeenBoth(rules: map<string, RuleState>, key: string, now: int, asOf: int): RuleState {
    Seen(rules[key := Seen(rules, key, now)], key, asOf)
  }

  /** A tick at asOf acts on exactly the slot the dry run names, whether the action then
      succeeds, is queued or fails, and on none when it names none. Until the next slot the
      dry run names, it says the same. */
  lemma PlanIsFireEvery(rules: map<string, RuleState>, key: string, schedule: Schedule, acting: Acting, now: int,
                        asOf: int)
    requires Valid(schedule)
    ensures var plan := PlanEvery(rules, key, schedule, now, asOf);
            var rs := SeenBoth(rules, key, now, asOf);
            && (plan.fires <==> plan.slot.Some?) && plan.next.Some?
            && FireEvery(rs, LastSlot(schedule, asOf), acting, asOf)
               == (if plan.fires then Act(rs, [Slot(plan.slot.value)], acting, asOf) else (rs, Quiet))
    ensures var plan := PlanEvery(rules, key, schedule, now, asOf);
            && plan.next.value > asOf
            && (forall t :: asOf <= t < plan.next.value ==> PlanEvery(rules, key, schedule, now, t) == plan)
            && LastSlot(schedule, plan.next.value) == plan.next.value
  {
    var next := NextSlot(schedule, asOf);
    NextSlotIsNext(schedule, asOf);
    LastSlotIsLast(schedule, asOf);
    forall t | asOf <= t < next
      ensures PlanEvery(rules, key, schedule, now, t) == PlanEvery(rules, key, schedule, now, asOf)
    {
      SlotsMeet(schedule, asOf, t);
    }
    LastSlotIsLast(schedule, next);
  }

  /** Forgetting the old firings of rows that are gone changes no row that is read, so the
      dry run, which forgets nothing, hands off the same rows. */
  lemma DueUnforgotten(rs: RuleState, known: RuleState, rows: seq<Row>, before: int, asOf: int)
    requires forall k :: Free(rs, k) <==> k !in TakenKeys(known)
    ensures Due(RowsRead(rs, rows, asOf), CapRows(rows).0, before, asOf)
         == Todo(ComeIn(CapRows(rows).0, before, asOf), TakenKeys(known))
  {
    var read := CapRows(rows).0;
    var after := RowsRead(rs, rows, asOf);
    assert forall row :: row in read ==> KeyOf(row) in RowKeys(read);
    FilterSame((row: Row) => Free(after, KeyOf(row)), (row: Row) => KeyOf(row) !in TakenKeys(known),
               ComeIn(read, before, asOf));
  }

  /** A tick at asOf acts on exactly the rows the dry run lists, whether the action then
      succeeds, is queued or fails, with the same warning; and both tell the same error
      where the rows cannot be read. */
  lemma PlanIsFireDue(rules: map<string, RuleState>, key: string, rows: Result<seq<Row>>, before: int,
                      acting: Acting, now: int, asOf: int)
    ensures var plan := PlanDue(rules, key, rows, before, now, asOf);
            var rs := SeenBoth(rules, key, now, asOf);
            FireDue(rs, rows, before, acting, asOf)
            == match rows
               case Err(msg) => Fail(rs, plan.error)
               case Ok(all) =>
                 var after := RowsRead(rs, all, asOf);
                 if plan.fires then Act(after, KeysOf(plan.rows), acting, asOf) else (after.(error := ""), Quiet)
    ensures var plan := PlanDue(rules, key, rows, before, now, asOf);
            rows.Ok? ==> RowsRead(SeenBoth(rules, key, now, asOf), rows.value, asOf).warning == plan.warning
  {
    if rows.Ok? {
      DueUnforgotten(SeenBoth(rules, key, now, asOf), Known(rules, key, now), rows.value, before, asOf);
    }
  }

  // ----- The rows still to come -----

  predicate DistinctPaths(rows: seq<Row>) {
    forall i, j :: 0 <= i < j < |rows| ==> rows[i].path != rows[j].path
  }

  /** Of rows with different paths, those to come are those with a date after today's reach. */
  lemma LaterAre(rows: seq<Row>, before: int, asOf: int)
    requires DistinctPaths(rows)
    ensures LaterRows(rows, before, asOf)
         == Filter((row: Row) => row.day.Some? && row.day.value - before > DayOf(asOf), rows)
  {
    var come := ComeIn(rows, before, asOf);
    forall row | row in rows && row.day.Some?
      ensures row.path in Paths(come) <==> row.day.value - before <= DayOf(asOf)
    {
      if row.path in Paths(come) {
        var other :| other in come && other.path == row.path;
        assert other == row;
      }
    }
    FilterSame((row: Row) => row.path !in Paths(come) && row.day.Some?,
               (row: Row) => row.day.Some? && row.day.value - before > DayOf(asOf), rows);
  }

  lemma ApartCount(rows: seq<Row>, taken: map<Key, int>)
    ensures multiset(Todo(rows, taken)) + multiset(Done(rows, taken)) == multiset(rows)
  {
    forall row: Row ensures multiset(Todo(rows, taken))[row] + multiset(Done(rows, taken))[row] == multiset(rows)[row] {
      FilterCount((row: Row) => KeyOf(row) !in taken, rows, row);
      FilterCount((row: Row) => KeyOf(row) in taken, rows, row);
    }
  }

  function Dated(rows: seq<Row>): seq<Row> { Filter((row: Row) => row.day.Some?, rows) }

  lemma ReachCount(rows: seq<Row>, before: int, asOf: int)
    requires DistinctPaths(rows)
    ensures multiset(ComeIn(rows, before, asOf)) + multiset(LaterRows(rows, before, asOf)) == multiset(Dated(rows))
  {
    LaterAre(rows, before, asOf);
    var come, later, dated := ComeIn(rows, before, asOf), LaterRows(rows, before, asOf), Dated(rows);
    forall row: Row ensures multiset(come)[row] + multiset(later)[row] == multiset(dated)[row] {
      FilterCount((row: Row) => row.day.Some? && row.day.value - before <= DayOf(asOf), rows, row);
      FilterCount((row: Row) => row.day.Some? && row.day.value - before > DayOf(asOf), rows, row);
      FilterCount((row: Row) => row.day.Some?, rows, row);
    }
  }

  /** Nothing read is left out or listed twice: the rows with a date are those the rule
      would hand off, those handed off already, and those to come. */
  lemma PlanPartition(rules: map<string, RuleState>, key: string, all: seq<Row>, before: int, now: int, asOf: int)
    requires DistinctPaths(all)
    ensures var plan := PlanDue(rules, key, Ok(all), before, now, asOf);
            var read := CapRows(all).0;
            multiset(plan.rows) + multiset(plan.fired) + multiset(LaterRows(read, before, asOf)) == multiset(Dated(read))
  {
    var read := CapRows(all).0;
    ApartCount(ComeIn(read, before, asOf), TakenKeys(Known(rules, key, now)));
    ReachCount(read, before, asOf);
  }

  ghost predicate InOrder(s: seq<Coming>) { forall i, j :: 0 <= i < j < |s| ==> s[i].from <= s[j].from }

  lemma {:induction false} PutInOrder(s: seq<Coming>, c: Coming)
    requires InOrder(s)
    ensures InOrder(PutComing(s, c)) && forall d :: d in PutComing(s, c) <==> d in s || d == c
  {
    if s != [] && s[|s| - 1].from > c.from {
      var last := s[|s| - 1];
      PutInOrder(s[..|s| - 1], c);
      assert s == s[..|s| - 1] + [last];
      var r := PutComing(s[..|s| - 1], c);
      forall i | 0 <= i < |r| ensures r[i].from <= last.from {
        assert r[i] in r;
      }
    }
  }

  lemma {:induction false} SoonestInOrder(s: seq<Coming>)
    ensures InOrder(Soonest(s)) && forall c :: c in Soonest(s) <==> c in s
  {
    if s != [] {
      SoonestInOrder(s[..|s| - 1]);
      PutInOrder(Soonest(s[..|s| - 1]), s[|s| - 1]);
      assert s == s[..|s| - 1] + [s[|s| - 1]];
    }
  }

  /** Of the rows to come the first are listed, twenty at most; the error is the rule's, or why
      its rows could not be read. */
  lemma ListIs(rules: map<string, RuleState>, key: string, rows: Result<seq<Row>>, before: int, now: int, asOf: int)
    ensures var p := PlanDue(rules, key, rows, before, now, asOf);
            && (rows.Err? ==> p.error == rows.msg && !p.fires && p.rows == p.fired == [] && p.upcoming == [])
            && (rows.Ok? ==>
                  var later := Later(CapRows(rows.value).0, before, asOf);
                  && p.upcoming <= later && |p.upcoming| == (if |later| < 20 then |later| else 20)
                  && p.error == (if key in rules then rules[key].error else "")
                  && (p.fires <==> p.rows != []))
  {
  }

  /** The rows to come are in the order they come in; each comes in exactly from its day, and
      has not come in yet. */
  lemma ComingIs(rows: seq<Row>, before: int, asOf: int)
    requires DistinctPaths(rows)
    ensures var later := Later(rows, before, asOf);
            && InOrder(later)
            && (forall c :: c in later ==> c.from > DayOf(asOf) && forall t :: c.row in ComeIn(rows, before, t) <==> c.from <= DayOf(t))
            && (forall row :: row in rows && row.day.Some? && row.day.value - before > DayOf(asOf)
                              ==> Coming(row, row.day.value - before) in later)
  {
    LaterAre(rows, before, asOf);
    var found := LaterRows(rows, before, asOf);
    SoonestInOrder(ComingOf(found, before));
    forall row | row in found ensures Coming(row, row.day.value - before) in ComingOf(found, before) {
      var i :| 0 <= i < |found| && found[i] == row;
      assert ComingOf(found, before)[i] == Coming(row, row.day.value - before);
    }
    forall c | c in ComingOf(found, before) ensures c.row in found && c.row.day.Some? && c.from == c.row.day.value - before {
      var i :| 0 <= i < |found| && ComingOf(found, before)[i] == c;
      assert found[i] in found;
    }
  }

  /** The day the plan says the rule on rows acts next is exact: at a later moment the rows
      that come in are the same exactly when it is before that day, whatever the cap on the
      rows listed leaves out. */
  lemma NextIsWhenRowsComeIn(rules: map<string, RuleState>, key: string, all: seq<Row>, before: int, now: int,
                             asOf: int, t: int)
    requires DistinctPaths(all) && DayOf(asOf) <= DayOf(t)
    ensures var next := PlanDue(rules, key, Ok(all), before, now, asOf).next;
            var read := CapRows(all).0;
            ComeIn(read, before, t) == ComeIn(read, before, asOf) <==> (next.Some? ==> DayOf(t) < next.value)
  {
    SameUntilNext(CapRows(all).0, before, asOf, t);
  }

  lemma SameUntilNext(read: seq<Row>, before: int, asOf: int, t: int)
    requires DistinctPaths(read) && DayOf(asOf) <= DayOf(t)
    ensures var next := FirstComing(Later(read, before, asOf));
            ComeIn(read, before, t) == ComeIn(read, before, asOf) <==> (next.Some? ==> DayOf(t) < next.value)
  {
    var later := Later(read, before, asOf);
    ComingIs(read, before, asOf);
    if later != [] && later[0].from <= DayOf(t) {
      assert later[0] in later;
      assert later[0].row in ComeIn(read, before, t) && later[0].row !in ComeIn(read, before, asOf);
    } else {
      forall row | row in read && row.day.Some?
        ensures row.day.value - before <= DayOf(t) <==> row.day.value - before <= DayOf(asOf)
      {
        if row.day.value - before > DayOf(asOf) {
          assert Coming(row, row.day.value - before) in later;
        }
      }
      FilterSame((row: Row) => row.day.Some? && row.day.value - before <= DayOf(t),
                 (row: Row) => row.day.Some? && row.day.value - before <= DayOf(asOf), read);
    }
  }
}
