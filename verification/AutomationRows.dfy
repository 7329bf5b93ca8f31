/** A row handed off once for its date: over any run in which its rule is not away for
    long and no reading without the row comes long after its firing
    (internal/automation/engine.go, store.go). */
module AutomationRows {
  import opened Text
  import opened Schedules
  import opened Automation
  import opened AutomationRuns

  /** How often k of rule r was acted on with success. */
  function Wins(w: World, r: string, k: Key): nat { multiset(w.wins)[(r, k)] }

  /** k waits for a job that did it. */
  predicate DoneWaits(w: World, rs: RuleState, k: Key) {
    k in rs.pending && rs.pending[k] in w.jobs && w.jobs[rs.pending[k]].status == Done
  }

  /** A job at work for k: k waits for it, was not won, and is one of its keys once. */
  ghost predicate HolderSafe(w: World, r: string, k: Key, id: string) {
    id in w.jobs && w.jobs[id].status == Live && w.jobs[id].rule == r && k in w.jobs[id].keys ==>
      && r in w.rules && k in w.rules[r].pending && w.rules[r].pending[k] == id
      && Wins(w, r, k) == 0 && multiset(w.jobs[id].keys)[k] == 1
  }

  /** Once k was acted on, the rule remembers: it is fired, or waits for the job that
      did it. */
  ghost predicate RowInv(w: World, r: string, k: Key) {
    && Wins(w, r, k) <= 1
    && (Wins(w, r, k) == 1 ==> r in w.rules && (k in w.rules[r].fired || DoneWaits(w, w.rules[r], k)))
    && forall id :: HolderSafe(w, r, k, id)
  }

  predicate DistinctKeys(rows: seq<Row>) {
    forall i, j :: 0 <= i < j < |rows| ==> KeyOf(rows[i]) != KeyOf(rows[j])
  }

  /** k is fired, if it is, not long before now. */
  predicate FiredLately(rs: RuleState, k: Key, now: int) {
    k in rs.fired ==> now - rs.fired[k] <= FORGET_AFTER
  }

  /** A reading of rows that forgets nothing of k: it is above the cap, or has the row, or
      comes before the firing of k is long past. Rows have different paths. */
  predicate Keeps(rs: RuleState, rows: seq<Row>, k: Key, now: int) {
    DistinctKeys(rows) && (|rows| > MAX_ROWS || k in RowKeys(rows) || FiredLately(rs, k, now))
  }

  /** The event forgets nothing of k: the rule is not away for long, and what is read of
      its rows keeps k. The row may go and come back meanwhile. */
  predicate Remembers(w: World, e: Event, r: string, k: Key) {
    match e
    case Prune(now) => r in w.rules ==> now - w.rules[r].lastSeen <= FORGET_AFTER
    case TickDue(now, rule, rows, _, _) => rule == r && rows.Ok? ==> Keeps(Seen(w.rules, rule, now), rows.value, k, now)
    case _ => true
  }

  predicate RemembersAll(w: World, es: seq<Event>, r: string, k: Key)
    requires Runs(w, es)
    decreases |es|
  {
    es == [] || (Remembers(w, es[0], r, k) && RemembersAll(Apply(w, es[0]), es[1..], r, k))
  }

  // ----- A tick -----

  /** What a tick's reading leaves of k: it is not forgotten. */
  lemma ReadRemembers(s0: RuleState, rows: seq<Row>, now: int, k: Key)
    requires Keeps(s0, rows, k, now)
    ensures var rs := RowsRead(s0, rows, now);
            && (k in rs.fired <==> k in s0.fired) && rs.pending == s0.pending
  {
  }

  lemma {:induction false} DueDistinct(f: Row -> bool, rows: seq<Row>)
    requires DistinctKeys(rows)
    ensures DistinctKeys(Filter(f, rows))
  {
    if rows != [] {
      var rest := rows[1..];
      assert forall i :: 0 <= i < |rest| ==> rest[i] == rows[i + 1];
      DueDistinct(f, rest);
      var r := Filter(f, rest);
      forall i | 0 <= i < |r| ensures KeyOf(rows[0]) != KeyOf(r[i]) {
        assert r[i] in rest;
        var j :| 0 <= j < |rest| && rest[j] == r[i];
        assert KeyOf(rows[0]) != KeyOf(rows[j + 1]);
      }
      Prepend(rows[0], r);
      assert [] + r == r;
    }
  }

  lemma Prepend(row: Row, rows: seq<Row>)
    requires DistinctKeys(rows) && forall i :: 0 <= i < |rows| ==> KeyOf(row) != KeyOf(rows[i])
    ensures DistinctKeys([row] + rows)
  {
  }

  lemma {:induction false} KeysOnce(rows: seq<Row>, k: Key)
    requires DistinctKeys(rows)
    ensures multiset(KeysOf(rows))[k] <= 1
  {
    if rows != [] {
      var n := |rows| - 1;
      KeysOnce(rows[..n], k);
      assert KeysOf(rows) == KeysOf(rows[..n]) + [KeyOf(rows[n])];
      if KeyOf(rows[n]) == k {
        assert forall i :: 0 <= i < n ==> KeysOf(rows[..n])[i] != k;
        assert k !in KeysOf(rows[..n]);
      }
    }
  }

  /** The keys of the rows a tick acts on are free, each once. */
  lemma DueKeysOnce(rs: RuleState, rows: seq<Row>, before: int, now: int, k: Key)
    requires DistinctKeys(rows)
    ensures var keys := KeysOf(Due(rs, rows, before, now));
            multiset(keys)[k] <= 1 && (k in keys ==> Free(rs, k))
  {
    DueDistinct((row: Row) => row.day.Some? && row.day.value - before <= DayOf(now), rows);
    DueDistinct((row: Row) => Free(rs, KeyOf(row)), ComeIn(rows, before, now));
    KeysOnce(Due(rs, rows, before, now), k);
    DueKeysAreRows(rs, rows, before, now);
  }

  lemma CapDistinct(rows: seq<Row>)
    requires DistinctKeys(rows)
    ensures DistinctKeys(CapRows(rows).0)
  {
  }

  /** What a tick on rows does to k: the reading forgets nothing of it, and it is acted on
      only when free, once. */
  lemma FireDueOnce(s0: RuleState, rows: Result<seq<Row>>, before: int, acting: Acting, now: int, k: Key)
    requires rows.Ok? ==> Keeps(s0, rows.value, k, now)
    ensures var (rs, outcome) := FireDue(s0, rows, before, acting, now);
            && (k in s0.fired ==> k in rs.fired)
            && (k in s0.pending ==> k in rs.pending && rs.pending[k] == s0.pending[k])
            && (outcome.Acted? && k in outcome.keys ==>
                  Free(s0, k) && k in rs.fired && multiset(outcome.keys)[k] == 1)
            && (outcome.Queued? && k in outcome.keys ==>
                  Free(s0, k) && k in rs.pending && rs.pending[k] == outcome.job && multiset(outcome.keys)[k] == 1)
            && (outcome.Queued? ==> acting == Queue(Ok(outcome.job)))
  {
    match rows
    case Err(msg) =>
    case Ok(all) =>
      var after := RowsRead(s0, all, now);
      ReadRemembers(s0, all, now, k);
      CapDistinct(all);
      DueKeysOnce(after, CapRows(all).0, before, now, k);
      ActOnce(after, KeysOf(Due(after, CapRows(all).0, before, now)), acting, now, k);
  }

  lemma ActOnce(rs: RuleState, keys: seq<Key>, acting: Acting, now: int, k: Key)
    requires multiset(keys)[k] <= 1 && (k in keys ==> Free(rs, k))
    ensures var (after, outcome) := Act(rs, keys, acting, now);
            && (k in rs.fired ==> k in after.fired)
            && (k in rs.pending ==> k in after.pending && after.pending[k] == rs.pending[k])
            && (outcome.Acted? || outcome.Queued? ==> outcome.keys == keys)
            && (outcome.Acted? && k in keys ==> k in after.fired && multiset(keys)[k] == 1)
            && (outcome.Queued? && k in keys ==> k in after.pending && after.pending[k] == outcome.job && multiset(keys)[k] == 1)
            && (outcome.Queued? ==> acting == Queue(Ok(outcome.job)))
  {
    assert k in keys ==> k in multiset(keys);
  }

  lemma WinsOfCount(rule: string, keys: seq<Key>, r: string, k: Key)
    ensures multiset(WinsOf(rule, keys))[(r, k)] == if rule == r then multiset(keys)[k] else 0
  {
    if keys != [] {
      var n := |keys| - 1;
      WinsOfCount(rule, keys[..n], r, k);
      assert WinsOf(rule, keys) == WinsOf(rule, keys[..n]) + [(rule, keys[n])];
      assert keys == keys[..n] + [keys[n]];
    } else {
      assert WinsOf(rule, keys) == [];
    }
  }

  /** A rule read, whose memory of k is not lost. */
  ghost predicate ReadOf(w: World, r: string, k: Key, rule: string, rs: RuleState) {
    rule == r ==>
      var s0 := Seen(w.rules, rule, rs.lastSeen);
      && (k in s0.fired ==> k in rs.fired)
      && (k in s0.pending ==> k in rs.pending && rs.pending[k] == s0.pending[k])
  }

  lemma ReadKeepsRow(w: World, r: string, k: Key, rule: string, now: int, rs: RuleState)
    requires RowInv(w, r, k) && ReadOf(w, r, k, rule, rs)
    ensures RowInv(w.(rules := w.rules[rule := rs], clock := now), r, k)
  {
    var w2 := w.(rules := w.rules[rule := rs], clock := now);
    forall id ensures HolderSafe(w2, r, k, id) { assert HolderSafe(w, r, k, id); }
  }

  /** A free row is nobody's: it was not acted on, and no job at work holds it. */
  lemma FreeRowIsNew(w: World, r: string, k: Key, now: int)
    requires RowInv(w, r, k) && Free(Seen(w.rules, r, now), k)
    ensures Wins(w, r, k) == 0
    ensures forall id :: id in w.jobs && w.jobs[id].status == Live && w.jobs[id].rule == r ==> k !in w.jobs[id].keys
  {
    forall id | id in w.jobs && w.jobs[id].status == Live && w.jobs[id].rule == r ensures k !in w.jobs[id].keys {
      assert HolderSafe(w, r, k, id);
    }
  }

  /** What happens after a rule was read keeps the row's. */
  lemma HappenedKeeps(w: World, r: string, k: Key, rule: string, now: int, rs: RuleState, outcome: Outcome)
    requires RowInv(w, r, k) && ReadOf(w, r, k, rule, rs)
    requires outcome.Queued? ==> outcome.job !in w.jobs
    requires rule == r && (outcome.Acted? || outcome.Queued?) && k in outcome.keys ==>
               && Free(Seen(w.rules, r, now), k) && multiset(outcome.keys)[k] == 1
               && (outcome.Acted? ==> k in rs.fired)
               && (outcome.Queued? ==> k in rs.pending && rs.pending[k] == outcome.job)
    ensures RowInv(Happened(w, rule, now, rs, outcome), r, k)
  {
    ReadKeepsRow(w, r, k, rule, now, rs);
    var w1 := w.(rules := w.rules[rule := rs], clock := now);
    var w2 := Happened(w, rule, now, rs, outcome);
    match outcome
    case Acted(keys, path) =>
      WinsOfCount(rule, keys, r, k);
      if rule == r && k in keys { FreeRowIsNew(w, r, k, now); }
      forall id ensures HolderSafe(w2, r, k, id) { assert HolderSafe(w1, r, k, id) && HolderSafe(w, r, k, id); }
    case Queued(keys, job) =>
      if rule == r && k in keys { FreeRowIsNew(w, r, k, now); }
      forall id ensures HolderSafe(w2, r, k, id) { assert HolderSafe(w1, r, k, id); }
    case _ =>
  }

  // ----- Every event -----

  lemma JobEndsKeeps(w: World, r: string, k: Key, now: int, id: string, ok: bool, error: string)
    requires RowInv(w, r, k) && Enabled(w, JobEnds(now, id, ok, error))
    ensures RowInv(Apply(w, JobEnds(now, id, ok, error)), r, k)
  {
    var w2 := Apply(w, JobEnds(now, id, ok, error));
    var job := w.jobs[id];
    assert HolderSafe(w, r, k, id);
    WinsOfCount(job.rule, job.keys, r, k);
    forall a ensures HolderSafe(w2, r, k, a) { assert HolderSafe(w, r, k, a); }
  }

  lemma SettleKeepsRow(w: World, r: string, k: Key, id: string)
    requires RowInv(w, r, k) && Enabled(w, Settle(id))
    ensures RowInv(Apply(w, Settle(id)), r, k)
  {
    var w2 := Apply(w, Settle(id));
    forall a ensures HolderSafe(w2, r, k, a) { assert HolderSafe(w, r, k, a); }
  }

  lemma LoseKeepsRow(w: World, r: string, k: Key, id: string)
    requires RowInv(w, r, k) && Enabled(w, Lose(id))
    ensures RowInv(Apply(w, Lose(id)), r, k)
  {
    var w2 := Apply(w, Lose(id));
    if r in w.rules && k in w.rules[r].pending {
      assert w.rules[r].pending[k] in w.rules[r].pending.Values;
    }
    forall a ensures HolderSafe(w2, r, k, a) { assert HolderSafe(w, r, k, a); }
  }

  lemma EventKeepsRow(w: World, e: Event, r: string, k: Key)
    requires k.RowKey? && RowInv(w, r, k) && Enabled(w, e) && Remembers(w, e, r, k)
    ensures RowInv(Apply(w, e), r, k)
  {
    match e
    case TickEvery(now, rule, schedule, acting) =>
      var (rs, outcome) := FireEvery(Seen(w.rules, rule, now), LastSlot(schedule, now), acting, now);
      HappenedKeeps(w, r, k, rule, now, rs, outcome);
    case TickDue(now, rule, rows, before, acting) =>
      var (rs, outcome) := FireDue(Seen(w.rules, rule, now), rows, before, acting, now);
      if rule == r {
        FireDueOnce(Seen(w.rules, rule, now), rows, before, acting, now, k);
      } else {
        OtherQueued(Seen(w.rules, rule, now), rows, before, acting, now);
      }
      HappenedKeeps(w, r, k, rule, now, rs, outcome);
    case Prune(now) =>
      forall a ensures HolderSafe(Apply(w, e), r, k, a) { assert HolderSafe(w, r, k, a); }
    case JobEnds(now, id, ok, error) => JobEndsKeeps(w, r, k, now, id, ok, error);
    case Settle(id) => SettleKeepsRow(w, r, k, id);
    case Lose(id) => LoseKeepsRow(w, r, k, id);
    case FreeLost(id) =>
      forall a ensures HolderSafe(Apply(w, e), r, k, a) { assert HolderSafe(w, r, k, a); }
  }

  lemma OtherQueued(s0: RuleState, rows: Result<seq<Row>>, before: int, acting: Acting, now: int)
    ensures var outcome := FireDue(s0, rows, before, acting, now).1;
            outcome.Queued? ==> acting == Queue(Ok(outcome.job))
  {
  }

  lemma {:induction false} RunKeepsRow(w: World, es: seq<Event>, r: string, k: Key)
    requires k.RowKey? && RowInv(w, r, k) && Runs(w, es) && RemembersAll(w, es, r, k)
    ensures RowInv(After(w, es), r, k)
    decreases |es|
  {
    if es != [] {
      EventKeepsRow(w, es[0], r, k);
      RunKeepsRow(Apply(w, es[0]), es[1..], r, k);
    }
  }

  /** In any run whose rule is never away for long, the row is acted on with success at
      most once for its date, though it goes and comes back, as long as no reading finds it
      gone once its firing is long past. */
  lemma EachRowOnce(w0: World, es: seq<Event>, r: string, k: Key)
    requires k.RowKey? && Init(w0) && Runs(w0, es) && RemembersAll(w0, es, r, k)
    ensures Wins(After(w0, es), r, k) <= 1
  {
    forall id ensures HolderSafe(w0, r, k, id) {}
    RunKeepsRow(w0, es, r, k);
  }

  /** The condition on a reading is exact: a row fired is acted on again, when it comes
      back, exactly when the reading before does not keep it. */
  lemma GoneRowFiresAgain(w: World, r: string, rows: seq<Row>, before: int, acting: Acting, now: int,
                          row: Row, path: string, later: int)
    requires r in w.rules && KeyOf(row) in w.rules[r].fired && KeyOf(row) !in w.rules[r].pending
    requires Enabled(w, TickDue(now, r, Ok(rows), before, acting)) && DistinctKeys(rows)
    requires now <= later && row.day.Some? && row.day.value <= DayOf(later)
    ensures var gone := Apply(w, TickDue(now, r, Ok(rows), before, acting));
            var back := TickDue(later, r, Ok([row]), 0, AtOnce(Ok(path)));
            && Enabled(gone, back)
            && Wins(Apply(gone, back), r, KeyOf(row))
               == Wins(w, r, KeyOf(row)) + if Keeps(Seen(w.rules, r, now), rows, KeyOf(row), now) then 0 else 1
  {
    var k := KeyOf(row);
    var s0 := Seen(w.rules, r, now);
    var (rs, outcome) := FireDue(s0, Ok(rows), before, acting, now);
    ReadingLeaves(s0, rows, before, acting, now, k);
    var gone := Happened(w, r, now, rs, outcome);
    HappenedWins(w, r, now, rs, outcome, k);
    var s1 := Seen(gone.rules, r, later);
    OneRowFires(s1, row, path, later);
    HappenedWins(gone, r, later, FireDue(s1, Ok([row]), 0, AtOnce(Ok(path)), later).0,
                 FireDue(s1, Ok([row]), 0, AtOnce(Ok(path)), later).1, k);
    assert multiset([k])[k] == 1;
  }

  /** What a reading leaves of a key fired: it is fired still exactly when it is kept, and
      not acted on. */
  lemma ReadingLeaves(s0: RuleState, rows: seq<Row>, before: int, acting: Acting, now: int, k: Key)
    requires k in s0.fired && k !in s0.pending && k.RowKey? && DistinctKeys(rows)
    ensures var (rs, outcome) := FireDue(s0, Ok(rows), before, acting, now);
            && (k in rs.fired <==> Keeps(s0, rows, k, now)) && k !in rs.pending
            && (outcome.Acted? || outcome.Queued? ==> k !in outcome.keys)
  {
    var after := RowsRead(s0, rows, now);
    assert k in after.fired <==> Keeps(s0, rows, k, now);
    NotDue(after, CapRows(rows).0, before, now, k);
    ActLeaves(after, KeysOf(Due(after, CapRows(rows).0, before, now)), acting, now, k);
  }

  lemma NotDue(rs: RuleState, rows: seq<Row>, before: int, now: int, k: Key)
    requires k !in RowKeys(rows) || !Free(rs, k)
    ensures k !in KeysOf(Due(rs, rows, before, now))
  {
    var due := Due(rs, rows, before, now);
    forall i | 0 <= i < |due| ensures KeyOf(due[i]) in RowKeys(rows) && Free(rs, KeyOf(due[i])) {
      assert due[i] in due;
    }
  }

  lemma ActLeaves(rs: RuleState, keys: seq<Key>, acting: Acting, now: int, k: Key)
    requires k !in keys
    ensures var (after, outcome) := Act(rs, keys, acting, now);
            && (k in after.fired <==> k in rs.fired) && (k in after.pending <==> k in rs.pending)
            && (outcome.Acted? || outcome.Queued? ==> outcome.keys == keys)
  {
  }

  lemma HappenedWins(w: World, r: string, now: int, rs: RuleState, outcome: Outcome, k: Key)
    ensures Wins(Happened(w, r, now, rs, outcome), r, k)
         == Wins(w, r, k) + if outcome.Acted? then multiset(outcome.keys)[k] else 0
  {
    if outcome.Acted? { WinsOfCount(r, outcome.keys, r, k); }
  }

  /** A row alone, of today or before, is acted on exactly when it is free. */
  lemma OneRowFires(rs: RuleState, row: Row, path: string, now: int)
    requires row.day.Some? && row.day.value <= DayOf(now)
    ensures FireDue(rs, Ok([row]), 0, AtOnce(Ok(path)), now).1
         == if Free(rs, KeyOf(row)) then Acted([KeyOf(row)], path) else Quiet
  {
    var after := RowsRead(rs, [row], now);
    assert row in [row];
    assert Free(after, KeyOf(row)) <==> Free(rs, KeyOf(row));
    assert ComeIn([row], 0, now) == [row];
    assert Due(after, [row], 0, now) == if Free(rs, KeyOf(row)) then [row] else [];
    assert KeysOf([row]) == [KeyOf(row)];
    assert KeysOf([]) == [];
  }
}
