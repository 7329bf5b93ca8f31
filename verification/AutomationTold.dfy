/** What a rule says of its failures: each is told once, until the rule succeeds or fails
    otherwise (internal/automation: engine.go, runner.go). */
module AutomationTold {
  import opened Text
  import opened Schedules
  import opened Automation

  /** What happens to a rule: a tick for its last slot or for its rows, or the end of a
      job. */
  datatype Beat =
    | SlotTick(slot: int, acting: Acting, now: int)
    | RowTick(rows: Result<seq<Row>>, before: int, acting: Acting, now: int)
    | JobEnd(id: string, job: Job)

  function StateAfter(rs: RuleState, b: Beat): RuleState {
    match b
    case SlotTick(slot, acting, now) => FireEvery(rs, slot, acting, now).0
    case RowTick(rows, before, acting, now) => FireDue(rs, rows, before, acting, now).0
    case JobEnd(id, job) => Settled(rs, id, job)
  }

  /** What a tick tells. */
  function OutcomeOf(rs: RuleState, b: Beat): Outcome
    requires !b.JobEnd?
  {
    match b
    case SlotTick(slot, acting, now) => FireEvery(rs, slot, acting, now).1
    case RowTick(rows, before, acting, now) => FireDue(rs, rows, before, acting, now).1
  }

  /** The state before the i-th of beats. */
  function StateAt(rs: RuleState, beats: seq<Beat>, i: nat): RuleState
    requires i <= |beats|
  {
    if i == 0 then rs else StateAfter(StateAt(rs, beats, i - 1), beats[i - 1])
  }

  // ----- Failing and succeeding -----

  /** Doing the action failed with the message, or queueing it did. */
  ghost predicate ActFails(acting: Acting, msg: string) {
    || acting == AtOnce(Err(msg))
    || exists why: string :: acting == Queue(Err(why)) && msg == "queue the action: " + why
  }

  predicate ActDone(acting: Acting) { acting.AtOnce? && acting.done.Ok? }

  /** The slot is to fire. */
  predicate SlotDue(rs: RuleState, slot: int) {
    slot >= rs.firstSeen && Slot(slot) !in rs.fired && Slot(slot) !in rs.pending
  }

  /** Some row read is to be handed off. */
  predicate SomeRowDue(rs: RuleState, all: seq<Row>, before: int, now: int) {
    exists i :: 0 <= i < |all| && i < MAX_ROWS && RowDue(RowsRead(rs, all, now), all[i], before, now)
  }

  predicate RowDue(rs: RuleState, row: Row, before: int, now: int) {
    && row.day.Some? && row.day.value - before <= DayOf(now)
    && KeyOf(row) !in rs.fired && KeyOf(row) !in rs.pending
  }

  /** Some key of the job waits for it. */
  predicate WaitsFor(rs: RuleState, id: string, job: Job) {
    exists k :: k in job.keys && k in rs.pending && rs.pending[k] == id
  }

  ghost predicate FailsWith(rs: RuleState, b: Beat, msg: string) {
    match b
    case SlotTick(slot, acting, now) => SlotDue(rs, slot) && ActFails(acting, msg)
    case RowTick(Err(why), before, acting, now) => why == msg
    case RowTick(Ok(all), before, acting, now) => SomeRowDue(rs, all, before, now) && ActFails(acting, msg)
    case JobEnd(id, job) => WaitsFor(rs, id, job) && job.status != Done && job.error == msg
  }

  /** It fired, or had nothing to fire of its rows. */
  predicate Succeeds(rs: RuleState, b: Beat) {
    match b
    case SlotTick(slot, acting, now) => SlotDue(rs, slot) && ActDone(acting)
    case RowTick(Err(_), before, acting, now) => false
    case RowTick(Ok(all), before, acting, now) => SomeRowDue(rs, all, before, now) ==> ActDone(acting)
    case JobEnd(id, job) => WaitsFor(rs, id, job) && job.status == Done
  }

  lemma DueIs(rs: RuleState, all: seq<Row>, before: int, now: int)
    ensures SomeRowDue(rs, all, before, now) <==> Due(RowsRead(rs, all, now), CapRows(all).0, before, now) != []
  {
    var after, read := RowsRead(rs, all, now), CapRows(all).0;
    var come := ComeIn(read, before, now);
    var due := Due(after, read, before, now);
    if i :| 0 <= i < |all| && i < MAX_ROWS && RowDue(after, all[i], before, now) {
      assert read[i] == all[i] && all[i] in come && all[i] in due;
    }
    if due != [] {
      assert due[0] in due && due[0] in come && due[0] in read;
      var i :| 0 <= i < |read| && read[i] == due[0];
      assert RowDue(after, all[i], before, now);
    }
  }

  lemma RowBeatIs(rs: RuleState, all: seq<Row>, before: int, acting: Acting, now: int, msg: string)
    ensures var f := FireDue(rs, Ok(all), before, acting, now);
            if SomeRowDue(rs, all, before, now) then
              && (ActFails(acting, msg) ==>
                    f.0.error == msg && !ActDone(acting) && f.1 == if rs.error == msg then Quiet else Failed(msg))
              && (ActDone(acting) ==> f.0.error == "")
              && (ActDone(acting) || (exists m: string :: ActFails(acting, m)) || f.0.error == rs.error)
            else f.0.error == ""
  {
    var after := RowsRead(rs, all, now);
    var keys := KeysOf(Due(after, CapRows(all).0, before, now));
    DueIs(rs, all, before, now);
    ActIs(after, keys, acting, now, msg);
    ErrorKept(after, keys, acting, now);
  }

  /** A failure stands as the rule's error, and is told when it did not stand already; a
      success clears it; anything else leaves it. */
  lemma BeatIs(rs: RuleState, b: Beat, msg: string)
    ensures FailsWith(rs, b, msg) ==>
              && StateAfter(rs, b).error == msg && !Succeeds(rs, b)
              && (!b.JobEnd? ==> OutcomeOf(rs, b) == if rs.error == msg then Quiet else Failed(msg))
    ensures Succeeds(rs, b) ==> StateAfter(rs, b).error == ""
    ensures !Succeeds(rs, b) && (forall m: string :: !FailsWith(rs, b, m)) ==> StateAfter(rs, b).error == rs.error
  {
    match b
    case SlotTick(slot, acting, now) =>
      ActIs(rs, [Slot(slot)], acting, now, msg);
      ErrorKept(rs, [Slot(slot)], acting, now);
      if m: string :| ActFails(acting, m) { assert SlotDue(rs, slot) ==> FailsWith(rs, b, m); }
    case RowTick(Err(why), before, acting, now) =>
      assert FailsWith(rs, b, why);
    case RowTick(Ok(all), before, acting, now) =>
      RowBeatIs(rs, all, before, acting, now, msg);
      if m: string :| ActFails(acting, m) { assert SomeRowDue(rs, all, before, now) ==> FailsWith(rs, b, m); }
    case JobEnd(id, job) =>
      assert WaitsFor(rs, id, job) <==> Mine(rs, id, job) != {} by {
        if k :| k in job.keys && k in rs.pending && rs.pending[k] == id { assert k in Mine(rs, id, job); }
      }
      assert WaitsFor(rs, id, job) && job.status != Done ==> FailsWith(rs, b, job.error);
  }

  lemma ActIs(rs: RuleState, keys: seq<Key>, acting: Acting, now: int, msg: string)
    ensures ActFails(acting, msg) ==>
              && Act(rs, keys, acting, now).0.error == msg && !ActDone(acting)
              && Act(rs, keys, acting, now).1 == if rs.error == msg then Quiet else Failed(msg)
    ensures ActDone(acting) ==> Act(rs, keys, acting, now).0.error == ""
  {
  }

  lemma ErrorKept(rs: RuleState, keys: seq<Key>, acting: Acting, now: int)
    ensures ActDone(acting) || (exists m: string :: ActFails(acting, m))
            || Act(rs, keys, acting, now).0.error == rs.error
  {
    match acting
    case Queue(Err(why)) => assert ActFails(acting, "queue the action: " + why);
    case AtOnce(Err(why)) => assert ActFails(acting, why);
    case _ =>
  }

  // ----- Over a run -----

  /** The i-th beat neither succeeds nor fails but with msg. */
  ghost predicate Stands(rs: RuleState, b: Beat, msg: string) {
    !Succeeds(rs, b) && forall m: string :: FailsWith(rs, b, m) ==> m == msg
  }

  lemma {:induction false} ErrorStands(rs: RuleState, beats: seq<Beat>, i: nat, n: nat, msg: string)
    requires i <= n <= |beats| && StateAt(rs, beats, i).error == msg
    requires forall j :: i <= j < n ==> Stands(StateAt(rs, beats, j), beats[j], msg)
    ensures StateAt(rs, beats, n).error == msg
  {
    if i < n {
      ErrorStands(rs, beats, i, n - 1, msg);
      assert Stands(StateAt(rs, beats, n - 1), beats[n - 1], msg);
      BeatIs(StateAt(rs, beats, n - 1), beats[n - 1], msg);
    }
  }

  /** A failure that was told is not told again while the rule neither succeeds nor fails
      otherwise, however many ticks and ends of jobs there are; another one is. */
  lemma ToldOnce(rs: RuleState, beats: seq<Beat>, i: nat, msg: string, b: Beat, other: string)
    requires i < |beats| && FailsWith(StateAt(rs, beats, i), beats[i], msg)
    requires forall j :: i < j < |beats| ==> Stands(StateAt(rs, beats, j), beats[j], msg)
    requires !b.JobEnd? && FailsWith(StateAt(rs, beats, |beats|), b, other)
    ensures OutcomeOf(StateAt(rs, beats, |beats|), b) == if other == msg then Quiet else Failed(other)
  {
    BeatIs(StateAt(rs, beats, i), beats[i], msg);
    ErrorStands(rs, beats, i + 1, |beats|, msg);
    BeatIs(StateAt(rs, beats, |beats|), b, other);
  }

  /** After a success, or from the start of a rule, the first failure is told. */
  lemma ToldAfterSuccess(rs: RuleState, beats: seq<Beat>, i: nat, b: Beat, msg: string)
    requires i <= |beats| && (if i == 0 then rs.error == "" else Succeeds(StateAt(rs, beats, i - 1), beats[i - 1]))
    requires forall j :: i <= j < |beats| ==> Stands(StateAt(rs, beats, j), beats[j], "")
    requires !b.JobEnd? && FailsWith(StateAt(rs, beats, |beats|), b, msg) && msg != ""
    ensures OutcomeOf(StateAt(rs, beats, |beats|), b) == Failed(msg)
  {
    if i > 0 { BeatIs(StateAt(rs, beats, i - 1), beats[i - 1], ""); }
    ErrorStands(rs, beats, i, |beats|, "");
    BeatIs(StateAt(rs, beats, |beats|), b, msg);
  }

  // ----- What a firing leaves -----

  /** What acting on keys leaves, key by key: done, each is fired now; queued, each waits
      for the job; failed, no key changes. No other key does. */
  lemma ActMarks(rs: RuleState, keys: seq<Key>, acting: Acting, now: int, k: Key)
    ensures var a, o := Act(rs, keys, acting, now).0, Act(rs, keys, acting, now).1;
            && (ActDone(acting) && k in keys ==> k in a.fired && a.fired[k] == now)
            && (ActDone(acting) ==> o == Acted(keys, acting.done.value) && a.pending == rs.pending)
            && (acting.Queue? && acting.job.Ok? && k in keys ==> k in a.pending && a.pending[k] == acting.job.value)
            && (acting.Queue? && acting.job.Ok? ==> o == Queued(keys, acting.job.value) && a.fired == rs.fired)
            && ((exists m: string :: ActFails(acting, m)) ==> a.fired == rs.fired && a.pending == rs.pending)
            && (k !in keys ==> (k in a.fired <==> k in rs.fired) && (k in a.pending <==> k in rs.pending))
            && (k !in keys && k in a.fired ==> a.fired[k] == rs.fired[k])
            && (k !in keys && k in a.pending ==> a.pending[k] == rs.pending[k])
            && a.firstSeen == rs.firstSeen && a.lastSeen == rs.lastSeen && a.warning == rs.warning
  {
  }

  /** A rule reads its first rows in the order given, to ten thousand, and warns exactly
      when there are more. */
  lemma CapIs(rows: seq<Row>)
    ensures var read := CapRows(rows).0;
            && read <= rows && |read| == (if |rows| <= 10000 then |rows| else 10000)
            && (CapRows(rows).1 == "" <==> |rows| <= 10000)
  {
  }

  /** Pruning drops the rules unseen for over four hundred days, and of the others the slots
      fired longer ago; no row, nothing that waits. */
  lemma PruneIs(rules: map<string, RuleState>, r: string, now: int, k: Key)
    ensures r in Pruned(rules, now) <==> r in rules && now - rules[r].lastSeen <= 400 * DAY
    ensures r in Pruned(rules, now) ==>
              var rs, after := rules[r], Pruned(rules, now)[r];
              && (k in after.fired <==> k in rs.fired && (k.RowKey? || now - rs.fired[k] <= 400 * DAY))
              && after == rs.(fired := after.fired) && (k in after.fired ==> after.fired[k] == rs.fired[k])
  {
  }

  /** Reading rows forgets, key by key, a firing over four hundred days old of a row that
      is gone, when all rows were read, and nothing else. */
  lemma ForgetsIs(rs: RuleState, rows: seq<Row>, now: int, k: Key)
    ensures var after := RowsRead(rs, rows, now);
            && (k in after.fired <==>
                  && k in rs.fired
                  && !(&& |rows| <= 10000 && k.RowKey? && (forall row :: row in rows ==> KeyOf(row) != k)
                       && now - rs.fired[k] > 400 * DAY))
            && (k in after.fired ==> after.fired[k] == rs.fired[k])
            && after.pending == rs.pending && after.error == rs.error
  {
  }
}
