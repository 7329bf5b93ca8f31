/** What the automation engine remembers of its rules and how a tick, the end of
    a job and the forgetting of old firings change it (internal/automation:
    engine.go, runner.go, store.go). */
module Automation {
  import opened Text
  import opened Schedules

  const FORGET_AFTER: int := 400 * DAY
  const MAX_LOG: nat := 200
  const MAX_ROWS: nat := 10000

  /** What a rule fired: a slot, or a row for its date ("<path>@<date>"). */
  datatype Key = Slot(at: int) | RowKey(path: string, date: string)

  datatype RuleState = RuleState(
    firstSeen: int, lastSeen: int,
    fired: map<Key, int>,          // each with when it fired
    pending: map<Key, string>,     // each with the job its action is queued as
    error: string, warning: string)

  datatype Result<+T> = Ok(value: T) | Err(msg: string)

  /** A row the host returns; day is its date as parseDay reads it. */
  datatype Row = Row(path: string, due: string, day: Option<int>)

  function KeyOf(row: Row): Key {
    RowKey(row.path, if |row.due| > 10 then row.due[..10] else row.due)
  }

  // ----- The state of a rule -----

  function Seen(rules: map<string, RuleState>, key: string, now: int): RuleState {
    if key in rules then rules[key].(lastSeen := now)
    else RuleState(now, now, map[], map[], "", "")
  }

  /** What is left of a rule's firings after prune. */
  function PrunedRule(rs: RuleState, now: int): RuleState {
    rs.(fired := map k | k in rs.fired && !(k.Slot? && now - rs.fired[k] > FORGET_AFTER) :: rs.fired[k])
  }

  function Pruned(rules: map<string, RuleState>, now: int): map<string, RuleState> {
    map r | r in rules && now - rules[r].lastSeen <= FORGET_AFTER :: PrunedRule(rules[r], now)
  }

  function RowKeys(rows: seq<Row>): set<Key> {
    set row | row in rows :: KeyOf(row)
  }

  function WithoutRows(rs: RuleState, rows: seq<Row>, now: int): RuleState {
    rs.(fired := map k | k in rs.fired && !(k.RowKey? && k !in RowKeys(rows) && now - rs.fired[k] > FORGET_AFTER)
                 :: rs.fired[k])
  }

  // ----- A tick -----

  /** How the action of a rule ran: at once, with the note it wrote, or queued
      on the runner, with its job; or why it failed. */
  datatype Acting = AtOnce(done: Result<string>) | Queue(job: Result<string>)

  datatype Outcome =
    | Quiet
    | Failed(msg: string)
    | Acted(keys: seq<Key>, path: string)
    | Queued(keys: seq<Key>, job: string)

  /** A failure is told once, until it changes. */
  function Fail(rs: RuleState, msg: string): (RuleState, Outcome) {
    if rs.error == msg then (rs, Quiet) else (rs.(error := msg), Failed(msg))
  }

  function MarkFired(rs: RuleState, keys: seq<Key>, at: int): RuleState {
    rs.(fired := rs.fired + map k | k in keys :: at)
  }

  function MarkPending(rs: RuleState, keys: seq<Key>, job: string): RuleState {
    rs.(pending := rs.pending + map k | k in keys :: job)
  }

  predicate Free(rs: RuleState, k: Key) { k !in rs.fired && k !in rs.pending }

  function Act(rs: RuleState, keys: seq<Key>, acting: Acting, now: int): (RuleState, Outcome) {
    match acting
    case Queue(Ok(job)) => (MarkPending(rs, keys, job), Queued(keys, job))
    case Queue(Err(msg)) => Fail(rs, "queue the action: " + msg)
    case AtOnce(Ok(path)) => (MarkFired(rs, keys, now).(error := ""), Acted(keys, path))
    case AtOnce(Err(msg)) => Fail(rs, msg)
  }

  /** fire, for an every rule whose last slot is slot. */
  function FireEvery(rs: RuleState, slot: int, acting: Acting, now: int): (RuleState, Outcome) {
    if slot < rs.firstSeen || !Free(rs, Slot(slot)) then (rs, Quiet)
    else Act(rs, [Slot(slot)], acting, now)
  }

  function CapRows(rows: seq<Row>): (seq<Row>, string) {
    if |rows| <= MAX_ROWS then (rows, "") else (rows[..MAX_ROWS], "over the row cap")
  }

  /** The rows whose date is within before days of today, or past it. */
  function ComeIn(rows: seq<Row>, before: int, now: int): seq<Row> {
    Filter((row: Row) => row.day.Some? && row.day.value - before <= DayOf(now), rows)
  }

  /** The rows that nothing fired or queued for their date. */
  function FreeRows(rs: RuleState, rows: seq<Row>): seq<Row> {
    Filter((row: Row) => Free(rs, KeyOf(row)), rows)
  }

  function Due(rs: RuleState, rows: seq<Row>, before: int, now: int): seq<Row> {
    FreeRows(rs, ComeIn(rows, before, now))
  }

  function KeysOf(rows: seq<Row>): seq<Key> {
    seq(|rows|, i requires 0 <= i < |rows| => KeyOf(rows[i]))
  }

  /** The state once the rows are read: the warning, and the old firings of the
      rows that are gone, unless some rows were not read. */
  function RowsRead(rs: RuleState, rows: seq<Row>, now: int): RuleState {
    var (read, warning) := CapRows(rows);
    var warned := rs.(warning := warning);
    if warning == "" then WithoutRows(warned, read, now) else warned
  }

  /** fire, for a rule on rows. */
  function FireDue(rs: RuleState, rows: Result<seq<Row>>, before: int, acting: Acting, now: int): (RuleState, Outcome) {
    match rows
    case Err(msg) => Fail(rs, msg)
    case Ok(all) =>
      var after := RowsRead(rs, all, now);
      var due := Due(after, CapRows(all).0, before, now);
      if due == [] then (after.(error := ""), Quiet)
      else Act(after, KeysOf(due), acting, now)
  }

  // ----- The end of a job -----

  datatype Status = Live | Done | Broken

  /** A job of the runner: the rule it acts for, the keys it fires, how it is
      and when it ended. */
  datatype Job = Job(rule: string, keys: seq<Key>, status: Status, finished: int, error: string)

  /** The keys of rs that wait for the job id, among the job's own. */
  function Mine(rs: RuleState, id: string, job: Job): set<Key> {
    set k | k in job.keys && k in rs.pending && rs.pending[k] == id
  }

  /** settle: what the end of job id leaves of its rule's state. */
  function Settled(rs: RuleState, id: string, job: Job): RuleState {
    var mine := Mine(rs, id, job);
    if mine == {} then rs
    else
      var freed := rs.(pending := rs.pending - mine);
      if job.status == Done then
        freed.(fired := freed.fired + map k | k in mine :: job.finished, error := "")
      else freed.(error := job.error)
  }

  function SettledRules(rules: map<string, RuleState>, id: string, job: Job): map<string, RuleState> {
    if job.rule in rules then rules[job.rule := Settled(rules[job.rule], id, job)] else rules
  }

  /** Frees the keys that wait for a job the runner has no more. */
  function FreedRule(rs: RuleState, id: string): RuleState {
    rs.(pending := map k | k in rs.pending && rs.pending[k] != id :: rs.pending[k])
  }

  function FreedRules(rules: map<string, RuleState>, id: string): map<string, RuleState> {
    map r | r in rules :: FreedRule(rules[r], id)
  }
}
