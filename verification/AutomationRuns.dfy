/** Every run of ticks, prunes and jobs, with a clock that never goes back: no
    slot of an every rule is acted on twice with success. */
module AutomationRuns {
  import opened Text
  import opened Schedules
  import opened Automation

  /** The rules' memory, the jobs by id, the clock, and what the actions did so
      far: each success is a rule and a key of it, in order. */
  datatype World = World(
    rules: map<string, RuleState>,
    jobs: map<string, Job>,
    clock: int,
    wins: seq<(string, Key)>)

  /** The engine's steps and the runner's. The rules of a tick are fired one by
      one, the jobs end and are settled at any time, in any order, again and
      again. */
  datatype Event =
    | TickEvery(now: int, rule: string, schedule: Schedule, acting: Acting)
    | TickDue(now: int, rule: string, rows: Result<seq<Row>>, before: int, acting: Acting)
    | Prune(now: int)
    | JobEnds(now: int, id: string, ok: bool, error: string)
    | Settle(id: string)                  // Ended, Await or reconcile
    | Lose(id: string)                    // the runner drops an ended job
    | FreeLost(id: string)                // reconcile: no such job

  predicate Enabled(w: World, e: Event) {
    match e
    case TickEvery(now, _, schedule, acting) =>
      w.clock <= now && Valid(schedule) && (acting.Queue? && acting.job.Ok? ==> acting.job.value !in w.jobs)
    case TickDue(now, _, _, _, acting) =>
      w.clock <= now && (acting.Queue? && acting.job.Ok? ==> acting.job.value !in w.jobs)
    case Prune(now) => w.clock <= now
    case JobEnds(now, id, _, _) => w.clock <= now && id in w.jobs && w.jobs[id].status == Live
    case Settle(id) => id in w.jobs && w.jobs[id].status != Live
    // The runner keeps a job that succeeded until the engine settled it.
    case Lose(id) => id in w.jobs && w.jobs[id].status != Live && (w.jobs[id].status == Done ==> !Waited(w, id))
    case FreeLost(id) => id !in w.jobs
  }

  /** Some key still waits for the job id. */
  predicate Waited(w: World, id: string) {
    exists r :: r in w.rules && id in w.rules[r].pending.Values
  }

  /** The successes of keys under rule, in order. */
  function WinsOf(rule: string, keys: seq<Key>): seq<(string, Key)> {
    seq(|keys|, i requires 0 <= i < |keys| => (rule, keys[i]))
  }

  function Happened(w: World, rule: string, now: int, rs: RuleState, outcome: Outcome): World {
    var w2 := w.(rules := w.rules[rule := rs], clock := now);
    match outcome
    case Acted(keys, _) => w2.(wins := w.wins + WinsOf(rule, keys))
    case Queued(keys, id) => w2.(jobs := w.jobs[id := Job(rule, keys, Live, 0, "")])
    case _ => w2
  }

  function Apply(w: World, e: Event): World
    requires Enabled(w, e)
  {
    match e
    case TickEvery(now, rule, schedule, acting) =>
      var (rs, outcome) := FireEvery(Seen(w.rules, rule, now), LastSlot(schedule, now), acting, now);
      Happened(w, rule, now, rs, outcome)
    case TickDue(now, rule, rows, before, acting) =>
      var (rs, outcome) := FireDue(Seen(w.rules, rule, now), rows, before, acting, now);
      Happened(w, rule, now, rs, outcome)
    case Prune(now) => w.(rules := Pruned(w.rules, now), clock := now)
    case JobEnds(now, id, ok, error) =>
      var job := w.jobs[id].(status := if ok then Done else Broken, finished := now, error := error);
      w.(jobs := w.jobs[id := job], clock := now,
         wins := if ok then w.wins + WinsOf(job.rule, job.keys) else w.wins)
    case Settle(id) => w.(rules := SettledRules(w.rules, id, w.jobs[id]))
    case Lose(id) => w.(jobs := w.jobs - {id})
    case FreeLost(id) => w.(rules := FreedRules(w.rules, id))
  }

  predicate Init(w: World) { w.rules == map[] && w.jobs == map[] && w.wins == [] }

  predicate Runs(w: World, es: seq<Event>)
    decreases |es|
  {
    es == [] || (Enabled(w, es[0]) && Runs(Apply(w, es[0]), es[1..]))
  }

  function After(w: World, es: seq<Event>): World
    requires Runs(w, es)
    decreases |es|
  {
    if es == [] then w else After(Apply(w, es[0]), es[1..])
  }

  // ----- What every event keeps -----

  /** Slot t of rule r, once queued or done, is out of reach of a later tick: the
      rule was first seen after it, or it is fired, or waits for a job of
      waiting, or it is older than what the engine forgets. */
  predicate OutOfReach(w: World, r: string, t: int, waiting: set<string>, forgotten: bool) {
    && t <= w.clock
    && (if r !in w.rules then t < w.clock
        else
          var rs := w.rules[r];
          || t < rs.firstSeen
          || (t <= rs.lastSeen
              && (|| (Slot(t) in rs.pending && rs.pending[Slot(t)] in waiting)
                  || (forgotten && (Slot(t) in rs.fired || t + FORGET_AFTER < w.clock)))))
  }

  function DoneJobs(w: World): set<string> {
    set id | id in w.jobs && w.jobs[id].status == Done
  }

  ghost predicate WinSafe(w: World, r: string, t: int) {
    OutOfReach(w, r, t, DoneJobs(w), true)
  }

  /** A job at work holds its slots: they wait for it, and none was won. */
  ghost predicate JobSafe(w: World, id: string) {
    id in w.jobs && w.jobs[id].status == Live ==>
      forall t :: Slot(t) in w.jobs[id].keys ==>
        OutOfReach(w, w.jobs[id].rule, t, {id}, false) && (w.jobs[id].rule, Slot(t)) !in w.wins
  }

  ghost predicate RuleSafe(w: World, r: string) {
    r in w.rules ==>
      var rs := w.rules[r];
      && rs.firstSeen <= rs.lastSeen <= w.clock
      && (forall t :: Slot(t) in rs.fired ==> t <= rs.fired[Slot(t)])
  }

  /** A job fires one slot, or rows; one that ended, ended after its slot. */
  ghost predicate KeysSafe(w: World, id: string) {
    id in w.jobs ==>
      && ((exists t :: w.jobs[id].keys == [Slot(t)]) || (forall k :: k in w.jobs[id].keys ==> k.RowKey?))
      && (w.jobs[id].status != Live ==> forall t :: Slot(t) in w.jobs[id].keys ==> t <= w.jobs[id].finished)
  }

  /** Two jobs at work never share a slot of a rule. */
  ghost predicate Apart(w: World, a: string, b: string) {
    a in w.jobs && b in w.jobs && a != b && w.jobs[a].status == Live && w.jobs[b].status == Live
    && w.jobs[a].rule == w.jobs[b].rule ==>
      forall t :: !(Slot(t) in w.jobs[a].keys && Slot(t) in w.jobs[b].keys)
  }

  ghost predicate OnceEach(wins: seq<(string, Key)>) {
    forall i, j :: 0 <= i < j < |wins| && wins[i].1.Slot? ==> wins[i] != wins[j]
  }

  ghost predicate Inv(w: World) {
    && (forall r, t :: (r, Slot(t)) in w.wins ==> WinSafe(w, r, t))
    && (forall id :: JobSafe(w, id))
    && (forall r :: RuleSafe(w, r))
    && (forall id :: KeysSafe(w, id))
    && (forall a, b :: Apart(w, a, b))
    && OnceEach(w.wins)
  }

  // ----- A tick -----

  /** rs is s0 with more fired and more pending, and nothing of it lost. */
  ghost predicate Extends(s0: RuleState, rs: RuleState) {
    && rs.firstSeen == s0.firstSeen && rs.lastSeen == s0.lastSeen
    && (forall k :: k in s0.pending ==> k in rs.pending && rs.pending[k] == s0.pending[k])
    && (forall t :: Slot(t) in s0.fired ==> Slot(t) in rs.fired)
    && (forall t :: Slot(t) in rs.fired ==> t <= rs.fired[Slot(t)])
  }

  /** A tick that reads a rule, before what its action adds. */
  lemma ReadKeeps(w: World, rule: string, now: int, rs: RuleState)
    requires Inv(w) && w.clock <= now && Extends(Seen(w.rules, rule, now), rs)
    ensures Inv(w.(rules := w.rules[rule := rs], clock := now))
  {
    var w2 := w.(rules := w.rules[rule := rs], clock := now);
    assert RuleSafe(w, rule);
    forall r, t | (r, Slot(t)) in w2.wins ensures WinSafe(w2, r, t) { assert WinSafe(w, r, t); }
    forall id ensures JobSafe(w2, id) { assert JobSafe(w, id); }
    forall r ensures RuleSafe(w2, r) { assert RuleSafe(w, r); }
    forall id ensures KeysSafe(w2, id) { assert KeysSafe(w, id); }
    forall a, b ensures Apart(w2, a, b) { assert Apart(w, a, b); }
  }

  /** A slot the engine finds free, its last one, was never won, and no job
      at work holds it. */
  lemma FreeSlotIsNew(w: World, rule: string, schedule: Schedule, now: int)
    requires Inv(w) && w.clock <= now && Valid(schedule)
    requires var slot := LastSlot(schedule, now);
             var rs := Seen(w.rules, rule, now);
             rs.firstSeen <= slot && Free(rs, Slot(slot))
    ensures var slot := LastSlot(schedule, now);
            && slot <= now && (rule, Slot(slot)) !in w.wins
            && forall id :: id in w.jobs && w.jobs[id].status == Live && w.jobs[id].rule == rule ==> Slot(slot) !in w.jobs[id].keys
  {
    LastSlotIsLast(schedule, now);
    var slot := LastSlot(schedule, now);
    assert (rule, Slot(slot)) in w.wins ==> WinSafe(w, rule, slot);
    forall id | id in w.jobs && w.jobs[id].status == Live && w.jobs[id].rule == rule
      ensures Slot(slot) !in w.jobs[id].keys
    {
      assert JobSafe(w, id);
    }
  }

  lemma WonKeeps(w: World, rule: string, t: int)
    requires Inv(w) && (rule, Slot(t)) !in w.wins && WinSafe(w, rule, t)
    requires forall id :: id in w.jobs && w.jobs[id].status == Live && w.jobs[id].rule == rule ==> Slot(t) !in w.jobs[id].keys
    ensures Inv(w.(wins := w.wins + [(rule, Slot(t))]))
  {
    var w2 := w.(wins := w.wins + [(rule, Slot(t))]);
    forall r, u | (r, Slot(u)) in w2.wins ensures WinSafe(w2, r, u) {
      if (r, Slot(u)) in w.wins { assert WinSafe(w, r, u); }
    }
    forall id ensures JobSafe(w2, id) { assert JobSafe(w, id); }
    forall r ensures RuleSafe(w2, r) { assert RuleSafe(w, r); }
    forall id ensures KeysSafe(w2, id) { assert KeysSafe(w, id); }
    forall a, b ensures Apart(w2, a, b) { assert Apart(w, a, b); }
  }

  lemma {:induction false} TickEveryKeeps(w: World, now: int, rule: string, schedule: Schedule, acting: Acting)
    requires Inv(w) && Enabled(w, TickEvery(now, rule, schedule, acting))
    ensures Inv(Apply(w, TickEvery(now, rule, schedule, acting)))
  {
    var slot := LastSlot(schedule, now);
    var s0 := Seen(w.rules, rule, now);
    var (rs, outcome) := FireEvery(s0, slot, acting, now);
    assert RuleSafe(w, rule);
    match outcome
    case Acted(keys, path) =>
      FreeSlotIsNew(w, rule, schedule, now);
      ReadKeeps(w, rule, now, rs);
      assert WinsOf(rule, [Slot(slot)]) == [(rule, Slot(slot))];
      WonKeeps(w.(rules := w.rules[rule := rs], clock := now), rule, slot);
    case Queued(keys, id) =>
      FreeSlotIsNew(w, rule, schedule, now);
      ReadKeeps(w, rule, now, rs);
      QueuedKeeps(w.(rules := w.rules[rule := rs], clock := now), rule, keys, id);
    case _ =>
      ReadKeeps(w, rule, now, rs);
  }

  /** A new job for keys that wait for it and that nothing else holds. */
  lemma QueuedKeeps(w: World, rule: string, keys: seq<Key>, id: string)
    requires Inv(w) && id !in w.jobs
    requires (exists t :: keys == [Slot(t)]) || (forall k :: k in keys ==> k.RowKey?)
    requires forall t :: Slot(t) in keys ==>
               && OutOfReach(w, rule, t, {id}, false) && (rule, Slot(t)) !in w.wins
               && forall a :: a in w.jobs && w.jobs[a].status == Live && w.jobs[a].rule == rule ==> Slot(t) !in w.jobs[a].keys
    ensures Inv(w.(jobs := w.jobs[id := Job(rule, keys, Live, 0, "")]))
  {
    var w2 := w.(jobs := w.jobs[id := Job(rule, keys, Live, 0, "")]);
    forall r, u | (r, Slot(u)) in w2.wins ensures WinSafe(w2, r, u) { assert WinSafe(w, r, u); }
    forall a ensures JobSafe(w2, a) { assert JobSafe(w, a); }
    forall r ensures RuleSafe(w2, r) { assert RuleSafe(w, r); }
    forall a ensures KeysSafe(w2, a) { assert KeysSafe(w, a); }
    forall a, b ensures Apart(w2, a, b) { assert Apart(w, a, b); }
  }

  lemma DueKeysAreRows(rs: RuleState, rows: seq<Row>, before: int, now: int)
    ensures forall k :: k in KeysOf(Due(rs, rows, before, now)) ==> k.RowKey? && Free(rs, k)
  {
    var due := Due(rs, rows, before, now);
    forall k | k in KeysOf(due) ensures k.RowKey? && Free(rs, k) {
      var i :| 0 <= i < |due| && KeysOf(due)[i] == k;
      assert due[i] in due;
    }
  }

  lemma ActExtends(rs: RuleState, keys: seq<Key>, acting: Acting, now: int)
    requires forall t :: Slot(t) in rs.fired ==> t <= rs.fired[Slot(t)]
    requires forall k :: k in keys ==> k.RowKey? && Free(rs, k)
    ensures var (after, outcome) := Act(rs, keys, acting, now);
            && Extends(rs, after)
            && (outcome.Acted? || outcome.Queued? ==> outcome.keys == keys)
            && (outcome.Queued? ==> acting == Queue(Ok(outcome.job)))
  {
  }

  lemma RowsReadExtends(rs: RuleState, rows: seq<Row>, now: int)
    requires forall t :: Slot(t) in rs.fired ==> t <= rs.fired[Slot(t)]
    ensures Extends(rs, RowsRead(rs, rows, now))
  {
  }

  lemma FireDueExtends(s0: RuleState, rows: Result<seq<Row>>, before: int, acting: Acting, now: int)
    requires forall t :: Slot(t) in s0.fired ==> t <= s0.fired[Slot(t)]
    ensures var (rs, outcome) := FireDue(s0, rows, before, acting, now);
            && Extends(s0, rs)
            && (outcome.Acted? || outcome.Queued? ==> forall k :: k in outcome.keys ==> k.RowKey?)
            && (outcome.Queued? ==> acting == Queue(Ok(outcome.job)))
  {
    match rows
    case Err(msg) =>
    case Ok(all) =>
      var after := RowsRead(s0, all, now);
      var due := Due(after, CapRows(all).0, before, now);
      RowsReadExtends(s0, all, now);
      DueKeysAreRows(after, CapRows(all).0, before, now);
      ActExtends(after, KeysOf(due), acting, now);
      assert forall r1, r2, r3 :: Extends(r1, r2) && Extends(r2, r3) ==> Extends(r1, r3);
  }

  lemma TickDueKeeps(w: World, now: int, rule: string, rows: Result<seq<Row>>, before: int, acting: Acting)
    requires Inv(w) && Enabled(w, TickDue(now, rule, rows, before, acting))
    ensures Inv(Apply(w, TickDue(now, rule, rows, before, acting)))
  {
    assert RuleSafe(w, rule);
    FireDueExtends(Seen(w.rules, rule, now), rows, before, acting, now);
    var (rs, outcome) := FireDue(Seen(w.rules, rule, now), rows, before, acting, now);
    ReadKeeps(w, rule, now, rs);
    var w2 := w.(rules := w.rules[rule := rs], clock := now);
    match outcome
    case Acted(keys, path) => RowsWonKeep(w2, rule, keys);
    case Queued(keys, id) => QueuedKeeps(w2, rule, keys, id);
    case _ =>
  }

  lemma RowsWonKeep(w: World, rule: string, keys: seq<Key>)
    requires Inv(w) && forall k :: k in keys ==> k.RowKey?
    ensures Inv(w.(wins := w.wins + WinsOf(rule, keys)))
  {
    var w2 := w.(wins := w.wins + WinsOf(rule, keys));
    forall r, u ensures (r, Slot(u)) in w2.wins <==> (r, Slot(u)) in w.wins {
      assert forall i :: 0 <= i < |keys| ==> keys[i] in keys;
    }
    forall r, u | (r, Slot(u)) in w2.wins ensures WinSafe(w2, r, u) { assert WinSafe(w, r, u); }
    forall a ensures JobSafe(w2, a) { assert JobSafe(w, a); }
    forall r ensures RuleSafe(w2, r) { assert RuleSafe(w, r); }
    forall a ensures KeysSafe(w2, a) { assert KeysSafe(w, a); }
    forall a, b ensures Apart(w2, a, b) { assert Apart(w, a, b); }
    forall i, j | 0 <= i < j < |w2.wins| && w2.wins[i].1.Slot? ensures w2.wins[i] != w2.wins[j] {
      assert forall i :: 0 <= i < |keys| ==> keys[i] in keys;
    }
  }

  // ----- The other events -----

  lemma PruneKeeps(w: World, now: int)
    requires Inv(w) && w.clock <= now
    ensures Inv(Apply(w, Prune(now)))
  {
    var w2 := Apply(w, Prune(now));
    forall r, u | (r, Slot(u)) in w2.wins ensures WinSafe(w2, r, u) { assert WinSafe(w, r, u) && RuleSafe(w, r); }
    forall a ensures JobSafe(w2, a) {
      assert JobSafe(w, a);
      if a in w.jobs { assert RuleSafe(w, w.jobs[a].rule); }
    }
    forall r ensures RuleSafe(w2, r) { assert RuleSafe(w, r); }
    forall a ensures KeysSafe(w2, a) { assert KeysSafe(w, a); }
    forall a, b ensures Apart(w2, a, b) { assert Apart(w, a, b); }
  }

  lemma BrokenKeeps(w: World, now: int, id: string, error: string)
    requires Inv(w) && Enabled(w, JobEnds(now, id, false, error))
    ensures Inv(Apply(w, JobEnds(now, id, false, error)))
  {
    var w2 := Apply(w, JobEnds(now, id, false, error));
    assert JobSafe(w, id);
    forall r, u | (r, Slot(u)) in w2.wins ensures WinSafe(w2, r, u) { assert WinSafe(w, r, u) && RuleSafe(w, r); }
    forall a ensures JobSafe(w2, a) { assert JobSafe(w, a); }
    forall r ensures RuleSafe(w2, r) { assert RuleSafe(w, r); }
    forall a ensures KeysSafe(w2, a) { assert KeysSafe(w, a); }
    forall a, b ensures Apart(w2, a, b) { assert Apart(w, a, b); }
  }

  /** A job that succeeds was alone with its slot. */
  lemma DoneKeeps(w: World, now: int, id: string, error: string)
    requires Inv(w) && Enabled(w, JobEnds(now, id, true, error))
    ensures Inv(Apply(w, JobEnds(now, id, true, error)))
  {
    var job := w.jobs[id].(status := Done, finished := now, error := error);
    var w1 := w.(jobs := w.jobs[id := job], clock := now);
    assert JobSafe(w, id) && KeysSafe(w, id);
    forall r, u | (r, Slot(u)) in w1.wins ensures WinSafe(w1, r, u) { assert WinSafe(w, r, u) && RuleSafe(w, r); }
    forall a ensures JobSafe(w1, a) { assert JobSafe(w, a); }
    forall r ensures RuleSafe(w1, r) { assert RuleSafe(w, r); }
    forall a ensures KeysSafe(w1, a) { assert KeysSafe(w, a); }
    forall a, b ensures Apart(w1, a, b) { assert Apart(w, a, b); }
    if t :| job.keys == [Slot(t)] {
      assert Slot(t) in job.keys;
      forall a | a in w1.jobs && w1.jobs[a].status == Live && w1.jobs[a].rule == job.rule
        ensures Slot(t) !in w1.jobs[a].keys
      {
        assert Apart(w, a, id);
      }
      assert id in DoneJobs(w1);
      WonKeeps(w1, job.rule, t);
      assert WinsOf(job.rule, job.keys) == [(job.rule, Slot(t))];
    } else {
      RowsWonKeep(w1, job.rule, job.keys);
    }
  }

  lemma SettleKeeps(w: World, id: string)
    requires Inv(w) && Enabled(w, Settle(id))
    ensures Inv(Apply(w, Settle(id)))
  {
    var w2 := Apply(w, Settle(id));
    var job := w.jobs[id];
    assert KeysSafe(w, id);
    forall r, u | (r, Slot(u)) in w2.wins ensures WinSafe(w2, r, u) { assert WinSafe(w, r, u); }
    forall a ensures JobSafe(w2, a) { assert JobSafe(w, a); }
    forall r ensures RuleSafe(w2, r) { assert RuleSafe(w, r); }
    forall a ensures KeysSafe(w2, a) { assert KeysSafe(w, a); }
    forall a, b ensures Apart(w2, a, b) { assert Apart(w, a, b); }
  }

  lemma LoseKeeps(w: World, id: string)
    requires Inv(w) && Enabled(w, Lose(id))
    ensures Inv(Apply(w, Lose(id)))
  {
    var w2 := Apply(w, Lose(id));
    forall r, u | (r, Slot(u)) in w2.wins ensures WinSafe(w2, r, u) {
      assert WinSafe(w, r, u);
      if r in w.rules && Slot(u) in w.rules[r].pending {
        assert w.rules[r].pending[Slot(u)] in w.rules[r].pending.Values;
      }
    }
    forall a ensures JobSafe(w2, a) { assert JobSafe(w, a); }
    forall r ensures RuleSafe(w2, r) { assert RuleSafe(w, r); }
    forall a ensures KeysSafe(w2, a) { assert KeysSafe(w, a); }
    forall a, b ensures Apart(w2, a, b) { assert Apart(w, a, b); }
  }

  lemma FreeLostKeeps(w: World, id: string)
    requires Inv(w) && Enabled(w, FreeLost(id))
    ensures Inv(Apply(w, FreeLost(id)))
  {
    var w2 := Apply(w, FreeLost(id));
    forall r, u | (r, Slot(u)) in w2.wins ensures WinSafe(w2, r, u) { assert WinSafe(w, r, u); }
    forall a ensures JobSafe(w2, a) { assert JobSafe(w, a); }
    forall r ensures RuleSafe(w2, r) { assert RuleSafe(w, r); }
    forall a ensures KeysSafe(w2, a) { assert KeysSafe(w, a); }
    forall a, b ensures Apart(w2, a, b) { assert Apart(w, a, b); }
  }

  lemma EventKeeps(w: World, e: Event)
    requires Inv(w) && Enabled(w, e)
    ensures Inv(Apply(w, e))
  {
    match e
    case TickEvery(now, rule, schedule, acting) => TickEveryKeeps(w, now, rule, schedule, acting);
    case TickDue(now, rule, rows, before, acting) => TickDueKeeps(w, now, rule, rows, before, acting);
    case Prune(now) => PruneKeeps(w, now);
    case JobEnds(now, id, ok, error) =>
      if ok { DoneKeeps(w, now, id, error); } else { BrokenKeeps(w, now, id, error); }
    case Settle(id) => SettleKeeps(w, id);
    case Lose(id) => LoseKeeps(w, id);
    case FreeLost(id) => FreeLostKeeps(w, id);
  }

  lemma {:induction false} RunKeeps(w: World, es: seq<Event>)
    requires Inv(w) && Runs(w, es)
    ensures Inv(After(w, es))
    decreases |es|
  {
    if es != [] {
      EventKeeps(w, es[0]);
      RunKeeps(Apply(w, es[0]), es[1..]);
    }
  }

  /** In any run, with the actions at once or on the runner, however the jobs
      end and are settled, whatever is pruned and however long a rule is away, no
      slot of a rule is acted on with success twice. */
  lemma EachSlotOnce(w0: World, es: seq<Event>, i: nat, j: nat)
    requires Init(w0) && Runs(w0, es)
    requires var wins := After(w0, es).wins; i < j < |wins| && wins[i].1.Slot?
    ensures After(w0, es).wins[i] != After(w0, es).wins[j]
  {
    forall id ensures JobSafe(w0, id) && KeysSafe(w0, id) {}
    RunKeeps(w0, es);
  }
}
