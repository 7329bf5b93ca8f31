/** The engine's state as it is changed in place (internal/automation: engine.go,
    runner.go, store.go). */
module AutomationEngine {
  import opened Text
  import opened Schedules
  import opened Automation
  import opened AutomationSettle

  /** e tells how job id ended: done, with the rows of the keys that waited for it, or why
      not. */
  ghost predicate Tells(e: Entry, rs: RuleState, id: string, job: Job) {
    && e.job == id && e.rule == job.rule && e.at == job.finished
    && e.error == (if job.status == Done then "" else job.error)
    && forall p: string :: p in e.rows <==> job.status == Done && RowWaits(rs, id, job, p)
  }

  /** The row at p waits for the job. */
  predicate RowWaits(rs: RuleState, id: string, job: Job, p: string) {
    exists k :: k in job.keys && k in rs.pending && rs.pending[k] == id && k.RowKey? && k.path == p
  }

  /** An entry of the log: an execution of a rule, or its failure. */
  datatype Entry = Entry(at: int, rule: string, path: string, rows: seq<string>, error: string, job: string)

  /** The last MAX_LOG entries. */
  function Capped(log: seq<Entry>): (r: seq<Entry>)
    ensures |r| <= MAX_LOG
  {
    if |log| > MAX_LOG then log[|log| - MAX_LOG..] else log
  }

  /** What the runner's store answers for a job. Reconcile asks of each waiting job once,
      so its answers, each read at its own moment, are a map. */
  datatype Lookup = NotFound | Unreadable | Found(job: Job)

  class Engine {
    var rules: map<string, RuleState>
    var log: seq<Entry>

    constructor ()
      ensures rules == map[] && log == []
    {
      rules, log := map[], [];
    }

    method LogRun(e: Entry)
      modifies this`log
      ensures log == Capped(old(log) + [e])
      ensures log != [] && log[|log| - 1] == e
      ensures |log| == if |old(log)| < MAX_LOG then |old(log)| + 1 else MAX_LOG
      ensures |log| <= |old(log)| + 1 && log[..|log| - 1] == old(log)[|old(log)| + 1 - |log|..]
    {
      log := log + [e];
      if |log| > MAX_LOG {
        log := log[|log| - MAX_LOG..];
      }
    }

    /** Drops the rules unseen for long, and the slots fired long ago of the others. */
    method Prune(now: int)
      modifies this`rules
      ensures rules == Pruned(old(rules), now)
    {
      var todo := rules.Keys;
      while todo != {}
        invariant todo <= old(rules).Keys && rules.Keys <= old(rules).Keys
        invariant forall r :: r in todo ==> r in rules && rules[r] == old(rules)[r]
        invariant forall r :: r in old(rules) && r !in todo ==>
                    && (r in rules <==> now - old(rules)[r].lastSeen <= FORGET_AFTER)
                    && (r in rules ==> rules[r] == PrunedRule(old(rules)[r], now))
        decreases |todo|
      {
        var r :| r in todo;
        if now - rules[r].lastSeen > FORGET_AFTER {
          rules := rules - {r};
        } else {
          var rs := PruneRule(rules[r], now);
          rules := rules[r := rs];
        }
        todo := todo - {r};
      }
    }

    /** Records how a job ended, and says whether the state changed. The log
        tells a success, and a failure the rule did not have already. */
    method Settle(id: string, job: Job) returns (changed: bool)
      modifies this
      ensures rules == SettledRules(old(rules), id, job)
      ensures changed <==> job.rule in old(rules) && Mine(old(rules)[job.rule], id, job) != {}
      ensures if changed && (job.status == Done || old(rules)[job.rule].error != job.error)
              then log != [] && log == Capped(old(log) + [log[|log| - 1]])
                 && Tells(log[|log| - 1], old(rules)[job.rule], id, job)
              else log == old(log)
    {
      if job.rule !in rules {
        return false;
      }
      var rs := rules[job.rule];
      var mine, pending := TakeMine(rs, id, job);
      if mine == [] {
        assert Mine(rs, id, job) == {};
        return false;
      }
      assert mine[0] in Mine(rs, id, job);
      if job.status == Done {
        var fired, rows := FireMine(rs.fired, mine, job.finished);
        assert (map k | k in mine :: job.finished) == (map k | k in Mine(rs, id, job) :: job.finished);
        rules := rules[job.rule := rs.(pending := pending, fired := fired, error := "")];
        LogRun(Entry(job.finished, job.rule, "", rows, "", id));
      } else {
        rules := rules[job.rule := rs.(pending := pending, error := job.error)];
        if rs.error != job.error {
          LogRun(Entry(job.finished, job.rule, "", [], job.error, id));
        }
      }
      return true;
    }

    static method FireMine(before: map<Key, int>, mine: seq<Key>, at: int) returns (fired: map<Key, int>, rows: seq<string>)
      ensures fired == before + map k | k in mine :: at
      ensures forall p :: p in rows <==> exists k :: k in mine && k.RowKey? && k.path == p
    {
      fired, rows := before, [];
      for i := 0 to |mine|
        invariant fired == before + map k | k in mine[..i] :: at
        invariant forall p :: p in rows <==> exists k :: k in mine[..i] && k.RowKey? && k.path == p
      {
        assert mine[..i + 1] == mine[..i] + [mine[i]];
        fired := fired[mine[i] := at];
        if mine[i].RowKey? {
          rows := rows + [mine[i].path];
        }
      }
      assert mine[..|mine|] == mine;
    }

    /** fire, for an every rule: the slot, then the action unless the slot is
        before the rule, fired or queued. */
    method FireSlot(key: string, schedule: Schedule, acting: Acting, now: int) returns (outcome: Outcome)
      requires Valid(schedule)
      modifies this`rules
      ensures var (rs, o) := FireEvery(Seen(old(rules), key, now), LastSlot(schedule, now), acting, now);
              rules == old(rules)[key := rs] && outcome == o
    {
      var rs := if key in rules then rules[key].(lastSeen := now) else RuleState(now, now, map[], map[], "", "");
      var slot := Last(schedule, now);
      outcome := Quiet;
      if rs.firstSeen <= slot && Slot(slot) !in rs.fired && Slot(slot) !in rs.pending {
        rs, outcome := RunAction(rs, [Slot(slot)], acting, now);
      }
      rules := rules[key := rs];
    }

    /** fire, for a rule on rows. */
    method FireRows(key: string, rows: Result<seq<Row>>, before: int, acting: Acting, now: int) returns (outcome: Outcome)
      modifies this`rules
      ensures var (rs, o) := FireDue(Seen(old(rules), key, now), rows, before, acting, now);
              rules == old(rules)[key := rs] && outcome == o
    {
      var rs := if key in rules then rules[key].(lastSeen := now) else RuleState(now, now, map[], map[], "", "");
      if rows.Err? {
        var failed := Fail(rs, rows.msg);
        rs, outcome := failed.0, failed.1;
        rules := rules[key := rs];
        return;
      }
      var (read, warning) := CapRows(rows.value);
      rs := rs.(warning := warning);
      if warning == "" {
        rs := ForgetRows(rs, read, now);
      }
      var due := DueRows(rs, read, before, now);
      if due == [] {
        rs, outcome := rs.(error := ""), Quiet;
      } else {
        rs, outcome := RunAction(rs, KeysOf(due), acting, now);
      }
      rules := rules[key := rs];
    }

    /** Takes the keys that wait for the job id out of what waits. */
    static method TakeMine(rs: RuleState, id: string, job: Job) returns (mine: seq<Key>, pending: map<Key, string>)
      ensures forall k :: k in mine <==> k in Mine(rs, id, job)
      ensures pending == rs.pending - Mine(rs, id, job)
    {
      mine, pending := [], rs.pending;
      for i := 0 to |job.keys|
        invariant forall k :: k in mine <==> k in job.keys[..i] && k in rs.pending && rs.pending[k] == id
        invariant pending == rs.pending - (set k | k in mine)
      {
        var k := job.keys[i];
        if k in pending && pending[k] == id {
          mine := mine + [k];
          pending := pending - {k};
        }
      }
      assert (set k | k in mine) == Mine(rs, id, job);
    }

    /** The jobs something waits for, each once. */
    method Waiting() returns (ids: set<string>)
      ensures AreWaiting(ids, rules)
    {
      ids := set r, k | r in rules && k in rules[r].pending :: rules[r].pending[k];
    }

    /** Looks a waiting job up: frees what waits for it when the runner does not
        know it, settles it when it ended. The rest of todo stays to look up. */
    method LookUp(store: map<string, Lookup>, id: string, ghost rules0: map<string, RuleState>, ghost ids: set<string>, ghost todo: set<string>)
      requires AllButReconciled(rules0, rules, store, ids, todo) && id in todo && todo <= ids
      modifies this
      ensures AllButReconciled(rules0, rules, store, ids, todo - {id})
    {
      ghost var before := rules;
      if Gone(store, id) {
        rules := FreedRules(rules, id);
      } else if Ended(store, id) {
        var _ := Settle(id, store[id].job);
      }
      ReconcileStep(rules0, before, rules, store, ids, todo, id);
    }

    /** Settles the waiting jobs that ended, and frees the keys of those the
        runner does not know, in whatever order the ids come. */
    method Reconcile(store: map<string, Lookup>)
      modifies this
      ensures Reconciled(old(rules), rules, store)
    {
      var ids := Waiting();
      LookUpAll(store, ids);
      EachReconciled(old(rules), rules, store, ids);
    }

    method LookUpAll(store: map<string, Lookup>, ids: set<string>)
      modifies this
      ensures AllButReconciled(old(rules), rules, store, ids, {})
    {
      var todo := ids;
      ghost var rules0 := rules;
      NothingLookedUp(rules, store, ids);
      while todo != {}
        invariant todo <= ids
        invariant AllButReconciled(rules0, rules, store, ids, todo)
        decreases |todo|
      {
        var id :| id in todo;
        LookUp(store, id, rules0, ids, todo);
        todo := todo - {id};
      }
    }
  }

  method MarkEach<V>(before: map<Key, V>, keys: seq<Key>, value: V) returns (after: map<Key, V>)
    ensures after == before + map k | k in keys :: value
  {
    after := before;
    for i := 0 to |keys|
      invariant after == before + map k | k in keys[..i] :: value
    {
      after := after[keys[i] := value];
      assert keys[..i + 1] == keys[..i] + [keys[i]];
    }
    assert keys[..|keys|] == keys;
  }

  /** Acts at once, or queues the action, and marks its keys one by one. */
  method RunAction(rs: RuleState, keys: seq<Key>, acting: Acting, now: int) returns (after: RuleState, outcome: Outcome)
    ensures (after, outcome) == Act(rs, keys, acting, now)
  {
    match acting
    case Queue(Ok(job)) =>
      var pending := MarkEach(rs.pending, keys, job);
      after, outcome := rs.(pending := pending), Queued(keys, job);
    case AtOnce(Ok(path)) =>
      var fired := MarkEach(rs.fired, keys, now);
      after, outcome := rs.(fired := fired, error := ""), Acted(keys, path);
    case Queue(Err(msg)) =>
      var failed := Fail(rs, "queue the action: " + msg);
      after, outcome := failed.0, failed.1;
    case AtOnce(Err(msg)) =>
      var failed := Fail(rs, msg);
      after, outcome := failed.0, failed.1;
  }

  lemma ComeInSnoc(rows: seq<Row>, before: int, now: int, i: nat)
    requires i < |rows|
    ensures ComeIn(rows[..i + 1], before, now)
         == ComeIn(rows[..i], before, now)
            + (if rows[i].day.Some? && rows[i].day.value - before <= DayOf(now) then [rows[i]] else [])
  {
    FilterSnoc((row: Row) => row.day.Some? && row.day.value - before <= DayOf(now), rows, i);
  }

  /** comeIn: the rows whose day is within before days of today, or past it. */
  method ComeInRows(rows: seq<Row>, before: int, now: int) returns (come: seq<Row>)
    ensures come == ComeIn(rows, before, now)
  {
    var today := DayOf(now);
    come := [];
    for i := 0 to |rows|
      invariant come == ComeIn(rows[..i], before, now)
    {
      ComeInSnoc(rows, before, now, i);
      if rows[i].day.Some? && today >= rows[i].day.value - before {
        come := come + [rows[i]];
      }
    }
    assert rows[..|rows|] == rows;
  }

  lemma FreeSnoc(rs: RuleState, come: seq<Row>, i: nat)
    requires i < |come|
    ensures FreeRows(rs, come[..i + 1]) == FreeRows(rs, come[..i]) + (if Free(rs, KeyOf(come[i])) then [come[i]] else [])
  {
    FilterSnoc((row: Row) => Free(rs, KeyOf(row)), come, i);
  }

  /** The rows that come in and that nothing fired or queued for their date. */
  method DueRows(rs: RuleState, rows: seq<Row>, before: int, now: int) returns (due: seq<Row>)
    ensures due == Due(rs, rows, before, now)
  {
    var come := ComeInRows(rows, before, now);
    due := [];
    for i := 0 to |come|
      invariant due == FreeRows(rs, come[..i])
    {
      FreeSnoc(rs, come, i);
      if KeyOf(come[i]) !in rs.fired && KeyOf(come[i]) !in rs.pending {
        due := due + [come[i]];
      }
    }
    assert come[..|come|] == come;
  }

  method PruneRule(rs: RuleState, now: int) returns (after: RuleState)
    ensures after == PrunedRule(rs, now)
  {
    var fired, todo := rs.fired, rs.fired.Keys;
    while todo != {}
      invariant todo <= rs.fired.Keys
      invariant fired == map k | k in rs.fired && !(k !in todo && k.Slot? && now - rs.fired[k] > FORGET_AFTER) :: rs.fired[k]
      decreases |todo|
    {
      var k :| k in todo;
      if k.Slot? && now - fired[k] > FORGET_AFTER {
        fired := fired - {k};
      }
      todo := todo - {k};
    }
    after := rs.(fired := fired);
  }

  /** forgetRows: drops the firings, long past, of the rows that are gone. */
  method ForgetRows(rs: RuleState, rows: seq<Row>, now: int) returns (after: RuleState)
    ensures after == WithoutRows(rs, rows, now)
  {
    var keep: set<Key> := {};
    for i := 0 to |rows|
      invariant keep == RowKeys(rows[..i])
    {
      keep := keep + {KeyOf(rows[i])};
      assert rows[..i + 1] == rows[..i] + [rows[i]];
    }
    assert rows[..|rows|] == rows;
    var fired, todo := rs.fired, rs.fired.Keys;
    while todo != {}
      invariant todo <= rs.fired.Keys
      invariant fired == map k | k in rs.fired && !(k !in todo && k.RowKey? && k !in keep && now - rs.fired[k] > FORGET_AFTER) :: rs.fired[k]
      decreases |todo|
    {
      var k :| k in todo;
      if k.RowKey? && k !in keep && now - fired[k] > FORGET_AFTER {
        fired := fired - {k};
      }
      todo := todo - {k};
    }
    after := rs.(fired := fired);
  }

  // ----- What reconciling leaves -----

  predicate Gone(store: map<string, Lookup>, id: string) { id !in store || store[id].NotFound? }

  predicate Ended(store: map<string, Lookup>, id: string) {
    id in store && store[id].Found? && store[id].job.status != Live
  }

  /** The job id acts for the key k of rule r. */
  predicate ActsFor(store: map<string, Lookup>, id: string, r: string, k: Key)
    requires Ended(store, id)
  {
    store[id].job.rule == r && k in store[id].job.keys
  }

  /** k of rule r still waits, once the jobs done are looked up. */
  predicate StillWaits(rs: RuleState, r: string, store: map<string, Lookup>, done: set<string>, k: Key) {
    && k in rs.pending
    && (rs.pending[k] in done ==>
          && !Gone(store, rs.pending[k])
          && (Ended(store, rs.pending[k]) ==> !ActsFor(store, rs.pending[k], r, k)))
  }

  predicate NewlyFired(rs: RuleState, r: string, store: map<string, Lookup>, done: set<string>, k: Key) {
    && k in rs.pending && rs.pending[k] in done && Ended(store, rs.pending[k])
    && ActsFor(store, rs.pending[k], r, k) && store[rs.pending[k]].job.status == Done
  }

  function PendingNow(rs: RuleState, r: string, store: map<string, Lookup>, done: set<string>): map<Key, string> {
    map k | k in rs.pending && StillWaits(rs, r, store, done, k) :: rs.pending[k]
  }

  function FiredNow(rs: RuleState, r: string, store: map<string, Lookup>, done: set<string>): map<Key, int> {
    rs.fired + map k | k in rs.pending && NewlyFired(rs, r, store, done, k) :: store[rs.pending[k]].job.finished
  }

  predicate PartlyReconciled(rs: RuleState, after: RuleState, r: string, store: map<string, Lookup>, done: set<string>) {
    after.pending == PendingNow(rs, r, store, done) && after.fired == FiredNow(rs, r, store, done)
  }

  /** After reconciling, what waits for a job the runner has lost is free, what
      waits for an ended job of its own is fired if the job succeeded and free if
      not, and everything else is as it was. */
  predicate ReconciledAs(rs: RuleState, after: RuleState, r: string, store: map<string, Lookup>) {
    PartlyReconciled(rs, after, r, store, rs.pending.Values)
  }

  ghost predicate Reconciled(rules0: map<string, RuleState>, rules: map<string, RuleState>, store: map<string, Lookup>) {
    && rules.Keys == rules0.Keys
    && forall r :: r in rules0 ==> ReconciledAs(rules0[r], rules[r], r, store)
  }

  /** ids are the jobs something waits for. */
  ghost predicate AreWaiting(ids: set<string>, rules: map<string, RuleState>) {
    forall id :: id in ids <==> exists r :: r in rules && id in rules[r].pending.Values
  }

  lemma AllLookedUp(rs: RuleState, r: string, store: map<string, Lookup>, done: set<string>)
    requires rs.pending.Values <= done
    ensures PendingNow(rs, r, store, done) == PendingNow(rs, r, store, rs.pending.Values)
    ensures FiredNow(rs, r, store, done) == FiredNow(rs, r, store, rs.pending.Values)
  {
    forall k | k in rs.pending ensures rs.pending[k] in rs.pending.Values && rs.pending[k] in done {}
    assert forall k :: StillWaits(rs, r, store, done, k) <==> StillWaits(rs, r, store, rs.pending.Values, k);
    assert forall k :: NewlyFired(rs, r, store, done, k) <==> NewlyFired(rs, r, store, rs.pending.Values, k);
  }

  ghost predicate AllReconciled(rules0: map<string, RuleState>, rules: map<string, RuleState>,
                                store: map<string, Lookup>, done: set<string>) {
    && rules.Keys == rules0.Keys
    && forall r :: r in rules0 ==> PartlyReconciled(rules0[r], rules[r], r, store, done)
  }

  /** All of ids but todo are looked up. */
  ghost predicate AllButReconciled(rules0: map<string, RuleState>, rules: map<string, RuleState>,
                                   store: map<string, Lookup>, ids: set<string>, todo: set<string>) {
    AllReconciled(rules0, rules, store, ids - todo)
  }

  lemma NothingLookedUp(rules: map<string, RuleState>, store: map<string, Lookup>, ids: set<string>)
    ensures AllButReconciled(rules, rules, store, ids, ids)
  {
    assert ids - ids == {};
    forall r | r in rules ensures PartlyReconciled(rules[r], rules[r], r, store, {}) {
      assert forall k :: StillWaits(rules[r], r, store, {}, k) <==> k in rules[r].pending;
      assert forall k :: !NewlyFired(rules[r], r, store, {}, k);
    }
  }

  function LookedUp(rules: map<string, RuleState>, store: map<string, Lookup>, id: string): map<string, RuleState> {
    if Gone(store, id) then FreedRules(rules, id)
    else if Ended(store, id) then SettledRules(rules, id, store[id].job)
    else rules
  }

  lemma EachReconciled(rules0: map<string, RuleState>, rules: map<string, RuleState>, store: map<string, Lookup>, ids: set<string>)
    requires AllButReconciled(rules0, rules, store, ids, {})
    requires AreWaiting(ids, rules0)
    ensures Reconciled(rules0, rules, store)
  {
    assert ids - {} == ids;
    forall r | r in rules0 ensures ReconciledAs(rules0[r], rules[r], r, store) {
      assert PartlyReconciled(rules0[r], rules[r], r, store, ids);
      AllLookedUp(rules0[r], r, store, ids);
    }
  }

  lemma ReconcileStep(rules0: map<string, RuleState>, before: map<string, RuleState>, after: map<string, RuleState>,
                      store: map<string, Lookup>, ids: set<string>, todo: set<string>, id: string)
    requires AllButReconciled(rules0, before, store, ids, todo) && id in todo && todo <= ids
    requires after == LookedUp(before, store, id)
    ensures AllButReconciled(rules0, after, store, ids, todo - {id})
  {
    assert ids - (todo - {id}) == (ids - todo) + {id};
    ReconcileMore(rules0, before, after, store, ids - todo, id);
  }

  lemma ReconcileMore(rules0: map<string, RuleState>, before: map<string, RuleState>, after: map<string, RuleState>,
                      store: map<string, Lookup>, done: set<string>, id: string)
    requires AllReconciled(rules0, before, store, done) && id !in done
    requires after == LookedUp(before, store, id)
    ensures AllReconciled(rules0, after, store, done + {id})
  {
    forall r | r in rules0 ensures PartlyReconciled(rules0[r], after[r], r, store, done + {id}) {
      assert after[r] == Looked(before[r], r, store, id);
      ReconcileOne(rules0[r], before[r], after[r], r, store, done, id);
    }
  }

  lemma ReconcileOne(rs: RuleState, before: RuleState, after: RuleState, r: string, store: map<string, Lookup>,
                     done: set<string>, id: string)
    requires PartlyReconciled(rs, before, r, store, done) && id !in done
    requires after == Looked(before, r, store, id)
    ensures PartlyReconciled(rs, after, r, store, done + {id})
  {
    var pending := PendingNow(rs, r, store, done + {id});
    forall k ensures (k in after.pending <==> k in pending) && (k in pending ==> after.pending[k] == pending[k]) {
      ReconcilePending(rs, before, r, store, done, id, k);
    }
    assert after.pending == pending;
    SameFired(rs, before, after, r, store, done, id);
  }

  lemma SameFired(rs: RuleState, before: RuleState, after: RuleState, r: string, store: map<string, Lookup>,
                  done: set<string>, id: string)
    requires PartlyReconciled(rs, before, r, store, done) && id !in done
    requires after == Looked(before, r, store, id)
    ensures after.fired == FiredNow(rs, r, store, done + {id})
  {
    var fired := FiredNow(rs, r, store, done + {id});
    forall k ensures (k in after.fired <==> k in fired) && (k in fired ==> after.fired[k] == fired[k]) {
      ReconcileFired(rs, before, r, store, done, id, k);
    }
  }

  /** What looking up one job leaves of the state of rule r. */
  function Looked(before: RuleState, r: string, store: map<string, Lookup>, id: string): RuleState {
    if Gone(store, id) then FreedRule(before, id)
    else if Ended(store, id) && store[id].job.rule == r then Settled(before, id, store[id].job)
    else before
  }

  lemma ReconcilePending(rs: RuleState, before: RuleState, r: string, store: map<string, Lookup>,
                         done: set<string>, id: string, k: Key)
    requires PartlyReconciled(rs, before, r, store, done) && id !in done
    ensures k in Looked(before, r, store, id).pending <==> k in rs.pending && StillWaits(rs, r, store, done + {id}, k)
    ensures k in Looked(before, r, store, id).pending ==> Looked(before, r, store, id).pending[k] == rs.pending[k]
  {
    assert k in before.pending <==> k in rs.pending && StillWaits(rs, r, store, done, k);
    if Ended(store, id) && store[id].job.rule == r {
      assert k in Mine(before, id, store[id].job) <==> k in before.pending && rs.pending[k] == id && k in store[id].job.keys;
    }
  }

  lemma ReconcileFired(rs: RuleState, before: RuleState, r: string, store: map<string, Lookup>,
                       done: set<string>, id: string, k: Key)
    requires PartlyReconciled(rs, before, r, store, done) && id !in done
    ensures var fired := Looked(before, r, store, id).fired;
            if k in rs.pending && NewlyFired(rs, r, store, done + {id}, k)
            then k in fired && fired[k] == store[rs.pending[k]].job.finished
            else (k in fired <==> k in rs.fired) && (k in fired ==> fired[k] == rs.fired[k])
  {
    assert k in before.pending <==> k in rs.pending && StillWaits(rs, r, store, done, k);
    if Ended(store, id) && store[id].job.rule == r {
      assert k in Mine(before, id, store[id].job) <==> k in before.pending && rs.pending[k] == id && k in store[id].job.keys;
    }
  }
}
