/** The ends of the jobs reach the same memory from the three places that settle
    them, Ended, Await and reconcile, in any order and any number of times. */
module AutomationSettle {
  import opened Automation

  /** k waits for a job of ids that acts for rule r and fires k. */
  predicate Goes(rs: RuleState, r: string, jobs: map<string, Job>, ids: set<string>, k: Key) {
    && k in rs.pending && rs.pending[k] in ids && rs.pending[k] in jobs
    && jobs[rs.pending[k]].rule == r && k in jobs[rs.pending[k]].keys
  }

  /** What waits, and what is fired, once the jobs ids are settled: said at once,
      without an order. */
  function PendingAfter(rs: RuleState, r: string, jobs: map<string, Job>, ids: set<string>): map<Key, string> {
    map k | k in rs.pending && !Goes(rs, r, jobs, ids, k) :: rs.pending[k]
  }

  function FiredAfter(rs: RuleState, r: string, jobs: map<string, Job>, ids: set<string>): map<Key, int> {
    rs.fired + map k | k in rs.pending && Goes(rs, r, jobs, ids, k) && jobs[rs.pending[k]].status == Done
                 :: jobs[rs.pending[k]].finished
  }

  function SettleAll(rules: map<string, RuleState>, jobs: map<string, Job>, ids: seq<string>): map<string, RuleState>
    requires forall id :: id in ids ==> id in jobs
  {
    if ids == [] then rules
    else SettleAll(SettledRules(rules, ids[0], jobs[ids[0]]), jobs, ids[1..])
  }

  function SetOf(ids: seq<string>): set<string> { set id | id in ids }

  lemma SettleOne(rs: RuleState, r: string, jobs: map<string, Job>, id: string)
    requires id in jobs
    ensures var after := if jobs[id].rule == r then Settled(rs, id, jobs[id]) else rs;
            && after.pending == PendingAfter(rs, r, jobs, {id})
            && after.fired == FiredAfter(rs, r, jobs, {id})
            && after.firstSeen == rs.firstSeen && after.lastSeen == rs.lastSeen && after.warning == rs.warning
  {
    if jobs[id].rule == r {
      assert forall k :: k in Mine(rs, id, jobs[id]) <==> Goes(rs, r, jobs, {id}, k);
    }
  }

  /** Settling a job and then others is settling them all. */
  lemma SettleMore(rs: RuleState, mid: RuleState, r: string, jobs: map<string, Job>, id: string, rest: set<string>)
    requires mid.pending == PendingAfter(rs, r, jobs, {id}) && mid.fired == FiredAfter(rs, r, jobs, {id})
    ensures PendingAfter(mid, r, jobs, rest) == PendingAfter(rs, r, jobs, {id} + rest)
    ensures FiredAfter(mid, r, jobs, rest) == FiredAfter(rs, r, jobs, {id} + rest)
  {
    SettleMorePending(rs, mid, r, jobs, id, rest);
    SettleMoreAll(rs, mid, r, jobs, id, rest);
  }

  lemma SettleMoreAll(rs: RuleState, mid: RuleState, r: string, jobs: map<string, Job>, id: string, rest: set<string>)
    requires mid.pending == PendingAfter(rs, r, jobs, {id}) && mid.fired == FiredAfter(rs, r, jobs, {id})
    ensures FiredAfter(mid, r, jobs, rest) == FiredAfter(rs, r, jobs, {id} + rest)
  {
    forall k ensures var fm, fa := FiredAfter(mid, r, jobs, rest), FiredAfter(rs, r, jobs, {id} + rest);
                     (k in fm <==> k in fa) && (k in fm ==> fm[k] == fa[k])
    {
      SettleMoreFired(rs, mid, r, jobs, id, rest, k);
    }
    SameMaps(FiredAfter(mid, r, jobs, rest), FiredAfter(rs, r, jobs, {id} + rest));
  }

  lemma SameMaps(a: map<Key, int>, b: map<Key, int>)
    requires forall k :: (k in a <==> k in b) && (k in a ==> a[k] == b[k])
    ensures a == b
  {
  }

  lemma SettleMorePending(rs: RuleState, mid: RuleState, r: string, jobs: map<string, Job>, id: string, rest: set<string>)
    requires mid.pending == PendingAfter(rs, r, jobs, {id})
    ensures PendingAfter(mid, r, jobs, rest) == PendingAfter(rs, r, jobs, {id} + rest)
  {
    forall k ensures Goes(rs, r, jobs, {id} + rest, k) <==> Goes(rs, r, jobs, {id}, k) || Goes(mid, r, jobs, rest, k) {}
  }

  lemma SettleMoreFired(rs: RuleState, mid: RuleState, r: string, jobs: map<string, Job>, id: string, rest: set<string>, k: Key)
    requires mid.pending == PendingAfter(rs, r, jobs, {id}) && mid.fired == FiredAfter(rs, r, jobs, {id})
    ensures var fm, fa := FiredAfter(mid, r, jobs, rest), FiredAfter(rs, r, jobs, {id} + rest);
            (k in fm <==> k in fa) && (k in fm ==> fm[k] == fa[k])
  {
    assert k in mid.pending <==> k in rs.pending && !Goes(rs, r, jobs, {id}, k);
    assert Goes(rs, r, jobs, {id} + rest, k) <==> Goes(rs, r, jobs, {id}, k) || Goes(mid, r, jobs, rest, k);
  }

  lemma {:induction false} SettleAllIs(rules: map<string, RuleState>, jobs: map<string, Job>, ids: seq<string>, r: string)
    requires forall id :: id in ids ==> id in jobs
    requires r in rules
    ensures r in SettleAll(rules, jobs, ids)
    ensures SettleAll(rules, jobs, ids)[r].pending == PendingAfter(rules[r], r, jobs, SetOf(ids))
    ensures SettleAll(rules, jobs, ids)[r].fired == FiredAfter(rules[r], r, jobs, SetOf(ids))
  {
    if ids != [] {
      var mid := SettledRules(rules, ids[0], jobs[ids[0]]);
      SettleOne(rules[r], r, jobs, ids[0]);
      assert mid[r].pending == PendingAfter(rules[r], r, jobs, {ids[0]});
      SettleAllIs(mid, jobs, ids[1..], r);
      SettleMore(rules[r], mid[r], r, jobs, ids[0], SetOf(ids[1..]));
      assert SetOf(ids) == {ids[0]} + SetOf(ids[1..]);
    }
  }

  lemma {:induction false} SettleAllKeys(rules: map<string, RuleState>, jobs: map<string, Job>, ids: seq<string>)
    requires forall id :: id in ids ==> id in jobs
    ensures SettleAll(rules, jobs, ids).Keys == rules.Keys
  {
    if ids != [] {
      SettleAllKeys(SettledRules(rules, ids[0], jobs[ids[0]]), jobs, ids[1..]);
    }
  }

  /** Any two orders of the same jobs, each settled once or more, leave the same
      rules with the same keys waiting and the same keys fired at the same times. */
  lemma AnyOrderSettlesTheSame(rules: map<string, RuleState>, jobs: map<string, Job>, one: seq<string>, two: seq<string>)
    requires forall id :: id in one ==> id in jobs
    requires SetOf(one) == SetOf(two)
    ensures forall id :: id in two ==> id in jobs
    ensures var a, b := SettleAll(rules, jobs, one), SettleAll(rules, jobs, two);
            && a.Keys == b.Keys == rules.Keys
            && forall r :: r in rules ==> a[r].pending == b[r].pending && a[r].fired == b[r].fired
  {
    assert forall id :: id in two <==> id in SetOf(two);
    assert forall id :: id in one <==> id in SetOf(one);
    SettleAllKeys(rules, jobs, one);
    SettleAllKeys(rules, jobs, two);
    forall r | r in rules
      ensures SettleAll(rules, jobs, one)[r].pending == SettleAll(rules, jobs, two)[r].pending
      ensures SettleAll(rules, jobs, one)[r].fired == SettleAll(rules, jobs, two)[r].fired
    {
      SettleAllIs(rules, jobs, one, r);
      SettleAllIs(rules, jobs, two, r);
    }
  }

  /** Nothing waits for what is already fired. */
  predicate Disjoint(rs: RuleState) {
    forall k :: k in rs.pending ==> k !in rs.fired
  }

  /** However jobs are settled, a key stops waiting only as fired, when its job
      succeeded, or free to fire again, when it did not; and what waits is never
      what is fired. */
  lemma SettledKeysFireOrFree(rules: map<string, RuleState>, jobs: map<string, Job>, ids: seq<string>, r: string)
    requires forall id :: id in ids ==> id in jobs && jobs[id].status != Live
    requires r in rules && Disjoint(rules[r])
    ensures r in SettleAll(rules, jobs, ids)
    ensures var after := SettleAll(rules, jobs, ids)[r];
            && Disjoint(after)
            && (forall k :: k in after.pending ==> k in rules[r].pending && after.pending[k] == rules[r].pending[k])
            && (forall k :: k in rules[r].fired ==> k in after.fired && after.fired[k] == rules[r].fired[k])
            && (forall k :: k in rules[r].pending && k !in after.pending ==>
                  var id := rules[r].pending[k];
                  && id in ids && k in jobs[id].keys
                  && (if jobs[id].status == Done then k in after.fired && after.fired[k] == jobs[id].finished
                      else Free(after, k)))
  {
    SettleAllIs(rules, jobs, ids, r);
  }

  lemma ActKeepsDisjoint(rs: RuleState, keys: seq<Key>, acting: Acting, now: int)
    requires Disjoint(rs) && forall k :: k in keys ==> Free(rs, k)
    ensures Disjoint(Act(rs, keys, acting, now).0)
  {
  }

  lemma DueAreFree(rs: RuleState, rows: seq<Row>, before: int, now: int)
    ensures forall k :: k in KeysOf(Due(rs, rows, before, now)) ==> Free(rs, k)
  {
    var due := Due(rs, rows, before, now);
    forall k | k in KeysOf(due) ensures Free(rs, k) {
      var i :| 0 <= i < |due| && KeysOf(due)[i] == k;
      assert due[i] in due;
    }
  }

  /** A tick keeps what waits apart from what is fired. */
  lemma TickKeepsDisjoint(rs: RuleState, slot: int, rows: Result<seq<Row>>, before: int, acting: Acting, now: int)
    requires Disjoint(rs)
    ensures Disjoint(FireEvery(rs, slot, acting, now).0)
    ensures Disjoint(FireDue(rs, rows, before, acting, now).0)
  {
    if slot >= rs.firstSeen && Free(rs, Slot(slot)) { ActKeepsDisjoint(rs, [Slot(slot)], acting, now); }
    if rows.Ok? {
      var after := RowsRead(rs, rows.value, now);
      var due := Due(after, CapRows(rows.value).0, before, now);
      DueAreFree(after, CapRows(rows.value).0, before, now);
      if due != [] { ActKeepsDisjoint(after, KeysOf(due), acting, now); }
    }
  }

  lemma PruneKeepsDisjoint(rules: map<string, RuleState>, r: string, now: int)
    requires r in Pruned(rules, now) && Disjoint(rules[r])
    ensures Disjoint(Pruned(rules, now)[r])
  {
  }

  /** A job lost before it is settled is taken as never done: its slot is acted
      on again, whatever the job did. */
  lemma LostJobFiresAgain(rs: RuleState, slot: int, id: string, path: string, now: int)
    requires rs.firstSeen <= slot && Disjoint(rs)
    requires Slot(slot) in rs.pending && rs.pending[Slot(slot)] == id
    ensures FireEvery(rs, slot, AtOnce(Ok(path)), now).1 == Quiet
    ensures FireEvery(FreedRule(rs, id), slot, AtOnce(Ok(path)), now).1 == Acted([Slot(slot)], path)
  {
  }
}
