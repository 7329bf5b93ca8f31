/** What waits is never what is fired, over any run of the engine. */
module AutomationDisjoint {
  import Schedules
  import opened Automation
  import opened AutomationRuns
  import opened AutomationSettle

  /** No rule has a key that both waits and is fired. */
  ghost predicate AllDisjoint(rules: map<string, RuleState>) {
    forall r :: r in rules ==> Disjoint(rules[r])
  }

  lemma TickedDisjoint(rules: map<string, RuleState>, key: string, now: int)
    requires AllDisjoint(rules)
    ensures Disjoint(Seen(rules, key, now))
  {
  }

  lemma SettledDisjoint(rs: RuleState, id: string, job: Job)
    requires Disjoint(rs)
    ensures Disjoint(Settled(rs, id, job))
  {
  }

  lemma EventKeepsDisjoint(w: World, e: Event)
    requires AllDisjoint(w.rules) && Enabled(w, e)
    ensures AllDisjoint(Apply(w, e).rules)
  {
    match e
    case TickEvery(now, rule, schedule, acting) =>
      TickedDisjoint(w.rules, rule, now);
      TickKeepsDisjoint(Seen(w.rules, rule, now), Schedules.LastSlot(schedule, now), Ok([]), 0, acting, now);
    case TickDue(now, rule, rows, before, acting) =>
      TickedDisjoint(w.rules, rule, now);
      TickKeepsDisjoint(Seen(w.rules, rule, now), 0, rows, before, acting, now);
    case Prune(now) =>
      forall r | r in Pruned(w.rules, now) ensures Disjoint(Pruned(w.rules, now)[r]) {
        PruneKeepsDisjoint(w.rules, r, now);
      }
    case Settle(id) =>
      if w.jobs[id].rule in w.rules { SettledDisjoint(w.rules[w.jobs[id].rule], id, w.jobs[id]); }
    case JobEnds(_, _, _, _) =>
    case Lose(_) =>
    case FreeLost(_) =>
  }

  /** In any run no key of a rule waits for a job and is
      fired at the same time. */
  lemma {:induction false} RunKeepsDisjoint(w: World, es: seq<Event>)
    requires AllDisjoint(w.rules) && Runs(w, es)
    ensures AllDisjoint(After(w, es).rules)
    decreases |es|
  {
    if es != [] {
      EventKeepsDisjoint(w, es[0]);
      RunKeepsDisjoint(Apply(w, es[0]), es[1..]);
    }
  }
}
