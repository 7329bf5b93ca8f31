/** The life of a task: who takes it, what its holder does with it, and how it is
    given back (internal/fleet/task.go; the claims of internal/mcp/tools_task.go and
    internal/pipeline/tasktrigger.go, a person's moves of internal/mcp/board.go). */
module Tasks {
  import opened Text
  import opened Fleet
  import opened BoardNext

  // ----- The states -----

  /** moves: the states a task may go to from each. */
  function MovesFrom(s: Status): set<Status> {
    match s
    case Backlog => {Submitted, Canceled}
    case Submitted => {Working, InputRequired, Canceled, Backlog}
    case Working => {Submitted, InputRequired, Review, Completed, Failed, Canceled}
    case InputRequired => {Submitted, Working, Canceled, Failed}
    case Review => {Working, Submitted, Completed, Failed, Canceled}
    case Completed => {}
    case Failed => {Submitted}
    case Canceled => {Submitted}
    case Other(_) => {}
  }

  predicate CanMove(from: Status, to: Status) { to in MovesFrom(from) }

  // ----- What is done with a task -----

  datatype Refusal = NotHeld | NotThat | NoSuchMove | Waiting

  datatype Result = Ok(task: Task) | Refused(why: Refusal)

  /** A task its holder lets go. */
  function LetGo(t: Task): Task { t.(claimedBy := "", leaseUntil := None) }

  /** Update: the holder moves the task while it works on it. */
  function Update(t: Task, holder: string, to: Status): Result {
    if t.claimedBy != holder then Refused(NotHeld)
    else if to !in {Working, InputRequired, Review, Submitted} then Refused(NotThat)
    else if t.status != to && !CanMove(t.status, to) then Refused(NoSuchMove)
    else Ok((if to == Submitted then LetGo(t) else t).(status := to))
  }

  /** Complete: the holder closes it. */
  function Complete(t: Task, holder: string, to: Status): Result {
    if t.claimedBy != holder then Refused(NotHeld)
    else if to !in {Completed, Failed, Canceled} then Refused(NotThat)
    else if !CanMove(t.status, to) then Refused(NoSuchMove)
    else Ok(LetGo(t).(status := to))
  }

  /** ToReview: the holder leaves it for a person to close. */
  function ToReview(t: Task, holder: string): Result {
    if t.claimedBy != holder then Refused(NotHeld)
    else if !CanMove(t.status, Review) then Refused(NoSuchMove)
    else Ok(LetGo(t).(status := Review))
  }

  predicate LeaseOver(t: Task, now: int) {
    t.claimedBy != "" && t.leaseUntil.Some? && now > t.leaseUntil.value && !Ended(t.status)
  }

  function AfterLease(t: Task, max: int): Status { if t.attempts >= max then Failed else Submitted }

  /** GiveBack, as its callers guard it: only past the lease. */
  function GiveBack(t: Task, max: int, now: int): Result {
    if !LeaseOver(t, now) then Refused(Waiting) else Ok(LetGo(t).(status := AfterLease(t, max)))
  }

  /** An agent takes a ready task, for a lease. */
  function Claim(t: Task, holder: string, until: int, deps: map<string, Task>, now: int): Result {
    if holder == "" || !Ready(t, deps, now) then Refused(Waiting)
    else Ok(t.(status := Working, claimedBy := holder, leaseUntil := Some(until), attempts := t.attempts + 1))
  }

  /** A team's run takes a task of submitted that no lease holds. */
  function Start(t: Task, run: string, now: int): Result {
    if t.status != Submitted || (t.claimedBy != "" && Held(t, now)) then Refused(Waiting)
    else Ok(t.(status := Working, claimedBy := "run-" + run, leaseUntil := None, attempts := t.attempts + 1))
  }

  function Heartbeat(t: Task, holder: string, until: int): Result {
    if holder == "" || t.claimedBy != holder || Ended(t.status) then Refused(NotHeld)
    else Ok(t.(leaseUntil := Some(until)))
  }

  datatype RunEnd = RunFailed | RunCanceled | RunDone

  /** The run that held it ended: open says that it has open sub-tasks. */
  function Release(t: Task, run: string, end: RunEnd, open: bool, max: int): Result {
    if t.claimedBy != "run-" + run then Refused(NotHeld)
    else
      var to :=
        if Ended(t.status) || t.status == InputRequired then t.status
        else if t.status == Review then InputRequired
        else if open then Working
        else if end.RunFailed? then AfterLease(t, max)
        else InputRequired;
      Ok(LetGo(t).(status := to))
  }

  /** A person moves a card to any column of its board. */
  function Drag(t: Task, to: Status): Result {
    Ok((if Ended(to) || to == Backlog || to == Submitted then LetGo(t) else t).(status := to))
  }

  datatype Step =
    | DoClaim(holder: string, until: int, deps: map<string, Task>, now: int)
    | DoStart(run: string, now: int)
    | DoHeartbeat(holder: string, until: int)
    | DoUpdate(holder: string, to: Status)
    | DoComplete(holder: string, to: Status)
    | DoToReview(holder: string)
    | DoGiveBack(max: int, now: int)
    | DoRelease(run: string, end: RunEnd, open: bool, max: int)
    | DoDrag(to: Status)

  function Try(t: Task, s: Step): Result {
    match s
    case DoClaim(holder, until, deps, now) => Claim(t, holder, until, deps, now)
    case DoStart(run, now) => Start(t, run, now)
    case DoHeartbeat(holder, until) => Heartbeat(t, holder, until)
    case DoUpdate(holder, to) => Update(t, holder, to)
    case DoComplete(holder, to) => Complete(t, holder, to)
    case DoToReview(holder) => ToReview(t, holder)
    case DoGiveBack(max, now) => GiveBack(t, max, now)
    case DoRelease(run, end, open, max) => Release(t, run, end, open, max)
    case DoDrag(to) => Drag(t, to)
  }

  /** What is refused changes nothing. */
  function After(t: Task, s: Step): Task { if Try(t, s).Ok? then Try(t, s).task else t }

  /** The task after each step, in turn. */
  function AfterAll(t: Task, steps: seq<Step>): Task {
    if steps == [] then t else After(AfterAll(t, steps[..|steps| - 1]), steps[|steps| - 1])
  }

  /** A person drags a card to a state a board's column may have. */
  predicate Known(s: Step) { s.DoDrag? ==> !s.to.Other? }

  // ----- What every run keeps -----

  /** A held task is at work, waiting or in review; only a held task has a lease. */
  predicate Sound(t: Task) {
    && (t.claimedBy != "" ==> t.status in {Working, InputRequired, Review})
    && (t.leaseUntil.Some? ==> t.claimedBy != "")
    && !t.status.Other?
  }

  lemma StepKeepsSound(t: Task, s: Step)
    requires Sound(t) && Known(s)
    ensures Sound(After(t, s))
  {
    match s
    case DoClaim(holder, until, deps, now) =>
    case DoStart(run, now) =>
    case DoHeartbeat(holder, until) =>
    case DoUpdate(holder, to) =>
    case DoComplete(holder, to) =>
    case DoToReview(holder) =>
    case DoGiveBack(max, now) =>
    case DoRelease(run, end, open, max) =>
    case DoDrag(to) =>
  }

  /** Whatever is done with a task, in whatever order, a held one is working, waiting
      for input or in review. */
  lemma {:induction false} RunKeepsSound(t: Task, steps: seq<Step>)
    requires Sound(t) && forall s :: s in steps ==> Known(s)
    ensures Sound(AfterAll(t, steps))
  {
    if steps != [] {
      RunKeepsSound(t, steps[..|steps| - 1]);
      StepKeepsSound(AfterAll(t, steps[..|steps| - 1]), steps[|steps| - 1]);
    }
  }

  /** Two never hold a task at once: after any run, a step that takes the task finds it
      held by nobody, and a holder keeps it until one lets go: itself, its lease, its
      run's end or a person. */
  lemma OneHolder(t: Task, steps: seq<Step>, s: Step)
    requires Sound(t) && (forall x :: x in steps ==> Known(x)) && Known(s)
    ensures var now := AfterAll(t, steps);
            && ((s.DoClaim? || s.DoStart?) && Try(now, s).Ok? ==> now.claimedBy == "")
            && (now.claimedBy != "" && After(now, s).claimedBy != now.claimedBy ==>
                  && After(now, s).claimedBy == ""
                  && match s
                     case DoUpdate(holder, _) => holder == now.claimedBy
                     case DoComplete(holder, _) => holder == now.claimedBy
                     case DoToReview(holder) => holder == now.claimedBy
                     case DoGiveBack(_, at) => LeaseOver(now, at)
                     case DoRelease(run, _, _, _) => "run-" + run == now.claimedBy
                     case _ => s.DoDrag?)
  {
    RunKeepsSound(t, steps);
  }

  // ----- Which states follow which -----

  /** A step that leaves the table of moves: a person moves a card wherever they like, and
      a run that ends while its task is in review hands it to a person. */
  predicate OutsideMoves(t: Task, s: Step) {
    || (s.DoDrag? && s.to != t.status && !CanMove(t.status, s.to))
    || (s.DoRelease? && t.claimedBy == "run-" + s.run && t.status == Review)
  }

  /** After any run, a step that changes a task's state makes a move of the table,
      exactly when it is not one of those. */
  lemma OnlyMoves(t: Task, steps: seq<Step>, s: Step)
    requires Sound(t) && (forall x :: x in steps ==> Known(x)) && Known(s)
    ensures var now := AfterAll(t, steps);
            now.status == After(now, s).status || CanMove(now.status, After(now, s).status) <==> !OutsideMoves(now, s)
  {
    RunKeepsSound(t, steps);
  }

  /** A card a person closed and put back at work by hand: no move of the table. */
  lemma DragOutside(t: Task)
    requires t.status == Completed
    ensures OutsideMoves(t, DoDrag(Working)) && After(t, DoDrag(Working)).status == Working
  {
  }

  /** The states a task may come to each from: the table read the other way. */
  function MovesInto(s: Status): set<Status> {
    match s
    case Backlog => {Submitted}
    case Submitted => {Backlog, Working, InputRequired, Review, Failed, Canceled}
    case Working => {Submitted, InputRequired, Review}
    case InputRequired => {Submitted, Working}
    case Review => {Working}
    case Completed => {Working, Review}
    case Failed => {Working, InputRequired, Review}
    case Canceled => {Backlog, Submitted, Working, InputRequired, Review}
    case Other(_) => {}
  }

  /** The two readings of the table agree: nothing leaves completed, any open task may be
      canceled, and one closed otherwise is only submitted again. */
  lemma TableIs(from: Status, to: Status)
    ensures CanMove(from, to) <==> from in MovesInto(to)
    ensures !CanMove(from, from)
  {
  }

  // ----- What each step writes -----

  /** Every dependency is a completed task. */
  predicate DepsCompleted(t: Task, deps: map<string, Task>) {
    forall d :: d in t.dependsOn ==> d in deps && deps[d].status == Completed
  }

  /** Where a run that ended leaves the task it held. */
  predicate RunLeaves(t: Task, end: RunEnd, open: bool, max: int, to: Status) {
    match t.status
    case Completed | Failed | Canceled | InputRequired => to == t.status
    case Review => to == InputRequired
    case _ =>
      if open then to == Working
      else if !end.RunFailed? then to == InputRequired
      else (t.attempts >= max && to == Failed) || (t.attempts < max && to == Submitted)
  }

  /** The holder and the lease the step leaves: those of who takes the task, none when it is
      let go, the same otherwise. */
  predicate Hands(t: Task, s: Step, u: Task) {
    match s
    case DoClaim(holder, until, _, _) => u.claimedBy == holder && u.leaseUntil == Some(until)
    case DoStart(run, _) => u.claimedBy == "run-" + run && u.leaseUntil == None
    case DoHeartbeat(_, until) => u.claimedBy == t.claimedBy && u.leaseUntil == Some(until)
    case DoUpdate(_, to) =>
      if to == Submitted then u.claimedBy == "" && u.leaseUntil == None
      else u.claimedBy == t.claimedBy && u.leaseUntil == t.leaseUntil
    case DoDrag(to) =>
      if to in {Completed, Failed, Canceled, Backlog, Submitted} then u.claimedBy == "" && u.leaseUntil == None
      else u.claimedBy == t.claimedBy && u.leaseUntil == t.leaseUntil
    case DoComplete(_, _) | DoToReview(_) | DoGiveBack(_, _) | DoRelease(_, _, _, _) =>
      u.claimedBy == "" && u.leaseUntil == None
  }

  /** A step that is not refused writes the state it names: the one asked for by an update, a
      completion or a person; working for who takes the task; review; failed at the max-th
      attempt and submitted before it for one given back. It counts an attempt only when the
      task is taken, and changes nothing else of it. */
  lemma StepWrites(t: Task, s: Step)
    requires Try(t, s).Ok?
    ensures var u := After(t, s);
            && Hands(t, s, u)
            && u.attempts == (if s.DoClaim? || s.DoStart? then t.attempts + 1 else t.attempts)
            && u.path == t.path && u.board == t.board && u.column == t.column && u.rank == t.rank
            && u.team == t.team && u.dependsOn == t.dependsOn
            && match s
               case DoClaim(_, _, _, _) => u.status == Working
               case DoStart(_, _) => u.status == Working
               case DoHeartbeat(_, _) => u.status == t.status
               case DoUpdate(_, to) => u.status == to
               case DoComplete(_, to) => u.status == to
               case DoToReview(_) => u.status == Review
               case DoGiveBack(max, _) => u.status == if t.attempts >= max then Failed else Submitted
               case DoRelease(_, end, open, max) => RunLeaves(t, end, open, max, u.status)
               case DoDrag(to) => u.status == to
  {
  }

  /** Exactly what each step needs: who takes a task finds it submitted, past any lease and,
      for an agent, with its dependencies completed; its holder's steps are its holder's, to
      a state they may ask for, by a move of the table; a lease is ended once it is over. */
  lemma StepNeeds(t: Task, s: Step)
    ensures Try(t, s).Ok? <==>
              match s
              case DoClaim(holder, _, deps, now) =>
                && holder != "" && t.status == Submitted && DepsCompleted(t, deps)
                && (t.leaseUntil.Some? ==> t.leaseUntil.value <= now)
              case DoStart(_, now) =>
                t.status == Submitted && (t.claimedBy != "" && t.leaseUntil.Some? ==> t.leaseUntil.value <= now)
              case DoHeartbeat(holder, _) =>
                holder != "" && t.claimedBy == holder && t.status !in {Completed, Failed, Canceled}
              case DoUpdate(holder, to) =>
                && t.claimedBy == holder && to in {Working, InputRequired, Review, Submitted}
                && (to == t.status || t.status in MovesInto(to))
              case DoComplete(holder, to) =>
                t.claimedBy == holder && to in {Completed, Failed, Canceled} && t.status in MovesInto(to)
              case DoToReview(holder) => t.claimedBy == holder && t.status == Working
              case DoGiveBack(_, now) =>
                && t.claimedBy != "" && t.leaseUntil.Some? && t.leaseUntil.value < now
                && t.status !in {Completed, Failed, Canceled}
              case DoRelease(run, _, _, _) => t.claimedBy == "run-" + run
              case DoDrag(_) => true
  {
    match s
    case DoUpdate(_, to) => TableIs(t.status, to);
    case DoComplete(_, to) => TableIs(t.status, to);
    case _ =>
  }

  // ----- Attempts -----

  predicate Taking(s: Step) { s.DoClaim? || s.DoStart? }

  /** How often a run takes the task. */
  function Takes(t: Task, steps: seq<Step>): nat {
    if steps == [] then 0
    else
      var n := |steps| - 1;
      Takes(t, steps[..n]) + (if Taking(steps[n]) && Try(AfterAll(t, steps[..n]), steps[n]).Ok? then 1 else 0)
  }

  /** The attempts of a task are the times it was taken. */
  lemma {:induction false} AttemptsCount(t: Task, steps: seq<Step>)
    ensures AfterAll(t, steps).attempts == t.attempts + Takes(t, steps)
  {
    if steps != [] { AttemptsCount(t, steps[..|steps| - 1]); }
  }

  /** Nobody but lost holders: the steps of agents that take the task and never come back. */
  predicate Lost(s: Step, max: int) {
    s.DoClaim? || s.DoHeartbeat? || (s.DoGiveBack? && s.max == max)
  }

  /** A task whose holders are all lost is taken at most max times, and it has failed
      once it was given back for the max-th. */
  lemma {:induction false} LostHolders(t: Task, steps: seq<Step>, max: int)
    requires max >= 1 && t.status == Submitted && t.claimedBy == "" && t.attempts == 0
    requires forall s :: s in steps ==> Lost(s, max)
    ensures var now := AfterAll(t, steps);
            && Takes(t, steps) <= max && now.status in {Submitted, Working, Failed}
            && (now.status == Submitted ==> Takes(t, steps) < max)
            && (now.status == Failed <==> Takes(t, steps) == max && now.claimedBy == "")
            && (now.claimedBy != "" <==> now.status == Working)
  {
    AttemptsCount(t, steps);
    if steps != [] {
      var n := |steps| - 1;
      LostHolders(t, steps[..n], max);
      AttemptsCount(t, steps[..n]);
      assert Lost(steps[n], max);
    }
  }
}
