/** The chains of after in a Gantt (internal/diagram/parse.go, gantt). */
module Gantt {
  import opened Text

  /** A task: its id, "" for none, and the id it comes after, "" for none. */
  datatype Task = Task(id: string, after: string)

  datatype Problem = NoSuchTask(at: nat) | WaitsForItself(at: nat)

  function ByID(tasks: seq<Task>): map<string, Task> {
    if tasks == [] then map[]
    else
      var t := tasks[|tasks| - 1];
      var before := ByID(tasks[..|tasks| - 1]);
      if t.id == "" then before else before[t.id := t]
  }

  /** byID[id].After: "" when there is no such task. */
  function Next(byID: map<string, Task>, id: string): string { if id in byID then byID[id].after else "" }

  /** after followed k times from id. */
  function Follow(byID: map<string, Task>, id: string, k: nat): string {
    if k == 0 then id else Next(byID, Follow(byID, id, k - 1))
  }

  /** Following after from id comes to an end. */
  ghost predicate Ends(byID: map<string, Task>, id: string) { exists k: nat :: Follow(byID, id, k) == "" }

  // ----- Chains -----

  lemma {:induction false} StaysEnded(byID: map<string, Task>, id: string, k: nat, n: nat)
    requires "" !in byID && k <= n && Follow(byID, id, k) == ""
    ensures Follow(byID, id, n) == ""
  {
    if k < n { StaysEnded(byID, id, k, n - 1); }
  }

  /** A chain at the same place twice goes on the same from there. */
  lemma {:induction false} Repeats(byID: map<string, Task>, id: string, j: nat, k: nat, n: nat)
    requires Follow(byID, id, j) == Follow(byID, id, k)
    ensures Follow(byID, id, j + n) == Follow(byID, id, k + n)
  {
    if n > 0 { Repeats(byID, id, j, k, n - 1); }
  }

  lemma {:induction false} Rounds(byID: map<string, Task>, id: string, j: nat, p: nat, q: nat)
    requires Follow(byID, id, j) == Follow(byID, id, j + p)
    ensures Follow(byID, id, j + q * p) == Follow(byID, id, j)
  {
    if q > 0 {
      Rounds(byID, id, j, p, q - 1);
      Repeats(byID, id, j, j + (q - 1) * p, p);
      assert j + (q - 1) * p + p == j + q * p;
    }
  }

  /** A chain that comes back to a task never ends. */
  lemma NeverEnds(byID: map<string, Task>, id: string, j: nat, k: nat)
    requires "" !in byID && j < k && Follow(byID, id, j) == Follow(byID, id, k) != ""
    ensures !Ends(byID, id)
  {
    if Ends(byID, id) {
      var n: nat :| Follow(byID, id, n) == "";
      var p := k - j;
      Rounds(byID, id, j, p, n);
      Grows(n, p);
      StaysEnded(byID, id, n, j + n * p);
    }
  }

  lemma {:induction false} Grows(n: nat, p: nat)
    requires p >= 1
    ensures n <= n * p
  {
    if n > 0 {
      Grows(n - 1, p);
      assert n * p == (n - 1) * p + p;
    }
  }

  // ----- The walk -----

  /** The ids the walk has seen after k steps from t. */
  function SeenAt(byID: map<string, Task>, t: Task, k: nat): set<string> {
    if k == 0 then {t.id} else SeenAt(byID, t, k - 1) + {Follow(byID, t.after, k - 1)}
  }

  lemma {:induction false} SeenIs(byID: map<string, Task>, t: Task, k: nat, id: string)
    requires id in SeenAt(byID, t, k)
    ensures id == t.id || exists j :: 0 <= j < k && Follow(byID, t.after, j) == id
  {
    if k > 0 {
      if id in SeenAt(byID, t, k - 1) {
        SeenIs(byID, t, k - 1, id);
      } else {
        assert Follow(byID, t.after, k - 1) == id;
      }
    }
  }

  /** t is where its id says. */
  predicate Own(byID: map<string, Task>, t: Task) { t.id != "" ==> t.id in byID && byID[t.id] == t }

  /** A walk that meets an id it has seen never ends. */
  lemma Met(byID: map<string, Task>, t: Task, k: nat)
    requires "" !in byID && Own(byID, t)
    requires Follow(byID, t.after, k) != "" && Follow(byID, t.after, k) in SeenAt(byID, t, k)
    ensures !Ends(byID, t.after)
  {
    var cur := Follow(byID, t.after, k);
    SeenIs(byID, t, k, cur);
    if cur == t.id {
      assert Follow(byID, t.after, k + 1) == t.after == Follow(byID, t.after, 0);
      NotAtEnd(byID, t.after, k);
      NeverEnds(byID, t.after, 0, k + 1);
    } else {
      var j :| 0 <= j < k && Follow(byID, t.after, j) == cur;
      NeverEnds(byID, t.after, j, k);
    }
  }

  lemma NotAtEnd(byID: map<string, Task>, id: string, k: nat)
    requires "" !in byID && Follow(byID, id, k) != ""
    ensures id != ""
  {
    if id == "" { StaysEnded(byID, id, 0, k); }
  }

  /** The ids the walk may still meet. */
  function Left(byID: map<string, Task>, seen: set<string>, cur: string): nat {
    if cur == "" then 0 else 1 + |byID.Keys - seen|
  }

  lemma LeftShrinks(byID: map<string, Task>, seen: set<string>, cur: string)
    requires cur != "" && cur !in seen && "" !in byID
    ensures Left(byID, seen + {cur}, Next(byID, cur)) < Left(byID, seen, cur)
  {
    if cur in byID {
      assert byID.Keys - (seen + {cur}) == (byID.Keys - seen) - {cur};
    }
  }

  /** The walk of one task: it always ends, by the ids not yet seen, and says whether the
      chain does. */
  method Walk(byID: map<string, Task>, t: Task) returns (loops: bool)
    requires "" !in byID && Own(byID, t)
    ensures loops <==> !Ends(byID, t.after)
  {
    var seen := {t.id};
    var cur := t.after;
    ghost var k := 0;
    while cur != ""
      invariant cur == Follow(byID, t.after, k) && seen == SeenAt(byID, t, k)
      decreases Left(byID, seen, cur)
    {
      if cur in seen {
        Met(byID, t, k);
        return true;
      }
      LeftShrinks(byID, seen, cur);
      WalkOn(byID, t, k);
      seen := seen + {cur};
      cur := Next(byID, cur);
      k := k + 1;
    }
    return false;
  }

  lemma WalkOn(byID: map<string, Task>, t: Task, k: nat)
    ensures Follow(byID, t.after, k + 1) == Next(byID, Follow(byID, t.after, k))
    ensures SeenAt(byID, t, k + 1) == SeenAt(byID, t, k) + {Follow(byID, t.after, k)}
  {
  }

  // ----- The problems of a Gantt -----

  predicate DistinctIds(tasks: seq<Task>) {
    forall i, j :: 0 <= i < j < |tasks| && tasks[i].id != "" ==> tasks[i].id != tasks[j].id
  }

  lemma {:induction false} OwnIds(tasks: seq<Task>)
    requires DistinctIds(tasks)
    ensures "" !in ByID(tasks) && forall t :: t in tasks ==> Own(ByID(tasks), t)
    ensures forall id :: id in ByID(tasks) ==> ByID(tasks)[id] in tasks && ByID(tasks)[id].id == id
  {
    if tasks != [] {
      var n := |tasks| - 1;
      OwnIds(tasks[..n]);
      assert tasks == tasks[..n] + [tasks[n]];
      forall t | t in tasks ensures Own(ByID(tasks), t) {
        if t != tasks[n] {
          var i :| 0 <= i < n && tasks[i] == t;
          assert t in tasks[..n];
        }
      }
    }
  }

  /** The i-th task comes after no task there is. */
  ghost predicate Missing(tasks: seq<Task>, i: nat) {
    i < |tasks| && tasks[i].after != "" && tasks[i].after !in ByID(tasks)
  }

  /** The i-th task comes after one, and following after from it never ends. */
  ghost predicate Endless(tasks: seq<Task>, i: nat) {
    i < |tasks| && tasks[i].after in ByID(tasks) && !Ends(ByID(tasks), tasks[i].after)
  }

  // ----- The chains, task by task -----

  /** Each task of the chain comes after the next one. */
  predicate IsChain(tasks: seq<Task>, chain: seq<nat>) {
    && (forall j :: 0 <= j < |chain| ==> chain[j] < |tasks|)
    && (forall j :: 0 <= j < |chain| - 1 ==> Links(tasks, chain[j], chain[j + 1]))
  }

  predicate Links(tasks: seq<Task>, i: nat, j: nat) {
    i < |tasks| && j < |tasks| && tasks[i].after != "" && tasks[i].after == tasks[j].id
  }

  ghost predicate HasChain(tasks: seq<Task>, i: nat, n: nat) {
    exists chain: seq<nat> :: |chain| == n + 1 && chain[0] == i && IsChain(tasks, chain)
  }

  lemma {:induction false} ChainFollows(tasks: seq<Task>, chain: seq<nat>, k: nat)
    requires DistinctIds(tasks) && IsChain(tasks, chain) && k < |chain|
    ensures Follow(ByID(tasks), tasks[chain[0]].after, k) == tasks[chain[k]].after
  {
    OwnIds(tasks);
    if k > 0 {
      ChainFollows(tasks, chain, k - 1);
      assert Links(tasks, chain[k - 1], chain[k]);
      assert tasks[chain[k]] in tasks;
    }
  }

  lemma GoesOn(tasks: seq<Task>, chain: seq<nat>, k: nat)
    requires DistinctIds(tasks) && IsChain(tasks, chain) && k + 1 < |chain|
    ensures Follow(ByID(tasks), tasks[chain[0]].after, k) != ""
  {
    ChainFollows(tasks, chain, k);
    assert Links(tasks, chain[k], chain[k + 1]);
  }

  /** A chain from which following after never ends has a next task. */
  lemma NextInChain(tasks: seq<Task>, chain: seq<nat>)
    requires DistinctIds(tasks) && chain != [] && IsChain(tasks, chain) && Endless(tasks, chain[0])
    ensures exists j: nat :: IsChain(tasks, chain + [j])
  {
    OwnIds(tasks);
    var n, byID, after := |chain|, ByID(tasks), tasks[chain[0]].after;
    var last := chain[n - 1];
    ChainFollows(tasks, chain, n - 1);
    assert Follow(byID, after, n - 1) != "" && Follow(byID, after, n) != "";
    assert byID[tasks[last].after] in tasks;
    var j :| 0 <= j < |tasks| && tasks[j] == byID[tasks[last].after];
    assert Links(tasks, last, j);
    LongerChain(tasks, chain, j);
  }

  lemma LongerChain(tasks: seq<Task>, chain: seq<nat>, j: nat)
    requires chain != [] && IsChain(tasks, chain) && Links(tasks, chain[|chain| - 1], j)
    ensures IsChain(tasks, chain + [j])
  {
  }

  lemma {:induction false} ChainOfLength(tasks: seq<Task>, i: nat, n: nat)
    requires DistinctIds(tasks) && Endless(tasks, i)
    ensures HasChain(tasks, i, n)
  {
    if n == 0 {
      assert IsChain(tasks, [i]);
    } else {
      ChainOfLength(tasks, i, n - 1);
      var chain: seq<nat> :| |chain| == n && chain[0] == i && IsChain(tasks, chain);
      NextInChain(tasks, chain);
      var j: nat :| IsChain(tasks, chain + [j]);
    }
  }

  /** Of a Gantt whose ids are distinct: following after from a task never ends exactly when
      there are chains of tasks from it, each after the next, of any length. */
  lemma EndlessIs(tasks: seq<Task>, i: nat)
    requires DistinctIds(tasks) && i < |tasks|
    ensures Endless(tasks, i) <==> forall n: nat :: HasChain(tasks, i, n)
  {
    if Endless(tasks, i) {
      forall n: nat ensures HasChain(tasks, i, n) { ChainOfLength(tasks, i, n); }
    } else if forall n: nat :: HasChain(tasks, i, n) {
      OwnIds(tasks);
      assert HasChain(tasks, i, 1);
      var first: seq<nat> :| |first| == 2 && first[0] == i && IsChain(tasks, first);
      assert Links(tasks, i, first[1]) && tasks[first[1]] in tasks;
      var k: nat :| Follow(ByID(tasks), tasks[i].after, k) == "";
      assert HasChain(tasks, i, k + 1);
      var chain: seq<nat> :| |chain| == k + 2 && chain[0] == i && IsChain(tasks, chain);
      GoesOn(tasks, chain, k);
    }
  }

  /** And a task is missing what it comes after exactly when no task has that id. */
  lemma MissingIs(tasks: seq<Task>, i: nat)
    requires DistinctIds(tasks) && i < |tasks|
    ensures Missing(tasks, i) <==>
              tasks[i].after != "" && forall j :: 0 <= j < |tasks| ==> tasks[j].id != tasks[i].after
  {
    OwnIds(tasks);
    forall j | 0 <= j < |tasks| && tasks[j].id == tasks[i].after && tasks[i].after != ""
      ensures tasks[i].after in ByID(tasks)
    {
      assert tasks[j] in tasks;
    }
  }

  ghost predicate IsProblem(tasks: seq<Task>, p: Problem) {
    match p
    case NoSuchTask(i) => Missing(tasks, i)
    case WaitsForItself(i) => Endless(tasks, i)
  }

  /** The problems of the tasks before n, in their order, one at most of each. */
  ghost predicate Reported(tasks: seq<Task>, problems: seq<Problem>, n: nat) {
    && (forall p :: p in problems <==> p.at < n && IsProblem(tasks, p))
    && (forall i, j :: 0 <= i < j < |problems| ==> problems[i].at < problems[j].at)
  }

  lemma ReportNone(tasks: seq<Task>, problems: seq<Problem>, n: nat)
    requires Reported(tasks, problems, n) && !Missing(tasks, n) && !Endless(tasks, n)
    ensures Reported(tasks, problems, n + 1)
  {
    forall p ensures p in problems <==> p.at < n + 1 && IsProblem(tasks, p) {
      assert p.at == n ==> !IsProblem(tasks, p);
    }
  }

  lemma ReportOne(tasks: seq<Task>, problems: seq<Problem>, n: nat, q: Problem)
    requires Reported(tasks, problems, n) && q.at == n && IsProblem(tasks, q)
    requires !(Missing(tasks, n) && Endless(tasks, n))
    ensures Reported(tasks, problems + [q], n + 1)
  {
    forall p ensures p in problems + [q] <==> p.at < n + 1 && IsProblem(tasks, p) {
      assert p.at == n && IsProblem(tasks, p) ==> p == q;
    }
    forall i, j | 0 <= i < j < |problems + [q]| ensures (problems + [q])[i].at < (problems + [q])[j].at {
      assert problems[i] in problems;
    }
  }

  /** No problem is reported exactly when every after names a task and following after
      from any task comes to an end. */
  method Problems(tasks: seq<Task>) returns (problems: seq<Problem>)
    requires DistinctIds(tasks)
    ensures Reported(tasks, problems, |tasks|)
    ensures problems == [] <==> forall i :: 0 <= i < |tasks| ==> !Missing(tasks, i) && !Endless(tasks, i)
  {
    var byID := ByID(tasks);
    OwnIds(tasks);
    problems := [];
    for i := 0 to |tasks|
      invariant Reported(tasks, problems, i)
    {
      var t := tasks[i];
      if t.after == "" {
        ReportNone(tasks, problems, i);
      } else if t.after !in byID {
        ReportOne(tasks, problems, i, NoSuchTask(i));
        problems := problems + [NoSuchTask(i)];
      } else {
        var loops := Walk(byID, t);
        if loops {
          ReportOne(tasks, problems, i, WaitsForItself(i));
          problems := problems + [WaitsForItself(i)];
        } else {
          ReportNone(tasks, problems, i);
        }
      }
    }
    NoneReported(tasks, problems);
  }

  lemma NoneReported(tasks: seq<Task>, problems: seq<Problem>)
    requires Reported(tasks, problems, |tasks|)
    ensures problems == [] <==> forall i :: 0 <= i < |tasks| ==> !Missing(tasks, i) && !Endless(tasks, i)
  {
    if problems != [] {
      assert problems[0] in problems && IsProblem(tasks, problems[0]);
    } else {
      forall i | 0 <= i < |tasks| ensures !Missing(tasks, i) && !Endless(tasks, i) {
        assert NoSuchTask(i) !in problems && WaitsForItself(i) !in problems;
      }
    }
  }

  /** The i-th task is after itself, through other tasks or not. */
  ghost predicate AfterItself(tasks: seq<Task>, i: nat)
    requires i < |tasks|
  {
    tasks[i].id != "" && exists k: nat :: Follow(ByID(tasks), tasks[i].after, k) == tasks[i].id
  }

  /** A task that waits for itself is reported so. */
  lemma ItselfIsReported(tasks: seq<Task>, i: nat)
    requires DistinctIds(tasks) && i < |tasks| && AfterItself(tasks, i)
    ensures tasks[i].after in ByID(tasks) ==> Endless(tasks, i)
  {
    OwnIds(tasks);
    var byID, t := ByID(tasks), tasks[i];
    var k: nat :| Follow(byID, t.after, k) == t.id;
    assert t in tasks;
    NotAtEnd(byID, t.after, k);
    assert Follow(byID, t.after, k + 1) == t.after == Follow(byID, t.after, 0);
    NeverEnds(byID, t.after, 0, k + 1);
  }

  /** But a task is also reported so that only leads to one: of three tasks, the first
      comes after the second, and the other two after each other. */
  lemma LeadingIsReported()
    ensures var tasks := [Task("a", "b"), Task("b", "c"), Task("c", "b")];
            && DistinctIds(tasks)
            && IsProblem(tasks, WaitsForItself(0)) && !AfterItself(tasks, 0)
  {
    var tasks := [Task("a", "b"), Task("b", "c"), Task("c", "b")];
    var byID := map["a" := tasks[0], "b" := tasks[1], "c" := tasks[2]];
    assert tasks[..2] == [tasks[0], tasks[1]] && tasks[..2][..1] == [tasks[0]] && tasks[..1][..0] == [];
    assert ByID([tasks[0]]) == map["a" := tasks[0]] by { assert [tasks[0]][..0] == []; }
    assert ByID([tasks[0], tasks[1]]) == map["a" := tasks[0], "b" := tasks[1]] by {
      assert [tasks[0], tasks[1]][..1] == [tasks[0]];
    }
    assert ByID(tasks) == byID;
    assert Follow(byID, "b", 1) == "c" && Follow(byID, "b", 2) == "b";
    NeverEnds(byID, "b", 0, 2);
    forall k: nat ensures Follow(byID, "b", k) != "a" { NeverFirst(byID, k); }
  }

  lemma {:induction false} NeverFirst(byID: map<string, Task>, k: nat)
    requires byID == map["a" := Task("a", "b"), "b" := Task("b", "c"), "c" := Task("c", "b")]
    ensures Follow(byID, "b", k) in {"b", "c"}
  {
    if k > 0 { NeverFirst(byID, k - 1); }
  }
}
