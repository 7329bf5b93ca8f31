/** The runs in which a commit is credited to another than the writer of its
    bytes: two writers of a same file at work at once, and a rename git reads from
    a write at one path and a later one at another. */
module GitMiscredit {
  import opened Text
  import opened GitWrites
  import opened GitProtocol
  import opened GitOrder
  import opened GitCredit

  // ----- Building runs -----

  lemma {:induction false} RunsOn(s: State, steps: seq<Step>, a: Step)
    requires Runs(s, steps) && Enabled(After(s, steps), a)
    ensures Runs(s, steps + [a]) && After(s, steps + [a]) == Apply(After(s, steps), a)
    ensures Apart(s, steps + [a]) <==> Apart(s, steps) && NoOverlap(Apply(After(s, steps), a))
    decreases |steps|
  {
    if steps == [] {
      assert steps + [a] == [a];
      assert [a][1..] == [];
    } else {
      assert (steps + [a])[1..] == steps[1..] + [a];
      RunsOn(Apply(s, steps[0]), steps[1..], a);
    }
  }

  lemma {:induction false} RunsConcat(s: State, first: seq<Step>, second: seq<Step>)
    requires Runs(s, first) && Runs(After(s, first), second)
    ensures Runs(s, first + second) && After(s, first + second) == After(After(s, first), second)
    ensures Apart(s, first + second) <==> Apart(s, first) && Apart(After(s, first), second)
    decreases |first|
  {
    if first == [] {
      assert first + second == second;
    } else {
      assert (first + second)[1..] == first[1..] + second;
      RunsConcat(Apply(s, first[0]), first[1..], second);
    }
  }

  // ----- A commit while nobody writes -----

  /** No writer is at work and no commit on its way. */
  predicate Quiet(s: State) {
    s.git.Idle? && forall o :: 0 <= o < |s.ops| ==> !Active(s.ops[o])
  }

  lemma QuietIsApart(s: State, s2: State)
    requires Quiet(s) && s2.ops == s.ops
    ensures NoOverlap(s2) && forall p :: !PathBusy(s2, p)
  {
  }

  /** Git read every file: those of c, which are all there are. */
  lemma ReadsAll(s: State, c: Change) returns (steps: seq<Step>)
    requires Quiet(s) && s.disk.Keys == s.head.Keys
    requires forall p :: p in s.disk <==> End(c, p)
    ensures Runs(s, steps) && Apart(s, steps)
    ensures After(s, steps) == s.(git := Busy(|s.log|, s.writes, s.disk, Reading))
  {
    QuietIsApart(s, s);
    steps := [];
    RunsOn(s, steps, Snapshot);
    steps := steps + [Snapshot];
    var s1 := s.(git := Busy(|s.log|, s.writes, map[], Reading));
    QuietIsApart(s, s1);
    assert End(c, c.path) && (c.from != "" ==> End(c, c.from));
    RunsOn(s, steps, ReadFile(c.path));
    steps := steps + [ReadFile(c.path)];
    var s2 := s1.(git := s1.git.(index := map[c.path := s.disk[c.path]]));
    QuietIsApart(s, s2);
    assert map[][c.path := s.disk[c.path]] == map[c.path := s.disk[c.path]];
    if c.from != "" {
      RunsOn(s, steps, ReadFile(c.from));
      steps := steps + [ReadFile(c.from)];
      QuietIsApart(s, s.(git := Busy(|s.log|, s.writes, s.disk, Reading)));
      assert s2.git.index[c.from := s.disk[c.from]] == s.disk;
    } else {
      assert s2.git.index == s.disk;
    }
  }

  /** The locks of c are asked and found free. */
  lemma AsksFree(s: State, from: nat, ws: seq<Write>, index: map<string, Entry>, c: Change)
    returns (steps: seq<Step>)
    requires Quiet(s)
    ensures var asking := s.(git := Busy(from, ws, index, Asking([c], [], false)));
            && Runs(asking, steps) && Apart(asking, steps)
            && After(asking, steps) == s.(git := Busy(from, ws, index, Asking([c], [false], false)))
  {
    var asking := s.(git := Busy(from, ws, index, Asking([c], [], false)));
    QuietIsApart(s, asking);
    assert [] + [false] == [false];
    steps := [];
    RunsOn(asking, steps, Ask);
    steps := steps + [Ask];
    QuietIsApart(s, Apply(asking, Ask));
    if c.from != "" {
      RunsOn(asking, steps, Ask);
      QuietIsApart(s, After(asking, steps + [Ask]));
      steps := steps + [Ask];
    }
  }

  lemma TakesAlone(ws: seq<Write>, upTo: nat, c: Change)
    requires Numbered(ws, upTo)
    ensures Taken([c], [false], Since(ws, upTo)) == [c] && Left([c], [false], Since(ws, upTo)) == []
  {
    var since := Since(ws, upTo);
    FilterNone((w: Write) => w.num > upTo, ws);
    assert [c][1..] == [] && [false][1..] == [];
    assert Answered([c], [false], false) == [c];
    assert Answered([c], [false], true) == [];
    assert Filter((d: Change) => !Named(since, d), [c]) == [c];
    assert Filter((d: Change) => Named(since, d), [c]) == [];
  }

  /** A commit of c, up to what it takes. */
  function Takes(s: State, c: Change): State {
    s.(git := Busy(|s.log|, s.writes, s.disk, Committing([c], [])))
  }

  lemma CommitTakes(s: State, c: Change) returns (steps: seq<Step>)
    requires Quiet(s) && Numbered(s.writes, |s.log|)
    requires StagedAs(s.head, s.disk, [c])
    requires forall p :: p in s.disk <==> End(c, p)
    ensures Runs(s, steps) && Apart(s, steps) && After(s, steps) == Takes(s, c)
  {
    var reading := ReadsAll(s, c);
    var read := After(s, reading);
    RunsOn(s, reading, Stage([c]));
    QuietIsApart(s, Apply(read, Stage([c])));
    var asking := AsksFree(s, |s.log|, s.writes, s.disk, c);
    RunsConcat(s, reading + [Stage([c])], asking);
    steps := reading + [Stage([c])] + asking;
    TakesAlone(s.writes, |s.log|, c);
    RunsOn(s, steps, Decide);
    QuietIsApart(s, Takes(s, c));
    steps := steps + [Decide];
  }

  // ----- Two writers at work at once -----

  /** A vault with one file, not there yet. */
  function OneFile(p: string): State {
    State([], [], [], map[p := Entry(None, None)], map[p := None], Idle)
  }

  function AloneAt(p: string): Change { Change(p, "") }

  /** Both writers hold their locks and have written: a first, then b. */
  function BothWrote(a: Write, b: Write, p: string): State {
    OneFile(p).(ops := [Op(a.(num := 0), Locked, {p}), Op(b.(num := 0), Locked, {p})],
                disk := map[p := Entry(Some("b"), Some(1))])
  }

  /** Both writers are done: b's bytes on disk, a's record last. */
  function BothDone(a: Write, b: Write, p: string): State {
    State([Op(a.(num := 2), Released, {p}), Op(b.(num := 1), Released, {p})], [1, 0],
          [b.(num := 1), a.(num := 2)],
          map[p := Entry(Some("b"), Some(1))], map[p := None], Idle)
  }

  lemma LocksNumbered(w: Write)
    ensures LocksOf(w.(num := 0)) == LocksOf(w)
  {
  }

  lemma SecondBegins(s: State, op: Op, b: Write)
    requires s.ops == [op] && LocksOf(op.write) !! LocksOf(b)
    ensures Enabled(s, Begin(b))
    ensures Apply(s, Begin(b)) == s.(ops := [op, Op(b.(num := 0), Locked, {})])
  {
    assert s.ops + [Op(b.(num := 0), Locked, {})] == [op, Op(b.(num := 0), Locked, {})];
  }

  /** Two writers that share no lock begin one after the other. */
  function BothLocked(a: Write, b: Write, p: string): State {
    OneFile(p).(ops := [Op(a.(num := 0), Locked, {}), Op(b.(num := 0), Locked, {})])
  }

  lemma BothLock(a: Write, b: Write, p: string)
    requires LocksOf(a) !! LocksOf(b)
    ensures Runs(OneFile(p), [Begin(a)] + [Begin(b)])
    ensures After(OneFile(p), [Begin(a)] + [Begin(b)]) == BothLocked(a, b, p)
  {
    var s0 := OneFile(p);
    var s1 := s0.(ops := [Op(a.(num := 0), Locked, {})]);
    assert Apply(s0, Begin(a)) == s1;
    assert [Begin(a)][1..] == [];
    LocksNumbered(a);
    SecondBegins(s1, Op(a.(num := 0), Locked, {}), b);
    RunsOn(s0, [Begin(a)], Begin(b));
  }

  lemma BothWriteBytes(a: Write, b: Write, p: string) returns (steps: seq<Step>)
    requires Covers(a, p) && Covers(b, p)
    ensures var s0 := BothLocked(a, b, p);
            Runs(s0, steps) && After(s0, steps) == BothWrote(a, b, p)
  {
    var s0 := BothLocked(a, b, p);
    assert Covers(a.(num := 0), p) && Covers(b.(num := 0), p);
    assert {} + {p} == {p};
    steps := [];
    RunsOn(s0, steps, WriteBytes(0, p, Some("a")));
    steps := steps + [WriteBytes(0, p, Some("a"))];
    RunsOn(s0, steps, WriteBytes(1, p, Some("b")));
    steps := steps + [WriteBytes(1, p, Some("b"))];
    assert After(s0, steps).ops == BothWrote(a, b, p).ops;
    assert After(s0, steps).disk == BothWrote(a, b, p).disk;
  }

  lemma BothRecord(a: Write, b: Write, p: string) returns (steps: seq<Step>)
    ensures Runs(BothWrote(a, b, p), steps) && After(BothWrote(a, b, p), steps) == BothDone(a, b, p)
  {
    var s0 := BothWrote(a, b, p);
    steps := [];
    RunsOn(s0, steps, Record(1));
    steps := steps + [Record(1)];
    RunsOn(s0, steps, Record(0));
    steps := steps + [Record(0)];
    assert After(s0, steps).ops == [Op(a.(num := 2), Recorded, {p}), Op(b.(num := 1), Recorded, {p})];
    RunsOn(s0, steps, Unlock(1));
    steps := steps + [Unlock(1)];
    RunsOn(s0, steps, Unlock(0));
    steps := steps + [Unlock(0)];
    assert After(s0, steps).ops == BothDone(a, b, p).ops;
  }

  /** The bytes are b's and the last record that names them is a's. */
  lemma BothDoneCredit(a: Write, b: Write, p: string)
    requires Covers(a, p) && Covers(b, p)
    ensures var s := Takes(BothDone(a, b, p), AloneAt(p));
            && Taking(s, AloneAt(p)) && Owned(s, p) && LastWrote(s, AloneAt(p), p)
            && WriterAt(s, p) == b.(num := 1)
            && LastNaming(s.git.snap, AloneAt(p)) == Some(a.(num := 2))
  {
    var s := Takes(BothDone(a, b, p), AloneAt(p));
    assert AloneAt(p) in s.git.at.todo;
    assert Names(a.(num := 2), AloneAt(p));
    assert s.git.snap == [b.(num := 1)] + [a.(num := 2)];
    assert LastNaming(s.git.snap, AloneAt(p)) == Some(a.(num := 2));
  }

  lemma BothWroteOverlaps(a: Write, b: Write, p: string)
    requires Covers(a, p) && Covers(b, p)
    ensures !NoOverlap(BothWrote(a, b, p))
  {
    var s := BothWrote(a, b, p);
    assert Active(s.ops[0]) && Active(s.ops[1]) && Covers(s.ops[0].write, p) && Covers(s.ops[1].write, p);
  }

  /** From two writers at work to a commit of what they wrote. */
  lemma BothCommit(a: Write, b: Write, p: string) returns (steps: seq<Step>)
    requires Covers(a, p) && Covers(b, p)
    ensures Runs(BothWrote(a, b, p), steps) && !Apart(BothWrote(a, b, p), steps)
    ensures After(BothWrote(a, b, p), steps) == Takes(BothDone(a, b, p), AloneAt(p))
  {
    BothWroteOverlaps(a, b, p);
    var recording := BothRecord(a, b, p);
    assert AloneAt(p) in [AloneAt(p)] && End(AloneAt(p), p);
    var committing := CommitTakes(BothDone(a, b, p), AloneAt(p));
    RunsConcat(BothWrote(a, b, p), recording, committing);
    steps := recording + committing;
  }

  /** Any two writes of a same file that take no lock in common, a note saved
      while its folder is deleted, can be at work at once, and then the credit
      can go the wrong way round: the commit holds the bytes of one and names
      the other, though both wrote the file. */
  lemma OverlapMiscredits(a: Write, b: Write, p: string) returns (steps: seq<Step>)
    requires Covers(a, p) && Covers(b, p) && LocksOf(a) !! LocksOf(b)
    ensures Init(OneFile(p)) && Runs(OneFile(p), steps) && !Apart(OneFile(p), steps)
    ensures var s := After(OneFile(p), steps);
            && Taking(s, AloneAt(p)) && Owned(s, p) && LastWrote(s, AloneAt(p), p)
            && WriterAt(s, p) == b.(num := 1)
            && LastNaming(s.git.snap, AloneAt(p)) == Some(a.(num := 2))
  {
    BothLock(a, b, p);
    var locking := [Begin(a)] + [Begin(b)];
    var writing := BothWriteBytes(a, b, p);
    var committing := BothCommit(a, b, p);
    RunsConcat(OneFile(p), locking, writing);
    RunsConcat(OneFile(p), locking + writing, committing);
    steps := locking + writing + committing;
    BothDoneCredit(a, b, p);
  }

  // ----- A rename of two writers -----

  /** s once w wrote the bytes of p, recorded and unlocked, with nobody else at
      work. */
  function Done(s: State, w: Write, p: string, content: Option<string>): State {
    var n := |s.log| + 1;
    s.(ops := s.ops + [Op(w.(num := n), Released, {p})], log := s.log + [|s.ops|],
       writes := s.writes + [w.(num := n)], disk := s.disk[p := Entry(content, Some(|s.ops|))])
  }

  lemma OneActive(s: State, ops: seq<Op>, op: Op)
    requires Quiet(s) && ops == s.ops + [op]
    ensures forall s2: State :: s2.ops == ops ==> NoOverlap(s2)
  {
  }

  lemma WritesAlone(s: State, w: Write, p: string, content: Option<string>) returns (steps: seq<Step>)
    requires Quiet(s) && p in s.disk && Covers(w, p)
    ensures Runs(s, steps) && Apart(s, steps) && After(s, steps) == Done(s, w, p, content)
  {
    var o := |s.ops|;
    var w2 := w.(num := |s.log| + 1);
    QuietIsApart(s, s);
    assert {} + {p} == {p};
    steps := [];
    var op := Op(w.(num := 0), Locked, {});
    OneActive(s, s.ops + [op], op);
    RunsOn(s, steps, Begin(w));
    steps := steps + [Begin(w)];
    assert Covers(w.(num := 0), p);
    op := Op(w.(num := 0), Locked, {p});
    OneActive(s, s.ops + [op], op);
    RunsOn(s, steps, WriteBytes(o, p, content));
    steps := steps + [WriteBytes(o, p, content)];
    assert After(s, steps).ops == s.ops + [op];
    op := Op(w2, Recorded, {p});
    OneActive(s, s.ops + [op], op);
    RunsOn(s, steps, Record(o));
    steps := steps + [Record(o)];
    assert After(s, steps).ops == s.ops + [op];
    op := Op(w2, Released, {p});
    OneActive(s, s.ops + [op], op);
    RunsOn(s, steps, Unlock(o));
    steps := steps + [Unlock(o)];
    assert After(s, steps).ops == s.ops + [op];
  }

  /** A vault with one file at p, and none at q. */
  function TwoFiles(p: string, q: string): State {
    State([], [], [], map[p := Entry(Some("x"), None), q := Entry(None, None)], map[p := Some("x"), q := None], Idle)
  }

  /** The vault once a made q and, after, b removed p. */
  function Moved(a: Write, b: Write, p: string, q: string): State {
    Done(Done(TwoFiles(p, q), a, q, Some("x")), b, p, None)
  }

  lemma MovedRun(a: Write, b: Write, p: string, q: string) returns (steps: seq<Step>)
    requires Covers(a, q) && Covers(b, p)
    ensures Runs(TwoFiles(p, q), steps) && Apart(TwoFiles(p, q), steps)
    ensures After(TwoFiles(p, q), steps) == Moved(a, b, p, q)
  {
    var making := WritesAlone(TwoFiles(p, q), a, q, Some("x"));
    var removing := WritesAlone(Done(TwoFiles(p, q), a, q, Some("x")), b, p, None);
    RunsConcat(TwoFiles(p, q), making, removing);
    steps := making + removing;
  }

  lemma MovedIs(a: Write, b: Write, p: string, q: string)
    requires p != q
    ensures Moved(a, b, p, q)
         == State([Op(a.(num := 1), Released, {q}), Op(b.(num := 2), Released, {p})], [0, 1],
                  [a.(num := 1), b.(num := 2)],
                  map[p := Entry(None, Some(1)), q := Entry(Some("x"), Some(0))],
                  map[p := Some("x"), q := None], Idle)
  {
  }

  lemma MovedCommit(a: Write, b: Write, p: string, q: string) returns (steps: seq<Step>)
    requires p != q && p != ""
    ensures Runs(Moved(a, b, p, q), steps) && Apart(Moved(a, b, p, q), steps)
    ensures After(Moved(a, b, p, q), steps) == Takes(Moved(a, b, p, q), Change(q, p))
  {
    MovedIs(a, b, p, q);
    var c := Change(q, p);
    assert c in [c] && End(c, p) && End(c, q);
    steps := CommitTakes(Moved(a, b, p, q), c);
  }

  lemma MovedCredit(a: Write, b: Write, p: string, q: string)
    requires Covers(a, q) && Covers(b, p) && p != q && p != ""
    ensures var s, c := Takes(Moved(a, b, p, q), Change(q, p)), Change(q, p);
            && Taking(s, c) && Owned(s, q) && Owned(s, p) && LastWrote(s, c, p)
            && WriterAt(s, q) == a.(num := 1) && WriterAt(s, p) == b.(num := 2)
            && LastNaming(s.git.snap, c) == Some(b.(num := 2))
  {
    MovedIs(a, b, p, q);
    var s, c := Takes(Moved(a, b, p, q), Change(q, p)), Change(q, p);
    assert c in s.git.at.todo;
    assert Names(b.(num := 2), c);
    assert s.git.snap == [a.(num := 1)] + [b.(num := 2)];
  }

  /** A file made at q by one and, later, the one at p removed by another, which
      git reads as a rename, are credited to the second, who wrote nothing at q:
      for any two such writes, without any overlap. */
  lemma RenameCreditsTheDelete(a: Write, b: Write, p: string, q: string) returns (steps: seq<Step>)
    requires Covers(a, q) && Covers(b, p) && p != q && p != ""
    ensures Init(TwoFiles(p, q)) && Runs(TwoFiles(p, q), steps) && Apart(TwoFiles(p, q), steps)
    ensures var s, c := After(TwoFiles(p, q), steps), Change(q, p);
            && Taking(s, c) && Owned(s, q) && Owned(s, p) && LastWrote(s, c, p)
            && WriterAt(s, q) == a.(num := 1) && WriterAt(s, p) == b.(num := 2)
            && LastNaming(s.git.snap, c) == Some(b.(num := 2))
  {
    var writing := MovedRun(a, b, p, q);
    var committing := MovedCommit(a, b, p, q);
    RunsConcat(TwoFiles(p, q), writing, committing);
    steps := writing + committing;
    MovedCredit(a, b, p, q);
  }
}
