/** The commit against the writers, step by step (internal/gitsync/sync.go,
    commit; internal/gitsync/writes.go, leaveOut; internal/vault/locks.go).
    A writer locks its paths, writes their bytes, records the write and unlocks.
    The committer takes the recorded writes, lets git read the files one by one,
    asks the locks one by one, reads the writes recorded since, and commits what
    is left to take. The steps of both interleave in any way. */
module GitProtocol {
  import opened Text
  import opened GitWrites

  // ----- Locks -----

  /** The paths a writer locks: its path, and the new path of a rename. The to
      of a restore or a delete is a commit or a trash entry. */
  function LocksOf(w: Write): set<string> {
    {w.path}
    + (if w.to != "" && (w.action.Create? || w.action.Update? || w.action.Append? || w.action.Rename?
                         || w.action.DeleteProject? || w.action.RenameProject?)
       then {w.to} else {})
  }

  /** w locks path or a folder above it. */
  predicate LocksAbove(w: Write, path: string) {
    exists l :: l in LocksOf(w) && (l == path || Under(l, path))
  }

  /** Whatever a write names, its locks are at it or above it. */
  lemma CoveredIsLocked(w: Write, path: string)
    requires Covers(w, path)
    ensures LocksAbove(w, path)
    ensures exists l :: l in LocksOf(w) && (l == path || Under(l, path))
  {
    assert w.path in LocksOf(w);
    if !(path == w.path || Under(w.path, path)) {
      assert w.to in LocksOf(w);
    }
  }

  /** And it locks no more: each lock is at or above a file it names. */
  lemma LockedIsCovered(w: Write, l: string) returns (path: string)
    requires l in LocksOf(w)
    ensures Covers(w, path) && (l == path || Under(l, path))
  {
    path := if w.action.DeleteProject? || w.action.RenameProject? then l + "/a" else l;
    assert (l + "/a")[..|l| + 1] == l + "/";
  }

  // ----- State -----

  datatype Phase = Locked | Recorded | Released | Dropped

  /** A writer at work: its write (numbered once recorded) and the files whose
      bytes it wrote. */
  datatype Op = Op(write: Write, phase: Phase, touched: set<string>)

  /** The bytes of a file, None when it is not there, and the writer they are
      from: an index of ops, or None for an editor outside. */
  datatype Entry = Entry(content: Option<string>, owner: Option<nat>)

  /** Where a commit is. */
  datatype At =
    | Reading
    | Asking(changes: seq<Change>, busy: seq<bool>, half: bool)
    | Committing(todo: seq<Change>, left: seq<Change>)

  /** A commit on its way: the writes recorded when it began, the last one's
      number, and the files as git read them. */
  datatype Git = Idle | Busy(from: nat, snap: seq<Write>, index: map<string, Entry>, at: At)

  datatype State = State(
    ops: seq<Op>,
    log: seq<nat>,                        // the ops in the order of their records
    writes: seq<Write>,                   // Sync.writes; Sync.writeSeq is |log|
    disk: map<string, Entry>,
    head: map<string, Option<string>>,
    git: Git)

  predicate Active(op: Op) { op.phase == Locked || op.phase == Recorded }

  /** vault.PathBusy: a writer holds the lock of path or of a folder above it. */
  predicate PathBusy(s: State, path: string) {
    exists o :: 0 <= o < |s.ops| && Active(s.ops[o]) && LocksAbove(s.ops[o].write, path)
  }

  /** path is one of the ends of c. */
  predicate End(c: Change, path: string) {
    path == c.path || (c.from != "" && path == c.from)
  }

  /** What git may say of an index against HEAD: a file that differs is an end
      of a change, a change is of files that differ, and a rename is read from a
      file that went. Which files git pairs as renames is its own choice. */
  ghost predicate StagedAs(head: map<string, Option<string>>, index: map<string, Entry>, changes: seq<Change>) {
    && head.Keys == index.Keys
    && (forall c, p :: c in changes && End(c, p) ==> p in index && index[p].content != head[p])
    && (forall c :: c in changes && c.from != "" ==> c.from in index && index[c.from].content == None)
    && (forall p :: p in index && index[p].content != head[p] ==> exists c :: c in changes && End(c, p))
  }

  // ----- Steps -----

  datatype Step =
    | Begin(write: Write)
    | WriteBytes(o: nat, path: string, content: Option<string>)
    | Record(o: nat)
    | Unlock(o: nat)
    | GiveUp(o: nat)                      // fails before it wrote a byte
    | Outside(path: string, content: Option<string>)
    | Snapshot
    | ReadFile(path: string)
    | Stage(changes: seq<Change>)
    | Ask
    | Decide
    | CommitOne(i: nat)
    | Finish
    | Fail

  ghost predicate Enabled(s: State, a: Step) {
    match a
    case Begin(w) =>
      forall o :: 0 <= o < |s.ops| && Active(s.ops[o]) ==> LocksOf(s.ops[o].write) !! LocksOf(w)
    case WriteBytes(o, p, _) =>
      o < |s.ops| && s.ops[o].phase == Locked && p in s.disk && Covers(s.ops[o].write, p)
    case Record(o) => o < |s.ops| && s.ops[o].phase == Locked
    case Unlock(o) => o < |s.ops| && s.ops[o].phase == Recorded
    case GiveUp(o) => o < |s.ops| && s.ops[o].phase == Locked && s.ops[o].touched == {}
    case Outside(p, _) => p in s.disk
    case Snapshot => s.git.Idle?
    case ReadFile(p) => s.git.Busy? && s.git.at.Reading? && p in s.disk
    case Stage(changes) => s.git.Busy? && s.git.at.Reading? && StagedAs(s.head, s.git.index, changes)
    case Ask => s.git.Busy? && s.git.at.Asking? && |s.git.at.busy| < |s.git.at.changes|
    case Decide => s.git.Busy? && s.git.at.Asking? && |s.git.at.busy| == |s.git.at.changes|
    case CommitOne(i) => s.git.Busy? && s.git.at.Committing? && i < |s.git.at.todo|
    case Finish => s.git.Busy? && s.git.at.Committing? && s.git.at.todo == []
    case Fail => s.git.Busy?
  }

  /** One answer of the locks: busy(c.Path), then busy(c.From) when there is one. */
  function AskNext(s: State, g: At): At
    requires g.Asking? && |g.busy| < |g.changes|
  {
    var c := g.changes[|g.busy|];
    if !g.half then
      if PathBusy(s, c.path) then g.(busy := g.busy + [true])
      else if c.from == "" then g.(busy := g.busy + [false])
      else g.(half := true)
    else g.(busy := g.busy + [PathBusy(s, c.from)], half := false)
  }

  /** HEAD once a commit took c: its ends are as git read them. */
  function Committed(head: map<string, Option<string>>, index: map<string, Entry>, c: Change): map<string, Option<string>> {
    map p | p in head :: if End(c, p) && p in index then index[p].content else head[p]
  }

  ghost function Apply(s: State, a: Step): State
    requires Enabled(s, a)
  {
    match a
    case Begin(w) => s.(ops := s.ops + [Op(w.(num := 0), Locked, {})])
    case WriteBytes(o, p, content) =>
      s.(ops := s.ops[o := s.ops[o].(touched := s.ops[o].touched + {p})],
         disk := s.disk[p := Entry(content, Some(o))])
    case Record(o) =>
      var w := s.ops[o].write.(num := |s.log| + 1);
      s.(ops := s.ops[o := s.ops[o].(write := w, phase := Recorded)],
         log := s.log + [o],
         writes := s.writes + [w])
    case Unlock(o) => s.(ops := s.ops[o := s.ops[o].(phase := Released)])
    case GiveUp(o) => s.(ops := s.ops[o := s.ops[o].(phase := Dropped)])
    case Outside(p, content) => s.(disk := s.disk[p := Entry(content, None)])
    case Snapshot => s.(git := Busy(|s.log|, s.writes, map[], Reading))
    case ReadFile(p) => s.(git := s.git.(index := s.git.index[p := s.disk[p]]))
    case Stage(changes) => s.(git := s.git.(at := Asking(changes, [], false)))
    case Ask => s.(git := s.git.(at := AskNext(s, s.git.at)))
    case Decide =>
      var g := s.git.at;
      var since := Since(s.writes, s.git.from);
      s.(git := s.git.(at := Committing(Taken(g.changes, g.busy, since), Left(g.changes, g.busy, since))))
    case CommitOne(i) =>
      var g := s.git.at;
      s.(head := Committed(s.head, s.git.index, g.todo[i]),
         git := s.git.(at := g.(todo := g.todo[..i] + g.todo[i + 1..])))
    case Finish => s.(writes := Forget(s.writes, s.git.from, s.git.at.left), git := Idle)
    case Fail => s.(git := Idle)
  }

  predicate Init(s: State) {
    && s.ops == [] && s.log == [] && s.writes == [] && s.git == Idle
    && s.disk.Keys == s.head.Keys
    && forall p :: p in s.disk ==> s.disk[p].owner == None
  }

  ghost predicate Runs(s: State, steps: seq<Step>)
    decreases |steps|
  {
    steps == [] || (Enabled(s, steps[0]) && Runs(Apply(s, steps[0]), steps[1..]))
  }

  ghost function After(s: State, steps: seq<Step>): State
    requires Runs(s, steps)
    decreases |steps|
  {
    if steps == [] then s else After(Apply(s, steps[0]), steps[1..])
  }

  // ----- What every step keeps -----

  predicate IsRecorded(s: State, o: nat) {
    o < |s.ops| && (s.ops[o].phase == Recorded || s.ops[o].phase == Released)
  }

  /** The i-th record is of an op under the number i + 1. */
  predicate LogAt(s: State, i: nat) {
    i < |s.log| && IsRecorded(s, s.log[i]) && s.ops[s.log[i]].write.num == i + 1
  }

  /** An op is in the log under its number once recorded, and only then; what it
      wrote its write covers. */
  predicate OpAt(s: State, o: nat) {
    && o < |s.ops|
    && (if IsRecorded(s, o)
        then 1 <= s.ops[o].write.num <= |s.log| && s.log[s.ops[o].write.num - 1] == o
        else s.ops[o].write.num == 0)
    && (s.ops[o].phase == Dropped ==> s.ops[o].touched == {})
    && (forall p :: p in s.ops[o].touched ==> Covers(s.ops[o].write, p))
  }

  /** A kept write is the record of an op. */
  predicate WriteAt(s: State, w: Write) {
    1 <= w.num <= |s.log| && LogAt(s, w.num - 1) && w == s.ops[s.log[w.num - 1]].write
  }

  ghost predicate LogInv(s: State) {
    && (forall i: nat :: i < |s.log| ==> LogAt(s, i))
    && (forall o: nat :: o < |s.ops| ==> OpAt(s, o))
    && Numbered(s.writes, |s.log|)
    && (forall w :: w in s.writes ==> WriteAt(s, w))
  }

  /** The bytes of e at p are of an op that wrote them. */
  predicate OwnedAt(s: State, p: string, e: Entry) {
    e.owner.Some? ==> e.owner.value < |s.ops| && p in s.ops[e.owner.value].touched
  }

  /** The bytes e are of a writer recorded by the record number from. */
  predicate Known(s: State, from: nat, e: Entry) {
    e.owner.Some? && IsRecorded(s, e.owner.value) && s.ops[e.owner.value].write.num <= from
  }

  /** The record of the writer of e is in ws. */
  predicate RecordIn(s: State, e: Entry, ws: seq<Write>) {
    e.owner.Some? && e.owner.value < |s.ops| && s.ops[e.owner.value].write in ws
  }

  /** A file on disk that HEAD has not, whose writer is recorded, has its record
      in the list: no attribution is lost. */
  predicate DiskAt(s: State, p: string) {
    && p in s.disk && p in s.head
    && OwnedAt(s, p, s.disk[p])
    && (s.disk[p].content != s.head[p] && Known(s, |s.log|, s.disk[p]) ==> RecordIn(s, s.disk[p], s.writes))
  }

  ghost predicate DiskInv(s: State) {
    && s.disk.Keys == s.head.Keys
    && forall p :: p in s.disk ==> DiskAt(s, p)
  }

  /** What git read of p: the bytes of a writer recorded by from that are still
      on disk are the ones read, and when HEAD has not the bytes read their
      record is in the snapshot. */
  predicate IndexAt(s: State, p: string)
    requires s.git.Busy?
  {
    var g := s.git;
    && p in g.index && p in s.disk && p in s.head
    && OwnedAt(s, p, g.index[p])
    && (Known(s, g.from, s.disk[p]) ==> g.index[p] == s.disk[p])
    && (g.index[p].content != s.head[p] && Known(s, g.from, g.index[p]) ==> RecordIn(s, g.index[p], g.snap))
  }

  ghost predicate IndexInv(s: State) {
    s.git.Busy? ==>
      && s.git.from <= |s.log|
      && (forall p :: p in s.git.index ==> IndexAt(s, p))
      // The snapshot is the list up to from; what was recorded since is all there.
      && (forall w :: w in s.git.snap <==> w in s.writes && w.num <= s.git.from)
      && (forall n: nat :: s.git.from <= n < |s.log| ==> LogKept(s, n))
      && Numbered(s.git.snap, s.git.from)
  }

  predicate LogKept(s: State, n: nat) {
    LogAt(s, n) && s.ops[s.log[n]].write in s.writes
  }

  /** The writer of the bytes git read of p was done when its lock was free. */
  predicate EndDone(s: State, p: string)
    requires s.git.Busy?
  {
    && p in s.git.index
    && (s.git.index[p].owner.Some? ==>
          s.git.index[p].owner.value < |s.ops| && s.ops[s.git.index[p].owner.value].phase == Released)
  }

  ghost predicate EndsDone(s: State, c: Change)
    requires s.git.Busy?
  {
    forall p :: End(c, p) ==> EndDone(s, p)
  }

  ghost predicate AskInv(s: State) {
    s.git.Busy? && s.git.at.Asking? ==>
      var g := s.git.at;
      && |g.busy| <= |g.changes|
      && StagedAs(s.head, s.git.index, g.changes)
      && (forall i :: 0 <= i < |g.busy| && !g.busy[i] ==> EndsDone(s, g.changes[i]))
      && (g.half ==> |g.busy| < |g.changes| && EndDone(s, g.changes[|g.busy|].path))
  }

  /** The bytes git read of p, if they are a writer's, are of a write of the
      snapshot. */
  predicate FromSnapshot(s: State, p: string)
    requires s.git.Busy?
  {
    && p in s.git.index
    && (s.git.index[p].owner.Some? ==>
          Known(s, s.git.from, s.git.index[p]) && RecordIn(s, s.git.index[p], s.git.snap))
  }

  ghost predicate CommitInv(s: State) {
    s.git.Busy? && s.git.at.Committing? ==>
      var g := s.git.at;
      && s.head.Keys == s.git.index.Keys
      && (forall c, p :: c in g.todo && End(c, p) ==> FromSnapshot(s, p))
      && (forall p :: p in s.git.index && p in s.head && s.git.index[p].content != s.head[p]
                      ==> exists c :: (c in g.todo || c in g.left) && End(c, p))
  }

  ghost predicate Inv(s: State) {
    LogInv(s) && DiskInv(s) && IndexInv(s) && AskInv(s) && CommitInv(s)
  }

  // ----- The writers' steps -----

  /** The records made before a step stay as they are. */
  ghost predicate LogGrows(s: State, s2: State) {
    && |s.ops| <= |s2.ops| && s.log <= s2.log
    && (forall w :: w in s.writes ==> w in s2.writes)
    && forall o: nat :: IsRecorded(s, o) ==> IsRecorded(s2, o) && s2.ops[o].write == s.ops[o].write
  }

  /** How op o may change while a commit is on its way. */
  predicate OpMoves(s: State, s2: State, o: nat) {
    && o < |s.ops| <= |s2.ops|
    && s.ops[o].touched <= s2.ops[o].touched
    && (s.ops[o].phase == Released ==> s2.ops[o].phase == Released)
    && (IsRecorded(s2, o) && !IsRecorded(s, o) ==> s2.ops[o].write.num > |s.log|)
  }

  /** A step of a writer, as the committer may rely on it: new records are past
      the old ones, and bytes that changed are of no recorded write. */
  ghost predicate WriterMoves(s: State, s2: State) {
    && LogGrows(s, s2)
    && s2.git == s.git && s2.head == s.head && s2.disk.Keys == s.disk.Keys
    && (forall o: nat :: o < |s.ops| ==> OpMoves(s, s2, o))
    && (forall n: nat :: |s.log| <= n < |s2.log| ==> LogKept(s2, n))
    && (forall w :: w in s2.writes ==> w in s.writes || w.num > |s.log|)
    && (forall p :: p in s.disk ==> s2.disk[p] == s.disk[p] || !Known(s2, |s2.log|, s2.disk[p]))
  }

  lemma LogStays(s: State, s2: State)
    requires LogInv(s) && LogGrows(s, s2)
    ensures forall i: nat :: i < |s.log| ==> LogAt(s2, i)
    ensures forall w :: w in s.writes ==> WriteAt(s2, w)
    ensures s.git.Busy? && IndexInv(s) ==> forall n: nat :: s.git.from <= n < |s.log| ==> LogKept(s2, n)
  {
    forall i: nat | i < |s.log| ensures LogAt(s2, i) { assert LogAt(s, i); }
    forall w | w in s.writes ensures WriteAt(s2, w) { assert WriteAt(s, w); }
    if s.git.Busy? && IndexInv(s) {
      forall n: nat | s.git.from <= n < |s.log| ensures LogKept(s2, n) { assert LogKept(s, n) && LogAt(s2, n); }
    }
  }

  lemma IndexStays(s: State, s2: State)
    requires Inv(s) && WriterMoves(s, s2) && LogInv(s2)
    ensures IndexInv(s2)
  {
    if s.git.Busy? {
      LogStays(s, s2);
      forall p | p in s2.git.index ensures IndexAt(s2, p) {
        assert IndexAt(s, p) && DiskAt(s, p);
        if s.git.index[p].owner.Some? { assert OpMoves(s, s2, s.git.index[p].owner.value); }
        if s.disk[p].owner.Some? { assert OpMoves(s, s2, s.disk[p].owner.value); }
      }
    }
  }

  lemma AskStays(s: State, s2: State)
    requires Inv(s) && WriterMoves(s, s2)
    ensures AskInv(s2) && CommitInv(s2)
  {
    if s.git.Busy? && s.git.at.Asking? {
      forall p | EndDone(s, p) ensures EndDone(s2, p) {
        if s.git.index[p].owner.Some? { assert OpMoves(s, s2, s.git.index[p].owner.value); }
      }
      forall c | EndsDone(s, c) ensures EndsDone(s2, c) {
        forall p | End(c, p) ensures EndDone(s2, p) { assert EndDone(s, p); }
      }
    }
    if s.git.Busy? && s.git.at.Committing? {
      forall p | FromSnapshot(s, p) ensures FromSnapshot(s2, p) {}
    }
  }

  lemma BeginKeeps(s: State, w: Write)
    requires Inv(s) && Enabled(s, Begin(w))
    ensures Inv(Apply(s, Begin(w)))
  {
    var s2 := Apply(s, Begin(w));
    LogStays(s, s2);
    forall q: nat | q < |s2.ops| ensures OpAt(s2, q) && (q < |s.ops| ==> OpMoves(s, s2, q)) {
      if q < |s.ops| { assert OpAt(s, q); }
    }
    forall q | q in s2.disk ensures DiskAt(s2, q) { assert DiskAt(s, q); }
    IndexStays(s, s2);
    AskStays(s, s2);
  }

  lemma WriteBytesKeeps(s: State, o: nat, p: string, content: Option<string>)
    requires Inv(s) && Enabled(s, WriteBytes(o, p, content))
    ensures Inv(Apply(s, WriteBytes(o, p, content)))
  {
    var s2 := Apply(s, WriteBytes(o, p, content));
    LogStays(s, s2);
    forall q: nat | q < |s2.ops| ensures OpAt(s2, q) && (q < |s.ops| ==> OpMoves(s, s2, q)) {
      if q < |s.ops| { assert OpAt(s, q); }
    }
    forall q | q in s2.disk ensures DiskAt(s2, q) { assert DiskAt(s, q); }
    IndexStays(s, s2);
    AskStays(s, s2);
  }

  lemma RecordDisk(s: State, o: nat, p: string)
    requires Inv(s) && Enabled(s, Record(o)) && p in s.disk
    ensures DiskAt(Apply(s, Record(o)), p)
  {
    var s2 := Apply(s, Record(o));
    assert DiskAt(s, p);
    assert s2.writes[|s.writes|] == s2.ops[o].write;
    if Known(s2, |s2.log|, s2.disk[p]) && s2.disk[p].owner.value != o {
      assert OpAt(s, s2.disk[p].owner.value);
      assert Known(s, |s.log|, s.disk[p]);
    }
  }

  lemma RecordLog(s: State, o: nat)
    requires Inv(s) && Enabled(s, Record(o))
    ensures LogInv(Apply(s, Record(o))) && WriterMoves(s, Apply(s, Record(o)))
  {
    var s2 := Apply(s, Record(o));
    LogStays(s, s2);
    forall q: nat | q < |s2.ops| ensures OpAt(s2, q) && OpMoves(s, s2, q) { assert OpAt(s, q); }
    assert s2.log[|s.log|] == o;
    assert s2.writes[|s.writes|] == s2.ops[o].write;
    assert LogAt(s2, |s.log|) && LogKept(s2, |s.log|);
  }

  lemma RecordKeeps(s: State, o: nat)
    requires Inv(s) && Enabled(s, Record(o))
    ensures Inv(Apply(s, Record(o)))
  {
    var s2 := Apply(s, Record(o));
    RecordLog(s, o);
    forall p | p in s2.disk ensures DiskAt(s2, p) { RecordDisk(s, o, p); }
    IndexStays(s, s2);
    AskStays(s, s2);
  }

  lemma UnlockKeeps(s: State, o: nat)
    requires Inv(s) && Enabled(s, Unlock(o))
    ensures Inv(Apply(s, Unlock(o)))
  {
    var s2 := Apply(s, Unlock(o));
    LogStays(s, s2);
    forall q: nat | q < |s2.ops| ensures OpAt(s2, q) && (q < |s.ops| ==> OpMoves(s, s2, q)) {
      if q < |s.ops| { assert OpAt(s, q); }
    }
    forall q | q in s2.disk ensures DiskAt(s2, q) { assert DiskAt(s, q); }
    IndexStays(s, s2);
    AskStays(s, s2);
  }

  lemma GiveUpKeeps(s: State, o: nat)
    requires Inv(s) && Enabled(s, GiveUp(o))
    ensures Inv(Apply(s, GiveUp(o)))
  {
    var s2 := Apply(s, GiveUp(o));
    LogStays(s, s2);
    forall q: nat | q < |s2.ops| ensures OpAt(s2, q) && (q < |s.ops| ==> OpMoves(s, s2, q)) {
      if q < |s.ops| { assert OpAt(s, q); }
    }
    forall q | q in s2.disk ensures DiskAt(s2, q) { assert DiskAt(s, q); }
    IndexStays(s, s2);
    AskStays(s, s2);
  }

  lemma OutsideKeeps(s: State, p: string, content: Option<string>)
    requires Inv(s) && Enabled(s, Outside(p, content))
    ensures Inv(Apply(s, Outside(p, content)))
  {
    var s2 := Apply(s, Outside(p, content));
    LogStays(s, s2);
    forall q: nat | q < |s2.ops| ensures OpAt(s2, q) && (q < |s.ops| ==> OpMoves(s, s2, q)) {
      if q < |s.ops| { assert OpAt(s, q); }
    }
    forall q | q in s2.disk ensures DiskAt(s2, q) { assert DiskAt(s, q); }
    IndexStays(s, s2);
    AskStays(s, s2);
  }

  // ----- The committer's steps -----

  /** A step of the committer changes no op, no record and no file. */
  ghost predicate CommitterMoves(s: State, s2: State) {
    s2.ops == s.ops && s2.log == s.log && s2.disk == s.disk && s2.head.Keys == s.head.Keys
  }

  lemma OpsStay(s: State, s2: State)
    requires Inv(s) && CommitterMoves(s, s2)
    ensures forall i: nat :: i < |s.log| ==> LogAt(s2, i)
    ensures forall o: nat :: o < |s.ops| ==> OpAt(s2, o)
    ensures forall w :: w in s.writes ==> WriteAt(s2, w)
    ensures s2.writes == s.writes ==> LogInv(s2)
    ensures s2.writes == s.writes && s2.head == s.head ==> DiskInv(s2)
    ensures s2.writes == s.writes && s.git.Busy? ==> forall n: nat :: s.git.from <= n < |s.log| ==> LogKept(s2, n)
  {
    forall i: nat | i < |s.log| ensures LogAt(s2, i) { assert LogAt(s, i); }
    forall o: nat | o < |s.ops| ensures OpAt(s2, o) { assert OpAt(s, o); }
    forall w | w in s.writes ensures WriteAt(s2, w) { assert WriteAt(s, w); }
    if s2.writes == s.writes {
      if s2.head == s.head {
        forall p | p in s2.disk ensures DiskAt(s2, p) { assert DiskAt(s, p); }
      }
      if s.git.Busy? {
        forall n: nat | s.git.from <= n < |s.log| ensures LogKept(s2, n) { assert LogKept(s, n); }
      }
    }
  }

  lemma SnapshotKeeps(s: State)
    requires Inv(s) && Enabled(s, Snapshot)
    ensures Inv(Apply(s, Snapshot))
  {
    OpsStay(s, Apply(s, Snapshot));
  }

  lemma ReadFileKeeps(s: State, p: string)
    requires Inv(s) && Enabled(s, ReadFile(p))
    ensures Inv(Apply(s, ReadFile(p)))
  {
    var s2 := Apply(s, ReadFile(p));
    OpsStay(s, s2);
    assert DiskAt(s, p);
    forall q | q in s2.git.index ensures IndexAt(s2, q) {
      if q != p { assert IndexAt(s, q); }
    }
  }

  lemma StageKeeps(s: State, changes: seq<Change>)
    requires Inv(s) && Enabled(s, Stage(changes))
    ensures Inv(Apply(s, Stage(changes)))
  {
    var s2 := Apply(s, Stage(changes));
    OpsStay(s, s2);
    forall q | q in s2.git.index ensures IndexAt(s2, q) { assert IndexAt(s, q); }
  }

  /** A lock found free shows that the writer of what git read before is done. */
  lemma FreeIsDone(s: State, p: string)
    requires Inv(s) && s.git.Busy? && p in s.git.index && !PathBusy(s, p)
    ensures EndDone(s, p)
  {
    assert IndexAt(s, p);
    if s.git.index[p].owner.Some? {
      var o := s.git.index[p].owner.value;
      assert OpAt(s, o);
      CoveredIsLocked(s.ops[o].write, p);
    }
  }

  lemma AskAnswers(s: State)
    requires Inv(s) && Enabled(s, Ask)
    ensures var g := AskNext(s, s.git.at);
            && |g.busy| <= |g.changes| && g.changes == s.git.at.changes
            && (forall i :: 0 <= i < |g.busy| && !g.busy[i] ==> EndsDone(s, g.changes[i]))
            && (g.half ==> |g.busy| < |g.changes| && EndDone(s, g.changes[|g.busy|].path))
  {
    var g, g2 := s.git.at, AskNext(s, s.git.at);
    var c := g.changes[|g.busy|];
    assert c in g.changes && End(c, c.path) && (c.from != "" ==> End(c, c.from));
    if !PathBusy(s, c.path) { FreeIsDone(s, c.path); }
    if c.from != "" && !PathBusy(s, c.from) { FreeIsDone(s, c.from); }
  }

  lemma AskKeeps(s: State)
    requires Inv(s) && Enabled(s, Ask)
    ensures Inv(Apply(s, Ask))
  {
    var s2 := Apply(s, Ask);
    OpsStay(s, s2);
    AskAnswers(s);
    forall q | q in s2.git.index ensures IndexAt(s2, q) { assert IndexAt(s, q); }
    var g := s2.git.at;
    forall i | 0 <= i < |g.busy| && !g.busy[i] ensures EndsDone(s2, g.changes[i]) {
      assert EndsDone(s, g.changes[i]);
      forall p | End(g.changes[i], p) ensures EndDone(s2, p) { assert EndDone(s, p); }
    }
  }

  /** What is taken was free, and no write recorded since names it. */
  lemma TakenIsFree(changes: seq<Change>, busy: seq<bool>, since: seq<Write>, c: Change)
    requires |busy| == |changes|
    ensures c in Taken(changes, busy, since) ==>
              c in changes && !Named(since, c) && exists i :: 0 <= i < |changes| && changes[i] == c && !busy[i]
    ensures c in changes ==> c in Taken(changes, busy, since) || c in Left(changes, busy, since)
  {
    AnsweredMember(changes, busy, false, c);
    AnsweredMember(changes, busy, true, c);
  }

  lemma TakenIsFromSnapshot(s: State, c: Change, p: string)
    requires Inv(s) && Enabled(s, Decide)
    requires c in Taken(s.git.at.changes, s.git.at.busy, Since(s.writes, s.git.from)) && End(c, p)
    ensures FromSnapshot(s, p)
  {
    var g := s.git.at;
    TakenIsFree(g.changes, g.busy, Since(s.writes, s.git.from), c);
    var i :| 0 <= i < |g.changes| && g.changes[i] == c && !g.busy[i];
    FreeIsFromSnapshot(s, i, p);
  }

  lemma FreeIsFromSnapshot(s: State, i: nat, p: string)
    requires Inv(s) && Enabled(s, Decide)
    requires i < |s.git.at.changes| && !s.git.at.busy[i] && End(s.git.at.changes[i], p)
    requires !Named(Since(s.writes, s.git.from), s.git.at.changes[i])
    ensures FromSnapshot(s, p)
  {
    var c := s.git.at.changes[i];
    assert EndsDone(s, c) && EndDone(s, p);
    assert IndexAt(s, p);
    if s.git.index[p].owner.Some? {
      var o := s.git.index[p].owner.value;
      var w := s.ops[o].write;
      assert OpAt(s, o);
      if w.num > s.git.from {
        assert LogKept(s, w.num - 1);
        assert w in Since(s.writes, s.git.from) && Names(w, c);
      }
    }
  }

  lemma DecideKeeps(s: State)
    requires Inv(s) && Enabled(s, Decide)
    ensures Inv(Apply(s, Decide))
  {
    var s2 := Apply(s, Decide);
    OpsStay(s, s2);
    forall q | q in s2.git.index ensures IndexAt(s2, q) { assert IndexAt(s, q); }
    var g, g2 := s.git.at, s2.git.at;
    forall c, p | c in g2.todo && End(c, p) ensures FromSnapshot(s2, p) {
      TakenIsFromSnapshot(s, c, p);
    }
    forall p | p in s.git.index && s.git.index[p].content != s.head[p]
      ensures exists c :: (c in g2.todo || c in g2.left) && End(c, p)
    {
      var c :| c in g.changes && End(c, p);
      TakenIsFree(g.changes, g.busy, Since(s.writes, s.git.from), c);
    }
  }

  /** Bytes on disk of a recorded writer are those git read, or their record
      came after the snapshot and is in the list. */
  lemma KnownIsReadOrSince(s: State, p: string)
    requires Inv(s) && s.git.Busy? && p in s.git.index && p in s.disk && Known(s, |s.log|, s.disk[p])
    ensures s.git.index[p] == s.disk[p] || RecordIn(s, s.disk[p], s.writes)
  {
    assert IndexAt(s, p);
    var o := s.disk[p].owner.value;
    assert OpAt(s, o);
    if s.ops[o].write.num > s.git.from { assert LogKept(s, s.ops[o].write.num - 1); }
  }

  lemma CommitOneDisk(s: State, i: nat, p: string)
    requires Inv(s) && Enabled(s, CommitOne(i)) && p in s.disk
    ensures DiskAt(Apply(s, CommitOne(i)), p)
  {
    assert DiskAt(s, p);
    if p in s.git.index && Known(s, |s.log|, s.disk[p]) { KnownIsReadOrSince(s, p); }
  }

  lemma CommitOneTodo(s: State, i: nat)
    requires Inv(s) && Enabled(s, CommitOne(i))
    ensures CommitInv(Apply(s, CommitOne(i)))
  {
    var s2 := Apply(s, CommitOne(i));
    var g, g2 := s.git.at, s2.git.at;
    var done := g.todo[i];
    assert g.todo == g.todo[..i] + [done] + g.todo[i + 1..];
    forall c, p | c in g2.todo && End(c, p) ensures FromSnapshot(s2, p) {
      assert c in g.todo && FromSnapshot(s, p);
    }
    forall p | p in s2.git.index && s2.git.index[p].content != s2.head[p]
      ensures exists c :: (c in g2.todo || c in g2.left) && End(c, p)
    {
      var c :| (c in g.todo || c in g.left) && End(c, p);
    }
  }

  lemma CommitOneKeeps(s: State, i: nat)
    requires Inv(s) && Enabled(s, CommitOne(i))
    ensures Inv(Apply(s, CommitOne(i)))
  {
    var s2 := Apply(s, CommitOne(i));
    OpsStay(s, s2);
    forall p | p in s2.disk ensures DiskAt(s2, p) { CommitOneDisk(s, i, p); }
    forall p | p in s2.git.index ensures IndexAt(s2, p) { assert IndexAt(s, p); }
    CommitOneTodo(s, i);
  }

  lemma FinishKeeps(s: State)
    requires Inv(s) && Enabled(s, Finish)
    ensures Inv(Apply(s, Finish))
  {
    var s2 := Apply(s, Finish);
    OpsStay(s, s2);
    FilterNumbered((w: Write) => w.num > s.git.from || NamesSome(w, s.git.at.left), s.writes, |s.log|);
    forall p | p in s2.disk ensures DiskAt(s2, p) {
      assert DiskAt(s, p);
      if s.disk[p].content != s.head[p] && Known(s, |s.log|, s.disk[p]) {
        var w := s.ops[s.disk[p].owner.value].write;
        assert OpAt(s, s.disk[p].owner.value);
        if w.num <= s.git.from {
          assert p in s.git.index;
          assert IndexAt(s, p);
          var c :| c in s.git.at.left && End(c, p);
          assert Names(w, c);
        }
      }
    }
  }

  lemma FailKeeps(s: State)
    requires Inv(s) && Enabled(s, Fail)
    ensures Inv(Apply(s, Fail))
  {
    OpsStay(s, Apply(s, Fail));
  }

  lemma StepKeeps(s: State, a: Step)
    requires Inv(s) && Enabled(s, a)
    ensures Inv(Apply(s, a))
  {
    match a
    case Begin(w) => BeginKeeps(s, w);
    case WriteBytes(o, p, content) => WriteBytesKeeps(s, o, p, content);
    case Record(o) => RecordKeeps(s, o);
    case Unlock(o) => UnlockKeeps(s, o);
    case GiveUp(o) => GiveUpKeeps(s, o);
    case Outside(p, content) => OutsideKeeps(s, p, content);
    case Snapshot => SnapshotKeeps(s);
    case ReadFile(p) => ReadFileKeeps(s, p);
    case Stage(changes) => StageKeeps(s, changes);
    case Ask => AskKeeps(s);
    case Decide => DecideKeeps(s);
    case CommitOne(i) => CommitOneKeeps(s, i);
    case Finish => FinishKeeps(s);
    case Fail => FailKeeps(s);
  }

  lemma {:induction false} RunKeeps(s: State, steps: seq<Step>)
    requires Inv(s) && Runs(s, steps)
    ensures Inv(After(s, steps))
    decreases |steps|
  {
    if steps != [] {
      StepKeeps(s, steps[0]);
      RunKeeps(Apply(s, steps[0]), steps[1..]);
    }
  }

  lemma InitKeeps(s: State)
    requires Init(s)
    ensures Inv(s)
  {
    forall p | p in s.disk ensures DiskAt(s, p) {}
  }
}
