/** What the runs of commits and writers promise: a commit takes only bytes
    whose writer it knows, no writer is forgotten before its bytes are committed,
    and when the credit goes to the writer of the bytes. */
module GitCredit {
  import opened Text
  import opened GitWrites
  import opened GitProtocol
  import opened GitOrder
  import opened GitKept

  // ----- Safety of what is taken, and attributions kept -----

  /** In any run, whatever a commit takes, at either end of a change, is bytes
      of an editor outside or of a write recorded when the commit began, whose
      record the commit has. */
  lemma TakenIsOfTheSnapshot(s0: State, steps: seq<Step>, c: Change, p: string)
    requires Init(s0) && Runs(s0, steps)
    requires var s := After(s0, steps);
             s.git.Busy? && s.git.at.Committing? && c in s.git.at.todo && End(c, p)
    ensures var s := After(s0, steps);
            && p in s.git.index
            && (s.git.index[p].owner.Some? ==>
                  var o := s.git.index[p].owner.value;
                  && IsRecorded(s, o) && p in s.ops[o].touched
                  && s.ops[o].write.num <= s.git.from
                  && s.ops[o].write in s.git.snap)
  {
    InitKeeps(s0);
    RunKeeps(s0, steps);
    var s := After(s0, steps);
    assert FromSnapshot(s, p) && IndexAt(s, p);
  }

  /** In any run, at any moment, a file that HEAD has not is of an editor
      outside, or of a writer still at work with a lock at it or above it, or of
      a recorded write that is still in the list, with every write that covers
      the file recorded since. */
  lemma NoAttributionIsLost(s0: State, steps: seq<Step>, p: string)
    requires Init(s0) && Runs(s0, steps)
    requires var s := After(s0, steps);
             p in s.disk && p in s.head && s.disk[p].content != s.head[p] && s.disk[p].owner.Some?
    ensures var s := After(s0, steps);
            var o := s.disk[p].owner.value;
            && o < |s.ops| && Covers(s.ops[o].write, p)
            && (if IsRecorded(s, o) then
                  && s.ops[o].write in s.writes
                  && forall m: nat :: m < |s.log| && s.log[m] < |s.ops| && s.ops[o].write.num <= m + 1
                                      && Covers(s.ops[s.log[m]].write, p)
                                      ==> s.ops[s.log[m]].write in s.writes
                else s.ops[o].phase == Locked && PathBusy(s, p))
  {
    InitKeeps(s0);
    RunKeepsKept(s0, steps);
    var s := After(s0, steps);
    assert DiskAt(s, p) && OpAt(s, s.disk[p].owner.value);
    var o := s.disk[p].owner.value;
    if IsRecorded(s, o) {
      assert Known(s, |s.log|, s.disk[p]);
      forall m: nat | m < |s.log| && s.log[m] < |s.ops| && s.ops[o].write.num <= m + 1
                      && Covers(s.ops[s.log[m]].write, p)
        ensures s.ops[s.log[m]].write in s.writes
      {
        assert KeptAt(s, p, m);
      }
    } else {
      CoveredIsLocked(s.ops[o].write, p);
    }
  }

  // ----- Whose name the commit is in -----

  /** c is about to be committed. */
  ghost predicate Taking(s: State, c: Change) {
    s.git.Busy? && s.git.at.Committing? && c in s.git.at.todo
  }

  /** The bytes git read of p are of an op. */
  predicate Owned(s: State, p: string)
    requires s.git.Busy?
  {
    p in s.git.index && s.git.index[p].owner.Some? && s.git.index[p].owner.value < |s.ops|
  }

  /** The write whose bytes git read at p. */
  function WriterAt(s: State, p: string): Write
    requires s.git.Busy? && Owned(s, p)
  {
    s.ops[s.git.index[p].owner.value].write
  }

  /** w is the record of an op that wrote p. */
  predicate Wrote(s: State, w: Write, p: string) {
    1 <= w.num <= |s.log| && s.log[w.num - 1] < |s.ops| && p in s.ops[s.log[w.num - 1]].touched
  }

  /** The write c is credited to wrote p at some time. A write may also name a
      file it did not write, as the delete of a project names a note made after. */
  predicate LastWrote(s: State, c: Change, p: string)
    requires s.git.Busy?
  {
    var last := LastNaming(s.git.snap, c);
    last.Some? && Wrote(s, last.value, p)
  }

  /** The write c is credited to is the one whose bytes git read at p. */
  predicate CreditedAt(s: State, c: Change, p: string)
    requires s.git.Busy?
  {
    Owned(s, p) && LastNaming(s.git.snap, c) == Some(WriterAt(s, p))
  }

  /** In any run in which no two writers of a same file are at work at once, a
      commit is credited to the writer of the bytes git read at an end of a
      change exactly when those bytes are a writer's and the last write that
      names the change ever wrote that end. So a change that is no rename is
      credited to the writer of exactly the bytes committed, and one whose ends
      are all of writers to the writer of an end, exactly when the last write
      that names it wrote one. */
  lemma CreditIsTheWriters(s0: State, steps: seq<Step>, c: Change)
    requires Init(s0) && Runs(s0, steps) && Apart(s0, steps)
    requires Taking(After(s0, steps), c)
    ensures var s := After(s0, steps);
            forall p :: End(c, p) ==> (CreditedAt(s, c, p) <==> Owned(s, p) && LastWrote(s, c, p))
    ensures var s := After(s0, steps);
            (forall p :: End(c, p) ==> Owned(s, p)) ==>
              ((exists p :: End(c, p) && CreditedAt(s, c, p)) <==> (exists p :: End(c, p) && LastWrote(s, c, p)))
  {
    InitKeeps(s0);
    RunKeepsOrder(s0, steps);
    var s := After(s0, steps);
    forall p | End(c, p) ensures CreditedAt(s, c, p) <==> Owned(s, p) && LastWrote(s, c, p) {
      CreditedIffWrote(s, c, p);
    }
  }

  /** Of what is taken, the writer of an end is of the snapshot, names the
      change and wrote the end. */
  lemma EndNames(s: State, c: Change, p: string)
    requires Inv(s) && Taking(s, c) && End(c, p) && Owned(s, p)
    ensures var w := WriterAt(s, p);
            && Names(w, c) && w in s.git.snap && Named(s.git.snap, c)
            && Wrote(s, w, p) && s.log[w.num - 1] == s.git.index[p].owner.value
            && IsRecorded(s, s.git.index[p].owner.value)
  {
    var o := s.git.index[p].owner.value;
    assert FromSnapshot(s, p) && IndexAt(s, p) && OpAt(s, o);
  }

  lemma CreditedIffWrote(s: State, c: Change, p: string)
    requires Inv(s) && OrderInv(s) && Taking(s, c) && End(c, p)
    ensures CreditedAt(s, c, p) <==> Owned(s, p) && LastWrote(s, c, p)
  {
    if Owned(s, p) {
      EndNames(s, c, p);
      if LastWrote(s, c, p) {
        var i := LastNamingIs(s.git.snap, c);
        LastIsTheOwner(s, c, p, i);
      }
    }
  }

  /** An end the last record naming the change wrote was written last by it. */
  lemma LastIsTheOwner(s: State, c: Change, p: string, i: nat)
    requires Inv(s) && OrderInv(s) && s.git.Busy? && i < |s.git.snap| && Owned(s, p)
    requires forall j :: i < j < |s.git.snap| ==> !Names(s.git.snap[j], c)
    requires WriterAt(s, p) in s.git.snap && Names(WriterAt(s, p), c)
    requires Wrote(s, s.git.snap[i], p)
    ensures WriterAt(s, p) == s.git.snap[i]
  {
    var l := s.git.snap[i];
    assert l in s.git.snap && WriteAt(s, l) && LogAt(s, l.num - 1);
    var v := s.log[l.num - 1];
    var o := s.git.index[p].owner.value;
    assert OpAt(s, o) && IndexOrderAt(s, p, v);
    var k :| 0 <= k < |s.git.snap| && s.git.snap[k] == s.ops[o].write;
    assert k <= i;
    assert s.git.snap[k].num <= l.num;
    assert v == o;
  }

  // ----- When the credit goes to the writer of the new path -----

  /** A write of the snapshot recorded after w covers p. */
  ghost predicate LaterCovers(snap: seq<Write>, w: Write, p: string) {
    exists l :: l in snap && l.num > w.num && Covers(l, p)
  }

  lemma LaterNames(snap: seq<Write>, upTo: nat, w: Write, c: Change)
    requires Numbered(snap, upTo) && w in snap && Names(w, c)
    ensures LastNaming(snap, c) == Some(w) <==> forall l :: l in snap && l.num > w.num ==> !Names(l, c)
  {
    assert Named(snap, c);
    var i := LastNamingIs(snap, c);
    var k :| 0 <= k < |snap| && snap[k] == w;
    assert k <= i;
    if forall l :: l in snap && l.num > w.num ==> !Names(l, c) {
      assert snap[i] in snap && k == i;
    }
  }

  /** In any run, whatever the writers do, a change is credited to the writer
      of the bytes at its new path exactly when no later write of the snapshot
      covers the new path nor, of a rename, the old one. */
  lemma CreditedWhenNoneLater(s0: State, steps: seq<Step>, c: Change)
    requires Init(s0) && Runs(s0, steps)
    requires Taking(After(s0, steps), c) && Owned(After(s0, steps), c.path)
    ensures var s := After(s0, steps);
            var w := WriterAt(s, c.path);
            CreditedAt(s, c, c.path) <==>
              && !LaterCovers(s.git.snap, w, c.path)
              && (c.from != "" ==> !LaterCovers(s.git.snap, w, c.from))
  {
    InitKeeps(s0);
    RunKeeps(s0, steps);
    var s := After(s0, steps);
    assert End(c, c.path);
    EndNames(s, c, c.path);
    LaterNames(s.git.snap, s.git.from, WriterAt(s, c.path), c);
  }

  /** With writers apart, a write of the snapshot recorded after that of the
      bytes at an end never wrote the end, though it may cover it. */
  lemma LaterNeverWrote(s0: State, steps: seq<Step>, c: Change, p: string, l: Write)
    requires Init(s0) && Runs(s0, steps) && Apart(s0, steps)
    requires Taking(After(s0, steps), c) && End(c, p) && Owned(After(s0, steps), p)
    requires var s := After(s0, steps);
             l in s.git.snap && l.num > WriterAt(s, p).num
    ensures !Wrote(After(s0, steps), l, p)
  {
    InitKeeps(s0);
    RunKeepsOrder(s0, steps);
    var s := After(s0, steps);
    EndNames(s, c, p);
    LaterNotBefore(s, p, l);
  }

  lemma LaterNotBefore(s: State, p: string, l: Write)
    requires Inv(s) && OrderInv(s) && s.git.Busy? && Owned(s, p) && WriterAt(s, p) in s.git.snap
    requires IsRecorded(s, s.git.index[p].owner.value)
    requires l in s.git.snap && l.num > WriterAt(s, p).num
    ensures !Wrote(s, l, p)
  {
    assert WriteAt(s, l) && LogAt(s, l.num - 1);
    assert IndexOrderAt(s, p, s.log[l.num - 1]);
  }

  /** So of a rename whose ends are of writers, one of them the last write that
      names it, the credit goes to the writer of the bytes at the new path
      exactly when the old path was not written after, by the order of the
      records. */
  lemma RenameIsTheLaterEnd(s0: State, steps: seq<Step>, c: Change)
    requires Init(s0) && Runs(s0, steps) && Apart(s0, steps)
    requires var s := After(s0, steps);
             && Taking(s, c) && c.from != "" && Owned(s, c.path) && Owned(s, c.from)
             && exists p :: End(c, p) && LastWrote(s, c, p)
    ensures var s := After(s0, steps);
            CreditedAt(s, c, c.path) <==> WriterAt(s, c.from).num <= WriterAt(s, c.path).num
  {
    InitKeeps(s0);
    RunKeepsOrder(s0, steps);
    var s := After(s0, steps);
    assert End(c, c.path) && End(c, c.from);
    EndNames(s, c, c.path);
    EndNames(s, c, c.from);
    LaterNames(s.git.snap, s.git.from, WriterAt(s, c.path), c);
    LaterNames(s.git.snap, s.git.from, WriterAt(s, c.from), c);
    CreditedIffWrote(s, c, c.path);
    CreditedIffWrote(s, c, c.from);
    assert OpAt(s, s.git.index[c.path].owner.value) && OpAt(s, s.git.index[c.from].owner.value);
  }
}
