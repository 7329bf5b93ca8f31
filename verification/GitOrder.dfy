/** The order of the bytes and of the records: while no two writers of a same
    file are at work at once, files are written in the order their writes are
    recorded. */
module GitOrder {
  import opened Text
  import opened GitWrites
  import opened GitProtocol

  // ----- Writers that keep apart -----

  /** No two writers at work cover a same file. */
  ghost predicate NoOverlap(s: State) {
    forall a: nat, b: nat, p :: a < b < |s.ops| && Active(s.ops[a]) && Active(s.ops[b])
      ==> !(Covers(s.ops[a].write, p) && Covers(s.ops[b].write, p))
  }

  /** Nor at any moment of a run. Writes of a same file at different times are
      free to take any locks. */
  ghost predicate Apart(s: State, steps: seq<Step>)
    requires Runs(s, steps)
    decreases |steps|
  {
    NoOverlap(s) && (steps == [] || Apart(Apply(s, steps[0]), steps[1..]))
  }

  /** Two writes that cover a same file take a same lock. */
  ghost predicate SharedLocks(s: State) {
    forall a: nat, b: nat, p :: a < b < |s.ops| && Covers(s.ops[a].write, p) && Covers(s.ops[b].write, p)
      ==> !(LocksOf(s.ops[a].write) !! LocksOf(s.ops[b].write))
  }

  ghost predicate LocksInv(s: State) {
    forall a: nat, b: nat :: a < b < |s.ops| && Active(s.ops[a]) && Active(s.ops[b])
      ==> LocksOf(s.ops[a].write) !! LocksOf(s.ops[b].write)
  }

  lemma SharedBefore(s: State, a: Step)
    requires Enabled(s, a) && SharedLocks(Apply(s, a))
    ensures SharedLocks(s)
  {
    var s2 := Apply(s, a);
    forall x: nat, y: nat, p | x < y < |s.ops| && Covers(s.ops[x].write, p) && Covers(s.ops[y].write, p)
      ensures !(LocksOf(s.ops[x].write) !! LocksOf(s.ops[y].write))
    {
      assert Covers(s2.ops[x].write, p) && Covers(s2.ops[y].write, p);
      assert LocksOf(s2.ops[x].write) == LocksOf(s.ops[x].write);
      assert LocksOf(s2.ops[y].write) == LocksOf(s.ops[y].write);
    }
  }

  lemma LocksKeep(s: State, a: Step)
    requires Enabled(s, a) && LocksInv(s)
    ensures LocksInv(Apply(s, a))
  {
    var s2 := Apply(s, a);
    forall x: nat, y: nat | x < y < |s2.ops| && Active(s2.ops[x]) && Active(s2.ops[y])
      ensures LocksOf(s2.ops[x].write) !! LocksOf(s2.ops[y].write)
    {
      assert LocksOf(s2.ops[x].write) == LocksOf(s.ops[x].write) && Active(s.ops[x]);
      if y < |s.ops| {
        assert LocksOf(s2.ops[y].write) == LocksOf(s.ops[y].write) && Active(s.ops[y]);
      }
    }
  }

  /** Locks that every two writes of a same file share keep them apart. */
  lemma {:induction false} SharedLocksKeepApart(s: State, steps: seq<Step>)
    requires LocksInv(s) && Runs(s, steps) && SharedLocks(After(s, steps))
    ensures Apart(s, steps) && SharedLocks(s)
    decreases |steps|
  {
    if steps != [] {
      LocksKeep(s, steps[0]);
      SharedLocksKeepApart(Apply(s, steps[0]), steps[1..]);
      SharedBefore(s, steps[0]);
    }
  }

  // ----- The order -----

  /** v wrote e's file before e's writer did, and its record came first. */
  predicate Earlier(s: State, p: string, e: Entry, v: nat) {
    v < |s.ops| && p in s.ops[v].touched && e.owner.Some? && e.owner.value != v && e.owner.value < |s.ops| ==>
      && (IsRecorded(s, e.owner.value) && IsRecorded(s, v) ==> s.ops[v].write.num < s.ops[e.owner.value].write.num)
  }

  /** v wrote the file of e, whose bytes are another's, and is not recorded. */
  predicate Unrecorded(s: State, p: string, e: Entry, v: nat) {
    v < |s.ops| && p in s.ops[v].touched && e.owner.Some? && e.owner.value != v && !IsRecorded(s, v)
  }

  predicate DiskOrderAt(s: State, p: string, v: nat) {
    p in s.disk ==> Earlier(s, p, s.disk[p], v) && !Unrecorded(s, p, s.disk[p], v)
  }

  predicate IndexOrderAt(s: State, p: string, v: nat) {
    (s.git.Busy? && p in s.git.index && IsRecorded(s, v) && s.ops[v].write.num <= s.git.from) ==>
      Earlier(s, p, s.git.index[p], v)
  }

  ghost predicate OrderInv(s: State) {
    && (forall p, v: nat :: DiskOrderAt(s, p, v))
    && (forall p, v: nat :: IndexOrderAt(s, p, v))
  }

  /** A writer that writes p is alone at it: whoever wrote p before is done. */
  lemma OthersAreDone(s: State, o: nat, p: string, v: nat)
    requires Inv(s) && NoOverlap(s)
    requires o < |s.ops| && s.ops[o].phase == Locked && Covers(s.ops[o].write, p)
    requires v < |s.ops| && v != o && p in s.ops[v].touched
    ensures IsRecorded(s, v)
  {
    assert OpAt(s, v) && OpAt(s, o);
    assert Covers(s.ops[v].write, p);
  }

  // ----- A step that writes, one that records, and the others -----

  /** A step neither writes bytes nor records: what op o wrote stays, and so
      does its record. */
  predicate OpStays(s: State, s2: State, o: nat) {
    && |s.ops| <= |s2.ops|
    && (o < |s2.ops| ==>
          if o < |s.ops| then
            && s2.ops[o].touched == s.ops[o].touched
            && (IsRecorded(s2, o) <==> IsRecorded(s, o))
            && s2.ops[o].write == s.ops[o].write
          else s2.ops[o].touched == {} && !IsRecorded(s2, o))
  }

  lemma OtherStepStays(s: State, a: Step, o: nat)
    requires Inv(s) && Enabled(s, a) && !a.WriteBytes? && !a.Record?
    ensures OpStays(s, Apply(s, a), o)
  {
  }

  lemma EarlierStays(s: State, s2: State, p: string, e: Entry, v: nat)
    requires OpStays(s, s2, v) && (e.owner.Some? ==> e.owner.value < |s.ops| && OpStays(s, s2, e.owner.value))
    ensures Earlier(s, p, e, v) ==> Earlier(s2, p, e, v)
    ensures !Unrecorded(s, p, e, v) ==> !Unrecorded(s2, p, e, v)
  {
  }

  lemma DiskOrderStays(s: State, a: Step, p: string, v: nat)
    requires Inv(s) && OrderInv(s) && Enabled(s, a) && !a.WriteBytes? && !a.Record?
    ensures DiskOrderAt(Apply(s, a), p, v)
  {
    var s2 := Apply(s, a);
    if p in s2.disk && s2.disk[p].owner.Some? {
      assert DiskOrderAt(s, p, v) && DiskAt(s, p);
      OtherStepStays(s, a, v);
      OtherStepStays(s, a, s.disk[p].owner.value);
      EarlierStays(s, s2, p, s.disk[p], v);
    }
  }

  lemma DiskOrderWritten(s: State, a: Step, p: string, v: nat)
    requires Inv(s) && OrderInv(s) && Enabled(s, a) && NoOverlap(s) && a.WriteBytes?
    ensures DiskOrderAt(Apply(s, a), p, v)
  {
    assert DiskOrderAt(s, p, v);
    if a.path == p && v < |s.ops| && v != a.o && p in s.ops[v].touched {
      OthersAreDone(s, a.o, p, v);
    }
  }

  lemma DiskOrderRecorded(s: State, a: Step, p: string, v: nat)
    requires Inv(s) && OrderInv(s) && Enabled(s, a) && a.Record?
    ensures DiskOrderAt(Apply(s, a), p, v)
  {
    assert DiskOrderAt(s, p, v);
    if v < |s.ops| && p in s.disk && s.disk[p].owner.Some? {
      assert OpAt(s, v) && DiskAt(s, p) && OpAt(s, s.disk[p].owner.value);
    }
  }

  lemma DiskOrderKeeps(s: State, a: Step, p: string, v: nat)
    requires Inv(s) && OrderInv(s) && Enabled(s, a) && NoOverlap(s)
    ensures DiskOrderAt(Apply(s, a), p, v)
  {
    if a.WriteBytes? { DiskOrderWritten(s, a, p, v); }
    else if a.Record? { DiskOrderRecorded(s, a, p, v); }
    else { DiskOrderStays(s, a, p, v); }
  }

  lemma IndexOrderStays(s: State, a: Step, p: string, v: nat)
    requires Inv(s) && OrderInv(s) && Enabled(s, a) && !a.WriteBytes? && !a.Record?
    ensures IndexOrderAt(Apply(s, a), p, v)
  {
    var s2 := Apply(s, a);
    if s2.git.Busy? && p in s2.git.index {
      var e := s2.git.index[p];
      OtherStepStays(s, a, v);
      if a.ReadFile? && a.path == p {
        assert DiskOrderAt(s, p, v) && DiskAt(s, p);
      } else {
        assert IndexOrderAt(s, p, v) && IndexAt(s, p);
      }
      if e.owner.Some? { OtherStepStays(s, a, e.owner.value); }
      EarlierStays(s, s2, p, e, v);
    }
  }

  lemma IndexOrderWritten(s: State, a: Step, p: string, v: nat)
    requires Inv(s) && OrderInv(s) && Enabled(s, a) && a.WriteBytes?
    ensures IndexOrderAt(Apply(s, a), p, v)
  {
    assert IndexOrderAt(s, p, v);
  }

  /** A record made now is past the snapshot: it comes after all it counts. */
  lemma IndexOrderRecorded(s: State, a: Step, p: string, v: nat)
    requires Inv(s) && OrderInv(s) && Enabled(s, a) && a.Record?
    ensures IndexOrderAt(Apply(s, a), p, v)
  {
    assert IndexOrderAt(s, p, v);
    if v < |s.ops| && s.git.Busy? && p in s.git.index && s.git.index[p].owner.Some? {
      assert OpAt(s, v) && IndexAt(s, p) && OpAt(s, s.git.index[p].owner.value);
    }
  }

  lemma IndexOrderKeeps(s: State, a: Step, p: string, v: nat)
    requires Inv(s) && OrderInv(s) && Enabled(s, a)
    ensures IndexOrderAt(Apply(s, a), p, v)
  {
    if a.WriteBytes? { IndexOrderWritten(s, a, p, v); }
    else if a.Record? { IndexOrderRecorded(s, a, p, v); }
    else { IndexOrderStays(s, a, p, v); }
  }

  /** Over a run in which no two writers of a same file are at work at once, the
      bytes of a file, on disk and as git read them, are of the last record
      among those that wrote it. */
  lemma {:induction false} RunKeepsOrder(s: State, steps: seq<Step>)
    requires Inv(s) && OrderInv(s) && Runs(s, steps) && Apart(s, steps)
    ensures OrderInv(After(s, steps)) && Inv(After(s, steps))
    decreases |steps|
  {
    if steps != [] {
      var s2 := Apply(s, steps[0]);
      StepKeeps(s, steps[0]);
      forall p, v: nat ensures DiskOrderAt(s2, p, v) { DiskOrderKeeps(s, steps[0], p, v); }
      forall p, v: nat ensures IndexOrderAt(s2, p, v) { IndexOrderKeeps(s, steps[0], p, v); }
      RunKeepsOrder(s2, steps[1..]);
    }
  }
}
