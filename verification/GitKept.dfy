/** What the list of recorded writes still has to say of a file not committed
    yet: the record of the write whose bytes it holds, and of every write that
    covers it recorded since. */
module GitKept {
  import opened Text
  import opened GitWrites
  import opened GitProtocol

  /** The m-th record, if it covers p and is not before that of the bytes of p
      on disk, which HEAD has not, is in the list. */
  predicate KeptAt(s: State, p: string, m: nat) {
    (&& m < |s.log| && s.log[m] < |s.ops| && Covers(s.ops[s.log[m]].write, p)
     && p in s.disk && p in s.head && s.disk[p].content != s.head[p]
     && Known(s, m + 1, s.disk[p])) ==> s.ops[s.log[m]].write in s.writes
  }

  ghost predicate KeptInv(s: State) {
    forall p, m: nat :: KeptAt(s, p, m)
  }

  lemma WrittenKept(s: State, a: Step, p: string, m: nat)
    requires Inv(s) && KeptInv(s) && Enabled(s, a) && a.WriteBytes?
    ensures KeptAt(Apply(s, a), p, m)
  {
    assert KeptAt(s, p, m);
  }

  lemma RecordedKept(s: State, a: Step, p: string, m: nat)
    requires Inv(s) && KeptInv(s) && Enabled(s, a) && a.Record?
    ensures KeptAt(Apply(s, a), p, m)
  {
    assert KeptAt(s, p, m);
    var s2 := Apply(s, a);
    if m == |s.log| {
      assert s2.writes[|s.writes|] == s2.ops[a.o].write;
    } else if m < |s.log| {
      assert LogAt(s, m);
    }
  }

  /** A change taken leaves uncommitted only what was written since the
      snapshot, and all recorded since is in the list. */
  lemma CommittedKept(s: State, a: Step, p: string, m: nat)
    requires Inv(s) && KeptInv(s) && Enabled(s, a) && a.CommitOne?
    ensures KeptAt(Apply(s, a), p, m)
  {
    assert KeptAt(s, p, m);
    if p in s.disk && p in s.git.index && m < |s.log| && Known(s, m + 1, s.disk[p]) {
      assert IndexAt(s, p);
      if s.git.from <= m { assert LogKept(s, m); }
    }
  }

  /** What is forgotten names nothing left out; a file whose writer is of the
      snapshot and which was not taken was left out. */
  lemma ForgottenKept(s: State, a: Step, p: string, m: nat)
    requires Inv(s) && KeptInv(s) && Enabled(s, a) && a.Finish?
    ensures KeptAt(Apply(s, a), p, m)
  {
    assert KeptAt(s, p, m);
    var s2 := Apply(s, a);
    if && m < |s.log| && s.log[m] < |s.ops| && Covers(s.ops[s.log[m]].write, p)
       && p in s.disk && p in s.head && s.disk[p].content != s.head[p]
       && Known(s, m + 1, s.disk[p])
    {
      var w := s.ops[s.log[m]].write;
      assert LogAt(s, m);
      if w.num <= s.git.from {
        assert p in s.git.index && IndexAt(s, p);
        var c :| c in s.git.at.left && End(c, p);
        assert Names(w, c);
      }
    }
  }

  lemma OthersKept(s: State, a: Step, p: string, m: nat)
    requires Inv(s) && KeptInv(s) && Enabled(s, a)
    requires !a.WriteBytes? && !a.Record? && !a.CommitOne? && !a.Finish?
    ensures KeptAt(Apply(s, a), p, m)
  {
    assert KeptAt(s, p, m);
    if m < |s.log| { assert LogAt(s, m); }
  }

  lemma StepKeepsKept(s: State, a: Step, p: string, m: nat)
    requires Inv(s) && KeptInv(s) && Enabled(s, a)
    ensures KeptAt(Apply(s, a), p, m)
  {
    if a.WriteBytes? { WrittenKept(s, a, p, m); }
    else if a.Record? { RecordedKept(s, a, p, m); }
    else if a.CommitOne? { CommittedKept(s, a, p, m); }
    else if a.Finish? { ForgottenKept(s, a, p, m); }
    else { OthersKept(s, a, p, m); }
  }

  lemma {:induction false} RunKeepsKept(s: State, steps: seq<Step>)
    requires Inv(s) && KeptInv(s) && Runs(s, steps)
    ensures Inv(After(s, steps)) && KeptInv(After(s, steps))
    decreases |steps|
  {
    if steps != [] {
      StepKeeps(s, steps[0]);
      var s2 := Apply(s, steps[0]);
      forall p, m: nat ensures KeptAt(s2, p, m) { StepKeepsKept(s, steps[0], p, m); }
      RunKeepsKept(s2, steps[1..]);
    }
  }

  /** In any run, at any moment, the last record that covers a file HEAD has
      not, once the writer of its bytes is recorded, is in the list: the write
      the file will be credited to is not forgotten before it is committed. */
  lemma LastRecordIsKept(s0: State, steps: seq<Step>, p: string, m: nat)
    requires Init(s0) && Runs(s0, steps)
    requires var s := After(s0, steps);
             && p in s.disk && p in s.head && s.disk[p].content != s.head[p]
             && s.disk[p].owner.Some? && IsRecorded(s, s.disk[p].owner.value)
    requires var s := After(s0, steps);
             && m < |s.log| && s.log[m] < |s.ops| && Covers(s.ops[s.log[m]].write, p)
             && forall k: nat :: m < k < |s.log| && s.log[k] < |s.ops| ==> !Covers(s.ops[s.log[k]].write, p)
    ensures var s := After(s0, steps); s.ops[s.log[m]].write in s.writes
  {
    InitKeeps(s0);
    RunKeepsKept(s0, steps);
    var s := After(s0, steps);
    assert DiskAt(s, p) && OpAt(s, s.disk[p].owner.value);
    assert KeptAt(s, p, m);
  }
}
