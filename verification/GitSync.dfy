/** The object that keeps the recorded writes (internal/gitsync/writes.go). */
module GitSync {
  import opened Text
  import opened GitWrites

  class Sync {
    var enabled: bool
    var writes: seq<Write>
    var writeSeq: nat

    /** The numbers of the writes grow, and none is past the last one given. */
    ghost predicate Valid()
      reads this
    {
      Numbered(writes, writeSeq)
    }

    constructor (enabled: bool)
      ensures Valid() && this.enabled == enabled && writes == [] && writeSeq == 0
    {
      this.enabled := enabled;
      writes, writeSeq := [], 0;
    }

    /** Records a write under the next number, unless git sync is off. */
    method RecordWrite(action: Action, path: string, to: string, author: string)
      requires Valid()
      modifies this`writes, this`writeSeq
      ensures Valid()
      ensures !enabled ==> writes == old(writes) && writeSeq == old(writeSeq)
      ensures enabled ==> writeSeq == old(writeSeq) + 1
      ensures enabled ==> writes == old(writes) + [Write(writeSeq, action, path, to, author)]
    {
      if !enabled {
        return;
      }
      writeSeq := writeSeq + 1;
      writes := writes + [Write(writeSeq, action, path, to, author)];
    }

    method PendingWrites() returns (ws: seq<Write>, upTo: nat)
      requires Valid()
      ensures ws == writes && upTo == writeSeq && Numbered(ws, upTo)
    {
      ws, upTo := writes, writeSeq;
    }

    method WritesSince(from: nat) returns (out: seq<Write>)
      ensures out == Since(writes, from)
    {
      out := [];
      for i := 0 to |writes|
        invariant out == Since(writes[..i], from)
      {
        FilterSnoc((w: Write) => w.num > from, writes, i);
        if writes[i].num > from {
          out := out + [writes[i]];
        }
      }
      assert writes[..|writes|] == writes;
    }

    /** Drops the writes up to upTo that name no file left out. */
    method ForgetWrites(upTo: nat, left: seq<Change>)
      requires Valid()
      modifies this`writes
      ensures Valid() && writes == Forget(old(writes), upTo, left)
      ensures forall w :: w in writes <==> w in old(writes) && (w.num > upTo || NamesSome(w, left))
    {
      var ws, kept := writes, [];
      for i := 0 to |ws|
        invariant kept == Forget(ws[..i], upTo, left)
      {
        FilterSnoc((w: Write) => w.num > upTo || NamesSome(w, left), ws, i);
        if ws[i].num > upTo || NamesSome(ws[i], left) {
          kept := kept + [ws[i]];
        }
      }
      assert ws[..|ws|] == ws;
      FilterNumbered((w: Write) => w.num > upTo || NamesSome(w, left), ws, writeSeq);
      writes := kept;
    }

    /** Splits the staged changes: busy holds what the locks answered for each,
        asked before the writes recorded since from are read. */
    method LeaveOut(changes: seq<Change>, from: nat, busy: seq<bool>) returns (take: seq<Change>, left: seq<Change>)
      requires |busy| == |changes|
      ensures take == Taken(changes, busy, Since(writes, from))
      ensures left == Left(changes, busy, Since(writes, from))
      ensures multiset(take) + multiset(left) == multiset(changes)
    {
      var free: seq<Change>;
      free, left := [], [];
      for i := 0 to |changes|
        invariant free == Answered(changes[..i], busy[..i], false)
        invariant left == Answered(changes[..i], busy[..i], true)
      {
        AnsweredSnoc(changes, busy, i, false);
        AnsweredSnoc(changes, busy, i, true);
        if busy[i] {
          left := left + [changes[i]];
        } else {
          free := free + [changes[i]];
        }
      }
      assert changes[..|changes|] == changes && busy[..|busy|] == busy;
      var since := WritesSince(from);
      var named;
      take, named := SplitNamed(free, since);
      left := left + named;
      TakenAndLeftPartition(changes, busy, since);
    }
  }

  /** Sets apart the changes a write of since names. */
  method SplitNamed(free: seq<Change>, since: seq<Write>) returns (take: seq<Change>, named: seq<Change>)
    ensures take == Filter((c: Change) => !Named(since, c), free)
    ensures named == Filter((c: Change) => Named(since, c), free)
  {
    take, named := [], [];
    for i := 0 to |free|
      invariant take == Filter((c: Change) => !Named(since, c), free[..i])
      invariant named == Filter((c: Change) => Named(since, c), free[..i])
    {
      FilterSnoc((c: Change) => !Named(since, c), free, i);
      FilterSnoc((c: Change) => Named(since, c), free, i);
      if Named(since, free[i]) {
        named := named + [free[i]];
      } else {
        take := take + [free[i]];
      }
    }
    assert free[..|free|] == free;
  }

  lemma {:induction false} AnsweredSnoc(changes: seq<Change>, busy: seq<bool>, i: nat, answer: bool)
    requires |busy| == |changes| && i < |changes|
    ensures Answered(changes[..i + 1], busy[..i + 1], answer)
         == Answered(changes[..i], busy[..i], answer) + (if busy[i] == answer then [changes[i]] else [])
  {
    if i > 0 {
      AnsweredSnoc(changes[1..], busy[1..], i - 1, answer);
      assert changes[..i + 1][1..] == changes[1..][..i] && busy[..i + 1][1..] == busy[1..][..i];
      assert changes[..i][1..] == changes[1..][..i - 1] && busy[..i][1..] == busy[1..][..i - 1];
    }
  }
}
