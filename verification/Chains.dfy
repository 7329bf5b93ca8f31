/** Chains of names over a finite set: one that never ends comes back to a name it
    has been at. */
module Chains {

  /** Each name of p is followed by one it leads to. */
  ghost predicate Chain(leads: (string, string) -> bool, p: seq<string>) {
    forall i :: 0 <= i < |p| - 1 ==> leads(p[i], p[i + 1])
  }

  ghost predicate Within(p: seq<string>, s: set<string>) { forall i :: 0 <= i < |p| ==> p[i] in s }

  /** A chain in s that comes back to where it began. */
  ghost predicate Cycle(leads: (string, string) -> bool, s: set<string>, p: seq<string>) {
    |p| >= 2 && p[0] == p[|p| - 1] && Chain(leads, p) && Within(p, s)
  }

  ghost predicate Acyclic(leads: (string, string) -> bool, s: set<string>) {
    forall p :: !Cycle(leads, s, p)
  }

  /** A list of names of s longer than s has one twice. */
  lemma {:induction false} Pigeons(s: set<string>, p: seq<string>) returns (i: nat, j: nat)
    requires Within(p, s) && |p| > |s|
    ensures i < j < |p| && p[i] == p[j]
    decreases |p|
  {
    var n := |p| - 1;
    if k :| 0 <= k < n && p[k] == p[n] {
      i, j := k, n;
    } else {
      forall k | 0 <= k < n ensures p[..n][k] in s - {p[n]} { assert p[k] in s && p[k] != p[n]; }
      i, j := Pigeons(s - {p[n]}, p[..n]);
    }
  }

  /** A chain in s longer than s has a cycle. */
  lemma LongHasCycle(leads: (string, string) -> bool, s: set<string>, p: seq<string>)
    requires Chain(leads, p) && Within(p, s) && |p| > |s|
    ensures !Acyclic(leads, s)
  {
    var i, j := Pigeons(s, p);
    var c := p[i..j + 1];
    forall k | 0 <= k < |c| - 1 ensures leads(c[k], c[k + 1]) { assert leads(p[i + k], p[i + k + 1]); }
    assert Cycle(leads, s, c);
  }

  /** x leads to a name of s. */
  ghost predicate LeadsOn(leads: (string, string) -> bool, s: set<string>, x: string) {
    exists y :: y in s && leads(x, y)
  }

  lemma ChainOn(leads: (string, string) -> bool, s: set<string>, q: seq<string>, y: string)
    requires Chain(leads, q) && Within(q, s) && q != [] && y in s && leads(q[|q| - 1], y)
    ensures Chain(leads, q + [y]) && Within(q + [y], s)
  {
    var p := q + [y];
    forall i | 0 <= i < |p| - 1 ensures leads(p[i], p[i + 1]) {
      assert i < |q| - 1 ==> leads(q[i], q[i + 1]);
    }
  }

  lemma Next(leads: (string, string) -> bool, s: set<string>, x: string) returns (y: string)
    requires LeadsOn(leads, s, x)
    ensures y in s && leads(x, y)
  {
    y :| y in s && leads(x, y);
  }

  /** Where every name of s leads on inside s, there are chains of any length. */
  lemma {:induction false} WalkOn(leads: (string, string) -> bool, s: set<string>, n: nat) returns (p: seq<string>)
    requires n > 0 && s != {} && forall x :: x in s ==> LeadsOn(leads, s, x)
    ensures |p| == n && Chain(leads, p) && Within(p, s)
  {
    if n == 1 {
      var x :| x in s;
      p := [x];
    } else {
      var q := WalkOn(leads, s, n - 1);
      var y := Next(leads, s, q[n - 2]);
      ChainOn(leads, s, q, y);
      p := q + [y];
    }
  }

  /** Without cycles some name of s leads to none of s. */
  lemma SomeEnds(leads: (string, string) -> bool, s: set<string>) returns (x: string)
    requires s != {} && Acyclic(leads, s)
    ensures x in s && forall y :: y in s ==> !leads(x, y)
  {
    if forall z :: z in s ==> LeadsOn(leads, s, z) {
      var p := WalkOn(leads, s, |s| + 1);
      LongHasCycle(leads, s, p);
    }
    x :| x in s && !LeadsOn(leads, s, x);
  }

  /** Fewer names, leading to fewer, have no cycle either. */
  lemma AcyclicStays(
    before: (string, string) -> bool, after: (string, string) -> bool, t: set<string>, s: set<string>)
    requires Acyclic(before, t) && s <= t && forall x, y :: after(x, y) ==> before(x, y)
    ensures Acyclic(after, s)
  {
    forall p ensures !Cycle(after, s, p) {
      if Cycle(after, s, p) {
        forall i | 0 <= i < |p| - 1 ensures before(p[i], p[i + 1]) { assert after(p[i], p[i + 1]); }
        assert Cycle(before, t, p);
      }
    }
  }
}
