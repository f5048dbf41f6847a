/** Critical-path scheduling: the earliest starts of tasks whose dependencies come before them in the list, for
    any number of tasks. The random draws of the generator are the arguments. */
module Scheduling {

  datatype Project = Project(durations: seq<nat>, deps: seq<seq<nat>>)

  /** Every task depends on earlier tasks only. */
  predicate WellFormed(p: Project) {
    && p.durations != [] && |p.deps| == |p.durations|
    && forall i, k :: 0 <= i < |p.deps| && 0 <= k < |p.deps[i]| ==> p.deps[i][k] < i
  }

  /** No task starts before time zero or before its dependencies are finished. */
  predicate Feasible(p: Project, s: seq<int>)
    requires WellFormed(p)
  {
    && |s| == |p.durations|
    && (forall i :: 0 <= i < |s| ==> s[i] >= 0)
    && (forall i, k :: 0 <= i < |s| && 0 <= k < |p.deps[i]| ==>
          s[p.deps[i][k]] + p.durations[p.deps[i][k]] <= s[i])
  }

  predicate FinishedBy(p: Project, s: seq<int>, t: int)
    requires WellFormed(p) && |s| == |p.durations|
  {
    forall i :: 0 <= i < |s| ==> s[i] + p.durations[i] <= t
  }

  /** Tasks each of which depends on the one before it. */
  predicate IsChain(p: Project, c: seq<nat>)
    requires WellFormed(p)
  {
    && c != [] && (forall k :: 0 <= k < |c| ==> c[k] < |p.durations|)
    && (forall k :: 0 < k < |c| ==> c[k - 1] in p.deps[c[k]])
  }

  function Weight(p: Project, c: seq<nat>): nat
    requires WellFormed(p) && forall k :: 0 <= k < |c| ==> c[k] < |p.durations|
  {
    if c == [] then 0 else Weight(p, c[..|c| - 1]) + p.durations[c[|c| - 1]]
  }

  function Max(a: int, b: int): int {
    if a < b then b else a
  }

  /** The earliest start of task `i`. */
  function Start(p: Project, i: nat): nat
    requires WellFormed(p) && i < |p.durations|
    decreases i, |p.deps[i]| + 1
  {
    LatestFinish(p, i, |p.deps[i]|)
  }

  /** The latest of the finishing times of the first `k` dependencies of task `i`. */
  function LatestFinish(p: Project, i: nat, k: nat): nat
    requires WellFormed(p) && i < |p.durations| && k <= |p.deps[i]|
    decreases i, k
  {
    if k == 0 then 0
    else
      var d := p.deps[i][k - 1];
      Max(LatestFinish(p, i, k - 1), Start(p, d) + p.durations[d])
  }

  function Starts(p: Project): (s: seq<int>)
    requires WellFormed(p)
    ensures |s| == |p.durations|
  {
    seq(|p.durations|, i requires 0 <= i < |p.durations| => Start(p, i))
  }

  /** The latest finishing time of the first `n` tasks. */
  function FinishOf(p: Project, n: nat): nat
    requires WellFormed(p) && n <= |p.durations|
  {
    if n == 0 then 0 else Max(FinishOf(p, n - 1), Start(p, n - 1) + p.durations[n - 1])
  }

  /** A feasible schedule that ends by `t`; no feasible one starts a task earlier or ends earlier. */
  ghost predicate IsBest(p: Project, s: seq<int>, t: int)
    requires WellFormed(p)
  {
    && Feasible(p, s) && FinishedBy(p, s, t)
    && forall other, u :: Feasible(p, other) && FinishedBy(p, other, u) ==>
         t <= u && forall i :: 0 <= i < |s| ==> s[i] <= other[i]
  }

  /** `t` is the weight of the heaviest chain of dependencies. */
  ghost predicate IsHeaviestChain(p: Project, t: int)
    requires WellFormed(p)
  {
    && (forall c :: IsChain(p, c) ==> Weight(p, c) <= t)
    && exists c :: IsChain(p, c) && Weight(p, c) == t
  }

  /** The entries of the dictionary, in the order of the tasks. */
  function Listed(start: map<nat, int>, n: nat): seq<int>
    requires forall i: nat :: i < n ==> i in start
  {
    seq(n, i requires 0 <= i < n => start[i])
  }

  /** The earliest starts, and the time by which everything can be finished. */
  method Schedule(p: Project) returns (start: map<nat, int>, answer: int)
    requires WellFormed(p)
    ensures forall i: nat :: i in start <==> i < |p.durations|
    ensures IsBest(p, Listed(start, |p.durations|), answer) && IsHeaviestChain(p, answer)
  {
    var n := |p.durations|;
    start := map[];
    for i := 0 to n
      invariant forall j: nat :: j in start <==> j < i
      invariant forall j: nat :: j < i ==> start[j] == Start(p, j)
    {
      var latest := 0;
      for k := 0 to |p.deps[i]|
        invariant latest == LatestFinish(p, i, k)
      {
        var d := p.deps[i][k];
        if start[d] + p.durations[d] > latest {
          latest := start[d] + p.durations[d];
        }
      }
      start := start[i := latest];
    }
    answer := 0;
    for i := 0 to n
      invariant answer == FinishOf(p, i)
    {
      if start[i] + p.durations[i] > answer {
        answer := start[i] + p.durations[i];
      }
    }
    assert Listed(start, n) == Starts(p);
    hide IsBest, IsHeaviestChain;
    StartsAreBest(p);
    FinishIsHeaviestChain(p);
  }

  lemma StartsAreBest(p: Project)
    requires WellFormed(p)
    ensures IsBest(p, Starts(p), FinishOf(p, |p.durations|))
  {
    StartsAreFeasible(p);
    forall s, t | Feasible(p, s) && FinishedBy(p, s, t)
      ensures FinishOf(p, |p.durations|) <= t && forall i :: 0 <= i < |s| ==> Starts(p)[i] <= s[i]
    {
      NothingIsEarlier(p, s, t);
    }
  }

  lemma FinishIsHeaviestChain(p: Project)
    requires WellFormed(p)
    ensures IsHeaviestChain(p, FinishOf(p, |p.durations|))
  {
    forall c | IsChain(p, c) ensures Weight(p, c) <= FinishOf(p, |p.durations|) {
      ChainFits(p, c);
      FinishIsAttained(p, |p.durations|, c[|c| - 1]);
    }
    var c := HeaviestChain(p);
  }

  lemma {:induction false} LatestIsLatest(p: Project, i: nat, k: nat, j: nat)
    requires WellFormed(p) && i < |p.durations| && j < k <= |p.deps[i]|
    ensures Start(p, p.deps[i][j]) + p.durations[p.deps[i][j]] <= LatestFinish(p, i, k)
  {
    if j < k - 1 {
      LatestIsLatest(p, i, k - 1, j);
    }
  }

  lemma StartsAreFeasible(p: Project)
    requires WellFormed(p)
    ensures Feasible(p, Starts(p)) && FinishedBy(p, Starts(p), FinishOf(p, |p.durations|))
  {
    var s := Starts(p);
    forall i, k | 0 <= i < |s| && 0 <= k < |p.deps[i]|
      ensures s[p.deps[i][k]] + p.durations[p.deps[i][k]] <= s[i]
    {
      LatestIsLatest(p, i, |p.deps[i]|, k);
    }
    forall i | 0 <= i < |s| ensures s[i] + p.durations[i] <= FinishOf(p, |s|) {
      FinishIsAttained(p, |s|, i);
    }
  }

  /** The finishing time of the first `n` tasks is no less than any of theirs, and is one of theirs or zero. */
  lemma {:induction false} FinishIsAttained(p: Project, n: nat, i: nat)
    requires WellFormed(p) && i < n <= |p.durations|
    ensures Start(p, i) + p.durations[i] <= FinishOf(p, n)
    ensures exists j :: 0 <= j < n && FinishOf(p, n) == Start(p, j) + p.durations[j]
  {
    if n == 1 {
      assert FinishOf(p, 1) == Start(p, 0) + p.durations[0];
    } else if i < n - 1 {
      FinishIsAttained(p, n - 1, i);
    } else {
      FinishIsAttained(p, n - 1, 0);
    }
  }

  lemma {:induction false} NoTaskIsEarlier(p: Project, s: seq<int>, i: nat, k: nat)
    requires WellFormed(p) && Feasible(p, s) && i < |s| && k <= |p.deps[i]|
    ensures LatestFinish(p, i, k) <= s[i]
    decreases i, k
  {
    if k > 0 {
      var d := p.deps[i][k - 1];
      NoTaskIsEarlier(p, s, i, k - 1);
      NoTaskIsEarlier(p, s, d, |p.deps[d]|);
    }
  }

  /** No feasible schedule starts a task earlier or ends earlier. */
  lemma NothingIsEarlier(p: Project, s: seq<int>, t: int)
    requires WellFormed(p) && Feasible(p, s) && FinishedBy(p, s, t)
    ensures forall i :: 0 <= i < |s| ==> Starts(p)[i] <= s[i]
    ensures FinishOf(p, |p.durations|) <= t
  {
    forall i | 0 <= i < |s| ensures Starts(p)[i] <= s[i] {
      NoTaskIsEarlier(p, s, i, |p.deps[i]|);
    }
    FinishIsAttained(p, |s|, 0);
    var j :| 0 <= j < |s| && FinishOf(p, |s|) == Start(p, j) + p.durations[j];
    assert Starts(p)[j] <= s[j];
  }

  /** A chain is finished no later than its last task. */
  lemma {:induction false} ChainFits(p: Project, c: seq<nat>)
    requires WellFormed(p) && IsChain(p, c)
    ensures Weight(p, c) <= Start(p, c[|c| - 1]) + p.durations[c[|c| - 1]]
    decreases |c|
  {
    var last, rest := c[|c| - 1], c[..|c| - 1];
    if rest != [] {
      assert IsChain(p, rest);
      ChainFits(p, rest);
      var j :| 0 <= j < |p.deps[last]| && p.deps[last][j] == rest[|rest| - 1];
      LatestIsLatest(p, last, |p.deps[last]|, j);
    } else {
      assert Weight(p, rest) == 0;
    }
  }

  /** Some chain ends at task `i` exactly when `i` finishes. */
  lemma {:induction false} ChainTo(p: Project, i: nat) returns (c: seq<nat>)
    requires WellFormed(p) && i < |p.durations|
    ensures IsChain(p, c) && c[|c| - 1] == i && Weight(p, c) == Start(p, i) + p.durations[i]
    decreases i
  {
    var j := CriticalDependency(p, i, |p.deps[i]|);
    if j == |p.deps[i]| {
      c := [i];
      assert c[..0] == [];
    } else {
      var front := ChainTo(p, p.deps[i][j]);
      c := front + [i];
      assert c[..|c| - 1] == front;
    }
  }

  /** The dependency that decides when task `i` starts, if any. */
  lemma {:induction false} CriticalDependency(p: Project, i: nat, k: nat) returns (j: nat)
    requires WellFormed(p) && i < |p.durations| && k <= |p.deps[i]|
    ensures j < k ==> LatestFinish(p, i, k) == Start(p, p.deps[i][j]) + p.durations[p.deps[i][j]]
    ensures j >= k ==> j == |p.deps[i]| && LatestFinish(p, i, k) == 0
  {
    if k == 0 {
      j := |p.deps[i]|;
    } else {
      var d := p.deps[i][k - 1];
      if LatestFinish(p, i, k - 1) < Start(p, d) + p.durations[d] {
        j := k - 1;
      } else {
        j := CriticalDependency(p, i, k - 1);
      }
    }
  }

  /** Some chain is as heavy as the whole project is long. */
  lemma HeaviestChain(p: Project) returns (c: seq<nat>)
    requires WellFormed(p)
    ensures IsChain(p, c) && Weight(p, c) == FinishOf(p, |p.durations|)
  {
    FinishIsAttained(p, |p.durations|, 0);
    var j :| 0 <= j < |p.durations| && FinishOf(p, |p.durations|) == Start(p, j) + p.durations[j];
    c := ChainTo(p, j);
  }
}
