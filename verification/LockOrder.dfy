/** The canonical FOR UPDATE order of the auth tables, and why it excludes deadlock. */
module LockOrder {
  import opened Common
  import opened Text
  import opened Collections

  const CANONICAL: seq<string> := ["recovery_sessions", "login_attempts", "users", "auth_sessions"]

  type Rank = k: int | 0 <= k < 4

  // ----- the gate's check of one statement trace -----

  predicate Matches(statement: string, table: string, operation: Option<string>) {
    Contains(statement, table) && (operation.Some? ==> Contains(statement, operation.value))
  }

  /** Index of the first statement naming the table (and the operation, when one is asked for). */
  method TracePosition(trace: seq<string>, table: string, operation: Option<string>) returns (position: Option<nat>)
    ensures position.Some? ==>
              && position.value < |trace| && Matches(trace[position.value], table, operation)
              && forall i :: 0 <= i < position.value ==> !Matches(trace[i], table, operation)
    ensures position.None? ==> forall i :: 0 <= i < |trace| ==> !Matches(trace[i], table, operation)
  {
    var index := 0;
    while index < |trace|
      invariant 0 <= index <= |trace|
      invariant forall i :: 0 <= i < index ==> !Matches(trace[i], table, operation)
    {
      if Matches(trace[index], table, operation) { return Some(index); }
      index := index + 1;
    }
    return None;
  }

  /** The statement takes the row locks of the table of this rank. */
  predicate Locks(statement: string, k: Rank) {
    Matches(statement, "from " + CANONICAL[k], Some("for update"))
  }

  ghost predicate FirstLock(trace: seq<string>, k: Rank, position: nat) {
    position < |trace| && Locks(trace[position], k) && forall i :: 0 <= i < position ==> !Locks(trace[i], k)
  }

  ghost predicate IsLocked(trace: seq<string>, k: Rank) {
    exists p :: FirstLock(trace, k, p)
  }

  /** What the check must establish: every table is locked, for the first time in rank order. */
  ghost predicate Ordered(trace: seq<string>) {
    && (forall k: Rank :: IsLocked(trace, k))
    && (forall k: Rank, l: Rank, p, q :: FirstLock(trace, k, p) && FirstLock(trace, l, q) && k < l ==> p < q)
  }

  predicate StrictlyIncreasing(positions: seq<nat>) {
    forall i, j :: 0 <= i < j < |positions| ==> positions[i] < positions[j]
  }

  /** `positions == sorted(positions)` together with `len(set(positions)) == len(positions)`. */
  predicate SortedAndDistinct(positions: seq<nat>) {
    && (forall i, j :: 0 <= i < j < |positions| ==> positions[i] <= positions[j])
    && |Elements(positions)| == |positions|
  }

  lemma FirstLocksDecide(trace: seq<string>, positions: seq<nat>)
    requires |positions| == 4 && forall k: Rank :: FirstLock(trace, k, positions[k])
    ensures StrictlyIncreasing(positions) <==> Ordered(trace)
  {
    forall k: Rank, p | FirstLock(trace, k, p) ensures p == positions[k] { }
    forall k: Rank ensures IsLocked(trace, k) { assert FirstLock(trace, k, positions[k]); }
    if Ordered(trace) {
      forall i, j | 0 <= i < j < 4 ensures positions[i] < positions[j] {
        assert FirstLock(trace, i, positions[i]) && FirstLock(trace, j, positions[j]);
      }
    }
  }

  /** The gate's verdict on a trace. */
  method CanonicalOrder(trace: seq<string>) returns (canonical: bool)
    ensures canonical <==> Ordered(trace)
  {
    var positions: seq<nat> := [];
    var k := 0;
    while k < 4
      invariant 0 <= k == |positions| <= 4
      invariant forall i :: 0 <= i < k ==> FirstLock(trace, i, positions[i])
    {
      var position := TracePosition(trace, "from " + CANONICAL[k], Some("for update"));
      if position.None? {
        assert !IsLocked(trace, k);
        return false;
      }
      positions := positions + [position.value];
      k := k + 1;
    }
    ElementsOfSeq(positions);
    canonical := SortedAndDistinct(positions);
    assert canonical <==> StrictlyIncreasing(positions);
    FirstLocksDecide(trace, positions);
  }

  // ----- transactions over exclusive table locks held until commit -----

  /** `pcs[i]` counts the statements transaction i has executed; one past its trace it has committed. */
  ghost predicate WellFormed(traces: seq<seq<string>>, pcs: seq<nat>) {
    |pcs| == |traces| && forall i :: 0 <= i < |pcs| ==> pcs[i] <= |traces[i]| + 1
  }

  predicate Finished(traces: seq<seq<string>>, pcs: seq<nat>, i: nat)
    requires |pcs| == |traces| && i < |pcs|
  {
    pcs[i] > |traces[i]|
  }

  predicate Holds(traces: seq<seq<string>>, pcs: seq<nat>, i: nat, k: Rank)
    requires |pcs| == |traces| && i < |pcs|
  {
    !Finished(traces, pcs, i) && exists j :: 0 <= j < pcs[i] && Locks(traces[i][j], k)
  }

  /** The next statement of transaction i needs the table and i does not hold it yet. */
  predicate Wants(traces: seq<seq<string>>, pcs: seq<nat>, i: nat, k: Rank)
    requires |pcs| == |traces| && i < |pcs|
  {
    pcs[i] < |traces[i]| && Locks(traces[i][pcs[i]], k) && !Holds(traces, pcs, i, k)
  }

  predicate WaitsFor(traces: seq<seq<string>>, pcs: seq<nat>, i: nat, j: nat)
    requires |pcs| == |traces| && i < |pcs| && j < |pcs|
  {
    i != j && exists k: Rank :: Wants(traces, pcs, i, k) && Holds(traces, pcs, j, k)
  }

  predicate CanStep(traces: seq<seq<string>>, pcs: seq<nat>, i: nat)
    requires |pcs| == |traces| && i < |pcs|
  {
    !Finished(traces, pcs, i) && forall j :: 0 <= j < |pcs| ==> !WaitsFor(traces, pcs, i, j)
  }

  /** A scheduled transaction that must wait does nothing. */
  function Step(traces: seq<seq<string>>, pcs: seq<nat>, i: nat): (next: seq<nat>)
    requires |pcs| == |traces|
    ensures |next| == |traces|
  {
    if i < |pcs| && CanStep(traces, pcs, i) then pcs[i := pcs[i] + 1] else pcs
  }

  function Run(traces: seq<seq<string>>, pcs: seq<nat>, schedule: seq<nat>): (last: seq<nat>)
    requires |pcs| == |traces|
    ensures |last| == |traces|
  {
    if schedule == [] then pcs
    else Step(traces, Run(traces, pcs, schedule[..|schedule| - 1]), schedule[|schedule| - 1])
  }

  function Begin(traces: seq<seq<string>>): (pcs: seq<nat>)
    ensures |pcs| == |traces|
  {
    seq(|traces|, i => 0)
  }

  ghost predicate Exclusive(traces: seq<seq<string>>, pcs: seq<nat>)
    requires |pcs| == |traces|
  {
    forall i, j, k: Rank ::
      0 <= i < |pcs| && 0 <= j < |pcs| && Holds(traces, pcs, i, k) && Holds(traces, pcs, j, k) ==> i == j
  }

  /** Locks exclude, in every run of any transactions whatever. */
  lemma {:induction false} RunsExclude(traces: seq<seq<string>>, schedule: seq<nat>)
    ensures Exclusive(traces, Run(traces, Begin(traces), schedule))
    ensures WellFormed(traces, Run(traces, Begin(traces), schedule))
  {
    if schedule != [] {
      RunsExclude(traces, schedule[..|schedule| - 1]);
      var pcs, i := Run(traces, Begin(traces), schedule[..|schedule| - 1]), schedule[|schedule| - 1];
      if i < |pcs| && CanStep(traces, pcs, i) { StepExcludes(traces, pcs, i); }
    }
  }

  lemma StepExcludes(traces: seq<seq<string>>, pcs: seq<nat>, i: nat)
    requires WellFormed(traces, pcs) && Exclusive(traces, pcs) && i < |pcs| && CanStep(traces, pcs, i)
    ensures Exclusive(traces, pcs[i := pcs[i] + 1])
  {
    var next := pcs[i := pcs[i] + 1];
    forall j, k: Rank | 0 <= j < |pcs| && Holds(traces, next, j, k)
      ensures j != i ==> Holds(traces, pcs, j, k)
      ensures j == i ==> Holds(traces, pcs, i, k) || Wants(traces, pcs, i, k)
    {
      var n :| 0 <= n < next[j] && Locks(traces[j][n], k);
    }
    forall j, k: Rank | 0 <= j < |pcs| && j != i && Holds(traces, next, j, k) && Holds(traces, next, i, k)
      ensures false
    {
      if Wants(traces, pcs, i, k) { assert WaitsFor(traces, pcs, i, j); }
    }
  }

  // ----- no deadlock -----

  ghost predicate AllOrdered(traces: seq<seq<string>>) {
    forall i :: 0 <= i < |traces| ==> Ordered(traces[i])
  }

  /** A transaction waits for exactly one table, and its place is that table's first lock. */
  lemma WantIsFirstLock(traces: seq<seq<string>>, pcs: seq<nat>, i: nat, k: Rank)
    requires |pcs| == |traces| && i < |pcs| && Wants(traces, pcs, i, k)
    ensures FirstLock(traces[i], k, pcs[i])
  {
  }

  lemma HoldIsPast(traces: seq<seq<string>>, pcs: seq<nat>, j: nat, k: Rank) returns (p: nat)
    requires WellFormed(traces, pcs) && j < |pcs| && Holds(traces, pcs, j, k)
    requires Ordered(traces[j])
    ensures FirstLock(traces[j], k, p) && p < pcs[j]
  {
    assert IsLocked(traces[j], k);
    p :| FirstLock(traces[j], k, p);
  }

  /** Ranks rise along waiting: whoever holds what i wants can itself only want something later. */
  lemma WaitingRises(traces: seq<seq<string>>, pcs: seq<nat>, i: nat, j: nat, k: Rank, l: Rank)
    requires WellFormed(traces, pcs) && AllOrdered(traces) && i < |pcs| && j < |pcs|
    requires Wants(traces, pcs, i, k) && Holds(traces, pcs, j, k) && Wants(traces, pcs, j, l)
    ensures k < l
  {
    var p := HoldIsPast(traces, pcs, j, k);
    WantIsFirstLock(traces, pcs, j, l);
  }

  /** `chain` is a path in the wait-for graph. */
  predicate WaitPath(traces: seq<seq<string>>, pcs: seq<nat>, chain: seq<nat>)
    requires |pcs| == |traces|
  {
    && (forall n :: 0 <= n < |chain| ==> chain[n] < |pcs|)
    && (forall n :: 0 <= n < |chain| - 1 ==> WaitsFor(traces, pcs, chain[n], chain[n + 1]))
  }

  lemma {:induction false} PathRises(traces: seq<seq<string>>, pcs: seq<nat>, chain: seq<nat>, k: Rank, l: Rank)
    requires WellFormed(traces, pcs) && AllOrdered(traces)
    requires |chain| >= 2 && WaitPath(traces, pcs, chain)
    requires Wants(traces, pcs, chain[0], k) && Wants(traces, pcs, chain[|chain| - 1], l)
    ensures k < l
  {
    var m: Rank :| Wants(traces, pcs, chain[0], m) && Holds(traces, pcs, chain[1], m);
    WantIsUnique(traces, pcs, chain[0], k, m);
    if |chain| == 2 {
      WaitingRises(traces, pcs, chain[0], chain[1], k, l);
    } else {
      assert WaitsFor(traces, pcs, chain[1], chain[2]);
      var n: Rank :| Wants(traces, pcs, chain[1], n) && Holds(traces, pcs, chain[2], n);
      WaitingRises(traces, pcs, chain[0], chain[1], k, n);
      PathRises(traces, pcs, chain[1..], n, l);
    }
  }

  lemma WantIsUnique(traces: seq<seq<string>>, pcs: seq<nat>, i: nat, k: Rank, l: Rank)
    requires WellFormed(traces, pcs) && AllOrdered(traces) && i < |pcs|
    requires Wants(traces, pcs, i, k) && Wants(traces, pcs, i, l)
    ensures k == l
  {
    WantIsFirstLock(traces, pcs, i, k);
    WantIsFirstLock(traces, pcs, i, l);
  }

  /** No state of canonically ordered transactions has a wait-for cycle: a closed path does not exist. */
  lemma NoWaitCycle(traces: seq<seq<string>>, pcs: seq<nat>, chain: seq<nat>)
    requires WellFormed(traces, pcs) && AllOrdered(traces)
    requires |chain| >= 2 && chain[0] == chain[|chain| - 1]
    ensures !WaitPath(traces, pcs, chain)
  {
    if WaitPath(traces, pcs, chain) {
      assert WaitsFor(traces, pcs, chain[0], chain[1]);
      var k: Rank :| Wants(traces, pcs, chain[0], k) && Holds(traces, pcs, chain[1], k);
      PathRises(traces, pcs, chain, k, k);
    }
  }

  /** Follow holders upward from a waiting transaction; the path ends at one that can step. */
  lemma {:induction false} SomeoneMoves(traces: seq<seq<string>>, pcs: seq<nat>, i: nat, k: Rank) returns (mover: nat)
    requires WellFormed(traces, pcs) && AllOrdered(traces) && i < |pcs| && Wants(traces, pcs, i, k)
    ensures mover < |pcs| && CanStep(traces, pcs, mover)
    decreases 4 - k
  {
    if CanStep(traces, pcs, i) { return i; }
    var j :| 0 <= j < |pcs| && WaitsFor(traces, pcs, i, j);
    var m: Rank :| Wants(traces, pcs, i, m) && Holds(traces, pcs, j, m);
    WantIsUnique(traces, pcs, i, k, m);
    if l: Rank :| Wants(traces, pcs, j, l) {
      WaitingRises(traces, pcs, i, j, k, l);
      mover := SomeoneMoves(traces, pcs, j, l);
    } else {
      mover := j;
    }
  }

  lemma Progress(traces: seq<seq<string>>, pcs: seq<nat>, i: nat) returns (mover: nat)
    requires WellFormed(traces, pcs) && AllOrdered(traces) && i < |pcs| && !Finished(traces, pcs, i)
    ensures mover < |pcs| && CanStep(traces, pcs, mover)
  {
    if CanStep(traces, pcs, i) { return i; }
    var j :| 0 <= j < |pcs| && WaitsFor(traces, pcs, i, j);
    var k: Rank :| Wants(traces, pcs, i, k) && Holds(traces, pcs, j, k);
    mover := SomeoneMoves(traces, pcs, i, k);
  }

  /** Main result: whatever has been scheduled, the wait-for graph has no cycle, and as long as some
      transaction has not committed, some transaction can step. */
  lemma CanonicalOrderExcludesDeadlock(traces: seq<seq<string>>, schedule: seq<nat>)
    requires AllOrdered(traces)
    ensures var pcs := Run(traces, Begin(traces), schedule);
            && (forall chain :: |chain| >= 2 && chain[0] == chain[|chain| - 1] ==> !WaitPath(traces, pcs, chain))
            && ((exists i :: 0 <= i < |pcs| && !Finished(traces, pcs, i)) ==>
                  exists mover :: 0 <= mover < |pcs| && CanStep(traces, pcs, mover))
  {
    RunsExclude(traces, schedule);
    var pcs := Run(traces, Begin(traces), schedule);
    forall chain: seq<nat> | |chain| >= 2 && chain[0] == chain[|chain| - 1]
      ensures !WaitPath(traces, pcs, chain)
    {
      NoWaitCycle(traces, pcs, chain);
    }
    if i :| 0 <= i < |pcs| && !Finished(traces, pcs, i) {
      var mover := Progress(traces, pcs, i);
    }
  }

  /** Statements left to execute, commits included. */
  function Remaining(traces: seq<seq<string>>, pcs: seq<nat>): int
    requires |pcs| == |traces|
  {
    if pcs == [] then 0 else |traces[0]| + 1 - pcs[0] + Remaining(traces[1..], pcs[1..])
  }

  lemma {:induction false} StepShrinksRemaining(traces: seq<seq<string>>, pcs: seq<nat>, i: nat)
    requires |pcs| == |traces| && i < |pcs|
    ensures Remaining(traces, pcs[i := pcs[i] + 1]) == Remaining(traces, pcs) - 1
  {
    var next := pcs[i := pcs[i] + 1];
    if i == 0 {
      assert next[1..] == pcs[1..];
    } else {
      StepShrinksRemaining(traces[1..], pcs[1..], i - 1);
      assert next[1..] == pcs[1..][i - 1 := pcs[1..][i - 1] + 1];
    }
  }

  lemma {:induction false} RemainingNonNegative(traces: seq<seq<string>>, pcs: seq<nat>)
    requires WellFormed(traces, pcs)
    ensures Remaining(traces, pcs) >= 0
  {
    if pcs != [] { RemainingNonNegative(traces[1..], pcs[1..]); }
  }

  /** Every run can be continued until all transactions have committed. */
  lemma {:induction false} EveryRunCompletes(traces: seq<seq<string>>, schedule: seq<nat>) returns (rest: seq<nat>)
    requires AllOrdered(traces)
    ensures var last := Run(traces, Begin(traces), schedule + rest);
            forall i :: 0 <= i < |last| ==> Finished(traces, last, i)
    decreases Remaining(traces, Run(traces, Begin(traces), schedule))
  {
    var pcs := Run(traces, Begin(traces), schedule);
    RunsExclude(traces, schedule);
    RemainingNonNegative(traces, pcs);
    if i :| 0 <= i < |pcs| && !Finished(traces, pcs, i) {
      var mover := Progress(traces, pcs, i);
      StepShrinksRemaining(traces, pcs, mover);
      assert (schedule + [mover])[..|schedule|] == schedule;
      var later := EveryRunCompletes(traces, schedule + [mover]);
      rest := [mover] + later;
      assert schedule + rest == schedule + [mover] + later;
    } else {
      rest := [];
      assert schedule + rest == schedule;
    }
  }

  /** The order matters: two transactions locking two tables in opposite orders reach a wait-for cycle. */
  lemma OppositeOrdersDeadlock(a: string, b: string)
    requires forall k: Rank :: (Locks(a, k) <==> k == 0) && (Locks(b, k) <==> k == 1)
    ensures var traces := [[a, b], [b, a]];
            var pcs := Run(traces, Begin(traces), [0, 1]);
            && WaitPath(traces, pcs, [0, 1, 0]) && !CanStep(traces, pcs, 0) && !CanStep(traces, pcs, 1)
  {
    var traces := [[a, b], [b, a]];
    var start := Begin(traces);
    assert start == [0, 0];
    assert Run(traces, start, []) == [0, 0];
    assert [0][..0] == [] && [0, 1][..1] == [0];
    assert CanStep(traces, start, 0);
    assert Run(traces, start, [0]) == [1, 0];
    assert CanStep(traces, [1, 0], 1);
    assert Run(traces, start, [0, 1]) == [1, 1];
    var pcs: seq<nat> := [1, 1];
    assert traces[0][0] == a && traces[1][0] == b;
    assert Holds(traces, pcs, 0, 0) && Holds(traces, pcs, 1, 1);
    assert Wants(traces, pcs, 0, 1) && Wants(traces, pcs, 1, 0);
    assert WaitsFor(traces, pcs, 0, 1) && WaitsFor(traces, pcs, 1, 0);
  }
}
