// The bookkeeping of the warehouse binary around the multi-agent product:
// how each (agent, task) product is chained to the initial state of the next
// agent and of the next task, which agent each Pareto scheduler allocates a
// task to, and how the chosen allocation is turned into per-agent task lists.

module Allocation {
  import opened Common

  // ---------------------------------------------------------------------
  // Chaining the (agent, task) products.
  // ---------------------------------------------------------------------

  /** The product the "next agent" switch of product (a, t) leads to: the
      next agent on the same task, or the product itself for the last agent. */
  function NextAgentPair(a: nat, t: nat, na: nat): (int, int) {
    if a < na - 1 then (a + 1, t) else (a, t)
  }

  /** The product the "next task" switch of product (a, t) leads to: the
      first agent on the next task, or the product itself for the last task. */
  function NextTaskPair(a: nat, t: nat, nt: nat): (int, int) {
    if t < nt - 1 then (0, t + 1) else (a, t)
  }

  /** next_agent_idx: the recorded initial index of the next agent's product
      on the same task, or the product's own initial index initIdx.  The
      lookup is unwrapped. */
  function NextAgentIdx(initialStates: map<(int, int), nat>, a: nat, t: nat, na: nat, initIdx: nat): (r: nat)
    requires a < na
    requires a < na - 1 ==> (a + 1, t) in initialStates
    ensures NextAgentPair(a, t, na) == (a, t) ==> r == initIdx
    ensures NextAgentPair(a, t, na) != (a, t) ==> r == initialStates[NextAgentPair(a, t, na)]
  {
    if a < na - 1 then initialStates[(a + 1, t)] else initIdx
  }

  /** next_task_idx: the recorded initial index of agent 0's product on the
      next task, or the product's own initial index initIdx. */
  function NextTaskIdx(initialStates: map<(int, int), nat>, a: nat, t: nat, nt: nat, initIdx: nat): (r: nat)
    requires t < nt
    requires t < nt - 1 ==> (0, t + 1) in initialStates
    ensures NextTaskPair(a, t, nt) == (a, t) ==> r == initIdx
    ensures NextTaskPair(a, t, nt) != (a, t) ==> r == initialStates[NextTaskPair(a, t, nt)]
  {
    if t < nt - 1 then initialStates[(0, t + 1)] else initIdx
  }

  /** The first loop of the binary records the initial index of every
      (agent, task) product. */
  predicate Complete(initialStates: map<(int, int), nat>, na: nat, nt: nat) {
    forall a: int, t: int :: 0 <= a < na && 0 <= t < nt ==> (a, t) in initialStates
  }

  /** With every initial index recorded, and each product's own initial index
      being the recorded one, both switches of every product lead to the
      initial index of the product they name. */
  lemma ChainingIndices(initialStates: map<(int, int), nat>, a: nat, t: nat, na: nat, nt: nat)
    requires Complete(initialStates, na, nt) && a < na && t < nt
    ensures (a, t) in initialStates
    ensures NextAgentPair(a, t, na) in initialStates && NextTaskPair(a, t, nt) in initialStates
    ensures NextAgentIdx(initialStates, a, t, na, initialStates[(a, t)]) == initialStates[NextAgentPair(a, t, na)]
    ensures NextTaskIdx(initialStates, a, t, nt, initialStates[(a, t)]) == initialStates[NextTaskPair(a, t, nt)]
  {
    assert (a, t) in initialStates;
    if a < na - 1 {
      assert (a + 1, t) in initialStates;
    }
    if t < nt - 1 {
      assert (0, t + 1) in initialStates;
    }
  }

  /** One switch of the chain. */
  predicate Switch(p: (int, int), q: (int, int), na: nat, nt: nat) {
    0 <= p.0 && 0 <= p.1 && (q == NextAgentPair(p.0, p.1, na) || q == NextTaskPair(p.0, p.1, nt))
  }

  /** The path of switches from product (0, 0) to product (a, t): task
      switches of agent 0 up to task t, then the agent switches up to a. */
  function ChainPath(a: nat, t: nat): seq<(int, int)> {
    seq(t + 1, i => (0, i)) + seq(a, j => (j + 1, t))
  }

  /** Every product is reached from product (0, 0) by following switches, so
      the chained products form one connected model. */
  lemma ChainReachesEveryPair(a: nat, t: nat, na: nat, nt: nat)
    requires a < na && t < nt
    ensures var p := ChainPath(a, t);
            |p| > 0 && p[0] == (0, 0) && p[|p| - 1] == (a, t)
            && forall i :: 0 <= i < |p| - 1 ==> Switch(p[i], p[i + 1], na, nt)
  {
    var p := ChainPath(a, t);
    var tasks, agents := seq(t + 1, i => (0, i)), seq(a, j => (j + 1, t));
    assert p == tasks + agents;
    forall i | 0 <= i < |p| - 1
      ensures Switch(p[i], p[i + 1], na, nt)
    {
      if i < t {
        assert p[i] == (0, i) && p[i + 1] == (0, i + 1);
        assert NextTaskPair(0, i, nt) == (0, i + 1);
      } else if i == t {
        assert p[i] == (0, t) && p[i + 1] == (1, t);
        assert NextAgentPair(0, t, na) == (1, t);
      } else {
        assert p[i] == (i - t, t) && p[i + 1] == (i - t + 1, t);
        assert NextAgentPair(i - t, t, na) == (i - t + 1, t);
      }
    }
  }

  // ---------------------------------------------------------------------
  // The allocation scan.
  // ---------------------------------------------------------------------

  /** Scheduler k of product (a, t) is looked up and read at the product's
      initial state for every task, agent and scheduler; each lookup and
      index is unwrapped. */
  predicate ScanDefined(mus: seq<map<(int, int), seq<real>>>, initState: map<(int, int), nat>, na: nat, nt: nat) {
    forall a: int, t: int :: 0 <= a < na && 0 <= t < nt ==>
      (a, t) in initState &&
      forall k :: 0 <= k < |mus| ==> (a, t) in mus[k] && initState[(a, t)] < |mus[k][(a, t)]|
  }

  /** Whether scheduler k gives the initial state of product (a, t) a
      non-zero value. */
  predicate Chooses(mus: seq<map<(int, int), seq<real>>>, initState: map<(int, int), nat>, na: nat, nt: nat,
                    a: int, t: int, k: int)
    requires ScanDefined(mus, initState, na, nt)
    requires 0 <= a < na && 0 <= t < nt && 0 <= k < |mus|
  {
    mus[k][(a, t)][initState[(a, t)]] != 0.0
  }

  /** The agent among 0 .. upto - 1 that scheduler k allocates task t to: the
      first one whose scheduler chooses task t. */
  function Winner(mus: seq<map<(int, int), seq<real>>>, initState: map<(int, int), nat>, na: nat, nt: nat,
                  t: int, k: int, upto: nat): (r: Option<int>)
    requires ScanDefined(mus, initState, na, nt)
    requires 0 <= t < nt && 0 <= k < |mus| && upto <= na
    ensures r.Some? <==> exists a :: 0 <= a < upto && Chooses(mus, initState, na, nt, a, t, k)
    ensures r.Some? ==> 0 <= r.value < upto && Chooses(mus, initState, na, nt, r.value, t, k)
    ensures r.Some? ==> forall b :: 0 <= b < r.value ==> !Chooses(mus, initState, na, nt, b, t, k)
  {
    if upto == 0 then None
    else
      var before := Winner(mus, initState, na, nt, t, k, upto - 1);
      if before.Some? then before
      else if Chooses(mus, initState, na, nt, upto - 1, t, k) then Some(upto - 1)
      else None
  }

  /** The scan's record of task t and scheduler k once it has processed
      agents 0 .. upto - 1: the flag (the source's `allocated[k]`) is 1 and
      the allocation holds (t, k), mapped to the winner, exactly when some
      agent so far won. */
  predicate ScanState(taken: seq<int>, alloc: map<(int, int), int>,
                      mus: seq<map<(int, int), seq<real>>>, initState: map<(int, int), nat>, na: nat, nt: nat,
                      t: int, k: int, upto: nat)
    requires ScanDefined(mus, initState, na, nt)
    requires 0 <= t < nt && 0 <= k < |mus| && upto <= na && |taken| == |mus|
  {
    var w := Winner(mus, initState, na, nt, t, k, upto);
    taken[k] == (if w.Some? then 1 else 0)
    && ((t, k) in alloc <==> w.Some?) && (w.Some? ==> alloc[(t, k)] == w.value)
  }

  /** The keys outside task t's row are those of alloc0, with the same
      values. */
  ghost predicate SameOutside(alloc: map<(int, int), int>, alloc0: map<(int, int), int>, t: int, n: nat) {
    forall key: (int, int) :: !(key.0 == t && 0 <= key.1 < n) ==>
      (key in alloc <==> key in alloc0) && (key in alloc ==> alloc[key] == alloc0[key])
  }

  /** Processing scheduler k of agent a moves k's record from a agents to
      a + 1 agents. */
  lemma ScanStepSelf(taken: seq<int>, alloc: map<(int, int), int>,
                     mus: seq<map<(int, int), seq<real>>>, initState: map<(int, int), nat>, na: nat, nt: nat,
                     t: int, k: int, a: nat)
    requires ScanDefined(mus, initState, na, nt)
    requires 0 <= t < nt && 0 <= k < |mus| && a < na && |taken| == |mus|
    requires ScanState(taken, alloc, mus, initState, na, nt, t, k, a)
    ensures var fire := mus[k][(a, t)][initState[(a, t)]] != 0.0 && taken[k] == 0;
            ScanState(if fire then taken[k := 1] else taken, if fire then alloc[(t, k) := a] else alloc,
                      mus, initState, na, nt, t, k, a + 1)
  {
  }

  /** Processing scheduler k leaves the records of the other schedulers
      alone. */
  lemma ScanStepOther(taken: seq<int>, alloc: map<(int, int), int>,
                      mus: seq<map<(int, int), seq<real>>>, initState: map<(int, int), nat>, na: nat, nt: nat,
                      t: int, j: int, k: int, a: int, upto: nat)
    requires ScanDefined(mus, initState, na, nt)
    requires 0 <= t < nt && 0 <= j < |mus| && 0 <= k < |mus| && j != k && upto <= na && |taken| == |mus|
    requires ScanState(taken, alloc, mus, initState, na, nt, t, j, upto)
    ensures ScanState(taken[k := 1], alloc[(t, k) := a], mus, initState, na, nt, t, j, upto)
  {
  }

  /** The records of schedulers lo .. hi - 1 after agents 0 .. upto - 1. */
  predicate AllScanned(taken: seq<int>, alloc: map<(int, int), int>,
                       mus: seq<map<(int, int), seq<real>>>, initState: map<(int, int), nat>, na: nat, nt: nat,
                       t: int, lo: int, hi: int, upto: nat)
    requires ScanDefined(mus, initState, na, nt)
    requires 0 <= t < nt && 0 <= lo && hi <= |mus| && upto <= na && |taken| == |mus|
  {
    forall k :: lo <= k < hi ==> ScanState(taken, alloc, mus, initState, na, nt, t, k, upto)
  }

  /** The scan of one agent a over the schedulers: scheduler k allocates task
      t to agent a when it gives task t's initial state a non-zero value
      and no earlier agent took k. */
  method ScanAgent(mus: seq<map<(int, int), seq<real>>>, initState: map<(int, int), nat>, na: nat, nt: nat,
                   t: int, a: int, taken0: seq<int>, alloc0: map<(int, int), int>)
    returns (taken: seq<int>, alloc: map<(int, int), int>)
    requires ScanDefined(mus, initState, na, nt) && 0 <= t < nt && 0 <= a < na
    requires |taken0| == |mus|
    requires AllScanned(taken0, alloc0, mus, initState, na, nt, t, 0, |mus|, a)
    ensures |taken| == |mus|
    ensures AllScanned(taken, alloc, mus, initState, na, nt, t, 0, |mus|, a + 1)
    ensures SameOutside(alloc, alloc0, t, |mus|)
  {
    taken, alloc := taken0, alloc0;
    ghost var next: nat := a + 1;
    for k := 0 to |mus|
      invariant |taken| == |mus|
      invariant AllScanned(taken, alloc, mus, initState, na, nt, t, 0, k, next)
      invariant AllScanned(taken, alloc, mus, initState, na, nt, t, k, |mus|, a)
      invariant SameOutside(alloc, alloc0, t, |mus|)
    {
      var sched := mus[k][(a, t)];
      ScanStepSelf(taken, alloc, mus, initState, na, nt, t, k, a);
      if sched[initState[(a, t)]] != 0.0 && taken[k] == 0 {
        var taken1, alloc1 := taken[k := 1], alloc[(t, k) := a];
        forall j | 0 <= j < k
          ensures ScanState(taken1, alloc1, mus, initState, na, nt, t, j, next)
        {
          ScanStepOther(taken, alloc, mus, initState, na, nt, t, j, k, a, next);
        }
        forall j | k < j < |mus|
          ensures ScanState(taken1, alloc1, mus, initState, na, nt, t, j, a)
        {
          ScanStepOther(taken, alloc, mus, initState, na, nt, t, j, k, a, a);
        }
        // runner_policy_value computes the cost and the completion
        // probability here; they are not part of this model
        taken, alloc := taken1, alloc1;
      }
    }
  }

  /** One task of the allocation scan: the per-scheduler flags start at all
      zeros, then the agents are scanned in ascending order. */
  method AllocateTask(mus: seq<map<(int, int), seq<real>>>, initState: map<(int, int), nat>, na: nat, nt: nat,
                      t: int, alloc0: map<(int, int), int>)
    returns (alloc: map<(int, int), int>)
    requires ScanDefined(mus, initState, na, nt) && 0 <= t < nt
    requires forall key :: key in alloc0 ==> key.0 != t
    ensures forall k :: 0 <= k < |mus| ==>
              var w := Winner(mus, initState, na, nt, t, k, na);
              ((t, k) in alloc <==> w.Some?) && (w.Some? ==> alloc[(t, k)] == w.value)
    ensures SameOutside(alloc, alloc0, t, |mus|)
  {
    var taken := seq(|mus|, _ => 0);
    alloc := alloc0;
    for a := 0 to na
      invariant |taken| == |mus|
      invariant AllScanned(taken, alloc, mus, initState, na, nt, t, 0, |mus|, a)
      invariant SameOutside(alloc, alloc0, t, |mus|)
    {
      taken, alloc := ScanAgent(mus, initState, na, nt, t, a, taken, alloc);
    }
    forall k | 0 <= k < |mus|
      ensures var w := Winner(mus, initState, na, nt, t, k, na);
              ((t, k) in alloc <==> w.Some?) && (w.Some? ==> alloc[(t, k)] == w.value)
    {
      assert ScanState(taken, alloc, mus, initState, na, nt, t, k, na);
    }
  }

  /** The allocation scan: for every task t and scheduler k, allocation holds
      (t, k) exactly when some agent's scheduler k gives task t's initial
      state a non-zero value, and then maps it to the first such agent;
      nothing else is allocated. */
  method AllocateTasks(mus: seq<map<(int, int), seq<real>>>, initState: map<(int, int), nat>, na: nat, nt: nat)
    returns (allocation: map<(int, int), int>)
    requires ScanDefined(mus, initState, na, nt)
    ensures forall key :: key in allocation ==> 0 <= key.0 < nt && 0 <= key.1 < |mus|
    ensures forall t, k :: 0 <= t < nt && 0 <= k < |mus| ==>
              ((t, k) in allocation <==> exists a :: 0 <= a < na && Chooses(mus, initState, na, nt, a, t, k))
    ensures forall t, k :: 0 <= t < nt && 0 <= k < |mus| && (t, k) in allocation ==>
              var a := allocation[(t, k)];
              0 <= a < na && Chooses(mus, initState, na, nt, a, t, k)
              && forall b :: 0 <= b < a ==> !Chooses(mus, initState, na, nt, b, t, k)
  {
    allocation := map[];
    for t := 0 to nt
      invariant forall key :: key in allocation ==> 0 <= key.0 < t && 0 <= key.1 < |mus|
      invariant forall t', k :: 0 <= t' < t && 0 <= k < |mus| ==>
                  var w := Winner(mus, initState, na, nt, t', k, na);
                  ((t', k) in allocation <==> w.Some?) && (w.Some? ==> allocation[(t', k)] == w.value)
    {
      allocation := AllocateTask(mus, initState, na, nt, t, allocation);
    }
    forall t, k | 0 <= t < nt && 0 <= k < |mus|
      ensures (t, k) in allocation <==> exists a :: 0 <= a < na && Chooses(mus, initState, na, nt, a, t, k)
      ensures (t, k) in allocation ==>
                var a := allocation[(t, k)];
                0 <= a < na && Chooses(mus, initState, na, nt, a, t, k)
                && forall b :: 0 <= b < a ==> !Chooses(mus, initState, na, nt, b, t, k)
    {
      var w := Winner(mus, initState, na, nt, t, k, na);
    }
  }

  // ---------------------------------------------------------------------
  // From the chosen allocation to per-agent task lists.
  // ---------------------------------------------------------------------

  /** Task indices among 0 .. n - 1 whose chosen scheduler allocates them to
      agent a, in task order. */
  function TasksOf(allocation: map<(int, int), int>, choice: seq<int>, a: int, n: nat): seq<int>
    requires n <= |choice|
    requires forall t :: 0 <= t < n ==> (t, choice[t]) in allocation
  {
    if n == 0 then []
    else TasksOf(allocation, choice, a, n - 1) + (if allocation[(n - 1, choice[n - 1])] == a then [n - 1] else [])
  }

  /** Turning the allocation into task lists: for every task t the scheduler
      choice[t] (drawn at random by the source, in proportion to that task's
      weight vector) names the agent, looked up in the allocation, and the
      task is appended to that agent's list. */
  method AssignTasks(allocation: map<(int, int), int>, choice: seq<int>, na: nat, nt: nat)
    returns (perAgent: seq<seq<int>>)
    requires |choice| == nt
    requires forall t :: 0 <= t < nt ==> (t, choice[t]) in allocation && 0 <= allocation[(t, choice[t])] < na
    ensures |perAgent| == na
    ensures forall a :: 0 <= a < na ==> perAgent[a] == TasksOf(allocation, choice, a, nt)
  {
    perAgent := seq(na, _ => []);
    for t := 0 to nt
      invariant |perAgent| == na
      invariant forall a :: 0 <= a < na ==> perAgent[a] == TasksOf(allocation, choice, a, t)
    {
      var agent := allocation[(t, choice[t])];
      perAgent := perAgent[agent := perAgent[agent] + [t]];
    }
  }

  /** The per-agent lists partition all task indices: t is in agent a's list exactly
      when its chosen scheduler allocates it to a, and each list is in
      increasing task order. */
  lemma {:induction false} TasksOfPartition(allocation: map<(int, int), int>, choice: seq<int>, n: nat, a: int, t: int)
    requires n <= |choice|
    requires forall t :: 0 <= t < n ==> (t, choice[t]) in allocation
    ensures t in TasksOf(allocation, choice, a, n) <==> 0 <= t < n && allocation[(t, choice[t])] == a
    ensures forall i, j :: 0 <= i < j < |TasksOf(allocation, choice, a, n)| ==>
              TasksOf(allocation, choice, a, n)[i] < TasksOf(allocation, choice, a, n)[j]
  {
    if n > 0 {
      var prev := TasksOf(allocation, choice, a, n - 1);
      TasksOfPartition(allocation, choice, n - 1, a, t);
      TasksOfBelow(allocation, choice, n - 1, a);
      var all := TasksOf(allocation, choice, a, n);
      forall i, j | 0 <= i < j < |all|
        ensures all[i] < all[j]
      {
        assert all[i] == prev[i];
        if j == |prev| {
          assert prev[i] in prev;
        }
      }
    }
  }

  lemma {:induction false} TasksOfBelow(allocation: map<(int, int), int>, choice: seq<int>, n: nat, a: int)
    requires n <= |choice|
    requires forall t :: 0 <= t < n ==> (t, choice[t]) in allocation
    ensures forall t :: t in TasksOf(allocation, choice, a, n) ==> 0 <= t < n
  {
    if n > 0 {
      TasksOfBelow(allocation, choice, n - 1, a);
    }
  }
}
