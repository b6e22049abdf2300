// Properties of whole runs of the balancing loop, for every order std::sort may
// leave equal counts in.
module BalancerRuns {
  import opened VmTypes
  import opened Balancer
  import opened Placements
  import opened BalancerInvariant

  ghost function PhaseAt(env: Env, run: seq<State>, i: nat): Phase
    requires i < |run|
  {
    if i == 0 then Untouched else PhaseAfter(env, run[i - 1], PhaseAt(env, run, i - 1))
  }

  lemma {:induction false} RunKeepsInvariant(env: Env, run: seq<State>, i: nat)
    requires Run(env, run) && i < |run|
    ensures Inv(env, run[0], Untouched) && Inv(env, run[i], PhaseAt(env, run, i))
    ensures Potential(env, run[i], PhaseAt(env, run, i)) + i <= Potential(env, run[0], Untouched)
  {
    InitialIsAccurate(env, run[0]);
    if i > 0 {
      assert StepAt(env, run, i - 1);
      RunKeepsInvariant(env, run, i - 1);
      StepDecreases(env, run[i - 1], run[i], PhaseAt(env, run, i - 1));
    }
  }

  // The loop ends: no run has more iterations than the initial sum of squares plus three.
  lemma RunsAreBounded(env: Env, run: seq<State>)
    requires Run(env, run)
    ensures |run| - 1 <= SumSq(run[0].on) + 3
  {
    RunKeepsInvariant(env, run, |run| - 1);
  }

  // Reads are in bounds, the unsigned subtraction does not wrap, the clamp at zero is not reached,
  // and a move takes an existing VM to another existing node.
  lemma StepsAreSafe(env: Env, run: seq<State>, i: nat)
    requires Run(env, run) && i < |run|
    ensures var s := run[i];
      && InBounds(env, s)
      && s.minCnt <= s.maxCnt
      && (Guard(s) ==>
            && (IsSkip(env, s) || IsNicMove(env, s) || IsLoadMove(env, s))
            && (NicTurn(env, s) ==> s.maxIdx >= 1)
            && (IsMove(env, s) ==> 0 <= Target(env, s) < env.nodes && Target(env, s) != s.high))
  {
    RunKeepsInvariant(env, run, i);
    var s, ph := run[i], PhaseAt(env, run, i);
    GuardIsSafe(env, s, ph);
    if Guard(s) && IsMove(env, s) {
      ProperMove(env, s, ph);
    }
  }

  lemma ProperMove(env: Env, s: State, ph: Phase)
    requires Inv(env, s, ph) && Guard(s) && IsMove(env, s)
    ensures 0 <= Target(env, s) < env.nodes && Target(env, s) != s.high
  {
    GuardIsSafe(env, s, ph);
    if ph == Stale {
      StaleTarget(env, s);
    } else {
      FreshTarget(env, s);
    }
  }

  // ----- conservation -----

  lemma StepConserves(env: Env, s: State, s': State, ph: Phase)
    requires Inv(env, s, ph) && Next(env, s, s')
    ensures |s.on| == |s'.on| == env.nodes
    ensures Placed(s'.on) == Placed(s.on) && Total(s'.on) == Total(s.on)
    ensures NoneIdle(env, s.on) ==> NoneIdle(env, s'.on)
  {
    if IsMove(env, s) {
      ProperMove(env, s, ph);
      MoveConserves(s.on, s.high, Pick(env, s), Target(env, s));
      if NoneIdle(env, s.on) {
        MoveKeepsNoneIdle(env, s.on, s.high, Pick(env, s), Target(env, s));
      }
    }
  }

  lemma ConservesAt(env: Env, run: seq<State>, i: nat)
    requires Run(env, run) && i < |run| - 1
    ensures |run[i].on| == |run[i + 1].on| == env.nodes
    ensures Placed(run[i + 1].on) == Placed(run[i].on) && Total(run[i + 1].on) == Total(run[i].on)
    ensures NoneIdle(env, run[i].on) ==> NoneIdle(env, run[i + 1].on)
  {
    assert StepAt(env, run, i);
    RunKeepsInvariant(env, run, i);
    StepConserves(env, run[i], run[i + 1], PhaseAt(env, run, i));
  }

  // The lists hold the same VMs throughout.
  lemma {:induction false} RunConserves(env: Env, run: seq<State>, i: nat)
    requires Run(env, run) && i < |run|
    ensures |run[i].on| == env.nodes
    ensures Placed(run[i].on) == Placed(run[0].on)
    ensures Total(run[i].on) == Total(run[0].on)
    ensures NoneIdle(env, run[0].on) ==> NoneIdle(env, run[i].on)
  {
    if i > 0 {
      RunConserves(env, run, i - 1);
      ConservesAt(env, run, i - 1);
    }
  }

  // ----- the NIC node's own turns -----

  // No further turn of the NIC node can move anything.
  ghost predicate Spent(env: Env, s: State, ph: Phase) {
    && Inv(env, s, ph)
    && ph != Untouched
    && (ph == Stale ==> s.maxIdx == env.nodes - 2 || |s.on[env.nic]| == 0)
  }

  lemma SpentHasNoNicMove(env: Env, s: State, ph: Phase)
    requires Spent(env, s, ph) && Guard(s)
    ensures !IsNicMove(env, s)
  {
    GuardIsSafe(env, s, ph);
  }

  lemma SpentStays(env: Env, s: State, s': State, ph: Phase)
    requires Inv(env, s, ph) && ph != Untouched && Next(env, s, s')
    ensures Spent(env, s', PhaseAfter(env, s, ph))
  {
    StepDecreases(env, s, s', ph);
    GuardIsSafe(env, s, ph);
    if IsNicMove(env, s) {
      assert ph == Stale;
      SecondNicStep(env, s, s');
    }
  }

  lemma SpentFrom(env: Env, run: seq<State>, i: nat, j: nat)
    requires Run(env, run) && i + 2 <= j < |run| && IsNicMove(env, run[i])
    ensures Spent(env, run[j], PhaseAt(env, run, j))
  {
    LeavesUntouched(env, run, i, j - 1);
    var s, s', ph := run[j - 1], run[j], PhaseAt(env, run, j - 1);
    assert Inv(env, s, ph) by {
      RunKeepsInvariant(env, run, j - 1);
    }
    assert StepAt(env, run, j - 1);
    SpentStays(env, s, s', ph);
    assert PhaseAt(env, run, j) == PhaseAfter(env, s, ph);
  }

  // NIC turns that move something come in one episode of at most two consecutive iterations, and
  // afterwards the NIC node never again holds more than one VM.
  lemma OneEpisode(env: Env, run: seq<State>, i: nat, j: nat)
    requires Run(env, run) && i < j < |run| && IsNicMove(env, run[i])
    ensures |run[j].on| == env.nodes && |run[j].on[env.nic]| <= 1
    ensures j < |run| - 1 && IsNicMove(env, run[j]) ==> j == i + 1
  {
    LeavesUntouched(env, run, i, j);
    RunKeepsInvariant(env, run, j);
    if j < |run| - 1 && i + 2 <= j {
      SpentFrom(env, run, i, j);
      assert StepAt(env, run, j);
      SpentHasNoNicMove(env, run[j], PhaseAt(env, run, j));
    }
  }

  lemma {:induction false} LeavesUntouched(env: Env, run: seq<State>, i: nat, j: nat)
    requires i < j < |run| && IsNicMove(env, run[i])
    ensures PhaseAt(env, run, j) != Untouched
    decreases j
  {
    if j > i + 1 {
      LeavesUntouched(env, run, i, j - 1);
    }
  }

  lemma {:induction false} StaysUntouched(env: Env, run: seq<State>, j: nat)
    requires j < |run|
    ensures PhaseAt(env, run, j) == Untouched <==> forall i | 0 <= i < j :: !IsNicMove(env, run[i])
  {
    if j > 0 {
      StaysUntouched(env, run, j - 1);
    }
  }

  // A move made on up-to-date counts lowers the sum of squares.
  lemma FreshMovesImprove(env: Env, run: seq<State>, i: nat)
    requires Run(env, run) && i < |run| - 1
    requires IsMove(env, run[i]) && IsRanking(run[i].vec, run[i].on)
    ensures SumSq(run[i + 1].on) <= SumSq(run[i].on) - 2
  {
    RunKeepsInvariant(env, run, i);
    assert StepAt(env, run, i);
    var s, ph := run[i], PhaseAt(env, run, i);
    GuardIsSafe(env, s, ph);
    OutdatedIsNoRanking(env, s);
    if IsNicMove(env, s) {
      FirstNicStep(env, s, run[i + 1]);
    } else {
      FreshLoadStep(env, s, run[i + 1], ph);
    }
  }

  // ----- where a run can end -----

  ghost predicate Even(on: Placement) {
    forall j, k | 0 <= j < |on| && 0 <= k < |on| :: |on[j]| <= |on[k]| + 1
  }

  // The NIC node keeps two VMs, both IO-intensive, although another node is empty.
  ghost predicate PairKept(env: Env, on: Placement) {
    && 0 <= env.nic < |on|
    && |on[env.nic]| == 2
    && Others(env, on[env.nic]) == 0
    && (forall k | 0 <= k < |on| && k != env.nic :: |on[k]| <= 1)
    && exists k :: 0 <= k < |on| && |on[k]| == 0
  }

  // The NIC node is empty, t holds two VMs and every other node holds one.
  ghost predicate PairMovedTo(env: Env, on: Placement, t: int) {
    && 0 <= env.nic < |on|
    && 0 <= t < |on|
    && t != env.nic
    && |on[env.nic]| == 0
    && |on[t]| == 2
    && forall k | 0 <= k < |on| && k != env.nic && k != t :: |on[k]| == 1
  }

  lemma AccurateEnd(env: Env, s: State)
    requires Accurate(env, s) && !Guard(s)
    ensures Even(s.on) || PairKept(env, s.on)
  {
    RankingBounds(s.vec, s.on);
    if s.maxIdx == env.nodes - 1 {
      assert Even(s.on);
    } else {
      assert |s.on[s.vec[0].node]| == 0;
    }
  }

  lemma OutdatedEnd(env: Env, s: State)
    requires Outdated(env, s) && !Guard(s)
    ensures Even(s.on) || PairMovedTo(env, s.on, s.minNode)
  {
    assert s.maxIdx == env.nodes - 2;
    var nic := env.nic;
    forall k | 0 <= k < env.nodes && k != nic && |s.on[k]| > 1
      ensures k == s.minNode && |s.on[k]| == 2 && |s.on[nic]| == 0
      ensures forall j | 0 <= j < env.nodes && j != nic :: |s.on[j]| >= 1
    {
      assert HasNode(s.vec, k);
      var i :| 0 <= i < |s.vec| && s.vec[i].node == k;
      assert s.vec[i].count <= s.vec[env.nodes - 2].count <= 1;
    }
    if |s.on[s.minNode]| <= 1 {
      assert forall k | 0 <= k < env.nodes :: |s.on[k]| <= 1;
    }
  }

  // Exactly three shapes are possible; the third one needs two NIC turns in a row that send to the
  // same node, the second of them on counts taken before the first.
  lemma FinalShapes(env: Env, run: seq<State>)
    requires Complete(env, run)
    ensures var on := Last(run).on;
      && |on| == env.nodes
      && (Even(on) || PairKept(env, on) || exists t :: PairMovedTo(env, on, t))
    ensures forall t | PairMovedTo(env, Last(run).on, t) ::
              exists i :: 0 <= i < |run| - 2 && TwiceTo(env, run[i], run[i + 1], t)
  {
    var last := |run| - 1;
    var s := run[last];
    RunKeepsInvariant(env, run, last);
    if PhaseAt(env, run, last) == Stale {
      OutdatedEnd(env, s);
      if !Even(s.on) {
        assert PairMovedTo(env, s.on, s.minNode);
        DoubledTwice(env, run, last);
      }
    } else {
      AccurateEnd(env, s);
    }
  }

  ghost predicate TwiceTo(env: Env, s: State, s': State, t: int) {
    IsNicMove(env, s) && IsNicMove(env, s') && Target(env, s) == t == Target(env, s')
  }

  // What made the NIC node empty and the target hold two, one iteration back.
  lemma DoubledStep(env: Env, s: State, s': State, ph: Phase)
    requires Inv(env, s, ph) && Next(env, s, s') && PhaseAfter(env, s, ph) == Stale
    requires InBounds(env, s') && |s'.on[env.nic]| == 0 && |s'.on[s'.minNode]| == 2
    ensures ph == Stale && (IsNicMove(env, s) || IsSkip(env, s))
    ensures IsNicMove(env, s) ==> Target(env, s) == s.minNode == s'.minNode
    ensures IsSkip(env, s) ==> s'.on == s.on && s'.minNode == s.minNode
  {
    GuardIsSafe(env, s, ph);
    if IsNicMove(env, s) && ph == Untouched {
      FirstNicStep(env, s, s');
    } else if IsNicMove(env, s) {
      SecondNicStep(env, s, s');
      StaleTarget(env, s);
      MoveShape(s.on, s.high, Pick(env, s), Target(env, s));
    }
  }

  // In the stale phase an empty NIC node and a doubled node come from two sends to that node.
  lemma {:induction false} DoubledTwice(env: Env, run: seq<State>, j: nat)
    requires Run(env, run) && j < |run| && PhaseAt(env, run, j) == Stale
    requires InBounds(env, run[j]) && |run[j].on[env.nic]| == 0 && |run[j].on[run[j].minNode]| == 2
    ensures exists i :: 0 <= i < j - 1 && TwiceTo(env, run[i], run[i + 1], run[j].minNode)
  {
    var s := run[j - 1];
    assert StepAt(env, run, j - 1);
    RunKeepsInvariant(env, run, j - 1);
    DoubledStep(env, s, run[j], PhaseAt(env, run, j - 1));
    if IsNicMove(env, s) {
      FirstSendSetsTarget(env, run, j - 1);
    } else {
      DoubledTwice(env, run, j - 1);
    }
  }

  // Before the second NIC move of an episode comes the first one.
  lemma FirstSendSetsTarget(env: Env, run: seq<State>, j: nat)
    requires Run(env, run) && j < |run| - 1 && PhaseAt(env, run, j) == Stale && IsNicMove(env, run[j])
    ensures j > 0 && IsNicMove(env, run[j - 1]) && run[j].minNode == Target(env, run[j - 1])
  {
    var s := run[j - 1];
    assert StepAt(env, run, j - 1) && StepAt(env, run, j);
    RunKeepsInvariant(env, run, j - 1);
    RunKeepsInvariant(env, run, j);
  }

  // What a completed run leaves behind.
  lemma RunEnds(env: Env, run: seq<State>)
    requires Complete(env, run)
    ensures var on := Last(run).on;
      && |on| == env.nodes
      && Placed(on) == Placed(run[0].on)
      && (Even(on) || PairKept(env, on) || exists t :: PairMovedTo(env, on, t))
  {
    RunConserves(env, run, |run| - 1);
    FinalShapes(env, run);
  }
}
