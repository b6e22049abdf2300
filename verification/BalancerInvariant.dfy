// What every iteration of the balancing loop keeps, including the iterations
// that work on counts taken before the last move.
module BalancerInvariant {
  import opened VmTypes
  import opened Balancer
  import opened Placements

  // Untouched: the NIC node has sent nothing in its own turn yet.
  // Stale: it has, and the ranking has not been rebuilt since.
  // Settled: the ranking has been rebuilt after that.
  datatype Phase = Untouched | Stale | Settled

  ghost function PhaseAfter(env: Env, s: State, ph: Phase): Phase {
    if IsNicMove(env, s) then Stale
    else if IsLoadMove(env, s) && ph == Stale then Settled
    else ph
  }

  // The iteration has stepped past the NIC node, which holds two VMs that must stay.
  ghost predicate SteppedPastNic(env: Env, s: State) {
    && env.nodes >= 2
    && |s.vec| == env.nodes == |s.on|
    && 0 <= env.nic < env.nodes
    && s.maxIdx == env.nodes - 2
    && s.vec[env.nodes - 1] == Load(env.nic, 2)
    && s.vec[0].count == 0
    && Others(env, s.on[env.nic]) == 0
  }

  // The variables agree with the lists.
  ghost predicate Accurate(env: Env, s: State) {
    && InBounds(env, s)
    && IsRanking(s.vec, s.on)
    && s.minCnt == s.vec[0].count
    && s.minNode == s.vec[0].node
    && s.high == s.vec[s.maxIdx].node
    && s.maxCnt == s.vec[s.maxIdx].count
    && (s.maxIdx == env.nodes - 1 || SteppedPastNic(env, s))
  }

  // Sizes against an outdated ranking: a node recorded as occupied is unchanged; one recorded as
  // empty holds at most one VM, unless the NIC node has sent both its VMs there because every
  // other node was occupied.
  ghost predicate SizesSinceRanking(s: State, nic: int)
    requires 0 <= nic < |s.on| == |s.vec|
    requires forall i | 0 <= i < |s.vec| :: 0 <= s.vec[i].node < |s.on|
  {
    && (forall i | 0 <= i < |s.vec| - 1 && s.vec[i].count >= 1 ::
          s.vec[i].node != s.minNode && |s.on[s.vec[i].node]| == s.vec[i].count)
    && (forall i | 0 <= i < |s.vec| - 1 && s.vec[i].count == 0 && |s.on[s.vec[i].node]| > 1 ::
          && s.vec[i].node == s.minNode
          && |s.on[s.minNode]| == 2
          && |s.on[nic]| == 0
          && forall k | 0 <= k < |s.on| && k != nic :: |s.on[k]| >= 1)
  }

  // The ranking still shows the NIC node with the two VMs it had.
  ghost predicate Outdated(env: Env, s: State) {
    && InBounds(env, s)
    && env.nodes >= 2
    && OrderedNodes(s.vec, env.nodes)
    && s.vec[env.nodes - 1] == Load(env.nic, 2)
    && s.vec[0].count == 0
    && s.minCnt == 0
    && s.high == s.vec[s.maxIdx].node
    && s.maxCnt == s.vec[s.maxIdx].count
    && (s.maxIdx == env.nodes - 1 || (s.maxIdx == env.nodes - 2 && Others(env, s.on[env.nic]) == 0))
    && |s.on[env.nic]| <= 1
    && s.minNode != env.nic
    && |s.on[s.minNode]| >= 1
    && (|s.on[env.nic]| == 1 ==> |s.on[s.minNode]| == 1)
    && SizesSinceRanking(s, env.nic)
  }

  ghost predicate Inv(env: Env, s: State, ph: Phase) {
    match ph
    case Untouched => Accurate(env, s)
    case Stale => Outdated(env, s)
    case Settled =>
      && Accurate(env, s)
      && |s.on[env.nic]| <= 1
      && forall k | 0 <= k < env.nodes :: |s.on[k]| <= 2
  }

  // Strictly decreases in every iteration; see StepDecreases.
  ghost function Potential(env: Env, s: State, ph: Phase): nat
    requires Inv(env, s, ph)
  {
    SumSq(s.on)
    + (if s.maxIdx == env.nodes - 1 then 1 else 0)
    + match ph
      case Untouched => 2
      case Stale => 3 * |s.on[env.nic]|
      case Settled => 0
  }

  // ----- reading sizes off a ranking -----

  lemma RankingBounds(vec: seq<Load>, on: Placement)
    requires IsRanking(vec, on) && |on| > 0
    ensures forall k | 0 <= k < |on| :: vec[0].count <= |on[k]| <= vec[|vec| - 1].count
    ensures |on| >= 2 ==>
              forall k | 0 <= k < |on| && k != vec[|vec| - 1].node :: |on[k]| <= vec[|vec| - 2].count
  {
    forall k | 0 <= k < |on|
      ensures vec[0].count <= |on[k]| <= vec[|vec| - 1].count
      ensures |on| >= 2 && k != vec[|vec| - 1].node ==> |on[k]| <= vec[|vec| - 2].count
    {
      assert HasNode(vec, k);
      var i :| 0 <= i < |vec| && vec[i].node == k;
    }
  }

  lemma InitialIsAccurate(env: Env, s: State)
    requires Initial(env, s)
    ensures Inv(env, s, Untouched)
  {
  }

  // The unsigned subtraction in the loop guard never wraps, and all reads are in bounds.
  lemma GuardIsSafe(env: Env, s: State, ph: Phase)
    requires Inv(env, s, ph)
    ensures InBounds(env, s)
    ensures s.minCnt <= s.maxCnt
    ensures Guard(s) && !NicTurn(env, s) ==> |s.on[s.high]| == s.maxCnt
    ensures Guard(s) && NicTurn(env, s) ==> s.maxIdx == env.nodes - 1 && env.nodes >= 2 && s.minCnt == 0 && s.maxCnt == 2
  {
  }

  lemma OutdatedIsNoRanking(env: Env, s: State)
    ensures Outdated(env, s) ==> !IsRanking(s.vec, s.on)
  {
    if Outdated(env, s) {
      assert s.vec[env.nodes - 1].count != |s.on[s.vec[env.nodes - 1].node]|;
    }
  }

  // The move goes to a different node, and if some node has the least count it has that count.
  lemma FreshTarget(env: Env, s: State)
    requires Accurate(env, s) && Guard(s) && IsMove(env, s)
    ensures 0 <= Target(env, s) < env.nodes && Target(env, s) != s.high
    ensures |s.on[Target(env, s)]| == s.minCnt
    ensures |s.on[s.high]| == s.maxCnt
  {
    TargetInRange(env, s);
    NearestHasCount(env, s, s.minNode);
  }

  lemma NearestHasCount(env: Env, s: State, k: int)
    requires InBounds(env, s)
    requires 0 <= k < env.nodes && |s.on[k]| == s.minCnt
    ensures 0 <= Target(env, s) < env.nodes && |s.on[Target(env, s)]| == s.minCnt
  {
    var list := env.near[s.high];
    assert CoversNodes(list, env.nodes);
    assert k in list;
    var i :| 0 <= i < |list| && list[i] == k;
    assert |s.on[list[i]]| == s.minCnt;
  }

  // ----- one iteration, case by case -----

  lemma SkipStep(env: Env, s: State, s': State, ph: Phase)
    requires Inv(env, s, ph) && Next(env, s, s') && IsSkip(env, s)
    ensures Inv(env, s', ph) && s'.maxIdx == s.maxIdx - 1 && s'.on == s.on
    ensures Potential(env, s', ph) < Potential(env, s, ph)
  {
    GuardIsSafe(env, s, ph);
    OthersBounds(env, s.on[env.nic]);
  }

  lemma FirstNicStep(env: Env, s: State, s': State)
    requires Accurate(env, s) && Next(env, s, s') && IsNicMove(env, s)
    ensures Outdated(env, s') && |s'.on[env.nic]| == 1
    ensures SumSq(s'.on) == SumSq(s.on) - 2
  {
    GuardIsSafe(env, s, Untouched);
    FreshTarget(env, s);
    var k, t := Pick(env, s), Target(env, s);
    MoveShape(s.on, s.high, k, t);
    MoveSquares(s.on, s.high, k, t);
    assert forall i | 0 <= i < env.nodes - 1 :: s.vec[i].node != env.nic;
  }

  // With outdated counts the move goes to an empty node, or, when there is none, to the node the
  // previous move filled.
  lemma StaleTarget(env: Env, s: State)
    requires Outdated(env, s)
    ensures var t := Target(env, s);
      && 0 <= t < env.nodes
      && (|s.on[t]| == 0 || (t == s.minNode && forall j | 0 <= j < env.nodes :: |s.on[j]| >= 1))
  {
    TargetInRange(env, s);
    var list := env.near[s.high];
    assert CoversNodes(list, env.nodes);
    if j :| 0 <= j < env.nodes && |s.on[j]| == 0 {
      NearestHasCount(env, s, j);
    } else {
      assert forall i | 0 <= i < |list| :: |s.on[list[i]]| != s.minCnt;
    }
  }

  lemma SecondNicStep(env: Env, s: State, s': State)
    requires Outdated(env, s) && Next(env, s, s') && IsNicMove(env, s)
    ensures Outdated(env, s') && |s.on[env.nic]| == 1 && |s'.on[env.nic]| == 0
    ensures SumSq(s'.on) <= SumSq(s.on) + 2
  {
    StaleTarget(env, s);
    var k, t := Pick(env, s), Target(env, s);
    MoveShape(s.on, s.high, k, t);
    MoveSquares(s.on, s.high, k, t);
    OthersBounds(env, s.on[env.nic]);
    assert forall i | 0 <= i < env.nodes - 1 :: s.vec[i].node != env.nic;
  }

  lemma FreshLoadStep(env: Env, s: State, s': State, ph: Phase)
    requires ph != Stale && Inv(env, s, ph) && Next(env, s, s') && IsLoadMove(env, s)
    ensures Inv(env, s', ph)
    ensures SumSq(s'.on) <= SumSq(s.on) - 2
  {
    GuardIsSafe(env, s, ph);
    FreshTarget(env, s);
    var k, t := Pick(env, s), Target(env, s);
    MoveShape(s.on, s.high, k, t);
    MoveSquares(s.on, s.high, k, t);
  }

  lemma StaleLoadStep(env: Env, s: State, s': State)
    requires Outdated(env, s) && Next(env, s, s') && IsLoadMove(env, s)
    ensures Inv(env, s', Settled)
    ensures SumSq(s'.on) <= SumSq(s.on)
    ensures |s.on[env.nic]| == 0 ==> SumSq(s'.on) <= SumSq(s.on) - 2
  {
    GuardIsSafe(env, s, Stale);
    StaleTarget(env, s);
    var k, t := Pick(env, s), Target(env, s);
    StaleSizes(env, s);
    assert |s.on[s.high]| == 2;
    MoveShape(s.on, s.high, k, t);
    MoveSquares(s.on, s.high, k, t);
  }

  lemma StaleSizes(env: Env, s: State)
    requires Outdated(env, s)
    ensures forall k | 0 <= k < env.nodes :: |s.on[k]| <= 2
  {
    forall k | 0 <= k < env.nodes ensures |s.on[k]| <= 2 {
      assert HasNode(s.vec, k);
      var i :| 0 <= i < |s.vec| && s.vec[i].node == k;
      assert s.vec[i].count <= s.vec[env.nodes - 1].count;
    }
  }

  // Every iteration keeps the invariant and strictly decreases the potential.
  lemma StepDecreases(env: Env, s: State, s': State, ph: Phase)
    requires Inv(env, s, ph) && Next(env, s, s')
    ensures Inv(env, s', PhaseAfter(env, s, ph))
    ensures Potential(env, s', PhaseAfter(env, s, ph)) < Potential(env, s, ph)
  {
    GuardIsSafe(env, s, ph);
    if IsSkip(env, s) {
      SkipStep(env, s, s', ph);
    } else if IsLoadMove(env, s) {
      if ph == Stale {
        StaleLoadStep(env, s, s');
      } else {
        FreshLoadStep(env, s, s', ph);
      }
    } else if ph == Stale {
      SecondNicStep(env, s, s');
    } else {
      assert ph == Untouched;
      FirstNicStep(env, s, s');
    }
  }
}
