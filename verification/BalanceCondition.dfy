// Exactly which inputs the loop balances whatever order the sort gives to ties.
module BalanceCondition {
  import opened VmTypes
  import opened Balancer
  import opened Placements
  import opened BalancerInvariant
  import opened BalancerRuns
  import opened Rankings

  // However ties are ordered, the loop leaves node sizes that differ by at most one.
  ghost predicate AlwaysBalances(env: Env, on: Placement) {
    forall run: seq<State> :: Complete(env, run) && run[0].on == on ==> Even(Last(run).on)
  }

  // A condition on the home placement alone: more VMs than nodes; or at most one VM at home on the
  // NIC node; or, with some non-IO VM at home there, a spare node or exactly one such VM.
  predicate Balanceable(env: Env, on: Placement)
    requires 0 <= env.nic < |on|
  {
    var others := Others(env, on[env.nic]);
    || Total(on) > |on|
    || |on[env.nic]| <= 1
    || (others >= 1 && (Total(on) < |on| || others == 1))
  }

  ghost predicate Homes(env: Env, on: Placement) {
    env.Valid() && |on| == env.nodes && NoneIdle(env, on)
  }

  // ----- totals of the final shapes -----

  lemma PairKeptTotal(env: Env, on: Placement)
    requires PairKept(env, on)
    ensures Total(on) <= |on|
  {
    var k :| 0 <= k < |on| && |on[k]| == 0;
    UpdateTotal(on, env.nic, [0]);
    UpdateTotal(on[env.nic := [0]], k, [0]);
    TotalAtMost(on[env.nic := [0]][k := [0]]);
  }

  lemma PairMovedTotal(env: Env, on: Placement, t: int)
    requires PairMovedTo(env, on, t)
    ensures Total(on) == |on|
  {
    UpdateTotal(on, env.nic, [0]);
    UpdateTotal(on[env.nic := [0]], t, [0]);
    TotalAtMost(on[env.nic := [0]][t := [0]]);
    TotalAtLeast(on[env.nic := [0]][t := [0]]);
  }

  // With no more VMs than nodes, a node with two leaves another one empty.
  lemma SomeNodeIsEmpty(env: Env, s: State, k: int)
    requires Accurate(env, s) && Total(s.on) <= env.nodes
    requires 0 <= k < env.nodes && |s.on[k]| >= 2
    ensures s.vec[0].count == 0
  {
    if forall j | 0 <= j < |s.on| :: |s.on[j]| >= 1 {
      CrowdedTotal(s.on, k);
    }
    RankingBounds(s.vec, s.on);
  }

  // ----- the NIC node's list before its own turns -----

  function UpToTwo(n: nat): nat {
    if n < 2 then n else 2
  }

  // What matters of the NIC node's list in deciding how the run ends.
  ghost predicate SameFate(env: Env, before: seq<int>, after: seq<int>) {
    && (|before| <= 1 ==> |after| <= 1)
    && (|before| >= 2 ==> |after| >= 2 && UpToTwo(Others(env, after)) == UpToTwo(Others(env, before)))
  }

  lemma FateOfLoadMove(env: Env, s: State, s': State)
    requires Accurate(env, s) && Next(env, s, s') && IsLoadMove(env, s)
    requires Total(s.on) <= env.nodes && NoneIdle(env, s.on)
    ensures |s'.on| == env.nodes && SameFate(env, s.on[env.nic], s'.on[env.nic])
  {
    FreshTarget(env, s);
    SomeNodeIsEmpty(env, s, s.high);
    var k := Pick(env, s);
    MoveShape(s.on, s.high, k, Target(env, s));
    if s.high == env.nic {
      var list := s.on[env.nic];
      OthersErase(env, list, k);
      OthersBounds(env, list);
      OthersBounds(env, Erase(list, k));
      if FirstIn(env, list, IoState) == |list| {
        assert forall i | 0 <= i < |list| :: env.StateOf(list[i]) == OtherState;
      }
    }
  }

  lemma {:induction false} FateOfNicList(env: Env, run: seq<State>, j: nat)
    requires Run(env, run) && j < |run| && PhaseAt(env, run, j) == Untouched
    requires Total(run[0].on) <= env.nodes && NoneIdle(env, run[0].on)
    ensures |run[0].on| == |run[j].on| == env.nodes && 0 <= env.nic < env.nodes
    ensures SameFate(env, run[0].on[env.nic], run[j].on[env.nic])
  {
    if j > 0 {
      var s := run[j - 1];
      assert StepAt(env, run, j - 1);
      FateOfNicList(env, run, j - 1);
      RunKeepsInvariant(env, run, j - 1);
      RunConserves(env, run, j - 1);
      if IsLoadMove(env, s) {
        FateOfLoadMove(env, s, run[j]);
      }
    }
  }

  // The first move of a NIC turn: two VMs are there, one of them not IO-intensive.
  lemma FirstNicMoveSees(env: Env, run: seq<State>, i: nat)
    requires Run(env, run) && i < |run| - 1 && IsNicMove(env, run[i])
    requires PhaseAt(env, run, i) == Untouched
    requires Total(run[0].on) <= env.nodes && NoneIdle(env, run[0].on)
    ensures |run[0].on[env.nic]| >= 2
    ensures Others(env, run[0].on[env.nic]) >= 1
    ensures IsNicMove(env, run[i + 1]) ==> Others(env, run[0].on[env.nic]) >= 2
  {
    var s := run[i];
    assert StepAt(env, run, i);
    FateOfNicList(env, run, i);
    RunKeepsInvariant(env, run, i);
    FreshTarget(env, s);
    FirstNicStep(env, s, run[i + 1]);
    MoveShape(s.on, s.high, Pick(env, s), Target(env, s));
    OthersErase(env, s.on[env.nic], Pick(env, s));
    OthersBounds(env, s.on[env.nic]);
    OthersBounds(env, run[i + 1].on[env.nic]);
  }

  lemma {:induction false} FirstNicMove(env: Env, run: seq<State>, j: nat) returns (i: nat)
    requires j < |run| && PhaseAt(env, run, j) != Untouched
    ensures i < j && IsNicMove(env, run[i]) && PhaseAt(env, run, i) == Untouched
  {
    if PhaseAt(env, run, j - 1) == Untouched {
      i := j - 1;
    } else {
      i := FirstNicMove(env, run, j - 1);
    }
  }

  // ----- which runs end uneven -----

  lemma PairKeptMeans(env: Env, run: seq<State>)
    requires Complete(env, run) && Homes(env, run[0].on) && PairKept(env, Last(run).on)
    ensures !Balanceable(env, run[0].on) && Others(env, run[0].on[env.nic]) == 0
  {
    var last := |run| - 1;
    RunConserves(env, run, last);
    PairKeptTotal(env, Last(run).on);
    if PhaseAt(env, run, last) == Untouched {
      FateOfNicList(env, run, last);
    } else {
      RunKeepsInvariant(env, run, last);
    }
  }

  // Two NIC moves in a row: the first of them is the first of the run.
  lemma TwiceMeans(env: Env, run: seq<State>, i: nat)
    requires Run(env, run) && i < |run| - 2 && IsNicMove(env, run[i]) && IsNicMove(env, run[i + 1])
    requires Total(run[0].on) <= env.nodes && NoneIdle(env, run[0].on)
    ensures |run[0].on| == env.nodes && |run[0].on[env.nic]| >= 2 && Others(env, run[0].on[env.nic]) >= 2
  {
    RunConserves(env, run, 0);
    if PhaseAt(env, run, i) != Untouched {
      var f := FirstNicMove(env, run, i);
      OneEpisode(env, run, f, i + 1);
    } else {
      FirstNicMoveSees(env, run, i);
    }
  }

  lemma PairMovedMeans(env: Env, run: seq<State>, t: int)
    requires Complete(env, run) && Homes(env, run[0].on) && PairMovedTo(env, Last(run).on, t)
    ensures !Balanceable(env, run[0].on) && Others(env, run[0].on[env.nic]) >= 2
  {
    FinalShapes(env, run);
    RunConserves(env, run, |run| - 1);
    PairMovedTotal(env, Last(run).on, t);
    var i :| 0 <= i < |run| - 2 && TwiceTo(env, run[i], run[i + 1], t);
    TwiceMeans(env, run, i);
  }

  // What is at home on the NIC node tells the two uneven shapes apart.
  lemma UnevenShape(env: Env, run: seq<State>)
    requires Complete(env, run) && Homes(env, run[0].on) && !Even(Last(run).on)
    ensures PairKept(env, Last(run).on) <==> Others(env, run[0].on[env.nic]) == 0
    ensures (exists t :: PairMovedTo(env, Last(run).on, t)) <==> Others(env, run[0].on[env.nic]) >= 2
  {
    FinalShapes(env, run);
    var end := Last(run).on;
    if PairKept(env, end) {
      PairKeptMeans(env, run);
    } else if t :| PairMovedTo(env, end, t) {
      PairMovedMeans(env, run, t);
    }
  }

  lemma BalanceableSuffices(env: Env, on: Placement)
    requires Homes(env, on) && Balanceable(env, on)
    ensures AlwaysBalances(env, on)
  {
    forall run: seq<State> | Complete(env, run) && run[0].on == on ensures Even(Last(run).on) {
      FinalShapes(env, run);
      var end := Last(run).on;
      if PairKept(env, end) {
        PairKeptMeans(env, run);
      } else if t :| PairMovedTo(env, end, t) {
        PairMovedMeans(env, run, t);
      }
    }
  }

  // ----- runs that do end uneven -----

  // Two IO-intensive VMs at home on the NIC node stay there for good.
  lemma AllIoKeepsPair(env: Env, run: seq<State>)
    requires Complete(env, run) && Homes(env, run[0].on)
    requires Total(run[0].on) <= env.nodes
    requires |run[0].on[env.nic]| >= 2 && Others(env, run[0].on[env.nic]) == 0
    ensures !Even(Last(run).on)
  {
    var last := |run| - 1;
    if PhaseAt(env, run, last) != Untouched {
      var i := FirstNicMove(env, run, last);
      FirstNicMoveSees(env, run, i);
    } else {
      FateOfNicList(env, run, last);
      RunConserves(env, run, last);
      var end := Last(run).on;
      if Even(end) {
        assert forall j | 0 <= j < |end| :: |end[env.nic]| <= |end[j]| + 1;
        CrowdedTotal(end, env.nic);
      }
    }
  }

  // A chain of iterations, from any state on.
  ghost predicate Chain(env: Env, run: seq<State>) {
    |run| > 0 && forall i | 0 <= i < |run| - 1 :: StepAt(env, run, i)
  }

  lemma Prepend(env: Env, s: State, run: seq<State>)
    requires Chain(env, run) && Next(env, s, run[0])
    ensures Chain(env, [s] + run) && Last([s] + run) == Last(run)
  {
    var longer := [s] + run;
    forall i | 0 <= i < |longer| - 1 ensures StepAt(env, longer, i) {
      if i > 0 {
        assert StepAt(env, run, i - 1);
      }
    }
  }

  // No reachable state is stuck ...
  lemma SomeStep(env: Env, s: State, ph: Phase) returns (s': State)
    requires Inv(env, s, ph) && Guard(s)
    ensures Next(env, s, s')
  {
    GuardIsSafe(env, s, ph);
    if IsSkip(env, s) {
      s' := Skipped(s);
    } else if IsNicMove(env, s) {
      s' := s.(on := Moved(env, s), minNode := Target(env, s));
    } else {
      var vec := RankingAvoiding(Moved(env, s), env.nic);
      s' := Ranked(Moved(env, s), vec);
    }
  }

  // ... and each one leads to the end of the loop.
  lemma LoopCompletes(env: Env, s: State, ph: Phase) returns (run: seq<State>)
    requires Inv(env, s, ph)
    ensures Chain(env, run) && run[0] == s && !Guard(Last(run))
    decreases Potential(env, s, ph)
  {
    if !Guard(s) {
      return [s];
    }
    var s' := SomeStep(env, s, ph);
    StepDecreases(env, s, s', ph);
    var rest := LoopCompletes(env, s', PhaseAfter(env, s, ph));
    Prepend(env, s, rest);
    run := [s] + rest;
  }

  // As many VMs as nodes and two non-IO VMs at home on the NIC node, ranked so that the NIC node
  // is looked at last.
  ghost predicate Adverse(env: Env, s: State) {
    && Accurate(env, s)
    && s == Ranked(s.on, s.vec)
    && NoneIdle(env, s.on)
    && Total(s.on) == env.nodes
    && |s.on[env.nic]| >= 2
    && Others(env, s.on[env.nic]) >= 2
    && (s.high == env.nic ==> forall k | 0 <= k < env.nodes && k != env.nic :: |s.on[k]| < |s.on[env.nic]|)
  }

  // The NIC node sends one VM away, and the next iteration again finds it with a non-IO VM.
  lemma AdverseFirstSend(env: Env, s: State) returns (s1: State)
    requires Adverse(env, s) && NicTurn(env, s)
    ensures Next(env, s, s1) && Outdated(env, s1) && s1 == s.(on := s1.on, minNode := s1.minNode)
    ensures s.maxIdx == env.nodes - 1 && Guard(s1) && IsNicMove(env, s1) && |s1.on[env.nic]| == 1
  {
    SomeNodeIsEmpty(env, s, env.nic);
    OthersBounds(env, s.on[env.nic]);
    s1 := s.(on := Moved(env, s), minNode := Target(env, s));
    FirstNicStep(env, s, s1);
    FreshTarget(env, s);
    MoveShape(s.on, s.high, Pick(env, s), Target(env, s));
    OthersErase(env, s.on[env.nic], Pick(env, s));
    OthersBounds(env, s1.on[env.nic]);
  }

  // The second VM leaves too; then the iteration steps past the NIC node.
  lemma AdverseSecondSend(env: Env, s: State, s1: State) returns (s2: State, s3: State)
    requires Outdated(env, s1) && Guard(s1) && IsNicMove(env, s1) && s1.maxIdx == env.nodes - 1
    ensures Next(env, s1, s2) && Next(env, s2, s3)
    ensures |s3.on| == env.nodes && |s3.on[env.nic]| == 0 && s3.vec == s1.vec
    ensures env.nodes >= 2 && s3.maxCnt == s1.vec[env.nodes - 2].count
  {
    s2 := s1.(on := Moved(env, s1), minNode := Target(env, s1));
    SecondNicStep(env, s1, s2);
    OthersBounds(env, s2.on[env.nic]);
    s3 := Skipped(s2);
    SkipStep(env, s2, s3, Stale);
  }

  // The NIC node sends both its VMs away and the loop stops.
  lemma AdverseNicTurn(env: Env, s: State) returns (run: seq<State>)
    requires Adverse(env, s) && NicTurn(env, s)
    ensures Chain(env, run) && run[0] == s && !Guard(Last(run))
    ensures |Last(run).on| == env.nodes && |Last(run).on[env.nic]| == 0
  {
    var s1 := AdverseFirstSend(env, s);
    var s2, s3 := AdverseSecondSend(env, s, s1);
    assert s3.maxCnt == |s.on[s.vec[env.nodes - 2].node]|;
    run := [s3];
    Prepend(env, s2, run);
    run := [s2] + run;
    Prepend(env, s1, run);
    run := [s1] + run;
    Prepend(env, s, run);
    run := [s] + run;
  }

  // A load move with a suitable ranking leaves the state adverse.
  lemma AdversePersists(env: Env, s: State, s': State)
    requires Adverse(env, s) && Next(env, s, s') && IsLoadMove(env, s)
    requires s'.high == env.nic ==>
               forall k | 0 <= k < |s'.on| && k != env.nic :: |s'.on[k]| < |s'.on[env.nic]|
    ensures Adverse(env, s') && SumSq(s'.on) < SumSq(s.on)
  {
    FreshLoadStep(env, s, s', Untouched);
    FateOfLoadMove(env, s, s');
    StepConserves(env, s, s', Untouched);
  }

  lemma AdverseStep(env: Env, s: State) returns (s': State)
    requires Adverse(env, s) && !NicTurn(env, s)
    ensures Next(env, s, s') && Adverse(env, s') && SumSq(s'.on) < SumSq(s.on)
  {
    AdverseGuard(env, s);
    var on' := Moved(env, s);
    var vec := RankingAvoiding(on', env.nic);
    s' := Ranked(on', vec);
    AdversePersists(env, s, s');
  }

  lemma AdverseGuard(env: Env, s: State)
    requires Adverse(env, s)
    ensures Guard(s) && |s.on[s.high]| == s.maxCnt
  {
    SomeNodeIsEmpty(env, s, env.nic);
    RankingBounds(s.vec, s.on);
  }

  lemma AdverseRun(env: Env, s: State) returns (run: seq<State>)
    requires Adverse(env, s)
    ensures Chain(env, run) && run[0] == s && !Guard(Last(run))
    ensures |Last(run).on| == env.nodes && |Last(run).on[env.nic]| == 0
    decreases SumSq(s.on)
  {
    if NicTurn(env, s) {
      run := AdverseNicTurn(env, s);
    } else {
      var s' := AdverseStep(env, s);
      var rest := AdverseRun(env, s');
      Prepend(env, s, rest);
      run := [s] + rest;
    }
  }

  lemma BalanceableIsNecessary(env: Env, on: Placement)
    requires Homes(env, on) && AlwaysBalances(env, on)
    ensures Balanceable(env, on)
  {
    if !Balanceable(env, on) {
      var vec := RankingAvoiding(on, env.nic);
      var s := Ranked(on, vec);
      InitialIsAccurate(env, s);
      if Others(env, on[env.nic]) == 0 {
        var run := LoopCompletes(env, s, Untouched);
        AllIoKeepsPair(env, run);
      } else {
        var run := AdverseRun(env, s);
        var end := Last(run).on;
        RunConserves(env, run, |run| - 1);
        assert Complete(env, run);
        assert forall j | 0 <= j < |end| :: |end[j]| <= |end[env.nic]| + 1;
        UpdateTotal(end, env.nic, [0]);
        TotalAtMost(end[env.nic := [0]]);
      }
    }
  }

  // The loop balances a home placement under every tie-break if and only if it is Balanceable.
  lemma BalancesIff(env: Env, on: Placement)
    requires Homes(env, on)
    ensures AlwaysBalances(env, on) <==> Balanceable(env, on)
  {
    if Balanceable(env, on) {
      BalanceableSuffices(env, on);
    }
    if AlwaysBalances(env, on) {
      BalanceableIsNecessary(env, on);
    }
  }
}
