// Exactly which home placements the loop never balances, however the sort
// orders ties; for the others some order does.
module BalanceNever {
  import opened VmTypes
  import opened Balancer
  import opened Placements
  import opened BalancerInvariant
  import opened BalancerRuns
  import opened Rankings
  import opened BalanceCondition

  ghost predicate NeverBalances(env: Env, on: Placement) {
    forall run: seq<State> :: Complete(env, run) && run[0].on == on ==> !Even(Last(run).on)
  }

  // No more VMs than nodes, at least two at home on the NIC node, and either all of those are
  // IO-intensive, or there are as many VMs as nodes, at least two of those at home on the NIC node
  // are not IO-intensive, and no other node is home to two.
  ghost predicate Hopeless(env: Env, on: Placement)
    requires 0 <= env.nic < |on|
  {
    && Total(on) <= |on|
    && |on[env.nic]| >= 2
    && (|| Others(env, on[env.nic]) == 0
        || (&& Total(on) == |on|
            && Others(env, on[env.nic]) >= 2
            && forall k | 0 <= k < |on| && k != env.nic :: |on[k]| <= 1))
  }

  // ----- hopeless placements -----

  // The NIC node alone holds two or more, or has begun to send both its VMs away.
  ghost predicate LoneHeavy(env: Env, s: State, ph: Phase) {
    && InBounds(env, s)
    && Total(s.on) == env.nodes
    && NoneIdle(env, s.on)
    && match ph
       case Untouched =>
         && Accurate(env, s)
         && |s.on[env.nic]| >= 2
         && Others(env, s.on[env.nic]) >= 2
         && forall k | 0 <= k < env.nodes && k != env.nic :: |s.on[k]| <= 1
       case Stale =>
         && Outdated(env, s)
         && s.vec[env.nodes - 2].count <= 1
         && (|s.on[env.nic]| == 1 ==> Others(env, s.on[env.nic]) == 1)
       case Settled => false
  }

  lemma LoneHeavyFirst(env: Env, s: State, s': State)
    requires LoneHeavy(env, s, Untouched) && Next(env, s, s')
    ensures LoneHeavy(env, s', PhaseAfter(env, s, Untouched))
  {
    StepConserves(env, s, s', Untouched);
    SomeNodeIsEmpty(env, s, env.nic);
    OthersBounds(env, s.on[env.nic]);
    GuardIsSafe(env, s, Untouched);
    RankingBounds(s.vec, s.on);
    assert s.high == env.nic;
    if IsLoadMove(env, s) {
      FreshLoadStep(env, s, s', Untouched);
      FateOfLoadMove(env, s, s');
      FreshTarget(env, s);
      MoveShape(s.on, s.high, Pick(env, s), Target(env, s));
    } else {
      LoneHeavySends(env, s, s');
    }
  }

  lemma LoneHeavySends(env: Env, s: State, s': State)
    requires LoneHeavy(env, s, Untouched) && Next(env, s, s') && IsNicMove(env, s)
    ensures Outdated(env, s') && s'.vec[env.nodes - 2].count <= 1 && Others(env, s'.on[env.nic]) == 1
  {
    GuardIsSafe(env, s, Untouched);
    FirstNicStep(env, s, s');
    FreshTarget(env, s);
    MoveShape(s.on, s.high, Pick(env, s), Target(env, s));
    OthersErase(env, s.on[env.nic], Pick(env, s));
    OthersBounds(env, s.on[env.nic]);
    assert s.vec[env.nodes - 2].count == |s.on[s.vec[env.nodes - 2].node]|;
  }

  lemma LoneHeavyStep(env: Env, s: State, s': State, ph: Phase)
    requires LoneHeavy(env, s, ph) && Next(env, s, s')
    ensures LoneHeavy(env, s', PhaseAfter(env, s, ph))
  {
    if ph == Untouched {
      LoneHeavyFirst(env, s, s');
    } else {
      StepConserves(env, s, s', Stale);
      StepDecreases(env, s, s', Stale);
      GuardIsSafe(env, s, Stale);
      if IsNicMove(env, s) {
        SecondNicStep(env, s, s');
      }
    }
  }

  lemma {:induction false} LoneHeavyRun(env: Env, run: seq<State>, j: nat)
    requires Run(env, run) && j < |run| && LoneHeavy(env, run[0], Untouched)
    ensures LoneHeavy(env, run[j], PhaseAt(env, run, j))
  {
    if j > 0 {
      assert StepAt(env, run, j - 1);
      LoneHeavyRun(env, run, j - 1);
      LoneHeavyStep(env, run[j - 1], run[j], PhaseAt(env, run, j - 1));
    }
  }

  lemma LoneHeavyEnd(env: Env, s: State, ph: Phase)
    requires LoneHeavy(env, s, ph) && !Guard(s)
    ensures !Even(s.on)
  {
    if Even(s.on) {
      assert forall j | 0 <= j < |s.on| :: |s.on[env.nic]| <= |s.on[j]| + 1 && |s.on[j]| <= |s.on[env.nic]| + 1;
      if ph == Untouched {
        CrowdedTotal(s.on, env.nic);
      } else {
        UpdateTotal(s.on, env.nic, [0]);
        TotalAtMost(s.on[env.nic := [0]]);
      }
    }
  }

  lemma HopelessSuffices(env: Env, on: Placement)
    requires Homes(env, on) && Hopeless(env, on)
    ensures NeverBalances(env, on)
  {
    forall run: seq<State> | Complete(env, run) && run[0].on == on ensures !Even(Last(run).on) {
      if Others(env, on[env.nic]) == 0 {
        AllIoKeepsPair(env, run);
      } else {
        InitialIsAccurate(env, run[0]);
        LoneHeavyRun(env, run, |run| - 1);
        LoneHeavyEnd(env, Last(run), PhaseAt(env, run, |run| - 1));
      }
    }
  }

  // ----- the others have a run that ends even -----

  // Another node was recorded with two VMs, so the outdated ranking leads on to a rebuild.
  ghost predicate LeadsOn(env: Env, s: State, ph: Phase) {
    Inv(env, s, ph) && ph != Untouched && (ph == Stale ==> s.vec[env.nodes - 2].count == 2)
  }

  lemma LeadsOnStep(env: Env, s: State, s': State, ph: Phase)
    requires LeadsOn(env, s, ph) && Next(env, s, s')
    ensures LeadsOn(env, s', PhaseAfter(env, s, ph))
    ensures Potential(env, s', PhaseAfter(env, s, ph)) < Potential(env, s, ph)
  {
    StepDecreases(env, s, s', ph);
    GuardIsSafe(env, s, ph);
  }

  lemma LeadsOnEnd(env: Env, s: State, ph: Phase)
    requires LeadsOn(env, s, ph) && !Guard(s)
    ensures Even(s.on)
  {
    if ph == Settled {
      AccurateEnd(env, s);
    }
  }

  lemma EvenFrom(env: Env, s: State, ph: Phase) returns (run: seq<State>)
    requires LeadsOn(env, s, ph)
    ensures Chain(env, run) && run[0] == s && !Guard(Last(run)) && Even(Last(run).on)
    decreases Potential(env, s, ph)
  {
    if !Guard(s) {
      LeadsOnEnd(env, s, ph);
      return [s];
    }
    var s' := SomeStep(env, s, ph);
    LeadsOnStep(env, s, s', ph);
    var rest := EvenFrom(env, s', PhaseAfter(env, s, ph));
    Prepend(env, s, rest);
    run := [s] + rest;
  }

  // As many VMs as nodes, two non-IO VMs on the NIC node, another node with two, and the NIC node
  // ranked last as soon as two is the largest size.
  ghost predicate Favourable(env: Env, s: State, k: int) {
    && Accurate(env, s)
    && s == Ranked(s.on, s.vec)
    && NoneIdle(env, s.on)
    && Total(s.on) == env.nodes
    && |s.on[env.nic]| >= 2
    && Others(env, s.on[env.nic]) >= 2
    && 0 <= k < env.nodes && k != env.nic && |s.on[k]| >= 2
    && (s.maxCnt == 2 ==> s.high == env.nic)
  }

  lemma FavourableGuard(env: Env, s: State, k: int)
    requires Favourable(env, s, k)
    ensures Guard(s) && |s.on[s.high]| == s.maxCnt && s.minCnt == 0
  {
    SomeNodeIsEmpty(env, s, env.nic);
    RankingBounds(s.vec, s.on);
  }

  // There is a ranking that puts the NIC node last if nothing is larger.
  lemma RankingPreferring(on: Placement, nic: int) returns (vec: seq<Load>)
    requires 0 <= nic < |on|
    ensures IsRanking(vec, on)
    ensures |on[nic]| == vec[|on| - 1].count ==> vec[|on| - 1].node == nic
  {
    vec := RankingAvoiding(on, nic);
    if |on[nic]| == vec[|on| - 1].count && vec[|on| - 1].node != nic {
      assert HasNode(vec, nic);
      var i :| 0 <= i < |vec| && vec[i].node == nic;
      vec := SwapTie(vec, on, i);
    }
  }

  // A node with two gives only what leaves it two.
  lemma FavourableKeepsNode(env: Env, s: State, s': State, k: int)
    requires Favourable(env, s, k) && s.maxCnt > 2
    requires Next(env, s, s') && IsLoadMove(env, s)
    ensures |s'.on| == env.nodes && |s'.on[k]| >= 2 && |s'.on[env.nic]| >= 2
  {
    FavourableGuard(env, s, k);
    FreshTarget(env, s);
    MoveShape(s.on, s.high, Pick(env, s), Target(env, s));
  }

  // A load move with a suitable ranking leaves the state favourable.
  lemma FavourablePersists(env: Env, s: State, s': State, k: int)
    requires Favourable(env, s, k) && s.maxCnt > 2
    requires Next(env, s, s') && IsLoadMove(env, s)
    requires |s'.on| == env.nodes && |s'.on[k]| >= 2
    requires s'.maxCnt == 2 ==> s'.high == env.nic
    ensures Favourable(env, s', k) && SumSq(s'.on) < SumSq(s.on)
  {
    FreshLoadStep(env, s, s', Untouched);
    FateOfLoadMove(env, s, s');
    StepConserves(env, s, s', Untouched);
  }

  lemma FavourableStep(env: Env, s: State, k: int) returns (s': State)
    requires Favourable(env, s, k) && s.maxCnt > 2
    ensures Next(env, s, s') && Favourable(env, s', k) && SumSq(s'.on) < SumSq(s.on)
  {
    FavourableGuard(env, s, k);
    var on' := Moved(env, s);
    var vec := RankingPreferring(on', env.nic);
    s' := Ranked(on', vec);
    FavourableKeepsNode(env, s, s', k);
    RankingBounds(vec, on');
    FavourablePersists(env, s, s', k);
  }

  lemma FavourableTurn(env: Env, s: State, k: int) returns (s1: State)
    requires Favourable(env, s, k) && s.maxCnt <= 2
    ensures Next(env, s, s1) && LeadsOn(env, s1, Stale)
  {
    FavourableGuard(env, s, k);
    RankingBounds(s.vec, s.on);
    OthersBounds(env, s.on[env.nic]);
    s1 := s.(on := Moved(env, s), minNode := Target(env, s));
    FirstNicStep(env, s, s1);
  }

  lemma FavourableRun(env: Env, s: State, k: int) returns (run: seq<State>)
    requires Favourable(env, s, k)
    ensures Chain(env, run) && run[0] == s && !Guard(Last(run)) && Even(Last(run).on)
    decreases SumSq(s.on)
  {
    var rest;
    if s.maxCnt > 2 {
      var s' := FavourableStep(env, s, k);
      rest := FavourableRun(env, s', k);
    } else {
      var s1 := FavourableTurn(env, s, k);
      rest := EvenFrom(env, s1, Stale);
    }
    Prepend(env, s, rest);
    run := [s] + rest;
  }

  // A placement that is not hopeless has a run that ends even.
  lemma EvenRun(env: Env, on: Placement) returns (run: seq<State>)
    requires Homes(env, on) && !Hopeless(env, on)
    ensures Complete(env, run) && run[0].on == on && Even(Last(run).on)
  {
    var vec := RankingPreferring(on, env.nic);
    var s := Ranked(on, vec);
    InitialIsAccurate(env, s);
    RankingBounds(vec, on);
    if Balanceable(env, on) {
      BalanceableSuffices(env, on);
      run := LoopCompletes(env, s, Untouched);
    } else {
      var k :| 0 <= k < |on| && k != env.nic && |on[k]| >= 2;
      run := FavourableRun(env, s, k);
    }
  }

  lemma HopelessIsNecessary(env: Env, on: Placement)
    requires Homes(env, on) && NeverBalances(env, on)
    ensures Hopeless(env, on)
  {
    if !Hopeless(env, on) {
      var run := EvenRun(env, on);
    }
  }

  // The loop leaves a home placement uneven under every tie-break if and only if it is Hopeless. A
  // placement that is neither Hopeless nor Balanceable depends on how ties are ordered.
  lemma NeverBalancesIff(env: Env, on: Placement)
    requires Homes(env, on)
    ensures NeverBalances(env, on) <==> Hopeless(env, on)
  {
    if Hopeless(env, on) {
      HopelessSuffices(env, on);
    }
    if NeverBalances(env, on) {
      HopelessIsNecessary(env, on);
    }
  }
}
