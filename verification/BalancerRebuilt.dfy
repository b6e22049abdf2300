// The loop with the ranking rebuilt after every move, for comparison: what the
// outdated counts of the loop as written are to blame for.
module BalancerRebuilt {
  import opened VmTypes
  import opened Balancer
  import opened Placements
  import opened BalancerInvariant
  import opened BalancerRuns
  import opened Rankings
  import opened BalanceCondition

  ghost predicate NextRebuilt(env: Env, s: State, s': State) {
    && InBounds(env, s)
    && Guard(s)
    && (IsSkip(env, s) || IsMove(env, s))
    && (IsSkip(env, s) ==> s' == Skipped(s))
    && (IsMove(env, s) ==>
          && s'.on == Moved(env, s)
          && IsRanking(s'.vec, s'.on)
          && s' == Ranked(s'.on, s'.vec))
  }

  ghost predicate RebuiltStepAt(env: Env, run: seq<State>, i: nat)
    requires i < |run| - 1
  {
    NextRebuilt(env, run[i], run[i + 1])
  }

  ghost predicate RebuiltRun(env: Env, run: seq<State>) {
    && |run| > 0
    && Initial(env, run[0])
    && forall i | 0 <= i < |run| - 1 :: RebuiltStepAt(env, run, i)
  }

  ghost predicate RebuiltComplete(env: Env, run: seq<State>) {
    RebuiltRun(env, run) && !Guard(Last(run))
  }

  lemma RebuiltMove(env: Env, s: State, s': State)
    requires Accurate(env, s) && NextRebuilt(env, s, s') && IsMove(env, s)
    ensures Accurate(env, s') && Total(s'.on) == Total(s.on) && SumSq(s'.on) <= SumSq(s.on) - 2
    ensures NoneIdle(env, s.on) ==> NoneIdle(env, s'.on)
  {
    FreshTarget(env, s);
    var k, t := Pick(env, s), Target(env, s);
    MoveSquares(s.on, s.high, k, t);
    MoveConserves(s.on, s.high, k, t);
    if NoneIdle(env, s.on) {
      MoveKeepsNoneIdle(env, s.on, s.high, k, t);
    }
  }

  // Every iteration works on accurate counts.
  lemma RebuiltStep(env: Env, s: State, s': State)
    requires Accurate(env, s) && NextRebuilt(env, s, s')
    ensures Accurate(env, s') && Total(s'.on) == Total(s.on)
    ensures NoneIdle(env, s.on) ==> NoneIdle(env, s'.on)
    ensures IsMove(env, s) ==> SumSq(s'.on) <= SumSq(s.on) - 2
    ensures IsSkip(env, s) ==> s'.on == s.on && s.maxIdx == env.nodes - 1 && s'.maxIdx == s.maxIdx - 1
  {
    if IsMove(env, s) {
      RebuiltMove(env, s, s');
    } else {
      GuardIsSafe(env, s, Untouched);
      SkipStep(env, s, s', Untouched);
    }
  }

  function Rank(env: Env, s: State): nat {
    SumSq(s.on) + (if s.maxIdx == env.nodes - 1 then 1 else 0)
  }

  lemma {:induction false} RebuiltInvariant(env: Env, run: seq<State>, i: nat)
    requires RebuiltRun(env, run) && i < |run|
    ensures Accurate(env, run[i]) && Total(run[i].on) == Total(run[0].on)
    ensures NoneIdle(env, run[0].on) ==> NoneIdle(env, run[i].on)
    ensures Rank(env, run[i]) + i <= Rank(env, run[0])
  {
    InitialIsAccurate(env, run[0]);
    if i > 0 {
      assert RebuiltStepAt(env, run, i - 1);
      RebuiltInvariant(env, run, i - 1);
      RebuiltStep(env, run[i - 1], run[i]);
    }
  }

  // The third final shape is gone, and the bound on the iterations is smaller.
  lemma RebuiltShapes(env: Env, run: seq<State>)
    requires RebuiltComplete(env, run)
    ensures Even(Last(run).on) || PairKept(env, Last(run).on)
    ensures |run| - 1 <= SumSq(run[0].on) + 1
  {
    RebuiltInvariant(env, run, |run| - 1);
    AccurateEnd(env, Last(run));
  }

  // ----- which placements it balances -----

  ghost predicate RebuiltBalances(env: Env, on: Placement) {
    forall run: seq<State> :: RebuiltComplete(env, run) && run[0].on == on ==> Even(Last(run).on)
  }

  // The NIC node's list from the home placement on: either as in SameFate, or its own turn has sent
  // a non-IO VM away.
  ghost predicate RebuiltFate(env: Env, before: seq<int>, after: seq<int>) {
    SameFate(env, before, after) || (|before| >= 2 && Others(env, before) >= 1 && |after| <= 1)
  }

  lemma RebuiltFateStep(env: Env, s: State, s': State, home: seq<int>)
    requires Accurate(env, s) && NextRebuilt(env, s, s')
    requires Total(s.on) <= env.nodes && NoneIdle(env, s.on)
    requires RebuiltFate(env, home, s.on[env.nic])
    ensures |s'.on| == env.nodes && RebuiltFate(env, home, s'.on[env.nic])
  {
    GuardIsSafe(env, s, Untouched);
    if IsLoadMove(env, s) {
      FateOfLoadMove(env, s, s');
    } else if IsNicMove(env, s) {
      FreshTarget(env, s);
      MoveShape(s.on, s.high, Pick(env, s), Target(env, s));
      OthersBounds(env, s.on[env.nic]);
    }
  }

  lemma RebuiltStillFits(env: Env, run: seq<State>, i: nat)
    requires RebuiltRun(env, run) && i < |run|
    requires Total(run[0].on) <= env.nodes && NoneIdle(env, run[0].on)
    ensures Accurate(env, run[i]) && Total(run[i].on) <= env.nodes && NoneIdle(env, run[i].on)
  {
    RebuiltInvariant(env, run, i);
  }

  lemma {:induction false} RebuiltFateOfNic(env: Env, run: seq<State>, i: nat)
    requires RebuiltRun(env, run) && i < |run|
    requires Total(run[0].on) <= env.nodes && NoneIdle(env, run[0].on)
    ensures |run[i].on| == env.nodes && RebuiltFate(env, run[0].on[env.nic], run[i].on[env.nic])
  {
    if i > 0 {
      var s, s', home := run[i - 1], run[i], run[0].on[env.nic];
      assert RebuiltStepAt(env, run, i - 1);
      RebuiltStillFits(env, run, i - 1);
      RebuiltFateOfNic(env, run, i - 1);
      RebuiltFateStep(env, s, s', home);
    }
  }

  lemma RebuiltEnd(env: Env, run: seq<State>)
    requires RebuiltComplete(env, run) && Homes(env, run[0].on)
    ensures Even(Last(run).on) <==>
            Total(run[0].on) > env.nodes
            || |run[0].on[env.nic]| <= 1
            || Others(env, run[0].on[env.nic]) >= 1
  {
    var last := |run| - 1;
    var end := Last(run).on;
    RebuiltShapes(env, run);
    RebuiltInvariant(env, run, last);
    if PairKept(env, end) {
      PairKeptTotal(env, end);
      PairKeptIsUneven(env, end);
    }
    if Total(run[0].on) <= env.nodes {
      RebuiltFateOfNic(env, run, last);
      if Even(end) && |end[env.nic]| >= 2 {
        EvenPairIsCrowded(env, end);
      }
    }
  }

  lemma PairKeptIsUneven(env: Env, on: Placement)
    requires PairKept(env, on)
    ensures !Even(on)
  {
  }

  lemma EvenPairIsCrowded(env: Env, on: Placement)
    requires Even(on) && 0 <= env.nic < |on| && |on[env.nic]| >= 2
    ensures Total(on) > |on|
  {
    assert forall j | 0 <= j < |on| :: |on[env.nic]| <= |on[j]| + 1;
    CrowdedTotal(on, env.nic);
  }

  ghost predicate RebuiltChain(env: Env, run: seq<State>) {
    |run| > 0 && forall i | 0 <= i < |run| - 1 :: RebuiltStepAt(env, run, i)
  }

  lemma RebuiltPrepend(env: Env, s: State, run: seq<State>)
    requires RebuiltChain(env, run) && NextRebuilt(env, s, run[0])
    ensures RebuiltChain(env, [s] + run) && Last([s] + run) == Last(run)
  {
    var longer := [s] + run;
    forall i | 0 <= i < |longer| - 1 ensures RebuiltStepAt(env, longer, i) {
      if i > 0 {
        assert RebuiltStepAt(env, run, i - 1);
      }
    }
  }

  lemma RebuiltCompletes(env: Env, s: State) returns (run: seq<State>)
    requires Accurate(env, s)
    ensures RebuiltChain(env, run) && run[0] == s && !Guard(Last(run))
    decreases Rank(env, s)
  {
    if !Guard(s) {
      return [s];
    }
    GuardIsSafe(env, s, Untouched);
    var s';
    if IsSkip(env, s) {
      s' := Skipped(s);
    } else {
      var vec := RankingAvoiding(Moved(env, s), env.nic);
      s' := Ranked(Moved(env, s), vec);
    }
    RebuiltStep(env, s, s');
    var rest := RebuiltCompletes(env, s');
    RebuiltPrepend(env, s, rest);
    run := [s] + rest;
  }

  // With the rebuild in both branches a placement is balanced under every tie-break if and only if
  // there are more VMs than nodes, at most one VM at home on the NIC node, or a non-IO VM there: no
  // tie-break matters, and the counts that the loop as written also needs are not needed.
  lemma RebuiltBalancesIff(env: Env, on: Placement)
    requires Homes(env, on)
    ensures RebuiltBalances(env, on) <==>
            Total(on) > env.nodes || |on[env.nic]| <= 1 || Others(env, on[env.nic]) >= 1
  {
    forall run: seq<State> | RebuiltComplete(env, run) && run[0].on == on
      ensures Even(Last(run).on) <==> Total(on) > env.nodes || |on[env.nic]| <= 1 || Others(env, on[env.nic]) >= 1
    {
      RebuiltEnd(env, run);
    }
    var vec := RankingAvoiding(on, env.nic);
    InitialIsAccurate(env, Ranked(on, vec));
    var run := RebuiltCompletes(env, Ranked(on, vec));
    assert RebuiltComplete(env, run) && run[0].on == on;
  }
}
