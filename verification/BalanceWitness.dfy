// Two inputs the balancer fails on, with the decisions it makes for them.
module BalanceWitness {
  import opened VmTypes
  import opened Balancer
  import opened Placements
  import opened BalancerInvariant
  import opened BalancerRuns
  import opened Rankings
  import opened BalanceCondition
  import opened BalanceNever
  import opened StrategyInput
  import opened StrategyOutcome

  // A busy VM of node 0 that steadily moves that many packets.
  function Busy(id: int, pps: real): VmInfo {
    VmInfo(id, id - 1, 50.0, pps, pps, 0, Started)
  }

  // Two nodes, the NIC on node 0, and two VMs of one kind, both at home there.
  function Sample(pps: real): (input: Input)
    ensures input.Valid() && input.nodes == 2 && input.nic == 0 && input.vms.Keys == {1, 2}
    ensures forall id | id in input.vms ::
              input.vms[id].homeNode == 0 && input.StateOf(id) == if pps < 100000.0 then OtherState else IoState
  {
    var near := [[0, 1], [1, 0]];
    assert near[0][0] == near[1][1] == 0 && near[0][1] == near[1][0] == 1;
    Input(map[1 := Busy(1, pps), 2 := Busy(2, pps)], [50.0, 50.0, 50.0], near, 2, 0, 100000)
  }

  const SAMPLE_HOME: Placement := [[1, 2], []]

  // Both VMs start on the NIC node, whatever they do.
  lemma SampleHome(pps: real, home: Placement)
    ensures AtHome(Sample(pps), Sample(pps).vms.Keys, home) <==> home == SAMPLE_HOME
  {
    var input := Sample(pps);
    assert SAMPLE_HOME[0][0] == 1 && SAMPLE_HOME[0][1] == 2;
    if AtHome(input, input.vms.Keys, home) {
      HomeIsUnique(input, input.vms.Keys, home, SAMPLE_HOME);
    }
  }

  lemma SampleCounts(pps: real, env: Env)
    requires Faithful(Sample(pps), env)
    ensures Homes(env, SAMPLE_HOME) && Total(SAMPLE_HOME) == 2 && |SAMPLE_HOME[env.nic]| == 2
    ensures Others(env, SAMPLE_HOME[env.nic]) == if pps < 100000.0 then 2 else 0
  {
    var list := SAMPLE_HOME[0];
    assert env.StateOf(1) == env.StateOf(2) == Sample(pps).StateOf(1);
    assert list[1..] == [2];
    assert Others(env, [2]) == if pps < 100000.0 then 1 else 0;
    assert SAMPLE_HOME[1..] == [[]];
    assert Total([[]]) == 0;
  }

  // Neither input is ever balanced.
  lemma SampleIsHopeless(pps: real, env: Env)
    requires Faithful(Sample(pps), env)
    ensures Homes(env, SAMPLE_HOME) && !Balanceable(env, SAMPLE_HOME)
    ensures NeverBalances(env, SAMPLE_HOME) && !AlwaysBalances(env, SAMPLE_HOME)
  {
    SampleCounts(pps, env);
    HopelessSuffices(env, SAMPLE_HOME);
    BalancesIff(env, SAMPLE_HOME);
  }

  // The loop does run on them.
  lemma SampleRun(pps: real) returns (env: Env, run: seq<State>)
    ensures Faithful(Sample(pps), env) && Complete(env, run) && run[0].on == SAMPLE_HOME
  {
    var input := Sample(pps);
    env := Env(2, 0, input.near, map id | id in input.vms :: input.StateOf(id));
    var vec := RankingAvoiding(SAMPLE_HOME, 0);
    InitialIsAccurate(env, Ranked(SAMPLE_HOME, vec));
    run := LoopCompletes(env, Ranked(SAMPLE_HOME, vec), Untouched);
  }

  // Below the threshold both VMs are sent from node 0 to node 1; above it both are kept.
  lemma SampleOutcome(pps: real, env: Env, run: seq<State>)
    requires Faithful(Sample(pps), env)
    requires Complete(env, run) && AtHome(Sample(pps), Sample(pps).vms.Keys, run[0].on)
    ensures var acts := Decisions(Final(env, run), |Final(env, run)|);
      if pps < 100000.0 then NicSendsPair(Sample(pps), acts, 1) else NicKeepsPair(Sample(pps), acts)
  {
    var end := Last(run).on;
    SampleHome(pps, run[0].on);
    SampleCounts(pps, env);
    SampleIsHopeless(pps, env);
    UnevenShape(env, run);
    SwapIsHarmless(env, run);
    RunPlaces(Sample(pps), env, run);
    if pps < 100000.0 {
      var t :| PairMovedTo(env, end, t);
      MovedPairCarriesOver(Sample(pps), env, end, t);
    } else {
      KeptPairCarriesOver(Sample(pps), env, end);
    }
  }
}
