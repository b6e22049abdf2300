// The default strategy: place every running VM on its memory's home node, then
// even the nodes out, and emit one decision per VM.
module SimpleStrategy {
  import opened VmTypes
  import opened Balancer
  import opened Placements
  import opened BalancerInvariant
  import opened BalancerRuns
  import opened BalanceCondition
  import opened BalanceNever
  import opened Rankings
  import opened StrategyInput
  import opened StrategyOutcome
  import Sorting

  // ----- home placement -----

  ghost predicate OnlyEntryAt(before: map<int, VmState>, id: int, after: map<int, VmState>) {
    forall x | x != id :: (x in after <==> x in before) && (x in after ==> after[x] == before[x])
  }

  method AnalyzeIoState(vm: VmInfo, ioThreshold: int, states: map<int, VmState>) returns (r: map<int, VmState>)
    ensures OnlyEntryAt(states, vm.domId, r)
    ensures var pps := Smoothed(vm.packetsPerSecHistory, vm.packetsPerSec);
      if pps == ioThreshold as real then r == states
      else vm.domId in r && (r[vm.domId] == OtherState <==> pps < ioThreshold as real) && r[vm.domId] != IdleState
  {
    r := states;
    var pps := Smoothed(vm.packetsPerSecHistory, vm.packetsPerSec);
    if pps > ioThreshold as real {
      r := r[vm.domId := IoState];
    } else if pps < ioThreshold as real {
      r := r[vm.domId := OtherState];
    }
  }

  lemma PlaceOne(input: Input, ids: set<int>, on: Placement, id: int)
    requires input.Valid() && AtHome(input, ids, on)
    requires id in input.vms && forall x | x in ids :: x < id
    ensures !input.Running(id) ==> AtHome(input, ids + {id}, on)
    ensures input.Running(id) ==>
              var h := input.vms[id].homeNode;
              AtHome(input, ids + {id}, on[h := on[h] + [id]])
  {
    if input.Running(id) {
      var h := input.vms[id].homeNode;
      var on' := on[h := on[h] + [id]];
      forall k, x | 0 <= k < |on'| && x in on'[k]
        ensures x in ids + {id} && input.Running(x) && input.vms[x].homeNode == k
      {
        assert x == id || x in on[k];
      }
      forall x | x in ids + {id} && input.Running(x) ensures x in on'[input.vms[x].homeNode] {
        assert x in ids ==> x in on[input.vms[x].homeNode];
      }
      forall k, i, j | 0 <= k < |on'| && 0 <= i < j < |on'[k]| ensures on'[k][i] < on'[k][j] {
        if k == h && j == |on[h]| {
          assert on'[h][i] == on[h][i] && on[h][i] in on[h];
          assert on[h][i] in ids;
        } else {
          assert on'[k][i] == on[k][i] && on'[k][j] == on[k][j];
        }
      }
    }
  }

  lemma StatesOne(input: Input, ids: set<int>, states: map<int, VmState>, id: int, states': map<int, VmState>)
    requires input.Valid() && StatesKnown(input, ids, states) && id in input.vms && id !in ids
    requires OnlyEntryAt(states, id, states')
    requires (if id in states' then states'[id] else IoState) == input.StateOf(id)
    ensures StatesKnown(input, ids + {id}, states')
  {
    forall x | x in states' ensures x in ids + {id} {
      assert x != id ==> x in states;
    }
  }

  // One turn of the loop over the VMs: classify id, and unless it is idle put it on its home node.
  method VisitVm(input: Input, id: int, on: Placement, states: map<int, VmState>, ghost done: set<int>)
    returns (on': Placement, states': map<int, VmState>, running: bool)
    requires input.Valid() && id in input.vms && forall x | x in done :: x < id
    requires AtHome(input, done, on) && StatesKnown(input, done, states)
    ensures AtHome(input, done + {id}, on') && StatesKnown(input, done + {id}, states')
    ensures running <==> input.Running(id)
  {
    var vm := input.vms[id];
    PlaceOne(input, done, on, id);
    states' := AnalyzeIoState(vm, input.ioThreshold, states);
    if Smoothed(vm.cpuUsage, input.usage[vm.realCpu + 1]) <= IDLE_USAGE {
      states' := states'[id := IdleState];
      on', running := on, false;
    } else {
      on' := on[vm.homeNode := on[vm.homeNode] + [id]];
      running := true;
    }
    StatesOne(input, done, states, id, states');
  }

  ghost predicate SomeRuns(input: Input, ids: set<int>)
    requires input.Valid()
  {
    exists id :: id in ids && input.Running(id)
  }

  lemma SomeRunsOne(input: Input, ids: set<int>, id: int)
    requires input.Valid()
    ensures SomeRuns(input, ids + {id}) <==> SomeRuns(input, ids) || input.Running(id)
  {
    if SomeRuns(input, ids) {
      var x :| x in ids && input.Running(x);
      assert x in ids + {id};
    }
    assert id in ids + {id};
  }

  method PlaceAtHome(input: Input) returns (on: Placement, states: map<int, VmState>, any: bool)
    requires input.Valid()
    ensures AtHome(input, input.vms.Keys, on)
    ensures StatesKnown(input, input.vms.Keys, states)
    ensures any <==> SomeRuns(input, input.vms.Keys)
  {
    on := seq(input.nodes, _ => []);
    states := map[];
    any := false;
    // Ids still to be visited, in ascending order.
    var rest := input.vms.Keys;
    while rest != {}
      invariant rest <= input.vms.Keys
      invariant rest != {} ==> forall x | x in input.vms.Keys - rest :: x < Sorting.Least(rest)
      invariant AtHome(input, input.vms.Keys - rest, on)
      invariant StatesKnown(input, input.vms.Keys - rest, states)
      invariant any <==> SomeRuns(input, input.vms.Keys - rest)
    {
      var id := Sorting.Least(rest);
      ghost var done := input.vms.Keys - rest;
      var running;
      on, states, running := VisitVm(input, id, on, states, done);
      SomeRunsOne(input, done, id);
      any := any || running;
      rest := rest - {id};
      assert input.vms.Keys - rest == done + {id};
    }
    assert input.vms.Keys - rest == input.vms.Keys;
  }

  // ----- the searches of the loop -----

  method FindVm(env: Env, list: seq<int>, w: VmState) returns (k: nat)
    ensures k == FirstIn(env, list, w)
  {
    k := 0;
    while k < |list| && env.StateOf(list[k]) != w
      invariant 0 <= k <= |list|
      invariant FirstIn(env, list, w) == k + FirstIn(env, list[k..], w)
    {
      assert list[k..][1..] == list[k + 1..];
      k := k + 1;
    }
  }

  method FindNearest(list: seq<int>, on: Placement, count: nat, fallback: int) returns (r: int)
    requires forall i | 0 <= i < |list| :: 0 <= list[i] < |on|
    ensures r == Nearest(list, on, count, fallback)
  {
    r := fallback;
    var i := 0;
    while i < |list|
      invariant 0 <= i <= |list|
      invariant Nearest(list, on, count, fallback) == Nearest(list[i..], on, count, r)
      invariant r == fallback
    {
      assert list[i..][1..] == list[i + 1..];
      if |on[list[i]]| == count {
        r := list[i];
        break;
      }
      i := i + 1;
    }
  }

  method RankNodes(on: Placement) returns (vec: seq<Load>)
    ensures IsRanking(vec, on)
  {
    vec := [];
    for k := 0 to |on|
      invariant vec == Loads(on)[..k]
    {
      vec := vec + [Load(k, |on[k]|)];
    }
    assert vec == Loads(on);
    vec := Sorting.Sort(vec, CountKey);
    SortedLoadsRank(vec, on);
  }

  // ----- the loop -----

  // The subtraction of the guard, defined only where unsigned arithmetic does not wrap.
  function Gap(most: nat, least: nat): nat
    requires least <= most
  {
    most - least
  }

  // The branch for the NIC node with at most two VMs. The ranking is not rebuilt.
  method NicIteration(env: Env, on: Placement, vec: seq<Load>, maxIdx: int, high: int, maxCnt: nat, minCnt: nat,
      minNode: int, ghost s: State)
    returns (on': Placement, maxIdx': int, high': int, maxCnt': nat, minCnt': nat, minNode': int)
    requires s == State(on, vec, maxIdx, high, maxCnt, minCnt, minNode)
    requires InBounds(env, s) && Guard(s) && NicTurn(env, s)
    ensures Next(env, s, State(on', vec, maxIdx', high', maxCnt', minCnt', minNode'))
  {
    on', maxIdx', high', maxCnt', minCnt', minNode' := on, maxIdx, high, maxCnt, minCnt, minNode;
    var k := FindVm(env, on[high], OtherState);
    if k == |on[high]| {
      maxIdx' := maxIdx - 1;
      if maxIdx' < 0 {
        maxIdx' := 0;
      }
      maxCnt' := vec[maxIdx'].count;
      high' := vec[maxIdx'].node;
      minCnt' := vec[0].count;
    } else {
      TargetInRange(env, s);
      assert CoversNodes(env.near[high], env.nodes);
      minNode' := FindNearest(env.near[high], on, minCnt, minNode);
      on' := MoveVm(on, high, k, minNode');
    }
  }

  // Every other node, and the NIC node with more than two: an IO-intensive VM first, to the NIC
  // node if that is least loaded; otherwise to the nearest least-loaded node. Then rank again.
  method LoadIteration(env: Env, on: Placement, high: int, minCnt: nat, minNode: int, ghost s: State)
    returns (on': Placement, vec': seq<Load>)
    requires IsLoadMove(env, s) && Guard(s)
    requires s.on == on && s.high == high && s.minCnt == minCnt && s.minNode == minNode
    ensures |vec'| > 0 && Next(env, s, Ranked(on', vec'))
  {
    TargetInRange(env, s);
    assert CoversNodes(env.near[high], env.nodes);
    var dst;
    var k := FindVm(env, on[high], IoState);
    if k < |on[high]| {
      if env.nic != high && |on[env.nic]| == minCnt {
        dst := env.nic;
      } else {
        dst := FindNearest(env.near[high], on, minCnt, minNode);
      }
    } else {
      k := 0;
      dst := FindNearest(env.near[high], on, minCnt, minNode);
    }
    on' := MoveVm(on, high, k, dst);
    vec' := RankNodes(on');
  }

  method Balance(env: Env, home: Placement)
    returns (on: Placement, high: int, maxCnt: nat, moved: bool, ghost run: seq<State>)
    requires env.Valid() && |home| == env.nodes
    ensures |on| == env.nodes && Placed(on) == Placed(home)
    ensures Even(on) || PairKept(env, on) || exists t :: PairMovedTo(env, on, t)
    ensures Complete(env, run) && run[0].on == home
    ensures Last(run).on == on && Last(run).high == high && Last(run).maxCnt == maxCnt
    ensures moved <==> |run| > 1
  {
    on := home;
    var vec := RankNodes(on);
    var maxIdx := |vec| - 1;
    high := vec[maxIdx].node;
    maxCnt := vec[maxIdx].count;
    var minCnt: nat := vec[0].count;
    var minNode := vec[0].node;
    moved := false;
    ghost var s := State(on, vec, maxIdx, high, maxCnt, minCnt, minNode);
    run := StartRun(env, s);
    while maxCnt > 1 && Gap(maxCnt, minCnt) > 1
      invariant s == State(on, vec, maxIdx, high, maxCnt, minCnt, minNode)
      invariant Run(env, run) && run[0].on == home && Last(run) == s
      invariant minCnt <= maxCnt
      invariant moved <==> |run| > 1
      decreases SumSq(home) + 4 - |run|
    {
      moved := true;
      StepsAreSafe(env, run, |run| - 1);
      if high == env.nic && maxCnt <= 2 {
        on, maxIdx, high, maxCnt, minCnt, minNode :=
          NicIteration(env, on, vec, maxIdx, high, maxCnt, minCnt, minNode, s);
      } else {
        on, vec := LoadIteration(env, on, high, minCnt, minNode, s);
        maxIdx := |vec| - 1;
        high := vec[maxIdx].node;
        maxCnt := vec[maxIdx].count;
        minCnt := vec[0].count;
        minNode := vec[0].node;
      }
      s := State(on, vec, maxIdx, high, maxCnt, minCnt, minNode);
      run := ExtendRun(env, run, s);
    }
    RunEnds(env, run);
  }

  ghost method StartRun(env: Env, s: State) returns (run: seq<State>)
    requires Initial(env, s)
    ensures Run(env, run) && run == [s] && s.minCnt <= s.maxCnt
  {
    run := [s];
    StepsAreSafe(env, run, 0);
  }

  ghost method ExtendRun(env: Env, run: seq<State>, s': State) returns (longer: seq<State>)
    requires Run(env, run) && Next(env, Last(run), s')
    ensures Run(env, longer) && longer[0] == run[0] && Last(longer) == s' && |longer| == |run| + 1
    ensures |longer| <= SumSq(run[0].on) + 4 && s'.minCnt <= s'.maxCnt
  {
    longer := run + [s'];
    forall i | 0 <= i < |longer| - 1 ensures StepAt(env, longer, i) {
      if i < |run| - 1 {
        assert StepAt(env, run, i);
      }
    }
    RunsAreBounded(env, longer);
    StepsAreSafe(env, longer, |longer| - 1);
  }

  // ----- after the loop -----

  method FinalSwap(env: Env, on: Placement, high: int, maxCnt: nat, moved: bool, ghost run: seq<State>)
    returns (on': Placement)
    requires Complete(env, run) && (moved <==> |run| > 1)
    requires on == Last(run).on && high == Last(run).high && maxCnt == Last(run).maxCnt
    ensures on' == Final(env, run)
  {
    on' := on;
    StepsAreSafe(env, run, |run| - 1);
    if !moved {
      if maxCnt == 1 && |on[env.nic]| == 0 {
        FirstStateSizes(env, run);
        var vm := on[high][0];
        if env.StateOf(vm) == IoState {
          on' := MoveVm(on, high, 0, env.nic);
        }
      }
    }
  }

  method Emit(on: Placement) returns (acts: seq<Decision>)
    ensures acts == Decisions(on, |on|)
  {
    acts := [];
    for k := 0 to |on|
      invariant acts == Decisions(on, k)
    {
      ghost var before := acts;
      for i := 0 to |on[k]|
        invariant acts == before + OnNode(on[k], k)[..i]
      {
        acts := acts + [Decision(on[k][i], k, k)];
      }
      assert OnNode(on[k], k)[..|on[k]|] == OnNode(on[k], k);
    }
  }

  // One decision for every running VM and none for an idle one, all on existing nodes; node sizes
  // in one of three shapes, even ones whenever the home placement is Balanceable; and the IO-intensive
  // VMs of a NIC node that is home to at most two are kept there.
  method Analyze(input: Input)
    returns (acts: seq<Decision>, ghost env: Env, ghost home: Placement, ghost run: seq<State>)
    requires input.Valid()
    ensures multiset(Ids(acts)) == multiset(input.RunningIds())
    ensures forall a | a in acts :: 0 <= a.cpuNode < input.nodes && a.memNode == a.cpuNode
    ensures EvenDecisions(acts, input.nodes)
            || NicKeepsPair(input, acts)
            || exists t :: NicSendsPair(input, acts, t)
    ensures AtHome(input, input.vms.Keys, home) && Faithful(input, env)
    ensures Balanceable(env, home) ==> EvenDecisions(acts, input.nodes)
    ensures Hopeless(env, home) ==> !EvenDecisions(acts, input.nodes)
    ensures NicKeepsItsIo(input, home, acts) && KeepsEvenHomes(input, acts) && NodesAscend(acts)
    ensures input.RunningIds() != {} ==>
              Complete(env, run) && run[0].on == home && acts == Decisions(Final(env, run), |Final(env, run)|)
  {
    var on, states, any := PlaceAtHome(input);
    var setting := Env(input.nodes, input.nic, input.near, states);
    env, home, run := setting, on, [];
    if !any {
      acts := [];
      NoDecisions(input, home);
      return;
    }
    var high, maxCnt, moved;
    on, high, maxCnt, moved, run := Balance(setting, on);
    on := FinalSwap(setting, on, high, maxCnt, moved, run);
    acts := Emit(on);
    RunPlaces(input, env, run);
    PlacementDecides(input, on);
    OutcomeOfRun(input, env, run);
    RunKeepsNicIo(input, env, run, acts);
    EvenHomesAreKept(input, env, run);
    DecisionsAscend(on, |on|);
  }

  lemma NoDecisions(input: Input, home: Placement)
    requires input.Valid() && AtHome(input, input.vms.Keys, home)
    requires !SomeRuns(input, input.vms.Keys)
    ensures input.RunningIds() == {}
    ensures EvenDecisions([], input.nodes) && NicKeepsItsIo(input, home, [])
    ensures forall k | 0 <= k < |home| :: home[k] == []
  {
    EmptyHomes(input, home);
    assert input.RunningIds() == {};
  }

  lemma EmptyHomes(input: Input, home: Placement)
    requires input.Valid() && AtHome(input, input.vms.Keys, home)
    ensures input.RunningIds() == {} ==> forall k | 0 <= k < |home| :: home[k] == []
  {
    forall k | 0 <= k < |home| ensures home[k] != [] ==> home[k][0] in input.RunningIds() {
      assert home[k] != [] ==> home[k][0] in home[k];
    }
  }
}
