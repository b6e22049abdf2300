// From the end of a run to the decisions.
module StrategyOutcome {
  import opened VmTypes
  import opened Balancer
  import opened Placements
  import opened BalancerInvariant
  import opened BalancerRuns
  import opened BalancerMoves
  import opened BalanceCondition
  import opened BalanceNever
  import opened StrategyInput
  import Sorting

  // ----- after the loop -----

  // If the loop never ran, no node holds two VMs and the NIC node is empty, the first VM of the
  // node ranked last goes to the NIC node when it is IO-intensive.
  ghost predicate Swaps(env: Env, run: seq<State>)
    requires Run(env, run)
  {
    var s := Last(run);
    && |run| == 1
    && s.maxCnt == 1
    && |s.on[env.nic]| == 0
    && |s.on[s.high]| > 0
    && env.StateOf(s.on[s.high][0]) == IoState
  }

  ghost function Final(env: Env, run: seq<State>): Placement
    requires Run(env, run)
  {
    StepsAreSafe(env, run, |run| - 1);
    var s := Last(run);
    if Swaps(env, run) then MoveVm(s.on, s.high, 0, env.nic) else s.on
  }

  lemma FirstStateSizes(env: Env, run: seq<State>)
    requires Run(env, run) && |run| == 1
    ensures var s := run[0];
      && |s.on| == env.nodes && 0 <= env.nic < env.nodes && 0 <= s.high < env.nodes
      && |s.on[s.high]| == s.maxCnt
      && forall k | 0 <= k < env.nodes :: |s.on[k]| <= s.maxCnt
  {
    RankingBounds(run[0].vec, run[0].on);
  }

  // The swap neither loses a VM nor unbalances the nodes nor takes a VM off the NIC node.
  lemma SwapIsHarmless(env: Env, run: seq<State>)
    requires Complete(env, run)
    ensures var on, on' := Last(run).on, Final(env, run);
      && |on| == |on'| == env.nodes && 0 <= env.nic < env.nodes
      && Placed(on') == Placed(on) && Total(on') == Total(on)
      && (Swaps(env, run) ==> Even(on) && Even(on') && |on[env.nic]| == 0 && |on'[env.nic]| == 1)
      && (!Swaps(env, run) ==> on' == on)
  {
    StepsAreSafe(env, run, |run| - 1);
    if Swaps(env, run) {
      var s := Last(run);
      FirstStateSizes(env, run);
      MoveShape(s.on, s.high, 0, env.nic);
      MoveConserves(s.on, s.high, 0, env.nic);
    }
  }

  lemma SwapShape(on: Placement, h: int, nic: int)
    requires 0 <= h < |on| && 0 <= nic < |on| && |on[h]| == 1 && on[nic] == []
    ensures MoveVm(on, h, 0, nic) == on[h := []][nic := on[h]]
  {
    assert Erase(on[h], 0) == [];
    assert on[nic] + [on[h][0]] == on[h];
  }

  // What the step after the loop does. Only if the loop did not turn once, no node holds two VMs and
  // the NIC node is empty, the VM of the node ranked last goes to the NIC node, and only if it is
  // IO-intensive.
  lemma FinalMove(env: Env, run: seq<State>)
    requires Complete(env, run) && |run| == 1
    ensures var on, on', h := run[0].on, Final(env, run), run[0].vec[env.nodes - 1].node;
      && |on| == env.nodes && 0 <= env.nic < |on| && 0 <= h < |on|
      && on' == if (forall k | 0 <= k < |on| :: |on[k]| <= 1) && on[env.nic] == []
                   && on[h] != [] && env.StateOf(on[h][0]) == IoState
                then on[h := []][env.nic := on[h]]
                else on
  {
    var s := run[0];
    RankingBounds(s.vec, s.on);
    if Swaps(env, run) {
      SwapShape(s.on, s.high, env.nic);
    }
  }

  lemma FetchKeepsOthers(env: Env, on: Placement, h: int, nic: int)
    requires 0 <= h < |on| && 0 <= nic < |on| && |on[h]| == 1 && on[nic] == [] && env.StateOf(on[h][0]) == IoState
    ensures forall k, vm | 0 <= k < |on| && env.StateOf(vm) != IoState ::
              vm in on[k] <==> vm in on[h := []][nic := on[h]][k]
  {
  }

  // After a loop that turned, with two VMs on some node, or with a VM on the NIC node, nothing moves;
  // and a VM that is not IO-intensive stays in any case.
  lemma FinalFrame(env: Env, run: seq<State>)
    requires Complete(env, run)
    ensures var on, on' := Last(run).on, Final(env, run);
      && |on| == |on'| == env.nodes && 0 <= env.nic < |on|
      && (|run| > 1 || (exists k :: 0 <= k < |on| && |on[k]| >= 2) || on[env.nic] != [] ==> on' == on)
      && (forall k, vm | 0 <= k < |on| && env.StateOf(vm) != IoState :: vm in on[k] <==> vm in on'[k])
  {
    SwapIsHarmless(env, run);
    if |run| == 1 {
      FinalMove(env, run);
      var on, h := run[0].on, run[0].vec[env.nodes - 1].node;
      if Final(env, run) != on {
        FetchKeepsOthers(env, on, h, env.nic);
      }
    }
  }

  // Every look-up of a placed VM's record hits: whoever is on a list, in any iteration, is a running
  // VM of the input.
  lemma LookupsHit(input: Input, env: Env, run: seq<State>, i: nat, k: int, vm: int)
    requires input.Valid() && Faithful(input, env)
    requires Run(env, run) && AtHome(input, input.vms.Keys, run[0].on) && i < |run|
    requires 0 <= k < |run[i].on| && vm in run[i].on[k]
    ensures vm in input.vms && input.Running(vm)
  {
    RunConserves(env, run, i);
    HomePlaced(input, run[0].on);
    PlacedAtLeast(run[i].on, k, vm);
    assert vm in input.RunningIds();
  }

  // The swap's purpose: a VM that runs alone and is IO-intensive ends on the NIC node.
  lemma LoneIoVmGetsNic(env: Env, run: seq<State>, vm: int)
    requires Complete(env, run) && Placed(run[0].on) == multiset{vm} && Total(run[0].on) == 1
    requires env.StateOf(vm) == IoState
    ensures |Final(env, run)| == env.nodes && Final(env, run)[env.nic] == [vm]
  {
    var s := run[0];
    assert |run| > 1 ==> StepAt(env, run, 0);
    StepsAreSafe(env, run, 0);
    SizeWithinTotal(s.on, s.high);
    SomeSize(s.on);
    RankingBounds(s.vec, s.on);
    assert |s.on[s.high]| == 1;
    PlacedAtLeast(s.on, s.high, s.on[s.high][0]);
    assert s.on[s.high][0] == vm;
    if s.high != env.nic {
      TwoSizes(s.on, s.high, env.nic);
    }
  }

  lemma {:induction false} SizeWithinTotal(on: Placement, k: nat)
    requires k < |on|
    ensures |on[k]| <= Total(on)
  {
    if k > 0 {
      SizeWithinTotal(on[1..], k - 1);
    }
  }

  lemma TwoSizes(on: Placement, j: nat, k: nat)
    requires j < |on| && k < |on| && j != k
    ensures |on[j]| + |on[k]| <= Total(on)
  {
    UpdateTotal(on, j, []);
    SizeWithinTotal(on[j := []], k);
  }

  lemma {:induction false} SomeSize(on: Placement)
    requires Total(on) > 0
    ensures exists k :: 0 <= k < |on| && |on[k]| > 0
  {
    if |on[0]| == 0 {
      SomeSize(on[1..]);
      var k :| 0 <= k < |on| - 1 && |on[1..][k]| > 0;
      assert |on[k + 1]| > 0;
    }
  }

  // ----- the decisions -----

  function OnNode(list: seq<int>, node: int): (r: seq<Decision>)
    ensures |r| == |list|
    ensures forall i | 0 <= i < |list| :: r[i] == Decision(list[i], node, node)
  {
    seq(|list|, i requires 0 <= i < |list| => Decision(list[i], node, node))
  }

  // Node by node, list by list.
  function Decisions(on: Placement, upTo: nat): seq<Decision>
    requires upTo <= |on|
  {
    if upTo == 0 then [] else Decisions(on, upTo - 1) + OnNode(on[upTo - 1], upTo - 1)
  }

  function Ids(acts: seq<Decision>): (r: seq<int>)
    ensures |r| == |acts|
    ensures forall i | 0 <= i < |acts| :: r[i] == acts[i].domId
  {
    seq(|acts|, i requires 0 <= i < |acts| => acts[i].domId)
  }

  // How many decisions name a node.
  function CountFor(acts: seq<Decision>, node: int): nat {
    if acts == [] then 0
    else CountFor(acts[..|acts| - 1], node) + (if acts[|acts| - 1].cpuNode == node then 1 else 0)
  }

  lemma {:induction false} CountAppend(a: seq<Decision>, b: seq<Decision>, node: int)
    ensures CountFor(a + b, node) == CountFor(a, node) + CountFor(b, node)
  {
    if b == [] {
      assert a + b == a;
    } else {
      var last := |b| - 1;
      assert (a + b)[..|a + b| - 1] == a + b[..last];
      CountAppend(a, b[..last], node);
    }
  }

  lemma {:induction false} CountOnNode(list: seq<int>, k: int, node: int)
    ensures CountFor(OnNode(list, k), node) == if k == node then |list| else 0
  {
    if list != [] {
      var last := |list| - 1;
      assert OnNode(list, k)[..last] == OnNode(list[..last], k);
      CountOnNode(list[..last], k, node);
    }
  }

  lemma IdsOfNode(on: Placement, k: nat)
    requires k < |on|
    ensures Ids(Decisions(on, k + 1)) == Ids(Decisions(on, k)) + on[k]
  {
  }

  // The decisions carry exactly the placed VMs ...
  lemma {:induction false} DecisionIds(on: Placement, upTo: nat)
    requires upTo <= |on|
    ensures multiset(Ids(Decisions(on, upTo))) == Placed(on[..upTo])
  {
    if upTo > 0 {
      var k := upTo - 1;
      DecisionIds(on, k);
      IdsOfNode(on, k);
      var ids := Ids(Decisions(on, k));
      assert multiset(ids + on[k]) == multiset(ids) + multiset(on[k]);
      assert on[..upTo] == on[..k] + [on[k]];
      PlacedAppend(on[..k], on[k]);
    }
  }

  // ... each with the node whose list it is on ...
  lemma {:induction false} DecisionNodes(on: Placement, upTo: nat, a: Decision)
    requires upTo <= |on|
    ensures a in Decisions(on, upTo) <==>
            0 <= a.cpuNode < upTo && a.memNode == a.cpuNode && a.domId in on[a.cpuNode]
  {
    if upTo > 0 {
      var k := upTo - 1;
      DecisionNodes(on, k, a);
      if a.cpuNode == k == a.memNode && a.domId in on[k] {
        var i :| 0 <= i < |on[k]| && on[k][i] == a.domId;
        assert OnNode(on[k], k)[i] == a;
      }
    }
  }

  // ... so a node is named as often as its list is long.
  lemma {:induction false} DecisionCounts(on: Placement, upTo: nat, node: int)
    requires upTo <= |on|
    ensures CountFor(Decisions(on, upTo), node) == if 0 <= node < upTo then |on[node]| else 0
  {
    if upTo > 0 {
      var k := upTo - 1;
      DecisionCounts(on, k, node);
      CountAppend(Decisions(on, k), OnNode(on[k], k), node);
      CountOnNode(on[k], k, node);
    }
  }

  lemma {:induction false} PlacedAppend(on: Placement, list: seq<int>)
    ensures Placed(on + [list]) == Placed(on) + multiset(list)
  {
    if on == [] {
      assert on + [list] == [list];
    } else {
      assert (on + [list])[1..] == on[1..] + [list];
      PlacedAppend(on[1..], list);
    }
  }

  // The decisions come node by node, and in list order within a node: the VM at place i of node k has
  // the decision after those for the nodes before k and the i VMs before it.
  lemma {:induction false} DecisionAt(on: Placement, upTo: nat, k: nat, i: nat)
    requires k < upTo <= |on| && i < |on[k]|
    ensures |Decisions(on, upTo)| == Total(on[..upTo])
    ensures Total(on[..k]) + i < Total(on[..upTo])
    ensures Decisions(on, upTo)[Total(on[..k]) + i] == Decision(on[k][i], k, k)
  {
    DecisionsLength(on, upTo);
    DecisionsLength(on, upTo - 1);
    TotalAppend(on, upTo - 1);
    if k < upTo - 1 {
      DecisionAt(on, upTo - 1, k, i);
    }
  }

  lemma TotalAppend(on: Placement, k: nat)
    requires k < |on|
    ensures Total(on[..k + 1]) == Total(on[..k]) + |on[k]|
  {
    var longer, shorter := on[..k + 1], on[..k];
    UpdateTotal(longer, k, []);
    assert longer[k := []] == shorter + [[]];
    TotalOfEmpty(shorter);
  }

  lemma {:induction false} TotalOfEmpty(on: Placement)
    ensures Total(on + [[]]) == Total(on)
  {
    if on == [] {
      assert on + [[]] == [[]];
    } else {
      assert (on + [[]])[1..] == on[1..] + [[]];
      TotalOfEmpty(on[1..]);
    }
  }

  lemma {:induction false} DecisionsLength(on: Placement, upTo: nat)
    requires upTo <= |on|
    ensures |Decisions(on, upTo)| == Total(on[..upTo])
  {
    if upTo > 0 {
      DecisionsLength(on, upTo - 1);
      TotalAppend(on, upTo - 1);
    }
  }

  ghost predicate NodesAscend(acts: seq<Decision>) {
    forall i, j | 0 <= i < j < |acts| :: acts[i].cpuNode <= acts[j].cpuNode
  }

  lemma {:induction false} DecisionsAscend(on: Placement, upTo: nat)
    requires upTo <= |on|
    ensures NodesAscend(Decisions(on, upTo))
  {
    if upTo > 0 {
      DecisionsAscend(on, upTo - 1);
      var acts := Decisions(on, upTo - 1);
      forall i | 0 <= i < |acts| ensures acts[i].cpuNode < upTo - 1 {
        DecisionNodes(on, upTo - 1, acts[i]);
      }
    }
  }

  // ----- the outcome -----

  // Node sizes in the decisions differ by at most one.
  ghost predicate EvenDecisions(acts: seq<Decision>, nodes: nat) {
    forall j, k | 0 <= j < nodes && 0 <= k < nodes :: CountFor(acts, j) <= CountFor(acts, k) + 1
  }

  // The NIC node gets two VMs, both IO-intensive, although some node gets none.
  ghost predicate NicKeepsPair(input: Input, acts: seq<Decision>)
    requires input.Valid()
  {
    && CountFor(acts, input.nic) == 2
    && (forall a | a in acts && a.cpuNode == input.nic :: a.domId in input.vms && input.StateOf(a.domId) == IoState)
    && (forall k | 0 <= k < input.nodes && k != input.nic :: CountFor(acts, k) <= 1)
    && exists k :: 0 <= k < input.nodes && CountFor(acts, k) == 0
  }

  // The NIC node gets nothing, node t gets two VMs and every other node one.
  ghost predicate NicSendsPair(input: Input, acts: seq<Decision>, t: int) {
    && 0 <= t < input.nodes && t != input.nic
    && CountFor(acts, input.nic) == 0
    && CountFor(acts, t) == 2
    && forall k | 0 <= k < input.nodes && k != input.nic && k != t :: CountFor(acts, k) == 1
  }

  ghost predicate Faithful(input: Input, env: Env)
    requires input.Valid()
  {
    && env.Valid()
    && env.nodes == input.nodes && env.nic == input.nic && env.near == input.near
    && forall id | id in input.vms :: env.StateOf(id) == input.StateOf(id)
  }

  lemma HomesAreHomes(input: Input, env: Env, home: Placement)
    requires input.Valid() && Faithful(input, env) && AtHome(input, input.vms.Keys, home)
    ensures Homes(env, home)
  {
    forall k, i | 0 <= k < |home| && 0 <= i < |home[k]| ensures env.StateOf(home[k][i]) != IdleState {
      assert home[k][i] in home[k];
    }
  }

  lemma EvenCarriesOver(on: Placement)
    ensures EvenDecisions(Decisions(on, |on|), |on|) <==> Even(on)
  {
    forall k | 0 <= k < |on| ensures CountFor(Decisions(on, |on|), k) == |on[k]| {
      DecisionCounts(on, |on|, k);
    }
  }

  lemma MovedPairCarriesOver(input: Input, env: Env, on: Placement, t: int)
    requires env.nic == input.nic && |on| == input.nodes && PairMovedTo(env, on, t)
    ensures NicSendsPair(input, Decisions(on, |on|), t)
  {
    forall k | 0 <= k < |on| ensures CountFor(Decisions(on, |on|), k) == |on[k]| {
      DecisionCounts(on, |on|, k);
    }
  }

  lemma KeptPairCarriesOver(input: Input, env: Env, on: Placement)
    requires input.Valid() && Faithful(input, env) && |on| == input.nodes && PairKept(env, on)
    requires Placed(on) == multiset(input.RunningIds())
    ensures NicKeepsPair(input, Decisions(on, |on|))
  {
    forall k | 0 <= k < |on| ensures CountFor(Decisions(on, |on|), k) == |on[k]| {
      DecisionCounts(on, |on|, k);
    }
    KeptPairIsIo(input, env, on);
  }

  // The outcome of a run, in terms of the decisions.
  lemma OutcomeOfRun(input: Input, env: Env, run: seq<State>)
    requires input.Valid() && Faithful(input, env)
    requires Complete(env, run) && AtHome(input, input.vms.Keys, run[0].on)
    ensures var acts := Decisions(Final(env, run), |Final(env, run)|);
      && (EvenDecisions(acts, input.nodes) || NicKeepsPair(input, acts) || exists t :: NicSendsPair(input, acts, t))
      && (Balanceable(env, run[0].on) ==> EvenDecisions(acts, input.nodes))
      && (Hopeless(env, run[0].on) ==> !EvenDecisions(acts, input.nodes))
  {
    var on := Final(env, run);
    SwapIsHarmless(env, run);
    FinalShapes(env, run);
    RunPlaces(input, env, run);
    EvenCarriesOver(on);
    HomesAreHomes(input, env, run[0].on);
    if PairKept(env, on) {
      KeptPairCarriesOver(input, env, on);
    } else if t :| PairMovedTo(env, on, t) {
      MovedPairCarriesOver(input, env, on, t);
    }
    if Balanceable(env, run[0].on) {
      BalanceableSuffices(env, run[0].on);
    }
    if Hopeless(env, run[0].on) {
      HopelessSuffices(env, run[0].on);
    }
  }

  lemma KeptPairIsIo(input: Input, env: Env, on: Placement)
    requires input.Valid() && Faithful(input, env) && |on| == input.nodes && PairKept(env, on)
    requires Placed(on) == multiset(input.RunningIds())
    ensures forall a | a in Decisions(on, |on|) && a.cpuNode == input.nic ::
              a.domId in input.vms && input.StateOf(a.domId) == IoState
  {
    OthersBounds(env, on[env.nic]);
    forall a | a in Decisions(on, |on|) && a.cpuNode == input.nic
      ensures a.domId in input.vms && input.StateOf(a.domId) == IoState
    {
      DecisionNodes(on, |on|, a);
      PlacedAtLeast(on, input.nic, a.domId);
      assert a.domId in input.RunningIds();
      var i :| 0 <= i < |on[env.nic]| && on[env.nic][i] == a.domId;
    }
  }

  lemma NicIoKept(input: Input, env: Env, run: seq<State>)
    requires input.Valid() && Faithful(input, env)
    requires Complete(env, run) && AtHome(input, input.vms.Keys, run[0].on)
    ensures |Final(env, run)| == input.nodes
    ensures |run[0].on[input.nic]| <= 2 ==>
              forall vm | vm in run[0].on[input.nic] && input.StateOf(vm) == IoState ::
                vm in Final(env, run)[input.nic]
  {
    SwapIsHarmless(env, run);
    if |run[0].on[input.nic]| <= 2 {
      forall vm | vm in run[0].on[input.nic] && input.StateOf(vm) == IoState
        ensures vm in Final(env, run)[input.nic]
      {
        IoVmStaysOnNic(env, run, 0, |run| - 1, vm);
      }
    }
  }

  // The IO-intensive VMs of a NIC node that is home to at most two are decided to stay there.
  ghost predicate NicKeepsItsIo(input: Input, home: Placement, acts: seq<Decision>)
    requires input.Valid() && |home| == input.nodes
    requires forall vm | vm in home[input.nic] :: vm in input.vms
  {
    |home[input.nic]| <= 2 ==>
      forall vm | vm in home[input.nic] && input.StateOf(vm) == IoState :: Decision(vm, input.nic, input.nic) in acts
  }

  // The decisions cover exactly the running VMs, on existing nodes.
  lemma PlacementDecides(input: Input, on: Placement)
    requires input.Valid() && |on| == input.nodes && Placed(on) == multiset(input.RunningIds())
    ensures multiset(Ids(Decisions(on, |on|))) == multiset(input.RunningIds())
    ensures forall a | a in Decisions(on, |on|) :: 0 <= a.cpuNode < input.nodes && a.memNode == a.cpuNode
  {
    DecisionIds(on, |on|);
    assert on[..|on|] == on;
    forall a | a in Decisions(on, |on|) ensures 0 <= a.cpuNode < input.nodes && a.memNode == a.cpuNode {
      DecisionNodes(on, |on|, a);
    }
  }

  lemma RunPlaces(input: Input, env: Env, run: seq<State>)
    requires input.Valid() && Faithful(input, env)
    requires Complete(env, run) && AtHome(input, input.vms.Keys, run[0].on)
    ensures |Final(env, run)| == input.nodes
    ensures Placed(Final(env, run)) == multiset(input.RunningIds())
  {
    SwapIsHarmless(env, run);
    RunConserves(env, run, |run| - 1);
    HomePlaced(input, run[0].on);
  }

  lemma RunKeepsNicIo(input: Input, env: Env, run: seq<State>, acts: seq<Decision>)
    requires input.Valid() && Faithful(input, env)
    requires Complete(env, run) && AtHome(input, input.vms.Keys, run[0].on)
    requires acts == Decisions(Final(env, run), |Final(env, run)|)
    ensures NicKeepsItsIo(input, run[0].on, acts)
  {
    var on := Final(env, run);
    NicIoKept(input, env, run);
    forall vm | vm in on[input.nic] ensures Decision(vm, input.nic, input.nic) in acts {
      DecisionNodes(on, |on|, Decision(vm, input.nic, input.nic));
    }
  }

  // ----- when the homes are even already -----

  // The running VMs whose memory is on the node.
  ghost function HomeOf(input: Input, k: int): set<int>
    requires input.Valid()
  {
    set id | id in input.vms && input.Running(id) && input.vms[id].homeNode == k
  }

  ghost predicate EvenHomes(input: Input)
    requires input.Valid()
  {
    forall j, k | 0 <= j < input.nodes && 0 <= k < input.nodes :: |HomeOf(input, j)| <= |HomeOf(input, k)| + 1
  }

  lemma HomeSizes(input: Input, home: Placement, k: nat)
    requires input.Valid() && AtHome(input, input.vms.Keys, home) && k < |home|
    ensures |home[k]| == |HomeOf(input, k)|
    ensures forall id :: id in home[k] <==> id in HomeOf(input, k)
  {
    forall id ensures id in home[k] <==> id in HomeOf(input, k) {
      assert id in HomeOf(input, k) ==> id in input.vms.Keys && input.Running(id);
    }
    assert Sorting.Elements(home[k]) == HomeOf(input, k);
    Sorting.DistinctSize(home[k]);
  }

  ghost predicate StaysHome(input: Input, a: Decision) {
    a.domId in input.vms && a.cpuNode == input.vms[a.domId].homeNode
  }

  // An IO-intensive VM brought to a NIC node that is nobody's home, no two VMs having one home.
  ghost predicate FetchedToNic(input: Input, a: Decision)
    requires input.Valid()
  {
    && a.domId in input.vms && input.StateOf(a.domId) == IoState && a.cpuNode == input.nic
    && HomeOf(input, input.nic) == {}
    && forall k | 0 <= k < input.nodes :: |HomeOf(input, k)| <= 1
  }

  // If the numbers of VMs at home differ by at most one, every VM is decided to stay at home but for
  // at most one, which is fetched to the NIC node.
  ghost predicate KeepsEvenHomes(input: Input, acts: seq<Decision>)
    requires input.Valid()
  {
    EvenHomes(input) ==>
      && (forall a | a in acts :: StaysHome(input, a) || FetchedToNic(input, a))
      && (forall a, b | a in acts && b in acts && !StaysHome(input, a) && !StaysHome(input, b) :: a == b)
  }

  // Nothing is left to balance, so the loop is not entered.
  lemma EvenHomesNeedNoLoop(input: Input, env: Env, run: seq<State>)
    requires input.Valid() && Faithful(input, env) && EvenHomes(input)
    requires Complete(env, run) && AtHome(input, input.vms.Keys, run[0].on)
    ensures |run| == 1
  {
    var s := run[0];
    forall k | 0 <= k < |s.on| ensures |s.on[k]| == |HomeOf(input, k)| {
      HomeSizes(input, s.on, k);
    }
    assert s.maxCnt == |s.on[s.vec[|s.vec| - 1].node]| && s.minCnt == |s.on[s.vec[0].node]|;
    assert |run| > 1 ==> StepAt(env, run, 0);
  }

  // The same for a placement: a list is a home list, or the NIC node's with the VM fetched.
  lemma FetchedOrHome(input: Input, env: Env, run: seq<State>, a: Decision)
    requires input.Valid() && Faithful(input, env) && EvenHomes(input)
    requires Complete(env, run) && AtHome(input, input.vms.Keys, run[0].on)
    requires a in Decisions(Final(env, run), |Final(env, run)|)
    ensures |Final(env, run)| == input.nodes
    ensures StaysHome(input, a) || (FetchedToNic(input, a) && Final(env, run)[input.nic] == [a.domId])
    ensures a.memNode == a.cpuNode
  {
    var home, on := run[0].on, Final(env, run);
    EvenHomesNeedNoLoop(input, env, run);
    FinalMove(env, run);
    DecisionNodes(on, |on|, a);
    if on != home {
      forall k | 0 <= k < |home| ensures |HomeOf(input, k)| <= 1 {
        HomeSizes(input, home, k);
      }
      HomeSizes(input, home, input.nic);
    }
  }

  lemma EvenHomesAreKept(input: Input, env: Env, run: seq<State>)
    requires input.Valid() && Faithful(input, env)
    requires Complete(env, run) && AtHome(input, input.vms.Keys, run[0].on)
    ensures KeepsEvenHomes(input, Decisions(Final(env, run), |Final(env, run)|))
  {
    if EvenHomes(input) {
      var on := Final(env, run);
      var acts := Decisions(on, |on|);
      forall a | a in acts
        ensures |on| == input.nodes && a.memNode == a.cpuNode
        ensures StaysHome(input, a) || (FetchedToNic(input, a) && on[input.nic] == [a.domId])
      {
        FetchedOrHome(input, env, run, a);
      }
    }
  }
}
