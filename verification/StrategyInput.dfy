// What the strategy reads and how it classifies VMs.
module StrategyInput {
  import opened VmTypes
  import opened Balancer
  import opened Placements
  import Sorting

  const SMOOTH_FACTOR := 0.4
  const SMOOTH_DEC_FACTOR := 0.85
  const IDLE_USAGE := 8.0

  // ----- classification -----

  // The smoothed estimator: falls slowly, rises fast.
  function Smoothed(history: real, sample: real): real {
    var factor := if sample < history then SMOOTH_DEC_FACTOR else SMOOTH_FACTOR;
    history * factor + sample * (1.0 - factor)
  }

  // The estimate moves towards the sample without reaching it, up four times as fast as down.
  lemma SmoothedRisesFaster(history: real, d: real)
    requires d > 0.0
    ensures history < Smoothed(history, history + d) < history + d
    ensures history - d < Smoothed(history, history - d) < history
    ensures Smoothed(history, history + d) - history == 4.0 * (history - Smoothed(history, history - d))
  {
  }

  // What a VM counts as. A VM exactly at the threshold gets no entry in the state map and is read
  // back as IO-intensive.
  function Classify(vm: VmInfo, usage: real, ioThreshold: int): VmState {
    if Smoothed(vm.cpuUsage, usage) <= IDLE_USAGE then IdleState
    else if Smoothed(vm.packetsPerSecHistory, vm.packetsPerSec) < ioThreshold as real then OtherState
    else IoState
  }

  // The rule in whole numbers. With usage h on record and figure u now, a VM is idle up to 17h + 3u ==
  // 160 when usage falls and up to 2h + 3u == 40 otherwise; packet rates are held against the
  // threshold in the same way.
  lemma ClassifyRule(vm: VmInfo, usage: real, ioThreshold: int)
    ensures Classify(vm, usage, ioThreshold) == IdleState <==>
            if usage < vm.cpuUsage then 17.0 * vm.cpuUsage + 3.0 * usage <= 160.0
            else 2.0 * vm.cpuUsage + 3.0 * usage <= 40.0
    ensures var past, now, limit := vm.packetsPerSecHistory, vm.packetsPerSec, ioThreshold as real;
      Classify(vm, usage, ioThreshold) != IdleState ==>
        (Classify(vm, usage, ioThreshold) == OtherState <==>
           if now < past then 17.0 * past + 3.0 * now < 20.0 * limit else 2.0 * past + 3.0 * now < 5.0 * limit)
  {
  }

  // What analyze takes: the VMs by id, the CPU usages (entry 0 is the whole machine), the latency lists.
  datatype Input = Input(
    vms: map<int, VmInfo>,
    usage: seq<real>,
    near: seq<seq<int>>,
    nodes: nat,
    nic: int,
    ioThreshold: int)
  {
    ghost predicate Valid() {
      && 0 <= nic < nodes
      && |near| == nodes
      && (forall k | 0 <= k < nodes :: CoversNodes(near[k], nodes))
      && (forall id | id in vms ::
            && vms[id].domId == id
            && 0 <= vms[id].homeNode < nodes
            && 0 <= vms[id].realCpu + 1 < |usage|)
    }

    function StateOf(id: int): VmState
      requires id in vms && 0 <= vms[id].realCpu + 1 < |usage|
    {
      Classify(vms[id], usage[vms[id].realCpu + 1], ioThreshold)
    }

    ghost predicate Running(id: int)
      requires Valid()
    {
      id in vms && StateOf(id) != IdleState
    }

    ghost function RunningIds(): set<int>
      requires Valid()
    {
      set id | id in vms && Running(id)
    }
  }

  // The running VMs among some ids, on their home nodes, in ascending order.
  ghost predicate AtHome(input: Input, ids: set<int>, on: Placement)
    requires input.Valid()
  {
    && |on| == input.nodes
    && (forall k, i, j | 0 <= k < |on| && 0 <= i < j < |on[k]| :: on[k][i] < on[k][j])
    && (forall k, id | 0 <= k < |on| && id in on[k] ::
          id in ids && input.Running(id) && input.vms[id].homeNode == k)
    && (forall id | id in ids && input.Running(id) :: id in on[input.vms[id].homeNode])
  }

  ghost predicate StatesKnown(input: Input, ids: set<int>, states: map<int, VmState>)
    requires input.Valid()
  {
    && states.Keys <= ids
    && forall id | id in ids && id in input.vms ::
         (if id in states then states[id] else IoState) == input.StateOf(id)
  }

  // ----- the home placement holds the running VMs once each -----

  lemma {:induction false} NotPlaced(on: Placement, vm: int)
    requires forall k | 0 <= k < |on| :: vm !in on[k]
    ensures Placed(on)[vm] == 0
  {
    if on != [] {
      NotPlaced(on[1..], vm);
    }
  }

  lemma {:induction false} PlacedOnOneNode(on: Placement, vm: int, k: nat)
    requires k < |on|
    requires forall j | 0 <= j < |on| && j != k :: vm !in on[j]
    ensures Placed(on)[vm] == multiset(on[k])[vm]
  {
    if k == 0 {
      NotPlaced(on[1..], vm);
    } else {
      PlacedOnOneNode(on[1..], vm, k - 1);
    }
  }

  // The input determines where the loop starts.
  lemma HomeIsUnique(input: Input, ids: set<int>, on: Placement, on': Placement)
    requires input.Valid() && AtHome(input, ids, on) && AtHome(input, ids, on')
    ensures on == on'
  {
    forall k | 0 <= k < |on| ensures on[k] == on'[k] {
      forall id | id in on[k] ensures id in on'[k] {
        assert input.Running(id) && input.vms[id].homeNode == k;
      }
      forall id | id in on'[k] ensures id in on[k] {
        assert input.Running(id) && input.vms[id].homeNode == k;
      }
      Sorting.AscendingUnique(on[k], on'[k]);
    }
  }

  lemma HomePlaced(input: Input, on: Placement)
    requires input.Valid() && AtHome(input, input.vms.Keys, on)
    ensures Placed(on) == multiset(input.RunningIds())
  {
    forall vm ensures Placed(on)[vm] == multiset(input.RunningIds())[vm] {
      if vm in input.RunningIds() {
        var k := input.vms[vm].homeNode;
        PlacedOnOneNode(on, vm, k);
        Sorting.DistinctCountsOnce(on[k], vm);
      } else {
        NotPlaced(on, vm);
      }
    }
  }
}
