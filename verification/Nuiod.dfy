// The migration engine: it keeps track of where the VMs run and carries out the
// strategy's decisions. The hypervisor's answers are parameters.
module Nuiod {
  import opened VmTypes
  import opened Occupancy
  import opened Migration
  import opened ThreadMigrate
  import opened Balancer
  import opened BalancerMoves
  import opened BalanceCondition
  import opened BalanceNever
  import opened StrategyInput
  import StrategyOutcome
  import SimpleStrategy
  import Sorting

  ghost predicate IsNodeMap(m: map<int, int>, cpuIds: seq<set<int>>, upTo: nat)
    requires upTo <= |cpuIds|
  {
    && (forall c | c in m :: FirstNodeWith(cpuIds, upTo, c, m[c]))
    && (forall k, c | 0 <= k < upTo && c in cpuIds[k] :: c in m)
  }

  lemma NodeMapIsTable(m: map<int, int>, cpuIds: seq<set<int>>)
    requires IsNodeMap(m, cpuIds, |cpuIds|)
    ensures NodeTable(m, cpuIds)
  {
    forall c | c in m ensures KnownCpu(cpuIds, c) {
      assert c in cpuIds[m[c]];
    }
  }

  function UsageKey(x: CpuLoad): real {
    x.usage
  }

  function LatencyKey(x: (int, real)): real {
    x.1
  }

  function Latencies(row: seq<real>): (r: seq<(int, real)>)
    ensures |r| == |row| && forall k | 0 <= k < |row| :: r[k] == (k, row[k])
  {
    seq(|row|, k requires 0 <= k < |row| => (k, row[k]))
  }

  function Nodes(pairs: seq<(int, real)>): (r: seq<int>)
    ensures |r| == |pairs| && forall k | 0 <= k < |pairs| :: r[k] == pairs[k].0
  {
    seq(|pairs|, k requires 0 <= k < |pairs| => pairs[k].0)
  }

  lemma SortedLatencies(sorted: seq<(int, real)>, row: seq<real>)
    requires multiset(sorted) == multiset(Latencies(row)) && Sorting.SortedBy(LatencyKey, sorted)
    ensures CoversNodes(Nodes(sorted), |row|) && ByLatency(Nodes(sorted), row)
  {
    var list := Nodes(sorted);
    forall i | 0 <= i < |sorted| ensures 0 <= sorted[i].0 < |row| && sorted[i].1 == row[sorted[i].0] {
      assert sorted[i] in multiset(Latencies(row));
    }
    forall i, j | 0 <= i < j < |list| ensures row[list[i]] <= row[list[j]] {
      assert LatencyKey(sorted[i]) <= LatencyKey(sorted[j]);
    }
    forall k | 0 <= k < |row| ensures k in list {
      assert Latencies(row)[k] in multiset(sorted);
      var i :| 0 <= i < |sorted| && sorted[i] == Latencies(row)[k];
      assert list[i] == k;
    }
  }

  class Engine {
    const nodes: nat
    // The CPU set of each node.
    const cpuIds: seq<set<int>>
    const migrator: Migrator

    // For each node all nodes in ascending order of latency.
    var near: seq<seq<int>>
    var vmInfos: map<int, VmInfo>
    var cpuVmMapping: map<int, int>
    var cpuNodeMapping: map<int, int>

    // The tables are set up first; no VM is known yet.
    constructor (cpus: nat, sets: seq<set<int>>, latency: seq<seq<real>>)
      requires forall k, c | 0 <= k < |sets| && c in sets[k] :: 0 <= c < cpus
      requires |latency| == |sets| && forall k | 0 <= k < |sets| :: |latency[k]| == |sets|
      ensures nodes == |sets| && cpuIds == sets && migrator.cpuNumber == cpus && fresh(migrator.cpumaps)
      ensures Valid() && Tracked() == Occ(map[], map[])
      ensures forall k | 0 <= k < nodes :: ByLatency(near[k], latency[k])
    {
      nodes, cpuIds := |sets|, sets;
      migrator := new Migrator(cpus);
      near, vmInfos, cpuVmMapping, cpuNodeMapping := [], map[], map[], map[];
      new;
      InitNodeMap();
      NodeMapIsTable(cpuNodeMapping, cpuIds);
      InitLatencyLists(latency);
    }

    ghost predicate Valid()
      reads this
    {
      && CpusKnown()
      && NodeTable(cpuNodeMapping, cpuIds)
      && |near| == nodes
      && forall k | 0 <= k < nodes :: CoversNodes(near[k], nodes)
    }

    ghost predicate CpusKnown() {
      && nodes == |cpuIds|
      && migrator.Valid()
      && forall k, c | 0 <= k < nodes && c in cpuIds[k] :: 0 <= c < migrator.cpuNumber
    }

    ghost function Tracked(): Occ
      reads this
    {
      Occ(vmInfos, cpuVmMapping)
    }

    method InitNodeMap()
      requires CpusKnown() && cpuNodeMapping == map[]
      modifies this`cpuNodeMapping
      ensures IsNodeMap(cpuNodeMapping, cpuIds, nodes)
    {
      for k := 0 to nodes
        invariant IsNodeMap(cpuNodeMapping, cpuIds, k)
      {
        ghost var before := cpuNodeMapping;
        var rest := cpuIds[k];
        while rest != {}
          invariant rest <= cpuIds[k]
          invariant forall c | c in before :: c in cpuNodeMapping && cpuNodeMapping[c] == before[c]
          invariant forall c | c in cpuNodeMapping && c !in before :: cpuNodeMapping[c] == k && c in cpuIds[k]
          invariant forall c | c in cpuIds[k] - rest :: c in cpuNodeMapping
        {
          var c := Sorting.Least(rest);
          if c !in cpuNodeMapping {
            cpuNodeMapping := cpuNodeMapping[c := k];
          }
          rest := rest - {c};
        }
        assert cpuIds[k] - rest == cpuIds[k];
      }
    }

    // Every node, itself included, goes into each latency list.
    method InitLatencyLists(latency: seq<seq<real>>)
      requires |latency| == nodes && forall k | 0 <= k < nodes :: |latency[k]| == nodes
      modifies this`near
      ensures |near| == nodes
      ensures forall k | 0 <= k < nodes :: CoversNodes(near[k], nodes) && ByLatency(near[k], latency[k])
    {
      near := [];
      for i := 0 to nodes
        invariant |near| == i
        invariant forall k | 0 <= k < i :: CoversNodes(near[k], nodes) && ByLatency(near[k], latency[k])
      {
        var pairs := [];
        for j := 0 to nodes
          invariant pairs == Latencies(latency[i])[..j]
        {
          pairs := pairs + [(j, latency[i][j])];
        }
        assert pairs == Latencies(latency[i]);
        var sorted := Sorting.Sort(pairs, LatencyKey);
        SortedLatencies(sorted, latency[i]);
        near := near + [Nodes(sorted)];
      }
    }

    // Erase the old mark if it is still this VM's, move the VM, mark the new CPU.
    method ChangeCpuVmMapping(id: int, newCpu: int)
      requires id in vmInfos
      modifies this`vmInfos, this`cpuVmMapping
      ensures Tracked() == Change(old(Tracked()), id, newCpu)
    {
      var vm := vmInfos[id];
      if vm.realCpu in cpuVmMapping && cpuVmMapping[vm.realCpu] == vm.domId {
        cpuVmMapping := cpuVmMapping - {vm.realCpu};
      }
      vmInfos := vmInfos[id := vm.(realCpu := newCpu)];
      cpuVmMapping := cpuVmMapping[newCpu := vm.domId];
    }

    // A VM is set up with the CPU the hypervisor reports, -1 on failure; infoOk says whether the
    // remaining look-ups succeeded.
    method SetVmInfo(id: int, info: VmInfo, cpu: int, infoOk: bool) returns (r: int)
      requires id in vmInfos
      modifies this`vmInfos, this`cpuVmMapping
      ensures vmInfos == old(vmInfos)[id := info.(domId := id, realCpu := cpu, event := old(vmInfos)[id].event)]
      ensures cpuVmMapping ==
              if cpu == -1 || cpu in old(cpuVmMapping) then old(cpuVmMapping) else old(cpuVmMapping)[cpu := id]
      ensures r == if cpu != -1 && infoOk then 0 else -1
    {
      r := 0;
      vmInfos := vmInfos[id := info.(domId := id, realCpu := -1, event := vmInfos[id].event)];
      if cpu == -1 {
        r := -1;
      } else {
        vmInfos := vmInfos[id := vmInfos[id].(realCpu := cpu)];
        if cpu !in cpuVmMapping {
          cpuVmMapping := cpuVmMapping[cpu := id];
        }
      }
      if !infoOk {
        r := -1;
      }
    }

    // The lifecycle call-back. For a start, info and cpu are what the hypervisor tells about the VM.
    method VmEventCallBack(id: int, ev: Event, info: VmInfo, cpu: int, infoOk: bool) returns (r: int)
      modifies this`vmInfos, this`cpuVmMapping
      ensures ev == Started ==> Tracked() == Start(old(Tracked()), info.(domId := id, realCpu := cpu))
      ensures ev != Started ==> Tracked() == Notify(old(Tracked()), id, ev)
      ensures r == if ev == Started then (if cpu != -1 && infoOk then 0 else -1)
                   else if Handled(ev) && id !in old(vmInfos) then -1 else 0
    {
      r := 0;
      if ev == Started {
        vmInfos := vmInfos[id := BLANK_VM];
        r := SetVmInfo(id, info, cpu, infoOk);
        vmInfos := vmInfos[id := vmInfos[id].(event := ev)];
      } else if ev == Suspended || ev == Resumed || ev == Stopped || ev == Shutdown || ev == Crashed {
        if id !in vmInfos {
          return -1;
        }
        var vm := vmInfos[id];
        var last := vm.event;
        if (last == Shutdown || last == Stopped) && ev == Stopped {
          if vm.realCpu in cpuVmMapping && cpuVmMapping[vm.realCpu] == vm.domId {
            cpuVmMapping := cpuVmMapping - {vm.realCpu};
          }
          vmInfos := vmInfos - {id};
        } else {
          vmInfos := vmInfos[id := vm.(event := ev)];
        }
      }
    }

    // Follow the OS scheduler: ask for every VM's CPU and re-mark the VMs that moved, one by one.
    method RefreshCpuMapping(report: int -> int)
      requires Sound(Tracked())
      modifies this`vmInfos, this`cpuVmMapping
      ensures Tracked() == Refresh(old(Tracked()), report)
      ensures vmInfos.Keys == old(vmInfos).Keys && Sound(Tracked())
      ensures forall id | id in vmInfos ::
                vmInfos[id] == old(vmInfos)[id].(realCpu := NewCpu(old(vmInfos)[id], report(id)))
      ensures Exact(Tracked()) <==>
              DistinctTargets(old(Tracked()), old(vmInfos).Keys, report)
              && RestingMarked(old(Tracked()), old(vmInfos).Keys, report)
    {
      ghost var before := Tracked();
      var rest := vmInfos.Keys;
      while rest != {}
        invariant rest <= vmInfos.Keys
        invariant RefreshFrom(Tracked(), rest, report) == Refresh(before, report)
      {
        var id := Sorting.Least(rest);
        var answer := report(id);
        if answer != -1 && answer != vmInfos[id].realCpu {
          ChangeCpuVmMapping(id, answer);
        }
        rest := rest - {id};
      }
      RefreshKeepsSound(before, before.vms.Keys, report);
      RefreshExactIff(before, report);
      forall id | id in vmInfos ensures vmInfos[id] == before.vms[id].(realCpu := NewCpu(before.vms[id], report(id))) {
        RefreshPositions(before, before.vms.Keys, report, id);
      }
    }

    // The CPUs of one node in ascending order of usage; usage[0] is the whole machine.
    method SortedCpuList(node: int, usage: seq<real>) returns (list: seq<CpuLoad>)
      requires 0 <= node < |cpuIds|
      ensures IsCpuList(list, cpuIds[node], usage)
    {
      list := [];
      var idx := 1;
      while idx < |usage|
        invariant 1 <= idx
        invariant Collected(list, cpuIds[node], usage, idx - 1)
        invariant idx <= |usage| || list == []
      {
        var cpu := idx - 1;
        if cpu in cpuIds[node] {
          CollectOne(list, cpuIds[node], usage, CpuLoad(cpu, usage[idx]));
          list := list + [CpuLoad(cpu, usage[idx])];
        }
        idx := idx + 1;
      }
      ghost var collected := list;
      list := Sorting.Sort(list, UsageKey);
      SortedIsCpuList(collected, list, cpuIds[node], usage, idx - 1);
    }

    // Carry the decisions out one by one. pins tells which pin requests the hypervisor grants.
    method Perform(acts: seq<Decision>, usage: seq<real>, pins: nat -> bool) returns (ghost lists: seq<seq<CpuLoad>>)
      requires Valid()
      requires forall i | 0 <= i < |acts| :: 0 <= acts[i].cpuNode < nodes
      modifies this`vmInfos, this`cpuVmMapping, this`cpuNodeMapping, migrator.cpumaps
      ensures Valid() && near == old(near) && ListsFrom(cpuIds, lists) && ListsOk(lists) && NodesOk(lists, acts)
      ensures forall k | 0 <= k < nodes :: IsCpuList(lists[k], cpuIds[k], usage)
      ensures Tracked() == Migration.Perform(old(Tracked()), old(cpuNodeMapping), lists, acts, pins)
      ensures forall c :: NodeOf(cpuNodeMapping, c) == NodeOf(old(cpuNodeMapping), c)
      ensures (forall i | 0 <= i < |acts| :: acts[i].domId in old(vmInfos)) ==>
                (old(Sound(Tracked())) ==> Sound(Tracked())) && (old(Exact(Tracked())) ==> Exact(Tracked()))
    {
      ghost var before, map0 := Tracked(), cpuNodeMapping;
      var sorted: seq<seq<CpuLoad>> := [];
      for k := 0 to nodes
        invariant |sorted| == k && forall j | 0 <= j < k :: IsCpuList(sorted[j], cpuIds[j], usage)
        invariant Valid() && Tracked() == before && cpuNodeMapping == map0
      {
        var list := SortedCpuList(k, usage);
        sorted := sorted + [list];
      }
      lists := sorted;
      for i := 0 to |acts|
        invariant Valid() && near == old(near) && NodesOk(lists, acts)
        invariant Tracked() == Migration.Perform(before, map0, lists, acts[..i], pins)
        invariant forall c :: NodeOf(cpuNodeMapping, c) == NodeOf(map0, c)
      {
        var act := acts[i];
        assert acts[..i + 1][..i] == acts[..i];
        PerformAct(act, sorted, pins(i));
      }
      assert acts[..|acts|] == acts;
      if forall i | 0 <= i < |acts| :: acts[i].domId in before.vms {
        PerformKeeps(before, map0, lists, acts, pins);
      }
    }

    // The body of the loop over the decisions.
    method PerformAct(act: Decision, sorted: seq<seq<CpuLoad>>, granted: bool)
      requires Valid() && ListsOk(sorted) && |sorted| == nodes
      requires forall k, i | 0 <= k < nodes && 0 <= i < |sorted[k]| :: sorted[k][i].cpu in cpuIds[k]
      requires 0 <= act.cpuNode < nodes
      modifies this`vmInfos, this`cpuVmMapping, this`cpuNodeMapping, migrator.cpumaps
      ensures Valid() && near == old(near)
      ensures Tracked() == PerformOne(old(Tracked()), old(cpuNodeMapping), sorted, act, granted)
      ensures forall c :: NodeOf(cpuNodeMapping, c) == NodeOf(old(cpuNodeMapping), c)
      ensures var free := FirstFree(sorted[act.cpuNode], old(cpuVmMapping));
        var vm := LookedUp(old(Tracked()), act.domId).vms[act.domId];
        NodeOf(old(cpuNodeMapping), vm.realCpu) != act.cpuNode && free != -1 ==>
          forall c: nat :: CpuSet(migrator.cpumaps[..], c) <==> c == free
    {
      if act.domId !in vmInfos {
        vmInfos := vmInfos[act.domId := BLANK_VM];
      }
      var vm := vmInfos[act.domId];
      if vm.realCpu !in cpuNodeMapping {
        cpuNodeMapping := cpuNodeMapping[vm.realCpu := 0];
      }
      if cpuNodeMapping[vm.realCpu] == act.cpuNode {
        return;
      }
      var list := sorted[act.cpuNode];
      var target := FindFree(list);
      if target == -1 {
        return;
      }
      var r := migrator.PinVcpuTo([target], granted);
      if r != -1 {
        ChangeCpuVmMapping(act.domId, target);
      }
    }

    method FindFree(list: seq<CpuLoad>) returns (target: int)
      requires forall i | 0 <= i < |list| :: list[i].cpu >= 0
      ensures target == FirstFree(list, cpuVmMapping)
    {
      target := -1;
      var i := 0;
      while i < |list|
        invariant 0 <= i <= |list| && target == -1
        invariant FirstFree(list, cpuVmMapping) == FirstFree(list[i..], cpuVmMapping)
      {
        assert list[i..][1..] == list[i + 1..];
        if list[i].cpu !in cpuVmMapping {
          target := list[i].cpu;
          break;
        }
        i := i + 1;
      }
    }

    // One turn of the main loop: refresh, let the strategy decide, carry the decisions out.
    method MonitorOnce(report: int -> int, usage: seq<real>, nic: int, ioThreshold: int, pins: nat -> bool)
      returns (acts: seq<Decision>, ghost lists: seq<seq<CpuLoad>>, ghost plan: Plan)
      requires Valid() && Sound(Tracked())
      requires Input(Refresh(Tracked(), report).vms, usage, near, nodes, nic, ioThreshold).Valid()
      modifies this`vmInfos, this`cpuVmMapping, this`cpuNodeMapping, migrator.cpumaps
      ensures Valid() && Sound(Tracked())
      ensures old(Exact(Tracked()) && DistinctTargets(Tracked(), vmInfos.Keys, report)) ==> Exact(Tracked())
      ensures near == old(near)
      ensures Decided(Input(old(Refresh(Tracked(), report)).vms, usage, near, nodes, nic, ioThreshold), acts, plan)
      ensures ListsFrom(cpuIds, lists) && forall k | 0 <= k < nodes :: IsCpuList(lists[k], cpuIds[k], usage)
      ensures ListsOk(lists) && NodesOk(lists, acts)
      ensures Tracked() == Migration.Perform(old(Refresh(Tracked(), report)), old(cpuNodeMapping), lists, acts, pins)
      ensures forall c :: NodeOf(cpuNodeMapping, c) == NodeOf(old(cpuNodeMapping), c)
      ensures CarriedOut(old(Refresh(Tracked(), report)), old(cpuNodeMapping), cpuIds, lists, acts, pins, Tracked())
    {
      RefreshOfExactHolds(Tracked(), report);
      RefreshCpuMapping(report);
      acts, plan := Decide(Input(vmInfos, usage, near, nodes, nic, ioThreshold));
      ghost var mid, map0 := Tracked(), cpuNodeMapping;
      lists := Perform(acts, usage, pins);
      RoomSuffices(mid, map0, cpuIds, lists, acts, pins);
    }

    method Decide(input: Input) returns (acts: seq<Decision>, ghost plan: Plan)
      requires input.Valid()
      ensures Decided(input, acts, plan)
    {
      ghost var env, home, run;
      acts, env, home, run := SimpleStrategy.Analyze(input);
      plan := Plan(env, home, run);
      DecisionsAreDistinct(input, acts);
    }
  }

  // How the decisions came about.
  datatype Plan = Plan(env: Env, home: Placement, run: seq<State>)

  // The strategy's decisions: each running VM once and on an existing node, as a complete run of the
  // balancer from the home nodes leaves them.
  ghost predicate Decided(input: Input, acts: seq<Decision>, plan: Plan)
    requires input.Valid()
  {
    && multiset(StrategyOutcome.Ids(acts)) == multiset(input.RunningIds())
    && DistinctIds(acts)
    && (forall i | 0 <= i < |acts| :: acts[i].domId in input.vms && 0 <= acts[i].cpuNode < input.nodes)
    && StrategyOutcome.Faithful(input, plan.env)
    && AtHome(input, input.vms.Keys, plan.home)
    && (input.RunningIds() != {} ==> FromRun(plan, acts))
    && ShapedByHomes(input, acts, plan)
  }

  ghost predicate FromRun(plan: Plan, acts: seq<Decision>) {
    && Complete(plan.env, plan.run)
    && plan.run[0].on == plan.home
    && var on := StrategyOutcome.Final(plan.env, plan.run); acts == StrategyOutcome.Decisions(on, |on|)
  }

  // What the home nodes say about the decisions.
  ghost predicate ShapedByHomes(input: Input, acts: seq<Decision>, plan: Plan)
    requires input.Valid() && StrategyOutcome.Faithful(input, plan.env) && AtHome(input, input.vms.Keys, plan.home)
  {
    && (StrategyOutcome.EvenDecisions(acts, input.nodes)
        || StrategyOutcome.NicKeepsPair(input, acts)
        || exists t :: StrategyOutcome.NicSendsPair(input, acts, t))
    && (Balanceable(plan.env, plan.home) ==> StrategyOutcome.EvenDecisions(acts, input.nodes))
    && (Hopeless(plan.env, plan.home) ==> !StrategyOutcome.EvenDecisions(acts, input.nodes))
    && StrategyOutcome.NicKeepsItsIo(input, plan.home, acts)
    && StrategyOutcome.KeepsEvenHomes(input, acts)
    && StrategyOutcome.NodesAscend(acts)
  }

  // With disjoint nodes, room and granted pins a decided VM is on a CPU of its node afterwards exactly
  // if it was on some node's CPU before or is not decided onto node 0.
  ghost predicate CarriedOut(o: Occ, nodeMap: map<int, int>, cpuIds: seq<set<int>>, lists: seq<seq<CpuLoad>>,
      acts: seq<Decision>, pins: nat -> bool, now: Occ)
  {
    && ActsOk(o, lists, acts)
    && now.vms.Keys == o.vms.Keys
    && (DisjointNodes(cpuIds) && Room(o, nodeMap, lists, acts) && (forall j: nat | j < |acts| :: pins(j)) ==>
          forall i | 0 <= i < |acts| ::
            OnNode(cpuIds, now.vms[acts[i].domId].realCpu, acts[i].cpuNode) <==>
            KnownCpu(cpuIds, o.vms[acts[i].domId].realCpu) || acts[i].cpuNode != 0)
  }

  lemma {:induction false} RoomSuffices(o: Occ, nodeMap: map<int, int>, cpuIds: seq<set<int>>, lists: seq<seq<CpuLoad>>,
      acts: seq<Decision>, pins: nat -> bool)
    requires Sound(o) && ListsOk(lists) && ActsOk(o, lists, acts) && DistinctIds(acts)
    requires NodeTable(nodeMap, cpuIds) && ListsFrom(cpuIds, lists)
    ensures CarriedOut(o, nodeMap, cpuIds, lists, acts, pins, Migration.Perform(o, nodeMap, lists, acts, pins))
  {
    var now := Migration.Perform(o, nodeMap, lists, acts, pins);
    if DisjointNodes(cpuIds) && Room(o, nodeMap, lists, acts) && forall j: nat | j < |acts| :: pins(j) {
      forall i | 0 <= i < |acts|
        ensures OnNode(cpuIds, now.vms[acts[i].domId].realCpu, acts[i].cpuNode) <==>
                KnownCpu(cpuIds, o.vms[acts[i].domId].realCpu) || acts[i].cpuNode != 0
      {
        CarriedOutIff(o, nodeMap, cpuIds, lists, acts, pins, i);
      }
    }
  }

  lemma RefreshOfExactHolds(o: Occ, report: int -> int)
    ensures Exact(o) && DistinctTargets(o, o.vms.Keys, report) ==> Exact(Refresh(o, report))
  {
    if Exact(o) {
      RefreshOfExact(o, report);
    }
  }

  // What the collecting loop of a node's CPU list has so far.
  ghost predicate Collected(list: seq<CpuLoad>, cpus: set<int>, usage: seq<real>, upTo: int) {
    && (forall i | 0 <= i < |list| :: Entry(list[i], cpus, usage) && list[i].cpu < upTo)
    && (forall i, j | 0 <= i < j < |list| :: list[i].cpu < list[j].cpu)
    && (forall c | c in cpus && 0 <= c < upTo && c < |usage| - 1 :: HasCpu(list, c))
  }

  lemma StillHas(list: seq<CpuLoad>, x: CpuLoad, c: int)
    ensures HasCpu(list, c) ==> HasCpu(list + [x], c)
    ensures HasCpu(list + [x], x.cpu)
  {
    if HasCpu(list, c) {
      var i :| 0 <= i < |list| && list[i].cpu == c;
      assert (list + [x])[i].cpu == c;
    }
    assert (list + [x])[|list|].cpu == x.cpu;
  }

  lemma CollectOne(list: seq<CpuLoad>, cpus: set<int>, usage: seq<real>, x: CpuLoad)
    requires Collected(list, cpus, usage, x.cpu) && Entry(x, cpus, usage)
    ensures Collected(list + [x], cpus, usage, x.cpu + 1)
  {
    forall c | c in cpus && 0 <= c < x.cpu + 1 && c < |usage| - 1 ensures HasCpu(list + [x], c) {
      StillHas(list, x, c);
    }
  }

  lemma SortedIsCpuList(collected: seq<CpuLoad>, list: seq<CpuLoad>, cpus: set<int>, usage: seq<real>, upTo: int)
    requires Collected(collected, cpus, usage, upTo) && upTo >= |usage| - 1
    requires multiset(list) == multiset(collected) && Sorting.SortedBy(UsageKey, list)
    ensures IsCpuList(list, cpus, usage)
  {
    forall i | 0 <= i < |list| ensures list[i] in collected && Entry(list[i], cpus, usage) {
      assert list[i] in multiset(collected);
    }
    forall i, j | 0 <= i < j < |list|
      ensures list[i].cpu != list[j].cpu && list[i].usage <= list[j].usage
    {
      assert UsageKey(list[i]) <= UsageKey(list[j]);
      Sorting.PermutationIsInjective(list, collected, i, j);
      assert list[i] in collected && list[j] in collected;
    }
    forall c | c in cpus && 0 <= c < |usage| - 1 ensures HasCpu(list, c) {
      assert HasCpu(collected, c);
      var i :| 0 <= i < |collected| && collected[i].cpu == c;
      assert collected[i] in multiset(list);
    }
  }

  // The strategy's decisions meet what Perform asks for.
  lemma DecisionsAreDistinct(input: Input, acts: seq<Decision>)
    requires input.Valid() && multiset(StrategyOutcome.Ids(acts)) == multiset(input.RunningIds())
    ensures DistinctIds(acts)
    ensures forall i | 0 <= i < |acts| :: acts[i].domId in input.vms
  {
    var ids := StrategyOutcome.Ids(acts);
    forall i | 0 <= i < |acts| ensures acts[i].domId in input.vms {
      assert ids[i] in multiset(input.RunningIds());
    }
    forall i, j | 0 <= i < j < |acts| ensures acts[i].domId != acts[j].domId {
      if ids[i] == ids[j] {
        Sorting.RepeatedCountsTwice(ids, i, j);
      }
    }
  }
}
