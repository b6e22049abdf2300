// Carrying out decisions: for each VM not yet on its node, the least-used CPU of
// that node that no VM is marked on.
module Migration {
  import opened VmTypes
  import opened Occupancy
  import Sorting

  // An entry of a node's CPU list: CPU id and usage.
  datatype CpuLoad = CpuLoad(cpu: int, usage: real)

  // cpu_node_mapping read through operator[]: an unlisted CPU reads as node 0.
  function NodeOf(nodeMap: map<int, int>, cpu: int): int {
    if cpu in nodeMap then nodeMap[cpu] else 0
  }

  // The first node whose CPU set has c, as map::insert keeps the first entry of a key.
  ghost predicate FirstNodeWith(cpuIds: seq<set<int>>, upTo: nat, c: int, node: int)
    requires upTo <= |cpuIds|
  {
    0 <= node < upTo && c in cpuIds[node] && forall k | 0 <= k < node :: c !in cpuIds[k]
  }

  ghost predicate KnownCpu(cpuIds: seq<set<int>>, c: int) {
    exists k :: 0 <= k < |cpuIds| && c in cpuIds[k]
  }

  // What the node map says after set-up and ever after: the first node listing a CPU, and node 0
  // for a CPU no node lists, whether or not a look-up has inserted it.
  ghost predicate NodeTable(nodeMap: map<int, int>, cpuIds: seq<set<int>>) {
    && (forall c | KnownCpu(cpuIds, c) :: FirstNodeWith(cpuIds, |cpuIds|, c, NodeOf(nodeMap, c)))
    && (forall c | !KnownCpu(cpuIds, c) :: NodeOf(nodeMap, c) == 0)
  }

  ghost predicate DisjointNodes(cpuIds: seq<set<int>>) {
    forall j, k, c | 0 <= j < k < |cpuIds| && c in cpuIds[j] :: c !in cpuIds[k]
  }

  // The CPU belongs to the node.
  ghost predicate OnNode(cpuIds: seq<set<int>>, cpu: int, node: int) {
    0 <= node < |cpuIds| && cpu in cpuIds[node]
  }

  // The first CPU of the list without a mark, or -1.
  function FirstFree(list: seq<CpuLoad>, index: map<int, int>): (r: int)
    requires forall i | 0 <= i < |list| :: list[i].cpu >= 0
    ensures r == -1 || (r !in index && exists i :: 0 <= i < |list| && list[i].cpu == r)
    ensures r == -1 ==> forall i | 0 <= i < |list| :: list[i].cpu in index
  {
    if list == [] then -1
    else if list[0].cpu !in index then list[0].cpu
    else FirstFree(list[1..], index)
  }

  // A list entry: a CPU of the set with its usage figure.
  ghost predicate Entry(x: CpuLoad, cpus: set<int>, usage: seq<real>) {
    x.cpu in cpus && 0 <= x.cpu < |usage| - 1 && x.usage == usage[x.cpu + 1]
  }

  // A node's list: its CPUs that usage figures exist for, once each, in ascending order of usage.
  ghost predicate IsCpuList(list: seq<CpuLoad>, cpus: set<int>, usage: seq<real>) {
    && (forall i | 0 <= i < |list| :: Entry(list[i], cpus, usage))
    && (forall i, j | 0 <= i < j < |list| :: list[i].cpu != list[j].cpu && list[i].usage <= list[j].usage)
    && (forall c | c in cpus && 0 <= c < |usage| - 1 :: HasCpu(list, c))
  }

  ghost predicate HasCpu(list: seq<CpuLoad>, c: int) {
    exists i :: 0 <= i < |list| && list[i].cpu == c
  }

  // The CPU chosen is used no more than any other unmarked CPU of the node.
  lemma {:induction false} FirstFreeIsLeastUsed(list: seq<CpuLoad>, cpus: set<int>, usage: seq<real>, index: map<int, int>,
      other: int)
    requires IsCpuList(list, cpus, usage)
    requires other in cpus && 0 <= other < |usage| - 1 && other !in index
    ensures var r := FirstFree(list, index);
      && r in cpus && 0 <= r < |usage| - 1 && r !in index
      && usage[r + 1] <= usage[other + 1]
  {
    assert HasCpu(list, other);
    var i :| 0 <= i < |list| && list[i].cpu == other;
    FirstFreeBefore(list, index, i);
    var k :| 0 <= k <= i && list[k].cpu == FirstFree(list, index) && list[k].cpu !in index;
    UsageAscends(list, cpus, usage, k, i, list[k].cpu, other);
  }

  lemma UsageAscends(list: seq<CpuLoad>, cpus: set<int>, usage: seq<real>, k: nat, i: nat, a: int, b: int)
    requires IsCpuList(list, cpus, usage) && k <= i < |list| && list[k].cpu == a && list[i].cpu == b
    ensures a in cpus && 0 <= a < |usage| - 1 && 0 <= b < |usage| - 1 && usage[a + 1] <= usage[b + 1]
  {
    assert Entry(list[k], cpus, usage) && Entry(list[i], cpus, usage);
  }

  lemma {:induction false} FirstFreeBefore(list: seq<CpuLoad>, index: map<int, int>, i: nat)
    requires forall k | 0 <= k < |list| :: list[k].cpu >= 0
    requires i < |list| && list[i].cpu !in index
    ensures exists k :: 0 <= k <= i && list[k].cpu == FirstFree(list, index) && list[k].cpu !in index
  {
    if list[0].cpu in index {
      FirstFreeBefore(list[1..], index, i - 1);
      var k :| 0 <= k <= i - 1 && list[1..][k].cpu == FirstFree(list[1..], index) && list[1..][k].cpu !in index;
      assert list[k + 1] == list[1..][k];
    }
  }

  ghost predicate ListsOk(lists: seq<seq<CpuLoad>>) {
    forall k, i | 0 <= k < |lists| && 0 <= i < |lists[k]| :: lists[k][i].cpu >= 0
  }

  // Decisions name existing nodes, and (ActsOk) VMs in the map.
  ghost predicate NodesOk(lists: seq<seq<CpuLoad>>, acts: seq<Decision>) {
    forall i | 0 <= i < |acts| :: 0 <= acts[i].cpuNode < |lists|
  }

  ghost predicate ActsOk(o: Occ, lists: seq<seq<CpuLoad>>, acts: seq<Decision>) {
    NodesOk(lists, acts) && forall i | 0 <= i < |acts| :: acts[i].domId in o.vms
  }

  // vm_infos_map[id] as the program reads it: an unknown id gets a blank record.
  function LookedUp(o: Occ, id: int): Occ {
    if id in o.vms then o else o.(vms := o.vms[id := BLANK_VM])
  }

  // One decision. granted is the hypervisor's answer to the pin request, if one is made.
  function PerformOne(o: Occ, nodeMap: map<int, int>, lists: seq<seq<CpuLoad>>, act: Decision, granted: bool): Occ
    requires ListsOk(lists) && 0 <= act.cpuNode < |lists|
  {
    var p := LookedUp(o, act.domId);
    if NodeOf(nodeMap, p.vms[act.domId].realCpu) == act.cpuNode then p
    else
      var cpu := FirstFree(lists[act.cpuNode], p.index);
      if cpu == -1 || !granted then p else Change(p, act.domId, cpu)
  }

  function Perform(o: Occ, nodeMap: map<int, int>, lists: seq<seq<CpuLoad>>, acts: seq<Decision>, pins: nat -> bool): (r: Occ)
    requires ListsOk(lists) && NodesOk(lists, acts)
    ensures o.vms.Keys <= r.vms.Keys
    ensures (forall i | 0 <= i < |acts| :: acts[i].domId in o.vms) ==> r.vms.Keys == o.vms.Keys
  {
    if acts == [] then o
    else
      var last := |acts| - 1;
      PerformOne(Perform(o, nodeMap, lists, acts[..last], pins), nodeMap, lists, acts[last], pins(last))
  }

  // CPU i of the list is the first without a mark.
  ghost predicate FirstUnmarked(list: seq<CpuLoad>, index: map<int, int>, i: int) {
    0 <= i < |list| && list[i].cpu !in index && forall j | 0 <= j < i :: list[j].cpu in index
  }

  lemma {:induction false} FirstFreeIs(list: seq<CpuLoad>, index: map<int, int>)
    requires forall i | 0 <= i < |list| :: list[i].cpu >= 0
    ensures FirstFree(list, index) != -1 ==> exists i :: FirstUnmarked(list, index, i) && list[i].cpu == FirstFree(list, index)
  {
    if list != [] {
      if list[0].cpu !in index {
        assert FirstUnmarked(list, index, 0);
      } else if FirstFree(list, index) != -1 {
        FirstFreeIs(list[1..], index);
        var i :| FirstUnmarked(list[1..], index, i) && list[1..][i].cpu == FirstFree(list, index);
        assert forall j | 0 < j <= i :: list[j] == list[1..][j - 1];
        assert FirstUnmarked(list, index, i + 1) && list[i + 1].cpu == FirstFree(list, index);
      }
    }
  }

  // The pin is granted, the VM does not count as being on the node, and the node has a CPU without a mark.
  ghost predicate Relocates(nodeMap: map<int, int>, list: seq<CpuLoad>, index: map<int, int>, cpu: int, node: int, granted: bool) {
    granted && (if cpu in nodeMap then nodeMap[cpu] else 0) != node && exists i :: FirstUnmarked(list, index, i)
  }

  // What one decision may touch: its VM's CPU, the mark that is that VM's own, and the mark of the
  // first unmarked CPU of the node. With no such CPU, no pin, or no need nothing changes, except that
  // an unknown VM gets a blank record.
  lemma DecisionFrame(o: Occ, nodeMap: map<int, int>, lists: seq<seq<CpuLoad>>, act: Decision, granted: bool)
    requires ListsOk(lists) && 0 <= act.cpuNode < |lists|
    ensures var o', id, list := PerformOne(o, nodeMap, lists, act, granted), act.domId, lists[act.cpuNode];
      var was := if id in o.vms then o.vms[id] else VmInfo(-1, -1, 0.0, 0.0, 0.0, 0, Undefined);
      && o'.vms.Keys == o.vms.Keys + {id}
      && (forall x | x in o.vms && x != id :: o'.vms[x] == o.vms[x])
      && o'.vms[id] == was.(realCpu := o'.vms[id].realCpu)
      && if Relocates(nodeMap, list, o.index, was.realCpu, act.cpuNode, granted)
         then && (exists i :: FirstUnmarked(list, o.index, i) && list[i].cpu == o'.vms[id].realCpu)
              && MarkMoved(o.index, was, o'.vms[id].realCpu, o'.index)
         else o'.vms[id] == was && o'.index == o.index
  {
    var list := lists[act.cpuNode];
    FirstFreeIs(list, o.index);
  }

  // The VM's own mark, if it has one, goes from its old CPU to the new one.
  ghost predicate MarkMoved(index: map<int, int>, vm: VmInfo, cpu: int, index': map<int, int>) {
    && cpu in index' && index'[cpu] == vm.domId
    && forall c | c != cpu ::
         && (c in index' <==> c in index && !(c == vm.realCpu && index[c] == vm.domId))
         && (c in index' ==> index'[c] == index[c])
  }

  // A decision keeps sound marks sound exactly when it names a VM in the map; a blank record under
  // an unknown id carries the wrong id.
  lemma PerformOneSoundIff(o: Occ, nodeMap: map<int, int>, lists: seq<seq<CpuLoad>>, act: Decision, granted: bool)
    requires Sound(o) && ListsOk(lists) && 0 <= act.cpuNode < |lists|
    ensures Sound(PerformOne(o, nodeMap, lists, act, granted)) <==> act.domId in o.vms || act.domId == BLANK_VM.domId
  {
    var p := LookedUp(o, act.domId);
    var cpu := FirstFree(lists[act.cpuNode], p.index);
    if act.domId in o.vms || act.domId == BLANK_VM.domId {
      assert Sound(p);
      if cpu != -1 {
        ChangeKeepsSound(p, act.domId, cpu);
      }
    } else {
      assert PerformOne(o, nodeMap, lists, act, granted).vms[act.domId].domId == BLANK_VM.domId;
    }
  }

  lemma PerformOneKeeps(o: Occ, nodeMap: map<int, int>, lists: seq<seq<CpuLoad>>, act: Decision, granted: bool)
    requires ListsOk(lists) && act.domId in o.vms && 0 <= act.cpuNode < |lists|
    ensures Sound(o) ==> Sound(PerformOne(o, nodeMap, lists, act, granted))
    ensures Exact(o) ==> Exact(PerformOne(o, nodeMap, lists, act, granted))
  {
    var cpu := FirstFree(lists[act.cpuNode], o.index);
    if Sound(o) && cpu != -1 {
      ChangeKeepsSound(o, act.domId, cpu);
    }
    if Exact(o) && cpu != -1 {
      ChangeKeepsExact(o, act.domId, cpu);
    }
  }

  // No two VMs are on one known CPU.
  ghost predicate NoSharedCpus(o: Occ) {
    forall a, b | a in o.vms && b in o.vms && a != b && o.vms[a].realCpu != -1 :: o.vms[a].realCpu != o.vms[b].realCpu
  }

  // The decision makes its VM move, to the CPU found.
  predicate Moves(o: Occ, nodeMap: map<int, int>, lists: seq<seq<CpuLoad>>, act: Decision, granted: bool)
    requires ListsOk(lists) && act.domId in o.vms && 0 <= act.cpuNode < |lists|
  {
    && granted
    && NodeOf(nodeMap, o.vms[act.domId].realCpu) != act.cpuNode
    && FirstFree(lists[act.cpuNode], o.index) != -1
  }

  // What a lost mark leads to: with every VM on a CPU of its own, a decision puts two VMs on one CPU
  // exactly when the CPU it picks carries another VM, whose mark is then missing.
  lemma DecisionSharesIff(o: Occ, nodeMap: map<int, int>, lists: seq<seq<CpuLoad>>, act: Decision, granted: bool)
    requires Sound(o) && NoSharedCpus(o) && ListsOk(lists) && act.domId in o.vms && 0 <= act.cpuNode < |lists|
    ensures !NoSharedCpus(PerformOne(o, nodeMap, lists, act, granted)) <==>
            && Moves(o, nodeMap, lists, act, granted)
            && exists other :: other in o.vms && other != act.domId && !Indexed(o, other)
                               && o.vms[other].realCpu == FirstFree(lists[act.cpuNode], o.index)
  {
    var o' := PerformOne(o, nodeMap, lists, act, granted);
    var cpu := FirstFree(lists[act.cpuNode], o.index);
    if other :| other in o.vms && other != act.domId && o.vms[other].realCpu == cpu
                && Moves(o, nodeMap, lists, act, granted) {
      assert o'.vms[other].realCpu == o'.vms[act.domId].realCpu == cpu;
      assert !Indexed(o, other);
    }
  }

  // Whatever the order of the decisions and the failures to pin, an exact map stays exact, so no
  // two VMs are put on one CPU.
  lemma {:induction false} PerformKeeps(o: Occ, nodeMap: map<int, int>, lists: seq<seq<CpuLoad>>, acts: seq<Decision>,
      pins: nat -> bool)
    requires ListsOk(lists) && ActsOk(o, lists, acts)
    ensures Sound(o) ==> Sound(Perform(o, nodeMap, lists, acts, pins))
    ensures Exact(o) ==> Exact(Perform(o, nodeMap, lists, acts, pins))
  {
    if acts != [] {
      var last := |acts| - 1;
      PerformKeeps(o, nodeMap, lists, acts[..last], pins);
      PerformOneKeeps(Perform(o, nodeMap, lists, acts[..last], pins), nodeMap, lists, acts[last], pins(last));
    }
  }

  // ----- capacity -----

  function Cpus(list: seq<CpuLoad>): set<int> {
    set i | 0 <= i < |list| :: list[i].cpu
  }

  // The CPUs of a node's list that carry a mark.
  function Taken(o: Occ, list: seq<CpuLoad>): set<int> {
    Cpus(list) * o.index.Keys
  }

  // How many decisions send a VM to the node from somewhere else.
  function Arrivals(o: Occ, nodeMap: map<int, int>, acts: seq<Decision>, node: int): nat
    requires forall i | 0 <= i < |acts| :: acts[i].domId in o.vms
  {
    if acts == [] then 0
    else
      var last := |acts| - 1;
      Arrivals(o, nodeMap, acts[..last], node)
      + (if acts[last].cpuNode == node && NodeOf(nodeMap, o.vms[acts[last].domId].realCpu) != node then 1 else 0)
  }

  // The node map agrees with the lists.
  ghost predicate ListsMatch(nodeMap: map<int, int>, lists: seq<seq<CpuLoad>>) {
    forall k, i | 0 <= k < |lists| && 0 <= i < |lists[k]| :: NodeOf(nodeMap, lists[k][i].cpu) == k
  }

  // The lists hold CPUs of their own node only.
  ghost predicate ListsFrom(cpuIds: seq<set<int>>, lists: seq<seq<CpuLoad>>) {
    |lists| == |cpuIds| && forall k, i | 0 <= k < |lists| && 0 <= i < |lists[k]| :: lists[k][i].cpu in cpuIds[k]
  }

  // It does when no CPU is in two nodes.
  lemma DisjointListsMatch(nodeMap: map<int, int>, cpuIds: seq<set<int>>, lists: seq<seq<CpuLoad>>)
    requires NodeTable(nodeMap, cpuIds) && DisjointNodes(cpuIds) && ListsFrom(cpuIds, lists)
    ensures ListsMatch(nodeMap, lists)
  {
    forall k, i | 0 <= k < |lists| && 0 <= i < |lists[k]| ensures NodeOf(nodeMap, lists[k][i].cpu) == k {
      var c := lists[k][i].cpu;
      assert c in cpuIds[k];
      assert KnownCpu(cpuIds, c);
      assert FirstNodeWith(cpuIds, |cpuIds|, c, NodeOf(nodeMap, c));
    }
  }

  // Every node has a listed CPU for each mark on it and each decision that brings a VM to it.
  ghost predicate Room(o: Occ, nodeMap: map<int, int>, lists: seq<seq<CpuLoad>>, acts: seq<Decision>)
    requires forall i | 0 <= i < |acts| :: acts[i].domId in o.vms
  {
    forall k | 0 <= k < |lists| :: |Taken(o, lists[k])| + Arrivals(o, nodeMap, acts, k) <= |Cpus(lists[k])|
  }

  ghost predicate DistinctIds(acts: seq<Decision>) {
    forall i, j | 0 <= i < j < |acts| :: acts[i].domId != acts[j].domId
  }

  // A VM is touched only by a decision that names it and a pin that is granted.
  lemma {:induction false} Untouched(o: Occ, nodeMap: map<int, int>, lists: seq<seq<CpuLoad>>, acts: seq<Decision>,
      pins: nat -> bool, id: int)
    requires ListsOk(lists) && ActsOk(o, lists, acts) && id in o.vms
    requires forall i: nat | i < |acts| :: acts[i].domId == id ==> !pins(i)
    ensures Perform(o, nodeMap, lists, acts, pins).vms[id] == o.vms[id]
  {
    if acts != [] {
      Untouched(o, nodeMap, lists, acts[..|acts| - 1], pins, id);
    }
  }

  // One decision marks at most one more CPU of its node and none of any other.
  lemma TakenGrows(o: Occ, nodeMap: map<int, int>, lists: seq<seq<CpuLoad>>, act: Decision, k: int)
    requires ListsOk(lists) && act.domId in o.vms && 0 <= act.cpuNode < |lists| && 0 <= k < |lists|
    requires Sound(o)
    requires ListsMatch(nodeMap, lists)
    ensures |Taken(PerformOne(o, nodeMap, lists, act, true), lists[k])| <=
            |Taken(o, lists[k])|
            + (if act.cpuNode == k && NodeOf(nodeMap, o.vms[act.domId].realCpu) != k then 1 else 0)
  {
    var o' := PerformOne(o, nodeMap, lists, act, true);
    var cpu := FirstFree(lists[act.cpuNode], o.index);
    if k != act.cpuNode || cpu == -1 || NodeOf(nodeMap, o.vms[act.domId].realCpu) == act.cpuNode {
      Sorting.SubsetSizes(Taken(o', lists[k]), Taken(o, lists[k]));
    } else {
      Sorting.SubsetSizes(Taken(o', lists[k]), Taken(o, lists[k]) + {cpu});
    }
  }

  lemma NoRoom(o: Occ, list: seq<CpuLoad>)
    requires forall i | 0 <= i < |list| :: list[i].cpu >= 0
    requires FirstFree(list, o.index) == -1
    ensures Taken(o, list) == Cpus(list)
  {
  }

  // While a CPU of the node is not taken, one is found.
  lemma RoomIsFound(o: Occ, list: seq<CpuLoad>)
    requires forall i | 0 <= i < |list| :: list[i].cpu >= 0
    requires |Taken(o, list)| < |Cpus(list)|
    ensures FirstFree(list, o.index) != -1
  {
    if FirstFree(list, o.index) == -1 {
      NoRoom(o, list);
    }
  }

  // What the last decision adds to the taken CPUs, judged by where its VM was at the start.
  lemma {:induction false} LastTaken(o: Occ, nodeMap: map<int, int>, lists: seq<seq<CpuLoad>>, acts: seq<Decision>,
      pins: nat -> bool, k: int)
    requires Sound(o) && ListsOk(lists) && ActsOk(o, lists, acts) && DistinctIds(acts) && acts != []
    requires pins(|acts| - 1) && ListsMatch(nodeMap, lists) && 0 <= k < |lists|
    ensures var act := acts[|acts| - 1];
      |Taken(Perform(o, nodeMap, lists, acts, pins), lists[k])| <=
      |Taken(Perform(o, nodeMap, lists, acts[..|acts| - 1], pins), lists[k])|
      + (if act.cpuNode == k && NodeOf(nodeMap, o.vms[act.domId].realCpu) != k then 1 else 0)
  {
    var last := |acts| - 1;
    PerformKeeps(o, nodeMap, lists, acts[..last], pins);
    Untouched(o, nodeMap, lists, acts[..last], pins, acts[last].domId);
    TakenGrows(Perform(o, nodeMap, lists, acts[..last], pins), nodeMap, lists, acts[last], k);
  }

  // The count of taken CPUs after a prefix of the decisions.
  lemma {:induction false} TakenSoFar(o: Occ, nodeMap: map<int, int>, lists: seq<seq<CpuLoad>>, acts: seq<Decision>,
      pins: nat -> bool, k: int)
    requires Sound(o) && ListsOk(lists) && ActsOk(o, lists, acts) && DistinctIds(acts)
    requires forall i: nat | i < |acts| :: pins(i)
    requires ListsMatch(nodeMap, lists) && 0 <= k < |lists|
    ensures |Taken(Perform(o, nodeMap, lists, acts, pins), lists[k])| <=
            |Taken(o, lists[k])| + Arrivals(o, nodeMap, acts, k)
  {
    if acts != [] {
      TakenSoFar(o, nodeMap, lists, acts[..|acts| - 1], pins, k);
      LastTaken(o, nodeMap, lists, acts, pins, k);
    }
  }

  lemma {:induction false} ArrivalsOfPrefix(o: Occ, nodeMap: map<int, int>, acts: seq<Decision>, node: int, i: nat)
    requires forall j | 0 <= j < |acts| :: acts[j].domId in o.vms
    requires i < |acts| && acts[i].cpuNode == node && NodeOf(nodeMap, o.vms[acts[i].domId].realCpu) != node
    ensures Arrivals(o, nodeMap, acts[..i], node) < Arrivals(o, nodeMap, acts, node)
  {
    var last := |acts| - 1;
    if i < last {
      assert acts[..last][..i] == acts[..i];
      ArrivalsOfPrefix(o, nodeMap, acts[..last], node, i);
    }
  }

  // When the i-th decision has its turn, there is room.
  lemma {:induction false} RoomForTurn(o: Occ, nodeMap: map<int, int>, lists: seq<seq<CpuLoad>>, acts: seq<Decision>,
      pins: nat -> bool, i: nat)
    requires Sound(o) && ListsOk(lists) && ActsOk(o, lists, acts) && DistinctIds(acts)
    requires forall j: nat | j < |acts| :: pins(j)
    requires ListsMatch(nodeMap, lists) && Room(o, nodeMap, lists, acts) && i < |acts|
    requires NodeOf(nodeMap, o.vms[acts[i].domId].realCpu) != acts[i].cpuNode
    ensures FirstFree(lists[acts[i].cpuNode], Perform(o, nodeMap, lists, acts[..i], pins).index) != -1
  {
    var k := acts[i].cpuNode;
    TakenSoFar(o, nodeMap, lists, acts[..i], pins, k);
    ArrivalsOfPrefix(o, nodeMap, acts, k, i);
    RoomIsFound(Perform(o, nodeMap, lists, acts[..i], pins), lists[k]);
  }

  lemma FoundIsListed(list: seq<CpuLoad>, index: map<int, int>, cpus: set<int>)
    requires forall i | 0 <= i < |list| :: list[i].cpu >= 0 && list[i].cpu in cpus
    ensures FirstFree(list, index) == -1 || FirstFree(list, index) in cpus
  {
  }

  // The i-th decision leaves its VM where it is if that counts as the node, and otherwise puts it
  // on a CPU of the node ...
  lemma {:induction false} LandsOnNode(o: Occ, nodeMap: map<int, int>, cpuIds: seq<set<int>>, lists: seq<seq<CpuLoad>>,
      acts: seq<Decision>, pins: nat -> bool, i: nat)
    requires Sound(o) && ListsOk(lists) && ActsOk(o, lists, acts) && DistinctIds(acts)
    requires forall j: nat | j < |acts| :: pins(j)
    requires ListsMatch(nodeMap, lists) && ListsFrom(cpuIds, lists) && Room(o, nodeMap, lists, acts) && i < |acts|
    ensures var cpu, k := o.vms[acts[i].domId].realCpu, acts[i].cpuNode;
      var now := Perform(o, nodeMap, lists, acts[..i + 1], pins).vms[acts[i].domId].realCpu;
      if NodeOf(nodeMap, cpu) == k then now == cpu else OnNode(cpuIds, now, k)
  {
    assert acts[..i + 1][..i] == acts[..i];
    Untouched(o, nodeMap, lists, acts[..i], pins, acts[i].domId);
    if NodeOf(nodeMap, o.vms[acts[i].domId].realCpu) != acts[i].cpuNode {
      RoomForTurn(o, nodeMap, lists, acts, pins, i);
      FoundIsListed(lists[acts[i].cpuNode], Perform(o, nodeMap, lists, acts[..i], pins).index, cpuIds[acts[i].cpuNode]);
    }
  }

  lemma OthersStay(o: Occ, nodeMap: map<int, int>, lists: seq<seq<CpuLoad>>, act: Decision, granted: bool, id: int)
    requires ListsOk(lists) && 0 <= act.cpuNode < |lists| && id in o.vms && id != act.domId
    ensures id in PerformOne(o, nodeMap, lists, act, granted).vms
    ensures PerformOne(o, nodeMap, lists, act, granted).vms[id] == o.vms[id]
  {
  }

  // ... and the later ones leave it there.
  lemma {:induction false} StaysOnNode(o: Occ, nodeMap: map<int, int>, lists: seq<seq<CpuLoad>>, acts: seq<Decision>,
      pins: nat -> bool, i: nat, n: nat)
    requires ListsOk(lists) && ActsOk(o, lists, acts) && DistinctIds(acts) && i < n <= |acts|
    ensures Perform(o, nodeMap, lists, acts[..n], pins).vms[acts[i].domId] ==
            Perform(o, nodeMap, lists, acts[..i + 1], pins).vms[acts[i].domId]
  {
    if n > i + 1 {
      var now := Perform(o, nodeMap, lists, acts[..n - 1], pins);
      assert acts[..n][..n - 1] == acts[..n - 1];
      assert Perform(o, nodeMap, lists, acts[..n], pins) == PerformOne(now, nodeMap, lists, acts[n - 1], pins(n - 1));
      StaysOnNode(o, nodeMap, lists, acts, pins, i, n - 1);
      OthersStay(now, nodeMap, lists, acts[n - 1], pins(n - 1), acts[i].domId);
    }
  }

  ghost predicate DecidedBefore(acts: seq<Decision>, n: nat, id: int)
    requires n <= |acts|
  {
    exists j :: 0 <= j < n && acts[j].domId == id
  }

  // A mark that was not there at the start is a decided VM's.
  lemma {:induction false} NewMarks(o: Occ, nodeMap: map<int, int>, lists: seq<seq<CpuLoad>>, acts: seq<Decision>,
      pins: nat -> bool, cpu: int)
    requires Sound(o) && ListsOk(lists) && ActsOk(o, lists, acts)
    ensures var index := Perform(o, nodeMap, lists, acts, pins).index;
      cpu in index && cpu !in o.index ==> DecidedBefore(acts, |acts|, index[cpu])
  {
    if acts != [] {
      var last := |acts| - 1;
      var now := Perform(o, nodeMap, lists, acts[..last], pins);
      NewMarks(o, nodeMap, lists, acts[..last], pins, cpu);
      PerformKeeps(o, nodeMap, lists, acts[..last], pins);
      assert now.vms[acts[last].domId].domId == acts[last].domId;
      if cpu in now.index && cpu !in o.index {
        var j :| 0 <= j < last && acts[..last][j].domId == now.index[cpu];
        assert acts[j].domId == now.index[cpu];
      }
    }
  }

  // A granted decision leaves its VM for good on the first free CPU of the node at its turn.
  lemma {:induction false} EndsWhereSent(o: Occ, nodeMap: map<int, int>, lists: seq<seq<CpuLoad>>, acts: seq<Decision>,
      pins: nat -> bool, i: nat)
    requires ListsOk(lists) && ActsOk(o, lists, acts) && DistinctIds(acts) && i < |acts|
    requires pins(i) && NodeOf(nodeMap, o.vms[acts[i].domId].realCpu) != acts[i].cpuNode
    ensures var free := FirstFree(lists[acts[i].cpuNode], Perform(o, nodeMap, lists, acts[..i], pins).index);
      free != -1 ==> Perform(o, nodeMap, lists, acts, pins).vms[acts[i].domId].realCpu == free
  {
    assert acts[..|acts|] == acts && acts[..i + 1][..i] == acts[..i];
    Untouched(o, nodeMap, lists, acts[..i], pins, acts[i].domId);
    StaysOnNode(o, nodeMap, lists, acts, pins, i, |acts|);
  }

  // Earlier decisions choose first: a VM that its decision moves ends on a CPU used no more than any
  // CPU of its node that had no mark at the start and that no earlier decided VM ends on.
  lemma {:induction false} EarlierGoesFirst(o: Occ, nodeMap: map<int, int>, lists: seq<seq<CpuLoad>>, acts: seq<Decision>,
      pins: nat -> bool, i: nat, cpus: set<int>, usage: seq<real>, other: int)
    requires Sound(o) && ListsOk(lists) && ActsOk(o, lists, acts) && DistinctIds(acts) && i < |acts|
    requires pins(i) && NodeOf(nodeMap, o.vms[acts[i].domId].realCpu) != acts[i].cpuNode
    requires IsCpuList(lists[acts[i].cpuNode], cpus, usage)
    requires other in cpus && 0 <= other < |usage| - 1 && other !in o.index
    requires forall j | 0 <= j < i :: Perform(o, nodeMap, lists, acts, pins).vms[acts[j].domId].realCpu != other
    ensures var cpu := Perform(o, nodeMap, lists, acts, pins).vms[acts[i].domId].realCpu;
      cpu in cpus && 0 <= cpu < |usage| - 1 && usage[cpu + 1] <= usage[other + 1]
  {
    var now := Perform(o, nodeMap, lists, acts[..i], pins);
    EndsWhereSent(o, nodeMap, lists, acts, pins, i);
    NotMarkedYet(o, nodeMap, lists, acts, pins, i, other);
    FirstFreeIsLeastUsed(lists[acts[i].cpuNode], cpus, usage, now.index, other);
  }

  lemma {:induction false} NotMarkedYet(o: Occ, nodeMap: map<int, int>, lists: seq<seq<CpuLoad>>, acts: seq<Decision>,
      pins: nat -> bool, i: nat, cpu: int)
    requires Sound(o) && ListsOk(lists) && ActsOk(o, lists, acts) && DistinctIds(acts) && i <= |acts| && cpu !in o.index
    requires forall j | 0 <= j < i :: Perform(o, nodeMap, lists, acts, pins).vms[acts[j].domId].realCpu != cpu
    ensures cpu !in Perform(o, nodeMap, lists, acts[..i], pins).index
  {
    var now := Perform(o, nodeMap, lists, acts[..i], pins);
    NewMarks(o, nodeMap, lists, acts[..i], pins, cpu);
    PerformKeeps(o, nodeMap, lists, acts[..i], pins);
    if cpu in now.index {
      var j :| 0 <= j < i && acts[..i][j].domId == now.index[cpu];
      assert acts[..|acts|] == acts;
      StaysOnNode(o, nodeMap, lists, acts, pins, j, i);
      StaysOnNode(o, nodeMap, lists, acts, pins, j, |acts|);
      assert false;
    }
  }

  // With room on every node and granted pins, a decided VM ends on a CPU of its node if and only if
  // it started on a CPU some node lists or the node is not node 0: an unlisted CPU reads as node 0,
  // so a VM decided onto node 0 from there is left alone.
  lemma {:induction false} CarriedOutIff(o: Occ, nodeMap: map<int, int>, cpuIds: seq<set<int>>, lists: seq<seq<CpuLoad>>,
      acts: seq<Decision>, pins: nat -> bool, i: nat)
    requires Sound(o) && ListsOk(lists) && ActsOk(o, lists, acts) && DistinctIds(acts)
    requires NodeTable(nodeMap, cpuIds) && DisjointNodes(cpuIds) && ListsFrom(cpuIds, lists)
    requires forall j: nat | j < |acts| :: pins(j)
    requires Room(o, nodeMap, lists, acts) && i < |acts|
    ensures OnNode(cpuIds, Perform(o, nodeMap, lists, acts, pins).vms[acts[i].domId].realCpu, acts[i].cpuNode) <==>
            KnownCpu(cpuIds, o.vms[acts[i].domId].realCpu) || acts[i].cpuNode != 0
  {
    assert acts[..|acts|] == acts;
    DisjointListsMatch(nodeMap, cpuIds, lists);
    LandsOnNode(o, nodeMap, cpuIds, lists, acts, pins, i);
    StaysOnNode(o, nodeMap, lists, acts, pins, i, |acts|);
  }

  // The failing case: a VM whose CPU is unknown, decided onto node 0 with everything in place.
  const LostVm := Occ(map[1 := BLANK_VM.(domId := 1, event := Started)], map[])
  const TwoNodes: seq<set<int>> := [{0}, {1}]
  const TwoLists := [[CpuLoad(0, 0.0)], [CpuLoad(1, 0.0)]]
  const ToNodeZero := [Decision(1, 0, 0)]

  const NodeOfCpu := map[0 := 0, 1 := 1]

  lemma TablesAreInPlace()
    ensures ListsOk(TwoLists) && NodeTable(NodeOfCpu, TwoNodes)
    ensures DisjointNodes(TwoNodes) && ListsFrom(TwoNodes, TwoLists)
  {
    forall c ensures KnownCpu(TwoNodes, c) <==> c == 0 || c == 1 {
      assert 0 in TwoNodes[0] && 1 in TwoNodes[1];
    }
  }

  lemma UnknownCpuIsNotPlaced(pins: nat -> bool)
    ensures Exact(LostVm) && ListsOk(TwoLists) && ActsOk(LostVm, TwoLists, ToNodeZero) && DistinctIds(ToNodeZero)
    ensures NodeTable(NodeOfCpu, TwoNodes) && DisjointNodes(TwoNodes) && ListsFrom(TwoNodes, TwoLists)
    ensures Room(LostVm, NodeOfCpu, TwoLists, ToNodeZero)
    ensures Perform(LostVm, NodeOfCpu, TwoLists, ToNodeZero, pins) == LostVm
    ensures !OnNode(TwoNodes, LostVm.vms[1].realCpu, 0)
  {
    TablesAreInPlace();
    assert Perform(LostVm, NodeOfCpu, TwoLists, [], pins) == LostVm;
    assert ToNodeZero[..0] == [];
  }
}
