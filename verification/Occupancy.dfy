// Where VMs run and which CPU is marked as taken by which VM: the two maps of
// the migration engine and the steps that change them.
module Occupancy {
  import opened VmTypes
  import Sorting

  // vm_infos_map and cpu_vm_mapping. A VM whose CPU is unknown has realCpu == -1.
  datatype Occ = Occ(vms: map<int, VmInfo>, index: map<int, int>)

  // Every mark names a live VM that is on the marked CPU.
  ghost predicate Sound(o: Occ) {
    && (forall id | id in o.vms :: o.vms[id].domId == id)
    && (forall cpu | cpu in o.index :: cpu != -1 && o.index[cpu] in o.vms && o.vms[o.index[cpu]].realCpu == cpu)
  }

  predicate Indexed(o: Occ, id: int)
    requires id in o.vms
  {
    o.vms[id].realCpu in o.index && o.index[o.vms[id].realCpu] == id
  }

  // The marks are precisely the inverse of the VMs' positions.
  ghost predicate Exact(o: Occ) {
    Sound(o) && forall id | id in o.vms && o.vms[id].realCpu != -1 :: Indexed(o, id)
  }

  // No VM is marked on two CPUs, and when the marks are exact no two VMs share a CPU.
  lemma OneMarkPerVm(o: Occ, c: int, d: int)
    requires Sound(o) && c in o.index && d in o.index && o.index[c] == o.index[d]
    ensures c == d
  {
  }

  lemma ExactMeansNoSharing(o: Occ, id: int, other: int)
    requires Exact(o) && id in o.vms && other in o.vms && id != other
    ensures o.vms[id].realCpu != o.vms[other].realCpu || o.vms[id].realCpu == -1
  {
  }

  // ----- change_cpu_vm_mapping -----

  function Unmark(o: Occ, id: int): map<int, int>
    requires id in o.vms
  {
    var vm := o.vms[id];
    if vm.realCpu in o.index && o.index[vm.realCpu] == vm.domId then o.index - {vm.realCpu} else o.index
  }

  // Drop the old mark if it is still this VM's, move the VM, and mark the new CPU even over another VM's mark.
  function Change(o: Occ, id: int, cpu: int): Occ
    requires id in o.vms
  {
    var vm := o.vms[id];
    Occ(o.vms[id := vm.(realCpu := cpu)], Unmark(o, id)[cpu := vm.domId])
  }

  lemma ChangeKeepsSound(o: Occ, id: int, cpu: int)
    requires Sound(o) && id in o.vms && cpu != -1
    ensures Sound(Change(o, id, cpu)) && Indexed(Change(o, id, cpu), id)
  {
  }

  // Moving onto an unmarked CPU keeps exactness.
  lemma ChangeKeepsExact(o: Occ, id: int, cpu: int)
    requires Exact(o) && id in o.vms && cpu != -1 && cpu !in o.index
    ensures Exact(Change(o, id, cpu))
  {
    ChangeKeepsSound(o, id, cpu);
  }

  // ----- refresh_cpu_mapping -----

  // report gives the hypervisor's answer for each VM, -1 on failure.
  function RefreshOne(o: Occ, id: int, answer: int): Occ
    requires id in o.vms
  {
    if answer == -1 || answer == o.vms[id].realCpu then o else Change(o, id, answer)
  }

  // The loop over the VMs still to be visited, in ascending order.
  function RefreshFrom(o: Occ, rest: set<int>, report: int -> int): (r: Occ)
    requires rest <= o.vms.Keys
    ensures r.vms.Keys == o.vms.Keys
    decreases rest
  {
    if rest == {} then o else
      var id := Sorting.Least(rest);
      RefreshFrom(RefreshOne(o, id, report(id)), rest - {id}, report)
  }

  function Refresh(o: Occ, report: int -> int): Occ {
    RefreshFrom(o, o.vms.Keys, report)
  }

  // Where a VM is after the refresh: the old position is kept on failure.
  function NewCpu(vm: VmInfo, answer: int): int {
    if answer == -1 then vm.realCpu else answer
  }

  lemma {:induction false} RefreshPositions(o: Occ, rest: set<int>, report: int -> int, id: int)
    requires rest <= o.vms.Keys && id in o.vms
    ensures RefreshFrom(o, rest, report).vms[id] ==
            if id in rest then o.vms[id].(realCpu := NewCpu(o.vms[id], report(id))) else o.vms[id]
    decreases rest
  {
    if rest != {} {
      var next := Sorting.Least(rest);
      RefreshPositions(RefreshOne(o, next, report(next)), rest - {next}, report, id);
    }
  }

  lemma {:induction false} RefreshKeepsSound(o: Occ, rest: set<int>, report: int -> int)
    requires Sound(o) && rest <= o.vms.Keys
    ensures Sound(RefreshFrom(o, rest, report))
    decreases rest
  {
    if rest != {} {
      var id := Sorting.Least(rest);
      if report(id) != -1 {
        ChangeKeepsSound(o, id, report(id));
      }
      RefreshKeepsSound(RefreshOne(o, id, report(id)), rest - {id}, report);
    }
  }

  // The positions the visited and unvisited VMs will have are pairwise distinct.
  ghost predicate DistinctTargets(o: Occ, rest: set<int>, report: int -> int) {
    forall a, b | a in o.vms && b in o.vms && a != b && FinalCpu(o, rest, report, a) != -1 ::
      FinalCpu(o, rest, report, a) != FinalCpu(o, rest, report, b)
  }

  function FinalCpu(o: Occ, rest: set<int>, report: int -> int, id: int): int
    requires id in o.vms
  {
    if id in rest then NewCpu(o.vms[id], report(id)) else o.vms[id].realCpu
  }

  // Every VM that will not move any more has its mark.
  ghost predicate RestingMarked(o: Occ, rest: set<int>, report: int -> int) {
    forall id | id in o.vms && FinalCpu(o, rest, report, id) == o.vms[id].realCpu != -1 :: Indexed(o, id)
  }

  // One visit: distinct targets stay distinct, and a VM that rests is marked whatever entries the
  // visits before it overwrote.
  lemma VisitKeepsResting(o: Occ, rest: set<int>, report: int -> int, id: int)
    requires Sound(o) && id in rest && rest <= o.vms.Keys
    requires DistinctTargets(o, rest, report) && RestingMarked(o, rest, report)
    ensures var o' := RefreshOne(o, id, report(id));
      DistinctTargets(o', rest - {id}, report) && RestingMarked(o', rest - {id}, report)
  {
    var o', rest' := RefreshOne(o, id, report(id)), rest - {id};
    forall a | a in o.vms ensures FinalCpu(o', rest', report, a) == FinalCpu(o, rest, report, a) {
    }
    forall a | a in o'.vms && FinalCpu(o', rest', report, a) == o'.vms[a].realCpu != -1
      ensures Indexed(o', a)
    {
      if a != id {
        assert Indexed(o, a);
        assert FinalCpu(o, rest, report, a) != FinalCpu(o, rest, report, id);
      }
    }
  }

  lemma {:induction false} RefreshMarksAll(o: Occ, rest: set<int>, report: int -> int)
    requires Sound(o) && rest <= o.vms.Keys
    requires DistinctTargets(o, rest, report) && RestingMarked(o, rest, report)
    ensures Exact(RefreshFrom(o, rest, report))
    decreases rest
  {
    if rest != {} {
      var id := Sorting.Least(rest);
      VisitKeepsResting(o, rest, report, id);
      if report(id) != -1 {
        ChangeKeepsSound(o, id, report(id));
      }
      RefreshMarksAll(RefreshOne(o, id, report(id)), rest - {id}, report);
    }
  }

  // A resting VM without a mark does not get one.
  lemma {:induction false} UnmarkedStaysUnmarked(o: Occ, rest: set<int>, report: int -> int, id: int)
    requires Sound(o) && rest <= o.vms.Keys && id in o.vms
    requires FinalCpu(o, rest, report, id) == o.vms[id].realCpu && !Indexed(o, id)
    ensures !Indexed(RefreshFrom(o, rest, report), id)
    decreases rest
  {
    if rest != {} {
      var next := Sorting.Least(rest);
      if report(next) != -1 {
        ChangeKeepsSound(o, next, report(next));
      }
      UnmarkedStaysUnmarked(RefreshOne(o, next, report(next)), rest - {next}, report, id);
    }
  }

  // After a refresh the marks are exact if and only if the positions are now pairwise distinct and
  // every VM that did not move had its mark before.
  lemma RefreshExactIff(o: Occ, report: int -> int)
    requires Sound(o)
    ensures Exact(Refresh(o, report)) <==>
            DistinctTargets(o, o.vms.Keys, report) && RestingMarked(o, o.vms.Keys, report)
  {
    var all, r := o.vms.Keys, Refresh(o, report);
    if DistinctTargets(o, all, report) && RestingMarked(o, all, report) {
      RefreshMarksAll(o, all, report);
    }
    if Exact(r) {
      forall a, b | a in o.vms && b in o.vms && a != b && FinalCpu(o, all, report, a) != -1
        ensures FinalCpu(o, all, report, a) != FinalCpu(o, all, report, b)
      {
        RefreshPositions(o, all, report, a);
        RefreshPositions(o, all, report, b);
        assert Indexed(r, a);
        assert r.vms[b].realCpu != -1 ==> Indexed(r, b);
      }
      forall id | id in o.vms && FinalCpu(o, all, report, id) == o.vms[id].realCpu != -1
        ensures Indexed(o, id)
      {
        RefreshPositions(o, all, report, id);
        if !Indexed(o, id) {
          UnmarkedStaysUnmarked(o, all, report, id);
        }
      }
    }
  }

  // In particular an exact map stays exact exactly when the new positions are distinct, even when
  // VMs swap CPUs or rotate and overwrite each other's marks on the way.
  lemma RefreshOfExact(o: Occ, report: int -> int)
    requires Exact(o)
    ensures Exact(Refresh(o, report)) <==> DistinctTargets(o, o.vms.Keys, report)
  {
    RefreshExactIff(o, report);
  }

  // ----- what the marks are after a refresh -----

  // The VM is visited and reported on a CPU it was not on.
  ghost predicate MovesTo(o: Occ, rest: set<int>, report: int -> int, id: int, cpu: int) {
    id in rest && id in o.vms && report(id) == cpu != -1 && o.vms[id].realCpu != cpu
  }

  // The VM with the greatest id among those that move to the CPU.
  ghost predicate LastTo(o: Occ, rest: set<int>, report: int -> int, id: int, cpu: int) {
    MovesTo(o, rest, report, id, cpu) && forall other | MovesTo(o, rest, report, other, cpu) :: other <= id
  }

  // The CPU keeps its mark: nobody moves to it, and the VM marked there does not move.
  ghost predicate KeepsMark(o: Occ, rest: set<int>, report: int -> int, id: int, cpu: int) {
    && cpu in o.index && o.index[cpu] == id
    && (forall other :: !MovesTo(o, rest, report, other, cpu))
    && (id in o.vms ==> FinalCpu(o, rest, report, id) == o.vms[id].realCpu)
  }

  lemma VisitKeepsMovers(o: Occ, rest: set<int>, report: int -> int, id: int, cpu: int)
    requires id in rest && rest <= o.vms.Keys
    ensures forall other ::
              MovesTo(RefreshOne(o, id, report(id)), rest - {id}, report, other, cpu) <==>
              other != id && MovesTo(o, rest, report, other, cpu)
  {
  }

  ghost predicate MarkedLater(o: Occ, rest: set<int>, report: int -> int, id: int, cpu: int) {
    LastTo(o, rest, report, id, cpu) || KeepsMark(o, rest, report, id, cpu)
  }

  // The first VM visited moves to the CPU: its mark lasts unless another one follows.
  lemma VisitTo(o: Occ, rest: set<int>, report: int -> int, next: int, id: int, cpu: int)
    requires Sound(o) && next in rest && rest <= o.vms.Keys && forall x | x in rest :: next <= x
    requires MovesTo(o, rest, report, next, cpu)
    ensures MarkedLater(RefreshOne(o, next, report(next)), rest - {next}, report, id, cpu) <==>
            MarkedLater(o, rest, report, id, cpu)
  {
    VisitKeepsMovers(o, rest, report, next, cpu);
  }

  // It does not: the CPU loses its mark only if that VM was marked there and moves away.
  lemma VisitElsewhere(o: Occ, rest: set<int>, report: int -> int, next: int, id: int, cpu: int)
    requires Sound(o) && next in rest && rest <= o.vms.Keys
    requires !MovesTo(o, rest, report, next, cpu)
    ensures MarkedLater(RefreshOne(o, next, report(next)), rest - {next}, report, id, cpu) <==>
            MarkedLater(o, rest, report, id, cpu)
  {
    VisitKeepsMovers(o, rest, report, next, cpu);
  }

  // After the refresh each CPU is marked with the last VM that moved to it, or else keeps its mark
  // unless the VM marked there has moved away.
  lemma {:induction false} RefreshMarks(o: Occ, rest: set<int>, report: int -> int, cpu: int, id: int)
    requires Sound(o) && rest <= o.vms.Keys
    ensures var r := RefreshFrom(o, rest, report);
      cpu in r.index && r.index[cpu] == id <==> LastTo(o, rest, report, id, cpu) || KeepsMark(o, rest, report, id, cpu)
    decreases rest
  {
    if rest != {} {
      var next := Sorting.Least(rest);
      if report(next) != -1 {
        ChangeKeepsSound(o, next, report(next));
      }
      if MovesTo(o, rest, report, next, cpu) {
        VisitTo(o, rest, report, next, id, cpu);
      } else {
        VisitElsewhere(o, rest, report, next, id, cpu);
      }
      RefreshMarks(RefreshOne(o, next, report(next)), rest - {next}, report, cpu, id);
    }
  }

  // ----- lifecycle events -----

  // A started VM: the record is replaced, and its CPU is marked only if no mark is there.
  function Start(o: Occ, vm: VmInfo): Occ {
    Occ(o.vms[vm.domId := vm.(event := Started)],
        if vm.realCpu == -1 || vm.realCpu in o.index then o.index else o.index[vm.realCpu := vm.domId])
  }

  // A start records what the hypervisor reports about the VM and touches no other record and no mark
  // that is there.
  lemma StartFrame(o: Occ, vm: VmInfo)
    ensures var o' := Start(o, vm);
      && o'.vms == o.vms[vm.domId := VmInfo(vm.domId, vm.realCpu, vm.cpuUsage, vm.packetsPerSec, vm.packetsPerSecHistory,
                                            vm.homeNode, Started)]
      && (forall cpu | cpu in o.index :: cpu in o'.index && o'.index[cpu] == o.index[cpu])
      && (forall cpu | cpu in o'.index && cpu !in o.index :: cpu == vm.realCpu != -1 && o'.index[cpu] == vm.domId)
      && (vm.realCpu != -1 ==> vm.realCpu in o'.index)
  {
  }

  // Starting keeps soundness exactly when no mark of an earlier life of the id survives elsewhere.
  lemma StartSoundIff(o: Occ, vm: VmInfo)
    requires Sound(o)
    ensures Sound(Start(o, vm)) <==> forall cpu | cpu in o.index && o.index[cpu] == vm.domId :: cpu == vm.realCpu
  {
    var o' := Start(o, vm);
    if Sound(o') {
      forall cpu | cpu in o.index && o.index[cpu] == vm.domId ensures cpu == vm.realCpu {
        assert cpu in o'.index && o'.index[cpu] == vm.domId;
      }
    }
  }

  // For a fresh id exactness survives exactly when the CPU is not already marked.
  lemma StartExactIff(o: Occ, vm: VmInfo)
    requires Exact(o) && vm.domId !in o.vms
    ensures Sound(Start(o, vm))
    ensures Exact(Start(o, vm)) <==> vm.realCpu == -1 || vm.realCpu !in o.index
  {
    StartSoundIff(o, vm);
    var o' := Start(o, vm);
    if vm.realCpu == -1 || vm.realCpu !in o.index {
      forall id | id in o'.vms && o'.vms[id].realCpu != -1 ensures Indexed(o', id) {
        if id != vm.domId {
          assert Indexed(o, id);
        }
      }
    } else {
      assert !Indexed(o', vm.domId);
    }
  }

  predicate Handled(ev: Event) {
    ev == Suspended || ev == Resumed || ev == Stopped || ev == Shutdown || ev == Crashed
  }

  // A second stop in a row turns the VM off.
  predicate TurnsOff(last: Event, ev: Event) {
    (last == Shutdown || last == Stopped) && ev == Stopped
  }

  function Remove(o: Occ, id: int): Occ
    requires id in o.vms
  {
    Occ(o.vms - {id}, Unmark(o, id))
  }

  // Any event but a start.
  function Notify(o: Occ, id: int, ev: Event): Occ {
    if !Handled(ev) || id !in o.vms then o
    else if TurnsOff(o.vms[id].event, ev) then Remove(o, id)
    else o.(vms := o.vms[id := o.vms[id].(event := ev)])
  }

  // What an event may touch: the event recorded for its own VM; and when the VM is turned off, its
  // record and the mark that is its own. Everything else stays as it was.
  lemma NotifyFrame(o: Occ, id: int, ev: Event)
    ensures var o' := Notify(o, id, ev);
      var off := id in o.vms && o.vms[id].event in {Shutdown, Stopped} && ev == Stopped;
      && o'.vms.Keys == (if off then o.vms.Keys - {id} else o.vms.Keys)
      && (forall x | x in o'.vms && x != id :: o'.vms[x] == o.vms[x])
      && (id in o'.vms ==>
            o'.vms[id] == if ev in {Suspended, Resumed, Stopped, Shutdown, Crashed} then o.vms[id].(event := ev) else o.vms[id])
      && (!off ==> o'.index == o.index)
      && (off ==> forall cpu ::
            cpu in o'.index <==> cpu in o.index && !(cpu == o.vms[id].realCpu && o.index[cpu] == o.vms[id].domId))
      && (forall cpu | cpu in o'.index :: o'.index[cpu] == o.index[cpu])
  {
  }

  lemma NotifyKeepsSound(o: Occ, id: int, ev: Event)
    requires Sound(o)
    ensures Sound(Notify(o, id, ev))
  {
  }

  lemma NotifyKeepsExact(o: Occ, id: int, ev: Event)
    requires Exact(o)
    ensures Exact(Notify(o, id, ev))
  {
    NotifyKeepsSound(o, id, ev);
    var o' := Notify(o, id, ev);
    forall other | other in o'.vms && o'.vms[other].realCpu != -1 ensures Indexed(o', other) {
      assert Indexed(o, other);
    }
  }
}
