// Whole runs of the migration engine: VMs starting, lifecycle notifications,
// refreshes from the OS scheduler and rounds of decisions, in any order.
module Protocol {
  import opened VmTypes
  import opened Occupancy
  import opened Migration
  import Sorting

  datatype Step =
    | Boot(vm: VmInfo)
    | Notice(id: int, ev: Event)
    | Rescan(report: int -> int)
    | Migrate(nodeMap: map<int, int>, lists: seq<seq<CpuLoad>>, acts: seq<Decision>, pins: nat -> bool)

  // Decisions name known VMs and existing nodes.
  ghost predicate StepOk(o: Occ, s: Step) {
    s.Migrate? ==> ListsOk(s.lists) && ActsOk(o, s.lists, s.acts)
  }

  ghost function Apply(o: Occ, s: Step): Occ
    requires StepOk(o, s)
  {
    match s
    case Boot(vm) => Start(o, vm)
    case Notice(id, ev) => Notify(o, id, ev)
    case Rescan(report) => Refresh(o, report)
    case Migrate(nodeMap, lists, acts, pins) => Perform(o, nodeMap, lists, acts, pins)
  }

  function Front(steps: seq<Step>): seq<Step>
    requires steps != []
  {
    steps[..|steps| - 1]
  }

  function Final(steps: seq<Step>): Step
    requires steps != []
  {
    steps[|steps| - 1]
  }

  ghost predicate Legal(o: Occ, steps: seq<Step>)
    decreases |steps|, 0
  {
    steps == [] || (Legal(o, Front(steps)) && StepOk(Exec(o, Front(steps)), Final(steps)))
  }

  ghost function Exec(o: Occ, steps: seq<Step>): Occ
    requires Legal(o, steps)
    decreases |steps|, 1
  {
    if steps == [] then o else Apply(Exec(o, Front(steps)), Final(steps))
  }

  // A started VM has an id no live VM has.
  ghost predicate FreshBoots(o: Occ, steps: seq<Step>)
    requires Legal(o, steps)
    decreases |steps|
  {
    steps != [] ==>
      && FreshBoots(o, Front(steps))
      && (Final(steps).Boot? ==> Final(steps).vm.domId !in Exec(o, Front(steps)).vms)
  }

  // No two VMs are ever reported on one CPU: not at a start, not in a refresh.
  ghost predicate StepShares(o: Occ, s: Step) {
    match s
    case Boot(vm) => vm.realCpu != -1 && exists id :: id in o.vms && o.vms[id].realCpu == vm.realCpu
    case Rescan(report) => !DistinctTargets(o, o.vms.Keys, report)
    case _ => false
  }

  ghost predicate NoSharing(o: Occ, steps: seq<Step>)
    requires Legal(o, steps)
    decreases |steps|
  {
    steps != [] ==> NoSharing(o, Front(steps)) && !StepShares(Exec(o, Front(steps)), Final(steps))
  }

  lemma StepKeepsSound(o: Occ, s: Step)
    requires Sound(o) && StepOk(o, s) && (s.Boot? ==> s.vm.domId !in o.vms)
    ensures Sound(Apply(o, s))
  {
    match s
    case Boot(vm) => StartSoundIff(o, vm);
    case Notice(id, ev) => NotifyKeepsSound(o, id, ev);
    case Rescan(report) => RefreshKeepsSound(o, o.vms.Keys, report);
    case Migrate(nodeMap, lists, acts, pins) => PerformKeeps(o, nodeMap, lists, acts, pins);
  }

  // Over every run each mark names a live VM that is on the marked CPU.
  lemma {:induction false} RunsStaySound(o: Occ, steps: seq<Step>)
    requires Sound(o) && Legal(o, steps) && FreshBoots(o, steps)
    ensures Sound(Exec(o, steps))
  {
    if steps != [] {
      RunsStaySound(o, Front(steps));
      StepKeepsSound(Exec(o, Front(steps)), Final(steps));
    }
  }

  lemma StepExactIff(o: Occ, s: Step)
    requires Exact(o) && StepOk(o, s) && (s.Boot? ==> s.vm.domId !in o.vms)
    ensures Exact(Apply(o, s)) <==> !StepShares(o, s)
  {
    match s
    case Boot(vm) =>
      StartExactIff(o, vm);
      if vm.realCpu in o.index {
        assert o.vms[o.index[vm.realCpu]].realCpu == vm.realCpu;
      }
      if id :| id in o.vms && o.vms[id].realCpu == vm.realCpu && vm.realCpu != -1 {
        assert Indexed(o, id);
      }
    case Notice(id, ev) => NotifyKeepsExact(o, id, ev);
    case Rescan(report) => RefreshOfExact(o, report);
    case Migrate(nodeMap, lists, acts, pins) => PerformKeeps(o, nodeMap, lists, acts, pins);
  }

  ghost predicate AlwaysExact(o: Occ, steps: seq<Step>)
    requires Legal(o, steps)
    decreases |steps|
  {
    Exact(Exec(o, steps)) && (steps != [] ==> AlwaysExact(o, Front(steps)))
  }

  // The marks are the exact inverse of the positions throughout a run if and only if no two VMs are
  // ever reported on one CPU.
  lemma {:induction false} AlwaysExactIff(o: Occ, steps: seq<Step>)
    requires Exact(o) && Legal(o, steps) && FreshBoots(o, steps)
    ensures AlwaysExact(o, steps) <==> NoSharing(o, steps)
  {
    if steps != [] {
      AlwaysExactIff(o, Front(steps));
      if AlwaysExact(o, Front(steps)) {
        AlwaysExactNow(o, Front(steps));
        StepExactIff(Exec(o, Front(steps)), Final(steps));
      }
    }
  }

  lemma AlwaysExactNow(o: Occ, steps: seq<Step>)
    requires Legal(o, steps) && AlwaysExact(o, steps)
    ensures Exact(Exec(o, steps))
  {
  }

  // ----- lifecycle -----

  // The events the engine acts on for one VM, in order.
  function History(steps: seq<Step>, id: int): seq<Event> {
    if steps == [] then []
    else
      History(Front(steps), id) +
      match Final(steps) {
        case Boot(vm) => if vm.domId == id then [Started] else []
        case Notice(who, ev) => if who == id && ev !in {Started, Defined, Undefined, PmSuspended} then [ev] else []
        case _ => []
      }
  }

  // From position i on, where the VM starts, no stop comes directly after a shutdown or another stop.
  ghost predicate AliveSince(h: seq<Event>, i: int) {
    && 0 <= i < |h|
    && forall j | i < j < |h| ::
         h[j] != Started && (h[j] == Stopped ==> h[j - 1] != Shutdown && h[j - 1] != Stopped)
  }

  // The event recorded for a VM known from the beginning comes before its history; otherwise it
  // takes a start.
  ghost predicate Alive(known: bool, h: seq<Event>) {
    exists i :: AliveSince(h, i) && (h[i] == Started || (known && i == 0))
  }

  function WholeHistory(o: Occ, steps: seq<Step>, id: int): seq<Event> {
    (if id in o.vms then [o.vms[id].event] else []) + History(steps, id)
  }

  // One more event keeps the VM alive since i unless it is a start or ends its life.
  lemma SinceAppend(h: seq<Event>, ev: Event, i: int)
    requires 0 <= i < |h|
    ensures AliveSince(h + [ev], i) <==> AliveSince(h, i) && ev != Started && !TurnsOff(h[|h| - 1], ev)
  {
    var h' := h + [ev];
    assert forall j | 0 <= j < |h| :: h'[j] == h[j];
    if AliveSince(h', i) {
      assert h'[|h|] == ev && h'[|h| - 1] == h[|h| - 1];
    }
  }

  lemma AliveAppend(known: bool, h: seq<Event>, ev: Event)
    requires known ==> h != []
    ensures Alive(known, h + [ev]) <==> ev == Started || (Alive(known, h) && !TurnsOff(h[|h| - 1], ev))
  {
    var h' := h + [ev];
    if i :| AliveSince(h', i) && (h'[i] == Started || (known && i == 0)) {
      if i < |h| {
        SinceAppend(h, ev, i);
      }
    }
    if ev == Started {
      assert AliveSince(h', |h|);
    } else if i :| AliveSince(h, i) && (h[i] == Started || (known && i == 0)) {
      SinceAppend(h, ev, i);
    }
  }

  lemma StepEvents(o: Occ, s: Step, id: int)
    requires StepOk(o, s)
    ensures s.Rescan? || s.Migrate? ==>
              (id in Apply(o, s).vms <==> id in o.vms)
              && (id in o.vms ==> Apply(o, s).vms[id].event == o.vms[id].event)
  {
    match s
    case Rescan(report) =>
      if id in o.vms {
        RefreshPositions(o, o.vms.Keys, report, id);
      }
    case Migrate(nodeMap, lists, acts, pins) =>
      if id in o.vms {
        PerformKeepsRecord(o, nodeMap, lists, acts, pins, id);
      }
    case _ =>
  }

  lemma {:induction false} PerformKeepsRecord(o: Occ, nodeMap: map<int, int>, lists: seq<seq<CpuLoad>>, acts: seq<Decision>,
      pins: nat -> bool, id: int)
    requires ListsOk(lists) && ActsOk(o, lists, acts) && id in o.vms
    ensures var r := Perform(o, nodeMap, lists, acts, pins).vms[id]; r == o.vms[id].(realCpu := r.realCpu)
  {
    if acts != [] {
      PerformKeepsRecord(o, nodeMap, lists, acts[..|acts| - 1], pins, id);
    }
  }

  // From any initial state: a VM is known exactly while it is alive by its own history, and the
  // engine has recorded its last event.
  lemma {:induction false} KnownWhileAlive(o: Occ, steps: seq<Step>, id: int)
    requires Legal(o, steps)
    ensures id in Exec(o, steps).vms <==> Alive(id in o.vms, WholeHistory(o, steps, id))
    ensures id in Exec(o, steps).vms ==>
              var h := WholeHistory(o, steps, id);
              h != [] && Exec(o, steps).vms[id].event == h[|h| - 1]
  {
    if steps == [] {
      assert id in o.vms ==> AliveSince(WholeHistory(o, steps, id), 0);
    } else {
      KnownWhileAlive(o, Front(steps), id);
      var s, h, now := Final(steps), WholeHistory(o, Front(steps), id), Exec(o, Front(steps));
      StepEvents(now, s, id);
      match s {
        case Boot(vm) =>
          if vm.domId == id {
            AliveAppend(id in o.vms, h, Started);
            assert WholeHistory(o, steps, id) == h + [Started];
          } else {
            assert WholeHistory(o, steps, id) == h;
          }
        case Notice(who, ev) =>
          if who == id && ev !in {Started, Defined, Undefined, PmSuspended} {
            AliveAppend(id in o.vms, h, ev);
            assert WholeHistory(o, steps, id) == h + [ev];
          } else {
            assert WholeHistory(o, steps, id) == h;
          }
        case _ =>
          assert WholeHistory(o, steps, id) == h;
      }
    }
  }

  // A VM that is gone has no mark left: removal and clean-up of the index go together.
  lemma GoneMeansUnmarked(o: Occ, steps: seq<Step>, id: int, cpu: int)
    requires Sound(o) && Legal(o, steps) && FreshBoots(o, steps)
    requires !Alive(id in o.vms, WholeHistory(o, steps, id))
    ensures cpu in Exec(o, steps).index ==> Exec(o, steps).index[cpu] != id
  {
    KnownWhileAlive(o, steps, id);
    RunsStaySound(o, steps);
  }

  ghost predicate NeverBoots(steps: seq<Step>, id: int) {
    forall i | 0 <= i < |steps| :: steps[i].Boot? ==> steps[i].vm.domId != id
  }

  lemma StepKeepsRecord(o: Occ, s: Step, id: int)
    requires StepOk(o, s) && (s.Boot? ==> s.vm.domId != id) && id in Apply(o, s).vms
    ensures id in o.vms
    ensures var r := Apply(o, s).vms[id]; r == o.vms[id].(realCpu := r.realCpu, event := r.event)
  {
    match s
    case Boot(vm) => StartFrame(o, vm);
    case Notice(who, ev) => NotifyFrame(o, who, ev);
    case Rescan(report) => RefreshPositions(o, o.vms.Keys, report, id);
    case Migrate(nodeMap, lists, acts, pins) => PerformKeepsRecord(o, nodeMap, lists, acts, pins, id);
  }

  // What was recorded about a VM's home node, usage and packet rates when it started stays on record
  // as long as it is known: only its CPU and its last event change.
  lemma {:induction false} RecordPersists(o: Occ, steps: seq<Step>, id: int)
    requires Legal(o, steps) && NeverBoots(steps, id) && id in Exec(o, steps).vms
    ensures id in o.vms
    ensures var r := Exec(o, steps).vms[id]; r == o.vms[id].(realCpu := r.realCpu, event := r.event)
  {
    if steps != [] {
      StepKeepsRecord(Exec(o, Front(steps)), Final(steps), id);
      RecordPersists(o, Front(steps), id);
    }
  }

  // ----- what sharing a CPU costs -----

  const Nothing := Occ(map[], map[])

  function Vm(id: int, cpu: int): VmInfo {
    VmInfo(id, cpu, 0.0, 0.0, 0.0, 0, Started)
  }

  const BothOnZero: int -> int := id => 0
  const ApartAgain: int -> int := id => if id == 1 then 0 else 1

  // VM 2 visits VM 1's CPU and leaves it again.
  const Visit := [Boot(Vm(1, 0)), Boot(Vm(2, 1)), Rescan(BothOnZero), Rescan(ApartAgain)]

  lemma OneMore(o: Occ, steps: seq<Step>, s: Step)
    requires Legal(o, steps) && FreshBoots(o, steps) && StepOk(Exec(o, steps), s)
    requires s.Boot? ==> s.vm.domId !in Exec(o, steps).vms
    ensures Legal(o, steps + [s]) && FreshBoots(o, steps + [s])
    ensures Exec(o, steps + [s]) == Apply(Exec(o, steps), s)
  {
    assert Front(steps + [s]) == steps && Final(steps + [s]) == s;
  }

  lemma RefreshOfTwo(o: Occ, report: int -> int)
    requires o.vms.Keys == {1, 2}
    ensures Refresh(o, report) == RefreshOne(RefreshOne(o, 1, report(1)), 2, report(2))
  {
    assert Sorting.Least({1, 2}) == 1 && Sorting.Least({2}) == 2;
    assert {1, 2} - {1} == {2} && {2} - {2} == {};
  }

  const Apart := Occ(map[1 := Vm(1, 0), 2 := Vm(2, 1)], map[0 := 1, 1 := 2])
  const Together := Occ(map[1 := Vm(1, 0), 2 := Vm(2, 0)], map[0 := 2])
  const Unmarked := Occ(map[1 := Vm(1, 0), 2 := Vm(2, 1)], map[1 := 2])

  lemma RefreshTogether()
    ensures Refresh(Apart, BothOnZero) == Together
  {
    RefreshOfTwo(Apart, BothOnZero);
    assert RefreshOne(Apart, 1, 0) == Apart;
  }

  lemma RefreshApart()
    ensures Refresh(Together, ApartAgain) == Unmarked
  {
    RefreshOfTwo(Together, ApartAgain);
    assert RefreshOne(Together, 1, 0) == Together;
  }

  // All VMs are on CPUs of their own, and yet VM 1's CPU carries no mark: exactness is lost by one
  // moment of sharing, although soundness holds throughout.
  lemma SharingLosesAMark()
    ensures Legal(Nothing, Visit) && FreshBoots(Nothing, Visit)
    ensures Exec(Nothing, Visit) == Unmarked && Sound(Unmarked) && !Exact(Unmarked)
  {
    OneMore(Nothing, [], Boot(Vm(1, 0)));
    OneMore(Nothing, [] + [Boot(Vm(1, 0))], Boot(Vm(2, 1)));
    var two := [] + [Boot(Vm(1, 0))] + [Boot(Vm(2, 1))];
    assert Exec(Nothing, two) == Apart;
    OneMore(Nothing, two, Rescan(BothOnZero));
    RefreshTogether();
    OneMore(Nothing, two + [Rescan(BothOnZero)], Rescan(ApartAgain));
    RefreshApart();
    assert two + [Rescan(BothOnZero)] + [Rescan(ApartAgain)] == Visit;
    assert !Indexed(Unmarked, 1);
  }

  // The lost mark does not come back while the VM stays where it is: no refresh re-marks it.
  lemma LostMarkStaysLost(o: Occ, report: int -> int, id: int)
    requires Sound(o) && id in o.vms && !Indexed(o, id)
    requires NewCpu(o.vms[id], report(id)) == o.vms[id].realCpu
    ensures id in Refresh(o, report).vms && Refresh(o, report).vms[id] == o.vms[id]
    ensures !Indexed(Refresh(o, report), id)
  {
    UnmarkedStaysUnmarked(o, o.vms.Keys, report, id);
    RefreshPositions(o, o.vms.Keys, report, id);
  }

  // And the lost mark misleads: VM 3 starts on CPU 2 of node 1, so that all VMs are on CPUs of their
  // own, and the decision to move it to node 0 puts it on VM 1's CPU.
  lemma LostMarkMisleads()
    ensures var o := Start(Unmarked, Vm(3, 2));
      var lists := [[CpuLoad(0, 0.0)], [CpuLoad(1, 0.0), CpuLoad(2, 0.0)]];
      var after := PerformOne(o, map[0 := 0, 1 := 1, 2 := 1], lists, Decision(3, 0, 0), true);
      && Sound(o) && NoSharedCpus(o) && Sound(after)
      && after.vms[3].realCpu == after.vms[1].realCpu == 0
  {
    var o := Start(Unmarked, Vm(3, 2));
    var lists := [[CpuLoad(0, 0.0)], [CpuLoad(1, 0.0), CpuLoad(2, 0.0)]];
    assert FirstFree(lists[0], o.index) == 0;
    PerformOneSoundIff(o, map[0 := 0, 1 := 1, 2 := 1], lists, Decision(3, 0, 0), true);
  }
}
