// One iteration of the load-balancing loop as a relation between loop states.
// The loop keeps a ranking of the nodes by size and, after moving a VM off the
// NIC node, goes round again without refreshing it; the state therefore holds
// the lists and the ranking separately.
module Balancer {
  import opened VmTypes

  // vm_on_node: for each node the VMs placed there, in list order.
  type Placement = seq<seq<int>>

  // An entry of node_vm_vec.
  datatype Load = Load(node: int, count: nat)

  // What the loop reads and never writes. near[k] is the latency list of node k.
  datatype Env = Env(nodes: nat, nic: int, near: seq<seq<int>>, states: map<int, VmState>) {

    // Lookup through operator[]: a missing key reads as the zero enumerator.
    function StateOf(vm: int): VmState {
      if vm in states then states[vm] else IoState
    }

    ghost predicate Valid() {
      && 0 <= nic < nodes
      && |near| == nodes
      && forall k | 0 <= k < nodes :: CoversNodes(near[k], nodes)
    }
  }

  ghost predicate CoversNodes(list: seq<int>, nodes: nat) {
    && (forall i | 0 <= i < |list| :: 0 <= list[i] < nodes)
    && (forall k | 0 <= k < nodes :: k in list)
  }

  // The loop's local variables.
  datatype State = State(
    on: Placement,
    vec: seq<Load>,
    maxIdx: int,
    high: int,
    maxCnt: nat,
    minCnt: nat,
    minNode: int)

  ghost predicate HasNode(vec: seq<Load>, k: int) {
    exists i :: 0 <= i < |vec| && vec[i].node == k
  }

  // Every node once, in ascending order of the recorded size.
  ghost predicate OrderedNodes(vec: seq<Load>, nodes: nat) {
    && |vec| == nodes
    && (forall i | 0 <= i < nodes :: 0 <= vec[i].node < nodes)
    && (forall i, j | 0 <= i < j < nodes :: vec[i].count <= vec[j].count)
    && (forall i, j | 0 <= i < j < nodes :: vec[i].node != vec[j].node)
    && (forall k | 0 <= k < nodes :: HasNode(vec, k))
  }

  // vec is a possible outcome of collecting (node, size) pairs and sorting them by size.
  ghost predicate IsRanking(vec: seq<Load>, on: Placement) {
    && OrderedNodes(vec, |on|)
    && forall i | 0 <= i < |vec| :: vec[i].count == |on[vec[i].node]|
  }

  // The variables right after a rebuild.
  function Ranked(on: Placement, vec: seq<Load>): State
    requires |vec| > 0
  {
    var last := |vec| - 1;
    State(on, vec, last, vec[last].node, vec[last].count, vec[0].count, vec[0].node)
  }

  ghost predicate Initial(env: Env, s: State) {
    && env.Valid()
    && |s.on| == env.nodes
    && IsRanking(s.vec, s.on)
    && s == Ranked(s.on, s.vec)
  }

  ghost predicate Guard(s: State) {
    s.maxCnt > 1 && s.maxCnt - s.minCnt > 1
  }

  // The iteration looks at the NIC node and finds it holding at most two VMs.
  predicate NicTurn(env: Env, s: State) {
    s.high == env.nic && s.maxCnt <= 2
  }

  // Every index the iteration uses is in bounds.
  ghost predicate InBounds(env: Env, s: State) {
    && env.Valid()
    && |s.on| == env.nodes
    && |s.vec| == env.nodes
    && 0 <= s.maxIdx < env.nodes
    && 0 <= s.high < env.nodes
    && 0 <= s.minNode < env.nodes
  }

  // Position of the first VM in the given state, or the length when there is none.
  function FirstIn(env: Env, list: seq<int>, w: VmState): (k: nat)
    ensures k <= |list|
    ensures k < |list| ==> env.StateOf(list[k]) == w
    ensures forall j | 0 <= j < k :: env.StateOf(list[j]) != w
  {
    if list == [] then 0
    else if env.StateOf(list[0]) == w then 0
    else 1 + FirstIn(env, list[1..], w)
  }

  // First node of a latency list holding exactly count VMs, or the fallback.
  function Nearest(list: seq<int>, on: Placement, count: nat, fallback: int): (r: int)
    requires forall i | 0 <= i < |list| :: 0 <= list[i] < |on|
    ensures r == fallback || r in list
    ensures (exists i :: 0 <= i < |list| && |on[list[i]]| == count) ==> 0 <= r < |on| && |on[r]| == count
    ensures (forall i | 0 <= i < |list| :: |on[list[i]]| != count) ==> r == fallback
  {
    if list == [] then fallback
    else if |on[list[0]]| == count then list[0]
    else Nearest(list[1..], on, count, fallback)
  }

  function Erase(list: seq<int>, k: nat): seq<int>
    requires k < |list|
  {
    list[..k] + list[k + 1..]
  }

  // Erase the k-th VM of src and push it at the back of dst.
  function MoveVm(on: Placement, src: int, k: nat, dst: int): Placement
    requires 0 <= src < |on| && 0 <= dst < |on| && k < |on[src]|
  {
    var erased := on[src := Erase(on[src], k)];
    erased[dst := erased[dst] + [on[src][k]]]
  }

  // The NIC node sends its first VM that is not IO-intensive, if it has one ...
  ghost predicate IsNicMove(env: Env, s: State) {
    InBounds(env, s) && NicTurn(env, s) && FirstIn(env, s.on[s.high], OtherState) < |s.on[s.high]|
  }

  // ... and otherwise the iteration steps down to the next node of the ranking.
  ghost predicate IsSkip(env: Env, s: State) {
    InBounds(env, s) && NicTurn(env, s) && FirstIn(env, s.on[s.high], OtherState) == |s.on[s.high]|
  }

  ghost predicate IsLoadMove(env: Env, s: State) {
    InBounds(env, s) && !NicTurn(env, s) && |s.on[s.high]| > 0
  }

  ghost predicate IsMove(env: Env, s: State) {
    IsNicMove(env, s) || IsLoadMove(env, s)
  }

  // Which VM of the high node is moved.
  function Pick(env: Env, s: State): (k: nat)
    requires InBounds(env, s) && IsMove(env, s)
    ensures k < |s.on[s.high]|
  {
    if NicTurn(env, s) then FirstIn(env, s.on[s.high], OtherState)
    else
      var io := FirstIn(env, s.on[s.high], IoState);
      if io < |s.on[s.high]| then io else 0
  }

  // Where it goes. An IO-intensive VM prefers the NIC node when that is least loaded.
  function Target(env: Env, s: State): int
    requires InBounds(env, s)
  {
    var io := FirstIn(env, s.on[s.high], IoState);
    if !NicTurn(env, s) && io < |s.on[s.high]| && env.nic != s.high && |s.on[env.nic]| == s.minCnt
    then env.nic
    else
      assert CoversNodes(env.near[s.high], env.nodes);
      Nearest(env.near[s.high], s.on, s.minCnt, s.minNode)
  }

  function Moved(env: Env, s: State): Placement
    requires InBounds(env, s) && IsMove(env, s)
  {
    TargetInRange(env, s);
    MoveVm(s.on, s.high, Pick(env, s), Target(env, s))
  }

  lemma TargetInRange(env: Env, s: State)
    requires InBounds(env, s)
    ensures 0 <= Target(env, s) < env.nodes
  {
    assert CoversNodes(env.near[s.high], env.nodes);
    var list := env.near[s.high];
    var r := Nearest(list, s.on, s.minCnt, s.minNode);
    if r in list {
      var i :| 0 <= i < |list| && list[i] == r;
    }
  }

  // Stepping down. The index is clamped at zero in the program.
  function Skipped(s: State): State
    requires 0 < |s.vec| && 0 <= s.maxIdx < |s.vec|
  {
    var idx := if s.maxIdx - 1 < 0 then 0 else s.maxIdx - 1;
    s.(maxIdx := idx, high := s.vec[idx].node, maxCnt := s.vec[idx].count, minCnt := s.vec[0].count)
  }

  // One iteration. Only the last branch rebuilds the ranking.
  ghost predicate Next(env: Env, s: State, s': State) {
    && InBounds(env, s)
    && Guard(s)
    && (IsSkip(env, s) ==> s' == Skipped(s))
    && (IsNicMove(env, s) ==> s' == s.(on := Moved(env, s), minNode := Target(env, s)))
    && (!NicTurn(env, s) ==>
          && IsLoadMove(env, s)
          && s'.on == Moved(env, s)
          && IsRanking(s'.vec, s'.on)
          && s' == Ranked(s'.on, s'.vec))
  }

  ghost predicate StepAt(env: Env, run: seq<State>, i: nat)
    requires i < |run| - 1
  {
    Next(env, run[i], run[i + 1])
  }

  // A run of the loop, and a run that has left it.
  ghost predicate Run(env: Env, run: seq<State>) {
    && |run| > 0
    && Initial(env, run[0])
    && forall i | 0 <= i < |run| - 1 :: StepAt(env, run, i)
  }

  function Last(run: seq<State>): State
    requires |run| > 0
  {
    run[|run| - 1]
  }

  ghost predicate Complete(env: Env, run: seq<State>) {
    Run(env, run) && !Guard(Last(run))
  }
}
