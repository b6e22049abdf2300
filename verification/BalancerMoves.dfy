// Who gives and who receives over a whole run.
module BalancerMoves {
  import opened VmTypes
  import opened Balancer
  import opened Placements
  import opened BalancerInvariant
  import opened BalancerRuns

  // ----- which VM moves, and where -----

  // The VM moved.
  function MovedFrom(env: Env, s: State): int
    requires InBounds(env, s) && IsMove(env, s)
  {
    s.on[s.high][Pick(env, s)]
  }

  // No node of the latency list before the one found holds that many VMs.
  lemma {:induction false} NearestIsFirst(list: seq<int>, on: Placement, count: nat, fallback: int, i: nat)
    requires forall k | 0 <= k < |list| :: 0 <= list[k] < |on|
    requires i < |list| && |on[list[i]]| == count
    ensures exists j :: 0 <= j <= i && list[j] == Nearest(list, on, count, fallback)
  {
    if |on[list[0]]| != count {
      NearestIsFirst(list[1..], on, count, fallback, i - 1);
      var j :| 0 <= j <= i - 1 && list[1..][j] == Nearest(list[1..], on, count, fallback);
      assert list[j + 1] == list[1..][j];
    } else {
      assert list[0] == Nearest(list, on, count, fallback);
    }
  }

  ghost predicate ByLatency(list: seq<int>, latency: seq<real>) {
    && (forall i | 0 <= i < |list| :: 0 <= list[i] < |latency|)
    && forall i, j | 0 <= i < j < |list| :: latency[list[i]] <= latency[list[j]]
  }

  // An IO-intensive VM is moved off another node while the NIC node is least loaded.
  ghost predicate PrefersNic(env: Env, s: State) {
    && IsLoadMove(env, s)
    && env.StateOf(MovedFrom(env, s)) == IoState
    && s.high != env.nic
    && |s.on[env.nic]| == s.minCnt
  }

  // If any node holds as many VMs as the least count the loop goes by, up to date or not, the move goes
  // to such a node: an IO-intensive VM to the NIC node if that is one, and otherwise none of them is
  // closer than the node chosen. StaleTarget covers the remaining case.
  lemma TargetIsClosest(env: Env, s: State, latency: seq<real>, other: int)
    requires IsMove(env, s)
    requires |latency| == env.nodes && ByLatency(env.near[s.high], latency)
    requires 0 <= other < env.nodes && |s.on[other]| == s.minCnt
    ensures var t := Target(env, s);
      && 0 <= t < env.nodes
      && |s.on[t]| == s.minCnt
      && (latency[t] <= latency[other]
          || (t == env.nic && IsLoadMove(env, s) && env.StateOf(MovedFrom(env, s)) == IoState))
    ensures PrefersNic(env, s) ==> Target(env, s) == env.nic
  {
    NearestHasCount(env, s, other);
    var list := env.near[s.high];
    assert CoversNodes(list, env.nodes) && other in list;
    var i :| 0 <= i < |list| && list[i] == other;
    NearestIsFirst(list, s.on, s.minCnt, s.minNode, i);
  }

  // A load move takes the first IO-intensive VM of its node, and the first VM if there is none; a
  // NIC turn takes the first VM that is neither IO-intensive nor idle.
  lemma MovesFirstOfKind(env: Env, s: State, i: nat)
    requires IsMove(env, s) && i < Pick(env, s)
    ensures IsLoadMove(env, s) ==>
              env.StateOf(MovedFrom(env, s)) == IoState && env.StateOf(s.on[s.high][i]) != IoState
    ensures IsNicMove(env, s) ==>
              env.StateOf(MovedFrom(env, s)) == OtherState && env.StateOf(s.on[s.high][i]) != OtherState
  {
  }

  lemma NoIoMeansFirst(env: Env, s: State)
    requires IsLoadMove(env, s) && env.StateOf(MovedFrom(env, s)) != IoState
    ensures Pick(env, s) == 0 && forall i | 0 <= i < |s.on[s.high]| :: env.StateOf(s.on[s.high][i]) != IoState
  {
  }

  // ----- givers and receivers -----

  ghost predicate NearLeast(s: State, k: int)
    requires 0 < |s.vec|
  {
    0 <= k < |s.on| && |s.on[k]| <= s.vec[0].count + 1
  }

  ghost predicate NearMost(s: State, k: int)
    requires 0 < |s.vec|
  {
    0 <= k < |s.on| && |s.on[k]| >= s.vec[|s.vec| - 1].count - 1
  }

  // Moving a VM from a node two or more above the least to a least-loaded one raises no maximum
  // and lowers no minimum.
  lemma RangeShrinks(on: Placement, vec: seq<Load>, src: int, k: nat, dst: int, vec': seq<Load>)
    requires IsRanking(vec, on) && 0 <= src < |on| && 0 <= dst < |on| && k < |on[src]|
    requires |on[dst]| == vec[0].count && |on[src]| >= vec[0].count + 2
    requires IsRanking(vec', MoveVm(on, src, k, dst))
    ensures vec'[0].count >= vec[0].count
    ensures vec'[|on| - 1].count <= vec[|on| - 1].count
  {
    MoveShape(on, src, k, dst);
    RankingBounds(vec, on);
    var lo, hi := vec'[0].node, vec'[|on| - 1].node;
    assert |on[lo]| >= vec[0].count && |on[hi]| <= vec[|on| - 1].count;
  }

  // Such a move, seen from node x: one near the least does not give and stays near the least; one
  // near the most does not receive and stays near the most, if the giver is the largest.
  lemma RangeAt(on: Placement, vec: seq<Load>, src: int, k: nat, dst: int, vec': seq<Load>, x: int)
    requires IsRanking(vec, on) && 0 <= src < |on| && 0 <= dst < |on| && k < |on[src]|
    requires |on[dst]| == vec[0].count && |on[src]| >= vec[0].count + 2 && |on[src]| == vec[|on| - 1].count
    requires IsRanking(vec', MoveVm(on, src, k, dst)) && 0 <= x < |on|
    ensures var on' := MoveVm(on, src, k, dst);
      && (|on[x]| <= vec[0].count + 1 ==> x != src && |on'[x]| <= vec'[0].count + 1)
      && (|on[x]| >= vec[|on| - 1].count - 1 ==> x != dst && |on'[x]| >= vec'[|on| - 1].count - 1)
      && |on'[dst]| <= vec'[0].count + 1
      && |on'[src]| >= vec'[|on| - 1].count - 1
  {
    MoveShape(on, src, k, dst);
    RangeShrinks(on, vec, src, k, dst, vec');
  }

  lemma LoadMoveShape(env: Env, s: State, s': State)
    requires Accurate(env, s) && Next(env, s, s') && IsLoadMove(env, s)
    ensures var t := Target(env, s);
      && 0 <= t < |s.on| == |s'.on| == |s.vec| == |s'.vec| && 0 <= s.high < |s.on|
      && IsRanking(s.vec, s.on) && IsRanking(s'.vec, s'.on)
      && s'.on == MoveVm(s.on, s.high, Pick(env, s), t)
      && |s.on[t]| == s.vec[0].count
      && |s.on[s.high]| == s.vec[|s.vec| - 1].count >= s.vec[0].count + 2
  {
    FreshTarget(env, s);
    RankingBounds(s.vec, s.on);
  }

  // The node moved onto is within one of the smallest, the node moved off within one of the
  // largest, and both stay so while counts are accurate.
  lemma LoadMoveBounds(env: Env, s: State, s': State, k: int)
    requires Accurate(env, s) && Next(env, s, s') && IsLoadMove(env, s)
    ensures |s'.vec| > 0
    ensures NearLeast(s, k) ==> k != s.high && NearLeast(s', k)
    ensures NearMost(s, k) ==> k != Target(env, s) && NearMost(s', k)
    ensures NearLeast(s', Target(env, s)) && NearMost(s', s.high)
  {
    LoadMoveShape(env, s, s');
    var t := Target(env, s);
    RangeAt(s.on, s.vec, s.high, Pick(env, s), t, s'.vec, t);
    if 0 <= k < |s.on| {
      RangeAt(s.on, s.vec, s.high, Pick(env, s), t, s'.vec, k);
    }
  }

  // After the load move at i and before any move of a NIC turn.
  lemma {:induction false} BoundsPersist(env: Env, run: seq<State>, i: nat, j: nat)
    requires Run(env, run) && i < j < |run| && IsLoadMove(env, run[i])
    requires PhaseAt(env, run, j) == Untouched
    ensures |run[j].vec| > 0
    ensures NearLeast(run[j], Target(env, run[i])) && NearMost(run[j], run[i].high)
    decreases j
  {
    var t, h := Target(env, run[i]), run[i].high;
    StillUntouched(env, run, j - 1);
    BoundsAt(env, run, j - 1, t);
    BoundsAt(env, run, j - 1, h);
    if j > i + 1 {
      BoundsPersist(env, run, i, j - 1);
    }
  }

  // One iteration before any move of a NIC turn, seen from node k.
  lemma BoundsAt(env: Env, run: seq<State>, i: nat, k: int)
    requires Run(env, run) && i < |run| - 1
    requires PhaseAt(env, run, i) == Untouched && !IsNicMove(env, run[i])
    ensures var s, s' := run[i], run[i + 1];
      && |s.vec| > 0 && |s'.vec| > 0
      && (NearLeast(s, k) ==> NearLeast(s', k))
      && (NearMost(s, k) ==> NearMost(s', k))
      && (IsLoadMove(env, s) ==>
            && NearLeast(s', Target(env, s))
            && NearMost(s', s.high)
            && (NearLeast(s, k) ==> k != s.high)
            && (NearMost(s, k) ==> k != Target(env, s)))
  {
    assert StepAt(env, run, i);
    RunKeepsInvariant(env, run, i);
    if IsLoadMove(env, run[i]) {
      LoadMoveBounds(env, run[i], run[i + 1], k);
    }
  }

  lemma StillUntouched(env: Env, run: seq<State>, j: nat)
    requires j + 1 < |run| && PhaseAt(env, run, j + 1) == Untouched
    ensures PhaseAt(env, run, j) == Untouched && !IsNicMove(env, run[j])
  {
  }

  // What one such iteration does to the lists.
  ghost predicate MovesOneOrNone(env: Env, s: State, s': State) {
    && |s.on| == |s'.on| == env.nodes
    && 0 <= s.high < env.nodes
    && (!IsMove(env, s) ==> s'.on == s.on)
    && (IsMove(env, s) ==>
          var t, k := Target(env, s), Pick(env, s);
          && 0 <= t < env.nodes && t != s.high
          && s'.on == MoveVm(s.on, s.high, k, t)
          && |s'.on[s.high]| == |s.on[s.high]| - 1
          && s'.on[t] == s.on[t] + [s.on[s.high][k]]
          && forall j | 0 <= j < env.nodes && j != s.high && j != t :: s'.on[j] == s.on[j])
  }

  lemma StepMovesOneOrNone(env: Env, run: seq<State>, m: nat)
    requires Run(env, run) && m < |run| - 1
    ensures MovesOneOrNone(env, run[m], run[m + 1])
  {
    var s, ph := run[m], PhaseAt(env, run, m);
    assert StepAt(env, run, m);
    RunKeepsInvariant(env, run, m);
    GuardIsSafe(env, s, ph);
    if IsMove(env, s) {
      ProperMove(env, s, ph);
      MoveShape(s.on, s.high, Pick(env, s), Target(env, s));
    }
  }

  // While no NIC turn has moved anything, no node both gives and receives.
  lemma NoNodeGivesAndReceives(env: Env, run: seq<State>, i: nat, j: nat)
    requires Run(env, run) && i < j < |run| - 1
    requires IsLoadMove(env, run[i]) && IsLoadMove(env, run[j])
    requires forall m | 0 <= m < j :: !IsNicMove(env, run[m])
    ensures Target(env, run[i]) != run[j].high
    ensures run[i].high != Target(env, run[j])
  {
    StaysUntouched(env, run, j);
    StaysUntouched(env, run, j + 1);
    BoundsPersist(env, run, i, j);
    BoundsAt(env, run, j, Target(env, run[i]));
    BoundsAt(env, run, j, run[i].high);
  }

  // ----- IO-intensive VMs on the NIC node -----

  ghost predicate CalmNic(s: State, nic: int)
    requires 0 <= nic < |s.on| && |s.vec| > 0
  {
    |s.on[nic]| <= 2 || NearLeast(s, nic)
  }

  lemma {:induction false} NicStaysCalm(env: Env, run: seq<State>, i: nat, j: nat)
    requires Run(env, run) && i <= j < |run| && PhaseAt(env, run, j) == Untouched
    requires |run[i].on| == env.nodes && |run[i].on[env.nic]| <= 2
    ensures |run[j].on| == env.nodes && |run[j].vec| > 0 && CalmNic(run[j], env.nic)
    decreases j
  {
    if j > i {
      StillUntouched(env, run, j - 1);
      NicStaysCalm(env, run, i, j - 1);
      BoundsAt(env, run, j - 1, env.nic);
      StepMovesOneOrNone(env, run, j - 1);
    } else {
      RunKeepsInvariant(env, run, j);
    }
  }

  // Once the NIC node holds at most two VMs, only VMs that are neither IO-intensive nor idle leave it.
  lemma IoStaysOnNic(env: Env, run: seq<State>, i: nat, j: nat)
    requires Run(env, run) && i <= j < |run| - 1
    requires |run[i].on| == env.nodes && |run[i].on[env.nic]| <= 2
    requires IsMove(env, run[j]) && run[j].high == env.nic
    ensures env.StateOf(run[j].on[env.nic][Pick(env, run[j])]) == OtherState
  {
    var s, ph := run[j], PhaseAt(env, run, j);
    assert StepAt(env, run, j);
    RunKeepsInvariant(env, run, i);
    RunKeepsInvariant(env, run, j);
    GuardIsSafe(env, s, ph);
    if IsLoadMove(env, s) && ph == Untouched {
      NicStaysCalm(env, run, i, j);
      LoadMoveBounds(env, s, run[j + 1], env.nic);
    }
  }

  // Hence an IO-intensive VM found there among at most two is still there later.
  lemma {:induction false} IoVmStaysOnNic(env: Env, run: seq<State>, i: nat, j: nat, vm: int)
    requires Run(env, run) && i <= j < |run|
    requires |run[i].on| == env.nodes && |run[i].on[env.nic]| <= 2
    requires vm in run[i].on[env.nic] && env.StateOf(vm) == IoState
    ensures |run[j].on| == env.nodes && vm in run[j].on[env.nic]
    decreases j
  {
    if j > i {
      var s := run[j - 1];
      IoVmStaysOnNic(env, run, i, j - 1, vm);
      StepMovesOneOrNone(env, run, j - 1);
      if IsMove(env, s) && s.high == env.nic {
        IoStaysOnNic(env, run, i, j - 1);
        StaysAfterErase(s.on[env.nic], Pick(env, s), vm);
      }
    }
  }

  lemma StaysAfterErase(list: seq<int>, k: nat, vm: int)
    requires k < |list| && vm in list && list[k] != vm
    ensures vm in Erase(list, k)
  {
    var i :| 0 <= i < |list| && list[i] == vm;
    assert Erase(list, k)[if i < k then i else i - 1] == vm;
  }

  // ----- no move is wasted -----

  ghost function MoveCount(env: Env, run: seq<State>, j: nat): nat
    requires j < |run|
  {
    if j == 0 then 0
    else MoveCount(env, run, j - 1) + (if IsMove(env, run[j - 1]) then 1 else 0)
  }

  function Excess(a: nat, b: nat): nat {
    if a > b then a - b else 0
  }

  // The VMs that have to leave: what the nodes hold in excess of where they end.
  function Outflow(from: Placement, to: Placement): nat
    requires |from| == |to|
  {
    if from == [] then 0 else Excess(|from[0]|, |to[0]|) + Outflow(from[1..], to[1..])
  }

  lemma {:induction false} OutflowUpdate(from: Placement, to: Placement, k: nat, list: seq<int>)
    requires |from| == |to| && k < |to|
    ensures Outflow(from, to[k := list]) + Excess(|from[k]|, |to[k]|)
            == Outflow(from, to) + Excess(|from[k]|, |list|)
  {
    if k == 0 {
      assert to[k := list][1..] == to[1..];
    } else {
      assert to[k := list][1..] == to[1..][k - 1 := list];
      OutflowUpdate(from[1..], to[1..], k - 1, list);
    }
  }

  lemma {:induction false} OutflowSelf(on: Placement)
    ensures Outflow(on, on) == 0
  {
    if on != [] {
      OutflowSelf(on[1..]);
    }
  }

  // A node that gives at j has never received, so it only shrank; a node that receives has only grown.
  lemma {:induction false} GiverShrankReceiverGrew(env: Env, run: seq<State>, m: nat, j: nat)
    requires Run(env, run) && m <= j < |run| - 1 && IsLoadMove(env, run[j])
    requires forall i | 0 <= i < j :: !IsNicMove(env, run[i])
    ensures |run[m].on| == |run[0].on| == env.nodes
    ensures 0 <= Target(env, run[j]) < env.nodes
    ensures |run[m].on[run[j].high]| <= |run[0].on[run[j].high]|
    ensures |run[m].on[Target(env, run[j])]| >= |run[0].on[Target(env, run[j])]|
  {
    StepMovesOneOrNone(env, run, j);
    if m > 0 {
      GiverShrankReceiverGrew(env, run, m - 1, j);
      StepMovesOneOrNone(env, run, m - 1);
      if IsMove(env, run[m - 1]) {
        NoNodeGivesAndReceives(env, run, m - 1, j);
      }
    }
  }

  lemma OutflowOfMove(from: Placement, on: Placement, src: int, k: nat, dst: int)
    requires |from| == |on|
    requires 0 <= src < |on| && 0 <= dst < |on| && src != dst && k < |on[src]|
    requires |on[src]| <= |from[src]| && |on[dst]| >= |from[dst]|
    ensures Outflow(from, MoveVm(on, src, k, dst)) == Outflow(from, on) + 1
  {
    OutflowUpdate(from, on, src, Erase(on[src], k));
    OutflowUpdate(from, on[src := Erase(on[src], k)], dst, on[dst] + [on[src][k]]);
  }

  // In a run where NIC turns move nothing, the number of moves is exactly what the nodes lost:
  // the least number of moves that leads from the initial sizes to the final ones.
  lemma {:induction false} NoMoveIsWasted(env: Env, run: seq<State>, j: nat)
    requires Run(env, run) && j < |run|
    requires forall i | 0 <= i < j :: !IsNicMove(env, run[i])
    ensures |run[j].on| == |run[0].on|
    ensures MoveCount(env, run, j) == Outflow(run[0].on, run[j].on)
  {
    if j == 0 {
      OutflowSelf(run[0].on);
    } else {
      var s := run[j - 1];
      NoMoveIsWasted(env, run, j - 1);
      StepMovesOneOrNone(env, run, j - 1);
      if IsMove(env, s) {
        GiverShrankReceiverGrew(env, run, j - 1, j - 1);
        OutflowOfMove(run[0].on, s.on, s.high, Pick(env, s), Target(env, s));
      }
    }
  }

  // ----- no VM moves twice -----

  lemma {:induction false} PlacedAtLeast(on: Placement, k: nat, vm: int)
    requires k < |on|
    ensures Placed(on)[vm] >= multiset(on[k])[vm]
  {
    if k > 0 {
      PlacedAtLeast(on[1..], k - 1, vm);
    }
  }

  lemma {:induction false} PlacedTwice(on: Placement, j: nat, k: nat, vm: int)
    requires j < k < |on| && vm in on[j] && vm in on[k]
    ensures Placed(on)[vm] >= 2
  {
    if j == 0 {
      PlacedAtLeast(on[1..], k - 1, vm);
      assert multiset(on[k])[vm] >= 1;
    } else {
      PlacedTwice(on[1..], j - 1, k - 1, vm);
    }
  }

  // A VM moved at i is still where it was put when the move at j is about to happen.
  lemma {:induction false} MovedVmStays(env: Env, run: seq<State>, i: nat, m: nat, j: nat)
    requires Run(env, run) && i < m <= j < |run|
    requires IsLoadMove(env, run[i])
    requires forall n | 0 <= n < j :: !IsNicMove(env, run[n])
    ensures 0 <= Target(env, run[i]) < |run[m].on|
    ensures MovedFrom(env, run[i]) in run[m].on[Target(env, run[i])]
    decreases m
  {
    var s := run[m - 1];
    StepMovesOneOrNone(env, run, m - 1);
    StepMovesOneOrNone(env, run, i);
    if m > i + 1 {
      MovedVmStays(env, run, i, m - 1, j);
      if IsMove(env, s) {
        NoNodeGivesAndReceives(env, run, i, m - 1);
      }
    }
  }

  lemma NoVmMovesTwice(env: Env, run: seq<State>, i: nat, j: nat)
    requires Run(env, run) && i < j < |run| - 1
    requires IsLoadMove(env, run[i]) && IsLoadMove(env, run[j])
    requires forall m | 0 <= m < j :: !IsNicMove(env, run[m])
    requires forall vm :: Placed(run[0].on)[vm] <= 1
    ensures MovedFrom(env, run[i]) != MovedFrom(env, run[j])
  {
    var t, h := Target(env, run[i]), run[j].high;
    NoNodeGivesAndReceives(env, run, i, j);
    MovedVmStays(env, run, i, j, j);
    RunConserves(env, run, j);
    var vm := MovedFrom(env, run[j]);
    if MovedFrom(env, run[i]) == vm {
      if t < h {
        PlacedTwice(run[j].on, t, h, vm);
      } else {
        PlacedTwice(run[j].on, h, t, vm);
      }
    }
  }
}
