// Sums over a placement and how moving one VM changes them.
module Placements {
  import opened VmTypes
  import opened Balancer

  // How many VMs there are.
  function Total(on: Placement): nat {
    if on == [] then 0 else |on[0]| + Total(on[1..])
  }

  // The sum of the squared node sizes.
  function SumSq(on: Placement): nat {
    if on == [] then 0 else |on[0]| * |on[0]| + SumSq(on[1..])
  }

  // All the VMs, with multiplicity.
  function Placed(on: Placement): multiset<int> {
    if on == [] then multiset{} else multiset(on[0]) + Placed(on[1..])
  }

  // How many of a node's VMs are neither IO-intensive nor idle.
  function Others(env: Env, list: seq<int>): nat {
    if list == [] then 0
    else (if env.StateOf(list[0]) == OtherState then 1 else 0) + Others(env, list[1..])
  }

  // Every placed VM counts as running.
  ghost predicate NoneIdle(env: Env, on: Placement) {
    forall k, i | 0 <= k < |on| && 0 <= i < |on[k]| :: env.StateOf(on[k][i]) != IdleState
  }

  lemma {:induction false} UpdateTotal(on: Placement, k: nat, list: seq<int>)
    requires k < |on|
    ensures Total(on[k := list]) == Total(on) - |on[k]| + |list|
  {
    if k == 0 {
      assert on[k := list][1..] == on[1..];
    } else {
      assert on[k := list][1..] == on[1..][k - 1 := list];
      UpdateTotal(on[1..], k - 1, list);
    }
  }

  lemma {:induction false} UpdateSquares(on: Placement, k: nat, list: seq<int>)
    requires k < |on|
    ensures SumSq(on[k := list]) == SumSq(on) - |on[k]| * |on[k]| + |list| * |list|
  {
    if k == 0 {
      assert on[k := list][1..] == on[1..];
    } else {
      assert on[k := list][1..] == on[1..][k - 1 := list];
      UpdateSquares(on[1..], k - 1, list);
    }
  }

  lemma {:induction false} UpdatePlaced(on: Placement, k: nat, list: seq<int>, vm: int)
    requires k < |on|
    ensures Placed(on[k := list])[vm] + multiset(on[k])[vm] == Placed(on)[vm] + multiset(list)[vm]
  {
    if k == 0 {
      assert on[k := list][1..] == on[1..];
    } else {
      assert on[k := list][1..] == on[1..][k - 1 := list];
      UpdatePlaced(on[1..], k - 1, list, vm);
    }
  }

  lemma EraseRemoves(list: seq<int>, k: nat, vm: int)
    requires k < |list|
    ensures multiset(Erase(list, k))[vm] == multiset(list)[vm] - (if vm == list[k] then 1 else 0)
  {
    assert list == list[..k] + [list[k]] + list[k + 1..];
  }

  // Only the two lists change, by one VM.
  lemma MoveShape(on: Placement, src: int, k: nat, dst: int)
    requires 0 <= src < |on| && 0 <= dst < |on| && src != dst && k < |on[src]|
    ensures var on' := MoveVm(on, src, k, dst);
      && |on'| == |on|
      && on'[src] == Erase(on[src], k)
      && |on'[src]| == |on[src]| - 1
      && on'[dst] == on[dst] + [on[src][k]]
      && |on'[dst]| == |on[dst]| + 1
      && forall j | 0 <= j < |on| && j != src && j != dst :: on'[j] == on[j]
  {
  }

  lemma {:induction false} MoveKeepsCount(on: Placement, src: int, k: nat, dst: int, vm: int)
    requires 0 <= src < |on| && 0 <= dst < |on| && src != dst && k < |on[src]|
    ensures Placed(MoveVm(on, src, k, dst))[vm] == Placed(on)[vm]
  {
    var moved := on[src][k];
    EraseRemoves(on[src], k, vm);
    UpdatePlaced(on, src, Erase(on[src], k), vm);
    UpdatePlaced(on[src := Erase(on[src], k)], dst, on[dst] + [moved], vm);
  }

  // No VM is lost or duplicated.
  lemma {:induction false} MoveConserves(on: Placement, src: int, k: nat, dst: int)
    requires 0 <= src < |on| && 0 <= dst < |on| && src != dst && k < |on[src]|
    ensures Placed(MoveVm(on, src, k, dst)) == Placed(on)
    ensures Total(MoveVm(on, src, k, dst)) == Total(on)
  {
    UpdateTotal(on, src, Erase(on[src], k));
    UpdateTotal(on[src := Erase(on[src], k)], dst, on[dst] + [on[src][k]]);
    forall vm ensures Placed(MoveVm(on, src, k, dst))[vm] == Placed(on)[vm] {
      MoveKeepsCount(on, src, k, dst, vm);
    }
  }

  lemma {:induction false} MoveSquares(on: Placement, src: int, k: nat, dst: int)
    requires 0 <= src < |on| && 0 <= dst < |on| && src != dst && k < |on[src]|
    ensures SumSq(MoveVm(on, src, k, dst)) == SumSq(on) + 2 * (|on[dst]| + 1 - |on[src]|)
  {
    var a, b := |on[src]|, |on[dst]|;
    var erased := on[src := Erase(on[src], k)];
    UpdateSquares(on, src, Erase(on[src], k));
    UpdateSquares(erased, dst, on[dst] + [on[src][k]]);
    SquareSteps(a, b);
  }

  lemma SquareSteps(a: int, b: int)
    ensures (a - 1) * (a - 1) - a * a + (b + 1) * (b + 1) - b * b == 2 * (b + 1 - a)
  {
  }

  lemma MoveKeepsNoneIdle(env: Env, on: Placement, src: int, k: nat, dst: int)
    requires 0 <= src < |on| && 0 <= dst < |on| && src != dst && k < |on[src]|
    requires NoneIdle(env, on)
    ensures NoneIdle(env, MoveVm(on, src, k, dst))
  {
    MoveShape(on, src, k, dst);
    var on' := MoveVm(on, src, k, dst);
    forall j, i | 0 <= j < |on'| && 0 <= i < |on'[j]| ensures env.StateOf(on'[j][i]) != IdleState {
      if j == src {
        assert on'[j][i] == on[src][if i < k then i else i + 1];
      }
    }
  }

  lemma {:induction false} OthersAppend(env: Env, a: seq<int>, b: seq<int>)
    ensures Others(env, a + b) == Others(env, a) + Others(env, b)
  {
    if a == [] {
      assert a + b == b;
    } else {
      assert (a + b)[1..] == a[1..] + b;
      OthersAppend(env, a[1..], b);
    }
  }

  lemma OthersErase(env: Env, list: seq<int>, k: nat)
    requires k < |list|
    ensures Others(env, Erase(list, k)) ==
            Others(env, list) - (if env.StateOf(list[k]) == OtherState then 1 else 0)
  {
    assert list == list[..k] + ([list[k]] + list[k + 1..]);
    OthersAppend(env, list[..k], [list[k]] + list[k + 1..]);
    OthersAppend(env, [list[k]], list[k + 1..]);
    OthersAppend(env, list[..k], list[k + 1..]);
  }

  lemma {:induction false} OthersBounds(env: Env, list: seq<int>)
    ensures Others(env, list) <= |list|
    ensures Others(env, list) == 0 <==> FirstIn(env, list, OtherState) == |list|
    ensures (forall i | 0 <= i < |list| :: env.StateOf(list[i]) == OtherState) ==> Others(env, list) == |list|
  {
    if list != [] {
      OthersBounds(env, list[1..]);
    }
  }

  // If no node is empty and one holds two, there are more VMs than nodes.
  lemma CrowdedTotal(on: Placement, k: nat)
    requires k < |on| && |on[k]| >= 2
    requires forall j | 0 <= j < |on| :: |on[j]| >= 1
    ensures Total(on) > |on|
  {
    var one := on[k := [0]];
    UpdateTotal(on, k, [0]);
    TotalAtLeast(one);
  }

  lemma {:induction false} TotalAtLeast(on: Placement)
    requires forall j | 0 <= j < |on| :: |on[j]| >= 1
    ensures Total(on) >= |on|
  {
    if on != [] {
      TotalAtLeast(on[1..]);
    }
  }

  lemma {:induction false} TotalAtMost(on: Placement)
    requires forall j | 0 <= j < |on| :: |on[j]| <= 1
    ensures Total(on) <= |on|
  {
    if on != [] {
      TotalAtMost(on[1..]);
    }
  }
}
