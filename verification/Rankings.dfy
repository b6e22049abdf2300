// Collecting and sorting the node sizes.
module Rankings {
  import opened Balancer
  import opened Placements
  import opened BalancerInvariant
  import Sorting

  // node_vm_vec before sorting.
  function Loads(on: Placement): (r: seq<Load>)
    ensures |r| == |on|
    ensures forall k | 0 <= k < |on| :: r[k] == Load(k, |on[k]|)
  {
    seq(|on|, k requires 0 <= k < |on| => Load(k, |on[k]|))
  }

  // The key compare_pairs_second compares.
  function CountKey(x: Load): real {
    x.count as real
  }

  // Whatever sorted permutation the sort returns is a ranking.
  lemma SortedLoadsRank(vec: seq<Load>, on: Placement)
    requires multiset(vec) == multiset(Loads(on)) && Sorting.SortedBy(CountKey, vec)
    ensures IsRanking(vec, on)
  {
    var loads := Loads(on);
    assert |multiset(vec)| == |vec| && |multiset(loads)| == |loads|;
    forall i | 0 <= i < |vec|
      ensures 0 <= vec[i].node < |on| && vec[i].count == |on[vec[i].node]|
    {
      assert vec[i] in multiset(loads);
    }
    forall i, j | 0 <= i < j < |vec| ensures vec[i].count <= vec[j].count {
      assert CountKey(vec[i]) <= CountKey(vec[j]);
    }
    forall i, j | 0 <= i < j < |vec| ensures vec[i].node != vec[j].node {
      Sorting.PermutationIsInjective(vec, loads, i, j);
    }
    forall k | 0 <= k < |on| ensures HasNode(vec, k) {
      assert loads[k] in multiset(vec);
    }
  }

  // Exchanging the last entry with an equal one gives another possible outcome of the sort.
  lemma SwapTie(vec: seq<Load>, on: Placement, i: nat) returns (r: seq<Load>)
    requires IsRanking(vec, on) && i < |vec| - 1 && vec[i].count == vec[|vec| - 1].count
    ensures IsRanking(r, on) && r[|r| - 1] == vec[i]
  {
    var last := |vec| - 1;
    r := vec[i := vec[last]][last := vec[i]];
    forall k | 0 <= k < |on| ensures HasNode(r, k) {
      assert HasNode(vec, k);
      var m :| 0 <= m < |vec| && vec[m].node == k;
      assert r[if m == i then last else if m == last then i else m].node == k;
    }
  }

  // There is a ranking that puts the NIC node last only if it alone is largest.
  lemma RankingAvoiding(on: Placement, nic: int) returns (vec: seq<Load>)
    requires 0 <= nic < |on|
    ensures IsRanking(vec, on)
    ensures vec[|on| - 1].node == nic ==>
              forall k | 0 <= k < |on| && k != nic :: |on[k]| < |on[nic]|
  {
    vec := Sorting.SomeSortedOrder(Loads(on), CountKey);
    SortedLoadsRank(vec, on);
    RankingBounds(vec, on);
    if vec[|on| - 1].node == nic && exists k :: 0 <= k < |on| && k != nic && |on[k]| >= |on[nic]| {
      var k :| 0 <= k < |on| && k != nic && |on[k]| >= |on[nic]|;
      assert HasNode(vec, k);
      var i :| 0 <= i < |vec| && vec[i].node == k;
      vec := SwapTie(vec, on, i);
    }
  }
}
