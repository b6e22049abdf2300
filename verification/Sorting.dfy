// The two library facilities the program leans on: std::sort with
// compare_pairs_second, whose order among equal keys is unspecified, and the
// ascending-key iteration of std::map and std::set.
module Sorting {

  ghost predicate SortedBy<T>(key: T -> real, s: seq<T>) {
    forall i, j | 0 <= i < j < |s| :: key(s[i]) <= key(s[j])
  }

  lemma InsertAdds<T>(s: seq<T>, k: nat, x: T)
    requires k <= |s|
    ensures multiset(s[..k] + [x] + s[k..]) == multiset(s) + multiset{x}
  {
    assert s == s[..k] + s[k..];
  }

  lemma InsertKeepsSorted<T>(s: seq<T>, k: nat, x: T, key: T -> real)
    requires k <= |s| && SortedBy(key, s)
    requires k > 0 ==> key(s[k - 1]) <= key(x)
    requires k < |s| ==> key(x) <= key(s[k])
    ensures SortedBy(key, s[..k] + [x] + s[k..])
  {
  }

  // One step of an insertion sort: x goes behind the elements not above it.
  method Insert<T>(s: seq<T>, x: T, key: T -> real) returns (r: seq<T>)
    requires SortedBy(key, s)
    ensures multiset(r) == multiset(s) + multiset{x} && SortedBy(key, r)
  {
    var k := |s|;
    while k > 0 && key(x) < key(s[k - 1])
      invariant 0 <= k <= |s|
      invariant k < |s| ==> key(x) <= key(s[k])
    {
      k := k - 1;
    }
    InsertAdds(s, k, x);
    InsertKeepsSorted(s, k, x, key);
    r := s[..k] + [x] + s[k..];
  }

  // Callers learn that the result is some sorted permutation and nothing about ties.
  method Sort<T>(s: seq<T>, key: T -> real) returns (r: seq<T>)
    ensures multiset(r) == multiset(s) && SortedBy(key, r)
  {
    r := [];
    for i := 0 to |s|
      invariant multiset(r) == multiset(s[..i]) && SortedBy(key, r)
    {
      r := Insert(r, s[i], key);
      assert s[..i + 1] == s[..i] + [s[i]];
    }
    assert s[..|s|] == s;
  }

  lemma SomePlace<T>(s: seq<T>, x: T, key: T -> real) returns (k: nat)
    requires SortedBy(key, s)
    ensures k <= |s|
    ensures k > 0 ==> key(s[k - 1]) <= key(x)
    ensures k < |s| ==> key(x) <= key(s[k])
  {
    k := |s|;
    while k > 0 && key(x) < key(s[k - 1])
      invariant 0 <= k <= |s|
      invariant k < |s| ==> key(x) <= key(s[k])
    {
      k := k - 1;
    }
  }

  // A sorted order exists, as a fact for proofs about all of them.
  lemma {:induction false} SomeSortedOrder<T>(s: seq<T>, key: T -> real) returns (r: seq<T>)
    ensures multiset(r) == multiset(s) && SortedBy(key, r)
  {
    if s == [] {
      r := [];
    } else {
      var rest := SomeSortedOrder(s[1..], key);
      var k := SomePlace(rest, s[0], key);
      InsertAdds(rest, k, s[0]);
      InsertKeepsSorted(rest, k, s[0], key);
      assert s == [s[0]] + s[1..];
      r := rest[..k] + [s[0]] + rest[k..];
    }
  }

  lemma RepeatedCountsTwice<T>(r: seq<T>, i: nat, j: nat)
    requires i < j < |r| && r[i] == r[j]
    ensures multiset(r)[r[i]] >= 2
  {
    assert r == r[..i] + [r[i]] + r[i + 1..j] + [r[j]] + r[j + 1..];
  }

  lemma {:induction false} DistinctCountsOnce<T>(s: seq<T>, x: T)
    requires forall a, b | 0 <= a < b < |s| :: s[a] != s[b]
    ensures multiset(s)[x] <= 1
  {
    if s != [] {
      assert s == [s[0]] + s[1..];
      DistinctCountsOnce(s[1..], x);
      assert s[0] !in s[1..];
    }
  }

  function Elements<T>(s: seq<T>): set<T> {
    set x | x in s
  }

  // A sequence without repetitions is as long as it has elements.
  lemma {:induction false} DistinctSize<T>(s: seq<T>)
    requires forall a, b | 0 <= a < b < |s| :: s[a] != s[b]
    ensures |Elements(s)| == |s|
  {
    if s != [] {
      var last := |s| - 1;
      DistinctSize(s[..last]);
      assert s == s[..last] + [s[last]];
      assert Elements(s) == Elements(s[..last]) + {s[last]};
    }
  }

  // A permutation of a sequence without repetitions has none either.
  lemma PermutationIsInjective<T>(r: seq<T>, s: seq<T>, i: nat, j: nat)
    requires multiset(r) == multiset(s)
    requires forall a, b | 0 <= a < b < |s| :: s[a] != s[b]
    requires i < j < |r|
    ensures r[i] != r[j]
  {
    DistinctCountsOnce(s, r[i]);
    if r[i] == r[j] {
      RepeatedCountsTwice(r, i, j);
    }
  }

  // Strictly ascending sequences are determined by their elements.
  lemma {:induction false} AscendingUnique(a: seq<int>, b: seq<int>)
    requires forall i, j | 0 <= i < j < |a| :: a[i] < a[j]
    requires forall i, j | 0 <= i < j < |b| :: b[i] < b[j]
    requires (forall i | 0 <= i < |a| :: a[i] in b) && (forall i | 0 <= i < |b| :: b[i] in a)
    ensures a == b
  {
    assert |a| > 0 ==> a[0] in b;
    assert |b| > 0 ==> b[0] in a;
    if a != [] && b != [] {
      forall i | 0 <= i < |a[1..]| ensures a[1..][i] in b[1..] {
        assert a[i + 1] in b && a[0] < a[i + 1];
      }
      forall i | 0 <= i < |b[1..]| ensures b[1..][i] in a[1..] {
        assert b[i + 1] in a && b[0] < b[i + 1];
      }
      AscendingUnique(a[1..], b[1..]);
    }
  }

  lemma EmptyOrInhabited(s: set<int>)
    ensures s == {} || exists x :: x in s
  {
    if forall x :: x !in s {
      assert s == {};
    }
  }

  lemma {:induction false} LeastOf(s: set<int>) returns (m: int)
    requires s != {}
    ensures m in s && forall x | x in s :: m <= x
  {
    EmptyOrInhabited(s);
    m :| m in s;
    if s != {m} {
      var least := LeastOf(s - {m});
      assert forall x | x in s :: x == m || x in s - {m};
      m := if least < m then least else m;
    }
  }

  lemma LeastExists(s: set<int>)
    requires s != {}
    ensures exists m :: m in s && forall x | x in s :: m <= x
  {
    var m := LeastOf(s);
  }

  // The least key of a non-empty set: where an ordered iteration stands.
  function Least(s: set<int>): (m: int)
    requires s != {}
    ensures m in s && forall x | x in s :: m <= x
  {
    LeastExists(s);
    var m :| m in s && forall x | x in s :: m <= x;
    m
  }

  lemma SubsetSizes<T>(a: set<T>, b: set<T>)
    requires a <= b
    ensures |a| <= |b| && (|a| == |b| ==> a == b)
  {
    assert b == a + (b - a);
  }
}
