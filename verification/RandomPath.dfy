// The random path over the slots of a block, built in place by retrying draws
// until one hits a free slot.
module RandomPath {
  import Sorting

  const INVALID_RAND := -1

  // rand() seen as an endless stream; slot v comes up again at or after position p.
  ghost predicate Recurs(draws: nat -> nat, n: nat, p: nat, v: int)
    requires n > 0
  {
    exists q: nat :: p <= q && draws(q) % n == v
  }

  // Every slot keeps coming up, which is what the retry loops need to end.
  ghost predicate Fair(draws: nat -> nat, n: nat)
    requires n > 0
  {
    forall p: nat, v | 0 <= v < n :: Recurs(draws, n, p, v)
  }

  ghost predicate OnlyFree(arr: seq<int>, i: int) {
    0 <= i < |arr| && arr[i] == INVALID_RAND && forall j | 0 <= j < |arr| && j != i :: arr[j] != INVALID_RAND
  }

  method LastFreeElem(a: array<int>) returns (r: bool)
    ensures r <==> exists i :: OnlyFree(a[..], i)
  {
    var cnt := 0;
    ghost var first := -1;
    for i := 0 to a.Length
      invariant cnt == 0 || cnt == 1
      invariant cnt == 0 ==> forall j | 0 <= j < i :: a[j] != INVALID_RAND
      invariant cnt == 1 ==>
                  && 0 <= first < i && a[first] == INVALID_RAND
                  && forall j | 0 <= j < i && j != first :: a[j] != INVALID_RAND
    {
      if a[i] == INVALID_RAND {
        cnt := cnt + 1;
        if cnt > 1 {
          assert a[..][first] == a[..][i] == INVALID_RAND;
          return false;
        }
        first := i;
      }
    }
    if cnt == 1 {
      assert OnlyFree(a[..], first);
      return true;
    }
    return false;
  }

  ghost predicate Distinct(s: seq<int>) {
    forall i, j | 0 <= i < j < |s| :: s[i] != s[j]
  }

  ghost predicate Within(s: seq<int>, n: nat) {
    forall i | 0 <= i < |s| :: 0 <= s[i] < n
  }

  function Front(s: seq<int>): seq<int>
    requires |s| > 0
  {
    s[..|s| - 1]
  }

  // The i-th slot of the path points to the next one.
  ghost predicate Link(arr: seq<int>, path: seq<int>, i: nat)
    requires i < |path| - 1
  {
    0 <= path[i] < |arr| && arr[path[i]] == path[i + 1]
  }

  // path starts at slot 0, each of its slots but the last points to the next, and every slot that
  // points anywhere is one of these.
  ghost predicate PartialPath(arr: seq<int>, path: seq<int>) {
    && |path| > 0 && path[0] == 0
    && Distinct(path) && Within(path, |arr|)
    && (forall i: nat | i < |path| - 1 :: Link(arr, path, i))
    && (forall v | 0 <= v < |arr| && v !in Front(path) :: arr[v] == INVALID_RAND)
  }

  // path visits every slot once, from slot 0 along the pointers, and its last slot holds the
  // terminal value.
  ghost predicate FullPath(arr: seq<int>, path: seq<int>) {
    && |path| == |arr| > 0 && path[0] == 0
    && Distinct(path) && Within(path, |arr|)
    && (forall i: nat | i < |path| - 1 :: Link(arr, path, i))
    && arr[path[|path| - 1]] == |arr|
  }

  function Range(n: nat): (r: set<int>)
    ensures |r| == n
    ensures forall x :: x in r <==> 0 <= x < n
  {
    if n == 0 then {} else Range(n - 1) + {n - 1}
  }

  // No path is longer than the number of slots, and one that misses no slot has exactly that length.
  lemma PathLength(path: seq<int>, n: nat)
    requires Distinct(path) && Within(path, n)
    ensures |path| <= n
    ensures (forall v | 0 <= v < n :: v in path) ==> |path| == n
  {
    Sorting.DistinctSize(path);
    Sorting.SubsetSizes(Sorting.Elements(path), Range(n));
    if forall v | 0 <= v < n :: v in path {
      assert Sorting.Elements(path) == Range(n);
    }
  }

  // Pointing the end of the path at a free slot off the path makes it one longer.
  lemma Extends(arr: seq<int>, path: seq<int>, r: int)
    requires PartialPath(arr, path) && 0 <= r < |arr|
    requires arr[r] == INVALID_RAND && r != path[|path| - 1]
    ensures PartialPath(arr[path[|path| - 1] := r], path + [r]) && r !in path
  {
    var last := |path| - 1;
    var arr', path' := arr[path[last] := r], path + [r];
    forall i | 0 <= i < last ensures path[i] != r {
      assert Link(arr, path, i);
    }
    forall i: nat | i < |path'| - 1 ensures Link(arr', path', i) {
      assert i < last ==> Link(arr, path, i) && path[i] != path[last];
    }
    assert Front(path') == path;
    forall v | 0 <= v < |arr'| && v !in path ensures arr'[v] == INVALID_RAND {
      assert v !in Front(path);
    }
  }

  lemma Closes(arr: seq<int>, path: seq<int>, i: int)
    requires PartialPath(arr, path) && OnlyFree(arr, i)
    ensures i == path[|path| - 1]
    ensures FullPath(arr[i := |arr|], path)
  {
    EndIsFree(arr, path);
    var closed := arr[i := |arr|];
    forall k: nat | k < |path| - 1 ensures Link(closed, path, k) {
      assert Link(arr, path, k) && path[k] != path[|path| - 1];
    }
    forall v | 0 <= v < |arr| ensures v in path {
      if v != i {
        assert v in Front(path);
      }
    }
    PathLength(path, |arr|);
  }

  lemma EndIsFree(arr: seq<int>, path: seq<int>)
    requires PartialPath(arr, path)
    ensures arr[path[|path| - 1]] == INVALID_RAND
  {
    assert path[|path| - 1] !in Front(path);
  }

  lemma Draw(draws: nat -> nat, n: nat, p: nat, v: int) returns (q: nat)
    requires n > 0 && Fair(draws, n) && 0 <= v < n
    ensures p <= q && draws(q) % n == v
  {
    assert Recurs(draws, n, p, v);
    q :| p <= q && draws(q) % n == v;
  }

  // stop is a later draw that finds a free slot, off the path unless only the end is free.
  ghost predicate Waiting(arr: seq<int>, path: seq<int>, draws: nat -> nat, pos: nat, stop: nat)
    requires |path| > 0
  {
    && pos <= stop
    && |arr| > 0
    && arr[draws(stop) % |arr|] == INVALID_RAND
    && (draws(stop) % |arr| != path[|path| - 1] || OnlyFree(arr, path[|path| - 1]))
  }

  lemma NextWait(arr: seq<int>, path: seq<int>, draws: nat -> nat, pos: nat) returns (stop: nat)
    requires |arr| > 0 && PartialPath(arr, path) && Fair(draws, |arr|)
    ensures Waiting(arr, path, draws, pos, stop)
  {
    var index := path[|path| - 1];
    EndIsFree(arr, path);
    if OnlyFree(arr, index) {
      stop := Draw(draws, |arr|, pos, index);
    } else {
      var v :| 0 <= v < |arr| && v != index && arr[v] == INVALID_RAND;
      stop := Draw(draws, |arr|, pos, v);
    }
  }

  // Position in the stream from which slot k + 1 of the path was looked for.
  function SearchStart(at: seq<nat>, k: nat): nat
    requires k <= |at|
  {
    if k == 0 then 0 else at[k - 1] + 1
  }

  // Slot k + 1 of the path is the first draw, after the one that gave slot k, that is not yet on
  // the path; at[k] is its position.
  ghost predicate DrawnAt(path: seq<int>, draws: nat -> nat, n: nat, at: seq<nat>, k: nat)
    requires n > 0 && k < |at| && k + 1 < |path|
  {
    && SearchStart(at, k) <= at[k]
    && draws(at[k]) % n == path[k + 1]
    && path[k + 1] !in path[..k + 1]
    && forall q: nat | SearchStart(at, k) <= q < at[k] :: draws(q) % n in path[..k + 1]
  }

  // The path follows the stream, slot by slot.
  ghost predicate Drawn(path: seq<int>, draws: nat -> nat, n: nat, at: seq<nat>) {
    && n > 0
    && |at| + 1 == |path|
    && forall k: nat | k < |at| :: DrawnAt(path, draws, n, at, k)
  }

  // The draws from one position up to another all hit the path.
  ghost predicate AllHit(path: seq<int>, draws: nat -> nat, n: nat, start: nat, pos: nat)
    requires n > 0
  {
    start < pos ==> draws(pos - 1) % n in path && AllHit(path, draws, n, start, pos - 1)
  }

  lemma {:induction false} AllHitMeans(path: seq<int>, draws: nat -> nat, n: nat, start: nat, pos: nat, q: nat)
    requires n > 0 && AllHit(path, draws, n, start, pos) && start <= q < pos
    ensures draws(q) % n in path
  {
    if q < pos - 1 {
      AllHitMeans(path, draws, n, start, pos - 1, q);
    }
  }

  // Nothing but hits since the path grew last.
  ghost predicate Searched(path: seq<int>, draws: nat -> nat, n: nat, at: seq<nat>, pos: int)
    requires n > 0
  {
    SearchStart(at, |at|) <= pos && AllHit(path, draws, n, SearchStart(at, |at|), pos)
  }

  lemma DrawnNext(path: seq<int>, draws: nat -> nat, n: nat, at: seq<nat>, q: nat)
    requires Drawn(path, draws, n, at) && Searched(path, draws, n, at, q) && draws(q) % n !in path
    ensures Drawn(path + [draws(q) % n], draws, n, at + [q])
  {
    var path', at' := path + [draws(q) % n], at + [q];
    forall k: nat | k < |at'| ensures DrawnAt(path', draws, n, at', k) {
      assert SearchStart(at', k) == SearchStart(at, k);
      assert path'[..k + 1] == path[..k + 1];
      if k < |at| {
        assert DrawnAt(path, draws, n, at, k);
      } else {
        assert path[..k + 1] == path;
        forall p: nat | SearchStart(at, k) <= p < q ensures draws(p) % n in path {
          AllHitMeans(path, draws, n, SearchStart(at, k), q, p);
        }
      }
    }
  }

  // So the stream determines the path: two paths drawn from it agree as far as both go.
  lemma {:induction false} DrawsDetermine(path: seq<int>, path': seq<int>, draws: nat -> nat, n: nat, at: seq<nat>,
      at': seq<nat>, k: nat)
    requires Drawn(path, draws, n, at) && Drawn(path', draws, n, at') && path[0] == path'[0]
    requires k <= |at| && k <= |at'|
    ensures path[..k + 1] == path'[..k + 1] && at[..k] == at'[..k]
  {
    if k > 0 {
      DrawsDetermine(path, path', draws, n, at, at', k - 1);
      assert DrawnAt(path, draws, n, at, k - 1) && DrawnAt(path', draws, n, at', k - 1);
      assert k > 1 ==> at[k - 2] == at[..k - 1][k - 2] && at'[k - 2] == at'[..k - 1][k - 2];
      assert at[k - 1] == at'[k - 1];
      assert path[..k + 1] == path[..k] + [path[k]] && path'[..k + 1] == path'[..k] + [path'[k]];
      assert at[..k] == at[..k - 1] + [at[k - 1]] && at'[..k] == at'[..k - 1] + [at'[k - 1]];
    }
  }

  // A draw that hits a free slot off the path makes the path longer.
  lemma Grows(arr: seq<int>, path: seq<int>, draws: nat -> nat, at: seq<nat>, q: nat, r: nat)
    requires |arr| > 0 && PartialPath(arr, path) && Drawn(path, draws, |arr|, at) && Searched(path, draws, |arr|, at, q)
    requires r == draws(q) % |arr| && arr[r] == INVALID_RAND && r != path[|path| - 1]
    ensures PartialPath(arr[path[|path| - 1] := r], path + [r])
    ensures Drawn(path + [r], draws, |arr|, at + [q])
    ensures Searched(path + [r], draws, |arr|, at + [q], q + 1)
  {
    Extends(arr, path, r);
    DrawnNext(path, draws, |arr|, at, q);
  }

  method Clear(a: array<int>)
    modifies a
    ensures forall j | 0 <= j < a.Length :: a[j] == INVALID_RAND
  {
    for i := 0 to a.Length
      invariant forall j | 0 <= j < i :: a[j] == INVALID_RAND
    {
      a[i] := INVALID_RAND;
    }
  }

  // The inner loop: draw until a free slot comes up.
  method DrawFree(a: array<int>, draws: nat -> nat, pos: nat, ghost path: seq<int>, ghost at: seq<nat>, ghost stop: nat)
    returns (r: nat, pos': nat)
    requires PartialPath(a[..], path) && Waiting(a[..], path, draws, pos, stop)
    requires Searched(path, draws, a.Length, at, pos)
    ensures pos < pos' <= stop + 1 && r == draws(pos' - 1) % a.Length && a[r] == INVALID_RAND
    ensures Searched(path, draws, a.Length, at, pos' - 1)
  {
    r := draws(pos) % a.Length;
    pos' := pos + 1;
    while a[r] != INVALID_RAND
      invariant pos < pos' <= stop + 1 && r == draws(pos' - 1) % a.Length
      invariant Searched(path, draws, a.Length, at, pos' - 1)
      decreases stop - pos'
    {
      assert a[..][r] != INVALID_RAND && r in Front(path);
      r := draws(pos') % a.Length;
      pos' := pos' + 1;
    }
  }

  method RandArrayInit(a: array<int>, draws: nat -> nat) returns (ghost path: seq<int>, ghost at: seq<nat>)
    requires a.Length > 0 && Fair(draws, a.Length)
    modifies a
    ensures FullPath(a[..], path) && Drawn(path, draws, a.Length, at)
  {
    var n := a.Length;
    Clear(a);
    var index := 0;
    var pos: nat := 0;
    path, at := [0], [];
    ghost var stop := NextWait(a[..], path, draws, pos);
    while true
      invariant n == a.Length && PartialPath(a[..], path) && index == path[|path| - 1]
      invariant Waiting(a[..], path, draws, pos, stop)
      invariant Drawn(path, draws, n, at) && Searched(path, draws, n, at, pos)
      decreases n - |path|, stop - pos
    {
      var r;
      r, pos := DrawFree(a, draws, pos, path, at, stop);
      ghost var before := path;
      if a[index] == INVALID_RAND && index != r {
        Grows(a[..], path, draws, at, pos - 1, r);
        a[index] := r;
        path, at := path + [r], at + [pos - 1];
        index := r;
      } else {
        EndIsFree(a[..], path);
      }
      var last := LastFreeElem(a);
      if last {
        ghost var i :| OnlyFree(a[..], i);
        Closes(a[..], path, i);
        a[index] := n;
        break;
      }
      PathLength(path, n);
      if |path| > |before| {
        stop := NextWait(a[..], path, draws, pos);
      }
    }
  }

  // A distinct sequence of all n lengths within [0, n) misses nothing.
  lemma Covers(path: seq<int>, n: nat, v: int) returns (i: nat)
    requires Distinct(path) && Within(path, n) && |path| == n && 0 <= v < n
    ensures i < n && path[i] == v
  {
    if v !in path {
      PathLength(path + [v], n);
      assert false;
    }
    i :| 0 <= i < n && path[i] == v;
  }

  // The finished array maps the slots one to one onto 1 .. N.
  lemma PathIsBijection(arr: seq<int>, path: seq<int>)
    requires FullPath(arr, path)
    ensures forall v | 0 <= v < |arr| :: 1 <= arr[v] <= |arr|
    ensures forall v, w | 0 <= v < w < |arr| :: arr[v] != arr[w]
    ensures forall t | 1 <= t <= |arr| :: t in arr
  {
    var n := |arr|;
    forall v | 0 <= v < n ensures 1 <= arr[v] <= n {
      var i := Covers(path, n, v);
      assert i < n - 1 ==> Link(arr, path, i) && path[i + 1] != path[0];
    }
    forall v, w | 0 <= v < w < n ensures arr[v] != arr[w] {
      var i := Covers(path, n, v);
      var j := Covers(path, n, w);
      assert i < n - 1 ==> Link(arr, path, i);
      assert j < n - 1 ==> Link(arr, path, j);
    }
    forall t | 1 <= t <= n ensures t in arr {
      if t == n {
        assert arr[path[n - 1]] == t;
      } else {
        var i := Covers(path, n, t);
        assert Link(arr, path, i - 1);
      }
    }
  }
}
