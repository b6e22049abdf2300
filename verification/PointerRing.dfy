// The pointer chase that measures memory latency: the random path is stamped
// into every block of a buffer and closed into a ring. Memory is a sequence of
// cache lines, each holding the index of the line it points to; n slots make a
// block.
module PointerRing {
  import opened RandomPath

  // ----- the ring -----

  // Each block starts n lines after the one before.
  function Start(n: nat, i: nat): nat {
    if i == 0 then 0 else Start(n, i - 1) + n
  }

  // The line of slot j in block i.
  function Line(n: nat, i: nat, j: nat): nat {
    Start(n, i) + j
  }

  lemma {:induction false} StartValue(n: nat, i: nat)
    ensures Start(n, i) == i * n
  {
    if i > 0 {
      StartValue(n, i - 1);
      assert i * n == (i - 1) * n + n;
    }
  }

  lemma {:induction false} StartsAscend(n: nat, i: nat, k: nat)
    requires i <= k
    ensures Start(n, i) <= Start(n, k)
    decreases k
  {
    if i < k {
      StartsAscend(n, i, k - 1);
    }
  }

  lemma LineInBlocks(n: nat, nblk: nat, i: nat, j: nat)
    requires j < n
    ensures Line(n, i, j) < Start(n, nblk) <==> i < nblk
    ensures i < nblk ==> Start(n, i) + n <= Start(n, nblk)
    ensures Start(n, i) + n == Start(n, i + 1)
  {
    if i < nblk {
      StartsAscend(n, i + 1, nblk);
    } else {
      StartsAscend(n, nblk, i);
    }
  }

  lemma LineIsUnique(n: nat, i: nat, j: nat, i': nat, j': nat)
    requires j < n && j' < n && Line(n, i, j) == Line(n, i', j')
    ensures i == i' && j == j'
  {
    LineInBlocks(n, i', i, j);
    LineInBlocks(n, i, i', j');
  }

  lemma LineOfQuotient(n: nat, l: nat)
    requires n > 0
    ensures Line(n, l / n, l % n) == l
  {
    StartValue(n, l / n);
  }

  lemma CoordinatesOf(n: nat, l: nat) returns (i: nat, j: nat)
    requires n > 0
    ensures j < n && Line(n, i, j) == l
  {
    LineOfQuotient(n, l);
    i, j := l / n, l % n;
  }

  // What the line of slot j in block i points to: the slot's successor in the same block; for the
  // terminal slot the first line of the next block; for the last block's terminal slot line 0.
  function StampedLine(arr: seq<int>, nblk: nat, i: nat, j: nat): int
    requires j < |arr|
  {
    if arr[j] == |arr| && i + 1 == nblk then 0 else Start(|arr|, i) + arr[j]
  }

  ghost predicate Stamped(mem: seq<int>, arr: seq<int>, nblk: nat) {
    && Start(|arr|, nblk) <= |mem|
    && forall i: nat, j: nat | i < nblk && j < |arr| ::
         Line(|arr|, i, j) < |mem| && mem[Line(|arr|, i, j)] == StampedLine(arr, nblk, i, j)
  }

  // The blocks as the loops write them, before the last terminal line is patched.
  function Block(arr: seq<int>, start: int): (r: seq<int>)
    ensures |r| == |arr|
    ensures forall j | 0 <= j < |arr| :: r[j] == start + arr[j]
  {
    seq(|arr|, j requires 0 <= j < |arr| => start + arr[j])
  }

  function Blocks(arr: seq<int>, i: nat): (r: seq<int>)
    ensures |r| == Start(|arr|, i)
  {
    if i == 0 then [] else
      Blocks(arr, i - 1) + Block(arr, Start(|arr|, i - 1))
  }

  lemma {:induction false} BlocksAt(arr: seq<int>, nblk: nat, i: nat, j: nat)
    requires i < nblk && j < |arr|
    ensures Line(|arr|, i, j) < |Blocks(arr, nblk)|
    ensures Blocks(arr, nblk)[Line(|arr|, i, j)] == Start(|arr|, i) + arr[j]
  {
    LineInBlocks(|arr|, nblk, i, j);
    LineInBlocks(|arr|, nblk - 1, i, j);
    if i < nblk - 1 {
      BlocksAt(arr, nblk - 1, i, j);
    }
  }

  lemma BlockPrefix(arr: seq<int>, start: int, j: nat)
    requires j < |arr|
    ensures Block(arr, start)[..j + 1] == Block(arr, start)[..j] + [start + arr[j]]
  {
  }

  // The inner loop: one block is written behind the lines before it; end moves to its terminal line.
  method StampBlock(mem: array<int>, a: array<int>, start: nat, ghost terminal: int, end: int)
    returns (p: nat, end': int)
    requires mem != a && OnlyTerminal(a[..], terminal) && start + a.Length <= mem.Length
    modifies mem
    ensures p == start + a.Length && end' == start + terminal
    ensures mem[..p] == old(mem[..start]) + Block(a[..], start)
    ensures forall l | p <= l < mem.Length :: mem[l] == old(mem[l])
  {
    p, end' := start, end;
    ghost var was, block := mem[..], Block(a[..], start);
    for j := 0 to a.Length
      invariant p == start + j
      invariant j > terminal ==> end' == start + terminal
      invariant mem[..p] == was[..start] + block[..j]
      invariant forall l | p <= l < mem.Length :: mem[l] == was[l]
    {
      if a[j] == a.Length {
        end' := p;
      }
      BlockPrefix(a[..], start, j);
      ghost var written := mem[..p];
      mem[p] := start + a[j];
      p := p + 1;
      assert mem[..p] == written + [start + a[j]];
    }
    assert block[..a.Length] == block;
  }

  method RandBufInit(mem: array<int>, a: array<int>, ghost path: seq<int>)
    requires mem != a && FullPath(a[..], path)
    modifies mem
    ensures Stamped(mem[..], a[..], mem.Length / a.Length)
    ensures forall l | mem.Length / a.Length * a.Length <= l < mem.Length :: mem[l] == old(mem[l])
  {
    var n := a.Length;
    var nblk := mem.Length / n;
    var p: nat, end := 0, -1;
    ghost var arr, was := a[..], mem[..];
    ghost var terminal := path[n - 1];
    OneTerminal(arr, path);
    WholeBlocks(n, mem.Length);
    for i := 0 to nblk
      invariant p == Start(n, i) <= Start(n, nblk) <= mem.Length
      invariant end == if i == 0 then -1 else Start(n, i - 1) + terminal
      invariant mem[..p] == Blocks(arr, i)
      invariant forall l | p <= l < mem.Length :: mem[l] == was[l]
    {
      LineInBlocks(n, nblk, i, 0);
      p, end := StampBlock(mem, a, p, terminal, end);
    }
    ghost var raw := mem[..];
    if end != -1 {
      LineInBlocks(n, nblk, nblk - 1, terminal);
      mem[end] := 0;
    }
    LastBlockClosed(arr, path, raw, nblk, mem[..]);
  }

  lemma WholeBlocks(n: nat, lines: nat)
    requires n > 0
    ensures Start(n, lines / n) == lines / n * n <= lines
  {
    StartValue(n, lines / n);
  }

  lemma OneTerminal(arr: seq<int>, path: seq<int>)
    requires FullPath(arr, path)
    ensures OnlyTerminal(arr, path[|arr| - 1])
  {
    PathIsBijection(arr, path);
  }

  // The line of slot j in block i before the patch.
  ghost predicate RawAt(mem: seq<int>, arr: seq<int>, i: nat, j: nat)
    requires j < |arr|
  {
    Line(|arr|, i, j) < |mem| && mem[Line(|arr|, i, j)] == Start(|arr|, i) + arr[j]
  }

  lemma BlocksAreRaw(raw: seq<int>, arr: seq<int>, nblk: nat, i: nat, j: nat)
    requires Start(|arr|, nblk) <= |raw| && raw[..Start(|arr|, nblk)] == Blocks(arr, nblk)
    requires i < nblk && j < |arr|
    ensures RawAt(raw, arr, i, j)
  {
    BlocksAt(arr, nblk, i, j);
    TakenElement(raw, Start(|arr|, nblk), Blocks(arr, nblk), Line(|arr|, i, j));
  }

  lemma PatchedAt(raw: seq<int>, arr: seq<int>, nblk: nat, terminal: int, i: nat, j: nat)
    requires OnlyTerminal(arr, terminal) && i < nblk && j < |arr| && RawAt(raw, arr, i, j)
    requires Line(|arr|, nblk - 1, terminal) < |raw|
    ensures raw[Line(|arr|, nblk - 1, terminal) := 0][Line(|arr|, i, j)] == StampedLine(arr, nblk, i, j)
  {
    if Line(|arr|, i, j) == Line(|arr|, nblk - 1, terminal) {
      LineIsUnique(|arr|, i, j, nblk - 1, terminal);
    }
  }

  ghost predicate OnlyTerminal(arr: seq<int>, terminal: int) {
    0 <= terminal < |arr| && forall j | 0 <= j < |arr| :: arr[j] == |arr| <==> j == terminal
  }

  // Patching the last terminal line turns the blocks into the ring.
  lemma LastBlockClosed(arr: seq<int>, path: seq<int>, raw: seq<int>, nblk: nat, mem: seq<int>)
    requires FullPath(arr, path) && Start(|arr|, nblk) <= |raw| && raw[..Start(|arr|, nblk)] == Blocks(arr, nblk)
    requires if nblk == 0 then mem == raw
             else Line(|arr|, nblk - 1, path[|arr| - 1]) < |raw|
                  && mem == raw[Line(|arr|, nblk - 1, path[|arr| - 1]) := 0]
    ensures Stamped(mem, arr, nblk)
  {
    OneTerminal(arr, path);
    forall i: nat, j: nat | i < nblk && j < |arr|
      ensures Line(|arr|, i, j) < |mem| && mem[Line(|arr|, i, j)] == StampedLine(arr, nblk, i, j)
    {
      BlocksAreRaw(raw, arr, nblk, i, j);
      PatchedAt(raw, arr, nblk, path[|arr| - 1], i, j);
    }
  }

  lemma TakenElement(s: seq<int>, n: nat, t: seq<int>, l: nat)
    requires n <= |s| && s[..n] == t && l < |t|
    ensures s[l] == t[l]
  {
    assert s[..n][l] == s[l];
  }

  // ----- following the pointers -----

  ghost predicate Closed(mem: seq<int>, m: nat) {
    0 < m <= |mem| && forall l | 0 <= l < m :: 0 <= mem[l] < m
  }

  function Chase(mem: seq<int>, m: nat, k: nat): (r: int)
    requires Closed(mem, m)
    ensures 0 <= r < m
  {
    if k == 0 then 0 else mem[Chase(mem, m, k - 1)]
  }

  ghost predicate Visited(mem: seq<int>, m: nat, l: int)
    requires Closed(mem, m)
  {
    exists k: nat :: k < m && Chase(mem, m, k) == l
  }

  // Following the pointers from the first line comes back after m loads, having met each of the m
  // lines exactly once.
  ghost predicate SingleCycle(mem: seq<int>, m: nat)
    requires Closed(mem, m)
  {
    && Chase(mem, m, m) == 0
    && (forall l | 0 <= l < m :: Visited(mem, m, l))
    && (forall j: nat, k: nat | j < k < m :: Chase(mem, m, j) != Chase(mem, m, k))
  }

  // One load from the j-th slot of the path in block i reaches the next one.
  lemma RingStep(mem: seq<int>, arr: seq<int>, path: seq<int>, nblk: nat, i: nat, j: nat)
    requires FullPath(arr, path) && Stamped(mem, arr, nblk) && i < nblk && j < |arr|
    ensures Line(|arr|, i, path[j]) < |mem|
    ensures mem[Line(|arr|, i, path[j])] ==
            if j + 1 < |arr| then Line(|arr|, i, path[j + 1])
            else if i + 1 < nblk then Line(|arr|, i + 1, path[0])
            else 0
  {
    OneTerminal(arr, path);
    LineInBlocks(|arr|, nblk, i, 0);
    if j + 1 < |arr| {
      assert Link(arr, path, j);
    }
  }

  lemma RingIsClosed(mem: seq<int>, arr: seq<int>, path: seq<int>, nblk: nat, m: nat)
    requires FullPath(arr, path) && Stamped(mem, arr, nblk) && nblk > 0 && m == Start(|arr|, nblk)
    ensures Closed(mem, m)
  {
    var n := |arr|;
    LineInBlocks(n, nblk, 0, 0);
    forall l | 0 <= l < m ensures 0 <= mem[l] < m {
      var i, s := CoordinatesOf(n, l);
      var j := Covers(path, n, s);
      LineInBlocks(n, nblk, i, s);
      RingStep(mem, arr, path, nblk, i, j);
      if j + 1 < n {
        LineInBlocks(n, nblk, i, path[j + 1]);
      } else if i + 1 < nblk {
        LineInBlocks(n, nblk, i + 1, 0);
      }
    }
  }

  // After Line(i, j) loads the chase stands on the j-th slot of the path in block i.
  lemma {:induction false} ChaseAt(mem: seq<int>, arr: seq<int>, path: seq<int>, nblk: nat, m: nat, i: nat, j: nat)
    requires FullPath(arr, path) && Stamped(mem, arr, nblk) && Closed(mem, m)
    requires i < nblk && j < |arr|
    ensures Chase(mem, m, Line(|arr|, i, j)) == Line(|arr|, i, path[j])
    decreases i, j
  {
    var n := |arr|;
    if j > 0 {
      ChaseAt(mem, arr, path, nblk, m, i, j - 1);
      RingStep(mem, arr, path, nblk, i, j - 1);
    } else if i > 0 {
      ChaseAt(mem, arr, path, nblk, m, i - 1, n - 1);
      RingStep(mem, arr, path, nblk, i - 1, n - 1);
    }
  }

  lemma ChaseMeets(mem: seq<int>, arr: seq<int>, path: seq<int>, nblk: nat, m: nat, l: nat)
    requires FullPath(arr, path) && Stamped(mem, arr, nblk) && Closed(mem, m) && m == Start(|arr|, nblk) && l < m
    ensures Visited(mem, m, l)
  {
    var n := |arr|;
    var i, s := CoordinatesOf(n, l);
    var j := Covers(path, n, s);
    LineInBlocks(n, nblk, i, s);
    LineInBlocks(n, nblk, i, j);
    ChaseAt(mem, arr, path, nblk, m, i, j);
    assert Line(n, i, j) < m;
  }

  lemma ChaseDiffers(mem: seq<int>, arr: seq<int>, path: seq<int>, nblk: nat, m: nat, j: nat, k: nat)
    requires FullPath(arr, path) && Stamped(mem, arr, nblk) && Closed(mem, m) && m == Start(|arr|, nblk)
    requires j < k < m
    ensures Chase(mem, m, j) != Chase(mem, m, k)
  {
    var n := |arr|;
    var i1, j1 := CoordinatesOf(n, j);
    var i2, j2 := CoordinatesOf(n, k);
    LineInBlocks(n, nblk, i1, j1);
    LineInBlocks(n, nblk, i2, j2);
    ChaseAt(mem, arr, path, nblk, m, i1, j1);
    ChaseAt(mem, arr, path, nblk, m, i2, j2);
    if Chase(mem, m, j) == Chase(mem, m, k) {
      LineIsUnique(n, i1, path[j1], i2, path[j2]);
    }
  }

  // Whatever the random choices, the stamped buffer is one ring through all its lines.
  lemma OneRing(mem: seq<int>, arr: seq<int>, path: seq<int>, nblk: nat, m: nat)
    requires FullPath(arr, path) && Stamped(mem, arr, nblk) && nblk > 0 && m == Start(|arr|, nblk)
    ensures Closed(mem, m) && SingleCycle(mem, m)
  {
    var n := |arr|;
    RingIsClosed(mem, arr, path, nblk, m);
    ChaseAt(mem, arr, path, nblk, m, nblk - 1, n - 1);
    RingStep(mem, arr, path, nblk, nblk - 1, n - 1);
    LineInBlocks(n, nblk, nblk - 1, 0);
    forall l | 0 <= l < m ensures Visited(mem, m, l) {
      ChaseMeets(mem, arr, path, nblk, m, l);
    }
    forall j: nat, k: nat | j < k < m ensures Chase(mem, m, j) != Chase(mem, m, k) {
      ChaseDiffers(mem, arr, path, nblk, m, j, k);
    }
  }

  // ----- the measured loads -----

  // The lines the first t loads read.
  function Loads(mem: seq<int>, m: nat, t: nat): seq<int>
    requires Closed(mem, m)
  {
    if t == 0 then [] else Loads(mem, m, t - 1) + [Chase(mem, m, t - 1)]
  }

  // A 32-bit count as the loop's unsigned comparison reads it.
  function Unsigned(n: int): nat
    requires -0x8000_0000 <= n < 0x8000_0000
  {
    if n < 0 then n + 0x1_0000_0000 else n
  }

  lemma {:induction false} LoadsCount(mem: seq<int>, m: nat, t: nat)
    requires Closed(mem, m)
    ensures |Loads(mem, m, t)| == t
  {
    if t > 0 {
      LoadsCount(mem, m, t - 1);
    }
  }

  // A counted loop that loads at least once; p ends at the line it would load next.
  method BufRead(mem: array<int>, m: nat, readNum: int) returns (p: int, ghost loads: seq<int>)
    requires Closed(mem[..], m) && -0x8000_0000 <= readNum < 0x8000_0000
    ensures p == Chase(mem[..], m, if readNum == 0 then 1 else Unsigned(readNum))
    ensures loads == Loads(mem[..], m, if readNum == 0 then 1 else Unsigned(readNum))
    ensures |loads| == if readNum > 0 then readNum else if readNum == 0 then 1 else 0x1_0000_0000 + readNum
  {
    p, loads := mem[0], [0];
    var count := 1;
    assert Chase(mem[..], m, 0) == 0;
    assert Loads(mem[..], m, 1) == Loads(mem[..], m, 0) + [0];
    while count < Unsigned(readNum)
      invariant 1 <= count && (count <= Unsigned(readNum) || count == 1)
      invariant p == Chase(mem[..], m, count)
      invariant loads == Loads(mem[..], m, count)
    {
      loads := loads + [p];
      p := mem[p];
      count := count + 1;
    }
    LoadsCount(mem[..], m, count);
  }

  lemma {:induction false} ChaseShifts(mem: seq<int>, m: nat, k: nat)
    requires Closed(mem, m) && Chase(mem, m, m) == 0
    ensures Chase(mem, m, k + m) == Chase(mem, m, k)
  {
    if k > 0 {
      ChaseShifts(mem, m, k - 1);
    }
  }

  // After a whole number of rounds the chase is where it was.
  lemma {:induction false} ChaseRepeats(mem: seq<int>, m: nat, rounds: nat, b: nat)
    requires Closed(mem, m) && Chase(mem, m, m) == 0
    ensures Chase(mem, m, Line(m, rounds, b)) == Chase(mem, m, b)
  {
    if rounds > 0 {
      ChaseRepeats(mem, m, rounds - 1, b);
      ChaseShifts(mem, m, Line(m, rounds - 1, b));
    }
  }

  // How many of the first t loads read line l.
  function Hits(mem: seq<int>, m: nat, t: nat, l: int): nat
    requires Closed(mem, m)
  {
    if t == 0 then 0 else Hits(mem, m, t - 1, l) + (if Chase(mem, m, t - 1) == l then 1 else 0)
  }

  lemma {:induction false} HitsCountLoads(mem: seq<int>, m: nat, t: nat, l: int)
    requires Closed(mem, m)
    ensures multiset(Loads(mem, m, t))[l] == Hits(mem, m, t, l)
  {
    if t > 0 {
      HitsCountLoads(mem, m, t - 1, l);
    }
  }

  lemma {:induction false} HitsInRounds(mem: seq<int>, m: nat, rounds: nat, b: nat, k: nat)
    requires Closed(mem, m) && SingleCycle(mem, m) && k < m && b <= m
    ensures Hits(mem, m, Line(m, rounds, b), Chase(mem, m, k)) == rounds + (if k < b then 1 else 0)
    decreases rounds, b
  {
    if b > 0 {
      HitsInRounds(mem, m, rounds, b - 1, k);
      ChaseRepeats(mem, m, rounds, b - 1);
      ChaseDistinguishes(mem, m, k, b - 1);
    } else if rounds > 0 {
      HitsInRounds(mem, m, rounds - 1, m, k);
    }
  }

  lemma ChaseDistinguishes(mem: seq<int>, m: nat, j: nat, k: nat)
    requires Closed(mem, m) && SingleCycle(mem, m) && j < m && k < m
    ensures Chase(mem, m, j) == Chase(mem, m, k) <==> j == k
  {
  }

  // T loads spread evenly: the line met k steps into the ring is loaded T/m times, and once more if
  // the last incomplete round gets that far.
  lemma {:induction false} LoadsAreEven(mem: seq<int>, m: nat, t: nat, k: nat)
    requires Closed(mem, m) && SingleCycle(mem, m) && k < m
    ensures multiset(Loads(mem, m, t))[Chase(mem, m, k)] == t / m + (if k < t % m then 1 else 0)
  {
    LineOfQuotient(m, t);
    HitsInRounds(mem, m, t / m, t % m, k);
    HitsCountLoads(mem, m, t, Chase(mem, m, k));
  }

  // ----- initialising a buffer -----

  method BufInit(mem: array<int>, a: array<int>, draws: nat -> nat)
    returns (ghost path: seq<int>, ghost at: seq<nat>)
    requires mem != a && a.Length > 0 && Fair(draws, a.Length)
    modifies mem, a
    ensures FullPath(a[..], path) && Drawn(path, draws, a.Length, at)
    ensures Stamped(mem[..], a[..], mem.Length / a.Length)
    ensures mem.Length >= a.Length ==>
              var m := mem.Length / a.Length * a.Length;
              Closed(mem[..], m) && SingleCycle(mem[..], m)
  {
    path, at := RandArrayInit(a, draws);
    RandBufInit(mem, a, path);
    if mem.Length >= a.Length {
      SomeBlock(a.Length, mem.Length);
      WholeBlocks(a.Length, mem.Length);
      OneRing(mem[..], a[..], path, mem.Length / a.Length, mem.Length / a.Length * a.Length);
    }
  }

  lemma SomeBlock(n: nat, lines: nat)
    requires 0 < n <= lines
    ensures lines / n > 0
  {
  }
}
