// The CPU bitmap handed to the hypervisor when a vcpu is pinned.
module ThreadMigrate {

  function Mask(k: nat): bv8
    requires k < 8
  {
    (1 as bv8) << k
  }

  predicate BitSet(b: bv8, k: nat)
    requires k < 8
  {
    b & Mask(k) != 0
  }

  // Setting one bit changes that bit and no other.
  lemma SetOneBit(b: bv8, j: nat, k: nat)
    requires j < 8 && k < 8
    ensures BitSet(b | Mask(j), k) <==> BitSet(b, k) || j == k
  {
    MaskValues();
    MaskCases(b, Mask(j), Mask(k));
  }

  lemma MaskValues()
    ensures Mask(0) == 1 && Mask(1) == 2 && Mask(2) == 4 && Mask(3) == 8
    ensures Mask(4) == 16 && Mask(5) == 32 && Mask(6) == 64 && Mask(7) == 128
  {
  }

  predicate IsMask(m: bv8) {
    m == 1 || m == 2 || m == 4 || m == 8 || m == 16 || m == 32 || m == 64 || m == 128
  }

  lemma MaskCases(b: bv8, m: bv8, w: bv8)
    requires IsMask(m) && IsMask(w)
    ensures (b | m) & w != 0 <==> b & w != 0 || m == w
  {
  }

  // Bit c % 8 of byte c / 8.
  predicate CpuSet(bytes: seq<bv8>, c: nat) {
    c / 8 < |bytes| && BitSet(bytes[c / 8], c % 8)
  }

  class Migrator {
    const cpuNumber: nat
    const cpumaps: array<bv8>

    constructor (cpus: nat)
      ensures cpuNumber == cpus && Valid() && fresh(cpumaps)
    {
      cpuNumber := cpus;
      cpumaps := new bv8[cpus / 8 + 1];
    }

    ghost predicate Valid() {
      cpumaps.Length == cpuNumber / 8 + 1
    }

    // Builds the map and asks for the pin; granted is the hypervisor's answer.
    method PinVcpuTo(targets: seq<nat>, granted: bool) returns (r: int)
      requires forall i | 0 <= i < |targets| :: targets[i] / 8 < cpumaps.Length
      modifies cpumaps
      ensures forall c: nat :: CpuSet(cpumaps[..], c) <==> c in targets
      ensures r == if granted then 0 else -1
    {
      for i := 0 to cpumaps.Length
        invariant forall j | 0 <= j < i :: cpumaps[j] == 0
      {
        cpumaps[i] := 0;
      }
      for i := 0 to |targets|
        invariant forall c: nat :: CpuSet(cpumaps[..], c) <==> c in targets[..i]
      {
        var node := targets[i];
        ghost var before := cpumaps[..];
        cpumaps[node / 8] := cpumaps[node / 8] | Mask(node % 8);
        forall c: nat ensures CpuSet(cpumaps[..], c) <==> c in targets[..i + 1] {
          SetOneCpu(before, node, c);
          assert cpumaps[..] == before[node / 8 := before[node / 8] | Mask(node % 8)];
        }
      }
      assert targets[..|targets|] == targets;
      r := if granted then 0 else -1;
    }
  }

  lemma SetOneCpu(bytes: seq<bv8>, node: nat, c: nat)
    requires node / 8 < |bytes|
    ensures CpuSet(bytes[node / 8 := bytes[node / 8] | Mask(node % 8)], c) <==> CpuSet(bytes, c) || c == node
  {
    if c / 8 == node / 8 {
      SetOneBit(bytes[node / 8], node % 8, c % 8);
    }
  }
}
