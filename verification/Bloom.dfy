/** The Bloom filter of core/index/bloom.go, one bit a position. */
module Bloom {
  const NUM_HASH: nat := 7

  function Mix64(x0: bv64): bv64 {
    var x1 := (x0 ^ (x0 >> 30)) * 0xbf58476d1ce4e5b9;
    var x2 := (x1 ^ (x1 >> 27)) * 0x94d049bb133111eb;
    x2 ^ (x2 >> 31)
  }

  // Enhanced double hashing in wrapping 64-bit arithmetic.
  function HashPosition(weak: bv64, i: nat, numBits: nat): (pos: nat)
    requires i < NUM_HASH && numBits > 0
    ensures pos < numBits
  {
    var k := i as bv64;
    ((weak + k * Mix64(weak) + k * k) as nat) % numBits
  }

  // Two values of the mixing function and of the positions.
  lemma MixedValues()
    ensures Mix64(0) == 0 && Mix64(1) == 0x5692161d100b05e5
    ensures HashPosition(1, 0, 1000) == 1 && HashPosition(1, 3, 1000) == 761
  {
    assert (1 as bv64) + 3 * Mix64(1) + 3 * 3 == 0x3b64257302111b9;
    assert (0x3b64257302111b9 as bv64) as nat == 0x3b64257302111b9;
  }

  // Every bit of weak is set.
  ghost predicate Has(bits: seq<bool>, weak: bv64) {
    |bits| > 0 && forall i :: 0 <= i < NUM_HASH ==> bits[HashPosition(weak, i, |bits|)]
  }

  // a's bits are all set in b.
  ghost predicate Within(a: seq<bool>, b: seq<bool>) {
    |a| == |b| && forall p :: 0 <= p < |a| && a[p] ==> b[p]
  }

  // b is a with exactly weak's bits added.
  ghost predicate Marked(a: seq<bool>, b: seq<bool>, weak: bv64, upto: nat)
    requires upto <= NUM_HASH
  {
    && 0 < |a| == |b|
    && forall p :: 0 <= p < |a| ==> (b[p] <==> a[p] || exists i :: 0 <= i < upto && HashPosition(weak, i, |a|) == p)
  }

  lemma StillHas(a: seq<bool>, b: seq<bool>, weak: bv64)
    requires Within(a, b) && Has(a, weak)
    ensures Has(b, weak)
  {
    hide HashPosition;
  }

  class BloomFilter {
    var bits: seq<bool>
    var count: nat

    ghost predicate Valid()
      reads this
    {
      |bits| > 0 && |bits| % 64 == 0
    }

    constructor (initial: seq<bool>, items: nat)
      requires |initial| > 0 && |initial| % 64 == 0
      ensures Valid() && bits == initial && count == items
    {
      bits, count := initial, items;
    }

    method Add(weak: bv64)
      requires Valid()
      modifies this
      ensures Valid() && Marked(old(bits), bits, weak, NUM_HASH)
      ensures Within(old(bits), bits) && Has(bits, weak)
      ensures count == old(count) + 1
    {
      hide HashPosition;
      var i := 0;
      while i < NUM_HASH
        invariant 0 <= i <= NUM_HASH
        invariant Valid() && Marked(old(bits), bits, weak, i) && count == old(count)
      {
        var pos := HashPosition(weak, i, |bits|);
        bits := bits[pos := true];
        i := i + 1;
      }
      count := count + 1;
    }

    method MayContain(weak: bv64) returns (r: bool)
      requires Valid()
      ensures r <==> Has(bits, weak)
    {
      hide HashPosition;
      var i := 0;
      while i < NUM_HASH
        invariant 0 <= i <= NUM_HASH
        invariant forall j :: 0 <= j < i ==> bits[HashPosition(weak, j, |bits|)]
      {
        if !bits[HashPosition(weak, i, |bits|)] {
          return false;
        }
        i := i + 1;
      }
      return true;
    }
  }
}
