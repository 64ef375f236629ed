/** Bytes, and numbers written in them. */
module Bytes {
  type byte = b: nat | b < 256

  function Pow256(n: nat): nat {
    if n == 0 then 1 else 256 * Pow256(n - 1)
  }

  // The low n bytes of x, least significant first.
  function LE(x: nat, n: nat): (s: seq<byte>)
    ensures |s| == n
  {
    if n == 0 then [] else [x % 256] + LE(x / 256, n - 1)
  }

  function FromLE(s: seq<byte>): nat {
    if s == [] then 0 else s[0] + 256 * FromLE(s[1..])
  }

  // Most significant first.
  function BE(x: nat, n: nat): (s: seq<byte>)
    ensures |s| == n
  {
    if n == 0 then [] else BE(x / 256, n - 1) + [x % 256]
  }

  function FromBE(s: seq<byte>): nat {
    if s == [] then 0 else 256 * FromBE(s[..|s| - 1]) + s[|s| - 1]
  }

  lemma {:induction false} LERoundTrip(x: nat, n: nat)
    requires x < Pow256(n)
    ensures FromLE(LE(x, n)) == x
  {
    if n > 0 {
      LERoundTrip(x / 256, n - 1);
    }
  }

  lemma {:induction false} BERoundTrip(x: nat, n: nat)
    requires x < Pow256(n)
    ensures FromBE(BE(x, n)) == x
  {
    if n > 0 {
      BERoundTrip(x / 256, n - 1);
    }
  }

  lemma {:induction false} LEFits(s: seq<byte>)
    ensures FromLE(s) < Pow256(|s|)
  {
    if s != [] {
      LEFits(s[1..]);
    }
  }

  lemma Widths()
    ensures Pow256(2) == 0x1_0000 && Pow256(4) == 0x1_0000_0000 && Pow256(8) == 0x1_0000_0000_0000_0000
  {
    assert Pow256(1) == 256 && Pow256(3) == 0x100_0000 && Pow256(5) == 0x100_0000_0000;
    assert Pow256(6) == 0x1_0000_0000_0000 && Pow256(7) == 0x100_0000_0000_0000;
  }

  // s with b written over it from off on.
  function Splice(s: seq<byte>, off: nat, b: seq<byte>): (t: seq<byte>)
    requires off + |b| <= |s|
    ensures |t| == |s|
  {
    s[..off] + b + s[off + |b|..]
  }

  lemma SpliceInside(s: seq<byte>, off: nat, b: seq<byte>)
    requires off + |b| <= |s|
    ensures Splice(s, off, b)[off..off + |b|] == b
  {
  }

  // What is read beside the written part is what was there.
  lemma SpliceBeside(s: seq<byte>, off: nat, b: seq<byte>, lo: nat, hi: nat)
    requires off + |b| <= |s| && lo <= hi <= |s| && (hi <= off || off + |b| <= lo)
    ensures Splice(s, off, b)[lo..hi] == s[lo..hi]
  {
  }

  // Writing within a part of s writes within that part.
  lemma SpliceWithin(s: seq<byte>, off: nat, b: seq<byte>, lo: nat, hi: nat)
    requires lo <= off && off + |b| <= hi <= |s|
    ensures Splice(s, off, b)[lo..hi] == Splice(s[lo..hi], off - lo, b)
  {
  }

  // ---- Records laid out field after field ----

  function Flat(fields: seq<seq<byte>>): seq<byte> {
    if fields == [] then [] else Flat(fields[..|fields| - 1]) + fields[|fields| - 1]
  }

  // Where field i begins.
  function Start(fields: seq<seq<byte>>, i: nat): nat
    requires i <= |fields|
  {
    if i == 0 then 0 else Start(fields, i - 1) + |fields[i - 1]|
  }

  lemma {:induction false} StartFront(fields: seq<seq<byte>>, n: nat, i: nat)
    requires i <= n <= |fields|
    ensures Start(fields[..n], i) == Start(fields, i)
  {
    if i > 0 {
      StartFront(fields, n, i - 1);
    }
  }

  lemma {:induction false} FlatLength(fields: seq<seq<byte>>)
    ensures |Flat(fields)| == Start(fields, |fields|)
  {
    if fields != [] {
      FlatLength(fields[..|fields| - 1]);
      StartFront(fields, |fields| - 1, |fields| - 1);
    }
  }

  // Field i can be read back from where it begins.
  lemma {:induction false} FlatAt(fields: seq<seq<byte>>, i: nat)
    requires i < |fields|
    ensures Start(fields, i) + |fields[i]| <= |Flat(fields)|
    ensures Flat(fields)[Start(fields, i)..Start(fields, i) + |fields[i]|] == fields[i]
  {
    var front, last := fields[..|fields| - 1], fields[|fields| - 1];
    FlatLength(front);
    StartFront(fields, |fields| - 1, |fields| - 1);
    if i < |fields| - 1 {
      FlatAt(front, i);
      StartFront(fields, |fields| - 1, i);
    }
  }
}
