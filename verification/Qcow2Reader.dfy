/** Reading a qcow2 image (diskimage/reader.go), and what it finds in a finished one. */
module Qcow2Reader {
  import opened Bytes
  import opened Options
  import opened ImageFiles
  import opened Qcow2Writer
  import opened Qcow2Finish

  // ReadAt: n bytes from off on, if they are all there.
  function ReadFile(f: seq<byte>, off: nat, n: nat): (r: Option<seq<byte>>)
    ensures r.Some? <==> off + n <= |f|
    ensures r.Some? ==> r.value == f[off..off + n]
  {
    if off + n <= |f| then Some(f[off..off + n]) else None
  }

  function U32(s: seq<byte>, off: nat): nat
    requires off + 4 <= |s|
  {
    FromBE(s[off..off + 4])
  }

  function U64(s: seq<byte>, off: nat): nat
    requires off + 8 <= |s|
  {
    FromBE(s[off..off + 8])
  }

  function U16(s: seq<byte>, off: nat): nat
    requires off + 2 <= |s|
  {
    FromBE(s[off..off + 2])
  }

  // ---- Opening ----

  // l1: the L1 table; refcounts: those that are not zero.
  datatype Reader = Reader(file: seq<byte>, size: nat, l1: seq<nat>, refcounts: map<nat, nat>)

  // The header names an image this reader can read: version 3 without backing file,
  // encryption or unknown features, 64 KiB clusters, 16-bit refcounts.
  predicate Supported(h: seq<byte>)
    requires |h| == 104
  {
    && U32(h, 0) == 0x514649fb && U32(h, 4) == 3 && U64(h, 8) == 0 && U32(h, 16) == 0 && U32(h, 20) == 16
    && U32(h, 32) == 0 && U64(h, 72) == 0 && U32(h, 96) == 4 && U64(h, 48) != 0 && U32(h, 56) != 0
  }

  // How many L1 entries a disk of the size needs.
  function L1Needed(size: nat): nat {
    CeilDiv(size, CLUSTER * L2_ENTRIES)
  }

  method DecodeTable(b: seq<byte>) returns (es: seq<nat>)
    ensures |es| == |b| / 8 && forall i :: 0 <= i < |es| ==> es[i] == FromBE(Slot(b, i))
  {
    es := [];
    var i := 0;
    while i < |b| / 8
      invariant 0 <= i <= |b| / 8 && |es| == i && forall j :: 0 <= j < i ==> es[j] == FromBE(Slot(b, j))
    {
      es := es + [U64(b, i * 8)];
      i := i + 1;
    }
  }

  // The refcount of cluster c, from the table rt of blocks; None: a block cannot be
  // read.
  ghost function RefOf(f: seq<byte>, rt: seq<byte>, c: nat): Option<nat> {
    var i, k := c / REFS_PER_BLOCK, c % REFS_PER_BLOCK;
    if i * 8 + 8 > |rt| then Some(0)
    else
      var at := FromBE(Slot(rt, i));
      if at == 0 then Some(0)
      else if at + CLUSTER > |f| then None
      else Some(FromBE(Ref(f[at..at + CLUSTER], k)))
  }

  // m holds the refcounts below c that are not zero.
  ghost predicate RefsBelow(f: seq<byte>, rt: seq<byte>, c: nat, m: map<nat, nat>) {
    && (forall d :: 0 <= d < c ==> RefOf(f, rt, d) == Some(if d in m then m[d] else 0))
    && (forall d :: d in m ==> d < c && m[d] != 0)
  }

  method ReadBlock(f: seq<byte>, rt: seq<byte>, i: nat, blk: seq<byte>, m0: map<nat, nat>) returns (m: map<nat, nat>)
    requires i * 8 + 8 <= |rt| && RefsBelow(f, rt, i * REFS_PER_BLOCK, m0)
    requires var at := FromBE(Slot(rt, i)); at != 0 && at + CLUSTER <= |f| && blk == f[at..at + CLUSTER]
    ensures RefsBelow(f, rt, (i + 1) * REFS_PER_BLOCK, m)
  {
    hide FromBE;
    m := m0;
    var j := 0;
    while j < REFS_PER_BLOCK
      invariant 0 <= j <= REFS_PER_BLOCK && RefsBelow(f, rt, i * REFS_PER_BLOCK + j, m)
    {
      var c, n := i * REFS_PER_BLOCK + j, U16(blk, j * 2);
      assert c / REFS_PER_BLOCK == i && c % REFS_PER_BLOCK == j;
      assert RefOf(f, rt, c) == Some(n);
      if n != 0 {
        m := m[c := n];
      }
      j := j + 1;
    }
  }

  method ReadRefcounts(f: seq<byte>, rt: seq<byte>) returns (res: Option<map<nat, nat>>)
    ensures res.Some? ==> RefsBelow(f, rt, |rt| / 8 * REFS_PER_BLOCK, res.value)
    ensures res.None? ==> MissingBlock(f, rt)
  {
    hide FromBE, RefsBelow, RefOf, MissingBlock, Slot;
    var m := map[];
    var i := 0;
    NoRefsYet(f, rt);
    while i < |rt| / 8
      invariant 0 <= i <= |rt| / 8 && RefsBelow(f, rt, i * REFS_PER_BLOCK, m)
    {
      var at := U64(rt, i * 8);
      EntryHere(rt, i);
      if at != 0 {
        var blk := ReadFile(f, at, CLUSTER);
        if blk.None? {
          BlockMissing(f, rt, i);
          return None;
        }
        m := ReadBlock(f, rt, i, blk.value, m);
      } else {
        NoBlock(f, rt, i, m);
      }
      i := i + 1;
    }
    return Some(m);
  }

  lemma NoRefsYet(f: seq<byte>, rt: seq<byte>)
    ensures RefsBelow(f, rt, 0, map[])
  {
  }

  lemma EntryHere(rt: seq<byte>, i: nat)
    requires i * 8 + 8 <= |rt|
    ensures U64(rt, i * 8) == FromBE(Slot(rt, i))
  {
  }

  lemma BlockMissing(f: seq<byte>, rt: seq<byte>, i: nat)
    requires i * 8 + 8 <= |rt| && FromBE(Slot(rt, i)) != 0 && FromBE(Slot(rt, i)) + CLUSTER > |f|
    ensures MissingBlock(f, rt)
  {
    hide FromBE;
    assert (i * REFS_PER_BLOCK) / REFS_PER_BLOCK == i;
    assert RefOf(f, rt, i * REFS_PER_BLOCK).None?;
  }

  lemma NoBlock(f: seq<byte>, rt: seq<byte>, i: nat, m: map<nat, nat>)
    requires i * 8 + 8 <= |rt| && FromBE(Slot(rt, i)) == 0 && RefsBelow(f, rt, i * REFS_PER_BLOCK, m)
    ensures RefsBelow(f, rt, (i + 1) * REFS_PER_BLOCK, m)
  {
    hide FromBE;
    forall d | i * REFS_PER_BLOCK <= d < (i + 1) * REFS_PER_BLOCK ensures RefOf(f, rt, d) == Some(0) {
      assert d / REFS_PER_BLOCK == i;
    }
  }

  ghost predicate ReadsL1(f: seq<byte>, l1: seq<nat>)
    requires |f| >= 104
  {
    var n, off := U32(f, 36), U64(f, 40);
    && off + n * 8 <= |f| && |l1| == n
    && forall i :: 0 <= i < n ==> l1[i] == FromBE(Slot(f[off..off + n * 8], i))
  }

  function TableBytes(f: seq<byte>): nat
    requires |f| >= 104
  {
    U32(f, 56) * CLUSTER
  }

  ghost predicate ReadsRefs(f: seq<byte>, refs: map<nat, nat>)
    requires |f| >= 104
  {
    var off, n := U64(f, 48), TableBytes(f);
    off + n <= |f| && RefsBelow(f, f[off..off + n], n / 8 * REFS_PER_BLOCK, refs)
  }

  // What opening f comes to: the header's fields, the L1 table, the refcounts.
  ghost predicate Opens(f: seq<byte>, r: Reader) {
    && |f| >= 104 && Supported(f[..104]) && |f| % CLUSTER == 0
    && r.file == f && r.size == U64(f, 24) && U32(f, 36) >= L1Needed(r.size)
    && ReadsL1(f, r.l1) && ReadsRefs(f, r.refcounts)
  }

  ghost predicate MissingBlock(f: seq<byte>, rt: seq<byte>) {
    exists c :: 0 <= c < |rt| / 8 * REFS_PER_BLOCK && RefOf(f, rt, c).None?
  }

  // Something an image must have is missing or unreadable.
  ghost predicate Unreadable(f: seq<byte>) {
    || |f| < 104 || !Supported(f[..104]) || |f| % CLUSTER != 0
    || U32(f, 36) < L1Needed(U64(f, 24)) || U64(f, 40) + U32(f, 36) * 8 > |f|
    || U64(f, 48) + TableBytes(f) > |f|
    || MissingBlock(f, f[U64(f, 48)..U64(f, 48) + TableBytes(f)])
  }

  lemma HeadFields(f: seq<byte>)
    requires |f| >= 104
    ensures var h := f[..104];
            && U64(h, 24) == U64(f, 24) && U32(h, 36) == U32(f, 36) && U64(h, 40) == U64(f, 40)
            && U64(h, 48) == U64(f, 48) && U32(h, 56) == U32(f, 56)
  {
    hide FromBE;
    var h := f[..104];
    assert h[24..32] == f[24..32] && h[36..40] == f[36..40] && h[40..48] == f[40..48];
    assert h[48..56] == f[48..56] && h[56..60] == f[56..60];
  }

  method Open(f: seq<byte>) returns (res: Option<Reader>)
    ensures res.Some? ==> Opens(f, res.value)
    ensures res.None? ==> Unreadable(f)
  {
    hide FromBE, RefsBelow, RefOf, Supported, MissingBlock;
    var h := ReadFile(f, 0, 104);
    if h.None? {
      return None;
    }
    assert h.value == f[..104];
    HeadFields(f);
    if !Supported(h.value) || |f| % CLUSTER != 0 {
      return None;
    }
    var size, l1Size, l1Off := U64(h.value, 24), U32(h.value, 36), U64(h.value, 40);
    if l1Size < L1Needed(size) {
      return None;
    }
    var l1b := ReadFile(f, l1Off, l1Size * 8);
    if l1b.None? {
      return None;
    }
    var l1 := DecodeTable(l1b.value);
    var rt := ReadFile(f, U64(h.value, 48), U32(h.value, 56) * CLUSTER);
    if rt.None? {
      return None;
    }
    var refs := ReadRefcounts(f, rt.value);
    if refs.None? {
      return None;
    }
    return Some(Reader(f, size, l1, refs.value));
  }

  // ---- Reading ----

  // An entry without its copied flag.
  function WithoutFlag(e: nat): nat {
    if e % 0x1_0000_0000_0000_0000 >= COPIED then e - COPIED else e
  }

  // The bits of an L2 entry that are an offset.
  function OffsetBits(e: nat): nat {
    e % 0x100_0000_0000_0000 / 512 * 512
  }

  // Bits 9 to 55.
  lemma OffsetMask(high: nat, k: nat, low: nat)
    requires k < 0x8000_0000_0000 && low < 512
    ensures OffsetBits(high * 0x100_0000_0000_0000 + k * 512 + low) == k * 512
  {
    var x := k * 512 + low;
    Remainder(high, x);
  }

  lemma Remainder(high: nat, x: nat)
    requires x < 0x100_0000_0000_0000
    ensures (high * 0x100_0000_0000_0000 + x) % 0x100_0000_0000_0000 == x
  {
  }

  // The file offset of a guest cluster, 0 if it has none; None: the entry is not one
  // this reader accepts.
  function DataCluster(r: Reader, guest: nat): Option<nat>
    requires High(guest) < |r.l1|
  {
    var l1e := r.l1[High(guest)];
    if WithoutFlag(l1e) == 0 then Some(0)
    else if l1e < COPIED || WithoutFlag(l1e) + Low(guest) * 8 + 8 > |r.file| then None
    else
      var l2e := U64(r.file, WithoutFlag(l1e) + Low(guest) * 8);
      if l2e == 0 then Some(0)
      else if l2e % 2 != 0 || l2e / 0x4000_0000_0000_0000 % 2 != 0 || l2e < COPIED then None
      else if OffsetBits(l2e) % CLUSTER != 0 then None
      else Some(OffsetBits(l2e))
  }

  // Byte y of the virtual disk.
  function DiskByte(r: Reader, y: nat): Option<byte>
    requires High(ClusterOf(y)) < |r.l1|
  {
    var at := DataCluster(r, ClusterOf(y));
    if at.None? then None
    else if at.value == 0 then Some(0)
    else if at.value + Within(y) < |r.file| then Some(r.file[at.value + Within(y)])
    else None
  }

  ghost predicate Covered(r: Reader) {
    forall y :: 0 <= y < r.size ==> High(ClusterOf(y)) < |r.l1|
  }

  method ReadAt(r: Reader, off: nat, n: nat) returns (p: Option<seq<byte>>)
    requires Covered(r) && off + n <= r.size
    ensures p.Some? ==> |p.value| == n && forall y :: off <= y < off + n ==> DiskByte(r, y) == Some(p.value[y - off])
    ensures p.None? ==> exists y :: off <= y < off + n && DiskByte(r, y).None?
  {
    hide DataCluster, High, ClusterOf;
    var out: seq<byte> := [];
    while |out| < n
      invariant |out| <= n && forall y :: off <= y < off + |out| ==> DiskByte(r, y) == Some(out[y - off])
    {
      var cur, left := off + |out|, n - |out|;
      assert High(ClusterOf(cur)) < |r.l1|;
      var m := if Within(cur) + left > CLUSTER then CLUSTER - Within(cur) else left;
      var at := DataCluster(r, ClusterOf(cur));
      SameCluster(cur, m);
      if at.None? {
        assert DiskByte(r, cur).None?;
        return None;
      }
      if at.value == 0 {
        out := out + Zeros(m);
      } else {
        var b := ReadFile(r.file, at.value + Within(cur), m);
        if b.None? {
          assert DiskByte(r, cur + m - 1).None?;
          return None;
        }
        out := out + b.value;
      }
    }
    return Some(out);
  }

  lemma SameCluster(y: nat, m: nat)
    requires Within(y) + m <= CLUSTER
    ensures forall z :: y <= z < y + m ==> ClusterOf(z) == ClusterOf(y) && Within(z) == Within(y) + z - y
  {
  }

  // ---- A finished image's header ----

  lemma HeaderSlices(size: nat, l1Size: nat, tableOffset: nat, tableClusters: nat)
    ensures var h := HeaderBytes(size, l1Size, tableOffset, tableClusters);
            && h[0..4] == BE(0x514649fb, 4) && h[4..8] == BE(3, 4) && h[8..20] == Zeros(12) && h[20..24] == BE(16, 4)
            && h[24..32] == BE(size, 8) && h[32..36] == Zeros(4) && h[36..40] == BE(l1Size, 4)
            && h[40..48] == BE(CLUSTER, 8) && h[48..56] == BE(tableOffset, 8) && h[56..60] == BE(tableClusters, 4)
            && h[60..96] == Zeros(36) && h[96..100] == BE(4, 4)
  {
    hide BE, Zeros, Flat, Start;
    var fs := HeaderFields(size, l1Size, tableOffset, tableClusters);
    HeaderStarts(size, l1Size, tableOffset, tableClusters);
    ZeroStart(fs);
    forall i | 0 <= i < 12 ensures Start(fs, i) + |fs[i]| <= |Flat(fs)| &&
                                   Flat(fs)[Start(fs, i)..Start(fs, i) + |fs[i]|] == fs[i] {
      FlatAt(fs, i);
    }
    ZerosLength();
  }

  lemma ZeroStart(fs: seq<seq<byte>>)
    ensures Start(fs, 0) == 0
  {
  }

  lemma ZerosLength()
    ensures |Zeros(4)| == 4 && |Zeros(12)| == 12 && |Zeros(36)| == 36
  {
  }
}
