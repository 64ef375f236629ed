/** What the reader finds in an image the writer finished. */
module Qcow2Image {
  import opened Bytes
  import opened Options
  import opened ImageFiles
  import opened Qcow2Writer
  import opened Qcow2Finish
  import opened Qcow2Reader

  const OFFSET_LIMIT := 0x100_0000_0000_0000

  // Numbers that fit the fields they are written to.
  ghost predicate Fits(f: seq<byte>, size: nat, t: Tables, tableClusters: nat) {
    |f| <= OFFSET_LIMIT && size < Pow256(8) && |t.l1| < Pow256(4) && tableClusters < Pow256(4)
  }

  // An offset survives in an L2 entry exactly when it is below 2^56.
  lemma OffsetReadable(c: nat)
    requires c * CLUSTER < COPIED
    ensures OffsetBits(Entry(c)) == c * CLUSTER <==> c * CLUSTER < OFFSET_LIMIT
  {
    hide OffsetBits;
    var d, r := c / 0x100_0000_0000, c % 0x100_0000_0000;
    assert c == d * 0x100_0000_0000 + r;
    OffsetOf(d + 128, r);
  }

  lemma OffsetOf(d: nat, r: nat)
    requires r < 0x100_0000_0000
    ensures OffsetBits(d * OFFSET_LIMIT + r * CLUSTER) == r * CLUSTER
  {
    Remainder(d, r * CLUSTER);
    Halves(r * 128);
  }

  lemma Halves(k: nat)
    ensures k * 512 / 512 * 512 == k * 512
  {
  }

  lemma Remainder(d: nat, x: nat)
    requires x < OFFSET_LIMIT
    ensures (d * OFFSET_LIMIT + x) % OFFSET_LIMIT == x
  {
  }

  lemma EntryRead(c: nat)
    requires c > 0 && c * CLUSTER < OFFSET_LIMIT
    ensures var e := Entry(c);
            && e < Pow256(8) && e >= COPIED && WithoutFlag(e) == c * CLUSTER != 0
            && e % 2 == 0 && e / 0x4000_0000_0000_0000 % 2 == 0
            && OffsetBits(e) == c * CLUSTER && OffsetBits(e) % CLUSTER == 0
  {
    hide OffsetBits, Pow256, WithoutFlag;
    Widths();
    OffsetReadable(c);
    FlagBits(c * 32768);
    Flagged(c * CLUSTER);
    Aligned(c);
  }

  lemma FlagBits(k: nat)
    requires k * 2 < OFFSET_LIMIT
    ensures (k * 2 + COPIED) % 2 == 0 && (k * 2 + COPIED) / 0x4000_0000_0000_0000 % 2 == 0
  {
    assert (k * 2 + COPIED) / 0x4000_0000_0000_0000 == 2;
  }

  lemma Flagged(x: nat)
    requires x < OFFSET_LIMIT
    ensures WithoutFlag(x + COPIED) == x
  {
  }

  lemma Aligned(c: nat)
    ensures c * CLUSTER % CLUSTER == 0
  {
  }

  // ---- The header ----

  lemma {:induction false} ZeroFrom(n: nat)
    ensures FromBE(Zeros(n)) == 0
  {
    if n > 0 {
      ZeroFrom(n - 1);
      assert Zeros(n)[..n - 1] == Zeros(n - 1);
    }
  }

  lemma ZerosPart(n: nat, lo: nat, hi: nat)
    requires lo <= hi <= n
    ensures Zeros(n)[lo..hi] == Zeros(hi - lo)
  {
  }

  lemma SubPart(s: seq<byte>, a: nat, b: nat, lo: nat, hi: nat)
    requires a <= b <= |s| && lo <= hi <= b - a
    ensures s[a..b][lo..hi] == s[a + lo..a + hi]
  {
    forall i | 0 <= i < hi - lo ensures s[a..b][lo..hi][i] == s[a + lo..a + hi][i] {}
  }

  lemma ReadBack(x: nat, n: nat, s: seq<byte>)
    requires x < Pow256(n) && s == BE(x, n)
    ensures FromBE(s) == x
  {
    BERoundTrip(x, n);
  }

  lemma HeaderRead(f: seq<byte>, size: nat, l1Size: nat, tableOffset: nat, tableClusters: nat)
    requires |f| >= CLUSTER && f[..CLUSTER] == HeaderBytes(size, l1Size, tableOffset, tableClusters)
    requires size < Pow256(8) && l1Size < Pow256(4) && 0 < tableOffset < Pow256(8) && 0 < tableClusters < Pow256(4)
    ensures Supported(f[..104]) && U64(f, 24) == size && U32(f, 36) == l1Size && U64(f, 40) == CLUSTER
    ensures U64(f, 48) == tableOffset && U32(f, 56) == tableClusters
  {
    hide BE, FromBE, Pow256, HeaderBytes, Zeros;
    var h := HeaderBytes(size, l1Size, tableOffset, tableClusters);
    HeaderSlices(size, l1Size, tableOffset, tableClusters);
    Widths();
    ReadBack(0x514649fb, 4, h[0..4]);
    ReadBack(3, 4, h[4..8]);
    ReadBack(16, 4, h[20..24]);
    ReadBack(size, 8, h[24..32]);
    ReadBack(l1Size, 4, h[36..40]);
    ReadBack(CLUSTER, 8, h[40..48]);
    ReadBack(tableOffset, 8, h[48..56]);
    ReadBack(tableClusters, 4, h[56..60]);
    ReadBack(4, 4, h[96..100]);
    ZeroFields(h);
    SameHead(f, h);
  }

  lemma ZeroFields(h: seq<byte>)
    requires |h| == CLUSTER && h[8..20] == Zeros(12) && h[32..36] == Zeros(4) && h[60..96] == Zeros(36)
    ensures FromBE(h[8..16]) == 0 && FromBE(h[16..20]) == 0 && FromBE(h[32..36]) == 0 && FromBE(h[72..80]) == 0
  {
    hide FromBE, Zeros;
    SubPart(h, 8, 20, 0, 8);
    SubPart(h, 8, 20, 8, 12);
    SubPart(h, 60, 96, 12, 20);
    ZerosPart(12, 0, 8);
    ZerosPart(12, 8, 12);
    ZerosPart(36, 12, 20);
    ZeroFrom(8);
    ZeroFrom(4);
  }

  lemma HeadPart(f: seq<byte>, n: nat, lo: nat, hi: nat)
    requires lo <= hi <= n <= |f|
    ensures f[..n][lo..hi] == f[lo..hi]
  {
  }

  lemma SameHead(f: seq<byte>, h: seq<byte>)
    requires |f| >= CLUSTER == |h| && f[..CLUSTER] == h
    requires FromBE(h[0..4]) == 0x514649fb && FromBE(h[4..8]) == 3 && FromBE(h[8..16]) == 0 && FromBE(h[16..20]) == 0
    requires FromBE(h[20..24]) == 16 && FromBE(h[32..36]) == 0 && FromBE(h[72..80]) == 0 && FromBE(h[96..100]) == 4
    requires FromBE(h[48..56]) != 0 && FromBE(h[56..60]) != 0
    ensures Supported(f[..104])
    ensures f[24..32] == h[24..32] && f[36..40] == h[36..40] && f[40..48] == h[40..48] && f[48..56] == h[48..56]
    ensures f[56..60] == h[56..60]
  {
    hide FromBE;
    var g := f[..104];
    forall lo, hi | 0 <= lo <= hi <= 104 ensures g[lo..hi] == f[lo..hi] == h[lo..hi] {
      HeadPart(f, 104, lo, hi);
      HeadPart(f, CLUSTER, lo, hi);
    }
  }

  // ---- The tables ----

  lemma SlotInFile(f: seq<byte>, off: nat, n: nat, k: nat)
    requires off + n <= |f| && k * 8 + 8 <= n
    ensures Slot(f[off..off + n], k) == FileSlot(f, off, k)
  {
    SubPart(f, off, off + n, k * 8, k * 8 + 8);
    PieceInside(f, off + k * 8, 8);
  }

  lemma RefInFile(f: seq<byte>, at: nat, k: nat)
    requires at + CLUSTER <= |f| && k < REFS_PER_BLOCK
    ensures Ref(f[at..at + CLUSTER], k) == Piece(f, at + k * 2, 2)
  {
    SubPart(f, at, at + CLUSTER, k * 2, k * 2 + 2);
    PieceInside(f, at + k * 2, 2);
  }

  lemma L1Read(f: seq<byte>, n: nat, off: nat, l1: seq<nat>, entries: nat)
    requires HasTable(f, off, entries, l1) && |l1| == n <= entries && off + n * 8 <= |f|
    requires forall i :: 0 <= i < n ==> l1[i] < Pow256(8)
    ensures forall i :: 0 <= i < n ==> FromBE(Slot(f[off..off + n * 8], i)) == l1[i]
  {
    hide BE, FromBE, Pow256, Slot, FileSlot;
    forall i | 0 <= i < n ensures FromBE(Slot(f[off..off + n * 8], i)) == l1[i] {
      SlotInFile(f, off, n * 8, i);
      assert FileSlot(f, off, i) == BE(OrZero(l1, i), 8);
      ReadBack(l1[i], 8, FileSlot(f, off, i));
    }
  }

  // Where the refcount structures of a finished image are.
  ghost predicate HasRefcounts(f: seq<byte>, n: nat, tableClusters: nat, blocks: nat) {
    var total := n + tableClusters + blocks;
    && HasTable(f, n * CLUSTER, tableClusters * L2_ENTRIES, BlockOffsets(n + tableClusters, blocks))
    && HasRefs(f, (n + tableClusters) * CLUSTER, blocks * REFS_PER_BLOCK, total)
    && |f| == total * CLUSTER <= OFFSET_LIMIT
    && total <= blocks * REFS_PER_BLOCK && blocks <= tableClusters * L2_ENTRIES
  }

  lemma BlockEntry(f: seq<byte>, n: nat, tableClusters: nat, blocks: nat, i: nat)
    requires HasRefcounts(f, n, tableClusters, blocks) && i < tableClusters * L2_ENTRIES
    ensures var rt := f[n * CLUSTER..n * CLUSTER + tableClusters * CLUSTER];
            && i * 8 + 8 <= |rt|
            && FromBE(Slot(rt, i)) == if i < blocks then (n + tableClusters + i) * CLUSTER else 0
  {
    hide BE, FromBE, Pow256, Slot, FileSlot, HasRefs;
    var offsets := BlockOffsets(n + tableClusters, blocks);
    SlotInFile(f, n * CLUSTER, tableClusters * CLUSTER, i);
    assert FileSlot(f, n * CLUSTER, i) == BE(OrZero(offsets, i), 8);
    Widths();
    ReadBack(OrZero(offsets, i), 8, FileSlot(f, n * CLUSTER, i));
  }

  // Each cluster of the file has refcount 1, and no other has any.
  lemma RefsRead(f: seq<byte>, n: nat, tableClusters: nat, blocks: nat, c: nat)
    requires HasRefcounts(f, n, tableClusters, blocks) && c < tableClusters * L2_ENTRIES * REFS_PER_BLOCK && n > 0
    ensures RefOf(f, f[n * CLUSTER..n * CLUSTER + tableClusters * CLUSTER], c) ==
            Some(Count(c, n + tableClusters + blocks))
  {
    hide BE, FromBE, Pow256, Slot, Ref, HasTable, FileRef;
    var i, k, total := c / REFS_PER_BLOCK, c % REFS_PER_BLOCK, n + tableClusters + blocks;
    BlockEntry(f, n, tableClusters, blocks, i);
    if i < blocks {
      var at := (n + tableClusters + i) * CLUSTER;
      RefInFile(f, at, k);
      assert FileRef(f, (n + tableClusters) * CLUSTER, c) == BE(Count(c, total), 2);
      SameRefPlace(f, (n + tableClusters) * CLUSTER, i, k);
      Widths();
      ReadBack(Count(c, total), 2, FileRef(f, (n + tableClusters) * CLUSTER, c));
    }
  }

  lemma SameRefPlace(f: seq<byte>, off: nat, i: nat, k: nat)
    ensures FileRef(f, off, i * REFS_PER_BLOCK + k) == Piece(f, off + i * CLUSTER + k * 2, 2)
  {
  }

  // ---- Opening ----

  // 1 for everything below n, and nothing else.
  ghost predicate AllOnes(m: map<nat, nat>, n: nat) {
    (forall c :: c in m ==> c < n && m[c] == 1) && (forall c :: 0 <= c < n ==> c in m)
  }

  lemma OwnedSizes(f: seq<byte>, size: nat, a: Alloc, t: Tables, disk: seq<byte>, tableClusters: nat, blocks: nat)
    requires Finished(f, size, a, t, disk, tableClusters, blocks) && |f| <= OFFSET_LIMIT && Owned(a, Base(|t.l1|))
    ensures HasRefcounts(f, |a.owner|, tableClusters, blocks) && |a.owner| > 0
    ensures HasTable(f, CLUSTER, (Base(|t.l1|) - 1) * L2_ENTRIES, t.l1) && CLUSTER + |t.l1| * 8 <= |f|
    ensures |t.l1| <= (Base(|t.l1|) - 1) * L2_ENTRIES
  {
    hide HasTable, HasRefs, HasL2s, HasData, Places, HasPlace, HeaderBytes, Piece;
  }

  // A finished image is the writer's state, its disk and its refcounts.
  ghost predicate Image(f: seq<byte>, size: nat, a: Alloc, t: Tables, disk: seq<byte>, tableClusters: nat,
                        blocks: nat)
  {
    && size > 0 && |disk| == size && |t.l1| == L1Size(size)
    && Owned(a, Base(|t.l1|)) && Tabled(a, t)
    && Finished(f, size, a, t, disk, tableClusters, blocks) && Fits(f, size, t, tableClusters)
  }

  lemma ImageHeader(f: seq<byte>, size: nat, a: Alloc, t: Tables, disk: seq<byte>, tableClusters: nat, blocks: nat)
    requires Image(f, size, a, t, disk, tableClusters, blocks)
    ensures |f| >= CLUSTER && |f| % CLUSTER == 0
    ensures Supported(f[..104]) && U64(f, 24) == size && U32(f, 36) == |t.l1| && U64(f, 40) == CLUSTER
    ensures U64(f, 48) == |a.owner| * CLUSTER && TableBytes(f) == tableClusters * CLUSTER
  {
    hide Filled, Tabled, Places, HasPlace, HeaderBytes, Pow256, FromBE, Supported, L1Size;
    PieceInside(f, 0, CLUSTER);
    assert f[0..CLUSTER] == f[..CLUSTER];
    Widths();
    HeaderRead(f, size, |t.l1|, |a.owner| * CLUSTER, tableClusters);
  }

  lemma L1EntriesFit(a: Alloc, t: Tables, limit: nat)
    requires Tabled(a, t) && Owned(a, Base(|t.l1|)) && |a.owner| * CLUSTER <= OFFSET_LIMIT
    ensures forall i :: 0 <= i < |t.l1| ==> t.l1[i] < Pow256(8)
  {
    hide Lists, HasPlace;
    Widths();
    forall i | 0 <= i < |t.l1| ensures t.l1[i] < Pow256(8) {
      assert t.l1[i] == L1Entry(a, i);
    }
  }

  lemma NeededL1(size: nat)
    ensures L1Needed(size) <= L1Size(size)
  {
  }

  // A finished image opens, with the writer's L1 table and refcounts of exactly 1.
  lemma ImageOpens(f: seq<byte>, size: nat, a: Alloc, t: Tables, disk: seq<byte>, tableClusters: nat, blocks: nat)
    requires Image(f, size, a, t, disk, tableClusters, blocks)
    ensures !Unreadable(f)
    ensures forall r :: Opens(f, r) ==> r.size == size && r.l1 == t.l1 && AllOnes(r.refcounts, |f| / CLUSTER)
  {
    hide Filled, Tabled, Places, HasPlace, HeaderBytes, Pow256, FromBE, Supported, L1Size, HasTable, HasRefs, RefOf,
         Base, TableBytes, Slot;
    ImageHeader(f, size, a, t, disk, tableClusters, blocks);
    OwnedSizes(f, size, a, t, disk, tableClusters, blocks);
    NeededL1(size);
    var n, total := |a.owner|, |a.owner| + tableClusters + blocks;
    var rt := f[n * CLUSTER..n * CLUSTER + tableClusters * CLUSTER];
    forall c | 0 <= c < |rt| / 8 * REFS_PER_BLOCK ensures RefOf(f, rt, c) == Some(Count(c, total)) {
      RefsRead(f, n, tableClusters, blocks, c);
    }
    L1EntriesFit(a, t, 0);
    L1Read(f, |t.l1|, CLUSTER, t.l1, (Base(|t.l1|) - 1) * L2_ENTRIES);
    forall r | Opens(f, r) ensures r.size == size && r.l1 == t.l1 && AllOnes(r.refcounts, |f| / CLUSTER) {
      RefsAreOnes(f, rt, total, r.refcounts);
    }
  }

  lemma RefsAreOnes(f: seq<byte>, rt: seq<byte>, total: nat, m: map<nat, nat>)
    requires RefsBelow(f, rt, |rt| / 8 * REFS_PER_BLOCK, m) && total <= |rt| / 8 * REFS_PER_BLOCK
    requires forall c :: 0 <= c < |rt| / 8 * REFS_PER_BLOCK ==> RefOf(f, rt, c) == Some(Count(c, total))
    ensures AllOnes(m, total)
  {
    hide RefOf;
    forall c | c in m ensures c < total && m[c] == 1 {
      assert RefOf(f, rt, c) == Some(Count(c, total));
    }
    forall c | 0 <= c < total ensures c in m {
      assert RefOf(f, rt, c) == Some(Count(c, total));
    }
  }

  // ---- Reading the disk ----

  // The entry of guest cluster x, read from its table in the file.
  lemma L2EntryRead(f: seq<byte>, a: Alloc, t: Tables, x: nat)
    requires Owned(a, Base(|t.l1|)) && Tabled(a, t) && HasL2s(a, t, f, |t.l1|) && High(x) in a.l2At
    requires |a.owner| * CLUSTER <= |f| <= OFFSET_LIMIT
    ensures a.l2At[High(x)] * CLUSTER + Low(x) * 8 + 8 <= |f|
    ensures U64(f, a.l2At[High(x)] * CLUSTER + Low(x) * 8) == GuestEntry(a, x)
  {
    hide BE, FromBE, Pow256, FileSlot, HasPlace, High, Low, Guest, Base;
    var i, j := High(x), Low(x);
    Join(x);
    var at := a.l2At[i] * CLUSTER;
    assert a.owner[a.l2At[i]] == L2(i);
    assert HasTable(f, at, L2_ENTRIES, t.l2[i]) && Lists(a, t.l2[i], i);
    assert FileSlot(f, at, j) == BE(OrZero(t.l2[i], j), 8);
    PieceInside(f, at + j * 8, 8);
    SlotIsPiece(f, at, j);
    Widths();
    GuestEntryFits(a, Base(|t.l1|), x);
    ReadBack(GuestEntry(a, x), 8, FileSlot(f, at, j));
  }

  lemma SlotIsPiece(f: seq<byte>, off: nat, k: nat)
    ensures FileSlot(f, off, k) == Piece(f, off + k * 8, 8)
  {
  }

  lemma GuestEntryFits(a: Alloc, base: nat, x: nat)
    requires Owned(a, base) && |a.owner| * CLUSTER <= OFFSET_LIMIT
    ensures GuestEntry(a, x) < 0x1_0000_0000_0000_0000
  {
  }

  // The reader returns each byte of the disk the writer was given.
  lemma ImageReads(f: seq<byte>, size: nat, a: Alloc, t: Tables, disk: seq<byte>, tableClusters: nat, blocks: nat,
                   r: Reader, y: nat)
    requires Image(f, size, a, t, disk, tableClusters, blocks) && Opens(f, r) && y < size
    ensures Covered(r) && High(ClusterOf(y)) < |r.l1| && DiskByte(r, y) == Some(disk[y])
  {
    hide HasTable, HasRefs, HeaderBytes, Pow256, FromBE, High, Low, Base, Opens, Lists, HasPlace, L1Size, Balanced,
         ClusterOf, Within, OffsetBits, WithoutFlag, Piece, U64;
    ImageOpens(f, size, a, t, disk, tableClusters, blocks);
    OpenFile(f, r);
    forall z | 0 <= z < r.size ensures High(ClusterOf(z)) < |r.l1| {
      InRange(size, z);
    }
    var x := ClusterOf(y);
    var i := High(x);
    assert disk[y] == Stored(a, f, y);
    assert t.l1[i] == L1Entry(a, i);
    WithinCluster(y);
    if i in a.l2At {
      EntryRead(a.l2At[i]);
      L2EntryRead(f, a, t, x);
      if x in a.dataAt {
        EntryRead(a.dataAt[x]);
      }
    } else {
      NoFlag();
    }
  }

  lemma NoFlag()
    ensures WithoutFlag(0) == 0
  {
  }

  lemma WithinCluster(y: nat)
    ensures Within(y) < CLUSTER
  {
  }

  lemma OpenFile(f: seq<byte>, r: Reader)
    requires Opens(f, r)
    ensures r.file == f
  {
  }
}
