/** Finishing a qcow2 image: the tables, the refcounts that count themselves, and the
header (diskimage/qcow2.go). */
module Qcow2Finish {
  import opened Bytes
  import opened ImageFiles
  import opened Qcow2Writer

  // ---- Encoding tables ----

  // Entry k of a table of 8-byte entries.
  function Slot(b: seq<byte>, k: nat): seq<byte>
    requires k * 8 + 8 <= |b|
  {
    b[k * 8..k * 8 + 8]
  }

  function OrZero(es: seq<nat>, k: nat): nat {
    if k < |es| then es[k] else 0
  }

  // b is a table of 8-byte entries: es, then zeros.
  ghost predicate IsTable(b: seq<byte>, es: seq<nat>) {
    forall k: nat :: k * 8 + 8 <= |b| ==> Slot(b, k) == BE(OrZero(es, k), 8)
  }

  lemma {:induction false} ZeroBE(n: nat)
    ensures BE(0, n) == Zeros(n)
  {
    if n > 0 {
      ZeroBE(n - 1);
    }
  }

  method EncodeTable(es: seq<nat>, n: nat) returns (b: seq<byte>)
    requires |es| * 8 <= n
    ensures |b| == n && IsTable(b, es)
  {
    hide BE, Splice;
    b := Zeros(n);
    ZeroBE(8);
    assert IsTable(b, es[..0]);
    var i := 0;
    while i < |es|
      invariant 0 <= i <= |es| && |b| == n && IsTable(b, es[..i])
    {
      PutTableEntry(b, es, i);
      b := Splice(b, i * 8, BE(es[i], 8));
      i := i + 1;
    }
    assert es[..i] == es;
  }

  lemma PutTableEntry(b: seq<byte>, es: seq<nat>, i: nat)
    requires i < |es| && i * 8 + 8 <= |b| && IsTable(b, es[..i])
    ensures IsTable(Splice(b, i * 8, BE(es[i], 8)), es[..i + 1])
  {
    hide BE, Splice;
    var b' := Splice(b, i * 8, BE(es[i], 8));
    SpliceInside(b, i * 8, BE(es[i], 8));
    forall k: nat | k * 8 + 8 <= |b'| ensures Slot(b', k) == BE(OrZero(es[..i + 1], k), 8) {
      if k != i {
        SpliceBeside(b, i * 8, BE(es[i], 8), k * 8, k * 8 + 8);
        assert Slot(b, k) == BE(OrZero(es[..i], k), 8);
      }
    }
  }

  // Entry k of a refcount block.
  function Ref(b: seq<byte>, k: nat): seq<byte>
    requires k * 2 + 2 <= |b|
  {
    b[k * 2..k * 2 + 2]
  }

  function Count(c: nat, total: nat): nat {
    if c < total then 1 else 0
  }

  // The first n clusters of the block count 1.
  ghost predicate CountsFirst(b: seq<byte>, n: nat) {
    |b| == CLUSTER && forall k :: 0 <= k < REFS_PER_BLOCK ==> Ref(b, k) == BE(Count(k, n), 2)
  }

  // Block i counts the clusters it is for, up to total.
  method EncodeRefs(i: nat, total: nat) returns (b: seq<byte>)
    ensures |b| == CLUSTER
    ensures forall k :: 0 <= k < REFS_PER_BLOCK ==> Ref(b, k) == BE(Count(i * REFS_PER_BLOCK + k, total), 2)
  {
    hide BE, Splice;
    b := Zeros(CLUSTER);
    ZeroBE(2);
    assert CountsFirst(b, 0);
    var k := 0;
    while k < REFS_PER_BLOCK && i * REFS_PER_BLOCK + k < total
      invariant 0 <= k <= REFS_PER_BLOCK && CountsFirst(b, k)
      invariant k == 0 || i * REFS_PER_BLOCK + k <= total
    {
      PutRef(b, k);
      b := Splice(b, k * 2, BE(1, 2));
      k := k + 1;
    }
  }

  lemma PutRef(b: seq<byte>, k: nat)
    requires k < REFS_PER_BLOCK && CountsFirst(b, k)
    ensures CountsFirst(Splice(b, k * 2, BE(1, 2)), k + 1)
  {
    hide BE, Splice;
    var b' := Splice(b, k * 2, BE(1, 2));
    SpliceInside(b, k * 2, BE(1, 2));
    forall j | 0 <= j < REFS_PER_BLOCK ensures Ref(b', j) == BE(Count(j, k + 1), 2) {
      if j != k {
        SpliceBeside(b, k * 2, BE(1, 2), j * 2, j * 2 + 2);
        assert Ref(b, j) == BE(Count(j, k), 2);
      }
    }
  }

  // ---- The fixed point ----

  // Blocks and table clusters enough for everything, themselves included.
  ghost predicate Balanced(used: nat, blocks: nat, tableClusters: nat) {
    && blocks == CeilDiv(used + tableClusters + blocks, REFS_PER_BLOCK)
    && tableClusters == CeilDiv(blocks * 8, CLUSTER)
  }

  // The loop ends, and with no more than any other balance would take.
  method SizeRefcounts(used: nat) returns (blocks: nat, tableClusters: nat)
    requires used > 0
    ensures Balanced(used, blocks, tableClusters) && blocks > 0 && tableClusters > 0
    ensures forall b, t :: Balanced(used, b, t) ==> blocks <= b && tableClusters <= t
  {
    blocks, tableClusters := 0, 0;
    while true
      invariant blocks <= used + 2 && tableClusters <= used + 2
      invariant blocks <= CeilDiv(used + tableClusters + blocks, REFS_PER_BLOCK)
      invariant tableClusters <= CeilDiv(blocks * 8, CLUSTER)
      invariant forall b, t :: Balanced(used, b, t) ==> blocks <= b && tableClusters <= t
      decreases 2 * (used + 2) - blocks - tableClusters
    {
      var total := used + tableClusters + blocks;
      var nb := CeilDiv(total, REFS_PER_BLOCK);
      var ntc := CeilDiv(nb * 8, CLUSTER);
      if nb == blocks && ntc == tableClusters {
        break;
      }
      blocks, tableClusters := nb, ntc;
    }
  }

  // ---- What the file holds ----

  function FileSlot(f: seq<byte>, off: nat, k: nat): seq<byte> {
    Piece(f, off + k * 8, 8)
  }

  function FileRef(f: seq<byte>, off: nat, c: nat): seq<byte> {
    Piece(f, off + c * 2, 2)
  }

  // n entries from off on: es, then zeros.
  ghost predicate HasTable(f: seq<byte>, off: nat, n: nat, es: seq<nat>) {
    forall k :: 0 <= k < n ==> FileSlot(f, off, k) == BE(OrZero(es, k), 8)
  }

  // n refcounts from off on: 1 for each cluster below total.
  ghost predicate HasRefs(f: seq<byte>, off: nat, n: nat, total: nat) {
    forall c :: 0 <= c < n ==> FileRef(f, off, c) == BE(Count(c, total), 2)
  }

  ghost predicate HasData(a: Alloc, f: seq<byte>, disk: seq<byte>) {
    forall y :: 0 <= y < |disk| ==> disk[y] == Stored(a, f, y)
  }

  ghost predicate HasL2s(a: Alloc, t: Tables, f: seq<byte>, n: nat) {
    forall i :: 0 <= i < n && i < |t.l2| && i in a.l2At ==> HasTable(f, a.l2At[i] * CLUSTER, L2_ENTRIES, t.l2[i])
  }

  // The bytes from lo to hi belong to neither.
  ghost predicate ClearOfData(a: Alloc, lo: nat, hi: nat) {
    forall x :: x in a.dataAt ==> a.dataAt[x] * CLUSTER + CLUSTER <= lo || hi <= a.dataAt[x] * CLUSTER
  }

  ghost predicate ClearOfTables(a: Alloc, lo: nat, hi: nat, but: int) {
    forall i :: i in a.l2At && i != but ==> a.l2At[i] * CLUSTER + CLUSTER <= lo || hi <= a.l2At[i] * CLUSTER
  }

  lemma TableWritten(f: seq<byte>, off: nat, n: nat, b: seq<byte>, es: seq<nat>)
    requires |b| == n * 8 && IsTable(b, es)
    ensures HasTable(Written(f, off, b), off, n, es)
  {
    hide BE, Piece, Written;
    var f' := Written(f, off, b);
    PieceWritten(f, off, b);
    forall k | 0 <= k < n ensures FileSlot(f', off, k) == BE(OrZero(es, k), 8) {
      PieceOfPiece(f', off, n * 8, k * 8, 8);
      assert Slot(b, k) == BE(OrZero(es, k), 8);
    }
  }

  lemma TableBeside(f: seq<byte>, at: nat, b: seq<byte>, off: nat, n: nat, es: seq<nat>)
    requires HasTable(f, off, n, es) && (off + n * 8 <= at || at + |b| <= off)
    ensures HasTable(Written(f, at, b), off, n, es)
  {
    hide BE, Piece, Written;
    forall k | 0 <= k < n ensures FileSlot(Written(f, at, b), off, k) == BE(OrZero(es, k), 8) {
      PieceBeside(f, at, b, off + k * 8, 8);
      assert FileSlot(f, off, k) == BE(OrZero(es, k), 8);
    }
  }

  lemma DataBeside(a: Alloc, f: seq<byte>, disk: seq<byte>, at: nat, b: seq<byte>)
    requires HasData(a, f, disk) && ClearOfData(a, at, at + |b|)
    ensures HasData(a, Written(f, at, b), disk)
  {
    hide Written, ByteAt;
    if b != [] {
      WrittenBytes(f, at, b);
      forall y | 0 <= y < |disk| ensures disk[y] == Stored(a, Written(f, at, b), y) {
        assert disk[y] == Stored(a, f, y);
        assert Within(y) < CLUSTER;
      }
    } else {
      NothingWritten(f, at);
    }
  }

  lemma NothingWritten(f: seq<byte>, at: nat)
    ensures Written(f, at, []) == f
  {
  }

  lemma L2sBeside(a: Alloc, t: Tables, f: seq<byte>, n: nat, at: nat, b: seq<byte>, but: int)
    requires HasL2s(a, t, f, n) && ClearOfTables(a, at, at + |b|, but) && !(0 <= but < n)
    ensures HasL2s(a, t, Written(f, at, b), n)
  {
    hide HasTable, Written;
    forall i | 0 <= i < n && i < |t.l2| && i in a.l2At
      ensures HasTable(Written(f, at, b), a.l2At[i] * CLUSTER, L2_ENTRIES, t.l2[i])
    {
      TableBeside(f, at, b, a.l2At[i] * CLUSTER, L2_ENTRIES, t.l2[i]);
    }
  }

  lemma RefsBeside(f: seq<byte>, at: nat, b: seq<byte>, off: nat, n: nat, total: nat)
    requires HasRefs(f, off, n, total) && (off + n * 2 <= at || at + |b| <= off)
    ensures HasRefs(Written(f, at, b), off, n, total)
  {
    hide BE, Piece, Written;
    forall c | 0 <= c < n ensures FileRef(Written(f, at, b), off, c) == BE(Count(c, total), 2) {
      PieceBeside(f, at, b, off + c * 2, 2);
      assert FileRef(f, off, c) == BE(Count(c, total), 2);
    }
  }

  // One more refcount block behind those there are.
  lemma RefsWritten(f: seq<byte>, off: nat, i: nat, b: seq<byte>, total: nat)
    requires HasRefs(f, off, i * REFS_PER_BLOCK, total) && |b| == CLUSTER
    requires forall k :: 0 <= k < REFS_PER_BLOCK ==> Ref(b, k) == BE(Count(i * REFS_PER_BLOCK + k, total), 2)
    ensures HasRefs(Written(f, off + i * CLUSTER, b), off, (i + 1) * REFS_PER_BLOCK, total)
  {
    hide BE, Piece, Written;
    var at := off + i * CLUSTER;
    var f' := Written(f, at, b);
    RefsBeside(f, at, b, off, i * REFS_PER_BLOCK, total);
    PieceWritten(f, at, b);
    forall c | 0 <= c < (i + 1) * REFS_PER_BLOCK ensures FileRef(f', off, c) == BE(Count(c, total), 2) {
      var k := c - i * REFS_PER_BLOCK;
      if k >= 0 {
        PieceOfPiece(f', at, CLUSTER, k * 2, 2);
        assert Ref(b, k) == BE(Count(i * REFS_PER_BLOCK + k, total), 2);
      }
    }
  }

  // ---- A finished image ----

  function BlockOffsets(first: nat, blocks: nat): seq<nat> {
    seq<nat>(blocks, i requires 0 <= i < blocks => (first + i) * CLUSTER)
  }

  // Everything but the header and the exact length.
  ghost predicate Filled(f: seq<byte>, a: Alloc, t: Tables, disk: seq<byte>, tableClusters: nat, blocks: nat) {
    var n := |a.owner|;
    && HasTable(f, CLUSTER, (Base(|t.l1|) - 1) * L2_ENTRIES, t.l1)
    && HasL2s(a, t, f, |t.l1|)
    && HasTable(f, n * CLUSTER, tableClusters * L2_ENTRIES, BlockOffsets(n + tableClusters, blocks))
    && HasRefs(f, (n + tableClusters) * CLUSTER, blocks * REFS_PER_BLOCK, n + tableClusters + blocks)
    && HasData(a, f, disk)
  }

  ghost predicate Finished(f: seq<byte>, size: nat, a: Alloc, t: Tables, disk: seq<byte>, tableClusters: nat,
                           blocks: nat)
  {
    && Balanced(|a.owner|, blocks, tableClusters) && blocks > 0 && tableClusters > 0
    && |f| == (|a.owner| + tableClusters + blocks) * CLUSTER
    && Piece(f, 0, CLUSTER) == HeaderBytes(size, |t.l1|, |a.owner| * CLUSTER, tableClusters)
    && Filled(f, a, t, disk, tableClusters, blocks)
  }

  lemma ClearTable(a: Alloc, base: nat, i: nat)
    requires Owned(a, base) && i in a.l2At
    ensures ClearOfData(a, a.l2At[i] * CLUSTER, a.l2At[i] * CLUSTER + CLUSTER)
    ensures ClearOfTables(a, a.l2At[i] * CLUSTER, a.l2At[i] * CLUSTER + CLUSTER, i)
  {
    forall x | x in a.dataAt ensures a.dataAt[x] != a.l2At[i] {
      assert a.owner[a.dataAt[x]] == Data(x) && a.owner[a.l2At[i]] == L2(i);
    }
    forall m | m in a.l2At && m != i ensures a.l2At[m] != a.l2At[i] {
      assert a.owner[a.l2At[m]] == L2(m) && a.owner[a.l2At[i]] == L2(i);
    }
  }

  lemma ClearBelow(a: Alloc, base: nat, lo: nat, hi: nat)
    requires Owned(a, base) && hi <= base * CLUSTER
    ensures ClearOfData(a, lo, hi) && ClearOfTables(a, lo, hi, -1)
  {
  }

  lemma ClearAbove(a: Alloc, base: nat, lo: nat, hi: nat)
    requires Owned(a, base) && |a.owner| * CLUSTER <= lo
    ensures ClearOfData(a, lo, hi) && ClearOfTables(a, lo, hi, -1)
  {
  }

  method WriteL2Tables(l1: seq<nat>, l2: seq<seq<nat>>, f0: seq<byte>, ghost a: Alloc, ghost base: nat,
                       ghost disk: seq<byte>)
    returns (f: seq<byte>)
    requires Owned(a, base) && Tabled(a, Tables(l1, l2)) && HasData(a, f0, disk) && |f0| <= |a.owner| * CLUSTER
    ensures HasData(a, f, disk) && HasL2s(a, Tables(l1, l2), f, |l1|) && |f| <= |a.owner| * CLUSTER
  {
    hide Owned, Lists, HasTable, Written, IsTable, HasData, GuestEntry, High, ClearOfData, ClearOfTables;
    f := f0;
    ghost var t := Tables(l1, l2);
    var i := 0;
    while i < |l1|
      invariant 0 <= i <= |l1| && |f| <= |a.owner| * CLUSTER && HasData(a, f, disk) && HasL2s(a, t, f, i)
    {
      if l2[i] != [] {
        var b := EncodeTable(l2[i], CLUSTER);
        var at := l1[i] - COPIED;
        ClearTable(a, base, i);
        TablePlace(a, base, i);
        DataBeside(a, f, disk, at, b);
        L2sBeside(a, t, f, i, at, b, i);
        TableWritten(f, at, L2_ENTRIES, b, l2[i]);
        WrittenBytes(f, at, b);
        f := Written(f, at, b);
      }
      i := i + 1;
    }
  }

  lemma TablePlace(a: Alloc, base: nat, i: nat)
    requires Owned(a, base) && i in a.l2At
    ensures a.l2At[i] * CLUSTER + CLUSTER <= |a.owner| * CLUSTER
  {
  }

  method WriteL1Table(l1: seq<nat>, f0: seq<byte>, ghost a: Alloc, ghost t: Tables, ghost disk: seq<byte>)
    returns (f: seq<byte>)
    requires Owned(a, Base(|l1|)) && HasData(a, f0, disk) && HasL2s(a, t, f0, |l1|) && |f0| <= |a.owner| * CLUSTER
    requires l1 != []
    ensures HasData(a, f, disk) && HasL2s(a, t, f, |l1|) && |f| <= |a.owner| * CLUSTER
    ensures HasTable(f, CLUSTER, (Base(|l1|) - 1) * L2_ENTRIES, l1)
  {
    hide HasL2s, HasTable, Written, IsTable, HasData, ClearOfData, ClearOfTables, Places, HasPlace;
    var b := EncodeTable(l1, CeilDiv(|l1| * 8, CLUSTER) * CLUSTER);
    ClearBelow(a, Base(|l1|), CLUSTER, CLUSTER + |b|);
    DataBeside(a, f0, disk, CLUSTER, b);
    L2sBeside(a, t, f0, |l1|, CLUSTER, b, -1);
    TableWritten(f0, CLUSTER, (Base(|l1|) - 1) * L2_ENTRIES, b, l1);
    WrittenBytes(f0, CLUSTER, b);
    f := Written(f0, CLUSTER, b);
  }

  // The refcount table and its blocks, behind everything else.
  method WriteRefcounts(f0: seq<byte>, n: nat, tableClusters: nat, blocks: nat, ghost a: Alloc, ghost t: Tables,
                        ghost disk: seq<byte>)
    returns (f: seq<byte>)
    requires t.l1 != [] && Owned(a, Base(|t.l1|)) && n == |a.owner| && |f0| <= n * CLUSTER
    requires HasData(a, f0, disk) && HasL2s(a, t, f0, |t.l1|)
    requires HasTable(f0, CLUSTER, (Base(|t.l1|) - 1) * L2_ENTRIES, t.l1)
    requires tableClusters > 0 && blocks > 0 && blocks <= tableClusters * L2_ENTRIES
    ensures Filled(f, a, t, disk, tableClusters, blocks) && |f| == (n + tableClusters + blocks) * CLUSTER
  {
    hide HasL2s, HasTable, Written, IsTable, HasData, HasRefs, ClearOfData, ClearOfTables, Places, HasPlace,
         BlockOffsets;
    var offsets, total := BlockOffsets(n + tableClusters, blocks), n + tableClusters + blocks;
    OffsetsLength(n + tableClusters, blocks);
    var b := EncodeTable(offsets, tableClusters * CLUSTER);
    f := Appended(f0, n * CLUSTER, b, a, t, disk);
    TableWritten(f0, n * CLUSTER, tableClusters * L2_ENTRIES, b, offsets);
    var start := (n + tableClusters) * CLUSTER;
    NoRefs(f, start, total);
    var i := 0;
    while i < blocks
      invariant 0 <= i <= blocks && |f| == start + i * CLUSTER
      invariant HasData(a, f, disk) && HasL2s(a, t, f, |t.l1|)
      invariant HasTable(f, CLUSTER, (Base(|t.l1|) - 1) * L2_ENTRIES, t.l1)
      invariant HasTable(f, n * CLUSTER, tableClusters * L2_ENTRIES, offsets)
      invariant HasRefs(f, start, i * REFS_PER_BLOCK, total)
    {
      var block := EncodeRefs(i, total);
      RefsWritten(f, start, i, block, total);
      TableBeside(f, start + i * CLUSTER, block, n * CLUSTER, tableClusters * L2_ENTRIES, offsets);
      f := Appended(f, start + i * CLUSTER, block, a, t, disk);
      i := i + 1;
    }
  }

  lemma OffsetsLength(first: nat, blocks: nat)
    ensures |BlockOffsets(first, blocks)| == blocks
  {
  }

  lemma NoRefs(f: seq<byte>, off: nat, total: nat)
    ensures HasRefs(f, off, 0, total)
  {
  }

  // Writing behind all clusters leaves tables and data as they are.
  method Appended(f0: seq<byte>, at: nat, b: seq<byte>, ghost a: Alloc, ghost t: Tables, ghost disk: seq<byte>)
    returns (f: seq<byte>)
    requires t.l1 != [] && Owned(a, Base(|t.l1|)) && |a.owner| * CLUSTER <= at && |f0| <= at && b != []
    requires HasData(a, f0, disk) && HasL2s(a, t, f0, |t.l1|)
    requires HasTable(f0, CLUSTER, (Base(|t.l1|) - 1) * L2_ENTRIES, t.l1)
    ensures f == Written(f0, at, b) && |f| == at + |b|
    ensures HasData(a, f, disk) && HasL2s(a, t, f, |t.l1|)
    ensures HasTable(f, CLUSTER, (Base(|t.l1|) - 1) * L2_ENTRIES, t.l1)
  {
    hide HasL2s, HasTable, Written, HasData, ClearOfData, ClearOfTables, Places, HasPlace;
    ClearAbove(a, Base(|t.l1|), at, at + |b|);
    DataBeside(a, f0, disk, at, b);
    L2sBeside(a, t, f0, |t.l1|, at, b, -1);
    TableBeside(f0, at, b, CLUSTER, (Base(|t.l1|) - 1) * L2_ENTRIES, t.l1);
    WrittenBytes(f0, at, b);
    f := Written(f0, at, b);
  }

  // The header goes in last.
  lemma WithHeader(f: seq<byte>, size: nat, a: Alloc, t: Tables, disk: seq<byte>, tableClusters: nat, blocks: nat)
    requires t.l1 != [] && Owned(a, Base(|t.l1|)) && Filled(f, a, t, disk, tableClusters, blocks)
    requires |f| == (|a.owner| + tableClusters + blocks) * CLUSTER
    requires Balanced(|a.owner|, blocks, tableClusters) && blocks > 0 && tableClusters > 0
    ensures Finished(Written(f, 0, HeaderBytes(size, |t.l1|, |a.owner| * CLUSTER, tableClusters)), size, a, t, disk,
                     tableClusters, blocks)
  {
    hide HasL2s, HasTable, Written, HasData, HasRefs, ClearOfData, ClearOfTables, Places, HasPlace, HeaderBytes,
         BlockOffsets, Balanced, Piece;
    var n := |a.owner|;
    var h := HeaderBytes(size, |t.l1|, n * CLUSTER, tableClusters);
    ClearBelow(a, Base(|t.l1|), 0, CLUSTER);
    DataBeside(a, f, disk, 0, h);
    L2sBeside(a, t, f, |t.l1|, 0, h, -1);
    TableBeside(f, 0, h, CLUSTER, (Base(|t.l1|) - 1) * L2_ENTRIES, t.l1);
    TableBeside(f, 0, h, n * CLUSTER, tableClusters * L2_ENTRIES, BlockOffsets(n + tableClusters, blocks));
    RefsBeside(f, 0, h, (n + tableClusters) * CLUSTER, blocks * REFS_PER_BLOCK, n + tableClusters + blocks);
    PieceWritten(f, 0, h);
    WrittenBytes(f, 0, h);
  }

  // finish: what Close leaves on disk.
  method Finish(w: Writer) returns (f: seq<byte>, ghost tableClusters: nat, ghost blocks: nat)
    requires w.Valid() && w.size > 0
    ensures Finished(f, w.size, w.alloc, Tables(w.l1, w.l2), w.disk, tableClusters, blocks)
    ensures forall b, t :: Balanced(|w.alloc.owner|, b, t) ==> blocks <= b && tableClusters <= t
  {
    hide Tabled, HasL2s, HasTable, Written, HeaderBytes, Balanced, Filled, Finished, Stored, Owned;
    ghost var t := Tables(w.l1, w.l2);
    SomeL1(w.size);
    OwnedFacts(w.alloc, Base(|w.l1|));
    f := WriteL2Tables(w.l1, w.l2, w.file, w.alloc, Base(|w.l1|), w.disk);
    f := WriteL1Table(w.l1, f, w.alloc, t, w.disk);
    var b, tc := SizeRefcounts(w.nextClust);
    TableHolds(w.nextClust, b, tc);
    f := WriteRefcounts(f, w.nextClust, tc, b, w.alloc, t, w.disk);
    assert f[..|f|] == f;
    f := Resized(f, (w.nextClust + tc + b) * CLUSTER);
    WithHeader(f, w.size, w.alloc, t, w.disk, tc, b);
    f := Written(f, 0, HeaderBytes(w.size, |w.l1|, w.nextClust * CLUSTER, tc));
    tableClusters, blocks := tc, b;
  }

  lemma SomeL1(size: nat)
    requires size > 0
    ensures L1Size(size) > 0
  {
  }

  lemma OwnedFacts(a: Alloc, base: nat)
    requires Owned(a, base)
    ensures |a.owner| > 0
  {
  }

  lemma TableHolds(used: nat, blocks: nat, tableClusters: nat)
    requires Balanced(used, blocks, tableClusters)
    ensures blocks <= tableClusters * L2_ENTRIES
  {
  }
}
