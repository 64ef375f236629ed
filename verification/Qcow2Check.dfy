/** Checking an image's refcounts (diskimage/reader.go): every cluster of the file is
referenced once and counted once. */
module Qcow2Check {
  import opened Bytes
  import opened Options
  import opened ImageFiles
  import opened Qcow2Writer
  import opened Qcow2Finish
  import opened Qcow2Reader
  import opened Qcow2Image

  // ---- What an image refers to ----

  function One(c: nat): multiset<nat> {
    multiset{c}
  }

  lemma CountOne(s: multiset<nat>, k: nat, c: nat)
    ensures (s + One(k))[c] == s[c] + if k == c then 1 else 0
  {
  }

  function Range(from: nat, n: nat): multiset<nat> {
    if n == 0 then multiset{} else Range(from, n - 1) + One(from + n - 1)
  }

  // The clusters the first j entries of an L2 table point to.
  function DataRefs(tbl: seq<byte>, j: nat): multiset<nat>
    requires j * 8 <= |tbl|
  {
    if j == 0 then multiset{}
    else
      var e := FromBE(Slot(tbl, j - 1));
      if e == 0 then DataRefs(tbl, j - 1) else DataRefs(tbl, j - 1) + One(OffsetBits(e) / CLUSTER)
  }

  // The L2 tables of the first n L1 entries can be read.
  predicate ReadableUpTo(f: seq<byte>, l1: seq<nat>, n: nat)
    requires n <= |l1|
  {
    forall i :: 0 <= i < n && WithoutFlag(l1[i]) != 0 ==> WithoutFlag(l1[i]) + CLUSTER <= |f|
  }

  predicate TablesReadable(f: seq<byte>, l1: seq<nat>) {
    ReadableUpTo(f, l1, |l1|)
  }

  // An L2 table, and what it points to.
  function TableRef(f: seq<byte>, e: nat): multiset<nat>
    requires WithoutFlag(e) != 0 ==> WithoutFlag(e) + CLUSTER <= |f|
  {
    var at := WithoutFlag(e);
    if at == 0 then multiset{} else One(at / CLUSTER) + DataRefs(f[at..at + CLUSTER], L2_ENTRIES)
  }

  function TableRefs(f: seq<byte>, l1: seq<nat>, i: nat): multiset<nat>
    requires i <= |l1| && ReadableUpTo(f, l1, i)
  {
    if i == 0 then multiset{} else TableRefs(f, l1, i - 1) + TableRef(f, l1[i - 1])
  }

  // The refcount blocks the first i entries of the table point to.
  function BlockRefs(rt: seq<byte>, i: nat): multiset<nat>
    requires i * 8 <= |rt|
  {
    if i == 0 then multiset{}
    else
      var at := FromBE(Slot(rt, i - 1));
      if at == 0 then BlockRefs(rt, i - 1) else BlockRefs(rt, i - 1) + One(at / CLUSTER)
  }

  ghost predicate Walkable(r: Reader) {
    && |r.file| >= 104 && U64(r.file, 48) + TableBytes(r.file) <= |r.file|
    && TablesReadable(r.file, r.l1)
  }

  ghost function AllRefs(r: Reader): multiset<nat>
    requires Walkable(r)
  {
    var f := r.file;
    var rtOff, rtBytes := U64(f, 48), TableBytes(f);
    One(0) + Range(U64(f, 40) / CLUSTER, CeilDiv(|r.l1| * 8, CLUSTER)) + TableRefs(f, r.l1, |r.l1|) +
    Range(rtOff / CLUSTER, rtBytes / CLUSTER) + BlockRefs(f[rtOff..rtOff + rtBytes], rtBytes / 8)
  }

  // Each cluster of the file is referenced once and has refcount 1; no other is counted.
  ghost predicate RefcountsSound(r: Reader)
    requires Walkable(r)
  {
    && (forall c :: 0 <= c < |r.file| / CLUSTER ==> AllRefs(r)[c] == 1 && c in r.refcounts && r.refcounts[c] == 1)
    && (forall c :: c in r.refcounts ==> c < |r.file| / CLUSTER)
  }

  // ---- Walking them ----

  method MarkRange(from: nat, n: nat, seen0: multiset<nat>) returns (seen: multiset<nat>)
    ensures seen == seen0 + Range(from, n)
  {
    seen := seen0;
    var c := 0;
    while c < n
      invariant 0 <= c <= n && seen == seen0 + Range(from, c)
    {
      seen := seen + One(from + c);
      c := c + 1;
    }
  }

  method MarkData(tbl: seq<byte>, seen0: multiset<nat>) returns (seen: multiset<nat>)
    requires |tbl| == CLUSTER
    ensures seen == seen0 + DataRefs(tbl, L2_ENTRIES)
  {
    hide FromBE, OffsetBits;
    seen := seen0;
    var j := 0;
    while j < L2_ENTRIES
      invariant 0 <= j <= L2_ENTRIES && seen == seen0 + DataRefs(tbl, j)
    {
      var e := U64(tbl, j * 8);
      assert e == FromBE(Slot(tbl, j));
      if e != 0 {
        seen := seen + One(OffsetBits(e) / CLUSTER);
      }
      j := j + 1;
    }
  }

  method MarkTables(f: seq<byte>, l1: seq<nat>, seen0: multiset<nat>) returns (res: Option<multiset<nat>>)
    ensures res.Some? <==> TablesReadable(f, l1)
    ensures res.Some? ==> res.value == seen0 + TableRefs(f, l1, |l1|)
  {
    hide WithoutFlag, DataRefs, TableRefs;
    var seen, i := seen0, 0;
    NoTables(f, l1);
    while i < |l1|
      invariant 0 <= i <= |l1| && ReadableUpTo(f, l1, i) && seen == seen0 + TableRefs(f, l1, i)
    {
      var at := WithoutFlag(l1[i]);
      if at != 0 {
        var tbl := ReadFile(f, at, CLUSTER);
        if tbl.None? {
          return None;
        }
        seen := seen + One(at / CLUSTER);
        seen := MarkData(tbl.value, seen);
      }
      OneMoreTable(f, l1, i);
      i := i + 1;
    }
    return Some(seen);
  }

  lemma NoTables(f: seq<byte>, l1: seq<nat>)
    ensures TableRefs(f, l1, 0) == multiset{}
  {
  }

  lemma OneMoreTable(f: seq<byte>, l1: seq<nat>, i: nat)
    requires i < |l1| && ReadableUpTo(f, l1, i + 1)
    ensures ReadableUpTo(f, l1, i) && TableRefs(f, l1, i + 1) == TableRefs(f, l1, i) + TableRef(f, l1[i])
  {
  }

  method MarkBlocks(rt: seq<byte>, seen0: multiset<nat>) returns (seen: multiset<nat>)
    ensures seen == seen0 + BlockRefs(rt, |rt| / 8)
  {
    hide FromBE;
    seen := seen0;
    var i := 0;
    while i < |rt| / 8
      invariant 0 <= i <= |rt| / 8 && seen == seen0 + BlockRefs(rt, i)
    {
      var at := U64(rt, i * 8);
      assert at == FromBE(Slot(rt, i));
      if at != 0 {
        seen := seen + One(at / CLUSTER);
      }
      i := i + 1;
    }
  }

  method CheckCounts(seen: multiset<nat>, refcounts: map<nat, nat>, n: nat) returns (ok: bool)
    ensures ok <==>
            && (forall c :: 0 <= c < n ==> seen[c] == 1 && c in refcounts && refcounts[c] == 1)
            && (forall c :: c in refcounts ==> c < n)
  {
    var c := 0;
    while c < n
      invariant 0 <= c <= n && forall d :: 0 <= d < c ==> seen[d] == 1 && d in refcounts && refcounts[d] == 1
    {
      if seen[c] != 1 || c !in refcounts || refcounts[c] != 1 {
        return false;
      }
      c := c + 1;
    }
    var rest := refcounts.Keys;
    while rest != {}
      invariant rest <= refcounts.Keys && forall d :: d in refcounts.Keys - rest ==> d < n
      decreases rest
    {
      var k :| k in rest;
      if k >= n {
        return false;
      }
      forall d | d in refcounts.Keys - (rest - {k}) ensures d < n {
        assert d == k || d in refcounts.Keys - rest;
      }
      rest := rest - {k};
    }
    assert refcounts.Keys - rest == refcounts.Keys;
    return true;
  }

  method CheckRefcounts(r: Reader) returns (ok: bool)
    requires |r.file| >= 104 && U64(r.file, 48) + TableBytes(r.file) <= |r.file|
    ensures ok <==> Walkable(r) && RefcountsSound(r)
  {
    hide FromBE, WithoutFlag, Range, TableRefs, BlockRefs, TablesReadable;
    var f := r.file;
    var seen := multiset{0};
    seen := MarkRange(U64(f, 40) / CLUSTER, CeilDiv(|r.l1| * 8, CLUSTER), seen);
    var tables := MarkTables(f, r.l1, seen);
    if tables.None? {
      return false;
    }
    var rtOff, rtBytes := U64(f, 48), TableBytes(f);
    seen := MarkRange(rtOff / CLUSTER, rtBytes / CLUSTER, tables.value);
    seen := MarkBlocks(f[rtOff..rtOff + rtBytes], seen);
    assert seen == AllRefs(r);
    ok := CheckCounts(seen, r.refcounts, |f| / CLUSTER);
  }

  // ---- A finished image is sound ----

  lemma {:induction false} CountRange(from: nat, n: nat, c: nat)
    ensures Range(from, n)[c] == if from <= c < from + n then 1 else 0
  {
    if n > 0 {
      CountRange(from, n - 1, c);
      CountOne(Range(from, n - 1), from + n - 1, c);
    }
  }

  // Cluster c is one that table i's first j entries point to.
  ghost predicate IsData(a: Alloc, c: nat, i: nat, j: nat) {
    c < |a.owner| && a.owner[c].Data? && High(a.owner[c].guest) == i && Low(a.owner[c].guest) < j
  }

  lemma {:induction false} CountData(f: seq<byte>, a: Alloc, t: Tables, i: nat, j: nat, c: nat)
    requires Owned(a, Base(|t.l1|)) && Tabled(a, t) && HasL2s(a, t, f, |t.l1|) && i in a.l2At && j <= L2_ENTRIES
    requires |a.owner| * CLUSTER <= |f| <= OFFSET_LIMIT && a.l2At[i] * CLUSTER + CLUSTER <= |f|
    ensures DataRefs(f[a.l2At[i] * CLUSTER..a.l2At[i] * CLUSTER + CLUSTER], j)[c] ==
            if IsData(a, c, i, j) then 1 else 0
  {
    hide FromBE, OffsetBits, High, Low, Guest, Slot, HasL2s, Tabled, Entry, Owned, One;
    var at := a.l2At[i] * CLUSTER;
    var tbl := f[at..at + CLUSTER];
    if j > 0 {
      CountData(f, a, t, i, j - 1, c);
      var x := Guest(i, j - 1);
      Split(i, j - 1);
      L2EntryRead(f, a, t, x);
      SlotHere(f, at, j - 1);
      OnlyAt(a, Base(|t.l1|), c, x);
      DataStep(a, c, i, j, x);
      if x in a.dataAt {
        DataPlace(a, Base(|t.l1|), x);
        EntryRead(a.dataAt[x]);
        CountOne(DataRefs(tbl, j - 1), a.dataAt[x], c);
      }
    }
  }

  lemma DataPlace(a: Alloc, base: nat, x: nat)
    requires Owned(a, base) && x in a.dataAt
    ensures 0 < a.dataAt[x] < |a.owner|
  {
  }

  lemma DataStep(a: Alloc, c: nat, i: nat, j: nat, x: nat)
    requires j > 0 && x == Guest(i, j - 1) && j <= L2_ENTRIES
    ensures IsData(a, c, i, j) <==> IsData(a, c, i, j - 1) || (c < |a.owner| && a.owner[c] == Data(x))
    ensures !(IsData(a, c, i, j - 1) && c < |a.owner| && a.owner[c] == Data(x))
  {
    hide High, Low, Guest;
    Split(i, j - 1);
    if c < |a.owner| && a.owner[c].Data? {
      Join(a.owner[c].guest);
    }
  }

  lemma SlotHere(f: seq<byte>, at: nat, k: nat)
    requires at + CLUSTER <= |f| && k < L2_ENTRIES
    ensures FromBE(Slot(f[at..at + CLUSTER], k)) == U64(f, at + k * 8)
  {
    hide FromBE;
    SubPart(f, at, at + CLUSTER, k * 8, k * 8 + 8);
  }

  // Cluster c is guest cluster x's exactly when x is placed there.
  lemma OnlyAt(a: Alloc, base: nat, c: nat, x: nat)
    requires Owned(a, base)
    ensures c < |a.owner| && a.owner[c] == Data(x) <==> x in a.dataAt && a.dataAt[x] == c
  {
    if c < |a.owner| && a.owner[c] == Data(x) {
      assert HasPlace(a, c);
    }
  }

  lemma OnlyTable(a: Alloc, base: nat, c: nat, i: nat)
    requires Owned(a, base)
    ensures c < |a.owner| && a.owner[c] == L2(i) <==> i in a.l2At && a.l2At[i] == c
  {
    if c < |a.owner| && a.owner[c] == L2(i) {
      assert HasPlace(a, c);
    }
  }

  // Cluster c is one of the first i tables, or one that they point to.
  ghost predicate IsTableOrData(a: Alloc, c: nat, i: nat) {
    && c < |a.owner|
    && match a.owner[c]
       case L2(k) => k < i
       case Data(x) => High(x) < i
       case _ => false
  }

  lemma ImageReadable(f: seq<byte>, a: Alloc, t: Tables)
    requires Owned(a, Base(|t.l1|)) && Tabled(a, t) && |a.owner| * CLUSTER <= |f| <= OFFSET_LIMIT
    ensures TablesReadable(f, t.l1)
    ensures forall i :: 0 <= i < |t.l1| ==>
              WithoutFlag(t.l1[i]) == if i in a.l2At then a.l2At[i] * CLUSTER else 0
    ensures forall i :: i in a.l2At ==> a.l2At[i] * CLUSTER + CLUSTER <= |f| && a.l2At[i] > 0
  {
    hide WithoutFlag, OffsetBits, Entry, Lists, HasPlace, High;
    forall i | 0 <= i < |t.l1| ensures WithoutFlag(t.l1[i]) == if i in a.l2At then a.l2At[i] * CLUSTER else 0 {
      assert t.l1[i] == L1Entry(a, i);
      if i in a.l2At {
        EntryRead(a.l2At[i]);
      } else {
        NoFlag();
      }
    }
  }

  lemma {:induction false} CountTables(f: seq<byte>, a: Alloc, t: Tables, i: nat, c: nat)
    requires Owned(a, Base(|t.l1|)) && Tabled(a, t) && HasL2s(a, t, f, |t.l1|) && i <= |t.l1|
    requires |a.owner| * CLUSTER <= |f| <= OFFSET_LIMIT && TablesReadable(f, t.l1)
    ensures ReadableUpTo(f, t.l1, i)
    ensures TableRefs(f, t.l1, i)[c] == if IsTableOrData(a, c, i) then 1 else 0
  {
    hide WithoutFlag, HasL2s, Tabled, Owned, One, TableRef, TableRefs, IsTableOrData;
    if i > 0 {
      CountTables(f, a, t, i - 1, c);
      CountTable(f, a, t, i - 1, c);
      OneMoreTable(f, t.l1, i - 1);
    } else {
      NoTables(f, t.l1);
      NothingBefore(a, c);
    }
  }

  lemma NothingBefore(a: Alloc, c: nat)
    ensures !IsTableOrData(a, c, 0)
  {
  }

  lemma CountTable(f: seq<byte>, a: Alloc, t: Tables, i: nat, c: nat)
    requires Owned(a, Base(|t.l1|)) && Tabled(a, t) && HasL2s(a, t, f, |t.l1|) && i < |t.l1|
    requires |a.owner| * CLUSTER <= |f| <= OFFSET_LIMIT && TablesReadable(f, t.l1)
    ensures WithoutFlag(t.l1[i]) != 0 ==> WithoutFlag(t.l1[i]) + CLUSTER <= |f|
    ensures TableRef(f, t.l1[i])[c] == if IsTableOrData(a, c, i + 1) && !IsTableOrData(a, c, i) then 1 else 0
    ensures IsTableOrData(a, c, i) ==> IsTableOrData(a, c, i + 1)
  {
    hide WithoutFlag, DataRefs, High, Low, HasL2s, Tabled, Owned, Entry, One;
    ImageReadable(f, a, t);
    OnlyTable(a, Base(|t.l1|), c, i);
    DataHasTable(a, t, c);
    if i in a.l2At {
      CountData(f, a, t, i, L2_ENTRIES, c);
      var at := a.l2At[i] * CLUSTER;
      CountOne(DataRefs(f[at..at + CLUSTER], L2_ENTRIES), a.l2At[i], c);
      assert One(a.l2At[i]) + DataRefs(f[at..at + CLUSTER], L2_ENTRIES) ==
             DataRefs(f[at..at + CLUSTER], L2_ENTRIES) + One(a.l2At[i]);
    }
  }

  lemma DataHasTable(a: Alloc, t: Tables, c: nat)
    requires Tabled(a, t) && Owned(a, Base(|t.l1|))
    ensures c < |a.owner| && a.owner[c].Data? ==>
              High(a.owner[c].guest) in a.l2At && High(a.owner[c].guest) < |t.l1| && Low(a.owner[c].guest) < L2_ENTRIES
    ensures c < |a.owner| && a.owner[c].L2? ==> a.owner[c].i < |t.l1|
  {
    hide Lists, L1Entry;
    if c < |a.owner| && (a.owner[c].Data? || a.owner[c].L2?) {
      assert HasPlace(a, c);
    }
  }

  lemma {:induction false} CountBlocks(f: seq<byte>, n: nat, tableClusters: nat, blocks: nat, i: nat, c: nat)
    requires HasRefcounts(f, n, tableClusters, blocks) && n > 0 && i <= tableClusters * L2_ENTRIES
    ensures var rt := f[n * CLUSTER..n * CLUSTER + tableClusters * CLUSTER];
            BlockRefs(rt, i)[c] ==
              if n + tableClusters <= c < n + tableClusters + (if i < blocks then i else blocks) then 1 else 0
  {
    hide FromBE, Slot, HasRefcounts, One;
    RefcountSizes(f, n, tableClusters, blocks);
    if i > 0 {
      var rt := f[n * CLUSTER..n * CLUSTER + tableClusters * CLUSTER];
      CountBlocks(f, n, tableClusters, blocks, i - 1, c);
      BlockEntry(f, n, tableClusters, blocks, i - 1);
      CountOne(BlockRefs(rt, i - 1), n + tableClusters + i - 1, c);
    }
  }

  lemma RefcountSizes(f: seq<byte>, n: nat, tableClusters: nat, blocks: nat)
    requires HasRefcounts(f, n, tableClusters, blocks)
    ensures |f| == (n + tableClusters + blocks) * CLUSTER && blocks <= tableClusters * L2_ENTRIES
  {
    hide HasTable, HasRefs;
  }

  // checkRefcounts succeeds on every finished image.
  lemma ImageIsSound(f: seq<byte>, size: nat, a: Alloc, t: Tables, disk: seq<byte>, tableClusters: nat, blocks: nat,
                     r: Reader)
    requires Image(f, size, a, t, disk, tableClusters, blocks) && Opens(f, r)
    ensures Walkable(r) && RefcountsSound(r)
  {
    hide HasTable, HasRefs, HeaderBytes, Pow256, FromBE, High, Low, Base, Opens, Lists, HasPlace, L1Size, Balanced,
         ClusterOf, Within, OffsetBits, WithoutFlag, Piece, U64, L1Entry, TableBytes, TablesReadable, HasL2s, HasData,
         Range, TableRefs, BlockRefs, HasRefcounts, CeilDiv, IsTableOrData;
    ImageOpens(f, size, a, t, disk, tableClusters, blocks);
    ImageHeader(f, size, a, t, disk, tableClusters, blocks);
    OwnedSizes(f, size, a, t, disk, tableClusters, blocks);
    OpenFile(f, r);
    ImageReadable(f, a, t);
    var n, total := |a.owner|, |a.owner| + tableClusters + blocks;
    RefcountSizes(f, n, tableClusters, blocks);
    forall c | 0 <= c < total ensures AllRefs(r)[c] == 1 {
      CountRange(1, CeilDiv(|t.l1| * 8, CLUSTER), c);
      CountTables(f, a, t, |t.l1|, c);
      CountRange(n, tableClusters, c);
      CountBlocks(f, n, tableClusters, blocks, tableClusters * L2_ENTRIES, c);
      OwnersSplit(a, t, c);
    }
  }

  // Below the refcounts a cluster is the header's, the L1 table's, or a table's or a
  // guest cluster's.
  lemma OwnersSplit(a: Alloc, t: Tables, c: nat)
    requires Owned(a, Base(|t.l1|)) && Tabled(a, t)
    ensures Base(|t.l1|) == 1 + CeilDiv(|t.l1| * 8, CLUSTER)
    ensures IsTableOrData(a, c, |t.l1|) <==> Base(|t.l1|) <= c < |a.owner|
  {
    hide Lists, L1Entry, High, Low;
    DataHasTable(a, t, c);
    if Base(|t.l1|) <= c < |a.owner| {
      assert HasPlace(a, c);
    }
  }

  // ---- From writes to reads ----

  // The clusters allocated for these guest clusters, before refcounts.
  ghost function ClustersFor(size: nat, guests: set<nat>): nat {
    Base(L1Size(size)) + |TablesOf(guests)| + |guests|
  }

  // The number of tables fits its 32-bit field, and the finished file is at most 2^56
  // bytes long.
  ghost predicate Roomy(size: nat, guests: set<nat>) {
    && L1Size(size) < 0x1_0000_0000
    && exists b, t :: Balanced(ClustersFor(size, guests), b, t) &&
                      (ClustersFor(size, guests) + t + b) * CLUSTER <= OFFSET_LIMIT
  }

  // What holds data is allocated.
  lemma DataAllocated(a: Alloc, file: seq<byte>, disk: seq<byte>)
    requires Backed(a, file, disk)
    ensures DataUnits(CLUSTER_PAGES, disk) <= a.dataAt.Keys
  {
    hide UnitOf, ClusterOf, Within;
    forall u | u in DataUnits(CLUSTER_PAGES, disk)
      ensures u in a.dataAt
    {
      var y :| 0 <= y < |disk| && UnitOf(CLUSTER_PAGES, y) == u && disk[y] != 0;
      ClusterIsUnit(y);
      assert disk[y] == Stored(a, file, y);
    }
  }

  // Exactly the clusters with data and the tables for them are allocated.
  lemma AllocatedExactly(w: Writer, guests: set<nat>)
    requires w.Valid() && w.Confined(guests) && guests <= DataUnits(CLUSTER_PAGES, w.disk)
    ensures |w.alloc.owner| == ClustersFor(w.size, guests)
  {
    hide Owned, DataUnits, Base, L1Size, Lists, High;
    DataAllocated(w.alloc, w.file, w.disk);
    assert w.alloc.dataAt.Keys == guests;
    forall i | i in TablesOf(guests)
      ensures i in w.alloc.l2At
    {
    }
    assert w.alloc.l2At.Keys == TablesOf(guests);
    assert |w.alloc.dataAt| == |w.alloc.dataAt.Keys| && |w.alloc.l2At| == |w.alloc.l2At.Keys|;
  }

  // With room everything fits the fields it is written to.
  lemma SizesFit(f: seq<byte>, size: nat, guests: set<nat>, a: Alloc, t: Tables, disk: seq<byte>, tableClusters: nat,
                 blocks: nat)
    requires |t.l1| == L1Size(size) && Roomy(size, guests) && |a.owner| == ClustersFor(size, guests)
    requires Finished(f, size, a, t, disk, tableClusters, blocks)
    requires forall b, t :: Balanced(|a.owner|, b, t) ==> blocks <= b && tableClusters <= t
    ensures Fits(f, size, t, tableClusters)
  {
    hide Filled, HeaderBytes, Piece, Balanced, ClustersFor;
    var b, tc :| Balanced(|a.owner|, b, tc) && (|a.owner| + tc + b) * CLUSTER <= OFFSET_LIMIT;
    TableSmall(|a.owner|, blocks, tableClusters);
    Widths();
  }

  lemma TableSmall(used: nat, blocks: nat, tableClusters: nat)
    requires Balanced(used, blocks, tableClusters) && (used + tableClusters + blocks) * CLUSTER <= OFFSET_LIMIT
    ensures tableClusters < 0x1_0000_0000
  {
  }

  // Write, finish, open and read back: each written byte, zero elsewhere, and
  // refcounts that check out.
  method ExportAndRead(size: nat, ws: seq<Write>, off: nat, n: nat) returns (p: Option<seq<byte>>, sound: bool)
    requires size > 0 && InBounds(ws, size) && Apart(ws) && off + n <= size
    requires Roomy(size, DataUnits(CLUSTER_PAGES, Contents(size, ws)))
    ensures p == Some(Contents(size, ws)[off..off + n]) && sound
  {
    hide Ok, Counted, Finished, Splice, Contents, Fits, DiskByte, Opens, Unreadable, RefcountsSound, Walkable, Image;
    hide DataUnits, Roomy, ClustersFor;
    var w := new Writer(size);
    ghost var within := DataUnits(CLUSTER_PAGES, Contents(size, ws));
    var k := 0;
    NothingYet(size, ws);
    while k < |ws|
      invariant 0 <= k <= |ws| && w.Valid() && w.size == size && w.Confined(within)
      invariant InBounds(ws[..k], size) && w.disk == Contents(size, ws[..k])
    {
      OneMoreWrite(size, ws, k);
      WriteHasUnits(CLUSTER_PAGES, size, ws, k);
      var ok := w.WriteAt(ws[k].data, ws[k].off);
      k := k + 1;
    }
    assert ws[..k] == ws;
    ghost var t := Tables(w.l1, w.l2);
    var f;
    ghost var tc, blocks;
    f, tc, blocks := Finish(w);
    OkSize(size, w.alloc, t, w.file, w.disk);
    AllocatedExactly(w, within);
    SizesFit(f, size, within, w.alloc, t, w.disk, tc, blocks);
    IsImage(f, size, w.alloc, t, w.file, w.disk, tc, blocks);
    ImageOpens(f, size, w.alloc, t, w.disk, tc, blocks);
    var r := Open(f);
    ghost var g := w.disk;
    forall y | 0 <= y < size ensures Covered(r.value) && High(ClusterOf(y)) < |r.value.l1| &&
                                     DiskByte(r.value, y) == Some(g[y]) {
      ImageReads(f, size, w.alloc, t, g, tc, blocks, r.value, y);
    }
    p := ReadAt(r.value, off, n);
    assert p.value == g[off..off + n];
    ImageIsSound(f, size, w.alloc, t, g, tc, blocks, r.value);
    WalkFacts(r.value);
    sound := CheckRefcounts(r.value);
  }

  lemma OkSize(size: nat, a: Alloc, t: Tables, file: seq<byte>, disk: seq<byte>)
    requires Ok(size, a, t, file, disk)
    ensures |t.l1| == L1Size(size)
  {
  }

  lemma IsImage(f: seq<byte>, size: nat, a: Alloc, t: Tables, file: seq<byte>, disk: seq<byte>, tableClusters: nat,
                blocks: nat)
    requires size > 0 && Ok(size, a, t, file, disk) && Finished(f, size, a, t, disk, tableClusters, blocks)
    requires Fits(f, size, t, tableClusters)
    ensures Image(f, size, a, t, disk, tableClusters, blocks)
  {
    hide Owned, Tabled, Backed, Finished, Fits;
  }

  lemma WalkFacts(r: Reader)
    requires Walkable(r)
    ensures |r.file| >= 104 && U64(r.file, 48) + TableBytes(r.file) <= |r.file|
  {
  }
}
