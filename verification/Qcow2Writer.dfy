/** Writing a qcow2 image (diskimage/qcow2.go): clusters are allocated when data is
first written to them, so a cluster of the file belongs to exactly one thing. */
module Qcow2Writer {
  import opened Bytes
  import opened ImageFiles

  const CLUSTER := 65536
  const CLUSTER_PAGES := 16
  const L2_ENTRIES := 8192
  const REFS_PER_BLOCK := 32768
  const COPIED := 0x8000_0000_0000_0000

  // A table entry: the cluster's offset in the file, with the copied flag.
  function Entry(c: nat): nat {
    c * CLUSTER + COPIED
  }

  function CeilDiv(a: nat, b: nat): nat
    requires b > 0
  {
    (a + b - 1) / b
  }

  // The least number of pieces of b that hold a.
  lemma CeilDivIs(a: nat, b: nat)
    requires b > 0
    ensures a <= CeilDiv(a, b) * b < a + b
  {
    var q, r := (a + b - 1) / b, (a + b - 1) % b;
    assert a + b - 1 == q * b + r;
  }

  // ---- Who owns a cluster of the file ----

  datatype Owner = Header | L1 | L2(i: nat) | Data(guest: nat)

  // owner[c] owns cluster c; l2At and dataAt say where tables and guest clusters are.
  datatype Alloc = Alloc(owner: seq<Owner>, l2At: map<nat, nat>, dataAt: map<nat, nat>)

  datatype Tables = Tables(l1: seq<nat>, l2: seq<seq<nat>>)

  ghost predicate Places(a: Alloc, base: nat) {
    && (forall i :: i in a.l2At ==> base <= a.l2At[i] < |a.owner| && a.owner[a.l2At[i]] == L2(i))
    && (forall x :: x in a.dataAt ==> base <= a.dataAt[x] < |a.owner| && a.owner[a.dataAt[x]] == Data(x))
  }

  // Every cluster from base on is a table or a guest cluster, at its place.
  ghost predicate Owned(a: Alloc, base: nat) {
    && 1 <= base <= |a.owner| && a.owner[0] == Header
    && (forall c :: 1 <= c < base ==> a.owner[c] == L1)
    && Places(a, base)
    && (forall c :: base <= c < |a.owner| ==> HasPlace(a, c))
  }

  ghost predicate HasPlace(a: Alloc, c: nat)
    requires c < |a.owner|
  {
    match a.owner[c]
    case L2(i) => i in a.l2At && a.l2At[i] == c
    case Data(x) => x in a.dataAt && a.dataAt[x] == c
    case _ => false
  }

  // Guest cluster x is entry Low(x) of table High(x).
  function High(x: nat): nat {
    x / L2_ENTRIES
  }

  function Low(x: nat): nat {
    x % L2_ENTRIES
  }

  function Guest(i: nat, j: nat): nat {
    i * L2_ENTRIES + j
  }

  // The tables guest clusters are in.
  ghost function TablesOf(guests: set<nat>): set<nat> {
    set x | x in guests :: High(x)
  }

  lemma Split(i: nat, j: nat)
    requires j < L2_ENTRIES
    ensures High(Guest(i, j)) == i && Low(Guest(i, j)) == j
  {
  }

  lemma Join(x: nat)
    ensures Guest(High(x), Low(x)) == x && Low(x) < L2_ENTRIES
  {
  }

  ghost function L1Entry(a: Alloc, i: nat): nat {
    if i in a.l2At then Entry(a.l2At[i]) else 0
  }

  ghost function GuestEntry(a: Alloc, x: nat): nat {
    if x in a.dataAt then Entry(a.dataAt[x]) else 0
  }

  // Table i of t lists the guest clusters it is for.
  ghost predicate Lists(a: Alloc, table: seq<nat>, i: nat) {
    forall j :: 0 <= j < |table| ==> table[j] == GuestEntry(a, Guest(i, j))
  }

  // The tables say what the allocation is.
  ghost predicate Tabled(a: Alloc, t: Tables) {
    && |t.l2| == |t.l1|
    && (forall i :: i in a.l2At ==> i < |t.l1|)
    && (forall x :: x in a.dataAt ==> High(x) in a.l2At)
    && (forall i :: 0 <= i < |t.l1| ==> t.l1[i] == L1Entry(a, i))
    && (forall i :: 0 <= i < |t.l1| ==> |t.l2[i]| == if i in a.l2At then L2_ENTRIES else 0)
    && (forall i :: 0 <= i < |t.l1| ==> Lists(a, t.l2[i], i))
  }

  // Byte y of the disk is byte Within(y) of guest cluster ClusterOf(y).
  function ClusterOf(y: nat): nat {
    y / CLUSTER
  }

  function Within(y: nat): nat {
    y % CLUSTER
  }

  // What is stored for byte y of the disk.
  ghost function Stored(a: Alloc, file: seq<byte>, y: nat): byte {
    if ClusterOf(y) in a.dataAt then ByteAt(file, a.dataAt[ClusterOf(y)] * CLUSTER + Within(y)) else 0
  }

  // The file holds the disk.
  ghost predicate Backed(a: Alloc, file: seq<byte>, disk: seq<byte>) {
    && |file| <= |a.owner| * CLUSTER
    && forall y :: 0 <= y < |disk| ==> disk[y] == Stored(a, file, y)
  }

  // ---- Allocating ----

  function EmptyTable(): (t: seq<nat>)
    ensures |t| == L2_ENTRIES && forall j :: 0 <= j < L2_ENTRIES ==> t[j] == 0
  {
    seq<nat>(L2_ENTRIES, _ => 0)
  }

  function PutEntry(t: seq<nat>, j: nat, e: nat): seq<nat>
    requires j < |t|
  {
    t[j := e]
  }

  ghost function WithL2(a: Alloc, i: nat): Alloc {
    Alloc(a.owner + [L2(i)], a.l2At[i := |a.owner|], a.dataAt)
  }

  ghost function WithData(a: Alloc, x: nat): Alloc {
    Alloc(a.owner + [Data(x)], a.l2At, a.dataAt[x := |a.owner|])
  }

  lemma L2Owned(a: Alloc, base: nat, i: nat)
    requires Owned(a, base) && i !in a.l2At
    ensures Owned(WithL2(a, i), base)
  {
    var a' := WithL2(a, i);
    forall c | base <= c < |a'.owner| ensures HasPlace(a', c) {
      assert c < |a.owner| ==> HasPlace(a, c);
    }
  }

  lemma DataOwned(a: Alloc, base: nat, x: nat)
    requires Owned(a, base) && x !in a.dataAt
    ensures Owned(WithData(a, x), base)
  {
    var a' := WithData(a, x);
    forall c | base <= c < |a'.owner| ensures HasPlace(a', c) {
      assert c < |a.owner| ==> HasPlace(a, c);
    }
  }

  function L2Tables(t: Tables, i: nat, c: nat): Tables
    requires i < |t.l1| && i < |t.l2|
  {
    Tables(t.l1[i := Entry(c)], t.l2[i := EmptyTable()])
  }

  function DataTables(t: Tables, x: nat, c: nat): Tables
    requires High(x) < |t.l2| && Low(x) < |t.l2[High(x)]|
  {
    Tables(t.l1, t.l2[High(x) := PutEntry(t.l2[High(x)], Low(x), Entry(c))])
  }

  lemma L2Tabled(a: Alloc, t: Tables, i: nat)
    requires Tabled(a, t) && i < |t.l1| && i !in a.l2At
    ensures Tabled(WithL2(a, i), L2Tables(t, i, |a.owner|))
  {
    hide High, Low, Guest, Entry;
    var a', t' := WithL2(a, i), L2Tables(t, i, |a.owner|);
    forall m | 0 <= m < |t'.l1| ensures Lists(a', t'.l2[m], m) {
      assert Lists(a, t.l2[m], m);
      forall j | 0 <= j < |t'.l2[m]| ensures t'.l2[m][j] == GuestEntry(a', Guest(m, j)) {
        assert m == i ==> High(Guest(m, j)) == i by {
          if m == i {
            Split(m, j);
          }
        }
      }
    }
  }

  lemma DataTabled(a: Alloc, t: Tables, x: nat)
    requires Tabled(a, t) && High(x) in a.l2At && x !in a.dataAt
    ensures High(x) < |t.l2| && Low(x) < |t.l2[High(x)]| && Tabled(WithData(a, x), DataTables(t, x, |a.owner|))
  {
    hide High, Low, Guest, Entry;
    Join(x);
    var a', t' := WithData(a, x), DataTables(t, x, |a.owner|);
    forall m | 0 <= m < |t'.l1| ensures Lists(a', t'.l2[m], m) {
      assert Lists(a, t.l2[m], m);
      forall j | 0 <= j < |t'.l2[m]| ensures t'.l2[m][j] == GuestEntry(a', Guest(m, j)) {
        Split(m, j);
      }
    }
  }

  lemma L2Backed(a: Alloc, i: nat, file: seq<byte>, disk: seq<byte>)
    requires Backed(a, file, disk)
    ensures Backed(WithL2(a, i), file, disk)
  {
    hide ClusterOf, Within;
    forall y | 0 <= y < |disk| ensures disk[y] == Stored(WithL2(a, i), file, y) {
      assert disk[y] == Stored(a, file, y);
    }
  }

  // A new cluster lies beyond the end of the file, so it reads as zeros.
  lemma DataBacked(a: Alloc, x: nat, file: seq<byte>, disk: seq<byte>)
    requires Backed(a, file, disk) && x !in a.dataAt
    ensures Backed(WithData(a, x), file, disk)
  {
    hide ClusterOf, Within;
    forall y | 0 <= y < |disk| ensures disk[y] == Stored(WithData(a, x), file, y) {
      assert disk[y] == Stored(a, file, y);
    }
  }

  // Writing inside one allocated cluster changes that part of the disk and no other.
  lemma WriteCluster(a: Alloc, base: nat, file: seq<byte>, disk: seq<byte>, off: nat, b: seq<byte>)
    requires Owned(a, base) && Backed(a, file, disk) && ClusterOf(off) in a.dataAt
    requires b != [] && Within(off) + |b| <= CLUSTER && off + |b| <= |disk|
    ensures Backed(a, Written(file, a.dataAt[ClusterOf(off)] * CLUSTER + Within(off), b), Splice(disk, off, b))
  {
    hide Written, ByteAt;
    var x := ClusterOf(off);
    var at := a.dataAt[x] * CLUSTER + Within(off);
    var file' := Written(file, at, b);
    WrittenBytes(file, at, b);
    forall y | 0 <= y < |disk| ensures Splice(disk, off, b)[y] == Stored(a, file', y) {
      assert disk[y] == Stored(a, file, y);
      SpliceByte(disk, off, b, y);
      if ClusterOf(y) != x && ClusterOf(y) in a.dataAt {
        OwnPlace(a, base, x, ClusterOf(y));
      }
    }
  }

  lemma OwnPlace(a: Alloc, base: nat, x: nat, y: nat)
    requires Owned(a, base) && x in a.dataAt && y in a.dataAt && x != y
    ensures a.dataAt[x] != a.dataAt[y]
  {
    assert a.owner[a.dataAt[x]] == Data(x) && a.owner[a.dataAt[y]] == Data(y);
  }

  // ---- The writer ----

  function L1Size(size: nat): nat {
    CeilDiv(CeilDiv(size, CLUSTER), L2_ENTRIES)
  }

  // The first cluster behind the header and the L1 table.
  function Base(l1Size: nat): nat {
    1 + CeilDiv(l1Size * 8, CLUSTER)
  }

  // Table entries just cover the disk, at 64 KiB each and 8192 to a table, and the clusters
  // behind the header just hold the L1 table.
  lemma Measures(size: nat)
    ensures size <= L1Size(size) * 8192 * 65536 < size + 8192 * 65536 + 65536
    ensures L1Size(size) * 8 <= (Base(L1Size(size)) - 1) * 65536 < L1Size(size) * 8 + 65536
  {
    hide CeilDiv;
    CeilDivIs(size, CLUSTER);
    CeilDivIs(CeilDiv(size, CLUSTER), L2_ENTRIES);
    CeilDivIs(L1Size(size) * 8, CLUSTER);
  }

  lemma InRange(size: nat, off: nat)
    requires off < size
    ensures High(ClusterOf(off)) < L1Size(size)
  {
  }

  // Cluster 0, field by field.
  function HeaderFields(size: nat, l1Size: nat, tableOffset: nat, tableClusters: nat): seq<seq<byte>> {
    [BE(0x514649fb, 4), BE(3, 4), Zeros(12), BE(16, 4), BE(size, 8), Zeros(4), BE(l1Size, 4), BE(CLUSTER, 8),
     BE(tableOffset, 8), BE(tableClusters, 4), Zeros(36), BE(4, 4), BE(104, 4), Zeros(CLUSTER - 104)]
  }

  // Where the fields begin.
  lemma HeaderStarts(size: nat, l1Size: nat, tableOffset: nat, tableClusters: nat)
    ensures var fs := HeaderFields(size, l1Size, tableOffset, tableClusters);
            && |fs| == 14 && Start(fs, 1) == 4 && Start(fs, 2) == 8 && Start(fs, 3) == 20 && Start(fs, 4) == 24
            && Start(fs, 5) == 32 && Start(fs, 6) == 36 && Start(fs, 7) == 40 && Start(fs, 8) == 48
            && Start(fs, 9) == 56 && Start(fs, 10) == 60 && Start(fs, 11) == 96 && Start(fs, 14) == CLUSTER
  {
    hide BE;
    var fs := HeaderFields(size, l1Size, tableOffset, tableClusters);
    assert Start(fs, 0) == 0;
    assert Start(fs, 1) == 4;
    assert Start(fs, 2) == 8;
    assert Start(fs, 3) == 20;
    assert Start(fs, 4) == 24;
    assert Start(fs, 5) == 32;
    assert Start(fs, 6) == 36;
    assert Start(fs, 7) == 40;
    assert Start(fs, 8) == 48;
    assert Start(fs, 9) == 56;
    assert Start(fs, 10) == 60;
    assert Start(fs, 11) == 96;
    assert Start(fs, 12) == 100;
    assert Start(fs, 13) == 104;
  }

  function HeaderBytes(size: nat, l1Size: nat, tableOffset: nat, tableClusters: nat): (h: seq<byte>)
    ensures |h| == CLUSTER
  {
    var fs := HeaderFields(size, l1Size, tableOffset, tableClusters);
    HeaderStarts(size, l1Size, tableOffset, tableClusters);
    FlatLength(fs);
    Flat(fs)
  }

  // Nothing but tables and guest clusters is allocated.
  ghost predicate Counted(a: Alloc, l1Size: nat) {
    |a.owner| == Base(l1Size) + |a.l2At| + |a.dataAt|
  }

  ghost predicate Ok(size: nat, a: Alloc, t: Tables, file: seq<byte>, disk: seq<byte>) {
    && |disk| == size && |t.l1| == L1Size(size)
    && Owned(a, Base(|t.l1|)) && Tabled(a, t) && Backed(a, file, disk)
  }

  class Writer {
    const size: nat
    var file: seq<byte>
    var l1: seq<nat>
    var l2: seq<seq<nat>>
    var nextClust: nat

    ghost var alloc: Alloc
    ghost var disk: seq<byte> // what has been written to the virtual disk

    ghost predicate Valid()
      reads this
    {
      && |disk| == size && nextClust == |alloc.owner| && Ok(size, alloc, Tables(l1, l2), file, disk)
      && Counted(alloc, |l1|)
    }

    // Only guest clusters of the set and tables for them are allocated.
    ghost predicate Confined(within: set<nat>)
      reads this
    {
      alloc.dataAt.Keys <= within && alloc.l2At.Keys <= TablesOf(within)
    }

    constructor (size: nat)
      requires size > 0
      ensures Valid() && this.size == size && disk == Zeros(size) && Confined({})
    {
      hide HeaderBytes;
      var l1Size := L1Size(size);
      this.size := size;
      l1, l2 := seq<nat>(l1Size, _ => 0), seq<seq<nat>>(l1Size, _ => []);
      nextClust := Base(l1Size);
      file := HeaderBytes(size, l1Size, 0, 0);
      disk := Zeros(size);
      alloc := Alloc([Header] + seq(Base(l1Size) - 1, _ => L1), map[], map[]);
    }

    method AllocCluster() returns (c: nat)
      modifies this`nextClust
      ensures c == old(nextClust) && nextClust == c + 1
    {
      c := nextClust;
      nextClust := nextClust + 1;
    }

    // Write b, which lies within one cluster, allocating what it needs.
    method WriteInCluster(off: nat, b: seq<byte>)
      requires Valid() && b != [] && Within(off) + |b| <= CLUSTER && off + |b| <= size
      modifies this
      ensures Valid() && disk == Splice(old(disk), off, b)
      ensures forall within :: old(Confined(within)) && ClusterOf(off) in within ==> Confined(within)
    {
      hide Owned, Tabled, Backed, ClusterOf, Within, High, Low, Entry, Splice, Written, L1Size, Base, Counted, CeilDiv;
      var x := ClusterOf(off);
      InRange(size, off);
      Provide(x);
      WriteCluster(alloc, Base(|l1|), file, disk, off, b);
      EntryIs(alloc, Tables(l1, l2), x);
      var at := l2[High(x)][Low(x)] - COPIED + Within(off);
      file := Written(file, at, b);
      disk := Splice(disk, off, b);
    }

    // See to it that guest cluster x has a table to be in, and a cluster in the file.
    method Provide(x: nat)
      requires Valid() && High(x) < |l1|
      modifies this
      ensures Valid() && x in alloc.dataAt && file == old(file) && disk == old(disk) && |l1| == old(|l1|)
      ensures forall within :: old(Confined(within)) && x in within ==> Confined(within)
    {
      hide Ok, Counted;
      ProvideTable(High(x));
      ProvideData(x);
    }

    method ProvideTable(i: nat)
      requires Valid() && i < |l1|
      modifies this
      ensures Valid() && i in alloc.l2At && file == old(file) && disk == old(disk) && |l1| == old(|l1|)
      ensures alloc.dataAt == old(alloc.dataAt) && alloc.l2At.Keys == old(alloc.l2At.Keys) + {i}
    {
      hide Owned, Backed, Entry, L1Size, Base, Lists, CeilDiv, High, GuestEntry, L1Entry;
      if l2[i] == [] {
        var c := AllocCluster();
        L2Owned(alloc, Base(|l1|), i);
        L2Tabled(alloc, Tables(l1, l2), i);
        L2Backed(alloc, i, file, disk);
        alloc := WithL2(alloc, i);
        l1, l2 := l1[i := Entry(c)], l2[i := EmptyTable()];
      }
    }

    method ProvideData(x: nat)
      requires Valid() && High(x) in alloc.l2At
      modifies this
      ensures Valid() && x in alloc.dataAt && file == old(file) && disk == old(disk) && l1 == old(l1)
      ensures alloc.dataAt.Keys == old(alloc.dataAt.Keys) + {x} && alloc.l2At == old(alloc.l2At)
    {
      hide Owned, Tabled, Backed, High, Low, Entry, L1Size, Base, CeilDiv;
      Entered(alloc, Tables(l1, l2), x);
      if l2[High(x)][Low(x)] == 0 {
        var c := AllocCluster();
        DataOwned(alloc, Base(|l1|), x);
        DataTabled(alloc, Tables(l1, l2), x);
        DataBacked(alloc, x, file, disk);
        alloc := WithData(alloc, x);
        l2 := l2[High(x) := PutEntry(l2[High(x)], Low(x), Entry(c))];
      }
    }

    method WriteRun(off0: nat, p0: seq<byte>)
      requires Valid() && off0 + |p0| <= size
      modifies this
      ensures Valid() && disk == Splice(old(disk), off0, p0)
      ensures forall within :: old(Confined(within)) && Touches(CLUSTER_PAGES, off0, |p0|, within) ==> Confined(within)
    {
      hide Ok, Splice, Counted, ClusterOf, UnitOf;
      var off, p := off0, p0;
      ghost var was := disk;
      NoSplice(was, off0, p0);
      while p != []
        invariant off0 <= off <= off0 + |p0| && p == p0[off - off0..]
        invariant forall within ::
                    old(Confined(within)) && Touches(CLUSTER_PAGES, off0, |p0|, within) ==> Confined(within)
        invariant Valid() && |disk| == |was| == size && disk == Splice(was, off0, p0[..off - off0])
        decreases |p|
      {
        var n := if Within(off) + |p| > CLUSTER then CLUSTER - Within(off) else |p|;
        ClusterIsUnit(off);
        WriteInCluster(off, p[..n]);
        SpliceMore(was, off0, p0, off - off0, n);
        off, p := off + n, p[n..];
      }
      assert p0[..off - off0] == p0;
    }

    // Only the runs of p that hold data are stored; where p is zero the disk stays as
    // it was.
    method WriteAt(p: seq<byte>, off: nat) returns (ok: bool)
      requires Valid()
      modifies this
      ensures Valid() && (ok <==> off + |p| <= size)
      ensures ok ==> exists runs :: CoversData(runs, p, |p|) && Laid(old(disk), disk, off, p, runs)
      ensures ok && IsZero(old(disk)[off..off + |p|]) ==> disk == Splice(old(disk), off, p)
      ensures !ok ==> disk == old(disk)
      // Only clusters with data in them are allocated.
      ensures forall within :: old(Confined(within)) && DataWithin(CLUSTER_PAGES, off, p, within) ==> Confined(within)
    {
      hide Ok, Splice, CoversData, Counted, Tight, DataWithin, Touches, Confined;
      if off + |p| > size {
        return false;
      }
      var runs := DataRuns(off, p);
      ghost var was := disk;
      var k := 0;
      NothingLaid(was, off, p, runs);
      while k < |runs|
        invariant 0 <= k <= |runs| && Valid() && |disk| == |was| == size && Laid(was, disk, off, p, runs[..k])
        invariant forall within ::
                    old(Confined(within)) && DataWithin(CLUSTER_PAGES, off, p, within) ==> Confined(within)
      {
        RunInside(runs, p, k);
        var r := runs[k];
        forall within | DataWithin(CLUSTER_PAGES, off, p, within)
          ensures Touches(CLUSTER_PAGES, off + r.start, r.end - r.start, within)
        {
          RunWithin(CLUSTER_PAGES, off, p, runs, k, within);
        }
        LayRun(was, disk, off, p, runs, k);
        WriteRun(off + r.start, p[r.start..r.end]);
        k := k + 1;
      }
      assert runs[..k] == runs;
      if IsZero(was[off..off + |p|]) {
        AllLaid(was, disk, off, p, runs);
      }
      return true;
    }
  }

  lemma ClusterIsUnit(y: nat)
    ensures ClusterOf(y) == UnitOf(CLUSTER_PAGES, y)
  {
  }

  lemma EntryIs(a: Alloc, t: Tables, x: nat)
    requires Tabled(a, t) && x in a.dataAt
    ensures High(x) < |t.l2| && Low(x) < |t.l2[High(x)]| && t.l2[High(x)][Low(x)] == a.dataAt[x] * CLUSTER + COPIED
  {
    Join(x);
    assert Lists(a, t.l2[High(x)], High(x));
  }

  lemma Entered(a: Alloc, t: Tables, x: nat)
    requires Tabled(a, t) && High(x) in a.l2At
    ensures High(x) < |t.l2| && Low(x) < |t.l2[High(x)]| && (t.l2[High(x)][Low(x)] == 0 <==> x !in a.dataAt)
  {
    Join(x);
    assert Lists(a, t.l2[High(x)], High(x));
  }
}
