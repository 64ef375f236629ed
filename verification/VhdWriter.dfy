/** Writing a dynamic VHD (diskimage/vhd.go): 2 MiB blocks, each led by a bitmap of
the sectors written to it, allocated on the first write of data. */
module VhdWriter {
  import opened Bytes
  import opened ImageFiles

  const SECTOR := 512
  const BLOCK_BYTES := 2097152
  const BLOCK_PAGES := 512
  const STRIDE := 4097 // sectors a block takes: its bitmap and its data
  const UNALLOCATED := 0xFFFF_FFFF
  const BAT_OFFSET := 1536

  function CeilDiv(a: nat, b: nat): nat
    requires b > 0
  {
    (a + b - 1) / b
  }

  // The least number of pieces of b that hold a.
  lemma CeilDivIs(a: nat, b: nat)
    requires b > 0
    ensures a <= CeilDiv(a, b) * b < a + b
  {
    var q, r := (a + b - 1) / b, (a + b - 1) % b;
    assert a + b - 1 == q * b + r;
  }

  function Blocks(size: nat): nat {
    CeilDiv(size, BLOCK_BYTES)
  }

  function BatBytes(blocks: nat): nat {
    CeilDiv(blocks * 4, SECTOR) * SECTOR
  }

  // The first sector behind the block allocation table.
  function FirstSector(blocks: nat): nat {
    (BAT_OFFSET + BatBytes(blocks)) / SECTOR
  }

  // The blocks just hold the disk, the table's sectors just hold its entries, and the first
  // block is right behind the table.
  lemma Measures(size: nat)
    ensures size <= Blocks(size) * 2097152 < size + 2097152
    ensures Blocks(size) * 4 <= BatBytes(Blocks(size)) < Blocks(size) * 4 + 512 && BatBytes(Blocks(size)) % 512 == 0
    ensures FirstSector(Blocks(size)) * 512 == 1536 + BatBytes(Blocks(size))
  {
    hide CeilDiv;
    CeilDivIs(size, BLOCK_BYTES);
    CeilDivIs(Blocks(size) * 4, SECTOR);
  }

  // There is room for n blocks: the sector of each fits the table's 32-bit entries and is
  // not the mark for an unallocated one.  The header counts the table in 32 bits.
  predicate Roomy(size: nat, n: nat) {
    && Blocks(size) < 0x1_0000_0000
    && (n > 0 ==> FirstSector(Blocks(size)) + (n - 1) * STRIDE < UNALLOCATED)
  }

  // The sector the writer gives the k-th block it allocates.
  function SectorOf(size: nat, k: nat): nat {
    FirstSector(Blocks(size)) + k * STRIDE
  }

  predicate EntryExact(sector: nat) {
    sector % 0x1_0000_0000 == sector != UNALLOCATED
  }

  // The writer cuts a block's sector to 32 bits.  That loses nothing for n blocks exactly
  // when there is room for them.
  lemma RoomExactly(size: nat, n: nat)
    requires Blocks(size) < 0x1_0000_0000
    ensures Roomy(size, n) <==> forall k :: 0 <= k < n ==> EntryExact(SectorOf(size, k))
  {
    hide FirstSector;
    if n > 0 && !Roomy(size, n) {
      assert !EntryExact(SectorOf(size, n - 1));
    }
  }

  // Without room, some block's entry says there is none, or sends it over the tables or
  // the first block.
  lemma {:induction false} Overwritten(size: nat, n: nat) returns (k: nat)
    requires Blocks(size) < 0x1_0000_0000 && !Roomy(size, n)
    ensures k < n
    ensures var s := SectorOf(size, k);
            s == UNALLOCATED || s % 0x1_0000_0000 < FirstSector(Blocks(size)) + STRIDE
  {
    hide FirstSector;
    FirstSectorSmall(Blocks(size));
    k := n - 1;
    if k > 0 && SectorOf(size, k - 1) >= UNALLOCATED {
      k := Overwritten(size, n - 1);
    }
  }

  lemma FirstSectorSmall(blocks: nat)
    requires blocks < 0x1_0000_0000
    ensures FirstSector(blocks) < 0x1_0000_0000 - STRIDE
  {
  }

  // A disk of 2 TiB with data everywhere has no room; one of 3 TiB with a million blocks of
  // data has.
  lemma RoomSizes()
    ensures !Roomy(0x200_0000_0000, Blocks(0x200_0000_0000))
    ensures Roomy(0x300_0000_0000, 1_000_000) && 1_000_000 < Blocks(0x300_0000_0000)
  {
  }

  // ---- Bits ----

  // Sector s of a block is bit s % 8 of byte s / 8 of its bitmap, highest bit first.
  function Mask(k: nat): bv8
    requires k < 8
  {
    0x80 >> k
  }

  predicate Bit(b: byte, k: nat)
    requires k < 8
  {
    (b as bv8) & Mask(k) != 0
  }

  function SetBit(b: byte, k: nat): byte
    requires k < 8
  {
    ((b as bv8) | Mask(k)) as nat
  }

  lemma OrBit(x: bv8, k: nat, j: nat)
    requires k < 8 && j < 8
    ensures (x | Mask(k)) & Mask(j) != 0 <==> j == k || x & Mask(j) != 0
  {
  }

  lemma BackAndForth(x: bv8)
    ensures (x as nat) as bv8 == x
  {
  }

  lemma SetBitBits(b: byte, k: nat, j: nat)
    requires k < 8 && j < 8
    ensures Bit(SetBit(b, k), j) <==> j == k || Bit(b, j)
  {
    OrBit(b as bv8, k, j);
    BackAndForth((b as bv8) | Mask(k));
  }

  predicate Marked(bm: seq<byte>, s: nat)
    requires s < |bm| * 8
  {
    Bit(bm[s / 8], s % 8)
  }

  function Mark(bm: seq<byte>, s: nat): (r: seq<byte>)
    requires s < |bm| * 8
    ensures |r| == |bm|
  {
    bm[s / 8 := SetBit(bm[s / 8], s % 8)]
  }

  lemma MarkMarks(bm: seq<byte>, s: nat, t: nat)
    requires s < |bm| * 8 && t < |bm| * 8
    ensures Marked(Mark(bm, s), t) <==> t == s || Marked(bm, t)
  {
    hide Bit, SetBit;
    SetBitBits(bm[s / 8], s % 8, t % 8);
  }

  // The weights of a byte's bits, in the order of the sectors.
  const WEIGHTS: seq<bv8> := [0x80, 0x40, 0x20, 0x10, 0x08, 0x04, 0x02, 0x01]

  lemma MaskWeight(k: nat)
    requires k < 8
    ensures Mask(k) == WEIGHTS[k]
  {
  }

  // Sector s is the bit of weight 2^(7 - s % 8) of byte s / 8.
  lemma MarkedInNumbers(bm: seq<byte>, s: nat)
    requires s < |bm| * 8
    ensures Marked(bm, s) <==> (bm[s / 8] as bv8) & WEIGHTS[s % 8] != 0
  {
    hide Mask;
    MaskWeight(s % 8);
  }

  // In a byte of an empty bitmap.
  lemma MarkedFirst(bm: seq<byte>, s: nat)
    requires s < |bm| * 8 && bm[s / 8] == 0
    ensures Mark(bm, s)[s / 8] == [128, 64, 32, 16, 8, 4, 2, 1][s % 8]
  {
    hide Mask;
    MaskWeight(s % 8);
    assert (bm[s / 8] as bv8) | WEIGHTS[s % 8] == WEIGHTS[s % 8];
  }

  method MarkSectors(bm0: seq<byte>, first: nat, last: nat) returns (bm: seq<byte>)
    requires |bm0| == SECTOR && first <= last < SECTOR * 8
    ensures |bm| == SECTOR
    ensures forall t :: 0 <= t < SECTOR * 8 ==> (Marked(bm, t) <==> first <= t <= last || Marked(bm0, t))
  {
    hide Bit, Mark, Marked;
    bm := bm0;
    var s := first;
    while s <= last
      invariant first <= s <= last + 1 && |bm| == SECTOR
      invariant forall t :: 0 <= t < SECTOR * 8 ==> (Marked(bm, t) <==> first <= t < s || Marked(bm0, t))
    {
      forall t | 0 <= t < SECTOR * 8 ensures Marked(Mark(bm, s), t) <==> first <= t < s + 1 || Marked(bm0, t) {
        MarkMarks(bm, s, t);
      }
      bm := Mark(bm, s);
      s := s + 1;
    }
  }

  // ---- Where the blocks are ----

  function BlockOf(y: nat): nat {
    y / BLOCK_BYTES
  }

  function InBlock(y: nat): nat {
    y % BLOCK_BYTES
  }

  function SectorIn(y: nat): nat {
    y % BLOCK_BYTES / SECTOR
  }

  // Where the k-th block's bitmap begins, in the file; its data follows one sector on.
  function BitmapAt(first: nat, k: nat): nat {
    (first + k * STRIDE) * SECTOR
  }

  // at: which blocks are allocated, numbered in the order they were.
  ghost predicate Placed(at: map<nat, nat>, n: nat, blocks: nat) {
    && (forall b :: b in at ==> b < blocks && at[b] < n)
    && (forall b, c :: b in at && c in at && at[b] == at[c] ==> b == c)
  }

  ghost predicate Listed(at: map<nat, nat>, first: nat, bat: seq<nat>) {
    forall b :: 0 <= b < |bat| ==> bat[b] == if b in at then first + at[b] * STRIDE else UNALLOCATED
  }

  predicate FileMarked(f: seq<byte>, off: nat, s: nat) {
    s < SECTOR * 8 && Marked(Piece(f, off, SECTOR), s)
  }

  // The file holds byte y of the disk; a sector its bitmap does not mark is zero.
  ghost predicate Holds(at: map<nat, nat>, first: nat, f: seq<byte>, y: nat, x: byte) {
    if BlockOf(y) in at then
      && x == ByteAt(f, BitmapAt(first, at[BlockOf(y)]) + SECTOR + InBlock(y))
      && (!FileMarked(f, BitmapAt(first, at[BlockOf(y)]), SectorIn(y)) ==> x == 0)
    else x == 0
  }

  ghost predicate Backed(at: map<nat, nat>, first: nat, n: nat, f: seq<byte>, disk: seq<byte>) {
    && |f| <= BitmapAt(first, n)
    && forall y :: 0 <= y < |disk| ==> Holds(at, first, f, y, disk[y])
  }

  // A new block, behind the end of the file, reads as zeros and marks nothing.
  lemma NewBlock(at: map<nat, nat>, first: nat, n: nat, f: seq<byte>, disk: seq<byte>, b: nat)
    requires Backed(at, first, n, f, disk) && b !in at && forall c :: c in at ==> at[c] < n
    ensures Backed(at[b := n], first, n + 1, Written(f, BitmapAt(first, n), Zeros(SECTOR)), disk)
  {
    hide Written, Marked, FileMarked;
    var at', f' := at[b := n], Written(f, BitmapAt(first, n), Zeros(SECTOR));
    WrittenBytes(f, BitmapAt(first, n), Zeros(SECTOR));
    forall y | 0 <= y < |disk| ensures Holds(at', first, f', y, disk[y]) {
      assert Holds(at, first, f, y, disk[y]);
      var c := BlockOf(y);
      if c in at {
        SameBitmap(f, BitmapAt(first, n), Zeros(SECTOR), BitmapAt(first, at[c]), SectorIn(y));
      }
    }
  }

  lemma SameBitmap(f: seq<byte>, off: nat, b: seq<byte>, bitmap: nat, s: nat)
    requires bitmap + SECTOR <= off || off + |b| <= bitmap
    ensures FileMarked(Written(f, off, b), bitmap, s) == FileMarked(f, bitmap, s)
  {
    hide Written, Marked;
    PieceBeside(f, off, b, bitmap, SECTOR);
  }

  // Writing b within one block and marking its sectors changes that part of the disk
  // and no other.
  lemma WriteBlock(at: map<nat, nat>, first: nat, n: nat, blocks: nat, f: seq<byte>, disk: seq<byte>, off: nat,
                   b: seq<byte>, bm: seq<byte>)
    requires Placed(at, n, blocks) && Backed(at, first, n, f, disk) && BlockOf(off) in at
    requires b != [] && InBlock(off) + |b| <= BLOCK_BYTES && off + |b| <= |disk|
    requires |bm| == SECTOR
    requires var bitmap := BitmapAt(first, at[BlockOf(off)]);
             forall t :: 0 <= t < SECTOR * 8 ==>
               (Marked(bm, t) <==> SectorIn(off) <= t <= (InBlock(off) + |b| - 1) / SECTOR || FileMarked(f, bitmap, t))
    ensures var bitmap := BitmapAt(first, at[BlockOf(off)]);
            var f1 := Written(f, bitmap + SECTOR + InBlock(off), b);
            Backed(at, first, n, Written(f1, bitmap, bm), Splice(disk, off, b))
  {
    hide Written, Marked, FileMarked, ByteAt, Splice;
    var x := BlockOf(off);
    var bitmap := BitmapAt(first, at[x]);
    var f1 := Written(f, bitmap + SECTOR + InBlock(off), b);
    var f2 := Written(f1, bitmap, bm);
    WrittenBytes(f, bitmap + SECTOR + InBlock(off), b);
    WrittenBytes(f1, bitmap, bm);
    forall y | 0 <= y < |disk| ensures Holds(at, first, f2, y, Splice(disk, off, b)[y]) {
      assert Holds(at, first, f, y, disk[y]);
      SpliceByte(disk, off, b, y);
      if BlockOf(y) == x {
        NewBitmap(f1, bitmap, bm, SectorIn(y));
      } else if BlockOf(y) in at {
        var other := BitmapAt(first, at[BlockOf(y)]);
        assert at[BlockOf(y)] != at[x];
        SameBitmap(f, bitmap + SECTOR + InBlock(off), b, other, SectorIn(y));
        SameBitmap(f1, bitmap, bm, other, SectorIn(y));
      }
    }
  }

  lemma NewBitmap(f: seq<byte>, bitmap: nat, bm: seq<byte>, s: nat)
    requires |bm| == SECTOR && s < SECTOR * 8
    ensures FileMarked(Written(f, bitmap, bm), bitmap, s) == Marked(bm, s)
  {
    hide Written, Marked;
    PieceWritten(f, bitmap, bm);
  }

  // ---- Headers ----

  function Sum(s: seq<byte>): nat {
    if s == [] then 0 else Sum(s[..|s| - 1]) + s[|s| - 1]
  }

  lemma {:induction false} SumSplit(a: seq<byte>, b: seq<byte>)
    ensures Sum(a + b) == Sum(a) + Sum(b) && Sum([]) == 0
  {
    if b == [] {
      assert a + b == a;
    } else {
      SumSplit(a, b[..|b| - 1]);
      assert (a + b)[..|a + b| - 1] == a + b[..|b| - 1];
    }
  }

  // The complement of the bytes' 32-bit sum.
  function Checksum(s: seq<byte>): nat {
    0xFFFF_FFFF - Sum(s) % 0x1_0000_0000
  }

  // raw with its checksum, over raw, written at off.
  function Sealed(raw: seq<byte>, off: nat): (s: seq<byte>)
    requires off + 4 <= |raw|
    ensures |s| == |raw|
  {
    Splice(raw, off, BE(Checksum(raw), 4))
  }

  const COOKIE: seq<byte> := [0x63, 0x6f, 0x6e, 0x65, 0x63, 0x74, 0x69, 0x78] // "conectix"
  const DYN_COOKIE: seq<byte> := [0x63, 0x78, 0x73, 0x70, 0x61, 0x72, 0x73, 0x65] // "cxsparse"

  // What a footer holds besides the disk's size: when and by whom it was made.
  datatype Origin = Origin(time: seq<byte>, geometry: seq<byte>, uuid: seq<byte>)

  predicate GoodOrigin(o: Origin) {
    |o.time| == 4 && |o.geometry| == 4 && |o.uuid| == 16
  }

  function FooterFields(size: nat, o: Origin): seq<seq<byte>> {
    [COOKIE, BE(2, 4), BE(0x1_0000, 4), BE(SECTOR, 8), o.time, [0x71, 0x65, 0x6d, 0x32], BE(0x1_0000, 4),
     [0x57, 0x69, 0x32, 0x6b], BE(size, 8), BE(size, 8), o.geometry, BE(3, 4), Zeros(4), o.uuid, Zeros(428)]
  }

  lemma FooterStarts(size: nat, o: Origin)
    requires GoodOrigin(o)
    ensures var fs := FooterFields(size, o);
            && |fs| == 15 && Start(fs, 1) == 8 && Start(fs, 2) == 12 && Start(fs, 3) == 16 && Start(fs, 4) == 24
            && Start(fs, 5) == 28 && Start(fs, 6) == 32 && Start(fs, 7) == 36 && Start(fs, 8) == 40
            && Start(fs, 9) == 48 && Start(fs, 10) == 56 && Start(fs, 11) == 60 && Start(fs, 12) == 64
            && Start(fs, 13) == 68 && Start(fs, 14) == 84 && Start(fs, 15) == SECTOR
  {
    hide BE;
    var fs := FooterFields(size, o);
    assert Start(fs, 1) == 8;
    assert Start(fs, 2) == 12;
    assert Start(fs, 3) == 16;
    assert Start(fs, 4) == 24;
    assert Start(fs, 5) == 28;
    assert Start(fs, 6) == 32;
    assert Start(fs, 7) == 36;
    assert Start(fs, 8) == 40;
    assert Start(fs, 9) == 48;
    assert Start(fs, 10) == 56;
    assert Start(fs, 11) == 60;
    assert Start(fs, 12) == 64;
    assert Start(fs, 13) == 68;
    assert Start(fs, 14) == 84;
  }

  function RawFooter(size: nat, o: Origin): (s: seq<byte>)
    requires GoodOrigin(o)
    ensures |s| == SECTOR
  {
    FooterStarts(size, o);
    FlatLength(FooterFields(size, o));
    Flat(FooterFields(size, o))
  }

  function Footer(size: nat, o: Origin): (s: seq<byte>)
    requires GoodOrigin(o)
    ensures |s| == SECTOR
  {
    Sealed(RawFooter(size, o), 64)
  }

  function DynFields(blocks: nat): seq<seq<byte>> {
    [DYN_COOKIE, BE(0xFFFF_FFFF_FFFF_FFFF, 8), BE(BAT_OFFSET, 8), BE(0x1_0000, 4), BE(blocks, 4), BE(BLOCK_BYTES, 4),
     Zeros(4), Zeros(984)]
  }

  lemma DynStarts(blocks: nat)
    ensures var fs := DynFields(blocks);
            && |fs| == 8 && Start(fs, 1) == 8 && Start(fs, 2) == 16 && Start(fs, 3) == 24 && Start(fs, 4) == 28
            && Start(fs, 5) == 32 && Start(fs, 6) == 36 && Start(fs, 7) == 40 && Start(fs, 8) == 1024
  {
    hide BE;
    var fs := DynFields(blocks);
    assert Start(fs, 1) == 8;
    assert Start(fs, 2) == 16;
    assert Start(fs, 3) == 24;
    assert Start(fs, 4) == 28;
    assert Start(fs, 5) == 32;
    assert Start(fs, 6) == 36;
    assert Start(fs, 7) == 40;
  }

  function RawDyn(blocks: nat): (s: seq<byte>)
    ensures |s| == 1024
  {
    DynStarts(blocks);
    FlatLength(DynFields(blocks));
    Flat(DynFields(blocks))
  }

  function DynHeader(blocks: nat): (s: seq<byte>)
    ensures |s| == 1024
  {
    Sealed(RawDyn(blocks), 36)
  }

  // Entry b of a table of 4-byte entries.
  function Slot4(s: seq<byte>, b: nat): seq<byte>
    requires b * 4 + 4 <= |s|
  {
    s[b * 4..b * 4 + 4]
  }

  method EncodeBat(bat: seq<nat>) returns (s: seq<byte>)
    ensures |s| == BatBytes(|bat|) && forall b :: 0 <= b < |bat| ==> Slot4(s, b) == BE(bat[b], 4)
  {
    hide BE, Splice;
    s := Zeros(BatBytes(|bat|));
    var i := 0;
    while i < |bat|
      invariant 0 <= i <= |bat| && |s| == BatBytes(|bat|) && forall b :: 0 <= b < i ==> Slot4(s, b) == BE(bat[b], 4)
    {
      ghost var was := s;
      SpliceInside(s, i * 4, BE(bat[i], 4));
      forall b | 0 <= b < i ensures Slot4(Splice(was, i * 4, BE(bat[i], 4)), b) == BE(bat[b], 4) {
        SpliceBeside(was, i * 4, BE(bat[i], 4), b * 4, b * 4 + 4);
        assert Slot4(was, b) == BE(bat[b], 4);
      }
      s := Splice(s, i * 4, BE(bat[i], 4));
      i := i + 1;
    }
  }

  // ---- The writer ----

  ghost predicate Ok(size: nat, at: map<nat, nat>, n: nat, bat: seq<nat>, f: seq<byte>, disk: seq<byte>) {
    && |disk| == size && |bat| == Blocks(size) && n <= |bat|
    && Placed(at, n, |bat|) && Listed(at, FirstSector(|bat|), bat) && Backed(at, FirstSector(|bat|), n, f, disk)
    && Piece(f, SECTOR, 1024) == DynHeader(|bat|)
  }

  class Writer {
    const size: nat
    const origin: Origin
    var file: seq<byte>
    var bat: seq<nat>
    var nextSector: nat

    ghost var n: nat // blocks allocated
    ghost var at: map<nat, nat>
    ghost var disk: seq<byte>

    // As long as there is room for the blocks allocated, the file holds the disk.
    ghost predicate Valid()
      reads this
    {
      && GoodOrigin(origin) && |disk| == size && size % SECTOR == 0 && size > 0 && |bat| == Blocks(size)
      && nextSector == FirstSector(|bat|) + n * STRIDE
      && (Fits() ==> n == |at| && Ok(size, at, n, bat, file, disk))
    }

    ghost predicate Fits()
      reads this
    {
      Roomy(size, n)
    }

    // Only blocks of the set are allocated, and there is room for all of it.
    ghost predicate Confined(within: set<nat>)
      reads this
    {
      Valid() && n == |at| && at.Keys <= within && Roomy(size, |within|)
    }

    constructor (size: nat, origin: Origin)
      requires size > 0 && size % SECTOR == 0 && GoodOrigin(origin)
      ensures Valid() && this.size == size && this.origin == origin && disk == Zeros(size)
      ensures n == 0 && at == map[]
    {
      hide DynHeader, Footer, BE, Written, Piece, Splice;
      var blocks := Blocks(size);
      var entries := seq<nat>(blocks, _ => UNALLOCATED);
      this.size, this.origin, bat, n, at, disk := size, origin, entries, 0, map[], Zeros(size);
      nextSector := FirstSector(blocks);
      var f := Footer(size, origin);
      ghost var f0 := f;
      f := Written(f, SECTOR, DynHeader(blocks));
      PieceWritten(f0, SECTOR, DynHeader(blocks));
      WrittenBytes(f0, SECTOR, DynHeader(blocks));
      var table := EncodeBat(entries);
      ghost var f1 := f;
      f := Written(f, BAT_OFFSET, table);
      PieceBeside(f1, BAT_OFFSET, table, SECTOR, 1024);
      WrittenBytes(f1, BAT_OFFSET, table);
      file := f;
    }

    // See to it that the block has a place in the file.
    method Provide(block: nat)
      requires Valid() && block < |bat|
      modifies this
      ensures Valid() && disk == old(disk) && |bat| == old(|bat|)
      ensures Fits() ==> block in at
      ensures forall within :: old(Confined(within)) && block in within ==> Confined(within)
    {
      hide DynHeader, Written, Piece, Backed, FirstSector, Roomy, Zeros, Placed, Listed, Ok;
      ghost var was := at;
      LessRoom(size, n, n + 1);
      forall within | Confined(within)
        ensures Roomy(size, n)
      {
        Fewer(at.Keys, within);
        LessRoom(size, n, |within|);
      }
      if Roomy(size, n) {
        Entries(size, at, bat, file, disk, block);
      }
      if bat[block] == UNALLOCATED {
        if Roomy(size, n) {
          OneMoreBlock(size, at, bat, file, disk, block);
        }
        file := Written(file, nextSector * SECTOR, Zeros(SECTOR));
        bat := bat[block := nextSector % 0x1_0000_0000];
        nextSector := nextSector + STRIDE;
        n, at := n + 1, at[block := |at|];
      }
      assert Valid() && at.Keys <= was.Keys + {block};
    }

    // Write b, which lies within one block, and mark the sectors it touches.
    method WriteInBlock(off: nat, b: seq<byte>)
      requires Valid() && b != [] && InBlock(off) + |b| <= BLOCK_BYTES && off + |b| <= size
      modifies this
      ensures Valid() && disk == Splice(old(disk), off, b)
      ensures forall within :: old(Confined(within)) && BlockOf(off) in within ==> Confined(within)
    {
      hide DynHeader, Written, Backed, FirstSector, Roomy, Splice, Marked, FileMarked, Placed, Piece, BitmapAt, Listed;
      var block := BlockOf(off);
      BlockInRange(size, off);
      Provide(block);
      ghost var f0, first := file, FirstSector(|bat|);
      var bitmapOff := bat[block] * SECTOR;
      var dataOff := bitmapOff + SECTOR + InBlock(off);
      var f1 := Written(file, dataOff, b);
      PieceBeside(f0, dataOff, b, bitmapOff, SECTOR);
      var bm := Remark(f0, Piece(f1, bitmapOff, SECTOR), bitmapOff, SectorIn(off), (InBlock(off) + |b| - 1) / SECTOR);
      if Fits() {
        BlockPlace(at, |bat|, bat, block);
        WriteBlock(at, first, n, |bat|, f0, disk, off, b, bm);
        KeepsHeader(f0, dataOff, b, |bat|);
        KeepsHeader(f1, bitmapOff, bm, |bat|);
      }
      file := Written(f1, bitmapOff, bm);
      disk := Splice(disk, off, b);
    }

    method WriteRun(off0: nat, p0: seq<byte>)
      requires Valid() && off0 + |p0| <= size
      modifies this
      ensures Valid() && disk == Splice(old(disk), off0, p0)
      ensures forall within :: old(Confined(within)) && Touches(BLOCK_PAGES, off0, |p0|, within) ==> Confined(within)
    {
      hide Ok, Splice, Roomy;
      var off, p := off0, p0;
      ghost var was := disk;
      NoSplice(was, off0, p0);
      while p != []
        invariant off0 <= off <= off0 + |p0| && p == p0[off - off0..]
        invariant forall within ::
                    old(Confined(within)) && Touches(BLOCK_PAGES, off0, |p0|, within) ==> Confined(within)
        invariant Valid() && |disk| == |was| == size && disk == Splice(was, off0, p0[..off - off0])
        decreases |p|
      {
        var k := if InBlock(off) + |p| > BLOCK_BYTES then BLOCK_BYTES - InBlock(off) else |p|;
        BlockIsUnit(off);
        WriteInBlock(off, p[..k]);
        SpliceMore(was, off0, p0, off - off0, k);
        off, p := off + k, p[k..];
      }
      assert p0[..off - off0] == p0;
    }

    // Only the runs of p that hold data are stored; where p is zero the disk stays as
    // it was.
    method WriteAt(p: seq<byte>, off: nat) returns (ok: bool)
      requires Valid()
      modifies this
      ensures Valid() && (ok <==> off + |p| <= size)
      ensures ok ==> exists runs :: CoversData(runs, p, |p|) && Laid(old(disk), disk, off, p, runs)
      ensures ok && IsZero(old(disk)[off..off + |p|]) ==> disk == Splice(old(disk), off, p)
      ensures !ok ==> disk == old(disk)
      // Only blocks with data in them are allocated.
      ensures forall within :: old(Confined(within)) && DataWithin(BLOCK_PAGES, off, p, within) ==> Confined(within)
    {
      hide Ok, Splice, CoversData, Roomy, Tight, DataWithin, Touches;
      if off + |p| > size {
        return false;
      }
      var runs := DataRuns(off, p);
      ghost var was := disk;
      var k := 0;
      NothingLaid(was, off, p, runs);
      while k < |runs|
        invariant 0 <= k <= |runs| && Valid() && |disk| == |was| == size && Laid(was, disk, off, p, runs[..k])
        invariant forall within :: old(Confined(within)) && DataWithin(BLOCK_PAGES, off, p, within) ==> Confined(within)
      {
        RunInside(runs, p, k);
        var r := runs[k];
        forall within | DataWithin(BLOCK_PAGES, off, p, within)
          ensures Touches(BLOCK_PAGES, off + r.start, r.end - r.start, within)
        {
          RunWithin(BLOCK_PAGES, off, p, runs, k, within);
        }
        LayRun(was, disk, off, p, runs, k);
        WriteRun(off + r.start, p[r.start..r.end]);
        k := k + 1;
      }
      assert runs[..k] == runs;
      if IsZero(was[off..off + |p|]) {
        AllLaid(was, disk, off, p, runs);
      }
      return true;
    }

    // Close: the table as it stands, the footer behind the last block and its copy in
    // front.
    method Finish() returns (f: seq<byte>)
      requires Valid()
      ensures Fits() ==> Finished(f, size, origin, at, bat, disk)
    {
      hide DynHeader, Written, BE, Footer, FirstSector, BatBytes, Roomy, Piece, Slot4;
      var table := EncodeBat(bat);
      var footer := Footer(size, origin);
      var f1 := Written(file, BAT_OFFSET, table);
      var f2 := Written(f1, nextSector * SECTOR, footer);
      f := Written(f2, 0, footer);
      if Fits() {
        IsFinished(file, size, origin, at, bat, disk, table);
      }
    }
  }

  lemma BlockIsUnit(y: nat)
    ensures BlockOf(y) == UnitOf(BLOCK_PAGES, y)
  {
  }

  // ---- A finished image ----

  function FileSlot4(f: seq<byte>, b: nat): seq<byte> {
    Piece(f, BAT_OFFSET + b * 4, 4)
  }

  ghost predicate HasBat(f: seq<byte>, bat: seq<nat>) {
    forall b :: 0 <= b < |bat| ==> FileSlot4(f, b) == BE(bat[b], 4)
  }

  ghost predicate HasDisk(at: map<nat, nat>, first: nat, f: seq<byte>, disk: seq<byte>) {
    forall y :: 0 <= y < |disk| ==> Holds(at, first, f, y, disk[y])
  }

  ghost predicate Finished(f: seq<byte>, size: nat, o: Origin, at: map<nat, nat>, bat: seq<nat>, disk: seq<byte>) {
    && GoodOrigin(o) && size > 0 && Roomy(size, |at|) && |disk| == size && |bat| == Blocks(size) && |at| <= |bat|
    && Placed(at, |at|, |bat|) && Listed(at, FirstSector(|bat|), bat)
    && var end := BitmapAt(FirstSector(|bat|), |at|);
       && |f| == end + SECTOR && Piece(f, 0, SECTOR) == Footer(size, o) && Piece(f, end, SECTOR) == Footer(size, o)
       && Piece(f, SECTOR, 1024) == DynHeader(|bat|)
       && HasBat(f, bat) && HasDisk(at, FirstSector(|bat|), f, disk)
  }

  // Close over a file that holds the disk.
  lemma IsFinished(f: seq<byte>, size: nat, o: Origin, at: map<nat, nat>, bat: seq<nat>, disk: seq<byte>,
                   table: seq<byte>)
    requires GoodOrigin(o) && size > 0 && Roomy(size, |at|) && Ok(size, at, |at|, bat, f, disk)
    requires |table| == BatBytes(|bat|) && forall b :: 0 <= b < |bat| ==> Slot4(table, b) == BE(bat[b], 4)
    ensures var end, footer := BitmapAt(FirstSector(|bat|), |at|), Footer(size, o);
            Finished(Written(Written(Written(f, BAT_OFFSET, table), end, footer), 0, footer), size, o, at, bat, disk)
  {
    hide DynHeader, Written, BE, Footer, FirstSector, BatBytes, Roomy, Piece, Slot4, FileSlot4, HasDisk, Holds;
    var first, n, footer := FirstSector(|bat|), |at|, Footer(size, o);
    var end := BitmapAt(first, n);
    TableRoom(|bat|);
    BackedHas(at, first, n, f, disk);
    var f1 := Written(f, BAT_OFFSET, table);
    WrittenBytes(f, BAT_OFFSET, table);
    DiskBeside(at, first, n, |bat|, f, disk, BAT_OFFSET, table);
    KeepsHeader(f, BAT_OFFSET, table, |bat|);
    BatWritten(f, table, bat);
    var f2 := Written(f1, end, footer);
    WrittenBytes(f1, end, footer);
    PieceWritten(f1, end, footer);
    DiskBeside(at, first, n, |bat|, f1, disk, end, footer);
    KeepsHeader(f1, end, footer, |bat|);
    BatBeside(f1, end, footer, bat);
    var f3 := Written(f2, 0, footer);
    WrittenBytes(f2, 0, footer);
    PieceWritten(f2, 0, footer);
    PieceBeside(f2, 0, footer, end, SECTOR);
    PieceBeside(f2, 0, footer, SECTOR, 1024);
    DiskBeside(at, first, n, |bat|, f2, disk, 0, footer);
    BatBeside(f2, 0, footer, bat);
  }

  lemma BackedHas(at: map<nat, nat>, first: nat, n: nat, f: seq<byte>, disk: seq<byte>)
    requires Backed(at, first, n, f, disk)
    ensures HasDisk(at, first, f, disk)
  {
    hide Holds;
  }

  // The table ends where the blocks begin.
  lemma TableRoom(blocks: nat)
    ensures BAT_OFFSET + BatBytes(blocks) == BitmapAt(FirstSector(blocks), 0) && BatBytes(blocks) >= blocks * 4
  {
  }

  // Writing before the first block or behind the last leaves the disk as it is.
  lemma DiskBeside(at: map<nat, nat>, first: nat, n: nat, blocks: nat, f: seq<byte>, disk: seq<byte>, off: nat,
                   b: seq<byte>)
    requires HasDisk(at, first, f, disk) && Placed(at, n, blocks) && b != []
    requires off + |b| <= BitmapAt(first, 0) || BitmapAt(first, n) <= off
    ensures HasDisk(at, first, Written(f, off, b), disk)
  {
    hide Written, ByteAt, FileMarked;
    WrittenBytes(f, off, b);
    forall y | 0 <= y < |disk| ensures Holds(at, first, Written(f, off, b), y, disk[y]) {
      assert Holds(at, first, f, y, disk[y]);
      if BlockOf(y) in at {
        SameBitmap(f, off, b, BitmapAt(first, at[BlockOf(y)]), SectorIn(y));
      }
    }
  }

  lemma BatWritten(f: seq<byte>, table: seq<byte>, bat: seq<nat>)
    requires |table| >= |bat| * 4 && forall b :: 0 <= b < |bat| ==> Slot4(table, b) == BE(bat[b], 4)
    ensures HasBat(Written(f, BAT_OFFSET, table), bat)
  {
    hide BE, Written, Piece;
    var f' := Written(f, BAT_OFFSET, table);
    PieceWritten(f, BAT_OFFSET, table);
    forall b | 0 <= b < |bat| ensures FileSlot4(f', b) == BE(bat[b], 4) {
      PieceOfPiece(f', BAT_OFFSET, |table|, b * 4, 4);
      assert Slot4(table, b) == BE(bat[b], 4);
    }
  }

  lemma BatBeside(f: seq<byte>, off: nat, b: seq<byte>, bat: seq<nat>)
    requires HasBat(f, bat) && (off + |b| <= BAT_OFFSET || BAT_OFFSET + |bat| * 4 <= off)
    ensures HasBat(Written(f, off, b), bat)
  {
    hide BE, Written, Piece;
    forall k | 0 <= k < |bat| ensures FileSlot4(Written(f, off, b), k) == BE(bat[k], 4) {
      PieceBeside(f, off, b, BAT_OFFSET + k * 4, 4);
      assert FileSlot4(f, k) == BE(bat[k], 4);
    }
  }

  lemma BlockInRange(size: nat, off: nat)
    requires off < size
    ensures BlockOf(off) < Blocks(size)
  {
  }

  lemma LessRoom(size: nat, m: nat, n: nat)
    ensures m <= n && Roomy(size, n) ==> Roomy(size, m)
  {
    hide FirstSector;
  }

  // No block's sector is the mark for an unallocated one.
  lemma SectorBound(size: nat, at: map<nat, nat>, n: nat, bat: seq<nat>)
    requires Roomy(size, n) && |bat| == Blocks(size) && Placed(at, n, |bat|)
    ensures forall b :: b in at ==> FirstSector(|bat|) + at[b] * STRIDE < UNALLOCATED
  {
    hide FirstSector;
  }

  // The table tells which blocks are allocated.
  lemma Entries(size: nat, at: map<nat, nat>, bat: seq<nat>, f: seq<byte>, disk: seq<byte>, block: nat)
    requires Roomy(size, |at|) && Ok(size, at, |at|, bat, f, disk) && block < |bat|
    ensures bat[block] == UNALLOCATED <==> block !in at
  {
    hide FirstSector, Roomy, Backed, Piece, DynHeader, Listed;
    SectorBound(size, at, |at|, bat);
    AllocatedOrNot(at, FirstSector(|bat|), bat, block);
  }

  // Allocating one more block, if there is room for it, leaves the disk as it is.
  lemma OneMoreBlock(size: nat, at: map<nat, nat>, bat: seq<nat>, f: seq<byte>, disk: seq<byte>, block: nat)
    requires Ok(size, at, |at|, bat, f, disk) && block < |bat| && block !in at
    ensures |at[block := |at|]| == |at| + 1
    ensures var sector := FirstSector(|bat|) + |at| * STRIDE;
            Roomy(size, |at| + 1) ==>
              Ok(size, at[block := |at|], |at| + 1, bat[block := sector % 0x1_0000_0000],
                 Written(f, sector * SECTOR, Zeros(SECTOR)), disk)
  {
    hide FirstSector, Backed, Piece, DynHeader, Listed, Placed, Written, Zeros;
    PlacedBound(at, |at|, |bat|);
    ManyBlocks(at, |bat|, block);
    TableRoom(|bat|);
    NewBlock(at, FirstSector(|bat|), |at|, f, disk, block);
    KeepsHeader(f, BitmapAt(FirstSector(|bat|), |at|), Zeros(SECTOR), |bat|);
    NewListing(at, FirstSector(|bat|), bat, block);
  }

  lemma AllocatedOrNot(at: map<nat, nat>, first: nat, bat: seq<nat>, block: nat)
    requires Listed(at, first, bat) && block < |bat| && forall b :: b in at ==> first + at[b] * STRIDE < UNALLOCATED
    ensures bat[block] == UNALLOCATED <==> block !in at
  {
  }

  lemma PlacedBound(at: map<nat, nat>, n: nat, blocks: nat)
    requires Placed(at, n, blocks)
    ensures forall b :: b in at ==> b < blocks && at[b] < n
  {
  }

  lemma NewListing(at: map<nat, nat>, first: nat, bat: seq<nat>, block: nat)
    requires Listed(at, first, bat) && Placed(at, |at|, |bat|) && block < |bat| && block !in at
    ensures Listed(at[block := |at|], first, bat[block := first + |at| * STRIDE])
    ensures Placed(at[block := |at|], |at| + 1, |bat|)
  {
  }

  lemma BlockPlace(at: map<nat, nat>, blocks: nat, bat: seq<nat>, block: nat)
    requires Listed(at, FirstSector(blocks), bat) && |bat| == blocks && block in at && block < blocks
    ensures bat[block] * SECTOR == BitmapAt(FirstSector(blocks), at[block]) >= BAT_OFFSET
  {
    TableRoom(blocks);
  }

  // The bitmap read back, with the sectors from s to t marked.
  method Remark(ghost f: seq<byte>, bm0: seq<byte>, ghost off: nat, s: nat, t: nat) returns (bm: seq<byte>)
    requires bm0 == Piece(f, off, SECTOR) && s <= t < SECTOR * 8
    ensures |bm| == SECTOR
    ensures forall k :: 0 <= k < SECTOR * 8 ==> (Marked(bm, k) <==> s <= k <= t || FileMarked(f, off, k))
  {
    hide Marked, FileMarked;
    bm := MarkSectors(bm0, s, t);
    forall k | 0 <= k < SECTOR * 8 ensures FileMarked(f, off, k) == Marked(bm0, k) {
      MarkedIs(f, off, k);
    }
  }

  lemma {:induction false} FewBlocks(s: set<nat>, n: nat)
    requires forall b :: b in s ==> b < n
    ensures |s| <= n
  {
    if n > 0 {
      FewBlocks(s - {n - 1}, n - 1);
      assert s <= (s - {n - 1}) + {n - 1};
    } else {
      assert s == {};
    }
  }

  // There is always room for a block that is not there yet.
  lemma ManyBlocks(at: map<nat, nat>, blocks: nat, block: nat)
    requires block < blocks && block !in at && forall b :: b in at ==> b < blocks
    ensures |at| < blocks && |at[block := |at|]| == |at| + 1
  {
    FewBlocks(at.Keys + {block}, blocks);
    assert |at.Keys + {block}| == |at.Keys| + 1;
    assert at[block := |at|].Keys == at.Keys + {block};
  }

  lemma KeepsHeader(f: seq<byte>, off: nat, b: seq<byte>, blocks: nat)
    requires Piece(f, SECTOR, 1024) == DynHeader(blocks) && off >= BAT_OFFSET
    ensures Piece(Written(f, off, b), SECTOR, 1024) == DynHeader(blocks)
  {
    PieceBeside(f, off, b, SECTOR, 1024);
  }

  lemma MarkedIs(f: seq<byte>, off: nat, t: nat)
    requires t < SECTOR * 8
    ensures FileMarked(f, off, t) == Marked(Piece(f, off, SECTOR), t)
  {
  }
}
