/** Rewriting captured GPT structures for a fit plan (core/disklayout/fit.go): a disk
they are written to parses back to the captured partitions at the planned places. */
module GptFit {
  import opened Bytes
  import opened Options
  import opened GptLayout

  // Where the plan puts the partition in a slot.
  datatype Move = Move(index: nat, first: nat, last: nat)

  const M64 := 0x1_0000_0000_0000_0000

  // The plan's moves, the last usable sector it leaves, and the target's size.
  datatype Fit = Fit(moves: seq<Move>, lastUsable: nat, targetSize: nat)

  // ---- The entry array ----

  // The extent as a slot holds it, from byte 32 on.
  function Extent(m: Move): (s: seq<byte>)
    ensures |s| == 16
  {
    LE(m.first, 8) + LE(m.last, 8)
  }

  function PutMove(es: seq<byte>, size: nat, m: Move): (t: seq<byte>)
    requires size >= 128 && At(size, m.index) + size <= |es|
    ensures |t| == |es|
  {
    Splice(es, At(size, m.index) + 32, Extent(m))
  }

  ghost predicate InArray(moves: seq<Move>, count: nat) {
    forall k :: 0 <= k < |moves| ==> moves[k].index < count
  }

  ghost function PutAll(es: seq<byte>, size: nat, count: nat, moves: seq<Move>): (t: seq<byte>)
    requires size >= 128 && At(size, count) <= |es| && InArray(moves, count)
    ensures |t| == |es|
    decreases |moves|
  {
    if moves == [] then es
    else
      var front, m := moves[..|moves| - 1], moves[|moves| - 1];
      SlotWithin(size, m.index, count);
      PutMove(PutAll(es, size, count, front), size, m)
  }

  // The move that decides slot i: the last one for it.
  ghost function MoveOf(moves: seq<Move>, i: nat): Option<Move> {
    if moves == [] then None
    else if moves[|moves| - 1].index == i then Some(moves[|moves| - 1])
    else MoveOf(moves[..|moves| - 1], i)
  }

  ghost function Replaced(e: seq<byte>, m: Option<Move>): seq<byte>
    requires |e| >= 128
  {
    if m.None? then e else Splice(e, 32, Extent(m.value))
  }

  lemma SlotOfPut(es: seq<byte>, size: nat, m: Move, j: nat)
    requires size >= 128 && At(size, m.index) + size <= |es| && At(size, j) + size <= |es|
    ensures Slot(PutMove(es, size, m), size, j) ==
            if j == m.index then Splice(Slot(es, size, j), 32, Extent(m)) else Slot(es, size, j)
  {
    hide At, Splice, Extent;
    var at := At(size, m.index);
    if j == m.index {
      SpliceWithin(es, at + 32, Extent(m), at, at + size);
    } else {
      SlotsApart(size, if j < m.index then j else m.index, if j < m.index then m.index else j);
      SpliceBeside(es, at + 32, Extent(m), At(size, j), At(size, j) + size);
    }
  }

  lemma SpliceTwice(e: seq<byte>, a: seq<byte>, b: seq<byte>)
    requires |e| >= 128 && |a| == |b| == 16
    ensures Splice(Splice(e, 32, a), 32, b) == Splice(e, 32, b)
  {
  }

  lemma {:induction false} SlotOfAll(es: seq<byte>, size: nat, count: nat, moves: seq<Move>, j: nat)
    requires size >= 128 && At(size, count) <= |es| && InArray(moves, count) && j < count
    ensures At(size, j) + size <= |es|
    ensures Slot(PutAll(es, size, count, moves), size, j) == Replaced(Slot(es, size, j), MoveOf(moves, j))
  {
    hide At, Splice, Extent, PutMove;
    SlotWithin(size, j, count);
    if moves != [] {
      var front, m := moves[..|moves| - 1], moves[|moves| - 1];
      SlotWithin(size, m.index, count);
      SlotOfAll(es, size, count, front, j);
      SlotOfPut(PutAll(es, size, count, front), size, m, j);
      if j == m.index && MoveOf(front, j).Some? {
        SpliceTwice(Slot(es, size, j), Extent(MoveOf(front, j).value), Extent(m));
      }
    }
  }

  // ---- Reading the rewritten entries ----

  ghost function Moved(p: Part, m: Option<Move>): Part {
    if m.None? then p else p.(first := m.value.first, last := m.value.last)
  }

  ghost function AllMoved(parts: seq<Part>, moves: seq<Move>): seq<Part> {
    seq(|parts|, i requires 0 <= i < |parts| => Moved(parts[i], MoveOf(moves, parts[i].index)))
  }

  ghost predicate Narrow(m: Move) {
    m.first < Pow256(8) && m.last < Pow256(8)
  }

  lemma PartOfReplaced(e: seq<byte>, i: nat, m: Option<Move>)
    requires |e| >= 128 && (m.Some? ==> Narrow(m.value))
    ensures |Replaced(e, m)| == |e| && InUse(Replaced(e, m)) == InUse(e)
    ensures PartOf(Replaced(e, m), i) == Moved(PartOf(e, i), m)
  {
    hide LE, FromLE, Pow256;
    if m.Some? {
      var x := Extent(m.value);
      var e' := Splice(e, 32, x);
      LERoundTrip(m.value.first, 8);
      LERoundTrip(m.value.last, 8);
      assert e'[32..40] == LE(m.value.first, 8) && e'[40..48] == LE(m.value.last, 8);
      assert e'[..16] == e[..16] && e'[16..32] == e[16..32];
      assert e'[48..56] == e[48..56] && e'[56..128] == e[56..128];
    }
  }

  // Every slot in use parses to where its move puts it, or stays sensible.
  ghost predicate MovesFit(parts: seq<Part>, moves: seq<Move>, ss: nat, diskSize: nat) {
    forall i :: 0 <= i < |parts| ==> Sensible(Moved(parts[i], MoveOf(moves, parts[i].index)), ss, diskSize)
  }

  lemma {:induction false} PartsOfAll(es: seq<byte>, size: nat, count: nat, moves: seq<Move>, n: nat, ss: nat,
                                      oldSize: nat, newSize: nat)
    requires size >= 128 && At(size, count) <= |es| && InArray(moves, count) && n <= count && At(size, n) <= |es|
    requires forall k :: 0 <= k < |moves| ==> Narrow(moves[k])
    requires Parts(es, size, n, ss, oldSize).Some?
    requires MovesFit(Parts(es, size, n, ss, oldSize).value, moves, ss, newSize)
    ensures Parts(PutAll(es, size, count, moves), size, n, ss, newSize) ==
            Some(AllMoved(Parts(es, size, n, ss, oldSize).value, moves))
    decreases n
  {
    hide At, Slot, PartOf, InUse, Sensible, PutAll, Moved, Replaced, MoveOf, Narrow;
    if n > 0 {
      SlotWithin(size, n - 1, n);
      var front, e := Parts(es, size, n - 1, ss, oldSize), Slot(es, size, n - 1);
      SlotLength(es, size, n - 1);
      SlotOfAll(es, size, count, moves, n - 1);
      MoveOfNarrow(moves, n - 1);
      PartOfReplaced(e, n - 1, MoveOf(moves, n - 1));
      var parts := Parts(es, size, n, ss, oldSize).value;
      if InUse(e) {
        assert parts == front.value + [PartOf(e, n - 1)];
        assert parts[|parts| - 1] == PartOf(e, n - 1);
        IndexOfPart(e, n - 1);
        forall i | 0 <= i < |front.value| ensures
            Sensible(Moved(front.value[i], MoveOf(moves, front.value[i].index)), ss, newSize) {
          assert parts[i] == front.value[i];
        }
        PartsOfAll(es, size, count, moves, n - 1, ss, oldSize, newSize);
        assert AllMoved(parts, moves) ==
               AllMoved(front.value, moves) + [Moved(PartOf(e, n - 1), MoveOf(moves, n - 1))];
      } else {
        PartsOfAll(es, size, count, moves, n - 1, ss, oldSize, newSize);
      }
    } else {
      assert AllMoved([], moves) == [];
    }
  }

  lemma IndexOfPart(e: seq<byte>, i: nat)
    requires |e| >= 128
    ensures PartOf(e, i).index == i
  {
  }

  lemma {:induction false} MoveOfNarrow(moves: seq<Move>, i: nat)
    requires forall k :: 0 <= k < |moves| ==> Narrow(moves[k])
    ensures MoveOf(moves, i).Some? ==> Narrow(MoveOf(moves, i).value)
  {
    hide Narrow;
    if moves != [] && moves[|moves| - 1].index != i {
      MoveOfNarrow(moves[..|moves| - 1], i);
    }
  }

  // ---- Headers ----

  ghost predicate Checksum(crc: Crc) {
    forall s :: crc(s) < Pow256(4)
  }

  // recomputeHeaderCRC
  function Sealed(crc: Crc, h: seq<byte>): (t: seq<byte>)
    requires |h| >= HEADER_SIZE
    ensures |t| == |h|
  {
    Splice(Cleared(h), 16, LE(crc(Cleared(h)), 4))
  }

  lemma SealedBeside(crc: Crc, h: seq<byte>, lo: nat, hi: nat)
    requires |h| >= HEADER_SIZE && lo <= hi <= |h| && (hi <= 16 || 20 <= lo)
    ensures Sealed(crc, h)[lo..hi] == h[lo..hi]
  {
    hide Splice, LE;
    SpliceBeside(Cleared(h), 16, LE(crc(Cleared(h)), 4), lo, hi);
    SpliceBeside(h, 16, [0, 0, 0, 0], lo, hi);
  }

  // A sector that begins with a sealed header is sound.
  lemma SealedSound(crc: Crc, h: seq<byte>, sector: seq<byte>)
    requires Checksum(crc) && HEADER_SIZE <= |h| <= |sector| && |sector| >= 512
    requires h[..8] == SIGNATURE && Field(h, 12, 16) == |h| && sector[..|h|] == Sealed(crc, h)
    ensures HeaderSound(crc, sector)
  {
    hide LE, FromLE, Pow256;
    var t := Sealed(crc, h);
    SealedBeside(crc, h, 0, 8);
    SealedBeside(crc, h, 12, 16);
    HeadSlice(sector, |h|, 0, 8);
    HeadSlice(sector, |h|, 12, 16);
    HeadSlice(sector, |h|, 16, 20);
    assert sector[..8] == sector[0..8] && h[0..8] == h[..8];
    assert t[16..20] == LE(crc(Cleared(h)), 4);
    LERoundTrip(crc(Cleared(h)), 4);
    assert Cleared(t) == Cleared(h);
  }

  lemma Beside3(h: seq<byte>, a: nat, x: seq<byte>, b: nat, y: seq<byte>, c: nat, z: seq<byte>, lo: nat, hi: nat)
    requires a + |x| <= b && b + |y| <= c && c + |z| <= |h| && lo <= hi <= |h|
    requires (hi <= a || a + |x| <= lo) && (hi <= b || b + |y| <= lo) && (hi <= c || c + |z| <= lo)
    ensures Splice(Splice(Splice(h, a, x), b, y), c, z)[lo..hi] == h[lo..hi]
  {
    hide Splice;
    SpliceBeside(h, a, x, lo, hi);
    SpliceBeside(Splice(h, a, x), b, y, lo, hi);
    SpliceBeside(Splice(Splice(h, a, x), b, y), c, z, lo, hi);
  }

  lemma Inside3(h: seq<byte>, a: nat, x: seq<byte>, b: nat, y: seq<byte>, c: nat, z: seq<byte>)
    requires a + |x| <= b && b + |y| <= c && c + |z| <= |h|
    ensures var t := Splice(Splice(Splice(h, a, x), b, y), c, z);
            t[a..a + |x|] == x && t[b..b + |y|] == y && t[c..c + |z|] == z
  {
    hide Splice;
    var h1 := Splice(h, a, x);
    var h2 := Splice(h1, b, y);
    SpliceInside(h, a, x);
    SpliceInside(h1, b, y);
    SpliceInside(h2, c, z);
    SpliceBeside(h1, b, y, a, a + |x|);
    SpliceBeside(h2, c, z, a, a + |x|);
    SpliceBeside(h2, c, z, b, b + |y|);
  }

  // The primary header with its new last and alternate sectors and entry checksum.
  function Patched(h: seq<byte>, lastLba: int, lastUsable: nat, entriesCrc: nat): (t: seq<byte>)
    requires |h| >= HEADER_SIZE
    ensures |t| == |h|
  {
    Splice(Splice(Splice(h, 32, LE(lastLba % M64, 8)), 48, LE(lastUsable, 8)), 88, LE(entriesCrc, 4))
  }

  lemma PatchedFields(h: seq<byte>, lastLba: int, lastUsable: nat, entriesCrc: nat)
    requires |h| >= HEADER_SIZE
    ensures var t := Patched(h, lastLba, lastUsable, entriesCrc);
            && t[..8] == h[..8] && t[12..16] == h[12..16] && t[24..32] == h[24..32]
            && t[32..40] == LE(lastLba % M64, 8)
            && t[40..48] == h[40..48] && t[48..56] == LE(lastUsable, 8) && t[56..72] == h[56..72]
            && t[72..80] == h[72..80] && t[80..84] == h[80..84] && t[84..88] == h[84..88]
            && t[88..92] == LE(entriesCrc, 4)
  {
    hide LE, Splice;
    var x, y, z := LE(lastLba % M64, 8), LE(lastUsable, 8), LE(entriesCrc, 4);
    Inside3(h, 32, x, 48, y, 88, z);
    Beside3(h, 32, x, 48, y, 88, z, 0, 8);
    Beside3(h, 32, x, 48, y, 88, z, 12, 16);
    Beside3(h, 32, x, 48, y, 88, z, 24, 32);
    Beside3(h, 32, x, 48, y, 88, z, 40, 48);
    Beside3(h, 32, x, 48, y, 88, z, 56, 72);
    Beside3(h, 32, x, 48, y, 88, z, 72, 80);
    Beside3(h, 32, x, 48, y, 88, z, 80, 84);
    Beside3(h, 32, x, 48, y, 88, z, 84, 88);
    assert h[..8] == h[0..8];
  }

  // The same header in its place at the end of the disk.
  function Mirrored(h: seq<byte>, lastLba: int, entryLba: int): (t: seq<byte>)
    requires |h| >= HEADER_SIZE
    ensures |t| == |h|
  {
    Splice(Splice(Splice(h, 24, LE(lastLba % M64, 8)), 32, LE(1, 8)), 72, LE(entryLba % M64, 8))
  }

  lemma MirroredFields(h: seq<byte>, lastLba: int, entryLba: int)
    requires |h| >= HEADER_SIZE
    ensures var t := Mirrored(h, lastLba, entryLba);
            && t[..8] == h[..8] && t[12..16] == h[12..16] && t[56..72] == h[56..72]
            && t[40..48] == h[40..48] && t[48..56] == h[48..56] && t[80..84] == h[80..84] && t[84..88] == h[84..88]
            && t[88..92] == h[88..92]
            && t[24..32] == LE(lastLba % M64, 8) && t[32..40] == LE(1, 8) && t[72..80] == LE(entryLba % M64, 8)
  {
    hide LE, Splice;
    var x, y, z := LE(lastLba % M64, 8), LE(1, 8), LE(entryLba % M64, 8);
    Inside3(h, 24, x, 32, y, 72, z);
    Beside3(h, 24, x, 32, y, 72, z, 0, 8);
    Beside3(h, 24, x, 32, y, 72, z, 12, 16);
    Beside3(h, 24, x, 32, y, 72, z, 40, 48);
    Beside3(h, 24, x, 32, y, 72, z, 48, 56);
    Beside3(h, 24, x, 32, y, 72, z, 56, 72);
    Beside3(h, 24, x, 32, y, 72, z, 80, 84);
    Beside3(h, 24, x, 32, y, 72, z, 84, 88);
    Beside3(h, 24, x, 32, y, 72, z, 88, 92);
    assert h[..8] == h[0..8];
  }

  // ---- The rewritten regions ----

  // What ApplyFit needs of a capture: it parsed, and its entries do not overlap its
  // header (section 5.3.2 of the UEFI Specification puts them behind it).
  ghost predicate Capture(crc: Crc, d: seq<byte>, l: DiskLayout, primary: seq<byte>) {
    && ParseGpt(crc, d, l.ss) == Some(l)
    && primary == d[..l.primaryLength]
    && ArrayOf(d[l.ss..2 * l.ss], l.ss).offset >= 2 * l.ss
  }

  datatype Captured = Captured(sector: seq<byte>, table: EntryArray, headerSize: nat, entries: seq<byte>)

  // c is what a GPT's primary region holds.
  ghost predicate Readable(l: DiskLayout, primary: seq<byte>, c: Captured) {
    && GoodSectorSize(l.ss) && 2 * l.ss <= |primary| == l.primaryLength
    && c.sector == primary[l.ss..2 * l.ss]
    && HEADER_SIZE <= c.headerSize == Field(c.sector, 12, 16) <= l.ss
    && c.table == ArrayOf(c.sector, l.ss) && c.table.size >= 128
    && 2 * l.ss <= c.table.offset && c.table.offset + At(c.table.size, c.table.count) == |primary|
    && c.entries == primary[c.table.offset..c.table.offset + At(c.table.size, c.table.count)]
    && l.backupLength == |c.entries| + l.ss
  }

  // What a capture's primary region holds.
  lemma CaptureFacts(crc: Crc, d: seq<byte>, l: DiskLayout, primary: seq<byte>) returns (c: Captured)
    requires Capture(crc, d, l, primary)
    ensures Readable(l, primary, c) && |primary| <= |d|
    ensures primary[510] == 0x55 && primary[511] == 0xAA
    ensures c.table.size % 8 == 0 && 0 < |c.entries| <= MAX_ENTRY_BYTES
    ensures HeaderSound(crc, c.sector) && Field(c.sector, 24, 32) == 1
    ensures c.sector[56..72] == l.guid && Field(c.sector, 40, 48) == l.firstUsable
    ensures Parts(c.entries, c.table.size, c.table.count, l.ss, |d|) == Some(l.parts)
  {
    hide Parts, At, Field;
    var sector := d[l.ss..2 * l.ss];
    assert primary[l.ss..2 * l.ss] == sector;
    var a := ArrayOf(sector, l.ss);
    assert primary[a.offset..a.offset + At(a.size, a.count)] == d[a.offset..a.offset + At(a.size, a.count)];
    c := Captured(sector, a, Field(sector, 12, 16), d[a.offset..a.offset + At(a.size, a.count)]);
  }

  // ---- The rewritten regions ----

  // The whole sectors the entry array takes.
  function EntrySectors(bytes: nat, ss: nat): nat
    requires ss > 0
  {
    (bytes + ss - 1) / ss
  }

  function LastLba(targetSize: nat, ss: nat): int
    requires ss > 0
  {
    targetSize / ss - 1
  }

  // The new primary header, sealed.
  function NewHeader(crc: Crc, h: seq<byte>, lastLba: int, lastUsable: nat, entries: seq<byte>): (t: seq<byte>)
    requires |h| >= HEADER_SIZE
    ensures |t| == |h|
  {
    Sealed(crc, Patched(h, lastLba, lastUsable, crc(entries)))
  }

  function NewPrimary(primary: seq<byte>, ss: nat, header: seq<byte>, offset: nat, entries: seq<byte>): (t: seq<byte>)
    requires ss + |header| <= |primary| && offset + |entries| <= |primary|
    ensures |t| == |primary|
  {
    Splice(Splice(primary, offset, entries), ss, header)
  }

  function NewBackup(crc: Crc, ss: nat, header: seq<byte>, entries: seq<byte>, lastLba: int, entryLba: int): seq<byte>
    requires HEADER_SIZE <= |header| <= ss
  {
    entries + Sealed(crc, Mirrored(header, lastLba, entryLba)) + Zeros(ss - |header|)
  }

  datatype Applied = Applied(primary: seq<byte>, backupOffset: int, backup: seq<byte>)

  // The new regions of a capture, when the plan's slots exist.
  ghost function Rewritten(crc: Crc, l: DiskLayout, c: Captured, fit: Fit, primary: seq<byte>): Applied
    requires Readable(l, primary, c) && InArray(fit.moves, c.table.count)
  {
    var entries := PutAll(c.entries, c.table.size, c.table.count, fit.moves);
    var lastLba := LastLba(fit.targetSize, l.ss);
    var entryLba := lastLba - EntrySectors(|entries|, l.ss);
    var header := NewHeader(crc, c.sector[..c.headerSize], lastLba, fit.lastUsable, entries);
    Applied(NewPrimary(primary, l.ss, header, c.table.offset, entries), entryLba * l.ss,
            NewBackup(crc, l.ss, header, entries, lastLba, entryLba))
  }

  method PutMoves(es: seq<byte>, size: nat, count: nat, moves: seq<Move>) returns (res: Option<seq<byte>>)
    requires size >= 128 && At(size, count) <= |es|
    ensures res.Some? <==> InArray(moves, count)
    ensures res.Some? ==> res.value == PutAll(es, size, count, moves)
  {
    hide At, PutMove;
    var out, k := es, 0;
    while k < |moves|
      invariant 0 <= k <= |moves| && InArray(moves[..k], count) && |out| == |es|
      invariant out == PutAll(es, size, count, moves[..k])
    {
      if moves[k].index >= count {
        return None;
      }
      assert moves[..k + 1][..k] == moves[..k];
      SlotWithin(size, moves[k].index, count);
      out := PutMove(out, size, moves[k]);
      k := k + 1;
    }
    assert moves[..k] == moves;
    return Some(out);
  }

  // The array the primary header tells of, where there is a header.
  function TableOf(primary: seq<byte>, ss: nat): EntryArray
    requires ss + HEADER_SIZE <= |primary|
  {
    ArrayOf(primary[ss..], ss)
  }

  // What a region long enough for a header must also have for the source not to fail on
  // it: every parsed capture has it whose array does not overlap its header.
  ghost predicate Orderly(primary: seq<byte>, ss: nat) {
    ss + HEADER_SIZE <= |primary| ==>
      && HEADER_SIZE <= Field(primary[ss..], 12, 16) <= ss && 2 * ss <= |primary|
      && TableOf(primary, ss).size >= 128 && 2 * ss <= TableOf(primary, ss).offset
  }

  // The regions have their captured lengths, the array is in the primary one, and
  // every slot the plan names is in the array.
  ghost predicate Applicable(l: DiskLayout, fit: Fit, primary: seq<byte>, backupLength: nat) {
    && |primary| == l.primaryLength && backupLength == l.backupLength && l.ss + HEADER_SIZE <= |primary|
    && var table := TableOf(primary, l.ss);
       table.offset + At(table.size, table.count) <= |primary| && InArray(fit.moves, table.count)
  }

  method ApplyFit(crc: Crc, l: DiskLayout, fit: Fit, primary: seq<byte>, backupLength: nat)
    returns (res: Option<Applied>)
    requires GoodSectorSize(l.ss) && Orderly(primary, l.ss)
    ensures res.Some? <==> Applicable(l, fit, primary, backupLength)
    ensures res.Some? ==>
              forall c :: Readable(l, primary, c) && InArray(fit.moves, c.table.count) ==>
                res.value == Rewritten(crc, l, c, fit, primary)
  {
    hide At, Field, PutAll, ArrayOf, Rewrite, Rewritten, PutMove, Signed;
    var ss := l.ss;
    if |primary| != l.primaryLength || backupLength != l.backupLength || |primary| < ss + HEADER_SIZE {
      return None;
    }
    SectorHead(primary, ss);
    var sector := primary[ss..2 * ss];
    var table := ArrayOf(sector, ss);
    if table.offset + At(table.size, table.count) > |primary| {
      return None;
    }
    var entries := primary[table.offset..table.offset + At(table.size, table.count)];
    var put := PutMoves(entries, table.size, table.count, fit.moves);
    if put.None? {
      return None;
    }
    res := Some(Rewrite(crc, l, fit, primary, sector, table, put.value));
    forall c | Readable(l, primary, c) && InArray(fit.moves, c.table.count)
      ensures res.value == Rewritten(crc, l, c, fit, primary)
    {
      assert c == Held(l, primary);
      RewriteIs(crc, l, c, fit, primary);
    }
  }

  // The regions with the entries and headers given.
  function Rewrite(crc: Crc, l: DiskLayout, fit: Fit, primary: seq<byte>, sector: seq<byte>, table: EntryArray,
                   entries: seq<byte>): Applied
    requires 512 <= l.ss == |sector| && HEADER_SIZE <= Field(sector, 12, 16) <= l.ss && 2 * l.ss <= |primary|
    requires 0 <= table.offset && table.offset + |entries| <= |primary|
  {
    var lastLba := LastLba(fit.targetSize, l.ss);
    var entryLba := lastLba - EntrySectors(|entries|, l.ss);
    var header := NewHeader(crc, sector[..Field(sector, 12, 16)], lastLba, fit.lastUsable, entries);
    Applied(NewPrimary(primary, l.ss, header, table.offset, entries), entryLba * l.ss,
            NewBackup(crc, l.ss, header, entries, lastLba, entryLba))
  }

  lemma RewriteIs(crc: Crc, l: DiskLayout, c: Captured, fit: Fit, primary: seq<byte>)
    requires Readable(l, primary, c) && InArray(fit.moves, c.table.count)
    ensures Rewritten(crc, l, c, fit, primary) ==
            Rewrite(crc, l, fit, primary, c.sector, c.table, PutAll(c.entries, c.table.size, c.table.count, fit.moves))
  {
    hide At, Field, PutAll, EntrySectors, LastLba, ArrayOf, NewHeader, NewPrimary, NewBackup;
  }

  // What is readable is applied when lengths and slots agree.
  lemma ReadableApplies(l: DiskLayout, fit: Fit, primary: seq<byte>, c: Captured)
    requires Readable(l, primary, c)
    ensures Orderly(primary, l.ss)
    ensures Applicable(l, fit, primary, l.backupLength) <==> InArray(fit.moves, c.table.count)
  {
    hide At, Field, ArrayOf;
    SectorHead(primary, l.ss);
  }

  // The header's fields lie in its sector.
  lemma SectorHead(primary: seq<byte>, ss: nat)
    requires 512 <= ss && 2 * ss <= |primary|
    ensures Field(primary[ss..], 12, 16) == Field(primary[ss..2 * ss], 12, 16)
    ensures TableOf(primary, ss) == ArrayOf(primary[ss..2 * ss], ss)
  {
    hide FromLE;
    SamePiece(primary, ss, 12, 16);
    SamePiece(primary, ss, 72, 80);
    SamePiece(primary, ss, 80, 84);
    SamePiece(primary, ss, 84, 88);
    SamePiece(primary, ss, 88, 92);
  }

  lemma SamePiece(s: seq<byte>, at: nat, lo: nat, hi: nat)
    requires lo <= hi <= at && 2 * at <= |s|
    ensures s[at..][lo..hi] == s[at..2 * at][lo..hi]
  {
    forall i | 0 <= i < hi - lo
      ensures s[at..][lo..hi][i] == s[at..2 * at][lo..hi][i]
    {
    }
  }

  // A region holds one capture at most.
  ghost function Held(l: DiskLayout, primary: seq<byte>): Captured
    requires 512 <= l.ss && 2 * l.ss <= |primary|
    requires var t := ArrayOf(primary[l.ss..2 * l.ss], l.ss);
             0 <= t.offset && t.offset + At(t.size, t.count) <= |primary|
  {
    var sector := primary[l.ss..2 * l.ss];
    var t := ArrayOf(sector, l.ss);
    Captured(sector, t, Field(sector, 12, 16), primary[t.offset..t.offset + At(t.size, t.count)])
  }

  // ---- Reading it all back ----

  // A sector beginning with a sealed header holds that header's fields.
  lemma SectorField(crc: Crc, h: seq<byte>, sector: seq<byte>, lo: nat, hi: nat)
    requires HEADER_SIZE <= |h| <= |sector| && sector[..|h|] == Sealed(crc, h) && 20 <= lo <= hi <= |h|
    ensures sector[lo..hi] == h[lo..hi]
  {
    hide Sealed;
    SealedBeside(crc, h, lo, hi);
    HeadSlice(sector, |h|, lo, hi);
  }

  lemma HeadSlice(s: seq<byte>, n: nat, lo: nat, hi: nat)
    requires lo <= hi <= n <= |s|
    ensures s[..n][lo..hi] == s[lo..hi]
  {
  }

  // One field of the new header sector that was not rewritten.
  lemma KeptField(crc: Crc, sector0: seq<byte>, n: nat, p: seq<byte>, sector: seq<byte>, lo: nat, hi: nat)
    requires HEADER_SIZE <= n <= |sector0| && n <= |sector| && |p| == n && sector[..n] == Sealed(crc, p)
    requires 20 <= lo <= hi <= n && p[lo..hi] == sector0[..n][lo..hi]
    ensures sector[lo..hi] == sector0[lo..hi]
  {
    hide Sealed;
    SectorField(crc, p, sector, lo, hi);
    HeadSlice(sector0, n, lo, hi);
  }

  // The new header sector has the captured one's fields but for those rewritten.
  lemma NewHeaderFields(crc: Crc, sector0: seq<byte>, n: nat, lastLba: int, lastUsable: nat, entries: seq<byte>,
                        sector: seq<byte>)
    requires Checksum(crc) && |sector0| >= 512 && HeaderSound(crc, sector0) && n == Field(sector0, 12, 16)
    requires 0 <= lastLba < M64 && lastUsable < Pow256(8) && |sector| == |sector0|
    requires sector[..n] == NewHeader(crc, sector0[..n], lastLba, lastUsable, entries)
    ensures HeaderSound(crc, sector) && sector[24..32] == sector0[24..32] && sector[40..48] == sector0[40..48]
    ensures sector[56..72] == sector0[56..72] && sector[72..80] == sector0[72..80]
    ensures sector[80..84] == sector0[80..84] && sector[84..88] == sector0[84..88]
    ensures Field(sector, 32, 40) == lastLba && Field(sector, 48, 56) == lastUsable
    ensures Field(sector, 88, 92) == crc(entries)
  {
    hide LE, FromLE, Pow256, Splice, Patched, Sealed, Cleared;
    var h := sector0[..n];
    var p := Patched(h, lastLba, lastUsable, crc(entries));
    PatchedFields(h, lastLba, lastUsable, crc(entries));
    HeadSlice(sector0, n, 0, 8);
    HeadSlice(sector0, n, 12, 16);
    SealedSound(crc, p, sector);
    KeptField(crc, sector0, n, p, sector, 24, 32);
    KeptField(crc, sector0, n, p, sector, 40, 48);
    KeptField(crc, sector0, n, p, sector, 56, 72);
    KeptField(crc, sector0, n, p, sector, 72, 80);
    KeptField(crc, sector0, n, p, sector, 80, 84);
    KeptField(crc, sector0, n, p, sector, 84, 88);
    SectorField(crc, p, sector, 32, 40);
    SectorField(crc, p, sector, 48, 56);
    SectorField(crc, p, sector, 88, 92);
    Widths();
    LERoundTrip(lastLba, 8);
    LERoundTrip(lastUsable, 8);
    LERoundTrip(crc(entries), 4);
  }

  // Where the target is big enough and the moves stay on it.
  ghost predicate FitsOn(l: DiskLayout, c: Captured, fit: Fit) {
    && l.ss > 0 && fit.targetSize % l.ss == 0 && 3 * l.ss <= fit.targetSize < 0x8000_0000_0000_0000
    && l.primaryLength <= fit.targetSize && fit.lastUsable < Pow256(8)
    && LastLba(fit.targetSize, l.ss) >= EntrySectors(|c.entries|, l.ss)
    && LastLba(fit.targetSize, l.ss) * l.ss >= |c.entries|
    && InArray(fit.moves, c.table.count) && (forall k :: 0 <= k < |fit.moves| ==> Narrow(fit.moves[k]))
    && MovesFit(l.parts, fit.moves, l.ss, fit.targetSize)
  }

  // The layout a fitted disk should have.
  ghost function FittedLayout(l: DiskLayout, c: Captured, fit: Fit): DiskLayout
    requires FitsOn(l, c, fit)
  {
    var lastLba := LastLba(fit.targetSize, l.ss);
    l.(lastUsable := fit.lastUsable, alternate := lastLba, parts := AllMoved(l.parts, fit.moves),
       backupOffset := lastLba * l.ss - |c.entries|)
  }

  lemma SubSlice(s: seq<byte>, a: nat, b: nat, k: nat)
    requires a + k <= b <= |s|
    ensures s[a..b][..k] == s[a..a + k]
  {
  }

  lemma TwoAt(s: seq<byte>, i: nat)
    requires i + 2 <= |s|
    ensures s[i..i + 2] == [s[i], s[i + 1]]
  {
  }

  lemma PrimaryPieces(primary: seq<byte>, ss: nat, header: seq<byte>, offset: nat, entries: seq<byte>)
    requires 512 <= ss && |header| <= ss && 2 * ss <= offset && offset + |entries| == |primary|
    ensures var t := NewPrimary(primary, ss, header, offset, entries);
            && t[510] == primary[510] && t[511] == primary[511]
            && t[ss..2 * ss][..|header|] == header
            && t[offset..] == entries
  {
    hide Splice;
    var u := Splice(primary, offset, entries);
    var t := Splice(u, ss, header);
    SpliceInside(u, ss, header);
    SubSlice(t, ss, 2 * ss, |header|);
    SpliceBeside(u, ss, header, offset, |u|);
    SpliceInside(primary, offset, entries);
    assert t[offset..] == t[offset..|u|] == u[offset..|u|] == u[offset..offset + |entries|];
    SpliceBeside(u, ss, header, 510, 512);
    SpliceBeside(primary, offset, entries, 510, 512);
    TwoAt(t, 510);
    TwoAt(primary, 510);
  }

  // A disk with the rewritten primary region parses to the fitted layout.
  lemma FittedDiskParses(crc: Crc, d0: seq<byte>, l: DiskLayout, primary: seq<byte>, c: Captured, fit: Fit,
                         d: seq<byte>)
    requires Checksum(crc) && Readable(l, primary, c) && FitsOn(l, c, fit)
    requires primary[510] == 0x55 && primary[511] == 0xAA && c.table.size % 8 == 0 && 0 < |c.entries| <= MAX_ENTRY_BYTES
    requires HeaderSound(crc, c.sector) && Field(c.sector, 24, 32) == 1
    requires c.sector[56..72] == l.guid && Field(c.sector, 40, 48) == l.firstUsable
    requires Parts(c.entries, c.table.size, c.table.count, l.ss, |d0|) == Some(l.parts)
    requires |d| == fit.targetSize && d[..|primary|] == Rewritten(crc, l, c, fit, primary).primary
    ensures ParseGpt(crc, d, l.ss) == Some(FittedLayout(l, c, fit))
  {
    hide HeaderSound, At, PutAll, Sealed, Patched, Mirrored, Splice, EntrySectors, FromLE, LE, Pow256, Parts, MovesFit,
         AllMoved, NewHeader, NewPrimary, NewBackup, Checksum, Signed, LastLba;
    var ss, n := l.ss, c.headerSize;
    var entries := PutAll(c.entries, c.table.size, c.table.count, fit.moves);
    var lastLba := LastLba(fit.targetSize, ss);
    var header := NewHeader(crc, c.sector[..n], lastLba, fit.lastUsable, entries);
    var t := NewPrimary(primary, ss, header, c.table.offset, entries);
    PrimaryPieces(primary, ss, header, c.table.offset, entries);
    var sector := d[ss..2 * ss];
    HeadSlice(d, |primary|, ss, 2 * ss);
    LbaFits(fit.targetSize, ss);
    SignedSame(lastLba * ss - |entries|);
    SignedSame(lastLba * ss + ss);
    NewHeaderFields(crc, c.sector, n, lastLba, fit.lastUsable, entries, sector);
    assert ArrayOf(sector, ss) == c.table.(crc := crc(entries));
    HeadSlice(d, |primary|, c.table.offset, |primary|);
    PartsOfAll(c.entries, c.table.size, c.table.count, fit.moves, c.table.count, ss, |d0|, fit.targetSize);
    assert d[510] == t[510] && d[511] == t[511];
  }

  lemma LbaFits(targetSize: nat, ss: nat)
    requires ss > 0 && targetSize % ss == 0 && 3 * ss <= targetSize < 0x8000_0000_0000_0000
    ensures 0 <= LastLba(targetSize, ss) < M64 && LastLba(targetSize, ss) * ss + ss == targetSize
  {
  }

  lemma BackupPlace(bytes: nat, ss: nat, lastLba: int)
    requires ss > 0
    ensures (lastLba - EntrySectors(bytes, ss)) * ss + bytes == lastLba * ss <==> bytes % ss == 0
  {
    var n := EntrySectors(bytes, ss);
    assert (lastLba - n) * ss == lastLba * ss - n * ss;
    SectorsExact(bytes, ss);
  }

  // The backup header lands on the last sector exactly when the entry array is a
  // whole number of sectors.
  lemma BackupLands(crc: Crc, l: DiskLayout, primary: seq<byte>, c: Captured, fit: Fit)
    requires Readable(l, primary, c) && InArray(fit.moves, c.table.count)
    ensures Rewritten(crc, l, c, fit, primary).backupOffset + |c.entries| == LastLba(fit.targetSize, l.ss) * l.ss <==>
            |c.entries| % l.ss == 0
  {
    hide NewHeader, NewPrimary, NewBackup, PutAll, At, ArrayOf, EntrySectors, LastLba;
    BackupPlace(|c.entries|, l.ss, LastLba(fit.targetSize, l.ss));
  }

  lemma SectorsExact(bytes: nat, ss: nat)
    requires ss > 0
    ensures EntrySectors(bytes, ss) * ss == bytes <==> bytes % ss == 0
  {
    var q, r := bytes / ss, bytes % ss;
    assert bytes == q * ss + r;
    if r == 0 {
      QuotientIs(bytes + ss - 1, ss, q);
    } else {
      QuotientIs(bytes + ss - 1, ss, q + 1);
      assert (q + 1) * ss == q * ss + ss;
    }
  }

  lemma QuotientIs(x: nat, ss: nat, q: nat)
    requires ss > 0 && q * ss <= x < q * ss + ss
    ensures x / ss == q
  {
    var k := x / ss;
    assert k * ss <= x < k * ss + ss;
    assert (q + 1) * ss == q * ss + ss && (k + 1) * ss == k * ss + ss;
    FactorOrder(k, q + 1, ss);
    FactorOrder(q, k + 1, ss);
  }

  lemma FactorOrder(a: nat, b: nat, s: nat)
    ensures b <= a ==> b * s <= a * s
  {
    if b <= a {
      assert a * s == b * s + (a - b) * s;
    }
  }

  lemma NewHeaderHead(crc: Crc, h: seq<byte>, lastLba: int, lastUsable: nat, entries: seq<byte>)
    requires |h| >= HEADER_SIZE
    ensures var t := NewHeader(crc, h, lastLba, lastUsable, entries);
            t[..8] == h[..8] && t[12..16] == h[12..16] && t[56..72] == h[56..72]
  {
    hide Sealed, Patched, LE;
    var p := Patched(h, lastLba, lastUsable, crc(entries));
    PatchedFields(h, lastLba, lastUsable, crc(entries));
    SealedBeside(crc, p, 0, 8);
    SealedBeside(crc, p, 12, 16);
    SealedBeside(crc, p, 56, 72);
    assert Sealed(crc, p)[..8] == Sealed(crc, p)[0..8] && p[..8] == p[0..8];
  }

  lemma BackupSector(crc: Crc, h: seq<byte>, lastLba: int, lastUsable: nat, entries: seq<byte>, entryLba: int, ss: nat,
                     sector: seq<byte>)
    requires Checksum(crc) && HEADER_SIZE <= |h| <= ss && 512 <= ss == |sector|
    requires h[..8] == SIGNATURE && Field(h, 12, 16) == |h|
    requires var header := NewHeader(crc, h, lastLba, lastUsable, entries);
             sector == Sealed(crc, Mirrored(header, lastLba, entryLba)) + Zeros(ss - |h|)
    ensures HeaderSound(crc, sector) && sector[56..72] == h[56..72]
  {
    hide Sealed, Patched, Mirrored, LE, FromLE, Checksum, NewHeader;
    var header := NewHeader(crc, h, lastLba, lastUsable, entries);
    NewHeaderHead(crc, h, lastLba, lastUsable, entries);
    var m := Mirrored(header, lastLba, entryLba);
    MirroredFields(header, lastLba, entryLba);
    assert sector[..|h|] == Sealed(crc, m);
    SealedSound(crc, m, sector);
    SectorField(crc, m, sector, 56, 72);
  }

  // A backup region: an array of so many bytes, and behind it a sound header that says
  // where it is itself, where the primary one is, where the array is and what its checksum.
  ghost predicate BackupTells(crc: Crc, ss: nat, diskSize: nat, lastUsable: nat, table: EntryArray, offset: int,
                              region: seq<byte>)
  {
    && ss >= 512 && |region| == At(table.size, table.count) + ss
    && var es, h := region[..At(table.size, table.count)], region[At(table.size, table.count)..];
       && HeaderSound(crc, h) && Field(h, 24, 32) == diskSize / ss - 1 && Field(h, 32, 40) == 1
       && Field(h, 48, 56) == lastUsable && Field(h, 72, 80) * ss == offset && Field(h, 80, 84) == table.count
       && Field(h, 84, 88) == table.size && Field(h, 88, 92) == crc(es)
  }

  // One field of the backup header sector.
  lemma MirrorField(crc: Crc, m: seq<byte>, h: seq<byte>, ss: nat, lo: nat, hi: nat)
    requires HEADER_SIZE <= |m| <= ss && 512 <= ss && h == Sealed(crc, m) + Zeros(ss - |m|) && 20 <= lo <= hi <= |m|
    ensures h[lo..hi] == m[lo..hi]
  {
    hide Sealed;
    assert h[..|m|] == Sealed(crc, m);
    SectorField(crc, m, h, lo, hi);
  }

  // One field of the new primary header that was not rewritten.
  lemma PatchField(crc: Crc, h: seq<byte>, lastLba: int, lastUsable: nat, entries: seq<byte>)
    requires |h| >= HEADER_SIZE
    ensures var t := NewHeader(crc, h, lastLba, lastUsable, entries);
            && t[80..84] == h[80..84] && t[84..88] == h[84..88] && t[48..56] == LE(lastUsable, 8)
            && t[88..92] == LE(crc(entries), 4)
  {
    hide Sealed, Patched, LE;
    var p := Patched(h, lastLba, lastUsable, crc(entries));
    PatchedFields(h, lastLba, lastUsable, crc(entries));
    SealedBeside(crc, p, 48, 56);
    SealedBeside(crc, p, 80, 84);
    SealedBeside(crc, p, 84, 88);
    SealedBeside(crc, p, 88, 92);
  }

  // What the backup header says, field by field.
  lemma MirrorTells(crc: Crc, sector: seq<byte>, n: nat, lastLba: int, lastUsable: nat, entries: seq<byte>,
                    entryLba: int, ss: nat, h: seq<byte>)
    requires Checksum(crc) && 512 <= ss == |sector| && HeaderSound(crc, sector) && n == Field(sector, 12, 16)
    requires HEADER_SIZE <= n <= ss && 0 <= entryLba <= lastLba < M64 && lastUsable < Pow256(8)
    requires var header := NewHeader(crc, sector[..n], lastLba, lastUsable, entries);
             h == Sealed(crc, Mirrored(header, lastLba, entryLba)) + Zeros(ss - n)
    ensures |h| == ss && HeaderSound(crc, h) && Field(h, 24, 32) == lastLba && Field(h, 32, 40) == 1
    ensures Field(h, 48, 56) == lastUsable && Field(h, 72, 80) == entryLba
    ensures Field(h, 80, 84) == Field(sector, 80, 84) && Field(h, 84, 88) == Field(sector, 84, 88)
    ensures Field(h, 88, 92) == crc(entries)
  {
    hide Sealed, Patched, Mirrored, LE, FromLE, Pow256, Checksum, NewHeader, HeaderSound;
    SoundHead(crc, sector);
    var h0 := sector[..n];
    var header := NewHeader(crc, h0, lastLba, lastUsable, entries);
    var m := Mirrored(header, lastLba, entryLba);
    PatchField(crc, h0, lastLba, lastUsable, entries);
    MirroredFields(header, lastLba, entryLba);
    MirrorField(crc, m, h, ss, 24, 32);
    MirrorField(crc, m, h, ss, 32, 40);
    MirrorField(crc, m, h, ss, 48, 56);
    MirrorField(crc, m, h, ss, 72, 80);
    MirrorField(crc, m, h, ss, 80, 84);
    MirrorField(crc, m, h, ss, 84, 88);
    MirrorField(crc, m, h, ss, 88, 92);
    HeadSlice(sector, n, 0, 8);
    HeadSlice(sector, n, 12, 16);
    HeadSlice(sector, n, 80, 84);
    HeadSlice(sector, n, 84, 88);
    assert h0[..8] == h0[0..8] && sector[..8] == sector[0..8];
    BackupSector(crc, h0, lastLba, lastUsable, entries, entryLba, ss, h);
    Widths();
    Fits(crc, entries);
    LERoundTrip(lastLba, 8);
    LERoundTrip(1, 8);
    LERoundTrip(lastUsable, 8);
    LERoundTrip(entryLba, 8);
    LERoundTrip(crc(entries), 4);
  }

  lemma Fits(crc: Crc, s: seq<byte>)
    requires Checksum(crc)
    ensures crc(s) < Pow256(4)
  {
  }

  // Of the regions ApplyFit makes: the backup's array is the primary's, it reads as the
  // captured partitions moved, and the header behind it tells of itself.
  lemma BackupHolds(crc: Crc, l: DiskLayout, primary: seq<byte>, c: Captured, fit: Fit)
    requires Checksum(crc) && Readable(l, primary, c) && FitsOn(l, c, fit) && HeaderSound(crc, c.sector)
    ensures var a, bytes := Rewritten(crc, l, c, fit, primary), |c.entries|;
            && BackupTells(crc, l.ss, fit.targetSize, fit.lastUsable, c.table, a.backupOffset, a.backup)
            && |a.primary| == c.table.offset + bytes && |a.backup| == bytes + l.ss
            && a.backup[..bytes] == a.primary[c.table.offset..]
    ensures forall diskSize: nat :: Parts(c.entries, c.table.size, c.table.count, l.ss, diskSize) == Some(l.parts) ==>
              Parts(Rewritten(crc, l, c, fit, primary).backup[..|c.entries|], c.table.size, c.table.count, l.ss,
                    fit.targetSize) == Some(AllMoved(l.parts, fit.moves))
  {
    hide At, PutAll, Sealed, Mirrored, EntrySectors, FromLE, LE, Pow256, MovesFit, AllMoved, NewHeader, NewPrimary,
         Checksum, LastLba, HeaderSound, Parts;
    var ss, n, a := l.ss, c.headerSize, Rewritten(crc, l, c, fit, primary);
    var entries := PutAll(c.entries, c.table.size, c.table.count, fit.moves);
    var lastLba := LastLba(fit.targetSize, ss);
    var entryLba := lastLba - EntrySectors(|entries|, ss);
    var header := NewHeader(crc, c.sector[..n], lastLba, fit.lastUsable, entries);
    LbaFits(fit.targetSize, ss);
    LastIs(fit.targetSize, ss);
    PrimaryPieces(primary, ss, header, c.table.offset, entries);
    var h := Sealed(crc, Mirrored(header, lastLba, entryLba)) + Zeros(ss - n);
    assert a.backup == entries + h;
    assert a.backup[..|entries|] == entries && a.backup[|entries|..] == h;
    MirrorTells(crc, c.sector, n, lastLba, fit.lastUsable, entries, entryLba, ss, h);
    forall diskSize: nat | Parts(c.entries, c.table.size, c.table.count, ss, diskSize) == Some(l.parts)
      ensures Parts(entries, c.table.size, c.table.count, ss, fit.targetSize) == Some(AllMoved(l.parts, fit.moves))
    {
      PartsOfAll(c.entries, c.table.size, c.table.count, fit.moves, c.table.count, ss, diskSize, fit.targetSize);
    }
  }

  lemma LastIs(targetSize: nat, ss: nat)
    requires ss > 0
    ensures LastLba(targetSize, ss) == targetSize / ss - 1
  {
  }

  // Writing ApplyFit's regions to a disk and parsing it gives back the captured
  // partitions at exactly the planned extents, with GUIDs, types, names and attributes
  // as they were; and the backup header is sound too.
  lemma FitRoundTrip(crc: Crc, d0: seq<byte>, l: DiskLayout, primary: seq<byte>, c: Captured, fit: Fit, d: seq<byte>)
    requires Checksum(crc) && Capture(crc, d0, l, primary) && Readable(l, primary, c) && FitsOn(l, c, fit)
    requires var a := Rewritten(crc, l, c, fit, primary);
             && |d| == fit.targetSize && d[..|primary|] == a.primary
             && 0 <= a.backupOffset && a.backupOffset + |a.backup| <= |d|
             && d[a.backupOffset..a.backupOffset + |a.backup|] == a.backup
    ensures ParseGpt(crc, d, l.ss) == Some(FittedLayout(l, c, fit))
    ensures |c.entries| % l.ss == 0 ==> BackupSound(crc, d, FittedLayout(l, c, fit))
    ensures var a := Rewritten(crc, l, c, fit, primary);
            var region := d[a.backupOffset..a.backupOffset + |a.backup|];
            && BackupTells(crc, l.ss, |d|, fit.lastUsable, c.table, a.backupOffset, region)
            && |c.entries| <= |region|
            && Parts(region[..|c.entries|], c.table.size, c.table.count, l.ss, |d|) ==
               Some(FittedLayout(l, c, fit).parts)
  {
    hide HeaderSound, At, PutAll, Sealed, Patched, Mirrored, Splice, EntrySectors, FromLE, LE, Pow256, Parts, MovesFit,
         AllMoved, NewHeader, NewPrimary, Checksum, ParseGpt, Capture, ArrayOf, LastLba, GoodSectorSize, BackupTells,
         Rewritten;
    var c' := CaptureFacts(crc, d0, l, primary);
    assert c' == c;
    FittedDiskParses(crc, d0, l, primary, c, fit, d);
    BackupHolds(crc, l, primary, c, fit);
    if |c.entries| % l.ss == 0 {
      FittedBackup(crc, l, primary, c, fit, d);
    }
  }

  lemma FittedBackup(crc: Crc, l: DiskLayout, primary: seq<byte>, c: Captured, fit: Fit, d: seq<byte>)
    requires Checksum(crc) && Readable(l, primary, c) && FitsOn(l, c, fit) && HeaderSound(crc, c.sector)
    requires c.sector[56..72] == l.guid && |c.entries| % l.ss == 0
    requires var a := Rewritten(crc, l, c, fit, primary);
             && |d| == fit.targetSize && 0 <= a.backupOffset && a.backupOffset + |a.backup| <= |d|
             && d[a.backupOffset..a.backupOffset + |a.backup|] == a.backup
    ensures BackupSound(crc, d, FittedLayout(l, c, fit))
  {
    hide At, PutAll, Sealed, Patched, Mirrored, Splice, EntrySectors, FromLE, LE, Pow256, MovesFit, AllMoved, NewHeader,
         NewPrimary, Checksum, LastLba, ArrayOf, Signed, HeaderSound;
    var ss, n := l.ss, c.headerSize;
    var entries := PutAll(c.entries, c.table.size, c.table.count, fit.moves);
    var lastLba := LastLba(fit.targetSize, ss);
    var entryLba := lastLba - EntrySectors(|entries|, ss);
    var h := c.sector[..n];
    var header := NewHeader(crc, h, lastLba, fit.lastUsable, entries);
    var backup := NewBackup(crc, ss, header, entries, lastLba, entryLba);
    BackupPlace(|entries|, ss, lastLba);
    LbaFits(fit.targetSize, ss);
    var at := lastLba * ss;
    SignedSame(at);
    var tail := Sealed(crc, Mirrored(header, lastLba, entryLba)) + Zeros(ss - n);
    assert backup == entries + tail;
    TailAt(d, entryLba * ss, entries, tail);
    HeadSlice(c.sector, n, 0, 8);
    HeadSlice(c.sector, n, 12, 16);
    HeadSlice(c.sector, n, 56, 72);
    assert h[..8] == SIGNATURE && Field(h, 12, 16) == |h| by {
      SoundHead(crc, c.sector);
    }
    BackupSector(crc, h, lastLba, fit.lastUsable, entries, entryLba, ss, d[at..at + ss]);
  }

  lemma SoundHead(crc: Crc, sector: seq<byte>)
    requires |sector| >= 512 && HeaderSound(crc, sector)
    ensures sector[..8] == SIGNATURE
  {
  }

  lemma TailAt(d: seq<byte>, off: nat, a: seq<byte>, b: seq<byte>)
    requires off + |a| + |b| <= |d| && d[off..off + |a| + |b|] == a + b
    ensures d[off + |a|..off + |a| + |b|] == b
  {
    assert d[off + |a|..off + |a| + |b|] == d[off..off + |a| + |b|][|a|..];
  }
}
