/** What the reader finds in a dynamic VHD the writer finished. */
module VhdImage {
  import opened Bytes
  import opened Options
  import opened ImageFiles
  import opened VhdWriter
  import opened VhdReader

  lemma ReadBack(x: nat, n: nat, s: seq<byte>)
    requires x < Pow256(n) && s == BE(x, n)
    ensures FromBE(s) == x
  {
    BERoundTrip(x, n);
  }

  // ---- Checksums ----

  // A sealed record checks out and is otherwise what it was.
  lemma SealedReads(raw: seq<byte>, off: nat)
    requires off + 4 <= |raw| && raw[off..off + 4] == Zeros(4)
    ensures ChecksumOk(Sealed(raw, off), off)
    ensures forall lo, hi :: 0 <= lo <= hi <= |raw| && (hi <= off || off + 4 <= lo) ==>
              Sealed(raw, off)[lo..hi] == raw[lo..hi]
  {
    hide BE, FromBE, Pow256, Checksum;
    var sum := BE(Checksum(raw), 4);
    var s := Splice(raw, off, sum);
    ChecksumFits(raw);
    Widths();
    SpliceInside(raw, off, sum);
    ReadBack(Checksum(raw), 4, s[off..off + 4]);
    ClearedAgain(raw, off, sum);
    forall lo, hi | 0 <= lo <= hi <= |raw| && (hi <= off || off + 4 <= lo) ensures s[lo..hi] == raw[lo..hi] {
      SpliceBeside(raw, off, sum, lo, hi);
    }
  }

  lemma ChecksumFits(s: seq<byte>)
    ensures Checksum(s) < 0x1_0000_0000
  {
  }

  lemma ClearedAgain(raw: seq<byte>, off: nat, sum: seq<byte>)
    requires off + 4 <= |raw| && |sum| == 4 && raw[off..off + 4] == Zeros(4)
    ensures Splice(Splice(raw, off, sum), off, [0, 0, 0, 0]) == raw
  {
    assert Zeros(4) == [0, 0, 0, 0];
    assert raw == raw[..off] + raw[off..off + 4] + raw[off + 4..];
  }

  // ---- Headers ----

  lemma FieldsRead(fs: seq<seq<byte>>, i: nat, lo: nat, hi: nat)
    requires i < |fs| && Start(fs, i) == lo && lo + |fs[i]| == hi
    ensures hi <= |Flat(fs)| && Flat(fs)[lo..hi] == fs[i]
  {
    hide Flat, Start;
    FlatAt(fs, i);
  }

  lemma FooterReads(size: nat, o: Origin)
    requires GoodOrigin(o) && size < Pow256(8)
    ensures var s := Footer(size, o);
            GoodFooter(s) && U64(s, 16) == SECTOR && U64(s, 48) == size
  {
    hide BE, FromBE, Pow256, Flat, Start, Sealed, ChecksumOk;
    var fs, raw := FooterFields(size, o), RawFooter(size, o);
    FooterStarts(size, o);
    FieldsRead(fs, 0, 0, 8) by {
      ZeroStart(fs);
    }
    FieldsRead(fs, 3, 16, 24);
    FieldsRead(fs, 9, 48, 56);
    FieldsRead(fs, 11, 60, 64);
    FieldsRead(fs, 12, 64, 68);
    SealedReads(raw, 64);
    var s := Sealed(raw, 64);
    assert s[0..8] == raw[0..8] && s[16..24] == raw[16..24] && s[48..56] == raw[48..56] && s[60..64] == raw[60..64];
    assert s[..8] == s[0..8];
    Widths();
    ReadBack(SECTOR, 8, s[16..24]);
    ReadBack(size, 8, s[48..56]);
    ReadBack(3, 4, s[60..64]);
  }

  // The fields the reader does not look at: features and version, time, the creator "qem2"
  // with its version and host "Wi2k", the size again, geometry and id.
  lemma FooterSays(size: nat, o: Origin)
    requires GoodOrigin(o) && size < Pow256(8)
    ensures var s := Footer(size, o);
            && U32(s, 8) == 2 && U32(s, 12) == 0x1_0000 && s[24..28] == o.time
            && s[28..32] == [0x71, 0x65, 0x6d, 0x32] && U32(s, 32) == 0x1_0000 && s[36..40] == [0x57, 0x69, 0x32, 0x6b]
            && U64(s, 40) == size && s[56..60] == o.geometry && s[68..84] == o.uuid && s[84..512] == Zeros(428)
  {
    hide BE, FromBE, Pow256, Flat, Start, Sealed, ChecksumOk;
    var fs, raw := FooterFields(size, o), RawFooter(size, o);
    FooterStarts(size, o);
    FieldsRead(fs, 1, 8, 12);
    FieldsRead(fs, 2, 12, 16);
    FieldsRead(fs, 4, 24, 28);
    FieldsRead(fs, 5, 28, 32);
    FieldsRead(fs, 6, 32, 36);
    FieldsRead(fs, 7, 36, 40);
    FieldsRead(fs, 8, 40, 48);
    FieldsRead(fs, 10, 56, 60);
    FieldsRead(fs, 12, 64, 68);
    FieldsRead(fs, 13, 68, 84);
    FieldsRead(fs, 14, 84, 512);
    SealedReads(raw, 64);
    var s := Sealed(raw, 64);
    assert s[8..12] == raw[8..12] && s[12..16] == raw[12..16] && s[24..28] == raw[24..28] && s[28..32] == raw[28..32];
    assert s[32..36] == raw[32..36] && s[36..40] == raw[36..40] && s[40..48] == raw[40..48];
    assert s[56..60] == raw[56..60] && s[68..84] == raw[68..84] && s[84..512] == raw[84..512];
    Widths();
    ReadBack(2, 4, s[8..12]);
    ReadBack(0x1_0000, 4, s[12..16]);
    ReadBack(0x1_0000, 4, s[32..36]);
    ReadBack(size, 8, s[40..48]);
  }

  // And of the dynamic header: no next structure, its version, and zeros behind.
  lemma HeaderSays(blocks: nat)
    ensures var h := DynHeader(blocks);
            U64(h, 8) == 0xFFFF_FFFF_FFFF_FFFF && U32(h, 24) == 0x1_0000 && h[40..1024] == Zeros(984)
  {
    hide BE, FromBE, Pow256, Flat, Start, Sealed, ChecksumOk;
    var fs, raw := DynFields(blocks), RawDyn(blocks);
    DynStarts(blocks);
    FieldsRead(fs, 1, 8, 16);
    FieldsRead(fs, 3, 24, 28);
    FieldsRead(fs, 6, 36, 40);
    FieldsRead(fs, 7, 40, 1024);
    SealedReads(raw, 36);
    var h := Sealed(raw, 36);
    assert h[8..16] == raw[8..16] && h[24..28] == raw[24..28] && h[40..1024] == raw[40..1024];
    Widths();
    ReadBack(0xFFFF_FFFF_FFFF_FFFF, 8, h[8..16]);
    ReadBack(0x1_0000, 4, h[24..28]);
  }

  lemma ZeroStart(fs: seq<seq<byte>>)
    ensures Start(fs, 0) == 0
  {
  }

  lemma HeaderReads(blocks: nat, size: nat)
    requires blocks < Pow256(4) && blocks * BLOCK_BYTES >= size
    ensures var h := DynHeader(blocks);
            GoodHeader(h, size) && U64(h, 16) == BAT_OFFSET && U32(h, 28) == blocks
  {
    hide BE, FromBE, Pow256, Flat, Start, Sealed, ChecksumOk;
    var fs, raw := DynFields(blocks), RawDyn(blocks);
    DynStarts(blocks);
    FieldsRead(fs, 0, 0, 8) by {
      ZeroStart(fs);
    }
    FieldsRead(fs, 2, 16, 24);
    FieldsRead(fs, 4, 28, 32);
    FieldsRead(fs, 5, 32, 36);
    FieldsRead(fs, 6, 36, 40);
    SealedReads(raw, 36);
    var h := Sealed(raw, 36);
    assert h[0..8] == raw[0..8] && h[16..24] == raw[16..24] && h[28..32] == raw[28..32] && h[32..36] == raw[32..36];
    assert h[..8] == h[0..8];
    Widths();
    ReadBack(BAT_OFFSET, 8, h[16..24]);
    ReadBack(blocks, 4, h[28..32]);
    ReadBack(BLOCK_BYTES, 4, h[32..36]);
  }

  // ---- Opening ----

  lemma Sizes(size: nat)
    requires Blocks(size) < 0x1_0000_0000 && size > 0
    ensures size < Pow256(8) && Blocks(size) < Pow256(4) && Blocks(size) * BLOCK_BYTES >= size
    ensures BitmapAt(FirstSector(Blocks(size)), 0) == BAT_OFFSET + BatBytes(Blocks(size))
    ensures BatBytes(Blocks(size)) >= Blocks(size) * 4
  {
    Widths();
    TableRoom(Blocks(size));
  }

  lemma BatFits(at: map<nat, nat>, bat: seq<nat>, size: nat)
    requires Roomy(size, |at|) && |bat| == Blocks(size)
    requires Placed(at, |at|, |bat|) && Listed(at, FirstSector(|bat|), bat)
    ensures forall b :: 0 <= b < |bat| ==> bat[b] < Pow256(4) && (bat[b] == UNALLOCATED <==> b !in at)
  {
    hide FirstSector;
    SectorBound(size, at, |at|, bat);
    Widths();
  }

  lemma SubPart(s: seq<byte>, a: nat, b: nat, lo: nat, hi: nat)
    requires a <= b <= |s| && lo <= hi <= b - a
    ensures s[a..b][lo..hi] == s[a + lo..a + hi]
  {
    forall i | 0 <= i < hi - lo ensures s[a..b][lo..hi][i] == s[a + lo..a + hi][i] {}
  }

  lemma BatRead(f: seq<byte>, bat: seq<nat>)
    requires HasBat(f, bat) && BAT_OFFSET + |bat| * 4 <= |f| && forall b :: 0 <= b < |bat| ==> bat[b] < Pow256(4)
    ensures forall b :: 0 <= b < |bat| ==> FromBE(Slot4(f[BAT_OFFSET..BAT_OFFSET + |bat| * 4], b)) == bat[b]
  {
    hide BE, FromBE, Pow256, Piece;
    forall b | 0 <= b < |bat| ensures FromBE(Slot4(f[BAT_OFFSET..BAT_OFFSET + |bat| * 4], b)) == bat[b] {
      SubPart(f, BAT_OFFSET, BAT_OFFSET + |bat| * 4, b * 4, b * 4 + 4);
      PieceInside(f, BAT_OFFSET + b * 4, 4);
      assert FileSlot4(f, b) == BE(bat[b], 4);
      ReadBack(bat[b], 4, FileSlot4(f, b));
    }
  }

  // A finished image opens, with the writer's table.
  lemma ImageOpens(f: seq<byte>, size: nat, o: Origin, at: map<nat, nat>, bat: seq<nat>, disk: seq<byte>)
    requires Finished(f, size, o, at, bat, disk)
    ensures !Unreadable(f)
    ensures forall r :: Opens(f, r) ==> r.file == f && r.size == size && r.bat == bat
  {
    hide BE, FromBE, Pow256, Piece, Footer, DynHeader, GoodFooter, GoodHeader, HasDisk, Placed, Listed, Slot4,
         FirstSector, BatBytes, Blocks, HasBat;
    Sizes(size);
    BatFits(at, bat, size);
    var end := BitmapAt(FirstSector(|bat|), |at|);
    PieceInside(f, end, SECTOR);
    assert f[end..end + SECTOR] == LastSector(f);
    FooterReads(size, o);
    PieceInside(f, SECTOR, 1024);
    HeaderReads(|bat|, size);
    BatRead(f, bat);
    forall r | Opens(f, r) ensures r.file == f && r.size == size && r.bat == bat {
      assert |r.bat| == |bat|;
    }
  }

  // ---- Reading ----

  // The reader returns each byte of the disk the writer was given.
  lemma ImageReads(f: seq<byte>, size: nat, o: Origin, at: map<nat, nat>, bat: seq<nat>, disk: seq<byte>, r: Reader,
                   y: nat)
    requires Finished(f, size, o, at, bat, disk) && r == Reader(f, size, bat) && y < size
    ensures Covered(r) && BlockOf(y) < |r.bat| && DiskByte(r, y) == Some(disk[y])
  {
    hide Piece, Footer, DynHeader, Roomy, HasBat, FileMarked, FirstSector, Blocks, Pow256;
    BatFits(at, bat, size);
    forall z | 0 <= z < size ensures BlockOf(z) < |r.bat| {
      BlockInRange(size, z);
    }
    assert Holds(at, FirstSector(|bat|), f, y, disk[y]);
  }

  // Write, finish, open and read back: each written byte, and zero elsewhere, whenever there
  // is room for the blocks that hold data, however large the disk.
  method ExportAndRead(size: nat, origin: Origin, ws: seq<Write>, off: nat, n: nat) returns (p: Option<seq<byte>>)
    requires size > 0 && size % SECTOR == 0 && GoodOrigin(origin)
    requires InBounds(ws, size) && Apart(ws) && off + n <= size
    requires Roomy(size, |DataUnits(BLOCK_PAGES, Contents(size, ws))|)
    ensures p == Some(Contents(size, ws)[off..off + n])
  {
    hide Ok, Finished, Splice, Contents, DiskByte, Opens, Unreadable, Roomy, DataUnits;
    var w := new Writer(size, origin);
    ghost var within := DataUnits(BLOCK_PAGES, Contents(size, ws));
    var k := 0;
    NothingYet(size, ws);
    while k < |ws|
      invariant 0 <= k <= |ws| && w.Valid() && w.size == size && w.origin == origin && w.Confined(within)
      invariant InBounds(ws[..k], size) && w.disk == Contents(size, ws[..k])
    {
      OneMoreWrite(size, ws, k);
      WriteHasUnits(BLOCK_PAGES, size, ws, k);
      var ok := w.WriteAt(ws[k].data, ws[k].off);
      k := k + 1;
    }
    assert ws[..k] == ws;
    Fewer(w.at.Keys, within);
    LessRoom(size, w.n, |within|);
    var f := w.Finish();
    ghost var g := w.disk;
    ImageOpens(f, size, w.origin, w.at, w.bat, g);
    var r := Open(f);
    forall y | 0 <= y < size
      ensures Covered(r.value) && BlockOf(y) < |r.value.bat| && DiskByte(r.value, y) == Some(g[y])
    {
      ImageReads(f, size, w.origin, w.at, w.bat, g, r.value, y);
    }
    p := ReadAt(r.value, off, n);
    assert p.value == g[off..off + n];
  }
}
