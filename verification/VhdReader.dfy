/** Reading a dynamic VHD (diskimage/reader.go), and what it finds in a finished one. */
module VhdReader {
  import opened Bytes
  import opened Options
  import opened ImageFiles
  import opened VhdWriter

  function U32(s: seq<byte>, off: nat): nat
    requires off + 4 <= |s|
  {
    FromBE(s[off..off + 4])
  }

  function U64(s: seq<byte>, off: nat): nat
    requires off + 8 <= |s|
  {
    FromBE(s[off..off + 8])
  }

  // The checksum at off is that of s with the field cleared.
  predicate ChecksumOk(s: seq<byte>, off: nat)
    requires off + 4 <= |s|
  {
    Checksum(Splice(s, off, [0, 0, 0, 0])) == U32(s, off)
  }

  // ---- Opening ----

  datatype Reader = Reader(file: seq<byte>, size: nat, bat: seq<nat>)

  predicate GoodFooter(footer: seq<byte>)
    requires |footer| == SECTOR
  {
    footer[..8] == COOKIE && ChecksumOk(footer, 64) && U32(footer, 60) == 3
  }

  predicate GoodHeader(h: seq<byte>, size: nat)
    requires |h| == 1024
  {
    h[..8] == DYN_COOKIE && ChecksumOk(h, 36) && U32(h, 32) == BLOCK_BYTES && U32(h, 28) * BLOCK_BYTES >= size
  }

  function LastSector(f: seq<byte>): seq<byte>
    requires |f| >= SECTOR
  {
    f[|f| - SECTOR..]
  }

  // Where the dynamic header is.
  function HeaderAt(f: seq<byte>): nat
    requires |f| >= SECTOR
  {
    U64(LastSector(f), 16)
  }

  ghost predicate ReadsBat(f: seq<byte>, h: seq<byte>, bat: seq<nat>)
    requires |h| == 1024
  {
    var off, n := U64(h, 16), U32(h, 28);
    && off + n * 4 <= |f| && |bat| == n
    && forall b :: 0 <= b < n ==> bat[b] == FromBE(Slot4(f[off..off + n * 4], b))
  }

  ghost predicate Opens(f: seq<byte>, r: Reader) {
    && |f| >= SECTOR && GoodFooter(LastSector(f)) && HeaderAt(f) + 1024 <= |f|
    && r.file == f && r.size == U64(LastSector(f), 48)
    && var h := f[HeaderAt(f)..HeaderAt(f) + 1024]; GoodHeader(h, r.size) && ReadsBat(f, h, r.bat)
  }

  ghost predicate Unreadable(f: seq<byte>) {
    || |f| < SECTOR || !GoodFooter(LastSector(f)) || HeaderAt(f) + 1024 > |f|
    || var h := f[HeaderAt(f)..HeaderAt(f) + 1024];
       !GoodHeader(h, U64(LastSector(f), 48)) || U64(h, 16) + U32(h, 28) * 4 > |f|
  }

  method DecodeBat(s: seq<byte>, n: nat) returns (bat: seq<nat>)
    requires |s| == n * 4
    ensures |bat| == n && forall b :: 0 <= b < n ==> bat[b] == FromBE(Slot4(s, b))
  {
    bat := [];
    var i := 0;
    while i < n
      invariant 0 <= i <= n && |bat| == i && forall b :: 0 <= b < i ==> bat[b] == FromBE(Slot4(s, b))
    {
      bat := bat + [U32(s, i * 4)];
      i := i + 1;
    }
  }

  method Open(f: seq<byte>) returns (res: Option<Reader>)
    ensures res.Some? ==> Opens(f, res.value)
    ensures res.None? ==> Unreadable(f)
  {
    hide FromBE, GoodFooter, GoodHeader;
    if |f| < SECTOR {
      return None;
    }
    var footer := LastSector(f);
    if !GoodFooter(footer) || U64(footer, 16) + 1024 > |f| {
      return None;
    }
    var size, h := U64(footer, 48), f[U64(footer, 16)..U64(footer, 16) + 1024];
    if !GoodHeader(h, size) {
      return None;
    }
    var off, n := U64(h, 16), U32(h, 28);
    if off + n * 4 > |f| {
      return None;
    }
    var bat := DecodeBat(f[off..off + n * 4], n);
    return Some(Reader(f, size, bat));
  }

  // ---- Reading ----

  // Byte y of the virtual disk; None: the file is too short for it.
  function DiskByte(r: Reader, y: nat): Option<byte>
    requires BlockOf(y) < |r.bat|
  {
    var base := r.bat[BlockOf(y)] * SECTOR;
    if r.bat[BlockOf(y)] == UNALLOCATED then Some(0)
    else if base + SECTOR > |r.file| then None
    else if !FileMarked(r.file, base, SectorIn(y)) then Some(0)
    else if base + SECTOR + (SectorIn(y) + 1) * SECTOR > |r.file| then None
    else Some(r.file[base + SECTOR + InBlock(y)])
  }

  ghost predicate Covered(r: Reader) {
    forall y :: 0 <= y < r.size ==> BlockOf(y) < |r.bat|
  }

  function Min(a: nat, b: nat): nat {
    if a < b then a else b
  }

  // The part of one block from y on, sector by sector.
  method ReadBlock(r: Reader, y: nat, n: nat) returns (p: Option<seq<byte>>)
    requires BlockOf(y) < |r.bat| && 0 < n && InBlock(y) + n <= BLOCK_BYTES
    requires forall z :: y <= z < y + n ==> BlockOf(z) < |r.bat|
    ensures p.Some? ==> |p.value| == n && forall z :: y <= z < y + n ==> DiskByte(r, z) == Some(p.value[z - y])
    ensures p.None? ==> exists z :: y <= z < y + n && DiskByte(r, z).None?
  {
    hide BlockOf, Marked, Piece;
    SameBlock(y, n);
    if r.bat[BlockOf(y)] == UNALLOCATED {
      return Some(Zeros(n));
    }
    var base := r.bat[BlockOf(y)] * SECTOR;
    if base + SECTOR > |r.file| {
      assert DiskByte(r, y).None?;
      return None;
    }
    var bm := r.file[base..base + SECTOR];
    PieceInside(r.file, base, SECTOR);
    var out: seq<byte> := [];
    while |out| < n
      invariant |out| <= n && forall z :: y <= z < y + |out| ==> DiskByte(r, z) == Some(out[z - y])
    {
      var cur := InBlock(y) + |out|;
      var s := cur / SECTOR;
      var m := Min((s + 1) * SECTOR - cur, n - |out|);
      SameSector(y, |out|, m, s);
      MarkedIs(r.file, base, s);
      if Marked(bm, s) {
        if base + SECTOR + (s + 1) * SECTOR > |r.file| {
          assert DiskByte(r, y + |out|).None?;
          return None;
        }
        out := out + r.file[base + SECTOR + cur..base + SECTOR + cur + m];
      } else {
        out := out + Zeros(m);
      }
    }
    return Some(out);
  }

  lemma SameBlock(y: nat, n: nat)
    requires InBlock(y) + n <= BLOCK_BYTES
    ensures forall z :: y <= z < y + n ==> BlockOf(z) == BlockOf(y) && InBlock(z) == InBlock(y) + z - y
  {
  }

  lemma SameSector(y: nat, k: nat, m: nat, s: nat)
    requires InBlock(y) + k + m <= BLOCK_BYTES && s * SECTOR <= InBlock(y) + k && InBlock(y) + k + m <= (s + 1) * SECTOR
    ensures forall z :: y + k <= z < y + k + m ==> SectorIn(z) == s
  {
    forall z | y + k <= z < y + k + m ensures SectorIn(z) == s {
      assert InBlock(z) == InBlock(y) + z - y;
    }
  }

  method ReadAt(r: Reader, off: nat, n: nat) returns (p: Option<seq<byte>>)
    requires Covered(r) && off + n <= r.size
    ensures p.Some? ==> |p.value| == n && forall y :: off <= y < off + n ==> DiskByte(r, y) == Some(p.value[y - off])
    ensures p.None? ==> exists y :: off <= y < off + n && DiskByte(r, y).None?
  {
    hide DiskByte, BlockOf;
    var out: seq<byte> := [];
    while |out| < n
      invariant |out| <= n && forall y :: off <= y < off + |out| ==> DiskByte(r, y) == Some(out[y - off])
    {
      var cur, left := off + |out|, n - |out|;
      var m := if InBlock(cur) + left > BLOCK_BYTES then BLOCK_BYTES - InBlock(cur) else left;
      assert BlockOf(cur) < |r.bat|;
      var part := ReadBlock(r, cur, m);
      if part.None? {
        return None;
      }
      out := out + part.value;
    }
    return Some(out);
  }
}
