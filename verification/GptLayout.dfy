/** GPT structures as sections 5.3.2 and 5.3.3 of the UEFI Specification lay them
out, and the parser that reads them (core/disklayout/gpt.go).

The checksum is a parameter.  GUIDs and names are kept as their bytes.  Places in bytes
are signed 64-bit numbers and wrap, as in the source. */
module GptLayout {
  import opened Bytes
  import opened Options

  type Crc = seq<byte> -> nat

  function Field(s: seq<byte>, lo: nat, hi: nat): nat
    requires lo <= hi <= |s|
  {
    FromLE(s[lo..hi])
  }

  // A byte place as the source computes it: a signed 64-bit number.
  function Signed(x: int): int {
    var u := x % 0x1_0000_0000_0000_0000;
    if u < 0x8000_0000_0000_0000 then u else u - 0x1_0000_0000_0000_0000
  }

  lemma SignedSame(x: int)
    requires -0x8000_0000_0000_0000 <= x < 0x8000_0000_0000_0000
    ensures Signed(x) == x
  {
  }

  const SIGNATURE: seq<byte> := [0x45, 0x46, 0x49, 0x20, 0x50, 0x41, 0x52, 0x54] // "EFI PART"
  const HEADER_SIZE := 92
  const MAX_ENTRY_BYTES := 0x40_0000

  // ---- Headers ----

  // A header with its checksum field cleared.
  function Cleared(h: seq<byte>): seq<byte>
    requires |h| >= 20
  {
    Splice(h, 16, [0, 0, 0, 0])
  }

  // The sector begins with a header whose checksum is right.
  predicate HeaderSound(crc: Crc, sector: seq<byte>)
    requires |sector| >= 512
  {
    && sector[..8] == SIGNATURE
    && HEADER_SIZE <= Field(sector, 12, 16) <= |sector|
    && crc(Cleared(sector[..Field(sector, 12, 16)])) == Field(sector, 16, 20)
  }

  // ---- Entries ----

  // Where slot i of an array of slots of the given size begins.
  function At(size: nat, i: nat): nat {
    i * size
  }

  lemma NextSlot(size: nat, i: nat)
    ensures At(size, i + 1) == At(size, i) + size
  {
  }

  lemma {:induction false} SlotsApart(size: nat, i: nat, j: nat)
    requires i < j
    ensures At(size, i) + size <= At(size, j)
  {
    hide At;
    NextSlot(size, j - 1);
    if i < j - 1 {
      SlotsApart(size, i, j - 1);
    }
  }

  lemma SlotWithin(size: nat, i: nat, n: nat)
    requires i < n
    ensures At(size, i) + size <= At(size, n)
  {
    SlotsApart(size, i, n);
  }

  function Slot(es: seq<byte>, size: nat, i: nat): seq<byte>
    requires At(size, i) + size <= |es|
  {
    es[At(size, i)..At(size, i) + size]
  }

  datatype Part = Part(index: nat, typeGuid: seq<byte>, partGuid: seq<byte>, first: nat, last: nat, attributes: nat,
                       name: seq<byte>)

  function Zeros(n: nat): seq<byte> {
    seq(n, _ => 0)
  }

  predicate InUse(e: seq<byte>)
    requires |e| >= 128
  {
    e[..16] != Zeros(16)
  }

  function PartOf(e: seq<byte>, i: nat): Part
    requires |e| >= 128
  {
    Part(i, e[..16], e[16..32], Field(e, 32, 40), Field(e, 40, 48), Field(e, 48, 56), e[56..128])
  }

  // The partition is a sensible range on a disk of the given size: offset and length
  // add up, wrapping, to its end.
  predicate Sensible(p: Part, ss: nat, diskSize: nat) {
    p.first <= p.last && Signed(p.first * ss + (p.last - p.first + 1) * ss) <= diskSize
  }

  // A partition on the disk is sensible.
  lemma OnDiskSensible(p: Part, ss: nat, diskSize: nat)
    requires p.first <= p.last && (p.last + 1) * ss <= diskSize < 0x8000_0000_0000_0000
    ensures Sensible(p, ss, diskSize)
  {
    assert p.first * ss + (p.last - p.first + 1) * ss == (p.last + 1) * ss;
  }

  // A sensible one is on the disk exactly when its end fits a signed 64-bit number.
  lemma SensibleExactly(p: Part, ss: nat, diskSize: nat)
    requires Sensible(p, ss, diskSize) && diskSize < 0x8000_0000_0000_0000
    ensures (p.last + 1) * ss <= diskSize <==> (p.last + 1) * ss < 0x8000_0000_0000_0000
  {
    assert p.first * ss + (p.last - p.first + 1) * ss == (p.last + 1) * ss;
  }

  // With sectors of 512 bytes, sector 2^55 wraps to the start of the disk and sector 2^54
  // ends before it.
  lemma FarPartSensible(p: Part)
    requires p.first == p.last && (p.first == 0x80_0000_0000_0000 || p.first == 0x40_0000_0000_0000)
    ensures Sensible(p, 512, 1536) && p.first * 512 > 1536
  {
  }

  // The partitions in the first n slots; None if one of them makes no sense.
  function Parts(es: seq<byte>, size: nat, n: nat, ss: nat, diskSize: nat): Option<seq<Part>>
    requires size >= 128 && At(size, n) <= |es|
  {
    if n == 0 then Some([])
    else
      SlotWithin(size, n - 1, n);
      var front, e := Parts(es, size, n - 1, ss, diskSize), Slot(es, size, n - 1);
      if front.None? || !InUse(e) then front
      else if !Sensible(PartOf(e, n - 1), ss, diskSize) then None
      else Some(front.value + [PartOf(e, n - 1)])
  }

  // ---- The disk ----

  datatype DiskLayout = DiskLayout(ss: nat, guid: seq<byte>, firstUsable: nat, lastUsable: nat, alternate: nat,
                                   parts: seq<Part>, primaryLength: nat, backupOffset: nat, backupLength: nat)

  predicate GoodSectorSize(ss: nat) {
    512 <= ss <= 4096 && ss % 512 == 0
  }

  // What the primary header says of the entry array, if it can be believed.
  datatype EntryArray = EntryArray(offset: int, count: nat, size: nat, crc: nat)

  function ArrayOf(sector: seq<byte>, ss: nat): EntryArray
    requires |sector| >= HEADER_SIZE
  {
    EntryArray(Signed(Field(sector, 72, 80) * ss), Field(sector, 80, 84), Field(sector, 84, 88), Field(sector, 88, 92))
  }

  predicate GoodArray(a: EntryArray, diskSize: nat) {
    && a.size >= 128 && a.size % 8 == 0
    && 0 < At(a.size, a.count) <= MAX_ENTRY_BYTES
    && 0 <= a.offset && a.offset + At(a.size, a.count) <= diskSize
  }

  function ParseGpt(crc: Crc, d: seq<byte>, ss: nat): Option<DiskLayout> {
    if !GoodSectorSize(ss) || |d| < 3 * ss || d[510] != 0x55 || d[511] != 0xAA then None
    else
      var sector := d[ss..2 * ss];
      if !HeaderSound(crc, sector) || Field(sector, 24, 32) != 1 then None
      else
        var a := ArrayOf(sector, ss);
        if !GoodArray(a, |d|) then None
        else
          var es := d[a.offset..a.offset + At(a.size, a.count)];
          if crc(es) != a.crc then None
          else Assembled(sector, ss, |d|, a, Parts(es, a.size, a.count, ss, |d|))
  }

  function Assembled(sector: seq<byte>, ss: nat, diskSize: nat, a: EntryArray, parts: Option<seq<Part>>)
    : Option<DiskLayout>
    requires |sector| >= 512 && a.offset >= 0
  {
    var alternate, bytes := Field(sector, 32, 40), At(a.size, a.count);
    var backupStart := Signed(alternate * ss - bytes);
    if parts.None? || backupStart < 0 || Signed(alternate * ss + ss) > diskSize then None
    else
      Some(DiskLayout(ss, sector[56..72], Field(sector, 40, 48), Field(sector, 48, 56), alternate, parts.value,
                      a.offset + bytes, backupStart, bytes + ss))
  }

  lemma {:induction false} PartsOnDisk(es: seq<byte>, size: nat, n: nat, ss: nat, diskSize: nat, p: Part)
    requires size >= 128 && At(size, n) <= |es| && diskSize < 0x8000_0000_0000_0000
    requires Parts(es, size, n, ss, diskSize).Some? && p in Parts(es, size, n, ss, diskSize).value
    ensures (p.last + 1) * ss <= diskSize <==> (p.last + 1) * ss < 0x8000_0000_0000_0000
  {
    hide At, Slot, PartOf, InUse, Sensible;
    SlotWithin(size, n - 1, n);
    var front, e := Parts(es, size, n - 1, ss, diskSize), Slot(es, size, n - 1);
    if p in front.value {
      PartsOnDisk(es, size, n - 1, ss, diskSize, p);
    } else {
      SensibleExactly(p, ss, diskSize);
    }
  }

  // Every partition of every parsed disk ends on it, unless its end is beyond 63 bits.
  lemma ParsedOnDisk(crc: Crc, d: seq<byte>, ss: nat, p: Part)
    requires ParseGpt(crc, d, ss).Some? && p in ParseGpt(crc, d, ss).value.parts && |d| < 0x8000_0000_0000_0000
    ensures (p.last + 1) * ss <= |d| <==> (p.last + 1) * ss < 0x8000_0000_0000_0000
  {
    hide HeaderSound, At, Field, ArrayOf, Parts;
    var a := ArrayOf(d[ss..2 * ss], ss);
    PartsOnDisk(d[a.offset..a.offset + At(a.size, a.count)], a.size, a.count, ss, |d|, p);
  }

  // ---- The parser, as it runs ----

  method ReadParts(es: seq<byte>, size: nat, count: nat, ss: nat, diskSize: nat) returns (res: Option<seq<Part>>)
    requires size >= 128 && At(size, count) <= |es|
    ensures res == Parts(es, size, count, ss, diskSize)
  {
    hide InUse, PartOf, Sensible, At, Slot;
    var parts := [];
    var i := 0;
    StartsEmpty(es, size, ss, diskSize);
    while i < count
      invariant 0 <= i <= count && At(size, i) <= |es|
      invariant Parts(es, size, i, ss, diskSize) == Some(parts)
    {
      SlotWithin(size, i, count);
      NextSlot(size, i);
      var e := Slot(es, size, i);
      SlotLength(es, size, i);
      if InUse(e) {
        var p := PartOf(e, i);
        if !Sensible(p, ss, diskSize) {
          NoneStays(es, size, i + 1, count, ss, diskSize);
          return None;
        }
        parts := parts + [p];
      }
      i := i + 1;
    }
    return Some(parts);
  }

  lemma StartsEmpty(es: seq<byte>, size: nat, ss: nat, diskSize: nat)
    requires size >= 128
    ensures At(size, 0) == 0 && Parts(es, size, 0, ss, diskSize) == Some([])
  {
  }

  lemma SlotLength(es: seq<byte>, size: nat, i: nat)
    requires At(size, i) + size <= |es|
    ensures |Slot(es, size, i)| == size
  {
  }

  lemma {:induction false} NoneStays(es: seq<byte>, size: nat, i: nat, n: nat, ss: nat, diskSize: nat)
    requires size >= 128 && i <= n && At(size, i) <= |es| && At(size, n) <= |es|
    requires Parts(es, size, i, ss, diskSize).None?
    ensures Parts(es, size, n, ss, diskSize).None?
    decreases n
  {
    hide InUse, PartOf, Sensible, At, Slot;
    if i < n {
      SlotWithin(size, n - 1, n);
      NoneStays(es, size, i, n - 1, ss, diskSize);
    }
  }

  method ParseWithSector(crc: Crc, d: seq<byte>, ss: nat) returns (res: Option<DiskLayout>)
    ensures res == ParseGpt(crc, d, ss)
  {
    hide HeaderSound, Parts, At, Field, Assembled, ArrayOf;
    if !GoodSectorSize(ss) || |d| < 3 * ss || d[510] != 0x55 || d[511] != 0xAA {
      return None;
    }
    var sector := d[ss..2 * ss];
    if !HeaderSound(crc, sector) || Field(sector, 24, 32) != 1 {
      return None;
    }
    var a := ArrayOf(sector, ss);
    if !GoodArray(a, |d|) {
      return None;
    }
    var es := d[a.offset..a.offset + At(a.size, a.count)];
    if crc(es) != a.crc {
      return None;
    }
    var parts := ReadParts(es, a.size, a.count, ss, |d|);
    return Assembled(sector, ss, |d|, a, parts);
  }

  // The backup header, where the primary says it is, is sound and of the same disk.
  predicate BackupSound(crc: Crc, d: seq<byte>, l: DiskLayout) {
    && l.ss >= 512
    && var at := Signed(l.alternate * l.ss);
    && 0 <= at && at + l.ss <= |d|
    && var sector := d[at..at + l.ss];
       HeaderSound(crc, sector) && sector[56..72] == l.guid
  }
}
