/** Small disks made to order, on which the parser and the planner (core/disklayout/gpt.go,
core/disklayout/fit.go) meet what their callers would not expect. */
module SampleDisks {
  import opened Bytes
  import opened Options
  import opened GptLayout
  import opened GptFit
  import opened FitDisk
  import P = FitPlan

  // ---- Disks with one partition ----

  // A disk of so many 512-byte sectors, its entry array of one slot in sector lba, with a
  // partition from first to last.
  datatype Sample = Sample(sectors: nat, lba: nat, first: nat, last: nat)

  ghost predicate Sound(g: Sample) {
    && 3 <= g.sectors < 0x1_0000_0000 && 2 <= g.lba < g.sectors && g.first < P.M && g.last < P.M
    && Sensible(PartOn(g), 512, g.sectors * 512)
  }

  function TypeGuid(): seq<byte> {
    seq(16, _ => 1)
  }

  function PartOn(g: Sample): Part {
    Part(0, TypeGuid(), Zeros(16), g.first, g.last, 0, Zeros(72))
  }

  function EntryFields(g: Sample): seq<seq<byte>> {
    [TypeGuid(), Zeros(16), LE(g.first, 8), LE(g.last, 8), LE(0, 8), Zeros(72)]
  }

  function EntryBytes(g: Sample): seq<byte> {
    Flat(EntryFields(g))
  }

  ghost function HeaderFields(crc: Crc, g: Sample): seq<seq<byte>>
    requires g.sectors >= 3
  {
    [SIGNATURE, LE(0x1_0000, 4), LE(92, 4), LE(0, 8), LE(1, 8), LE(g.sectors - 1, 8), LE(34, 8), LE(g.sectors - 3, 8),
     Zeros(16), LE(g.lba, 8), LE(1, 4), LE(128, 4), LE(crc(EntryBytes(g)), 4)]
  }

  ghost function HeaderOn(crc: Crc, g: Sample): seq<byte>
    requires g.sectors >= 3
  {
    Flat(HeaderFields(crc, g))
  }

  lemma Starts(crc: Crc, g: Sample)
    requires g.sectors >= 3
    ensures |EntryBytes(g)| == 128 && |HeaderOn(crc, g)| == 92
    ensures var f := HeaderFields(crc, g);
            && Start(f, 0) == 0 && Start(f, 2) == 12 && Start(f, 4) == 24 && Start(f, 5) == 32 && Start(f, 6) == 40
            && Start(f, 7) == 48 && Start(f, 8) == 56 && Start(f, 9) == 72 && Start(f, 10) == 80 && Start(f, 11) == 84
            && Start(f, 12) == 88
    ensures var e := EntryFields(g);
            Start(e, 0) == 0 && Start(e, 1) == 16 && Start(e, 2) == 32 && Start(e, 3) == 40 && Start(e, 4) == 48 &&
            Start(e, 5) == 56
  {
    hide Flat, LE;
    var f, e := HeaderFields(crc, g), EntryFields(g);
    FlatLength(f);
    FlatLength(e);
    assert Start(f, 1) == 8 && Start(f, 2) == 12 && Start(f, 3) == 16 && Start(f, 4) == 24 && Start(f, 5) == 32;
    assert Start(f, 6) == 40 && Start(f, 7) == 48 && Start(f, 8) == 56 && Start(f, 9) == 72 && Start(f, 10) == 80;
    assert Start(f, 11) == 84 && Start(f, 12) == 88 && Start(f, 13) == 92;
    assert Start(e, 1) == 16 && Start(e, 2) == 32 && Start(e, 3) == 40 && Start(e, 4) == 48 && Start(e, 5) == 56;
    assert Start(e, 6) == 128;
  }

  ghost function DiskOn(crc: Crc, g: Sample): seq<byte>
    requires Sound(g)
  {
    Starts(crc, g);
    Zeros(510) + [0x55, 0xAA] + (Sealed(crc, HeaderOn(crc, g)) + Zeros(420)) + Zeros((g.lba - 2) * 512) +
    EntryBytes(g) + Zeros((g.sectors - g.lba) * 512 - 128)
  }

  lemma Pieces(crc: Crc, g: Sample)
    requires Sound(g)
    ensures |HeaderOn(crc, g)| == 92 && |EntryBytes(g)| == 128
    ensures var d := DiskOn(crc, g);
            && |d| == g.sectors * 512 && d[510] == 0x55 && d[511] == 0xAA
            && d[512..1024] == Sealed(crc, HeaderOn(crc, g)) + Zeros(420)
            && d[g.lba * 512..g.lba * 512 + 128] == EntryBytes(g)
  {
    hide HeaderOn, EntryBytes, Sealed;
    Starts(crc, g);
    PiecesOf(Zeros(510) + [0x55, 0xAA], Sealed(crc, HeaderOn(crc, g)) + Zeros(420), Zeros((g.lba - 2) * 512),
             EntryBytes(g), Zeros((g.sectors - g.lba) * 512 - 128));
  }

  lemma PiecesOf(a: seq<byte>, b: seq<byte>, c: seq<byte>, e: seq<byte>, r: seq<byte>)
    requires |a| == 512
    ensures var d := a + b + c + e + r;
            && d[510] == a[510] && d[511] == a[511] && d[512..512 + |b|] == b
            && d[512 + |b| + |c|..512 + |b| + |c| + |e|] == e
  {
  }

  ghost function LayoutOn(g: Sample): DiskLayout
    requires Sound(g)
  {
    DiskLayout(512, Zeros(16), 34, g.sectors - 3, g.sectors - 1, [PartOn(g)], g.lba * 512 + 128,
               (g.sectors - 1) * 512 - 128, 640)
  }

  lemma SectorOn(crc: Crc, g: Sample)
    requires Checksum(crc) && Sound(g)
    ensures |HeaderOn(crc, g)| == 92
    ensures var sector := Sealed(crc, HeaderOn(crc, g)) + Zeros(420);
            && |sector| == 512 && HeaderSound(crc, sector) && Field(sector, 24, 32) == 1
            && Field(sector, 32, 40) == g.sectors - 1 && Field(sector, 40, 48) == 34
            && Field(sector, 48, 56) == g.sectors - 3 && sector[56..72] == Zeros(16)
            && Field(sector, 72, 80) == g.lba && Field(sector, 80, 84) == 1 && Field(sector, 84, 88) == 128
            && Field(sector, 88, 92) == crc(EntryBytes(g))
  {
    hide Flat, Start, LE, FromLE, Pow256, Sealed, EntryBytes, HeaderSound, Sensible;
    Starts(crc, g);
    var f, h := HeaderFields(crc, g), HeaderOn(crc, g);
    var sector := Sealed(crc, h) + Zeros(420);
    assert sector[..92] == Sealed(crc, h);
    FlatAt(f, 0);
    FlatAt(f, 2);
    Widths();
    assert h[..8] == h[0..8] == SIGNATURE;
    LERoundTrip(92, 4);
    SealedSound(crc, h, sector);
    HeaderField(crc, h, sector, f, 4, 24, 32);
    HeaderField(crc, h, sector, f, 5, 32, 40);
    HeaderField(crc, h, sector, f, 6, 40, 48);
    HeaderField(crc, h, sector, f, 7, 48, 56);
    HeaderField(crc, h, sector, f, 8, 56, 72);
    HeaderField(crc, h, sector, f, 9, 72, 80);
    HeaderField(crc, h, sector, f, 10, 80, 84);
    HeaderField(crc, h, sector, f, 11, 84, 88);
    HeaderField(crc, h, sector, f, 12, 88, 92);
    LERoundTrip(1, 8);
    LERoundTrip(g.sectors - 1, 8);
    LERoundTrip(34, 8);
    LERoundTrip(g.sectors - 3, 8);
    LERoundTrip(g.lba, 8);
    LERoundTrip(1, 4);
    LERoundTrip(128, 4);
    LERoundTrip(crc(EntryBytes(g)), 4);
  }

  lemma HeaderField(crc: Crc, h: seq<byte>, sector: seq<byte>, f: seq<seq<byte>>, i: nat, lo: nat, hi: nat)
    requires |h| == 92 && h == Flat(f) && |sector| == 512 && sector[..92] == Sealed(crc, h)
    requires i < |f| && Start(f, i) == lo && hi == lo + |f[i]| && 20 <= lo
    ensures hi <= 92 && sector[lo..hi] == f[i]
  {
    hide Flat, Sealed, Start;
    FlatAt(f, i);
    SectorField(crc, h, sector, lo, hi);
  }

  lemma EntryReads(g: Sample)
    requires g.sectors >= 3 && g.first < P.M && g.last < P.M
    ensures |EntryBytes(g)| == 128 && InUse(EntryBytes(g)) && PartOf(EntryBytes(g), 0) == PartOn(g)
    ensures EntryBytes(g)[0] == 1
  {
    hide Flat, Start, LE, FromLE, Pow256;
    Starts((s: seq<byte>) => 0, g);
    var f, e := EntryFields(g), EntryBytes(g);
    FlatAt(f, 0);
    FlatAt(f, 1);
    FlatAt(f, 2);
    FlatAt(f, 3);
    FlatAt(f, 4);
    FlatAt(f, 5);
    Widths();
    LERoundTrip(g.first, 8);
    LERoundTrip(g.last, 8);
    LERoundTrip(0, 8);
    assert e[..16] == e[0..16] == TypeGuid();
    assert e[..16][0] == 1 && Zeros(16)[0] == 0;
  }

  lemma OneSlot(e: seq<byte>, p: Part, ss: nat, diskSize: nat)
    requires |e| == 128 && InUse(e) && PartOf(e, 0) == p && Sensible(p, ss, diskSize)
    ensures At(128, 1) == 128 && Parts(e, 128, 1, ss, diskSize) == Some([p])
  {
    hide PartOf, Sensible, InUse;
    StartsEmpty(e, 128, ss, diskSize);
    assert Slot(e, 128, 0) == e;
    assert [] + [p] == [p];
  }

  // Each of these disks parses to what it was made from.
  lemma SampleParses(crc: Crc, g: Sample)
    requires Checksum(crc) && Sound(g)
    ensures ParseGpt(crc, DiskOn(crc, g), 512) == Some(LayoutOn(g))
  {
    hide DiskOn, HeaderOn, EntryBytes, Sealed, HeaderSound, Parts, FromLE, PartOf, InUse, Sensible, PartOn;
    Pieces(crc, g);
    SectorOn(crc, g);
    EntryReads(g);
    OneSlot(EntryBytes(g), PartOn(g), 512, g.sectors * 512);
    SignedSame(g.lba * 512);
    SignedSame((g.sectors - 1) * 512 - 128);
    SignedSame((g.sectors - 1) * 512 + 512);
  }

  lemma SampleCapture(crc: Crc, g: Sample)
    requires Checksum(crc) && Sound(g)
    ensures var l := LayoutOn(g);
            && l.primaryLength <= |DiskOn(crc, g)|
            && Capture(crc, DiskOn(crc, g), l, DiskOn(crc, g)[..l.primaryLength])
  {
    hide ParseGpt, DiskOn, HeaderOn, EntryBytes, Sealed, HeaderSound, FromLE, Sensible;
    SampleParses(crc, g);
    Pieces(crc, g);
    SectorOn(crc, g);
    SignedSame(g.lba * 512);
  }

  // ---- Partitions that are not on their disk ----

  // Three sectors, and a partition at sector 2^54 or 2^55: the disk parses, and the
  // partition lies far beyond it.
  lemma FarPartParses(crc: Crc, at: nat)
    requires Checksum(crc) && (at == 0x40_0000_0000_0000 || at == 0x80_0000_0000_0000)
    ensures var g := Sample(3, 2, at, at);
            && Sound(g) && ParseGpt(crc, DiskOn(crc, g), 512) == Some(LayoutOn(g)) && |DiskOn(crc, g)| == 1536
            && PartOn(g) in LayoutOn(g).parts && PartOn(g).first * 512 > 1536
  {
    hide ParseGpt, DiskOn;
    var g := Sample(3, 2, at, at);
    FarPartSensible(PartOn(g));
    SampleParses(crc, g);
    Pieces(crc, g);
  }

  // ---- Accepted plans that cannot be carried out ----

  // A 2 GiB disk with one partition near its start, whose entry array is 1 GiB in.
  const FAR := Sample(0x40_0000, 0x20_0000, 34, 2000)

  lemma FarSound()
    ensures Sound(FAR) && Plannable(LayoutOn(FAR))
    ensures PlanLayout(LayoutOn(FAR), AnyPart) == P.Layout(true, 512, 640, 34, [P.Part(0, true, false, 34, 2000)])
  {
    OnDiskSensible(PartOn(FAR), 512, FAR.sectors * 512);
  }

  predicate AnyPart(p: Part) {
    true
  }

  // Its array is a quarter of a sector, so on no target does its backup header land on
  // the last sector.
  lemma FarBackupAside(crc: Crc, primary: seq<byte>, c: Captured, fit: Fit)
    requires Sound(FAR) && Readable(LayoutOn(FAR), primary, c) && InArray(fit.moves, c.table.count)
    ensures Rewritten(crc, LayoutOn(FAR), c, fit, primary).backupOffset + |c.entries| !=
            LastLba(fit.targetSize, 512) * 512
  {
    hide Rewritten, LastLba, ArrayOf, At;
    BackupLands(crc, LayoutOn(FAR), primary, c, fit);
    assert |c.entries| == 128;
  }

  // PlanFit accepts a target of n sectors for it.
  method FarAccepted(crc: Crc, n: nat) returns (ghost c: Captured, t: P.Target, o: P.Choices, fitted: P.Fitted)
    requires Checksum(crc) && 0x1_0000 <= n < 0x1000_0000
    ensures Sound(FAR) && Plannable(LayoutOn(FAR)) && LayoutOn(FAR).primaryLength <= |DiskOn(crc, FAR)|
    ensures t == P.Target(n * 512, 512, 512) && P.Answers(PlanLayout(LayoutOn(FAR), AnyPart), t, o, fitted)
    ensures var l := LayoutOn(FAR);
            var primary := DiskOn(crc, FAR)[..l.primaryLength];
            && Capture(crc, DiskOn(crc, FAR), l, primary) && Readable(l, primary, c)
            && fitted.Plan? && fitted.lastUsable == n - 3
            && PlanFor(l, AnyPart, t, o, fitted.lastUsable, fitted.parts, fitted.planned)
  {
    hide ParseGpt, DiskOn, HeaderOn, Readable, P.Promised, P.LastUsable, P.Quot, P.Placed, EntryBytes, P.Answers,
         PlanLayout, PlanFor, Sensible, P.BadTarget;
    FarSound();
    SampleCapture(crc, FAR);
    ghost var l := LayoutOn(FAR);
    c := CaptureFacts(crc, DiskOn(crc, FAR), l, DiskOn(crc, FAR)[..l.primaryLength]);
    var pl := P.Layout(true, 512, 640, 34, [P.Part(0, true, false, 34, 2000)]);
    t := P.Target(n * 512, 512, 512);
    o := P.Choices(false, false, false, p => None);
    FarRoom(pl, n);
    fitted := P.PlanFit(pl, t, o);
    Accepted(l, AnyPart, t, o, fitted);
  }

  lemma FarRoom(pl: P.Layout, n: nat)
    requires pl == P.Layout(true, 512, 640, 34, [P.Part(0, true, false, 34, 2000)]) && 0x1_0000 <= n < 0x1000_0000
    ensures P.LastUsable(pl, P.Quot(n * 512, 512)) == Some(n - 3) && !P.BadTarget(pl, P.Target(n * 512, 512, 512))
    ensures P.Placed(P.Captured(pl.parts), n - 3) && |P.Captured(pl.parts)| == 1
  {
    QuotIs(n * 512, 512);
    assert P.Quot(n * 512, 512) == n;
    assert P.Sectors(128, 512) == 1;
  }

  // A target of 512 MiB does not reach the captured array.
  method FarArrayAccepted(crc: Crc) returns (ghost c: Captured, t: P.Target, o: P.Choices, fitted: P.Fitted)
    requires Checksum(crc)
    ensures Sound(FAR) && Plannable(LayoutOn(FAR)) && t.physicalSector < P.M && fitted.Plan?
    ensures P.Answers(PlanLayout(LayoutOn(FAR), AnyPart), t, o, fitted)
    ensures LayoutOn(FAR).primaryLength <= |DiskOn(crc, FAR)| && t.size < LayoutOn(FAR).primaryLength
    ensures CannotBeWritten(crc, LayoutOn(FAR), DiskOn(crc, FAR)[..LayoutOn(FAR).primaryLength], c, t, fitted)
  {
    hide ParseGpt, DiskOn, Readable, P.Answers, PlanLayout, PlanFor, Rewritten, WrittenTo, Plannable, Sensible;
    c, t, o, fitted := FarAccepted(crc, 0x10_0000);
    ghost var l := LayoutOn(FAR);
    CarriedOutExactly(crc, DiskOn(crc, FAR), l, DiskOn(crc, FAR)[..l.primaryLength], c, AnyPart, t, o,
                      fitted.lastUsable, fitted.parts, fitted.planned);
  }

  // No disk of the target's size has both regions on it.
  ghost predicate CannotBeWritten(crc: Crc, l: DiskLayout, primary: seq<byte>, c: Captured, t: P.Target,
                                  fitted: P.Fitted)
    requires fitted.Plan?
  {
    && |fitted.planned| == |fitted.parts| && t.size > 0 && Readable(l, primary, c)
    && (forall i :: 0 <= i < |fitted.parts| ==> fitted.parts[i].index >= 0)
    && var fit := FitOf(t, fitted.lastUsable, fitted.parts, fitted.planned);
       InArray(fit.moves, c.table.count) && !exists d :: WrittenTo(Rewritten(crc, l, c, fit, primary), d, t.size)
  }

  // A target of 1 GiB and one sector reaches it, and puts the zeros behind the backup
  // header over it.
  method RegionsCollide(crc: Crc) returns (ghost c: Captured, t: P.Target, o: P.Choices, fitted: P.Fitted)
    requires Checksum(crc)
    ensures Sound(FAR) && Plannable(LayoutOn(FAR)) && t.physicalSector < P.M && fitted.Plan?
    ensures P.Answers(PlanLayout(LayoutOn(FAR), AnyPart), t, o, fitted)
    ensures LayoutOn(FAR).primaryLength <= |DiskOn(crc, FAR)| && LayoutOn(FAR).primaryLength <= t.size
    ensures CannotBeWritten(crc, LayoutOn(FAR), DiskOn(crc, FAR)[..LayoutOn(FAR).primaryLength], c, t, fitted)
  {
    hide ParseGpt, DiskOn, Readable, P.Answers, PlanLayout, PlanFor, Rewritten, WrittenTo, Plannable, Sensible, Agree;
    c, t, o, fitted := FarAccepted(crc, FAR.lba + 1);
    ghost var l := LayoutOn(FAR);
    ghost var primary := DiskOn(crc, FAR)[..l.primaryLength];
    CarriedOutExactly(crc, DiskOn(crc, FAR), l, primary, c, AnyPart, t, o, fitted.lastUsable, fitted.parts,
                      fitted.planned);
    BackupRegion(crc, DiskOn(crc, FAR), l, primary, c, AnyPart, t, o, fitted.lastUsable, fitted.parts, fitted.planned);
    Disagree(crc, primary, c, FitOf(t, fitted.lastUsable, fitted.parts, fitted.planned));
  }

  lemma Disagree(crc: Crc, primary: seq<byte>, c: Captured, fit: Fit)
    requires Checksum(crc) && Sound(FAR) && LayoutOn(FAR).primaryLength <= |DiskOn(crc, FAR)|
    requires primary == DiskOn(crc, FAR)[..LayoutOn(FAR).primaryLength] && Readable(LayoutOn(FAR), primary, c)
    requires InArray(fit.moves, c.table.count)
    requires Rewritten(crc, LayoutOn(FAR), c, fit, primary).backupOffset == (FAR.lba - 1) * 512
    ensures !Agree(Rewritten(crc, LayoutOn(FAR), c, fit, primary))
  {
    hide DiskOn, At, PutAll, Sealed, Mirrored, ArrayOf, Field, Splice, EntryBytes, HeaderOn, Patched, LastLba,
         EntrySectors, Sensible, FromLE;
    var a, x := Rewritten(crc, LayoutOn(FAR), c, fit, primary), FAR.lba * 512;
    FarEntries(crc, primary, c);
    TypeKept(c.entries, c.table.size, c.table.count, fit.moves);
    var entries := PutAll(c.entries, c.table.size, c.table.count, fit.moves);
    var header := NewHeader(crc, c.sector[..c.headerSize], LastLba(fit.targetSize, 512), fit.lastUsable, entries);
    PrimaryPieces(primary, 512, header, c.table.offset, entries);
    assert a.primary[x..] == entries && a.primary[x] == a.primary[x..][0] == 1;
    assert a.backup[512] == 0;
  }

  // What the captured region holds.
  lemma FarEntries(crc: Crc, primary: seq<byte>, c: Captured)
    requires Checksum(crc) && Sound(FAR) && LayoutOn(FAR).primaryLength <= |DiskOn(crc, FAR)|
    requires primary == DiskOn(crc, FAR)[..LayoutOn(FAR).primaryLength] && Readable(LayoutOn(FAR), primary, c)
    ensures c.headerSize == 92 && c.table.offset == FAR.lba * 512 && c.table.count == 1 && c.table.size == 128
    ensures c.entries == EntryBytes(FAR) && |c.entries| == 128 && c.entries[0] == 1 && At(128, 1) == 128
  {
    hide DiskOn, EntryBytes, HeaderOn, Sealed, Sensible, HeaderSound, FromLE;
    var d := DiskOn(crc, FAR);
    Pieces(crc, FAR);
    SectorOn(crc, FAR);
    EntryReads(FAR);
    SignedSame(FAR.lba * 512);
    assert primary[512..1024] == d[512..1024];
    assert primary[FAR.lba * 512..FAR.lba * 512 + 128] == d[FAR.lba * 512..FAR.lba * 512 + 128];
    HeaderLength(crc, FAR);
  }

  lemma HeaderLength(crc: Crc, g: Sample)
    requires Checksum(crc) && Sound(g)
    ensures |HeaderOn(crc, g)| == 92 && Field(Sealed(crc, HeaderOn(crc, g)) + Zeros(420), 12, 16) == 92
  {
    hide Flat, Start, LE, FromLE, Pow256, Sealed, EntryBytes, Sensible;
    Starts(crc, g);
    var f, h := HeaderFields(crc, g), HeaderOn(crc, g);
    var sector := Sealed(crc, h) + Zeros(420);
    FlatAt(f, 2);
    SealedBeside(crc, h, 12, 16);
    assert sector[12..16] == Sealed(crc, h)[12..16] == LE(92, 4);
    Widths();
    LERoundTrip(92, 4);
  }

  // Moves leave the first byte of the first slot alone.
  lemma TypeKept(es: seq<byte>, size: nat, count: nat, moves: seq<Move>)
    requires size == 128 && count == 1 && At(size, count) == 128 == |es| && InArray(moves, count)
    ensures PutAll(es, size, count, moves)[0] == es[0]
  {
    hide PutAll, Splice;
    SlotOfAll(es, size, count, moves, 0);
    var t := PutAll(es, size, count, moves);
    assert At(size, 0) == 0;
    assert Slot(t, size, 0)[0] == t[0] && Slot(es, size, 0)[0] == es[0];
    FirstKept(Slot(es, size, 0), MoveOf(moves, 0));
  }

  lemma FirstKept(e: seq<byte>, m: Option<Move>)
    requires |e| == 128
    ensures |Replaced(e, m)| == 128 && Replaced(e, m)[0] == e[0]
  {
    hide LE;
    if m.Some? {
      SpliceBeside(e, 32, Extent(m.value), 0, 1);
      assert Splice(e, 32, Extent(m.value))[0..1][0] == e[0..1][0];
    }
  }
}
