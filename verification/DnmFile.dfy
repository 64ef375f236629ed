/** The .dnm manifest file: its layouts and what they hold (core/manifest/dnm.go,
dnm_reader.go).

A file has a header, three sections and a section index.  The file writer puts the
sections in the order metadata, catalog, entries and patches the place of the index
into the header.  The streamed form puts the entries first, leaves a zero in the
header and names the place of the index in the last eight bytes. */
module DnmFile {
  import opened Bytes
  import opened Options
  import opened DnmCodec

  const HEADER_SIZE := 32
  const SECTION_SIZE := 36
  const RECORD_SIZE := 45

  // "DNMANIF" and a zero byte.
  const MAGIC: seq<byte> := [0x44, 0x4E, 0x4D, 0x41, 0x4E, 0x49, 0x46, 0x00]

  // ---- Where bytes stand ----

  predicate At(file: seq<byte>, off: nat, b: seq<byte>) {
    off + |b| <= |file| && file[off..off + |b|] == b
  }

  lemma MiddleAt(a: seq<byte>, b: seq<byte>, c: seq<byte>)
    ensures At(a + b + c, |a|, b)
  {
  }

  lemma Nested(file: seq<byte>, off: nat, b: seq<byte>, inner: nat, c: seq<byte>)
    requires At(file, off, b) && At(b, inner, c)
    ensures At(file, off + inner, c)
  {
    forall i | 0 <= i < |c|
      ensures file[off + inner..off + inner + |c|][i] == c[i]
    {
      assert b[inner..inner + |c|][i] == b[inner + i] == file[off..off + |b|][inner + i];
    }
  }

  lemma FieldAt(fields: seq<seq<byte>>, i: nat, off: nat, file: seq<byte>, at: nat)
    requires i < |fields| && Start(fields, i) == at && At(file, off, Flat(fields))
    ensures At(file, off + at, fields[i])
  {
    FlatAt(fields, i);
    Nested(file, off, Flat(fields), at, fields[i]);
  }

  // ---- Entry records ----

  datatype Entry = Entry(volumeOffset: int, hash: seq<byte>, length: int, excluded: bool)

  predicate GoodEntry(e: Entry) {
    IsI64(e.volumeOffset) && |e.hash| == 32 && 0 <= e.length < M32
  }

  function EncodeEntry(e: Entry): (s: seq<byte>)
    ensures |e.hash| == 32 ==> |s| == RECORD_SIZE
  {
    WriteI64(e.volumeOffset) + e.hash + LE(e.length % M32, 4) + [if e.excluded then 1 else 0]
  }

  function DecodeEntry(s: seq<byte>): Entry
    requires |s| == RECORD_SIZE
  {
    Entry(FromU64(FromLE(s[0..8])), s[8..40], FromLE(s[40..44]), s[44] != 0)
  }

  lemma EntryBack(e: Entry)
    requires GoodEntry(e)
    ensures DecodeEntry(EncodeEntry(e)) == e && EncodeEntry(e)[44] == if e.excluded then 1 else 0
  {
    hide LE, FromLE, Pow256;
    var s := EncodeEntry(e);
    Widths();
    LERoundTrip(ToU64(e.volumeOffset), 8);
    LERoundTrip(e.length % M32, 4);
    assert s[0..8] == WriteI64(e.volumeOffset) && s[8..40] == e.hash && s[40..44] == LE(e.length % M32, 4);
  }

  function EncodeEntries(es: seq<Entry>): seq<byte> {
    if es == [] then [] else EncodeEntries(es[..|es| - 1]) + EncodeEntry(es[|es| - 1])
  }

  lemma {:induction false} EntriesLength(es: seq<Entry>)
    requires forall i :: 0 <= i < |es| ==> |es[i].hash| == 32
    ensures |EncodeEntries(es)| == RECORD_SIZE * |es|
  {
    if es != [] {
      EntriesLength(es[..|es| - 1]);
    }
  }

  lemma {:induction false} EntriesJoin(a: seq<Entry>, b: seq<Entry>)
    ensures EncodeEntries(a + b) == EncodeEntries(a) + EncodeEntries(b)
  {
    hide EncodeEntry;
    if b == [] {
      assert a + b == a;
    } else {
      var front, last := b[..|b| - 1], b[|b| - 1];
      EntriesJoin(a, front);
      EntriesGrow(a + front, last);
      EntriesGrow(front, last);
      assert a + front + [last] == a + b && front + [last] == b;
      Regroup(EncodeEntries(a), EncodeEntries(front), EncodeEntry(last));
    }
  }

  lemma EntriesGrow(es: seq<Entry>, e: Entry)
    ensures EncodeEntries(es + [e]) == EncodeEntries(es) + EncodeEntry(e)
  {
    hide EncodeEntry;
    assert (es + [e])[..|es|] == es;
  }

  lemma Regroup(a: seq<byte>, b: seq<byte>, c: seq<byte>)
    ensures a + b + c == a + (b + c)
  {
  }

  function ReadEntries(s: seq<byte>, n: nat): Option<seq<Entry>> {
    if n == 0 then Some([])
    else if |s| < RECORD_SIZE then None
    else
      match ReadEntries(s[RECORD_SIZE..], n - 1)
      case None => None
      case Some(es) => Some([DecodeEntry(s[..RECORD_SIZE])] + es)
  }

  lemma {:induction false} EntriesBack(es: seq<Entry>, rest: seq<byte>)
    requires forall i :: 0 <= i < |es| ==> GoodEntry(es[i])
    ensures ReadEntries(EncodeEntries(es) + rest, |es|) == Some(es)
  {
    hide EncodeEntry, DecodeEntry;
    if es != [] {
      var head, tail := [es[0]], es[1..];
      assert es == head + tail;
      EntriesJoin(head, tail);
      assert EncodeEntries(head) == EncodeEntry(es[0]) by {
        assert head[..0] == [];
      }
      var s := EncodeEntries(es) + rest;
      assert s == EncodeEntry(es[0]) + (EncodeEntries(tail) + rest);
      assert |EncodeEntry(es[0])| == RECORD_SIZE;
      assert s[..RECORD_SIZE] == EncodeEntry(es[0]) && s[RECORD_SIZE..] == EncodeEntries(tail) + rest;
      EntryBack(es[0]);
      EntriesBack(tail, rest);
    }
  }

  // ---- The catalog ----

  ghost predicate GoodFile(fe: FileEntry) {
    FileInRange(fe) && |fe.fields| == |FileKinds()| && |EncodeFile(fe)| < M32
  }

  ghost predicate GoodFiles(fes: seq<FileEntry>) {
    forall i :: 0 <= i < |fes| ==> GoodFile(fes[i])
  }

  function CatalogRecord(fe: FileEntry): seq<byte>
    requires |fe.fields| == |FileKinds()|
  {
    LE(|EncodeFile(fe)| % M32, 4) + EncodeFile(fe)
  }

  function EncodeCatalog(fes: seq<FileEntry>): seq<byte>
    requires forall i :: 0 <= i < |fes| ==> |fes[i].fields| == |FileKinds()|
  {
    if fes == [] then [] else EncodeCatalog(fes[..|fes| - 1]) + CatalogRecord(fes[|fes| - 1])
  }

  lemma {:induction false} CatalogJoin(a: seq<FileEntry>, b: seq<FileEntry>)
    requires forall i :: 0 <= i < |a| ==> |a[i].fields| == |FileKinds()|
    requires forall i :: 0 <= i < |b| ==> |b[i].fields| == |FileKinds()|
    ensures EncodeCatalog(a + b) == EncodeCatalog(a) + EncodeCatalog(b)
  {
    hide CatalogRecord, FileKinds;
    if b == [] {
      assert a + b == a;
    } else {
      var front := b[..|b| - 1];
      CatalogJoin(a, front);
      assert (a + b)[..|a + b| - 1] == a + front;
      Regroup(EncodeCatalog(a), EncodeCatalog(front), CatalogRecord(b[|b| - 1]));
    }
  }

  // The next record of a catalog, and what follows it.
  function NextRecord(s: seq<byte>): Option<(FileEntry, seq<byte>)> {
    match ReadLE(s, 4)
    case Eof => None
    case Short => None
    case Ok(len, rest) =>
      match Take(rest, len)
      case Eof => None
      case Short => None
      case Ok(data, rest') =>
        match DecodeFile(data)
        case None => None
        case Some(fe) => Some((fe, rest'))
  }

  function ReadCatalog(s: seq<byte>, n: nat): Option<seq<FileEntry>> {
    if n == 0 then Some([])
    else
      match NextRecord(s)
      case None => None
      case Some(next) =>
        match ReadCatalog(next.1, n - 1)
        case None => None
        case Some(fes) => Some([next.0] + fes)
  }

  lemma RecordBackAgain(fe: FileEntry, rest: seq<byte>)
    requires GoodFile(fe)
    ensures |fe.fields| == |FileKinds()| && NextRecord(CatalogRecord(fe) + rest) == Some((fe, rest))
  {
    hide LE, FileKinds, EncodeFile, DecodeFile, FileInRange;
    var data := EncodeFile(fe);
    Widths();
    assert CatalogRecord(fe) + rest == LE(|data| % M32, 4) + (data + rest);
    ReadLEFront(|data| % M32, 4, data + rest);
    TakeFront(data, rest);
    FileBack(fe);
  }

  lemma GoodShape(fes: seq<FileEntry>)
    requires GoodFiles(fes)
    ensures forall i :: 0 <= i < |fes| ==> |fes[i].fields| == |FileKinds()|
  {
    hide FileKinds, FileInRange, EncodeFile;
    forall i | 0 <= i < |fes|
      ensures |fes[i].fields| == |FileKinds()|
    {
      assert GoodFile(fes[i]);
    }
  }

  lemma {:induction false} CatalogBack(fes: seq<FileEntry>, rest: seq<byte>)
    requires GoodFiles(fes)
    ensures forall i :: 0 <= i < |fes| ==> |fes[i].fields| == |FileKinds()|
    ensures ReadCatalog(EncodeCatalog(fes) + rest, |fes|) == Some(fes)
  {
    hide GoodFile, CatalogRecord, NextRecord, FileKinds;
    GoodShape(fes);
    if fes != [] {
      var head, tail := [fes[0]], fes[1..];
      assert fes == head + tail;
      CatalogJoin(head, tail);
      assert EncodeCatalog(head) == CatalogRecord(fes[0]) by {
        assert head[..0] == [];
      }
      assert EncodeCatalog(fes) + rest == CatalogRecord(fes[0]) + (EncodeCatalog(tail) + rest);
      assert GoodFile(fes[0]);
      RecordBackAgain(fes[0], EncodeCatalog(tail) + rest);
      CatalogBack(tail, rest);
    }
  }

  // ---- Header and section index ----

  function HeaderFields(index: nat): seq<seq<byte>> {
    [MAGIC, LE(1, 2), LE(0, 2), LE(index % M64, 8), LE(3, 4), LE(0, 4), LE(0, 4)]
  }

  function Header(index: nat): seq<byte> {
    Flat(HeaderFields(index))
  }

  datatype Section = Section(offset: nat, length: nat, count: nat)

  datatype Sections = Sections(meta: Section, catalog: Section, entries: Section)

  const NONE := Section(0, 0, 0)

  predicate Fits(s: Section) {
    s.offset < M64 && s.length < M64 && s.count < M64
  }

  function SectionFields(typ: byte, s: Section): seq<seq<byte>> {
    [[typ], LE(0, 7), LE(s.offset % M64, 8), LE(s.length % M64, 8), LE(s.count % M64, 8), LE(0, 4)]
  }

  function EncodeSection(typ: byte, s: Section): seq<byte> {
    Flat(SectionFields(typ, s))
  }

  function DecodeSection(b: seq<byte>): Section
    requires |b| == SECTION_SIZE
  {
    Section(FromLE(b[8..16]), FromLE(b[16..24]), FromLE(b[24..32]))
  }

  function EncodeIndex(secs: Sections): seq<byte> {
    EncodeSection(1, secs.meta) + EncodeSection(2, secs.catalog) + EncodeSection(3, secs.entries)
  }

  lemma HeaderStarts(index: nat)
    ensures |Header(index)| == HEADER_SIZE
    ensures var f := HeaderFields(index);
            && Start(f, 1) == 8 && Start(f, 2) == 10 && Start(f, 3) == 12 && Start(f, 4) == 20 && Start(f, 5) == 24
            && Start(f, 6) == 28
  {
    var f := HeaderFields(index);
    FlatLength(f);
    assert Start(f, 1) == 8 && Start(f, 2) == 10 && Start(f, 3) == 12;
    assert Start(f, 4) == 20 && Start(f, 5) == 24 && Start(f, 6) == 28 && Start(f, 7) == 32;
  }

  lemma SectionStarts(typ: byte, s: Section)
    ensures |EncodeSection(typ, s)| == SECTION_SIZE
    ensures var f := SectionFields(typ, s);
            Start(f, 1) == 1 && Start(f, 2) == 8 && Start(f, 3) == 16 && Start(f, 4) == 24 && Start(f, 5) == 32
  {
    var f := SectionFields(typ, s);
    FlatLength(f);
    assert Start(f, 1) == 1 && Start(f, 2) == 8 && Start(f, 3) == 16;
    assert Start(f, 4) == 24 && Start(f, 5) == 32 && Start(f, 6) == 36;
  }

  lemma SectionBack(typ: byte, s: Section)
    requires Fits(s)
    ensures |EncodeSection(typ, s)| == SECTION_SIZE && EncodeSection(typ, s)[0] == typ
    ensures DecodeSection(EncodeSection(typ, s)) == s
  {
    hide Flat, Start, LE, FromLE, Pow256;
    SectionStarts(typ, s);
    var f, b := SectionFields(typ, s), EncodeSection(typ, s);
    Widths();
    assert At(b, 0, Flat(f));
    FieldAt(f, 0, 0, b, 0) by {
      StartZero(f);
    }
    FieldAt(f, 2, 0, b, 8);
    FieldAt(f, 3, 0, b, 16);
    FieldAt(f, 4, 0, b, 24);
    LERoundTrip(s.offset % M64, 8);
    LERoundTrip(s.length % M64, 8);
    LERoundTrip(s.count % M64, 8);
    assert b[0..1] == [typ];
  }

  // What is reserved is zero.
  lemma Reserved(index: nat, typ: byte, s: Section)
    ensures |Header(index)| == HEADER_SIZE && |EncodeSection(typ, s)| == SECTION_SIZE
    ensures Header(index)[10..12] == [0, 0] && Header(index)[24..32] == [0, 0, 0, 0, 0, 0, 0, 0]
    ensures EncodeSection(typ, s)[1..8] == [0, 0, 0, 0, 0, 0, 0] && EncodeSection(typ, s)[32..36] == [0, 0, 0, 0]
  {
    hide Flat;
    HeaderStarts(index);
    SectionStarts(typ, s);
    var f, g := HeaderFields(index), SectionFields(typ, s);
    FlatAt(f, 2);
    FlatAt(f, 5);
    FlatAt(f, 6);
    FlatAt(g, 1);
    FlatAt(g, 5);
    NoBits();
    var h := Header(index);
    assert h[24..32] == h[24..28] + h[28..32];
  }

  lemma NoBits()
    ensures LE(0, 2) == [0, 0] && LE(0, 4) == [0, 0, 0, 0] && LE(0, 7) == [0, 0, 0, 0, 0, 0, 0]
  {
    assert LE(0, 1) == [0] && LE(0, 2) == [0, 0] && LE(0, 3) == [0, 0, 0] && LE(0, 4) == [0, 0, 0, 0];
    assert LE(0, 5) == [0, 0, 0, 0, 0] && LE(0, 6) == [0, 0, 0, 0, 0, 0];
  }

  lemma StartZero(f: seq<seq<byte>>)
    ensures Start(f, 0) == 0
  {
  }

  // ---- Opening a file ----

  predicate GoodHeader(file: seq<byte>) {
    |file| >= HEADER_SIZE && file[0..8] == MAGIC && FromLE(file[8..10]) == 1
  }

  function IndexCount(file: seq<byte>): nat
    requires GoodHeader(file)
  {
    FromLE(file[20..24])
  }

  // The place of the section index: from the header, or from the last eight bytes,
  // which must agree with the size of the file.
  function IndexOffset(file: seq<byte>): Option<nat>
    requires GoodHeader(file)
  {
    var inHeader := FromLE(file[12..20]);
    if inHeader != 0 then Some(inHeader)
    else
      var inTrailer := FromLE(file[|file| - 8..]);
      if inTrailer + IndexCount(file) * SECTION_SIZE + 8 == |file| then Some(inTrailer) else None
  }

  // What one entry of the index adds to what is known; a type nobody knows adds nothing.
  function Learn(secs: Sections, b: seq<byte>): Sections
    requires |b| == SECTION_SIZE
  {
    if b[0] == 1 then secs.(meta := DecodeSection(b))
    else if b[0] == 2 then secs.(catalog := DecodeSection(b))
    else if b[0] == 3 then secs.(entries := DecodeSection(b))
    else secs
  }

  function ScanIndex(file: seq<byte>, pos: nat, n: nat, secs: Sections): Option<Sections>
    decreases n
  {
    if n == 0 then Some(secs)
    else if pos + SECTION_SIZE > |file| then None
    else ScanIndex(file, pos + SECTION_SIZE, n - 1, Learn(secs, file[pos..pos + SECTION_SIZE]))
  }

  const SEEKABLE := 0x8000_0000_0000_0000

  function Opened(file: seq<byte>): Option<Sections> {
    if !GoodHeader(file) then None
    else
      match IndexOffset(file)
      case None => None
      case Some(off) =>
        if off >= SEEKABLE then None else ScanIndex(file, off, IndexCount(file), Sections(NONE, NONE, NONE))
  }

  lemma HeaderReads(file: seq<byte>, index: nat)
    requires At(file, 0, Header(index)) && index < M64
    ensures GoodHeader(file) && FromLE(file[12..20]) == index && IndexCount(file) == 3
  {
    hide Flat, Start, LE, FromLE, Pow256;
    HeaderStarts(index);
    var f := HeaderFields(index);
    Widths();
    FieldAt(f, 0, 0, file, 0) by {
      StartZero(f);
    }
    FieldAt(f, 1, 0, file, 8);
    FieldAt(f, 3, 0, file, 12);
    FieldAt(f, 4, 0, file, 20);
    LERoundTrip(1, 2);
    LERoundTrip(3, 4);
    LERoundTrip(index % M64, 8);
  }

  lemma ThreeParts(a: seq<byte>, b: seq<byte>, c: seq<byte>)
    ensures At(a + b + c, 0, a) && At(a + b + c, |a|, b) && At(a + b + c, |a| + |b|, c)
  {
  }

  lemma IndexParts(file: seq<byte>, off: nat, secs: Sections)
    requires At(file, off, EncodeIndex(secs))
    ensures |EncodeIndex(secs)| == 108
    ensures At(file, off, EncodeSection(1, secs.meta)) && At(file, off + 36, EncodeSection(2, secs.catalog))
    ensures At(file, off + 72, EncodeSection(3, secs.entries))
  {
    hide EncodeSection, At;
    SectionStarts(1, secs.meta);
    SectionStarts(2, secs.catalog);
    SectionStarts(3, secs.entries);
    var a, b, c := EncodeSection(1, secs.meta), EncodeSection(2, secs.catalog), EncodeSection(3, secs.entries);
    ThreeParts(a, b, c);
    Nested(file, off, a + b + c, 0, a);
    Nested(file, off, a + b + c, 36, b);
    Nested(file, off, a + b + c, 72, c);
  }

  lemma LearnSection(file: seq<byte>, pos: nat, typ: byte, s: Section, secs: Sections)
    requires At(file, pos, EncodeSection(typ, s)) && Fits(s) && 1 <= typ <= 3
    ensures pos + SECTION_SIZE <= |file|
    ensures Learn(secs, file[pos..pos + SECTION_SIZE]) ==
            if typ == 1 then secs.(meta := s) else if typ == 2 then secs.(catalog := s) else secs.(entries := s)
  {
    hide EncodeSection, DecodeSection;
    SectionBack(typ, s);
  }

  lemma ScanReads(file: seq<byte>, off: nat, secs: Sections)
    requires At(file, off, EncodeIndex(secs)) && Fits(secs.meta) && Fits(secs.catalog) && Fits(secs.entries)
    ensures ScanIndex(file, off, 3, Sections(NONE, NONE, NONE)) == Some(secs)
  {
    hide EncodeSection, EncodeIndex, Learn;
    IndexParts(file, off, secs);
    var s0 := Sections(NONE, NONE, NONE);
    LearnSection(file, off, 1, secs.meta, s0);
    var s1 := s0.(meta := secs.meta);
    LearnSection(file, off + 36, 2, secs.catalog, s1);
    var s2 := s1.(catalog := secs.catalog);
    LearnSection(file, off + 72, 3, secs.entries, s2);
    assert ScanIndex(file, off + 72, 1, s2) == Some(secs);
    assert ScanIndex(file, off + 36, 2, s1) == Some(secs);
  }

  // A file opens to the sections its index lists, whether the place of the index
  // is in its header or in its last eight bytes.
  lemma OpensTo(file: seq<byte>, header: nat, index: nat, secs: Sections)
    requires At(file, 0, Header(header)) && At(file, index, EncodeIndex(secs)) && HEADER_SIZE <= index < SEEKABLE
    requires header == index || (header == 0 && At(file, |file| - 8, LE(index, 8)) && index + 116 == |file|)
    requires Fits(secs.meta) && Fits(secs.catalog) && Fits(secs.entries)
    ensures Opened(file) == Some(secs)
    ensures IndexOffset(file) == Some(index) && IndexCount(file) == 3 && index + 72 < |file| && file[index + 72] == 3
  {
    hide EncodeIndex, EncodeSection, Header, ScanIndex, LE, FromLE, Pow256;
    IndexParts(file, index, secs);
    SectionBack(3, secs.entries);
    HeaderReads(file, header);
    ScanReads(file, index, secs);
    if header == 0 {
      Widths();
      LERoundTrip(index, 8);
      assert file[|file| - 8..] == LE(index, 8);
    }
  }

  // ---- Loading a backup ----

  datatype Backup = Backup(meta: Metadata, catalog: seq<FileEntry>, entries: seq<Entry>)

  ghost predicate GoodBackup(b: Backup) {
    && MetadataInRange(b.meta) && |b.meta.core| == |CoreKinds()| && GoodFiles(b.catalog) && |b.catalog| < M64
    && (forall i :: 0 <= i < |b.catalog| ==> |b.catalog[i].fields| == |FileKinds()|)
    && forall i :: 0 <= i < |b.entries| ==> GoodEntry(b.entries[i])
  }

  function From(file: seq<byte>, off: nat): seq<byte> {
    if off <= |file| then file[off..] else []
  }

  function LoadedMetadata(file: seq<byte>, s: Section): Option<Metadata> {
    if s.offset + s.length > |file| then None else DecodeMetadata(file[s.offset..s.offset + s.length])
  }

  function Loaded(file: seq<byte>): Option<Backup> {
    match Opened(file)
    case None => None
    case Some(secs) =>
      match (LoadedMetadata(file, secs.meta), ReadCatalog(From(file, secs.catalog.offset), secs.catalog.count),
             ReadEntries(From(file, secs.entries.offset), secs.entries.count))
      case (Some(m), Some(c), Some(e)) => Some(Backup(m, c, e))
      case _ => None
  }

  ghost predicate Holds(file: seq<byte>, secs: Sections, b: Backup)
    requires GoodBackup(b)
  {
    && At(file, secs.meta.offset, EncodeMetadata(b.meta)) && secs.meta.length == |EncodeMetadata(b.meta)|
    && At(file, secs.catalog.offset, EncodeCatalog(b.catalog)) && secs.catalog.count == |b.catalog|
    && At(file, secs.entries.offset, EncodeEntries(b.entries)) && secs.entries.count == |b.entries|
  }

  lemma SplitAt(file: seq<byte>, off: nat, b: seq<byte>)
    requires At(file, off, b)
    ensures From(file, off) == b + file[off + |b|..]
  {
  }

  lemma LoadsTo(file: seq<byte>, secs: Sections, b: Backup)
    requires GoodBackup(b) && Opened(file) == Some(secs) && Holds(file, secs, b)
    ensures Loaded(file) == Some(b)
  {
    hide Opened, ReadCatalog, ReadEntries, EncodeMetadata, DecodeMetadata, EncodeCatalog, EncodeEntries, From,
         GoodFiles, GoodEntry, MetadataInRange, CoreKinds, FileKinds;
    MetadataBack(b.meta);
    var c := EncodeCatalog(b.catalog);
    SplitAt(file, secs.catalog.offset, c);
    CatalogBack(b.catalog, file[secs.catalog.offset + |c|..]);
    var e := EncodeEntries(b.entries);
    SplitAt(file, secs.entries.offset, e);
    EntriesBack(b.entries, file[secs.entries.offset + |e|..]);
  }

  // ---- The two layouts ----

  function ClassicSections(m: nat, c: nat, e: nat, files: nat, records: nat): Sections {
    Sections(Section(HEADER_SIZE, m, 1), Section(HEADER_SIZE + m, c, files), Section(HEADER_SIZE + m + c, e, records))
  }

  function ClassicFile(m: seq<byte>, c: seq<byte>, e: seq<byte>, files: nat, records: nat): seq<byte> {
    Header(HEADER_SIZE + |m| + |c| + |e|) + (m + c + e) + EncodeIndex(ClassicSections(|m|, |c|, |e|, files, records))
  }

  function StreamedSections(m: nat, c: nat, e: nat, files: nat, records: nat): Sections {
    Sections(Section(HEADER_SIZE + e, m, 1), Section(HEADER_SIZE + e + m, c, files), Section(HEADER_SIZE, e, records))
  }

  function StreamedTail(m: seq<byte>, c: seq<byte>, e: nat, files: nat, records: nat): seq<byte> {
    m + c + EncodeIndex(StreamedSections(|m|, |c|, e, files, records)) + LE((HEADER_SIZE + e + |m| + |c|) % M64, 8)
  }

  function StreamedFile(m: seq<byte>, c: seq<byte>, e: seq<byte>, files: nat, records: nat): seq<byte> {
    Header(0) + e + StreamedTail(m, c, |e|, files, records)
  }

  function Classic(b: Backup): seq<byte>
    requires |b.meta.core| == |CoreKinds()|
    requires forall i :: 0 <= i < |b.catalog| ==> |b.catalog[i].fields| == |FileKinds()|
  {
    ClassicFile(EncodeMetadata(b.meta), EncodeCatalog(b.catalog), EncodeEntries(b.entries), |b.catalog|, |b.entries|)
  }

  function Streamed(b: Backup): seq<byte>
    requires |b.meta.core| == |CoreKinds()|
    requires forall i :: 0 <= i < |b.catalog| ==> |b.catalog[i].fields| == |FileKinds()|
  {
    StreamedFile(EncodeMetadata(b.meta), EncodeCatalog(b.catalog), EncodeEntries(b.entries), |b.catalog|, |b.entries|)
  }

  lemma ClassicPlaces(m: seq<byte>, c: seq<byte>, e: seq<byte>, files: nat, records: nat)
    ensures var file := ClassicFile(m, c, e, files, records);
            var secs := ClassicSections(|m|, |c|, |e|, files, records);
            && At(file, 0, Header(HEADER_SIZE + |m| + |c| + |e|))
            && At(file, secs.meta.offset, m) && At(file, secs.catalog.offset, c) && At(file, secs.entries.offset, e)
            && At(file, HEADER_SIZE + |m| + |c| + |e|, EncodeIndex(secs))
  {
    hide Header, EncodeIndex;
    var h, x := Header(HEADER_SIZE + |m| + |c| + |e|), EncodeIndex(ClassicSections(|m|, |c|, |e|, files, records));
    HeaderStarts(HEADER_SIZE + |m| + |c| + |e|);
    FiveParts(h, m, c, e, x);
  }

  lemma FiveParts(a: seq<byte>, b: seq<byte>, c: seq<byte>, d: seq<byte>, e: seq<byte>)
    ensures var file := a + (b + c + d) + e;
            && At(file, 0, a) && At(file, |a|, b) && At(file, |a| + |b|, c) && At(file, |a| + |b| + |c|, d)
            && At(file, |a| + |b| + |c| + |d|, e)
  {
    var file := a + (b + c + d) + e;
    MiddleAt(a, b + c + d, e);
    MiddleAt([], b, c + d);
    assert [] + b + (c + d) == b + c + d;
    Nested(file, |a|, b + c + d, 0, b);
    Nested(file, |a|, b + c + d, |b|, c);
    Nested(file, |a|, b + c + d, |b| + |c|, d);
  }

  lemma StreamedPlaces(m: seq<byte>, c: seq<byte>, e: seq<byte>, files: nat, records: nat)
    ensures var file := StreamedFile(m, c, e, files, records);
            var secs := StreamedSections(|m|, |c|, |e|, files, records);
            var index := HEADER_SIZE + |e| + |m| + |c|;
            && At(file, 0, Header(0))
            && At(file, secs.meta.offset, m) && At(file, secs.catalog.offset, c) && At(file, secs.entries.offset, e)
            && At(file, index, EncodeIndex(secs))
            && index + 116 == |file| && At(file, |file| - 8, LE(index % M64, 8))
  {
    hide Header, EncodeIndex, LE;
    var secs := StreamedSections(|m|, |c|, |e|, files, records);
    var x, t := EncodeIndex(secs), LE((HEADER_SIZE + |e| + |m| + |c|) % M64, 8);
    HeaderStarts(0);
    IndexLength(secs);
    FiveParts(Header(0), e, m, c, x + t);
    var file := Header(0) + (e + m + c) + (x + t);
    assert StreamedFile(m, c, e, files, records) == file;
    MiddleAt([], x, t);
    MiddleAt(x, t, []);
    assert [] + x + t == x + t && x + t + [] == x + t;
    Nested(file, HEADER_SIZE + |e| + |m| + |c|, x + t, 0, x);
    Nested(file, HEADER_SIZE + |e| + |m| + |c|, x + t, 108, t);
  }

  lemma IndexLength(secs: Sections)
    ensures |EncodeIndex(secs)| == 108
  {
    hide EncodeSection;
    SectionStarts(1, secs.meta);
    SectionStarts(2, secs.catalog);
    SectionStarts(3, secs.entries);
  }

  lemma CountsFit(b: Backup)
    requires GoodBackup(b)
    ensures |b.entries| <= |EncodeEntries(b.entries)|
  {
    hide EncodeEntries, MetadataInRange, GoodFiles;
    EntriesLength(b.entries);
  }

  // The sections a reader finds, and where the index is.
  ghost predicate Lays(file: seq<byte>, secs: Sections, b: Backup)
    requires GoodBackup(b)
  {
    && Opened(file) == Some(secs) && Holds(file, secs, b)
    && secs.catalog.length == |EncodeCatalog(b.catalog)| && IndexOffset(file).Some?
    && IndexCount(file) == 3 && IndexOffset(file).value + 3 * SECTION_SIZE <= |file|
    && file[IndexOffset(file).value + 72] == 3
  }

  lemma ClassicLays(b: Backup) returns (secs: Sections)
    requires GoodBackup(b) && |Classic(b)| < SEEKABLE
    ensures Lays(Classic(b), secs, b)
  {
    hide EncodeMetadata, EncodeCatalog, EncodeEntries, Header, EncodeIndex, MetadataInRange, GoodFiles, GoodEntry,
         CoreKinds, FileKinds, Opened, ClassicFile, LE, IndexOffset, IndexCount, FromLE;
    var m, c, e := EncodeMetadata(b.meta), EncodeCatalog(b.catalog), EncodeEntries(b.entries);
    secs := ClassicSections(|m|, |c|, |e|, |b.catalog|, |b.entries|);
    ClassicPlaces(m, c, e, |b.catalog|, |b.entries|);
    IndexLength(secs);
    CountsFit(b);
    var index := HEADER_SIZE + |m| + |c| + |e|;
    OpensTo(Classic(b), index, index, secs);
  }

  lemma StreamedLays(b: Backup) returns (secs: Sections)
    requires GoodBackup(b) && |Streamed(b)| < SEEKABLE
    ensures Lays(Streamed(b), secs, b)
  {
    hide EncodeMetadata, EncodeCatalog, EncodeEntries, Header, EncodeIndex, MetadataInRange, GoodFiles, GoodEntry,
         CoreKinds, FileKinds, Opened, StreamedFile, LE, IndexOffset, IndexCount, FromLE;
    var m, c, e := EncodeMetadata(b.meta), EncodeCatalog(b.catalog), EncodeEntries(b.entries);
    secs := StreamedSections(|m|, |c|, |e|, |b.catalog|, |b.entries|);
    StreamedPlaces(m, c, e, |b.catalog|, |b.entries|);
    IndexLength(secs);
    CountsFit(b);
    OpensTo(Streamed(b), 0, HEADER_SIZE + |e| + |m| + |c|, secs);
  }

  // The file writer's manifest loads as the backup it was written from.
  lemma ClassicLoads(b: Backup)
    requires GoodBackup(b) && |Classic(b)| < SEEKABLE
    ensures Loaded(Classic(b)) == Some(b)
  {
    hide MetadataInRange, GoodFiles, GoodEntry, CoreKinds, FileKinds, Holds, Classic, Loaded, Opened;
    var secs := ClassicLays(b);
    LoadsTo(Classic(b), secs, b);
  }

  // The streamed manifest loads as the same backup.
  lemma StreamedLoads(b: Backup)
    requires GoodBackup(b) && |Streamed(b)| < SEEKABLE
    ensures Loaded(Streamed(b)) == Some(b)
  {
    hide MetadataInRange, GoodFiles, GoodEntry, CoreKinds, FileKinds, Holds, Streamed, Loaded, Opened;
    var secs := StreamedLays(b);
    LoadsTo(Streamed(b), secs, b);
  }
}
