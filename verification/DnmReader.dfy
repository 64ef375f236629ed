/** Reading .dnm manifests: from a file (core/manifest/dnm_reader.go) and through
ranged reads of an object that never hold more than one window of the catalog
(core/manifest/dnm_ranged.go). */
module DnmReader {
  import opened Bytes
  import opened Options
  import opened DnmCodec
  import opened DnmFile
  import opened DnmWriter

  method Open(file: seq<byte>) returns (r: Option<Sections>)
    ensures r == Opened(file)
  {
    hide FromLE, Learn;
    if |file| < HEADER_SIZE || file[0..8] != MAGIC || FromLE(file[8..10]) != 1 {
      return None;
    }
    var index := FromLE(file[12..20]);
    var count := FromLE(file[20..24]);
    if index == 0 {
      index := FromLE(file[|file| - 8..]);
      if index + count * SECTION_SIZE + 8 != |file| {
        return None;
      }
    }
    if index >= SEEKABLE {
      return None;
    }
    var secs := Sections(NONE, NONE, NONE);
    var i: nat, pos: nat := 0, index;
    while i < count
      invariant i <= count
      invariant ScanIndex(file, pos, count - i, secs) == Opened(file)
    {
      if pos + SECTION_SIZE > |file| {
        return None;
      }
      secs := Learn(secs, file[pos..pos + SECTION_SIZE]);
      i, pos := i + 1, pos + SECTION_SIZE;
    }
    r := Some(secs);
  }

  // ---- A section read a window at a time ----

  datatype Pulled = Bytes(b: seq<byte>) | End | Failed

  function Between(file: seq<byte>, off: nat, end: nat): seq<byte> {
    if off < end <= |file| then file[off..end] else []
  }

  lemma BetweenSplits(file: seq<byte>, off: nat, mid: nat, end: nat)
    requires off <= mid <= end <= |file|
    ensures Between(file, off, end) == file[off..mid] + Between(file, mid, end)
  {
  }

  lemma NothingBetween(file: seq<byte>, off: nat, end: nat)
    requires off >= end
    ensures Between(file, off, end) == []
  {
  }

  // A store that always has something to give.
  ghost predicate Honest(serve: (nat, nat) -> nat) {
    forall o: nat, n: nat :: n >= 1 ==> serve(o, n) >= 1
  }

  class SectionReader {
    const file: seq<byte>
    const end: nat
    const window: nat
    // How many bytes the store returns when asked for n at off: perhaps fewer than
    // asked, perhaps more; none is an error.
    const serve: (nat, nat) -> nat
    var off: nat
    var buf: seq<byte>

    ghost predicate Valid()
      reads this
    {
      end <= |file| && window >= 1 && |buf| <= window
    }

    ghost function Rest(): seq<byte>
      reads this
      requires Valid()
    {
      buf + Between(file, off, end)
    }

    constructor (file: seq<byte>, off: nat, end: nat, window: nat, serve: (nat, nat) -> nat)
      requires end <= |file| && window >= 1
      ensures Valid() && Rest() == Between(file, off, end)
      ensures this.file == file && this.serve == serve && this.window == window
    {
      this.file, this.end, this.window, this.serve := file, end, window, serve;
      this.off, buf := off, [];
    }

    // At most k of the bytes that come next.
    method Read(k: nat) returns (r: Pulled)
      requires Valid() && k >= 1
      modifies this
      ensures Valid()
      ensures r.Bytes? ==> 1 <= |r.b| <= k && old(Rest()) == r.b + Rest()
      ensures r.End? ==> old(Rest()) == []
      ensures r.Failed? ==> !Honest(serve)
    {
      hide Between;
      if buf == [] {
        if off >= end {
          NothingBetween(file, off, end);
          return End;
        }
        var full := Refill();
        if !full {
          return Failed;
        }
      }
      var n := if k <= |buf| then k else |buf|;
      r := Bytes(buf[..n]);
      Regroup(buf[..n], buf[n..], Between(file, off, end));
      assert buf == buf[..n] + buf[n..];
      buf := buf[n..];
    }

    // The next window: what the store serves, but never past the section.
    method Refill() returns (ok: bool)
      requires Valid() && buf == [] && off < end
      modifies this
      ensures Valid() && Rest() == old(Rest())
      ensures ok ==> buf != []
      ensures !ok ==> !Honest(serve)
    {
      hide Between;
      var n := if window <= end - off then window else end - off;
      var got := serve(off, n);
      if got == 0 {
        return false;
      }
      var len := if got > n then n else got;
      BetweenSplits(file, off, off + len, end);
      buf := file[off..off + len];
      off := off + len;
      ok := true;
    }

    // Exactly n bytes, however many reads they take.
    method ReadFull(n: nat) returns (r: Option<seq<byte>>)
      requires Valid()
      modifies this
      ensures Valid()
      ensures r.Some? ==> Take(old(Rest()), n) == Ok(r.value, Rest())
      ensures r.None? && Honest(serve) ==> !Take(old(Rest()), n).Ok?
    {
      hide Between;
      var got := [];
      while |got| < n
        invariant Valid() && |got| <= n && old(Rest()) == got + Rest()
      {
        var p := Read(n - |got|);
        if p.Failed? {
          return None;
        }
        if p.End? {
          return None;
        }
        Regroup(got, p.b, Rest());
        got := got + p.b;
      }
      TakeFront(got, Rest());
      r := Some(got);
    }
  }

  // ---- The catalog, one record at a time ----

  datatype Next = Record(fe: FileEntry) | Done | Bad

  class CatalogReader {
    const src: SectionReader
    var remaining: nat

    constructor (src: SectionReader, remaining: nat)
      ensures this.src == src && this.remaining == remaining
    {
      this.src, this.remaining := src, remaining;
    }

    method Next() returns (r: Next)
      requires src.Valid()
      modifies this, src
      ensures src.Valid()
      ensures r.Done? <==> old(remaining) == 0
      ensures r.Record? ==> NextRecord(old(src.Rest())) == Some((r.fe, src.Rest())) && remaining == old(remaining) - 1
      ensures r.Bad? && Honest(src.serve) ==> NextRecord(old(src.Rest())) == None
    {
      hide DecodeFile, FromLE, Between;
      if remaining == 0 {
        return Done;
      }
      var len := src.ReadFull(4);
      if len.None? {
        return Bad;
      }
      var data := src.ReadFull(FromLE(len.value));
      if data.None? {
        return Bad;
      }
      remaining := remaining - 1;
      var fe := DecodeFile(data.value);
      if fe.None? {
        return Bad;
      }
      r := Record(fe.value);
    }
  }

  function Prepend<T>(done: seq<T>, more: Option<seq<T>>): Option<seq<T>> {
    if more.None? then None else Some(done + more.value)
  }

  lemma PrependEnds<T>(done: seq<T>, more: Option<seq<T>>)
    ensures Prepend([], more) == more && Prepend(done, Some([])) == Some(done)
  {
    if more.Some? {
      assert [] + more.value == more.value;
    }
    assert done + [] == done;
  }

  lemma PrependOne<T>(done: seq<T>, x: T, more: Option<seq<T>>)
    ensures Prepend(done, Prepend([x], more)) == Prepend(done + [x], more)
  {
    if more.Some? {
      assert done + ([x] + more.value) == done + [x] + more.value;
    }
  }

  // A file serves what it is asked for.
  function Plainly(): (nat, nat) -> nat {
    (o, n) => n
  }

  method LoadCatalog(file: seq<byte>, s: Section) returns (r: Option<seq<FileEntry>>)
    ensures r == ReadCatalog(From(file, s.offset), s.count)
  {
    hide NextRecord;
    if s.count == 0 {
      return Some([]);
    }
    var src := new SectionReader(file, s.offset, |file|, 0x10_0000, Plainly());
    var cr := new CatalogReader(src, s.count);
    assert src.Rest() == From(file, s.offset);
    var files := [];
    PrependEnds([], ReadCatalog(From(file, s.offset), s.count));
    while true
      invariant fresh(cr) && fresh(src) && cr.src == src && src.Valid() && src.serve == Plainly()
      invariant Prepend(files, ReadCatalog(src.Rest(), cr.remaining)) == ReadCatalog(From(file, s.offset), s.count)
      decreases cr.remaining
    {
      ghost var rest, n := src.Rest(), cr.remaining;
      var next := cr.Next();
      if next.Done? {
        PrependEnds(files, None);
        return Some(files);
      }
      if next.Bad? {
        return None;
      }
      PrependOne(files, next.fe, ReadCatalog(src.Rest(), n - 1));
      assert ReadCatalog(rest, n) == Prepend([next.fe], ReadCatalog(src.Rest(), n - 1));
      files := files + [next.fe];
    }
  }

  method LoadEntries(file: seq<byte>, s: Section) returns (r: Option<seq<Entry>>)
    ensures r == ReadEntries(From(file, s.offset), s.count)
  {
    hide DecodeEntry;
    var es, pos := [], s.offset;
    PrependEnds(es, ReadEntries(From(file, s.offset), s.count));
    for i := 0 to s.count
      invariant pos == s.offset + RECORD_SIZE * i
      invariant Prepend(es, ReadEntries(From(file, pos), s.count - i)) == ReadEntries(From(file, s.offset), s.count)
    {
      if pos + RECORD_SIZE > |file| {
        return None;
      }
      var e := DecodeEntry(file[pos..pos + RECORD_SIZE]);
      assert From(file, pos)[..RECORD_SIZE] == file[pos..pos + RECORD_SIZE];
      assert From(file, pos)[RECORD_SIZE..] == From(file, pos + RECORD_SIZE);
      PrependOne(es, e, ReadEntries(From(file, pos + RECORD_SIZE), s.count - i - 1));
      es, pos := es + [e], pos + RECORD_SIZE;
    }
    PrependEnds(es, None);
    r := Some(es);
  }

  method Load(file: seq<byte>) returns (r: Option<Backup>)
    ensures r == Loaded(file)
  {
    hide Opened, ReadCatalog, ReadEntries, DecodeMetadata, From;
    var secs := Open(file);
    if secs.None? {
      return None;
    }
    var s := secs.value;
    if s.meta.offset + s.meta.length > |file| {
      return None;
    }
    var m := DecodeMetadata(file[s.meta.offset..s.meta.offset + s.meta.length]);
    if m.None? {
      return None;
    }
    var c := LoadCatalog(file, s.catalog);
    if c.None? {
      return None;
    }
    var e := LoadEntries(file, s.entries);
    if e.None? {
      return None;
    }
    r := Some(Backup(m.value, c.value, e.value));
  }

  // A manifest saved and loaded again is the backup it was, and so is one streamed
  // with any window.
  method SaveAndLoad(b: Backup, window: nat) returns (saved: Option<Backup>, streamed: Option<Backup>)
    requires Shaped(b.meta, b.catalog) && GoodBackup(b) && |Classic(b)| < SEEKABLE - 8
    ensures saved == Some(b) && streamed == Some(b)
  {
    hide Classic, Streamed, Loaded, MetadataInRange, GoodFiles, CoreKinds, FileKinds;
    var file := WriteDnm(b.meta, b.catalog, b.entries, None);
    ClassicLoads(b);
    saved := Load(file);
    var parts := StreamBackup(b, window);
    LayoutLengths(b);
    StreamedLoads(b);
    streamed := Load(Flat(parts));
  }

  // The streamed layout is the other's bytes in another order, and eight more.
  lemma LayoutLengths(b: Backup)
    requires Shaped(b.meta, b.catalog)
    ensures |Streamed(b)| == |Classic(b)| + 8
  {
    hide Header, EncodeIndex, CoreKinds, FileKinds, EncodeMetadata, EncodeCatalog, EncodeEntries;
    var m, c, e := EncodeMetadata(b.meta), EncodeCatalog(b.catalog), EncodeEntries(b.entries);
    HeaderStarts(0);
    HeaderStarts(HEADER_SIZE + |m| + |c| + |e|);
    IndexLength(ClassicSections(|m|, |c|, |e|, |b.catalog|, |b.entries|));
    IndexLength(StreamedSections(|m|, |c|, |e|, |b.catalog|, |b.entries|));
  }

  // ---- Ranged reads ----

  // A catalog section is refused unless it is empty or lies within the object.
  ghost function Bounded(file: seq<byte>, c: Section): Option<Section> {
    if c.count > 0 && c.offset + c.length > |file| then None else Some(c)
  }

  // The catalog section as an opened file has it, provided index and section lie
  // within the object.
  ghost function Located(file: seq<byte>): Option<Section> {
    match Opened(file)
    case None => None
    case Some(secs) =>
      if IndexOffset(file).value + IndexCount(file) * SECTION_SIZE > |file| then None
      else Bounded(file, secs.catalog)
  }

  // What the store returns when asked for n bytes at off.
  function Served(file: seq<byte>, serve: (nat, nat) -> nat, off: nat, n: nat): seq<byte> {
    if off > |file| then []
    else if off + serve(off, n) <= |file| then file[off..off + serve(off, n)]
    else file[off..]
  }

  // Record i of an index of which idx was served, filled up with zeros.
  function RecordOf(idx: seq<byte>, i: nat): (b: seq<byte>)
    ensures |b| == SECTION_SIZE
  {
    var at := i * SECTION_SIZE;
    if at + SECTION_SIZE <= |idx| then idx[at..at + SECTION_SIZE]
    else if at <= |idx| then idx[at..] + seq(SECTION_SIZE - (|idx| - at), _ => 0)
    else seq(SECTION_SIZE, _ => 0)
  }

  // The last catalog section among the first n records.
  ghost function CatalogOf(idx: seq<byte>, n: nat): Section {
    if n == 0 then NONE
    else
      var b := RecordOf(idx, n - 1);
      if b[0] == 2 then DecodeSection(b) else CatalogOf(idx, n - 1)
  }

  // The catalog section as the store's answers have it.
  ghost function LocatedBy(file: seq<byte>, serve: (nat, nat) -> nat): Option<Section> {
    if serve(0, HEADER_SIZE) < HEADER_SIZE || !GoodHeader(file) || IndexOffset(file).None? then None
    else
      var off, n := IndexOffset(file).value, IndexCount(file);
      if off + n * SECTION_SIZE > |file| then None
      else Bounded(file, CatalogOf(Served(file, serve, off, n * SECTION_SIZE), n))
  }

  // What the source takes for granted of the store: the trailer is served whole if it is
  // asked for, and no record of the index begins beyond what is served of it.
  ghost predicate Steady(file: seq<byte>, serve: (nat, nat) -> nat) {
    GoodHeader(file) ==>
      && (FromLE(file[12..20]) == 0 ==> serve(|file| - 8, 8) >= 8)
      && (IndexOffset(file).Some? ==>
            var off, n := IndexOffset(file).value, IndexCount(file);
            off + n * SECTION_SIZE <= |file| ==>
              (n - 1) * SECTION_SIZE <= |Served(file, serve, off, n * SECTION_SIZE)|)
  }

  lemma ServedWhole(file: seq<byte>, serve: (nat, nat) -> nat, off: nat, n: nat)
    requires off + n <= |file| && serve(off, n) >= n
    ensures |Served(file, serve, off, n)| >= n && Served(file, serve, off, n)[..n] == file[off..off + n]
  {
  }

  // A header served short is refused.
  method LocateCatalog(file: seq<byte>, serve: (nat, nat) -> nat) returns (r: Option<Section>)
    requires Steady(file, serve)
    ensures r == LocatedBy(file, serve)
  {
    hide FromLE, DecodeSection, Served, CatalogOf;
    if |file| < HEADER_SIZE {
      return None;
    }
    var header := Served(file, serve, 0, HEADER_SIZE);
    if serve(0, HEADER_SIZE) >= HEADER_SIZE {
      ServedWhole(file, serve, 0, HEADER_SIZE);
    } else {
      ServedShort(file, serve);
    }
    if |header| < HEADER_SIZE {
      return None;
    }
    HeaderParts(file, header);
    if header[0..8] != MAGIC || FromLE(header[8..10]) != 1 {
      return None;
    }
    var index := FromLE(header[12..20]);
    var count := FromLE(header[20..24]);
    if index == 0 {
      ServedWhole(file, serve, |file| - 8, 8);
      index := FromLE(Served(file, serve, |file| - 8, 8)[..8]);
      assert file[|file| - 8..] == file[|file| - 8..|file| - 8 + 8];
      if index + count * SECTION_SIZE + 8 != |file| {
        return None;
      }
    }
    assert IndexOffset(file) == Some(index) && IndexCount(file) == count;
    if index + count * SECTION_SIZE > |file| {
      return None;
    }
    var catalog := CatalogIn(Served(file, serve, index, count * SECTION_SIZE), count);
    if catalog.count > 0 && catalog.offset + catalog.length > |file| {
      return None;
    }
    r := Some(catalog);
  }

  // The last catalog section of the index served; each record is copied over zeros.
  method CatalogIn(idx: seq<byte>, count: nat) returns (catalog: Section)
    requires (count - 1) * SECTION_SIZE <= |idx|
    ensures catalog == CatalogOf(idx, count)
  {
    hide DecodeSection;
    catalog := NONE;
    for i := 0 to count
      invariant catalog == CatalogOf(idx, i)
    {
      var rest := idx[i * SECTION_SIZE..];
      var b := if |rest| >= SECTION_SIZE then rest[..SECTION_SIZE] else rest + seq(SECTION_SIZE - |rest|, _ => 0);
      assert b == RecordOf(idx, i);
      if b[0] == 2 {
        catalog := DecodeSection(b);
      }
    }
  }

  // ---- An index served whole, and one cut short ----

  // Scanning the index on from record k.
  lemma {:induction false} ScanCatalog(file: seq<byte>, off: nat, n: nat, k: nat, secs: Sections)
    requires k <= n && off + n * SECTION_SIZE <= |file|
    requires secs.catalog == CatalogOf(file[off..off + n * SECTION_SIZE], k)
    ensures var r := ScanIndex(file, off + k * SECTION_SIZE, n - k, secs);
            r.Some? && r.value.catalog == CatalogOf(file[off..off + n * SECTION_SIZE], n)
    decreases n - k
  {
    hide DecodeSection, Learn, CatalogOf, RecordOf;
    if k < n {
      var idx := file[off..off + n * SECTION_SIZE];
      OneRecord(idx, k);
      var pos := off + k * SECTION_SIZE;
      var b := file[pos..pos + SECTION_SIZE];
      SameEntry(file, off, n * SECTION_SIZE, k * SECTION_SIZE);
      LearnCatalog(secs, b);
      ScanCatalog(file, off, n, k + 1, Learn(secs, b));
    }
  }

  lemma OneRecord(idx: seq<byte>, k: nat)
    requires (k + 1) * SECTION_SIZE <= |idx|
    ensures var b := idx[k * SECTION_SIZE..k * SECTION_SIZE + SECTION_SIZE];
            CatalogOf(idx, k + 1) == if b[0] == 2 then DecodeSection(b) else CatalogOf(idx, k)
  {
    hide DecodeSection;
  }

  lemma LearnCatalog(secs: Sections, b: seq<byte>)
    requires |b| == SECTION_SIZE
    ensures Learn(secs, b).catalog == if b[0] == 2 then DecodeSection(b) else secs.catalog
  {
  }

  lemma SameEntry(file: seq<byte>, off: nat, len: nat, at: nat)
    requires off + len <= |file| && at + SECTION_SIZE <= len
    ensures file[off..off + len][at..at + SECTION_SIZE] == file[off + at..off + at + SECTION_SIZE]
  {
    var part, whole := file[off..off + len][at..at + SECTION_SIZE], file[off + at..off + at + SECTION_SIZE];
    forall i | 0 <= i < |part| ensures part[i] == whole[i] {
      assert part[i] == file[off..off + len][at + i];
    }
    assert part == whole;
  }

  // Records that are all there are the same in any longer piece.
  lemma {:induction false} SameCatalog(idx: seq<byte>, more: seq<byte>, n: nat)
    requires n * SECTION_SIZE <= |idx| && n * SECTION_SIZE <= |more|
    requires idx[..n * SECTION_SIZE] == more[..n * SECTION_SIZE]
    ensures CatalogOf(idx, n) == CatalogOf(more, n)
  {
    hide DecodeSection;
    if n > 0 {
      var at := (n - 1) * SECTION_SIZE;
      FrontPart(idx, n * SECTION_SIZE, at, n * SECTION_SIZE);
      FrontPart(more, n * SECTION_SIZE, at, n * SECTION_SIZE);
      FrontPart(idx, n * SECTION_SIZE, 0, at);
      FrontPart(more, n * SECTION_SIZE, 0, at);
      assert idx[..at] == idx[0..at] && more[..at] == more[0..at];
      SameCatalog(idx, more, n - 1);
    }
  }

  // An index served whole gives what opening the file gives.  One cut short within its
  // last record still does, if that record is not a catalog's.
  lemma LocatedWhole(file: seq<byte>, serve: (nat, nat) -> nat)
    requires |file| < SEEKABLE && serve(0, HEADER_SIZE) >= HEADER_SIZE
    requires GoodHeader(file) && IndexOffset(file).Some? ==>
               var off, n := IndexOffset(file).value, IndexCount(file);
               off + n * SECTION_SIZE <= |file| ==>
                 || serve(off, n * SECTION_SIZE) >= n * SECTION_SIZE
                 || (n > 0 && serve(off, n * SECTION_SIZE) >= (n - 1) * SECTION_SIZE &&
                     file[off + (n - 1) * SECTION_SIZE] != 2)
    ensures LocatedBy(file, serve) == Located(file)
  {
    hide DecodeSection, FromLE, IndexOffset, IndexCount, Served, CatalogOf;
    if GoodHeader(file) && IndexOffset(file).Some? {
      var off, n := IndexOffset(file).value, IndexCount(file);
      if off + n * SECTION_SIZE <= |file| {
        NoRecords(file[off..off + n * SECTION_SIZE]);
        ScanCatalog(file, off, n, 0, Sections(NONE, NONE, NONE));
        ServedCatalog(file, serve, off, n);
      }
    }
  }

  lemma NoRecords(idx: seq<byte>)
    ensures CatalogOf(idx, 0) == NONE
  {
  }

  lemma ServedCatalog(file: seq<byte>, serve: (nat, nat) -> nat, off: nat, n: nat)
    requires off + n * SECTION_SIZE <= |file|
    requires || serve(off, n * SECTION_SIZE) >= n * SECTION_SIZE
             || (n > 0 && serve(off, n * SECTION_SIZE) >= (n - 1) * SECTION_SIZE &&
                 file[off + (n - 1) * SECTION_SIZE] != 2)
    ensures CatalogOf(Served(file, serve, off, n * SECTION_SIZE), n) ==
            CatalogOf(file[off..off + n * SECTION_SIZE], n)
  {
    hide DecodeSection, Served, RecordOf, CatalogOf;
    var idx, whole := Served(file, serve, off, n * SECTION_SIZE), file[off..off + n * SECTION_SIZE];
    if |idx| >= n * SECTION_SIZE {
      ServedPrefix(file, serve, off, n * SECTION_SIZE, n * SECTION_SIZE);
      SameCatalog(idx, whole, n);
    } else {
      ServedLength(file, serve, off, n * SECTION_SIZE);
      ServedPrefix(file, serve, off, n * SECTION_SIZE, (n - 1) * SECTION_SIZE);
      SameCatalog(idx, whole, n - 1);
      TypeOf(whole, n - 1);
      TypeOf(idx, n - 1);
      if |idx| > (n - 1) * SECTION_SIZE {
        ServedPrefix(file, serve, off, n * SECTION_SIZE, |idx|);
        assert idx[..|idx|][(n - 1) * SECTION_SIZE] == whole[..|idx|][(n - 1) * SECTION_SIZE];
      }
      NotCatalog(whole, n);
      NotCatalog(idx, n);
    }
  }

  lemma ServedLength(file: seq<byte>, serve: (nat, nat) -> nat, off: nat, n: nat)
    requires off + n <= |file|
    ensures |Served(file, serve, off, n)| < n ==> |Served(file, serve, off, n)| == serve(off, n)
  {
  }

  lemma ServedPrefix(file: seq<byte>, serve: (nat, nat) -> nat, off: nat, n: nat, k: nat)
    requires off + n <= |file| && k <= n && k <= |Served(file, serve, off, n)|
    ensures Served(file, serve, off, n)[..k] == file[off..off + n][..k]
  {
  }

  lemma TypeOf(idx: seq<byte>, i: nat)
    requires i * SECTION_SIZE <= |idx|
    ensures RecordOf(idx, i)[0] == if i * SECTION_SIZE < |idx| then idx[i * SECTION_SIZE] else 0
  {
  }

  lemma NotCatalog(idx: seq<byte>, n: nat)
    requires n > 0 && RecordOf(idx, n - 1)[0] != 2
    ensures CatalogOf(idx, n) == CatalogOf(idx, n - 1)
  {
    hide RecordOf;
  }

  // A catalog record cut short after its type: the catalog is taken for empty.
  lemma CutCatalogEmpty(idx: seq<byte>, n: nat)
    requires n > 0 && |idx| == (n - 1) * SECTION_SIZE + 1 && idx[(n - 1) * SECTION_SIZE] == 2
    ensures CatalogOf(idx, n) == Section(0, 0, 0)
  {
    hide FromLE;
    var b := RecordOf(idx, n - 1);
    assert b[8..16] == seq(8, _ => 0) && b[16..24] == seq(8, _ => 0) && b[24..32] == seq(8, _ => 0);
    ZeroField(seq(8, _ => 0));
  }

  lemma {:induction false} ZeroField(s: seq<byte>)
    requires forall i :: 0 <= i < |s| ==> s[i] == 0
    ensures FromLE(s) == 0
  {
    if s != [] {
      ZeroField(s[1..]);
    }
  }

  lemma ServedShort(file: seq<byte>, serve: (nat, nat) -> nat)
    requires serve(0, HEADER_SIZE) < HEADER_SIZE
    ensures |Served(file, serve, 0, HEADER_SIZE)| < HEADER_SIZE
  {
  }

  // The header's fields are the file's.
  lemma HeaderParts(file: seq<byte>, header: seq<byte>)
    requires |file| >= HEADER_SIZE && |header| >= HEADER_SIZE && header[..HEADER_SIZE] == file[..HEADER_SIZE]
    ensures header[0..8] == file[0..8] && header[8..10] == file[8..10]
    ensures header[12..20] == file[12..20] && header[20..24] == file[20..24]
  {
    FrontPart(header, HEADER_SIZE, 0, 8);
    FrontPart(file, HEADER_SIZE, 0, 8);
    FrontPart(header, HEADER_SIZE, 8, 10);
    FrontPart(file, HEADER_SIZE, 8, 10);
    FrontPart(header, HEADER_SIZE, 12, 20);
    FrontPart(file, HEADER_SIZE, 12, 20);
    FrontPart(header, HEADER_SIZE, 20, 24);
    FrontPart(file, HEADER_SIZE, 20, 24);
  }

  lemma FrontPart(s: seq<byte>, n: nat, lo: nat, hi: nat)
    requires lo <= hi <= n <= |s|
    ensures s[..n][lo..hi] == s[lo..hi]
  {
  }

  // Visiting n records of s until the visitor has seen enough: whether it went
  // well, and the records visited.
  ghost function Visiting(s: seq<byte>, n: nat, visit: FileEntry -> bool): (bool, seq<FileEntry>) {
    if n == 0 then (true, [])
    else
      match NextRecord(s)
      case None => (false, [])
      case Some(next) =>
        if !visit(next.0) then (true, [next.0])
        else
          var more := Visiting(next.1, n - 1, visit);
          (more.0, [next.0] + more.1)
  }

  // The files up to the first the visitor stops at.
  ghost function UpTo(fes: seq<FileEntry>, visit: FileEntry -> bool): seq<FileEntry> {
    if fes == [] then [] else if !visit(fes[0]) then [fes[0]] else [fes[0]] + UpTo(fes[1..], visit)
  }

  lemma {:induction false} VisitingReads(s: seq<byte>, n: nat, visit: FileEntry -> bool)
    requires ReadCatalog(s, n).Some?
    ensures Visiting(s, n, visit) == (true, UpTo(ReadCatalog(s, n).value, visit))
    decreases n
  {
    hide NextRecord;
    if n > 0 {
      var next := NextRecord(s).value;
      VisitingReads(next.1, n - 1, visit);
      assert ReadCatalog(s, n).value[1..] == ReadCatalog(next.1, n - 1).value;
    }
  }

  lemma LaidIsLocated(file: seq<byte>, secs: Sections, b: Backup, visit: FileEntry -> bool)
    requires GoodBackup(b) && Lays(file, secs, b)
    ensures Located(file) == Some(secs.catalog)
    ensures Visiting(Between(file, secs.catalog.offset, secs.catalog.offset + secs.catalog.length), secs.catalog.count,
                     visit) == (true, UpTo(b.catalog, visit))
  {
    hide Opened, Visiting, EncodeCatalog, EncodeMetadata, EncodeEntries, ReadCatalog, GoodFiles, MetadataInRange,
         CoreKinds, FileKinds, IndexOffset, IndexCount;
    var s := Between(file, secs.catalog.offset, secs.catalog.offset + secs.catalog.length);
    assert s == EncodeCatalog(b.catalog);
    CatalogBack(b.catalog, []);
    assert s + [] == s;
    VisitingReads(s, |b.catalog|, visit);
  }

  // In either layout the ranged reader visits the catalog that was written.
  lemma RangedSeesCatalog(b: Backup, visit: FileEntry -> bool)
    requires GoodBackup(b) && |Classic(b)| < SEEKABLE - 8
    ensures forall file | file in {Classic(b), Streamed(b)} ::
              && Located(file).Some?
              && var c := Located(file).value;
              Visiting(Between(file, c.offset, c.offset + c.length), c.count, visit) == (true, UpTo(b.catalog, visit))
  {
    hide MetadataInRange, GoodFiles, GoodEntry, CoreKinds, FileKinds, Holds, Lays, Classic, Streamed, Located,
         Visiting, Between, Opened;
    var classic := ClassicLays(b);
    LaidIsLocated(Classic(b), classic, b, visit);
    LayoutLengths(b);
    var streamed := StreamedLays(b);
    LaidIsLocated(Streamed(b), streamed, b, visit);
  }

  // And it finds that catalog, however little of the index is served beyond its record.
  lemma RangedFindsCatalog(b: Backup, serve: (nat, nat) -> nat)
    requires GoodBackup(b) && |Classic(b)| < SEEKABLE - 8
    requires serve(0, HEADER_SIZE) >= HEADER_SIZE && forall off :: serve(off, 108) >= 72
    ensures forall file | file in {Classic(b), Streamed(b)} :: LocatedBy(file, serve) == Located(file)
  {
    hide MetadataInRange, GoodFiles, GoodEntry, CoreKinds, FileKinds, Holds, Classic, Streamed, Located, LocatedBy,
         Opened, IndexOffset, IndexCount;
    var classic := ClassicLays(b);
    LayoutLengths(b);
    var streamed := StreamedLays(b);
    LocatedWhole(Classic(b), serve);
    LocatedWhole(Streamed(b), serve);
  }

  // The same after some records have been visited.
  ghost function After(seen: seq<FileEntry>, more: (bool, seq<FileEntry>)): (bool, seq<FileEntry>) {
    (more.0, seen + more.1)
  }

  lemma AfterOne(seen: seq<FileEntry>, fe: FileEntry, more: (bool, seq<FileEntry>))
    ensures After(seen, After([fe], more)) == After(seen + [fe], more)
    ensures After(seen, (true, [fe])) == (true, seen + [fe])
  {
    Assoc(seen, [fe], more.1);
  }

  lemma AfterNone(seen: seq<FileEntry>, more: (bool, seq<FileEntry>))
    ensures After([], more) == more
    ensures forall ok :: After(seen, (ok, [])) == (ok, seen)
  {
    assert [] + more.1 == more.1 && seen + [] == seen;
  }

  lemma LocatedWithin(file: seq<byte>, serve: (nat, nat) -> nat)
    requires LocatedBy(file, serve).Some? && LocatedBy(file, serve).value.count > 0
    ensures LocatedBy(file, serve).value.offset + LocatedBy(file, serve).value.length <= |file|
  {
    hide IndexOffset, IndexCount, CatalogOf;
  }

  lemma Assoc<T>(a: seq<T>, b: seq<T>, c: seq<T>)
    ensures a + b + c == a + (b + c)
  {
  }

  // However little or much of the catalog the store serves at a time and however small the
  // window: what is visited is the section's own records in order, and with a store that
  // always serves something, all of them.
  method StreamCatalogRanged(file: seq<byte>, serve: (nat, nat) -> nat, window: nat, visit: FileEntry -> bool)
    returns (ok: bool, visited: seq<FileEntry>)
    requires window >= 1 && Steady(file, serve)
    ensures LocatedBy(file, serve).None? ==> !ok && visited == []
    ensures LocatedBy(file, serve).Some? && (ok || Honest(serve)) ==>
              var c := LocatedBy(file, serve).value;
              (ok, visited) == Visiting(Between(file, c.offset, c.offset + c.length), c.count, visit)
  {
    hide NextRecord, LocatedBy, Between, Steady;
    var located := LocateCatalog(file, serve);
    if located.None? {
      return false, [];
    }
    var c := located.value;
    if c.count == 0 {
      return true, [];
    }
    LocatedWithin(file, serve);
    var src := new SectionReader(file, c.offset, c.offset + c.length, window, serve);
    var cr := new CatalogReader(src, c.count);
    ghost var whole := src.Rest();
    visited := [];
    AfterNone(visited, Visiting(whole, c.count, visit));
    for i := 0 to c.count
      invariant fresh(cr) && fresh(src) && cr.src == src && src.Valid() && src.serve == serve
      invariant cr.remaining == c.count - i
      invariant After(visited, Visiting(src.Rest(), cr.remaining, visit)) == Visiting(whole, c.count, visit)
    {
      ghost var rest, n := src.Rest(), cr.remaining;
      var next := cr.Next();
      if !next.Record? {
        AfterNone(visited, (true, []));
        return false, visited;
      }
      AfterOne(visited, next.fe, Visiting(src.Rest(), n - 1, visit));
      visited := visited + [next.fe];
      if !visit(next.fe) {
        return true, visited;
      }
    }
    AfterNone(visited, (true, []));
    ok := true;
  }
}
