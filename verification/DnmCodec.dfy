/** The field codecs of the .dnm manifest (core/manifest/dnm.go).

Strings are their bytes and floating-point numbers their bits.  A record is a list
of fields, each of a kind that says how it is written. */
module DnmCodec {
  import opened Bytes
  import opened Options

  // What reading comes to: a value and what is left, nothing there at all, or
  // something cut short.
  datatype Read<+T> = Ok(value: T, rest: seq<byte>) | Eof | Short

  // io.ReadFull
  function Take(s: seq<byte>, n: nat): Read<seq<byte>> {
    if n <= |s| then Ok(s[..n], s[n..]) else if s == [] then Eof else Short
  }

  lemma TakeFront(a: seq<byte>, rest: seq<byte>)
    ensures Take(a + rest, |a|) == Ok(a, rest)
  {
    assert (a + rest)[..|a|] == a && (a + rest)[|a|..] == rest;
  }

  function ReadLE(s: seq<byte>, n: nat): Read<nat> {
    match Take(s, n)
    case Ok(b, rest) => Ok(FromLE(b), rest)
    case Eof => Eof
    case Short => Short
  }

  lemma ReadLEFront(x: nat, n: nat, rest: seq<byte>)
    requires x < Pow256(n)
    ensures ReadLE(LE(x, n) + rest, n) == Ok(x, rest)
  {
    TakeFront(LE(x, n), rest);
    LERoundTrip(x, n);
  }

  // ---- Signed numbers ----

  const M32 := 0x1_0000_0000
  const M64 := 0x1_0000_0000_0000_0000

  predicate IsI64(x: int) {
    -0x8000_0000_0000_0000 <= x < 0x8000_0000_0000_0000
  }

  function ToU64(x: int): nat {
    x % M64
  }

  function FromU64(u: nat): int {
    if u < 0x8000_0000_0000_0000 then u else u - M64
  }

  function WriteI64(x: int): seq<byte> {
    LE(ToU64(x), 8)
  }

  function ReadI64(s: seq<byte>): Read<int> {
    match ReadLE(s, 8)
    case Ok(u, rest) => Ok(FromU64(u), rest)
    case Eof => Eof
    case Short => Short
  }

  lemma I64Back(x: int, rest: seq<byte>)
    requires IsI64(x)
    ensures ReadI64(WriteI64(x) + rest) == Ok(x, rest)
  {
    hide LE, Pow256;
    Widths();
    ReadLEFront(ToU64(x), 8, rest);
  }

  predicate IsI32(x: int) {
    -0x8000_0000 <= x < 0x8000_0000
  }

  function WriteI32(x: int): seq<byte> {
    LE(x % M32, 4)
  }

  function ReadI32(s: seq<byte>): Read<int> {
    match ReadLE(s, 4)
    case Ok(u, rest) => Ok(if u < 0x8000_0000 then u else u - M32, rest)
    case Eof => Eof
    case Short => Short
  }

  lemma I32Back(x: int, rest: seq<byte>)
    requires IsI32(x)
    ensures ReadI32(WriteI32(x) + rest) == Ok(x, rest)
  {
    hide LE, Pow256;
    Widths();
    ReadLEFront(x % M32, 4, rest);
  }

  // The zero time is written as the least number there is.
  const ZERO_TIME := -0x8000_0000_0000_0000

  function WriteTime(t: Option<int>): seq<byte> {
    WriteI64(if t.None? then ZERO_TIME else t.value)
  }

  function ReadTime(s: seq<byte>): Read<Option<int>> {
    match ReadI64(s)
    case Ok(x, rest) => Ok(if x == ZERO_TIME then None else Some(x), rest)
    case Eof => Eof
    case Short => Short
  }

  lemma TimeBack(t: Option<int>, rest: seq<byte>)
    requires t.Some? ==> IsI64(t.value) && t.value != ZERO_TIME
    ensures ReadTime(WriteTime(t) + rest) == Ok(t, rest)
  {
    hide WriteI64, ReadI64;
    I64Back(if t.None? then ZERO_TIME else t.value, rest);
  }

  // ---- Strings ----

  // A string with an n-byte length; what does not fit the length is cut off.
  function WriteStr(s: seq<byte>, n: nat): seq<byte> {
    Positive(n);
    var cut := if |s| > Pow256(n) - 1 then s[..Pow256(n) - 1] else s;
    LE(|cut|, n) + cut
  }

  // A missing body reads as the end of the data, as io.ReadFull reports it.
  function ReadStr(s: seq<byte>, n: nat): Read<seq<byte>> {
    match ReadLE(s, n)
    case Eof => Eof
    case Short => Short
    case Ok(len, rest) => Take(rest, len)
  }

  lemma StrBack(s: seq<byte>, n: nat, rest: seq<byte>)
    ensures ReadStr(WriteStr(s, n) + rest, n) == Ok(s, rest) <==> |s| < Pow256(n)
  {
    hide LE, Pow256;
    Positive(n);
    var cut := if |s| > Pow256(n) - 1 then s[..Pow256(n) - 1] else s;
    assert WriteStr(s, n) + rest == LE(|cut|, n) + (cut + rest);
    ReadLEFront(|cut|, n, cut + rest);
    TakeFront(cut, rest);
  }

  lemma {:induction false} Positive(n: nat)
    ensures Pow256(n) > 0
  {
    if n > 0 {
      Positive(n - 1);
    }
  }

  // ---- Counts ----

  const SENTINEL := 0xFFFF

  // A count in two bytes, or the mark and then the count in four.
  function WriteCount(n: nat): seq<byte> {
    if n < SENTINEL then LE(n, 2) else LE(SENTINEL, 2) + LE(n % M32, 4)
  }

  function ReadCount(s: seq<byte>): Read<nat> {
    match ReadLE(s, 2)
    case Eof => Eof
    case Short => Short
    case Ok(v, rest) => if v != SENTINEL then Ok(v, rest) else ReadLE(rest, 4)
  }

  lemma CountBack(n: nat, rest: seq<byte>)
    ensures ReadCount(WriteCount(n) + rest) == Ok(n, rest) <==> n < M32
  {
    hide LE, Pow256;
    Widths();
    if n < SENTINEL {
      ReadLEFront(n, 2, rest);
    } else {
      assert WriteCount(n) + rest == LE(SENTINEL, 2) + (LE(n % M32, 4) + rest);
      ReadLEFront(SENTINEL, 2, LE(n % M32, 4) + rest);
      ReadLEFront(n % M32, 4, rest);
    }
  }

  // ---- Lists ----

  function WriteStrs(ss: seq<seq<byte>>): seq<byte> {
    if ss == [] then [] else WriteStr(ss[0], 2) + WriteStrs(ss[1..])
  }

  function ReadStrs(s: seq<byte>, n: nat): Read<seq<seq<byte>>> {
    if n == 0 then Ok([], s)
    else
      match ReadStr(s, 2)
      case Eof => Eof
      case Short => Short
      case Ok(x, rest) =>
        match ReadStrs(rest, n - 1)
        case Eof => Eof
        case Short => Short
        case Ok(xs, rest') => Ok([x] + xs, rest')
  }

  lemma {:induction false} StrsBack(ss: seq<seq<byte>>, rest: seq<byte>)
    requires forall i :: 0 <= i < |ss| ==> |ss[i]| < Pow256(2)
    ensures ReadStrs(WriteStrs(ss) + rest, |ss|) == Ok(ss, rest)
  {
    hide WriteStr, ReadStr, Pow256;
    if ss == [] {
      assert WriteStrs(ss) + rest == rest;
    } else {
      assert WriteStrs(ss) + rest == WriteStr(ss[0], 2) + (WriteStrs(ss[1..]) + rest);
      StrBack(ss[0], 2, WriteStrs(ss[1..]) + rest);
      StrsBack(ss[1..], rest);
      assert ss == [ss[0]] + ss[1..];
    }
  }

  // An extent: its place in the file, on the volume, and its length.
  datatype Extent = Extent(fileOffset: int, volumeOffset: int, length: int)

  predicate GoodExtent(e: Extent) {
    IsI64(e.fileOffset) && IsI64(e.volumeOffset) && IsI64(e.length)
  }

  function WriteExtent(e: Extent): seq<byte> {
    WriteI64(e.fileOffset) + WriteI64(e.volumeOffset) + WriteI64(e.length)
  }

  function ReadExtent(s: seq<byte>): Read<Extent> {
    match ReadI64(s)
    case Eof => Eof
    case Short => Short
    case Ok(a, r1) =>
      match ReadI64(r1)
      case Eof => Eof
      case Short => Short
      case Ok(b, r2) =>
        match ReadI64(r2)
        case Eof => Eof
        case Short => Short
        case Ok(c, r3) => Ok(Extent(a, b, c), r3)
  }

  lemma ExtentBack(e: Extent, rest: seq<byte>)
    requires GoodExtent(e)
    ensures ReadExtent(WriteExtent(e) + rest) == Ok(e, rest)
  {
    hide WriteI64, ReadI64, IsI64;
    var a, b, c := WriteI64(e.fileOffset), WriteI64(e.volumeOffset), WriteI64(e.length);
    assert WriteExtent(e) + rest == a + (b + (c + rest));
    I64Back(e.fileOffset, b + (c + rest));
    I64Back(e.volumeOffset, c + rest);
    I64Back(e.length, rest);
  }

  function WriteExtents(es: seq<Extent>): seq<byte> {
    if es == [] then [] else WriteExtent(es[0]) + WriteExtents(es[1..])
  }

  function ReadExtents(s: seq<byte>, n: nat): Read<seq<Extent>> {
    if n == 0 then Ok([], s)
    else
      match ReadExtent(s)
      case Eof => Eof
      case Short => Short
      case Ok(x, rest) =>
        match ReadExtents(rest, n - 1)
        case Eof => Eof
        case Short => Short
        case Ok(xs, rest') => Ok([x] + xs, rest')
  }

  lemma {:induction false} ExtentsBack(es: seq<Extent>, rest: seq<byte>)
    requires forall i :: 0 <= i < |es| ==> GoodExtent(es[i])
    ensures ReadExtents(WriteExtents(es) + rest, |es|) == Ok(es, rest)
  {
    hide WriteExtent, ReadExtent, GoodExtent;
    if es == [] {
      assert WriteExtents(es) + rest == rest;
    } else {
      assert WriteExtents(es) + rest == WriteExtent(es[0]) + (WriteExtents(es[1..]) + rest);
      ExtentBack(es[0], WriteExtents(es[1..]) + rest);
      ExtentsBack(es[1..], rest);
      assert es == [es[0]] + es[1..];
    }
  }

  // ---- Fields ----

  datatype Kind =
    | KStr8
    | KStr16
    | KU32
    | KI32
    | KI64
    | KTime
    | KFlags // four bits of one byte
    | KHash // 32 bytes
    | KStrs // a count, then that many strings
    | KBlob // a count, then that many bytes
    | KExtents // a count, then that many extents

  datatype Value =
    | Str(s: seq<byte>)
    | Num(n: int)
    | Time(t: Option<int>)
    | Flags(a: bool, b: bool, c: bool, d: bool)
    | Strs(ss: seq<seq<byte>>)
    | Extents(es: seq<Extent>)

  // The value is of the kind and within the range its field can hold.
  ghost predicate InRange(k: Kind, v: Value) {
    match k
    case KStr8 => v.Str? && |v.s| < Pow256(1)
    case KStr16 => v.Str? && |v.s| < Pow256(2)
    case KU32 => v.Num? && 0 <= v.n < M32
    case KI32 => v.Num? && IsI32(v.n)
    case KI64 => v.Num? && IsI64(v.n)
    case KTime => v.Time? && (v.t.Some? ==> IsI64(v.t.value) && v.t.value != ZERO_TIME)
    case KFlags => v.Flags?
    case KHash => v.Str? && |v.s| == 32
    case KStrs => v.Strs? && |v.ss| < M32 && forall i :: 0 <= i < |v.ss| ==> |v.ss[i]| < Pow256(2)
    case KBlob => v.Str? && |v.s| < M32
    case KExtents => v.Extents? && |v.es| < M32 && forall i :: 0 <= i < |v.es| ==> GoodExtent(v.es[i])
  }

  function FlagByte(v: Value): byte
    requires v.Flags?
  {
    (if v.a then 1 else 0) + (if v.b then 2 else 0) + (if v.c then 4 else 0) + (if v.d then 8 else 0)
  }

  function Write(k: Kind, v: Value): seq<byte> {
    match (k, v)
    case (KStr8, Str(s)) => WriteStr(s, 1)
    case (KStr16, Str(s)) => WriteStr(s, 2)
    case (KU32, Num(n)) => LE(n % M32, 4)
    case (KI32, Num(n)) => WriteI32(n)
    case (KI64, Num(n)) => WriteI64(n)
    case (KTime, Time(t)) => WriteTime(t)
    case (KFlags, Flags(_, _, _, _)) => [FlagByte(v)]
    case (KHash, Str(s)) => s
    case (KStrs, Strs(ss)) => WriteCount(|ss|) + WriteStrs(ss)
    case (KBlob, Str(s)) => WriteCount(|s|) + s
    case (KExtents, Extents(es)) => WriteCount(|es|) + WriteExtents(es)
    case _ => []
  }

  function Map<S, T>(r: Read<S>, f: S -> T): Read<T> {
    match r
    case Ok(x, rest) => Ok(f(x), rest)
    case Eof => Eof
    case Short => Short
  }

  function ReadField(k: Kind, s: seq<byte>): Read<Value> {
    match k
    case KStr8 => Map(ReadStr(s, 1), x => Str(x))
    case KStr16 => Map(ReadStr(s, 2), x => Str(x))
    case KU32 => Map(ReadLE(s, 4), x => Num(x))
    case KI32 => Map(ReadI32(s), x => Num(x))
    case KI64 => Map(ReadI64(s), x => Num(x))
    case KTime => Map(ReadTime(s), x => Time(x))
    case KFlags => Map(ReadLE(s, 1), x => Flags(x % 2 == 1, x / 2 % 2 == 1, x / 4 % 2 == 1, x / 8 % 2 == 1))
    case KHash => Map(Take(s, 32), x => Str(x))
    case KStrs =>
      (match ReadCount(s)
       case Ok(n, rest) => Map(ReadStrs(rest, n), x => Strs(x))
       case Eof => Eof
       case Short => Short)
    case KBlob =>
      (match ReadCount(s)
       case Ok(n, rest) => Map(Take(rest, n), x => Str(x))
       case Eof => Eof
       case Short => Short)
    case KExtents =>
      (match ReadCount(s)
       case Ok(n, rest) => Map(ReadExtents(rest, n), x => Extents(x))
       case Eof => Eof
       case Short => Short)
  }

  // Whatever follows it, a field in range reads back as it was written.
  lemma FieldBack(k: Kind, v: Value, rest: seq<byte>)
    requires InRange(k, v)
    ensures ReadField(k, Write(k, v) + rest) == Ok(v, rest)
  {
    hide WriteStr, ReadStr, LE, FromLE, Pow256, WriteI64, ReadI64, WriteI32, ReadI32, WriteTime, ReadTime, WriteCount,
         ReadCount, WriteStrs, ReadStrs, WriteExtents, ReadExtents, GoodExtent, IsI64, IsI32, Take, ReadLE;
    Widths();
    match k
    case KStr8 => StrBack(v.s, 1, rest);
    case KStr16 => StrBack(v.s, 2, rest);
    case KU32 => ReadLEFront(v.n % M32, 4, rest);
    case KI32 => I32Back(v.n, rest);
    case KI64 => I64Back(v.n, rest);
    case KTime => TimeBack(v.t, rest);
    case KFlags => FlagsBack(v, rest);
    case KHash => TakeFront(v.s, rest);
    case KStrs =>
      assert Write(k, v) + rest == WriteCount(|v.ss|) + (WriteStrs(v.ss) + rest);
      CountBack(|v.ss|, WriteStrs(v.ss) + rest);
      StrsBack(v.ss, rest);
    case KBlob =>
      assert Write(k, v) + rest == WriteCount(|v.s|) + (v.s + rest);
      CountBack(|v.s|, v.s + rest);
      TakeFront(v.s, rest);
    case KExtents =>
      assert Write(k, v) + rest == WriteCount(|v.es|) + (WriteExtents(v.es) + rest);
      CountBack(|v.es|, WriteExtents(v.es) + rest);
      ExtentsBack(v.es, rest);
  }

  lemma FlagsBack(v: Value, rest: seq<byte>)
    requires v.Flags?
    ensures ReadField(KFlags, [FlagByte(v)] + rest) == Ok(v, rest)
  {
    TakeFront([FlagByte(v)], rest);
    assert FromLE([FlagByte(v)]) == FlagByte(v);
  }

  // ---- Records ----

  ghost predicate RecordInRange(kinds: seq<Kind>, vs: seq<Value>) {
    |vs| == |kinds| && forall i :: 0 <= i < |vs| ==> InRange(kinds[i], vs[i])
  }

  function WriteRecord(kinds: seq<Kind>, vs: seq<Value>): seq<byte>
    requires |vs| == |kinds|
  {
    if kinds == [] then [] else Write(kinds[0], vs[0]) + WriteRecord(kinds[1..], vs[1..])
  }

  function ReadRecord(kinds: seq<Kind>, s: seq<byte>): Read<seq<Value>> {
    if kinds == [] then Ok([], s)
    else
      match ReadField(kinds[0], s)
      case Eof => Eof
      case Short => Short
      case Ok(v, rest) =>
        match ReadRecord(kinds[1..], rest)
        case Eof => Eof
        case Short => Short
        case Ok(vs, rest') => Ok([v] + vs, rest')
  }

  lemma {:induction false} RecordBack(kinds: seq<Kind>, vs: seq<Value>, rest: seq<byte>)
    requires RecordInRange(kinds, vs)
    ensures ReadRecord(kinds, WriteRecord(kinds, vs) + rest) == Ok(vs, rest)
  {
    hide Write, ReadField, InRange;
    if kinds == [] {
      assert WriteRecord(kinds, vs) + rest == rest;
    } else {
      var tail := WriteRecord(kinds[1..], vs[1..]);
      assert WriteRecord(kinds, vs) + rest == Write(kinds[0], vs[0]) + (tail + rest);
      FieldBack(kinds[0], vs[0], tail + rest);
      RecordBack(kinds[1..], vs[1..], rest);
      assert vs == [vs[0]] + vs[1..];
    }
  }

  // ---- Metadata and file entries ----

  // The fields of the metadata every reader knows, in the order they are written:
  // id, volume, type, mode, parent; time; sector and cluster size; six totals; two
  // ratios; duration; two more totals; source paths; the wrapped key.
  function CoreKinds(): seq<Kind> {
    [KStr8, KStr16, KStr8, KStr8, KStr8, KTime, KU32, KU32, KI64, KI64, KI64, KI64, KI64, KI64, KI64, KI64, KStr8, KI64,
     KI64, KStrs, KBlob]
  }

  // Core fields, content digest and what it covers, excluded paths and warnings.
  datatype Metadata = Metadata(core: seq<Value>, digest: seq<byte>, covers: seq<byte>, excluded: seq<seq<byte>>,
                               warnings: seq<seq<byte>>)

  ghost predicate MetadataInRange(m: Metadata) {
    && RecordInRange(CoreKinds(), m.core) && InRange(KStr8, Str(m.digest)) && InRange(KStr8, Str(m.covers))
    && InRange(KStrs, Strs(m.excluded)) && InRange(KStrs, Strs(m.warnings))
  }

  function EncodeMetadata(m: Metadata): seq<byte>
    requires |m.core| == |CoreKinds()|
  {
    WriteRecord(CoreKinds(), m.core) +
    (Write(KStr8, Str(m.digest)) + (Write(KStr8, Str(m.covers)) +
    (Write(KStrs, Strs(m.excluded)) + Write(KStrs, Strs(m.warnings)))))
  }

  // Older manifests end after the core fields, or after the digest and what it covers.
  function DecodeMetadata(s: seq<byte>): Option<Metadata> {
    match ReadRecord(CoreKinds(), s)
    case Eof => None
    case Short => None
    case Ok(core, r1) =>
      match ReadStr(r1, 1)
      case Eof => Some(Metadata(core, [], [], [], []))
      case Short => None
      case Ok(digest, r2) =>
        match ReadStr(r2, 1)
        case Eof => Some(Metadata(core, [], [], [], []))
        case Short => None
        case Ok(covers, r3) => DecodeExclusions(Metadata(core, digest, covers, [], []), r3)
  }

  function DecodeExclusions(m: Metadata, s: seq<byte>): Option<Metadata> {
    match ReadCount(s)
    case Eof => Some(m)
    case Short => None
    case Ok(n, rest) =>
      match ReadStrs(rest, n)
      case Eof => None
      case Short => None
      case Ok(excluded, r2) =>
        match ReadField(KStrs, r2)
        case Eof => None
        case Short => None
        case Ok(w, _) => if w.Strs? then Some(m.(excluded := excluded, warnings := w.ss)) else None
  }

  lemma MetadataBack(m: Metadata)
    requires MetadataInRange(m)
    ensures |m.core| == |CoreKinds()| && DecodeMetadata(EncodeMetadata(m)) == Some(m)
  {
    hide WriteRecord, ReadRecord, RecordInRange, CoreKinds, WriteStr, ReadStr, WriteStrs, ReadStrs, WriteCount,
         ReadCount, Pow256, ReadField;
    RecordLength(CoreKinds(), m.core);
    var w := Write(KStrs, Strs(m.warnings));
    var x := Write(KStrs, Strs(m.excluded));
    var c := Write(KStr8, Str(m.covers));
    var d := Write(KStr8, Str(m.digest));
    RecordBack(CoreKinds(), m.core, d + (c + (x + w)));
    StrBack(m.digest, 1, c + (x + w));
    StrBack(m.covers, 1, x + w);
    assert x + w == WriteCount(|m.excluded|) + (WriteStrs(m.excluded) + w);
    CountBack(|m.excluded|, WriteStrs(m.excluded) + w);
    StrsBack(m.excluded, w);
    FieldBack(KStrs, Strs(m.warnings), []);
    assert w + [] == w;
  }

  lemma RecordLength(kinds: seq<Kind>, vs: seq<Value>)
    requires RecordInRange(kinds, vs)
    ensures |vs| == |kinds|
  {
  }

  // A manifest written before the digest was introduced still reads.
  lemma OldMetadataReads(core: seq<Value>)
    requires RecordInRange(CoreKinds(), core)
    ensures |core| == |CoreKinds()|
    ensures DecodeMetadata(WriteRecord(CoreKinds(), core)) == Some(Metadata(core, [], [], [], []))
  {
    hide WriteRecord, ReadRecord, RecordInRange, CoreKinds;
    RecordLength(CoreKinds(), core);
    RecordBack(CoreKinds(), core, []);
    assert WriteRecord(CoreKinds(), core) + [] == WriteRecord(CoreKinds(), core);
  }

  // A file entry's fields: path, source index, size, mode, time, flags, link target,
  // place in the stream, content hash, the backup holding its data, extents.
  function FileKinds(): seq<Kind> {
    [KStr16, KI32, KI64, KU32, KTime, KFlags, KStr16, KI64, KI64, KHash, KStr8, KExtents]
  }

  datatype FileEntry = FileEntry(fields: seq<Value>, inline: seq<byte>)

  ghost predicate FileInRange(fe: FileEntry) {
    RecordInRange(FileKinds(), fe.fields) && InRange(KBlob, Str(fe.inline))
  }

  function EncodeFile(fe: FileEntry): seq<byte>
    requires |fe.fields| == |FileKinds()|
  {
    WriteRecord(FileKinds(), fe.fields) + Write(KBlob, Str(fe.inline))
  }

  // Inline data came later: where fewer than two bytes are left there is none.
  function DecodeFile(s: seq<byte>): Option<FileEntry> {
    match ReadRecord(FileKinds(), s)
    case Eof => None
    case Short => None
    case Ok(fields, rest) =>
      if |rest| < 2 then Some(FileEntry(fields, []))
      else
        match ReadField(KBlob, rest)
        case Eof => None
        case Short => None
        case Ok(b, _) => if b.Str? then Some(FileEntry(fields, b.s)) else None
  }

  lemma FileBack(fe: FileEntry)
    requires FileInRange(fe)
    ensures |fe.fields| == |FileKinds()| && DecodeFile(EncodeFile(fe)) == Some(fe)
  {
    hide WriteRecord, ReadRecord, RecordInRange, FileKinds, ReadField, WriteStr;
    RecordLength(FileKinds(), fe.fields);
    var b := Write(KBlob, Str(fe.inline));
    RecordBack(FileKinds(), fe.fields, b);
    FieldBack(KBlob, Str(fe.inline), []);
    assert b + [] == b;
  }

  // An entry written before inline data was introduced still reads, a stray byte behind
  // it or not.
  lemma OldFileReads(fields: seq<Value>, rest: seq<byte>)
    requires RecordInRange(FileKinds(), fields) && |rest| < 2
    ensures |fields| == |FileKinds()|
    ensures DecodeFile(WriteRecord(FileKinds(), fields) + rest) == Some(FileEntry(fields, []))
  {
    hide WriteRecord, ReadRecord, RecordInRange, FileKinds, ReadField;
    RecordLength(FileKinds(), fields);
    RecordBack(FileKinds(), fields, rest);
  }
}
