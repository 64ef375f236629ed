/** Content-defined chunking (core/chunker): where a stream is cut depends only on
its bytes, not on how they are read, and soon not on what came before them. */
module Chunker {
  import opened Bytes
  import opened Buzhash
  import opened Readers

  datatype Params = Params(minSize: int, maxSize: int, mask: Word, table: byte -> Word)

  // More bits must be clear below the minimum size, fewer above it.
  function Hard(p: Params): Word {
    Or(Shl(p.mask, 2), p.mask)
  }

  function Easy(p: Params): Word {
    Shr(p.mask, 2)
  }

  // ---- Where a stream is cut ----

  // The last 48 bytes of the first i, zeros before the beginning.
  function Window(s: seq<byte>, i: nat): seq<byte>
    requires i <= |s|
  {
    (Zeros(WINDOW) + s[..i])[i..]
  }

  function HashAt(p: Params, s: seq<byte>, i: nat): Word
    requires i <= |s|
  {
    Direct(p.table, Window(s, i))
  }

  predicate EndsHere(p: Params, n: nat, hash: Word) {
    if n < p.minSize then And(hash, Hard(p)) == Zero()
    else if n < p.maxSize then And(hash, Easy(p)) == Zero()
    else true
  }

  // The end of the chunk from start, given that it does not end at or before i.
  function NextCut(p: Params, s: seq<byte>, start: nat, i: nat): (e: nat)
    requires start <= i <= |s|
    ensures i <= e <= |s| && (i < |s| ==> i < e)
    decreases |s| - i
  {
    if i == |s| then i
    else if EndsHere(p, i + 1 - start, HashAt(p, s, i + 1)) then i + 1
    else NextCut(p, s, start, i + 1)
  }

  lemma CutStep(p: Params, s: seq<byte>, start: nat, i: nat)
    requires start <= i <= |s|
    ensures i == |s| ==> NextCut(p, s, start, i) == i
    ensures i < |s| && EndsHere(p, i + 1 - start, HashAt(p, s, i + 1)) ==> NextCut(p, s, start, i) == i + 1
    ensures i < |s| && !EndsHere(p, i + 1 - start, HashAt(p, s, i + 1)) ==>
              NextCut(p, s, start, i) == NextCut(p, s, start, i + 1)
  {
    hide EndsHere, HashAt;
  }

  // Where a chunk of n bytes may end, in bits of the mask and of the hash there.
  ghost predicate MayEnd(p: Params, n: nat, hash: Word) {
    && (n < p.minSize ==> forall j :: 0 <= j < 64 && p.mask[j] ==> !hash[j] && (j + 2 < 64 ==> !hash[j + 2]))
    && (p.minSize <= n < p.maxSize ==> forall j :: 2 <= j < 64 && p.mask[j] ==> !hash[j - 2])
  }

  lemma EndsInBits(p: Params, n: nat, hash: Word)
    ensures EndsHere(p, n, hash) <==> MayEnd(p, n, hash)
  {
    var hard, easy := And(hash, Hard(p)), And(hash, Easy(p));
    if n < p.minSize {
      assert hard == Zero() <==> forall j :: 0 <= j < 64 ==> !hard[j];
      assert forall j :: 0 <= j < 64 ==> hard[j] == (hash[j] && ((j >= 2 && p.mask[j - 2]) || p.mask[j]));
      if MayEnd(p, n, hash) {
        forall j | 0 <= j < 64 ensures !hard[j] {
          assert j >= 2 ==> (p.mask[j - 2] ==> !hash[(j - 2) + 2]);
        }
      }
      if hard == Zero() {
        forall j | 0 <= j < 64 && p.mask[j] ensures !hash[j] && (j + 2 < 64 ==> !hash[j + 2]) {
          assert !hard[j] && (j + 2 < 64 ==> !hard[j + 2]);
        }
      }
    } else if n < p.maxSize {
      assert easy == Zero() <==> forall j :: 0 <= j < 64 ==> !easy[j];
      assert forall j :: 0 <= j < 64 ==> easy[j] == (hash[j] && j + 2 < 64 && p.mask[j + 2]);
      if MayEnd(p, n, hash) {
        forall j | 0 <= j < 64 ensures !easy[j] {
          assert j + 2 < 64 ==> (p.mask[j + 2] ==> !hash[(j + 2) - 2]);
        }
      }
      if easy == Zero() {
        forall j | 2 <= j < 64 && p.mask[j] ensures !hash[j - 2] {
          assert !easy[j - 2];
        }
      }
    }
  }

  // A chunk ends at the first place it may, or with the stream.
  lemma {:induction false} FirstPlace(p: Params, s: seq<byte>, start: nat, i: nat)
    requires start <= i <= |s|
    ensures var e := NextCut(p, s, start, i);
            && (i < e < |s| ==> MayEnd(p, e - start, HashAt(p, s, e)))
            && forall m :: i < m < e ==> !MayEnd(p, m - start, HashAt(p, s, m))
    decreases |s| - i
  {
    hide EndsHere, HashAt, MayEnd;
    if i < |s| {
      EndsInBits(p, i + 1 - start, HashAt(p, s, i + 1));
      FirstPlace(p, s, start, i + 1);
    }
  }

  // The bytes the hash is of: the last 48, or as many as there are behind zeros.
  lemma WindowIs(s: seq<byte>, i: nat)
    requires i <= |s|
    ensures Window(s, i) == if i >= WINDOW then s[i - WINDOW..i] else Zeros(WINDOW - i) + s[..i]
  {
  }

  function Chunks(p: Params, s: seq<byte>, start: nat): seq<seq<byte>>
    requires start <= |s|
    decreases |s| - start
  {
    if start == |s| then []
    else
      var e := NextCut(p, s, start, start);
      [s[start..e]] + Chunks(p, s, e)
  }

  function Concat(chunks: seq<seq<byte>>): seq<byte> {
    if chunks == [] then [] else chunks[0] + Concat(chunks[1..])
  }

  // Nothing is lost, repeated or reordered.
  lemma {:induction false} ChunksTile(p: Params, s: seq<byte>, start: nat)
    requires start <= |s|
    ensures Concat(Chunks(p, s, start)) == s[start..]
    decreases |s| - start
  {
    hide EndsHere, HashAt;
    if start < |s| {
      var e := NextCut(p, s, start, start);
      ChunksTile(p, s, e);
      assert s[start..] == s[start..e] + s[e..];
    }
  }

  // A chunk ends at the latest at the larger of the two sizes.
  function Longest(p: Params): nat {
    var m := if p.minSize < p.maxSize then p.maxSize else p.minSize;
    if m < 1 then 1 else m
  }

  lemma {:induction false} CutWithinLongest(p: Params, s: seq<byte>, start: nat, i: nat)
    requires start <= i <= |s| && i - start < Longest(p)
    ensures NextCut(p, s, start, i) - start <= Longest(p)
    decreases |s| - i
  {
    hide HashAt, And;
    if i < |s| && i + 1 - start < Longest(p) {
      CutWithinLongest(p, s, start, i + 1);
    }
  }

  lemma {:induction false} ChunkSizes(p: Params, s: seq<byte>, start: nat, k: nat)
    requires start <= |s| && k < |Chunks(p, s, start)|
    ensures 0 < |Chunks(p, s, start)[k]| <= Longest(p)
    decreases |s| - start
  {
    hide EndsHere, HashAt, Longest;
    CutWithinLongest(p, s, start, start) by {
      assert Longest(p) > 0 by {
        LongestPositive(p);
      }
    }
    if k > 0 {
      ChunkSizes(p, s, NextCut(p, s, start, start), k - 1);
    }
  }

  lemma LongestPositive(p: Params)
    ensures Longest(p) > 0
  {
  }

  // ---- Resynchronisation ----

  // 48 bytes into a common suffix the window no longer sees what came before it.
  lemma SameHash(p: Params, a: seq<byte>, b: seq<byte>, x: seq<byte>, i: nat)
    requires WINDOW <= i <= |x|
    ensures HashAt(p, a + x, |a| + i) == HashAt(p, b + x, |b| + i)
  {
    assert Window(a + x, |a| + i) == x[i - WINDOW..i] == Window(b + x, |b| + i);
  }

  lemma {:induction false} SameCut(p: Params, a: seq<byte>, b: seq<byte>, x: seq<byte>, k: nat, i: nat)
    requires WINDOW <= k <= i <= |x|
    ensures NextCut(p, a + x, |a| + k, |a| + i) - |a| == NextCut(p, b + x, |b| + k, |b| + i) - |b|
    decreases |x| - i
  {
    hide EndsHere, HashAt;
    if i < |x| {
      SameHash(p, a, b, x, i + 1);
      SameCut(p, a, b, x, k, i + 1);
    }
  }

  lemma {:induction false} SameChunks(p: Params, a: seq<byte>, b: seq<byte>, x: seq<byte>, k: nat)
    requires WINDOW <= k <= |x|
    ensures Chunks(p, a + x, |a| + k) == Chunks(p, b + x, |b| + k)
    decreases |x| - k
  {
    hide EndsHere, HashAt, NextCut;
    if k < |x| {
      SameCut(p, a, b, x, k, k);
      var e := NextCut(p, a + x, |a| + k, |a| + k) - |a|;
      assert (a + x)[|a| + k..|a| + e] == x[k..e] == (b + x)[|b| + k..|b| + e];
      SameChunks(p, a, b, x, e);
    }
  }

  // A chunk boundary reached from start.
  predicate IsCut(p: Params, s: seq<byte>, start: nat, c: nat)
    requires start <= |s|
    decreases |s| - start
  {
    c == start || (start < |s| && IsCut(p, s, NextCut(p, s, start, start), c))
  }

  // The boundaries are the ends of the first chunks, however many.
  lemma {:induction false} CutsExactly(p: Params, s: seq<byte>, start: nat, c: nat)
    requires start <= |s|
    ensures IsCut(p, s, start, c) <==>
            exists n :: 0 <= n <= |Chunks(p, s, start)| && c == start + |Concat(Chunks(p, s, start)[..n])|
    decreases |s| - start
  {
    hide EndsHere, HashAt;
    var chunks := Chunks(p, s, start);
    assert Concat(chunks[..0]) == [];
    if start < |s| {
      var e := NextCut(p, s, start, start);
      CutsExactly(p, s, e, c);
      var more := Chunks(p, s, e);
      assert chunks == [s[start..e]] + more;
      forall n | 0 <= n <= |more|
        ensures |Concat(chunks[..n + 1])| == e - start + |Concat(more[..n])|
      {
        assert chunks[..n + 1] == [s[start..e]] + more[..n];
        assert chunks[..n + 1][1..] == more[..n];
      }
      if n :| 0 <= n <= |chunks| && c == start + |Concat(chunks[..n])| {
        assert n > 0 ==> c == e + |Concat(more[..n - 1])|;
      }
      if IsCut(p, s, e, c) {
        var n :| 0 <= n <= |more| && c == e + |Concat(more[..n])|;
        assert c == start + |Concat(chunks[..n + 1])|;
      }
    }
  }

  lemma {:induction false} ChunksFromCut(p: Params, s: seq<byte>, start: nat, c: nat) returns (n: nat)
    requires start <= |s| && IsCut(p, s, start, c)
    ensures c <= |s| && n <= |Chunks(p, s, start)| && Chunks(p, s, start)[n..] == Chunks(p, s, c)
    decreases |s| - start
  {
    hide EndsHere, HashAt;
    if c == start {
      n := 0;
    } else {
      n := ChunksFromCut(p, s, NextCut(p, s, start, start), c);
      n := n + 1;
    }
  }

  // Two streams that end alike, cut at one place far enough into what they share,
  // are chunked alike from there on.
  lemma Resync(p: Params, a: seq<byte>, b: seq<byte>, x: seq<byte>, k: nat) returns (m: nat, n: nat)
    requires k >= WINDOW && IsCut(p, a + x, 0, |a| + k) && IsCut(p, b + x, 0, |b| + k)
    ensures k <= |x| && m <= |Chunks(p, a + x, 0)| && n <= |Chunks(p, b + x, 0)|
    ensures Chunks(p, a + x, 0)[m..] == Chunks(p, b + x, 0)[n..]
    ensures Concat(Chunks(p, a + x, 0)[m..]) == x[k..]
  {
    hide Chunks, IsCut;
    m := ChunksFromCut(p, a + x, 0, |a| + k);
    n := ChunksFromCut(p, b + x, 0, |b| + k);
    SameChunks(p, a, b, x, k);
    ChunksTile(p, a + x, |a| + k);
    assert (a + x)[|a| + k..] == x[k..];
  }

  // ---- Reading ----

  const READ_BUFFER := 64 * 1024
  const MAX_EMPTY_READS := 100

  // Oldest byte first.
  ghost function Ring(window: array<byte>, pos: nat): seq<byte>
    requires pos <= window.Length
    reads window
  {
    window[pos..] + window[..pos]
  }

  datatype Next = Chunk(data: seq<byte>, offset: nat) | End | Failed

  class Chunker {
    const p: Params
    const reader: Reader
    const window: array<byte>
    var buf: seq<byte>
    var offset: nat
    var windowPos: nat
    var hash: Word
    var readBuf: seq<byte>
    var readPos: nat
    var eof: bool
    var readErr: ReadErr

    ghost const stream: seq<byte> // all the reader had to give
    ghost const base: nat // the offset it began at
    ghost var failed: bool // a read error has been passed on

    ghost function Pos(): int
      reads this
    {
      offset - base
    }

    ghost predicate Reading()
      reads this, reader
    {
      && base <= offset && Pos() <= |stream| && readPos <= |readBuf| && !readErr.Eof?
      && (!failed ==> stream[Pos()..] == readBuf[readPos..] + reader.rest)
      && (eof && !failed ==> reader.rest == [])
      && (failed ==> eof && readPos == |readBuf|)
    }

    ghost predicate Hashing()
      requires base <= offset && Pos() <= |stream|
      reads this, window
    {
      && window.Length == WINDOW && windowPos < WINDOW
      && Ring(window, windowPos) == Window(stream, Pos())
      && hash == HashAt(p, stream, Pos())
    }

    ghost predicate Valid()
      reads this, reader, window
    {
      Reading() && Hashing()
    }

    constructor (p: Params, reader: Reader, offset: nat)
      ensures Valid() && !failed && stream == reader.rest && Pos() == 0 && this.p == p && this.reader == reader
      ensures fresh(window)
    {
      this.p, this.reader, stream, base := p, reader, reader.rest, offset;
      this.offset, windowPos, readBuf, readPos, buf, eof, readErr, failed := offset, 0, [], 0, [], false, NoErr, false;
      var zeros, h := new byte[WINDOW](_ => 0), Zero();
      h := ZeroWindowHash(p.table);
      window, hash := zeros, h;
      new;
      assert Ring(window, 0) == Zeros(WINDOW) == Window(stream, 0);
    }

    method ReadByte() returns (b: byte, err: ReadErr)
      requires Reading()
      modifies this`offset, this`readBuf, this`readPos, this`eof, this`readErr, this`failed, reader
      ensures Reading()
      ensures err.NoErr? ==> Pos() == old(Pos()) + 1 && b == stream[old(Pos())]
      ensures !err.NoErr? ==> Pos() == old(Pos())
      ensures err.Eof? && !failed ==> Pos() == |stream|
      ensures !err.Broken? ==> failed == old(failed)
      ensures old(failed) ==> err.Eof?
      // A read error is passed on once; after it the stream is at its end.
      ensures err.Broken? ==> readErr.NoErr? && (eof ==> failed)
    {
      var empty := 0;
      while readPos >= |readBuf|
        invariant Reading() && offset == old(offset) && 0 <= empty <= MAX_EMPTY_READS
        invariant failed == old(failed)
        decreases !eof && readErr.NoErr?, |readBuf| <= readPos, MAX_EMPTY_READS - empty
      {
        if eof {
          return 0, Eof;
        }
        if readErr.Broken? {
          readErr, eof, failed := NoErr, true, true;
          return 0, Broken;
        }
        var data, e := reader.Read(READ_BUFFER);
        if data != [] {
          readPos, readBuf := 0, data;
        }
        if e.Eof? {
          eof := true;
        } else if e.Broken? {
          readErr := Broken;
        } else if data == [] {
          empty := empty + 1;
          if empty >= MAX_EMPTY_READS {
            return 0, Broken;
          }
        }
      }
      DropFirst(stream, Pos(), readBuf, readPos, reader.rest);
      b := readBuf[readPos];
      readPos, offset := readPos + 1, offset + 1;
      return b, NoErr;
    }

    method UpdateHash(b: byte)
      requires base < offset && Pos() <= |stream| && b == stream[Pos() - 1]
      requires window.Length == WINDOW && windowPos < WINDOW
      requires Ring(window, windowPos) == Window(stream, Pos() - 1) && hash == HashAt(p, stream, Pos() - 1)
      modifies this`hash, this`windowPos, window
      ensures Hashing()
    {
      hide Direct, Rolled;
      ghost var was := Ring(window, windowPos);
      var outByte := window[windowPos];
      assert outByte == was[0];
      RollIsDirect(p.table, was, b);
      NextWindow(stream, Pos() - 1);
      window[windowPos] := b;
      windowPos := (windowPos + 1) % WINDOW;
      assert Ring(window, windowPos) == was[1..] + [b];
      hash := Rolled(p.table, hash, outByte, b);
    }

    method NextChunk() returns (r: Next)
      requires Valid()
      modifies this, window, reader
      ensures Valid()
      ensures r.Chunk? ==>
                && old(Pos()) < |stream| && Pos() == NextCut(p, stream, old(Pos()), old(Pos()))
                && r.data == stream[old(Pos())..Pos()] && r.offset == old(offset)
      ensures r.End? && !failed ==> old(Pos()) == |stream|
      ensures !r.Failed? ==> failed == old(failed)
    {
      hide EndsHere, HashAt, Ring, Window, NextCut;
      buf := [];
      var chunkStart := offset;
      ghost var start := Pos();
      while true
        invariant Valid() && start <= Pos() && buf == stream[start..Pos()]
        invariant NextCut(p, stream, start, start) == NextCut(p, stream, start, Pos())
        invariant failed == old(failed) && (failed ==> buf == [])
        decreases |stream| - Pos()
      {
        CutStep(p, stream, start, Pos());
        var b, err := ReadByte();
        if err.Eof? && buf != [] {
          return Chunk(buf, chunkStart);
        }
        if !err.NoErr? {
          return if err.Eof? then End else Failed;
        }
        assert stream[start..Pos()] == buf + [b];
        buf := buf + [b];
        var n := |buf|;
        UpdateHash(b);
        if EndsHere(p, n, hash) {
          return Chunk(buf, chunkStart);
        }
      }
    }
  }

  // Every chunk there is: the same however the reader delivers its bytes.
  method ReadAll(c: Chunker) returns (chunks: seq<seq<byte>>, ok: bool)
    requires c.Valid() && !c.failed
    modifies c, c.window, c.reader
    ensures ok ==> chunks == Chunks(c.p, c.stream, old(c.Pos()))
  {
    hide EndsHere, HashAt, NextCut;
    chunks := [];
    ghost var start := c.Pos();
    while true
      invariant c.Valid() && !c.failed
      invariant Chunks(c.p, c.stream, start) == chunks + Chunks(c.p, c.stream, c.Pos())
      decreases |c.stream| - c.Pos()
    {
      var r := c.NextChunk();
      match r {
        case End => return chunks, true;
        case Failed => return chunks, false;
        case Chunk(data, _) => chunks := chunks + [data];
      }
    }
  }

  lemma DropFirst(s: seq<byte>, i: nat, buf: seq<byte>, j: nat, rest: seq<byte>)
    requires i <= |s| && j < |buf| && s[i..] == buf[j..] + rest
    ensures i < |s| && s[i] == buf[j] && s[i + 1..] == buf[j + 1..] + rest
  {
    assert s[i] == s[i..][0] == buf[j..][0];
    assert s[i + 1..] == s[i..][1..] == (buf[j..] + rest)[1..] == buf[j..][1..] + rest;
  }

  lemma NextWindow(s: seq<byte>, i: nat)
    requires i < |s|
    ensures Window(s, i + 1) == Window(s, i)[1..] + [s[i]]
  {
    assert s[..i + 1] == s[..i] + [s[i]];
  }
}
