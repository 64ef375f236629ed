/** The files disk images are written to, and which parts of a write are worth
storing (diskimage/image.go). */
module ImageFiles {
  import opened Bytes

  // ---- Files ----

  // The byte at x; what lies beyond the end of a file reads as zero once it grows.
  function ByteAt(f: seq<byte>, x: nat): byte {
    if x < |f| then f[x] else 0
  }

  function Zeros(n: nat): seq<byte> {
    seq(n, _ => 0)
  }

  function Grown(f: seq<byte>, n: nat): (g: seq<byte>)
    ensures |g| >= n && |g| >= |f|
  {
    if n <= |f| then f else f + Zeros(n - |f|)
  }

  // WriteAt
  function Written(f: seq<byte>, off: nat, b: seq<byte>): seq<byte> {
    if b == [] then f else Splice(Grown(f, off + |b|), off, b)
  }

  // Truncate
  function Resized(f: seq<byte>, n: nat): (g: seq<byte>)
    ensures |g| == n
  {
    if n <= |f| then f[..n] else f + Zeros(n - |f|)
  }

  lemma WrittenBytes(f: seq<byte>, off: nat, b: seq<byte>)
    requires b != []
    ensures |Written(f, off, b)| == if off + |b| > |f| then off + |b| else |f|
    ensures forall x: nat :: ByteAt(Written(f, off, b), x) == if off <= x < off + |b| then b[x - off] else ByteAt(f, x)
  {
  }

  // n bytes from off on.
  function Piece(f: seq<byte>, off: nat, n: nat): (s: seq<byte>)
    ensures |s| == n
  {
    seq<byte>(n, i requires 0 <= i < n => ByteAt(f, off + i))
  }

  lemma PieceInside(f: seq<byte>, off: nat, n: nat)
    requires off + n <= |f|
    ensures Piece(f, off, n) == f[off..off + n]
  {
    forall i | 0 <= i < n ensures Piece(f, off, n)[i] == f[off..off + n][i] {
      assert Piece(f, off, n)[i] == ByteAt(f, off + i);
    }
  }

  lemma PieceOfPiece(f: seq<byte>, off: nat, n: nat, lo: nat, m: nat)
    requires lo + m <= n
    ensures Piece(f, off, n)[lo..lo + m] == Piece(f, off + lo, m)
  {
  }

  lemma PieceWritten(f: seq<byte>, off: nat, b: seq<byte>)
    ensures Piece(Written(f, off, b), off, |b|) == b
  {
    if b != [] {
      WrittenBytes(f, off, b);
    }
  }

  lemma PieceBeside(f: seq<byte>, off: nat, b: seq<byte>, at: nat, n: nat)
    requires at + n <= off || off + |b| <= at
    ensures Piece(Written(f, off, b), at, n) == Piece(f, at, n)
  {
    if b != [] {
      WrittenBytes(f, off, b);
    }
  }

  // ---- Which parts of a write hold data ----

  const BLOCK := 4096

  // p[start..end]
  datatype Run = Run(start: nat, end: nat)

  ghost predicate InRuns(runs: seq<Run>, x: int) {
    exists k :: 0 <= k < |runs| && runs[k].start <= x < runs[k].end
  }

  // In order and apart, inside p, and with nothing but zeros between them.
  ghost predicate CoversData(runs: seq<Run>, p: seq<byte>, upto: nat)
    requires upto <= |p|
  {
    && (forall k :: 0 <= k < |runs| ==> runs[k].start < runs[k].end <= upto)
    && (forall j, k :: 0 <= j < k < |runs| ==> runs[j].end <= runs[k].start)
    && (forall x :: 0 <= x < upto && p[x] != 0 ==> InRuns(runs, x))
  }

  predicate IsZero(p: seq<byte>) {
    forall i :: 0 <= i < |p| ==> p[i] == 0
  }

  method AllZero(p: seq<byte>) returns (r: bool)
    ensures r <==> IsZero(p)
  {
    var i := 0;
    while i < |p|
      invariant 0 <= i <= |p| && forall j :: 0 <= j < i ==> p[j] == 0
    {
      if p[i] != 0 {
        return false;
      }
      i := i + 1;
    }
    return true;
  }

  lemma SkipZeros(runs: seq<Run>, p: seq<byte>, i: nat, end: nat)
    requires i <= end <= |p| && CoversData(runs, p, i) && IsZero(p[i..end])
    ensures CoversData(runs, p, end)
  {
    forall x | i <= x < end ensures p[x] == 0 {
      assert p[x] == p[i..end][x - i];
    }
  }

  lemma TakeRun(runs: seq<Run>, p: seq<byte>, start: nat, end: nat)
    requires start < end <= |p| && CoversData(runs, p, start)
    ensures CoversData(runs + [Run(start, end)], p, end)
  {
    var runs' := runs + [Run(start, end)];
    forall x | 0 <= x < end && p[x] != 0 ensures InRuns(runs', x) {
      if x < start {
        var k :| 0 <= k < |runs| && runs[k].start <= x < runs[k].end;
        assert runs'[k] == runs[k];
      } else {
        assert runs'[|runs|] == Run(start, end);
      }
    }
  }

  // The page of the image byte x of p is on.
  function PageOf(base: nat, x: nat): nat {
    (base + x) / BLOCK
  }

  ghost predicate PageHasData(base: nat, p: seq<byte>, x: nat) {
    exists z :: 0 <= z < |p| && PageOf(base, z) == PageOf(base, x) && p[z] != 0
  }

  // Every page a run touches has data in it.
  ghost predicate Tight(base: nat, p: seq<byte>, runs: seq<Run>) {
    forall k, x: nat :: 0 <= k < |runs| && runs[k].start <= x < runs[k].end ==> PageHasData(base, p, x)
  }

  lemma PieceHasData(base: nat, p: seq<byte>, i: nat, end: nat, x: nat)
    requires i <= x < end <= |p| && !IsZero(p[i..end]) && end <= i + BLOCK - (base + i) % BLOCK
    ensures PageHasData(base, p, x)
  {
    var j :| 0 <= j < end - i && p[i..end][j] != 0;
    SamePage(base, i, end, i + j);
    SamePage(base, i, end, x);
    assert p[i + j] != 0;
  }

  lemma SamePage(base: nat, i: nat, end: nat, x: nat)
    requires i <= x < end <= i + BLOCK - (base + i) % BLOCK
    ensures PageOf(base, x) == PageOf(base, i)
  {
  }

  lemma NextPage(base: nat, i: nat, end: nat)
    requires end == i + BLOCK - (base + i) % BLOCK
    ensures (base + end) % BLOCK == 0
  {
  }

  // forEachDataRun: the runs it hands to its callback.
  method DataRuns(base: nat, p: seq<byte>) returns (runs: seq<Run>)
    ensures CoversData(runs, p, |p|) && Tight(base, p, runs)
  {
    hide CoversData, IsZero, PageHasData;
    runs := [];
    var i := 0;
    NoRuns(p);
    while i < |p|
      invariant 0 <= i <= |p| && CoversData(runs, p, i) && Tight(base, p, runs)
    {
      var end := i + BLOCK - (base + i) % BLOCK;
      NextPage(base, i, end);
      if end > |p| {
        end := |p|;
      }
      var zero := AllZero(p[i..end]);
      if zero {
        SkipZeros(runs, p, i, end);
        i := end;
      } else {
        var start := i;
        i := end;
        forall x: nat | start <= x < i
          ensures PageHasData(base, p, x)
        {
          PieceHasData(base, p, start, end, x);
        }
        while i < |p|
          invariant start < end <= i <= |p| && (i < |p| ==> (base + i) % BLOCK == 0)
          invariant forall x: nat :: start <= x < i ==> PageHasData(base, p, x)
        {
          var e := if i + BLOCK > |p| then |p| else i + BLOCK;
          zero := AllZero(p[i..e]);
          if zero {
            break;
          }
          forall x: nat | i <= x < e
            ensures PageHasData(base, p, x)
          {
            PieceHasData(base, p, i, e, x);
          }
          i := e;
        }
        TakeRun(runs, p, start, i);
        runs := runs + [Run(start, i)];
      }
    }
  }

  lemma NoRuns(p: seq<byte>)
    ensures CoversData([], p, 0)
  {
  }

  // An image allocates whole units of so many pages; the unit byte y of the disk is in.
  function UnitOf(pages: nat, y: nat): nat
    requires pages > 0
  {
    y / BLOCK / pages
  }

  // What a run may touch, and what a write may put data in.
  ghost predicate Touches(pages: nat, off: nat, len: nat, within: set<nat>)
    requires pages > 0
  {
    forall y :: off <= y < off + len ==> UnitOf(pages, y) in within
  }

  ghost predicate DataWithin(pages: nat, off: nat, p: seq<byte>, within: set<nat>)
    requires pages > 0
  {
    forall i :: 0 <= i < |p| && p[i] != 0 ==> UnitOf(pages, off + i) in within
  }

  // A run has data on every page, and a page lies in one unit.
  lemma RunWithin(pages: nat, off: nat, p: seq<byte>, runs: seq<Run>, k: nat, within: set<nat>)
    requires Tight(off, p, runs) && k < |runs| && runs[k].start <= runs[k].end
    requires pages > 0 && DataWithin(pages, off, p, within)
    ensures Touches(pages, off + runs[k].start, runs[k].end - runs[k].start, within)
  {
    hide PageHasData;
    forall y | off + runs[k].start <= y < off + runs[k].end
      ensures UnitOf(pages, y) in within
    {
      var z := PageData(off, p, y - off);
      assert UnitOf(pages, off + z) == UnitOf(pages, y);
    }
  }

  lemma PageData(base: nat, p: seq<byte>, x: nat) returns (z: nat)
    requires PageHasData(base, p, x)
    ensures z < |p| && PageOf(base, z) == PageOf(base, x) && p[z] != 0
  {
    z :| 0 <= z < |p| && PageOf(base, z) == PageOf(base, x) && p[z] != 0;
  }

  // The units that hold anything but zeros.
  ghost predicate UnitHasData(pages: nat, disk: seq<byte>, u: nat)
    requires pages > 0
  {
    exists y :: 0 <= y < |disk| && UnitOf(pages, y) == u && disk[y] != 0
  }

  ghost function DataUnits(pages: nat, disk: seq<byte>): set<nat>
    requires pages > 0
  {
    set u | 0 <= u < |disk| && UnitHasData(pages, disk, u)
  }

  lemma Fewer(a: set<nat>, b: set<nat>)
    ensures a <= b ==> |a| <= |b|
  {
    if a <= b {
      assert b == a + (b - a) && |b| == |a| + |b - a|;
    }
  }

  lemma UnitBelow(pages: nat, y: nat)
    requires pages > 0
    ensures UnitOf(pages, y) <= y
  {
  }

  // ---- What a sequence of writes leaves on a disk ----

  datatype Write = Write(off: nat, data: seq<byte>)

  ghost predicate InBounds(ws: seq<Write>, size: nat) {
    forall k :: 0 <= k < |ws| ==> ws[k].off + |ws[k].data| <= size
  }

  ghost predicate Apart(ws: seq<Write>) {
    forall j, k :: 0 <= j < k < |ws| ==>
      ws[j].off + |ws[j].data| <= ws[k].off || ws[k].off + |ws[k].data| <= ws[j].off
  }

  ghost function Contents(size: nat, ws: seq<Write>): (g: seq<byte>)
    requires InBounds(ws, size)
    ensures |g| == size
    decreases |ws|
  {
    if ws == [] then Zeros(size)
    else Splice(Contents(size, ws[..|ws| - 1]), ws[|ws| - 1].off, ws[|ws| - 1].data)
  }

  // Where nothing has been written yet there are zeros.
  lemma {:induction false} FreshIsZero(size: nat, ws: seq<Write>, x: nat)
    requires InBounds(ws, size) && x < size
    requires forall k :: 0 <= k < |ws| ==> !(ws[k].off <= x < ws[k].off + |ws[k].data|)
    ensures Contents(size, ws)[x] == 0
  {
    if ws != [] {
      FreshIsZero(size, ws[..|ws| - 1], x);
    }
  }

  // Each written byte is where it was written.
  lemma {:induction false} WrittenStays(size: nat, ws: seq<Write>, k: nat, i: nat)
    requires InBounds(ws, size) && Apart(ws) && k < |ws| && i < |ws[k].data|
    ensures Contents(size, ws)[ws[k].off + i] == ws[k].data[i]
  {
    if k < |ws| - 1 {
      WrittenStays(size, ws[..|ws| - 1], k, i);
      assert ws[k].off + |ws[k].data| <= ws[|ws| - 1].off || ws[|ws| - 1].off + |ws[|ws| - 1].data| <= ws[k].off;
    }
  }

  lemma NothingYet(size: nat, ws: seq<Write>)
    ensures Contents(size, ws[..0]) == Zeros(size)
  {
  }

  // A write apart from those before it finds zeros where it goes.
  lemma OneMoreWrite(size: nat, ws: seq<Write>, k: nat)
    requires InBounds(ws, size) && Apart(ws) && k < |ws| && InBounds(ws[..k], size)
    ensures InBounds(ws[..k + 1], size)
    ensures Contents(size, ws[..k + 1]) == Splice(Contents(size, ws[..k]), ws[k].off, ws[k].data)
    ensures IsZero(Contents(size, ws[..k])[ws[k].off..ws[k].off + |ws[k].data|])
  {
    hide Splice;
    assert ws[..k + 1][..k] == ws[..k];
    var g := Contents(size, ws[..k]);
    var part := g[ws[k].off..ws[k].off + |ws[k].data|];
    forall i | 0 <= i < |part| ensures part[i] == 0 {
      FreshIsZero(size, ws[..k], ws[k].off + i);
    }
  }

  // ---- Splicing piece by piece ----

  lemma SpliceByte(s: seq<byte>, off: nat, b: seq<byte>, y: nat)
    requires off + |b| <= |s| && y < |s|
    ensures Splice(s, off, b)[y] == if off <= y < off + |b| then b[y - off] else s[y]
  {
  }

  lemma NoSplice(s: seq<byte>, off: nat, p: seq<byte>)
    requires off + |p| <= |s|
    ensures Splice(s, off, p[..0]) == s
  {
  }

  lemma SpliceMore(s: seq<byte>, off: nat, p: seq<byte>, k: nat, n: nat)
    requires off + |p| <= |s| && k + n <= |p|
    ensures Splice(Splice(s, off, p[..k]), off + k, p[k..][..n]) == Splice(s, off, p[..k + n])
  {
    assert p[..k + n] == p[..k] + p[k..][..n];
  }

  // The runs so far are on the disk, and nothing else has changed.
  ghost predicate Laid(was: seq<byte>, now: seq<byte>, off: nat, p: seq<byte>, runs: seq<Run>) {
    && |now| == |was|
    && forall y :: 0 <= y < |was| ==>
         now[y] == if off <= y < off + |p| && InRuns(runs, y - off) then p[y - off] else was[y]
  }

  lemma NothingLaid(was: seq<byte>, off: nat, p: seq<byte>, runs: seq<Run>)
    ensures Laid(was, was, off, p, runs[..0])
  {
  }

  lemma RunInside(runs: seq<Run>, p: seq<byte>, k: nat)
    requires CoversData(runs, p, |p|) && k < |runs|
    ensures runs[k].start < runs[k].end <= |p|
  {
  }

  lemma LayRun(was: seq<byte>, now: seq<byte>, off: nat, p: seq<byte>, runs: seq<Run>, k: nat)
    requires off + |p| <= |was| && k < |runs| && runs[k].start < runs[k].end <= |p| && Laid(was, now, off, p, runs[..k])
    ensures var r := runs[k];
            Laid(was, Splice(now, off + r.start, p[r.start..r.end]), off, p, runs[..k + 1])
  {
    var r := runs[k];
    var b := p[r.start..r.end];
    var now' := Splice(now, off + r.start, b);
    forall y | 0 <= y < |was|
      ensures now'[y] == if off <= y < off + |p| && InRuns(runs[..k + 1], y - off) then p[y - off] else was[y]
    {
      SpliceByte(now, off + r.start, b, y);
      RunsMore(runs, k, y - off);
    }
  }

  lemma RunsMore(runs: seq<Run>, k: nat, x: int)
    requires k < |runs|
    ensures InRuns(runs[..k + 1], x) <==> InRuns(runs[..k], x) || runs[k].start <= x < runs[k].end
  {
    if InRuns(runs[..k], x) {
      var j :| 0 <= j < k && runs[..k][j].start <= x < runs[..k][j].end;
      assert runs[..k + 1][j] == runs[j];
    }
    if runs[k].start <= x < runs[k].end {
      assert runs[..k + 1][k] == runs[k];
    }
    if InRuns(runs[..k + 1], x) {
      var j :| 0 <= j < k + 1 && runs[..k + 1][j].start <= x < runs[..k + 1][j].end;
      assert j < k ==> runs[..k][j] == runs[j];
    }
  }

  lemma AllLaid(was: seq<byte>, now: seq<byte>, off: nat, p: seq<byte>, runs: seq<Run>)
    requires off + |p| <= |was| && CoversData(runs, p, |p|) && IsZero(was[off..off + |p|])
    requires Laid(was, now, off, p, runs)
    ensures now == Splice(was, off, p)
  {
    forall y | 0 <= y < |was| ensures now[y] == Splice(was, off, p)[y] {
      SpliceByte(was, off, p, y);
      if off <= y < off + |p| {
        assert was[off..off + |p|][y - off] == 0;
        assert p[y - off] != 0 ==> InRuns(runs, y - off);
      }
    }
  }

  // What one of the writes puts on the disk is still there at the end.
  lemma WriteHasUnits(pages: nat, size: nat, ws: seq<Write>, k: nat)
    requires pages > 0 && InBounds(ws, size) && Apart(ws) && k < |ws|
    ensures DataWithin(pages, ws[k].off, ws[k].data, DataUnits(pages, Contents(size, ws)))
  {
    hide Contents, UnitOf;
    var disk, w := Contents(size, ws), ws[k];
    forall i | 0 <= i < |w.data| && w.data[i] != 0
      ensures UnitOf(pages, w.off + i) in DataUnits(pages, disk)
    {
      WrittenStays(size, ws, k, i);
      UnitBelow(pages, w.off + i);
      assert UnitHasData(pages, disk, UnitOf(pages, w.off + i));
    }
  }
}
