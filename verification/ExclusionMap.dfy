/** Byte ranges a backup leaves out (volume/reader.go). */
module ExclusionMaps {
  import opened Bytes
  import opened Readers
  import opened Sorting

  datatype Range = Range(start: int, end: int)

  // ---- The bytes a list of ranges covers ----

  ghost predicate In(r: Range, x: int) {
    r.start <= x < r.end
  }

  ghost predicate Covers(rs: seq<Range>, x: int) {
    exists i :: 0 <= i < |rs| && In(rs[i], x)
  }

  ghost predicate SameCover(rs: seq<Range>, ss: seq<Range>) {
    forall x :: Covers(rs, x) <==> Covers(ss, x)
  }

  ghost predicate Positive(rs: seq<Range>) {
    forall i :: 0 <= i < |rs| ==> rs[i].start < rs[i].end
  }

  // In order, with a gap between any two.
  ghost predicate Apart(rs: seq<Range>) {
    Positive(rs) && forall i, j :: 0 <= i < j < |rs| ==> rs[i].end < rs[j].start
  }

  lemma CoversOneMore(rs: seq<Range>, r: Range, x: int)
    ensures Covers(rs + [r], x) <==> Covers(rs, x) || In(r, x)
  {
    var rs' := rs + [r];
    assert rs'[|rs|] == r;
    if Covers(rs, x) {
      var i :| 0 <= i < |rs| && In(rs[i], x);
      assert In(rs'[i], x);
    }
    if In(r, x) {
      assert In(rs'[|rs|], x);
    }
  }

  lemma PermutedCover(rs: seq<Range>, ss: seq<Range>)
    requires multiset(rs) == multiset(ss)
    ensures SameCover(rs, ss) && (Positive(rs) ==> Positive(ss))
  {
    forall r ensures r in rs <==> r in ss {
      SameMembers(rs, ss, r);
    }
    forall x ensures Covers(rs, x) ==> Covers(ss, x) {
      if Covers(rs, x) {
        var i :| 0 <= i < |rs| && In(rs[i], x);
        assert rs[i] in ss;
      }
    }
    forall x ensures Covers(ss, x) ==> Covers(rs, x) {
      if Covers(ss, x) {
        var i :| 0 <= i < |ss| && In(ss[i], x);
        assert ss[i] in rs;
      }
    }
    if Positive(rs) {
      forall i | 0 <= i < |ss| ensures ss[i].start < ss[i].end {
        assert ss[i] in rs;
      }
    }
  }

  // ---- Coalescing ----

  predicate StartsFirst(a: Range, b: Range) {
    a.start <= b.start
  }

  // A range that touches the last one is absorbed by it.
  function Absorbed(rs: seq<Range>, r: Range): seq<Range> {
    if rs != [] && r.start <= rs[|rs| - 1].end then
      rs[|rs| - 1 := Range(rs[|rs| - 1].start, if r.end > rs[|rs| - 1].end then r.end else rs[|rs| - 1].end)]
    else rs + [r]
  }

  lemma AbsorbedApart(rs: seq<Range>, r: Range)
    requires Apart(rs) && r.start < r.end && (rs != [] ==> rs[|rs| - 1].start <= r.start)
    ensures Apart(Absorbed(rs, r)) && Absorbed(rs, r) != []
    ensures Absorbed(rs, r)[|Absorbed(rs, r)| - 1].start <= r.start
  {
  }

  lemma AbsorbedCover(rs: seq<Range>, r: Range, x: int)
    requires Positive(rs) && (rs != [] ==> rs[|rs| - 1].start <= r.start)
    ensures Covers(Absorbed(rs, r), x) <==> Covers(rs, x) || In(r, x)
  {
    if rs != [] && r.start <= rs[|rs| - 1].end {
      var front, last := rs[..|rs| - 1], rs[|rs| - 1];
      var new' := Absorbed(rs, r)[|rs| - 1];
      assert rs == front + [last] && Absorbed(rs, r) == front + [new'];
      CoversOneMore(front, last, x);
      CoversOneMore(front, new', x);
    } else {
      CoversOneMore(rs, r, x);
    }
  }

  // Coalesce sorted ranges within the array they are in.
  method Coalesce(a: array<Range>) returns (k: nat)
    requires SortedBy(StartsFirst, a[..]) && Positive(a[..])
    modifies a
    ensures k <= a.Length && Apart(a[..k]) && SameCover(a[..k], old(a[..]))
  {
    hide Apart, Covers, Positive;
    ghost var was := a[..];
    k := 0;
    var i := 0;
    NothingYet(a[..0], was[..0]);
    while i < a.Length
      invariant 0 <= k <= i <= a.Length
      invariant forall j :: i <= j < a.Length ==> a[j] == was[j]
      invariant Apart(a[..k]) && SameCover(a[..k], was[..i])
      invariant k > 0 ==> i > 0 && a[k - 1].start <= was[i - 1].start
    {
      var r := a[i];
      ghost var out := a[..k];
      assert out != [] ==> out[|out| - 1] == a[k - 1];
      OneMoreRange(was, out, i);
      if k > 0 && r.start <= a[k - 1].end {
        if r.end > a[k - 1].end {
          a[k - 1] := Range(a[k - 1].start, r.end);
        }
      } else {
        a[k] := r;
        k := k + 1;
      }
      assert a[..k] == Absorbed(out, r);
      i := i + 1;
    }
    assert was[..i] == was;
  }

  lemma NothingYet(rs: seq<Range>, ss: seq<Range>)
    requires rs == [] && ss == []
    ensures Apart(rs) && SameCover(rs, ss)
  {
  }

  lemma OneMoreRange(was: seq<Range>, out: seq<Range>, i: nat)
    requires i < |was| && SortedBy(StartsFirst, was) && Positive(was)
    requires Apart(out) && SameCover(out, was[..i])
    requires out != [] ==> i > 0 && out[|out| - 1].start <= was[i - 1].start
    ensures var out' := Absorbed(out, was[i]);
            && Apart(out') && SameCover(out', was[..i + 1])
            && out' != [] && out'[|out'| - 1].start <= was[i].start
  {
    hide Covers;
    assert out != [] ==> StartsFirst(was[i - 1], was[i]);
    AbsorbedApart(out, was[i]);
    assert was[..i + 1] == was[..i] + [was[i]];
    forall x ensures Covers(Absorbed(out, was[i]), x) <==> Covers(was[..i + 1], x) {
      AbsorbedCover(out, was[i], x);
      CoversOneMore(was[..i], was[i], x);
    }
  }

  // ---- Counting ----

  ghost function Span(lo: int, hi: int): set<int>
    decreases hi - lo
  {
    if lo >= hi then {} else Span(lo, hi - 1) + {hi - 1}
  }

  lemma {:induction false} SpanSize(lo: int, hi: int)
    requires lo <= hi
    ensures |Span(lo, hi)| == hi - lo && forall x :: x in Span(lo, hi) <==> lo <= x < hi
    decreases hi - lo
  {
    if lo < hi {
      SpanSize(lo, hi - 1);
    }
  }

  // The set of covered bytes.
  ghost function CoveredSet(rs: seq<Range>): set<int> {
    if rs == [] then {} else CoveredSet(rs[..|rs| - 1]) + Span(rs[|rs| - 1].start, rs[|rs| - 1].end)
  }

  lemma {:induction false} BytesAreCovered(rs: seq<Range>, x: int)
    requires Positive(rs)
    ensures x in CoveredSet(rs) <==> Covers(rs, x)
  {
    if rs != [] {
      SpanSize(rs[|rs| - 1].start, rs[|rs| - 1].end);
      BytesAreCovered(rs[..|rs| - 1], x);
      assert rs == rs[..|rs| - 1] + [rs[|rs| - 1]];
      CoversOneMore(rs[..|rs| - 1], rs[|rs| - 1], x);
    }
  }

  lemma SameBytes(rs: seq<Range>, ss: seq<Range>)
    requires SameCover(rs, ss) && Positive(rs) && Positive(ss)
    ensures CoveredSet(rs) == CoveredSet(ss)
  {
    forall x ensures x in CoveredSet(rs) <==> x in CoveredSet(ss) {
      BytesAreCovered(rs, x);
      BytesAreCovered(ss, x);
    }
  }

  // Separated ranges add up.
  lemma BytesOneMore(rs: seq<Range>, i: nat)
    requires Apart(rs) && i < |rs|
    ensures |CoveredSet(rs[..i + 1])| == |CoveredSet(rs[..i])| + rs[i].end - rs[i].start
  {
    assert rs[..i + 1][..i] == rs[..i];
    SpanSize(rs[i].start, rs[i].end);
    forall x | x in CoveredSet(rs[..i]) ensures x !in Span(rs[i].start, rs[i].end) {
      BytesAreCovered(rs[..i], x);
      var j :| 0 <= j < i && In(rs[..i][j], x);
      assert rs[j].end < rs[i].start;
    }
    assert CoveredSet(rs[..i]) !! Span(rs[i].start, rs[i].end);
  }

  // ---- Masking ----

  // data as it stands at offset at, with the covered bytes zeroed.
  ghost predicate Masks(rs: seq<Range>, at: int, data: seq<byte>, out: seq<byte>) {
    |out| == |data| && forall i :: 0 <= i < |data| ==> out[i] == if Covers(rs, at + i) then 0 else data[i]
  }

  class ExclusionMap {
    var ranges: seq<Range>
    var sorted: bool

    ghost predicate Valid()
      reads this
    {
      Positive(ranges) && (sorted ==> Apart(ranges))
    }

    constructor ()
      ensures Valid() && ranges == []
    {
      ranges, sorted := [], false;
    }

    method AddRange(start: int, length: int)
      requires Valid() && length > 0
      modifies this
      ensures Valid()
      ensures forall x :: Covers(ranges, x) <==> old(Covers(ranges, x)) || start <= x < start + length
    {
      forall x ensures Covers(ranges + [Range(start, start + length)], x) <==>
          Covers(ranges, x) || start <= x < start + length {
        CoversOneMore(ranges, Range(start, start + length), x);
      }
      ranges := ranges + [Range(start, start + length)];
      sorted := false;
    }

    method EnsureSorted()
      requires Valid()
      modifies this
      ensures Valid() && sorted && SameCover(ranges, old(ranges))
    {
      hide Covers;
      if sorted {
        return;
      }
      var a := Sort(ranges, StartsFirst);
      PermutedCover(ranges, a);
      var buf := new Range[|a|](i requires 0 <= i < |a| => a[i]);
      assert buf[..] == a;
      var k := Coalesce(buf);
      ranges, sorted := buf[..k], true;
    }

    method CoveredBytes() returns (n: nat)
      requires Valid()
      modifies this
      ensures Valid() && SameCover(ranges, old(ranges)) && n == |old(CoveredSet(ranges))|
    {
      hide Covers, CoveredSet, Apart;
      EnsureSorted();
      ghost var rs := ranges;
      SameBytes(rs, old(ranges));
      var total, i := 0, 0;
      NoBytes(ranges);
      while i < |ranges|
        invariant 0 <= i <= |ranges| && ranges == rs && sorted
        invariant total == |CoveredSet(ranges[..i])|
      {
        BytesOneMore(ranges, i);
        total := total + ranges[i].end - ranges[i].start;
        i := i + 1;
      }
      assert ranges[..i] == ranges;
      n := total;
    }

    // sort.Search: the first range that ends beyond offset.
    method FirstBeyond(offset: int) returns (i: nat)
      requires Valid() && sorted
      ensures i <= |ranges|
      ensures forall j :: 0 <= j < i ==> ranges[j].end <= offset
      ensures forall j :: i <= j < |ranges| ==> ranges[j].end > offset
    {
      var lo, hi := 0, |ranges|;
      while lo < hi
        invariant 0 <= lo <= hi <= |ranges|
        invariant forall j :: 0 <= j < lo ==> ranges[j].end <= offset
        invariant forall j :: hi <= j < |ranges| ==> ranges[j].end > offset
      {
        var mid := (lo + hi) / 2;
        if ranges[mid].end > offset {
          hi := mid;
        } else {
          lo := mid + 1;
        }
      }
      return lo;
    }

    method IsExcluded(offset: int, length: int) returns (r: bool)
      requires Valid()
      modifies this
      ensures Valid() && SameCover(ranges, old(ranges))
      ensures length > 0 ==> (r <==> exists x :: offset <= x < offset + length && old(Covers(ranges, x)))
      // An empty query asks whether the place before it and the place after are both excluded.
      ensures length == 0 ==> (r <==> old(Covers(ranges, offset - 1)) && old(Covers(ranges, offset)))
    {
      hide Covers;
      EnsureSorted();
      var end := offset + length;
      var i := FirstBeyond(offset);
      r := i < |ranges| && ranges[i].start < end;
      Queried(ranges, offset, end, i);
    }

    // Zero the excluded bytes of p, whose first byte stands at bufStart.
    method ZeroExcluded(p: array<byte>, n: nat, bufStart: int)
      requires Valid() && n <= p.Length
      modifies this, p
      ensures Valid() && SameCover(ranges, old(ranges))
      ensures Masks(old(ranges), bufStart, old(p[..n]), p[..n]) && p[n..] == old(p[n..])
    {
      hide Covers;
      if ranges == [] {
        NothingCovered(ranges);
        return;
      }
      EnsureSorted();
      ghost var was := p[..];
      var bufEnd := bufStart + n;
      var i := 0;
      NothingCovered(ranges[..0]);
      while i < |ranges| && ranges[i].start < bufEnd
        invariant 0 <= i <= |ranges| && Valid() && sorted && SameCover(ranges, old(ranges))
        invariant forall j :: 0 <= j < n ==> p[j] == if Covers(ranges[..i], bufStart + j) then 0 else was[j]
        invariant forall j :: n <= j < p.Length ==> p[j] == was[j]
      {
        var ex := ranges[i];
        assert ranges[..i + 1] == ranges[..i] + [ex];
        forall x ensures Covers(ranges[..i + 1], x) <==> Covers(ranges[..i], x) || In(ex, x) {
          CoversOneMore(ranges[..i], ex, x);
        }
        if ex.end > bufStart {
          var zeroStart := (if ex.start > bufStart then ex.start else bufStart) - bufStart;
          var zeroEnd := (if ex.end < bufEnd then ex.end else bufEnd) - bufStart;
          Clear(p, zeroStart, zeroEnd);
        }
        i := i + 1;
      }
      RestBeyond(ranges, i, bufEnd);
      assert p[..n] == p[..][..n];
    }
  }

  // A reader that zeroes the excluded bytes as they pass.
  class ExcludedReader {
    const inner: Reader
    const exclusions: ExclusionMap
    var offset: int

    ghost const stream: seq<byte> // all the inner reader has to give
    ghost const base: int // the offset its first byte stands at
    ghost const marked: seq<Range>

    ghost predicate Valid()
      reads this, inner, exclusions
    {
      && exclusions.Valid() && SameCover(exclusions.ranges, marked)
      && base <= offset <= base + |stream| && stream[offset - base..] == inner.rest
    }

    constructor (inner: Reader, exclusions: ExclusionMap, startOffset: int)
      requires exclusions.Valid()
      ensures Valid() && stream == inner.rest && base == offset == startOffset && marked == exclusions.ranges
      ensures this.inner == inner && this.exclusions == exclusions
    {
      this.inner, this.exclusions, offset := inner, exclusions, startOffset;
      stream, base, marked := inner.rest, startOffset, exclusions.ranges;
    }

    method Read(p: array<byte>) returns (n: nat, err: ReadErr)
      requires Valid()
      modifies this, inner, exclusions, p
      ensures Valid() && n <= p.Length && offset == old(offset) + n
      ensures Masks(marked, old(offset), stream[old(offset) - base..offset - base], p[..n])
    {
      hide Covers;
      ghost var rest := inner.rest;
      var data, e := inner.Read(p.Length);
      n, err := |data|, e;
      ghost var pos := offset - base;
      assert stream[pos..pos + n] == stream[pos..][..n] == data;
      assert stream[pos + n..] == stream[pos..][n..] == inner.rest;
      var k := 0;
      while k < n
        invariant 0 <= k <= n && exclusions.Valid() && SameCover(exclusions.ranges, marked)
        invariant offset == base + pos && inner.rest == stream[pos + n..]
        invariant forall j :: 0 <= j < k ==> p[j] == data[j]
      {
        p[k] := data[k];
        k := k + 1;
      }
      assert p[..n] == data;
      if n > 0 {
        exclusions.ZeroExcluded(p, n, offset);
      }
      offset := offset + n;
    }

    // Whatever pieces the stream is read in, the bytes are those of the masked stream.
    method ReadPieces(sizes: seq<nat>) returns (out: seq<byte>)
      requires Valid()
      modifies this, inner, exclusions
      ensures Valid() && |out| == offset - old(offset) >= 0
      ensures Masks(marked, old(offset), stream[old(offset) - base..offset - base], out)
    {
      hide Covers;
      out := [];
      var i := 0;
      while i < |sizes|
        invariant 0 <= i <= |sizes| && Valid() && old(offset) <= offset && |out| == offset - old(offset)
        invariant Masks(marked, old(offset), stream[old(offset) - base..offset - base], out)
      {
        var p := new byte[sizes[i]](_ => 0);
        ghost var at := offset;
        var n, _ := Read(p);
        MasksJoin(marked, old(offset), stream[old(offset) - base..at - base], out,
                  stream[at - base..offset - base], p[..n]);
        assert stream[old(offset) - base..at - base] + stream[at - base..offset - base] ==
               stream[old(offset) - base..offset - base];
        out := out + p[..n];
        i := i + 1;
      }
    }
  }

  lemma MasksJoin(rs: seq<Range>, at: int, a: seq<byte>, x: seq<byte>, b: seq<byte>, y: seq<byte>)
    requires Masks(rs, at, a, x) && Masks(rs, at + |a|, b, y)
    ensures Masks(rs, at, a + b, x + y)
  {
    hide Covers;
    forall i | 0 <= i < |a + b| ensures (x + y)[i] == if Covers(rs, at + i) then 0 else (a + b)[i] {
      if i >= |a| {
        assert (x + y)[i] == y[i - |a|];
      }
    }
  }

  method Clear(p: array<byte>, from: nat, to: nat)
    requires from <= to <= p.Length
    modifies p
    ensures forall j :: 0 <= j < p.Length ==> p[j] == if from <= j < to then 0 else old(p[j])
  {
    var k := from;
    while k < to
      invariant from <= k <= to
      invariant forall j :: 0 <= j < p.Length ==> p[j] == if from <= j < k then 0 else old(p[j])
    {
      p[k] := 0;
      k := k + 1;
    }
  }

  lemma NoBytes(rs: seq<Range>)
    ensures |CoveredSet(rs[..0])| == 0
  {
  }

  lemma NothingCovered(rs: seq<Range>)
    requires rs == []
    ensures forall x :: !Covers(rs, x)
  {
  }

  // The first range ending beyond offset decides whether the query meets any.
  lemma Queried(rs: seq<Range>, offset: int, end: int, i: nat)
    requires Apart(rs) && i <= |rs|
    requires forall j :: 0 <= j < i ==> rs[j].end <= offset
    requires forall j :: i <= j < |rs| ==> rs[j].end > offset
    ensures end > offset ==> ((i < |rs| && rs[i].start < end) <==> exists x :: offset <= x < end && Covers(rs, x))
    ensures end == offset ==>
              ((i < |rs| && rs[i].start < end) <==> Covers(rs, offset - 1) && Covers(rs, offset))
  {
    if i < |rs| && rs[i].start < end {
      var x := if rs[i].start > offset then rs[i].start else offset;
      assert In(rs[i], x) && Covers(rs, x);
      if end == offset {
        assert In(rs[i], offset - 1);
      }
    } else {
      forall j | i <= j < |rs| ensures rs[j].start >= end {
        assert i < j ==> rs[i].end < rs[j].start;
      }
      if end == offset {
        NotBothSides(rs, offset);
      }
    }
  }

  lemma NotBothSides(rs: seq<Range>, x: int)
    requires Apart(rs) && forall j :: 0 <= j < |rs| ==> rs[j].end <= x || rs[j].start >= x
    ensures !(Covers(rs, x - 1) && Covers(rs, x))
  {
    forall j, k | 0 <= j < |rs| && 0 <= k < |rs| && rs[j].end == x ensures rs[k].start != x {
      assert j < k ==> rs[j].end < rs[k].start;
    }
  }

  // Ranges from the first that starts at or after end lie wholly beyond it.
  lemma RestBeyond(rs: seq<Range>, i: nat, end: int)
    requires Apart(rs) && i <= |rs| && (i < |rs| ==> rs[i].start >= end)
    ensures forall x :: x < end ==> (Covers(rs, x) <==> Covers(rs[..i], x))
  {
    forall j | i <= j < |rs| ensures rs[j].start >= end {
      assert i < j ==> rs[i].end < rs[j].start;
    }
    forall x | x < end ensures Covers(rs, x) <==> Covers(rs[..i], x) {
      if Covers(rs, x) {
        var j :| 0 <= j < |rs| && In(rs[j], x);
        assert In(rs[..i][j], x);
      }
      if Covers(rs[..i], x) {
        var j :| 0 <= j < i && In(rs[..i][j], x);
        assert In(rs[j], x);
      }
    }
  }
}
