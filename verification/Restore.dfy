/** Restoring a whole backup in pack order, and one file by its place in the stream
(core/restore, core/manifest/entry_accessor.go). */
module Restore {
  import opened Bytes
  import opened Sorting
  import opened BackupModel

  datatype StreamEntry = StreamEntry(off: nat, len: nat, hash: Hash, excluded: bool)

  function End(e: StreamEntry): nat {
    e.off + e.len
  }

  // Where entry i begins; the end of the stream for i = |es|.
  function Place(es: seq<StreamEntry>, i: nat): nat
    requires i <= |es|
  {
    if i == 0 then 0 else End(es[i - 1])
  }

  // Entry i begins where the one before it ends.
  ghost predicate Joined(es: seq<StreamEntry>, i: nat)
    requires i < |es|
  {
    es[i].len > 0 && es[i].off == Place(es, i)
  }

  // The entries follow one another from 0 to total.
  ghost predicate Tiled(es: seq<StreamEntry>, total: nat) {
    Place(es, |es|) == total && forall i :: 0 <= i < |es| ==> Joined(es, i)
  }

  lemma {:induction false} Order(es: seq<StreamEntry>, total: nat, i: nat, j: nat)
    requires Tiled(es, total) && i <= j <= |es|
    ensures Place(es, i) <= Place(es, j)
    ensures i < j ==> es[i].off == Place(es, i) && es[i].len > 0 && End(es[i]) == Place(es, i + 1) <= Place(es, j)
  {
    if i < j {
      Order(es, total, i, j - 1);
      assert Joined(es, j - 1) && Joined(es, i);
    }
  }

  lemma TiledOrder(es: seq<StreamEntry>, total: nat, i: nat, j: nat)
    requires Tiled(es, total) && i <= j <= |es|
    ensures Place(es, i) <= Place(es, j) <= total
    ensures i < j ==> es[i].off == Place(es, i) < Place(es, j) && End(es[i]) == Place(es, i + 1) <= Place(es, j)
    ensures j < |es| ==> es[j].off == Place(es, j) && End(es[j]) == Place(es, j + 1) <= total
  {
    hide Tiled, Place;
    Order(es, total, i, j);
    Order(es, total, j, |es|);
    TotalPlace(es, total);
  }

  lemma TotalPlace(es: seq<StreamEntry>, total: nat)
    requires Tiled(es, total)
    ensures Place(es, |es|) == total
  {
  }

  // ---- The target ----

  function Resized(d: Data, n: nat): Data {
    if n <= |d| then d[..n] else d + seq(n - |d|, _ => 0)
  }

  function Written(d: Data, off: nat, bytes: Data): Data {
    var d' := if off + |bytes| > |d| then Resized(d, off + |bytes|) else d;
    d'[..off] + bytes + d'[off + |bytes|..]
  }

  class Target {
    var data: Data

    constructor (data: Data)
      ensures this.data == data
    {
      this.data := data;
    }

    method Truncate(n: nat)
      modifies this
      ensures data == Resized(old(data), n)
    {
      data := Resized(data, n);
    }

    method WriteAt(bytes: Data, off: nat)
      modifies this
      ensures data == Written(old(data), off, bytes)
    {
      data := Written(data, off, bytes);
    }
  }

  // ---- Restoring everything ----

  datatype Repo = Repo(index: map<Hash, Loc>, packs: Packs, H: Data -> Hash)

  // The entry's region of d holds what the entry stands for.
  ghost predicate Good(H: Data -> Hash, e: StreamEntry, d: Data) {
    && End(e) <= |d|
    && if e.excluded then forall k :: e.off <= k < End(e) ==> d[k] == 0 else H(d[e.off..End(e)]) == e.hash
  }

  // The entry's chunk can be read and checks out.
  predicate Resolvable(r: Repo, e: StreamEntry) {
    && e.hash in r.index && InPacks(r.packs, r.index[e.hash])
    && r.H(FrameAt(r.packs, r.index[e.hash])) == e.hash && |FrameAt(r.packs, r.index[e.hash])| == e.len
  }

  datatype Ref = Ref(idx: nat, loc: Loc)

  predicate PackMajor(a: Ref, b: Ref) {
    if a.loc.pack != b.loc.pack then a.loc.pack < b.loc.pack else a.loc.pos <= b.loc.pos
  }

  // refs names exactly the first n entries that have chunks, with their places.
  ghost predicate RefsOf(r: Repo, es: seq<StreamEntry>, n: nat, refs: seq<Ref>)
    requires n <= |es|
  {
    && (forall k :: 0 <= k < |refs| ==>
          && refs[k].idx < n && !es[refs[k].idx].excluded
          && es[refs[k].idx].hash in r.index && r.index[es[refs[k].idx].hash] == refs[k].loc)
    && (forall i :: 0 <= i < n && !es[i].excluded ==> exists k :: 0 <= k < |refs| && refs[k].idx == i)
  }

  ghost predicate ExcludedDone(H: Data -> Hash, es: seq<StreamEntry>, n: nat, d: Data)
    requires n <= |es|
  {
    forall i :: 0 <= i < n && es[i].excluded ==> Good(H, es[i], d)
  }

  ghost predicate RefsDone(H: Data -> Hash, es: seq<StreamEntry>, refs: seq<Ref>, n: nat, d: Data)
    requires n <= |refs|
  {
    forall k :: 0 <= k < n && refs[k].idx < |es| ==> Good(H, es[refs[k].idx], d)
  }

  // Writing a region inside d changes nothing outside it.
  lemma WrittenInside(d: Data, off: nat, bytes: Data)
    requires off + |bytes| <= |d|
    ensures var d' := Written(d, off, bytes);
            && |d'| == |d| && d'[off..off + |bytes|] == bytes
            && forall k :: 0 <= k < |d| && !(off <= k < off + |bytes|) ==> d'[k] == d[k]
  {
  }

  lemma GoodElsewhere(H: Data -> Hash, e: StreamEntry, d: Data, d': Data)
    requires Good(H, e, d) && |d'| == |d| && forall k :: e.off <= k < End(e) ==> d'[k] == d[k]
    ensures Good(H, e, d')
  {
    assert d'[e.off..End(e)] == d[e.off..End(e)];
  }

  // Writing one entry's region leaves all the others as they were.
  lemma WriteKeeps(H: Data -> Hash, es: seq<StreamEntry>, total: nat, d: Data, i: nat, bytes: Data)
    requires Tiled(es, total) && |d| == total && i < |es| && |bytes| == es[i].len
    requires if es[i].excluded then forall k :: 0 <= k < |bytes| ==> bytes[k] == 0 else H(bytes) == es[i].hash
    ensures |Written(d, es[i].off, bytes)| == total && Good(H, es[i], Written(d, es[i].off, bytes))
    ensures forall k :: 0 <= k < |es| && Good(H, es[k], d) ==> Good(H, es[k], Written(d, es[i].off, bytes))
  {
    hide Tiled, Place, Written;
    var e, d' := es[i], Written(d, es[i].off, bytes);
    TiledOrder(es, total, i, i);
    WrittenInside(d, e.off, bytes);
    assert Good(H, e, d') by {
      forall k | e.off <= k < End(e) ensures d'[k] == bytes[k - e.off] {
        assert d'[k] == d'[e.off..e.off + |bytes|][k - e.off];
      }
    }
    forall k | 0 <= k < |es| && Good(H, es[k], d) ensures Good(H, es[k], d') {
      if k != i {
        TiledOrder(es, total, if k < i then k else i, if k < i then i else k);
        TiledOrder(es, total, k, k);
        GoodElsewhere(H, es[k], d, d');
      }
    }
  }

  const ENTRY_BATCH := 65536

  // Pass 1: zero the excluded regions and look up where the chunks are.
  method Collect(r: Repo, es: seq<StreamEntry>, ghost total: nat, target: Target) returns (ok: bool, refs: seq<Ref>)
    requires Tiled(es, total) ==> |target.data| == total
    modifies target
    ensures ok ==> RefsOf(r, es, |es|, refs)
    ensures ok && Tiled(es, total) ==> |target.data| == total && ExcludedDone(r.H, es, |es|, target.data)
    ensures !ok ==> exists i :: 0 <= i < |es| && !es[i].excluded && es[i].hash !in r.index
  {
    refs := [];
    var lo := 0;
    while lo < |es|
      invariant 0 <= lo <= |es| && RefsOf(r, es, lo, refs)
      invariant Tiled(es, total) ==> |target.data| == total && ExcludedDone(r.H, es, lo, target.data)
    {
      var hi := if lo + ENTRY_BATCH > |es| then |es| else lo + ENTRY_BATCH;
      ok, refs := CollectBatch(r, es, lo, hi, refs, total, target);
      if !ok {
        return;
      }
      lo := hi;
    }
    ok := true;
  }

  method CollectBatch(r: Repo, es: seq<StreamEntry>, lo: nat, hi: nat, refs0: seq<Ref>, ghost total: nat,
                      target: Target)
    returns (ok: bool, refs: seq<Ref>)
    requires lo <= hi <= |es| && RefsOf(r, es, lo, refs0)
    requires Tiled(es, total) ==> |target.data| == total && ExcludedDone(r.H, es, lo, target.data)
    modifies target
    ensures ok ==> RefsOf(r, es, hi, refs)
    ensures ok && Tiled(es, total) ==> |target.data| == total && ExcludedDone(r.H, es, hi, target.data)
    ensures !ok ==> exists i :: 0 <= i < |es| && !es[i].excluded && es[i].hash !in r.index
  {
    hide Good, Written, Tiled;
    refs := refs0;
    var i := lo;
    while i < hi
      invariant lo <= i <= hi && RefsOf(r, es, i, refs)
      invariant Tiled(es, total) ==> |target.data| == total && ExcludedDone(r.H, es, i, target.data)
    {
      var e := es[i];
      if e.excluded {
        var zeros := seq(e.len, _ => 0);
        if Tiled(es, total) {
          WriteKeeps(r.H, es, total, target.data, i, zeros);
        }
        target.WriteAt(zeros, e.off);
      } else {
        if e.hash !in r.index {
          return false, refs;
        }
        RefOneMore(r, es, i, refs);
        refs := refs + [Ref(i, r.index[e.hash])];
      }
      i := i + 1;
    }
    ok := true;
  }

  lemma RefOneMore(r: Repo, es: seq<StreamEntry>, i: nat, refs: seq<Ref>)
    requires i < |es| && RefsOf(r, es, i, refs) && !es[i].excluded && es[i].hash in r.index
    ensures RefsOf(r, es, i + 1, refs + [Ref(i, r.index[es[i].hash])])
  {
    var refs' := refs + [Ref(i, r.index[es[i].hash])];
    assert refs'[|refs|].idx == i;
    forall j | 0 <= j < i && !es[j].excluded ensures exists k :: 0 <= k < |refs'| && refs'[k].idx == j {
      var k :| 0 <= k < |refs| && refs[k].idx == j;
      assert refs'[k].idx == j;
    }
  }

  lemma SortedRefs(r: Repo, es: seq<StreamEntry>, refs: seq<Ref>, sorted: seq<Ref>)
    requires RefsOf(r, es, |es|, refs) && multiset(sorted) == multiset(refs)
    ensures RefsOf(r, es, |es|, sorted)
  {
    forall x ensures x in sorted <==> x in refs {
      SameMembers(sorted, refs, x);
    }
    forall k | 0 <= k < |sorted|
      ensures sorted[k].idx < |es| && !es[sorted[k].idx].excluded
      ensures es[sorted[k].idx].hash in r.index && r.index[es[sorted[k].idx].hash] == sorted[k].loc
    {
      assert sorted[k] in refs;
    }
    forall i | 0 <= i < |es| && !es[i].excluded ensures exists k :: 0 <= k < |sorted| && sorted[k].idx == i {
      var k :| 0 <= k < |refs| && refs[k].idx == i;
      assert refs[k] in sorted;
    }
  }

  // Pass 2: read and write the chunks, pack by pack.
  method WriteChunks(r: Repo, es: seq<StreamEntry>, refs: seq<Ref>, ghost total: nat, target: Target) returns (ok: bool)
    requires RefsOf(r, es, |es|, refs)
    requires Tiled(es, total) ==> |target.data| == total && ExcludedDone(r.H, es, |es|, target.data)
    modifies target
    ensures ok && Tiled(es, total) ==>
              && |target.data| == total && ExcludedDone(r.H, es, |es|, target.data)
              && RefsDone(r.H, es, refs, |refs|, target.data)
    ensures !ok ==> exists i :: 0 <= i < |es| && !es[i].excluded && !Resolvable(r, es[i])
  {
    hide Good, Written, Tiled;
    var n := 0;
    while n < |refs|
      invariant 0 <= n <= |refs|
      invariant Tiled(es, total) ==>
                  && |target.data| == total && ExcludedDone(r.H, es, |es|, target.data)
                  && RefsDone(r.H, es, refs, n, target.data)
    {
      var ref := refs[n];
      var e := es[ref.idx];
      assert !Resolvable(r, e) ==> exists i :: 0 <= i < |es| && !es[i].excluded && !Resolvable(r, es[i]);
      if !InPacks(r.packs, ref.loc) {
        return false;
      }
      var data := FrameAt(r.packs, ref.loc);
      if r.H(data) != e.hash || |data| != e.len {
        return false;
      }
      if Tiled(es, total) {
        WriteKeeps(r.H, es, total, target.data, ref.idx, data);
      }
      target.WriteAt(data, e.off);
      n := n + 1;
    }
    ok := true;
  }

  method RestoreEntries(r: Repo, es: seq<StreamEntry>, total: nat, target: Target) returns (ok: bool)
    modifies target
    // A restore that reports success has put every entry's bytes in place.
    ensures ok && Tiled(es, total) ==>
              |target.data| == total && forall i :: 0 <= i < |es| ==> Good(r.H, es[i], target.data)
    // It fails only if entries are missing or a chunk cannot be read back.
    ensures ok || (es == [] && total > 0) || exists i :: 0 <= i < |es| && !es[i].excluded && !Resolvable(r, es[i])
    ensures es == [] && total > 0 ==> !ok && target.data == old(target.data)
  {
    hide Good, Written, Tiled;
    if es == [] && total > 0 {
      return false;
    }
    target.Truncate(total);
    var refs;
    ok, refs := Collect(r, es, total, target);
    if !ok {
      return;
    }
    MajorOrder();
    var sorted := Sort(refs, PackMajor);
    SortedRefs(r, es, refs, sorted);
    ok := WriteChunks(r, es, sorted, total, target);
  }

  lemma MajorOrder()
    ensures TotalPreorder(PackMajor)
  {
  }

  // The entries describe src.
  ghost predicate Describes(H: Data -> Hash, es: seq<StreamEntry>, src: Data) {
    && Tiled(es, |src|)
    && forall i :: 0 <= i < |es| ==> Good(H, es[i], src)
  }

  // Good regions that tile the stream leave no room for anything but the source.
  lemma RestoredIsSource(H: Data -> Hash, es: seq<StreamEntry>, src: Data, d: Data)
    requires (forall a, b :: H(a) == H(b) ==> a == b) && Describes(H, es, src)
    requires |d| == |src| && forall i :: 0 <= i < |es| ==> Good(H, es[i], d)
    ensures d == src
  {
    hide Good;
    SamePrefix(H, es, src, d, |es|);
    TotalPlace(es, |src|);
  }

  lemma {:induction false} SamePrefix(H: Data -> Hash, es: seq<StreamEntry>, src: Data, d: Data, n: nat)
    requires (forall a, b :: H(a) == H(b) ==> a == b) && Describes(H, es, src) && n <= |es|
    requires |d| == |src| && forall i :: 0 <= i < |es| ==> Good(H, es[i], d)
    ensures Place(es, n) <= |src| && d[..Place(es, n)] == src[..Place(es, n)]
  {
    hide Tiled, Good;
    TiledOrder(es, |src|, n, n);
    if n > 0 {
      SamePrefix(H, es, src, d, n - 1);
      TiledOrder(es, |src|, n - 1, n);
      SameRegion(H, es[n - 1], src, d);
      var e := es[n - 1];
      assert d[..End(e)] == d[..e.off] + d[e.off..End(e)];
      assert src[..End(e)] == src[..e.off] + src[e.off..End(e)];
    }
  }

  lemma SameRegion(H: Data -> Hash, e: StreamEntry, src: Data, d: Data)
    requires (forall a, b :: H(a) == H(b) ==> a == b) && Good(H, e, src) && Good(H, e, d)
    ensures End(e) <= |src| && End(e) <= |d| && d[e.off..End(e)] == src[e.off..End(e)]
  {
  }

  // ---- Restoring one file ----

  // The first entry that reaches beyond target.
  method SearchEntries(es: seq<StreamEntry>, ghost total: nat, target: int) returns (i: nat)
    requires Tiled(es, total)
    ensures i <= |es| && (forall j :: 0 <= j < i ==> End(es[j]) <= target) && (i < |es| ==> End(es[i]) > target)
  {
    hide Tiled, Place;
    var lo, hi := 0, |es|;
    while lo < hi
      invariant 0 <= lo <= hi <= |es|
      invariant lo > 0 ==> End(es[lo - 1]) <= target
      invariant hi < |es| ==> End(es[hi]) > target
    {
      var mid := (lo + hi) / 2;
      if es[mid].off + es[mid].len <= target {
        lo := mid + 1;
      } else {
        hi := mid;
      }
    }
    forall j | 0 <= j < lo ensures End(es[j]) <= target {
      TiledOrder(es, total, j, lo);
      TiledOrder(es, total, lo - 1, lo - 1);
      TiledOrder(es, total, j + 1, lo);
    }
    return lo;
  }

  // The first entry that begins at or after target.
  method SearchEntriesEnd(es: seq<StreamEntry>, ghost total: nat, target: int) returns (i: nat)
    requires Tiled(es, total)
    ensures i <= |es| && (forall j :: 0 <= j < i ==> es[j].off < target) && (i < |es| ==> es[i].off >= target)
  {
    hide Tiled, Place;
    var lo, hi := 0, |es|;
    while lo < hi
      invariant 0 <= lo <= hi <= |es|
      invariant lo > 0 ==> es[lo - 1].off < target
      invariant hi < |es| ==> es[hi].off >= target
    {
      var mid := (lo + hi) / 2;
      if es[mid].off < target {
        lo := mid + 1;
      } else {
        hi := mid;
      }
    }
    forall j | 0 <= j < lo ensures es[j].off < target {
      TiledOrder(es, total, j, lo - 1);
    }
    return lo;
  }

  datatype FileResult = Ok(bytes: Data) | Err

  function Min(a: nat, b: nat): nat {
    if a < b then a else b
  }

  // What of src the chunks up to entry i contribute to [start, end).
  ghost function Part(src: Data, es: seq<StreamEntry>, start: nat, end: nat, i: nat): Data
    requires i <= |es| && start <= end
  {
    var upto := Min(Min(end, Place(es, i)), |src|);
    if upto <= start then [] else src[start..upto]
  }

  lemma PartGrows(H: Data -> Hash, es: seq<StreamEntry>, src: Data, start: nat, end: nat, i: nat)
    requires Describes(H, es, src) && i < |es| && start < end && End(es[i]) > start && es[i].off < end
    ensures var e := es[i];
            var from := if e.off < start then start - e.off else 0;
            var to := if End(e) > end then e.len - (End(e) - end) else e.len;
            && from <= to <= e.len && End(e) <= |src|
            && Part(src, es, start, end, i + 1) == Part(src, es, start, end, i) + src[e.off..End(e)][from..to]
  {
    hide Good, Tiled, Place;
    TiledOrder(es, |src|, i, i);
    SliceGrows(src, start, end, es[i].off, End(es[i]));
  }

  lemma SliceGrows(src: Data, start: nat, end: nat, lo: nat, hi: nat)
    requires lo <= hi <= |src| && start < end && start < hi && lo < end
    ensures var from := if lo < start then start - lo else 0;
            var to := if hi > end then hi - lo - (hi - end) else hi - lo;
            && from <= to <= hi - lo
            && src[start..Min(end, hi)] == (if lo <= start then [] else src[start..lo]) + src[lo..hi][from..to]
  {
    SubRange(src, lo, hi, if lo < start then start - lo else 0, if hi > end then hi - lo - (hi - end) else hi - lo);
    if lo > start {
      JoinRanges(src, start, lo, Min(end, hi));
    }
  }

  lemma SubRange(src: Data, lo: nat, hi: nat, from: nat, to: nat)
    requires lo <= hi <= |src| && from <= to <= hi - lo
    ensures src[lo..hi][from..to] == src[lo + from..lo + to]
  {
    forall i | 0 <= i < to - from
      ensures src[lo..hi][from..to][i] == src[lo + from..lo + to][i]
    {
    }
  }

  lemma JoinRanges(src: Data, a: nat, b: nat, c: nat)
    requires a <= b <= c <= |src|
    ensures src[a..b] + src[b..c] == src[a..c]
  {
  }

  lemma SearchedRange(es: seq<StreamEntry>, src: Data, start: nat, end: nat, startIdx: nat, endIdx: nat)
    requires Tiled(es, |src|) && start < end && startIdx <= |es| && endIdx <= |es|
    requires forall j :: 0 <= j < startIdx ==> End(es[j]) <= start
    requires endIdx < |es| ==> es[endIdx].off >= end
    ensures startIdx <= endIdx && Part(src, es, start, end, startIdx) == []
  {
  }

  lemma WholePart(es: seq<StreamEntry>, src: Data, start: nat, end: nat, endIdx: nat)
    requires Tiled(es, |src|) && start < end && endIdx <= |es| && (endIdx < |es| ==> es[endIdx].off >= end)
    ensures var part := Part(src, es, start, end, endIdx);
            && (|part| == end - start <==> end <= |src|)
            && (end <= |src| ==> part == src[start..end])
  {
    TiledOrder(es, |src|, endIdx, |es|);
  }

  // A frame with the entry's hash is the entry's slice.
  lemma SameData(H: Data -> Hash, es: seq<StreamEntry>, src: Data, i: nat, data: Data)
    requires (forall a, b :: H(a) == H(b) ==> a == b) && Describes(H, es, src)
    requires i < |es| && !es[i].excluded && H(data) == es[i].hash
    ensures End(es[i]) <= |src| && data == src[es[i].off..End(es[i])]
  {
  }

  predicate Overlap(e: StreamEntry, start: nat, end: nat) {
    End(e) > start && e.off < end
  }

  ghost predicate AllReadable(r: Repo, es: seq<StreamEntry>, start: nat, end: nat) {
    forall i :: 0 <= i < |es| && Overlap(es[i], start, end) ==> Resolvable(r, es[i])
  }

  // The two searches find exactly the entries that overlap the range.
  lemma Overlaps(es: seq<StreamEntry>, total: nat, start: nat, end: nat, startIdx: nat, endIdx: nat, j: nat)
    requires Tiled(es, total) && start < end && startIdx <= endIdx <= |es| && j < |es|
    requires forall k :: 0 <= k < startIdx ==> End(es[k]) <= start
    requires startIdx < |es| ==> End(es[startIdx]) > start
    requires forall k :: 0 <= k < endIdx ==> es[k].off < end
    requires endIdx < |es| ==> es[endIdx].off >= end
    ensures Overlap(es[j], start, end) <==> startIdx <= j < endIdx
  {
    hide Tiled, Place;
    if startIdx <= j {
      TiledOrder(es, total, startIdx, j);
      TiledOrder(es, total, startIdx, j + 1);
    }
    if endIdx <= j {
      TiledOrder(es, total, endIdx, j);
    }
  }

  // The hash of no data, as the zero hash of an excluded entry.
  ghost predicate NoChunk(H: Data -> Hash, h: Hash) {
    forall a :: H(a) != h
  }

  // A chunk that is there and has the entry's hash is the entry's.
  lemma ReadsBack(r: Repo, es: seq<StreamEntry>, src: Data, i: nat)
    requires (forall a, b :: r.H(a) == r.H(b) ==> a == b) && Describes(r.H, es, src) && i < |es|
    requires es[i].excluded ==> NoChunk(r.H, es[i].hash)
    ensures Resolvable(r, es[i]) <==>
            && es[i].hash in r.index && InPacks(r.packs, r.index[es[i].hash])
            && r.H(FrameAt(r.packs, r.index[es[i].hash])) == es[i].hash
  {
    hide Tiled, Place;
    if es[i].hash in r.index && InPacks(r.packs, r.index[es[i].hash]) {
      var data := FrameAt(r.packs, r.index[es[i].hash]);
      if r.H(data) == es[i].hash {
        SameData(r.H, es, src, i, data);
      }
    }
  }

  method RestoreFile(r: Repo, es: seq<StreamEntry>, ghost src: Data, size: nat, start: nat, length: nat)
    returns (res: FileResult)
    requires Describes(r.H, es, src) && (forall a, b :: r.H(a) == r.H(b) ==> a == b)
    requires forall i :: 0 <= i < |es| && es[i].excluded ==> NoChunk(r.H, es[i].hash)
    // It succeeds exactly when the range is in the stream and its chunks can be read.
    ensures length > 0 ==> (res.Ok? <==> start + length <= |src| && AllReadable(r, es, start, start + length))
    ensures res.Ok? && length > 0 ==> start + length <= |src| && res.bytes == src[start..start + length]
    ensures length == 0 ==> (res.Ok? <==> size == 0) && (res.Ok? ==> res.bytes == [])
  {
    hide Good, Part, Tiled, Place, Resolvable;
    if length == 0 {
      return if size > 0 then Err else Ok([]);
    }
    var end := start + length;
    var startIdx := SearchEntries(es, |src|, start);
    var endIdx := SearchEntriesEnd(es, |src|, end);
    var out: Data := [];
    var i := startIdx;
    SearchedRange(es, src, start, end, startIdx, endIdx);
    while i < endIdx
      invariant startIdx <= i <= endIdx
      invariant out == Part(src, es, start, end, i)
      invariant forall j :: startIdx <= j < i ==> Resolvable(r, es[j])
    {
      var e := es[i];
      TiledOrder(es, |src|, startIdx, i);
      TiledOrder(es, |src|, startIdx, i + 1);
      Overlaps(es, |src|, start, end, startIdx, endIdx, i);
      ReadsBack(r, es, src, i);
      if e.hash !in r.index || !InPacks(r.packs, r.index[e.hash]) {
        return Err;
      }
      var data := FrameAt(r.packs, r.index[e.hash]);
      if r.H(data) != e.hash {
        return Err;
      }
      PartGrows(r.H, es, src, start, end, i);
      SameData(r.H, es, src, i, data);
      var from := if e.off < start then start - e.off else 0;
      var to := if End(e) > end then |data| - (End(e) - end) else |data|;
      out := out + data[from..to];
      i := i + 1;
    }
    WholePart(es, src, start, end, endIdx);
    forall j | 0 <= j < |es| && Overlap(es[j], start, end)
      ensures Resolvable(r, es[j])
    {
      Overlaps(es, |src|, start, end, startIdx, endIdx, j);
    }
    if |out| != length {
      return Err;
    }
    return Ok(out);
  }
}
