/** The two-tier dedup index (core/index/dedup.go): a Bloom filter in front of the
hash index, the deltas merged at open, and the fold that compacts them.

The filter is keyed by a chunk's weak hash and the index by its strong hash.
`weak` maps each strong hash to the weak hash of the same chunk. */
module DedupIndexes {
  import opened Options
  import opened IndexTypes
  import opened HashTables
  import opened HashIndexes
  import opened FoldStream
  import Bloom

  datatype DeltaEntry = DeltaEntry(e: IndexEntry, weak: bv64)

  function DeltaEnts(ds: seq<DeltaEntry>): (es: seq<IndexEntry>)
    ensures |es| == |ds| && forall i :: 0 <= i < |es| ==> es[i] == ds[i].e
  {
    seq(|ds|, i requires 0 <= i < |ds| => ds[i].e)
  }

  ghost predicate GoodDeltas(weak: Hash -> bv64, ds: seq<DeltaEntry>) {
    forall i :: 0 <= i < |ds| ==> ds[i].e.hash != ZERO && ds[i].weak == weak(ds[i].e.hash)
  }

  // Every hash of m passes the filter.
  ghost predicate Covers(weak: Hash -> bv64, bits: seq<bool>, m: map<Hash, IndexEntry>) {
    forall h :: h in m ==> Bloom.Has(bits, weak(h))
  }

  ghost predicate CoversDeltas(weak: Hash -> bv64, bits: seq<bool>, ds: seq<DeltaEntry>) {
    forall i :: 0 <= i < |ds| ==> Bloom.Has(bits, weak(ds[i].e.hash))
  }

  // What a crash may leave: a saved filter covers every flushed hash, except for
  // those a delta still waiting to be merged will add again.
  ghost predicate DiskCovers(weak: Hash -> bv64, saved: Option<seq<bool>>, file: seq<IndexEntry>, ds: seq<DeltaEntry>) {
    saved.Some? ==>
      forall h :: h in MapOf(file) ==> Bloom.Has(saved.value, weak(h)) || h in MapOf(DeltaEnts(ds))
  }

  // LoadBloomFilter refuses any other size.
  ghost predicate GoodBits(bits: seq<bool>) {
    |bits| > 0 && |bits| % 64 == 0
  }

  lemma CoversMore(weak: Hash -> bv64, a: seq<bool>, b: seq<bool>, m: map<Hash, IndexEntry>)
    requires Bloom.Within(a, b) && Covers(weak, a, m)
    ensures Covers(weak, b, m)
  {
    forall h | h in m ensures Bloom.Has(b, weak(h)) {
      Bloom.StillHas(a, b, weak(h));
    }
  }

  lemma CoversMoreDeltas(weak: Hash -> bv64, a: seq<bool>, b: seq<bool>, ds: seq<DeltaEntry>)
    requires Bloom.Within(a, b) && CoversDeltas(weak, a, ds)
    ensures CoversDeltas(weak, b, ds)
  {
    forall i | 0 <= i < |ds| ensures Bloom.Has(b, weak(ds[i].e.hash)) {
      Bloom.StillHas(a, b, weak(ds[i].e.hash));
    }
  }

  lemma CoversUnion(weak: Hash -> bv64, bits: seq<bool>, m: map<Hash, IndexEntry>, ds: seq<DeltaEntry>)
    requires forall h :: h in m ==> Bloom.Has(bits, weak(h)) || h in MapOf(DeltaEnts(ds))
    requires CoversDeltas(weak, bits, ds)
    ensures Covers(weak, bits, m + MapOf(DeltaEnts(ds)))
  {
    hide MapOf, Bloom.Has;
    forall h | h in m + MapOf(DeltaEnts(ds)) ensures Bloom.Has(bits, weak(h)) {
      if h in MapOf(DeltaEnts(ds)) {
        MapOfDomain(DeltaEnts(ds), h);
        var i :| 0 <= i < |ds| && DeltaEnts(ds)[i].hash == h;
        assert ds[i].e.hash == h;
      }
    }
  }

  // ---- The fold ----

  const FOLD_REC_SIZE: int := 56
  const DEFAULT_BUDGET: int := 32 * 0x10_0000

  // Slab records of a stretch of the delta stream, numbered by stream position.
  function Numbered(ds: seq<DeltaEntry>, from: nat, to: nat): (recs: seq<Rec>)
    requires from <= to <= |ds|
    ensures |recs| == to - from
    ensures forall i :: 0 <= i < |recs| ==> recs[i] == Rec(ds[from + i].e, from + i)
  {
    seq(to - from, i requires 0 <= i < to - from => Rec(ds[from + i].e, from + i))
  }

  lemma NumberedSlab(weak: Hash -> bv64, ds: seq<DeltaEntry>, from: nat, to: nat)
    requires from <= to <= |ds| && GoodDeltas(weak, ds)
    ensures InOrder(Numbered(ds, from, to)) && NonZero(Ents(Numbered(ds, from, to)))
    ensures MapOf(DeltaEnts(ds[..from])) + MapOf(Ents(Numbered(ds, from, to))) == MapOf(DeltaEnts(ds[..to]))
  {
    var slab := Ents(Numbered(ds, from, to));
    assert DeltaEnts(ds[..to]) == DeltaEnts(ds[..from]) + slab;
    MapOfConcat(DeltaEnts(ds[..from]), slab);
  }

  // A base file some pass installed: sorted, and the base overridden by a prefix
  // of the stream.
  ghost predicate PassResult(base: seq<IndexEntry>, ds: seq<DeltaEntry>, file: seq<IndexEntry>) {
    SortedFile(file) && exists j :: 0 <= j <= |ds| && MapOf(file) == MapOf(base) + MapOf(DeltaEnts(ds[..j]))
  }

  // The records of one pass: what the budget holds, or one.
  function PassSize(batchBudget: int): (n: nat)
    ensures n > 0
  {
    var budget := if batchBudget <= 0 then 33554432 else batchBudget;
    if budget < 56 then 1 else budget / 56
  }

  // The deltas folded after pass k.
  function FoldedBy(k: nat, n: nat, total: nat): (j: nat)
    ensures j <= total
  {
    if (k + 1) * n < total then (k + 1) * n else total
  }

  ghost predicate InPasses(base: seq<IndexEntry>, ds: seq<DeltaEntry>, n: nat, passes: seq<seq<IndexEntry>>) {
    forall k :: 0 <= k < |passes| ==>
      && SortedFile(passes[k])
      && MapOf(passes[k]) == MapOf(base) + MapOf(DeltaEnts(ds[..FoldedBy(k, n, |ds|)]))
  }

  lemma PassMore(base: seq<IndexEntry>, ds: seq<DeltaEntry>, n: nat, passes: seq<seq<IndexEntry>>,
                 out: seq<IndexEntry>, to: nat)
    requires InPasses(base, ds, n, passes) && to <= |ds| && to == FoldedBy(|passes|, n, |ds|)
    requires SortedFile(out) && MapOf(out) == MapOf(base) + MapOf(DeltaEnts(ds[..to]))
    ensures InPasses(base, ds, n, passes + [out])
  {
    hide MapOf, SortedFile, DeltaEnts, FoldedBy;
  }

  lemma PassFull(slab: nat, batchBudget: int)
    requires slab <= PassSize(batchBudget)
    ensures var budget := if batchBudget <= 0 then DEFAULT_BUDGET else batchBudget;
            slab * FOLD_REC_SIZE + FOLD_REC_SIZE > budget && slab > 0 <==> slab == PassSize(batchBudget)
  {
  }

  lemma PassEnd(k: nat, n: nat, from: nat, to: nat, total: nat)
    requires from == k * n && from < to <= total && to - from <= n && (to - from == n || to == total)
    ensures FoldedBy(k, n, total) == to
    ensures to - from == n ==> to == (k + 1) * n
  {
    assert (k + 1) * n == k * n + n;
  }

  // `ds` is the concatenation of the delta files in object-name order.  `passes`
  // lists every base file the fold put in place on the way.
  method FoldDeltas(base: seq<IndexEntry>, ds: seq<DeltaEntry>, batchBudget: int, bloom: Bloom.BloomFilter,
                    ghost weak: Hash -> bv64)
    returns (out: seq<IndexEntry>, total: nat, ghost passes: seq<seq<IndexEntry>>)
    requires SortedFile(base) && GoodDeltas(weak, ds) && bloom.Valid()
    modifies bloom
    ensures SortedFile(out)
    ensures MapOf(out) == MapOf(base) + MapOf(DeltaEnts(ds))
    ensures total == |ds|
    ensures bloom.Valid() && Bloom.Within(old(bloom.bits), bloom.bits) && CoversDeltas(weak, bloom.bits, ds)
    ensures forall k :: 0 <= k < |passes| ==> PassResult(base, ds, passes[k])
    // As many passes as the budget asks for, each folding what it holds.
    ensures InPasses(base, ds, PassSize(batchBudget), passes)
    ensures if ds == [] then passes == []
            else (|passes| - 1) * PassSize(batchBudget) < |ds| <= |passes| * PassSize(batchBudget)
  {
    hide MapOf, SortedFile, PassResult, CoversDeltas, DeltaEnts, Numbered, GoodDeltas, Bloom.Within, Bloom.Has,
         Bloom.HashPosition, InPasses, FoldedBy, PassSize;
    ghost var n := PassSize(batchBudget);
    NoPasses(base, ds, n);
    var budget := batchBudget;
    if budget <= 0 {
      budget := DEFAULT_BUDGET;
    }
    out, total, passes := base, 0, [];
    var slab: seq<Rec> := [];
    NothingFolded(base, ds);
    CoversNone(weak, bloom.bits, ds);
    WithinSelf(bloom.bits);
    NumberedNone(ds, 0);
    while total < |ds|
      invariant 0 <= |slab| <= total <= |ds|
      invariant slab == Numbered(ds, total - |slab|, total)
      invariant SortedFile(out)
      invariant MapOf(out) == MapOf(base) + MapOf(DeltaEnts(ds[..total - |slab|]))
      invariant bloom.Valid() && Bloom.Within(old(bloom.bits), bloom.bits)
      invariant CoversDeltas(weak, bloom.bits, ds[..total])
      invariant forall k :: 0 <= k < |passes| ==> PassResult(base, ds, passes[k])
      invariant InPasses(base, ds, n, passes) && total - |slab| == |passes| * n && |slab| <= n
      invariant total > 0 ==> |slab| > 0
    {
      PassFull(|slab|, batchBudget);
      AddDelta(bloom, old(bloom.bits), ds, total, weak);
      if |slab| * FOLD_REC_SIZE + FOLD_REC_SIZE > budget && |slab| > 0 {
        PassEnd(|passes|, n, total - |slab|, total, |ds|);
        out := FlushPass(base, out, ds, total - |slab|, total, slab, weak);
        PassMore(base, ds, n, passes, out, total);
        passes := passes + [out];
        slab := [];
      }
      NumberedNone(ds, total);
      NumberedMore(ds, total - |slab|, total);
      slab := slab + [Rec(ds[total].e, total)];
      total := total + 1;
    }
    if |slab| > 0 {
      PassEnd(|passes|, n, total - |slab|, total, |ds|);
      out := FlushPass(base, out, ds, total - |slab|, total, slab, weak);
      PassMore(base, ds, n, passes, out, total);
      passes := passes + [out];
    }
    assert ds[..total] == ds;
  }

  method AddDelta(bloom: Bloom.BloomFilter, ghost start: seq<bool>, ds: seq<DeltaEntry>, n: nat,
                  ghost weak: Hash -> bv64)
    requires n < |ds| && GoodDeltas(weak, ds) && bloom.Valid()
    requires Bloom.Within(start, bloom.bits) && CoversDeltas(weak, bloom.bits, ds[..n])
    modifies bloom
    ensures bloom.Valid() && Bloom.Within(start, bloom.bits) && CoversDeltas(weak, bloom.bits, ds[..n + 1])
  {
    hide Bloom.HashPosition, CoversDeltas, Bloom.Has;
    ghost var bits := bloom.bits;
    bloom.Add(ds[n].weak);
    CoverNext(weak, bits, bloom.bits, ds, n);
  }

  lemma WithinSelf(bits: seq<bool>)
    ensures Bloom.Within(bits, bits)
  {
  }

  lemma CoversNone(weak: Hash -> bv64, bits: seq<bool>, ds: seq<DeltaEntry>)
    ensures CoversDeltas(weak, bits, ds[..0])
  {
  }

  lemma NumberedNone(ds: seq<DeltaEntry>, at: nat)
    requires at <= |ds|
    ensures Numbered(ds, at, at) == []
  {
  }

  lemma NumberedMore(ds: seq<DeltaEntry>, from: nat, to: nat)
    requires from <= to < |ds|
    ensures Numbered(ds, from, to) + [Rec(ds[to].e, to)] == Numbered(ds, from, to + 1)
  {
  }

  method FlushPass(ghost base: seq<IndexEntry>, cur: seq<IndexEntry>, ghost ds: seq<DeltaEntry>, ghost from: nat,
                   ghost to: nat, slab: seq<Rec>, ghost weak: Hash -> bv64)
    returns (out: seq<IndexEntry>)
    requires SortedFile(cur) && GoodDeltas(weak, ds) && from <= to <= |ds|
    requires slab == Numbered(ds, from, to)
    requires MapOf(cur) == MapOf(base) + MapOf(DeltaEnts(ds[..from]))
    ensures SortedFile(out)
    ensures MapOf(out) == MapOf(base) + MapOf(DeltaEnts(ds[..to]))
    ensures PassResult(base, ds, out)
  {
    hide MapOf, SortedFile;
    NumberedSlab(weak, ds, from, to);
    out := MergePass(cur, slab);
    UnionAssoc(MapOf(base), MapOf(DeltaEnts(ds[..from])), MapOf(Ents(slab)));
  }

  lemma NoPasses(base: seq<IndexEntry>, ds: seq<DeltaEntry>, n: nat)
    ensures InPasses(base, ds, n, [])
  {
  }

  lemma UnionAssoc(a: map<Hash, IndexEntry>, b: map<Hash, IndexEntry>, c: map<Hash, IndexEntry>)
    ensures (a + b) + c == a + (b + c)
  {
  }

  lemma Absorb(a: map<Hash, IndexEntry>, b: map<Hash, IndexEntry>, c: map<Hash, IndexEntry>)
    ensures (a + b) + (b + c) == a + (b + c)
  {
  }

  lemma NothingFolded(base: seq<IndexEntry>, ds: seq<DeltaEntry>)
    ensures MapOf(base) == MapOf(base) + MapOf(DeltaEnts(ds[..0]))
  {
  }

  lemma CoverNext(weak: Hash -> bv64, a: seq<bool>, b: seq<bool>, ds: seq<DeltaEntry>, n: nat)
    requires n < |ds| && Bloom.Within(a, b) && CoversDeltas(weak, a, ds[..n])
    requires Bloom.Has(b, weak(ds[n].e.hash))
    ensures CoversDeltas(weak, b, ds[..n + 1])
  {
    CoversMoreDeltas(weak, a, b, ds[..n]);
    assert forall i :: 0 <= i < n ==> ds[..n + 1][i] == ds[..n][i];
  }

  // Folding deltas that were already folded changes nothing, so a fold that
  // stopped after any pass can simply be run again.
  lemma FoldAgain(base: seq<IndexEntry>, ds: seq<DeltaEntry>, file: seq<IndexEntry>)
    requires PassResult(base, ds, file)
    ensures MapOf(file) + MapOf(DeltaEnts(ds)) == MapOf(base) + MapOf(DeltaEnts(ds))
  {
    hide MapOf, SortedFile;
    var j :| 0 <= j <= |ds| && MapOf(file) == MapOf(base) + MapOf(DeltaEnts(ds[..j]));
    assert DeltaEnts(ds) == DeltaEnts(ds[..j]) + DeltaEnts(ds[j..]);
    MapOfConcat(DeltaEnts(ds[..j]), DeltaEnts(ds[j..]));
    Absorb(MapOf(base), MapOf(DeltaEnts(ds[..j])), MapOf(DeltaEnts(ds[j..])));
  }

  // A fold interrupted after a pass has a base file the saved filter need not
  // cover, but the deltas are still there to make up for it.
  lemma InterruptedFoldCovers(weak: Hash -> bv64, saved: Option<seq<bool>>, base: seq<IndexEntry>,
                              ds: seq<DeltaEntry>, file: seq<IndexEntry>)
    requires DiskCovers(weak, saved, base, ds) && PassResult(base, ds, file)
    ensures DiskCovers(weak, saved, file, ds)
  {
    FoldAgain(base, ds, file);
    if saved.Some? {
      forall h | h in MapOf(file) ensures Bloom.Has(saved.value, weak(h)) || h in MapOf(DeltaEnts(ds)) {
        assert h in MapOf(base) + MapOf(DeltaEnts(ds));
      }
    }
  }

  // ---- The index ----

  datatype DedupResult = DedupResult(isNew: bool, entry: Option<IndexEntry>, bloomHit: bool)

  class DedupIndex {
    ghost const weak: Hash -> bv64
    const deltas: seq<DeltaEntry> // staged delta objects, in object-name order
    const emptyBits: seq<bool> // a new filter's bits
    var bloom: Bloom.BloomFilter
    var index: HashIndex
    var bloomMissing: bool
    var savedBloom: Option<seq<bool>> // bloom.bin

    ghost predicate Valid()
      reads this, bloom, index, index.htab
    {
      && index.Valid() && index.isOpen && !index.noHtab
      && bloom.Valid()
      && GoodDeltas(weak, deltas)
      && GoodBits(emptyBits) && (savedBloom.Some? ==> GoodBits(savedBloom.value))
    }

    // What is on disk will open to a filter that covers the index.
    ghost predicate DiskCovered()
      reads this, index
    {
      DiskCovers(weak, savedBloom, index.file, deltas)
    }

    ghost predicate Covered()
      reads this, bloom, index, index.htab
    {
      Covers(weak, bloom.bits, index.View())
    }

    // bloom.bin missing beside a populated index: the state a backup refuses.
    ghost predicate Suspect()
      reads this, index, index.htab
    {
      bloomMissing && |index.View()| > 0
    }

    constructor (ghost w: Hash -> bv64, saved: Option<seq<bool>>, file: seq<IndexEntry>, ds: seq<DeltaEntry>,
                 fresh0: seq<bool>)
      requires SortedFile(file) && GoodDeltas(w, ds)
      requires GoodBits(fresh0) && (saved.Some? ==> GoodBits(saved.value))
      ensures Valid() && fresh(bloom) && fresh(index) && fresh(index.htab)
      ensures weak == w && deltas == ds && savedBloom == saved && index.file == file
      ensures index.View() == MapOf(file) + MapOf(DeltaEnts(ds))
      ensures Suspect() <==> saved.None? && file != []
      ensures DiskCovered() == DiskCovers(w, saved, file, ds)
      ensures DiskCovered() && !Suspect() ==> Covered()
    {
      hide MapOf, SortedFile, ValidTable, Bloom.Has, DiskCovers, Covers;
      weak, deltas, emptyBits, savedBloom := w, ds, fresh0, saved;
      bloom := new Bloom.BloomFilter(if saved.Some? then saved.value else fresh0, 0);
      index := new HashIndex(file, false);
      bloomMissing := saved.None?;
      new;
      ApplyPendingDeltas(|file| == 0);
    }

    // insertNoCapture for the delta record at position i.
    method MergeOne(i: nat)
      requires Valid() && i < |deltas| && CoversDeltas(weak, bloom.bits, deltas[..i])
      modifies bloom, index
      ensures Valid() && index.htab == old(index.htab) && index.file == old(index.file)
      ensures Bloom.Within(old(bloom.bits), bloom.bits) && CoversDeltas(weak, bloom.bits, deltas[..i + 1])
      ensures index.View() == old(index.View())[deltas[i].e.hash := deltas[i].e]
    {
      hide MapOf, SortedFile, ValidTable, Bloom.Has, DiskCovers, CoversDeltas;
      bloom.Add(deltas[i].weak);
      CoverNext(weak, old(bloom.bits), bloom.bits, deltas, i);
      index.Insert(deltas[i].e);
    }

    // Merges the staged deltas; a repository whose whole index is still in its
    // deltas has a complete filter although bloom.bin does not exist.
    method ApplyPendingDeltas(baseWasEmpty: bool)
      requires Valid() && index.View() == MapOf(index.file)
      requires baseWasEmpty <==> index.file == []
      requires bloomMissing <==> savedBloom.None?
      requires savedBloom.Some? ==> bloom.bits == savedBloom.value
      modifies `bloomMissing, bloom, index
      ensures Valid() && index.htab == old(index.htab) && index.file == old(index.file)
      ensures index.View() == MapOf(index.file) + MapOf(DeltaEnts(deltas))
      ensures Suspect() <==> savedBloom.None? && index.file != []
      ensures DiskCovered() && !Suspect() ==> Covered()
    {
      hide MapOf, SortedFile, ValidTable, Bloom.Has, Bloom.Within, DiskCovers, Covers, CoversDeltas, GoodDeltas,
           DeltaEnts, GoodBits, HashIndex.View;
      MergeAll();
      SomethingOpened(index.file, deltas);
      if DiskCovered() {
        OpenedCovers(weak, savedBloom, old(bloom.bits), bloom.bits, index.file, deltas);
      }
      if |deltas| > 0 && baseWasEmpty {
        bloomMissing := false;
      }
    }

    method MergeAll()
      requires Valid() && index.View() == MapOf(index.file)
      modifies bloom, index
      ensures Valid() && index.htab == old(index.htab) && index.file == old(index.file)
      ensures index.View() == MapOf(index.file) + MapOf(DeltaEnts(deltas))
      ensures Bloom.Within(old(bloom.bits), bloom.bits) && CoversDeltas(weak, bloom.bits, deltas)
    {
      hide MapOf, SortedFile, ValidTable, Bloom.Has, Bloom.Within, DiskCovers, Covers, CoversDeltas, GoodDeltas;
      var i := 0;
      NothingMergedYet(weak, index.file, deltas, bloom.bits);
      while i < |deltas|
        invariant 0 <= i <= |deltas|
        invariant Valid() && index.htab == old(index.htab) && index.file == old(index.file)
        invariant Bloom.Within(old(bloom.bits), bloom.bits) && CoversDeltas(weak, bloom.bits, deltas[..i])
        invariant index.View() == MapOf(index.file) + MapOf(DeltaEnts(deltas[..i]))
      {
        ghost var bits := bloom.bits;
        MergeOne(i);
        WithinTrans(old(bloom.bits), bits, bloom.bits);
        OneMoreDelta(index.file, deltas, i);
        i := i + 1;
      }
      assert deltas[..i] == deltas;
    }

    method Check(weakHash: bv64, strong: Hash) returns (r: DedupResult)
      requires Valid() && strong != ZERO && weakHash == weak(strong)
      ensures strong !in index.View() ==> r.isNew && r.entry == None
      ensures Covered() ==> (r.isNew <==> strong !in index.View()) && r.entry == Get(index.View(), strong)
    {
      hide MapOf, SortedFile, Bloom.Has;
      var maybe := bloom.MayContain(weakHash);
      if !maybe {
        return DedupResult(true, None, false);
      }
      var found := index.Lookup(strong);
      return DedupResult(found.None?, found, true);
    }

    method Insert(weakHash: bv64, e: IndexEntry)
      requires Valid() && e.hash != ZERO && weakHash == weak(e.hash)
      modifies bloom, index
      ensures Valid() && index.htab == old(index.htab)
      ensures index.View() == old(index.View())[e.hash := e] && index.file == old(index.file)
      ensures old(Covered()) ==> Covered()
    {
      hide MapOf, SortedFile, Bloom.Has;
      bloom.Add(weakHash);
      index.Insert(e);
      if Covers(weak, old(bloom.bits), old(index.View())) {
        CoversMore(weak, old(bloom.bits), bloom.bits, old(index.View()));
      }
    }

    method FlushHashIndex()
      requires Valid()
      modifies index, index.htab
      ensures Valid() && (index.htab == old(index.htab) || fresh(index.htab))
      ensures index.View() == old(index.View()) && index.file == old(index.file)
      ensures old(Covered()) ==> Covered()
    {
      hide MapOf, SortedFile, Bloom.Has, DiskCovers;
      var _ := index.FlushDelta();
    }

    // The first half of Flush.  A crash right after it leaves a filter that covers
    // more than the index file, never less.
    method SaveBloom()
      requires Valid()
      modifies `savedBloom
      ensures Valid() && savedBloom == Some(bloom.bits)
      ensures Covers(weak, bloom.bits, MapOf(index.file)) ==> DiskCovered()
    {
      savedBloom := Some(bloom.bits);
    }

    method Flush()
      requires Valid()
      modifies `savedBloom, index
      ensures Valid() && (index.htab == old(index.htab) || fresh(index.htab))
      ensures MapOf(index.file) == index.View() == old(index.View())
      ensures savedBloom == Some(bloom.bits)
      ensures old(Covered()) ==> Covered() && DiskCovered()
    {
      hide MapOf, SortedFile, Bloom.Has;
      SaveBloom();
      index.Flush();
    }

    // Losing the process at any point and opening the directory again.
    method Reopen()
      requires Valid()
      modifies this, index
      ensures Valid() && fresh(bloom) && fresh(index) && fresh(index.htab)
      ensures index.file == old(index.file) && savedBloom == old(savedBloom)
      ensures index.View() == MapOf(index.file) + MapOf(DeltaEnts(deltas))
      ensures Suspect() <==> savedBloom.None? && index.file != []
      ensures DiskCovered() == old(DiskCovered())
      ensures DiskCovered() && !Suspect() ==> Covered()
    {
      hide MapOf, SortedFile, ValidTable, Bloom.Has, DiskCovers, Covers;
      var file := index.file;
      bloom := new Bloom.BloomFilter(if savedBloom.Some? then savedBloom.value else emptyBits, 0);
      index := new HashIndex(file, false);
      bloomMissing := savedBloom.None?;
      ApplyPendingDeltas(|file| == 0);
    }
  }

  lemma OpenedCovers(weak: Hash -> bv64, saved: Option<seq<bool>>, a: seq<bool>, bits: seq<bool>,
                     file: seq<IndexEntry>, ds: seq<DeltaEntry>)
    requires DiskCovers(weak, saved, file, ds)
    requires Bloom.Within(a, bits) && CoversDeltas(weak, bits, ds)
    requires saved.Some? ==> a == saved.value
    ensures saved.Some? || file == [] ==> Covers(weak, bits, MapOf(file) + MapOf(DeltaEnts(ds)))
  {
    hide Bloom.Has;
    if saved.Some? {
      forall h | h in MapOf(file) ensures Bloom.Has(bits, weak(h)) || h in MapOf(DeltaEnts(ds)) {
        if Bloom.Has(a, weak(h)) {
          Bloom.StillHas(a, bits, weak(h));
        }
      }
      CoversUnion(weak, bits, MapOf(file), ds);
    } else if file == [] {
      CoversUnion(weak, bits, MapOf(file), ds);
    }
  }

  lemma SomethingOpened(file: seq<IndexEntry>, ds: seq<DeltaEntry>)
    ensures |MapOf(file) + MapOf(DeltaEnts(ds))| > 0 <==> file != [] || ds != []
  {
    SomethingListed(file);
    SomethingListed(DeltaEnts(ds));
    var m := MapOf(file) + MapOf(DeltaEnts(ds));
    assert m.Keys == MapOf(file).Keys + MapOf(DeltaEnts(ds)).Keys;
  }

  lemma WithinTrans(a: seq<bool>, b: seq<bool>, c: seq<bool>)
    requires Bloom.Within(a, b) && Bloom.Within(b, c)
    ensures Bloom.Within(a, c)
  {
  }

  lemma NothingMergedYet(weak: Hash -> bv64, file: seq<IndexEntry>, ds: seq<DeltaEntry>, bits: seq<bool>)
    ensures MapOf(file) == MapOf(file) + MapOf(DeltaEnts(ds[..0]))
    ensures Bloom.Within(bits, bits) && CoversDeltas(weak, bits, ds[..0])
  {
    NothingFolded(file, ds);
  }

  lemma SomethingListed(es: seq<IndexEntry>)
    ensures es == [] ==> MapOf(es) == map[]
    ensures es != [] ==> es[|es| - 1].hash in MapOf(es)
  {
  }

  lemma OneMoreDelta(file: seq<IndexEntry>, ds: seq<DeltaEntry>, i: nat)
    requires i < |ds|
    ensures (MapOf(file) + MapOf(DeltaEnts(ds[..i])))[ds[i].e.hash := ds[i].e] ==
            MapOf(file) + MapOf(DeltaEnts(ds[..i + 1]))
  {
    assert DeltaEnts(ds[..i + 1])[..i] == DeltaEnts(ds[..i]);
    PutOnTop(MapOf(file), MapOf(DeltaEnts(ds[..i])), ds[i].e);
  }

  // ---- Histories ----

  datatype DedupOp =
    | Add(weakHash: bv64, e: IndexEntry)
    | FlushTable
    | FlushAll
    | CrashAfterSavingBloom
    | CrashAndReopen

  // The index as a map with a durable copy, beside the map of the staged deltas.
  datatype DedupSpec = DedupSpec(view: map<Hash, IndexEntry>, durable: map<Hash, IndexEntry>)

  function DedupStep(s: DedupSpec, staged: map<Hash, IndexEntry>, op: DedupOp): DedupSpec {
    match op
    case Add(_, e) => s.(view := s.view[e.hash := e])
    case FlushTable => s
    case FlushAll => s.(durable := s.view)
    case CrashAfterSavingBloom => s.(view := s.durable + staged)
    case CrashAndReopen => s.(view := s.durable + staged)
  }

  function DedupRun(s: DedupSpec, staged: map<Hash, IndexEntry>, ops: seq<DedupOp>): DedupSpec {
    if ops == [] then s else DedupStep(DedupRun(s, staged, ops[..|ops| - 1]), staged, ops[|ops| - 1])
  }

  ghost function SpecOf(d: DedupIndex): DedupSpec
    reads d, d.index, d.index.htab
  {
    DedupSpec(d.index.View(), MapOf(d.index.file))
  }

  // In memory and on disk the filter covers the index, which is never flushed without it.
  ghost predicate Sound(d: DedupIndex)
    reads d, d.bloom, d.index, d.index.htab
  {
    d.Valid() && d.Covered() && d.DiskCovered() && (d.savedBloom.None? ==> d.index.file == [])
  }

  method ApplyDedupOp(d: DedupIndex, op: DedupOp)
    requires Sound(d)
    requires op.Add? ==> op.e.hash != ZERO && op.weakHash == d.weak(op.e.hash)
    modifies d, d.bloom, d.index, d.index.htab
    ensures Sound(d) && SpecOf(d) == DedupStep(old(SpecOf(d)), MapOf(DeltaEnts(d.deltas)), op)
    ensures d.bloom == old(d.bloom) || fresh(d.bloom)
    ensures d.index == old(d.index) || fresh(d.index)
    ensures d.index.htab == old(d.index.htab) || fresh(d.index.htab)
  {
    hide MapOf, SortedFile, ValidTable, Bloom.Has, DiskCovers, Covers;
    match op {
      case Add(w, e) => d.Insert(w, e);
      case FlushTable => d.FlushHashIndex();
      case FlushAll => d.Flush();
      case CrashAfterSavingBloom =>
        FileCovered(d.weak, d.bloom.bits, d.index.file, d.index.View());
        d.SaveBloom();
        d.Reopen();
      case CrashAndReopen => d.Reopen();
    }
  }

  lemma FileCovered(weak: Hash -> bv64, bits: seq<bool>, file: seq<IndexEntry>, view: map<Hash, IndexEntry>)
    requires Covers(weak, bits, view) && MapOf(file).Keys <= view.Keys
    ensures Covers(weak, bits, MapOf(file))
  {
  }

  // Any history on the index is the same history on the map.
  method ApplyAll(d: DedupIndex, ops: seq<DedupOp>)
    requires Sound(d)
    requires forall i :: 0 <= i < |ops| && ops[i].Add? ==>
               ops[i].e.hash != ZERO && ops[i].weakHash == d.weak(ops[i].e.hash)
    modifies d, d.bloom, d.index, d.index.htab
    ensures Sound(d) && SpecOf(d) == DedupRun(old(SpecOf(d)), MapOf(DeltaEnts(d.deltas)), ops)
    ensures d.bloom == old(d.bloom) || fresh(d.bloom)
    ensures d.index == old(d.index) || fresh(d.index)
    ensures d.index.htab == old(d.index.htab) || fresh(d.index.htab)
  {
    hide MapOf, DedupStep, Sound, SpecOf;
    var i := 0;
    while i < |ops|
      invariant 0 <= i <= |ops|
      invariant Sound(d) && SpecOf(d) == DedupRun(old(SpecOf(d)), MapOf(DeltaEnts(d.deltas)), ops[..i])
      invariant d.bloom == old(d.bloom) || fresh(d.bloom)
      invariant d.index == old(d.index) || fresh(d.index)
      invariant d.index.htab == old(d.index.htab) || fresh(d.index.htab)
    {
      assert ops[..i + 1][..i] == ops[..i];
      ApplyDedupOp(d, ops[i]);
      i := i + 1;
    }
    assert ops[..i] == ops;
  }

  // After any history Check reports a chunk new exactly when its strong hash is absent
  // from what that history leaves.
  method CheckAfter(d: DedupIndex, ops: seq<DedupOp>, weakHash: bv64, strong: Hash) returns (r: DedupResult)
    requires Sound(d)
    requires forall i :: 0 <= i < |ops| && ops[i].Add? ==>
               ops[i].e.hash != ZERO && ops[i].weakHash == d.weak(ops[i].e.hash)
    requires strong != ZERO && weakHash == d.weak(strong)
    modifies d, d.bloom, d.index, d.index.htab
    ensures var view := DedupRun(old(SpecOf(d)), MapOf(DeltaEnts(d.deltas)), ops).view;
            (r.isNew <==> strong !in view) && r.entry == Get(view, strong)
  {
    hide MapOf, SortedFile, ValidTable, Bloom.Has, DiskCovers, Covers, DedupRun;
    ApplyAll(d, ops);
    r := d.Check(weakHash, strong);
  }

  // The streaming fold and the simple way round, open with the deltas merged and
  // flush, leave the same index, whatever the filter.
  method FoldBothWays(base: seq<IndexEntry>, ds: seq<DeltaEntry>, batchBudget: int, bits: seq<bool>,
                      ghost weak: Hash -> bv64)
    returns (streamed: seq<IndexEntry>, flushed: seq<IndexEntry>)
    requires SortedFile(base) && GoodDeltas(weak, ds) && GoodBits(bits)
    ensures SortedFile(streamed) && SortedFile(flushed)
    ensures MapOf(streamed) == MapOf(flushed) == MapOf(base) + MapOf(DeltaEnts(ds))
  {
    hide MapOf, SortedFile, ValidTable, Bloom.Has, DiskCovers, Covers, GoodDeltas;
    var bloom := new Bloom.BloomFilter(bits, 0);
    var total;
    ghost var passes;
    streamed, total, passes := FoldDeltas(base, ds, batchBudget, bloom, weak);
    var d := new DedupIndex(weak, Some(bits), base, ds, bits);
    d.Flush();
    flushed := d.index.file;
  }
}
