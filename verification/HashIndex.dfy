/** The two-level index of core/index/hashindex.go: a write buffer over the hash
table over the sorted file.

Whatever mixture of inserts, delta flushes (which may grow the table), flushes,
discards and reopenings has happened, the index is one last-write-wins map with
a durable copy. */
module HashIndexes {
  import opened Options
  import opened IndexTypes
  import opened HashTables
  import opened HashTableBuild
  import Sorting

  function ByPrefix(): (le: (IndexEntry, IndexEntry) -> bool)
    ensures Sorting.TotalPreorder(le)
  {
    (a: IndexEntry, b: IndexEntry) => a.hash.prefix <= b.hash.prefix
  }

  // The records of a map, in the arbitrary order map iteration gives.
  method Entries(m: map<Hash, IndexEntry>) returns (es: seq<IndexEntry>)
    requires Keyed(m)
    ensures Distinct(es) && NonZero(es) && ListsExactly(es, m)
  {
    es := [];
    var rest := m;
    while rest != map[]
      invariant rest.Keys <= m.Keys && forall h :: h in rest ==> rest[h] == m[h]
      invariant Distinct(es) && NonZero(es)
      invariant forall i :: 0 <= i < |es| ==> es[i].hash in m && m[es[i].hash] == es[i] && es[i].hash !in rest
      invariant forall h :: h in m && h !in rest ==> exists i :: 0 <= i < |es| && es[i].hash == h
      decreases |rest|
    {
      var h :| h in rest;
      ghost var before := es;
      es := es + [rest[h]];
      assert es[|before|].hash == h;
      forall g | g in m && g !in rest ensures exists i :: 0 <= i < |es| && es[i].hash == g {
        var i :| 0 <= i < |before| && before[i].hash == g;
        assert es[i].hash == g;
      }
      rest := rest - {h};
    }
  }

  // Drops the records the buffer overrides.
  method Without(es: seq<IndexEntry>, buffer: map<Hash, IndexEntry>, ghost m: map<Hash, IndexEntry>)
    returns (kept: seq<IndexEntry>)
    requires Distinct(es) && NonZero(es) && ListsExactly(es, m)
    ensures Distinct(kept) && NonZero(kept) && ListsExactly(kept, m - buffer.Keys)
  {
    kept := [];
    var i := 0;
    hide ListsExactly;
    while i < |es|
      invariant 0 <= i <= |es|
      invariant Distinct(kept) && NonZero(kept)
      invariant forall j :: 0 <= j < |kept| ==> kept[j] in es[..i] && kept[j].hash !in buffer
      invariant forall e :: e in es[..i] && e.hash !in buffer ==> e in kept
    {
      if es[i].hash !in buffer {
        forall j | 0 <= j < |kept| ensures kept[j].hash != es[i].hash {
          assert kept[j] in es[..i];
        }
        kept := kept + [es[i]];
      }
      i := i + 1;
    }
    assert es[..i] == es;
    KeptLists(es, buffer, m, kept);
  }

  lemma KeptLists(es: seq<IndexEntry>, buffer: map<Hash, IndexEntry>, m: map<Hash, IndexEntry>, kept: seq<IndexEntry>)
    requires ListsExactly(es, m)
    requires forall j :: 0 <= j < |kept| ==> kept[j] in es && kept[j].hash !in buffer
    requires forall e :: e in es && e.hash !in buffer ==> e in kept
    ensures ListsExactly(kept, m - buffer.Keys)
  {
    forall h | h in m - buffer.Keys ensures exists j :: 0 <= j < |kept| && kept[j].hash == h {
      var k :| 0 <= k < |es| && es[k].hash == h;
      assert es[k] in kept;
    }
  }

  lemma ListsTogether(es: seq<IndexEntry>, m1: map<Hash, IndexEntry>, fs: seq<IndexEntry>, m2: map<Hash, IndexEntry>)
    requires Distinct(es) && ListsExactly(es, m1) && Distinct(fs) && ListsExactly(fs, m2)
    requires m1.Keys !! m2.Keys
    ensures Distinct(es + fs) && ListsExactly(es + fs, m1 + m2)
  {
    var all := es + fs;
    forall h | h in m1 + m2 ensures exists i :: 0 <= i < |all| && all[i].hash == h {
      if h in m2 {
        var i :| 0 <= i < |fs| && fs[i].hash == h;
        assert all[|es| + i].hash == h;
      } else {
        var i :| 0 <= i < |es| && es[i].hash == h;
        assert all[i].hash == h;
      }
    }
  }

  // The start of the run of records whose prefix is p or more.
  method LowerBound(file: seq<IndexEntry>, p: uint64) returns (lo: nat)
    requires SortedByPrefix(file)
    ensures lo <= |file|
    ensures forall i :: 0 <= i < lo ==> file[i].hash.prefix < p
    ensures forall i :: lo <= i < |file| ==> p <= file[i].hash.prefix
  {
    lo := 0;
    var hi := |file|;
    while lo < hi
      invariant 0 <= lo <= hi <= |file|
      invariant forall i :: 0 <= i < lo ==> file[i].hash.prefix < p
      invariant forall i :: hi <= i < |file| ==> p <= file[i].hash.prefix
    {
      var mid := (lo + hi) / 2;
      if file[mid].hash.prefix < p {
        lo := mid + 1;
      } else {
        hi := mid;
      }
    }
  }

  // The binary search of diskLookup: by prefix to the start of the equal-prefix
  // run, then along the run for the full hash.
  method DiskLookup(file: seq<IndexEntry>, h: Hash) returns (r: Option<IndexEntry>)
    requires SortedFile(file)
    ensures r == Get(MapOf(file), h)
  {
    var i := LowerBound(file, h.prefix);
    while i < |file| && file[i].hash.prefix == h.prefix
      invariant 0 <= i <= |file|
      invariant forall j :: 0 <= j < i ==> file[j].hash != h
    {
      if file[i].hash == h {
        FoundInFile(file, i);
        return Some(file[i]);
      }
      i := i + 1;
    }
    assert forall j :: i <= j < |file| ==> file[i].hash.prefix <= file[j].hash.prefix;
    MapOfDomain(file, h);
    return None;
  }

  lemma FoundInFile(file: seq<IndexEntry>, i: nat)
    requires Distinct(file) && i < |file|
    ensures Get(MapOf(file), file[i].hash) == Some(file[i])
  {
    MapOfDistinct(file);
  }

  // An index over a flushed file answers alike with and without its table.
  method LookupBothWays(file: seq<IndexEntry>, h: Hash)
    returns (viaTable: Option<IndexEntry>, viaFile: Option<IndexEntry>)
    requires SortedFile(file) && h != ZERO
    ensures viaTable == viaFile == Get(MapOf(file), h)
  {
    var slots, count := BuildHashTable(file);
    var table := new DiskHashTable.Open(slots, count, MapOf(file));
    viaTable := table.Lookup(h);
    viaFile := DiskLookup(file, h);
  }

  class HashIndex {
    var file: seq<IndexEntry> // the sorted index file: what survives the process
    var isOpen: bool
    var noHtab: bool
    var entries: map<Hash, IndexEntry> // the write buffer
    var dirty: bool
    var htab: DiskHashTable?

    ghost predicate Valid()
      reads this, htab
    {
      && SortedFile(file)
      && Keyed(entries)
      && (entries != map[] ==> dirty)
      && (isOpen ==> (htab == null <==> noHtab))
      && (!isOpen ==> htab == null && !dirty)
      && (htab != null ==> htab.Valid() && |htab.slots| >= 1024)
      && (htab != null && !dirty ==> htab.contents == MapOf(file))
      && (htab != null ==> MapOf(file).Keys <= htab.contents.Keys)
    }

    ghost function Durable(): map<Hash, IndexEntry>
      reads this
    {
      MapOf(file)
    }

    // What lies under the buffer.
    ghost function Stored(): map<Hash, IndexEntry>
      reads this, htab
    {
      if htab != null then htab.contents else MapOf(file)
    }

    ghost function View(): map<Hash, IndexEntry>
      reads this, htab
    {
      if !isOpen then map[]
      else Stored() + entries
    }

    constructor (sorted: seq<IndexEntry>, skipHtab: bool)
      requires SortedFile(sorted)
      ensures Valid() && (htab == null || fresh(htab))
      ensures isOpen && noHtab == skipHtab && !dirty && entries == map[]
      ensures file == sorted && View() == Durable()
    {
      file, isOpen, noHtab, entries, dirty, htab := sorted, true, skipHtab, map[], false, null;
      new;
      NothingOnTop(MapOf(sorted));
      if !skipHtab {
        var slots, count := BuildHashTable(sorted);
        htab := new DiskHashTable.Open(slots, count, MapOf(sorted));
      }
    }

    // NewHashIndex on the same path after a close: the table is always rebuilt
    // from the sorted file.
    method Reopen(skipHtab: bool)
      requires Valid() && !isOpen
      modifies this
      ensures Valid() && (htab == null || fresh(htab))
      ensures isOpen && file == old(file) && View() == Durable()
    {
      NothingOnTop(MapOf(file));
      isOpen, noHtab := true, skipHtab;
      if !skipHtab {
        var slots, count := BuildHashTable(file);
        htab := new DiskHashTable.Open(slots, count, MapOf(file));
      }
    }

    method Lookup(h: Hash) returns (r: Option<IndexEntry>)
      requires Valid() && h != ZERO
      ensures r == Get(View(), h)
    {
      if h in entries {
        return Some(entries[h]);
      }
      if htab == null {
        if !isOpen {
          return None;
        }
        r := DiskLookup(file, h);
        return;
      }
      r := htab.Lookup(h);
    }

    method Insert(e: IndexEntry)
      requires Valid() && isOpen && e.hash != ZERO
      modifies this
      ensures Valid() && isOpen && htab == old(htab)
      ensures View() == old(View())[e.hash := e]
      ensures file == old(file)
    {
      PutOnTop(Stored(), entries, e);
      entries := entries[e.hash := e];
      dirty := true;
    }

    // Doubles the table; the new file replaces the old one.
    method GrowHashTable()
      requires Valid() && htab != null
      modifies `htab
      ensures Valid() && htab != null && fresh(htab)
      ensures htab.contents == old(htab.contents) && |htab.slots| == 2 * old(|htab.slots|)
    {
      hide ValidTable, Live, MapOf, SortedFile;
      var es := htab.ReadAll();
      var grown := Refill(es, 2 * |htab.slots|);
      MapOfDistinct(es);
      MapsAgree(es, htab.contents, MapOf(es));
      htab := grown;
    }

    // Moves one buffered record into the table, growing it when it is too full.
    method InsertGrowing(e: IndexEntry)
      requires Valid() && htab != null && e.hash != ZERO && dirty
      modifies `htab, htab
      ensures Valid() && htab != null && (htab == old(htab) || fresh(htab))
      ensures htab.contents == old(htab.contents)[e.hash := e]
    {
      hide ValidTable, MapOf, SortedFile;
      var ok := htab.Insert(e);
      if !ok {
        GrowHashTable();
        ok := htab.Insert(e);
      }
    }

    method MoveAll(buffer: map<Hash, IndexEntry>)
      requires Valid() && htab != null && dirty && Keyed(buffer)
      modifies `htab, htab
      ensures Valid() && htab != null && (htab == old(htab) || fresh(htab))
      ensures htab.contents == old(htab.contents) + buffer
    {
      hide ValidTable, MapOf, SortedFile;
      var rest := buffer;
      while rest != map[]
        invariant Keyed(rest)
        invariant Valid() && htab != null && (htab == old(htab) || fresh(htab))
        invariant htab.contents + rest == old(htab.contents) + buffer
        decreases |rest|
      {
        var h :| h in rest;
        MoveDown(htab.contents, rest, h);
        InsertGrowing(rest[h]);
        rest := rest - {h};
      }
      NothingOnTop(htab.contents);
    }

    // Moves the buffer into the hash table.  Without a table there is nowhere to
    // move it to, and a non-empty buffer is refused.
    method FlushDelta() returns (ok: bool)
      requires Valid()
      modifies this, htab
      ensures Valid() && (htab == old(htab) || fresh(htab))
      ensures ok <==> old(entries) == map[] || htab != null
      ensures ok ==> entries == map[]
      ensures View() == old(View())
      ensures file == old(file) && isOpen == old(isOpen)
    {
      hide ValidTable, MapOf, SortedFile;
      if |entries| == 0 {
        return true;
      }
      if htab == null {
        return false;
      }
      MoveAll(entries);
      ClearBuffer();
      return true;
    }

    method ClearBuffer()
      requires Valid() && htab != null && dirty
      modifies `entries
      ensures Valid() && entries == map[]
      ensures View() == if isOpen then htab.contents else map[]
    {
      hide ValidTable, MapOf, SortedFile;
      NothingOnTop(htab.contents);
      entries := map[];
    }

    // Every record under the buffer, from the table or else from the sorted file.
    method Collect() returns (all: seq<IndexEntry>)
      requires Valid()
      ensures Distinct(all) && NonZero(all) && ListsExactly(all, Stored())
    {
      if htab != null {
        all := htab.ReadAll();
      } else {
        MapOfDistinct(file);
        all := file;
      }
    }

    // Rewrites the sorted file from everything the index holds and rebuilds the
    // table from it.
    method Flush()
      requires Valid() && isOpen
      modifies this
      ensures Valid() && (htab == old(htab) || htab == null || fresh(htab))
      ensures Durable() == View() == old(View())
      ensures isOpen && entries == map[] && !dirty && noHtab == old(noHtab)
    {
      hide ValidTable, MapOf, SortedFile;
      NothingOnTop(Stored());
      if !dirty && entries == map[] {
        return;
      }
      var all := Collect();
      ghost var base := Stored();
      var sorted := MergeSorted(all, base, entries);
      NothingOnTop(MapOf(sorted));
      file := sorted;
      entries, dirty, htab := map[], false, null;
      if !noHtab {
        var slots, count := BuildHashTable(sorted);
        htab := new DiskHashTable.Open(slots, count, MapOf(sorted));
      }
    }

    // Distinct hashes in the table and the buffer.  Without a table only the buffer is
    // counted, which is all there is exactly when it has every hash of the file.
    method Count() returns (n: nat)
      requires Valid()
      ensures htab == null ==> n == |entries|
      ensures n == |View()| <==> htab != null || !isOpen || MapOf(file).Keys <= entries.Keys
    {
      if htab == null {
        CountBuffered(MapOf(file), entries);
        return |entries|;
      }
      n := CountWith(entries);
    }

    method CountWith(buffer: map<Hash, IndexEntry>) returns (n: nat)
      requires Valid() && htab != null && Keyed(buffer)
      ensures n == |htab.contents + buffer|
    {
      hide ValidTable, MapOf, SortedFile;
      n := htab.count;
      var rest := buffer;
      ghost var seen: map<Hash, IndexEntry> := map[];
      NothingOnTop(htab.contents);
      while rest != map[]
        invariant Keyed(rest) && seen + rest == buffer && seen.Keys !! rest.Keys
        invariant n == |htab.contents + seen|
        decreases |rest|
      {
        var h :| h in rest;
        var r := htab.Lookup(h);
        CountOneMore(htab.contents, seen, h, rest[h]);
        MoveAcross(seen, rest, h);
        if r.None? {
          n := n + 1;
        }
        seen := seen[h := rest[h]];
        rest := rest - {h};
      }
      NothingOnTop(seen);
    }

    method CloseDiscard()
      requires Valid()
      modifies this
      ensures Valid() && !isOpen && htab == null
      ensures file == old(file) && View() == map[]
    {
      entries, dirty, htab, isOpen := map[], false, null, false;
    }

    method Close()
      requires Valid() && isOpen
      modifies this
      ensures Valid() && !isOpen && htab == null
      ensures Durable() == old(View())
    {
      Flush();
      htab, isOpen := null, false;
    }
  }

  // Counting what is on top counts everything exactly when nothing below is left out.
  lemma CountBuffered(base: map<Hash, IndexEntry>, top: map<Hash, IndexEntry>)
    ensures |top| <= |base + top|
    ensures |top| == |base + top| <==> base.Keys <= top.Keys
  {
    var rest := base.Keys - top.Keys;
    assert (base + top).Keys == top.Keys + rest;
    assert |(base + top).Keys| == |top.Keys| + |rest|;
    assert |base + top| == |(base + top).Keys| && |top| == |top.Keys|;
    assert base.Keys <= top.Keys <==> rest == {};
  }

  // One record in the file, none in the buffer, no table: the count is 0.
  method CountWithoutTable(e: IndexEntry) returns (idx: HashIndex, n: nat)
    requires e.hash != ZERO
    ensures idx.Valid() && idx.View() == map[e.hash := e] && n == 0
  {
    idx := new HashIndex([e], true);
    assert [e][..0] == [] && MapOf([e]) == map[e.hash := e];
    n := idx.Count();
    assert e.hash in MapOf(idx.file).Keys && idx.entries == map[];
  }

  lemma CountOneMore(base: map<Hash, IndexEntry>, seen: map<Hash, IndexEntry>, h: Hash, e: IndexEntry)
    requires h !in seen
    ensures |base + seen[h := e]| == |base + seen| + if h in base then 0 else 1
  {
    PutOnTop2(base, seen, h, e);
    var before := base + seen;
    assert before[h := e].Keys == before.Keys + {h};
    AddOne(before.Keys, h);
  }

  lemma PutOnTop2(base: map<Hash, IndexEntry>, top: map<Hash, IndexEntry>, h: Hash, e: IndexEntry)
    ensures (base + top)[h := e] == base + top[h := e]
  {
  }

  lemma AddOne(s: set<Hash>, h: Hash)
    ensures |s + {h}| == |s| + if h in s then 0 else 1
  {
    if h in s {
      assert s + {h} == s;
    }
  }

  lemma MoveAcross(seen: map<Hash, IndexEntry>, rest: map<Hash, IndexEntry>, h: Hash)
    requires h in rest && h !in seen
    ensures seen + rest == seen[h := rest[h]] + (rest - {h})
  {
  }

  lemma SortedNonZero(es: seq<IndexEntry>, fs: seq<IndexEntry>)
    requires NonZero(es) && multiset(es) == multiset(fs)
    ensures NonZero(fs)
  {
    forall i | 0 <= i < |fs| ensures fs[i].hash != ZERO {
      Sorting.SameMembers(es, fs, fs[i]);
    }
  }

  // The new sorted file: the collected records with the buffer's in place of any
  // they share a hash with, in prefix order.
  method MergeSorted(collected: seq<IndexEntry>, ghost base: map<Hash, IndexEntry>, buffer: map<Hash, IndexEntry>)
    returns (sorted: seq<IndexEntry>)
    requires Distinct(collected) && NonZero(collected) && ListsExactly(collected, base)
    requires Keyed(buffer)
    ensures SortedFile(sorted) && MapOf(sorted) == base + buffer
  {
    var all := collected;
    NothingOnTop(base);
    if buffer != map[] {
      var kept := Without(collected, buffer, base);
      var buffered := Entries(buffer);
      ListsTogether(kept, base - buffer.Keys, buffered, buffer);
      OverrideIsUnion(base, buffer);
      all := kept + buffered;
    }
    sorted := Sorting.Sort(all, ByPrefix());
    SortedFileOf(all, sorted, base + buffer);
  }

  lemma SortedFileOf(all: seq<IndexEntry>, sorted: seq<IndexEntry>, m: map<Hash, IndexEntry>)
    requires Distinct(all) && NonZero(all) && ListsExactly(all, m)
    requires multiset(sorted) == multiset(all) && Sorting.SortedBy(ByPrefix(), sorted)
    ensures SortedFile(sorted) && MapOf(sorted) == m
  {
    PermutedDistinct(all, sorted);
    ListsExactlyPermutes(all, sorted, m);
    MapOfDistinct(sorted);
    MapsAgree(sorted, m, MapOf(sorted));
    SortedNonZero(all, sorted);
    assert forall i, j :: 0 <= i < j < |sorted| ==> ByPrefix()(sorted[i], sorted[j]);
  }

  // A fresh table of n slots holding es.
  method Refill(es: seq<IndexEntry>, n: nat) returns (t: DiskHashTable)
    requires Distinct(es) && NonZero(es)
    requires n >= 2 && 2 * |es| <= n
    ensures fresh(t) && t.Valid() && |t.slots| == n
    ensures t.contents == MapOf(es)
  {
    hide ValidTable;
    t := new DiskHashTable.Create(n);
    var i := 0;
    while i < |es|
      invariant 0 <= i <= |es|
      invariant fresh(t) && t.Valid() && |t.slots| == n
      invariant t.contents == MapOf(es[..i]) && |t.contents| == i
    {
      assert es[..i + 1][..i] == es[..i];
      MapOfDomain(es[..i], es[i].hash);
      var ok := t.Insert(es[i]);
      assert t.contents.Keys == MapOf(es[..i]).Keys + {es[i].hash};
      i := i + 1;
    }
    assert es[..i] == es;
  }

  // ---- Histories ----

  datatype Op =
    | OpInsert(e: IndexEntry)
    | OpFlushDelta
    | OpFlush
    | OpClose
    | OpCloseDiscard
    | OpReopen(skipHtab: bool)

  // The index as a map with a durable copy.
  datatype Spec = Spec(isOpen: bool, view: map<Hash, IndexEntry>, durable: map<Hash, IndexEntry>)

  function SpecStep(s: Spec, op: Op): Spec {
    if !s.isOpen then
      if op.OpReopen? then Spec(true, s.durable, s.durable) else s
    else match op
      case OpInsert(e) => s.(view := s.view[e.hash := e])
      case OpFlushDelta => s
      case OpFlush => s.(durable := s.view)
      case OpClose => Spec(false, map[], s.view)
      case OpCloseDiscard => Spec(false, map[], s.durable)
      case OpReopen(_) => s
  }

  function SpecRun(s: Spec, ops: seq<Op>): Spec {
    if ops == [] then s else SpecStep(SpecRun(s, ops[..|ops| - 1]), ops[|ops| - 1])
  }

  // Any history of operations on the real index is the same history on the map.
  method RunHistory(idx: HashIndex, ops: seq<Op>)
    requires idx.Valid()
    requires forall i :: 0 <= i < |ops| && ops[i].OpInsert? ==> ops[i].e.hash != ZERO
    modifies idx, idx.htab
    ensures idx.Valid() && (idx.htab == old(idx.htab) || idx.htab == null || fresh(idx.htab))
    ensures Spec(idx.isOpen, idx.View(), idx.Durable()) ==
            SpecRun(old(Spec(idx.isOpen, idx.View(), idx.Durable())), ops)
  {
    var i := 0;
    while i < |ops|
      invariant 0 <= i <= |ops|
      invariant idx.Valid() && (idx.htab == old(idx.htab) || idx.htab == null || fresh(idx.htab))
      invariant Spec(idx.isOpen, idx.View(), idx.Durable()) ==
                SpecRun(old(Spec(idx.isOpen, idx.View(), idx.Durable())), ops[..i])
    {
      assert ops[..i + 1][..i] == ops[..i];
      ApplyOp(idx, ops[i]);
      i := i + 1;
    }
    assert ops[..i] == ops;
  }

  method ApplyOp(idx: HashIndex, op: Op)
    requires idx.Valid()
    requires op.OpInsert? ==> op.e.hash != ZERO
    modifies idx, idx.htab
    ensures idx.Valid() && (idx.htab == old(idx.htab) || idx.htab == null || fresh(idx.htab))
    ensures Spec(idx.isOpen, idx.View(), idx.Durable()) ==
            SpecStep(old(Spec(idx.isOpen, idx.View(), idx.Durable())), op)
  {
    if !idx.isOpen {
      if op.OpReopen? {
        idx.Reopen(op.skipHtab);
      }
      return;
    }
    match op {
      case OpInsert(e) => idx.Insert(e);
      case OpFlushDelta => var _ := idx.FlushDelta();
      case OpFlush => idx.Flush();
      case OpClose => idx.Close();
      case OpCloseDiscard => idx.CloseDiscard();
      case OpReopen(_) =>
    }
  }

  // Nothing but a flush changes the durable copy.
  lemma {:induction false} DurableUntouched(s: Spec, ops: seq<Op>)
    requires forall i :: 0 <= i < |ops| ==> !ops[i].OpFlush? && !ops[i].OpClose?
    ensures SpecRun(s, ops).durable == s.durable
  {
    if ops != [] {
      DurableUntouched(s, ops[..|ops| - 1]);
    }
  }

  lemma {:induction false} SpecRunConcat(s: Spec, a: seq<Op>, b: seq<Op>)
    ensures SpecRun(s, a + b) == SpecRun(SpecRun(s, a), b)
  {
    if b == [] {
      assert a + b == a;
    } else {
      SpecRunConcat(s, a, b[..|b| - 1]);
      assert (a + b)[..|a + b| - 1] == a + b[..|b| - 1];
    }
  }

  // Whatever follows a flush, discarding and reopening returns to that flush.
  lemma DiscardReturnsToLastFlush(s: Spec, ops: seq<Op>, tail: seq<Op>, skipHtab: bool)
    requires SpecRun(s, ops).isOpen
    requires forall i :: 0 <= i < |tail| ==> !tail[i].OpFlush? && !tail[i].OpClose?
    ensures var flushed := SpecRun(s, ops).view;
            var after := SpecRun(s, ops + [OpFlush] + tail + [OpCloseDiscard, OpReopen(skipHtab)]);
            after == Spec(true, flushed, flushed)
  {
    var s1 := SpecRun(s, ops);
    SpecRunConcat(s, ops, [OpFlush]);
    assert [OpFlush][..0] == [];
    assert SpecRun(s1, [OpFlush]) == SpecStep(SpecRun(s1, []), OpFlush);
    var s2 := SpecRun(s, ops + [OpFlush]);
    SpecRunConcat(s, ops + [OpFlush], tail);
    DurableUntouched(s2, tail);
    var s3 := SpecRun(s2, tail);
    var last := [OpCloseDiscard, OpReopen(skipHtab)];
    SpecRunConcat(s, ops + [OpFlush] + tail, last);
    assert last[..1] == [OpCloseDiscard] && last[..1][..0] == [];
    assert SpecRun(s3, last) == SpecStep(SpecStep(SpecRun(s3, []), OpCloseDiscard), OpReopen(skipHtab));
  }
}
