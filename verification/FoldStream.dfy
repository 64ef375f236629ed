/** The streaming fold of index deltas (core/index/foldstream.go).

Delta records are collected into slabs of bounded size; each slab is sorted by
hash and sequence number and merged with the sorted base file, one equal-prefix
run at a time.  Whatever the budget, the fold leaves the file the simple merge
would have left: the base overridden by the delta records in order. */
module FoldStream {
  import opened Options
  import opened IndexTypes
  import opened HashTables
  import opened HashIndexes
  import Sorting

  // A slab record: an index entry and its place in the stream of delta records.
  datatype Rec = Rec(e: IndexEntry, num: nat)

  function Ents(recs: seq<Rec>): (es: seq<IndexEntry>)
    ensures |es| == |recs| && forall i :: 0 <= i < |es| ==> es[i] == recs[i].e
  {
    seq(|recs|, i requires 0 <= i < |recs| => recs[i].e)
  }

  lemma EntsConcat(a: seq<Rec>, b: seq<Rec>)
    ensures Ents(a + b) == Ents(a) + Ents(b)
  {
  }

  predicate HashNumLE(a: Rec, b: Rec) {
    a.e.hash.Less(b.e.hash) || (a.e.hash == b.e.hash && a.num <= b.num)
  }

  function ByHashThenNum(): (le: (Rec, Rec) -> bool)
    ensures Sorting.TotalPreorder(le)
  {
    (a: Rec, b: Rec) => HashNumLE(a, b)
  }

  ghost predicate SortedRecs(recs: seq<Rec>) {
    forall i, j :: 0 <= i < j < |recs| ==> HashNumLE(recs[i], recs[j])
  }

  ghost predicate InOrder(recs: seq<Rec>) {
    forall i, j :: 0 <= i < j < |recs| ==> recs[i].num < recs[j].num
  }

  // The last write of a hash is the one the map keeps.
  lemma {:induction false} LastWriteWins(es: seq<IndexEntry>, i: nat)
    requires i < |es|
    requires forall j :: i < j < |es| ==> es[j].hash != es[i].hash
    ensures es[i].hash in MapOf(es) && MapOf(es)[es[i].hash] == es[i]
  {
    if i < |es| - 1 {
      assert es[..|es| - 1][i] == es[i];
      LastWriteWins(es[..|es| - 1], i);
    }
  }

  // The last record of a hash.
  lemma {:induction false} LastOf(recs: seq<Rec>, h: Hash) returns (i: nat)
    requires exists k :: 0 <= k < |recs| && recs[k].e.hash == h
    ensures i < |recs| && recs[i].e.hash == h
    ensures forall j :: i < j < |recs| ==> recs[j].e.hash != h
    ensures h in MapOf(Ents(recs)) && MapOf(Ents(recs))[h] == recs[i].e
  {
    var n := |recs| - 1;
    if recs[n].e.hash == h {
      i := n;
    } else {
      var k :| 0 <= k < |recs| && recs[k].e.hash == h;
      assert recs[..n][k].e.hash == h;
      i := LastOf(recs[..n], h);
    }
    LastWriteWins(Ents(recs), i);
  }

  // Sorting by hash and then number picks the same winners as arrival order.
  lemma WinnersBySorting(arrived: seq<Rec>, sorted: seq<Rec>)
    requires InOrder(arrived) && SortedRecs(sorted)
    requires multiset(arrived) == multiset(sorted)
    ensures MapOf(Ents(sorted)) == MapOf(Ents(arrived))
  {
    forall h ensures Get(MapOf(Ents(sorted)), h) == Get(MapOf(Ents(arrived)), h) {
      WinnerOf(arrived, sorted, h);
    }
    assert forall h :: h in MapOf(Ents(sorted)) <==> Get(MapOf(Ents(sorted)), h).Some?;
    assert forall h :: h in MapOf(Ents(arrived)) <==> Get(MapOf(Ents(arrived)), h).Some?;
  }

  ghost predicate HasHash(recs: seq<Rec>, h: Hash) {
    exists k :: 0 <= k < |recs| && recs[k].e.hash == h
  }

  lemma HashCarriesOver(a: seq<Rec>, b: seq<Rec>, h: Hash)
    requires multiset(a) == multiset(b)
    ensures HasHash(a, h) ==> HasHash(b, h)
  {
    if k :| 0 <= k < |a| && a[k].e.hash == h {
      var l := IndexIn(a, b, k);
      assert b[l].e.hash == h;
    }
  }

  lemma DomainOfEnts(recs: seq<Rec>, h: Hash)
    ensures h in MapOf(Ents(recs)) <==> HasHash(recs, h)
  {
    MapOfDomain(Ents(recs), h);
    if k :| 0 <= k < |recs| && recs[k].e.hash == h {
      assert Ents(recs)[k].hash == h;
    }
  }

  lemma WinnerOf(arrived: seq<Rec>, sorted: seq<Rec>, h: Hash)
    requires InOrder(arrived) && SortedRecs(sorted)
    requires multiset(arrived) == multiset(sorted)
    ensures Get(MapOf(Ents(sorted)), h) == Get(MapOf(Ents(arrived)), h)
  {
    DomainOfEnts(sorted, h);
    DomainOfEnts(arrived, h);
    HashCarriesOver(arrived, sorted, h);
    HashCarriesOver(sorted, arrived, h);
    if HasHash(sorted, h) {
      var i := LastOf(sorted, h);
      var k := IndexIn(sorted, arrived, i);
      var j := LastOf(arrived, h);
      var l := IndexIn(arrived, sorted, j);
      SameWinner(arrived, sorted, i, j, k, l);
    }
  }

  // arrived[j] and sorted[i] are the last of their hash in either order, so
  // neither can have a greater number than the other.
  lemma SameWinner(arrived: seq<Rec>, sorted: seq<Rec>, i: nat, j: nat, k: nat, l: nat)
    requires InOrder(arrived) && SortedRecs(sorted)
    requires l <= i < |sorted| && k <= j < |arrived|
    requires sorted[l] == arrived[j] && arrived[k] == sorted[i]
    requires sorted[i].e.hash == arrived[j].e.hash
    ensures arrived[j] == sorted[i]
  {
    assert sorted[l].num <= sorted[i].num;
    assert arrived[k].num <= arrived[j].num;
  }

  lemma IndexIn(a: seq<Rec>, b: seq<Rec>, i: nat) returns (k: nat)
    requires multiset(a) == multiset(b) && i < |a|
    ensures k < |b| && b[k] == a[i]
  {
    Sorting.SameMembers(a, b, a[i]);
    k :| 0 <= k < |b| && b[k] == a[i];
  }

  method GroupEnd(recs: seq<Rec>, first: nat) returns (last: nat)
    requires first < |recs|
    ensures first <= last < |recs|
    ensures forall i :: first <= i <= last ==> recs[i].e.hash == recs[first].e.hash
    ensures last + 1 < |recs| ==> recs[last + 1].e.hash != recs[first].e.hash
  {
    last := first;
    while last + 1 < |recs| && recs[last + 1].e.hash == recs[first].e.hash
      invariant first <= last < |recs|
      invariant forall i :: first <= i <= last ==> recs[i].e.hash == recs[first].e.hash
    {
      last := last + 1;
    }
  }

  // The records of one prefix in the sorted slab, reduced to the last of each
  // equal-hash group.
  method CollectWinners(recs: seq<Rec>, start: nat, p: uint64) returns (di: nat, wins: seq<IndexEntry>)
    requires SortedRecs(recs) && start <= |recs|
    requires forall i :: start <= i < |recs| ==> p <= recs[i].e.hash.prefix
    ensures start <= di <= |recs|
    ensures forall i :: start <= i < di ==> recs[i].e.hash.prefix == p
    ensures forall i :: di <= i < |recs| ==> p < recs[i].e.hash.prefix
    ensures Distinct(wins) && ListsExactly(wins, MapOf(Ents(recs[start..di])))
  {
    di, wins := start, [];
    assert Ents(recs[start..di]) == [];
    assert ListsExactly(wins, MapOf([]));
    hide MapOf, ListsExactly, SortedRecs, HashNumLE;
    while di < |recs| && recs[di].e.hash.prefix == p
      invariant start <= di <= |recs|
      invariant forall i :: start <= i < di ==> recs[i].e.hash.prefix == p
      invariant forall i, j :: start <= i < di <= j < |recs| ==> recs[i].e.hash != recs[j].e.hash
      invariant Distinct(wins) && ListsExactly(wins, MapOf(Ents(recs[start..di])))
    {
      var last := GroupEnd(recs, di);
      GroupStep(recs, start, di, last, wins);
      wins := wins + [recs[last].e];
      di := last + 1;
    }
    RestAbove(recs, di, p);
  }

  lemma RestAbove(recs: seq<Rec>, di: nat, p: uint64)
    requires SortedRecs(recs) && di <= |recs|
    requires di < |recs| ==> p < recs[di].e.hash.prefix
    ensures forall i :: di <= i < |recs| ==> p < recs[i].e.hash.prefix
  {
    if di < |recs| {
      assert forall i :: di < i < |recs| ==> HashNumLE(recs[di], recs[i]);
    }
  }

  lemma {:induction false} SameHashMap(recs: seq<Rec>, h: Hash)
    requires recs != [] && forall i :: 0 <= i < |recs| ==> recs[i].e.hash == h
    ensures MapOf(Ents(recs)) == map[h := recs[|recs| - 1].e]
  {
    var n := |recs| - 1;
    assert Ents(recs)[..n] == Ents(recs[..n]);
    if n > 0 {
      SameHashMap(recs[..n], h);
    }
  }

  // After the group no record has its hash, because hashes are in order.
  lemma GroupEnds(recs: seq<Rec>, last: nat)
    requires SortedRecs(recs) && last < |recs|
    requires last + 1 < |recs| ==> recs[last + 1].e.hash != recs[last].e.hash
    ensures forall j :: last < j < |recs| ==> recs[j].e.hash != recs[last].e.hash
  {
    forall j | last < j < |recs| ensures recs[j].e.hash != recs[last].e.hash {
      assert HashNumLE(recs[last + 1], recs[j]) || j == last + 1;
      assert HashNumLE(recs[last], recs[last + 1]);
    }
  }

  lemma GroupMap(before: seq<Rec>, group: seq<Rec>, h: Hash)
    requires group != [] && forall i :: 0 <= i < |group| ==> group[i].e.hash == h
    requires forall i :: 0 <= i < |before| ==> before[i].e.hash != h
    ensures h !in MapOf(Ents(before))
    ensures MapOf(Ents(before + group)) == MapOf(Ents(before)) + map[h := group[|group| - 1].e]
  {
    SameHashMap(group, h);
    EntsConcat(before, group);
    MapOfConcat(Ents(before), Ents(group));
    MapOfDomain(Ents(before), h);
  }

  lemma Singleton(e: IndexEntry)
    ensures Distinct([e]) && ListsExactly([e], map[e.hash := e])
  {
    assert [e][0].hash == e.hash;
  }

  lemma GroupStep(recs: seq<Rec>, start: nat, first: nat, last: nat, wins: seq<IndexEntry>)
    requires SortedRecs(recs) && start <= first <= last < |recs|
    requires forall i :: first <= i <= last ==> recs[i].e.hash == recs[first].e.hash
    requires last + 1 < |recs| ==> recs[last + 1].e.hash != recs[first].e.hash
    requires forall i, j :: start <= i < first <= j < |recs| ==> recs[i].e.hash != recs[j].e.hash
    requires Distinct(wins) && ListsExactly(wins, MapOf(Ents(recs[start..first])))
    ensures Distinct(wins + [recs[last].e])
    ensures ListsExactly(wins + [recs[last].e], MapOf(Ents(recs[start..last + 1])))
    ensures forall i, j :: start <= i <= last < j < |recs| ==> recs[i].e.hash != recs[j].e.hash
  {
    hide MapOf;
    GroupEnds(recs, last);
    var before, group := recs[start..first], recs[first..last + 1];
    var e := recs[last].e;
    assert forall i :: 0 <= i < |before| ==> before[i] == recs[start + i];
    GroupMap(before, group, e.hash);
    assert recs[start..last + 1] == before + group;
    Singleton(e);
    ListsTogether(wins, MapOf(Ents(before)), [e], map[e.hash := e]);
  }

  // The end of the base run starting at bi: consecutive entries of one prefix.
  method NextRun(base: seq<IndexEntry>, bi: nat) returns (end: nat)
    requires SortedByPrefix(base) && bi <= |base|
    ensures bi <= end <= |base| && (bi < |base| ==> bi < end)
    ensures forall i :: bi <= i < end ==> base[i].hash.prefix == base[bi].hash.prefix
    ensures forall i :: end <= i < |base| ==> base[bi].hash.prefix < base[i].hash.prefix
  {
    end := bi;
    while end < |base| && base[end].hash.prefix == base[bi].hash.prefix
      invariant bi <= end <= |base| && (bi < |base| && end == bi ==> base[end].hash.prefix == base[bi].hash.prefix)
      invariant forall i :: bi <= i < end ==> base[i].hash.prefix == base[bi].hash.prefix
    {
      end := end + 1;
    }
  }

  method Overridden(h: Hash, wins: seq<IndexEntry>) returns (found: bool)
    ensures found <==> exists j :: 0 <= j < |wins| && wins[j].hash == h
  {
    var j := 0;
    while j < |wins|
      invariant 0 <= j <= |wins|
      invariant forall i :: 0 <= i < j ==> wins[i].hash != h
    {
      if wins[j].hash == h {
        return true;
      }
      j := j + 1;
    }
    return false;
  }

  // Base entries of a run that no winner overrides.
  method NotOverridden(run: seq<IndexEntry>, wins: seq<IndexEntry>, ghost mw: map<Hash, IndexEntry>)
    returns (kept: seq<IndexEntry>)
    requires Distinct(run)
    requires ListsExactly(wins, mw)
    ensures Distinct(kept) && ListsExactly(kept, MapOf(run) - mw.Keys)
  {
    kept := [];
    var i := 0;
    while i < |run|
      invariant 0 <= i <= |run|
      invariant Distinct(kept)
      invariant forall j :: 0 <= j < |kept| ==> kept[j] in run[..i] && kept[j].hash !in mw
      invariant forall e :: e in run[..i] && e.hash !in mw ==> e in kept
    {
      var skip := Overridden(run[i].hash, wins);
      assert skip <==> run[i].hash in mw;
      if !skip {
        forall j | 0 <= j < |kept| ensures kept[j].hash != run[i].hash {
          assert kept[j] in run[..i];
        }
        kept := kept + [run[i]];
      }
      i := i + 1;
    }
    assert run[..i] == run;
    MapOfDistinct(run);
    KeptLists(run, mw, MapOf(run), kept);
  }

  // ---- One merge pass ----

  // Everything written so far comes from before the cursors and lies below the
  // prefixes still to come.
  ghost predicate Merged(base: seq<IndexEntry>, bi: nat, recs: seq<Rec>, di: nat, out: seq<IndexEntry>) {
    && bi <= |base| && di <= |recs|
    && SortedFile(base) && SortedRecs(recs)
    && SortedByPrefix(out) && Distinct(out)
    && ListsExactly(out, MapOf(base[..bi]) + MapOf(Ents(recs[..di])))
  }

  ghost predicate Below(out: seq<IndexEntry>, p: nat) {
    forall i :: 0 <= i < |out| ==> out[i].hash.prefix < p
  }

  lemma MapPrefix(es: seq<IndexEntry>, p: uint64)
    requires forall i :: 0 <= i < |es| ==> es[i].hash.prefix == p
    ensures forall h :: h in MapOf(es) ==> h.prefix == p
  {
    forall h | h in MapOf(es) ensures h.prefix == p {
      MapOfDomain(es, h);
    }
  }

  lemma UnionByPrefix(b0: map<Hash, IndexEntry>, run: map<Hash, IndexEntry>, s0: map<Hash, IndexEntry>,
                      wins: map<Hash, IndexEntry>)
    requires run.Keys !! s0.Keys
    ensures (b0 + run) + (s0 + wins) == (b0 + s0) + ((run - wins.Keys) + wins)
  {
  }

  // Writing one prefix's survivors and winners.
  lemma WritePrefix(base: seq<IndexEntry>, bi: nat, be: nat, recs: seq<Rec>, di: nat, de: nat,
                    out: seq<IndexEntry>, kept: seq<IndexEntry>, wins: seq<IndexEntry>, p: uint64)
    requires Merged(base, bi, recs, di, out) && Below(out, p)
    requires bi <= be <= |base| && di <= de <= |recs|
    requires forall i :: bi <= i < be ==> base[i].hash.prefix == p
    requires forall i :: di <= i < de ==> recs[i].e.hash.prefix == p
    requires Distinct(wins) && ListsExactly(wins, MapOf(Ents(recs[di..de])))
    requires Distinct(kept) && ListsExactly(kept, MapOf(base[bi..be]) - MapOf(Ents(recs[di..de])).Keys)
    ensures Merged(base, be, recs, de, out + kept + wins)
    ensures Below(out + kept + wins, p + 1)
  {
    hide MapOf;
    CursorMaps(base, bi, be, recs, di, de);
    MapPrefix(base[bi..be], p);
    MapPrefix(Ents(recs[di..de]), p);
    assert out + kept + wins == out + (kept + wins);
    WriteLists(out, kept, wins, MapOf(base[..bi]), MapOf(base[bi..be]), MapOf(Ents(recs[..di])),
               MapOf(Ents(recs[di..de])), p);
  }

  lemma WriteLists(out: seq<IndexEntry>, kept: seq<IndexEntry>, wins: seq<IndexEntry>, b0: map<Hash, IndexEntry>,
                   run: map<Hash, IndexEntry>, s0: map<Hash, IndexEntry>, mw: map<Hash, IndexEntry>, p: uint64)
    requires SortedByPrefix(out) && Distinct(out) && Below(out, p) && ListsExactly(out, b0 + s0)
    requires Distinct(kept) && ListsExactly(kept, run - mw.Keys)
    requires Distinct(wins) && ListsExactly(wins, mw)
    requires forall h :: h in run || h in mw ==> h.prefix == p
    ensures SortedByPrefix(out + (kept + wins)) && Below(out + (kept + wins), p + 1)
    ensures Distinct(out + (kept + wins))
    ensures ListsExactly(out + (kept + wins), (b0 + run) + (s0 + mw))
  {
    OutKeys(out, b0 + s0, p);
    AppendParts(out, kept, wins, b0 + s0, run, mw);
    AppendPrefix(out, kept + wins, run, mw, p);
    UnionByPrefix(b0, run, s0, mw);
  }

  lemma AppendParts(out: seq<IndexEntry>, kept: seq<IndexEntry>, wins: seq<IndexEntry>, m: map<Hash, IndexEntry>,
                    run: map<Hash, IndexEntry>, mw: map<Hash, IndexEntry>)
    requires Distinct(out) && ListsExactly(out, m)
    requires Distinct(kept) && ListsExactly(kept, run - mw.Keys)
    requires Distinct(wins) && ListsExactly(wins, mw)
    requires m.Keys !! run.Keys && m.Keys !! mw.Keys
    ensures Distinct(kept + wins) && ListsExactly(kept + wins, (run - mw.Keys) + mw)
    ensures Distinct(out + (kept + wins)) && ListsExactly(out + (kept + wins), m + ((run - mw.Keys) + mw))
  {
    hide ListsExactly, Distinct;
    ListsTogether(kept, run - mw.Keys, wins, mw);
    ListsTogether(out, m, kept + wins, (run - mw.Keys) + mw);
  }

  lemma CursorMaps(base: seq<IndexEntry>, bi: nat, be: nat, recs: seq<Rec>, di: nat, de: nat)
    requires bi <= be <= |base| && di <= de <= |recs|
    ensures MapOf(base[..be]) == MapOf(base[..bi]) + MapOf(base[bi..be])
    ensures MapOf(Ents(recs[..de])) == MapOf(Ents(recs[..di])) + MapOf(Ents(recs[di..de]))
  {
    assert base[..be] == base[..bi] + base[bi..be];
    MapOfConcat(base[..bi], base[bi..be]);
    assert recs[..de] == recs[..di] + recs[di..de];
    EntsConcat(recs[..di], recs[di..de]);
    MapOfConcat(Ents(recs[..di]), Ents(recs[di..de]));
  }

  lemma OutKeys(out: seq<IndexEntry>, m: map<Hash, IndexEntry>, p: uint64)
    requires ListsExactly(out, m) && Below(out, p)
    ensures forall h :: h in m ==> h.prefix < p
  {
    forall h | h in m ensures h.prefix < p {
      var i :| 0 <= i < |out| && out[i].hash == h;
    }
  }

  lemma AppendPrefix(out: seq<IndexEntry>, tail: seq<IndexEntry>, run: map<Hash, IndexEntry>,
                     mw: map<Hash, IndexEntry>, p: uint64)
    requires SortedByPrefix(out) && Below(out, p)
    requires ListsExactly(tail, (run - mw.Keys) + mw)
    requires forall h :: h in run || h in mw ==> h.prefix == p
    ensures SortedByPrefix(out + tail) && Below(out + tail, p + 1)
  {
    forall i | 0 <= i < |tail| ensures tail[i].hash.prefix == p {
      assert tail[i].hash in (run - mw.Keys) + mw;
    }
  }

  method MergePass(base: seq<IndexEntry>, slab: seq<Rec>) returns (out: seq<IndexEntry>)
    requires SortedFile(base) && InOrder(slab) && NonZero(Ents(slab))
    ensures SortedFile(out)
    ensures MapOf(out) == MapOf(base) + MapOf(Ents(slab))
  {
    hide MapOf;
    var recs := Sorting.Sort(slab, ByHashThenNum());
    assert SortedRecs(recs) by {
      assert forall i, j :: 0 <= i < j < |recs| ==> ByHashThenNum()(recs[i], recs[j]);
    }
    WinnersBySorting(slab, recs);
    out := MergeSortedRecs(base, recs);
    forall i | 0 <= i < |recs| ensures recs[i].e.hash != ZERO {
      var k := IndexIn(recs, slab, i);
      assert Ents(slab)[k] == slab[k].e;
    }
    MergedWhole(base, recs, out);
  }

  lemma MergedWhole(base: seq<IndexEntry>, recs: seq<Rec>, out: seq<IndexEntry>)
    requires Merged(base, |base|, recs, |recs|, out)
    requires forall i :: 0 <= i < |recs| ==> recs[i].e.hash != ZERO
    ensures SortedFile(out) && MapOf(out) == MapOf(base) + MapOf(Ents(recs))
  {
    assert base[..|base|] == base && recs[..|recs|] == recs;
    MapOfDistinct(out);
    MapsAgree(out, MapOf(out), MapOf(base) + MapOf(Ents(recs)));
    forall i | 0 <= i < |out| ensures out[i].hash != ZERO {
      MapOfDomain(base, out[i].hash);
      MapOfDomain(Ents(recs), out[i].hash);
      assert out[i].hash in MapOf(base) || out[i].hash in MapOf(Ents(recs));
    }
  }

  // The prefix to write next: the lower of the two cursors'.
  method LowestPrefix(base: seq<IndexEntry>, bi: nat, recs: seq<Rec>, di: nat) returns (p: uint64)
    requires bi <= |base| && di <= |recs| && (bi < |base| || di < |recs|)
    requires SortedRecs(recs)
    ensures bi < |base| ==> p <= base[bi].hash.prefix
    ensures forall i :: di <= i < |recs| ==> p <= recs[i].e.hash.prefix
    ensures (bi < |base| && p == base[bi].hash.prefix) || (di < |recs| && p == recs[di].e.hash.prefix)
  {
    if bi == |base| {
      p := recs[di].e.hash.prefix;
    } else if di >= |recs| {
      p := base[bi].hash.prefix;
    } else {
      p := base[bi].hash.prefix;
      if recs[di].e.hash.prefix < p {
        p := recs[di].e.hash.prefix;
      }
    }
    if di < |recs| {
      assert forall i :: di < i < |recs| ==> HashNumLE(recs[di], recs[i]);
    }
  }

  method MergeSortedRecs(base: seq<IndexEntry>, recs: seq<Rec>) returns (out: seq<IndexEntry>)
    requires SortedFile(base) && SortedRecs(recs)
    ensures Merged(base, |base|, recs, |recs|, out)
  {
    out := [];
    var bi, di := 0, 0;
    NothingMerged(base, recs);
    var be := NextRun(base, 0);
    hide Merged, MapOf, SortedRecs, HashNumLE;
    while bi < |base| || di < |recs|
      invariant 0 <= bi <= be <= |base| && 0 <= di <= |recs|
      invariant Merged(base, bi, recs, di, out)
      invariant bi < |base| ==> bi < be && Below(out, base[bi].hash.prefix)
      invariant bi < |base| ==> forall i :: bi <= i < be ==> base[i].hash.prefix == base[bi].hash.prefix
      invariant bi < |base| ==> forall i :: be <= i < |base| ==> base[bi].hash.prefix < base[i].hash.prefix
      invariant di < |recs| ==> Below(out, recs[di].e.hash.prefix)
      decreases |base| - bi + |recs| - di
    {
      var p := LowestPrefix(base, bi, recs, di);
      var de, wins := CollectWinners(recs, di, p);
      var re := bi;
      if bi < |base| && base[bi].hash.prefix == p {
        re := be;
      }
      var kept := NotOverridden(base[bi..re], wins, MapOf(Ents(recs[di..de])));
      WritePrefix(base, bi, re, recs, di, de, out, kept, wins, p);
      out := out + kept + wins;
      di := de;
      if bi < re {
        bi := re;
        be := NextRun(base, bi);
      }
    }
  }

  lemma NothingMerged(base: seq<IndexEntry>, recs: seq<Rec>)
    requires SortedFile(base) && SortedRecs(recs)
    ensures Merged(base, 0, recs, 0, [])
  {
    assert base[..0] == [] && Ents(recs[..0]) == [];
  }
}
