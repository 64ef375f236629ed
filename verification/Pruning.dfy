/** Rewriting the packs so that only referenced chunks remain (core/prune), and the
forget that leads up to it (core/forget). */
module Pruning {
  import opened Options
  import opened Sorting
  import opened BackupModel
  import F = Forget

  datatype IndexEntry = IndexEntry(hash: Hash, loc: Loc, len: nat)

  function Hashes(es: seq<IndexEntry>): set<Hash> {
    set i | 0 <= i < |es| :: es[i].hash
  }

  // ---- First occurrences ----

  // The entries whose hash no earlier entry has.
  function FirstOf(es: seq<IndexEntry>): (r: seq<IndexEntry>)
    ensures |r| <= |es|
  {
    if es == [] then []
    else
      var front, last := es[..|es| - 1], es[|es| - 1];
      if last.hash in Hashes(front) then FirstOf(front) else FirstOf(front) + [last]
  }

  // Where a chunk is read from: its first entry.
  ghost predicate FirstAt(es: seq<IndexEntry>, h: Hash, e: IndexEntry) {
    exists i :: 0 <= i < |es| && es[i] == e && e.hash == h && h !in Hashes(es[..i])
  }

  ghost predicate Distinct(es: seq<IndexEntry>) {
    forall i, j :: 0 <= i < j < |es| ==> es[i].hash != es[j].hash
  }

  lemma HashesOneMore(es: seq<IndexEntry>, e: IndexEntry)
    ensures Hashes(es + [e]) == Hashes(es) + {e.hash}
  {
    var es' := es + [e];
    assert es'[|es|] == e;
    forall i | 0 <= i < |es| ensures es'[i] == es[i] {}
  }

  lemma {:induction false} FirstOfHashes(es: seq<IndexEntry>)
    ensures Hashes(FirstOf(es)) == Hashes(es) && Distinct(FirstOf(es))
  {
    if es != [] {
      var front, last := es[..|es| - 1], es[|es| - 1];
      FirstOfHashes(front);
      assert es == front + [last];
      HashesOneMore(front, last);
      HashesOneMore(FirstOf(front), last);
      forall i | 0 <= i < |FirstOf(front)| ensures FirstOf(front)[i].hash in Hashes(front) {}
    }
  }

  lemma {:induction false} FirstOfIsFirst(es: seq<IndexEntry>, e: IndexEntry)
    requires e in FirstOf(es)
    ensures FirstAt(es, e.hash, e)
  {
    var front, last := es[..|es| - 1], es[|es| - 1];
    if e in FirstOf(front) {
      FirstOfIsFirst(front, e);
      var i :| 0 <= i < |front| && front[i] == e && e.hash !in Hashes(front[..i]);
      assert es[i] == e && es[..i] == front[..i];
    } else {
      assert es[|es| - 1] == e && e.hash !in Hashes(es[..|es| - 1]);
    }
  }

  lemma FirstOneMore(es: seq<IndexEntry>, i: nat)
    requires i < |es|
    ensures FirstOf(es[..i + 1]) ==
            if es[i].hash in Hashes(es[..i]) then FirstOf(es[..i]) else FirstOf(es[..i]) + [es[i]]
    ensures Hashes(es[..i + 1]) == Hashes(es[..i]) + {es[i].hash}
  {
    assert es[..i + 1][..i] == es[..i] && es[..i + 1] == es[..i] + [es[i]];
    HashesOneMore(es[..i], es[i]);
  }

  // Compact a slice in place, as the source does.
  method DedupeInPlace(a: array<IndexEntry>, n: nat) returns (k: nat)
    requires n <= a.Length
    modifies a
    ensures k <= n && a[..k] == FirstOf(old(a[..n]))
  {
    hide FirstOf, Hashes;
    ghost var was := a[..n];
    var seen := {};
    var i := 0;
    k := 0;
    NoEntries(was);
    while i < n
      invariant 0 <= k <= i <= n
      invariant a[..k] == FirstOf(was[..i])
      invariant forall j :: i <= j < n ==> a[j] == was[j]
      invariant seen == Hashes(was[..i])
    {
      FirstOneMore(was, i);
      if a[i].hash !in seen {
        seen := seen + {a[i].hash};
        a[k] := a[i];
        k := k + 1;
      }
      i := i + 1;
    }
    assert was[..n] == was;
  }

  lemma NoEntries(es: seq<IndexEntry>)
    ensures FirstOf(es[..0]) == [] && Hashes(es[..0]) == {}
  {
  }

  // ---- Rewriting ----

  predicate InOrder(a: IndexEntry, b: IndexEntry) {
    if a.loc.pack != b.loc.pack then a.loc.pack < b.loc.pack else a.loc.pos <= b.loc.pos
  }

  lemma PackOrder()
    ensures TotalPreorder(InOrder)
  {
  }

  // The new packs hold exactly the frames of es, and the new index says where.
  ghost predicate Carried(packs: Packs, es: seq<IndexEntry>, packs': Packs, index': map<Hash, Loc>) {
    && index'.Keys == Hashes(es)
    && (forall i :: 0 <= i < |es| ==>
          && es[i].hash in index' && InPacks(packs, es[i].loc)
          && InPacks(packs', index'[es[i].hash])
          && FrameAt(packs', index'[es[i].hash]) == FrameAt(packs, es[i].loc))
    && (forall loc :: InPacks(packs', loc) ==> exists h :: h in index' && index'[h] == loc)
    && (forall g, h :: g in index' && h in index' && index'[g] == index'[h] ==> g == h)
  }

  function Appended(packs: Packs, p: nat, frame: Data): Packs {
    packs[p := Frames(packs, p) + [frame]]
  }

  lemma AppendedFrames(packs: Packs, p: nat, frame: Data)
    ensures var packs', loc := Appended(packs, p, frame), Loc(p, |Frames(packs, p)|);
            && Extends(packs, packs') && !InPacks(packs, loc)
            && InPacks(packs', loc) && FrameAt(packs', loc) == frame
            && forall l :: InPacks(packs', l) ==> l == loc || InPacks(packs, l)
  {
  }

  lemma CarryOne(packs: Packs, es: seq<IndexEntry>, e: IndexEntry, packs1: Packs, index1: map<Hash, Loc>, p: nat)
    requires Carried(packs, es, packs1, index1) && e.hash !in Hashes(es) && InPacks(packs, e.loc)
    ensures Carried(packs, es + [e], Appended(packs1, p, FrameAt(packs, e.loc)),
                    index1[e.hash := Loc(p, |Frames(packs1, p)|)])
  {
    hide Appended;
    var es', packs2, loc := es + [e], Appended(packs1, p, FrameAt(packs, e.loc)), Loc(p, |Frames(packs1, p)|);
    var index2 := index1[e.hash := loc];
    AppendedFrames(packs1, p, FrameAt(packs, e.loc));
    HashesOneMore(es, e);
    forall i | 0 <= i < |es'|
      ensures es'[i].hash in index2 && InPacks(packs, es'[i].loc)
      ensures InPacks(packs2, index2[es'[i].hash]) && FrameAt(packs2, index2[es'[i].hash]) == FrameAt(packs, es'[i].loc)
    {
      if i < |es| {
        assert es'[i] == es[i] && es[i].hash in Hashes(es);
      }
    }
    forall l | InPacks(packs2, l) ensures exists h :: h in index2 && index2[h] == l {
      if l == loc {
        assert index2[e.hash] == l;
      } else {
        var h :| h in index1 && index1[h] == l;
        assert index2[h] == l;
      }
    }
    forall h | h in index1 ensures index1[h] != loc {
      FrameOfEntry(packs, es, packs1, index1, h);
    }
  }

  lemma FrameOfEntry(packs: Packs, es: seq<IndexEntry>, packs1: Packs, index1: map<Hash, Loc>, h: Hash)
    requires Carried(packs, es, packs1, index1) && h in index1
    ensures InPacks(packs1, index1[h])
  {
    assert h in Hashes(es);
  }

  predicate PlaceBefore(a: Loc, b: Loc) {
    a.pack < b.pack || (a.pack == b.pack && a.pos < b.pos)
  }

  ghost predicate InSequence(es: seq<IndexEntry>, index': map<Hash, Loc>) {
    && (forall i :: 0 <= i < |es| ==> es[i].hash in index')
    && forall i, j :: 0 <= i < j < |es| ==> PlaceBefore(index'[es[i].hash], index'[es[j].hash])
  }

  // The packs from 0 to last are filled one after the other: each takes frames until it is
  // full, and none after.
  ghost predicate Filled(packs: Packs, last: nat, full: seq<Data> -> bool) {
    && (forall q :: q in packs ==> q <= last)
    && (forall q: nat :: q < last ==> Frames(packs, q) != [] && full(Frames(packs, q)))
    && (forall q: nat, k :: 0 < k < |Frames(packs, q)| ==> !full(Frames(packs, q)[..k]))
  }

  ghost predicate WellFilled(packs: Packs, full: seq<Data> -> bool) {
    exists last: nat :: Filled(packs, last, full)
  }

  lemma FillOne(packs: Packs, p: nat, full: seq<Data> -> bool, frame: Data)
    requires Filled(packs, p, full)
    ensures var p' := if Frames(packs, p) != [] && full(Frames(packs, p)) then p + 1 else p;
            Filled(Appended(packs, p', frame), p', full)
  {
    var p' := if Frames(packs, p) != [] && full(Frames(packs, p)) then p + 1 else p;
    var packs' := Appended(packs, p', frame);
    assert forall q: nat :: q != p' ==> Frames(packs', q) == Frames(packs, q);
    forall q: nat, k | 0 < k < |Frames(packs', q)| ensures !full(Frames(packs', q)[..k]) {
      if q == p' {
        assert Frames(packs', q)[..k] == Frames(packs, q)[..k];
        assert k == |Frames(packs, q)| ==> Frames(packs, q)[..k] == Frames(packs, q);
      }
    }
  }

  lemma SequenceOneMore(packs: Packs, es: seq<IndexEntry>, e: IndexEntry, packs1: Packs, index1: map<Hash, Loc>, p: nat)
    requires Carried(packs, es, packs1, index1) && InSequence(es, index1) && e.hash !in Hashes(es)
    requires forall q :: q in packs1 ==> q <= p
    ensures InSequence(es + [e], index1[e.hash := Loc(p, |Frames(packs1, p)|)])
  {
    forall i | 0 <= i < |es| ensures es[i].hash != e.hash {
      assert es[i].hash in Hashes(es);
    }
  }

  // Copy the frames of es into new packs, in order.  None: a frame could not be read.
  method RewriteChunks(packs: Packs, es: seq<IndexEntry>, full: seq<Data> -> bool)
    returns (res: Option<(Packs, map<Hash, Loc>)>)
    requires Distinct(es)
    ensures res.None? <==> exists i :: 0 <= i < |es| && !InPacks(packs, es[i].loc)
    ensures res.Some? ==> Carried(packs, es, res.value.0, res.value.1)
    ensures res.Some? ==> InSequence(es, res.value.1) && WellFilled(res.value.0, full)
  {
    hide Carried, Appended, InSequence, Filled;
    var packs': Packs, index': map<Hash, Loc>, p := map[], map[], 0;
    NothingFilled(full);
    assert Carried(packs, es[..0], packs', index') by {
      NothingCarried(packs);
      assert es[..0] == [];
    }
    var i := 0;
    while i < |es|
      invariant 0 <= i <= |es|
      invariant Carried(packs, es[..i], packs', index')
      invariant InSequence(es[..i], index') && Filled(packs', p, full)
      invariant forall j :: 0 <= j < i ==> InPacks(packs, es[j].loc)
    {
      var e := es[i];
      if !InPacks(packs, e.loc) {
        return None;
      }
      FillOne(packs', p, full, FrameAt(packs, e.loc));
      UpTo(packs', p, full);
      if Frames(packs', p) != [] && full(Frames(packs', p)) {
        p := p + 1;
      }
      CarryOne(packs, es[..i], e, packs', index', p);
      SequenceOneMore(packs, es[..i], e, packs', index', p);
      assert es[..i + 1] == es[..i] + [e];
      index' := index'[e.hash := Loc(p, |Frames(packs', p)|)];
      packs' := Appended(packs', p, FrameAt(packs, e.loc));
      i := i + 1;
    }
    assert es[..i] == es;
    res := Some((packs', index'));
  }

  lemma NothingFilled(full: seq<Data> -> bool)
    ensures Filled(map[], 0, full) && InSequence([], map[])
  {
  }

  lemma UpTo(packs: Packs, p: nat, full: seq<Data> -> bool)
    requires Filled(packs, p, full)
    ensures forall q :: q in packs ==> q <= p
  {
  }

  lemma NothingCarried(packs: Packs)
    ensures Carried(packs, [], map[], map[])
  {
  }

  // ---- Prune ----

  // Some manifest lists the chunk.
  ghost predicate Referenced(ms: map<string, F.Manifest>, h: Hash) {
    exists id :: id in ms && h in ms[id].hashes
  }

  // So does the caller: a suspended backup's prefix is wanted before it has a manifest.
  ghost predicate Wanted(ms: map<string, F.Manifest>, extra: set<Hash>, h: Hash) {
    h in extra || Referenced(ms, h)
  }

  method CollectReferenced(ms: map<string, F.Manifest>) returns (referenced: set<Hash>)
    ensures forall h :: h in referenced <==> Referenced(ms, h)
  {
    referenced := {};
    var rest := ms.Keys;
    while rest != {}
      invariant rest <= ms.Keys
      invariant forall h :: h in referenced <==> exists id :: id in ms.Keys - rest && h in ms[id].hashes
      decreases rest
    {
      var id :| id in rest;
      ghost var before, done := referenced, ms.Keys - rest;
      var hs := ms[id].hashes;
      referenced := referenced + (set i | 0 <= i < |hs| :: hs[i]);
      rest := rest - {id};
      forall h ensures h in referenced <==> exists id :: id in ms.Keys - rest && h in ms[id].hashes {
        assert h in hs <==> h in (set i | 0 <= i < |hs| :: hs[i]);
        assert ms.Keys - rest == done + {id};
      }
    }
  }

  datatype Pruned = Unreadable | Unchanged | Rewritten(packs: Packs, index: map<Hash, Loc>)

  // The entries a prune keeps.
  function Kept(entries: seq<IndexEntry>, referenced: set<Hash>): seq<IndexEntry> {
    if entries == [] then []
    else
      var front, e := entries[..|entries| - 1], entries[|entries| - 1];
      if e.hash in referenced then Kept(front, referenced) + [e] else Kept(front, referenced)
  }

  lemma {:induction false} KeptHashes(entries: seq<IndexEntry>, referenced: set<Hash>)
    ensures Hashes(Kept(entries, referenced)) == Hashes(entries) * referenced
  {
    if entries != [] {
      var front, e := entries[..|entries| - 1], entries[|entries| - 1];
      KeptHashes(front, referenced);
      HashesOneMore(front, e);
      HashesOneMore(Kept(front, referenced), e);
      assert entries == front + [e];
    }
  }

  // The first kept entry of a referenced hash is its first entry of all.
  lemma {:induction false} KeptFirst(entries: seq<IndexEntry>, referenced: set<Hash>, e: IndexEntry)
    requires FirstAt(Kept(entries, referenced), e.hash, e)
    ensures FirstAt(entries, e.hash, e)
  {
    var front, last := entries[..|entries| - 1], entries[|entries| - 1];
    var ks, kf := Kept(entries, referenced), Kept(front, referenced);
    var i :| 0 <= i < |ks| && ks[i] == e && e.hash !in Hashes(ks[..i]);
    if i < |kf| {
      assert kf[i] == e && kf[..i] == ks[..i];
      KeptFirst(front, referenced, e);
      var j :| 0 <= j < |front| && front[j] == e && e.hash !in Hashes(front[..j]);
      assert entries[j] == e && entries[..j] == front[..j];
    } else {
      assert ks[..i] == kf && e == last && e.hash in referenced;
      KeptHashes(front, referenced);
      assert entries[|entries| - 1] == e && e.hash !in Hashes(entries[..|entries| - 1]);
    }
  }

  // What a rewrite leaves: exactly the indexed chunks that are referenced, each
  // with the frame its first entry had, and no other frames.
  ghost predicate Survives(packs: Packs, entries: seq<IndexEntry>, ms: map<string, F.Manifest>, extra: set<Hash>,
                           packs': Packs, index': map<Hash, Loc>) {
    && (forall h :: h in index' <==> h in Hashes(entries) && Wanted(ms, extra, h))
    && (forall h, e :: h in index' && FirstAt(entries, h, e) ==>
          && InPacks(packs, e.loc) && InPacks(packs', index'[h])
          && FrameAt(packs', index'[h]) == FrameAt(packs, e.loc))
    && (forall loc :: InPacks(packs', loc) ==> exists h :: h in index' && index'[h] == loc)
  }

  lemma EarlierHashes(es: seq<IndexEntry>, i: nat)
    requires i <= |es|
    ensures forall k :: 0 <= k < i ==> es[k].hash in Hashes(es[..i])
  {
    forall k | 0 <= k < i ensures es[k].hash in Hashes(es[..i]) {
      assert es[..i][k] == es[k];
    }
  }

  lemma FirstIsUnique(es: seq<IndexEntry>, h: Hash, e: IndexEntry, f: IndexEntry)
    requires FirstAt(es, h, e) && FirstAt(es, h, f)
    ensures e == f
  {
    var i :| 0 <= i < |es| && es[i] == e && h !in Hashes(es[..i]);
    var j :| 0 <= j < |es| && es[j] == f && h !in Hashes(es[..j]);
    EarlierHashes(es, i);
    EarlierHashes(es, j);
  }

  lemma CarriedSurvives(packs: Packs, entries: seq<IndexEntry>, ms: map<string, F.Manifest>, extra: set<Hash>,
                        referenced: set<Hash>, es: seq<IndexEntry>, packs': Packs, index': map<Hash, Loc>)
    requires forall h :: h in referenced <==> Wanted(ms, extra, h)
    requires forall e :: e in es <==> e in FirstOf(Kept(entries, referenced))
    requires Hashes(es) == Hashes(Kept(entries, referenced))
    requires Carried(packs, es, packs', index')
    ensures Survives(packs, entries, ms, extra, packs', index')
  {
    hide FirstAt, Referenced, FirstOf, Kept;
    KeptHashes(entries, referenced);
    forall h, e | h in index' && FirstAt(entries, h, e)
      ensures InPacks(packs, e.loc) && InPacks(packs', index'[h]) && FrameAt(packs', index'[h]) == FrameAt(packs, e.loc)
    {
      var i :| 0 <= i < |es| && es[i].hash == h;
      FirstOfIsFirst(Kept(entries, referenced), es[i]);
      KeptFirst(entries, referenced, es[i]);
      FirstIsUnique(entries, h, e, es[i]);
    }
  }

  method SelectReferenced(entries: seq<IndexEntry>, referenced: set<Hash>) returns (es: seq<IndexEntry>)
    ensures es == Kept(entries, referenced)
  {
    es := [];
    var i := 0;
    while i < |entries|
      invariant 0 <= i <= |entries| && es == Kept(entries[..i], referenced)
    {
      assert entries[..i + 1][..i] == entries[..i];
      if entries[i].hash in referenced {
        es := es + [entries[i]];
      }
      i := i + 1;
    }
    assert entries[..i] == entries;
  }

  method Dedupe(es: seq<IndexEntry>) returns (firsts: seq<IndexEntry>)
    ensures firsts == FirstOf(es)
  {
    var a := new IndexEntry[|es|](i requires 0 <= i < |es| => es[i]);
    assert a[..a.Length] == es;
    var k := DedupeInPlace(a, a.Length);
    firsts := a[..k];
  }

  method SortByPlace(es: seq<IndexEntry>) returns (sorted: seq<IndexEntry>)
    requires Distinct(es)
    ensures SortedBy(InOrder, sorted) && Distinct(sorted) && Hashes(sorted) == Hashes(es)
    ensures forall e :: e in sorted <==> e in es
  {
    PackOrder();
    sorted := Sort(es, InOrder);
    forall e ensures e in sorted <==> e in es {
      SameMembers(sorted, es, e);
    }
    PermutedDistinct(es, sorted);
    assert forall h :: h in Hashes(es) <==> exists e :: e in es && e.hash == h;
    assert forall h :: h in Hashes(sorted) <==> exists e :: e in sorted && e.hash == h;
  }

  lemma PermutedDistinct(a: seq<IndexEntry>, b: seq<IndexEntry>)
    requires Distinct(a) && multiset(b) == multiset(a)
    ensures Distinct(b)
  {
    PermutedApart(a, b, (e: IndexEntry) => e.hash);
  }

  // Every entry is wanted, and no hash has two.
  ghost predicate NothingToDo(entries: seq<IndexEntry>, ms: map<string, F.Manifest>, extra: set<Hash>) {
    Distinct(entries) && forall h :: h in Hashes(entries) ==> Wanted(ms, extra, h)
  }

  // A wanted chunk cannot be read where its first entry says.
  ghost predicate Missing(packs: Packs, entries: seq<IndexEntry>, ms: map<string, F.Manifest>, extra: set<Hash>) {
    exists e: IndexEntry :: FirstAt(entries, e.hash, e) && Wanted(ms, extra, e.hash) && !InPacks(packs, e.loc)
  }

  // Frames are in the order they were in before.
  ghost predicate OrderKept(entries: seq<IndexEntry>, index': map<Hash, Loc>) {
    forall d: IndexEntry, e: IndexEntry ::
      FirstAt(entries, d.hash, d) && FirstAt(entries, e.hash, e) && d.hash in index' && e.hash in index' ==>
        PlaceBefore(d.loc, e.loc) ==> PlaceBefore(index'[d.hash], index'[e.hash])
  }

  // What a prune does, and exactly when.
  ghost predicate Outcome(packs: Packs, entries: seq<IndexEntry>, ms: map<string, F.Manifest>, extra: set<Hash>,
                          full: seq<Data> -> bool, res: Pruned) {
    if NothingToDo(entries, ms, extra) then res.Unchanged?
    else if Missing(packs, entries, ms, extra) then res.Unreadable?
    else
      && res.Rewritten? && Survives(packs, entries, ms, extra, res.packs, res.index)
      && OrderKept(entries, res.index) && WellFilled(res.packs, full)
  }

  lemma NoneMissing(packs: Packs, entries: seq<IndexEntry>, ms: map<string, F.Manifest>, extra: set<Hash>,
                    packs': Packs, index': map<Hash, Loc>)
    requires Survives(packs, entries, ms, extra, packs', index')
    ensures !Missing(packs, entries, ms, extra)
  {
    hide Wanted, InPacks;
    forall e: IndexEntry | FirstAt(entries, e.hash, e) && Wanted(ms, extra, e.hash)
      ensures InPacks(packs, e.loc)
    {
      assert e.hash in Hashes(entries);
    }
  }

  lemma SortedStaysSorted(entries: seq<IndexEntry>, referenced: set<Hash>, es: seq<IndexEntry>, index': map<Hash, Loc>)
    requires forall e :: e in es <==> e in FirstOf(Kept(entries, referenced))
    requires SortedBy(InOrder, es) && InSequence(es, index') && index'.Keys == Hashes(es)
    ensures OrderKept(entries, index')
  {
    hide FirstAt, FirstOf, Kept;
    forall d: IndexEntry, e: IndexEntry |
      && FirstAt(entries, d.hash, d) && FirstAt(entries, e.hash, e) && d.hash in index' && e.hash in index'
      && PlaceBefore(d.loc, e.loc)
      ensures PlaceBefore(index'[d.hash], index'[e.hash])
    {
      var i := PlaceOf(entries, referenced, es, d);
      var j := PlaceOf(entries, referenced, es, e);
      assert j < i ==> InOrder(es[j], es[i]);
    }
  }

  lemma PlaceOf(entries: seq<IndexEntry>, referenced: set<Hash>, es: seq<IndexEntry>, e: IndexEntry) returns (i: nat)
    requires forall x :: x in es <==> x in FirstOf(Kept(entries, referenced))
    requires FirstAt(entries, e.hash, e) && e.hash in Hashes(es)
    ensures i < |es| && es[i] == e
  {
    hide FirstAt, FirstOf, Kept;
    i :| 0 <= i < |es| && es[i].hash == e.hash;
    assert es[i] in es;
    FirstOfIsFirst(Kept(entries, referenced), es[i]);
    KeptFirst(entries, referenced, es[i]);
    FirstIsUnique(entries, e.hash, e, es[i]);
  }

  lemma IsMissing(packs: Packs, entries: seq<IndexEntry>, ms: map<string, F.Manifest>, extra: set<Hash>,
                  referenced: set<Hash>, e: IndexEntry)
    requires forall h :: h in referenced <==> Wanted(ms, extra, h)
    requires e in FirstOf(Kept(entries, referenced)) && !InPacks(packs, e.loc)
    ensures Missing(packs, entries, ms, extra)
  {
    hide FirstAt, FirstOf, Kept, Wanted;
    FirstOfWithin(Kept(entries, referenced), e);
    KeptWithin(entries, referenced, e);
    FirstOfIsFirst(Kept(entries, referenced), e);
    KeptFirst(entries, referenced, e);
  }

  method Prune(packs: Packs, entries: seq<IndexEntry>, ms: map<string, F.Manifest>, extra: set<Hash>,
               full: seq<Data> -> bool)
    returns (res: Pruned)
    ensures Outcome(packs, entries, ms, extra, full, res)
  {
    hide Wanted, Survives, Carried, FirstOf, Kept, InSequence, WellFilled, OrderKept, Distinct, Hashes, SortedBy,
         Missing, NothingToDo;
    var referenced := CollectReferenced(ms);
    referenced := referenced + extra;
    WantedAre(ms, extra, referenced);
    var kept := SelectReferenced(entries, referenced);
    var firsts := Dedupe(kept);
    NothingDropped(entries, ms, extra, referenced);
    if |kept| == |entries| && |firsts| == |kept| {
      return Unchanged;
    }
    FirstOfHashes(kept);
    var es := SortByPlace(firsts);
    var out := RewriteChunks(packs, es, full);
    if out.None? {
      var i :| 0 <= i < |es| && !InPacks(packs, es[i].loc);
      assert es[i] in firsts;
      IsMissing(packs, entries, ms, extra, referenced, es[i]);
      return Unreadable;
    }
    CarriedSurvives(packs, entries, ms, extra, referenced, es, out.value.0, out.value.1);
    NoneMissing(packs, entries, ms, extra, out.value.0, out.value.1);
    CarriedKeys(packs, es, out.value.0, out.value.1);
    SortedStaysSorted(entries, referenced, es, out.value.1);
    return Rewritten(out.value.0, out.value.1);
  }

  lemma WantedAre(ms: map<string, F.Manifest>, extra: set<Hash>, referenced: set<Hash>)
    requires forall h :: h in referenced <==> h in extra || Referenced(ms, h)
    ensures forall h :: h in referenced <==> Wanted(ms, extra, h)
  {
    hide Referenced;
  }

  lemma CarriedKeys(packs: Packs, es: seq<IndexEntry>, packs': Packs, index': map<Hash, Loc>)
    requires Carried(packs, es, packs', index')
    ensures index'.Keys == Hashes(es)
  {
  }

  lemma {:induction false} FirstOfWithin(es: seq<IndexEntry>, e: IndexEntry)
    requires e in FirstOf(es)
    ensures e in es
  {
    FirstOfIsFirst(es, e);
  }

  lemma {:induction false} KeptWithin(entries: seq<IndexEntry>, referenced: set<Hash>, e: IndexEntry)
    requires e in Kept(entries, referenced)
    ensures e in entries && e.hash in referenced
  {
    var front := entries[..|entries| - 1];
    if e in Kept(front, referenced) {
      KeptWithin(front, referenced, e);
    }
  }

  lemma {:induction false} KeptShorter(entries: seq<IndexEntry>, referenced: set<Hash>)
    ensures |Kept(entries, referenced)| <= |entries|
    ensures |Kept(entries, referenced)| == |entries| ==>
              Kept(entries, referenced) == entries && Hashes(entries) <= referenced
  {
    if entries != [] {
      var front, e := entries[..|entries| - 1], entries[|entries| - 1];
      KeptShorter(front, referenced);
      assert entries == front + [e];
      HashesOneMore(front, e);
    }
  }

  lemma {:induction false} FirstOfShorter(es: seq<IndexEntry>)
    ensures |FirstOf(es)| == |es| ==> FirstOf(es) == es
  {
    if es != [] {
      FirstOfShorter(es[..|es| - 1]);
      assert es == es[..|es| - 1] + [es[|es| - 1]];
    }
  }

  // Nothing is dropped exactly when nothing need be.
  lemma NothingDropped(entries: seq<IndexEntry>, ms: map<string, F.Manifest>, extra: set<Hash>, referenced: set<Hash>)
    requires forall h :: h in referenced <==> Wanted(ms, extra, h)
    ensures var kept := Kept(entries, referenced);
            NothingToDo(entries, ms, extra) <==> |kept| == |entries| && |FirstOf(kept)| == |kept|
  {
    hide Wanted;
    var kept := Kept(entries, referenced);
    KeptShorter(entries, referenced);
    if |kept| == |entries| {
      FirstOfShorter(entries);
      FirstOfHashes(entries);
    }
    if NothingToDo(entries, ms, extra) {
      KeptAll(entries, referenced);
      FirstOfAll(entries);
    }
  }

  lemma {:induction false} KeptAll(entries: seq<IndexEntry>, referenced: set<Hash>)
    requires Hashes(entries) <= referenced
    ensures Kept(entries, referenced) == entries
  {
    if entries != [] {
      var front, e := entries[..|entries| - 1], entries[|entries| - 1];
      assert entries == front + [e];
      HashesOneMore(front, e);
      KeptAll(front, referenced);
    }
  }

  lemma {:induction false} FirstOfAll(es: seq<IndexEntry>)
    requires Distinct(es)
    ensures FirstOf(es) == es
  {
    if es != [] {
      FirstOfAll(es[..|es| - 1]);
      assert es == es[..|es| - 1] + [es[|es| - 1]];
    }
  }

  // ---- Forget, then prune ----

  datatype Forgotten =
    | Refused
    | Deleted(manifests: map<string, F.Manifest>, pruned: Pruned)

  function Loader(ms: map<string, F.Manifest>): string -> Option<F.Manifest> {
    id => if id in ms then Some(ms[id]) else None
  }

  // left is ms cut down to the kept backups and what they refer to, directly or not.
  ghost predicate Spared(ms: map<string, F.Manifest>, keep: set<string>, left: map<string, F.Manifest>) {
    && F.LeastClosed(ms.Keys, Loader(ms), keep, left.Keys)
    && forall id :: id in left ==> id in ms && left[id] == ms[id]
  }

  lemma ForcedExists(ms: map<string, F.Manifest>, keep: set<string>, id: string)
    requires keep <= ms.Keys && F.Forced(ms.Keys, Loader(ms), keep, id)
    ensures id in ms
  {
    assert F.Closed(ms.Keys, Loader(ms), ms.Keys);
  }

  lemma NothingForced(ms: map<string, F.Manifest>, keep: set<string>, kept: set<string>)
    requires F.LeastClosed(ms.Keys, Loader(ms), keep, kept)
    ensures kept == {} <==> keep == {}
  {
    hide F.Reaches;
    if keep == {} {
      assert F.Closed(ms.Keys, Loader(ms), {});
    }
  }

  lemma SameSize(left: map<string, F.Manifest>, ms: map<string, F.Manifest>)
    requires forall id :: id in left ==> id in ms && left[id] == ms[id]
    ensures |left| == |ms| <==> left == ms
  {
    if |left| == |ms| {
      assert |ms.Keys - left.Keys| == |ms.Keys| - |left.Keys|;
      assert ms.Keys - left.Keys == {};
      forall id | id in ms ensures id in left {
        assert id !in ms.Keys - left.Keys;
      }
    }
  }

  // Delete the backups the policy's keeps do not need, then prune the packs.
  method ForgetAndPrune(ms: map<string, F.Manifest>, keep: map<string, seq<string>>, entries: seq<IndexEntry>,
                        packs: Packs, full: seq<Data> -> bool)
    returns (res: Forgotten)
    requires keep.Keys <= ms.Keys
    ensures res.Refused? <==> keep.Keys == {}
    ensures res.Deleted? ==> Spared(ms, keep.Keys, res.manifests)
    // Packs are rewritten only if something was deleted.
    ensures res.Deleted? ==>
              if res.manifests == ms then res.pruned.Unchanged?
              else Outcome(packs, entries, res.manifests, {}, full, res.pruned)
  {
    hide Outcome, F.Forced, F.Closed, F.Dangles, F.Explained, F.Lists, F.KeepsFirst, F.Stable, Referenced;
    var protection, _ := F.Protect(ms.Keys, keep, Loader(ms));
    if protection.Unreadable? {
      ForcedExists(ms, keep.Keys, protection.id);
      assert false;
    }
    var kept := protection.reasons.Keys;
    forall id | id in kept ensures id in ms {
      ForcedExists(ms, keep.Keys, id);
    }
    NothingForced(ms, keep.Keys, kept);
    if kept == {} {
      return Refused;
    }
    var left := map id | id in ms && id in kept :: ms[id];
    assert left.Keys == kept;
    SameSize(left, ms);
    if |left| == |ms| {
      return Deleted(left, Pruned.Unchanged);
    }
    var pruned := Prune(packs, entries, left, {}, full);
    return Deleted(left, pruned);
  }

  // What a survivor, or anything it leads back to, had in the index can be read
  // after the prune, frame for frame.
  lemma SurvivorsReadable(ms: map<string, F.Manifest>, keep: set<string>, left: map<string, F.Manifest>, packs: Packs,
                          entries: seq<IndexEntry>, extra: set<Hash>, packs': Packs, index': map<Hash, Loc>,
                          path: seq<string>, h: Hash, e: IndexEntry)
    requires Spared(ms, keep, left) && Survives(packs, entries, left, extra, packs', index')
    requires path != [] && path[0] in left
    requires forall i :: 0 < i < |path| ==> F.Reaches(ms.Keys, Loader(ms), path[i - 1], path[i])
    requires path[|path| - 1] in ms && h in ms[path[|path| - 1]].hashes && FirstAt(entries, h, e)
    ensures path[|path| - 1] in left
    ensures h in index' && InPacks(packs, e.loc) && InPacks(packs', index'[h])
    ensures FrameAt(packs', index'[h]) == FrameAt(packs, e.loc)
  {
    hide F.Forced, F.Closed, F.Reaches, InPacks;
    F.ChainSurvives(ms.Keys, Loader(ms), left.Keys, path);
    assert Referenced(left, h);
    assert h in Hashes(entries);
  }

  // A hash can have more than one entry, and a lookup takes the last where prune takes the
  // first.  As long as every entry names a frame of its hash, that makes no difference:
  // what is read afterwards is what any of them would have given.
  lemma AnyCopySurvives(H: Data -> Hash, packs: Packs, entries: seq<IndexEntry>, ms: map<string, F.Manifest>,
                        extra: set<Hash>, packs': Packs, index': map<Hash, Loc>, e: IndexEntry)
    requires Survives(packs, entries, ms, extra, packs', index') && e in entries && Wanted(ms, extra, e.hash)
    requires forall a, b :: H(a) == H(b) ==> a == b
    requires forall x :: x in entries ==> InPacks(packs, x.loc) && H(FrameAt(packs, x.loc)) == x.hash
    ensures e.hash in index' && InPacks(packs', index'[e.hash])
    ensures FrameAt(packs', index'[e.hash]) == FrameAt(packs, e.loc)
  {
    hide Wanted, InPacks;
    assert e.hash in Hashes(entries);
    var first := FirstEntry(entries, e.hash);
  }

  lemma {:induction false} FirstEntry(entries: seq<IndexEntry>, h: Hash) returns (e: IndexEntry)
    requires h in Hashes(entries)
    ensures e in entries && e.hash == h && FirstAt(entries, h, e)
  {
    var front := entries[..|entries| - 1];
    if h in Hashes(front) {
      e := FirstEntry(front, h);
      var i :| 0 <= i < |front| && front[i] == e && h !in Hashes(front[..i]);
      assert entries[i] == e && entries[..i] == front[..i];
    } else {
      e := entries[|entries| - 1];
      assert entries == front + [e];
      HashesOneMore(front, e);
      assert entries[|entries| - 1] == e && h !in Hashes(entries[..|entries| - 1]);
    }
  }
}
