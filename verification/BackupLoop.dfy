/** The store loop and the resume preparation as they run, refining the protocol.

Every method records the protocol events it performs, so what BackupRuns proves
of all legal runs holds of what these methods leave behind. */
module BackupLoop {
  import opened Options
  import opened BackupModel
  import opened BackupProtocol
  import opened BackupSafety
  import opened BackupRuns

  // ---- Reading the segments file ----

  // The first item that does not continue the sequence ends the parse for good.
  lemma {:induction false} ParseStops(items: seq<SegItem>, i: nat)
    requires i < |items| && |Parse(items[..i])| == i
    requires !(items[i].Whole? && items[i].seg.num == i)
    ensures Parse(items) == Parse(items[..i])
  {
    var front := items[..|items| - 1];
    if |items| == i + 1 {
      assert front == items[..i];
    } else {
      assert front[..i] == items[..i];
      ParseStops(front, i);
    }
  }

  method ParseSegments(items: seq<SegItem>) returns (out: seq<Segment>)
    ensures out == Parse(items)
  {
    out := [];
    var i := 0;
    while i < |items|
      invariant 0 <= i <= |items|
      invariant out == Parse(items[..i]) && |out| == i
    {
      if items[i].Torn? || items[i].seg.num != |out| {
        ParseStops(items, i);
        return;
      }
      ParseAppend(items[..i], items[i]);
      assert items[..i] + [items[i]] == items[..i + 1];
      out := out + [items[i].seg];
      i := i + 1;
    }
    assert items[..i] == items;
  }

  // Once the wanted entries are covered the rest of the segments change nothing.
  lemma {:induction false} ReplayDone(segs: seq<Segment>, want: nat, i: nat)
    requires i <= |segs| && |ReplayUpTo(segs[..i], want).sidecar| >= want
    ensures ReplayUpTo(segs, want) == ReplayUpTo(segs[..i], want)
  {
    if i < |segs| {
      var front := segs[..|segs| - 1];
      assert front[..i] == segs[..i];
      ReplayDone(front, want, i);
    } else {
      assert segs[..i] == segs;
    }
  }

  method ReplaySegments(segs: seq<Segment>, want: nat) returns (res: Option<Replayed>)
    ensures res == Replay(segs, want)
  {
    var prefix, inserts := [], [];
    var i := 0;
    while i < |segs| && |prefix| < want
      invariant 0 <= i <= |segs|
      invariant Replayed(prefix, inserts) == ReplayUpTo(segs[..i], want)
    {
      var take := segs[i].sidecar;
      if |prefix| + |take| > want {
        take := take[..want - |prefix|];
      }
      assert segs[..i + 1][..i] == segs[..i];
      prefix := prefix + take;
      inserts := inserts + segs[i].inserts;
      i := i + 1;
    }
    if i < |segs| {
      ReplayDone(segs, want, i);
    } else {
      assert segs[..i] == segs;
    }
    return if |prefix| == want then Some(Replayed(prefix, inserts)) else None;
  }

  method TryFast(d: Disk, c: Checkpoint) returns (preload: Option<seq<Insert>>)
    ensures preload == TryFastPath(d, c)
  {
    hide Parse, Replay;
    if d.gen != c.gen {
      return None;
    }
    var segs := ParseSegments(d.segs);
    var keep := c.num + 1;
    if segs == [] || |segs| < keep {
      return None;
    }
    var rs := ReplaySegments(segs[..keep], c.entriesLen);
    if rs.None? || d.sidecar.None? || |d.sidecar.value| < c.entriesLen {
      return None;
    }
    if d.sidecar.value[..c.entriesLen] != rs.value.sidecar {
      return None;
    }
    return Some(rs.value.inserts);
  }

  // ---- Rebuilding the index ----

  ghost predicate Scanned(env: Env, packs: Packs, index: map<Hash, Loc>, p: nat, upto: nat) {
    forall i :: 0 <= i < upto && p in packs && i < |packs[p]| ==> env.H(packs[p][i]) in index
  }

  method ScanPack(env: Env, packs: Packs, index: map<Hash, Loc>, p: nat) returns (r: map<Hash, Loc>)
    requires p in packs && AllResolve(env, packs, index)
    ensures AllResolve(env, packs, r) && index.Keys <= r.Keys && Scanned(env, packs, r, p, |packs[p]|)
  {
    r := index;
    var i := 0;
    while i < |packs[p]|
      invariant 0 <= i <= |packs[p]|
      invariant AllResolve(env, packs, r) && index.Keys <= r.Keys && Scanned(env, packs, r, p, i)
    {
      OneInsert(env, packs, r, [], Insert(env.H(packs[p][i]), Loc(p, i)));
      r := r[env.H(packs[p][i]) := Loc(p, i)];
      i := i + 1;
    }
  }

  method Rebuild(env: Env, packs: Packs) returns (index: map<Hash, Loc>)
    ensures RebuiltIndex(env, packs, index)
  {
    index := map[];
    var rest := packs.Keys;
    while rest != {}
      invariant rest <= packs.Keys && AllResolve(env, packs, index)
      invariant forall p :: p in packs.Keys - rest ==> Scanned(env, packs, index, p, |packs[p]|)
      decreases rest
    {
      var p :| p in rest;
      index := ScanPack(env, packs, index, p);
      rest := rest - {p};
    }
    forall loc | InPacks(packs, loc) ensures env.H(FrameAt(packs, loc)) in index {
      assert Scanned(env, packs, index, loc.pack, |packs[loc.pack]|);
    }
  }

  // verifyPrefixPresent
  method VerifyPrefix(d: Disk, index: map<Hash, Loc>) returns (ok: bool)
    requires d.ckpt.Some?
    ensures ok <==> CanReopen(d) && PrefixPresent(d, index)
  {
    if d.sidecar.None? || |d.sidecar.value| < d.ckpt.value.entriesLen {
      return false;
    }
    var es, n := d.sidecar.value, d.ckpt.value.entriesLen;
    var i := 0;
    while i < n
      invariant 0 <= i <= n
      invariant forall j :: 0 <= j < i ==> es[j].hash in index
    {
      if es[i].hash !in index {
        return false;
      }
      i := i + 1;
    }
    return true;
  }

  lemma FastReopens(d: Disk, c: Checkpoint)
    requires d.ckpt == Some(c) && TryFastPath(d, c).Some?
    ensures CanReopen(d)
  {
    hide Parse, Replay;
  }

  // ---- The run ----

  lemma OneMore(env: Env, st: State, run: seq<Event>, ev: Event)
    requires Legal(env, st, run) && Enabled(env, After(env, st, run), ev)
    ensures Legal(env, st, run + [ev]) && After(env, st, run + [ev]) == Apply(env, After(env, st, run), ev)
  {
    hide Enabled, Apply;
    assert (run + [ev])[..|run|] == run;
  }

  lemma StartStep(env: Env, st: State)
    requires CanStart(st)
    ensures Enabled(env, st, Start) && Apply(env, st, Start) == DoStart(st)
  {
  }

  lemma DedupStep(env: Env, st: State, n: nat)
    requires CanDedup(env, st, n)
    ensures Enabled(env, st, Dedup(n)) && Apply(env, st, Dedup(n)) == DoDedup(env, st, n)
  {
  }

  lemma StoreStep(env: Env, st: State, n: nat, seal: bool)
    requires CanStore(env, st, n, seal)
    ensures Enabled(env, st, StoreFrame(n, seal)) && Apply(env, st, StoreFrame(n, seal)) == DoStore(env, st, n, seal)
  {
  }

  lemma SegmentStep(env: Env, st: State)
    requires AtStage(env, st, NeedSegment)
    ensures Enabled(env, st, AppendSegment) && Apply(env, st, AppendSegment) == DoSegment(env, st)
  {
  }

  lemma CheckpointStep(env: Env, st: State, gen: nat)
    requires AtStage(env, st, NeedCheckpoint) && gen <= st.disk.gen
    ensures Enabled(env, st, WriteCheckpoint(true, gen))
    ensures Apply(env, st, WriteCheckpoint(true, gen)) == DoCheckpoint(env, st, true, gen)
  {
  }

  lemma IndexStep(env: Env, st: State)
    requires AtStage(env, st, NeedIndex)
    ensures Enabled(env, st, IndexChunk) && Apply(env, st, IndexChunk) == DoIndex(env, st)
  {
  }

  lemma FlushStep(env: Env, st: State)
    requires CanFlush(env, st)
    ensures Enabled(env, st, FlushIndex) && Apply(env, st, FlushIndex) == DoFlush(env, st)
  {
  }

  lemma SaveStep(env: Env, st: State)
    requires CanSave(st)
    ensures Enabled(env, st, SaveManifest) && Apply(env, st, SaveManifest) == DoSave(st)
  {
  }

  lemma FastStep(env: Env, st: State)
    requires CanResumeFast(st)
    ensures Enabled(env, st, ResumeFast) && Apply(env, st, ResumeFast) == DoResumeFast(st)
  {
  }

  lemma SlowStep(env: Env, st: State, index: map<Hash, Loc>)
    requires CanRebuild(env, st, index)
    ensures Enabled(env, st, RebuildCrash(index)) && Apply(env, st, RebuildCrash(index)) == DoRebuildCrash(st, index)
    ensures CanReopen(st.disk) && PrefixPresent(st.disk, index) ==>
              Enabled(env, st, ResumeSlow(index)) && Apply(env, st, ResumeSlow(index)) == DoResumeSlow(st, index)
  {
  }

  // The chunker: how many bytes of the stream it was given make the next chunk, i bytes in.
  ghost predicate Cuts(cut: (Data, nat) -> nat) {
    forall s: Data, i: nat :: i < |s| ==> 0 < cut(s, i) <= |s| - i
  }

  // ---- What deduplication comes to ----

  // Where there are frames.
  ghost function Places(packs: Packs): set<Loc> {
    set p, i | p in packs && 0 <= i < |packs[p]| :: Loc(p, i)
  }

  ghost function HashesOf(es: seq<Entry>): set<Hash> {
    set i | 0 <= i < |es| :: es[i].hash
  }

  // One frame more, and every other where it was.
  ghost predicate Gained(packs: Packs, packs': Packs, loc: Loc, data: Data) {
    && loc !in Places(packs) && Places(packs') == Places(packs) + {loc} && Extends(packs, packs')
    && InPacks(packs', loc) && FrameAt(packs', loc) == data
  }

  lemma GainedOne(packs: Packs, p: nat, data: Data)
    ensures var frames := Frames(packs, p);
            Gained(packs, packs[p := frames + [data]], Loc(p, |frames|), data)
  {
    var frames := Frames(packs, p);
    var packs' := packs[p := frames + [data]];
    forall loc ensures loc in Places(packs') <==> loc in Places(packs) || loc == Loc(p, |frames|) {
      assert loc in Places(packs) <==> InPacks(packs, loc);
      assert loc in Places(packs') <==> InPacks(packs', loc);
    }
  }

  // A chunk the index has is listed and nothing else; any other is stored once, indexed and
  // listed.
  ghost predicate ChunkDone(env: Env, st: State, st': State, n: nat)
    requires Ready(env, st, n)
  {
    var s := st.session.value;
    var data := env.src[s.off..s.off + n];
    var h := env.H(data);
    && st'.session.Some? && st'.disk.index == st.disk.index
    && st'.disk.sidecar == Some(st.disk.sidecar.value + [Entry(s.off, n, h)])
    && var s' := st'.session.value;
       && s'.off == s.off + n && s'.stats.total == s.stats.total + 1 && s'.stats.raw == s.stats.raw + n
       && s'.digest == (if s.digest.Some? then Some(s.digest.value + data) else None)
       && if h in s.view then
            && st'.disk.packs == st.disk.packs && s'.view == s.view
            && s'.stats.dedup == s.stats.dedup + 1 && s'.stats.unique == s.stats.unique
          else
            && h in s'.view && s'.view == s.view[h := s'.view[h]]
            && Gained(st.disk.packs, st'.disk.packs, s'.view[h], data)
            && s'.stats.unique == s.stats.unique + 1 && s'.stats.dedup == s.stats.dedup
  }

  // Since st the loop has listed the entries behind the first `from`, and stored exactly
  // one frame for each hash among them that the index did not have.
  ghost predicate Deduplicated(st: State, packs: Packs, view: map<Hash, Loc>, es: seq<Entry>, stats: Stats)
    requires st.session.Some? && st.disk.sidecar.Some?
  {
    var before, s := st.disk.sidecar.value, st.session.value;
    && before <= es
    && var listed := es[|before|..];
       var new' := HashesOf(listed) - s.view.Keys;
       && view.Keys == s.view.Keys + HashesOf(listed)
       && |Places(packs)| == |Places(st.disk.packs)| + |new'| && Extends(st.disk.packs, packs)
       && stats.unique == s.stats.unique + |new'| && stats.dedup == s.stats.dedup + |listed| - |new'|
       && stats.total == s.stats.total + |listed|
  }

  lemma NothingListed(st: State)
    requires st.session.Some? && st.disk.sidecar.Some?
    ensures Deduplicated(st, st.disk.packs, st.session.value.view, st.disk.sidecar.value, st.session.value.stats)
  {
    var es := st.disk.sidecar.value;
    assert es[|es|..] == [];
    assert HashesOf([]) == {};
    assert {} - st.session.value.view.Keys == {};
  }

  lemma OneMoreListed(env: Env, st: State, st1: State, st2: State, n: nat)
    requires st.session.Some? && st.disk.sidecar.Some? && Ready(env, st1, n) && ChunkDone(env, st1, st2, n)
    requires Deduplicated(st, st1.disk.packs, st1.session.value.view, st1.disk.sidecar.value, st1.session.value.stats)
    ensures Deduplicated(st, st2.disk.packs, st2.session.value.view, st2.disk.sidecar.value, st2.session.value.stats)
  {
    hide Extends, Places, HashesOf;
    var s1, e := st1.session.value, st2.disk.sidecar.value[|st1.disk.sidecar.value|];
    var before, es := st.disk.sidecar.value, st1.disk.sidecar.value;
    assert (es + [e])[|before|..] == es[|before|..] + [e];
    NewHashes(es[|before|..], e, st.session.value.view.Keys);
    if e.hash !in s1.view {
      ExtendsTwice(st.disk.packs, st1.disk.packs, st2.disk.packs);
    }
  }

  // One entry more is one new hash more, or none if its hash is known by now.
  lemma NewHashes(es: seq<Entry>, e: Entry, known: set<Hash>)
    ensures HashesOf(es + [e]) == HashesOf(es) + {e.hash}
    ensures |HashesOf(es + [e]) - known| ==
            |HashesOf(es) - known| + if e.hash in known + HashesOf(es) then 0 else 1
  {
    hide HashesOf;
    HashesMore(es, e);
    var new' := HashesOf(es) - known;
    if e.hash in known + HashesOf(es) {
      assert HashesOf(es + [e]) - known == new';
    } else {
      assert HashesOf(es + [e]) - known == new' + {e.hash};
    }
  }

  lemma HashesMore(es: seq<Entry>, e: Entry)
    ensures HashesOf(es + [e]) == HashesOf(es) + {e.hash}
  {
    var es' := es + [e];
    assert es'[|es|] == e;
    forall h | h in HashesOf(es) ensures h in HashesOf(es') {
      var i :| 0 <= i < |es| && es[i].hash == h;
      assert es'[i].hash == h;
    }
  }

  lemma ExtendsTwice(a: Packs, b: Packs, c: Packs)
    requires Extends(a, b) && Extends(b, c)
    ensures Extends(a, c)
  {
  }

  lemma WholeDigest(env: Env, d: Disk, m: Manifest)
    requires Complete(env, d, m)
    ensures m.digest.Some? ==> m.digest.value == env.src
  {
    assert env.src[..|env.src|] == env.src;
  }

  class Backup {
    const env: Env
    const cut: (Data, nat) -> nat
    const full: seq<Data> -> bool // whether a pack's frames fill it

    var files: Disk
    var session: Option<Session> // the store loop's variables, while it runs
    var result: Stats // the tallies, counting the chunk in hand

    ghost const start: State
    ghost var trace: seq<Event>

    ghost function St(): State
      reads this
    {
      State(files, session)
    }

    ghost predicate Valid()
      reads this
    {
      && CollisionFree(env) && Cuts(cut) && Initial(env, start)
      && Legal(env, start, trace) && St() == After(env, start, trace)
    }

    // The loop is between two chunks.
    ghost predicate Between()
      reads this
    {
      session.Some? && session.value.chunk == Idle && !session.value.flushed && result == session.value.stats
    }

    constructor (env: Env, cut: (Data, nat) -> nat, full: seq<Data> -> bool, d: Disk)
      requires CollisionFree(env) && Cuts(cut) && Initial(env, State(d, None))
      ensures Valid() && trace == [] && St() == State(d, None) && this.env == env
    {
      this.env, this.cut, this.full := env, cut, full;
      files, session, result, trace, start := d, None, Stats(0, 0, 0, 0), [], State(d, None);
    }

    // The step from st to the present state is what ev does.
    ghost method Record(st: State, ev: Event)
      requires CollisionFree(env) && Cuts(cut) && Initial(env, start)
      requires Legal(env, start, trace) && st == After(env, start, trace)
      requires Enabled(env, st, ev) && St() == Apply(env, st, ev)
      modifies this`trace
      ensures trace == old(trace) + [ev] && Valid()
    {
      OneMore(env, start, trace, ev);
      trace := trace + [ev];
    }

    lemma OpenFacts()
      requires Valid()
      ensures session.Some? ==> files.sidecar.Some? && session.value.off <= |env.src| &&
                                session.value.prevLen <= |files.sidecar.value|
    {
      hide Legal, After, CollisionFree, Initial, Cuts, AllResolve, Known, ChunkOk, PacksOk, PendingOk, Faithful;
      RunKeeps(env, start, trace);
    }

    method Begin()
      requires Valid() && session.None? && files.manifest.None?
      modifies this
      ensures Valid() && Between() && trace == old(trace) + [Start] && session.value.off == 0
      ensures session.value.view == files.index == old(files.index) && files.packs == old(files.packs)
      ensures files.sidecar == Some([]) && session.value.stats == Stats(0, 0, 0, 0) && session.value.digest == Some([])
    {
      hide Legal, After, CollisionFree, Initial, Cuts, Enabled, Apply, MaxPack;
      ghost var st := St();
      StartStep(env, st);
      var maxPack := MaxPack(files.packs);
      var pack := if maxPack.Some? then maxPack.value else 0;
      files := files.(sidecar := Some([]), segs := [], ckpt := None);
      result := Stats(0, 0, 0, 0);
      session := Some(Opened(files.index, 0, pack, |Frames(files.packs, pack)|, 0, 0, 0, result, Some([])));
      Record(st, Start);
    }

    // ---- Resuming ----

    // Reconcile, then reopening the sidecar: pick the run up at its checkpoint.
    method Resume() returns (ok: bool)
      requires Valid() && session.None? && files.manifest.None? && files.ckpt.Some?
      modifies this
      ensures Valid()
      ensures ok ==> Between() && session.value.off == old(files.ckpt.value.resume)
      ensures !ok ==> session.None? && files == old(files).(index := files.index, segs := [])
      // Unless packs were pruned since, a sidecar is all it takes.
      ensures old(files.sidecar.Some? && files.gen == files.ckpt.value.gen) ==> ok
    {
      hide Legal, After, CollisionFree, Initial, Cuts, TryFastPath, CanReopen, PrefixPresent, ResumedSession, KeptSegs,
           Enabled, Apply;
      ghost var st := St();
      var c := files.ckpt.value;
      var preload := TryFast(files, c);
      if preload.Some? {
        FastReopens(files, c);
        FastStep(env, st);
        var kept := KeepFirst(files.segs, c.num + 1);
        Reopen(files.index, preload.value, kept);
        Record(st, ResumeFast);
        return true;
      }
      ok := ResumeByRebuild();
    }

    method ResumeByRebuild() returns (ok: bool)
      requires Valid() && session.None? && files.manifest.None? && files.ckpt.Some?
      requires TryFastPath(files, files.ckpt.value).None?
      modifies this
      ensures Valid()
      ensures ok ==> Between() && session.value.off == old(files.ckpt.value.resume)
      ensures !ok ==> session.None? && files == old(files).(index := files.index, segs := [])
      ensures old(files.sidecar.Some? && files.gen == files.ckpt.value.gen) ==> ok
    {
      hide Legal, After, CollisionFree, Initial, Cuts, TryFastPath, PrefixPresent, ResumedSession, Enabled, Apply;
      ghost var st := St();
      var rebuilt := Rebuild(env, files.packs);
      RebuildAllows(st, rebuilt);
      SlowStep(env, st, rebuilt);
      ok := VerifyPrefix(files, rebuilt);
      if ok {
        Reopen(rebuilt, [], []);
        Record(st, ResumeSlow(rebuilt));
      } else {
        files := files.(index := rebuilt, segs := []);
        Record(st, RebuildCrash(rebuilt));
      }
    }

    lemma RebuildAllows(st: State, rebuilt: map<Hash, Loc>)
      requires CollisionFree(env) && Initial(env, start) && Legal(env, start, trace) && st == After(env, start, trace)
      requires st.session.None? && st.disk.manifest.None? && st.disk.ckpt.Some?
      requires TryFastPath(st.disk, st.disk.ckpt.value).None? && RebuiltIndex(env, st.disk.packs, rebuilt)
      ensures CanRebuild(env, st, rebuilt)
      ensures st.disk.sidecar.Some? && st.disk.gen == st.disk.ckpt.value.gen ==> CanResumeSlow(env, st, rebuilt)
    {
      hide Legal, After, CollisionFree, Initial, TryFastPath, Inv, Progress, CanReopen, PrefixPresent, AllResolve;
      RunKeeps(env, start, trace);
      RunProgress(env, start, trace);
      if st.disk.sidecar.Some? && st.disk.gen == st.disk.ckpt.value.gen {
        ResumableNow(env, st, rebuilt);
      }
    }

    // Reopen the sidecar at the checkpoint and set the loop's variables from it.
    method Reopen(index: map<Hash, Loc>, preload: seq<Insert>, segs: seq<SegItem>)
      requires session.None? && CanReopen(files)
      modifies this
      ensures var d, c := old(files), old(files.ckpt.value);
              && files == d.(index := index, sidecar := Some(d.sidecar.value[..c.entriesLen]), segs := segs)
              && session == Some(ResumedSession(d, index, preload))
              && session.value.off == c.resume && Between() && trace == old(trace)
    {
      hide MaxPack, InsertMap;
      var c, maxPack := files.ckpt.value, MaxPack(files.packs);
      var pack := if maxPack.Some? then maxPack.value + 1 else 0;
      var view := Preloaded(index, preload);
      files := files.(index := index, sidecar := Some(files.sidecar.value[..c.entriesLen]), segs := segs);
      result := c.stats;
      session := Some(Opened(view, c.resume, pack, 0, pack, c.num + 1, c.entriesLen, c.stats, c.digest));
    }

    // ---- The store loop ----

    // A pack is sealed, and the next one begun, when the frames in it fill it.
    method StoreRaw(data: Data) returns (loc: Loc)
      requires Valid() && Ready(env, St(), |data|) && data == NextChunk(env, session.value, |data|)
      modifies this
      ensures Valid() && result == old(result)
      ensures var st, frames := old(St()), Frames(old(files.packs), old(session.value.writePack));
              var seal := frames != [] && full(frames);
              CanStore(env, st, |data|, seal) && St() == DoStore(env, st, |data|, seal)
      ensures session.value.chunk.Stored? && loc == session.value.chunk.loc
    {
      hide Legal, After, CollisionFree, Initial, Cuts, Enabled, Apply;
      ghost var st := St();
      var pack, base := session.value.writePack, session.value.packBase;
      var seal := Frames(files.packs, pack) != [] && full(Frames(files.packs, pack));
      if seal {
        pack, base := pack + 1, 0;
      }
      loc := Loc(pack, |Frames(files.packs, pack)|);
      files := files.(packs := files.packs[pack := Frames(files.packs, pack) + [data]]);
      var stage := if pack > session.value.curPack then NeedSegment else NeedIndex;
      session := Some(session.value.(writePack := pack, packBase := base, chunk := Stored(|data|, loc, stage)));
      assert CanStore(env, st, |data|, seal) && St() == DoStore(env, st, |data|, seal);
      StoreStep(env, st, |data|, seal);
      Record(st, StoreFrame(|data|, seal));
    }

    // Sync the sidecar, append the segment of what was added since the previous
    // checkpoint, and only then write the checkpoint.
    method EmitCheckpoint()
      requires Valid() && AtStage(env, St(), NeedSegment)
      modifies this
      ensures Valid() && result == old(result)
      ensures St() == DoCheckpoint(env, DoSegment(env, old(St())), true, files.gen)
    {
      hide Legal, After, CollisionFree, Initial, Cuts, Enabled, Apply;
      OpenFacts();
      ghost var st := St();
      SegmentStep(env, st);
      var s, entriesLen, delta := session.value, |files.sidecar.value|, [];
      if entriesLen > s.prevLen {
        delta := files.sidecar.value[s.prevLen..];
      }
      assert NewSegment(s, files.sidecar.value) == Segment(s.num, entriesLen, delta, s.pending);
      files := files.(segs := files.segs + [Whole(Segment(s.num, entriesLen, delta, s.pending))]);
      session := Some(s.(synced := entriesLen, chunk := s.chunk.(stage := NeedCheckpoint)));
      assert St() == DoSegment(env, st);
      Record(st, AppendSegment);
      CheckpointStep(env, St(), files.gen);
      ghost var st' := St();
      files := files.(ckpt := Some(Checkpoint(s.num, s.off, entriesLen, s.stats, s.digest, files.gen)));
      session := Some(session.value.(curPack := s.writePack, num := s.num + 1, prevLen := entriesLen, pending := [],
                                     chunk := s.chunk.(stage := NeedIndex)));
      Record(st', WriteCheckpoint(true, files.gen));
    }

    // Store a new chunk; if that sealed a pack, checkpoint before it is indexed.
    method AddNew(data: Data) returns (loc: Loc)
      requires Valid() && Ready(env, St(), |data|) && data == NextChunk(env, session.value, |data|)
      modifies this
      ensures Valid() && result == old(result) && AtStage(env, St(), NeedIndex)
      ensures var s, s' := old(session.value), session.value;
              && !s'.flushed && s'.off == s.off && s'.stats == s.stats && s'.view == s.view && s'.digest == s.digest
              && s'.chunk.len == |data| && loc == s'.chunk.loc
      ensures files.index == old(files.index) && files.sidecar == old(files.sidecar)
      ensures Gained(old(files.packs), files.packs, loc, data)
    {
      hide Legal, After, CollisionFree, Initial, Cuts, Gained;
      loc := StoreRaw(data);
      GainedOne(old(files.packs), loc.pack, data);
      if loc.pack > session.value.curPack {
        EmitCheckpoint();
      }
    }

    method StoreChunk(n: nat)
      requires Valid() && Between() && Ready(env, St(), n)
      modifies this
      ensures Valid() && Between() && session.value.off == old(session.value.off) + n
      ensures session.value.digest.Some? == old(session.value.digest).Some?
      ensures ChunkDone(env, old(St()), St(), n)
    {
      hide Legal, After, CollisionFree, Initial, Cuts, Enabled, Apply, Gained;
      var data := env.src[session.value.off..session.value.off + n];
      var h := env.H(data);
      result := result.(total := result.total + 1, raw := result.raw + n);
      if h in session.value.view {
        result := result.(dedup := result.dedup + 1);
        ListFound(n, data, h);
      } else {
        result := result.(unique := result.unique + 1);
        var loc := AddNew(data);
        ListStored(n, data, h, loc);
      }
    }

    // Write the chunk's entry and bring tallies and digest up to date.
    method ListFound(n: nat, data: Data, h: Hash)
      requires Valid() && CanDedup(env, St(), n) && data == NextChunk(env, session.value, n) && h == env.H(data)
      requires result == Tally(session.value.stats, n, false)
      modifies this
      ensures Valid() && Between() && result == old(result) && files.packs == old(files.packs)
      ensures files.index == old(files.index)
      ensures files.sidecar == Some(old(files.sidecar.value) + [Entry(old(session.value.off), n, h)])
      ensures session.value.off == old(session.value.off) + n && session.value.view == old(session.value.view)
      ensures session.value.digest == Absorb(old(session.value.digest), data)
    {
      hide Legal, After, CollisionFree, Initial, Cuts, Enabled, Apply;
      ghost var st := St();
      DedupStep(env, st, n);
      var s := session.value;
      files := files.(sidecar := Some(files.sidecar.value + [Entry(s.off, n, h)]));
      session := Some(s.(off := s.off + n, stats := result, digest := Absorb(s.digest, data)));
      Record(st, Dedup(n));
    }

    method ListStored(n: nat, data: Data, h: Hash, loc: Loc)
      requires Valid() && AtStage(env, St(), NeedIndex) && !session.value.flushed
      requires session.value.chunk.len == n && session.value.chunk.loc == loc
      requires data == NextChunk(env, session.value, n) && h == env.H(data)
      requires result == Tally(session.value.stats, n, true)
      modifies this
      ensures Valid() && Between() && result == old(result) && files.packs == old(files.packs)
      ensures files.index == old(files.index)
      ensures files.sidecar == Some(old(files.sidecar.value) + [Entry(old(session.value.off), n, h)])
      ensures session.value.off == old(session.value.off) + n
      ensures session.value.view == old(session.value.view)[h := loc]
      ensures session.value.digest == Absorb(old(session.value.digest), data)
    {
      hide Legal, After, CollisionFree, Initial, Cuts, Enabled, Apply;
      ghost var st := St();
      IndexStep(env, st);
      var s := session.value;
      files := files.(sidecar := Some(files.sidecar.value + [Entry(s.off, n, h)]));
      session := Some(s.(view := s.view[h := loc], pending := s.pending + [Insert(h, loc)],
                         off := s.off + n, stats := result, digest := Absorb(s.digest, data), chunk := Idle));
      Record(st, IndexChunk);
    }

    // Seal the last pack and flush the index before the manifest makes the backup
    // visible.
    method Finish()
      requires Valid() && Between() && session.value.off == |env.src|
      modifies this
      ensures Valid() && session.None? && files.packs == old(files.packs) && files.index == old(session.value.view)
      ensures old(files.sidecar).Some?
      ensures files.manifest == Some(Manifest(old(files.sidecar.value), old(session.value.stats),
                                              old(session.value.digest)))
    {
      hide Legal, After, CollisionFree, Initial, Cuts, Enabled, Apply;
      OpenFacts();
      ghost var st := St();
      FlushStep(env, st);
      var s := session.value;
      files := files.(index := s.view);
      session := Some(s.(flushed := true, packBase := |Frames(files.packs, s.writePack)|));
      Record(st, FlushIndex);
      ghost var st' := St();
      SaveStep(env, st');
      files := files.(manifest := Some(Manifest(files.sidecar.value, s.stats, s.digest)), sidecar := None);
      session := None;
      Record(st', SaveManifest);
    }

    method Run()
      requires Valid() && Between()
      modifies this
      ensures Valid() && session.None? && files.manifest.Some?
      ensures Complete(env, files, files.manifest.value) && Restored(files, files.manifest.value.entries) == env.src
      // Nothing is stored that the index had, and nothing twice.
      ensures old(files.sidecar).Some?
      ensures var m := files.manifest.value;
              Deduplicated(old(St()), files.packs, files.index, m.entries, m.stats)
      ensures old(session.value.digest).Some? ==> files.manifest.value.digest == Some(env.src)
    {
      hide Legal, After, CollisionFree, Initial, Complete, Restored, Deduplicated, ChunkDone;
      OpenFacts();
      ghost var st := St();
      NothingListed(st);
      var from := session.value.off;
      var stream := env.src[from..];
      while session.value.off < |env.src|
        invariant Valid() && Between() && files.sidecar.Some? && from <= session.value.off <= |env.src|
        invariant session.value.digest.Some? == st.session.value.digest.Some?
        invariant Deduplicated(st, files.packs, session.value.view, files.sidecar.value, session.value.stats)
        decreases |env.src| - session.value.off
      {
        var n := cut(stream, session.value.off - from);
        ghost var before := St();
        StoreChunk(n);
        OpenFacts();
        OneMoreListed(env, st, before, St(), n);
      }
      Finish();
      CompletedRunRestores(env, start, trace);
      WholeDigest(env, files, files.manifest.value);
    }

    // A backup from beginning to end: its tally of unique chunks and the frames the packs
    // gained are both the number of hashes listed that the index did not have.
    method RunFresh()
      requires Valid() && session.None? && files.manifest.None?
      modifies this
      ensures Valid() && session.None? && files.manifest.Some?
      ensures Restored(files, files.manifest.value.entries) == env.src
      ensures files.manifest.value.digest == Some(env.src)
      ensures var m := files.manifest.value;
              var new' := HashesOf(m.entries) - old(files.index).Keys;
              && m.stats.unique == |new'| && m.stats.dedup == |m.entries| - |new'| && m.stats.total == |m.entries|
              && |Places(files.packs)| == |Places(old(files.packs))| + |new'|
              && files.index.Keys == old(files.index).Keys + HashesOf(m.entries)
    {
      hide Legal, After, CollisionFree, Initial, Complete, Restored, Places, HashesOf;
      Begin();
      Run();
      var m := files.manifest.value;
      assert m.entries[0..] == m.entries;
    }
  }

  method Preloaded(base: map<Hash, Loc>, ins: seq<Insert>) returns (m: map<Hash, Loc>)
    ensures m == InsertMap(base, ins)
  {
    m := base;
    var i := 0;
    while i < |ins|
      invariant 0 <= i <= |ins|
      invariant m == InsertMap(base, ins[..i])
    {
      m := m[ins[i].hash := ins[i].loc];
      assert ins[..i + 1][..i] == ins[..i];
      i := i + 1;
    }
    assert ins[..i] == ins;
  }

  method KeepFirst(items: seq<SegItem>, keep: nat) returns (kept: seq<SegItem>)
    ensures kept == KeptSegs(items, keep)
  {
    var whole := ParseSegments(items);
    kept := if |whole| > keep then items[..keep] else items;
  }
}
