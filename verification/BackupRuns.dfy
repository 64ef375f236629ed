/** What holds of every run: the results a user of the backup relies on. */
module BackupRuns {
  import opened Options
  import opened BackupModel
  import opened BackupProtocol
  import opened BackupSafety

  // A repository in which this backup has not begun; other backups may have left
  // packs and an index.
  ghost predicate Initial(env: Env, st: State) {
    && st.session.None? && st.disk.ckpt.None? && st.disk.manifest.None?
    && AllResolve(env, st.disk.packs, st.disk.index)
  }

  ghost predicate Legal(env: Env, st: State, run: seq<Event>)
    decreases |run|, 0
  {
    run != [] ==> Legal(env, st, run[..|run| - 1]) &&
                  Enabled(env, After(env, st, run[..|run| - 1]), run[|run| - 1])
  }

  ghost function After(env: Env, st: State, run: seq<Event>): State
    requires Legal(env, st, run)
    decreases |run|, 1
  {
    if run == [] then st else Apply(env, After(env, st, run[..|run| - 1]), run[|run| - 1])
  }

  lemma InitialInv(env: Env, st: State)
    requires Initial(env, st)
    ensures Inv(env, st)
  {
  }

  lemma {:induction false} RunKeeps(env: Env, st: State, run: seq<Event>)
    requires CollisionFree(env) && Initial(env, st) && Legal(env, st, run)
    ensures Inv(env, After(env, st, run))
  {
    hide Inv, Enabled, Apply, CollisionFree, Initial;
    if run == [] {
      InitialInv(env, st);
    } else {
      RunKeeps(env, st, run[..|run| - 1]);
      Keep(env, After(env, st, run[..|run| - 1]), run[|run| - 1]);
    }
  }

  // ---- Restoring a completed backup ----

  ghost function FrameOf(d: Disk, h: Hash): Data {
    if h in d.index && InPacks(d.packs, d.index[h]) then FrameAt(d.packs, d.index[h]) else []
  }

  // The frames the entries name, one after another.
  ghost function Restored(d: Disk, es: seq<Entry>): Data {
    if es == [] then [] else Restored(d, es[..|es| - 1]) + FrameOf(d, es[|es| - 1].hash)
  }

  // e names a frame holding the bytes it stands for.
  ghost predicate Holds(env: Env, d: Disk, e: Entry) {
    && e.off + e.len <= |env.src|
    && e.hash in d.index && InPacks(d.packs, d.index[e.hash])
    && FrameAt(d.packs, d.index[e.hash]) == env.src[e.off..e.off + e.len]
  }

  lemma ChainedFront(es: seq<Entry>)
    requires Chained(es) && es != []
    ensures Chained(es[..|es| - 1]) && es[|es| - 1].off == EndOf(es[..|es| - 1])
  {
    var front := es[..|es| - 1];
    forall i | 0 <= i < |front| ensures front[i].len > 0 && front[i].off == EndOf(front[..i]) {
      assert front[..i] == es[..i];
    }
  }

  lemma {:induction false} RestoredPrefix(env: Env, d: Disk, es: seq<Entry>)
    requires Chained(es) && forall i :: 0 <= i < |es| ==> Holds(env, d, es[i])
    ensures EndOf(es) <= |env.src| && Restored(d, es) == env.src[..EndOf(es)]
  {
    hide Chained, Holds, FrameOf;
    if es != [] {
      var front, e := es[..|es| - 1], es[|es| - 1];
      ChainedFront(es);
      RestoredPrefix(env, d, front);
      HeldFrame(env, d, e);
    }
  }

  lemma HeldFrame(env: Env, d: Disk, e: Entry)
    requires Holds(env, d, e)
    ensures e.off + e.len <= |env.src| && env.src[..e.off] + FrameOf(d, e.hash) == env.src[..e.off + e.len]
  {
    assert env.src[..e.off] + env.src[e.off..e.off + e.len] == env.src[..e.off + e.len];
  }

  // However often a backup was interrupted, resumed, overtaken by other backups or
  // pruned around, once it has a manifest the source can be rebuilt from it.
  lemma CompletedRunRestores(env: Env, st: State, run: seq<Event>)
    requires CollisionFree(env) && Initial(env, st) && Legal(env, st, run)
    requires After(env, st, run).disk.manifest.Some?
    ensures var d := After(env, st, run).disk;
            var m := d.manifest.value;
            && Complete(env, d, m)
            && Restored(d, m.entries) == env.src
  {
    hide Legal, After, CollisionFree, Initial;
    RunKeeps(env, st, run);
    var d := After(env, st, run).disk;
    var m := d.manifest.value;
    forall i | 0 <= i < |m.entries| ensures Holds(env, d, m.entries[i]) {}
    RestoredPrefix(env, d, m.entries);
    assert env.src[..|env.src|] == env.src;
  }

  // Every insert a checkpoint's segment records is in a pack that is already sealed.
  lemma SegmentNamesSealedPacks(env: Env, st: State, run: seq<Event>, i: nat)
    requires CollisionFree(env) && Initial(env, st) && Legal(env, st, run)
    requires Enabled(env, After(env, st, run), AppendSegment)
    requires var s := After(env, st, run).session.value;
             i < |NewSegment(s, After(env, st, run).disk.sidecar.value).inserts|
    ensures var s := After(env, st, run).session.value;
            var t := NewSegment(s, After(env, st, run).disk.sidecar.value).inserts[i];
            t.loc.pack < s.writePack && Resolves(env, Durable(After(env, st, run)), t.hash, t.loc)
  {
    hide Legal, After, CollisionFree, Initial;
    RunKeeps(env, st, run);
    PendingDurable(env, After(env, st, run), After(env, st, run).session.value.pending);
  }

  // ---- A checkpoint can be resumed ----

  ghost predicate InStore(env: Env, packs: Packs, h: Hash) {
    exists loc :: Resolves(env, packs, h, loc)
  }

  // Everything the session knows is out of reach of a crash, or is waiting to be
  // recorded by the next checkpoint.
  ghost predicate ViewStored(env: Env, st: State) {
    st.session.Some? ==>
      forall h :: h in st.session.value.view ==>
        h in HashSet(st.session.value.pending) || InStore(env, Durable(st), h)
  }

  // Until a prune, every chunk a checkpoint vouches for is out of reach of a crash.
  ghost predicate PrefixStored(env: Env, st: State) {
    st.disk.ckpt.Some? && st.disk.sidecar.Some? && st.disk.gen == st.disk.ckpt.value.gen ==>
      forall i :: 0 <= i < st.disk.ckpt.value.entriesLen && i < |st.disk.sidecar.value| ==>
        InStore(env, Durable(st), st.disk.sidecar.value[i].hash)
  }

  ghost predicate Progress(env: Env, st: State) {
    ViewStored(env, st) && PrefixStored(env, st)
  }

  lemma StoreExtends(env: Env, packs: Packs, packs': Packs)
    requires Extends(packs, packs')
    ensures forall h :: InStore(env, packs, h) ==> InStore(env, packs', h)
  {
    forall h | InStore(env, packs, h) ensures InStore(env, packs', h) {
      var loc :| Resolves(env, packs, h, loc);
      assert Resolves(env, packs', h, loc);
    }
  }

  lemma AllInStore(env: Env, packs: Packs, m: map<Hash, Loc>)
    requires AllResolve(env, packs, m)
    ensures forall h :: h in m ==> InStore(env, packs, h)
  {
    forall h | h in m ensures InStore(env, packs, h) {
      assert Resolves(env, packs, h, m[h]);
    }
  }

  // The checkpoint's prefix stays stored while the packs only grow.
  lemma PrefixStays(env: Env, st: State, st': State)
    requires PrefixStored(env, st) && CkptOk(env, st)
    requires st'.disk.ckpt == st.disk.ckpt && st'.disk.gen == st.disk.gen && Extends(Durable(st), Durable(st'))
    requires st.disk.ckpt.Some? && st'.disk.sidecar.Some? ==>
               && st.disk.sidecar.Some?
               && var n := st.disk.ckpt.value.entriesLen;
                  n <= |st.disk.sidecar.value| && n <= |st'.disk.sidecar.value| &&
                  st'.disk.sidecar.value[..n] == st.disk.sidecar.value[..n]
    ensures PrefixStored(env, st')
  {
    hide Extends, Durable, InStore, FastOk, DigestOk, StatsOk, PrefixOk;
    StoreExtends(env, Durable(st), Durable(st'));
    if st.disk.ckpt.Some? && st'.disk.sidecar.Some? && st.disk.gen == st.disk.ckpt.value.gen {
      var n, es, es' := st.disk.ckpt.value.entriesLen, st.disk.sidecar.value, st'.disk.sidecar.value;
      forall i | 0 <= i < n && i < |es'| ensures InStore(env, Durable(st'), es'[i].hash) {
        assert es'[i] == es'[..n][i] == es[..n][i] == es[i];
      }
    }
  }

  lemma ViewStays(env: Env, st: State, st': State)
    requires ViewStored(env, st) && st.session.Some? && st'.session.Some? && Extends(Durable(st), Durable(st'))
    requires st'.session.value.view.Keys <= st.session.value.view.Keys + HashSet(st'.session.value.pending)
    requires HashSet(st.session.value.pending) <= HashSet(st'.session.value.pending)
    ensures ViewStored(env, st')
  {
    hide Extends, Durable, InStore, HashSet;
    StoreExtends(env, Durable(st), Durable(st'));
  }

  lemma ViewFromMap(env: Env, st: State)
    requires st.session.Some? && AllResolve(env, Durable(st), st.session.value.view)
    ensures ViewStored(env, st)
  {
    hide Durable, InStore, AllResolve;
    AllInStore(env, Durable(st), st.session.value.view);
  }

  lemma StartProgress(env: Env, st: State)
    requires Inv(env, st) && CanStart(st)
    ensures Progress(env, DoStart(st))
  {
    hide Durable, AllResolve, InStore;
    StartDurable(env, st);
    ViewFromMap(env, DoStart(st));
  }

  lemma ListingProgress(env: Env, st: State, st': State)
    requires Inv(env, st) && Progress(env, st) && st.session.Some? && st'.session.Some?
    requires st'.disk == st.disk.(sidecar := st'.disk.sidecar, segs := st'.disk.segs)
    requires st'.disk.sidecar.Some? && st.disk.sidecar.value <= st'.disk.sidecar.value
    requires st'.session.value.writePack == st.session.value.writePack
    requires st'.session.value.packBase == st.session.value.packBase
    requires st'.session.value.view.Keys <= st.session.value.view.Keys + HashSet(st'.session.value.pending)
    requires HashSet(st.session.value.pending) <= HashSet(st'.session.value.pending)
    ensures Progress(env, st')
  {
    hide AllResolve, InStore, HashSet, Known, ChunkOk, PendingOk, PacksOk, FastOk, Faithful, StatsOk, DigestOk;
    assert Durable(st') == Durable(st);
    assert Extends(Durable(st), Durable(st'));
    if st.disk.ckpt.Some? {
      var n := st.disk.ckpt.value.entriesLen;
      assert st'.disk.sidecar.value[..n] == st.disk.sidecar.value[..n];
    }
    PrefixStays(env, st, st');
    ViewStays(env, st, st');
  }

  lemma StoreProgress(env: Env, st: State, n: nat, seal: bool)
    requires Inv(env, st) && Progress(env, st) && CanStore(env, st, n, seal)
    ensures Progress(env, DoStore(env, st, n, seal))
  {
    hide AllResolve, InStore, HashSet, Known, ChunkOk, PendingOk, FastOk, Faithful, StatsOk, DigestOk, Durable, Extends,
         PacksOk;
    var st' := DoStore(env, st, n, seal);
    StorePacks(env, st, n, seal);
    PrefixStays(env, st, st');
    ViewStays(env, st, st');
  }

  lemma CheckpointProgress(env: Env, st: State, withDigest: bool, gen: nat)
    requires Inv(env, st) && Progress(env, st) && AtStage(env, st, NeedCheckpoint)
    ensures Progress(env, DoCheckpoint(env, st, withDigest, gen))
  {
    hide AllResolve, InStore, Known, FastOk, Faithful, StatsOk, DigestOk, Extends, PacksOk, CkptOk, Parse,
         InsertsResolve;
    var st' := DoCheckpoint(env, st, withDigest, gen);
    assert Durable(st') == Durable(st);
    var s, es := st.session.value, st.disk.sidecar.value;
    PendingDurable(env, st, s.pending);
    PendingInStore(env, Durable(st), s.pending);
    assert forall h :: h in s.view ==> InStore(env, Durable(st), h);
    assert forall i :: 0 <= i < |es| ==> es[i].hash in s.view;
  }

  lemma PendingInStore(env: Env, packs: Packs, ins: seq<Insert>)
    requires InsertsResolve(env, packs, ins)
    ensures forall h :: h in HashSet(ins) ==> InStore(env, packs, h)
  {
    forall h | h in HashSet(ins) ensures InStore(env, packs, h) {
      var i :| 0 <= i < |ins| && ins[i].hash == h;
      assert Resolves(env, packs, h, ins[i].loc);
    }
  }

  lemma FlushProgress(env: Env, st: State)
    requires Inv(env, st) && Progress(env, st) && CanFlush(env, st)
    ensures Progress(env, DoFlush(env, st))
  {
    hide AllResolve, InStore, HashSet, Known, ChunkOk, PendingOk, FastOk, Faithful, StatsOk, DigestOk, Durable, Extends,
         PacksOk;
    FlushPacks(env, st);
    PrefixStays(env, st, DoFlush(env, st));
    ViewStays(env, st, DoFlush(env, st));
  }

  lemma CrashProgress(env: Env, st: State, keep: nat, gone: bool, junk: seq<Entry>, torn: bool)
    requires Inv(env, st) && Progress(env, st) && CanCrash(env, st, keep, gone, torn)
    ensures Progress(env, DoCrash(env, st, keep, gone, junk, torn))
  {
    hide AllResolve, InStore, HashSet, Known, ChunkOk, PendingOk, FastOk, Faithful, StatsOk, DigestOk, Durable, Extends,
         PacksOk, PacksAfterCrash;
    var st' := DoCrash(env, st, keep, gone, junk, torn);
    CrashPacks(env, st, keep, gone, junk, torn);
    DurableWhole(st');
    if st.disk.ckpt.Some? {
      var n, s := st.disk.ckpt.value.entriesLen, st.session.value;
      assert st'.disk.sidecar.value[..n] == st.disk.sidecar.value[..n];
    }
    PrefixStays(env, st, st');
  }

  // A resumed session knows only what the packs hold.
  lemma ResumeProgress(env: Env, st: State, st': State, index: map<Hash, Loc>, preload: seq<Insert>)
    requires Inv(env, st) && Progress(env, st) && Inv(env, st') && st.session.None? && CanReopen(st.disk)
    requires st'.session == Some(ResumedSession(st.disk, index, preload))
    requires st'.disk == st.disk.(index := st'.disk.index, segs := st'.disk.segs, sidecar := st'.disk.sidecar)
    requires st'.disk.sidecar == Some(st.disk.sidecar.value[..st.disk.ckpt.value.entriesLen])
    ensures Progress(env, st')
  {
    hide AllResolve, InStore, Known, ChunkOk, PendingOk, FastOk, Faithful, StatsOk, DigestOk, Durable, InsertMap,
         PacksOk, EntriesKnown, MaxPack;
    ResumedPacks(st.disk, index, preload);
    ResumedDurable(st');
    DurableWhole(st);
    assert Extends(Durable(st), Durable(st'));
    PrefixStays(env, st, st');
    ViewFromMap(env, st');
  }

  lemma IdleProgress(env: Env, st: State, st': State)
    requires Inv(env, st) && Progress(env, st) && st.session.None? && st'.session.None?
    requires st'.disk == st.disk.(packs := st'.disk.packs, index := st'.disk.index, segs := st'.disk.segs,
                                  gen := st'.disk.gen)
    requires st'.disk.gen == st.disk.gen ==> Extends(st.disk.packs, st'.disk.packs)
    requires st.disk.gen <= st'.disk.gen
    ensures Progress(env, st')
  {
    hide AllResolve, InStore, FastOk, Faithful, StatsOk, DigestOk, Durable, Extends, SessionOk, Complete;
    DurableWhole(st);
    DurableWhole(st');
    if st'.disk.gen == st.disk.gen {
      PrefixStays(env, st, st');
    }
  }

  lemma KeepProgress(env: Env, st: State, ev: Event)
    requires CollisionFree(env) && Inv(env, st) && Progress(env, st) && Enabled(env, st, ev)
    ensures Progress(env, Apply(env, st, ev))
  {
    hide CollisionFree, Inv, Progress, CanStore, CanFlush, CanCrash, DoStart, DoStore, DoCheckpoint, DoFlush, DoCrash,
         AllResolve, TryFastPath, ResumedSession, Extends, PrefixPresent, HashSet;
    match ev
    case Start => StartProgress(env, st);
    case Dedup(n) => ListProgress(env, st, ev);
    case StoreFrame(n, seal) => StoreProgress(env, st, n, seal);
    case AppendSegment => ListProgress(env, st, ev);
    case WriteCheckpoint(withDigest, gen) => CheckpointProgress(env, st, withDigest, gen);
    case IndexChunk => ListProgress(env, st, ev);
    case FlushIndex => FlushProgress(env, st);
    case SaveManifest => NothingToKeep(env, Apply(env, st, ev));
    case Cleanup => NothingToKeep(env, Apply(env, st, ev));
    case Crash(keep, gone, junk, torn) => CrashProgress(env, st, keep, gone, junk, torn);
    case Fail => NothingToKeep(env, Apply(env, st, ev));
    case ResumeFast =>
      Keep(env, st, ev);
      ResumeProgress(env, st, Apply(env, st, ev), st.disk.index, TryFastPath(st.disk, st.disk.ckpt.value).value);
    case ResumeSlow(index) =>
      Keep(env, st, ev);
      ResumeProgress(env, st, Apply(env, st, ev), index, []);
    case RebuildCrash(index) =>
      IdleProgress(env, st, Apply(env, st, ev)) by {
        SelfExtends(st.disk.packs);
      }
    case OtherBackup(packs, index) => IdleProgress(env, st, Apply(env, st, ev));
    case Prune(packs, index, gen) => IdleProgress(env, st, Apply(env, st, ev));
  }

  lemma SelfExtends(packs: Packs)
    ensures Extends(packs, packs)
  {
  }

  lemma NothingToKeep(env: Env, st: State)
    requires st.session.None? && (st.disk.ckpt.None? || st.disk.sidecar.None?)
    ensures Progress(env, st)
  {
  }

  lemma ListProgress(env: Env, st: State, ev: Event)
    requires Inv(env, st) && Progress(env, st) && Enabled(env, st, ev)
    requires ev.Dedup? || ev.AppendSegment? || ev.IndexChunk?
    ensures Progress(env, Apply(env, st, ev))
  {
    hide Inv, Progress, HashSet;
    var st' := Apply(env, st, ev);
    if ev.IndexChunk? {
      var s := st.session.value;
      HashSetAppend(s.pending, Insert(env.H(NextChunk(env, s, s.chunk.len)), s.chunk.loc));
    }
    ListingProgress(env, st, st');
  }

  lemma {:induction false} RunProgress(env: Env, st: State, run: seq<Event>)
    requires CollisionFree(env) && Initial(env, st) && Legal(env, st, run)
    ensures Progress(env, After(env, st, run))
  {
    hide Inv, Enabled, Apply, CollisionFree, Progress, Initial;
    if run == [] {
      InitialIdle(env, st);
      NothingToKeep(env, st);
    } else {
      RunKeeps(env, st, run[..|run| - 1]);
      RunProgress(env, st, run[..|run| - 1]);
      KeepProgress(env, After(env, st, run[..|run| - 1]), run[|run| - 1]);
    }
  }

  lemma InitialIdle(env: Env, st: State)
    requires Initial(env, st)
    ensures st.session.None? && st.disk.ckpt.None?
  {
  }

  // An index rebuilt from the packs: it names frames by what they hold, and has
  // the hash of every frame.
  ghost predicate RebuiltIndex(env: Env, packs: Packs, index: map<Hash, Loc>) {
    AllResolve(env, packs, index) && forall loc :: InPacks(packs, loc) ==> env.H(FrameAt(packs, loc)) in index
  }

  // Whatever interrupted it, an unfinished backup that still has its sidecar can be
  // resumed from its checkpoint, by replay or by rebuilding the index, unless the
  // packs were pruned since.
  lemma CheckpointResumable(env: Env, st: State, run: seq<Event>, index: map<Hash, Loc>)
    requires CollisionFree(env) && Initial(env, st) && Legal(env, st, run)
    requires var d := After(env, st, run).disk;
             && After(env, st, run).session.None? && d.manifest.None?
             && d.ckpt.Some? && d.sidecar.Some? && d.gen == d.ckpt.value.gen
             && RebuiltIndex(env, d.packs, index)
    ensures var st' := After(env, st, run);
            Enabled(env, st', ResumeFast) || Enabled(env, st', ResumeSlow(index))
  {
    hide Legal, After, CollisionFree, Initial, Inv, TryFastPath, AllResolve;
    RunKeeps(env, st, run);
    RunProgress(env, st, run);
    ResumableNow(env, After(env, st, run), index);
  }

  lemma ResumableNow(env: Env, st: State, index: map<Hash, Loc>)
    requires Inv(env, st) && Progress(env, st)
    requires && st.session.None? && st.disk.manifest.None? && st.disk.ckpt.Some? && st.disk.sidecar.Some?
             && st.disk.gen == st.disk.ckpt.value.gen && RebuiltIndex(env, st.disk.packs, index)
    ensures CanResumeFast(st) || CanResumeSlow(env, st, index)
  {
    hide TryFastPath, AllResolve, FastOk, Faithful, StatsOk, DigestOk;
    var es, n := st.disk.sidecar.value, st.disk.ckpt.value.entriesLen;
    forall i | 0 <= i < n ensures es[i].hash in index {
      assert InStore(env, Durable(st), es[i].hash);
      var loc :| Resolves(env, Durable(st), es[i].hash, loc);
      assert InPacks(st.disk.packs, loc);
    }
  }

  // A prune that keeps the chunks of the checkpointed prefix, as its caller asks it to while
  // a backup is suspended, leaves that backup resumable: by rebuilding the index.
  lemma PrunedResumable(env: Env, st: State, run: seq<Event>, packs: Packs, pruned: map<Hash, Loc>, gen: nat,
                        index: map<Hash, Loc>)
    requires CollisionFree(env) && Initial(env, st) && Legal(env, st, run)
    requires Enabled(env, After(env, st, run), Prune(packs, pruned, gen)) && RebuiltIndex(env, packs, index)
    requires var d := After(env, st, run).disk;
             && d.manifest.None? && CanReopen(d)
             && forall i :: 0 <= i < d.ckpt.value.entriesLen ==> d.sidecar.value[i].hash in pruned
    ensures var st' := Apply(env, After(env, st, run), Prune(packs, pruned, gen));
            Enabled(env, st', ResumeSlow(index))
  {
    hide Legal, After, CollisionFree, Initial, FastOk, Faithful, StatsOk, DigestOk, Replay, Parse;
    RunKeeps(env, st, run);
    var d := After(env, st, run).disk;
    forall i | 0 <= i < d.ckpt.value.entriesLen
      ensures d.sidecar.value[i].hash in index
    {
      var h := d.sidecar.value[i].hash;
      assert Resolves(env, packs, h, pruned[h]);
    }
  }
}
