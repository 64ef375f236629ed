/** The steps a backup takes and the ways it can be interrupted.

One event is one durable or in-memory step of core/pipeline/pipeline.go,
core/resume/reconcile.go or their surroundings; a crash may fall between any two
of them. */
module BackupProtocol {
  import opened Options
  import opened BackupModel

  datatype Event =
    | Start // a fresh backup
    | Dedup(n: nat) // the next n bytes are a chunk already indexed
    | StoreFrame(n: nat, seal: bool) // the next n bytes are stored; seal rotates the pack first
    | AppendSegment // sync the sidecar, append and sync the segment
    | WriteCheckpoint(withDigest: bool, gen: nat)
    | IndexChunk // index the stored chunk and list it in the sidecar
    | FlushIndex // end of source: seal the last pack, flush the index
    | SaveManifest
    | Cleanup // remove checkpoint and segments of a finished backup
    | Crash(keep: nat, gone: bool, junk: seq<Entry>, torn: bool)
    | Fail // an error return: the sidecar is removed
    | ResumeFast
    | ResumeSlow(index: map<Hash, Loc>) // index rebuilt from the packs
    | RebuildCrash(index: map<Hash, Loc>) // the rebuild was cut short
    | OtherBackup(packs: Packs, index: map<Hash, Loc>) // another backup completed meanwhile
    | Prune(packs: Packs, index: map<Hash, Loc>, gen: nat)

  // The chunk of n bytes the run is at.
  function NextChunk(env: Env, s: Session, n: nat): Data
    requires s.off + n <= |env.src|
  {
    env.src[s.off..s.off + n]
  }

  predicate Ready(env: Env, st: State, n: nat) {
    && st.session.Some? && st.session.value.chunk == Idle && !st.session.value.flushed
    && st.disk.sidecar.Some?
    && 0 < n && st.session.value.off + n <= |env.src|
  }

  predicate AtStage(env: Env, st: State, stage: Stage) {
    && st.session.Some? && st.disk.sidecar.Some?
    && st.session.value.chunk.Stored? && st.session.value.chunk.stage == stage
    && st.session.value.off + st.session.value.chunk.len <= |env.src|
  }

  // The prefix the checkpoint names can be picked up again.
  predicate CanReopen(d: Disk) {
    d.ckpt.Some? && d.sidecar.Some? && d.ckpt.value.entriesLen <= |d.sidecar.value|
  }

  ghost predicate PrefixPresent(d: Disk, index: map<Hash, Loc>)
    requires CanReopen(d)
  {
    forall i :: 0 <= i < d.ckpt.value.entriesLen ==> d.sidecar.value[i].hash in index
  }

  function Tally(s: Stats, n: nat, isNew: bool): Stats {
    Stats(s.total + 1, s.raw + n, s.unique + (if isNew then 1 else 0), s.dedup + (if isNew then 0 else 1))
  }

  function Absorb(d: Option<Data>, chunk: Data): Option<Data> {
    if d.Some? then Some(d.value + chunk) else None
  }

  // The session a run opens with; pack numbers go on from `pack`.
  function Opened(view: map<Hash, Loc>, off: nat, pack: nat, base: nat, cur: nat, num: nat, len: nat, stats: Stats,
                  digest: Option<Data>): Session {
    Session(view, off, pack, base, cur, num, len, len, [], stats, digest, Idle, false)
  }

  function ResumedSession(d: Disk, index: map<Hash, Loc>, preload: seq<Insert>): Session
    requires d.ckpt.Some?
  {
    var c := d.ckpt.value;
    var start := if MaxPack(d.packs).Some? then MaxPack(d.packs).value + 1 else 0;
    Opened(InsertMap(index, preload), c.resume, start, 0, start, c.num + 1, c.entriesLen, c.stats, c.digest)
  }

  function PacksAfterCrash(packs: Packs, pack: nat, keep: nat, gone: bool): Packs
    requires keep <= |Frames(packs, pack)|
  {
    if pack !in packs then packs
    else if gone then packs - {pack}
    else packs[pack := packs[pack][..keep]]
  }

  // The segment emitCheckpoint writes: what the sidecar and the index gained since
  // the previous checkpoint.
  function NewSegment(s: Session, es: seq<Entry>): Segment {
    Segment(s.num, |es|, if s.prevLen <= |es| then es[s.prevLen..] else [], s.pending)
  }

  // ---- The store loop ----

  // A fresh run.  NewChunkStore goes on appending to the highest pack there is.
  predicate CanStart(st: State) {
    st.session.None? && st.disk.manifest.None?
  }

  function DoStart(st: State): State
    requires CanStart(st)
  {
    var d := st.disk;
    var pack := if MaxPack(d.packs).Some? then MaxPack(d.packs).value else 0;
    State(d.(sidecar := Some([]), segs := [], ckpt := None),
          Some(Opened(d.index, 0, pack, |Frames(d.packs, pack)|, 0, 0, 0, Stats(0, 0, 0, 0), Some([]))))
  }

  // A chunk the index already has is only listed.
  predicate CanDedup(env: Env, st: State, n: nat) {
    Ready(env, st, n) && env.H(NextChunk(env, st.session.value, n)) in st.session.value.view
  }

  function DoDedup(env: Env, st: State, n: nat): State
    requires CanDedup(env, st, n)
  {
    var d, s := st.disk, st.session.value;
    var chunk := NextChunk(env, s, n);
    State(d.(sidecar := Some(d.sidecar.value + [Entry(s.off, n, env.H(chunk))])),
          Some(s.(off := s.off + n, stats := Tally(s.stats, n, false), digest := Absorb(s.digest, chunk))))
  }

  // StoreRaw: the frame goes into the open pack, or into the next one after
  // sealing it.  A pack number above curPack calls for a checkpoint first.
  predicate CanStore(env: Env, st: State, n: nat, seal: bool) {
    Ready(env, st, n) && (seal ==> Frames(st.disk.packs, st.session.value.writePack) != [])
  }

  function DoStore(env: Env, st: State, n: nat, seal: bool): State
    requires CanStore(env, st, n, seal)
  {
    var d, s := st.disk, st.session.value;
    var pack := if seal then s.writePack + 1 else s.writePack;
    var frames := Frames(d.packs, pack);
    State(d.(packs := d.packs[pack := frames + [NextChunk(env, s, n)]]),
          Some(s.(writePack := pack, packBase := if seal then 0 else s.packBase,
                  chunk := Stored(n, Loc(pack, |frames|), if pack > s.curPack then NeedSegment else NeedIndex))))
  }

  function DoSegment(env: Env, st: State): State
    requires AtStage(env, st, NeedSegment)
  {
    var d, s := st.disk, st.session.value;
    State(d.(segs := d.segs + [Whole(NewSegment(s, d.sidecar.value))]),
          Some(s.(synced := |d.sidecar.value|, chunk := s.chunk.(stage := NeedCheckpoint))))
  }

  function DoCheckpoint(env: Env, st: State, withDigest: bool, gen: nat): State
    requires AtStage(env, st, NeedCheckpoint)
  {
    var d, s := st.disk, st.session.value;
    var len := |d.sidecar.value|;
    State(d.(ckpt := Some(Checkpoint(s.num, s.off, len, s.stats, if withDigest then s.digest else None, gen))),
          Some(s.(curPack := s.writePack, num := s.num + 1, prevLen := len, pending := [],
                  chunk := s.chunk.(stage := NeedIndex))))
  }

  function DoIndex(env: Env, st: State): State
    requires AtStage(env, st, NeedIndex)
  {
    var d, s := st.disk, st.session.value;
    var n := s.chunk.len;
    var chunk := NextChunk(env, s, n);
    var h := env.H(chunk);
    State(d.(sidecar := Some(d.sidecar.value + [Entry(s.off, n, h)])),
          Some(s.(view := s.view[h := s.chunk.loc], pending := s.pending + [Insert(h, s.chunk.loc)],
                  off := s.off + n, stats := Tally(s.stats, n, true), digest := Absorb(s.digest, chunk),
                  chunk := Idle)))
  }

  // End of source: the last pack is sealed, the index flushed, and only then the
  // manifest saved.
  predicate CanFlush(env: Env, st: State) {
    && st.session.Some? && st.disk.sidecar.Some? && st.session.value.chunk == Idle
    && !st.session.value.flushed && st.session.value.off == |env.src|
  }

  function DoFlush(env: Env, st: State): State
    requires CanFlush(env, st)
  {
    var d, s := st.disk, st.session.value;
    State(d.(index := s.view), Some(s.(flushed := true, packBase := |Frames(d.packs, s.writePack)|)))
  }

  predicate CanSave(st: State) {
    st.session.Some? && st.disk.sidecar.Some? && st.session.value.flushed
  }

  function DoSave(st: State): State
    requires CanSave(st)
  {
    var d, s := st.disk, st.session.value;
    State(d.(manifest := Some(Manifest(d.sidecar.value, s.stats, s.digest)), sidecar := None), None)
  }

  // ---- Interruptions ----

  // A crash keeps at least the frames that were durable before the session, the
  // synced entries and the segments already written.
  predicate CanCrash(env: Env, st: State, keep: nat, gone: bool, torn: bool) {
    && st.session.Some?
    && st.session.value.packBase <= keep <= |Frames(st.disk.packs, st.session.value.writePack)|
    && (gone ==> st.session.value.packBase == 0)
    && (torn ==> AtStage(env, st, NeedSegment))
  }

  function DoCrash(env: Env, st: State, keep: nat, gone: bool, junk: seq<Entry>, torn: bool): State
    requires CanCrash(env, st, keep, gone, torn)
  {
    var d, s := st.disk, st.session.value;
    State(d.(packs := PacksAfterCrash(d.packs, s.writePack, keep, gone),
             sidecar := if d.sidecar.Some? && s.synced <= |d.sidecar.value|
                        then Some(d.sidecar.value[..s.synced] + junk) else None,
             segs := if torn then d.segs + [Torn] else d.segs), None)
  }

  // ---- Resuming ----

  predicate CanResumeFast(st: State) {
    st.session.None? && st.disk.manifest.None? && CanReopen(st.disk) && TryFastPath(st.disk, st.disk.ckpt.value).Some?
  }

  function DoResumeFast(st: State): State
    requires CanResumeFast(st)
  {
    var d, c := st.disk, st.disk.ckpt.value;
    State(d.(sidecar := Some(d.sidecar.value[..c.entriesLen]), segs := KeptSegs(d.segs, c.num + 1)),
          Some(ResumedSession(d, d.index, TryFastPath(d, c).value)))
  }

  // The slow path runs only when the fast path declined; the rebuilt index names
  // frames by what they hold.
  ghost predicate CanRebuild(env: Env, st: State, index: map<Hash, Loc>) {
    && st.session.None? && st.disk.manifest.None? && st.disk.ckpt.Some?
    && TryFastPath(st.disk, st.disk.ckpt.value).None?
    && AllResolve(env, st.disk.packs, index)
  }

  ghost predicate CanResumeSlow(env: Env, st: State, index: map<Hash, Loc>) {
    CanRebuild(env, st, index) && CanReopen(st.disk) && PrefixPresent(st.disk, index)
  }

  function DoResumeSlow(st: State, index: map<Hash, Loc>): State
    requires CanReopen(st.disk)
  {
    var d := st.disk;
    State(d.(index := index, sidecar := Some(d.sidecar.value[..d.ckpt.value.entriesLen]), segs := []),
          Some(ResumedSession(d, index, [])))
  }

  function DoRebuildCrash(st: State, index: map<Hash, Loc>): State {
    State(st.disk.(index := index, segs := []), None)
  }

  // ---- Others ----

  ghost predicate CanOther(env: Env, st: State, packs: Packs, index: map<Hash, Loc>) {
    && st.session.None? && Extends(st.disk.packs, packs)
    && st.disk.index.Keys <= index.Keys && AllResolve(env, packs, index)
  }

  ghost predicate CanPrune(env: Env, st: State, packs: Packs, index: map<Hash, Loc>, gen: nat) {
    && st.session.None? && st.disk.gen < gen && AllResolve(env, packs, index)
    && (st.disk.manifest.Some? ==>
          forall i :: 0 <= i < |st.disk.manifest.value.entries| ==> st.disk.manifest.value.entries[i].hash in index)
  }

  // ---- All of them ----

  ghost predicate Enabled(env: Env, st: State, ev: Event) {
    match ev
    case Start => CanStart(st)
    case Dedup(n) => CanDedup(env, st, n)
    case StoreFrame(n, seal) => CanStore(env, st, n, seal)
    case AppendSegment => AtStage(env, st, NeedSegment)
    case WriteCheckpoint(_, gen) => AtStage(env, st, NeedCheckpoint) && gen <= st.disk.gen
    case IndexChunk => AtStage(env, st, NeedIndex)
    case FlushIndex => CanFlush(env, st)
    case SaveManifest => CanSave(st)
    case Cleanup => st.session.None? && st.disk.manifest.Some?
    case Crash(keep, gone, _, torn) => CanCrash(env, st, keep, gone, torn)
    case Fail => st.session.Some?
    case ResumeFast => CanResumeFast(st)
    case ResumeSlow(index) => CanResumeSlow(env, st, index)
    case RebuildCrash(index) => CanRebuild(env, st, index)
    case OtherBackup(packs, index) => CanOther(env, st, packs, index)
    case Prune(packs, index, gen) => CanPrune(env, st, packs, index, gen)
  }

  ghost function Apply(env: Env, st: State, ev: Event): State
    requires Enabled(env, st, ev)
  {
    match ev
    case Start => DoStart(st)
    case Dedup(n) => DoDedup(env, st, n)
    case StoreFrame(n, seal) => DoStore(env, st, n, seal)
    case AppendSegment => DoSegment(env, st)
    case WriteCheckpoint(withDigest, gen) => DoCheckpoint(env, st, withDigest, gen)
    case IndexChunk => DoIndex(env, st)
    case FlushIndex => DoFlush(env, st)
    case SaveManifest => DoSave(st)
    case Cleanup => State(st.disk.(ckpt := None, segs := []), None)
    case Crash(keep, gone, junk, torn) => DoCrash(env, st, keep, gone, junk, torn)
    case Fail => State(st.disk.(sidecar := None), None)
    case ResumeFast => DoResumeFast(st)
    case ResumeSlow(index) => DoResumeSlow(st, index)
    case RebuildCrash(index) => DoRebuildCrash(st, index)
    case OtherBackup(packs, index) => State(st.disk.(packs := packs, index := index), None)
    case Prune(packs, index, gen) => State(st.disk.(packs := packs, index := index, gen := gen), None)
  }
}
