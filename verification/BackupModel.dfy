/** What a resumable backup keeps on disk and in memory.

A source is a byte string.  A backup cuts it into chunks, stores the chunks it
has not seen as frames in numbered packs, indexes them by hash, and lists every
chunk in the entries sidecar.  Checkpoints and segments make the run resumable.
Offsets into a pack count frames, and the digest's state is the bytes absorbed. */
module BackupModel {
  import opened Bytes
  import opened Options

  type Data = seq<byte>
  type Hash = nat

  // The source being backed up and the strong hash.
  datatype Env = Env(src: Data, H: Data -> Hash)

  ghost predicate CollisionFree(env: Env) {
    forall a, b :: env.H(a) == env.H(b) ==> a == b
  }

  datatype Loc = Loc(pack: nat, pos: nat)
  type Packs = map<nat, seq<Data>>

  datatype Entry = Entry(off: nat, len: nat, hash: Hash)
  datatype Insert = Insert(hash: Hash, loc: Loc)
  datatype Stats = Stats(total: nat, raw: nat, unique: nat, dedup: nat)

  datatype Segment = Segment(num: nat, lenAfter: nat, sidecar: seq<Entry>, inserts: seq<Insert>)

  // One item of the segments file: a whole segment, or the remains of one whose
  // write was cut short (its checksum does not match).
  datatype SegItem = Whole(seg: Segment) | Torn

  datatype Checkpoint = Checkpoint(num: nat, resume: nat, entriesLen: nat, stats: Stats, digest: Option<Data>, gen: nat)
  datatype Manifest = Manifest(entries: seq<Entry>, stats: Stats, digest: Option<Data>)

  datatype Disk = Disk(
    packs: Packs,
    gen: nat, // the pack layout's generation
    index: map<Hash, Loc>, // the flushed index
    sidecar: Option<seq<Entry>>,
    segs: seq<SegItem>,
    ckpt: Option<Checkpoint>,
    manifest: Option<Manifest>)

  // How far the chunk being stored has got.
  datatype Stage = NeedSegment | NeedCheckpoint | NeedIndex
  datatype Chunk = Idle | Stored(len: nat, loc: Loc, stage: Stage)

  datatype Session = Session(
    view: map<Hash, Loc>, // the index with this session's inserts
    off: nat, // source bytes done
    writePack: nat, // the pack being written
    packBase: nat, // frames of writePack that were durable before this session
    curPack: nat,
    num: nat, // next checkpoint's number
    prevLen: nat, // entries covered by the previous checkpoint
    synced: nat, // entries known to be durable
    pending: seq<Insert>, // inserts since the previous checkpoint
    stats: Stats,
    digest: Option<Data>,
    chunk: Chunk,
    flushed: bool)

  datatype State = State(disk: Disk, session: Option<Session>)

  // ---- Packs ----

  predicate InPacks(packs: Packs, loc: Loc) {
    loc.pack in packs && loc.pos < |packs[loc.pack]|
  }

  function FrameAt(packs: Packs, loc: Loc): Data
    requires InPacks(packs, loc)
  {
    packs[loc.pack][loc.pos]
  }

  function Frames(packs: Packs, p: nat): seq<Data> {
    if p in packs then packs[p] else []
  }

  ghost predicate Resolves(env: Env, packs: Packs, h: Hash, loc: Loc) {
    InPacks(packs, loc) && env.H(FrameAt(packs, loc)) == h
  }

  ghost predicate AllResolve(env: Env, packs: Packs, m: map<Hash, Loc>) {
    forall h :: h in m ==> Resolves(env, packs, h, m[h])
  }

  ghost predicate InsertsResolve(env: Env, packs: Packs, ins: seq<Insert>) {
    forall i :: 0 <= i < |ins| ==> Resolves(env, packs, ins[i].hash, ins[i].loc)
  }

  // packs' has every frame of packs where it was, and maybe more.
  ghost predicate Extends(packs: Packs, packs': Packs) {
    forall loc :: InPacks(packs, loc) ==> InPacks(packs', loc) && FrameAt(packs', loc) == FrameAt(packs, loc)
  }

  // ---- Entries ----

  function EndOf(es: seq<Entry>): nat {
    if es == [] then 0 else es[|es| - 1].off + es[|es| - 1].len
  }

  // The entries follow one another from offset 0 without gap or overlap.
  ghost predicate Chained(es: seq<Entry>) {
    forall i :: 0 <= i < |es| ==> es[i].len > 0 && es[i].off == EndOf(es[..i])
  }

  ghost predicate Hashed(env: Env, es: seq<Entry>) {
    forall i :: 0 <= i < |es| ==>
      es[i].off + es[i].len <= |env.src| && es[i].hash == env.H(env.src[es[i].off..es[i].off + es[i].len])
  }

  // es is a faithful list of the first `upto` bytes of the source.
  ghost predicate Faithful(env: Env, es: seq<Entry>, upto: nat) {
    Chained(es) && Hashed(env, es) && EndOf(es) == upto
  }

  ghost predicate StatsOk(st: Stats, entries: nat, upto: nat) {
    st.total == entries && st.raw == upto && st.unique + st.dedup == st.total
  }

  ghost predicate DigestOk(env: Env, d: Option<Data>, upto: nat) {
    upto <= |env.src| && (d.Some? ==> d.value == env.src[..upto])
  }

  // ---- Segments ----

  // The segments ParseSegments returns: whole ones numbered from 0, up to the
  // first that is torn or out of sequence.
  function Parse(items: seq<SegItem>): (segs: seq<Segment>)
    ensures |segs| <= |items|
    ensures forall i :: 0 <= i < |segs| ==> items[i] == Whole(segs[i]) && segs[i].num == i
  {
    if items == [] then []
    else
      var front := Parse(items[..|items| - 1]);
      var last := items[|items| - 1];
      if |front| == |items| - 1 && last.Whole? && last.seg.num == |front| then front + [last.seg] else front
  }

  function SidecarOf(segs: seq<Segment>): seq<Entry> {
    if segs == [] then [] else SidecarOf(segs[..|segs| - 1]) + segs[|segs| - 1].sidecar
  }

  function InsertsOf(segs: seq<Segment>): seq<Insert> {
    if segs == [] then [] else InsertsOf(segs[..|segs| - 1]) + segs[|segs| - 1].inserts
  }

  function HashSet(ins: seq<Insert>): set<Hash> {
    set i | 0 <= i < |ins| :: ins[i].hash
  }

  // The index a list of inserts leaves, last one winning.
  function InsertMap(m: map<Hash, Loc>, ins: seq<Insert>): map<Hash, Loc> {
    if ins == [] then m else InsertMap(m, ins[..|ins| - 1])[ins[|ins| - 1].hash := ins[|ins| - 1].loc]
  }

  datatype Replayed = Replayed(sidecar: seq<Entry>, inserts: seq<Insert>)

  // ReplaySegments: take segments until the wanted entries are covered, cutting
  // the last; None when they fall short.
  function Replay(segs: seq<Segment>, want: nat): Option<Replayed> {
    var r := ReplayUpTo(segs, want);
    if |r.sidecar| == want then Some(r) else None
  }

  function ReplayUpTo(segs: seq<Segment>, want: nat): (r: Replayed)
    ensures |r.sidecar| <= want
  {
    if segs == [] then Replayed([], [])
    else
      var r := ReplayUpTo(segs[..|segs| - 1], want);
      var s := segs[|segs| - 1];
      if |r.sidecar| >= want then r
      else
        var take := if |r.sidecar| + |s.sidecar| > want then s.sidecar[..want - |r.sidecar|] else s.sidecar;
        Replayed(r.sidecar + take, r.inserts + s.inserts)
  }

  // tryFastPath: the inserts to preload, or None to rebuild the index instead.
  function TryFastPath(d: Disk, c: Checkpoint): Option<seq<Insert>> {
    var segs := Parse(d.segs);
    var keep := c.num + 1;
    if d.gen != c.gen || segs == [] || |segs| < keep then None
    else
      var rs := Replay(segs[..keep], c.entriesLen);
      if rs.None? then None
      else if d.sidecar.None? || |d.sidecar.value| < c.entriesLen then None
      else if d.sidecar.value[..c.entriesLen] != rs.value.sidecar then None
      else Some(rs.value.inserts)
  }

  // What the fast path leaves of the segments file: over-run segments are cut off,
  // but a torn tail behind exactly the kept segments stays.
  function KeptSegs(items: seq<SegItem>, keep: nat): seq<SegItem> {
    if |Parse(items)| > keep then items[..keep] else items
  }

  function MaxPack(packs: Packs): Option<nat> {
    if packs == map[] then None else Some(MaxKey(packs.Keys))
  }

  function MaxKey(s: set<nat>): (m: nat)
    requires s != {}
    ensures m in s && forall x :: x in s ==> x <= m
  {
    MaxKeyExists(s);
    var m :| m in s && forall x :: x in s ==> x <= m;
    m
  }

  lemma {:induction false} MaxKeyExists(s: set<nat>)
    requires s != {}
    ensures exists m :: m in s && forall x :: x in s ==> x <= m
  {
    var a :| a in s;
    if s != {a} {
      var t := s - {a};
      MaxKeyExists(t);
      var m :| m in t && forall x :: x in t ==> x <= m;
      var best := if m < a then a else m;
      assert s == t + {a};
      assert best in s && forall x :: x in s ==> x <= best;
    } else {
      assert a in s && forall x :: x in s ==> x <= a;
    }
  }
}
