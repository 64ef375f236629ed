/** A completed backup is faithful, however often it was interrupted.

`Inv` is kept by every event, so it holds in every reachable state of every run;
a manifest in such a state lists the whole source, and every chunk it names
resolves to a frame holding exactly those bytes. */
module BackupSafety {
  import opened Options
  import opened BackupModel
  import opened BackupProtocol

  // The packs as any crash would leave them at least.
  function Durable(st: State): Packs {
    if st.session.None? then st.disk.packs
    else
      var s := st.session.value;
      if s.packBase == 0 || s.writePack !in st.disk.packs then st.disk.packs - {s.writePack}
      else st.disk.packs[s.writePack := if s.packBase <= |st.disk.packs[s.writePack]|
                                        then st.disk.packs[s.writePack][..s.packBase]
                                        else st.disk.packs[s.writePack]]
  }

  ghost predicate IndexOk(env: Env, st: State) {
    AllResolve(env, Durable(st), st.disk.index)
  }

  // A segment with inserts also lists the entries they were made for.
  ghost predicate Paired(segs: seq<Segment>) {
    forall k :: 0 <= k < |segs| && segs[k].inserts != [] ==> segs[k].sidecar != []
  }

  // Replaying the segments the checkpoint covers, over the flushed index, resolves
  // every entry they list.
  ghost predicate SegsCover(env: Env, packs: Packs, index: map<Hash, Loc>, segs: seq<Segment>, len: nat) {
    && Paired(segs)
    && InsertsResolve(env, packs, InsertsOf(segs))
    && |SidecarOf(segs)| == len
    && forall i :: 0 <= i < |SidecarOf(segs)| ==> SidecarOf(segs)[i].hash in index.Keys + HashSet(InsertsOf(segs))
  }

  ghost predicate FastOk(env: Env, st: State, c: Checkpoint) {
    st.disk.gen == c.gen && |Parse(st.disk.segs)| > c.num ==>
      SegsCover(env, Durable(st), st.disk.index, Parse(st.disk.segs)[..c.num + 1], c.entriesLen)
  }

  ghost predicate PrefixOk(env: Env, sidecar: Option<seq<Entry>>, c: Checkpoint) {
    sidecar.Some? ==> c.entriesLen <= |sidecar.value| && Faithful(env, sidecar.value[..c.entriesLen], c.resume)
  }

  ghost predicate CkptOk(env: Env, st: State) {
    st.disk.ckpt.Some? ==>
      var c := st.disk.ckpt.value;
      && StatsOk(c.stats, c.entriesLen, c.resume) && DigestOk(env, c.digest, c.resume) && c.gen <= st.disk.gen
      && PrefixOk(env, st.disk.sidecar, c)
      && (st.session.Some? ==> c.entriesLen <= st.session.value.synced && c.num < st.session.value.num)
      && FastOk(env, st, c)
  }

  // While every segment written so far is readable, they and the inserts since
  // account for everything the session knows beyond the flushed index.
  ghost predicate Known(env: Env, st: State, s: Session, es: seq<Entry>) {
    |Parse(st.disk.segs)| >= s.num ==>
      var segs := Parse(st.disk.segs)[..s.num];
      && Paired(segs)
      && InsertsResolve(env, Durable(st), InsertsOf(segs))
      && s.prevLen <= |es| && SidecarOf(segs) == es[..s.prevLen]
      && s.view.Keys <= st.disk.index.Keys + HashSet(InsertsOf(segs)) + HashSet(s.pending)
  }

  ghost predicate PacksOk(packs: Packs, writePack: nat, packBase: nat, curPack: nat) {
    && packBase <= |Frames(packs, writePack)|
    && (forall p :: p in packs ==> p <= writePack)
    && curPack <= writePack
  }

  ghost predicate AllBelow(ins: seq<Insert>, pack: nat) {
    forall i :: 0 <= i < |ins| ==> ins[i].loc.pack < pack
  }

  ghost predicate PendingOk(env: Env, st: State, s: Session, es: seq<Entry>) {
    && InsertsResolve(env, st.disk.packs, s.pending)
    && AllBelow(s.pending, s.writePack + 1)
    && (s.pending != [] ==> s.prevLen < |es|)
  }

  ghost predicate ChunkOk(env: Env, st: State, s: Session, es: seq<Entry>) {
    match s.chunk
    case Idle => (s.pending == [] || s.curPack == s.writePack) && |Parse(st.disk.segs)| <= s.num
    case Stored(n, loc, stage) =>
      && 0 < n && s.off + n <= |env.src| && !s.flushed
      && InPacks(st.disk.packs, loc) && FrameAt(st.disk.packs, loc) == env.src[s.off..s.off + n]
      && loc.pack == s.writePack
      && match stage
         case NeedSegment => AllBelow(s.pending, s.writePack) && |Parse(st.disk.segs)| <= s.num
         case NeedCheckpoint =>
           && AllBelow(s.pending, s.writePack) && s.synced == |es|
           && |Parse(st.disk.segs)| <= s.num + 1
           && (|Parse(st.disk.segs)| > s.num ==> Parse(st.disk.segs)[s.num] == NewSegment(s, es))
         case NeedIndex => s.curPack == s.writePack && |Parse(st.disk.segs)| <= s.num
  }

  ghost predicate EntriesKnown(es: seq<Entry>, view: map<Hash, Loc>) {
    forall i :: 0 <= i < |es| ==> es[i].hash in view
  }

  ghost predicate ListingOk(env: Env, s: Session, es: seq<Entry>) {
    && Faithful(env, es, s.off) && s.prevLen <= s.synced <= |es|
    && StatsOk(s.stats, |es|, s.off) && DigestOk(env, s.digest, s.off)
    && EntriesKnown(es, s.view)
  }

  ghost predicate SessionOk(env: Env, st: State) {
    st.session.Some? ==>
      && st.disk.sidecar.Some?
      && var s, es := st.session.value, st.disk.sidecar.value;
         && ListingOk(env, s, es)
         && AllResolve(env, st.disk.packs, s.view) && st.disk.index.Keys <= s.view.Keys
         && PacksOk(st.disk.packs, s.writePack, s.packBase, s.curPack)
         && PendingOk(env, st, s, es)
         && ChunkOk(env, st, s, es)
         && Known(env, st, s, es)
         && (s.flushed ==> s.off == |env.src| && st.disk.index == s.view)
  }

  // What a completed backup promises.
  ghost predicate Complete(env: Env, d: Disk, m: Manifest) {
    && Faithful(env, m.entries, |env.src|)
    && StatsOk(m.stats, |m.entries|, |env.src|)
    && (m.digest.Some? ==> m.digest.value == env.src)
    && forall i :: 0 <= i < |m.entries| ==>
         && m.entries[i].hash in d.index
         && InPacks(d.packs, d.index[m.entries[i].hash])
         && FrameAt(d.packs, d.index[m.entries[i].hash]) ==
              env.src[m.entries[i].off..m.entries[i].off + m.entries[i].len]
  }

  ghost predicate ManifestOk(env: Env, st: State) {
    st.disk.manifest.Some? ==> st.session.None? && Complete(env, st.disk, st.disk.manifest.value)
  }

  ghost predicate Inv(env: Env, st: State) {
    IndexOk(env, st) && CkptOk(env, st) && SessionOk(env, st) && ManifestOk(env, st)
  }

  // ---- Growing packs ----

  lemma ResolveExtends(env: Env, packs: Packs, packs': Packs, m: map<Hash, Loc>)
    requires Extends(packs, packs') && AllResolve(env, packs, m)
    ensures AllResolve(env, packs', m)
  {
    forall h | h in m ensures Resolves(env, packs', h, m[h]) {
      assert Resolves(env, packs, h, m[h]);
    }
  }

  lemma InsertsExtend(env: Env, packs: Packs, packs': Packs, ins: seq<Insert>)
    requires Extends(packs, packs') && InsertsResolve(env, packs, ins)
    ensures InsertsResolve(env, packs', ins)
  {
    forall i | 0 <= i < |ins| ensures Resolves(env, packs', ins[i].hash, ins[i].loc) {
      assert Resolves(env, packs, ins[i].hash, ins[i].loc);
    }
  }

  lemma CoverExtends(env: Env, packs: Packs, packs': Packs, index: map<Hash, Loc>, index': map<Hash, Loc>,
                     segs: seq<Segment>, len: nat)
    requires Extends(packs, packs') && index.Keys <= index'.Keys && SegsCover(env, packs, index, segs, len)
    ensures SegsCover(env, packs', index', segs, len)
  {
    InsertsExtend(env, packs, packs', InsertsOf(segs));
  }

  // ---- Segments ----

  lemma {:induction false} ParseAppend(items: seq<SegItem>, x: SegItem)
    ensures Parse(items + [x]) ==
            if |Parse(items)| == |items| && x.Whole? && x.seg.num == |items| then Parse(items) + [x.seg]
            else Parse(items)
  {
    assert (items + [x])[..|items|] == items;
  }

  lemma {:induction false} ParsePrefix(items: seq<SegItem>, k: nat)
    requires k <= |Parse(items)|
    ensures Parse(items[..k]) == Parse(items)[..k]
  {
    if items != [] {
      var front := items[..|items| - 1];
      if k <= |Parse(front)| {
        ParsePrefix(front, k);
        assert front[..k] == items[..k];
      } else {
        assert k == |items|;
        assert items[..k] == items;
      }
    }
  }

  // The segments a fast resume keeps are those it replayed.
  lemma KeptParse(items: seq<SegItem>, keep: nat)
    requires keep <= |Parse(items)|
    ensures Parse(KeptSegs(items, keep)) == Parse(items)[..keep]
  {
    ParsePrefix(items, keep);
  }

  // One segment kept, a torn one behind it: the next, whole as it is, is never read.
  lemma TornTailHidesSegment(a: Segment, b: Segment)
    requires a.num == 0 && b.num == 1
    ensures Parse(KeptSegs([Whole(a), Torn], 1) + [Whole(b)]) == [a]
  {
    var items := [Whole(a), Torn];
    assert items[..1] == [Whole(a)] && [Whole(a)][..0] == [];
    assert Parse([Whole(a)]) == [a];
    assert Parse(items) == [a];
    assert (items + [Whole(b)])[..2] == items;
  }

  // A fast resume cuts off segments the checkpoint does not cover, but leaves a torn
  // tail behind exactly the covered ones.  The next segment is then written where
  // no parse will reach it.
  lemma NextSegmentReadable(items: seq<SegItem>, keep: nat, seg: Segment)
    requires keep <= |Parse(items)| && seg.num == keep
    ensures |Parse(KeptSegs(items, keep) + [Whole(seg)])| > keep <==> |Parse(items)| > keep || |items| == keep
  {
    KeptParse(items, keep);
    ParseAppend(KeptSegs(items, keep), Whole(seg));
  }

  lemma {:induction false} ReplayAll(segs: seq<Segment>, want: nat)
    requires Paired(segs) && |SidecarOf(segs)| <= want
    ensures ReplayUpTo(segs, want) == Replayed(SidecarOf(segs), InsertsOf(segs))
  {
    if segs != [] {
      ReplayAll(segs[..|segs| - 1], want);
    }
  }

  lemma {:induction false} InsertMapDomain(m: map<Hash, Loc>, ins: seq<Insert>)
    ensures InsertMap(m, ins).Keys == m.Keys + HashSet(ins)
  {
    if ins != [] {
      var front := ins[..|ins| - 1];
      InsertMapDomain(m, front);
      HashSetAppend(front, ins[|ins| - 1]);
      assert ins == front + [ins[|ins| - 1]];
    }
  }

  lemma HashSetAppend(ins: seq<Insert>, t: Insert)
    ensures HashSet(ins + [t]) == HashSet(ins) + {t.hash}
  {
    assert (ins + [t])[|ins|] == t;
    forall i | 0 <= i < |ins| ensures (ins + [t])[i] == ins[i] {}
  }

  lemma HashSetConcat(a: seq<Insert>, b: seq<Insert>)
    ensures HashSet(a + b) == HashSet(a) + HashSet(b)
  {
    forall i | 0 <= i < |a| ensures (a + b)[i] == a[i] {}
    forall i | 0 <= i < |b| ensures (a + b)[|a| + i] == b[i] {}
  }

  lemma {:induction false} InsertMapResolves(env: Env, packs: Packs, m: map<Hash, Loc>, ins: seq<Insert>)
    requires AllResolve(env, packs, m) && InsertsResolve(env, packs, ins)
    ensures AllResolve(env, packs, InsertMap(m, ins))
  {
    if ins != [] {
      InsertMapResolves(env, packs, m, ins[..|ins| - 1]);
    }
  }

  // ---- Entries ----

  lemma ChainedAppend(es: seq<Entry>, e: Entry)
    requires Chained(es) && e.len > 0 && e.off == EndOf(es)
    ensures Chained(es + [e]) && EndOf(es + [e]) == e.off + e.len
  {
    var es' := es + [e];
    forall i | 0 <= i < |es'| ensures es'[i].len > 0 && es'[i].off == EndOf(es'[..i]) {
      assert es'[..i] == es[..i];
      assert i == |es| ==> es[..i] == es;
    }
  }

  lemma HashedAppend(env: Env, es: seq<Entry>, e: Entry)
    requires Hashed(env, es) && e.off + e.len <= |env.src| && e.hash == env.H(env.src[e.off..e.off + e.len])
    ensures Hashed(env, es + [e])
  {
  }

  lemma FaithfulAppend(env: Env, es: seq<Entry>, off: nat, n: nat)
    requires Faithful(env, es, off) && 0 < n && off + n <= |env.src|
    ensures Faithful(env, es + [Entry(off, n, env.H(env.src[off..off + n]))], off + n)
  {
    hide Chained, Hashed;
    HashedAppend(env, es, Entry(off, n, env.H(env.src[off..off + n])));
    ChainedAppend(es, Entry(off, n, env.H(env.src[off..off + n])));
  }

  lemma DigestAppend(env: Env, d: Option<Data>, off: nat, n: nat)
    requires DigestOk(env, d, off) && off + n <= |env.src|
    ensures DigestOk(env, Absorb(d, env.src[off..off + n]), off + n)
  {
    assert env.src[..off] + env.src[off..off + n] == env.src[..off + n];
  }

  lemma PrefixKept(env: Env, es: seq<Entry>, es': seq<Entry>, c: Checkpoint)
    requires PrefixOk(env, Some(es), c)
    requires c.entriesLen <= |es'| && es'[..c.entriesLen] == es[..c.entriesLen]
    ensures PrefixOk(env, Some(es'), c)
  {
  }

  // Listing one more chunk, whether it was found or stored.
  lemma ListingGrows(env: Env, s: Session, es: seq<Entry>, n: nat, isNew: bool, view': map<Hash, Loc>)
    requires ListingOk(env, s, es) && 0 < n && s.off + n <= |env.src|
    requires s.view.Keys <= view'.Keys && env.H(NextChunk(env, s, n)) in view'
    ensures ListingOk(env, s.(off := s.off + n, stats := Tally(s.stats, n, isNew),
                              digest := Absorb(s.digest, NextChunk(env, s, n)), view := view'),
                      es + [Entry(s.off, n, env.H(NextChunk(env, s, n)))])
  {
    hide Faithful, DigestOk;
    FaithfulAppend(env, es, s.off, n);
    DigestAppend(env, s.digest, s.off, n);
  }

  // ---- Every event keeps the invariant ----

  lemma StartDurable(env: Env, st: State)
    requires CanStart(st) && IndexOk(env, st)
    ensures IndexOk(env, DoStart(st))
  {
    var st' := DoStart(st);
    assert Extends(Durable(st), Durable(st'));
    ResolveExtends(env, Durable(st), Durable(st'), st.disk.index);
  }

  lemma StartPacks(st: State)
    requires CanStart(st)
    ensures var s := DoStart(st).session.value;
            PacksOk(st.disk.packs, s.writePack, s.packBase, s.curPack)
  {
  }

  lemma FreshKnown(env: Env, st: State, s: Session)
    requires st.disk.segs == [] && s.num == 0 && s.prevLen == 0 && s.view.Keys <= st.disk.index.Keys
    ensures Known(env, st, s, []) && Parse(st.disk.segs) == []
  {
    EmptyListing(env);
    assert Parse([])[..0] == [];
    NoInserts(env, Durable(st));
  }

  lemma StartSession(env: Env, st: State)
    requires CanStart(st) && AllResolve(env, st.disk.packs, st.disk.index)
    ensures SessionOk(env, DoStart(st))
  {
    hide AllResolve, InsertsResolve, Durable, Faithful, DigestOk, Parse, MaxPack, PacksOk, Known;
    var st' := DoStart(st);
    EmptyListing(env);
    StartPacks(st);
    FreshKnown(env, st', st'.session.value);
    NoInserts(env, st'.disk.packs);
  }

  lemma NoInserts(env: Env, packs: Packs)
    ensures InsertsResolve(env, packs, [])
  {
  }

  lemma KeepStart(env: Env, st: State)
    requires Inv(env, st) && CanStart(st)
    ensures Inv(env, DoStart(st))
  {
    hide AllResolve, Durable, SessionOk;
    DurableWhole(st);
    StartDurable(env, st);
    StartSession(env, st);
  }

  lemma DurableWhole(st: State)
    requires st.session.None?
    ensures Durable(st) == st.disk.packs
  {
  }

  lemma EmptyListing(env: Env)
    ensures Faithful(env, [], 0) && DigestOk(env, Some([]), 0)
    ensures InsertsOf([]) == [] && SidecarOf([]) == []
  {
  }

  lemma KeepDedup(env: Env, st: State, n: nat)
    requires Inv(env, st) && CanDedup(env, st, n)
    ensures Inv(env, DoDedup(env, st, n))
  {
    hide Faithful, DigestOk, AllResolve, InsertsResolve, FastOk, PacksOk, Paired, Known, EntriesKnown;
    var st' := DoDedup(env, st, n);
    var s, es := st.session.value, st.disk.sidecar.value;
    var s', es' := st'.session.value, st'.disk.sidecar.value;
    ListingGrows(env, s, es, n, false, s.view);
    assert s' == s.(off := s.off + n, stats := Tally(s.stats, n, false),
                    digest := Absorb(s.digest, NextChunk(env, s, n)), view := s.view);
    assert es'[..|es|] == es;
    SameDurable(env, st, st');
    GrownSidecar(env, st, st');
    KnownGrows(env, st, st', s, s', es, es');
  }

  lemma KnownGrows(env: Env, st: State, st': State, s: Session, s': Session, es: seq<Entry>, es': seq<Entry>)
    requires Known(env, st, s, es)
    requires st'.disk.segs == st.disk.segs && st'.disk.index == st.disk.index && Durable(st') == Durable(st)
    requires s'.num == s.num && s'.prevLen == s.prevLen
    requires s'.view.Keys + HashSet(s.pending) <= s.view.Keys + HashSet(s'.pending)
    requires HashSet(s.pending) <= HashSet(s'.pending)
    requires es <= es'
    ensures Known(env, st', s', es')
  {
    if |Parse(st.disk.segs)| >= s.num {
      assert es'[..s.prevLen] == es[..s.prevLen];
    }
  }

  // Events that leave packs, index, segments and generation alone.
  lemma SameDurable(env: Env, st: State, st': State)
    requires IndexOk(env, st) && st.session.Some? && st'.session.Some?
    requires st'.disk == st.disk.(sidecar := st'.disk.sidecar, ckpt := st'.disk.ckpt)
    requires st'.session.value.writePack == st.session.value.writePack
    requires st'.session.value.packBase == st.session.value.packBase
    ensures Durable(st') == Durable(st) && IndexOk(env, st')
    ensures st.disk.ckpt.Some? && FastOk(env, st, st.disk.ckpt.value) ==> FastOk(env, st', st.disk.ckpt.value)
  {
  }

  lemma GrownSidecar(env: Env, st: State, st': State)
    requires CkptOk(env, st) && st.session.Some? && st'.session.Some?
    requires st.disk.sidecar.Some? && st'.disk.sidecar.Some?
    requires st.session.value.synced <= |st.disk.sidecar.value| <= |st'.disk.sidecar.value|
    requires st'.disk.sidecar.value[..|st.disk.sidecar.value|] == st.disk.sidecar.value
    requires st'.disk == st.disk.(sidecar := st'.disk.sidecar)
    requires st'.session.value.synced == st.session.value.synced && st'.session.value.num == st.session.value.num
    requires st.disk.ckpt.Some? && FastOk(env, st, st.disk.ckpt.value) ==> FastOk(env, st', st.disk.ckpt.value)
    ensures CkptOk(env, st')
  {
    hide Faithful, DigestOk, FastOk;
    if st.disk.ckpt.Some? {
      var es, es', c := st.disk.sidecar.value, st'.disk.sidecar.value, st.disk.ckpt.value;
      assert es'[..c.entriesLen] == es'[..|es|][..c.entriesLen];
      PrefixKept(env, es, es', c);
    }
  }

  // The checkpoint stays good while packs and index only grow and the segments it
  // covers stay readable as they were.
  lemma CkptKeeps(env: Env, st: State, st': State)
    requires CkptOk(env, st) && st'.disk.ckpt == st.disk.ckpt && st.disk.gen <= st'.disk.gen
    requires st.disk.ckpt.Some? ==> PrefixOk(env, st'.disk.sidecar, st.disk.ckpt.value)
    requires st.disk.ckpt.Some? && st'.session.Some? ==>
               && st.disk.ckpt.value.entriesLen <= st'.session.value.synced
               && st.disk.ckpt.value.num < st'.session.value.num
    requires st.disk.ckpt.Some? && st'.disk.gen == st.disk.gen && |Parse(st'.disk.segs)| > st.disk.ckpt.value.num ==>
               && |Parse(st.disk.segs)| > st.disk.ckpt.value.num
               && Parse(st'.disk.segs)[..st.disk.ckpt.value.num + 1] ==
                  Parse(st.disk.segs)[..st.disk.ckpt.value.num + 1]
               && Extends(Durable(st), Durable(st'))
               && st.disk.index.Keys <= st'.disk.index.Keys
    ensures CkptOk(env, st')
  {
    hide PrefixOk, DigestOk, StatsOk, SegsCover, Durable, Extends, Parse;
    if st.disk.ckpt.Some? {
      var c := st.disk.ckpt.value;
      if st'.disk.gen == c.gen && |Parse(st'.disk.segs)| > c.num {
        CoverExtends(env, Durable(st), Durable(st'), st.disk.index, st'.disk.index,
                     Parse(st.disk.segs)[..c.num + 1], c.entriesLen);
      }
    }
  }

  lemma KnownKeeps(env: Env, st: State, st': State, s: Session, s': Session, es: seq<Entry>)
    requires Known(env, st, s, es)
    requires st'.disk.segs == st.disk.segs && st'.disk.index == st.disk.index && Extends(Durable(st), Durable(st'))
    requires s'.num == s.num && s'.prevLen == s.prevLen && s'.view == s.view && s'.pending == s.pending
    ensures Known(env, st', s', es)
  {
    hide Durable, Extends, InsertsResolve;
    if |Parse(st.disk.segs)| >= s.num {
      InsertsExtend(env, Durable(st), Durable(st'), InsertsOf(Parse(st.disk.segs)[..s.num]));
    }
  }

  lemma StorePacks(env: Env, st: State, n: nat, seal: bool)
    requires CanStore(env, st, n, seal)
    requires var s := st.session.value; PacksOk(st.disk.packs, s.writePack, s.packBase, s.curPack)
    ensures var st' := DoStore(env, st, n, seal);
            var s' := st'.session.value;
            && Extends(st.disk.packs, st'.disk.packs) && Extends(Durable(st), Durable(st'))
            && PacksOk(st'.disk.packs, s'.writePack, s'.packBase, s'.curPack)
            && InPacks(st'.disk.packs, s'.chunk.loc) && s'.chunk.loc.pack == s'.writePack
            && FrameAt(st'.disk.packs, s'.chunk.loc) == NextChunk(env, st.session.value, n)
  {
  }

  lemma KeepStore(env: Env, st: State, n: nat, seal: bool)
    requires Inv(env, st) && CanStore(env, st, n, seal)
    ensures Inv(env, DoStore(env, st, n, seal))
  {
    hide Faithful, DigestOk, AllResolve, InsertsResolve, FastOk, Paired, Known, ListingOk, Extends, Durable,
         PrefixOk, StatsOk;
    var st' := DoStore(env, st, n, seal);
    var s, s', es := st.session.value, st'.session.value, st.disk.sidecar.value;
    StorePacks(env, st, n, seal);
    ResolveExtends(env, Durable(st), Durable(st'), st.disk.index);
    ResolveExtends(env, st.disk.packs, st'.disk.packs, s.view);
    InsertsExtend(env, st.disk.packs, st'.disk.packs, s.pending);
    CkptKeeps(env, st, st');
    KnownKeeps(env, st, st', s, s', es);
    SameListing(env, s, s', es);
  }

  lemma SameListing(env: Env, s: Session, s': Session, es: seq<Entry>)
    requires ListingOk(env, s, es)
    requires s'.off == s.off && s'.prevLen == s.prevLen && s'.synced == s.synced && s'.stats == s.stats
    requires s'.digest == s.digest && s'.view == s.view
    ensures ListingOk(env, s', es)
  {
  }

  // ---- Checkpointing ----

  lemma ParseOneMore(items: seq<SegItem>, seg: Segment)
    requires |Parse(items)| <= seg.num
    ensures var p, p' := Parse(items), Parse(items + [Whole(seg)]);
            && |p| <= |p'| <= seg.num + 1 && p'[..|p|] == p
            && (|p'| > seg.num ==> |p| == seg.num && p'[seg.num] == seg)
            && (|p'| <= seg.num ==> p' == p)
  {
    ParseAppend(items, Whole(seg));
  }

  lemma KeepSegment(env: Env, st: State)
    requires Inv(env, st) && AtStage(env, st, NeedSegment)
    ensures Inv(env, DoSegment(env, st))
  {
    hide Faithful, DigestOk, AllResolve, InsertsResolve, Paired, Extends, PrefixOk, StatsOk, Parse, InsertsOf,
         SidecarOf, SegsCover, PacksOk, EntriesKnown;
    var st' := DoSegment(env, st);
    var s, s', es := st.session.value, st'.session.value, st.disk.sidecar.value;
    assert Durable(st') == Durable(st);
    ParseOneMore(st.disk.segs, NewSegment(s, es));
    var p, p' := Parse(st.disk.segs), Parse(st'.disk.segs);
    if |p'| >= s.num {
      assert |p| == s.num ==> p'[..s.num] == p[..s.num];
    }
    if st.disk.ckpt.Some? {
      var k := st.disk.ckpt.value.num + 1;
      assert k <= |p| ==> p'[..k] == p[..k];
    }
  }

  // Inserts below the pack being written are in sealed packs.
  lemma PendingDurable(env: Env, st: State, ins: seq<Insert>)
    requires st.session.Some? && InsertsResolve(env, st.disk.packs, ins) && AllBelow(ins, st.session.value.writePack)
    ensures InsertsResolve(env, Durable(st), ins)
  {
    forall i | 0 <= i < |ins| ensures Resolves(env, Durable(st), ins[i].hash, ins[i].loc) {
      assert Resolves(env, st.disk.packs, ins[i].hash, ins[i].loc);
    }
  }

  lemma InsertsConcat(env: Env, packs: Packs, a: seq<Insert>, b: seq<Insert>)
    requires InsertsResolve(env, packs, a) && InsertsResolve(env, packs, b)
    ensures InsertsResolve(env, packs, a + b)
  {
  }

  // With the segment just written, the segments account for the whole session.
  lemma SegmentCovers(env: Env, st: State)
    requires SessionOk(env, st) && AtStage(env, st, NeedCheckpoint)
    requires |Parse(st.disk.segs)| > st.session.value.num
    ensures var s, es := st.session.value, st.disk.sidecar.value;
            var segs := Parse(st.disk.segs)[..s.num + 1];
            && Paired(segs) && InsertsResolve(env, Durable(st), InsertsOf(segs)) && SidecarOf(segs) == es
            && s.view.Keys <= st.disk.index.Keys + HashSet(InsertsOf(segs))
  {
    hide Faithful, DigestOk, AllResolve, InsertsResolve, Durable, StatsOk, Parse, PacksOk, EntriesKnown;
    var s, es, p := st.session.value, st.disk.sidecar.value, Parse(st.disk.segs);
    var before, seg := p[..s.num], NewSegment(s, es);
    var segs := p[..s.num + 1];
    assert segs[s.num] == seg && segs[..s.num] == before;
    PendingDurable(env, st, s.pending);
    InsertsConcat(env, Durable(st), InsertsOf(before), s.pending);
    HashSetConcat(InsertsOf(before), s.pending);
    assert es[..s.prevLen] + es[s.prevLen..] == es;
  }

  lemma CkptFresh(env: Env, st: State, withDigest: bool, gen: nat)
    requires SessionOk(env, st) && AtStage(env, st, NeedCheckpoint) && gen <= st.disk.gen
    ensures CkptOk(env, DoCheckpoint(env, st, withDigest, gen))
    ensures var st' := DoCheckpoint(env, st, withDigest, gen);
            Known(env, st', st'.session.value, st.disk.sidecar.value)
  {
    hide Faithful, AllResolve, InsertsResolve, Parse, PacksOk, InsertsOf, SidecarOf, Paired, HashSet;
    var st' := DoCheckpoint(env, st, withDigest, gen);
    var s, es := st.session.value, st.disk.sidecar.value;
    assert Durable(st') == Durable(st);
    assert es[..|es|] == es;
    assert HashSet([]) == {} by {
      NoHashes();
    }
    if |Parse(st.disk.segs)| > s.num {
      SegmentCovers(env, st);
      var segs := Parse(st.disk.segs)[..s.num + 1];
      assert SegsCover(env, Durable(st'), st'.disk.index, segs, |es|) by {
        forall i | 0 <= i < |es| ensures es[i].hash in st.disk.index.Keys + HashSet(InsertsOf(segs)) {
          assert es[i].hash in s.view.Keys;
        }
      }
    }
  }

  lemma NoHashes()
    ensures HashSet([]) == {}
  {
  }

  lemma KeepCheckpoint(env: Env, st: State, withDigest: bool, gen: nat)
    requires Inv(env, st) && AtStage(env, st, NeedCheckpoint) && gen <= st.disk.gen
    ensures Inv(env, DoCheckpoint(env, st, withDigest, gen))
  {
    hide Faithful, AllResolve, InsertsResolve, Parse, PacksOk, StatsOk, DigestOk, EntriesKnown, CkptOk, Known;
    var st' := DoCheckpoint(env, st, withDigest, gen);
    CkptFresh(env, st, withDigest, gen);
    assert Durable(st') == Durable(st);
    NoInserts(env, st'.disk.packs);
    NewCurPack(st);
  }

  lemma NewCurPack(st: State)
    requires st.session.Some?
    requires var s := st.session.value; PacksOk(st.disk.packs, s.writePack, s.packBase, s.curPack)
    ensures var s := st.session.value; PacksOk(st.disk.packs, s.writePack, s.packBase, s.writePack)
  {
  }

  lemma KeepIndex(env: Env, st: State)
    requires Inv(env, st) && AtStage(env, st, NeedIndex)
    ensures Inv(env, DoIndex(env, st))
  {
    hide Faithful, DigestOk, AllResolve, InsertsResolve, FastOk, PacksOk, Paired, Known, EntriesKnown, HashSet;
    var st' := DoIndex(env, st);
    var s, es := st.session.value, st.disk.sidecar.value;
    var s', es' := st'.session.value, st'.disk.sidecar.value;
    var n := s.chunk.len;
    var h := env.H(NextChunk(env, s, n));
    var t := Insert(h, s.chunk.loc);
    ListingGrows(env, s, es, n, true, s.view[h := s.chunk.loc]);
    SameListing(env, s.(off := s.off + n, stats := Tally(s.stats, n, true),
                        digest := Absorb(s.digest, NextChunk(env, s, n)), view := s.view[h := s.chunk.loc]), s', es');
    assert es'[..|es|] == es;
    SameDurable(env, st, st');
    GrownSidecar(env, st, st');
    HashSetAppend(s.pending, t);
    KnownGrows(env, st, st', s, s', es, es');
    OneInsert(env, st.disk.packs, s.view, s.pending, t);
  }

  lemma OneInsert(env: Env, packs: Packs, view: map<Hash, Loc>, pending: seq<Insert>, t: Insert)
    requires AllResolve(env, packs, view) && InsertsResolve(env, packs, pending) && Resolves(env, packs, t.hash, t.loc)
    ensures AllResolve(env, packs, view[t.hash := t.loc]) && InsertsResolve(env, packs, pending + [t])
  {
  }

  // ---- Finishing ----

  lemma FlushPacks(env: Env, st: State)
    requires CanFlush(env, st)
    requires var s := st.session.value; PacksOk(st.disk.packs, s.writePack, s.packBase, s.curPack)
    ensures var st' := DoFlush(env, st);
            && Extends(Durable(st), Durable(st')) && Extends(st.disk.packs, Durable(st'))
            && var s' := st'.session.value; PacksOk(st'.disk.packs, s'.writePack, s'.packBase, s'.curPack)
  {
  }

  lemma KeepFlush(env: Env, st: State)
    requires Inv(env, st) && CanFlush(env, st)
    ensures Inv(env, DoFlush(env, st))
  {
    hide Faithful, DigestOk, AllResolve, InsertsResolve, Paired, Extends, Durable, PrefixOk, StatsOk, Parse, HashSet,
         EntriesKnown, FastOk;
    var st' := DoFlush(env, st);
    var s, es := st.session.value, st.disk.sidecar.value;
    FlushPacks(env, st);
    ResolveExtends(env, st.disk.packs, Durable(st'), s.view);
    CkptKeeps(env, st, st');
    if |Parse(st.disk.segs)| >= s.num {
      InsertsExtend(env, Durable(st), Durable(st'), InsertsOf(Parse(st.disk.segs)[..s.num]));
    }
  }

  // A frame whose hash is an entry's holds the entry's bytes.
  lemma CompleteFrom(env: Env, d: Disk, m: Manifest)
    requires CollisionFree(env)
    requires Faithful(env, m.entries, |env.src|) && StatsOk(m.stats, |m.entries|, |env.src|)
    requires m.digest.Some? ==> m.digest.value == env.src
    requires AllResolve(env, d.packs, d.index)
    requires forall i :: 0 <= i < |m.entries| ==> m.entries[i].hash in d.index
    ensures Complete(env, d, m)
  {
    forall i | 0 <= i < |m.entries|
      ensures InPacks(d.packs, d.index[m.entries[i].hash]) &&
              FrameAt(d.packs, d.index[m.entries[i].hash]) ==
                env.src[m.entries[i].off..m.entries[i].off + m.entries[i].len]
    {
      assert Resolves(env, d.packs, m.entries[i].hash, d.index[m.entries[i].hash]);
    }
  }

  lemma DurableWithin(st: State)
    ensures Extends(Durable(st), st.disk.packs)
  {
  }

  lemma KeepSave(env: Env, st: State)
    requires CollisionFree(env) && Inv(env, st) && CanSave(st)
    ensures Inv(env, DoSave(st))
  {
    hide AllResolve, InsertsResolve, Extends, Durable, CollisionFree, Complete, Parse, Faithful, StatsOk;
    var st' := DoSave(st);
    var s, es := st.session.value, st.disk.sidecar.value;
    DurableWithin(st);
    DurableWhole(st');
    ResolveExtends(env, Durable(st), st.disk.packs, st.disk.index);
    CkptKeeps(env, st, st');
    assert env.src[..|env.src|] == env.src;
    CompleteFrom(env, st'.disk, st'.disk.manifest.value);
  }

  lemma KeepCleanup(env: Env, st: State)
    requires Inv(env, st) && st.session.None?
    ensures Inv(env, State(st.disk.(ckpt := None, segs := []), None))
  {
    hide AllResolve, Complete;
    var st' := State(st.disk.(ckpt := None, segs := []), None);
    assert st.disk.manifest.Some? && Complete(env, st.disk, st.disk.manifest.value) ==>
        Complete(env, st'.disk, st.disk.manifest.value) by {
      SamePacksComplete(env, st.disk, st'.disk);
    }
  }

  lemma SamePacksComplete(env: Env, d: Disk, d': Disk)
    requires d'.packs == d.packs && d'.index == d.index
    ensures forall m :: Complete(env, d, m) ==> Complete(env, d', m)
  {
    hide Faithful, StatsOk;
  }

  // ---- Interruptions ----

  lemma CrashPacks(env: Env, st: State, keep: nat, gone: bool, junk: seq<Entry>, torn: bool)
    requires CanCrash(env, st, keep, gone, torn)
    requires var s := st.session.value; PacksOk(st.disk.packs, s.writePack, s.packBase, s.curPack)
    ensures Extends(Durable(st), DoCrash(env, st, keep, gone, junk, torn).disk.packs)
  {
  }

  lemma KeepCrash(env: Env, st: State, keep: nat, gone: bool, junk: seq<Entry>, torn: bool)
    requires Inv(env, st) && CanCrash(env, st, keep, gone, torn)
    ensures Inv(env, DoCrash(env, st, keep, gone, junk, torn))
  {
    hide Faithful, DigestOk, AllResolve, InsertsResolve, Extends, Durable, StatsOk, Parse, PacksOk, FastOk, Known,
         PacksAfterCrash, EntriesKnown;
    var st' := DoCrash(env, st, keep, gone, junk, torn);
    var es := st.disk.sidecar.value;
    CrashPacks(env, st, keep, gone, junk, torn);
    DurableWhole(st');
    ResolveExtends(env, Durable(st), st'.disk.packs, st.disk.index);
    ParseAppend(st.disk.segs, Torn);
    if st.disk.ckpt.Some? {
      var c := st.disk.ckpt.value;
      assert st'.disk.sidecar.value[..c.entriesLen] == es[..c.entriesLen];
      PrefixKept(env, es, st'.disk.sidecar.value, c);
    }
    CkptKeeps(env, st, st');
  }

  lemma KeepFail(env: Env, st: State)
    requires Inv(env, st) && st.session.Some?
    ensures Inv(env, State(st.disk.(sidecar := None), None))
  {
    hide Faithful, DigestOk, AllResolve, Extends, Durable, StatsOk, Parse, FastOk, SessionOk, Complete;
    var st' := State(st.disk.(sidecar := None), None);
    DurableWithin(st);
    DurableWhole(st');
    ResolveExtends(env, Durable(st), st.disk.packs, st.disk.index);
    CkptKeeps(env, st, st');
    NoSession(env, st');
  }

  lemma NoSession(env: Env, st: State)
    requires st.session.None?
    ensures SessionOk(env, st)
  {
  }

  // ---- Resuming ----

  // The pack number a resumed run opens is one no pack has.
  lemma ResumedPacks(d: Disk, index: map<Hash, Loc>, preload: seq<Insert>)
    requires d.ckpt.Some?
    ensures var s := ResumedSession(d, index, preload);
            && s.writePack !in d.packs && PacksOk(d.packs, s.writePack, s.packBase, s.curPack)
  {
    hide InsertMap;
  }

  lemma ResumedDurable(st: State)
    requires st.session.Some? ==> st.session.value.packBase == 0 && st.session.value.writePack !in st.disk.packs
    ensures Durable(st) == st.disk.packs
  {
    if st.session.Some? {
      assert st.disk.packs - {st.session.value.writePack} == st.disk.packs;
    }
  }

  // What a checkpoint and a prefix of entries whose hashes the index has make of a
  // session, whichever way the index was brought up to date.
  lemma ResumedSessionOk(env: Env, st: State, d: Disk, index: map<Hash, Loc>, preload: seq<Insert>, es: seq<Entry>)
    requires d.ckpt.Some? && st.session == Some(ResumedSession(d, index, preload))
    requires st.disk.packs == d.packs && st.disk.index == index && st.disk.sidecar == Some(es)
    requires var c := d.ckpt.value;
             && |es| == c.entriesLen && Faithful(env, es, c.resume)
             && StatsOk(c.stats, c.entriesLen, c.resume) && DigestOk(env, c.digest, c.resume)
             && |Parse(st.disk.segs)| <= c.num + 1
    requires EntriesKnown(es, InsertMap(index, preload))
    requires AllResolve(env, d.packs, InsertMap(index, preload)) && index.Keys <= InsertMap(index, preload).Keys
    requires Known(env, st, st.session.value, es)
    ensures SessionOk(env, st)
  {
    hide Faithful, StatsOk, DigestOk, Parse, AllResolve, EntriesKnown, InsertMap, Known, MaxPack, PacksOk;
    ResumedPacks(d, index, preload);
    NoInserts(env, d.packs);
  }

  // What the fast path preloads, when it goes ahead.
  lemma FastPreload(env: Env, st: State)
    requires CkptOk(env, st) && CanResumeFast(st)
    ensures var c, ins := st.disk.ckpt.value, TryFastPath(st.disk, st.disk.ckpt.value).value;
            && |Parse(st.disk.segs)| > c.num
            && var segs := Parse(st.disk.segs)[..c.num + 1];
               && SegsCover(env, st.disk.packs, st.disk.index, segs, c.entriesLen)
               && SidecarOf(segs) == st.disk.sidecar.value[..c.entriesLen]
               && InsertsOf(segs) == ins
  {
    hide Parse, SidecarOf, InsertsOf, InsertsResolve, HashSet, Faithful, DigestOk, StatsOk;
    var c := st.disk.ckpt.value;
    DurableWhole(st);
    ReplayAll(Parse(st.disk.segs)[..c.num + 1], c.entriesLen);
  }

  lemma KeepResumeFast(env: Env, st: State)
    requires Inv(env, st) && CanResumeFast(st)
    ensures Inv(env, DoResumeFast(st))
  {
    hide Parse, SidecarOf, InsertsOf, InsertsResolve, HashSet, Faithful, DigestOk, StatsOk, AllResolve, InsertMap,
         Durable, MaxPack, TryFastPath, KeptSegs, Extends, Paired, SessionOk, Complete;
    var st' := DoResumeFast(st);
    var c, d, ins := st.disk.ckpt.value, st.disk, TryFastPath(st.disk, st.disk.ckpt.value).value;
    var es := d.sidecar.value[..c.entriesLen];
    FastPreload(env, st);
    KeptParse(d.segs, c.num + 1);
    InsertMapDomain(d.index, ins);
    InsertMapResolves(env, d.packs, d.index, ins) by {
      DurableWhole(st);
    }
    ResumedPacks(d, d.index, ins);
    DurableWhole(st);
    ResumedDurable(st');
    assert es[..c.entriesLen] == es;
    var segs := Parse(d.segs)[..c.num + 1];
    assert segs[..c.num + 1] == segs;
    assert EntriesKnown(es, InsertMap(d.index, ins)) by {
      forall i | 0 <= i < |es| ensures es[i].hash in InsertMap(d.index, ins) {
        assert SidecarOf(segs)[i].hash in d.index.Keys + HashSet(ins);
      }
    }
    NoHashes();
    ResumedSessionOk(env, st', d, d.index, ins, es);
  }

  lemma KeepResumeSlow(env: Env, st: State, index: map<Hash, Loc>)
    requires Inv(env, st) && CanResumeSlow(env, st, index)
    ensures Inv(env, DoResumeSlow(st, index))
  {
    hide Faithful, DigestOk, StatsOk, AllResolve, Durable, MaxPack, TryFastPath, Extends, Complete, SessionOk;
    var st' := DoResumeSlow(st, index);
    var d, c := st.disk, st.disk.ckpt.value;
    var es := d.sidecar.value[..c.entriesLen];
    assert InsertMap(index, []) == index && Parse([]) == [];
    ResumedPacks(d, index, []);
    ResumedDurable(st');
    assert es[..c.entriesLen] == es;
    ResumedSessionOk(env, st', d, index, [], es);
  }

  lemma KeepRebuildCrash(env: Env, st: State, index: map<Hash, Loc>)
    requires Inv(env, st) && CanRebuild(env, st, index)
    ensures Inv(env, DoRebuildCrash(st, index))
  {
    hide Faithful, DigestOk, StatsOk, AllResolve, Durable, TryFastPath, Extends, Complete, SessionOk;
    var st' := DoRebuildCrash(st, index);
    DurableWhole(st');
    assert Parse([]) == [];
    NoSession(env, st');
  }

  // ---- Others ----

  // Once a manifest is whole it stays whole while its hashes stay indexed.
  lemma ManifestKeeps(env: Env, st: State, st': State)
    requires CollisionFree(env) && ManifestOk(env, st) && st'.disk.manifest == st.disk.manifest && st'.session.None?
    requires AllResolve(env, st'.disk.packs, st'.disk.index)
    requires st.disk.manifest.Some? ==>
               forall i :: 0 <= i < |st.disk.manifest.value.entries| ==>
                 st.disk.manifest.value.entries[i].hash in st'.disk.index
    ensures ManifestOk(env, st')
  {
    hide CollisionFree, AllResolve, Faithful, StatsOk;
    if st.disk.manifest.Some? {
      CompleteFrom(env, st'.disk, st.disk.manifest.value);
    }
  }

  lemma KeepOther(env: Env, st: State, packs: Packs, index: map<Hash, Loc>)
    requires CollisionFree(env) && Inv(env, st) && CanOther(env, st, packs, index)
    ensures Inv(env, State(st.disk.(packs := packs, index := index), None))
  {
    hide CollisionFree, AllResolve, Faithful, StatsOk, DigestOk, Extends, Durable, SessionOk, Parse;
    var st' := State(st.disk.(packs := packs, index := index), None);
    DurableWhole(st);
    DurableWhole(st');
    CkptKeeps(env, st, st');
    NoSession(env, st');
    ManifestKeeps(env, st, st');
  }

  lemma KeepPrune(env: Env, st: State, packs: Packs, index: map<Hash, Loc>, gen: nat)
    requires CollisionFree(env) && Inv(env, st) && CanPrune(env, st, packs, index, gen)
    ensures Inv(env, State(st.disk.(packs := packs, index := index, gen := gen), None))
  {
    hide CollisionFree, AllResolve, Faithful, StatsOk, DigestOk, Extends, Durable, SessionOk, Parse, Complete;
    var st' := State(st.disk.(packs := packs, index := index, gen := gen), None);
    DurableWhole(st');
    CkptKeeps(env, st, st');
    NoSession(env, st');
    ManifestKeeps(env, st, st');
  }

  // ---- Runs ----

  lemma Keep(env: Env, st: State, ev: Event)
    requires CollisionFree(env) && Inv(env, st) && Enabled(env, st, ev)
    ensures Inv(env, Apply(env, st, ev))
  {
    hide CollisionFree, Inv, CanDedup, CanStore, AtStage, CanFlush, CanSave, CanCrash, CanResumeFast, CanResumeSlow,
         CanRebuild, CanOther, CanPrune, DoStart, DoDedup, DoStore, DoSegment, DoCheckpoint, DoIndex, DoFlush, DoSave,
         DoCrash, DoResumeFast, DoResumeSlow, DoRebuildCrash;
    match ev
    case Start => KeepStart(env, st);
    case Dedup(n) => KeepDedup(env, st, n);
    case StoreFrame(n, seal) => KeepStore(env, st, n, seal);
    case AppendSegment => KeepSegment(env, st);
    case WriteCheckpoint(withDigest, gen) => KeepCheckpoint(env, st, withDigest, gen);
    case IndexChunk => KeepIndex(env, st);
    case FlushIndex => KeepFlush(env, st);
    case SaveManifest => KeepSave(env, st);
    case Cleanup => KeepCleanup(env, st);
    case Crash(keep, gone, junk, torn) => KeepCrash(env, st, keep, gone, junk, torn);
    case Fail => KeepFail(env, st);
    case ResumeFast => KeepResumeFast(env, st);
    case ResumeSlow(index) => KeepResumeSlow(env, st, index);
    case RebuildCrash(index) => KeepRebuildCrash(env, st, index);
    case OtherBackup(packs, index) => KeepOther(env, st, packs, index);
    case Prune(packs, index, gen) => KeepPrune(env, st, packs, index, gen);
  }
}
