/** How a torn segment comes to hide those written behind it: a run of the protocol that
ends in it (core/checkpoint/segment.go, core/resume/reconcile.go). */
module BackupTornTail {
  import opened Options
  import opened BackupModel
  import opened BackupProtocol
  import opened BackupSafety
  import opened BackupRuns
  import opened BackupLoop

  function EmptyRepository(): State {
    State(Disk(map[], 0, map[], None, [], None, None), None)
  }

  // The entry and the insert of the first byte, stored as a chunk of its own.
  function FirstEntry(env: Env): Entry
    requires |env.src| > 0
  {
    Entry(0, 1, env.H(env.src[0..1]))
  }

  function FirstSegment(env: Env): Segment
    requires |env.src| > 0
  {
    Segment(0, 1, [FirstEntry(env)], [Insert(FirstEntry(env).hash, Loc(0, 0))])
  }

  // The first byte is stored and listed.
  lemma ToFirstChunk(env: Env) returns (run: seq<Event>)
    requires |env.src| >= 3
    ensures Legal(env, EmptyRepository(), run)
    ensures var st := After(env, EmptyRepository(), run);
            && st.disk == Disk(map[0 := [env.src[0..1]]], 0, map[], Some([FirstEntry(env)]), [], None, None)
            && st.session == Some(Session(map[FirstEntry(env).hash := Loc(0, 0)], 1, 0, 0, 0, 0, 0, 0,
                                          FirstSegment(env).inserts, Stats(1, 1, 1, 0), Some(env.src[..1]), Idle,
                                          false))
  {
    var st := EmptyRepository();
    run := [];
    OneMore(env, st, run, Start);
    run := run + [Start];
    assert After(env, st, run) == DoStart(st);
    OneMore(env, st, run, StoreFrame(1, false));
    run := run + [StoreFrame(1, false)];
    assert [] + [env.src[0..1]] == [env.src[0..1]];
    OneMore(env, st, run, IndexChunk);
    run := run + [IndexChunk];
    assert [] + env.src[0..1] == env.src[..1];
    assert [] + [FirstEntry(env)] == [FirstEntry(env)] && [] + FirstSegment(env).inserts == FirstSegment(env).inserts;
  }

  // The second opens a new pack, which calls for a checkpoint.
  lemma ToCheckpoint(env: Env) returns (run: seq<Event>)
    requires |env.src| >= 3
    ensures Legal(env, EmptyRepository(), run)
    ensures var st := After(env, EmptyRepository(), run);
            && st.session.Some? && st.session.value.chunk == Idle && !st.session.value.flushed
            && st.session.value.off == 2 && st.session.value.synced == 1 && st.session.value.packBase == 0
            && st.session.value.writePack == st.session.value.curPack == 1
            && st.disk.packs.Keys == {0, 1} && |st.disk.packs[1]| == 1
            && st.disk.gen == 0 && st.disk.index == map[] && st.disk.manifest.None?
            && st.disk.segs == [Whole(FirstSegment(env))]
            && st.disk.ckpt == Some(Checkpoint(0, 1, 1, Stats(1, 1, 1, 0), Some(env.src[..1]), 0))
            && st.disk.sidecar.Some? && |st.disk.sidecar.value| == 2 && st.disk.sidecar.value[0] == FirstEntry(env)
  {
    var st := EmptyRepository();
    run := ToFirstChunk(env);
    OneMore(env, st, run, StoreFrame(1, true));
    run := run + [StoreFrame(1, true)];
    assert [FirstEntry(env)][0..] == [FirstEntry(env)];
    OneMore(env, st, run, AppendSegment);
    run := run + [AppendSegment];
    assert After(env, st, run).disk.segs == [Whole(FirstSegment(env))];
    OneMore(env, st, run, WriteCheckpoint(true, 0));
    run := run + [WriteCheckpoint(true, 0)];
    OneMore(env, st, run, IndexChunk);
    run := run + [IndexChunk];
  }

  // The process dies while the next segment is being written.
  lemma ToCrash(env: Env) returns (run: seq<Event>)
    requires |env.src| >= 3
    ensures Legal(env, EmptyRepository(), run)
    ensures var d := After(env, EmptyRepository(), run).disk;
            && After(env, EmptyRepository(), run).session.None?
            && d.packs.Keys == {0, 1} && d.gen == 0 && d.index == map[] && d.manifest.None?
            && d.segs == [Whole(FirstSegment(env)), Torn] && d.sidecar == Some([FirstEntry(env)])
            && d.ckpt == Some(Checkpoint(0, 1, 1, Stats(1, 1, 1, 0), Some(env.src[..1]), 0))
  {
    var st := EmptyRepository();
    run := ToCheckpoint(env);
    OneMore(env, st, run, StoreFrame(1, true));
    run := run + [StoreFrame(1, true)];
    var before := After(env, st, run);
    OneMore(env, st, run, Crash(0, true, [], true));
    run := run + [Crash(0, true, [], true)];
    assert before.disk.sidecar.value[..1] + [] == [FirstEntry(env)];
  }

  // The segment the checkpoint covers is there, so the fast path is taken, and the torn
  // one stays.
  lemma FastAfterCrash(env: Env, d: Disk)
    requires |env.src| >= 3 && d.gen == 0
    requires d.segs == [Whole(FirstSegment(env)), Torn] && d.sidecar == Some([FirstEntry(env)])
    requires d.ckpt == Some(Checkpoint(0, 1, 1, Stats(1, 1, 1, 0), Some(env.src[..1]), 0))
    ensures TryFastPath(d, d.ckpt.value).Some? && KeptSegs(d.segs, 1) == d.segs
  {
    var a := FirstSegment(env);
    assert d.segs[..1] == [Whole(a)] && [Whole(a)][..0] == [];
    assert Parse([Whole(a)]) == [a] && Parse(d.segs) == [a];
    assert [a][..1] == [a] && [a][..0] == [];
    assert ReplayUpTo([a], 1) == Replayed([] + a.sidecar, [] + a.inserts);
    assert [FirstEntry(env)][..1] == [FirstEntry(env)];
  }

  // Resumed, the run goes on to the next checkpoint: its segment is whole and in place,
  // and no parse will reach it.
  lemma TornTailReached(env: Env) returns (run: seq<Event>)
    requires |env.src| >= 3
    ensures Initial(env, EmptyRepository()) && Legal(env, EmptyRepository(), run)
    ensures var segs := After(env, EmptyRepository(), run).disk.segs;
            && |segs| == 3 && segs[0].Whole? && segs[1] == Torn && segs[2].Whole? && segs[2].seg.num == 1
            && Parse(segs) == [segs[0].seg]
  {
    hide Parse, TryFastPath, KeptSegs;
    var st := EmptyRepository();
    run := ToCrash(env);
    FastAfterCrash(env, After(env, st, run).disk);
    OneMore(env, st, run, ResumeFast);
    run := run + [ResumeFast];
    OneMore(env, st, run, StoreFrame(1, false));
    run := run + [StoreFrame(1, false)];
    OneMore(env, st, run, IndexChunk);
    run := run + [IndexChunk];
    OneMore(env, st, run, StoreFrame(1, true));
    run := run + [StoreFrame(1, true)];
    OneMore(env, st, run, AppendSegment);
    run := run + [AppendSegment];
    var segs := After(env, st, run).disk.segs;
    TornTailHidesSegment(segs[0].seg, segs[2].seg);
    assert segs == [segs[0], Torn] + [segs[2]];
  }
}
