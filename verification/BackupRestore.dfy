/** Backup and restore joined: what a completed run left behind, restored by
core/restore, is the source. */
module BackupRestore {
  import opened Options
  import opened BackupModel
  import opened BackupProtocol
  import opened BackupSafety
  import L = BackupLoop
  import R = BackupRuns
  import S = Restore
  import C = Chunker

  // The manifest's entries as restore reads them; a backup of a stream excludes nothing.
  function AsStream(es: seq<Entry>): seq<S.StreamEntry> {
    seq(|es|, i requires 0 <= i < |es| => S.StreamEntry(es[i].off, es[i].len, es[i].hash, false))
  }

  function RepoOf(env: Env, d: Disk): S.Repo {
    S.Repo(d.index, d.packs, env.H)
  }

  lemma ChainedTiles(es: seq<Entry>)
    requires Chained(es)
    ensures S.Tiled(AsStream(es), EndOf(es))
  {
    var ss := AsStream(es);
    forall i | 0 <= i < |ss|
      ensures S.Joined(ss, i)
    {
      assert es[i].len > 0 && es[i].off == EndOf(es[..i]);
      assert i > 0 ==> es[..i][i - 1] == es[i - 1];
    }
  }

  // Restore's view of a complete backup: its entries describe the source and every
  // chunk can be read back.
  lemma CompleteDescribes(env: Env, d: Disk, m: Manifest)
    requires Complete(env, d, m)
    ensures S.Describes(env.H, AsStream(m.entries), env.src) && m.stats.raw == |env.src|
    ensures forall i :: 0 <= i < |m.entries| ==> S.Resolvable(RepoOf(env, d), AsStream(m.entries)[i])
  {
    hide Chained;
    ChainedTiles(m.entries);
  }

  // However often the backup was interrupted: restoring it succeeds and leaves exactly
  // the source on the target.
  method RestoreRun(env: Env, d: Disk, target: S.Target, ghost st: State, ghost run: seq<Event>) returns (ok: bool)
    requires CollisionFree(env) && R.Initial(env, st) && R.Legal(env, st, run)
    requires R.After(env, st, run).disk == d && d.manifest.Some?
    modifies target
    ensures ok && target.data == env.src
  {
    hide R.Legal, R.After, R.Initial, Complete, S.Describes, S.Resolvable, S.Good;
    var m := d.manifest.value;
    R.CompletedRunRestores(env, st, run);
    CompleteDescribes(env, d, m);
    var es := AsStream(m.entries);
    assert S.Tiled(es, |env.src|) by {
      DescribedTiles(env.H, es, env.src);
    }
    ok := S.RestoreEntries(RepoOf(env, d), es, m.stats.raw, target);
    S.RestoredIsSource(env.H, es, env.src, target.data);
  }

  lemma DescribedTiles(H: Data -> Hash, es: seq<S.StreamEntry>, src: Data)
    requires S.Describes(H, es, src)
    ensures S.Tiled(es, |src|)
  {
  }

  // And any range of it can be restored on its own.
  method RestoreRange(env: Env, d: Disk, start: nat, length: nat, ghost st: State, ghost run: seq<Event>)
    returns (res: S.FileResult)
    requires CollisionFree(env) && R.Initial(env, st) && R.Legal(env, st, run)
    requires R.After(env, st, run).disk == d && d.manifest.Some?
    requires length > 0 && start + length <= |env.src|
    ensures res == S.Ok(env.src[start..start + length])
  {
    hide R.Legal, R.After, R.Initial, Complete, S.Describes, S.Resolvable, S.Good;
    var m := d.manifest.value;
    R.CompletedRunRestores(env, st, run);
    CompleteDescribes(env, d, m);
    res := S.RestoreFile(RepoOf(env, d), AsStream(m.entries), env.src, length, start, length);
  }

  // The store loop may be driven by the content-defined chunker, started anew wherever a
  // session begins.
  function ChunkerCut(p: C.Params): (Data, nat) -> nat {
    (s: Data, i: nat) => if i < |s| then C.NextCut(p, s, i, i) - i else 0
  }

  lemma ChunkerCuts(p: C.Params)
    ensures L.Cuts(ChunkerCut(p))
  {
    forall s: Data, i: nat | i < |s|
      ensures 0 < ChunkerCut(p)(s, i) <= |s| - i
    {
    }
  }
}
