/** The directory swap that ends a prune, and the recovery that follows a crash.

A prune writes compacted packs and their index under a staging directory and
swaps both in with renames.  It may be cut short at any call, inside a recursive
removal too, and so may the recovery itself. */
module PruneSwap {
  datatype Name = ChunksDir | IndexDir | StagedChunks | StagedIndex | OldChunks | OldIndex

  // A directory's contents: the pack layout it holds or indexes, for packs the
  // generation tag beside them, and whether nothing is missing from it.
  datatype Dir = Dir(layout: nat, gen: nat, whole: bool)
  type Dirs = map<Name, Dir>

  // staging: the directory around StagedChunks and StagedIndex exists.
  datatype Repo = Repo(dirs: Dirs, staging: bool)

  datatype Version = Version(layout: nat, gen: nat)

  function PacksOf(v: Version): Dir {
    Dir(v.layout, v.gen, true)
  }

  function IndexOf(v: Version): Dir {
    Dir(v.layout, 0, true)
  }

  // Packs and index of one version, and nothing left to clean up.
  function Clean(v: Version): Repo {
    Repo(map[ChunksDir := PacksOf(v), IndexDir := IndexOf(v)], false)
  }

  predicate Holds(d: Dirs, n: Name, dir: Dir) {
    n in d && d[n] == dir
  }

  predicate Live(d: Dirs, v: Version) {
    Holds(d, ChunksDir, PacksOf(v)) && Holds(d, IndexDir, IndexOf(v))
  }

  predicate WellFormed(f: Repo) {
    StagedChunks in f.dirs || StagedIndex in f.dirs ==> f.staging
  }

  // ---- Where a prune from version o to version n can stop ----

  // Nothing moved yet, or everything moved back.
  predicate Before(d: Dirs, o: Version) {
    Live(d, o) && OldChunks !in d && OldIndex !in d
  }

  // The old packs are aside and the new ones not yet in place.
  predicate Aside(d: Dirs, o: Version) {
    && ChunksDir !in d && Holds(d, OldChunks, PacksOf(o))
    && Holds(d, IndexDir, IndexOf(o)) && OldIndex !in d
  }

  // The new packs are in place; their index still waits in staging.
  predicate Half(d: Dirs, n: Version) {
    Holds(d, ChunksDir, PacksOf(n)) && OldChunks in d && Holds(d, StagedIndex, IndexOf(n))
  }

  // Both are in place; what is left is cleaning up.
  predicate Through(d: Dirs, n: Version) {
    Live(d, n) && (OldChunks in d ==> StagedIndex !in d)
  }

  predicate RollsBack(d: Dirs, o: Version) {
    Before(d, o) || Aside(d, o)
  }

  predicate RollsForward(d: Dirs, n: Version) {
    Half(d, n) || Through(d, n)
  }

  predicate Recoverable(f: Repo, o: Version, n: Version) {
    WellFormed(f) && (RollsBack(f.dirs, o) || RollsForward(f.dirs, n))
  }

  // ---- What an uninterrupted recovery makes of any repository ----

  function Moved(d: Dirs, src: Name, dst: Name): Dirs
    requires src in d
  {
    (d - {src})[dst := d[src]]
  }

  function IndexBack(d: Dirs): Dirs {
    if IndexDir !in d && OldIndex in d then Moved(d, OldIndex, IndexDir) else d
  }

  function Restored(d: Dirs): Dirs {
    if OldChunks in d && ChunksDir !in d then IndexBack(Moved(d, OldChunks, ChunksDir))
    else if OldChunks in d then
      (if StagedIndex in d then Moved(d - {IndexDir}, StagedIndex, IndexDir) else IndexBack(d)) - {OldChunks}
    else IndexBack(d)
  }

  function Recovered(f: Repo): Repo {
    if !f.staging && OldChunks !in f.dirs && OldIndex !in f.dirs then f
    else
      var d := Restored(f.dirs);
      var d' := if OldIndex in d && IndexDir in d then d - {OldIndex} else d;
      if f.staging then Repo(d' - {StagedChunks, StagedIndex}, false) else Repo(d', false)
  }

  lemma OnlyTwo(d: Dirs)
    requires ChunksDir in d && IndexDir in d
    requires StagedChunks !in d && StagedIndex !in d && OldChunks !in d && OldIndex !in d
    ensures d == map[ChunksDir := d[ChunksDir], IndexDir := d[IndexDir]]
  {
    forall name | name in d ensures name in {ChunksDir, IndexDir} {
      match name
      case ChunksDir =>
      case IndexDir =>
      case _ => assert false;
    }
  }

  lemma RecoveredBack(f: Repo, o: Version)
    requires WellFormed(f) && RollsBack(f.dirs, o)
    ensures Recovered(f) == Clean(o)
  {
    OnlyTwo(Recovered(f).dirs);
  }

  lemma RecoveredForward(f: Repo, n: Version)
    requires WellFormed(f) && RollsForward(f.dirs, n)
    ensures Recovered(f) == Clean(n)
  {
    OnlyTwo(Recovered(f).dirs);
  }

  // Wherever a prune stopped, recovery leaves packs, their generation and their
  // index all old or all new.
  lemma RecoveryIsClean(f: Repo, o: Version, n: Version)
    requires Recoverable(f, o, n)
    ensures Recovered(f) == Clean(o) || Recovered(f) == Clean(n)
  {
    hide RollsBack, RollsForward, Recovered, Clean;
    if RollsBack(f.dirs, o) {
      RecoveredBack(f, o);
    } else {
      RecoveredForward(f, n);
    }
  }

  // A swap that finds old packs aside from before stops at its first rename, and
  // recovery cannot tell that from a swap past its second: it then puts the new
  // index over the old packs.  Exactly then.
  lemma StaleOldChunksMix(f: Repo, o: Version, n: Version)
    requires WellFormed(f) && Live(f.dirs, o) && Holds(f.dirs, StagedIndex, IndexOf(n))
    requires o.layout != n.layout
    ensures OldChunks !in f.dirs ==> Recovered(f) == Clean(o)
    ensures OldChunks in f.dirs ==>
              && Holds(Recovered(f).dirs, ChunksDir, PacksOf(o))
              && Holds(Recovered(f).dirs, IndexDir, IndexOf(n))
    ensures (exists v :: Live(Recovered(f).dirs, v)) <==> OldChunks !in f.dirs
  {
    if OldChunks !in f.dirs {
      RecoveredForward(f, o);
      assert Live(Recovered(f).dirs, o);
    }
  }

  // How it comes to that: a removal fails and the error is ignored.  Recovery would remove
  // what is left and nothing else; while it cannot, the next prune stages its version, stops
  // at the first rename, and the recovery after that puts the new index over the old packs.
  lemma FailedRemovalMixes(o: Version, n: Version, left: Dir)
    requires o.layout != n.layout
    ensures var stuck := Clean(o).dirs[OldChunks := left];
            var staged := Repo(stuck[StagedChunks := PacksOf(n)][StagedIndex := IndexOf(n)], true);
            && Recovered(Repo(stuck, false)) == Clean(o)
            && Holds(Recovered(staged).dirs, ChunksDir, PacksOf(o))
            && Holds(Recovered(staged).dirs, IndexDir, IndexOf(n))
  {
    var stuck := Clean(o).dirs[OldChunks := left];
    var staged := Repo(stuck[StagedChunks := PacksOf(n)][StagedIndex := IndexOf(n)], true);
    RecoveredForward(Repo(stuck, false), o);
    StaleOldChunksMix(staged, o, n);
  }

  // ---- The calls as they run ----

  // Whether something can be renamed to the name: it is not taken, or only by a directory
  // whose removal was begun, which may have come to nothing.
  predicate Free(d: Dirs, name: Name) {
    name in d ==> !d[name].whole
  }

  datatype Step = Done | Failed | Crashed

  // What becomes of one call: it goes through, fails, or the machine stops before,
  // after or in the midst of it.
  datatype Fate = Go | Fail | Stop(after: bool, torn: bool)

  class Repository {
    var dirs: Dirs
    var staging: bool
    var script: seq<Fate> // the fates of the calls to come; afterwards all go through

    function Contents(): Repo
      reads this
    {
      Repo(dirs, staging)
    }

    constructor (v: Version, script: seq<Fate>)
      ensures Contents() == Clean(v) && this.script == script
    {
      dirs, staging := Clean(v).dirs, false;
      this.script := script;
    }

    method Next() returns (fate: Fate)
      modifies this`script
      ensures old(script) == [] ==> fate.Go? && script == []
      ensures old(script) != [] ==> [fate] + script == old(script)
    {
      if script == [] {
        return Go;
      }
      fate := script[0];
      script := script[1..];
    }

    // A rename onto an existing directory fails, unless nothing is left in it.
    method Rename(src: Name, dst: Name, mayFail: bool) returns (r: Step)
      modifies this`dirs, this`script
      ensures r.Done? ==> src in old(dirs) && Free(old(dirs), dst) && dirs == Moved(old(dirs), src, dst)
      ensures r.Failed? ==> dirs == old(dirs) && (mayFail || src !in dirs || dst in dirs)
      ensures r.Crashed? ==>
                dirs == old(dirs) || (src in old(dirs) && Free(old(dirs), dst) && dirs == Moved(old(dirs), src, dst))
      ensures old(script) == [] ==> script == []
      ensures old(script) == [] ==> if src in old(dirs) && Free(old(dirs), dst) then r.Done? else r.Failed?
    {
      var fate := Next();
      if src !in dirs || !Free(dirs, dst) || ((mayFail || dst in dirs) && fate.Fail?) {
        return Failed;
      }
      if fate.Stop? && !fate.after {
        return Crashed;
      }
      dirs := Moved(dirs, src, dst);
      return if fate.Stop? then Crashed else Done;
    }

    // Removing a directory and all in it; a crash may leave it, or a part of it.
    method RemoveAll(name: Name) returns (r: Step)
      modifies this`dirs, this`script
      ensures r.Done? || r.Crashed?
      ensures r.Done? ==> dirs == old(dirs) - {name}
      ensures r.Crashed? ==> Partly(old(dirs), dirs, {name})
      ensures old(script) == [] ==> r.Done? && script == []
      ensures old(script) != [] && old(script)[0] == Stop(false, true) && name in old(dirs) ==>
                dirs == old(dirs)[name := old(dirs)[name].(whole := false)]
    {
      var fate := Next();
      if fate.Stop? && !fate.after {
        if fate.torn && name in dirs {
          dirs := dirs[name := dirs[name].(whole := false)];
        }
        return Crashed;
      }
      dirs := dirs - {name};
      return if fate.Stop? then Crashed else Done;
    }

    method RemoveStaging() returns (r: Step)
      modifies this
      ensures r.Done? || r.Crashed?
      ensures r.Done? ==> dirs == old(dirs) - {StagedChunks, StagedIndex} && !staging
      ensures r.Crashed? ==> Partly(old(dirs), dirs, {StagedChunks, StagedIndex}) && staging == old(staging)
      ensures old(script) == [] ==> r.Done? && script == []
    {
      r := RemoveAll(StagedChunks);
      if r.Crashed? {
        return;
      }
      r := RemoveAll(StagedIndex);
      if r.Crashed? {
        return;
      }
      staging := false;
      assert dirs == old(dirs) - {StagedChunks, StagedIndex};
    }

    // ---- Recovery ----

    method BringIndexBack() returns (r: Step)
      modifies this`dirs, this`script
      ensures r.Done? || r.Crashed?
      ensures r.Done? ==> dirs == IndexBack(old(dirs))
      ensures r.Crashed? ==> dirs == old(dirs) || dirs == IndexBack(old(dirs))
      ensures old(script) == [] ==> r.Done? && script == []
    {
      r := Done;
      if IndexDir !in dirs && OldIndex in dirs {
        r := Rename(OldIndex, IndexDir, false);
      }
    }

    // The switch of recoverIfNeeded.
    method PutBack(ghost back: bool, ghost v: Version) returns (r: Step)
      modifies this`dirs, this`script
      ensures r.Done? || r.Crashed?
      ensures r.Done? ==> dirs == Restored(old(dirs)) && OldChunks !in dirs
      ensures Heading(old(dirs), back, v) ==> Heading(dirs, back, v)
      ensures old(script) == [] ==> r.Done? && script == []
      ensures StagedChunks in dirs || StagedIndex in dirs ==> StagedChunks in old(dirs) || StagedIndex in old(dirs)
    {
      if OldChunks in dirs && ChunksDir !in dirs {
        r := Rename(OldChunks, ChunksDir, false);
        if r.Done? {
          r := BringIndexBack();
        }
      } else if OldChunks in dirs {
        if StagedIndex in dirs {
          r := RollIndexForward(back, v);
        } else {
          r := BringIndexBack();
        }
        if r.Done? {
          r := RemoveAll(OldChunks);
        }
      } else {
        r := BringIndexBack();
      }
    }

    // Discard whatever index is there and put the staged one in its place.
    method RollIndexForward(ghost back: bool, ghost v: Version) returns (r: Step)
      requires OldChunks in dirs && StagedIndex in dirs
      modifies this`dirs, this`script
      ensures r.Done? || r.Crashed?
      ensures r.Done? ==> dirs == Moved(old(dirs) - {IndexDir}, StagedIndex, IndexDir)
      ensures Heading(old(dirs), back, v) && ChunksDir in old(dirs) ==> Heading(dirs, back, v)
      ensures old(script) == [] ==> r.Done? && script == []
      ensures StagedChunks in dirs || StagedIndex in dirs ==> StagedChunks in old(dirs) || StagedIndex in old(dirs)
    {
      r := RemoveAll(IndexDir);
      if r.Done? {
        r := Rename(StagedIndex, IndexDir, false);
      }
    }

    method Recover(ghost o: Version, ghost n: Version) returns (r: Step)
      modifies this
      ensures r.Done? || r.Crashed?
      ensures r.Done? ==> Contents() == Recovered(old(Contents()))
      // A recovery cut short can be taken up again, and ends as it would have.
      ensures Recoverable(old(Contents()), o, n) ==>
                Recoverable(Contents(), o, n) && Recovered(Contents()) == Recovered(old(Contents()))
      ensures old(script) == [] ==> r.Done? && script == []
    {
      hide Before, Aside, Half, Through;
      ghost var f, back := Contents(), RollsBack(dirs, o);
      ghost var v := if back then o else n;
      var hasStaging := staging;
      r := Done;
      if hasStaging || OldChunks in dirs || OldIndex in dirs {
        r := PutBack(back, v);
        if r.Done? && OldIndex in dirs && IndexDir in dirs {
          label L: r := RemoveAll(OldIndex);
          if Recoverable(f, o, n) {
            OldIndexGone(old@L(dirs), dirs, back, v);
          }
        }
        if r.Done? && hasStaging {
          label M: r := RemoveStaging();
          if Recoverable(f, o, n) {
            StagingGone(old@M(dirs), dirs, back, v);
          }
        }
      }
      if Recoverable(f, o, n) {
        SameEnd(f, Contents(), back, v) by {
          hide Recovered;
        }
      }
    }

    // ---- The swap ----

    method WriteGeneration(gen: nat) returns (r: Step)
      requires StagedChunks in dirs
      modifies this`dirs, this`script
      ensures r.Done? ==> dirs == old(dirs)[StagedChunks := old(dirs)[StagedChunks].(gen := gen)]
      ensures dirs == old(dirs) || dirs == old(dirs)[StagedChunks := old(dirs)[StagedChunks].(gen := gen)]
      ensures old(script) == [] ==> r.Done? && script == []
    {
      var fate := Next();
      if fate.Fail? {
        return Failed;
      }
      if fate.Stop? && !fate.after {
        return Crashed;
      }
      dirs := dirs[StagedChunks := dirs[StagedChunks].(gen := gen)];
      return if fate.Stop? then Crashed else Done;
    }

    method AtomicSwap(ghost o: Version, n: Version) returns (r: Step)
      requires WellFormed(Contents()) && Live(dirs, o) && OldIndex !in dirs && Staged(dirs, n)
      modifies this
      ensures OldChunks !in old(dirs) ==>
                && Recoverable(Contents(), o, n)
                && (r.Done? ==> Contents() == Clean(n))
                && (r.Failed? ==> Before(dirs, o))
                && (old(script) == [] ==> r.Done? && script == [])
      // Old packs left aside from before: it stops at its first rename, or finds nothing
      // left in their place and goes on.
      ensures OldChunks in old(dirs) ==>
                || (!r.Done? && dirs - {StagedChunks} == old(dirs) - {StagedChunks} && staging == old(staging))
                || (!old(dirs)[OldChunks].whole && Recoverable(Contents(), o, n))
    {
      r := WriteGeneration(n.gen);
      if !r.Done? {
        return;
      }
      r := Rename(ChunksDir, OldChunks, true);
      if !r.Done? {
        return;
      }
      r := InstallChunks(o, n);
      if !r.Done? {
        return;
      }
      r := InstallIndex(o, n);
      if !r.Done? {
        return;
      }
      r := CleanUp(n);
    }

    method InstallChunks(ghost o: Version, ghost n: Version) returns (r: Step)
      requires WellFormed(Contents()) && Aside(dirs, o)
      requires Holds(dirs, StagedChunks, PacksOf(n)) && Holds(dirs, StagedIndex, IndexOf(n))
      modifies this`dirs, this`script
      ensures Recoverable(Contents(), o, n)
      ensures r.Done? ==> Half(dirs, n) && Holds(dirs, OldChunks, PacksOf(o)) && Holds(dirs, IndexDir, IndexOf(o)) &&
                          StagedChunks !in dirs && OldIndex !in dirs
      ensures r.Failed? ==> Before(dirs, o)
      ensures old(script) == [] ==> r.Done? && script == []
    {
      r := Rename(StagedChunks, ChunksDir, true);
      if r.Failed? {
        var back := Rename(OldChunks, ChunksDir, false);
        r := if back.Crashed? then Crashed else Failed;
      }
    }

    method InstallIndex(ghost o: Version, ghost n: Version) returns (r: Step)
      requires WellFormed(Contents()) && Half(dirs, n) && OldIndex !in dirs && StagedChunks !in dirs
      requires Holds(dirs, OldChunks, PacksOf(o)) && Holds(dirs, IndexDir, IndexOf(o))
      modifies this`dirs, this`script
      ensures Recoverable(Contents(), o, n)
      ensures r.Done? ==> Through(dirs, n) && StagedChunks !in dirs && StagedIndex !in dirs
      ensures r.Failed? ==> Before(dirs, o)
      ensures old(script) == [] ==> r.Done? && script == []
    {
      r := Rename(IndexDir, OldIndex, true);
      if r.Failed? {
        r := ChunksBack(o, n);
        return;
      }
      if r.Crashed? {
        return;
      }
      r := Rename(StagedIndex, IndexDir, true);
      if r.Failed? {
        r := Rename(OldIndex, IndexDir, false);
        if r.Crashed? {
          return;
        }
        r := ChunksBack(o, n);
      }
    }

    // Roll the packs back: the new ones into staging, the old ones into place.
    method ChunksBack(ghost o: Version, ghost n: Version) returns (r: Step)
      requires WellFormed(Contents()) && Half(dirs, n) && OldIndex !in dirs && StagedChunks !in dirs
      requires Holds(dirs, OldChunks, PacksOf(o)) && Holds(dirs, IndexDir, IndexOf(o))
      modifies this`dirs, this`script
      ensures Recoverable(Contents(), o, n) && !r.Done?
      ensures r.Failed? ==> Before(dirs, o)
    {
      r := Rename(ChunksDir, StagedChunks, false);
      if r.Done? {
        r := Rename(OldChunks, ChunksDir, false);
      }
      r := if r.Crashed? then Crashed else Failed;
    }

    method CleanUp(ghost n: Version) returns (r: Step)
      requires WellFormed(Contents()) && Through(dirs, n) && StagedChunks !in dirs && StagedIndex !in dirs
      modifies this
      ensures !r.Failed? && WellFormed(Contents()) && Through(dirs, n)
      ensures r.Done? ==> Contents() == Clean(n)
      ensures old(script) == [] ==> r.Done? && script == []
    {
      r := RemoveAll(OldChunks);
      if r.Crashed? {
        return;
      }
      r := RemoveAll(OldIndex);
      if r.Crashed? {
        return;
      }
      r := RemoveStaging();
      if r.Done? {
        OnlyTwo(dirs);
      }
    }

    // ---- A prune ----

    // rewriteChunks: fill the staging directory.
    method Rewrite(ghost o: Version, layout: nat) returns (r: Step)
      requires Contents() == Clean(o)
      modifies this
      ensures WellFormed(Contents()) && Before(dirs, o)
      ensures r.Done? ==> Staged(dirs, Version(layout, 0))
      ensures staging && StagedChunks in dirs && StagedIndex in dirs
      ensures old(script) == [] ==> r.Done? && script == []
    {
      staging := true;
      dirs := dirs[StagedChunks := Dir(layout, 0, false)][StagedIndex := Dir(layout, 0, false)];
      var fate := Next();
      if !fate.Go? {
        return if fate.Fail? then Failed else Crashed;
      }
      dirs := dirs[StagedChunks := Dir(layout, 0, true)][StagedIndex := Dir(layout, 0, true)];
      return Done;
    }

    // One prune, as far as it gets: from version o, or n if the prune before it got
    // far enough, towards version next.
    method Prune(ghost o: Version, ghost n: Version, next: Version)
      returns (r: Step, ghost o': Version, ghost n': Version)
      requires Recoverable(Contents(), o, n)
      modifies this
      ensures Recoverable(Contents(), o', n')
      ensures o' in {o, n} && n' in {n, next}
      ensures r.Done? ==> Contents() == Clean(next)
      ensures r.Failed? ==> Recovered(Contents()) == Recovered(old(Contents()))
      ensures old(script) == [] ==> r.Done? && script == []
    {
      hide Recovered, Before, Recoverable, Clean;
      ghost var f := Contents();
      o', n' := o, n;
      r := Recover(o, n);
      if r.Crashed? {
        return;
      }
      RecoveryIsClean(f, o, n);
      o', n' := if Contents() == Clean(o) then o else n, next;
      r := Rewrite(o', next.layout);
      BeforeFacts(Contents(), o', next);
      if !r.Done? {
        return;
      }
      r := AtomicSwap(o', next);
      if r.Failed? {
        BeforeFacts(Contents(), o', next);
      }
    }

    // Any number of prunes, each cut short or not, then a recovery that completes:
    // the repository is at one of their versions, packs and index alike.
    method PruneAll(v: Version, nexts: seq<Version>) returns (r: Step)
      requires Contents() == Clean(v)
      modifies this
      ensures r.Done? ==> exists w :: (w == v || w in nexts) && Contents() == Clean(w)
      // With nothing in the way it is the last one's.
      ensures old(script) == [] ==> r.Done? && Contents() == Clean(if nexts == [] then v else nexts[|nexts| - 1])
    {
      ghost var o, n := v, v;
      var i := 0;
      while i < |nexts|
        invariant 0 <= i <= |nexts|
        invariant Recoverable(Contents(), o, n)
        invariant (o == v || o in nexts) && (n == v || n in nexts)
        invariant old(script) == [] ==> script == [] && Contents() == Clean(if i == 0 then v else nexts[i - 1])
      {
        r, o, n := Prune(o, n, nexts[i]);
        i := i + 1;
      }
      ghost var f := Contents();
      r := Recover(o, n);
      RecoveryIsClean(f, o, n);
    }
  }

  // The staged packs and index are both complete.
  predicate Staged(d: Dirs, n: Version) {
    StagedChunks in d && d[StagedChunks].(gen := n.gen) == PacksOf(n) && Holds(d, StagedIndex, IndexOf(n))
  }

  // Which way recovery will go.
  predicate Heading(d: Dirs, back: bool, v: Version) {
    if back then RollsBack(d, v) else RollsForward(d, v)
  }

  lemma SameEnd(f: Repo, f': Repo, back: bool, v: Version)
    requires WellFormed(f) && WellFormed(f') && Heading(f.dirs, back, v) && Heading(f'.dirs, back, v)
    ensures Recovered(f) == Recovered(f')
  {
    hide RollsBack, RollsForward, Recovered;
    if back {
      RecoveredBack(f, v);
      RecoveredBack(f', v);
    } else {
      RecoveredForward(f, v);
      RecoveredForward(f', v);
    }
  }

  lemma OldIndexGone(d: Dirs, d': Dirs, back: bool, v: Version)
    requires Heading(d, back, v) && Partly(d, d', {OldIndex})
    ensures Heading(d', back, v)
  {
  }

  lemma StagingGone(d: Dirs, d': Dirs, back: bool, v: Version)
    requires Heading(d, back, v) && Partly(d, d', {StagedChunks, StagedIndex})
    requires OldChunks !in d
    ensures Heading(d', back, v)
  {
  }

  lemma BeforeFacts(f: Repo, o: Version, n: Version)
    requires WellFormed(f) && Before(f.dirs, o)
    ensures Recoverable(f, o, n) && Recovered(f) == Clean(o)
  {
    RecoveredBack(f, o);
  }

  // d' is d with parts of the named directories gone.
  predicate Partly(d: Dirs, d': Dirs, names: set<Name>) {
    && d'.Keys <= d.Keys
    && (forall m :: m in d && m !in names ==> m in d' && d'[m] == d[m])
  }
}
