/** From a fit plan to the disk it is written to (core/disklayout/fit.go): whatever
PlanFit accepts for a parsed GPT is applied, and can be written to the target exactly when
both regions have their place on it; the result then parses back to the planned extents. */
module FitDisk {
  import opened Bytes
  import opened Options
  import opened Sorting
  import opened GptLayout
  import opened GptFit
  import P = FitPlan

  // ---- A parsed layout as the planner sees it ----

  ghost predicate Plannable(l: DiskLayout) {
    && 0 < l.ss < P.M && l.firstUsable < P.M && l.backupLength < 0x8000_0000_0000_0000
    && forall i :: 0 <= i < |l.parts| ==> l.parts[i].first < P.M && l.parts[i].last < P.M
  }

  function PlanPart(p: Part, isData: Part -> bool): P.Part
    requires p.first < P.M && p.last < P.M
  {
    P.Part(p.index, isData(p), false, p.first, p.last)
  }

  function PlanLayout(l: DiskLayout, isData: Part -> bool): P.Layout
    requires Plannable(l)
  {
    P.Layout(true, l.ss, l.backupLength, l.firstUsable,
             seq(|l.parts|, i requires 0 <= i < |l.parts| => PlanPart(l.parts[i], isData)))
  }

  // The moves a plan asks for, slot by slot.
  function MovesOf(parts: seq<P.Part>, plan: seq<P.Planned>): seq<Move>
    requires |plan| == |parts| && forall i :: 0 <= i < |parts| ==> parts[i].index >= 0
  {
    seq(|parts|, i requires 0 <= i < |parts| => Move(parts[i].index, plan[i].first, plan[i].last))
  }

  // What the parser makes sure of: slots in order, within the array, with 64-bit extents.
  lemma {:induction false} ParsedParts(es: seq<byte>, size: nat, n: nat, ss: nat, diskSize: nat)
    requires size >= 128 && At(size, n) <= |es| && Parts(es, size, n, ss, diskSize).Some?
    ensures var parts := Parts(es, size, n, ss, diskSize).value;
            && (forall i :: 0 <= i < |parts| ==> parts[i].index < n && parts[i].first < P.M && parts[i].last < P.M)
            && forall i, j :: 0 <= i < j < |parts| ==> parts[i].index != parts[j].index
  {
    hide At, Slot, PartOf, InUse, Sensible;
    if n > 0 {
      SlotWithin(size, n - 1, n);
      SlotLength(es, size, n - 1);
      ParsedParts(es, size, n - 1, ss, diskSize);
      ParsedPart(Slot(es, size, n - 1), n - 1);
    }
  }

  lemma ParsedPart(e: seq<byte>, i: nat)
    requires |e| >= 128
    ensures PartOf(e, i).index == i && PartOf(e, i).first < P.M && PartOf(e, i).last < P.M
  {
    hide Pow256, FromLE;
    Widths();
    LEFits(e[32..40]);
    LEFits(e[40..48]);
  }

  lemma CapturePlannable(crc: Crc, d: seq<byte>, l: DiskLayout, primary: seq<byte>, c: Captured)
    requires Capture(crc, d, l, primary) && Readable(l, primary, c)
    ensures Plannable(l) && 0 < |c.entries| <= MAX_ENTRY_BYTES
    ensures forall i :: 0 <= i < |l.parts| ==> l.parts[i].index < c.table.count
    ensures forall i, j :: 0 <= i < j < |l.parts| ==> l.parts[i].index != l.parts[j].index
  {
    hide ParseGpt, Capture, Parts, At, Pow256, FromLE, HeaderSound, ArrayOf;
    var c' := CaptureFacts(crc, d, l, primary);
    assert c' == c;
    ParsedParts(c.entries, c.table.size, c.table.count, l.ss, |d|);
    Widths();
    LEFits(c.sector[40..48]);
  }

  // ---- The plan's moves ----

  lemma {:induction false} MoveFor(moves: seq<Move>, i: nat)
    requires i < |moves| && forall a, b :: 0 <= a < b < |moves| ==> moves[a].index != moves[b].index
    ensures MoveOf(moves, moves[i].index) == Some(moves[i])
  {
    if i < |moves| - 1 {
      MoveFor(moves[..|moves| - 1], i);
    }
  }

  // A plan for the layout l: its partitions in some order, and where they go.
  ghost predicate PlanFor(l: DiskLayout, isData: Part -> bool, t: P.Target, o: P.Choices, lastUsable: P.u64,
                          parts: seq<P.Part>, plan: seq<P.Planned>)
    requires Plannable(l) && t.physicalSector < P.M
  {
    var pl := PlanLayout(l, isData);
    && !P.BadTarget(pl, t) && P.LastUsable(pl, P.Quot(t.size, l.ss)) == Some(lastUsable)
    && P.Promised(pl, t, o, lastUsable, parts, plan)
  }

  ghost predicate Apart(l: DiskLayout, count: nat) {
    && (forall i :: 0 <= i < |l.parts| ==> l.parts[i].index < count)
    && forall i, j :: 0 <= i < j < |l.parts| ==> l.parts[i].index != l.parts[j].index
  }

  // The planned partitions are the layout's, each once.
  lemma SamePartitions(l: DiskLayout, isData: Part -> bool, count: nat, parts: seq<P.Part>)
    requires Plannable(l) && Apart(l, count) && multiset(parts) == multiset(PlanLayout(l, isData).parts)
    ensures forall i :: 0 <= i < |parts| ==> 0 <= parts[i].index < count
    ensures forall i, j :: 0 <= i < j < |parts| ==> parts[i].index != parts[j].index
    ensures forall k :: 0 <= k < |l.parts| ==> PlanPart(l.parts[k], isData) in parts
  {
    var all := PlanLayout(l, isData).parts;
    PermutedApart(all, parts, (p: P.Part) => p.index);
    forall i | 0 <= i < |parts|
      ensures 0 <= parts[i].index < count
    {
      SameMembers(all, parts, parts[i]);
      var k :| 0 <= k < |all| && all[k] == parts[i];
      assert all[k].index == l.parts[k].index;
    }
    forall k | 0 <= k < |l.parts|
      ensures PlanPart(l.parts[k], isData) in parts
    {
      assert all[k] == PlanPart(l.parts[k], isData);
      SameMembers(all, parts, all[k]);
    }
  }

  // Partition k of the layout goes where the plan puts it.
  ghost predicate GoesTo(l: DiskLayout, isData: Part -> bool, parts: seq<P.Part>, plan: seq<P.Planned>, k: nat, i: nat)
    requires Plannable(l) && k < |l.parts| && |plan| == |parts|
  {
    && i < |parts| && parts[i] == PlanPart(l.parts[k], isData)
    && (forall j :: 0 <= j < |parts| ==> parts[j].index >= 0)
    && Moved(l.parts[k], MoveOf(MovesOf(parts, plan), l.parts[k].index)) ==
       l.parts[k].(first := plan[i].first, last := plan[i].last)
  }

  lemma PlannedPlace(l: DiskLayout, isData: Part -> bool, count: nat, parts: seq<P.Part>, plan: seq<P.Planned>, k: nat)
    returns (i: nat)
    requires Plannable(l) && Apart(l, count) && multiset(parts) == multiset(PlanLayout(l, isData).parts)
    requires |plan| == |parts| && k < |l.parts|
    ensures GoesTo(l, isData, parts, plan, k, i)
  {
    SamePartitions(l, isData, count, parts);
    i :| 0 <= i < |parts| && parts[i] == PlanPart(l.parts[k], isData);
    var moves := MovesOf(parts, plan);
    forall a, b | 0 <= a < b < |moves|
      ensures moves[a].index != moves[b].index
    {
      assert parts[a].index != parts[b].index;
    }
    MoveFor(moves, i);
  }

  // ---- Room on the target ----

  // An applicable plan leaves room for both tables and ends before the backup one.
  lemma PlanRoom(l: DiskLayout, isData: Part -> bool, size: P.i64, entries: nat, lastUsable: P.u64)
    requires Plannable(l) && 512 <= l.ss <= 4096 && l.backupLength == entries + l.ss && entries <= MAX_ENTRY_BYTES
    requires size > 0 && size % l.ss == 0
    requires P.LastUsable(PlanLayout(l, isData), P.Quot(size, l.ss)) == Some(lastUsable)
    ensures 3 * l.ss <= size && LastLba(size, l.ss) >= EntrySectors(entries, l.ss)
    ensures LastLba(size, l.ss) * l.ss >= entries && (lastUsable + 1) * l.ss <= size
    ensures LastLba(size, l.ss) * l.ss + l.ss == size
  {
    hide P.LastUsable, P.Quot, EntrySectors, LastLba;
    var n := P.Quot(size, l.ss);
    LastUsableIs(l, isData, n, entries);
    WholeSectors(size, l.ss);
    EnoughSectors(entries, l.ss);
    Times(3, n, l.ss);
    Times(EntrySectors(entries, l.ss), n - 1, l.ss);
    Times(lastUsable + 1, n, l.ss);
  }

  // The last usable sector in plain numbers.
  lemma LastUsableIs(l: DiskLayout, isData: Part -> bool, n: P.u64, entries: nat)
    requires Plannable(l) && 512 <= l.ss <= 4096 && l.backupLength == entries + l.ss && entries <= MAX_ENTRY_BYTES
    ensures var e := EntrySectors(entries, l.ss);
            P.LastUsable(PlanLayout(l, isData), n) == if n < e + 3 then None else Some(n - 2 - e)
  {
    hide P.Quot, EntrySectors, PlanPart;
    assert P.Sub(l.backupLength, l.ss) == entries && P.Add(entries, l.ss - 1) == entries + l.ss - 1;
    assert P.Quot(entries + l.ss - 1, l.ss) == EntrySectors(entries, l.ss) by {
      QuotIs(entries + l.ss - 1, l.ss);
      SectorsIs(entries, l.ss);
    }
    EnoughSectors(entries, l.ss);
  }

  lemma QuotIs(a: P.u64, b: P.u64)
    requires b > 0
    ensures P.Quot(a, b) == a / b
  {
  }

  lemma SectorsIs(bytes: nat, ss: nat)
    requires ss > 0
    ensures EntrySectors(bytes, ss) == (bytes + ss - 1) / ss
  {
  }

  lemma WholeSectors(size: P.u64, ss: P.u64)
    requires ss > 0 && size % ss == 0
    ensures size == P.Quot(size, ss) * ss && LastLba(size, ss) == P.Quot(size, ss) - 1
    ensures LastLba(size, ss) * ss + ss == size
  {
    QuotIs(size, ss);
    var n := size / ss;
    assert size == n * ss;
    assert (n - 1) * ss + ss == n * ss;
  }

  lemma EnoughSectors(bytes: nat, ss: nat)
    requires ss > 0
    ensures bytes <= EntrySectors(bytes, ss) * ss && EntrySectors(bytes, ss) <= bytes + ss
  {
    var q, r := (bytes + ss - 1) / ss, (bytes + ss - 1) % ss;
    assert bytes + ss - 1 == q * ss + r;
    Times(1, ss, q);
  }

  lemma Times(a: int, b: int, s: nat)
    ensures a <= b ==> a * s <= b * s
  {
    if a <= b {
      assert b * s == a * s + (b - a) * s;
    }
  }

  // ---- The theorem ----

  ghost function FitOf(t: P.Target, lastUsable: P.u64, parts: seq<P.Part>, plan: seq<P.Planned>): Fit
    requires |plan| == |parts| && t.size >= 0 && forall i :: 0 <= i < |parts| ==> parts[i].index >= 0
  {
    Fit(MovesOf(parts, plan), lastUsable, t.size)
  }

  // What a plan asks of the target beyond what PlanFit checks: that the captured primary
  // region, header and entry array included, is no longer than it.
  lemma PlanFitsOn(crc: Crc, d: seq<byte>, l: DiskLayout, primary: seq<byte>, c: Captured, isData: Part -> bool,
                   t: P.Target, o: P.Choices, lastUsable: P.u64, parts: seq<P.Part>, plan: seq<P.Planned>)
    requires Capture(crc, d, l, primary) && Readable(l, primary, c) && t.physicalSector < P.M && Plannable(l)
    requires PlanFor(l, isData, t, o, lastUsable, parts, plan)
    ensures |plan| == |parts| && t.size > 0 && forall i :: 0 <= i < |parts| ==> parts[i].index >= 0
    ensures FitsOn(l, c, FitOf(t, lastUsable, parts, plan)) <==> l.primaryLength <= t.size
  {
    hide ParseGpt, Capture, At, P.Promised, P.LastUsable, P.Quot, EntrySectors, LastLba, ArrayOf, MovesFit, MovesOf,
         Narrow, InArray, PlanLayout, Plannable, HeaderSound;
    CapturePlannable(crc, d, l, primary, c);
    TargetFacts(l, isData, t);
    SameSize(PlanLayout(l, isData), t, o, lastUsable, parts, plan);
    SamePartitions(l, isData, c.table.count, parts);
    PlanRoom(l, isData, t.size, |c.entries|, lastUsable);
    Widths();
    MovesWithin(parts, plan, c.table.count);
    PlanMovesFit(l, isData, c.table.count, parts, plan, lastUsable, t.size);
  }

  lemma TargetFacts(l: DiskLayout, isData: Part -> bool, t: P.Target)
    requires Plannable(l) && !P.BadTarget(PlanLayout(l, isData), t)
    ensures 0 < l.ss < P.M && t.size > 0 && t.size % l.ss == 0 && PlanLayout(l, isData).sectorSize == l.ss
  {
  }

  lemma MovesWithin(parts: seq<P.Part>, plan: seq<P.Planned>, count: nat)
    requires |plan| == |parts| && forall i :: 0 <= i < |parts| ==> 0 <= parts[i].index < count
    ensures var moves := MovesOf(parts, plan);
            InArray(moves, count) && forall k :: 0 <= k < |moves| ==> Narrow(moves[k])
  {
    hide Pow256;
    Widths();
  }

  // Within the usable area, and so on the disk.
  lemma PlanMovesFit(l: DiskLayout, isData: Part -> bool, count: nat, parts: seq<P.Part>, plan: seq<P.Planned>,
                     lastUsable: P.u64, size: P.i64)
    requires Plannable(l) && Apart(l, count) && multiset(parts) == multiset(PlanLayout(l, isData).parts)
    requires |plan| == |parts| && P.Placed(plan, lastUsable) && size > 0 && (lastUsable + 1) * l.ss <= size
    requires forall i :: 0 <= i < |parts| ==> parts[i].index >= 0
    ensures MovesFit(l.parts, MovesOf(parts, plan), l.ss, size)
  {
    hide Sensible, PlanLayout, MovesOf, MoveOf, Moved;
    forall k | 0 <= k < |l.parts|
      ensures Sensible(Moved(l.parts[k], MoveOf(MovesOf(parts, plan), l.parts[k].index)), l.ss, size)
    {
      var i := PlannedPlace(l, isData, count, parts, plan, k);
      Times(plan[i].last + 1, lastUsable + 1, l.ss);
      OnDiskSensible(l.parts[k].(first := plan[i].first, last := plan[i].last), l.ss, size);
    }
  }

  lemma SameSize(pl: P.Layout, t: P.Target, o: P.Choices, lastUsable: P.u64, parts: seq<P.Part>, plan: seq<P.Planned>)
    requires 0 < pl.sectorSize < P.M && t.physicalSector < P.M && P.Promised(pl, t, o, lastUsable, parts, plan)
    ensures |plan| == |parts| && multiset(parts) == multiset(pl.parts) && P.Placed(plan, lastUsable)
  {
    hide P.LowestStart, P.Placed, P.Fair;
  }

  // Each partition of the layout is in after, at the extent its plan gives it and
  // otherwise as it was.
  ghost predicate AsPlanned(l: DiskLayout, isData: Part -> bool, parts: seq<P.Part>, plan: seq<P.Planned>,
                            after: seq<Part>)
    requires Plannable(l) && |plan| == |parts|
  {
    |after| == |l.parts| && forall k :: 0 <= k < |after| ==> Lands(l, isData, parts, plan, after[k], k)
  }

  ghost predicate Lands(l: DiskLayout, isData: Part -> bool, parts: seq<P.Part>, plan: seq<P.Planned>, q: Part, k: nat)
    requires Plannable(l) && k < |l.parts| && |plan| == |parts|
  {
    exists i: nat :: LandsAt(l, isData, parts, plan, q, k, i)
  }

  ghost predicate LandsAt(l: DiskLayout, isData: Part -> bool, parts: seq<P.Part>, plan: seq<P.Planned>, q: Part,
                          k: nat, i: nat)
    requires Plannable(l) && k < |l.parts| && |plan| == |parts|
  {
    && i < |parts| && parts[i] == PlanPart(l.parts[k], isData)
    && q == l.parts[k].(first := plan[i].first, last := plan[i].last)
  }

  lemma MovesAsPlanned(l: DiskLayout, isData: Part -> bool, count: nat, parts: seq<P.Part>, plan: seq<P.Planned>)
    requires Plannable(l) && Apart(l, count) && multiset(parts) == multiset(PlanLayout(l, isData).parts)
    requires |plan| == |parts| && forall i :: 0 <= i < |parts| ==> parts[i].index >= 0
    ensures AsPlanned(l, isData, parts, plan, AllMoved(l.parts, MovesOf(parts, plan)))
  {
    hide MovesOf, MoveOf, Moved, PlanLayout;
    var after := AllMoved(l.parts, MovesOf(parts, plan));
    forall k | 0 <= k < |after|
      ensures Lands(l, isData, parts, plan, after[k], k)
    {
      var i := PlannedPlace(l, isData, count, parts, plan, k);
      assert LandsAt(l, isData, parts, plan, after[k], k, i);
    }
  }

  // Both regions are on the disk d, which has the given size.
  ghost predicate WrittenTo(a: Applied, d: seq<byte>, size: nat) {
    && |d| == size && |a.primary| <= |d| && d[..|a.primary|] == a.primary
    && 0 <= a.backupOffset && a.backupOffset + |a.backup| <= |d|
    && d[a.backupOffset..a.backupOffset + |a.backup|] == a.backup
  }

  // The regions have the same bytes wherever both have any.
  ghost predicate Agree(a: Applied) {
    forall x: nat :: a.backupOffset <= x < a.backupOffset + |a.backup| && x < |a.primary| ==>
      a.primary[x] == a.backup[x - a.backupOffset]
  }

  // A disk with both on it, where there is one.
  ghost function Laid(a: Applied, size: nat): seq<byte>
    requires |a.primary| <= size && 0 <= a.backupOffset && a.backupOffset + |a.backup| <= size
  {
    Splice(a.primary + Zeros(size - |a.primary|), a.backupOffset, a.backup)
  }

  lemma LaidOut(a: Applied, size: nat)
    requires |a.primary| <= size && 0 <= a.backupOffset && a.backupOffset + |a.backup| <= size && Agree(a)
    ensures WrittenTo(a, Laid(a, size), size)
  {
    var d, n := Laid(a, size), |a.primary|;
    assert |a.primary + Zeros(size - n)| == size;
    forall x | 0 <= x < n
      ensures d[..n][x] == a.primary[x]
    {
      if a.backupOffset <= x < a.backupOffset + |a.backup| {
        assert d[x] == a.backup[x - a.backupOffset];
      }
    }
    SpliceInside(a.primary + Zeros(size - n), a.backupOffset, a.backup);
  }

  lemma WrittenAgree(a: Applied, d: seq<byte>, size: nat)
    requires WrittenTo(a, d, size)
    ensures Agree(a)
  {
    forall x: nat | a.backupOffset <= x < a.backupOffset + |a.backup| && x < |a.primary|
      ensures a.primary[x] == a.backup[x - a.backupOffset]
    {
      assert d[..|a.primary|][x] == d[a.backupOffset..a.backupOffset + |a.backup|][x - a.backupOffset];
    }
  }

  // Where a plan puts the backup region: right behind the last usable sector.
  lemma BackupRegion(crc: Crc, d: seq<byte>, l: DiskLayout, primary: seq<byte>, c: Captured, isData: Part -> bool,
                     t: P.Target, o: P.Choices, lastUsable: P.u64, parts: seq<P.Part>, plan: seq<P.Planned>)
    requires Capture(crc, d, l, primary) && Readable(l, primary, c) && t.physicalSector < P.M && Plannable(l)
    requires PlanFor(l, isData, t, o, lastUsable, parts, plan)
    ensures |plan| == |parts| && t.size > 0 && forall i :: 0 <= i < |parts| ==> parts[i].index >= 0
    ensures var fit := FitOf(t, lastUsable, parts, plan);
            && InArray(fit.moves, c.table.count)
            && var a := Rewritten(crc, l, c, fit, primary);
               && |a.primary| == |primary| == l.primaryLength && a.backupOffset == (lastUsable + 1) * l.ss
               && |a.backup| == |c.entries| + l.ss && a.backupOffset + |a.backup| <= t.size
  {
    hide ParseGpt, Capture, At, P.Promised, P.LastUsable, P.Quot, EntrySectors, LastLba, ArrayOf, MovesFit, MovesOf,
         Narrow, InArray, PlanLayout, Plannable, HeaderSound, PutAll, NewHeader, Sealed, Mirrored;
    CapturePlannable(crc, d, l, primary, c);
    TargetFacts(l, isData, t);
    SameSize(PlanLayout(l, isData), t, o, lastUsable, parts, plan);
    SamePartitions(l, isData, c.table.count, parts);
    MovesWithin(parts, plan, c.table.count);
    PlanRoom(l, isData, t.size, |c.entries|, lastUsable);
    BackupSectors(l, isData, t.size, |c.entries|, lastUsable);
    EnoughSectors(|c.entries|, l.ss);
    BeforeLast(LastLba(t.size, l.ss), EntrySectors(|c.entries|, l.ss), l.ss);
  }

  lemma BackupSectors(l: DiskLayout, isData: Part -> bool, size: P.i64, entries: nat, lastUsable: P.u64)
    requires Plannable(l) && 512 <= l.ss <= 4096 && l.backupLength == entries + l.ss && entries <= MAX_ENTRY_BYTES
    requires size > 0 && size % l.ss == 0
    requires P.LastUsable(PlanLayout(l, isData), P.Quot(size, l.ss)) == Some(lastUsable)
    ensures LastLba(size, l.ss) - EntrySectors(entries, l.ss) == lastUsable + 1
  {
    hide P.LastUsable, P.Quot, EntrySectors, LastLba;
    LastUsableIs(l, isData, P.Quot(size, l.ss), entries);
    WholeSectors(size, l.ss);
  }

  // An accepted plan can be carried out exactly when the captured primary region is no
  // longer than the target and agrees with the backup region where they overlap.  PlanFit
  // asks neither.
  lemma CarriedOutExactly(crc: Crc, d0: seq<byte>, l: DiskLayout, primary: seq<byte>, c: Captured,
                          isData: Part -> bool, t: P.Target, o: P.Choices, lastUsable: P.u64, parts: seq<P.Part>,
                          plan: seq<P.Planned>)
    requires Capture(crc, d0, l, primary) && Readable(l, primary, c) && t.physicalSector < P.M && Plannable(l)
    requires PlanFor(l, isData, t, o, lastUsable, parts, plan)
    ensures |plan| == |parts| && t.size > 0 && forall i :: 0 <= i < |parts| ==> parts[i].index >= 0
    ensures var fit := FitOf(t, lastUsable, parts, plan);
            && InArray(fit.moves, c.table.count)
            && var a := Rewritten(crc, l, c, fit, primary);
               (exists d :: WrittenTo(a, d, t.size)) <==> l.primaryLength <= t.size && Agree(a)
  {
    hide ParseGpt, Capture, Readable, PlanFor, Rewritten, WrittenTo, MovesOf, Agree, PlanLayout, Plannable, Laid;
    BackupRegion(crc, d0, l, primary, c, isData, t, o, lastUsable, parts, plan);
    var a := Rewritten(crc, l, c, FitOf(t, lastUsable, parts, plan), primary);
    if l.primaryLength <= t.size && Agree(a) {
      LaidOut(a, t.size);
    }
    if d :| WrittenTo(a, d, t.size) {
      WrittenAgree(a, d, t.size);
      WrittenLength(a, d, t.size);
    }
  }

  lemma WrittenLength(a: Applied, d: seq<byte>, size: nat)
    requires WrittenTo(a, d, size)
    ensures |a.primary| <= size
  {
  }

  // What a caller can check: it can when the captured primary region ends by the last
  // usable sector, or when its entry array is just where the backup's goes.
  lemma CarriedOutWhen(crc: Crc, d0: seq<byte>, l: DiskLayout, primary: seq<byte>, c: Captured, isData: Part -> bool,
                       t: P.Target, o: P.Choices, lastUsable: P.u64, parts: seq<P.Part>, plan: seq<P.Planned>)
    returns (d: seq<byte>)
    requires Capture(crc, d0, l, primary) && Readable(l, primary, c) && t.physicalSector < P.M && Plannable(l)
    requires PlanFor(l, isData, t, o, lastUsable, parts, plan)
    requires l.primaryLength <= (lastUsable + 1) * l.ss || c.table.offset == (lastUsable + 1) * l.ss
    ensures |plan| == |parts| && t.size > 0 && forall i :: 0 <= i < |parts| ==> parts[i].index >= 0
    ensures var fit := FitOf(t, lastUsable, parts, plan);
            InArray(fit.moves, c.table.count) && WrittenTo(Rewritten(crc, l, c, fit, primary), d, t.size)
  {
    hide ParseGpt, Capture, PlanFor, Rewritten, WrittenTo, MovesOf, Agree, PlanLayout, Plannable, Laid, ArrayOf, Field;
    BackupRegion(crc, d0, l, primary, c, isData, t, o, lastUsable, parts, plan);
    var fit := FitOf(t, lastUsable, parts, plan);
    var a := Rewritten(crc, l, c, fit, primary);
    if l.primaryLength <= (lastUsable + 1) * l.ss {
      ApartAgree(a);
    } else {
      SamePlaceAgrees(crc, l, c, fit, primary);
    }
    LaidOut(a, t.size);
    d := Laid(a, t.size);
  }

  lemma ApartAgree(a: Applied)
    requires |a.primary| <= a.backupOffset
    ensures Agree(a)
  {
  }

  // Both hold the rewritten entries there.
  lemma SamePlaceAgrees(crc: Crc, l: DiskLayout, c: Captured, fit: Fit, primary: seq<byte>)
    requires Readable(l, primary, c) && InArray(fit.moves, c.table.count)
    requires Rewritten(crc, l, c, fit, primary).backupOffset == c.table.offset
    ensures Agree(Rewritten(crc, l, c, fit, primary))
  {
    hide At, PutAll, NewHeader, Sealed, Mirrored, ArrayOf, EntrySectors, LastLba, Field, Splice;
    var a := Rewritten(crc, l, c, fit, primary);
    var entries := PutAll(c.entries, c.table.size, c.table.count, fit.moves);
    var header := NewHeader(crc, c.sector[..c.headerSize], LastLba(fit.targetSize, l.ss), fit.lastUsable, entries);
    PrimaryPieces(primary, l.ss, header, c.table.offset, entries);
    assert a.primary[c.table.offset..] == entries;
    assert a.backup[..|entries|] == entries;
    forall x: nat | c.table.offset <= x < c.table.offset + |a.backup| && x < |a.primary|
      ensures a.primary[x] == a.backup[x - c.table.offset]
    {
      assert a.primary[x] == a.primary[c.table.offset..][x - c.table.offset];
      assert a.backup[x - c.table.offset] == a.backup[..|entries|][x - c.table.offset];
    }
  }

  // Planned, rewritten, written to the target and parsed again: the captured partitions
  // at exactly the planned extents, all else as it was, and a sound backup header.
  ghost predicate Fitted(crc: Crc, l: DiskLayout, c: Captured, isData: Part -> bool, lastUsable: nat,
                         parts: seq<P.Part>, plan: seq<P.Planned>, d: seq<byte>)
    requires Plannable(l) && |plan| == |parts|
  {
    var parsed := ParseGpt(crc, d, l.ss);
    && parsed.Some? && AsPlanned(l, isData, parts, plan, parsed.value.parts)
    && parsed.value.guid == l.guid && parsed.value.lastUsable == lastUsable
    && (l.ss > 0 && |c.entries| % l.ss == 0 ==> BackupSound(crc, d, parsed.value))
    && BackupReads(crc, l, c, lastUsable, d, parsed.value.parts)
  }

  // Behind the last usable sector there is a backup table of the same partitions.
  ghost predicate BackupReads(crc: Crc, l: DiskLayout, c: Captured, lastUsable: nat, d: seq<byte>, parts: seq<Part>) {
    var at, bytes := (lastUsable + 1) * l.ss, |c.entries|;
    && at + bytes + l.ss <= |d| && c.table.size >= 128 && At(c.table.size, c.table.count) == bytes
    && BackupTells(crc, l.ss, |d|, lastUsable, c.table, at, d[at..at + bytes + l.ss])
    && Parts(d[at..at + bytes + l.ss][..bytes], c.table.size, c.table.count, l.ss, |d|) == Some(parts)
  }

  lemma PlannedRoundTrip(crc: Crc, d0: seq<byte>, l: DiskLayout, primary: seq<byte>, c: Captured, isData: Part -> bool,
                         t: P.Target, o: P.Choices, lastUsable: P.u64, parts: seq<P.Part>, plan: seq<P.Planned>,
                         d: seq<byte>)
    requires Checksum(crc) && Capture(crc, d0, l, primary) && Readable(l, primary, c) && Plannable(l)
    requires t.physicalSector < P.M && PlanFor(l, isData, t, o, lastUsable, parts, plan)
    requires |plan| == |parts| && t.size > 0 && forall i :: 0 <= i < |parts| ==> parts[i].index >= 0
    requires var fit := FitOf(t, lastUsable, parts, plan);
             InArray(fit.moves, c.table.count) && WrittenTo(Rewritten(crc, l, c, fit, primary), d, t.size)
    ensures Fitted(crc, l, c, isData, lastUsable, parts, plan, d)
  {
    hide ParseGpt, Capture, Readable, PlanFor, Rewritten, BackupSound, MovesOf, Checksum, AsPlanned, MovesFit, AllMoved,
         LastLba, EntrySectors, PlanLayout, Plannable, BackupTells, Parts, At;
    CapturePlannable(crc, d0, l, primary, c);
    BackupRegion(crc, d0, l, primary, c, isData, t, o, lastUsable, parts, plan);
    PlanFitsOn(crc, d0, l, primary, c, isData, t, o, lastUsable, parts, plan);
    var fit := FitOf(t, lastUsable, parts, plan);
    FitRoundTrip(crc, d0, l, primary, c, fit, d);
    ArrayBytes(l, primary, c);
    PlannedOf(l, isData, t, o, lastUsable, parts, plan);
    MovesAsPlanned(l, isData, c.table.count, parts, plan);
  }

  lemma ArrayBytes(l: DiskLayout, primary: seq<byte>, c: Captured)
    requires Readable(l, primary, c)
    ensures c.table.size >= 128 && At(c.table.size, c.table.count) == |c.entries|
  {
    hide ArrayOf, At;
  }

  // A capture whose tables end before its usable area, and a plan that respects it: there
  // is a disk the plan can be carried out on, and no partition touches either region.
  lemma PlanSucceeds(crc: Crc, d0: seq<byte>, l: DiskLayout, primary: seq<byte>, c: Captured, isData: Part -> bool,
                     t: P.Target, o: P.Choices, lastUsable: P.u64, parts: seq<P.Part>, plan: seq<P.Planned>)
    returns (d: seq<byte>)
    requires Checksum(crc) && Capture(crc, d0, l, primary) && Readable(l, primary, c) && Plannable(l)
    requires t.physicalSector < P.M && PlanFor(l, isData, t, o, lastUsable, parts, plan)
    requires l.primaryLength <= l.firstUsable * l.ss
    requires forall i :: 0 <= i < |plan| ==> plan[i].first >= l.firstUsable
    ensures |plan| == |parts| && t.size > 0 && forall i :: 0 <= i < |parts| ==> parts[i].index >= 0
    ensures var fit := FitOf(t, lastUsable, parts, plan);
            InArray(fit.moves, c.table.count) && WrittenTo(Rewritten(crc, l, c, fit, primary), d, t.size)
    ensures Fitted(crc, l, c, isData, lastUsable, parts, plan, d)
    ensures forall i :: 0 <= i < |plan| ==>
              l.primaryLength <= plan[i].first * l.ss && (plan[i].last + 1) * l.ss <= (lastUsable + 1) * l.ss
  {
    hide ParseGpt, Capture, Readable, Rewritten, WrittenTo, MovesOf, Fitted, PlanLayout, Plannable, P.BadTarget,
         P.LastUsable, P.Quot, P.Promised, Checksum, FitOf;
    TargetFacts(l, isData, t);
    SomePlanned(PlanLayout(l, isData), t, o, lastUsable, parts, plan);
    forall i | 0 <= i < |plan|
      ensures l.primaryLength <= plan[i].first * l.ss && (plan[i].last + 1) * l.ss <= (lastUsable + 1) * l.ss
      ensures l.primaryLength <= (lastUsable + 1) * l.ss
    {
      Times(l.firstUsable, plan[i].first, l.ss);
      Times(plan[i].last + 1, lastUsable + 1, l.ss);
      Times(plan[i].first, lastUsable + 1, l.ss);
    }
    assert l.primaryLength <= plan[0].first * l.ss;
    d := CarriedOutWhen(crc, d0, l, primary, c, isData, t, o, lastUsable, parts, plan);
    PlannedRoundTrip(crc, d0, l, primary, c, isData, t, o, lastUsable, parts, plan, d);
  }

  lemma SomePlanned(pl: P.Layout, t: P.Target, o: P.Choices, lastUsable: P.u64, parts: seq<P.Part>,
                    plan: seq<P.Planned>)
    requires 0 < pl.sectorSize < P.M && t.physicalSector < P.M && P.Promised(pl, t, o, lastUsable, parts, plan)
    ensures 0 < |plan| == |parts| && P.Placed(plan, lastUsable)
  {
    hide P.LowestStart, P.Fair;
  }

  lemma PlannedOf(l: DiskLayout, isData: Part -> bool, t: P.Target, o: P.Choices, lastUsable: P.u64, parts: seq<P.Part>,
                  plan: seq<P.Planned>)
    requires Plannable(l) && t.physicalSector < P.M && PlanFor(l, isData, t, o, lastUsable, parts, plan)
    ensures multiset(parts) == multiset(PlanLayout(l, isData).parts)
  {
    hide P.LowestStart, P.Placed, P.AllFair, P.LastUsable;
  }

  lemma BeforeLast(n: int, e: int, ss: nat)
    requires 0 <= e <= n
    ensures 0 <= (n - e) * ss == n * ss - e * ss
  {
    Times(0, n - e, ss);
  }

  // PlanFit and ApplyFit one after the other: a plan that is accepted is applied.
  method PlanAndApply(crc: Crc, l: DiskLayout, primary: seq<byte>, isData: Part -> bool, t: P.Target, o: P.Choices,
                      ghost d0: seq<byte>, ghost c: Captured)
    returns (fitted: P.Fitted, res: Option<Applied>)
    requires Capture(crc, d0, l, primary) && Readable(l, primary, c) && Plannable(l) && t.physicalSector < P.M
    ensures res.Some? <==> fitted.Plan?
    ensures fitted.Plan? ==>
              && PlanFor(l, isData, t, o, fitted.lastUsable, fitted.parts, fitted.planned)
              && |fitted.planned| == |fitted.parts| && t.size > 0
              && (forall i :: 0 <= i < |fitted.parts| ==> 0 <= fitted.parts[i].index < c.table.count)
              && res.value == Rewritten(crc, l, c, FitOf(t, fitted.lastUsable, fitted.parts, fitted.planned), primary)
  {
    hide ParseGpt, Capture, Readable, Rewritten, PlanFor, Applicable, Orderly, At, ArrayOf, MovesOf, InArray, P.Answers,
         PlanLayout, P.Promised, P.BadTarget, P.LastUsable, P.Quot, P.EnoughBytes, P.Placed, Plannable;
    LayoutSector(l, isData);
    fitted := P.PlanFit(PlanLayout(l, isData), t, o);
    res := None;
    if fitted.Plan? {
      assert PlanFor(l, isData, t, o, fitted.lastUsable, fitted.parts, fitted.planned) by {
        Accepted(l, isData, t, o, fitted);
      }
      PlannedSlots(crc, d0, l, primary, c, isData, t, o, fitted);
      var fit := Fit(MovesOf(fitted.parts, fitted.planned), fitted.lastUsable, t.size);
      ReadableApplies(l, fit, primary, c);
      ReadableSector(l, primary, c);
      res := ApplyFit(crc, l, fit, primary, l.backupLength);
    }
  }

  lemma LayoutSector(l: DiskLayout, isData: Part -> bool)
    requires Plannable(l)
    ensures PlanLayout(l, isData).sectorSize == l.ss && 0 < l.ss < P.M
  {
  }

  lemma PlannedSlots(crc: Crc, d: seq<byte>, l: DiskLayout, primary: seq<byte>, c: Captured, isData: Part -> bool,
                     t: P.Target, o: P.Choices, fitted: P.Fitted)
    requires Capture(crc, d, l, primary) && Readable(l, primary, c) && t.physicalSector < P.M && Plannable(l)
    requires fitted.Plan? && PlanFor(l, isData, t, o, fitted.lastUsable, fitted.parts, fitted.planned)
    ensures |fitted.planned| == |fitted.parts| && t.size > 0
    ensures forall i :: 0 <= i < |fitted.parts| ==> 0 <= fitted.parts[i].index < c.table.count
    ensures InArray(MovesOf(fitted.parts, fitted.planned), c.table.count)
  {
    hide ParseGpt, Capture, Readable, PlanFor, PlanLayout, Plannable;
    CapturePlannable(crc, d, l, primary, c);
    PlanFitsOn(crc, d, l, primary, c, isData, t, o, fitted.lastUsable, fitted.parts, fitted.planned);
    PlannedOf(l, isData, t, o, fitted.lastUsable, fitted.parts, fitted.planned);
    SamePartitions(l, isData, c.table.count, fitted.parts);
  }

  lemma Accepted(l: DiskLayout, isData: Part -> bool, t: P.Target, o: P.Choices, fitted: P.Fitted)
    requires Plannable(l) && t.physicalSector < P.M && fitted.Plan?
    requires var pl := PlanLayout(l, isData);
             && !P.BadTarget(pl, t) && P.LastUsable(pl, P.Quot(t.size, l.ss)) == Some(fitted.lastUsable)
             && P.Promised(pl, t, o, fitted.lastUsable, fitted.parts, fitted.planned)
    ensures PlanFor(l, isData, t, o, fitted.lastUsable, fitted.parts, fitted.planned)
  {
  }

  lemma ReadableSector(l: DiskLayout, primary: seq<byte>, c: Captured)
    requires Readable(l, primary, c)
    ensures GoodSectorSize(l.ss)
  {
  }
}
