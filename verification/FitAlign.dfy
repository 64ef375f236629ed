/** Where a fit plan's partitions begin (core/disklayout/fit.go): a partition that moved
starts on an alignment boundary, and after a realignment that fits every one does; and
where they end: on the drive, before the backup table. */
module FitAlign {
  import opened FitPlan
  import opened Options

  // The boundary in bytes: a mebibyte, or the drive's physical sector where that is larger.
  function Boundary(physicalSector: u64): u64 {
    if physicalSector > 0x10_0000 then physicalSector else 0x10_0000
  }

  // The sector size divides it, and it divides the range of sector numbers, as powers of two do.
  predicate Regular(ss: u64, physicalSector: u64) {
    && 0 < ss && 0x10_0000 % ss == 0 && M % Boundary(physicalSector) == 0
    && (physicalSector > 0x10_0000 ==> physicalSector % ss == 0)
  }

  ghost predicate OnBoundary(parts: seq<Part>, plan: seq<Planned>, align: u64) {
    && align > 0 && |plan| == |parts|
    && forall i :: 0 <= i < |parts| && plan[i].first != parts[i].first ==> plan[i].first % align == 0
  }

  // Divides the range of sector numbers.
  predicate Unit(align: u64) {
    align > 0 && M % align == 0
  }

  // ---- Rounding ----

  lemma Multiple(k: int, u: nat)
    requires u > 0
    ensures k * u % u == 0
  {
    var q, r := k * u / u, k * u % u;
    assert r == (k - q) * u;
    if k > q {
      MulMono(1, k - q, u);
    } else if k < q {
      MulMono(1, q - k, u);
    }
  }

  lemma Divides(x: nat, u: nat)
    requires u > 0 && x % u == 0
    ensures x == x / u * u
  {
  }

  lemma AlignsUp(x: u64, u: u64)
    requires Unit(u)
    ensures AlignUp(x, u) % u == 0
  {
    if x % u != 0 {
      var k := x / u + 1;
      Divides(M, u);
      assert x + u - x % u == k * u;
      Multiple(k, u);
      assert (k - M / u) * u == k * u - M;
      Multiple(k - M / u, u);
    }
  }

  lemma AlignsDown(x: u64, u: u64)
    requires u > 0
    ensures AlignDown(x, u) % u == 0
  {
    assert x - x % u == x / u * u;
    Multiple(x / u, u);
  }

  lemma Product(a: nat, b: nat, c: nat)
    requires a > 0 && b > 0 && c % (a * b) == 0
    ensures a * b > 0 && c % a == 0
  {
    var k := c / (a * b);
    Divides(c, a * b);
    assert k * (a * b) == k * b * a;
    Multiple(k * b, a);
  }

  lemma SameOrder(a: nat, b: nat, ss: nat)
    requires ss > 0 && a % ss == 0 && b % ss == 0
    ensures a > b ==> a / ss > b / ss
  {
    Divides(a, ss);
    Divides(b, ss);
    if a / ss <= b / ss {
      MulMono(a / ss, b / ss, ss);
    }
  }

  // The alignment unit is the boundary in sectors.
  lemma UnitIs(ss: u64, physicalSector: u64)
    requires Regular(ss, physicalSector)
    ensures var align := AlignUnit(ss, physicalSector);
            Unit(align) && align * ss == Boundary(physicalSector)
  {
    var align, b := AlignUnit(ss, physicalSector), Boundary(physicalSector);
    UnitIsQuotient(ss, physicalSector);
    Divides(b, ss);
    Product(align, ss, M);
  }

  lemma UnitIsQuotient(ss: u64, physicalSector: u64)
    requires Regular(ss, physicalSector)
    ensures var b := Boundary(physicalSector); b % ss == 0 && AlignUnit(ss, physicalSector) == b / ss
  {
    if physicalSector > 0x10_0000 {
      SameOrder(physicalSector, 0x10_0000, ss);
    } else {
      NotMore(physicalSector, 0x10_0000, ss);
    }
  }

  lemma NotMore(a: nat, b: nat, ss: nat)
    requires ss > 0 && a <= b
    ensures a / ss <= b / ss
  {
    if a / ss > b / ss {
      MulMono(b / ss + 1, a / ss, ss);
    }
  }

  // ---- Every step of planning ----

  lemma CapturedOn(parts: seq<Part>, align: u64)
    requires align > 0
    ensures OnBoundary(parts, Captured(parts), align)
  {
  }

  lemma TakenOn(parts: seq<Part>, plan: seq<Planned>, need: u64, align: u64, minimum: Part -> Option<u64>)
    requires OnBoundary(parts, plan, align)
    ensures OnBoundary(parts, Taken(parts, plan, need, align, minimum), align)
  {
    hide Given;
  }

  lemma LaidOn(parts: seq<Part>, plan: seq<Planned>, align: u64)
    requires OnBoundary(parts, plan, align) && Unit(align)
    ensures OnBoundary(parts, LaidAgain(parts, plan, align), align)
  {
    hide Unit, AlignUp, ShrunkBefore, Size;
    var after := LaidAgain(parts, plan, align);
    forall i | 0 <= i < |parts| && after[i].first != parts[i].first
      ensures after[i].first % align == 0
    {
      if i > 0 {
        AlignsUp(Add(Relaid(parts, plan, align, i - 1).last, 1), align);
      }
    }
  }

  lemma {:induction false} PassesOn(parts: seq<Part>, plan: seq<Planned>, need: u64, lastUsable: u64, align: u64,
                                    minimum: Part -> Option<u64>, pass: nat)
    requires OnBoundary(parts, plan, align) && Unit(align) && parts != [] && pass <= PASSES
    ensures OnBoundary(parts, ShrinkPasses(parts, plan, need, lastUsable, align, minimum, pass).plan, align)
    decreases PASSES - pass
  {
    assert |plan| == |parts|;
    hide Unit, OnBoundary, NeedAfter, Taken, Given, LaidAgain, Overrun, NothingInTheWay;
    if pass < PASSES && need > 0 {
      var taken := Taken(parts, plan, need, align, minimum);
      TakenOn(parts, plan, need, align, minimum);
      LaidOn(parts, taken, align);
      var laid := LaidAgain(parts, taken, align);
      PassesOn(parts, laid, Overrun(laid[|parts| - 1].last, lastUsable, align), lastUsable, align, minimum, pass + 1);
    }
  }

  lemma GrownOn(parts: seq<Part>, k: nat, lastUsable: u64, align: u64, moveTrailing: bool)
    requires k < |parts| && align > 0
    ensures OnBoundary(parts, Grown(parts, k, lastUsable, align, moveTrailing), align)
  {
    hide AlignDown, Size, PackedEnd, Growable;
    var plan := Grown(parts, k, lastUsable, align, moveTrailing);
    forall i | 0 <= i < |parts| && plan[i].first != parts[i].first
      ensures plan[i].first % align == 0
    {
      AlignsDown(Sub(Add(PackedEnd(parts, lastUsable, align, i + 1), 1), Size(parts[i].first, parts[i].last)), align);
    }
  }

  lemma ResizedOn(o: Choices, parts: seq<Part>, lastUsable: u64, align: u64, minimum: Part -> Option<u64>)
    requires parts != [] && Unit(align)
    ensures OnBoundary(parts, Resized(o, parts, lastUsable, align, minimum).plan, align)
  {
    hide OnBoundary, ShrinkPasses, Grown, Captured;
    var k, end := LastDataOf(parts, |parts|), parts[|parts| - 1].last;
    CapturedOn(parts, align);
    if lastUsable < end {
      PassesOn(parts, Captured(parts), Sub(end, lastUsable), lastUsable, align, minimum, 0);
    } else if o.grow && k.Some? && lastUsable > end {
      GrownOn(parts, k.value, lastUsable, align, o.moveTrailing);
    }
  }

  lemma RealignedOn(parts: seq<Part>, plan: seq<Planned>, firstUsable: u64, lastUsable: u64, align: u64)
    requires OnBoundary(parts, plan, align) && Unit(align) && parts != []
    ensures var after := RealignedPlan(parts, plan, firstUsable, lastUsable, align);
            && OnBoundary(parts, after, align)
            && (RealignFits(parts, plan, firstUsable, lastUsable, align) ==>
                  forall i :: 0 <= i < |parts| && !parts[i].logical ==> after[i].first % align == 0)
  {
    hide Unit, AlignUp, Size, RealignFrom, RealignFits;
    var after := RealignedPlan(parts, plan, firstUsable, lastUsable, align);
    forall i | 0 <= i < |parts|
      ensures after[i].first != parts[i].first ==> after[i].first % align == 0
      ensures RealignFits(parts, plan, firstUsable, lastUsable, align) && !parts[i].logical ==>
                after[i].first % align == 0
    {
      AlignsUp(RealignFrom(parts, plan, firstUsable, align, i), align);
    }
  }

  // ---- Every plan ----

  // Where the drive asked for a realignment and it fits.
  ghost predicate RealignTakes(l: Layout, t: Target, o: Choices, parts: seq<Part>, lastUsable: u64)
    requires 0 < l.sectorSize < M && t.physicalSector < M && parts != []
  {
    var align := AlignUnit(l.sectorSize, t.physicalSector);
    var resized := Resized(o, parts, lastUsable, align, Minimum(o, l.sectorSize, align)).plan;
    o.realign && RealignFits(parts, resized, l.firstUsable, lastUsable, align)
  }

  // In bytes from the start of the drive: whatever does not start where it was captured
  // starts on the boundary, and after a realignment that fits every non-logical
  // partition does.
  lemma StartsOnBoundary(l: Layout, t: Target, o: Choices, res: Fitted)
    requires l.sectorSize < M && t.physicalSector < M && Regular(l.sectorSize, t.physicalSector)
    requires Answers(l, t, o, res) && res.Plan?
    ensures res.parts != [] && |res.planned| == |res.parts|
    ensures var boundary := Boundary(t.physicalSector);
            forall i :: 0 <= i < |res.parts| ==>
              && (res.planned[i].first != res.parts[i].first ==> res.planned[i].first * l.sectorSize % boundary == 0)
              && (RealignTakes(l, t, o, res.parts, res.lastUsable) && !res.parts[i].logical ==>
                    res.planned[i].first * l.sectorSize % boundary == 0)
  {
    hide Unit, OnBoundary, Placed, Resized, RealignedPlan, RealignFits, AlignUnit, Minimum, LastUsable, BadTarget, Quot,
         Regular, Boundary;
    var parts: seq<Part> :| Decided(l, t, o, parts, res);
    var ss, align := l.sectorSize, AlignUnit(l.sectorSize, t.physicalSector);
    UnitIs(ss, t.physicalSector);
    ResizedOn(o, parts, res.lastUsable, align, Minimum(o, ss, align));
    var resized := Resized(o, parts, res.lastUsable, align, Minimum(o, ss, align)).plan;
    RealignedOn(parts, resized, l.firstUsable, res.lastUsable, align);
    assert OnBoundary(parts, res.planned, align);
    forall i | 0 <= i < |parts|
      ensures
        && (res.planned[i].first != parts[i].first ==>
              res.planned[i].first * ss % Boundary(t.physicalSector) == 0)
        && (RealignTakes(l, t, o, parts, res.lastUsable) && !parts[i].logical ==>
              res.planned[i].first * ss % Boundary(t.physicalSector) == 0)
    {
      OneOn(parts, res.planned, align, i);
      if res.planned[i].first % align == 0 {
        InBytes(res.planned[i].first, align, ss, Boundary(t.physicalSector));
      }
    }
  }

  lemma OneOn(parts: seq<Part>, plan: seq<Planned>, align: u64, i: nat)
    requires OnBoundary(parts, plan, align) && i < |parts|
    ensures align > 0 && |plan| == |parts| && (plan[i].first != parts[i].first ==> plan[i].first % align == 0)
  {
  }

  lemma InBytes(first: nat, align: nat, ss: nat, boundary: nat)
    requires align > 0 && align * ss == boundary && boundary > 0 && first % align == 0
    ensures first * ss % boundary == 0
  {
    var k := first / align;
    Divides(first, align);
    assert first * ss == k * boundary;
    Multiple(k, boundary);
  }

  // ---- The end of the drive ----

  lemma FewSectors(bytes: u64, ss: u64)
    requires ss > 1
    ensures Sectors(bytes, ss) < M / 2
  {
    var x := Add(bytes, ss - 1);
    NotAbove(x, ss);
    Halves(x / ss, ss, x);
  }

  lemma NotAbove(x: nat, ss: nat)
    requires ss > 0
    ensures x / ss * ss <= x
  {
  }

  lemma Halves(q: nat, ss: nat, x: nat)
    requires ss > 1 && q * ss <= x < M
    ensures q < M / 2
  {
    if q >= M / 2 {
      MulMono(2, ss, q);
    }
  }

  // A negative backup length with sectors of one byte: the arithmetic wraps.
  predicate Wraps(l: Layout) {
    l.gpt && l.sectorSize == 1 && -2 <= l.backupLength < 0
  }

  // Before the backup array and its header, in sectors and in bytes.
  lemma BehindLast(l: Layout, sectors: u64)
    requires 0 < l.sectorSize < M && 0 < sectors < M / 2 && LastUsable(l, sectors).Some?
    ensures var last := LastUsable(l, sectors).value;
            && (last < sectors <==> !Wraps(l)) && (!l.gpt ==> last == sectors - 1)
            && (l.gpt && l.backupLength >= l.sectorSize ==>
                  (last + 1) * l.sectorSize + l.backupLength <= sectors * l.sectorSize)
  {
    var ss, last := l.sectorSize, LastUsable(l, sectors).value;
    if l.gpt {
      var entries := Sub(ToU64(l.backupLength), ss);
      var n := Sectors(entries, ss);
      if ss > 1 {
        FewSectors(entries, ss);
      } else {
        assert n == entries;
      }
      if l.backupLength >= ss {
        RoundsUp(entries, ss);
        assert last + 2 + n == sectors;
        assert (last + 1) * ss + ss + n * ss == sectors * ss;
      }
    }
  }

  // Every partition ends on the drive, and on a GPT drive before room for the backup
  // table as it was captured.
  lemma EndsOnDrive(l: Layout, t: Target, o: Choices, res: Fitted)
    requires 0 < l.sectorSize < M && t.physicalSector < M && !Wraps(l)
    requires Answers(l, t, o, res) && res.Plan?
    ensures forall i :: 0 <= i < |res.planned| ==>
              && (res.planned[i].last + 1) * l.sectorSize <= t.size
              && (l.gpt && l.backupLength >= l.sectorSize ==>
                    (res.planned[i].last + 1) * l.sectorSize + l.backupLength <= t.size)
  {
    hide Resized, RealignedPlan, AlignUnit, Minimum, LastUsable;
    var parts: seq<Part> :| Decided(l, t, o, parts, res);
    var ss, sectors := l.sectorSize, Quot(t.size, l.sectorSize);
    TargetPositive(l, t);
    Divides(t.size, ss);
    assert sectors > 0;
    BehindLast(l, sectors);
    forall i | 0 <= i < |res.planned|
      ensures (res.planned[i].last + 1) * ss <= (res.lastUsable + 1) * ss <= sectors * ss
    {
      MulMono(res.planned[i].last + 1, res.lastUsable + 1, ss);
      MulMono(res.lastUsable + 1, sectors, ss);
    }
  }
}
