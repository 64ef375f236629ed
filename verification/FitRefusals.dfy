/** What it means when a layout is refused for lack of room (core/disklayout/fit.go). */
module FitRefusals {
  import opened Options
  import opened FitPlan

  // ---- Every layout ----

  // No partition can give anything.
  ghost predicate AtFloor(parts: seq<Part>, plan: seq<Planned>, align: u64, minimum: Part -> Option<u64>)
    requires |plan| == |parts|
  {
    forall i :: 0 <= i < |parts| ==> Allowance(parts[i], plan[i], align, minimum) == 0
  }

  lemma {:induction false} NobodyGives(parts: seq<Part>, plan: seq<Planned>, need: u64, align: u64,
                                       minimum: Part -> Option<u64>, i: nat)
    requires i <= |parts| == |plan| && need > 0
    ensures NeedAfter(parts, plan, need, align, minimum, i) == need <==>
            forall j :: i <= j < |parts| ==> Allowance(parts[j], plan[j], align, minimum) == 0
    decreases |parts| - i
  {
    hide Allowance, Given, NeedAfter;
    if i == |parts| {
      NeedStart(parts, plan, need, align, minimum);
    } else {
      NeedStep(parts, plan, need, align, minimum, i);
      NobodyGives(parts, plan, need, align, minimum, i + 1);
    }
  }

  // A pass comes to nothing exactly when every partition is at its floor; then it
  // changes nothing.
  lemma StuckExactly(parts: seq<Part>, plan: seq<Planned>, need: u64, align: u64, minimum: Part -> Option<u64>)
    requires |plan| == |parts| && need > 0
    ensures NeedAfter(parts, plan, need, align, minimum, 0) == need <==> AtFloor(parts, plan, align, minimum)
    ensures AtFloor(parts, plan, align, minimum) ==> Taken(parts, plan, need, align, minimum) == plan
  {
    hide Allowance, Given, NeedAfter;
    NobodyGives(parts, plan, need, align, minimum, 0);
    if AtFloor(parts, plan, align, minimum) {
      forall i | 0 <= i < |parts|
        ensures Given(parts, plan, need, align, minimum, i) == 0
      {
        NeedStep(parts, plan, need, align, minimum, i);
      }
    }
  }

  // How many passes are made.
  ghost function PassesUsed(parts: seq<Part>, plan: seq<Planned>, need: u64, lastUsable: u64, align: u64,
                            minimum: Part -> Option<u64>, pass: nat): nat
    requires |plan| == |parts| > 0 && pass <= PASSES
    decreases PASSES - pass
  {
    if pass == PASSES || need == 0 || NeedAfter(parts, plan, need, align, minimum, 0) == need then pass
    else
      var laid := LaidAgain(parts, Taken(parts, plan, need, align, minimum), align);
      PassesUsed(parts, laid, Overrun(laid[|parts| - 1].last, lastUsable, align), lastUsable, align, minimum, pass + 1)
  }

  lemma FlagsKept(parts: seq<Part>, plan: seq<Planned>, need: u64, align: u64, minimum: Part -> Option<u64>)
    requires |plan| == |parts|
    ensures var taken := Taken(parts, plan, need, align, minimum);
            && (NothingInTheWay(parts, taken) ==> NothingInTheWay(parts, plan))
            && (NothingInTheWay(parts, LaidAgain(parts, taken, align)) <==> NothingInTheWay(parts, taken))
  {
    hide Given, Relaid;
    var taken := Taken(parts, plan, need, align, minimum);
    var laid := LaidAgain(parts, taken, align);
    forall i | 0 <= i < |parts|
      ensures ShrunkBefore(plan, i) ==> ShrunkBefore(taken, i)
      ensures ShrunkBefore(laid, i) <==> ShrunkBefore(taken, i)
    {
      forall j | 0 <= j < i
        ensures (plan[j].shrink ==> taken[j].shrink) && laid[j].shrink == taken[j].shrink
      {
        assert laid[j] == Relaid(parts, taken, align, j);
      }
    }
  }

  lemma OverrunZero(end: u64, lastUsable: u64, align: u64)
    requires lastUsable >= align
    ensures Overrun(end, lastUsable, align) > 0 <==> end > lastUsable
  {
    if end > lastUsable {
      AlignKeeps(end, lastUsable, align);
    }
  }

  // What the plan that shrinking ends with says of its success, and why it fails.
  ghost predicate Explained(parts: seq<Part>, plan: seq<Planned>, r: Sized, passes: nat, lastUsable: u64, align: u64,
                            minimum: Part -> Option<u64>)
    requires |plan| == |r.plan| == |parts| > 0
  {
    && (r.ok ==> r.plan[|parts| - 1].last <= lastUsable)
    && (r.ok && NothingInTheWay(parts, plan) <==>
          r.plan[|parts| - 1].last <= lastUsable && NothingInTheWay(parts, r.plan))
    && (!r.ok ==> !NothingInTheWay(parts, r.plan) || AtFloor(parts, r.plan, align, minimum) || passes == PASSES)
  }

  lemma {:induction false} PassesExplained(parts: seq<Part>, plan: seq<Planned>, need: u64, lastUsable: u64, align: u64,
                                           minimum: Part -> Option<u64>, pass: nat)
    requires |plan| == |parts| > 0 && pass <= PASSES && lastUsable >= align
    requires need > 0 <==> plan[|parts| - 1].last > lastUsable
    ensures Explained(parts, plan, ShrinkPasses(parts, plan, need, lastUsable, align, minimum, pass),
                      PassesUsed(parts, plan, need, lastUsable, align, minimum, pass), lastUsable, align, minimum)
    decreases PASSES - pass
  {
    hide AtFloor, NothingInTheWay, LaidAgain, Taken, NeedAfter, Overrun;
    if pass < PASSES && need > 0 {
      StuckExactly(parts, plan, need, align, minimum);
      FlagsKept(parts, plan, need, align, minimum);
      var laid := LaidAgain(parts, Taken(parts, plan, need, align, minimum), align);
      var over := Overrun(laid[|parts| - 1].last, lastUsable, align);
      OverrunZero(laid[|parts| - 1].last, lastUsable, align);
      PassesExplained(parts, laid, over, lastUsable, align, minimum, pass + 1);
    }
  }

  // A target too small for the captured extents: shrinking succeeds exactly when the
  // tail ends up in time with no logical partition behind a shrunk one.  Where it
  // fails, every partition is at its floor, or a logical one is behind a shrunk one, or
  // all the passes were used.
  lemma ShrinkExplained(o: Choices, parts: seq<Part>, lastUsable: u64, align: u64, minimum: Part -> Option<u64>)
    requires parts != [] && align <= lastUsable < parts[|parts| - 1].last
    ensures var r := Resized(o, parts, lastUsable, align, minimum);
            var passes := PassesUsed(parts, FitPlan.Captured(parts), parts[|parts| - 1].last - lastUsable, lastUsable,
                                     align, minimum, 0);
            && (r.ok <==> r.plan[|parts| - 1].last <= lastUsable && NothingInTheWay(parts, r.plan))
            && (!r.ok ==> !NothingInTheWay(parts, r.plan) || AtFloor(parts, r.plan, align, minimum) || passes == PASSES)
  {
    hide AtFloor, ShrinkPasses, PassesUsed;
    var plan := FitPlan.Captured(parts);
    PassesExplained(parts, plan, parts[|parts| - 1].last - lastUsable, lastUsable, align, minimum, 0);
    assert NothingInTheWay(parts, plan);
  }

  // ---- Where nothing can give ----

  // The target fits the last captured partition exactly when it is accepted, whatever
  // gaps there are before it.
  lemma RigidLayout(l: Layout, t: Target, o: Choices, res: Fitted)
    requires 0 < l.sectorSize < M && t.physicalSector < M && l.parts != [] && Answers(l, t, o, res)
    requires !BadTarget(l, t) && LastUsable(l, Quot(t.size, l.sectorSize)).Some? && !o.grow && !o.realign
    requires Placed(FitPlan.Captured(l.parts), M - 1)
    requires var align := AlignUnit(l.sectorSize, t.physicalSector);
             AtFloor(l.parts, FitPlan.Captured(l.parts), align, Minimum(o, l.sectorSize, align))
    ensures res.Plan? <==> l.parts[|l.parts| - 1].last <= LastUsable(l, Quot(t.size, l.sectorSize)).value
  {
    hide AlignUnit, Minimum, BadTarget, LastUsable, Quot, AtFloor, Answers, InOrder;
    var parts := Ordered(l, t, o, res);
    var lastUsable, end := LastUsable(l, Quot(t.size, l.sectorSize)).value, parts[|parts| - 1].last;
    var align := AlignUnit(l.sectorSize, t.physicalSector);
    var minimum := Minimum(o, l.sectorSize, align);
    if lastUsable < end {
      StuckExactly(parts, FitPlan.Captured(parts), Sub(end, lastUsable), align, minimum);
    } else {
      PlacedBy(FitPlan.Captured(parts), lastUsable);
    }
  }

  // Partitions that begin at different sectors are planned in their captured order.
  lemma Ordered(l: Layout, t: Target, o: Choices, res: Fitted) returns (parts: seq<Part>)
    requires 0 < l.sectorSize < M && t.physicalSector < M && l.parts != [] && Answers(l, t, o, res)
    requires !BadTarget(l, t) && LastUsable(l, Quot(t.size, l.sectorSize)).Some?
    requires Placed(FitPlan.Captured(l.parts), M - 1)
    ensures parts == l.parts && Decided(l, t, o, parts, res)
  {
    hide AlignUnit, Minimum, BadTarget, LastUsable, Quot, Verdict, Placed;
    parts :| Decided(l, t, o, parts, res);
    PlacedIncreasing(l.parts, M - 1);
    SortedAlready(parts, l.parts);
  }

  // The last partition's end bounds them all.
  lemma PlacedBy(plan: seq<Planned>, lastUsable: u64)
    requires plan != [] && Placed(plan, M - 1) && plan[|plan| - 1].last <= lastUsable
    ensures Placed(plan, lastUsable)
  {
    forall i | 0 <= i < |plan|
      ensures plan[i].last <= lastUsable
    {
      assert i < |plan| - 1 ==> plan[i].last < plan[|plan| - 1].first <= plan[|plan| - 1].last;
    }
  }

  // ---- Layouts on alignment boundaries ----

  function SizeOf(p: Part): int {
    p.last - p.first + 1
  }

  // Primary partitions in order, each beginning on a boundary, none of which may be
  // shrunk to nothing.
  ghost predicate Regular(parts: seq<Part>, align: u64, minimum: Part -> Option<u64>) {
    && parts != [] && align > 0 && parts[|parts| - 1].last + align < M
    && (forall i :: 0 <= i < |parts| ==>
          && !parts[i].logical && parts[i].first <= parts[i].last && parts[i].first % align == 0
          && Floor(minimum, align, parts[i]) > 0)
    && (forall i, j :: 0 <= i < j < |parts| ==> parts[i].last < parts[j].first)
  }

  // The least size shrinking may leave a partition.
  function Least(p: Part, align: u64, minimum: Part -> Option<u64>): int {
    if p.data && SizeOf(p) > Floor(minimum, align, p) then Floor(minimum, align, p) else SizeOf(p)
  }

  ghost function LeastSizes(parts: seq<Part>, align: u64, minimum: Part -> Option<u64>): seq<int> {
    seq(|parts|, i requires 0 <= i < |parts| => Least(parts[i], align, minimum))
  }

  // The next boundary.
  function Up(x: int, unit: nat): int
    requires unit > 0
  {
    if x % unit == 0 then x else x + unit - x % unit
  }

  lemma UpFacts(x: int, unit: nat)
    requires unit > 0
    ensures x <= Up(x, unit) < x + unit && Up(x, unit) % unit == 0
  {
    var q, r := x / unit, x % unit;
    assert x == q * unit + r;
    if r != 0 {
      Multiple(q + 1, unit);
      assert Up(x, unit) == (q + 1) * unit;
    }
  }

  lemma Multiple(k: int, unit: nat)
    requires unit > 0
    ensures (k * unit) % unit == 0
  {
    var q, r := (k * unit) / unit, (k * unit) % unit;
    assert k * unit == q * unit + r;
    assert r == (k - q) * unit;
    Times(k - q, unit);
  }

  lemma {:induction false} Times(k: int, unit: nat)
    requires unit > 0
    ensures k > 0 ==> k * unit >= unit
    ensures k < 0 ==> k * unit + unit <= 0
    decreases if k > 0 then k else -k
  {
    if k > 1 {
      Times(k - 1, unit);
      assert k * unit == (k - 1) * unit + unit;
    } else if k < -1 {
      Times(k + 1, unit);
      assert k * unit == (k + 1) * unit - unit;
    }
  }

  // No boundary lies between.
  lemma UpLeast(x: int, y: int, unit: nat)
    requires unit > 0 && x <= y && y % unit == 0
    ensures Up(x, unit) <= y
  {
    UpFacts(x, unit);
    var a, b := Up(x, unit) / unit, y / unit;
    assert Up(x, unit) == a * unit && y == b * unit;
    assert (a - b) * unit == a * unit - b * unit;
    Times(a - b, unit);
  }

  lemma UpOrder(x: int, y: int, unit: nat)
    requires unit > 0 && x <= y
    ensures Up(x, unit) <= Up(y, unit)
  {
    UpFacts(y, unit);
    UpLeast(x, Up(y, unit), unit);
  }

  lemma UpShift(x: int, k: int, unit: nat)
    requires unit > 0 && k % unit == 0
    ensures Up(x - k, unit) <= Up(x, unit) - k
  {
    UpFacts(x, unit);
    var a, b := Up(x, unit) / unit, k / unit;
    assert Up(x, unit) - k == (a - b) * unit;
    Multiple(a - b, unit);
    UpLeast(x - k, Up(x, unit) - k, unit);
  }

  lemma AlignUpIs(x: u64, unit: u64)
    requires unit > 0 && x + unit < M
    ensures AlignUp(x, unit) == Up(x, unit)
  {
  }

  // ---- Sizes and the places they give ----

  ghost predicate Within(parts: seq<Part>, sizes: seq<int>, align: u64, minimum: Part -> Option<u64>) {
    |sizes| == |parts| &&
    forall i :: 0 <= i < |parts| ==> Least(parts[i], align, minimum) <= sizes[i] <= SizeOf(parts[i])
  }

  // The partitions before i have their captured sizes.
  ghost predicate Kept(parts: seq<Part>, sizes: seq<int>, i: nat)
    requires i <= |parts| == |sizes|
  {
    forall j :: 0 <= j < i ==> sizes[j] == SizeOf(parts[j])
  }

  // Where partition i begins: where it was until one before it is smaller, and behind
  // that one on the first boundary.
  ghost function Start(parts: seq<Part>, sizes: seq<int>, align: u64, i: nat): int
    requires i < |parts| == |sizes| && align > 0
  {
    if i == 0 || Kept(parts, sizes, i) then parts[i].first
    else Up(Start(parts, sizes, align, i - 1) + sizes[i - 1], align)
  }

  ghost function EndOf(parts: seq<Part>, sizes: seq<int>, align: u64): int
    requires 0 < |parts| == |sizes| && align > 0
  {
    Start(parts, sizes, align, |parts| - 1) + sizes[|parts| - 1] - 1
  }

  lemma {:induction false} StartFacts(parts: seq<Part>, sizes: seq<int>, align: u64, minimum: Part -> Option<u64>,
                                      i: nat)
    requires Regular(parts, align, minimum) && Within(parts, sizes, align, minimum) && i < |parts|
    ensures 0 <= Start(parts, sizes, align, i) <= parts[i].first && Start(parts, sizes, align, i) % align == 0
    ensures i > 0 ==> Start(parts, sizes, align, i) >= Up(Start(parts, sizes, align, i - 1) + sizes[i - 1], align)
    ensures 0 < sizes[i] && Start(parts, sizes, align, i) + sizes[i] <= parts[i].last + 1
  {
    hide Up, Kept;
    if i > 0 {
      StartFacts(parts, sizes, align, minimum, i - 1);
      var x := Start(parts, sizes, align, i - 1) + sizes[i - 1];
      UpFacts(x, align);
      UpLeast(x, parts[i].first, align);
    }
  }

  // Smaller partitions, earlier places.
  lemma {:induction false} StartOrdered(parts: seq<Part>, sizes: seq<int>, larger: seq<int>, align: u64,
                                        minimum: Part -> Option<u64>, i: nat)
    requires Regular(parts, align, minimum) && i < |parts| == |sizes| == |larger| && align > 0
    requires Within(parts, sizes, align, minimum) && Within(parts, larger, align, minimum)
    requires forall j :: 0 <= j < |parts| ==> sizes[j] <= larger[j]
    ensures Start(parts, sizes, align, i) <= Start(parts, larger, align, i)
  {
    hide Up, Start, Regular, Within;
    StartFacts(parts, sizes, align, minimum, i);
    if i > 0 && !Kept(parts, larger, i) {
      NotBoth(parts, sizes, larger, align, minimum, i);
      NotKept(parts, sizes, align, i);
      NotKept(parts, larger, align, i);
      StartOrdered(parts, sizes, larger, align, minimum, i - 1);
      UpOrder(Start(parts, sizes, align, i - 1) + sizes[i - 1], Start(parts, larger, align, i - 1) + larger[i - 1],
              align);
    } else {
      KeptStart(parts, larger, align, i);
    }
  }

  lemma NotBoth(parts: seq<Part>, sizes: seq<int>, larger: seq<int>, align: u64, minimum: Part -> Option<u64>, i: nat)
    requires Within(parts, larger, align, minimum) && i <= |parts| == |sizes| && !Kept(parts, larger, i)
    requires forall j :: 0 <= j < |parts| ==> sizes[j] <= larger[j]
    ensures !Kept(parts, sizes, i)
  {
    hide Least;
  }

  lemma KeptStart(parts: seq<Part>, sizes: seq<int>, align: u64, i: nat)
    requires i < |parts| == |sizes| && align > 0 && (i == 0 || Kept(parts, sizes, i))
    ensures Start(parts, sizes, align, i) == parts[i].first
  {
  }

  lemma EndOrdered(parts: seq<Part>, sizes: seq<int>, larger: seq<int>, align: u64, minimum: Part -> Option<u64>)
    requires Regular(parts, align, minimum)
    requires Within(parts, sizes, align, minimum) && Within(parts, larger, align, minimum)
    requires forall j :: 0 <= j < |parts| ==> sizes[j] <= larger[j]
    ensures EndOf(parts, sizes, align) <= EndOf(parts, larger, align)
  {
    hide Start;
    StartOrdered(parts, sizes, larger, align, minimum, |parts| - 1);
  }

  // A whole number of units taken from one partition brings the tail forward by as much.
  lemma {:induction false} OneGives(parts: seq<Part>, sizes: seq<int>, after: seq<int>, align: u64,
                                    minimum: Part -> Option<u64>, g: nat, need: int, i: nat)
    requires Regular(parts, align, minimum) && g < i < |parts| && align > 0 && need > 0 && need % align == 0
    requires |sizes| == |after| == |parts|
    requires Within(parts, sizes, align, minimum) && Within(parts, after, align, minimum)
    requires after == sizes[g := sizes[g] - need]
    ensures Start(parts, after, align, i) + need <= Start(parts, sizes, align, i)
  {
    hide Up, Start, Regular, Within;
    StartFacts(parts, sizes, align, minimum, i);
    SizeBounds(parts, sizes, align, minimum, g);
    Behind(parts, after, align, g, i);
    var x := Start(parts, sizes, align, i - 1) + sizes[i - 1];
    UpShift(x, need, align);
    if i - 1 == g {
      SameStart(parts, sizes, after, align, g);
    } else {
      OneGives(parts, sizes, after, align, minimum, g, need, i - 1);
      UpOrder(Start(parts, after, align, i - 1) + after[i - 1], x - need, align);
    }
  }

  lemma SizeBounds(parts: seq<Part>, sizes: seq<int>, align: u64, minimum: Part -> Option<u64>, i: nat)
    requires Within(parts, sizes, align, minimum) && i < |parts|
    ensures Least(parts[i], align, minimum) <= sizes[i] <= SizeOf(parts[i])
  {
  }

  lemma Behind(parts: seq<Part>, sizes: seq<int>, align: u64, g: nat, i: nat)
    requires g < i < |parts| == |sizes| && align > 0 && sizes[g] != SizeOf(parts[g])
    ensures Start(parts, sizes, align, i) == Up(Start(parts, sizes, align, i - 1) + sizes[i - 1], align)
  {
    hide Up;
  }

  // A place depends on the sizes before it.
  lemma {:induction false} SameStart(parts: seq<Part>, sizes: seq<int>, after: seq<int>, align: u64, i: nat)
    requires i < |parts| == |sizes| == |after| && align > 0 && forall j :: 0 <= j < i ==> sizes[j] == after[j]
    ensures Start(parts, sizes, align, i) == Start(parts, after, align, i)
  {
    hide Up;
    if i > 0 {
      SameStart(parts, sizes, after, align, i - 1);
    }
  }

  // ---- Plans as sizes ----

  // The plan gives each partition its size, at the place that follows.
  ghost predicate PlanAt(parts: seq<Part>, q: Planned, sizes: seq<int>, align: u64, i: nat)
    requires i < |parts| == |sizes| && align > 0
  {
    && q.first == Start(parts, sizes, align, i) && q.last == q.first + sizes[i] - 1
    && (q.shrink <==> sizes[i] < SizeOf(parts[i]))
  }

  ghost predicate Tidy(parts: seq<Part>, plan: seq<Planned>, sizes: seq<int>, align: u64,
                       minimum: Part -> Option<u64>)
  {
    && Within(parts, sizes, align, minimum) && |plan| == |parts| && align > 0
    && forall i :: 0 <= i < |parts| ==> PlanAt(parts, plan[i], sizes, align, i)
  }

  ghost function Captures(parts: seq<Part>): seq<int> {
    seq(|parts|, i requires 0 <= i < |parts| => SizeOf(parts[i]))
  }

  lemma CapturedTidy(parts: seq<Part>, align: u64, minimum: Part -> Option<u64>)
    requires Regular(parts, align, minimum)
    ensures Tidy(parts, FitPlan.Captured(parts), Captures(parts), align, minimum)
  {
    hide Up;
    var sizes := Captures(parts);
    forall i | 0 <= i < |parts|
      ensures PlanAt(parts, FitPlan.Captured(parts)[i], sizes, align, i)
    {
      assert Kept(parts, sizes, i);
    }
  }

  // What a partition of a tidy plan can give.
  lemma TidyAllowance(parts: seq<Part>, plan: seq<Planned>, sizes: seq<int>, align: u64, minimum: Part -> Option<u64>,
                      i: nat)
    requires Regular(parts, align, minimum) && Tidy(parts, plan, sizes, align, minimum) && i < |parts|
    ensures Size(plan[i].first, plan[i].last) == sizes[i]
    ensures Allowance(parts[i], plan[i], align, minimum) == sizes[i] - Least(parts[i], align, minimum)
  {
    hide Start;
    StartFacts(parts, sizes, align, minimum, i);
    assert PlanAt(parts, plan[i], sizes, align, i);
  }

  ghost function Reduced(parts: seq<Part>, plan: seq<Planned>, sizes: seq<int>, need: u64, align: u64,
                         minimum: Part -> Option<u64>): seq<int>
    requires |plan| == |sizes| == |parts|
  {
    seq(|parts|, i requires 0 <= i < |parts| => sizes[i] - Given(parts, plan, need, align, minimum, i))
  }

  lemma ReducedWithin(parts: seq<Part>, plan: seq<Planned>, sizes: seq<int>, need: u64, align: u64,
                      minimum: Part -> Option<u64>)
    requires Regular(parts, align, minimum) && Tidy(parts, plan, sizes, align, minimum)
    ensures Within(parts, Reduced(parts, plan, sizes, need, align, minimum), align, minimum)
  {
    hide Start, Least, Allowance, Given, NeedAfter, Regular, PlanAt;
    forall i | 0 <= i < |parts|
      ensures Least(parts[i], align, minimum) <= sizes[i] - Given(parts, plan, need, align, minimum, i) <=
              SizeOf(parts[i])
    {
      NeedStep(parts, plan, need, align, minimum, i);
      TidyAllowance(parts, plan, sizes, align, minimum, i);
    }
  }

  lemma TidyLength(parts: seq<Part>, plan: seq<Planned>, sizes: seq<int>, align: u64, minimum: Part -> Option<u64>)
    requires Tidy(parts, plan, sizes, align, minimum)
    ensures |plan| == |sizes| == |parts| && align > 0 && Within(parts, sizes, align, minimum)
    ensures forall i :: 0 <= i < |parts| ==> PlanAt(parts, plan[i], sizes, align, i)
  {
  }

  lemma IsTidy(parts: seq<Part>, plan: seq<Planned>, sizes: seq<int>, align: u64, minimum: Part -> Option<u64>)
    requires Within(parts, sizes, align, minimum) && |plan| == |sizes| == |parts| && align > 0
    requires forall i :: 0 <= i < |parts| ==> PlanAt(parts, plan[i], sizes, align, i)
    ensures Tidy(parts, plan, sizes, align, minimum)
  {
    hide PlanAt, Within;
  }

  // q is partition i of the plan with these sizes, cut down to the size after.
  ghost predicate CutAt(parts: seq<Part>, q: Planned, sizes: seq<int>, after: seq<int>, align: u64, i: nat)
    requires i < |parts| == |sizes| == |after| && align > 0
  {
    && q.first == Start(parts, sizes, align, i) && q.last == q.first + after[i] - 1
    && after[i] <= sizes[i] <= SizeOf(parts[i]) && (q.shrink <==> after[i] < SizeOf(parts[i]))
  }

  ghost predicate Cut(parts: seq<Part>, plan: seq<Planned>, sizes: seq<int>, after: seq<int>, align: u64) {
    && |plan| == |sizes| == |after| == |parts| && align > 0
    && forall i :: 0 <= i < |parts| ==> CutAt(parts, plan[i], sizes, after, align, i)
  }

  lemma TakenCut(parts: seq<Part>, plan: seq<Planned>, sizes: seq<int>, need: u64, align: u64,
                 minimum: Part -> Option<u64>)
    requires Regular(parts, align, minimum) && Tidy(parts, plan, sizes, align, minimum)
    ensures Cut(parts, Taken(parts, plan, need, align, minimum), sizes,
                Reduced(parts, plan, sizes, need, align, minimum), align)
  {
    hide Start, Least, Allowance, Given, NeedAfter;
    forall i | 0 <= i < |parts|
      ensures CutAt(parts, Shrunk(plan[i], Given(parts, plan, need, align, minimum, i)), sizes,
                    Reduced(parts, plan, sizes, need, align, minimum), align, i)
    {
      NeedStep(parts, plan, need, align, minimum, i);
      TidyAllowance(parts, plan, sizes, align, minimum, i);
      StartFacts(parts, sizes, align, minimum, i);
      StartFacts(parts, LeastSizes(parts, align, minimum), align, minimum, i);
      assert PlanAt(parts, plan[i], sizes, align, i);
    }
  }

  lemma ShrunkIsNotKept(parts: seq<Part>, plan: seq<Planned>, sizes: seq<int>, after: seq<int>, align: u64, i: nat)
    requires Cut(parts, plan, sizes, after, align) && i < |parts|
    ensures ShrunkBefore(plan, i) <==> !Kept(parts, after, i)
  {
    hide Start, SizeOf;
    forall j | 0 <= j < i
      ensures plan[j].shrink <==> after[j] != SizeOf(parts[j])
    {
      assert CutAt(parts, plan[j], sizes, after, align, j);
    }
  }

  lemma StaysPut(parts: seq<Part>, plan: seq<Planned>, sizes: seq<int>, after: seq<int>, align: u64, i: nat)
    requires Cut(parts, plan, sizes, after, align) && i < |parts| && (i == 0 || Kept(parts, after, i))
    ensures PlanAt(parts, plan[i], after, align, i)
  {
    hide Start, SizeOf;
    forall j | 0 <= j < i
      ensures sizes[j] == after[j]
    {
      assert CutAt(parts, plan[j], sizes, after, align, j);
    }
    SameStart(parts, sizes, after, align, i);
    assert CutAt(parts, plan[i], sizes, after, align, i);
  }

  // The place behind the one before it.
  lemma NextPlace(parts: seq<Part>, after: seq<int>, align: u64, minimum: Part -> Option<u64>, prev: Planned,
                  q: Planned, i: nat)
    requires Regular(parts, align, minimum) && Within(parts, after, align, minimum) && 0 < i < |parts| == |after|
    requires align > 0 && PlanAt(parts, prev, after, align, i - 1) && !Kept(parts, after, i)
    requires q.last == q.first + after[i] - 1 && (q.shrink <==> after[i] < SizeOf(parts[i]))
    ensures var first := AlignUp(Add(prev.last, 1), align);
            PlanAt(parts, if first == q.first then q else MovedTo(q, first), after, align, i)
  {
    hide Least, Up, Regular, Within, Kept, AlignUp, SizeOf, MovedTo, Start;
    StartFacts(parts, after, align, minimum, i - 1);
    StartFacts(parts, after, align, minimum, i);
    EndsEarly(parts, align, minimum, i - 1);
    EndsEarly(parts, align, minimum, i);
    AlignUpIs(prev.last + 1, align);
    NotKept(parts, after, align, i);
    MovesTo(q, Start(parts, after, align, i), after[i]);
  }

  lemma NotKept(parts: seq<Part>, sizes: seq<int>, align: u64, i: nat)
    requires 0 < i < |parts| == |sizes| && align > 0 && !Kept(parts, sizes, i)
    ensures Start(parts, sizes, align, i) == Up(Start(parts, sizes, align, i - 1) + sizes[i - 1], align)
  {
    hide Up, Kept;
  }

  lemma MovesTo(q: Planned, first: u64, size: int)
    requires 0 < size && q.last == q.first + size - 1 && first + size < M
    ensures MovedTo(q, first) == q.(first := first, last := first + size - 1, moved := true)
  {
  }

  lemma EndsEarly(parts: seq<Part>, align: u64, minimum: Part -> Option<u64>, i: nat)
    requires Regular(parts, align, minimum) && i < |parts|
    ensures parts[i].last + align < M && (i < |parts| - 1 ==> parts[i].last + 1 + align < M)
  {
    assert i < |parts| - 1 ==> parts[i].last < parts[|parts| - 1].first;
  }

  lemma RelaidIs(parts: seq<Part>, plan: seq<Planned>, align: u64, i: nat)
    requires i < |parts| == |plan| && !parts[i].logical
    ensures i == 0 || !ShrunkBefore(plan, i) ==> Relaid(parts, plan, align, i) == plan[i]
    ensures i > 0 && ShrunkBefore(plan, i) ==>
              var first := AlignUp(Add(Relaid(parts, plan, align, i - 1).last, 1), align);
              Relaid(parts, plan, align, i) == if first == plan[i].first then plan[i] else MovedTo(plan[i], first)
  {
    hide ShrunkBefore, AlignUp, MovedTo;
  }

  lemma {:induction false} RelaidAt(parts: seq<Part>, plan: seq<Planned>, sizes: seq<int>, after: seq<int>, align: u64,
                                    minimum: Part -> Option<u64>, i: nat)
    requires Regular(parts, align, minimum) && Within(parts, after, align, minimum)
    requires Cut(parts, plan, sizes, after, align) && i < |parts|
    ensures PlanAt(parts, Relaid(parts, plan, align, i), after, align, i)
  {
    hide Within, Least, Up, Start, ShrunkBefore, Kept, AlignUp, SizeOf, MovedTo, Relaid, Add;
    ShrunkIsNotKept(parts, plan, sizes, after, align, i);
    RelaidIs(parts, plan, align, i);
    if i == 0 || Kept(parts, after, i) {
      StaysPut(parts, plan, sizes, after, align, i);
    } else {
      RelaidAt(parts, plan, sizes, after, align, minimum, i - 1);
      assert CutAt(parts, plan[i], sizes, after, align, i);
      NextPlace(parts, after, align, minimum, Relaid(parts, plan, align, i - 1), plan[i], i);
    }
  }

  // One pass: the sizes go down by what is given, and places follow.
  lemma PassTidy(parts: seq<Part>, plan: seq<Planned>, sizes: seq<int>, need: u64, align: u64,
                 minimum: Part -> Option<u64>)
    requires Regular(parts, align, minimum) && Tidy(parts, plan, sizes, align, minimum)
    ensures Tidy(parts, LaidAgain(parts, Taken(parts, plan, need, align, minimum), align),
                 Reduced(parts, plan, sizes, need, align, minimum), align, minimum)
  {
    hide Regular, Tidy, Within, Given, Relaid, PlanAt, Taken, Reduced;
    ReducedWithin(parts, plan, sizes, need, align, minimum);
    TidyLength(parts, plan, sizes, align, minimum);
    TakenCut(parts, plan, sizes, need, align, minimum);
    var taken := Taken(parts, plan, need, align, minimum);
    var after := Reduced(parts, plan, sizes, need, align, minimum);
    forall i | 0 <= i < |parts|
      ensures PlanAt(parts, Relaid(parts, taken, align, i), after, align, i)
    {
      RelaidAt(parts, taken, sizes, after, align, minimum, i);
    }
    IsTidy(parts, LaidAgain(parts, taken, align), after, align, minimum);
  }

  lemma {:induction false} TidyGap(parts: seq<Part>, plan: seq<Planned>, sizes: seq<int>, align: u64,
                                   minimum: Part -> Option<u64>, i: nat, j: nat)
    requires Regular(parts, align, minimum) && Tidy(parts, plan, sizes, align, minimum) && i <= j < |parts|
    ensures plan[i].first <= plan[i].last <= plan[j].last && (i < j ==> plan[i].last < plan[j].first)
    decreases j - i
  {
    hide Regular, Tidy, Start, Up, SizeOf;
    TidyLength(parts, plan, sizes, align, minimum);
    StartFacts(parts, sizes, align, minimum, j);
    assert PlanAt(parts, plan[j], sizes, align, j);
    if i < j {
      TidyGap(parts, plan, sizes, align, minimum, i, j - 1);
      StartFacts(parts, sizes, align, minimum, j - 1);
      assert PlanAt(parts, plan[j - 1], sizes, align, j - 1);
      UpFacts(Start(parts, sizes, align, j - 1) + sizes[j - 1], align);
    }
  }

  lemma TidyPlaced(parts: seq<Part>, plan: seq<Planned>, sizes: seq<int>, lastUsable: u64, align: u64,
                   minimum: Part -> Option<u64>)
    requires Regular(parts, align, minimum) && Tidy(parts, plan, sizes, align, minimum)
    requires EndOf(parts, sizes, align) <= lastUsable
    ensures Placed(plan, lastUsable)
  {
    hide Tidy, Start;
    TidyLength(parts, plan, sizes, align, minimum);
    var n := |parts| - 1;
    assert PlanAt(parts, plan[n], sizes, align, n);
    forall i, j | 0 <= i < j < |plan|
      ensures plan[i].last < plan[j].first
    {
      TidyGap(parts, plan, sizes, align, minimum, i, j);
    }
    forall i | 0 <= i < |plan|
      ensures plan[i].first <= plan[i].last <= lastUsable
    {
      TidyGap(parts, plan, sizes, align, minimum, i, n);
    }
  }

  // ---- The passes ----

  // The partitions that can give something.
  ghost function Givers(parts: seq<Part>, plan: seq<Planned>, align: u64, minimum: Part -> Option<u64>): set<nat>
    requires |plan| == |parts|
  {
    set i | 0 <= i < |parts| && Allowance(parts[i], plan[i], align, minimum) > 0
  }

  lemma {:induction false} LastGiver(parts: seq<Part>, plan: seq<Planned>, align: u64, minimum: Part -> Option<u64>,
                                     n: nat) returns (g: nat)
    requires n <= |parts| == |plan|
    requires exists i :: 0 <= i < n && Allowance(parts[i], plan[i], align, minimum) > 0
    ensures g < n && Allowance(parts[g], plan[g], align, minimum) > 0
    ensures forall j :: g < j < n ==> Allowance(parts[j], plan[j], align, minimum) == 0
  {
    hide Allowance;
    if Allowance(parts[n - 1], plan[n - 1], align, minimum) > 0 {
      g := n - 1;
    } else {
      g := LastGiver(parts, plan, align, minimum, n - 1);
    }
  }

  // The last partition that can give gives first.
  lemma FirstToGive(parts: seq<Part>, plan: seq<Planned>, need: u64, align: u64, minimum: Part -> Option<u64>, g: nat)
    requires g < |parts| == |plan| && need > 0
    requires forall j :: g < j < |parts| ==> Allowance(parts[j], plan[j], align, minimum) == 0
    ensures forall j :: g < j < |parts| ==> Given(parts, plan, need, align, minimum, j) == 0
    ensures var most := Allowance(parts[g], plan[g], align, minimum);
            && (most < need ==> Given(parts, plan, need, align, minimum, g) == most)
            && (most >= need ==>
                  && Given(parts, plan, need, align, minimum, g) == need
                  && forall j :: 0 <= j < g ==> Given(parts, plan, need, align, minimum, j) == 0)
  {
    hide Allowance, Given, NeedAfter;
    NobodyGives(parts, plan, need, align, minimum, g + 1);
    NeedStep(parts, plan, need, align, minimum, g);
    forall j | g < j < |parts|
      ensures Given(parts, plan, need, align, minimum, j) == 0
    {
      NeedStep(parts, plan, need, align, minimum, j);
    }
    if Allowance(parts[g], plan[g], align, minimum) >= need {
      NothingLeft(parts, plan, need, align, minimum, g);
    }
  }

  // One partition gives it all.
  lemma OneSuffices(parts: seq<Part>, sizes: seq<int>, after: seq<int>, align: u64, minimum: Part -> Option<u64>,
                    g: nat, need: int)
    requires Regular(parts, align, minimum) && g < |parts| && align > 0 && need > 0 && need % align == 0
    requires |sizes| == |after| == |parts| && after == sizes[g := sizes[g] - need]
    requires Within(parts, sizes, align, minimum) && Within(parts, after, align, minimum)
    ensures EndOf(parts, after, align) + need <= EndOf(parts, sizes, align)
  {
    hide Regular, Within, Start;
    if g < |parts| - 1 {
      OneGives(parts, sizes, after, align, minimum, g, need, |parts| - 1);
    } else {
      SameStart(parts, sizes, after, align, g);
    }
  }

  // What is left to give never grows, and a pass that cannot get all it needs from one
  // partition leaves that one at its floor.
  lemma FewerGivers(parts: seq<Part>, plan: seq<Planned>, sizes: seq<int>, laid: seq<Planned>, after: seq<int>,
                    align: u64, minimum: Part -> Option<u64>)
    requires Regular(parts, align, minimum)
    requires Tidy(parts, plan, sizes, align, minimum) && Tidy(parts, laid, after, align, minimum)
    requires |sizes| == |after| == |parts| && forall j :: 0 <= j < |parts| ==> after[j] <= sizes[j]
    ensures |plan| == |laid| == |parts|
    ensures Givers(parts, laid, align, minimum) <= Givers(parts, plan, align, minimum)
    ensures forall g :: 0 <= g < |parts| && after[g] == Least(parts[g], align, minimum) ==>
              g !in Givers(parts, laid, align, minimum)
  {
    hide Regular, Tidy, Allowance, Least;
    TidyLength(parts, plan, sizes, align, minimum);
    TidyLength(parts, laid, after, align, minimum);
    forall j | 0 <= j < |parts|
      ensures Allowance(parts[j], laid[j], align, minimum) == after[j] - Least(parts[j], align, minimum)
      ensures Allowance(parts[j], plan[j], align, minimum) == sizes[j] - Least(parts[j], align, minimum)
    {
      TidyAllowance(parts, plan, sizes, align, minimum, j);
      TidyAllowance(parts, laid, after, align, minimum, j);
    }
  }

  lemma Smaller(a: set<nat>, b: set<nat>, g: nat)
    requires a <= b
    ensures |a| <= |b| && (g in b && g !in a ==> |a| < |b|)
  {
    assert |b| == |a| + |b - a|;
    assert g in b && g !in a ==> g in b - a;
  }

  // A pass for a whole number of units finishes, or leaves one partition fewer to give.
  lemma PassProgress(parts: seq<Part>, plan: seq<Planned>, sizes: seq<int>, need: u64, align: u64,
                     minimum: Part -> Option<u64>)
    requires Regular(parts, align, minimum) && Tidy(parts, plan, sizes, align, minimum) && need > 0
    requires |plan| == |sizes| == |parts| && align > 0 && !AtFloor(parts, plan, align, minimum)
    ensures var after := Reduced(parts, plan, sizes, need, align, minimum);
            var laid := LaidAgain(parts, Taken(parts, plan, need, align, minimum), align);
            var now, then' := |Givers(parts, laid, align, minimum)|, |Givers(parts, plan, align, minimum)|;
            now <= then' && (need % align == 0 ==>
                               now < then' || EndOf(parts, after, align) + need <= EndOf(parts, sizes, align))
  {
    hide Regular, Tidy, Within, Allowance, Least, Start, Taken, LaidAgain, Givers, Reduced, EndOf;
    var after := Reduced(parts, plan, sizes, need, align, minimum);
    var laid := LaidAgain(parts, Taken(parts, plan, need, align, minimum), align);
    TidyLength(parts, plan, sizes, align, minimum);
    PassTidy(parts, plan, sizes, need, align, minimum);
    TidyLength(parts, laid, after, align, minimum);
    var g := LastGiver(parts, plan, align, minimum, |parts|);
    ReducedBy(parts, plan, sizes, need, align, minimum, g);
    FewerGivers(parts, plan, sizes, laid, after, align, minimum);
    Smaller(Givers(parts, laid, align, minimum), Givers(parts, plan, align, minimum), g);
    IsGiver(parts, plan, align, minimum, g);
    if Allowance(parts[g], plan[g], align, minimum) >= need && need % align == 0 {
      OneSuffices(parts, sizes, after, align, minimum, g, need);
    }
  }

  lemma ReducedBy(parts: seq<Part>, plan: seq<Planned>, sizes: seq<int>, need: u64, align: u64,
                  minimum: Part -> Option<u64>, g: nat)
    requires Regular(parts, align, minimum) && Tidy(parts, plan, sizes, align, minimum) && need > 0
    requires g < |parts| == |plan| == |sizes|
    requires forall j :: g < j < |parts| ==> Allowance(parts[j], plan[j], align, minimum) == 0
    ensures var after := Reduced(parts, plan, sizes, need, align, minimum);
            && (forall j :: 0 <= j < |parts| ==> after[j] <= sizes[j])
            && (if Allowance(parts[g], plan[g], align, minimum) >= need then after == sizes[g := sizes[g] - need]
                else after[g] == Least(parts[g], align, minimum))
  {
    hide Regular, Tidy, Allowance, Least, Given;
    FirstToGive(parts, plan, need, align, minimum, g);
    TidyAllowance(parts, plan, sizes, align, minimum, g);
  }

  lemma IsGiver(parts: seq<Part>, plan: seq<Planned>, align: u64, minimum: Part -> Option<u64>, g: nat)
    requires g < |parts| == |plan|
    ensures g in Givers(parts, plan, align, minimum) <==> Allowance(parts[g], plan[g], align, minimum) > 0
  {
    hide Allowance;
  }

  // Where the tail ends with every partition that can give at its floor.
  ghost function FloorEnd(parts: seq<Part>, align: u64, minimum: Part -> Option<u64>): int
    requires parts != [] && align > 0
  {
    EndOf(parts, LeastSizes(parts, align, minimum), align)
  }

  lemma LeastWithin(parts: seq<Part>, align: u64, minimum: Part -> Option<u64>)
    ensures Within(parts, LeastSizes(parts, align, minimum), align, minimum)
  {
  }

  lemma FloorIsLeast(parts: seq<Part>, plan: seq<Planned>, sizes: seq<int>, align: u64, minimum: Part -> Option<u64>)
    requires Regular(parts, align, minimum) && Tidy(parts, plan, sizes, align, minimum)
    ensures |plan| == |sizes| == |parts| > 0 && plan[|parts| - 1].last == EndOf(parts, sizes, align)
    ensures FloorEnd(parts, align, minimum) <= EndOf(parts, sizes, align) <= parts[|parts| - 1].last
    ensures AtFloor(parts, plan, align, minimum) ==> FloorEnd(parts, align, minimum) == EndOf(parts, sizes, align)
  {
    hide Tidy, Within, Start, Least, Allowance;
    TidyLength(parts, plan, sizes, align, minimum);
    assert PlanAt(parts, plan[|parts| - 1], sizes, align, |parts| - 1);
    StartFacts(parts, sizes, align, minimum, |parts| - 1);
    var least := LeastSizes(parts, align, minimum);
    LeastWithin(parts, align, minimum);
    forall i | 0 <= i < |parts|
      ensures least[i] <= sizes[i] && (AtFloor(parts, plan, align, minimum) ==> least[i] == sizes[i])
    {
      TidyAllowance(parts, plan, sizes, align, minimum, i);
      SizeBounds(parts, sizes, align, minimum, i);
    }
    EndOrdered(parts, least, sizes, align, minimum);
    assert AtFloor(parts, plan, align, minimum) ==> least == sizes;
  }

  lemma OverrunIs(end: u64, lastUsable: u64, align: u64)
    requires align > 0 && end + align < M
    ensures var need := Overrun(end, lastUsable, align);
            need % align == 0 && end - lastUsable <= need && (need > 0 <==> end > lastUsable)
  {
    hide Up, AlignUp;
    if end > lastUsable {
      AlignUpIs(end - lastUsable, align);
      UpFacts(end - lastUsable, align);
    }
  }

  ghost predicate Settled(parts: seq<Part>, plan: seq<Planned>, sizes: seq<int>, lastUsable: u64, align: u64,
                          minimum: Part -> Option<u64>)
    requires parts != []
  {
    Tidy(parts, plan, sizes, align, minimum) && EndOf(parts, sizes, align) <= lastUsable
  }

  ghost predicate Decides(r: Sized, parts: seq<Part>, lastUsable: u64, align: u64, minimum: Part -> Option<u64>)
    requires parts != [] && align > 0
  {
    && (r.ok <==> FloorEnd(parts, align, minimum) <= lastUsable)
    && (r.ok ==> exists sizes :: Settled(parts, r.plan, sizes, lastUsable, align, minimum))
  }

  lemma NobodyLeft(parts: seq<Part>, plan: seq<Planned>, align: u64, minimum: Part -> Option<u64>)
    requires |plan| == |parts|
    ensures |Givers(parts, plan, align, minimum)| == 0 ==> AtFloor(parts, plan, align, minimum)
  {
    hide Allowance, Givers;
    forall g | 0 <= g < |parts|
      ensures g in Givers(parts, plan, align, minimum) <==> Allowance(parts[g], plan[g], align, minimum) > 0
    {
      IsGiver(parts, plan, align, minimum, g);
    }
  }

  lemma NoLogical(parts: seq<Part>, plan: seq<Planned>, align: u64, minimum: Part -> Option<u64>)
    requires Regular(parts, align, minimum)
    ensures NothingInTheWay(parts, plan)
  {
  }

  // From the second pass on: as long as there are at least as many passes left as
  // partitions to give, the tail ends in time exactly when it can.
  lemma {:induction false} PassesDecide(parts: seq<Part>, plan: seq<Planned>, sizes: seq<int>, lastUsable: u64,
                                        align: u64, minimum: Part -> Option<u64>, pass: nat)
    requires Regular(parts, align, minimum) && Tidy(parts, plan, sizes, align, minimum) && pass <= PASSES
    requires |plan| == |sizes| == |parts| > 0
    requires plan[|parts| - 1].last > lastUsable ==> |Givers(parts, plan, align, minimum)| + pass <= PASSES
    ensures align > 0 && Decides(ShrinkPasses(parts, plan, Overrun(plan[|parts| - 1].last, lastUsable, align),
                                              lastUsable, align, minimum, pass), parts, lastUsable, align, minimum)
    decreases PASSES - pass
  {
    hide Tidy, Within, EndOf, Givers, AtFloor, FloorEnd, Overrun, NeedAfter, Taken, LaidAgain, NothingInTheWay, Placed,
         Reduced, Regular;
    TidyLength(parts, plan, sizes, align, minimum);
    FloorIsLeast(parts, plan, sizes, align, minimum);
    EndsEarly(parts, align, minimum, |parts| - 1);
    var end := plan[|parts| - 1].last;
    var need := Overrun(end, lastUsable, align);
    OverrunIs(end, lastUsable, align);
    if need == 0 {
      assert Settled(parts, plan, sizes, lastUsable, align, minimum);
    } else {
      NobodyLeft(parts, plan, align, minimum);
      StuckExactly(parts, plan, need, align, minimum);
      if pass < PASSES && !AtFloor(parts, plan, align, minimum) {
        var taken := Taken(parts, plan, need, align, minimum);
        PassTidy(parts, plan, sizes, need, align, minimum);
        var laid, after := LaidAgain(parts, taken, align), Reduced(parts, plan, sizes, need, align, minimum);
        TidyLength(parts, laid, after, align, minimum);
        FloorIsLeast(parts, laid, after, align, minimum);
        PassProgress(parts, plan, sizes, need, align, minimum);
        NoLogical(parts, taken, align, minimum);
        PassesDecide(parts, laid, after, lastUsable, align, minimum, pass + 1);
      }
    }
  }

  // The first pass asks for what is missing, the later ones for whole units.
  lemma ShrinkDecides(o: Choices, parts: seq<Part>, lastUsable: u64, align: u64, minimum: Part -> Option<u64>)
    requires Regular(parts, align, minimum) && lastUsable < parts[|parts| - 1].last
    requires |Givers(parts, FitPlan.Captured(parts), align, minimum)| < PASSES
    ensures Decides(Resized(o, parts, lastUsable, align, minimum), parts, lastUsable, align, minimum)
  {
    hide Tidy, Within, EndOf, Givers, AtFloor, FloorEnd, Overrun, NeedAfter, Taken, LaidAgain, NothingInTheWay, Placed,
         Reduced;
    var plan, sizes, need := FitPlan.Captured(parts), Captures(parts), parts[|parts| - 1].last - lastUsable;
    CapturedTidy(parts, align, minimum);
    FloorIsLeast(parts, plan, sizes, align, minimum);
    StuckExactly(parts, plan, need, align, minimum);
    if !AtFloor(parts, plan, align, minimum) {
      var taken := Taken(parts, plan, need, align, minimum);
      PassTidy(parts, plan, sizes, need, align, minimum);
      var laid, after := LaidAgain(parts, taken, align), Reduced(parts, plan, sizes, need, align, minimum);
      TidyLength(parts, laid, after, align, minimum);
      PassProgress(parts, plan, sizes, need, align, minimum);
      NoLogical(parts, taken, align, minimum);
      PassesDecide(parts, laid, after, lastUsable, align, minimum, 1);
    }
  }

  // ---- When a refusal is right ----

  // The setting: a usable target that is too small for the captured extents.
  ghost predicate Cramped(l: Layout, t: Target, o: Choices, lastUsable: u64) {
    && 0 < l.sectorSize < M && t.physicalSector < M && l.parts != [] && !BadTarget(l, t)
    && LastUsable(l, Quot(t.size, l.sectorSize)) == Some(lastUsable) && lastUsable < l.parts[|l.parts| - 1].last
    && var align := AlignUnit(l.sectorSize, t.physicalSector);
       var minimum := Minimum(o, l.sectorSize, align);
       && Regular(l.parts, align, minimum)
       && |Givers(l.parts, FitPlan.Captured(l.parts), align, minimum)| < PASSES
  }

  lemma RegularPlaced(parts: seq<Part>, align: u64, minimum: Part -> Option<u64>)
    requires Regular(parts, align, minimum)
    ensures align > 0 && Placed(FitPlan.Captured(parts), M - 1)
  {
  }

  // A tidy plan that ends in time still does when it is realigned, if there is room at
  // the front.
  lemma {:induction false} RealignAt(parts: seq<Part>, plan: seq<Planned>, sizes: seq<int>, firstUsable: u64,
                                     align: u64, minimum: Part -> Option<u64>, i: nat)
    requires Regular(parts, align, minimum) && Tidy(parts, plan, sizes, align, minimum) && i < |parts|
    requires firstUsable <= parts[0].first && |plan| == |sizes| == |parts| && align > 0
    ensures RealignFrom(parts, plan, firstUsable, align, i) <= Start(parts, sizes, align, i)
    ensures var q := Realigned(parts, plan, firstUsable, align, i);
            && RealignFrom(parts, plan, firstUsable, align, i) <= q.first <= q.last
            && q.last + 1 <= Start(parts, sizes, align, i) + sizes[i]
  {
    hide Up, AlignUp, Tidy, Start, SizeOf, MovedTo, Within, Regular, Add;
    TidyLength(parts, plan, sizes, align, minimum);
    StartFacts(parts, sizes, align, minimum, i);
    EndsEarly(parts, align, minimum, i);
    NoLogicals(parts, align, minimum);
    if i == 0 {
      KeptStart(parts, sizes, align, 0);
      AlignUpIs(firstUsable, align);
      UpFacts(firstUsable, align);
      UpLeast(firstUsable, parts[0].first, align);
    } else {
      RealignAt(parts, plan, sizes, firstUsable, align, minimum, i - 1);
      StartFacts(parts, sizes, align, minimum, i - 1);
      EndsEarly(parts, align, minimum, i - 1);
      UpFacts(Start(parts, sizes, align, i - 1) + sizes[i - 1], align);
      NoCarry(Realigned(parts, plan, firstUsable, align, i - 1).last);
    }
    var pos := RealignFrom(parts, plan, firstUsable, align, i);
    AlignUpIs(pos, align);
    UpFacts(pos, align);
    UpLeast(pos, Start(parts, sizes, align, i), align);
    assert PlanAt(parts, plan[i], sizes, align, i);
    MovesTo(plan[i], Up(pos, align), sizes[i]);
  }

  lemma NoCarry(x: u64)
    requires x + 1 < M
    ensures Add(x, 1) == x + 1
  {
  }

  lemma NoLogicals(parts: seq<Part>, align: u64, minimum: Part -> Option<u64>)
    requires Regular(parts, align, minimum)
    ensures forall i :: 0 <= i < |parts| ==> !parts[i].logical
    ensures parts != [] && parts[0].first % align == 0
  {
  }

  lemma {:induction false} RealignGap(parts: seq<Part>, plan: seq<Planned>, sizes: seq<int>, firstUsable: u64,
                                      align: u64, minimum: Part -> Option<u64>, i: nat, j: nat)
    requires Regular(parts, align, minimum) && Tidy(parts, plan, sizes, align, minimum) && i <= j < |parts|
    requires firstUsable <= parts[0].first && |plan| == |sizes| == |parts| && align > 0
    ensures var q, r := Realigned(parts, plan, firstUsable, align, i), Realigned(parts, plan, firstUsable, align, j);
            q.first <= q.last <= r.last && (i < j ==> q.last < r.first)
    decreases j - i
  {
    hide AlignUp, Tidy, Start, MovedTo, Regular, Realigned, Add;
    TidyLength(parts, plan, sizes, align, minimum);
    RealignAt(parts, plan, sizes, firstUsable, align, minimum, i);
    RealignAt(parts, plan, sizes, firstUsable, align, minimum, j);
    if i < j {
      RealignGap(parts, plan, sizes, firstUsable, align, minimum, i, j - 1);
      NoLogicals(parts, align, minimum);
      RealignAt(parts, plan, sizes, firstUsable, align, minimum, j - 1);
      StartFacts(parts, sizes, align, minimum, j - 1);
      EndsEarly(parts, align, minimum, j - 1);
      NoCarry(Realigned(parts, plan, firstUsable, align, j - 1).last);
    }
  }

  lemma RealignPlaced(parts: seq<Part>, plan: seq<Planned>, sizes: seq<int>, firstUsable: u64, lastUsable: u64,
                      align: u64, minimum: Part -> Option<u64>)
    requires Regular(parts, align, minimum) && Tidy(parts, plan, sizes, align, minimum)
    requires firstUsable <= parts[0].first && EndOf(parts, sizes, align) <= lastUsable
    ensures |plan| == |parts| > 0 && Placed(RealignedPlan(parts, plan, firstUsable, lastUsable, align), lastUsable)
  {
    hide Tidy, Start, Realigned, Undone;
    TidyLength(parts, plan, sizes, align, minimum);
    RealignAt(parts, plan, sizes, firstUsable, align, minimum, |parts| - 1);
    forall i, j | 0 <= i < j < |parts|
      ensures Realigned(parts, plan, firstUsable, align, i).last < Realigned(parts, plan, firstUsable, align, j).first
    {
      RealignGap(parts, plan, sizes, firstUsable, align, minimum, i, j);
    }
    forall i | 0 <= i < |parts|
      ensures var q := Realigned(parts, plan, firstUsable, align, i); q.first <= q.last <= lastUsable
    {
      RealignGap(parts, plan, sizes, firstUsable, align, minimum, i, |parts| - 1);
    }
  }

  // A cramped target is accepted exactly when the tail would end in time with every
  // partition at its floor.  Realigning changes nothing where the captured layout begins
  // in the usable area, and saves none that is refused where it does not.
  lemma AcceptedExactly(l: Layout, t: Target, o: Choices, lastUsable: u64, res: Fitted)
    requires Cramped(l, t, o, lastUsable) && Answers(l, t, o, res)
    ensures var align := AlignUnit(l.sectorSize, t.physicalSector);
            var minimum := Minimum(o, l.sectorSize, align);
            && align > 0
            && (res.Plan? ==> FloorEnd(l.parts, align, minimum) <= lastUsable)
            && (!o.realign || l.firstUsable <= l.parts[0].first ==>
                  (res.Plan? <==> FloorEnd(l.parts, align, minimum) <= lastUsable))
            && (res.Plan? || res.Refused?)
  {
    hide AlignUnit, Minimum, BadTarget, LastUsable, Quot, Answers, InOrder, Givers, FloorEnd, Regular, Resized,
         RealignedPlan, Tidy, EndOf, Placed;
    var align := AlignUnit(l.sectorSize, t.physicalSector);
    var minimum := Minimum(o, l.sectorSize, align);
    RegularPlaced(l.parts, align, minimum);
    var parts := Ordered(l, t, o, res);
    ShrinkDecides(o, parts, lastUsable, align, minimum);
    var r := Resized(o, parts, lastUsable, align, minimum);
    if r.ok {
      var sizes :| Settled(parts, r.plan, sizes, lastUsable, align, minimum);
      TidyPlaced(parts, r.plan, sizes, lastUsable, align, minimum);
      if l.firstUsable <= parts[0].first {
        RealignPlaced(parts, r.plan, sizes, l.firstUsable, lastUsable, align, minimum);
      }
    }
  }

  // A plan by the planner's own rules: fair, in order, on boundaries, from where the
  // captured layout begins to the last usable sector, with nothing below its floor.
  ghost predicate Fitting(parts: seq<Part>, plan: seq<Planned>, lastUsable: u64, align: u64,
                          minimum: Part -> Option<u64>)
    requires parts != [] && align > 0
  {
    && AllFair(parts, plan, minimum) && Placed(plan, lastUsable) && plan[0].first >= parts[0].first
    && forall i :: 0 <= i < |parts| ==>
         plan[i].first % align == 0 && Size(plan[i].first, plan[i].last) >= Least(parts[i], align, minimum)
  }

  // Everything at its floor and no gap left but for alignment.
  ghost function TightStart(parts: seq<Part>, align: u64, minimum: Part -> Option<u64>, i: nat): int
    requires i < |parts| && align > 0
  {
    if i == 0 then parts[0].first
    else Up(TightStart(parts, align, minimum, i - 1) + Least(parts[i - 1], align, minimum), align)
  }

  ghost function TightEnd(parts: seq<Part>, align: u64, minimum: Part -> Option<u64>): int
    requires parts != [] && align > 0
  {
    TightStart(parts, align, minimum, |parts| - 1) + Least(parts[|parts| - 1], align, minimum) - 1
  }

  lemma {:induction false} TightFacts(parts: seq<Part>, align: u64, minimum: Part -> Option<u64>, i: nat)
    requires Regular(parts, align, minimum) && i < |parts|
    ensures align > 0 && TightStart(parts, align, minimum, i) % align == 0
    ensures 0 <= TightStart(parts, align, minimum, i) <= parts[i].first
    ensures 0 < Least(parts[i], align, minimum) <= SizeOf(parts[i])
    ensures i > 0 ==> TightStart(parts, align, minimum, i) >=
                      TightStart(parts, align, minimum, i - 1) + Least(parts[i - 1], align, minimum)
  {
    hide Up;
    if i > 0 {
      TightFacts(parts, align, minimum, i - 1);
      var x := TightStart(parts, align, minimum, i - 1) + Least(parts[i - 1], align, minimum);
      UpFacts(x, align);
      UpLeast(x, parts[i].first, align);
    }
  }

  // No such plan begins a partition earlier.
  lemma {:induction false} NoneEarlier(parts: seq<Part>, plan: seq<Planned>, lastUsable: u64, align: u64,
                                       minimum: Part -> Option<u64>, i: nat)
    requires align > 0 && i < |parts| && Fitting(parts, plan, lastUsable, align, minimum)
    ensures TightStart(parts, align, minimum, i) <= plan[i].first
    ensures plan[i].last - plan[i].first + 1 >= Least(parts[i], align, minimum)
  {
    hide Up, Least, Fair;
    if i > 0 {
      NoneEarlier(parts, plan, lastUsable, align, minimum, i - 1);
      assert plan[i - 1].last < plan[i].first;
      UpLeast(TightStart(parts, align, minimum, i - 1) + Least(parts[i - 1], align, minimum), plan[i].first, align);
    }
  }

  ghost function TightPart(parts: seq<Part>, align: u64, minimum: Part -> Option<u64>, i: nat): Planned
    requires Regular(parts, align, minimum) && i < |parts|
  {
    TightFacts(parts, align, minimum, i);
    var first, size := TightStart(parts, align, minimum, i), Least(parts[i], align, minimum);
    Planned(first, first + size - 1, size < SizeOf(parts[i]), false, first != parts[i].first)
  }

  lemma TightFair(parts: seq<Part>, align: u64, minimum: Part -> Option<u64>, i: nat)
    requires Regular(parts, align, minimum) && i < |parts|
    ensures var q := TightPart(parts, align, minimum, i);
            Fair(parts[i], q, minimum(parts[i])) && Size(q.first, q.last) == Least(parts[i], align, minimum)
  {
    hide TightStart;
    TightFacts(parts, align, minimum, i);
    EndsEarly(parts, align, minimum, i);
  }

  lemma {:induction false} TightGap(parts: seq<Part>, align: u64, minimum: Part -> Option<u64>, i: nat, j: nat)
    requires Regular(parts, align, minimum) && i <= j < |parts|
    ensures var q, r := TightPart(parts, align, minimum, i), TightPart(parts, align, minimum, j);
            q.first <= q.last <= r.last && (i < j ==> q.last < r.first)
    decreases j - i
  {
    hide TightStart, Least, Regular, SizeOf;
    TightFacts(parts, align, minimum, i);
    TightFacts(parts, align, minimum, j);
    if i < j {
      TightGap(parts, align, minimum, i, j - 1);
      TightFacts(parts, align, minimum, j - 1);
    }
  }

  // There is such a plan exactly when the tight one ends in time.
  lemma FitsExactly(parts: seq<Part>, lastUsable: u64, align: u64, minimum: Part -> Option<u64>)
    requires Regular(parts, align, minimum)
    ensures (exists plan :: Fitting(parts, plan, lastUsable, align, minimum)) <==>
            TightEnd(parts, align, minimum) <= lastUsable
  {
    hide TightStart, Least, Fair, Size;
    var n := |parts| - 1;
    if TightEnd(parts, align, minimum) <= lastUsable {
      var plan := seq(|parts|, i requires 0 <= i < |parts| => TightPart(parts, align, minimum, i));
      forall i | 0 <= i < |parts|
        ensures Fair(parts[i], plan[i], minimum(parts[i]))
        ensures plan[i].first % align == 0 && Size(plan[i].first, plan[i].last) >= Least(parts[i], align, minimum)
        ensures plan[i].first <= plan[i].last <= lastUsable
      {
        TightFair(parts, align, minimum, i);
        TightFacts(parts, align, minimum, i);
        TightGap(parts, align, minimum, i, n);
      }
      forall i, j | 0 <= i < j < |parts|
        ensures plan[i].last < plan[j].first
      {
        TightGap(parts, align, minimum, i, j);
      }
      TightFirst(parts, align, minimum);
      assert Fitting(parts, plan, lastUsable, align, minimum);
    }
    if plan: seq<Planned> :| Fitting(parts, plan, lastUsable, align, minimum) {
      NoneEarlier(parts, plan, lastUsable, align, minimum, n);
      assert plan[n].last <= lastUsable;
    }
  }

  lemma TightFirst(parts: seq<Part>, align: u64, minimum: Part -> Option<u64>)
    requires parts != [] && align > 0
    ensures TightStart(parts, align, minimum, 0) == parts[0].first
  {
  }

  // A cramped target is refused rightly exactly when the layout at its floors, gaps
  // before the first giver kept, ends in time, or does not even without gaps.
  lemma RightlyRefused(l: Layout, t: Target, o: Choices, lastUsable: u64, res: Fitted)
    requires Cramped(l, t, o, lastUsable) && Answers(l, t, o, res)
    requires !o.realign || l.firstUsable <= l.parts[0].first
    ensures var align := AlignUnit(l.sectorSize, t.physicalSector);
            var minimum := Minimum(o, l.sectorSize, align);
            && align > 0
            && ((res.Refused? ==> !exists plan :: Fitting(l.parts, plan, lastUsable, align, minimum)) <==>
                FloorEnd(l.parts, align, minimum) <= lastUsable || TightEnd(l.parts, align, minimum) > lastUsable)
  {
    hide AlignUnit, Minimum, BadTarget, LastUsable, Quot, Answers, Givers, FloorEnd, Regular, TightEnd, Fitting;
    AcceptedExactly(l, t, o, lastUsable, res);
    var align := AlignUnit(l.sectorSize, t.physicalSector);
    FitsExactly(l.parts, lastUsable, align, Minimum(o, l.sectorSize, align));
  }

  // A refusal that is not: a data partition at its floor, a gap, and a system partition
  // that would fit if it were moved into it.
  method GapNotClosed() returns (l: Layout, t: Target, o: Choices, res: Fitted, plan: seq<Planned>)
    ensures Cramped(l, t, o, 59966) && Answers(l, t, o, res) && res.Refused?
    ensures Fitting(l.parts, plan, 59966, 2048, Minimum(o, 512, 2048))
  {
    hide Answers, Fitting, Regular, AtFloor, Placed, Givers, Minimum, Quot, LastUsable, AlignUnit;
    l := Layout(true, 512, 16896, 34, [Part(0, true, false, 2048, 4095), Part(1, false, false, 102400, 104447)]);
    t := Target(30720000, 512, 512);
    o := Choices(false, false, false, p => None);
    plan := [Planned(2048, 4095, false, false, false), Planned(4096, 6143, false, false, true)];
    GapTarget(l);
    NoMinimum(o);
    GapRegular(l.parts, Minimum(o, 512, 2048), plan);
    NoGivers(l.parts, 2048, Minimum(o, 512, 2048));
    RegularPlaced(l.parts, 2048, Minimum(o, 512, 2048));
    res := PlanFit(l, t, o);
    RigidLayout(l, t, o, res);
  }

  lemma GapTarget(l: Layout)
    requires l.gpt && l.sectorSize == 512 && l.backupLength == 16896
    ensures LastUsable(l, Quot(30720000, 512)) == Some(59966) && AlignUnit(512, 512) == 2048
  {
    assert Quot(30720000, 512) == 60000 && Sectors(16384, 512) == 32 && Quot(0x10_0000, 512) == 2048;
  }

  lemma NoMinimum(o: Choices)
    requires forall p :: o.minBytes(p).None?
    ensures forall p :: Minimum(o, 512, 2048)(p).None?
  {
  }

  lemma GapRegular(parts: seq<Part>, minimum: Part -> Option<u64>, plan: seq<Planned>)
    requires parts == [Part(0, true, false, 2048, 4095), Part(1, false, false, 102400, 104447)]
    requires plan == [Planned(2048, 4095, false, false, false), Planned(4096, 6143, false, false, true)]
    requires forall p :: minimum(p).None?
    ensures Regular(parts, 2048, minimum) && AtFloor(parts, FitPlan.Captured(parts), 2048, minimum)
    ensures Fitting(parts, plan, 59966, 2048, minimum)
  {
  }

  lemma NoGivers(parts: seq<Part>, align: u64, minimum: Part -> Option<u64>)
    requires AtFloor(parts, FitPlan.Captured(parts), align, minimum)
    ensures |Givers(parts, FitPlan.Captured(parts), align, minimum)| == 0
  {
    assert Givers(parts, FitPlan.Captured(parts), align, minimum) == {};
  }
}
