/** Fitting a captured partition layout onto another drive (core/disklayout/fit.go).

Sector numbers are 64-bit and wrap.  Nothing below relies on them not wrapping:
what a plan promises holds of every plan that is not refused. */
module FitPlan {
  import opened Options
  import opened Sorting

  const M := 0x1_0000_0000_0000_0000
  type u64 = x: nat | x < M

  function Add(a: u64, b: u64): u64 {
    if a + b < M then a + b else a + b - M
  }

  function Sub(a: u64, b: u64): u64 {
    if a >= b then a - b else a - b + M
  }

  // A captured partition.  data: its filesystem may be resized; logical: it lives
  // in an MBR extended container.
  datatype Part = Part(index: int, data: bool, logical: bool, first: u64, last: u64)

  datatype Planned = Planned(first: u64, last: u64, shrink: bool, grow: bool, moved: bool)

  // The sectors from first to last, as the source counts them.
  function Size(first: u64, last: u64): u64 {
    Add(Sub(last, first), 1)
  }

  function AlignUp(lba: u64, unit: u64): u64 {
    if unit == 0 || lba % unit == 0 then lba else Sub(Add(lba, unit), lba % unit)
  }

  function AlignDown(lba: u64, unit: u64): u64 {
    if unit == 0 then lba else lba - lba % unit
  }

  // ---- What every step keeps of one partition ----

  // minimum: the least number of sectors the partition's filesystem is known to need.
  ghost predicate Fair(p: Part, q: Planned, minimum: Option<u64>) {
    && (!q.moved ==> q.first == p.first)
    && (!q.shrink && !q.grow ==> Size(q.first, q.last) == Size(p.first, p.last))
    && (q.shrink || q.grow ==> p.data && !p.logical)
    && (p.logical ==> q.first == p.first && q.last == p.last)
    && (q.shrink ==> Size(q.first, q.last) < Size(p.first, p.last) && !q.grow)
    && (q.grow ==> Extended(p, Size(q.first, q.last)))
    && (q.shrink && minimum.Some? ==> Size(q.first, q.last) >= minimum.value)
  }

  // The captured size, or that up to a later end.
  ghost predicate Extended(p: Part, size: u64) {
    size == Size(p.first, p.last) || exists end: u64 :: end > p.last && size == Size(p.first, end)
  }

  function Unmoved(p: Part): Planned {
    Planned(p.first, p.last, false, false, false)
  }

  function MovedTo(q: Planned, first: u64): Planned {
    q.(first := first, last := Sub(Add(first, Size(q.first, q.last)), 1), moved := true)
  }

  lemma MoveKeepsSize(q: Planned, first: u64)
    ensures Size(first, MovedTo(q, first).last) == Size(q.first, q.last)
  {
  }

  lemma MoveIsFair(p: Part, q: Planned, minimum: Option<u64>, first: u64)
    requires Fair(p, q, minimum) && !p.logical
    ensures Fair(p, MovedTo(q, first), minimum)
  {
    hide Size;
    MoveKeepsSize(q, first);
  }

  lemma ShrinkSize(q: Planned, take: u64)
    requires take <= Size(q.first, q.last)
    ensures Size(q.first, Sub(q.last, take)) == Size(q.first, q.last) - take
  {
  }

  lemma ShrinkIsFair(p: Part, q: Planned, minimum: Option<u64>, take: u64)
    requires Fair(p, q, minimum) && p.data && !p.logical && !q.grow && 0 < take <= Size(q.first, q.last)
    requires minimum.Some? ==> Size(q.first, q.last) - take >= minimum.value
    ensures Fair(p, q.(last := Sub(q.last, take), shrink := true), minimum)
  {
    assert Size(q.first, Sub(q.last, take)) == Size(q.first, q.last) - take;
  }

  ghost predicate AllFair(parts: seq<Part>, plan: seq<Planned>, minimum: Part -> Option<u64>) {
    |plan| == |parts| && forall i :: 0 <= i < |parts| ==> Fair(parts[i], plan[i], minimum(parts[i]))
  }

  // ---- Moving and growing ----

  // Where partition i begins when those from i on are packed at the end, each on
  // an alignment boundary, and the sector before it.
  function PackedFirst(parts: seq<Part>, lastUsable: u64, align: u64, i: nat): u64
    requires i < |parts|
    decreases |parts| - i, 0
  {
    AlignDown(Sub(Add(PackedEnd(parts, lastUsable, align, i + 1), 1), Size(parts[i].first, parts[i].last)), align)
  }

  function PackedEnd(parts: seq<Part>, lastUsable: u64, align: u64, i: nat): u64
    requires i <= |parts|
    decreases |parts| - i, 1
  {
    if i == |parts| then lastUsable else Sub(PackedFirst(parts, lastUsable, align, i), 1)
  }

  // Where there is room, packing wastes less than one alignment unit.
  lemma PackedTight(parts: seq<Part>, lastUsable: u64, align: u64, i: nat)
    requires i < |parts| && parts[i].first <= parts[i].last && align > 0 && lastUsable < M - 1
    requires var end := PackedEnd(parts, lastUsable, align, i + 1); end < M - 1 && parts[i].last - parts[i].first <= end
    ensures var end, size := PackedEnd(parts, lastUsable, align, i + 1), parts[i].last - parts[i].first + 1;
            var first := PackedFirst(parts, lastUsable, align, i);
            first + size - 1 <= end < first + size - 1 + align
  {
    hide AlignDown, PackedEnd;
    var end, size := PackedEnd(parts, lastUsable, align, i + 1), parts[i].last - parts[i].first + 1;
    RoundsDown(end + 1 - size, align);
  }

  lemma RoundsDown(x: u64, unit: u64)
    requires unit > 0
    ensures AlignDown(x, unit) <= x < AlignDown(x, unit) + unit
  {
  }

  // Pack the partitions behind k at the end of the drive, last one last; None when
  // a logical partition is in the way.
  method PackTrailing(parts: seq<Part>, plan: array<Planned>, k: nat, lastUsable: u64, align: u64,
                      ghost minimum: Part -> Option<u64>)
    returns (end: Option<u64>)
    requires plan.Length == |parts| && k < |parts|
    requires forall i :: 0 <= i < |parts| ==> plan[i] == Unmoved(parts[i])
    modifies plan
    ensures AllFair(parts, plan[..], minimum)
    ensures forall i :: 0 <= i <= k ==> plan[i] == old(plan[i])
    ensures forall i :: k < i < |parts| ==> !plan[i].shrink && !plan[i].grow
    ensures end.None? <==> exists i :: k < i < |parts| && parts[i].logical
    ensures end.Some? ==>
              && end.value == PackedEnd(parts, lastUsable, align, k + 1)
              && forall i :: k < i < |parts| ==>
                   plan[i] == MovedTo(Unmoved(parts[i]), PackedFirst(parts, lastUsable, align, i))
  {
    hide Fair, Size, AlignDown;
    UnmovedFair(parts, plan[..], minimum);
    var at := lastUsable;
    var i := |parts|;
    while i > k + 1
      invariant k < i <= |parts| && AllFair(parts, plan[..], minimum)
      invariant forall j :: 0 <= j < i ==> plan[j] == Unmoved(parts[j])
      invariant forall j :: i <= j < |parts| ==> !parts[j].logical
      invariant at == PackedEnd(parts, lastUsable, align, i)
      invariant forall j :: i <= j < |parts| ==>
                  plan[j] == MovedTo(Unmoved(parts[j]), PackedFirst(parts, lastUsable, align, j))
    {
      i := i - 1;
      if parts[i].logical {
        return None;
      }
      var first := AlignDown(Sub(Add(at, 1), Size(plan[i].first, plan[i].last)), align);
      MoveIsFair(parts[i], plan[i], minimum(parts[i]), first);
      plan[i] := MovedTo(plan[i], first);
      at := Sub(first, 1);
    }
    return Some(at);
  }

  // Put the partitions behind k back where they were.
  method Unpack(parts: seq<Part>, plan: array<Planned>, k: nat, ghost minimum: Part -> Option<u64>)
    requires plan.Length == |parts| && k < |parts| && AllFair(parts, plan[..], minimum)
    requires forall i :: k < i < |parts| ==> !plan[i].shrink && !plan[i].grow
    modifies plan
    ensures AllFair(parts, plan[..], minimum) && forall i :: 0 <= i <= k ==> plan[i] == old(plan[i])
    ensures forall i :: k < i < |parts| ==> plan[i] == Unmoved(parts[i])
  {
    hide Size;
    var i := k + 1;
    while i < |parts|
      invariant k < i <= |parts| && AllFair(parts, plan[..], minimum)
      invariant forall j :: 0 <= j <= k ==> plan[j] == old(plan[j])
      invariant forall j :: k < j < i ==> plan[j] == Unmoved(parts[j])
      invariant forall j :: i <= j < |parts| ==> !plan[j].shrink && !plan[j].grow
    {
      plan[i] := plan[i].(first := parts[i].first, last := parts[i].last, moved := false);
      i := i + 1;
    }
  }

  // Whether the data partition k can take up the space behind it.
  predicate Growable(parts: seq<Part>, k: nat, lastUsable: u64, moveTrailing: bool)
    requires k < |parts|
  {
    && (forall i :: k <= i < |parts| ==> !parts[i].logical)
    && (k + 1 < |parts| ==> moveTrailing && lastUsable != 0)
  }

  // The plan once partition k has taken it up, the ones behind it packed at the end.
  ghost function Grown(parts: seq<Part>, k: nat, lastUsable: u64, align: u64, moveTrailing: bool): (plan: seq<Planned>)
    requires k < |parts|
    ensures |plan| == |parts|
  {
    var end := PackedEnd(parts, lastUsable, align, k + 1);
    seq(|parts|, i requires 0 <= i < |parts| =>
      if !Growable(parts, k, lastUsable, moveTrailing) || i < k || (i == k && end <= parts[k].last) then
        Unmoved(parts[i])
      else if i == k then Unmoved(parts[k]).(last := end, grow := true)
      else MovedTo(Unmoved(parts[i]), PackedFirst(parts, lastUsable, align, i)))
  }

  // Extend the last data partition into the space behind the captured layout.
  method Grow(parts: seq<Part>, plan: array<Planned>, k: nat, lastUsable: u64, align: u64, moveTrailing: bool,
              ghost minimum: Part -> Option<u64>)
    requires plan.Length == |parts| && k < |parts| && parts[k].data
    requires forall i :: 0 <= i < |parts| ==> plan[i] == Unmoved(parts[i])
    modifies plan
    ensures AllFair(parts, plan[..], minimum) && plan[0].first == parts[0].first
    ensures plan[..] == Grown(parts, k, lastUsable, align, moveTrailing)
  {
    hide Size, PackedFirst;
    assert AllFair(parts, plan[..], minimum);
    if parts[k].logical {
      return;
    }
    var growTo := lastUsable;
    if k + 1 < |parts| {
      if !moveTrailing {
        return;
      }
      var end := PackTrailing(parts, plan, k, lastUsable, align, minimum);
      if end.None? || growTo == 0 {
        Unpack(parts, plan, k, minimum);
        return;
      }
      growTo := end.value;
    }
    if growTo > plan[k].last {
      assert !plan[k].shrink;
      plan[k] := plan[k].(last := growTo, grow := true);
    }
  }

  // ---- Shrinking ----

  ghost predicate ShrunkBefore(plan: seq<Planned>, i: int) {
    exists j :: 0 <= j < i && j < |plan| && plan[j].shrink
  }

  lemma ShrunkStep(plan: seq<Planned>, i: nat)
    ensures !ShrunkBefore(plan, 0)
    ensures i < |plan| ==> (ShrunkBefore(plan, i + 1) <==> ShrunkBefore(plan, i) || plan[i].shrink)
  {
  }

  // Before the first shrunk partition nothing moves; behind it each follows the one
  // before, aligned, and logical ones stay where they are.
  ghost function Relaid(parts: seq<Part>, plan: seq<Planned>, align: u64, i: nat): (q: Planned)
    requires i < |parts| == |plan|
    ensures q.grow == plan[i].grow && q.shrink == plan[i].shrink
  {
    if i == 0 || !ShrunkBefore(plan, i) || parts[i].logical then plan[i]
    else
      var first := AlignUp(Add(Relaid(parts, plan, align, i - 1).last, 1), align);
      if first == plan[i].first then plan[i] else MovedTo(plan[i], first)
  }

  ghost function LaidAgain(parts: seq<Part>, plan: seq<Planned>, align: u64): (after: seq<Planned>)
    requires |plan| == |parts|
    ensures |after| == |parts|
  {
    seq(|parts|, i requires 0 <= i < |parts| => Relaid(parts, plan, align, i))
  }

  ghost predicate NothingInTheWay(parts: seq<Part>, plan: seq<Planned>) {
    forall i :: 0 <= i < |parts| && parts[i].logical ==> !ShrunkBefore(plan, i)
  }

  // Place partitions in order after a shrink.  False when a logical one is in the way.
  method Relayout(parts: seq<Part>, plan: array<Planned>, align: u64, ghost minimum: Part -> Option<u64>)
    returns (ok: bool)
    requires plan.Length == |parts| && AllFair(parts, plan[..], minimum)
    modifies plan
    ensures AllFair(parts, plan[..], minimum)
    ensures plan[..] == LaidAgain(parts, old(plan[..]), align)
    ensures ok <==> NothingInTheWay(parts, old(plan[..]))
  {
    hide Fair, Size, AlignUp, ShrunkBefore;
    ghost var was := plan[..];
    ShrunkStep(was, 0);
    ok := true;
    var shifted := false;
    var i := 0;
    while i < |parts|
      invariant 0 <= i <= |parts| && AllFair(parts, plan[..], minimum)
      invariant shifted <==> ShrunkBefore(was, i)
      invariant ok <==> forall j :: 0 <= j < i && parts[j].logical ==> !ShrunkBefore(was, j)
      invariant forall j :: 0 <= j < i ==> plan[j] == Relaid(parts, was, align, j)
      invariant forall j :: i <= j < |parts| ==> plan[j] == was[j]
    {
      ShrunkStep(was, i);
      if shifted && parts[i].logical {
        ok := false;
      } else {
        if shifted {
          var first := AlignUp(Add(plan[i - 1].last, 1), align);
          if first != plan[i].first {
            MoveIsFair(parts[i], plan[i], minimum(parts[i]), first);
            plan[i] := MovedTo(plan[i], first);
          }
        }
        if plan[i].shrink {
          shifted := true;
        }
      }
      i := i + 1;
    }
  }

  // The least size a partition may be shrunk to: what is known, or one unit.
  function Floor(minimum: Part -> Option<u64>, align: u64, p: Part): u64 {
    if minimum(p).Some? then minimum(p).value else align
  }

  function Allowance(p: Part, q: Planned, align: u64, minimum: Part -> Option<u64>): u64 {
    var least, size := Floor(minimum, align, p), Size(q.first, q.last);
    if p.data && !p.logical && size > least then size - least else 0
  }

  // What is still needed after partitions i and up have given, and what i gives.
  ghost function NeedAfter(parts: seq<Part>, plan: seq<Planned>, need: u64, align: u64, minimum: Part -> Option<u64>,
                           i: nat): (left: u64)
    requires i <= |parts| == |plan|
    ensures left <= need
    decreases |parts| - i, 0
  {
    if i == |parts| then need
    else NeedAfter(parts, plan, need, align, minimum, i + 1) - Given(parts, plan, need, align, minimum, i)
  }

  ghost function Given(parts: seq<Part>, plan: seq<Planned>, need: u64, align: u64, minimum: Part -> Option<u64>,
                       i: nat)
    : (take: u64)
    requires i < |parts| == |plan|
    ensures take <= NeedAfter(parts, plan, need, align, minimum, i + 1)
    decreases |parts| - i - 1, 1
  {
    var want, most := NeedAfter(parts, plan, need, align, minimum, i + 1), Allowance(parts[i], plan[i], align, minimum);
    if want > most then most else want
  }

  ghost function GivenFrom(parts: seq<Part>, plan: seq<Planned>, need: u64, align: u64, minimum: Part -> Option<u64>,
                           i: nat): nat
    requires i <= |parts| == |plan|
    decreases |parts| - i
  {
    if i == |parts| then 0
    else Given(parts, plan, need, align, minimum, i) + GivenFrom(parts, plan, need, align, minimum, i + 1)
  }

  lemma NeedStep(parts: seq<Part>, plan: seq<Planned>, need: u64, align: u64, minimum: Part -> Option<u64>, i: nat)
    requires i < |parts| == |plan|
    ensures var want := NeedAfter(parts, plan, need, align, minimum, i + 1);
            var most := Allowance(parts[i], plan[i], align, minimum);
            && Given(parts, plan, need, align, minimum, i) == (if want > most then most else want)
            && NeedAfter(parts, plan, need, align, minimum, i) == want - Given(parts, plan, need, align, minimum, i)
  {
    hide Allowance;
  }

  lemma NeedStart(parts: seq<Part>, plan: seq<Planned>, need: u64, align: u64, minimum: Part -> Option<u64>)
    requires |parts| == |plan|
    ensures NeedAfter(parts, plan, need, align, minimum, |parts|) == need
  {
  }

  // Exactly what is needed is taken, or as much of it as there is.
  lemma {:induction false} TakenInAll(parts: seq<Part>, plan: seq<Planned>, need: u64, align: u64,
                                      minimum: Part -> Option<u64>, i: nat)
    requires i <= |parts| == |plan|
    ensures GivenFrom(parts, plan, need, align, minimum, i) + NeedAfter(parts, plan, need, align, minimum, i) == need
    decreases |parts| - i
  {
    hide Allowance;
    if i < |parts| {
      TakenInAll(parts, plan, need, align, minimum, i + 1);
    }
  }

  // A partition gives only when every one behind it has given all it can.
  lemma {:induction false} LastGiveFirst(parts: seq<Part>, plan: seq<Planned>, need: u64, align: u64,
                                         minimum: Part -> Option<u64>, i: nat, j: nat)
    requires i < j <= |parts| == |plan| && Given(parts, plan, need, align, minimum, i) > 0
    ensures NeedAfter(parts, plan, need, align, minimum, j) > 0
    ensures j < |parts| ==>
              Given(parts, plan, need, align, minimum, j) == Allowance(parts[j], plan[j], align, minimum)
    decreases j
  {
    hide Allowance, Given, NeedAfter;
    if j > i + 1 {
      LastGiveFirst(parts, plan, need, align, minimum, i, j - 1);
      NeedStep(parts, plan, need, align, minimum, j - 1);
    } else {
      NeedStep(parts, plan, need, align, minimum, i);
    }
    if j < |parts| {
      NeedStep(parts, plan, need, align, minimum, j);
    }
  }

  function Shrunk(q: Planned, take: u64): Planned {
    if take > 0 then q.(last := Sub(q.last, take), shrink := true) else q
  }

  ghost function Taken(parts: seq<Part>, plan: seq<Planned>, need: u64, align: u64, minimum: Part -> Option<u64>)
    : (after: seq<Planned>)
    requires |plan| == |parts|
    ensures |after| == |parts|
  {
    seq(|parts|, i requires 0 <= i < |parts| => Shrunk(plan[i], Given(parts, plan, need, align, minimum, i)))
  }

  // Take up to need sectors from the data partitions, the last ones first.
  method TakeFrom(parts: seq<Part>, plan: array<Planned>, need0: u64, align: u64, minimum: Part -> Option<u64>)
    returns (need: u64)
    requires plan.Length == |parts| && AllFair(parts, plan[..], minimum)
    requires forall i :: 0 <= i < |parts| ==> !plan[i].grow
    modifies plan
    ensures AllFair(parts, plan[..], minimum)
    ensures need == NeedAfter(parts, old(plan[..]), need0, align, minimum, 0)
    ensures plan[..] == Taken(parts, old(plan[..]), need0, align, minimum)
  {
    hide Fair, Size, Allowance, Given, NeedAfter;
    ghost var plan0 := plan[..];
    need := need0;
    var i := |parts|;
    NeedStart(parts, plan0, need0, align, minimum);
    while i > 0 && need > 0
      invariant 0 <= i <= |parts| && AllFair(parts, plan[..], minimum)
      invariant need == NeedAfter(parts, plan0, need0, align, minimum, i)
      invariant forall j :: 0 <= j < i ==> plan[j] == plan0[j]
      invariant forall j :: i <= j < |parts| ==>
                  plan[j] == Shrunk(plan0[j], Given(parts, plan0, need0, align, minimum, j))
    {
      i := i - 1;
      NeedStep(parts, plan0, need0, align, minimum, i);
      var allowance := Allowance(parts[i], plan[i], align, minimum);
      var take := if need > allowance then allowance else need;
      if take > 0 {
        TakeIsFair(parts[i], plan[i], align, minimum, take);
        plan[i] := plan[i].(last := Sub(plan[i].last, take), shrink := true);
        need := need - take;
      }
    }
    NothingLeft(parts, plan0, need0, align, minimum, i);
  }

  // Once enough has been taken no more is.
  lemma {:induction false} NothingLeft(parts: seq<Part>, plan: seq<Planned>, need: u64, align: u64,
                                       minimum: Part -> Option<u64>, i: nat)
    requires i <= |parts| == |plan| && (i == 0 || NeedAfter(parts, plan, need, align, minimum, i) == 0)
    ensures NeedAfter(parts, plan, need, align, minimum, 0) == NeedAfter(parts, plan, need, align, minimum, i)
    ensures forall j :: 0 <= j < i ==> Given(parts, plan, need, align, minimum, j) == 0
  {
    hide Allowance, Given, NeedAfter;
    if i > 0 {
      NeedStep(parts, plan, need, align, minimum, i - 1);
      NothingLeft(parts, plan, need, align, minimum, i - 1);
    }
  }

  lemma TakeIsFair(p: Part, q: Planned, align: u64, minimum: Part -> Option<u64>, take: u64)
    requires Fair(p, q, minimum(p)) && !q.grow && 0 < take <= Allowance(p, q, align, minimum)
    ensures Fair(p, q.(last := Sub(q.last, take), shrink := true), minimum(p))
  {
    hide Fair, Size;
    ShrinkSize(q, take);
    ShrinkIsFair(p, q, minimum(p), take);
  }

  const PASSES := 16

  datatype Sized = Sized(plan: seq<Planned>, ok: bool)

  function Overrun(end: u64, lastUsable: u64, align: u64): u64 {
    if end > lastUsable then AlignUp(end - lastUsable, align) else 0
  }

  // The passes from `pass` on.
  ghost function ShrinkPasses(parts: seq<Part>, plan: seq<Planned>, need: u64, lastUsable: u64, align: u64,
                              minimum: Part -> Option<u64>, pass: nat): (r: Sized)
    requires |plan| == |parts| > 0 && pass <= PASSES
    ensures |r.plan| == |parts|
    decreases PASSES - pass
  {
    if pass == PASSES || need == 0 then Sized(plan, need == 0)
    else
      var left, taken := NeedAfter(parts, plan, need, align, minimum, 0), Taken(parts, plan, need, align, minimum);
      if left > 0 && left == need then Sized(taken, false)
      else
        var laid := LaidAgain(parts, taken, align);
        var over := Overrun(laid[|parts| - 1].last, lastUsable, align);
        var more := ShrinkPasses(parts, laid, over, lastUsable, align, minimum, pass + 1);
        more.(ok := more.ok && NothingInTheWay(parts, taken))
  }

  // Shrink and lay out again until the tail fits or nothing can give.
  method ShrinkToFit(parts: seq<Part>, plan: array<Planned>, lastUsable: u64, align: u64, minimum: Part -> Option<u64>)
    returns (ok: bool)
    requires plan.Length == |parts| > 0
    requires forall i :: 0 <= i < |parts| ==> plan[i] == Unmoved(parts[i])
    modifies plan
    ensures AllFair(parts, plan[..], minimum)
    ensures forall i :: 0 <= i < |parts| ==> !plan[i].grow
    ensures plan[0].first == parts[0].first
    ensures Sized(plan[..], ok) ==
            ShrinkPasses(parts, old(plan[..]), Sub(parts[|parts| - 1].last, lastUsable), lastUsable, align, minimum, 0)
    // What it says fits does, on any drive worth the name.
    ensures ok && lastUsable >= align ==> plan[|parts| - 1].last <= lastUsable
  {
    hide Fair, Size, AlignUp, NeedAfter, Taken, LaidAgain, NothingInTheWay;
    assert AllFair(parts, plan[..], minimum) by {
      UnmovedFair(parts, plan[..], minimum);
    }
    ok := true;
    var need: u64 := Sub(parts[|parts| - 1].last, lastUsable);
    var pass := 0;
    ghost var whole := ShrinkPasses(parts, plan[..], need, lastUsable, align, minimum, 0);
    while pass < PASSES && need > 0
      invariant pass <= PASSES && AllFair(parts, plan[..], minimum)
      invariant var more := ShrinkPasses(parts, plan[..], need, lastUsable, align, minimum, pass);
                whole == more.(ok := more.ok && ok)
      invariant need == 0 && lastUsable >= align ==> plan[|parts| - 1].last <= lastUsable
      invariant forall i :: 0 <= i < |parts| ==> !plan[i].grow
      invariant plan[0].first == parts[0].first
    {
      var before := need;
      PassKeeps(parts, plan[..], need, align, minimum);
      need := TakeFrom(parts, plan, need, align, minimum);
      if need > 0 && need == before {
        break;
      }
      var placed := Relayout(parts, plan, align, minimum);
      ok := ok && placed;
      var end := plan[|parts| - 1].last;
      need := if end > lastUsable then AlignUp(end - lastUsable, align) else 0;
      if end > lastUsable >= align {
        AlignKeeps(end, lastUsable, align);
      }
      pass := pass + 1;
    }
    ok := ok && need == 0;
  }

  // Neither taking nor laying out makes anything grow or moves the first partition.
  lemma PassKeeps(parts: seq<Part>, plan: seq<Planned>, need: u64, align: u64, minimum: Part -> Option<u64>)
    requires |plan| == |parts| > 0
    ensures var taken := Taken(parts, plan, need, align, minimum);
            var laid := LaidAgain(parts, taken, align);
            && taken[0].first == laid[0].first == plan[0].first
            && forall i :: 0 <= i < |parts| ==> taken[i].grow == laid[i].grow == plan[i].grow
  {
    hide Given, ShrunkBefore, AlignUp, MovedTo;
    var taken := Taken(parts, plan, need, align, minimum);
    assert Relaid(parts, taken, align, 0) == taken[0];
  }

  lemma AlignKeeps(end: u64, lastUsable: u64, align: u64)
    requires end > lastUsable >= align
    ensures AlignUp(end - lastUsable, align) > 0
  {
  }

  lemma UnmovedFair(parts: seq<Part>, plan: seq<Planned>, minimum: Part -> Option<u64>)
    requires |plan| == |parts| && forall i :: 0 <= i < |parts| ==> plan[i] == Unmoved(parts[i])
    ensures AllFair(parts, plan, minimum)
  {
  }

  // ---- Realigning ----

  // Where the search for partition i's new place begins, and what i becomes: the first
  // aligned place behind the partitions before it, logical ones passed over.
  ghost function RealignFrom(parts: seq<Part>, plan: seq<Planned>, firstUsable: u64, align: u64, i: nat): u64
    requires i <= |parts| == |plan|
    decreases i, 0
  {
    if i == 0 then AlignUp(firstUsable, align)
    else if parts[i - 1].logical then RealignFrom(parts, plan, firstUsable, align, i - 1)
    else Add(Realigned(parts, plan, firstUsable, align, i - 1).last, 1)
  }

  ghost function Realigned(parts: seq<Part>, plan: seq<Planned>, firstUsable: u64, align: u64, i: nat): Planned
    requires i < |parts| == |plan|
    decreases i, 1
  {
    var first := AlignUp(RealignFrom(parts, plan, firstUsable, align, i), align);
    if parts[i].logical || first == plan[i].first then plan[i] else MovedTo(plan[i], first)
  }

  // What only moved goes back.
  function Undone(p: Part, q: Planned): Planned {
    if q.moved && !q.shrink then q.(first := p.first, last := p.last, moved := false) else q
  }

  // Whether the realigned partitions end by the last usable sector.
  ghost predicate RealignFits(parts: seq<Part>, plan: seq<Planned>, firstUsable: u64, lastUsable: u64, align: u64)
    requires |plan| == |parts| > 0
  {
    Realigned(parts, plan, firstUsable, align, |parts| - 1).last <= lastUsable
  }

  ghost function RealignedPlan(parts: seq<Part>, plan: seq<Planned>, firstUsable: u64, lastUsable: u64, align: u64)
    : (after: seq<Planned>)
    requires |plan| == |parts| > 0
    ensures |after| == |parts|
  {
    seq(|parts|, i requires 0 <= i < |parts| =>
      var q := Realigned(parts, plan, firstUsable, align, i);
      if RealignFits(parts, plan, firstUsable, lastUsable, align) then q else Undone(parts[i], q))
  }

  method Realign(parts: seq<Part>, plan: array<Planned>, firstUsable: u64, lastUsable: u64, align: u64,
                 ghost minimum: Part -> Option<u64>)
    requires plan.Length == |parts| > 0 && AllFair(parts, plan[..], minimum)
    modifies plan
    ensures AllFair(parts, plan[..], minimum)
    ensures plan[..] == RealignedPlan(parts, old(plan[..]), firstUsable, lastUsable, align)
  {
    hide Fair, Size, AlignUp;
    ghost var plan0 := plan[..];
    var pos := AlignUp(firstUsable, align);
    var i := 0;
    while i < |parts|
      invariant 0 <= i <= |parts| && AllFair(parts, plan[..], minimum)
      invariant pos == RealignFrom(parts, plan0, firstUsable, align, i)
      invariant forall j :: 0 <= j < i ==> plan[j] == Realigned(parts, plan0, firstUsable, align, j)
      invariant forall j :: i <= j < |parts| ==> plan[j] == plan0[j]
    {
      if !parts[i].logical {
        var first := AlignUp(pos, align);
        if first != plan[i].first {
          MoveIsFair(parts[i], plan[i], minimum(parts[i]), first);
          plan[i] := MovedTo(plan[i], first);
        }
        pos := Add(plan[i].last, 1);
      }
      i := i + 1;
    }
    if plan[|parts| - 1].last > lastUsable {
      Undo(parts, plan, minimum);
    }
  }

  // Realignment did not fit.
  method Undo(parts: seq<Part>, plan: array<Planned>, ghost minimum: Part -> Option<u64>)
    requires plan.Length == |parts| > 0 && AllFair(parts, plan[..], minimum)
    modifies plan
    ensures AllFair(parts, plan[..], minimum)
    ensures forall i :: 0 <= i < |parts| ==> plan[i] == Undone(parts[i], old(plan[i]))
  {
    hide Fair, Size;
    var i := 0;
    while i < |parts|
      invariant 0 <= i <= |parts| && AllFair(parts, plan[..], minimum)
      invariant forall j :: 0 <= j < i ==> plan[j] == Undone(parts[j], old(plan[j]))
      invariant forall j :: i <= j < |parts| ==> plan[j] == old(plan[j])
    {
      if plan[i].moved && !plan[i].shrink {
        BackIsFair(parts[i], plan[i], minimum(parts[i]));
        plan[i] := plan[i].(first := parts[i].first, last := parts[i].last, moved := false);
      }
      i := i + 1;
    }
  }

  lemma BackIsFair(p: Part, q: Planned, minimum: Option<u64>)
    requires Fair(p, q, minimum) && !q.shrink
    ensures Fair(p, q.(first := p.first, last := p.last, moved := false), minimum)
  {
    hide Size;
  }

  // ---- The plan ----

  type i64 = x: int | -0x8000_0000_0000_0000 <= x < 0x8000_0000_0000_0000

  // backupLength: the captured backup entry array and header, in bytes.
  datatype Layout = Layout(gpt: bool, sectorSize: nat, backupLength: i64, firstUsable: u64, parts: seq<Part>)
  datatype Target = Target(size: i64, logicalSector: nat, physicalSector: nat)

  // minBytes: the least size of a partition's filesystem, where it is known.
  datatype Choices = Choices(grow: bool, moveTrailing: bool, realign: bool, minBytes: Part -> Option<i64>)

  datatype Fitted = NotALayout | Refused | Plan(lastUsable: u64, parts: seq<Part>, planned: seq<Planned>)

  function ToU64(x: i64): u64 {
    if x >= 0 then x else x + M
  }

  function Quot(a: u64, b: u64): (q: u64)
    requires b > 0
    ensures q <= a
  {
    MulMono(1, b, a);
    DivMono(a, a, b);
    a / b
  }

  // Whole sectors, rounding up.
  function Sectors(bytes: u64, ss: u64): u64
    requires ss > 0
  {
    Quot(Add(bytes, ss - 1), ss)
  }

  function AlignUnit(ss: u64, physicalSector: u64): u64
    requires ss > 0
  {
    var unit := Quot(0x10_0000, ss);
    if physicalSector > 0 && Quot(physicalSector, ss) > unit then Quot(physicalSector, ss) else unit
  }

  function Minimum(o: Choices, ss: u64, align: u64): Part -> Option<u64>
    requires ss > 0
  {
    p => if o.minBytes(p).Some? then Some(AlignUp(Sectors(ToU64(o.minBytes(p).value), ss), align)) else None
  }

  predicate ByStart(a: Part, b: Part) {
    a.first <= b.first
  }

  // In order, disjoint, and not past the last usable sector.
  ghost predicate Placed(plan: seq<Planned>, lastUsable: u64) {
    && (forall i :: 0 <= i < |plan| ==> plan[i].first <= plan[i].last <= lastUsable)
    && (forall i, j :: 0 <= i < j < |plan| ==> plan[i].last < plan[j].first)
  }

  // The final check, which every applicable plan has passed.
  method Check(plan: seq<Planned>, lastUsable: u64) returns (ok: bool)
    ensures ok <==> Placed(plan, lastUsable)
  {
    var i := 0;
    while i < |plan|
      invariant 0 <= i <= |plan| && Placed(plan[..i], lastUsable)
    {
      if plan[i].last < plan[i].first || (i > 0 && plan[i].first <= plan[i - 1].last) || plan[i].last > lastUsable {
        return false;
      }
      assert plan[..i + 1] == plan[..i] + [plan[i]];
      assert i > 0 ==> plan[..i][i - 1] == plan[i - 1];
      i := i + 1;
    }
    assert plan[..i] == plan;
    return true;
  }

  // The last sector partitions may use: before the backup table on a GPT disk.
  // None: too small for a GPT at all.
  function LastUsable(l: Layout, sectors: u64): Option<u64>
    requires 0 < l.sectorSize < M
  {
    if !l.gpt then Some(Sub(sectors, 1))
    else
      var entrySectors := Sectors(Sub(ToU64(l.backupLength), l.sectorSize), l.sectorSize);
      if sectors < Add(entrySectors, 3) then None else Some(Sub(Sub(Sub(sectors, 1), entrySectors), 1))
  }

  predicate BadTarget(l: Layout, t: Target) {
    || (t.logicalSector != 0 && t.logicalSector != l.sectorSize)
    || t.size <= 0
    || (l.sectorSize > 0 && t.size % l.sectorSize != 0)
  }

  // Everything where it was.
  function Captured(parts: seq<Part>): seq<Planned> {
    seq(|parts|, i requires 0 <= i < |parts| => Unmoved(parts[i]))
  }

  lemma CapturedFits(parts: seq<Part>, lastUsable: u64)
    requires parts != [] && Placed(Captured(parts), lastUsable)
    ensures lastUsable >= parts[|parts| - 1].last
  {
    assert Captured(parts)[|parts| - 1].last <= lastUsable;
  }

  ghost predicate Increasing(parts: seq<Part>) {
    forall i, j :: 0 <= i < j < |parts| ==> parts[i].first < parts[j].first
  }

  lemma PlacedIncreasing(parts: seq<Part>, lastUsable: u64)
    requires Placed(Captured(parts), lastUsable)
    ensures Increasing(parts)
  {
    var plan := Captured(parts);
    forall i, j | 0 <= i < j < |parts| ensures parts[i].first < parts[j].first {
      assert plan[i].first <= plan[i].last < plan[j].first;
    }
  }

  // There is one way to sort partitions that start at different sectors.
  lemma {:induction false} SortedAlready(s: seq<Part>, t: seq<Part>)
    requires SortedBy(ByStart, s) && multiset(s) == multiset(t) && Increasing(t)
    ensures s == t
  {
    hide SortedBy, Increasing;
    SameLength(s, t);
    if s != [] {
      SameHead(s, t);
      SameTail(s, t);
      TailOrder(s, t);
      SortedAlready(s[1..], t[1..]);
      assert s == [s[0]] + s[1..] && t == [t[0]] + t[1..];
    }
  }

  lemma SameLength(s: seq<Part>, t: seq<Part>)
    requires multiset(s) == multiset(t)
    ensures |s| == |t|
  {
    assert |multiset(s)| == |s| && |multiset(t)| == |t|;
  }

  lemma TailOrder(s: seq<Part>, t: seq<Part>)
    requires SortedBy(ByStart, s) && Increasing(t) && s != [] && t != []
    ensures SortedBy(ByStart, s[1..]) && Increasing(t[1..])
  {
    hide ByStart;
  }

  lemma SameHead(s: seq<Part>, t: seq<Part>)
    requires SortedBy(ByStart, s) && multiset(s) == multiset(t) && Increasing(t) && s != [] && t != []
    ensures s[0] == t[0]
  {
    SameMembers(s, t, s[0]);
    SameMembers(s, t, t[0]);
    forall i | 0 <= i < |s| ensures s[0].first <= s[i].first {
      assert i > 0 ==> ByStart(s[0], s[i]);
    }
    forall j | 0 <= j < |t| ensures t[0].first < t[j].first || t[j] == t[0] {}
  }

  lemma SameTail(s: seq<Part>, t: seq<Part>)
    requires multiset(s) == multiset(t) && s != [] && t != [] && s[0] == t[0]
    ensures multiset(s[1..]) == multiset(t[1..])
  {
    assert s == [s[0]] + s[1..] && t == [t[0]] + t[1..];
    assert multiset(s[1..]) == multiset(s) - multiset{s[0]};
    assert multiset(t[1..]) == multiset(t) - multiset{t[0]};
  }

  function LastDataOf(parts: seq<Part>, n: nat): (k: Option<nat>)
    requires n <= |parts|
    ensures k.Some? ==> k.value < n && parts[k.value].data
  {
    if n == 0 then None else if parts[n - 1].data then Some(n - 1) else LastDataOf(parts, n - 1)
  }

  // The plan before any realignment.
  ghost function Resized(o: Choices, parts: seq<Part>, lastUsable: u64, align: u64, minimum: Part -> Option<u64>)
    : (r: Sized)
    requires parts != []
    ensures |r.plan| == |parts|
  {
    var k, end := LastDataOf(parts, |parts|), parts[|parts| - 1].last;
    if lastUsable < end then
      ShrinkPasses(parts, Captured(parts), Sub(end, lastUsable), lastUsable, align, minimum, 0)
    else if o.grow && k.Some? && lastUsable > end then
      Sized(Grown(parts, k.value, lastUsable, align, o.moveTrailing), true)
    else Sized(Captured(parts), true)
  }

  // A plan is refused only where shrinking fails or the final check does.
  ghost function Outcome(l: Layout, o: Choices, parts: seq<Part>, lastUsable: u64, align: u64,
                         minimum: Part -> Option<u64>): Option<seq<Planned>>
    requires parts != []
  {
    var r := Resized(o, parts, lastUsable, align, minimum);
    var plan := if o.realign then RealignedPlan(parts, r.plan, l.firstUsable, lastUsable, align) else r.plan;
    if r.ok && Placed(plan, lastUsable) then Some(plan) else None
  }

  // Where the first partition begins: at its captured place unless realigning moved it.
  ghost function LowestStart(l: Layout, o: Choices, parts: seq<Part>, lastUsable: u64, align: u64,
                             minimum: Part -> Option<u64>): u64
    requires parts != []
  {
    var r := Resized(o, parts, lastUsable, align, minimum);
    if o.realign && !parts[0].logical &&
       (r.plan[0].shrink || RealignFits(parts, r.plan, l.firstUsable, lastUsable, align))
    then AlignUp(AlignUp(l.firstUsable, align), align)
    else parts[0].first
  }

  // parts are the captured partitions in the order of their starts.
  ghost predicate InOrder(l: Layout, parts: seq<Part>) {
    parts != [] && multiset(parts) == multiset(l.parts) && SortedBy(ByStart, parts)
  }

  // What an applicable plan promises.
  ghost predicate Promised(l: Layout, t: Target, o: Choices, lastUsable: u64, parts: seq<Part>, plan: seq<Planned>)
    requires 0 < l.sectorSize < M && t.physicalSector < M
  {
    var align := AlignUnit(l.sectorSize, t.physicalSector);
    var minimum := Minimum(o, l.sectorSize, align);
    && InOrder(l, parts)
    && Placed(plan, lastUsable)
    && AllFair(parts, plan, minimum)
    && AboveStart(plan, l.firstUsable, LowestStart(l, o, parts, lastUsable, align, minimum))
  }

  // Nothing is placed below the usable area exactly when the first partition is not.
  ghost predicate AboveStart(plan: seq<Planned>, firstUsable: u64, start: u64) {
    (forall i :: 0 <= i < |plan| ==> plan[i].first >= firstUsable) <==> start >= firstUsable
  }

  // The lower bound in plain words, for every applicable plan: without realigning it
  // holds exactly when every captured partition respected it; a realigned layout that
  // fits has it whatever the capture was, short of wrap-around.
  lemma LowerBound(l: Layout, t: Target, o: Choices, lastUsable: u64, parts: seq<Part>, plan: seq<Planned>)
    requires 0 < l.sectorSize < M && t.physicalSector < M && Promised(l, t, o, lastUsable, parts, plan)
    ensures var align := AlignUnit(l.sectorSize, t.physicalSector);
            var bound := forall i :: 0 <= i < |plan| ==> plan[i].first >= l.firstUsable;
            var respected := forall p :: p in l.parts ==> p.first >= l.firstUsable;
            var resized := Resized(o, parts, lastUsable, align, Minimum(o, l.sectorSize, align)).plan;
            && (!o.realign || parts[0].logical ==> (bound <==> respected))
            && (l.firstUsable + 2 * align < M ==>
                  && (respected ==> bound)
                  && (&& o.realign && !parts[0].logical
                      && RealignFits(parts, resized, l.firstUsable, lastUsable, align)
                      ==> bound))
  {
    hide Placed, AllFair, Minimum, AlignUnit, Resized, RealignFits, AlignUp, SortedBy;
    var align := AlignUnit(l.sectorSize, t.physicalSector);
    AlignTwice(l.firstUsable, align);
    LowestOfAll(l.parts, parts, l.firstUsable);
  }

  lemma LowestOfAll(all: seq<Part>, parts: seq<Part>, bound: u64)
    requires parts != [] && multiset(parts) == multiset(all) && SortedBy(ByStart, parts)
    ensures (forall p :: p in all ==> p.first >= bound) <==> parts[0].first >= bound
  {
    SameMembers(parts, all, parts[0]);
    forall p | p in all
      ensures p.first >= parts[0].first
    {
      SameMembers(parts, all, p);
      var i :| 0 <= i < |parts| && parts[i] == p;
      assert i > 0 ==> ByStart(parts[0], parts[i]);
    }
  }

  // What becomes of the partitions in that order.
  ghost function Verdict(l: Layout, t: Target, o: Choices, parts: seq<Part>, lastUsable: u64): Fitted
    requires 0 < l.sectorSize < M && t.physicalSector < M && parts != []
  {
    var align := AlignUnit(l.sectorSize, t.physicalSector);
    var plan := Outcome(l, o, parts, lastUsable, align, Minimum(o, l.sectorSize, align));
    if plan.None? then Refused else Plan(lastUsable, parts, plan.value)
  }

  ghost predicate Decided(l: Layout, t: Target, o: Choices, parts: seq<Part>, res: Fitted)
    requires 0 < l.sectorSize < M && t.physicalSector < M
  {
    && !BadTarget(l, t) && LastUsable(l, Quot(t.size, l.sectorSize)).Some? && InOrder(l, parts)
    && res == Verdict(l, t, o, parts, LastUsable(l, Quot(t.size, l.sectorSize)).value)
  }

  // res is an answer PlanFit may give.  Only partitions with the same start leave it a
  // choice, of their order.
  ghost predicate Answers(l: Layout, t: Target, o: Choices, res: Fitted)
    requires l.sectorSize < M && t.physicalSector < M
  {
    if l.sectorSize == 0 || l.parts == [] then res.NotALayout?
    else if BadTarget(l, t) || LastUsable(l, Quot(t.size, l.sectorSize)).None? then res.Refused?
    else exists parts :: Decided(l, t, o, parts, res)
  }

  method PlanFit(l: Layout, t: Target, o: Choices) returns (res: Fitted)
    requires l.sectorSize < M && t.physicalSector < M
    ensures Answers(l, t, o, res)
    ensures res.NotALayout? <==> l.sectorSize == 0 || l.parts == []
    ensures res.Plan? ==>
              && !BadTarget(l, t)
              && LastUsable(l, Quot(t.size, l.sectorSize)) == Some(res.lastUsable)
              && Promised(l, t, o, res.lastUsable, res.parts, res.planned)
    // No filesystem is cut below what it is known to need.
    ensures res.Plan? && l.sectorSize < 0x8000_0000_0000_0000 && t.physicalSector < 0x8000_0000_0000_0000 ==>
              EnoughBytes(l, o, res.parts, res.planned)
    // A layout that fits as it is stays as it is, unless asked otherwise.
    ensures l.sectorSize > 0 && l.parts != [] && !BadTarget(l, t) && !o.grow && !o.realign &&
            LastUsable(l, Quot(t.size, l.sectorSize)).Some? &&
            Placed(Captured(l.parts), LastUsable(l, Quot(t.size, l.sectorSize)).value) ==>
              res.Plan? && res.parts == l.parts && res.planned == Captured(l.parts)
  {
    hide AlignUnit, Sectors, Promised, BadTarget, LastUsable, Quot, Outcome, Minimum, SortedBy;
    if l.sectorSize == 0 || l.parts == [] {
      return NotALayout;
    }
    if BadTarget(l, t) {
      return Refused;
    }
    TargetPositive(l, t);
    var room := LastUsable(l, Quot(t.size, l.sectorSize));
    if room.None? {
      return Refused;
    }
    StartOrder();
    var parts := Sort(l.parts, ByStart);
    if Placed(Captured(l.parts), room.value) {
      PlacedIncreasing(l.parts, room.value);
      SortedAlready(parts, l.parts);
    }
    var plan := Lay(l, t, o, parts, room.value);
    res := if plan.None? then Refused else Plan(room.value, parts, plan.value);
    if res.Plan? && l.sectorSize < 0x8000_0000_0000_0000 && t.physicalSector < 0x8000_0000_0000_0000 {
      PromisedBytes(l, t, o, room.value, parts, plan.value);
    }
    assert Decided(l, t, o, parts, res);
  }

  // In bytes.
  ghost predicate EnoughBytes(l: Layout, o: Choices, parts: seq<Part>, plan: seq<Planned>) {
    |plan| == |parts| &&
    forall i :: 0 <= i < |parts| && plan[i].shrink && o.minBytes(parts[i]).Some? && o.minBytes(parts[i]).value >= 0 ==>
      (plan[i].last - plan[i].first + 1) * l.sectorSize >= o.minBytes(parts[i]).value
  }

  lemma PromisedBytes(l: Layout, t: Target, o: Choices, lastUsable: u64, parts: seq<Part>, plan: seq<Planned>)
    requires 0 < l.sectorSize < 0x8000_0000_0000_0000 && t.physicalSector < 0x8000_0000_0000_0000
    requires Promised(l, t, o, lastUsable, parts, plan)
    ensures EnoughBytes(l, o, parts, plan)
  {
    hide LowestStart, Placed, AlignUnit, Sectors, AlignUp, Fair;
    var ss, align := l.sectorSize, AlignUnit(l.sectorSize, t.physicalSector);
    AlignSmall(ss, t.physicalSector);
    forall i | 0 <= i < |parts| && plan[i].shrink && o.minBytes(parts[i]).Some? && o.minBytes(parts[i]).value >= 0
      ensures (plan[i].last - plan[i].first + 1) * ss >= o.minBytes(parts[i]).value
    {
      var b, q := o.minBytes(parts[i]).value, plan[i];
      MinimumIsEnough(b, ss, align);
      ShrunkSize(parts[i], q, AlignUp(Sectors(ToU64(b), ss), align), lastUsable, plan, i);
      MulMono(AlignUp(Sectors(ToU64(b), ss), align), q.last - q.first + 1, ss);
    }
  }

  lemma ShrunkSize(p: Part, q: Planned, least: u64, lastUsable: u64, plan: seq<Planned>, i: nat)
    requires Fair(p, q, Some(least)) && q.shrink && Placed(plan, lastUsable) && i < |plan| && plan[i] == q
    ensures q.last - q.first + 1 >= least
  {
  }

  lemma AlignSmall(ss: u64, physicalSector: u64)
    requires 0 < ss && physicalSector < 0x8000_0000_0000_0000
    ensures AlignUnit(ss, physicalSector) < 0x8000_0000_0000_0000
  {
  }

  lemma TargetPositive(l: Layout, t: Target)
    requires !BadTarget(l, t)
    ensures t.size > 0
  {
  }

  // A plan below it: a partition at sector 10 where the usable area begins at 34.
  method LowStartStays() returns (l: Layout, t: Target, o: Choices, res: Fitted)
    ensures l.sectorSize < M && t.physicalSector < M && Answers(l, t, o, res)
    ensures res.Plan? && |res.planned| == 1 && res.planned[0].first < l.firstUsable
  {
    l := Layout(true, 512, 16896, 34, [Part(0, true, false, 10, 2000)]);
    t := Target(0x4000_0000, 512, 512);
    o := Choices(false, false, false, p => None);
    assert Quot(t.size, 512) == 0x20_0000;
    assert LastUsable(l, 0x20_0000) == Some(0x20_0000 - 34);
    assert Captured(l.parts) == [Unmoved(l.parts[0])];
    res := PlanFit(l, t, o);
  }

  // Where the sorted partitions go; None when the plan must be refused.
  method Lay(l: Layout, t: Target, o: Choices, parts: seq<Part>, lastUsable: u64) returns (res: Option<seq<Planned>>)
    requires 0 < l.sectorSize < M && t.physicalSector < M && InOrder(l, parts)
    ensures res.Some? ==> Promised(l, t, o, lastUsable, parts, res.value)
    ensures res == Outcome(l, o, parts, lastUsable, AlignUnit(l.sectorSize, t.physicalSector),
                           Minimum(o, l.sectorSize, AlignUnit(l.sectorSize, t.physicalSector)))
    ensures !o.grow && !o.realign && Placed(Captured(parts), lastUsable) ==> res == Some(Captured(parts))
  {
    hide Fair, Size, AlignUp, AlignUnit, Sectors, Placed, Minimum, AllFair, SortedBy, Resized, RealignFits,
         RealignedPlan, LowestStart, Captured;
    var align := AlignUnit(l.sectorSize, t.physicalSector);
    var minimum := Minimum(o, l.sectorSize, align);
    var plan := new Planned[|parts|](i requires 0 <= i < |parts| => Unmoved(parts[i]));
    CapturedAlone(o, parts, plan[..], lastUsable, align, minimum);
    var ok := Resize(o, parts, plan, lastUsable, align, minimum);
    if o.realign && ok {
      Realign(parts, plan, l.firstUsable, lastUsable, align, minimum);
    }
    var fits := Check(plan[..], lastUsable);
    if !ok || !fits {
      return None;
    }
    FirstIsLowest(l, o, parts, plan[..], lastUsable, align, minimum);
    return Some(plan[..]);
  }

  lemma CapturedAlone(o: Choices, parts: seq<Part>, plan: seq<Planned>, lastUsable: u64, align: u64,
                      minimum: Part -> Option<u64>)
    requires parts != [] && |plan| == |parts| && forall i :: 0 <= i < |parts| ==> plan[i] == Unmoved(parts[i])
    ensures plan == Captured(parts)
    ensures !o.grow && Placed(Captured(parts), lastUsable) ==>
              Resized(o, parts, lastUsable, align, minimum) == Sized(Captured(parts), true)
  {
    hide ShrinkPasses;
    if Placed(Captured(parts), lastUsable) {
      CapturedFits(parts, lastUsable);
    }
  }

  // The plan's first start is the one LowestStart names.
  lemma FirstIsLowest(l: Layout, o: Choices, parts: seq<Part>, plan: seq<Planned>, lastUsable: u64, align: u64,
                      minimum: Part -> Option<u64>)
    requires parts != [] && Placed(plan, lastUsable)
    requires var r := Resized(o, parts, lastUsable, align, minimum);
             && r.plan[0].first == parts[0].first
             && plan == if o.realign then RealignedPlan(parts, r.plan, l.firstUsable, lastUsable, align) else r.plan
    ensures AboveStart(plan, l.firstUsable, LowestStart(l, o, parts, lastUsable, align, minimum))
  {
    hide Resized, RealignFits, AlignUp, Placed, Size;
    LowestFirst(plan, lastUsable);
    var r := Resized(o, parts, lastUsable, align, minimum);
    if o.realign {
      assert plan[0] == (if RealignFits(parts, r.plan, l.firstUsable, lastUsable, align)
                         then Realigned(parts, r.plan, l.firstUsable, align, 0)
                         else Undone(parts[0], Realigned(parts, r.plan, l.firstUsable, align, 0)));
    }
    assert plan[0].first == LowestStart(l, o, parts, lastUsable, align, minimum);
  }

  // Grow into the new space, or shrink until everything fits.
  method Resize(o: Choices, parts: seq<Part>, plan: array<Planned>, lastUsable: u64, align: u64,
                minimum: Part -> Option<u64>)
    returns (ok: bool)
    requires plan.Length == |parts| > 0 && forall i :: 0 <= i < |parts| ==> plan[i] == Unmoved(parts[i])
    modifies plan
    ensures AllFair(parts, plan[..], minimum) && plan[0].first == parts[0].first
    ensures Sized(plan[..], ok) == Resized(o, parts, lastUsable, align, minimum)
  {
    hide AllFair, ShrinkPasses, Grown;
    UnmovedFair(parts, plan[..], minimum);
    assert plan[..] == Captured(parts);
    ok := true;
    var k := LastData(parts);
    if lastUsable >= parts[|parts| - 1].last {
      if o.grow && k.Some? && lastUsable > parts[|parts| - 1].last {
        Grow(parts, plan, k.value, lastUsable, align, o.moveTrailing, minimum);
      }
    } else {
      ok := ShrinkToFit(parts, plan, lastUsable, align, minimum);
    }
  }

  lemma LowestFirst(plan: seq<Planned>, lastUsable: u64)
    requires Placed(plan, lastUsable) && plan != []
    ensures forall i :: 0 <= i < |plan| ==> plan[0].first <= plan[i].first
  {
    forall i | 0 < i < |plan| ensures plan[0].first <= plan[i].first {
      assert plan[0].last < plan[i].first && plan[0].first <= plan[0].last;
    }
  }

  method LastData(parts: seq<Part>) returns (k: Option<nat>)
    ensures k == LastDataOf(parts, |parts|)
    ensures forall i :: 0 <= i < |parts| && parts[i].data ==> k.Some? && i <= k.value
  {
    k := None;
    for i := 0 to |parts|
      invariant k == LastDataOf(parts, i)
      invariant forall j :: 0 <= j < i && parts[j].data ==> k.Some? && j <= k.value
    {
      if parts[i].data {
        k := Some(i);
      }
    }
  }

  // A partition flagged as grown has its captured size exactly when it was to be moved by
  // a realignment that did not fit: what moved goes back whole, the flag stays.
  lemma GrownInName(l: Layout, o: Choices, parts: seq<Part>, lastUsable: u64, align: u64,
                    minimum: Part -> Option<u64>, plan: seq<Planned>, k: nat)
    requires parts != [] && Outcome(l, o, parts, lastUsable, align, minimum) == Some(plan) && k < |parts|
    ensures |plan| == |parts|
    ensures var r := Resized(o, parts, lastUsable, align, minimum).plan;
            && plan[k].grow == r[k].grow
            && (plan[k].grow ==>
                  (Size(plan[k].first, plan[k].last) == Size(parts[k].first, parts[k].last) <==>
                   && o.realign && !RealignFits(parts, r, l.firstUsable, lastUsable, align)
                   && Realigned(parts, r, l.firstUsable, align, k).first != parts[k].first))
  {
    hide RealignFrom, AlignUp, Size, Placed, RealignFits, Resized;
    var r := Resized(o, parts, lastUsable, align, minimum).plan;
    GrowsLonger(o, parts, lastUsable, align, minimum, k);
    var q := Realigned(parts, r, l.firstUsable, align, k);
    var first := AlignUp(RealignFrom(parts, r, l.firstUsable, align, k), align);
    MoveKeepsSize(r[k], first);
    if o.realign {
      assert plan[k] ==
             if RealignFits(parts, r, l.firstUsable, lastUsable, align) then q else Undone(parts[k], q);
    }
  }

  // Growing leaves the start and gives a later end.
  lemma GrowsLonger(o: Choices, parts: seq<Part>, lastUsable: u64, align: u64, minimum: Part -> Option<u64>, k: nat)
    requires parts != [] && k < |parts|
    ensures var q := Resized(o, parts, lastUsable, align, minimum).plan[k];
            q.grow ==> && !q.moved && !q.shrink && q.first == parts[k].first && !parts[k].logical
                       && Size(q.first, q.last) != Size(parts[k].first, parts[k].last)
  {
    hide PackedEnd, PackedFirst;
    if lastUsable < parts[|parts| - 1].last {
      NeverGrows(parts, Captured(parts), Sub(parts[|parts| - 1].last, lastUsable), lastUsable, align, minimum, 0);
    }
  }

  lemma {:induction false} NeverGrows(parts: seq<Part>, plan: seq<Planned>, need: u64, lastUsable: u64, align: u64,
                                      minimum: Part -> Option<u64>, pass: nat)
    requires |plan| == |parts| > 0 && pass <= PASSES && forall i :: 0 <= i < |parts| ==> !plan[i].grow
    ensures forall i :: 0 <= i < |parts| ==>
              !ShrinkPasses(parts, plan, need, lastUsable, align, minimum, pass).plan[i].grow
    decreases PASSES - pass
  {
    hide NeedAfter, Taken, LaidAgain, Overrun, NothingInTheWay;
    if pass < PASSES && need > 0 {
      PassKeeps(parts, plan, need, align, minimum);
      var laid := LaidAgain(parts, Taken(parts, plan, need, align, minimum), align);
      NeverGrows(parts, laid, Overrun(laid[|parts| - 1].last, lastUsable, align), lastUsable, align, minimum, pass + 1);
    }
  }

  // A partition off its boundary, to be grown and realigned: it is planned as it was, and
  // flagged as grown.
  method GrowthUndone() returns (l: Layout, t: Target, o: Choices, res: Fitted)
    ensures l.sectorSize < M && t.physicalSector < M && Answers(l, t, o, res) && o.grow && o.realign
    ensures l.parts == [Part(0, true, false, 63, 2000)] && res.Plan? && res.parts == l.parts
    ensures res.planned == [Planned(63, 2000, false, true, false)]
  {
    hide Answers, LastUsable, Quot, AlignUnit, Outcome, Promised;
    l := Layout(true, 512, 16896, 34, [Part(0, true, false, 63, 2000)]);
    t := Target(0x4000_0000, 512, 512);
    o := Choices(true, false, true, p => None);
    SampleTarget(l);
    UndoneOutcome(l, o);
    res := PlanFit(l, t, o);
    OnlyAnswer(l, t, o, res);
  }

  lemma SampleTarget(l: Layout)
    requires l.gpt && l.sectorSize == 512 && l.backupLength == 16896
    ensures LastUsable(l, Quot(0x4000_0000, 512)) == Some(0x20_0000 - 34) && AlignUnit(512, 512) == 2048
  {
    assert Quot(0x4000_0000, 512) == 0x20_0000 && Sectors(16384, 512) == 32 && Quot(0x10_0000, 512) == 2048;
  }

  lemma UndoneOutcome(l: Layout, o: Choices)
    requires l.firstUsable == 34 && l.parts == [Part(0, true, false, 63, 2000)]
    requires o.grow && !o.moveTrailing && o.realign
    ensures Outcome(l, o, l.parts, 0x20_0000 - 34, 2048, Minimum(o, 512, 2048)) ==
            Some([Planned(63, 2000, false, true, false)])
  {
    hide Minimum;
    var parts, lastUsable, minimum := l.parts, 0x20_0000 - 34, Minimum(o, 512, 2048);
    assert LastDataOf(parts, 1) == Some(0);
    assert Growable(parts, 0, lastUsable, false);
    var r := Resized(o, parts, lastUsable, 2048, minimum).plan;
    assert r == [Planned(63, lastUsable, false, true, false)];
    assert RealignFrom(parts, r, 34, 2048, 0) == 2048;
    assert Realigned(parts, r, 34, 2048, 0) == MovedTo(r[0], 2048);
    assert !RealignFits(parts, r, 34, lastUsable, 2048);
    assert RealignedPlan(parts, r, 34, lastUsable, 2048) == [Planned(63, 2000, false, true, false)];
  }

  // With one partition there is one order.
  lemma OnlyAnswer(l: Layout, t: Target, o: Choices, res: Fitted)
    requires 0 < l.sectorSize < M && t.physicalSector < M && |l.parts| == 1 && Answers(l, t, o, res)
    requires !BadTarget(l, t) && LastUsable(l, Quot(t.size, l.sectorSize)).Some?
    ensures res == Verdict(l, t, o, l.parts, LastUsable(l, Quot(t.size, l.sectorSize)).value)
  {
    hide BadTarget, LastUsable, Quot, Verdict;
    var parts :| Decided(l, t, o, parts, res);
    SameLength(parts, l.parts);
    SameMembers(parts, l.parts, parts[0]);
    assert parts == l.parts;
  }

  lemma StartOrder()
    ensures TotalPreorder(ByStart)
  {
  }

  lemma AlignsUp(lba: u64, unit: u64)
    requires lba + unit < M
    ensures lba <= AlignUp(lba, unit) <= lba + unit
  {
  }

  lemma AlignTwice(lba: u64, unit: u64)
    ensures lba + 2 * unit < M ==> lba <= AlignUp(AlignUp(lba, unit), unit)
  {
    hide AlignUp;
    if lba + 2 * unit < M {
      AlignsUp(lba, unit);
      AlignsUp(AlignUp(lba, unit), unit);
    }
  }

  // ---- What a plan means in plain numbers ----

  lemma PlanMeaning(p: Part, q: Planned, minimum: Option<u64>)
    requires Fair(p, q, minimum) && p.first <= p.last < M - 1 && q.first <= q.last < M - 1
    ensures !q.shrink && !q.grow ==> q.last - q.first == p.last - p.first
    ensures !q.shrink && !q.grow && !q.moved ==> q.first == p.first && q.last == p.last
    ensures q.shrink ==> q.last - q.first < p.last - p.first
    ensures q.grow ==> q.last - q.first >= p.last - p.first
    ensures !p.data || p.logical ==> q.last - q.first == p.last - p.first
    ensures p.logical ==> q.first == p.first && q.last == p.last
    ensures q.shrink && minimum.Some? ==> q.last - q.first + 1 >= minimum.value
  {
  }

  // A known minimum, rounded up to sectors and alignment, is enough bytes.
  lemma MinimumIsEnough(bytes: i64, ss: u64, align: u64)
    requires bytes >= 0 && ss > 0 && align < 0x8000_0000_0000_0000 && ss < 0x8000_0000_0000_0000
    ensures AlignUp(Sectors(ToU64(bytes), ss), align) * ss >= bytes
  {
    var q := Sectors(ToU64(bytes), ss);
    assert q * ss >= bytes by {
      RoundsUp(bytes, ss);
    }
    assert q < 0x8000_0000_0000_0000 by {
      FewerSectors(bytes, ss);
    }
    AlignsUp(q, align);
    MulMono(q, AlignUp(q, align), ss);
  }

  lemma RoundsUp(bytes: nat, ss: nat)
    requires ss > 0
    ensures (bytes + ss - 1) / ss * ss >= bytes
  {
  }

  lemma FewerSectors(bytes: nat, ss: nat)
    requires ss > 0
    ensures (bytes + ss - 1) / ss <= bytes
  {
    if bytes > 0 {
      assert bytes + ss - 1 <= bytes * ss by {
        MulMono(1, bytes, ss);
        Spread(bytes, ss);
      }
      DivMono(bytes + ss - 1, bytes, ss);
    }
  }

  lemma Spread(a: nat, b: nat)
    requires a > 0 && b > 0
    ensures a + b - 1 <= a * b
  {
    MulMono(1, b, a - 1);
    assert a * b == (a - 1) * b + b;
  }

  lemma DivMono(x: nat, a: nat, ss: nat)
    requires ss > 0 && x <= a * ss
    ensures x / ss <= a
  {
  }

  lemma MulMono(a: nat, b: nat, c: nat)
    requires a <= b
    ensures a * c <= b * c
  {
  }
}
