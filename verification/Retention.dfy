/** Which backups a retention policy keeps (core/retention).

The kept set is the least one that contains the seeds (backups still running,
and the newest of each age bucket of each source) and is closed under parents
and machine-snapshot siblings. */
module Retention {
  import opened Sorting
  import opened StringOrder

  // Times and durations in nanoseconds.
  datatype BackupMeta = BackupMeta(
    id: string, source: string, status: string, startedAt: int, completedAt: int, parent: string, snapshot: string)

  datatype Policy = Policy(withinWeek: int, afterWeek: int, after90Days: int, afterYear: int)

  const DAY := 24 * 3600 * 1000000000

  predicate Completed(b: BackupMeta) {
    b.status == "completed"
  }

  // ---- The order ----

  predicate Newer(a: BackupMeta, b: BackupMeta) {
    if a.completedAt != b.completedAt then a.completedAt > b.completedAt
    else if a.startedAt != b.startedAt then a.startedAt > b.startedAt
    else Less(a.id, b.id)
  }

  predicate NotOlder(a: BackupMeta, b: BackupMeta) {
    !Newer(b, a)
  }

  lemma NewerAsymmetric(a: BackupMeta, b: BackupMeta)
    ensures !(Newer(a, b) && Newer(b, a))
  {
    LessAsymmetric(a.id, b.id);
  }

  lemma NewerTotal(a: BackupMeta, b: BackupMeta)
    ensures a.id == b.id || Newer(a, b) || Newer(b, a)
  {
    LessTotal(a.id, b.id);
  }

  lemma NewerTransitive(a: BackupMeta, b: BackupMeta, c: BackupMeta)
    requires Newer(a, b) && Newer(b, c)
    ensures Newer(a, c)
  {
    if a.completedAt == c.completedAt && a.startedAt == c.startedAt {
      LessTransitive(a.id, b.id, c.id);
    }
  }

  lemma NotOlderTransitive(a: BackupMeta, b: BackupMeta, c: BackupMeta)
    requires NotOlder(a, b) && NotOlder(b, c)
    ensures NotOlder(a, c)
  {
    if Newer(c, a) {
      if a.completedAt == b.completedAt == c.completedAt && a.startedAt == b.startedAt == c.startedAt {
        LessTotal(a.id, b.id);
        if Less(a.id, b.id) {
          LessTransitive(c.id, a.id, b.id);
        }
      }
    }
  }

  lemma RecencyOrder()
    ensures TotalPreorder(NotOlder)
  {
    forall a, b ensures NotOlder(a, b) || NotOlder(b, a) {
      NewerAsymmetric(a, b);
    }
    forall a, b, c | NotOlder(a, b) && NotOlder(b, c) ensures NotOlder(a, c) {
      NotOlderTransitive(a, b, c);
    }
  }

  // ---- The specification ----

  function CadenceFor(p: Policy, age: int): int {
    if age < 7 * DAY then p.withinWeek
    else if age < 90 * DAY then p.afterWeek
    else if age < 365 * DAY then p.after90Days
    else p.afterYear
  }

  // Go's division, towards zero.
  function Quotient(a: int, b: int): int
    requires b > 0
  {
    if a >= 0 then a / b else -((-a) / b)
  }

  // The bucket a backup competes in; Own when its tier keeps everything.
  datatype Bucket = Own | Bucket(cadence: int, number: int)

  function BucketOf(p: Policy, now: int, b: BackupMeta): Bucket {
    var age := now - b.completedAt;
    var cadence := CadenceFor(p, age);
    if cadence <= 0 then Own else Bucket(cadence, Quotient(age, cadence))
  }

  // a and b compete for the same place.
  ghost predicate Rivals(p: Policy, now: int, a: BackupMeta, b: BackupMeta) {
    && Completed(a) && Completed(b) && a.source == b.source
    && BucketOf(p, now, a) == BucketOf(p, now, b) && BucketOf(p, now, b).Bucket?
  }

  ghost predicate Beaten(bs: seq<BackupMeta>, p: Policy, now: int, b: BackupMeta) {
    exists a :: a in bs && Rivals(p, now, a, b) && Newer(a, b)
  }

  ghost predicate IsSeed(bs: seq<BackupMeta>, p: Policy, now: int, b: BackupMeta) {
    !Completed(b) || !Beaten(bs, p, now, b)
  }

  ghost function Seeds(bs: seq<BackupMeta>, p: Policy, now: int): set<string> {
    set b | b in bs && IsSeed(bs, p, now, b) :: b.id
  }

  ghost predicate UniqueIds(bs: seq<BackupMeta>) {
    forall a, b :: a in bs && b in bs && a.id == b.id ==> a == b
  }

  // s holds b's parent, and its snapshot's other members.
  ghost predicate Holds(bs: seq<BackupMeta>, s: set<string>, b: BackupMeta) {
    && (b.parent != "" ==> b.parent in s)
    && (b.snapshot != "" ==> forall c :: c in bs && c.snapshot == b.snapshot ==> c.id in s)
  }

  ghost predicate Closed(bs: seq<BackupMeta>, s: set<string>) {
    forall b :: b in bs && b.id in s ==> Holds(bs, s, b)
  }

  // x is in every closed set around the seeds.
  ghost predicate Forced(bs: seq<BackupMeta>, seeds: set<string>, x: string) {
    forall s: set<string> :: seeds <= s && Closed(bs, s) ==> x in s
  }

  ghost predicate LeastClosed(bs: seq<BackupMeta>, seeds: set<string>, kept: set<string>) {
    seeds <= kept && Closed(bs, kept) && forall x :: x in kept ==> Forced(bs, seeds, x)
  }

  ghost predicate Ranked(bs: seq<BackupMeta>, rank: string -> nat) {
    forall a, b :: a in bs && b in bs && a.parent == b.id && a.parent != "" ==> rank(b.id) < rank(a.id)
  }

  ghost predicate Acyclic(bs: seq<BackupMeta>) {
    exists rank: string -> nat :: Ranked(bs, rank)
  }

  // ---- The order and the buckets in plain numbers ----

  // c finished later than b; or in the same instant, having started later; or both in the
  // same instants, with the smaller id.
  ghost predicate Later(c: BackupMeta, b: BackupMeta) {
    || c.completedAt > b.completedAt
    || (c.completedAt == b.completedAt && c.startedAt > b.startedAt)
    || (c.completedAt == b.completedAt && c.startedAt == b.startedAt && Less(c.id, b.id))
  }

  lemma NewerIsLater(a: BackupMeta, b: BackupMeta)
    ensures Newer(a, b) <==> Later(a, b)
  {
  }

  // k is the cadence for backups of this age: up to 7, 90 and 365 days, and beyond.
  ghost predicate Cadence(p: Policy, age: int, k: int) {
    && (age < 604_800_000_000_000 ==> k == p.withinWeek)
    && (604_800_000_000_000 <= age < 7_776_000_000_000_000 ==> k == p.afterWeek)
    && (7_776_000_000_000_000 <= age < 31_536_000_000_000_000 ==> k == p.after90Days)
    && (31_536_000_000_000_000 <= age ==> k == p.afterYear)
  }

  // age is n whole cadences and a part of one, counted from zero up or down.
  ghost predicate Steps(age: int, k: int, n: int) {
    && (age >= 0 ==> n * k <= age < n * k + k)
    && (age < 0 ==> n * k - k < age <= n * k && n <= 0)
  }

  // Both ages have the same cadence and the same number of whole ones.
  ghost predicate SameStep(p: Policy, now: int, a: BackupMeta, b: BackupMeta) {
    var x, y := now - a.completedAt, now - b.completedAt;
    exists k, n :: k > 0 && Cadence(p, x, k) && Cadence(p, y, k) && Steps(x, k, n) && Steps(y, k, n)
  }

  lemma StepsExactly(age: int, k: int, n: int)
    requires k > 0
    ensures Quotient(age, k) == n <==> Steps(age, k, n)
  {
    var q := Quotient(age, k);
    Whole(if age >= 0 then age else -age, k);
    if age < 0 {
      assert -((-age) / k) * k == -((-age) / k * k);
    }
    assert Steps(age, k, q);
    if Steps(age, k, n) {
      assert (n - q) * k == n * k - q * k;
      Between(n - q, k);
    }
  }

  lemma Whole(x: int, k: int)
    requires x >= 0 && k > 0
    ensures x / k * k <= x < x / k * k + k && x / k >= 0
  {
  }

  // A multiple of k less than k away from nothing is nothing.
  lemma {:induction false} Between(m: int, k: int)
    requires k > 0
    ensures m > 0 ==> m * k >= k
    ensures m < 0 ==> m * k <= -k
    decreases if m > 0 then m else -m
  {
    if m > 1 {
      Between(m - 1, k);
      assert m * k == (m - 1) * k + k;
    } else if m < -1 {
      Between(m + 1, k);
      assert m * k == (m + 1) * k - k;
    }
  }

  // Two backups share a bucket exactly then.
  lemma BucketsExactly(p: Policy, now: int, a: BackupMeta, b: BackupMeta)
    ensures BucketOf(p, now, a) == BucketOf(p, now, b) && BucketOf(p, now, b).Bucket? <==> SameStep(p, now, a, b)
  {
    hide Quotient, Steps;
    var x, y := now - a.completedAt, now - b.completedAt;
    var k := CadenceFor(p, x);
    if BucketOf(p, now, a) == BucketOf(p, now, b) && BucketOf(p, now, b).Bucket? {
      StepsExactly(x, k, Quotient(x, k));
      StepsExactly(y, k, Quotient(x, k));
    }
    if SameStep(p, now, a, b) {
      var j, n :| j > 0 && Cadence(p, x, j) && Cadence(p, y, j) && Steps(x, j, n) && Steps(y, j, n);
      StepsExactly(x, j, n);
      StepsExactly(y, j, n);
    }
  }

  // c stands in for b: finished, of the same source, in the same bucket, and later.
  ghost predicate StandsIn(p: Policy, now: int, c: BackupMeta, b: BackupMeta) {
    && c.status == "completed" && b.status == "completed" && c.source == b.source
    && SameStep(p, now, c, b) && Later(c, b)
  }

  // ---- What the specification promises ----

  lemma LeastIsUnique(bs: seq<BackupMeta>, cs: seq<BackupMeta>, seeds: set<string>, s: set<string>, t: set<string>)
    requires forall b :: b in bs <==> b in cs
    requires LeastClosed(bs, seeds, s) && LeastClosed(cs, seeds, t)
    ensures s == t
  {
    assert Closed(bs, t) && Closed(cs, s);
    forall x | x in s ensures x in t {
      assert Forced(bs, seeds, x);
    }
    forall x | x in t ensures x in s {
      assert Forced(cs, seeds, x);
    }
  }

  // The answer depends on which backups there are, not on the order they come in.
  lemma OrderDoesNotMatter(bs: seq<BackupMeta>, cs: seq<BackupMeta>, p: Policy, now: int, s: set<string>,
                           t: set<string>)
    requires forall b :: b in bs <==> b in cs
    requires LeastClosed(bs, Seeds(bs, p, now), s) && LeastClosed(cs, Seeds(cs, p, now), t)
    ensures s == t
  {
    hide LeastClosed;
    forall b | b in bs ensures IsSeed(bs, p, now, b) == IsSeed(cs, p, now, b) {}
    assert Seeds(bs, p, now) == Seeds(cs, p, now);
    LeastIsUnique(bs, cs, Seeds(bs, p, now), s, t);
  }

  // The best of b's rivals among the first n is b itself or newer than b.
  lemma {:induction false} BestRival(bs: seq<BackupMeta>, p: Policy, now: int, b: BackupMeta, n: nat)
    returns (best: BackupMeta)
    requires b in bs && n <= |bs| && Rivals(p, now, b, b)
    ensures best in bs && Rivals(p, now, best, b) && (best == b || Newer(best, b))
    ensures forall i :: 0 <= i < n && Rivals(p, now, bs[i], b) ==> !Newer(bs[i], best)
  {
    if n == 0 {
      best := b;
    } else {
      best := BestRival(bs, p, now, b, n - 1);
      var c := bs[n - 1];
      if Rivals(p, now, c, b) && Newer(c, best) {
        forall i | 0 <= i < n && Rivals(p, now, bs[i], b) ensures !Newer(bs[i], c) {
          if i == n - 1 {
            NewerAsymmetric(c, c);
          } else if Newer(bs[i], c) {
            NewerTransitive(bs[i], c, best);
          }
        }
        if best != b {
          NewerTransitive(c, best, b);
        }
        best := c;
      }
    }
  }

  // Whatever is forgotten, a strictly newer completed backup of the same source in
  // the same age bucket is kept.
  lemma ForgottenHasNewerKept(bs: seq<BackupMeta>, p: Policy, now: int, kept: set<string>, b: BackupMeta)
    returns (c: BackupMeta)
    requires LeastClosed(bs, Seeds(bs, p, now), kept) && b in bs && b.id !in kept
    ensures c in bs && c.id in kept && StandsIn(p, now, c, b)
  {
    hide Newer, BucketOf, Later, SameStep;
    assert b.id in Seeds(bs, p, now) || Beaten(bs, p, now, b);
    assert Completed(b) && Beaten(bs, p, now, b);
    var a :| a in bs && Rivals(p, now, a, b) && Newer(a, b);
    RivalsSame(p, now, a, b, b);
    c := BestRival(bs, p, now, b, |bs|);
    forall d | d in bs && Rivals(p, now, d, c) ensures !Newer(d, c) {
      RivalsSame(p, now, d, c, b);
    }
    assert !Beaten(bs, p, now, c);
    assert c.id in Seeds(bs, p, now);
    NewerIsLater(c, b);
    BucketsExactly(p, now, c, b);
  }

  lemma RivalsSame(p: Policy, now: int, a: BackupMeta, b: BackupMeta, c: BackupMeta)
    requires Rivals(p, now, a, b)
    ensures Rivals(p, now, b, b) && (Rivals(p, now, b, c) ==> Rivals(p, now, a, c))
  {
  }

  // The newest completed backup of a source is never forgotten.
  lemma NewestIsKept(bs: seq<BackupMeta>, p: Policy, now: int, kept: set<string>, b: BackupMeta)
    requires LeastClosed(bs, Seeds(bs, p, now), kept) && b in bs
    requires forall a :: a in bs && a.status == "completed" && a.source == b.source ==> !Later(a, b)
    ensures b.id in kept
  {
    hide Newer, BucketOf, Later;
    forall a | a in bs
      ensures Newer(a, b) <==> Later(a, b)
    {
      NewerIsLater(a, b);
    }
    assert IsSeed(bs, p, now, b);
    assert b.id in Seeds(bs, p, now);
  }

  // ---- Select, as it runs ----

  // Kept ids with the reason each was first kept for, and the ids to forget.
  datatype Result = Result(kept: map<string, string>, forget: seq<string>)

  ghost predicate NewestOfAll(bs: seq<BackupMeta>, b: BackupMeta) {
    forall a :: a in bs && Completed(a) && a.source == b.source ==> !Newer(a, b)
  }

  // Why b is kept, if for its own sake.
  ghost function ReasonFor(bs: seq<BackupMeta>, b: BackupMeta): string {
    if !Completed(b) then "active" else if NewestOfAll(bs, b) then "newest-of-source" else "ladder"
  }

  // Why another is kept: for a kept child, or for a kept member of its snapshot.
  ghost predicate KeptFor(bs: seq<BackupMeta>, kept: set<string>, id: string, reason: string) {
    || (reason == "chain-ancestor" && exists b :: b in bs && b.id in kept && b.parent == id)
    || (reason == "snapshot-sibling" && exists c :: c in bs && c.id == id && HasKeptSibling(bs, kept, c))
  }

  ghost predicate HasKeptSibling(bs: seq<BackupMeta>, kept: set<string>, c: BackupMeta) {
    c.snapshot != "" && exists b :: b in bs && b.id in kept && b.snapshot == c.snapshot
  }

  // Newest is one.
  lemma OneNewest(bs: seq<BackupMeta>, a: BackupMeta, b: BackupMeta)
    requires UniqueIds(bs) && a in bs && b in bs && Completed(a) && Completed(b) && a.source == b.source
    requires NewestOfAll(bs, a) && NewestOfAll(bs, b)
    ensures a == b
  {
    NewerTotal(a, b);
  }

  function Keep(m: map<string, string>, id: string, reason: string): map<string, string> {
    if id in m then m else m[id := reason]
  }

  ghost predicate OnlySeeds(bs: seq<BackupMeta>, p: Policy, now: int, m: map<string, string>) {
    m.Keys <= Seeds(bs, p, now) && forall b :: b in bs && b.id in m ==> m[b.id] == ReasonFor(bs, b)
  }

  lemma KeepSeed(bs: seq<BackupMeta>, p: Policy, now: int, m: map<string, string>, b: BackupMeta, reason: string)
    requires OnlySeeds(bs, p, now, m) && UniqueIds(bs) && b in bs && IsSeed(bs, p, now, b)
    requires b.id in m || reason == ReasonFor(bs, b)
    ensures OnlySeeds(bs, p, now, Keep(m, b.id, reason))
  {
    hide IsSeed, ReasonFor;
    assert b.id in Seeds(bs, p, now);
  }

  method MarkActive(bs: seq<BackupMeta>, ghost p: Policy, ghost now: int) returns (m: map<string, string>)
    requires UniqueIds(bs)
    ensures OnlySeeds(bs, p, now, m) && forall b :: b in bs && !Completed(b) ==> b.id in m
  {
    hide Seeds;
    m := map[];
    var i := 0;
    while i < |bs|
      invariant 0 <= i <= |bs|
      invariant OnlySeeds(bs, p, now, m) && forall j :: 0 <= j < i && !Completed(bs[j]) ==> bs[j].id in m
    {
      if !Completed(bs[i]) {
        KeepSeed(bs, p, now, m, bs[i], "active");
        m := Keep(m, bs[i].id, "active");
      }
      i := i + 1;
    }
  }

  // newest names, for every source, a completed backup none of the first n is newer than.
  ghost predicate Champions(bs: seq<BackupMeta>, n: nat, newest: map<string, BackupMeta>)
    requires n <= |bs|
  {
    && (forall s :: s in newest ==> newest[s] in bs && Completed(newest[s]) && newest[s].source == s)
    && (forall j :: 0 <= j < n && Completed(bs[j]) ==>
          bs[j].source in newest && !Newer(bs[j], newest[bs[j].source]))
  }

  method NewestOfSource(bs: seq<BackupMeta>) returns (newest: map<string, BackupMeta>)
    ensures Champions(bs, |bs|, newest)
  {
    hide Newer;
    newest := map[];
    var i := 0;
    while i < |bs|
      invariant 0 <= i <= |bs| && Champions(bs, i, newest)
    {
      var b := bs[i];
      if Completed(b) && (b.source !in newest || Newer(b, newest[b.source])) {
        forall j | 0 <= j <= i && bs[j].source == b.source && Completed(bs[j]) ensures !Newer(bs[j], b) {
          NewerAsymmetric(b, b);
          if b.source in newest && Newer(bs[j], b) {
            NewerTransitive(bs[j], b, newest[b.source]);
          }
        }
        newest := newest[b.source := b];
      }
      i := i + 1;
    }
  }

  method MarkNewest(bs: seq<BackupMeta>, ghost p: Policy, ghost now: int, m0: map<string, string>)
    returns (m: map<string, string>)
    requires OnlySeeds(bs, p, now, m0) && UniqueIds(bs)
    ensures OnlySeeds(bs, p, now, m) && m0.Keys <= m.Keys
    ensures forall b :: b in bs && Completed(b) && NewestOfAll(bs, b) ==> b.id in m
  {
    hide Newer, Seeds, BucketOf, OnlySeeds, UniqueIds;
    var newest := NewestOfSource(bs);
    m := m0;
    var rest := newest.Keys;
    while rest != {}
      invariant rest <= newest.Keys && OnlySeeds(bs, p, now, m) && m0.Keys <= m.Keys
      invariant forall s :: s in newest.Keys - rest ==> newest[s].id in m
      decreases rest
    {
      var source :| source in rest;
      var b := newest[source];
      assert forall a :: a in bs && Completed(a) && a.source == b.source ==> !Newer(a, b);
      KeepSeed(bs, p, now, m, b, "newest-of-source");
      m := Keep(m, b.id, "newest-of-source");
      rest := rest - {source};
    }
    forall b | b in bs && Completed(b) && NewestOfAll(bs, b) ensures b.id in m {
      assert b.source in newest.Keys - rest;
      OneNewest(bs, b, newest[b.source]);
    }
  }

  // list holds the completed backups of one source, newest first.
  ghost predicate Lane(bs: seq<BackupMeta>, source: string, list: seq<BackupMeta>) {
    && SortedBy(NotOlder, list)
    && forall b :: b in list <==> b in bs && Completed(b) && b.source == source
  }

  ghost predicate Filled(p: Policy, now: int, list: seq<BackupMeta>, n: nat, seen: set<Bucket>)
    requires n <= |list|
  {
    && (forall k :: k in seen ==> k.Bucket? && exists j :: 0 <= j < n && BucketOf(p, now, list[j]) == k)
    && (forall j :: 0 <= j < n && BucketOf(p, now, list[j]).Bucket? ==> BucketOf(p, now, list[j]) in seen)
  }

  // A bucket already taken was taken by a newer backup, or by this very one.
  lemma TakenBucket(bs: seq<BackupMeta>, p: Policy, now: int, source: string, list: seq<BackupMeta>, i: nat, j: nat)
    requires Lane(bs, source, list) && UniqueIds(bs) && j < i < |list|
    requires BucketOf(p, now, list[j]) == BucketOf(p, now, list[i]) && BucketOf(p, now, list[i]).Bucket?
    ensures list[j] == list[i] || Beaten(bs, p, now, list[i])
  {
    hide Newer, BucketOf;
    assert list[j] in list && list[i] in list;
    NewerTotal(list[j], list[i]);
    assert NotOlder(list[j], list[i]);
    assert Rivals(p, now, list[j], list[i]);
  }

  lemma OpenBucket(bs: seq<BackupMeta>, p: Policy, now: int, source: string, list: seq<BackupMeta>, i: nat,
                   seen: set<Bucket>)
    requires Lane(bs, source, list) && i < |list| && Filled(p, now, list, i, seen)
    requires BucketOf(p, now, list[i]) !in seen
    ensures !Beaten(bs, p, now, list[i])
  {
    hide Newer, BucketOf;
    var b := list[i];
    assert b in list;
    forall a | a in bs && Rivals(p, now, a, b) ensures !Newer(a, b) {
      assert a in list;
      var k :| 0 <= k < |list| && list[k] == a;
      assert k >= i;
      if k > i {
        assert NotOlder(list[i], list[k]);
      } else {
        NewerAsymmetric(a, a);
      }
    }
  }

  method Ladder(bs: seq<BackupMeta>, p: Policy, now: int, ghost source: string, list: seq<BackupMeta>,
                m0: map<string, string>)
    returns (m: map<string, string>)
    requires OnlySeeds(bs, p, now, m0) && UniqueIds(bs) && Lane(bs, source, list)
    requires forall b :: b in bs && Completed(b) && NewestOfAll(bs, b) ==> b.id in m0
    ensures OnlySeeds(bs, p, now, m) && m0.Keys <= m.Keys
    ensures forall b :: b in list && !Beaten(bs, p, now, b) ==> b.id in m
  {
    hide Newer, Seeds, BucketOf, OnlySeeds, Lane, Beaten, NewestOfAll, UniqueIds;
    m := m0;
    var seen := {};
    var i := 0;
    while i < |list|
      invariant 0 <= i <= |list| && OnlySeeds(bs, p, now, m) && m0.Keys <= m.Keys
      invariant Filled(p, now, list, i, seen)
      invariant forall j :: 0 <= j < i && !Beaten(bs, p, now, list[j]) ==> list[j].id in m
    {
      var b := list[i];
      InLane(bs, source, list, i);
      var k := BucketOf(p, now, b);
      if k.Own? || k !in seen {
        OpenBucket(bs, p, now, source, list, i, seen);
        KeepSeed(bs, p, now, m, b, "ladder");
        m := Keep(m, b.id, "ladder");
        seen := if k.Own? then seen else seen + {k};
      } else {
        var j :| 0 <= j < i && BucketOf(p, now, list[j]) == k;
        TakenBucket(bs, p, now, source, list, i, j);
      }
      i := i + 1;
    }
  }

  lemma InLane(bs: seq<BackupMeta>, source: string, list: seq<BackupMeta>, i: nat)
    requires Lane(bs, source, list) && i < |list|
    ensures list[i] in bs && Completed(list[i])
  {
    assert list[i] in list;
  }

  // The completed backups of one source, sorted.
  method LaneOf(bs: seq<BackupMeta>, source: string) returns (list: seq<BackupMeta>)
    ensures Lane(bs, source, list)
  {
    hide Newer;
    var picked := [];
    var i := 0;
    while i < |bs|
      invariant 0 <= i <= |bs|
      invariant forall b :: b in picked <==> b in bs[..i] && Completed(b) && b.source == source
    {
      if Completed(bs[i]) && bs[i].source == source {
        picked := picked + [bs[i]];
      }
      i := i + 1;
    }
    RecencyOrder();
    list := Sort(picked, NotOlder);
    forall b ensures b in list <==> b in picked {
      SameMembers(list, picked, b);
    }
  }

  method SelectSeeds(bs: seq<BackupMeta>, p: Policy, now: int) returns (m: map<string, string>)
    requires UniqueIds(bs)
    ensures m.Keys == Seeds(bs, p, now) && forall b :: b in bs && b.id in m ==> m[b.id] == ReasonFor(bs, b)
  {
    hide Newer, BucketOf, Lane, Beaten, ReasonFor, NewestOfAll;
    m := MarkActive(bs, p, now);
    m := MarkNewest(bs, p, now, m);
    var rest := set b | b in bs :: b.source;
    while rest != {}
      invariant OnlySeeds(bs, p, now, m)
      invariant forall b :: b in bs && !Completed(b) ==> b.id in m
      invariant forall b :: b in bs && Completed(b) && NewestOfAll(bs, b) ==> b.id in m
      invariant forall b :: b in bs && Completed(b) && b.source !in rest && !Beaten(bs, p, now, b) ==> b.id in m
      decreases rest
    {
      var source :| source in rest;
      var list := LaneOf(bs, source);
      LaneMembers(bs, source, list);
      m := Ladder(bs, p, now, source, list, m);
      rest := rest - {source};
    }
  }

  lemma LaneMembers(bs: seq<BackupMeta>, source: string, list: seq<BackupMeta>)
    requires Lane(bs, source, list)
    ensures forall b :: b in bs && Completed(b) && b.source == source ==> b in list
  {
  }

  // ---- Closing under parents and siblings ----

  // What holds of the kept map between any two additions.
  ghost predicate Growing(bs: seq<BackupMeta>, seeds: map<string, string>, m: map<string, string>) {
    && seeds.Keys <= m.Keys && m.Keys <= Universe(bs)
    && (forall x :: x in m ==> Forced(bs, seeds.Keys, x))
    && (forall x :: x in seeds ==> m[x] == seeds[x])
    && (forall x :: x in m && x !in seeds ==> KeptFor(bs, m.Keys, x, m[x]))
  }

  // Every id that can come up: the backups' own and their parents'.
  ghost function Universe(bs: seq<BackupMeta>): set<string> {
    (set b | b in bs :: b.id) + (set b | b in bs :: b.parent)
  }

  lemma ParentForced(bs: seq<BackupMeta>, seeds: set<string>, b: BackupMeta)
    requires Forced(bs, seeds, b.id) && b in bs && b.parent != ""
    ensures Forced(bs, seeds, b.parent)
  {
    forall s: set<string> | seeds <= s && Closed(bs, s) ensures b.parent in s {
      assert b.id in s && Holds(bs, s, b);
    }
  }

  lemma SiblingForced(bs: seq<BackupMeta>, seeds: set<string>, b: BackupMeta, c: BackupMeta)
    requires Forced(bs, seeds, b.id) && b in bs && c in bs && b.snapshot != "" && c.snapshot == b.snapshot
    ensures Forced(bs, seeds, c.id)
  {
    forall s: set<string> | seeds <= s && Closed(bs, s) ensures c.id in s {
      assert b.id in s && Holds(bs, s, b);
    }
  }

  lemma GrowOne(bs: seq<BackupMeta>, seeds: map<string, string>, m: map<string, string>, id: string, reason: string)
    requires Growing(bs, seeds, m) && Forced(bs, seeds.Keys, id) && id in Universe(bs)
    requires id in m || KeptFor(bs, m.Keys, id, reason)
    ensures Growing(bs, seeds, Keep(m, id, reason))
  {
    hide Forced, Universe, KeptFor;
    var m' := Keep(m, id, reason);
    forall x | x in m' && x !in seeds ensures KeptFor(bs, m'.Keys, x, m'[x]) {
      KeptForMore(bs, m.Keys, m'.Keys, x, m'[x]);
    }
  }

  lemma KeptForMore(bs: seq<BackupMeta>, s: set<string>, t: set<string>, id: string, reason: string)
    requires KeptFor(bs, s, id, reason) && s <= t
    ensures KeptFor(bs, t, id, reason)
  {
  }

  ghost predicate Indexed(bs: seq<BackupMeta>, byId: map<string, BackupMeta>) {
    && (forall b :: b in bs ==> b.id in byId && byId[b.id] == b)
    && (forall id :: id in byId ==> byId[id] in bs && byId[id].id == id)
  }

  // Keep every ancestor of b, as far as they are known.
  method KeepAncestors(bs: seq<BackupMeta>, byId: map<string, BackupMeta>, ghost seeds: map<string, string>,
                       b: BackupMeta, m0: map<string, string>)
    returns (m: map<string, string>)
    requires Indexed(bs, byId) && Acyclic(bs) && b in bs && b.id in m0 && Growing(bs, seeds, m0)
    ensures Growing(bs, seeds, m) && m0.Keys <= m.Keys && (b.parent != "" ==> b.parent in m)
  {
    hide Growing, Forced, Indexed, Ranked;
    ghost var rank: string -> nat :| Ranked(bs, rank);
    m := m0;
    var pid := b.parent;
    ghost var below := b;
    KeptIsForced(bs, seeds, m, b.id);
    while pid != ""
      invariant Growing(bs, seeds, m) && m0.Keys <= m.Keys
      invariant pid != "" ==> below in bs && below.id in m && Forced(bs, seeds.Keys, below.id) && below.parent == pid
      invariant pid == b.parent || b.parent == "" || b.parent in m
      decreases pid != "", if pid == "" then 0 else rank(below.id)
    {
      ParentForced(bs, seeds.Keys, below);
      assert KeptFor(bs, m.Keys, pid, "chain-ancestor");
      assert pid in Universe(bs);
      GrowOne(bs, seeds, m, pid, "chain-ancestor");
      m := Keep(m, pid, "chain-ancestor");
      if pid in byId {
        IndexedAt(bs, byId, pid);
        RankDown(bs, rank, below, byId[pid]);
        below := byId[pid];
        pid := byId[pid].parent;
      } else {
        pid := "";
      }
    }
  }

  lemma KeptIsForced(bs: seq<BackupMeta>, seeds: map<string, string>, m: map<string, string>, id: string)
    requires Growing(bs, seeds, m) && id in m
    ensures Forced(bs, seeds.Keys, id)
  {
    hide Forced;
  }

  lemma IndexedAt(bs: seq<BackupMeta>, byId: map<string, BackupMeta>, id: string)
    requires Indexed(bs, byId) && id in byId
    ensures byId[id] in bs && byId[id].id == id
  {
  }

  lemma RankDown(bs: seq<BackupMeta>, rank: string -> nat, a: BackupMeta, b: BackupMeta)
    requires Ranked(bs, rank) && a in bs && b in bs && a.parent == b.id && a.parent != ""
    ensures rank(b.id) < rank(a.id)
  {
  }

  method KeepSiblings(bs: seq<BackupMeta>, ghost seeds: map<string, string>, b: BackupMeta, m0: map<string, string>)
    returns (m: map<string, string>)
    requires b in bs && b.id in m0 && Growing(bs, seeds, m0)
    ensures Growing(bs, seeds, m) && m0.Keys <= m.Keys
    ensures b.snapshot != "" ==> forall c :: c in bs && c.snapshot == b.snapshot ==> c.id in m
  {
    hide Growing, Forced;
    m := m0;
    if b.snapshot == "" {
      return;
    }
    KeptIsForced(bs, seeds, m, b.id);
    var i := 0;
    while i < |bs|
      invariant 0 <= i <= |bs| && Growing(bs, seeds, m) && m0.Keys <= m.Keys
      invariant forall j :: 0 <= j < i && bs[j].snapshot == b.snapshot ==> bs[j].id in m
    {
      if bs[i].snapshot == b.snapshot {
        SiblingForced(bs, seeds.Keys, b, bs[i]);
        assert HasKeptSibling(bs, m.Keys, bs[i]);
        assert bs[i].id in Universe(bs);
        GrowOne(bs, seeds, m, bs[i].id, "snapshot-sibling");
        m := Keep(m, bs[i].id, "snapshot-sibling");
      }
      i := i + 1;
    }
  }

  // One pass over the kept ids.  Ids added on the way are left for the next pass.
  method Pass(bs: seq<BackupMeta>, byId: map<string, BackupMeta>, ghost seeds: map<string, string>,
              m0: map<string, string>)
    returns (m: map<string, string>)
    requires Indexed(bs, byId) && Acyclic(bs) && Growing(bs, seeds, m0)
    ensures Growing(bs, seeds, m) && m0.Keys <= m.Keys
    ensures m.Keys == m0.Keys ==> Closed(bs, m.Keys)
  {
    hide Growing, Forced, Acyclic, Holds;
    m := m0;
    var rest := m.Keys;
    while rest != {}
      invariant Growing(bs, seeds, m) && m0.Keys <= m.Keys && rest <= m0.Keys
      invariant forall b :: b in bs && b.id in m0.Keys - rest ==> Holds(bs, m.Keys, b)
      decreases rest
    {
      var id :| id in rest;
      ghost var before := m;
      if id in byId {
        IndexedAt(bs, byId, id);
        m := KeepAncestors(bs, byId, seeds, byId[id], m);
        m := KeepSiblings(bs, seeds, byId[id], m);
      }
      forall b | b in bs && b.id in m0.Keys - (rest - {id}) ensures Holds(bs, m.Keys, b) {
        HoldsMore(bs, before.Keys, m.Keys, b);
        if b.id == id {
          HeldNow(bs, m.Keys, b);
        }
      }
      rest := rest - {id};
    }
  }

  lemma HoldsMore(bs: seq<BackupMeta>, s: set<string>, t: set<string>, b: BackupMeta)
    requires s <= t
    ensures Holds(bs, s, b) ==> Holds(bs, t, b)
  {
  }

  lemma HeldNow(bs: seq<BackupMeta>, s: set<string>, b: BackupMeta)
    requires b.parent != "" ==> b.parent in s
    requires b.snapshot != "" ==> forall c :: c in bs && c.snapshot == b.snapshot ==> c.id in s
    ensures Holds(bs, s, b)
  {
  }

  method Close(bs: seq<BackupMeta>, byId: map<string, BackupMeta>, m0: map<string, string>)
    returns (m: map<string, string>)
    requires Indexed(bs, byId) && Acyclic(bs) && m0.Keys <= Universe(bs)
    ensures LeastClosed(bs, m0.Keys, m.Keys)
    ensures forall x :: x in m ==> if x in m0 then m[x] == m0[x] else KeptFor(bs, m.Keys, x, m[x])
  {
    hide Forced, Acyclic, Closed, Universe, KeptFor, Indexed;
    m := m0;
    SeedsForced(bs, m0.Keys);
    var changed := true;
    while changed
      invariant Growing(bs, m0, m)
      invariant !changed ==> Closed(bs, m.Keys)
      decreases Universe(bs) - m.Keys, changed
    {
      var next := Pass(bs, byId, m0, m);
      changed := next.Keys != m.Keys;
      m := next;
    }
  }

  lemma SeedsForced(bs: seq<BackupMeta>, seeds: set<string>)
    ensures forall x :: x in seeds ==> Forced(bs, seeds, x)
  {
  }

  method ById(bs: seq<BackupMeta>) returns (byId: map<string, BackupMeta>)
    requires UniqueIds(bs)
    ensures Indexed(bs, byId)
  {
    byId := map[];
    var i := 0;
    while i < |bs|
      invariant 0 <= i <= |bs|
      invariant forall j :: 0 <= j < i ==> bs[j].id in byId
      invariant forall id :: id in byId ==> byId[id] in bs && byId[id].id == id
    {
      byId := byId[bs[i].id := bs[i]];
      i := i + 1;
    }
  }

  // ---- The whole selection ----

  function Dropped(bs: seq<BackupMeta>, kept: set<string>): seq<string> {
    if bs == [] then []
    else
      var b := bs[|bs| - 1];
      Dropped(bs[..|bs| - 1], kept) + if b.id in kept then [] else [b.id]
  }

  method ForgetList(bs: seq<BackupMeta>, kept: set<string>) returns (forget: seq<string>)
    ensures SortedBy(NotAfter, forget) && multiset(forget) == multiset(Dropped(bs, kept))
  {
    hide Less;
    forget := [];
    var i := 0;
    while i < |bs|
      invariant 0 <= i <= |bs| && forget == Dropped(bs[..i], kept)
    {
      assert bs[..i + 1][..i] == bs[..i];
      if bs[i].id !in kept {
        forget := forget + [bs[i].id];
      }
      i := i + 1;
    }
    assert bs[..i] == bs;
    AlphabeticalOrder();
    forget := Sort(forget, NotAfter);
  }

  method Select(bs: seq<BackupMeta>, p: Policy, now: int) returns (res: Result)
    requires UniqueIds(bs) && Acyclic(bs)
    ensures LeastClosed(bs, Seeds(bs, p, now), res.kept.Keys)
    ensures forall b :: b in bs && b.id in Seeds(bs, p, now) ==> res.kept[b.id] == ReasonFor(bs, b)
    ensures forall x :: x in res.kept && x !in Seeds(bs, p, now) ==> KeptFor(bs, res.kept.Keys, x, res.kept[x])
    ensures SortedBy(NotAfter, res.forget) && multiset(res.forget) == multiset(Dropped(bs, res.kept.Keys))
    // Whatever is forgotten, something later that is kept stands in for it.
    ensures forall b :: b in bs && b.id !in res.kept ==>
              exists c :: c in bs && c.id in res.kept && StandsIn(p, now, c, b)
  {
    hide Forced, ReasonFor, KeptFor, Indexed, Acyclic, IsSeed, SortedBy, Dropped, StandsIn;
    var byId := ById(bs);
    var m := SelectSeeds(bs, p, now);
    assert Seeds(bs, p, now) <= Universe(bs);
    m := Close(bs, byId, m);
    var forget := ForgetList(bs, m.Keys);
    forall b | b in bs && b.id !in m
      ensures exists c :: c in bs && c.id in m && StandsIn(p, now, c, b)
    {
      var c := ForgottenHasNewerKept(bs, p, now, m.Keys, b);
    }
    res := Result(m, forget);
  }
}
