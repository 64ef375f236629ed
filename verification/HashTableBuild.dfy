/** The segmented build of the hash table (core/index/hashindex.go, buildHashTable).

The sorted file is split into K buckets by home slot, each bucket fills one
segment of the slot array, and whatever probes past the end of a segment is
carried into the next one and, after the last, around to slot 0.  The result is
proved to be a valid linear-probing table of exactly the file's records. */
module HashTableBuild {
  import opened IndexTypes
  import opened HashTables
  import Sorting

  const MIN_SEGMENTS: nat := 8
  const MAX_SEG_SLOTS: nat := 0x180_0000 / 48 // 24 MiB of 48-byte slots

  function NumSlots(entries: nat): nat {
    if entries * 2 < 1024 then 1024 else entries * 2
  }

  function Div(a: nat, b: nat): nat
    requires b > 0
  {
    a / b
  }

  function SegCount(n: nat): (k: nat)
    ensures k >= MIN_SEGMENTS
  {
    if n > MAX_SEG_SLOTS * MIN_SEGMENTS then Div(n + MAX_SEG_SLOTS - 1, MAX_SEG_SLOTS) else MIN_SEGMENTS
  }

  function SegSize(n: nat): nat {
    Div(n + SegCount(n) - 1, SegCount(n))
  }

  // q is the quotient of a rounded-up division.
  lemma CeilDiv(n: nat, k: nat, q: nat)
    requires k > 0 && q == Div(n + k - 1, k)
    ensures n <= k * q < n + k
  {
    assert n + k - 1 == k * q + (n + k - 1) % k;
  }

  // Every segment has at least one slot, and together they cover the table:
  // the count of segments was itself rounded up from the segment size bound.
  lemma NoEmptySegment(n: nat, k: nat)
    requires n >= 1024 && k < SegCount(n)
    ensures SegSize(n) > 0
    ensures k * SegSize(n) < n <= SegCount(n) * SegSize(n)
  {
    var K, q := SegCount(n), SegSize(n);
    CeilDiv(n, K, q);
    MulMono(k, K - 1, q);
    if n > MAX_SEG_SLOTS * MIN_SEGMENTS {
      CeilDiv(n, MAX_SEG_SLOTS, K);
      assert (K - 1) * MAX_SEG_SLOTS < n <= K * MAX_SEG_SLOTS;
      MulCancel(q, MAX_SEG_SLOTS + 1, K);
      MulMono(q, MAX_SEG_SLOTS, K - 1);
    }
  }

  lemma MulCancel(a: int, b: int, c: int)
    requires c > 0 && c * a < c * b
    ensures a < b
  {
  }

  lemma MulMono(a: nat, b: nat, c: nat)
    requires a <= b
    ensures a * c <= b * c
    ensures c * a <= c * b
  {
  }

  // The bucket phase 1 sends a hash to, clamp included.
  function BucketOf(h: Hash, n: nat): nat
    requires n > 0 && SegSize(n) > 0
  {
    var bi := Div(Home(h, n), SegSize(n));
    if bi >= SegCount(n) then SegCount(n) - 1 else bi
  }

  // Bucket k's records are those whose home lies in segment k.
  lemma HomeInSegment(h: Hash, n: nat)
    requires n >= 1024
    ensures SegSize(n) > 0
    ensures BucketOf(h, n) < SegCount(n)
    ensures BucketOf(h, n) * SegSize(n) <= Home(h, n) < BucketOf(h, n) * SegSize(n) + SegSize(n)
  {
    NoEmptySegment(n, 0);
    var q, home := SegSize(n), Home(h, n);
    var bi := Div(home, q);
    assert home == q * bi + home % q;
    if bi >= SegCount(n) {
      MulMono(SegCount(n), bi, q);
    }
  }

  // ---- What a partly built table keeps ----

  // Before any wrap-around, records sit at or after their home with no gap between.
  ghost predicate Forward(tab: seq<IndexEntry>, n: nat)
    requires n > 0
  {
    forall s, t :: 0 <= s < |tab| && tab[s].hash != ZERO && Home(tab[s].hash, n) <= t < s ==> tab[t].hash != ZERO
  }

  ghost predicate NoneAhead(tab: seq<IndexEntry>, n: nat)
    requires n > 0
  {
    forall s :: 0 <= s < |tab| && tab[s].hash != ZERO ==> Home(tab[s].hash, n) <= s
  }

  // Every slot from e's home up to `upto` is taken, so e must go further.
  ghost predicate Reaches(tab: seq<IndexEntry>, e: IndexEntry, n: nat, upto: nat)
    requires n > 0 && upto <= |tab|
  {
    && Home(e.hash, n) < upto
    && forall t :: Home(e.hash, n) <= t < upto ==> tab[t].hash != ZERO
  }

  ghost predicate Has(es: seq<IndexEntry>, h: Hash) {
    exists i :: 0 <= i < |es| && es[i].hash == h
  }

  ghost predicate Conform(es: seq<IndexEntry>, m: map<Hash, IndexEntry>) {
    forall i :: 0 <= i < |es| && es[i].hash != ZERO ==> es[i].hash in m && m[es[i].hash] == es[i]
  }

  ghost predicate Apart(tab: seq<IndexEntry>, pending: seq<IndexEntry>) {
    forall i, j :: 0 <= i < |tab| && 0 <= j < |pending| ==> tab[i].hash != pending[j].hash
  }

  ghost predicate Cover(tab: seq<IndexEntry>, pending: seq<IndexEntry>, m: map<Hash, IndexEntry>) {
    forall h :: h in m ==> Has(tab, h) || Has(pending, h)
  }

  // The table and the records still to be placed share out m without overlap.
  ghost predicate Accounts(tab: seq<IndexEntry>, pending: seq<IndexEntry>, m: map<Hash, IndexEntry>) {
    && ZERO !in m
    && SlotsDistinct(tab) && Conform(tab, m)
    && Distinct(pending) && NonZero(pending) && Conform(pending, m)
    && Apart(tab, pending)
    && Cover(tab, pending, m)
  }

  ghost predicate Building(tab: seq<IndexEntry>, carry: seq<IndexEntry>, m: map<Hash, IndexEntry>, n: nat) {
    && 0 < n && |tab| <= n
    && Forward(tab, n) && NoneAhead(tab, n)
    && (forall j :: 0 <= j < |carry| ==> Reaches(tab, carry[j], n, |tab|))
    && Accounts(tab, carry, m)
  }

  lemma HasAfterWrite(tab: seq<IndexEntry>, s: nat, e: IndexEntry, h: Hash)
    requires s < |tab| && tab[s].hash == ZERO != h
    ensures Has(tab[s := e], h) <==> Has(tab, h) || h == e.hash
  {
    var tab' := tab[s := e];
    if i :| 0 <= i < |tab| && tab[i].hash == h {
      assert tab'[i].hash == h;
    }
    assert tab'[s].hash == e.hash;
    if i :| 0 <= i < |tab'| && tab'[i].hash == h {
      assert i != s ==> tab[i].hash == h;
    }
  }

  lemma HasInParts(a: seq<IndexEntry>, e: IndexEntry, b: seq<IndexEntry>, h: Hash)
    ensures Has(a + [e] + b, h) <==> Has(a + b, h) || h == e.hash
  {
    if i :| 0 <= i < |a + [e] + b| && (a + [e] + b)[i].hash == h {
      assert i < |a| ==> (a + b)[i].hash == h;
      assert i > |a| ==> (a + b)[i - 1].hash == h;
    }
    if i :| 0 <= i < |a + b| && (a + b)[i].hash == h {
      assert i < |a| ==> (a + [e] + b)[i].hash == h;
      assert i >= |a| ==> (a + [e] + b)[i + 1].hash == h;
    }
    assert (a + [e] + b)[|a|].hash == e.hash;
  }

  lemma AccountNewPlaced(tab: seq<IndexEntry>, pending: seq<IndexEntry>, m: map<Hash, IndexEntry>,
                         e: IndexEntry, s: nat)
    requires Accounts(tab, pending, m)
    requires e.hash != ZERO && e.hash !in m
    requires s < |tab| && tab[s].hash == ZERO
    ensures Accounts(tab[s := e], pending, m[e.hash := e])
  {
    forall h | h in m[e.hash := e] ensures Has(tab[s := e], h) || Has(pending, h) {
      HasAfterWrite(tab, s, e, h);
    }
  }

  lemma AccountNewPending(tab: seq<IndexEntry>, pending: seq<IndexEntry>, m: map<Hash, IndexEntry>, e: IndexEntry)
    requires Accounts(tab, pending, m)
    requires e.hash != ZERO && e.hash !in m
    ensures Accounts(tab, pending + [e], m[e.hash := e])
  {
    forall h | h in m[e.hash := e] ensures Has(tab, h) || Has(pending + [e], h) {
      HasInParts(pending, e, [], h);
      assert pending + [e] + [] == pending + [e] && pending + [] == pending;
    }
  }

  // Placing a pending record at a free slot moves it from one side to the other.
  lemma AccountMove(tab: seq<IndexEntry>, a: seq<IndexEntry>, e: IndexEntry, b: seq<IndexEntry>,
                    m: map<Hash, IndexEntry>, s: nat)
    requires Accounts(tab, a + [e] + b, m)
    requires s < |tab| && tab[s].hash == ZERO
    ensures e.hash != ZERO && Accounts(tab[s := e], a + b, m)
  {
    assert (a + [e] + b)[|a|] == e;
    PendingAfterRemove(a, e, b);
    TableAfterMove(tab, a, e, b, m, s);
    forall h | h in m ensures Has(tab[s := e], h) || Has(a + b, h) {
      HasAfterWrite(tab, s, e, h);
      HasInParts(a, e, b, h);
    }
  }

  lemma PendingAfterRemove(a: seq<IndexEntry>, e: IndexEntry, b: seq<IndexEntry>)
    requires Distinct(a + [e] + b) && NonZero(a + [e] + b)
    ensures Distinct(a + b) && NonZero(a + b)
    ensures forall j :: 0 <= j < |a + b| ==> (a + b)[j].hash != e.hash && (a + b)[j] in a + [e] + b
  {
    var all := a + [e] + b;
    assert all[|a|] == e;
    assert forall j :: 0 <= j < |a + b| ==> (a + b)[j] == all[if j < |a| then j else j + 1];
  }

  lemma TableAfterMove(tab: seq<IndexEntry>, a: seq<IndexEntry>, e: IndexEntry, b: seq<IndexEntry>,
                       m: map<Hash, IndexEntry>, s: nat)
    requires SlotsDistinct(tab) && Conform(tab, m) && Apart(tab, a + [e] + b)
    requires Conform(a + [e] + b, m) && e.hash != ZERO
    requires Distinct(a + [e] + b) && NonZero(a + [e] + b)
    requires s < |tab| && tab[s].hash == ZERO
    ensures SlotsDistinct(tab[s := e]) && Conform(tab[s := e], m) && Conform(a + b, m)
    ensures Apart(tab[s := e], a + b)
  {
    var all := a + [e] + b;
    assert all[|a|] == e;
    PendingAfterRemove(a, e, b);
    assert forall i :: 0 <= i < |tab| ==> tab[i].hash != all[|a|].hash;
  }

  lemma ForwardAfterFill(tab: seq<IndexEntry>, n: nat, e: IndexEntry, s: nat)
    requires n > 0 && Forward(tab, n) && NoneAhead(tab, n)
    requires e.hash != ZERO && s < |tab| && Home(e.hash, n) <= s
    requires forall t :: Home(e.hash, n) <= t < s ==> tab[t].hash != ZERO
    ensures Forward(tab[s := e], n) && NoneAhead(tab[s := e], n)
  {
  }

  // Opening a segment of empty slots behind the finished part.
  lemma StartSegment(out: seq<IndexEntry>, zeros: seq<IndexEntry>, carry: seq<IndexEntry>,
                     m: map<Hash, IndexEntry>, n: nat)
    requires Building(out, carry, m, n) && |out| + |zeros| <= n
    requires forall i :: 0 <= i < |zeros| ==> zeros[i].hash == ZERO
    ensures Forward(out + zeros, n) && NoneAhead(out + zeros, n)
    ensures Accounts(out + zeros, carry, m)
  {
    forall h | h in m ensures Has(out + zeros, h) || Has(carry, h) {
      if i :| 0 <= i < |out| && out[i].hash == h {
        assert (out + zeros)[i].hash == h;
      }
    }
  }

  // ---- The build ----

  function BucketFilter(file: seq<IndexEntry>, n: nat, k: nat): seq<IndexEntry>
    requires n > 0 && SegSize(n) > 0
  {
    if file == [] then []
    else
      var last := file[|file| - 1];
      BucketFilter(file[..|file| - 1], n, k) + if BucketOf(last.hash, n) == k then [last] else []
  }

  lemma {:induction false} BucketFilterMap(file: seq<IndexEntry>, n: nat, k: nat)
    requires n > 0 && SegSize(n) > 0 && Distinct(file)
    ensures Distinct(BucketFilter(file, n, k))
    ensures forall e :: e in BucketFilter(file, n, k) <==> e in file && BucketOf(e.hash, n) == k
  {
    if file != [] {
      var front, last := file[..|file| - 1], file[|file| - 1];
      BucketFilterMap(front, n, k);
      assert file == front + [last];
      var b := BucketFilter(front, n, k);
      forall i | 0 <= i < |b| ensures b[i].hash != last.hash {
        assert b[i] in front;
      }
    }
  }

  // Phase 1: one pass over the sorted file appends each record to its bucket.
  method Distribute(file: seq<IndexEntry>, n: nat) returns (bkts: seq<seq<IndexEntry>>)
    requires n >= 1024
    ensures SegSize(n) > 0 && |bkts| == SegCount(n)
    ensures forall k :: 0 <= k < |bkts| ==> bkts[k] == BucketFilter(file, n, k)
  {
    var K := SegCount(n);
    NoEmptySegment(n, 0);
    bkts := seq(K, _ => []);
    var i := 0;
    while i < |file|
      invariant 0 <= i <= |file| && |bkts| == K
      invariant forall k :: 0 <= k < K ==> bkts[k] == BucketFilter(file[..i], n, k)
    {
      assert file[..i + 1][..i] == file[..i];
      var bi := BucketOf(file[i].hash, n);
      bkts := bkts[bi := bkts[bi] + [file[i]]];
      i := i + 1;
    }
    assert file[..i] == file;
  }

  // The first slot at or after `from` that is empty or holds h.
  method Scan(part: seq<IndexEntry>, from: nat, h: Hash) returns (p: nat)
    requires from <= |part|
    ensures from <= p <= |part|
    ensures forall t :: from <= t < p ==> part[t].hash != ZERO && part[t].hash != h
    ensures p < |part| ==> part[p].hash == ZERO || part[p].hash == h
  {
    p := from;
    while p < |part| && part[p].hash != ZERO && part[p].hash != h
      invariant from <= p <= |part|
      invariant forall t :: from <= t < p ==> part[t].hash != ZERO && part[t].hash != h
    {
      p := p + 1;
    }
  }

  // What holds while the carry is being placed: `left` has been passed on past
  // this segment, `rest` is still to come, and slots before nf are taken.
  ghost predicate Carrying(out: seq<IndexEntry>, part: seq<IndexEntry>, nf: nat, left: seq<IndexEntry>,
                           rest: seq<IndexEntry>, m: map<Hash, IndexEntry>, n: nat) {
    && 0 < n && |out| + |part| <= n && nf <= |part|
    && Forward(out + part, n) && NoneAhead(out + part, n)
    && (forall t :: 0 <= t < nf ==> part[t].hash != ZERO)
    && (forall j :: 0 <= j < |left| ==> Reaches(out + part, left[j], n, |out + part|))
    && (forall j :: 0 <= j < |rest| ==> Reaches(out, rest[j], n, |out|))
    && Accounts(out + part, left + rest, m)
  }

  lemma CarryPlaced(out: seq<IndexEntry>, part: seq<IndexEntry>, nf: nat, left: seq<IndexEntry>,
                    rest: seq<IndexEntry>, m: map<Hash, IndexEntry>, n: nat)
    requires Carrying(out, part, nf, left, rest, m, n)
    requires rest != [] && nf < |part| && part[nf].hash == ZERO
    ensures Carrying(out, part[nf := rest[0]], nf + 1, left, rest[1..], m, n)
  {
    hide Accounts;
    var e, tab, s := rest[0], out + part, |out| + nf;
    assert left + rest == left + [e] + rest[1..];
    assert (left + rest)[|left|] == e;
    assert Reaches(out, rest[0], n, |out|);
    AccountMove(tab, left, e, rest[1..], m, s);
    ForwardAfterFill(tab, n, e, s);
    assert tab[s := e] == out + part[nf := e];
    forall j | 0 <= j < |left| ensures Reaches(tab[s := e], left[j], n, |tab|) {
      assert Reaches(tab, left[j], n, |tab|);
    }
  }

  lemma CarryPassedOn(out: seq<IndexEntry>, part: seq<IndexEntry>, left: seq<IndexEntry>,
                      rest: seq<IndexEntry>, m: map<Hash, IndexEntry>, n: nat)
    requires Carrying(out, part, |part|, left, rest, m, n)
    requires rest != []
    ensures Carrying(out, part, |part|, left + [rest[0]], rest[1..], m, n)
  {
    assert left + rest == left + [rest[0]] + rest[1..];
    assert Reaches(out, rest[0], n, |out|);
    assert Reaches(out + part, rest[0], n, |out + part|);
  }

  // A new segment of empty slots, with the previous segment's carry placed in it
  // from slot 0 on.
  method PlaceCarried(out: seq<IndexEntry>, thisSeg: nat, carry: seq<IndexEntry>, n: nat,
                      ghost m: map<Hash, IndexEntry>)
    returns (part: seq<IndexEntry>, left: seq<IndexEntry>, placed: nat)
    requires Building(out, carry, m, n)
    requires |out| + thisSeg <= n
    ensures |part| == thisSeg
    ensures Building(out + part, left, m, n)
    ensures placed + |left| == |carry|
  {
    part := seq(thisSeg, _ => EMPTY_SLOT);
    left := [];
    placed := 0;
    var nf := 0;
    var c := 0;
    StartSegment(out, part, carry, m, n);
    assert left + carry[0..] == carry;
    while c < |carry|
      invariant 0 <= c <= |carry| && nf <= thisSeg && |part| == thisSeg
      invariant placed + |left| == c
      invariant Carrying(out, part, nf, left, carry[c..], m, n)
    {
      assert carry[c..][1..] == carry[c + 1..];
      nf := Scan(part, nf, ZERO);
      if nf < thisSeg {
        CarryPlaced(out, part, nf, left, carry[c..], m, n);
        part := part[nf := carry[c]];
        nf := nf + 1;
        placed := placed + 1;
      } else {
        CarryPassedOn(out, part, left, carry[c..], m, n);
        left := left + [carry[c]];
      }
      c := c + 1;
    }
    assert left + carry[c..] == left;
  }

  lemma BucketPlaced(out: seq<IndexEntry>, part: seq<IndexEntry>, carry: seq<IndexEntry>,
                     m: map<Hash, IndexEntry>, n: nat, e: IndexEntry, p: nat)
    requires Building(out + part, carry, m, n)
    requires e.hash != ZERO && e.hash !in m
    requires |out| <= Home(e.hash, n) <= |out| + p < |out| + |part|
    requires part[p].hash == ZERO
    requires forall t :: Home(e.hash, n) - |out| <= t < p ==> part[t].hash != ZERO
    ensures Building(out + part[p := e], carry, m[e.hash := e], n)
  {
    var tab, s := out + part, |out| + p;
    assert tab[s := e] == out + part[p := e];
    AccountNewPlaced(tab, carry, m, e, s);
    ForwardAfterFill(tab, n, e, s);
    forall j | 0 <= j < |carry| ensures Reaches(tab[s := e], carry[j], n, |tab|) {
      assert Reaches(tab, carry[j], n, |tab|);
    }
  }

  lemma BucketCarried(out: seq<IndexEntry>, part: seq<IndexEntry>, carry: seq<IndexEntry>, m: map<Hash, IndexEntry>,
                      n: nat, e: IndexEntry)
    requires Building(out + part, carry, m, n)
    requires e.hash != ZERO && e.hash !in m
    requires |out| <= Home(e.hash, n) < |out| + |part|
    requires forall t :: Home(e.hash, n) - |out| <= t < |part| ==> part[t].hash != ZERO
    ensures Building(out + part, carry + [e], m[e.hash := e], n)
  {
    var tab := out + part;
    assert forall t :: |out| <= t < |tab| ==> tab[t] == part[t - |out|];
    assert Reaches(tab, e, n, |tab|);
    AccountNewPending(tab, carry, m, e);
  }

  // A hash not yet accounted for is nowhere in the table, so the build's check
  // for duplicates never fires.
  lemma NoDuplicate(out: seq<IndexEntry>, part: seq<IndexEntry>, carry: seq<IndexEntry>, m: map<Hash, IndexEntry>,
                    n: nat, h: Hash)
    requires Building(out + part, carry, m, n)
    requires h != ZERO && h !in m
    ensures forall p :: 0 <= p < |part| ==> part[p].hash != h
  {
    assert forall p :: 0 <= p < |part| ==> (out + part)[|out| + p] == part[p];
  }

  // The segment's own bucket, probed into the slots the carry left free; a
  // record that finds none joins the carry.
  method PlaceBucket(out: seq<IndexEntry>, part0: seq<IndexEntry>, carry0: seq<IndexEntry>, b: seq<IndexEntry>,
                     n: nat, ghost m: map<Hash, IndexEntry>)
    returns (part: seq<IndexEntry>, carry: seq<IndexEntry>, placed: nat)
    requires Building(out + part0, carry0, m, n)
    requires Distinct(b) && NonZero(b)
    requires forall j :: 0 <= j < |b| ==> b[j].hash !in m && |out| <= Home(b[j].hash, n) < |out| + |part0|
    ensures |part| == |part0|
    ensures Building(out + part, carry, m + MapOf(b), n)
    ensures placed + |carry| == |carry0| + |b|
  {
    hide Building, MapOf;
    part, carry, placed := part0, carry0, 0;
    var j := 0;
    NoneProcessed(b, m);
    while j < |b|
      invariant 0 <= j <= |b| && |part| == |part0|
      invariant Building(out + part, carry, m + MapOf(b[..j]), n)
      invariant placed + |carry| == |carry0| + j
    {
      var e := b[j];
      ghost var m1 := m + MapOf(b[..j]);
      NotYet(b, j, m);
      NoDuplicate(out, part, carry, m1, n, e.hash);
      var rel := Home(e.hash, n) - |out|;
      var p := Scan(part, rel, e.hash);
      if p < |part| {
        BucketPlaced(out, part, carry, m1, n, e, p);
        part := part[p := e];
        placed := placed + 1;
      } else {
        BucketCarried(out, part, carry, m1, n, e);
        carry := carry + [e];
      }
      j := j + 1;
    }
    assert b[..j] == b;
  }

  lemma NotYet(b: seq<IndexEntry>, j: nat, m: map<Hash, IndexEntry>)
    requires Distinct(b) && j < |b|
    requires b[j].hash !in m
    ensures b[j].hash !in m + MapOf(b[..j])
    ensures m + MapOf(b[..j + 1]) == (m + MapOf(b[..j]))[b[j].hash := b[j]]
  {
    assert b[..j + 1][..j] == b[..j];
    MapOfDomain(b[..j], b[j].hash);
  }

  lemma NoneProcessed(b: seq<IndexEntry>, m: map<Hash, IndexEntry>)
    ensures m + MapOf(b[..0]) == m
  {
  }

  // The wrap-around pass: records carried out of the last segment take the first
  // empty slot from slot 0 on.
  ghost predicate Wrapping(slots: seq<IndexEntry>, carry: seq<IndexEntry>, m: map<Hash, IndexEntry>) {
    && |slots| > 0
    && AllProbed(slots)
    && (forall j :: 0 <= j < |carry| ==> Reaches(slots, carry[j], |slots|, |slots|))
    && Accounts(slots, carry, m)
  }

  lemma ForwardIsProbed(slots: seq<IndexEntry>)
    requires |slots| > 0 && Forward(slots, |slots|) && NoneAhead(slots, |slots|)
    ensures AllProbed(slots)
  {
  }

  lemma WrapPlaced(slots: seq<IndexEntry>, carry: seq<IndexEntry>, m: map<Hash, IndexEntry>, p: nat)
    requires Wrapping(slots, carry, m)
    requires carry != [] && p < |slots| && slots[p].hash == ZERO
    requires forall t :: 0 <= t < p ==> slots[t].hash != ZERO
    ensures Wrapping(slots[p := carry[0]], carry[1..], m)
  {
    var e := carry[0];
    assert [] + [e] + carry[1..] == carry;
    assert [] + carry[1..] == carry[1..];
    AccountMove(slots, [], e, carry[1..], m, p);
    assert Reaches(slots, e, |slots|, |slots|);
    ProbedAfterFill(slots, e, p);
    var slots' := slots[p := e];
    forall j | 0 <= j < |carry[1..]| ensures Reaches(slots', carry[1..][j], |slots'|, |slots'|) {
      assert Reaches(slots, carry[j + 1], |slots|, |slots|);
    }
  }

  // The used slots all have different hashes from m, so they cannot fill a table
  // larger than m.
  lemma RoomLeft(slots: seq<IndexEntry>, m: map<Hash, IndexEntry>)
    requires SlotsDistinct(slots) && Conform(slots, m)
    requires |m| < |slots|
    ensures exists s :: 0 <= s < |slots| && slots[s].hash == ZERO
  {
    if forall s :: 0 <= s < |slots| ==> slots[s].hash != ZERO {
      DistinctCardinality(slots);
      SubsetCardinality(HashesOf(slots), m.Keys);
    }
  }

  lemma {:induction false} SubsetCardinality<T>(a: set<T>, b: set<T>)
    requires a <= b
    ensures |a| <= |b|
  {
    assert b == a + (b - a);
  }

  method WrapAround(slots0: seq<IndexEntry>, carry: seq<IndexEntry>, ghost m: map<Hash, IndexEntry>)
    returns (slots: seq<IndexEntry>, placed: nat)
    requires Wrapping(slots0, carry, m)
    requires |m| < |slots0|
    ensures |slots| == |slots0|
    ensures Wrapping(slots, [], m)
    ensures placed == |carry|
  {
    slots := slots0;
    placed := 0;
    var c := 0;
    assert carry[0..] == carry;
    while c < |carry|
      invariant 0 <= c <= |carry| && |slots| == |slots0|
      invariant Wrapping(slots, carry[c..], m)
      invariant placed == c
    {
      RoomLeft(slots, m);
      // The table and the carry share no hash, so the scan stops at an empty slot.
      var p := Scan(slots, 0, carry[c].hash);
      assert carry[c] == carry[c..][0];
      assert carry[c..][1..] == carry[c + 1..];
      WrapPlaced(slots, carry[c..], m, p);
      slots := slots[p := carry[c]];
      placed := placed + 1;
      c := c + 1;
    }
    assert carry[c..] == [];
  }

  // The records of the first k buckets.
  ghost function SegMap(file: seq<IndexEntry>, n: nat, k: nat): map<Hash, IndexEntry>
    requires n > 0 && SegSize(n) > 0
  {
    map h | h in MapOf(file) && BucketOf(h, n) < k :: MapOf(file)[h]
  }

  lemma BucketMembers(file: seq<IndexEntry>, n: nat, k: nat, b: seq<IndexEntry>)
    requires n > 0 && SegSize(n) > 0 && Distinct(file)
    requires multiset(b) == multiset(BucketFilter(file, n, k))
    ensures forall e :: e in b <==> e in file && BucketOf(e.hash, n) == k
  {
    BucketFilterMap(file, n, k);
    forall e ensures e in b <==> e in BucketFilter(file, n, k) {
      Sorting.SameMembers(b, BucketFilter(file, n, k), e);
    }
  }

  lemma BucketMap(file: seq<IndexEntry>, n: nat, k: nat, b: seq<IndexEntry>)
    requires n > 0 && SegSize(n) > 0 && Distinct(file) && Distinct(b)
    requires forall e :: e in b <==> e in file && BucketOf(e.hash, n) == k
    ensures forall h :: h in MapOf(b) <==> h in MapOf(file) && BucketOf(h, n) == k
    ensures forall h :: h in MapOf(b) ==> MapOf(b)[h] == MapOf(file)[h]
  {
    MapOfDistinct(file);
    MapOfDistinct(b);
    forall h | h in MapOf(file) && BucketOf(h, n) == k ensures h in MapOf(b) {
      var i :| 0 <= i < |file| && file[i].hash == h;
      assert file[i] in b;
    }
    forall h | h in MapOf(b)
      ensures h in MapOf(file) && MapOf(b)[h] == MapOf(file)[h] && BucketOf(h, n) == k
    {
      var i :| 0 <= i < |b| && b[i].hash == h;
      assert b[i] in file;
    }
  }

  lemma NextSegMap(file: seq<IndexEntry>, n: nat, k: nat, b: seq<IndexEntry>)
    requires n > 0 && SegSize(n) > 0 && Distinct(file) && Distinct(b)
    requires multiset(b) == multiset(BucketFilter(file, n, k))
    ensures SegMap(file, n, k) + MapOf(b) == SegMap(file, n, k + 1)
    ensures SegMap(file, n, k).Keys !! MapOf(b).Keys
    ensures forall j :: 0 <= j < |b| ==> b[j].hash !in SegMap(file, n, k) && BucketOf(b[j].hash, n) == k && b[j] in file
  {
    BucketMembers(file, n, k, b);
    BucketMap(file, n, k, b);
    forall j | 0 <= j < |b| ensures b[j] in file && BucketOf(b[j].hash, n) == k {
      assert b[j] in b;
    }
  }

  // Orders a bucket by home slot, so the probes of a segment run forward.
  function ByHome(n: nat): (le: (IndexEntry, IndexEntry) -> bool)
    requires n > 0
    ensures Sorting.TotalPreorder(le)
  {
    (a: IndexEntry, b: IndexEntry) => Home(a.hash, n) <= Home(b.hash, n)
  }

  lemma PermutedDistinct(es: seq<IndexEntry>, fs: seq<IndexEntry>)
    requires Distinct(es) && multiset(es) == multiset(fs)
    ensures Distinct(fs) && |fs| == |es|
  {
    assert |multiset(es)| == |es| && |multiset(fs)| == |fs|;
    Sorting.PermutedApart(es, fs, (e: IndexEntry) => e.hash);
  }

  // Phase 2 for one segment: place the carry, then the segment's bucket.
  method BuildSegment(file: seq<IndexEntry>, n: nat, k: nat, bkt: seq<IndexEntry>, slots: seq<IndexEntry>,
                      carry: seq<IndexEntry>)
    returns (slots': seq<IndexEntry>, carry': seq<IndexEntry>, placed: nat)
    requires Distinct(file) && NonZero(file)
    requires n >= 1024 && k < SegCount(n) && SegSize(n) > 0 && |slots| == k * SegSize(n)
    requires bkt == BucketFilter(file, n, k)
    requires Building(slots, carry, SegMap(file, n, k), n)
    ensures |slots'| == SegEnd(n, k) <= n
    ensures Building(slots', carry', SegMap(file, n, k + 1), n)
    ensures placed + |carry'| + |SegMap(file, n, k)| == |carry| + |SegMap(file, n, k + 1)|
  {
    NoEmptySegment(n, k);
    var segEnd := SegEnd(n, k);
    var part, left, placed1 := PlaceCarried(slots, segEnd - |slots|, carry, n, SegMap(file, n, k));
    var b := Sorting.Sort(bkt, ByHome(n));
    BucketReady(file, n, k, b);
    var placed2;
    part, carry', placed2 := PlaceBucket(slots, part, left, b, n, SegMap(file, n, k));
    slots' := slots + part;
    placed := placed1 + placed2;
  }

  lemma BuildStart(file: seq<IndexEntry>, n: nat)
    requires n >= 1024 && SegSize(n) > 0
    ensures Building([], [], SegMap(file, n, 0), n) && |SegMap(file, n, 0)| == 0
  {
    assert SegMap(file, n, 0) == map[];
  }

  method BuildSegments(file: seq<IndexEntry>, n: nat, bkts: seq<seq<IndexEntry>>)
    returns (slots: seq<IndexEntry>, carry: seq<IndexEntry>, count: int)
    requires Distinct(file) && NonZero(file)
    requires n >= 1024 && SegSize(n) > 0 && |bkts| == SegCount(n)
    requires forall k :: 0 <= k < |bkts| ==> bkts[k] == BucketFilter(file, n, k)
    ensures |slots| == n
    ensures Building(slots, carry, SegMap(file, n, SegCount(n)), n)
    ensures count + |carry| == |SegMap(file, n, SegCount(n))|
  {
    hide Building, SegMap;
    slots, carry, count := [], [], 0;
    var k := 0;
    BuildStart(file, n);
    while k < |bkts|
      invariant 0 <= k <= |bkts|
      invariant |slots| == if k < |bkts| then k * SegSize(n) else n
      invariant Building(slots, carry, SegMap(file, n, k), n)
      invariant count + |carry| == |SegMap(file, n, k)|
    {
      SegmentEnd(n, k);
      var placed;
      slots, carry, placed := BuildSegment(file, n, k, bkts[k], slots, carry);
      count := count + placed;
      k := k + 1;
    }
  }

  // The whole build.  The branch that reports a full table is unreachable: the
  // table has at least twice as many slots as the file has records.
  method BuildHashTable(file: seq<IndexEntry>) returns (slots: seq<IndexEntry>, count: int)
    requires Distinct(file) && NonZero(file)
    ensures |slots| == if |file| < 512 then 1024 else 2 * |file|
    ensures ValidTable(slots, MapOf(file))
    ensures count == |file| == |MapOf(file)|
  {
    var n := NumSlots(|file|);
    var bkts := Distribute(file, n);
    var carry;
    slots, carry, count := BuildSegments(file, n, bkts);
    AllBuckets(file, n);
    ReadyToWrap(slots, carry, MapOf(file));
    MapOfDistinct(file);
    ListCardinality(file, MapOf(file));
    var wrapped;
    slots, wrapped := WrapAround(slots, carry, MapOf(file));
    count := count + wrapped;
    TableComplete(slots, MapOf(file));
  }

  lemma ReadyToWrap(slots: seq<IndexEntry>, carry: seq<IndexEntry>, m: map<Hash, IndexEntry>)
    requires |slots| > 0 && Building(slots, carry, m, |slots|)
    ensures Wrapping(slots, carry, m)
  {
    ForwardIsProbed(slots);
  }

  function SegEnd(n: nat, k: nat): nat {
    var end := k * SegSize(n) + SegSize(n);
    if end > n then n else end
  }

  lemma SegmentEnd(n: nat, k: nat)
    requires n >= 1024 && k < SegCount(n)
    ensures SegEnd(n, k) == if k + 1 < SegCount(n) then (k + 1) * SegSize(n) else n
  {
    NextMultiple(k, SegSize(n));
    NoEmptySegment(n, k);
    if k + 1 < SegCount(n) {
      NoEmptySegment(n, k + 1);
    }
  }

  lemma NextMultiple(k: nat, q: nat)
    ensures (k + 1) * q == k * q + q
  {
  }

  lemma BucketReady(file: seq<IndexEntry>, n: nat, k: nat, b: seq<IndexEntry>)
    requires Distinct(file) && NonZero(file)
    requires n >= 1024 && k < SegCount(n) && SegSize(n) > 0
    requires multiset(b) == multiset(BucketFilter(file, n, k))
    ensures Distinct(b) && NonZero(b)
    ensures forall j :: 0 <= j < |b| ==>
              b[j].hash !in SegMap(file, n, k) && k * SegSize(n) <= Home(b[j].hash, n) < SegEnd(n, k)
    ensures SegMap(file, n, k) + MapOf(b) == SegMap(file, n, k + 1)
    ensures |SegMap(file, n, k + 1)| == |SegMap(file, n, k)| + |b|
  {
    BucketFilterMap(file, n, k);
    PermutedDistinct(BucketFilter(file, n, k), b);
    NextSegMap(file, n, k, b);
    forall j | 0 <= j < |b|
      ensures b[j].hash != ZERO && k * SegSize(n) <= Home(b[j].hash, n) < SegEnd(n, k)
    {
      HomeInSegment(b[j].hash, n);
    }
    MapOfDistinct(b);
    ListCardinality(b, MapOf(b));
    var m, mb, m' := SegMap(file, n, k), MapOf(b), SegMap(file, n, k + 1);
    assert m'.Keys == m.Keys + mb.Keys;
  }

  lemma AllBuckets(file: seq<IndexEntry>, n: nat)
    requires n >= 1024
    ensures SegSize(n) > 0 && SegMap(file, n, SegCount(n)) == MapOf(file)
  {
    NoEmptySegment(n, 0);
    forall h | h in MapOf(file) ensures BucketOf(h, n) < SegCount(n) {
      HomeInSegment(h, n);
    }
  }

  lemma TableComplete(slots: seq<IndexEntry>, m: map<Hash, IndexEntry>)
    requires Wrapping(slots, [], m)
    ensures ValidTable(slots, m)
  {
    forall h | h in m ensures exists i :: 0 <= i < |slots| && slots[i].hash == h {
      assert Has(slots, h);
    }
  }
}
