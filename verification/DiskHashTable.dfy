/** The open-addressed, linear-probing table of core/index/hashtable.go.

The slot array on disk is a sequence of records; a record with the zero hash is
an empty slot.  `ValidTable` is the linear-probing invariant, and the table is
proved to be the map it stands for. */
module HashTables {
  import opened Options
  import opened IndexTypes

  function Home(h: Hash, n: nat): (s: nat)
    requires n > 0
    ensures s < n
  {
    h.prefix % n
  }

  // t is passed over on the way from home to s, wrapping past the last slot.
  ghost predicate OnPath(home: nat, s: nat, t: nat) {
    if home <= s then home <= t < s else home <= t || t < s
  }

  // No empty slot lies between a record's home and the slot it sits in.
  ghost predicate Probed(slots: seq<IndexEntry>, s: nat)
    requires s < |slots|
  {
    slots[s].hash != ZERO ==>
      forall t :: 0 <= t < |slots| && OnPath(Home(slots[s].hash, |slots|), s, t) ==> slots[t].hash != ZERO
  }

  ghost predicate SlotsDistinct(slots: seq<IndexEntry>) {
    forall i, j :: 0 <= i < j < |slots| && slots[i].hash != ZERO ==> slots[i].hash != slots[j].hash
  }

  ghost predicate SlotsHold(slots: seq<IndexEntry>, m: map<Hash, IndexEntry>) {
    && (forall i :: 0 <= i < |slots| && slots[i].hash != ZERO ==>
          slots[i].hash in m && m[slots[i].hash] == slots[i])
    && (forall h :: h in m ==> exists i :: 0 <= i < |slots| && slots[i].hash == h)
  }

  ghost predicate AllProbed(slots: seq<IndexEntry>) {
    forall s :: 0 <= s < |slots| ==> Probed(slots, s)
  }

  ghost predicate ValidTable(slots: seq<IndexEntry>, m: map<Hash, IndexEntry>) {
    && |slots| > 0
    && ZERO !in m
    && SlotsDistinct(slots)
    && SlotsHold(slots, m)
    && AllProbed(slots)
  }

  ghost function HashesOf(es: seq<IndexEntry>): set<Hash> {
    set i | 0 <= i < |es| :: es[i].hash
  }

  lemma {:induction false} DistinctCardinality(es: seq<IndexEntry>)
    requires Distinct(es)
    ensures |HashesOf(es)| == |es|
  {
    if es != [] {
      var front := es[..|es| - 1];
      DistinctCardinality(front);
      assert forall i :: 0 <= i < |front| ==> front[i] == es[i];
      assert HashesOf(es) == HashesOf(front) + {es[|es| - 1].hash};
    }
  }

  lemma ListCardinality(es: seq<IndexEntry>, m: map<Hash, IndexEntry>)
    requires Distinct(es) && ListsExactly(es, m)
    ensures |m| == |es|
  {
    DistinctCardinality(es);
    assert HashesOf(es) == m.Keys;
  }

  // A table with fewer records than slots has an empty slot.
  lemma HasEmptySlot(slots: seq<IndexEntry>, m: map<Hash, IndexEntry>)
    requires ValidTable(slots, m)
    requires |m| < |slots|
    ensures exists s :: 0 <= s < |slots| && slots[s].hash == ZERO
  {
    if forall s :: 0 <= s < |slots| ==> slots[s].hash != ZERO {
      ListCardinality(slots, m);
    }
  }

  // Probing from the home of h to an empty slot without meeting h shows h absent.
  lemma AbsentAtGap(slots: seq<IndexEntry>, m: map<Hash, IndexEntry>, h: Hash, s: nat)
    requires ValidTable(slots, m)
    requires h != ZERO
    requires s < |slots| && slots[s].hash == ZERO
    requires forall t :: 0 <= t < |slots| && OnPath(Home(h, |slots|), s, t) ==> slots[t].hash != h
    ensures h !in m
  {
    forall i | 0 <= i < |slots| ensures slots[i].hash != h {
      assert Probed(slots, i);
      var home := Home(h, |slots|);
      assert i == s || OnPath(home, s, i) || OnPath(home, i, s);
    }
  }

  // Filling a gap at the end of its own probe path breaks nobody's path.
  lemma ProbedAfterFill(slots: seq<IndexEntry>, e: IndexEntry, s: nat)
    requires AllProbed(slots)
    requires e.hash != ZERO
    requires s < |slots|
    requires forall t :: 0 <= t < |slots| && OnPath(Home(e.hash, |slots|), s, t) ==> slots[t].hash != ZERO
    ensures AllProbed(slots[s := e])
  {
    var slots' := slots[s := e];
    forall p | 0 <= p < |slots'| ensures Probed(slots', p) {
      assert Probed(slots, p);
    }
  }

  lemma HoldAfterWrite(slots: seq<IndexEntry>, m: map<Hash, IndexEntry>, e: IndexEntry, s: nat)
    requires SlotsDistinct(slots) && SlotsHold(slots, m)
    requires s < |slots| && (slots[s].hash == e.hash || (slots[s].hash == ZERO && e.hash !in m))
    requires e.hash != ZERO && ZERO !in m
    ensures SlotsHold(slots[s := e], m[e.hash := e])
  {
    var slots', m' := slots[s := e], m[e.hash := e];
    forall h | h in m' ensures exists i :: 0 <= i < |slots'| && slots'[i].hash == h {
      if h == e.hash {
        assert slots'[s].hash == h;
      } else {
        var i :| 0 <= i < |slots| && slots[i].hash == h;
        assert slots'[i].hash == h;
      }
    }
  }

  // Writing a record into the first gap of its probe path keeps the table valid.
  lemma InsertAtGap(slots: seq<IndexEntry>, m: map<Hash, IndexEntry>, e: IndexEntry, s: nat)
    requires ValidTable(slots, m)
    requires e.hash != ZERO && e.hash !in m
    requires s < |slots| && slots[s].hash == ZERO
    requires forall t :: 0 <= t < |slots| && OnPath(Home(e.hash, |slots|), s, t) ==> slots[t].hash != ZERO
    ensures ValidTable(slots[s := e], m[e.hash := e])
    ensures |m[e.hash := e]| == |m| + 1
  {
    ProbedAfterFill(slots, e, s);
    HoldAfterWrite(slots, m, e, s);
    assert m[e.hash := e].Keys == m.Keys + {e.hash};
  }

  // Rewriting a record in place keeps the table valid.
  lemma UpdateInPlace(slots: seq<IndexEntry>, m: map<Hash, IndexEntry>, e: IndexEntry, s: nat)
    requires ValidTable(slots, m)
    requires s < |slots| && slots[s].hash == e.hash != ZERO
    ensures ValidTable(slots[s := e], m[e.hash := e])
    ensures |m[e.hash := e]| == |m|
  {
    assert Probed(slots, s);
    ProbedAfterFill(slots, e, s);
    HoldAfterWrite(slots, m, e, s);
    assert m[e.hash := e].Keys == m.Keys;
  }

  // The used slots, in slot order.
  function Live(slots: seq<IndexEntry>): seq<IndexEntry> {
    if slots == [] then []
    else
      var last := slots[|slots| - 1];
      Live(slots[..|slots| - 1]) + if last.hash != ZERO then [last] else []
  }

  lemma {:induction false} LiveMembers(slots: seq<IndexEntry>)
    ensures forall e :: e in Live(slots) <==> e in slots && e.hash != ZERO
  {
    if slots != [] {
      var front := slots[..|slots| - 1];
      LiveMembers(front);
      assert slots == front + [slots[|slots| - 1]];
    }
  }

  lemma {:induction false} LiveDistinct(slots: seq<IndexEntry>)
    requires SlotsDistinct(slots)
    ensures Distinct(Live(slots)) && NonZero(Live(slots))
  {
    if slots != [] {
      var front := slots[..|slots| - 1];
      assert SlotsDistinct(front);
      LiveDistinct(front);
      LiveMembers(front);
      var last := slots[|slots| - 1];
      forall i | 0 <= i < |Live(front)| ensures Live(front)[i].hash != last.hash || last.hash == ZERO {
        assert Live(front)[i] in front;
      }
    }
  }

  lemma LiveListsContents(slots: seq<IndexEntry>, m: map<Hash, IndexEntry>)
    requires ValidTable(slots, m)
    ensures Distinct(Live(slots)) && NonZero(Live(slots)) && ListsExactly(Live(slots), m)
  {
    LiveDistinct(slots);
    LiveMembers(slots);
    var es := Live(slots);
    forall i | 0 <= i < |es| ensures es[i].hash in m && m[es[i].hash] == es[i] {
      assert es[i] in slots;
    }
    forall h | h in m ensures exists j :: 0 <= j < |es| && es[j].hash == h {
      var p :| 0 <= p < |slots| && slots[p].hash == h;
      assert slots[p] in es;
    }
  }

  // The probe loops compute (start + probe) % n; below 2n that is one wrap.
  lemma WrapOnce(x: nat, n: nat)
    requires n > 0 && x < 2 * n
    ensures x % n == if x < n then x else x - n
  {
    if x >= n {
      assert x == n * 1 + (x - n);
    }
  }

  class DiskHashTable {
    var slots: seq<IndexEntry>
    var count: int
    ghost var contents: map<Hash, IndexEntry>

    ghost predicate Valid()
      reads this
    {
      ValidTable(slots, contents) && count == |contents| <= |slots|
    }

    // A table file of numSlots zeroed slots.
    constructor Create(numSlots: nat)
      requires numSlots > 0
      ensures Valid() && contents == map[] && |slots| == numSlots
    {
      slots := seq(numSlots, _ => EMPTY_SLOT);
      count := 0;
      contents := map[];
    }

    // A table file written by the segmented build.
    constructor Open(built: seq<IndexEntry>, builtCount: int, ghost m: map<Hash, IndexEntry>)
      requires ValidTable(built, m) && builtCount == |m| <= |built|
      ensures Valid() && slots == built && contents == m
    {
      slots := built;
      count := builtCount;
      contents := m;
    }

    // The probe loop Lookup and Insert share: the first slot on h's path that
    // is empty or holds h, or -1 when every slot holds some other hash.
    method Probe(h: Hash) returns (s: int)
      requires Valid() && h != ZERO
      ensures -1 <= s < |slots|
      ensures s == -1 ==> forall t :: 0 <= t < |slots| ==> slots[t].hash != ZERO && slots[t].hash != h
      ensures s >= 0 ==> slots[s].hash == ZERO || slots[s].hash == h
      ensures s >= 0 ==> forall t :: 0 <= t < |slots| && OnPath(Home(h, |slots|), s, t) ==>
                slots[t].hash != ZERO && slots[t].hash != h
    {
      var n := |slots|;
      var start := Home(h, n);
      var probe := 0;
      s := start;
      while probe < n
        invariant 0 <= probe <= n
        invariant 0 <= s < n
        invariant probe < n ==> s == if start + probe < n then start + probe else start + probe - n
        invariant forall t :: 0 <= t < n && (probe == n || OnPath(start, s, t)) ==>
                    slots[t].hash != ZERO && slots[t].hash != h
      {
        WrapOnce(start + probe, n);
        s := (start + probe) % n;
        if slots[s].hash == ZERO || slots[s].hash == h {
          return;
        }
        probe := probe + 1;
        if probe < n {
          s := if start + probe < n then start + probe else start + probe - n;
        }
      }
      s := -1;
    }

    method Lookup(h: Hash) returns (r: Option<IndexEntry>)
      requires Valid() && h != ZERO
      ensures r == Get(contents, h)
    {
      var s := Probe(h);
      if s == -1 {
        return None;
      }
      if slots[s].hash == ZERO {
        AbsentAtGap(slots, contents, h, s);
        return None;
      }
      return Some(slots[s]);
    }

    // Returns false for errTableFull.  The load check comes first, so a full
    // table refuses even a hash it already holds.
    method Insert(e: IndexEntry) returns (ok: bool)
      requires Valid() && e.hash != ZERO
      modifies this
      ensures Valid() && |slots| == old(|slots|)
      ensures ok <==> old(count) <= |slots| * 85 / 100
      ensures contents == if ok then old(contents)[e.hash := e] else old(contents)
    {
      if count > |slots| * 85 / 100 {
        return false;
      }
      HasEmptySlot(slots, contents);
      var s := Probe(e.hash);
      if s == -1 {
        return false;
      }
      var cur := slots[s];
      if cur.hash == ZERO {
        AbsentAtGap(slots, contents, e.hash, s);
        InsertAtGap(slots, contents, e, s);
        slots := slots[s := e];
        count := count + 1;
      } else {
        UpdateInPlace(slots, contents, e, s);
        assert cur == e ==> slots[s := e] == slots;
        if cur.pack != e.pack || cur.off != e.off || cur.len != e.len {
          slots := slots[s := e];
        }
      }
      contents := contents[e.hash := e];
      ok := true;
    }

    // Every used slot, in slot order.
    method ReadAll() returns (es: seq<IndexEntry>)
      requires Valid()
      ensures Distinct(es) && NonZero(es) && ListsExactly(es, contents)
      ensures |es| == |contents|
    {
      es := [];
      var i := 0;
      while i < |slots|
        invariant 0 <= i <= |slots|
        invariant es == Live(slots[..i])
      {
        assert slots[..i + 1][..i] == slots[..i];
        if slots[i].hash != ZERO {
          es := es + [slots[i]];
        }
        i := i + 1;
      }
      assert slots[..i] == slots;
      LiveListsContents(slots, contents);
      ListCardinality(es, contents);
    }
  }
}
