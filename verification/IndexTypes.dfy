/** The chunk index's records and the plain map every index structure stands for.

A strong hash is 32 bytes; the index orders it as a big-endian number and cuts
off its first 8 bytes as the "prefix".  The two parts are kept apart here, so
`Less` is the byte-wise order and `prefix` is what the files are sorted by. */
module IndexTypes {
  import opened Options

  type uint32 = n: nat | n < 0x1_0000_0000
  type uint64 = n: nat | n < 0x1_0000_0000_0000_0000
  type uint192 = n: nat | n < 0x1_0000_0000_0000_0000_0000_0000_0000_0000_0000_0000_0000_0000

  datatype Hash = Hash(prefix: uint64, rest: uint192) {
    predicate Less(other: Hash) {
      prefix < other.prefix || (prefix == other.prefix && rest < other.rest)
    }
  }

  // The all-zero hash marks an empty slot and is never the hash of a chunk.
  const ZERO: Hash := Hash(0, 0)

  datatype IndexEntry = IndexEntry(hash: Hash, pack: uint32, off: uint64, len: uint32)

  const EMPTY_SLOT: IndexEntry := IndexEntry(ZERO, 0, 0, 0)

  // What an index answers for a hash, stated on the map it stands for.
  function Get(m: map<Hash, IndexEntry>, h: Hash): Option<IndexEntry> {
    if h in m then Some(m[h]) else None
  }

  ghost predicate Keyed(m: map<Hash, IndexEntry>) {
    && ZERO !in m
    && forall h :: h in m ==> m[h].hash == h
  }

  ghost predicate SortedByPrefix(es: seq<IndexEntry>) {
    forall i, j :: 0 <= i < j < |es| ==> es[i].hash.prefix <= es[j].hash.prefix
  }

  ghost predicate Distinct(es: seq<IndexEntry>) {
    forall i, j :: 0 <= i < j < |es| ==> es[i].hash != es[j].hash
  }

  ghost predicate NonZero(es: seq<IndexEntry>) {
    forall i :: 0 <= i < |es| ==> es[i].hash != ZERO
  }

  // A well-formed sorted index file: one record a hash, ordered by prefix.
  ghost predicate SortedFile(es: seq<IndexEntry>) {
    SortedByPrefix(es) && Distinct(es) && NonZero(es)
  }

  // The map a sequence of writes leaves: the last write of a hash wins.
  function MapOf(es: seq<IndexEntry>): map<Hash, IndexEntry> {
    if es == [] then map[] else MapOf(es[..|es| - 1])[es[|es| - 1].hash := es[|es| - 1]]
  }

  // Every record of es is in m under its own hash, and m has no other hash.
  ghost predicate ListsExactly(es: seq<IndexEntry>, m: map<Hash, IndexEntry>) {
    && (forall i :: 0 <= i < |es| ==> es[i].hash in m && m[es[i].hash] == es[i])
    && (forall h :: h in m ==> exists i :: 0 <= i < |es| && es[i].hash == h)
  }

  lemma {:induction false} MapOfDomain(es: seq<IndexEntry>, h: Hash)
    ensures h in MapOf(es) <==> exists i :: 0 <= i < |es| && es[i].hash == h
    ensures h in MapOf(es) ==> MapOf(es)[h].hash == h
  {
    if es != [] {
      var front := es[..|es| - 1];
      MapOfDomain(front, h);
      if h in MapOf(front) {
        var i :| 0 <= i < |front| && front[i].hash == h;
        assert es[i].hash == h;
      }
      if exists i :: 0 <= i < |es| && es[i].hash == h {
        var i :| 0 <= i < |es| && es[i].hash == h;
        assert i < |front| ==> front[i].hash == h;
      }
    }
  }

  // On a list without repeated hashes the map is exactly the list.
  lemma {:induction false} MapOfDistinct(es: seq<IndexEntry>)
    requires Distinct(es)
    ensures ListsExactly(es, MapOf(es))
  {
    if es != [] {
      MapOfDistinct(es[..|es| - 1]);
      forall i | 0 <= i < |es|
        ensures es[i].hash in MapOf(es) && MapOf(es)[es[i].hash] == es[i]
      {
        assert i < |es| - 1 ==> es[..|es| - 1][i] == es[i];
      }
      forall h | h in MapOf(es)
        ensures exists i :: 0 <= i < |es| && es[i].hash == h
      {
        MapOfDomain(es, h);
      }
    }
  }

  lemma MapsAgree(es: seq<IndexEntry>, m1: map<Hash, IndexEntry>, m2: map<Hash, IndexEntry>)
    requires ListsExactly(es, m1) && ListsExactly(es, m2)
    ensures m1 == m2
  {
    forall h | h in m1 ensures h in m2 && m1[h] == m2[h] {
      var i :| 0 <= i < |es| && es[i].hash == h;
    }
    forall h | h in m2 ensures h in m1 {
      var i :| 0 <= i < |es| && es[i].hash == h;
    }
  }

  // A list is determined up to order by what it lists, so reordering a
  // distinct list leaves its map alone.
  lemma ListsExactlyPermutes(es: seq<IndexEntry>, fs: seq<IndexEntry>, m: map<Hash, IndexEntry>)
    requires ListsExactly(es, m)
    requires multiset(es) == multiset(fs)
    ensures ListsExactly(fs, m)
  {
    forall i | 0 <= i < |fs| ensures fs[i].hash in m && m[fs[i].hash] == fs[i] {
      assert fs[i] in multiset(es);
      assert fs[i] in es;
    }
    forall h | h in m ensures exists i :: 0 <= i < |fs| && fs[i].hash == h {
      var i :| 0 <= i < |es| && es[i].hash == h;
      assert es[i] in multiset(fs);
      assert es[i] in fs;
      var j :| 0 <= j < |fs| && fs[j] == es[i];
    }
  }

  // Later writes override earlier ones, whatever the split.
  lemma {:induction false} MapOfConcat(es: seq<IndexEntry>, fs: seq<IndexEntry>)
    ensures MapOf(es + fs) == MapOf(es) + MapOf(fs)
  {
    if fs == [] {
      assert es + fs == es;
    } else {
      var front := fs[..|fs| - 1];
      MapOfConcat(es, front);
      assert (es + fs)[..|es + fs| - 1] == es + front;
    }
  }

  // Map algebra used by the layered index.
  lemma PutOnTop(base: map<Hash, IndexEntry>, top: map<Hash, IndexEntry>, e: IndexEntry)
    ensures (base + top)[e.hash := e] == base + top[e.hash := e]
  {
  }

  lemma MoveDown(base: map<Hash, IndexEntry>, top: map<Hash, IndexEntry>, h: Hash)
    requires h in top
    ensures base + top == base[h := top[h]] + (top - {h})
  {
  }

  lemma OverrideIsUnion(base: map<Hash, IndexEntry>, top: map<Hash, IndexEntry>)
    ensures (base - top.Keys) + top == base + top
  {
  }

  lemma NothingOnTop(base: map<Hash, IndexEntry>)
    ensures base + map[] == base
  {
  }
}
