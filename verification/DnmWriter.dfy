/** Writing .dnm manifests: the file writer (core/manifest/dnm_writer.go) and the
streamer that hands parts to a sink as a window fills (core/manifest/dnm_stream.go). */
module DnmWriter {
  import opened Bytes
  import opened Options
  import opened DnmCodec
  import opened DnmFile

  // What a backup's fields are by type: as many as the format has.
  predicate Shaped(m: Metadata, catalog: seq<FileEntry>) {
    |m.core| == |CoreKinds()| && forall i :: 0 <= i < |catalog| ==> |catalog[i].fields| == |FileKinds()|
  }

  method WriteCatalog(catalog: seq<FileEntry>) returns (out: seq<byte>)
    requires forall i :: 0 <= i < |catalog| ==> |catalog[i].fields| == |FileKinds()|
    ensures out == EncodeCatalog(catalog)
  {
    hide FileKinds, EncodeFile, LE;
    out := [];
    for i := 0 to |catalog|
      invariant out == EncodeCatalog(catalog[..i])
    {
      var rec := EncodeFile(catalog[i]);
      out := out + LE(|rec| % M32, 4);
      out := out + rec;
      assert catalog[..i + 1][..i] == catalog[..i];
      assert out == EncodeCatalog(catalog[..i]) + CatalogRecord(catalog[i]);
    }
    assert catalog[..|catalog|] == catalog;
  }

  // The entries in memory, or else the records of the sidecar as they stand.
  method WriteEntries(es: seq<Entry>, sidecar: Option<seq<byte>>) returns (out: seq<byte>, count: nat)
    ensures es != [] ==> out == EncodeEntries(es) && count == |es|
    ensures es == [] && sidecar.Some? ==> out == sidecar.value && count == |sidecar.value| / RECORD_SIZE
    ensures es == [] && sidecar.None? ==> out == [] && count == 0
  {
    hide EncodeEntry;
    out, count := [], 0;
    if es != [] {
      while count < |es|
        invariant count <= |es| && out == EncodeEntries(es[..count])
      {
        out := out + EncodeEntry(es[count]);
        assert es[..count + 1][..count] == es[..count];
        count := count + 1;
      }
      assert es[..|es|] == es;
    } else if sidecar.Some? {
      out, count := sidecar.value, |sidecar.value| / RECORD_SIZE;
    }
  }

  ghost predicate HoldsEntries(sidecar: Option<seq<byte>>, es: seq<Entry>) {
    sidecar == Some(EncodeEntries(es)) && forall i :: 0 <= i < |es| ==> |es[i].hash| == 32
  }

  // A sidecar of the same entries gives the same section as the entries in memory.
  lemma SidecarIsEntries(es: seq<Entry>)
    requires forall i :: 0 <= i < |es| ==> |es[i].hash| == 32
    ensures |EncodeEntries(es)| / RECORD_SIZE == |es|
  {
    EntriesLength(es);
  }

  // The sections in turn, then the index, then the header over its placeholder.
  method WriteDnm(m: Metadata, catalog: seq<FileEntry>, es: seq<Entry>, sidecar: Option<seq<byte>>)
    returns (file: seq<byte>)
    requires Shaped(m, catalog)
    ensures es != [] || sidecar.None? ==> file == Classic(Backup(m, catalog, es))
    ensures es == [] ==>
              forall e: seq<Entry> :: HoldsEntries(sidecar, e) ==> file == Classic(Backup(m, catalog, e))
  {
    hide EncodeMetadata, EncodeCatalog, EncodeEntries, CoreKinds, FileKinds, Header, EncodeSection;
    file := seq<byte>(HEADER_SIZE, i => 0);
    var pos := HEADER_SIZE;
    var meta := EncodeMetadata(m);
    file := file + meta;
    var metaOffset := pos;
    pos := pos + |meta|;
    var cat := WriteCatalog(catalog);
    file := file + cat;
    var catalogOffset := pos;
    pos := pos + |cat|;
    var ents, count := WriteEntries(es, sidecar);
    file := file + ents;
    var entriesOffset := pos;
    pos := pos + |ents|;
    file := file + EncodeSection(1, Section(metaOffset, |meta|, 1));
    file := file + EncodeSection(2, Section(catalogOffset, |cat|, |catalog|));
    file := file + EncodeSection(3, Section(entriesOffset, |ents|, count));
    Body(seq<byte>(HEADER_SIZE, i => 0), meta, cat, ents, EncodeSection(1, Section(metaOffset, |meta|, 1)),
         EncodeSection(2, Section(catalogOffset, |cat|, |catalog|)),
         EncodeSection(3, Section(entriesOffset, |ents|, count)));
    file := Header(pos) + file[HEADER_SIZE..];
    Regroup(Header(pos), meta + cat + ents, EncodeIndex(ClassicSections(|meta|, |cat|, |ents|, |catalog|, count)));
    assert file == ClassicFile(meta, cat, ents, |catalog|, count);
    assert es == [] && sidecar.None? ==> ents == EncodeEntries(es) by {
      NoEntries();
    }
    forall e: seq<Entry> | es == [] && HoldsEntries(sidecar, e)
      ensures file == Classic(Backup(m, catalog, e))
    {
      SidecarIsEntries(e);
    }
  }

  lemma Body(h: seq<byte>, a: seq<byte>, b: seq<byte>, c: seq<byte>, x: seq<byte>, y: seq<byte>, z: seq<byte>)
    ensures (h + a + b + c + x + y + z)[|h|..] == (a + b + c) + (x + y + z)
  {
  }

  lemma NoEntries()
    ensures EncodeEntries([]) == []
  {
  }

  // ---- The streamer ----

  lemma FlatGrows(parts: seq<seq<byte>>, part: seq<byte>)
    ensures Flat(parts + [part]) == Flat(parts) + part
  {
    assert (parts + [part])[..|parts|] == parts;
  }

  lemma TailJoins(a: seq<byte>, front: seq<byte>, whole: seq<byte>, tail: seq<byte>)
    requires a + front == whole
    ensures a + (front + tail) == whole + tail
  {
  }

  class Streamer {
    const window: nat
    var buf: seq<byte>
    var entriesLen: nat
    var count: nat
    var finished: bool
    var sent: seq<seq<byte>> // the parts the sink has taken
    ghost var written: seq<Entry>

    // Nothing is lost or doubled: the parts taken and the buffer are the header and
    // the entries written.  Every part is at least a window long.
    ghost predicate Valid()
      reads this
    {
      && (forall i :: 0 <= i < |written| ==> |written[i].hash| == 32)
      && count == |written| && entriesLen == RECORD_SIZE * count
      && (!finished ==> Flat(sent) + buf == Header(0) + EncodeEntries(written))
      && (!finished ==> forall i :: 0 <= i < |sent| ==> |sent[i]| >= window)
    }

    constructor (window: nat)
      ensures Valid() && !finished && sent == [] && written == [] && this.window == window
    {
      this.window := window;
      buf := Header(0);
      entriesLen, count, finished := 0, 0, false;
      sent, written := [], [];
    }

    // taken: whether the sink takes the part, should one be due.
    method WriteEntry(e: Entry, taken: bool) returns (ok: bool)
      requires Valid() && |e.hash| == 32
      modifies this
      ensures Valid() && finished == old(finished) && old(sent) <= sent
      ensures old(finished) ==> !ok && written == old(written)
      ensures !old(finished) ==> written == old(written) + [e]
      ensures !old(finished) && taken ==> ok
      ensures ok ==> buf == [] || |buf| < window
    {
      hide Header, EncodeEntry, EncodeEntries, Flat;
      if finished {
        return false;
      }
      TailJoins(Flat(sent), buf, Header(0) + EncodeEntries(written), EncodeEntry(e));
      Regroup(Header(0), EncodeEntries(written), EncodeEntry(e));
      EntriesGrow(written, e);
      buf := buf + EncodeEntry(e);
      entriesLen := entriesLen + RECORD_SIZE;
      count := count + 1;
      written := written + [e];
      if |buf| >= window {
        if !taken {
          return false;
        }
        FlatGrows(sent, buf);
        sent, buf := sent + [buf], [];
      }
      ok := true;
    }

    // The last part: what is buffered, the other sections, the index and its place.
    method Finish(m: Metadata, catalog: seq<FileEntry>, taken: bool) returns (ok: bool)
      requires Valid() && Shaped(m, catalog)
      modifies this
      ensures Valid() && finished && written == old(written)
      ensures ok == (!old(finished) && taken)
      ensures ok ==> Flat(sent) == Streamed(Backup(m, catalog, written))
      ensures ok ==> |sent| == |old(sent)| + 1 && sent[..|old(sent)|] == old(sent)
    {
      hide Header, EncodeMetadata, EncodeCatalog, EncodeEntries, EncodeSection, CoreKinds, FileKinds, LE, Flat;
      if finished {
        return false;
      }
      finished := true;
      var entriesOffset := HEADER_SIZE;
      var pos := entriesOffset + entriesLen;
      var meta := EncodeMetadata(m);
      ghost var front := buf;
      var metaOffset := pos;
      pos := pos + |meta|;
      var cat := WriteCatalog(catalog);
      var catalogOffset := pos;
      pos := pos + |cat|;
      buf := buf + meta + cat;
      buf := buf + EncodeSection(1, Section(metaOffset, |meta|, 1));
      buf := buf + EncodeSection(2, Section(catalogOffset, |cat|, |catalog|));
      buf := buf + EncodeSection(3, Section(entriesOffset, entriesLen, count));
      buf := buf + LE(pos % M64, 8);
      if taken {
        ghost var tail := StreamedTail(meta, cat, entriesLen, |catalog|, count);
        assert buf == front + tail;
        EntriesLength(written);
        TailJoins(Flat(sent), front, Header(0) + EncodeEntries(written), tail);
        FlatGrows(sent, buf);
        sent := sent + [buf];
      }
      buf := [];
      ok := taken;
    }
  }

  // Whatever the window, the parts a streamer sends make up the same file.
  method StreamBackup(b: Backup, window: nat) returns (parts: seq<seq<byte>>)
    requires Shaped(b.meta, b.catalog) && forall i :: 0 <= i < |b.entries| ==> |b.entries[i].hash| == 32
    ensures Flat(parts) == Streamed(b)
    ensures forall i :: 0 <= i < |parts| - 1 ==> |parts[i]| >= window
  {
    hide Flat, EncodeEntries, Header, Streamed, CoreKinds, FileKinds;
    var d := new Streamer(window);
    for i := 0 to |b.entries|
      invariant fresh(d) && d.Valid() && !d.finished && d.written == b.entries[..i]
    {
      var ok := d.WriteEntry(b.entries[i], true);
    }
    assert b.entries[..|b.entries|] == b.entries;
    var ok := d.Finish(b.meta, b.catalog, true);
    parts := d.sent;
  }
}
