/**
 Building a bundle: payload layout with shared storage for aliases, the file
 written, and what a reader finds in it (crates/ahu/src/bundle.rs).
 */
module Builder {
  import opened Wrappers
  import opened Bytes
  import opened Manifest
  import opened Index
  import opened Header
  import opened Bundle
  import opened Entries

  datatype Place = Place(offset: u64, length: u32)

  /** Where the layout loop stands: records so far, data so far, and where each alias payload went. */
  datatype Laid = Laid(records: seq<IndexRecord>, data: Bytes, offsets: map<Digest, Place>)

  function Placed(r: IndexRecord, p: Place): IndexRecord {
    r.(dataOffset := p.offset, dataLength := p.length)
  }

  function LayStep(sha: Bytes -> Digest, laid: Laid, e: Entry): Laid {
    var r := e.record;
    var here := Place(AsU64(|laid.data|), AsU32(|e.payload|));
    if r.flags.tombstone then
      laid.(records := laid.records + [Placed(r, Place(0, 0))])
    else if r.flags.alias && sha(e.payload) in laid.offsets then
      laid.(records := laid.records + [Placed(r, laid.offsets[sha(e.payload)])])
    else if r.flags.alias then
      Laid(laid.records + [Placed(r, here)], laid.data + e.payload, laid.offsets[sha(e.payload) := here])
    else
      Laid(laid.records + [Placed(r, here)], laid.data + e.payload, laid.offsets)
  }

  function LayOut(sha: Bytes -> Digest, es: seq<Entry>): Laid {
    if es == [] then Laid([], [], map[]) else LayStep(sha, LayOut(sha, es[..|es| - 1]), es[|es| - 1])
  }

  predicate Shares(e: Entry) {
    e.record.flags.alias && !e.record.flags.tombstone
  }

  /** The digest separates the payloads that may share storage. */
  ghost predicate Separates(sha: Bytes -> Digest, es: seq<Entry>) {
    forall e, f :: e in es && f in es && Shares(e) && Shares(f) && sha(e.payload) == sha(f.payload)
      ==> e.payload == f.payload
  }

  predicate Holds(data: Bytes, p: Place, payload: Bytes) {
    p.offset + p.length <= |data| && Slice(data, p.offset, p.length) == Stored(payload)
  }

  predicate RecordFits(data: Bytes, r: IndexRecord, e: Entry) {
    && IdOf(r) == Id(e) && r.flags == e.record.flags
    && (!r.flags.tombstone ==> Holds(data, Place(r.dataOffset, r.dataLength), e.payload))
  }

  /** Every record written so far points at its entry's payload. */
  ghost predicate Points(laid: Laid, es: seq<Entry>) {
    |laid.records| == |es| && forall n :: 0 <= n < |es| ==> RecordFits(laid.data, laid.records[n], es[n])
  }

  ghost predicate SharedAt(sha: Bytes -> Digest, laid: Laid, e: Entry) {
    Shares(e) && sha(e.payload) in laid.offsets ==> Holds(laid.data, laid.offsets[sha(e.payload)], e.payload)
  }

  /** A digest already placed leads any entry of the bundle with that digest to its own payload. */
  ghost predicate Sharing(sha: Bytes -> Digest, laid: Laid, all: seq<Entry>) {
    forall e :: e in all ==> SharedAt(sha, laid, e)
  }

  lemma HoldsAppend(data: Bytes, more: Bytes, p: Place, payload: Bytes)
    requires Holds(data, p, payload)
    ensures Holds(data + more, p, payload)
  {
    assert Slice(data + more, p.offset, p.length) == Slice(data, p.offset, p.length);
  }

  lemma HoldsHere(data: Bytes, payload: Bytes)
    requires |data| + |payload| < U64_LIMIT
    ensures Holds(data + payload, Place(AsU64(|data|), AsU32(|payload|)), payload)
  {
    assert AsU64(|data|) == |data|;
    assert Slice(data + payload, |data|, AsU32(|payload|)) == Stored(payload);
  }

  /** The one new record of a step points at its entry's payload. */
  lemma StepFits(sha: Bytes -> Digest, laid: Laid, e: Entry)
    requires SharedAt(sha, laid, e)
    requires |LayStep(sha, laid, e).data| < U64_LIMIT
    ensures var next := LayStep(sha, laid, e);
            && next.records == laid.records + [next.records[|laid.records|]]
            && RecordFits(next.data, next.records[|laid.records|], e)
            && laid.data <= next.data
  {
    if !e.record.flags.tombstone && !(Shares(e) && sha(e.payload) in laid.offsets) {
      HoldsHere(laid.data, e.payload);
    }
  }

  lemma StepShares(sha: Bytes -> Digest, laid: Laid, e: Entry, f: Entry)
    requires SharedAt(sha, laid, f)
    requires Shares(e) && Shares(f) && sha(e.payload) == sha(f.payload) ==> e.payload == f.payload
    requires |LayStep(sha, laid, e).data| < U64_LIMIT
    ensures SharedAt(sha, LayStep(sha, laid, e), f)
  {
    if Shares(f) && sha(f.payload) in laid.offsets {
      HoldsAppend(laid.data, e.payload, laid.offsets[sha(f.payload)], f.payload);
    }
    if |laid.data| + |e.payload| < U64_LIMIT {
      HoldsHere(laid.data, e.payload);
    }
  }

  lemma PointsOn(laid: Laid, next: Laid, es: seq<Entry>, e: Entry, r: IndexRecord)
    requires Points(laid, es) && laid.data <= next.data
    requires next.records == laid.records + [r] && RecordFits(next.data, r, e)
    ensures Points(next, es + [e])
  {
    forall n | 0 <= n < |es|
      ensures RecordFits(next.data, next.records[n], es[n])
    {
      if !es[n].record.flags.tombstone {
        var q := laid.records[n];
        assert next.data == laid.data + next.data[|laid.data|..];
        assert RecordFits(laid.data, q, es[n]);
        HoldsAppend(laid.data, next.data[|laid.data|..], Place(q.dataOffset, q.dataLength), es[n].payload);
      }
    }
  }

  lemma DataGrows(sha: Bytes -> Digest, laid: Laid, e: Entry)
    ensures |laid.data| <= |LayStep(sha, laid, e).data|
  {
  }

  lemma {:induction false} LayOutPoints(sha: Bytes -> Digest, all: seq<Entry>, n: nat)
    requires n <= |all| && Separates(sha, all)
    requires |LayOut(sha, all[..n]).data| < U64_LIMIT
    ensures Points(LayOut(sha, all[..n]), all[..n])
    ensures Sharing(sha, LayOut(sha, all[..n]), all)
  {
    if n > 0 {
      var e, before := all[n - 1], all[..n - 1];
      var laid := LayOut(sha, before);
      assert all[..n] == before + [e] && all[..n][..n - 1] == before;
      DataGrows(sha, laid, e);
      LayOutPoints(sha, all, n - 1);
      StepFits(sha, laid, e);
      PointsOn(laid, LayStep(sha, laid, e), before, e, LayStep(sha, laid, e).records[n - 1]);
      forall f | f in all
        ensures SharedAt(sha, LayStep(sha, laid, e), f)
      {
        StepShares(sha, laid, e, f);
      }
    }
  }

  // ---- the file ----------------------------------------------------------------------

  function Arranged(c: Codec, es: seq<Entry>): Laid {
    LayOut(c.sha, Sorted(es))
  }

  /** The manifest with the integrity digests and entry count of what was laid out. */
  function Completed(c: Codec, m: Manifest, laid: Laid): Manifest {
    m.(integrity := Integrity(c.sha(EncodeIndex(laid.records)), c.sha(laid.data)),
       entryCount := AsU64(|laid.records|))
  }

  function BuildHeader(m: Bytes, s: Bytes, ix: Bytes, d: Bytes): FileHeader {
    var seal := AsU64(HEADER_SIZE + AsU32(|m|));
    var index := AsU64(seal + AsU32(|s|));
    FileHeader(FORMAT_MAJOR, FORMAT_MINOR, HEADER_SIZE, AsU32(|m|), seal, AsU32(|s|), index, AsU64(|ix|),
               AsU64(index + AsU64(|ix|)), AsU64(|d|))
  }

  type Seal<E> = Bytes -> Result<Bytes, E>

  /** The sections of the bundle built from these entries, once sealed. */
  datatype Sections = Sections(manifest: Manifest, manifestBytes: Bytes, laid: Laid)

  function SectionsOf(c: Codec, m: Manifest, es: seq<Entry>): Sections {
    var laid := Arranged(c, es);
    Sections(Completed(c, m, laid), c.toCbor(Completed(c, m, laid)), laid)
  }

  function BuiltFile<E>(c: Codec, m: Manifest, es: seq<Entry>, seal: Seal<E>): Result<Bytes, E> {
    var w := SectionsOf(c, m, es);
    var s :- seal(w.manifestBytes);
    var ix := EncodeIndex(w.laid.records);
    Ok(WriteHeader(BuildHeader(w.manifestBytes, s, ix, w.laid.data)) + (w.manifestBytes + (s + (ix + w.laid.data))))
  }

  /** The sealed sections fit a file: 32-bit manifest and seal lengths, 64-bit offsets. */
  predicate Fits<E>(c: Codec, m: Manifest, es: seq<Entry>, seal: Seal<E>) {
    var w := SectionsOf(c, m, es);
    && seal(w.manifestBytes).Ok?
    && FitsFile(w.manifestBytes, seal(w.manifestBytes).value, EncodeIndex(w.laid.records), w.laid.data)
  }

  function BuiltBundle<E>(c: Codec, m: Manifest, es: seq<Entry>, seal: Seal<E>): Bundle
    requires Fits(c, m, es, seal)
  {
    var w := SectionsOf(c, m, es);
    var s := seal(w.manifestBytes).value;
    Bundle(Layout(FORMAT_MINOR, w.manifestBytes, s, EncodeIndex(w.laid.records), w.laid.data),
           w.manifest, w.manifestBytes, s, w.laid.records, w.laid.data)
  }

  /** The file parses to its sections, and writing the parsed bundle gives the file back byte for byte. */
  lemma BuildParses<E>(c: Codec, m: Manifest, es: seq<Entry>, seal: Seal<E>)
    requires Faithful(c) && Fits(c, m, es, seal)
    ensures var f := BuiltFile(c, m, es, seal);
            && f.Ok?
            && FromBytes(c, f.value) == Ok(BuiltBundle(c, m, es, seal))
            && ToBytes(BuiltBundle(c, m, es, seal)) == Ok(f.value)
  {
    var w := SectionsOf(c, m, es);
    var s := seal(w.manifestBytes).value;
    AssembledParses(c, FORMAT_MINOR, w.manifestBytes, s, w.laid.records, w.laid.data);
    ToBytesIsAssemble(BuiltBundle(c, m, es, seal));
    HeaderIsLayout(w.manifestBytes, s, EncodeIndex(w.laid.records), w.laid.data);
  }

  lemma HeaderIsLayout(m: Bytes, s: Bytes, ix: Bytes, d: Bytes)
    requires FitsFile(m, s, ix, d)
    ensures BuildHeader(m, s, ix, d) == Layout(FORMAT_MINOR, m, s, ix, d)
  {
    Exact32(|m|);
    Exact32(|s|);
    Exact64(HEADER_SIZE + |m|);
    Exact64(HEADER_SIZE + |m| + |s|);
    Exact64(|ix|);
    Exact64(HEADER_SIZE + |m| + |s| + |ix|);
    Exact64(|d|);
  }

  lemma Exact32(n: nat)
    requires n < U32_LIMIT
    ensures AsU32(n) == n
  {
  }

  lemma Exact64(n: nat)
    requires n < U64_LIMIT
    ensures AsU64(n) == n
  {
  }

  // ---- what the reader finds --------------------------------------------------------

  lemma ArrangedPoints(c: Codec, es: seq<Entry>)
    requires Separates(c.sha, es) && |Arranged(c, es).data| < U64_LIMIT
    ensures Points(Arranged(c, es), Sorted(es))
  {
    var s := Sorted(es);
    forall e | e in s
      ensures e in es
    {
      SortedMembers(es, e);
    }
    assert s[..|s|] == s;
    LayOutPoints(c.sha, s, |s|);
  }

  /** Records laid out for sorted entries are strictly sorted exactly when no identifier repeats. */
  lemma StrictIffDistinct(laid: Laid, es: seq<Entry>)
    requires Points(laid, Sorted(es))
    ensures StrictlySorted(laid.records) <==> DistinctIds(es)
  {
    var s := Sorted(es);
    SortedInOrder(es);
    SortedDistinct(es);
    DistinctPairs(s);
    forall a, b | 0 <= a < b < |s|
      ensures IdLess(IdOf(laid.records[a]), IdOf(laid.records[b])) <==> Id(s[a]) != Id(s[b])
    {
      assert RecordFits(laid.data, laid.records[a], s[a]) && RecordFits(laid.data, laid.records[b], s[b]);
      IdTotal(Id(s[a]), Id(s[b]));
      IdIrreflexive(Id(s[a]));
    }
  }

  lemma PointsInside(b: Bundle, laid: Laid, s: seq<Entry>)
    requires Points(laid, s) && b.index == laid.records && b.data == laid.data
    ensures EntriesInside(b)
  {
    forall n | 0 <= n < |b.index| && !b.index[n].flags.tombstone
      ensures EntryBytes(b, b.index[n]).Some?
    {
      assert RecordFits(laid.data, laid.records[n], s[n]);
    }
  }

  lemma {:induction false} PointsMean(b: Bundle, laid: Laid, s: seq<Entry>, n: nat)
    requires Points(laid, s) && b.data == laid.data && n <= |s|
    ensures ContentOver(b, laid.records[..n]) == Meaning(s[..n])
  {
    if n > 0 {
      PointsMean(b, laid, s, n - 1);
      assert laid.records[..n][..n - 1] == laid.records[..n - 1] && s[..n][..n - 1] == s[..n - 1];
      assert RecordFits(laid.data, laid.records[n - 1], s[n - 1]);
    }
  }

  /**
   Structural verification accepts the built bundle exactly when no (key,
   discriminator) repeats, and a delta names its base.
   */
  lemma BuildVerifies<E>(c: Codec, m: Manifest, es: seq<Entry>, seal: Seal<E>)
    requires Faithful(c) && Fits(c, m, es, seal) && Separates(c.sha, es)
    ensures StructureOk(c, BuiltBundle(c, m, es, seal))
        <==> DistinctIds(es) && (m.bundleType.Delta? ==> m.continuity.baseManifestDigest.Some?)
  {
    var laid, b := Arranged(c, es), BuiltBundle(c, m, es, seal);
    ArrangedPoints(c, es);
    StrictIffDistinct(laid, es);
    PointsInside(b, laid, Sorted(es));
  }

  /** A verified build stands for the plain map of what was added, despite sorting and sharing. */
  lemma BuildRefines<E>(c: Codec, m: Manifest, es: seq<Entry>, seal: Seal<E>)
    requires Fits(c, m, es, seal) && Separates(c.sha, es) && DistinctIds(es)
    ensures StrictlySorted(BuiltBundle(c, m, es, seal).index)
    ensures ContentOf(BuiltBundle(c, m, es, seal)) == Meaning(es)
  {
    var laid, b, s := Arranged(c, es), BuiltBundle(c, m, es, seal), Sorted(es);
    ArrangedPoints(c, es);
    StrictIffDistinct(laid, es);
    PointsMean(b, laid, s, |s|);
    assert laid.records[..|s|] == laid.records && s[..|s|] == s;
    SortedMeaning(es);
  }

  /** What a caller sees: parse the file, look up, and get what was added. */
  lemma BuildThenLookup<E>(c: Codec, m: Manifest, es: seq<Entry>, seal: Seal<E>, key: Digest, prefs: seq<u16>)
    requires Faithful(c) && Fits(c, m, es, seal) && Separates(c.sha, es) && DistinctIds(es)
    ensures var r := FromBytes(c, BuiltFile(c, m, es, seal).value);
            && r.Ok?
            && Lookup(r.value, key) == At(Meaning(es), EntryId(key, DEFAULT_DISCRIMINATOR))
            && LookupPreferred(r.value, key, prefs) == Choice(Meaning(es), key, prefs)
  {
    BuildParses(c, m, es, seal);
    BuildRefines(c, m, es, seal);
    LookupRefines(BuiltBundle(c, m, es, seal), key, prefs);
  }

  // ---- the builder -------------------------------------------------------------------

  class BundleBuilder {
    var manifest: Manifest
    var entries: seq<Entry>

    constructor (m: Manifest)
      ensures manifest == m && entries == []
    {
      manifest := m;
      entries := [];
    }

    method AddEntry(key: Digest, response: Bytes)
      modifies this`entries
      ensures entries == old(entries) + [MakeEntry(EntryId(key, 0), NO_FLAGS, response)]
    {
      AddEntryWithDiscriminator(key, 0, response);
    }

    method AddEntryWithDiscriminator(key: Digest, disc: u16, response: Bytes)
      modifies this`entries
      ensures entries == old(entries) + [MakeEntry(EntryId(key, disc), NO_FLAGS, response)]
    {
      entries := entries + [Entry(IndexRecord(key, 0, AsU32(|response|), NO_FLAGS, disc), response)];
    }

    method AddDualEntry(key1: Digest, key2: Digest, response: Bytes)
      modifies this`entries
      ensures entries == old(entries) + DualEntries(key1, key2, response, 0)
    {
      AddDualEntryWithDiscriminator(key1, key2, response, 0);
    }

    /** One payload under two keys; both records carry it so that sorting keeps them together. */
    method AddDualEntryWithDiscriminator(key1: Digest, key2: Digest, response: Bytes, disc: u16)
      modifies this`entries
      ensures entries == old(entries) + DualEntries(key1, key2, response, disc)
    {
      var length := AsU32(|response|);
      entries := entries + [Entry(IndexRecord(key1, 0, length, DUAL_FLAGS, disc), response)];
      entries := entries + [Entry(IndexRecord(key2, 0, length, DUAL_FLAGS, disc), response)];
    }

    method AddTombstone(key: Digest, disc: u16)
      modifies this`entries
      ensures entries == old(entries) + [MakeEntry(EntryId(key, disc), TOMBSTONE_FLAGS, [])]
    {
      entries := entries + [Entry(IndexRecord(key, 0, 0, TOMBSTONE_FLAGS, disc), [])];
    }

    /** Sorts, lays out payloads, completes and seals the manifest, and writes the file. */
    method Build<E>(c: Codec, seal: Seal<E>) returns (r: Result<Bytes, E>)
      modifies this
      ensures r == BuiltFile(c, old(manifest), old(entries), seal)
    {
      entries := Sorted(entries);
      var data: Bytes := [];
      var records: seq<IndexRecord> := [];
      var offsets: map<Digest, Place> := map[];
      for n := 0 to |entries|
        invariant entries == Sorted(old(entries)) && manifest == old(manifest)
        invariant Laid(records, data, offsets) == LayOut(c.sha, entries[..n])
      {
        records, data, offsets := LayOne(c.sha, entries[n], records, data, offsets);
        assert entries[..n + 1][..n] == entries[..n];
      }
      assert entries[..|entries|] == entries;
      var ix := WriteIndex(records);
      manifest := manifest.(integrity := Integrity(c.sha(ix), c.sha(data)), entryCount := AsU64(|records|));
      var manifestBytes := c.toCbor(manifest);
      var sealBytes :- seal(manifestBytes);
      var header := BuildHeader(manifestBytes, sealBytes, ix, data);
      r := Ok(WriteHeader(header) + (manifestBytes + (sealBytes + (ix + data))));
    }
  }

  function DualEntries(key1: Digest, key2: Digest, response: Bytes, disc: u16): seq<Entry> {
    [MakeEntry(EntryId(key1, disc), DUAL_FLAGS, response), MakeEntry(EntryId(key2, disc), DUAL_FLAGS, response)]
  }

  /** One turn of the layout loop. */
  method LayOne(sha: Bytes -> Digest, e: Entry, records: seq<IndexRecord>, data: Bytes, offsets: map<Digest, Place>)
    returns (records': seq<IndexRecord>, data': Bytes, offsets': map<Digest, Place>)
    ensures Laid(records', data', offsets') == LayStep(sha, Laid(records, data, offsets), e)
  {
    records', data', offsets' := records, data, offsets;
    var record := e.record;
    if record.flags.tombstone {
      return records + [record.(dataOffset := 0, dataLength := 0)], data, offsets;
    }
    var here := Place(AsU64(|data|), AsU32(|e.payload|));
    if record.flags.alias {
      var digest := sha(e.payload);
      if digest in offsets {
        return records + [Placed(record, offsets[digest])], data, offsets;
      }
      data' := data + e.payload;
      offsets' := offsets[digest := here];
    } else {
      data' := data + e.payload;
    }
    records' := records + [Placed(record, here)];
  }
}
