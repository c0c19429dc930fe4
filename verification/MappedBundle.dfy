/**
 The reader that works on the mapped file itself: fields are decoded where they
 lie and searches never build an index (crates/ahu/src/mmap_bundle.rs).
 */
module MappedBundle {
  import opened Wrappers
  import opened Bytes
  import opened Manifest
  import opened Index
  import opened Header
  import opened Bundle

  datatype Mapped = Mapped(
    file: Bytes,
    header: FileHeader,
    manifest: Manifest,
    manifestStart: nat,
    manifestEnd: nat,
    sealStart: nat,
    sealEnd: nat,
    indexOffset: nat,
    indexCount: nat,
    dataOffset: nat,
    dataLength: nat)

  datatype OpenError = FileTooShort | Format(error: FormatError)

  function Open(c: Codec, f: Bytes): Result<Mapped, OpenError> {
    OpenWith(c.fromCbor, f)
  }

  function OpenWith(decode: Decode, f: Bytes): Result<Mapped, OpenError> {
    if |f| < HEADER_SIZE then Err(FileTooShort)
    else
      match ReadHeader(f[..HEADER_SIZE])
      case Err(e) => Err(Format(e))
      case Ok(h) =>
        var bad := ValidateBounds(h, |f|);
        if bad.Some? then Err(Format(bad.value)) else MapSections(decode, f, h)
  }

  function MapSections(decode: Decode, f: Bytes, h: FileHeader): Result<Mapped, OpenError>
    requires ValidateBounds(h, |f|).None?
  {
    match decode(Slice(f, h.manifestOffset, h.manifestLength))
    case Err(e) => Err(Format(BadManifest(e)))
    case Ok(m) => if h.indexLength % RECORD_SIZE != 0 then Err(Format(IndexSizeMismatch)) else Ok(Mapping(f, h, m))
  }

  function Mapping(f: Bytes, h: FileHeader, m: Manifest): Mapped {
    Mapped(f, h, m, h.manifestOffset, h.manifestOffset + h.manifestLength, h.sealOffset, h.sealOffset + h.sealLength,
           h.indexOffset, h.indexLength / RECORD_SIZE, h.dataOffset, h.dataLength)
  }

  /** Every section lies inside the mapping. */
  predicate Inside(m: Mapped) {
    && m.manifestStart <= m.manifestEnd <= |m.file|
    && m.sealStart <= m.sealEnd <= |m.file|
    && m.indexOffset + m.indexCount * RECORD_SIZE <= |m.file|
    && m.dataOffset + m.dataLength <= |m.file|
  }

  function IndexBytes(m: Mapped): Bytes
    requires Inside(m)
  {
    Slice(m.file, m.indexOffset, m.indexCount * RECORD_SIZE)
  }

  /** The heap bundle with the same sections. */
  function HeapOf(m: Mapped): Bundle
    requires Inside(m)
  {
    Bundle(m.header, m.manifest, m.file[m.manifestStart..m.manifestEnd], m.file[m.sealStart..m.sealEnd],
           DecodeIndex(IndexBytes(m)), Slice(m.file, m.dataOffset, m.dataLength))
  }

  lemma HeaderPrefix(f: Bytes)
    requires |f| >= HEADER_SIZE
    ensures ReadHeader(f[..HEADER_SIZE]) == ReadHeader(f)
  {
    assert f[..64][..4] == f[..4];
    SubSlice(f, 0, 64, 4, 6);
    SubSlice(f, 0, 64, 6, 8);
    SubSlice(f, 0, 64, 8, 16);
    SubSlice(f, 0, 64, 16, 20);
    SubSlice(f, 0, 64, 20, 28);
    SubSlice(f, 0, 64, 28, 32);
    SubSlice(f, 0, 64, 32, 40);
    SubSlice(f, 0, 64, 40, 48);
    SubSlice(f, 0, 64, 48, 56);
    SubSlice(f, 0, 64, 56, 64);
  }

  lemma SectionsAgree(decode: Decode, f: Bytes, h: FileHeader)
    requires ValidateBounds(h, |f|).None?
    ensures MapSections(decode, f, h).Ok? <==> ParseSections(decode, f, h).Ok?
    ensures MapSections(decode, f, h).Ok? ==>
              && Inside(MapSections(decode, f, h).value)
              && ParseSections(decode, f, h) == Ok(HeapOf(MapSections(decode, f, h).value))
  {
    if h.indexLength % RECORD_SIZE == 0 {
      assert h.indexLength / RECORD_SIZE * RECORD_SIZE == h.indexLength;
    }
  }

  lemma AgreeWith(decode: Decode, f: Bytes)
    ensures OpenWith(decode, f).Ok? <==> ParseWith(decode, f).Ok?
    ensures OpenWith(decode, f).Ok? ==>
              Inside(OpenWith(decode, f).value) && ParseWith(decode, f) == Ok(HeapOf(OpenWith(decode, f).value))
  {
    if |f| >= HEADER_SIZE {
      HeaderPrefix(f);
      var h := ReadHeader(f);
      if h.Ok? && ValidateBounds(h.value, |f|).None? {
        SectionsAgree(decode, f, h.value);
      }
    }
  }

  /** Both readers accept the same files and see the same sections. */
  lemma OpenAgrees(c: Codec, f: Bytes)
    ensures Open(c, f).Ok? <==> FromBytes(c, f).Ok?
    ensures Open(c, f).Ok? ==> Inside(Open(c, f).value) && FromBytes(c, f) == Ok(HeapOf(Open(c, f).value))
  {
    AgreeWith(c.fromCbor, f);
  }

  // ---- raw record reads ----------------------------------------------------------------

  function Base(m: Mapped, n: nat): (base: nat)
    requires Inside(m) && n < m.indexCount
    ensures base + RECORD_SIZE <= |m.file|
  {
    m.indexOffset + n * RECORD_SIZE
  }

  function ReadEntryKey(m: Mapped, n: nat): Digest
    requires Inside(m) && n < m.indexCount
  {
    m.file[Base(m, n)..Base(m, n) + 32]
  }

  function ReadDiscriminator(m: Mapped, n: nat): u16
    requires Inside(m) && n < m.indexCount
  {
    Widths();
    FromBigEndian(m.file[Base(m, n) + 46..Base(m, n) + 48])
  }

  function ReadRecordFields(m: Mapped, n: nat): (u64, u32, Flags, u16)
    requires Inside(m) && n < m.indexCount
  {
    Widths();
    var base := Base(m, n);
    (FromBigEndian(m.file[base + 32..base + 40]), FromBigEndian(m.file[base + 40..base + 44]),
     FromBitsTruncate(FromBigEndian(m.file[base + 44..base + 46])), FromBigEndian(m.file[base + 46..base + 48]))
  }

  lemma RecordSlice(m: Mapped, n: nat)
    requires Inside(m) && n < m.indexCount
    ensures RECORD_SIZE * n + RECORD_SIZE <= |IndexBytes(m)|
    ensures RecordAt(IndexBytes(m), n) == ReadRecord(m.file[Base(m, n)..Base(m, n) + RECORD_SIZE])
  {
    SubSlice(m.file, m.indexOffset, m.indexOffset + m.indexCount * RECORD_SIZE, RECORD_SIZE * n,
             RECORD_SIZE * n + RECORD_SIZE);
  }

  /** A record assembled from fields read in place. */
  function RawRecord(f: Bytes, base: nat): IndexRecord
    requires base + RECORD_SIZE <= |f|
  {
    Widths();
    IndexRecord(f[base..base + 32], FromBigEndian(f[base + 32..base + 40]), FromBigEndian(f[base + 40..base + 44]),
                FromBitsTruncate(FromBigEndian(f[base + 44..base + 46])), FromBigEndian(f[base + 46..base + 48]))
  }

  lemma RawIsDecoded(f: Bytes, base: nat)
    requires base + RECORD_SIZE <= |f|
    ensures RawRecord(f, base) == ReadRecord(f[base..base + RECORD_SIZE])
  {
    SubSlice(f, base, base + RECORD_SIZE, 0, 32);
    SubSlice(f, base, base + RECORD_SIZE, 32, 40);
    SubSlice(f, base, base + RECORD_SIZE, 40, 44);
    SubSlice(f, base, base + RECORD_SIZE, 44, 46);
    SubSlice(f, base, base + RECORD_SIZE, 46, 48);
  }

  lemma RawAt(m: Mapped, n: nat)
    requires Inside(m) && n < m.indexCount
    ensures HeapOf(m).index[n] == RawRecord(m.file, Base(m, n))
  {
    RecordSlice(m, n);
    RawIsDecoded(m.file, Base(m, n));
  }

  /** The fields read in place are those of the decoded record. */
  lemma FieldsAgree(m: Mapped, n: nat)
    requires Inside(m) && n < m.indexCount
    ensures var r := HeapOf(m).index[n];
            && ReadEntryKey(m, n) == r.entryKey
            && ReadDiscriminator(m, n) == r.discriminator
            && ReadRecordFields(m, n) == (r.dataOffset, r.dataLength, r.flags, r.discriminator)
  {
    RawAt(m, n);
  }

  // ---- lookups ---------------------------------------------------------------------------

  /** The identifier does not occur outside the range still searched. */
  ghost predicate OnlyBetween(rs: seq<IndexRecord>, id: EntryId, lo: int, hi: int) {
    forall n :: 0 <= n < |rs| && (n < lo || hi <= n) ==> IdOf(rs[n]) != id
  }

  /** Bisection on the raw bytes: it finds a record of the decoded index, or none exists once sorted. */
  method BinarySearchDisc(m: Mapped, key: Digest, disc: u16) returns (r: Option<nat>)
    requires Inside(m)
    ensures r.Some? ==> r.value < m.indexCount
    ensures StrictlySorted(HeapOf(m).index) ==> r == Search(HeapOf(m).index, EntryId(key, disc))
  {
    var lo, hi := 0, m.indexCount;
    ghost var rs, id := HeapOf(m).index, EntryId(key, disc);
    assert |rs| == m.indexCount;
    while lo < hi
      invariant 0 <= lo <= hi <= m.indexCount
      invariant StrictlySorted(rs) ==> OnlyBetween(rs, id, lo, hi)
    {
      var mid := lo + (hi - lo) / 2;
      FieldsAgree(m, mid);
      var k, d := ReadEntryKey(m, mid), ReadDiscriminator(m, mid);
      if k == key && d == disc {
        if StrictlySorted(rs) {
          SearchUnique(rs, id, mid);
        }
        return Some(mid);
      } else if Less(k, key) || (k == key && d < disc) {
        BelowProbe(rs, id, 0, mid);
        lo := mid + 1;
      } else {
        AboveProbe(rs, id, mid, m.indexCount);
        hi := mid;
      }
    }
    r := None;
  }

  /** The bytes of one record, taken from the mapping. */
  function EntryAtMapped(m: Mapped, n: nat): Option<Bytes>
    requires Inside(m) && n < m.indexCount
  {
    var (offset, length, flags, _) := ReadRecordFields(m, n);
    if flags.tombstone then None
    else if offset + length > m.dataLength then None
    else Some(m.file[m.dataOffset + offset..m.dataOffset + offset + length])
  }

  lemma EntryAgrees(m: Mapped, n: nat)
    requires Inside(m) && n < m.indexCount
    ensures EntryAtMapped(m, n) == EntryBytes(HeapOf(m), HeapOf(m).index[n])
  {
    FieldsAgree(m, n);
    var (offset, length, _, _) := ReadRecordFields(m, n);
    if offset + length <= m.dataLength {
      SubSlice(m.file, m.dataOffset, m.dataOffset + m.dataLength, offset, offset + length);
    }
  }

  method LookupMapped(m: Mapped, key: Digest) returns (r: Option<Bytes>)
    requires Inside(m)
    ensures StrictlySorted(HeapOf(m).index) ==> r == Lookup(HeapOf(m), key)
  {
    var hit := BinarySearchDisc(m, key, 0);
    if hit.None? {
      return None;
    }
    EntryAgrees(m, hit.value);
    r := EntryAtMapped(m, hit.value);
  }

  method LookupPreferredMapped(m: Mapped, key: Digest, prefs: seq<u16>) returns (r: Option<Bytes>)
    requires Inside(m)
    ensures StrictlySorted(HeapOf(m).index) ==> r == LookupPreferred(HeapOf(m), key, prefs)
  {
    ghost var rs := HeapOf(m).index;
    for n := 0 to |prefs|
      invariant StrictlySorted(rs) ==> Preferred(rs, key, prefs, []) == Preferred(rs, key, prefs[n..], prefs[..n])
    {
      var hit := BinarySearchDisc(m, key, prefs[n]);
      if hit.Some? {
        EntryAgrees(m, hit.value);
        return EntryAtMapped(m, hit.value);
      }
      assert prefs[n..][1..] == prefs[n + 1..] && prefs[..n] + [prefs[n]] == prefs[..n + 1];
    }
    assert prefs[|prefs|..] == [] && prefs[..|prefs|] == prefs;
    if 0 !in prefs {
      var hit := BinarySearchDisc(m, key, 0);
      if hit.Some? {
        EntryAgrees(m, hit.value);
        return EntryAtMapped(m, hit.value);
      }
    }
    r := None;
  }
}
