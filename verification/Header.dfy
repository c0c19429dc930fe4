/** The 64-byte file header (crates/ahu/src/header.rs). */
module Header {
  import opened Wrappers
  import opened Bytes
  import opened Manifest

  const MAGIC: Bytes := [0x41, 0x48, 0x55, 0x31]
  const HEADER_SIZE: nat := 64
  const FORMAT_MAJOR: u16 := 0
  const FORMAT_MINOR: u16 := 1

  datatype FileHeader = FileHeader(
    formatMajor: u16,
    formatMinor: u16,
    manifestOffset: u64,
    manifestLength: u32,
    sealOffset: u64,
    sealLength: u32,
    indexOffset: u64,
    indexLength: u64,
    dataOffset: u64,
    dataLength: u64)

  datatype Section = ManifestSection | SealSection | IndexSection | DataSection

  datatype FormatError =
    | UnexpectedEnd
    | BadMagic
    | UnsupportedVersion(major: u16, minor: u16)
    | OutOfBounds(section: Section)
    | BadManifest(why: FieldError)
    | IndexSizeMismatch
    | TooLarge

  /** The fixed part, then the ten fields in file order. */
  function WriteHeader(h: FileHeader): (b: Bytes)
    ensures |b| == HEADER_SIZE
  {
    WriteVersion(h) + WriteFront(h) + WriteBack(h)
  }

  function WriteVersion(h: FileHeader): (b: Bytes)
    ensures |b| == 8
  {
    MAGIC + ToBigEndian(h.formatMajor, 2) + ToBigEndian(h.formatMinor, 2)
  }

  function WriteFront(h: FileHeader): (b: Bytes)
    ensures |b| == 24
  {
    ToBigEndian(h.manifestOffset, 8) + ToBigEndian(h.manifestLength, 4)
    + ToBigEndian(h.sealOffset, 8) + ToBigEndian(h.sealLength, 4)
  }

  function WriteBack(h: FileHeader): (b: Bytes)
    ensures |b| == 32
  {
    ToBigEndian(h.indexOffset, 8) + ToBigEndian(h.indexLength, 8)
    + ToBigEndian(h.dataOffset, 8) + ToBigEndian(h.dataLength, 8)
  }

  function ReadFields(b: Bytes): FileHeader
    requires |b| >= HEADER_SIZE
  {
    Widths();
    FileHeader(FromBigEndian(b[4..6]), FromBigEndian(b[6..8]),
               FromBigEndian(b[8..16]), FromBigEndian(b[16..20]),
               FromBigEndian(b[20..28]), FromBigEndian(b[28..32]),
               FromBigEndian(b[32..40]), FromBigEndian(b[40..48]),
               FromBigEndian(b[48..56]), FromBigEndian(b[56..64]))
  }

  /** Reads in order and stops at the first thing that is wrong or missing. */
  function ReadHeader(b: Bytes): Result<FileHeader, FormatError> {
    Widths();
    if |b| < 4 then Err(UnexpectedEnd)
    else if b[..4] != MAGIC then Err(BadMagic)
    else if |b| < 8 then Err(UnexpectedEnd)
    else if FromBigEndian(b[4..6]) != FORMAT_MAJOR then
      Err(UnsupportedVersion(FromBigEndian(b[4..6]), FromBigEndian(b[6..8])))
    else if |b| < HEADER_SIZE then Err(UnexpectedEnd)
    else Ok(ReadFields(b))
  }

  /** Exactly what is taken for a header: 64 bytes that begin with AHU1 and major version 0. */
  lemma HeaderReadExactly(b: Bytes)
    ensures ReadHeader(b).Ok? <==>
            |b| >= 64 && b[0] == 0x41 && b[1] == 0x48 && b[2] == 0x55 && b[3] == 0x31 && b[4] == 0 && b[5] == 0
  {
    if |b| >= 64 {
      assert b[..4] == [b[0], b[1], b[2], b[3]];
      var v := b[4..6];
      assert v[..1] == [b[4]] && v[..1][..0] == [];
      assert FromBigEndian(v[..1]) == b[4];
    }
  }

  lemma FieldAt(b: Bytes, lo: nat, width: nat, n: nat)
    requires lo + width <= |b| && b[lo..lo + width] == ToBigEndian(n, width) && n < Pow256(width)
    ensures FromBigEndian(b[lo..lo + width]) == n
  {
    BigEndianRoundTrip(n, width);
  }

  lemma HeaderSlices(h: FileHeader, rest: Bytes)
    ensures var b := WriteHeader(h) + rest;
            && b[..4] == MAGIC
            && b[4..6] == ToBigEndian(h.formatMajor, 2) && b[6..8] == ToBigEndian(h.formatMinor, 2)
            && b[8..32] == WriteFront(h) && b[32..64] == WriteBack(h)
  {
    var v := WriteVersion(h);
    assert WriteHeader(h)[..8] == v;
    assert v[..4] == MAGIC && v[4..6] == ToBigEndian(h.formatMajor, 2) && v[6..8] == ToBigEndian(h.formatMinor, 2);
    var b := WriteHeader(h) + rest;
    assert b[..4] == v[..4] && b[4..6] == v[4..6] && b[6..8] == v[6..8];
  }

  lemma FrontSlices(h: FileHeader, b: Bytes)
    requires |b| >= HEADER_SIZE && b[8..32] == WriteFront(h)
    ensures b[8..16] == ToBigEndian(h.manifestOffset, 8) && b[16..20] == ToBigEndian(h.manifestLength, 4)
    ensures b[20..28] == ToBigEndian(h.sealOffset, 8) && b[28..32] == ToBigEndian(h.sealLength, 4)
  {
    var f := WriteFront(h);
    assert f[0..8] == ToBigEndian(h.manifestOffset, 8) && f[8..12] == ToBigEndian(h.manifestLength, 4);
    assert f[12..20] == ToBigEndian(h.sealOffset, 8) && f[20..24] == ToBigEndian(h.sealLength, 4);
    SubSlice(b, 8, 32, 0, 8);
    SubSlice(b, 8, 32, 8, 12);
    SubSlice(b, 8, 32, 12, 20);
    SubSlice(b, 8, 32, 20, 24);
  }

  lemma BackSlices(h: FileHeader, b: Bytes)
    requires |b| >= HEADER_SIZE && b[32..64] == WriteBack(h)
    ensures b[32..40] == ToBigEndian(h.indexOffset, 8) && b[40..48] == ToBigEndian(h.indexLength, 8)
    ensures b[48..56] == ToBigEndian(h.dataOffset, 8) && b[56..64] == ToBigEndian(h.dataLength, 8)
  {
    var f := WriteBack(h);
    assert f[0..8] == ToBigEndian(h.indexOffset, 8) && f[8..16] == ToBigEndian(h.indexLength, 8);
    assert f[16..24] == ToBigEndian(h.dataOffset, 8) && f[24..32] == ToBigEndian(h.dataLength, 8);
    SubSlice(b, 32, 64, 0, 8);
    SubSlice(b, 32, 64, 8, 16);
    SubSlice(b, 32, 64, 16, 24);
    SubSlice(b, 32, 64, 24, 32);
  }

  lemma FieldsRoundTrip(h: FileHeader, rest: Bytes)
    ensures ReadFields(WriteHeader(h) + rest) == h
  {
    var b := WriteHeader(h) + rest;
    Widths();
    HeaderSlices(h, rest);
    FrontSlices(h, b);
    BackSlices(h, b);
    FieldAt(b, 4, 2, h.formatMajor);
    FieldAt(b, 6, 2, h.formatMinor);
    FieldAt(b, 8, 8, h.manifestOffset);
    FieldAt(b, 16, 4, h.manifestLength);
    FieldAt(b, 20, 8, h.sealOffset);
    FieldAt(b, 28, 4, h.sealLength);
    FieldAt(b, 32, 8, h.indexOffset);
    FieldAt(b, 40, 8, h.indexLength);
    FieldAt(b, 48, 8, h.dataOffset);
    FieldAt(b, 56, 8, h.dataLength);
  }

  /** A written header reads back, whatever follows it, exactly when its version is supported. */
  lemma HeaderRoundTrip(h: FileHeader, rest: Bytes)
    ensures ReadHeader(WriteHeader(h) + rest) ==
            if h.formatMajor == FORMAT_MAJOR then Ok(h) else Err(UnsupportedVersion(h.formatMajor, h.formatMinor))
  {
    var b := WriteHeader(h) + rest;
    Widths();
    HeaderSlices(h, rest);
    FieldAt(b, 4, 2, h.formatMajor);
    FieldAt(b, 6, 2, h.formatMinor);
    FieldsRoundTrip(h, rest);
  }

  /** Section ends are computed with overflow checks and must lie inside the file. */
  predicate SectionInside(offset: u64, length: u64, fileSize: nat) {
    offset + length < U64_LIMIT && offset + length <= fileSize
  }

  function ValidateBounds(h: FileHeader, fileSize: nat): (r: Option<FormatError>)
    ensures r.None? <==>
            && SectionInside(h.manifestOffset, h.manifestLength, fileSize)
            && SectionInside(h.sealOffset, h.sealLength, fileSize)
            && SectionInside(h.indexOffset, h.indexLength, fileSize)
            && SectionInside(h.dataOffset, h.dataLength, fileSize)
  {
    if !SectionInside(h.manifestOffset, h.manifestLength, fileSize) then Some(OutOfBounds(ManifestSection))
    else if !SectionInside(h.sealOffset, h.sealLength, fileSize) then Some(OutOfBounds(SealSection))
    else if !SectionInside(h.indexOffset, h.indexLength, fileSize) then Some(OutOfBounds(IndexSection))
    else if !SectionInside(h.dataOffset, h.dataLength, fileSize) then Some(OutOfBounds(DataSection))
    else None
  }
}
