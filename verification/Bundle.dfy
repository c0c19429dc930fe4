/**
 A bundle in memory: parsing a file, writing one back, reading entries, and
 structural verification (crates/ahu/src/bundle.rs, crates/ahu/src/verify.rs).
 */
module Bundle {
  import opened Wrappers
  import opened Bytes
  import opened Collections
  import opened Manifest
  import opened ManifestCodec
  import opened Index
  import opened Header

  type Decode = Bytes -> Result<Manifest, FieldError>

  /** SHA-256 and the manifest codec a reader and a writer share. */
  datatype Codec = Codec(sha: Bytes -> Digest, toCbor: Manifest -> Bytes, fromCbor: Decode)

  /** Reading what was written gives the manifest back. */
  ghost predicate Faithful(c: Codec) {
    forall m :: c.fromCbor(c.toCbor(m)) == Ok(m)
  }

  /** The manifest codec over a byte-level CBOR writer and reader. */
  function CborCodec(sha: Bytes -> Digest, write: Value -> Bytes, read: Bytes -> Option<Value>): Codec {
    Codec(sha, m => write(ToValue(m)), b => DecodeWith(read, b))
  }

  function DecodeWith(read: Bytes -> Option<Value>, b: Bytes): Result<Manifest, FieldError> {
    match read(b)
    case None => Err(NotCbor)
    case Some(v) => FromValue(v)
  }

  /** A faithful byte-level codec makes a faithful manifest codec. */
  lemma CborIsFaithful(sha: Bytes -> Digest, write: Value -> Bytes, read: Bytes -> Option<Value>)
    requires forall v :: read(write(v)) == Some(v)
    ensures Faithful(CborCodec(sha, write, read))
  {
    var c := CborCodec(sha, write, read);
    forall m
      ensures c.fromCbor(c.toCbor(m)) == Ok(m)
    {
      RoundTrip(m);
    }
  }

  /** Equal encodings mean equal manifests. */
  lemma CborUnique(c: Codec, m: Manifest, n: Manifest)
    requires Faithful(c)
    ensures c.toCbor(m) == c.toCbor(n) <==> m == n
  {
    assert c.fromCbor(c.toCbor(m)) == Ok(m) && c.fromCbor(c.toCbor(n)) == Ok(n);
  }

  datatype Bundle = Bundle(
    header: FileHeader,
    manifest: Manifest,
    manifestBytes: Bytes,
    sealBytes: Bytes,
    index: seq<IndexRecord>,
    data: Bytes)

  // ---- parsing -----------------------------------------------------------------------

  function Slice(b: Bytes, offset: nat, length: nat): Bytes
    requires offset + length <= |b|
  {
    b[offset..offset + length]
  }

  function FromBytes(c: Codec, b: Bytes): Result<Bundle, FormatError> {
    ParseWith(c.fromCbor, b)
  }

  function ParseWith(decode: Decode, b: Bytes): Result<Bundle, FormatError> {
    var h :- ReadHeader(b);
    var bad := ValidateBounds(h, |b|);
    if bad.Some? then Err(bad.value) else ParseSections(decode, b, h)
  }

  function ParseSections(decode: Decode, b: Bytes, h: FileHeader): Result<Bundle, FormatError>
    requires ValidateBounds(h, |b|).None?
  {
    var manifestBytes := Slice(b, h.manifestOffset, h.manifestLength);
    match decode(manifestBytes)
    case Err(e) => Err(BadManifest(e))
    case Ok(m) =>
      var indexBytes := Slice(b, h.indexOffset, h.indexLength);
      if |indexBytes| % RECORD_SIZE != 0 then Err(IndexSizeMismatch)
      else Ok(Bundle(h, m, manifestBytes, Slice(b, h.sealOffset, h.sealLength), DecodeIndex(indexBytes),
                     Slice(b, h.dataOffset, h.dataLength)))
  }

  /** The reader, with its loop over the index section. */
  method ReadBundle(c: Codec, b: Bytes) returns (r: Result<Bundle, FormatError>)
    ensures r == FromBytes(c, b)
  {
    var h :- ReadHeader(b);
    var bad := ValidateBounds(h, |b|);
    if bad.Some? {
      return Err(bad.value);
    }
    var manifestBytes := Slice(b, h.manifestOffset, h.manifestLength);
    var m := c.fromCbor(manifestBytes);
    if m.Err? {
      return Err(BadManifest(m.error));
    }
    var sealBytes := Slice(b, h.sealOffset, h.sealLength);
    var index := ParseIndex(Slice(b, h.indexOffset, h.indexLength));
    if index.None? {
      return Err(IndexSizeMismatch);
    }
    r := Ok(Bundle(h, m.value, manifestBytes, sealBytes, index.value, Slice(b, h.dataOffset, h.dataLength)));
  }

  // ---- serialization -----------------------------------------------------------------

  /** Sections in file order, directly after the header and without gaps. */
  function Layout(minor: u16, m: Bytes, s: Bytes, ix: Bytes, d: Bytes): FileHeader
    requires |m| < U32_LIMIT && |s| < U32_LIMIT && HEADER_SIZE + |m| + |s| + |ix| < U64_LIMIT && |d| < U64_LIMIT
  {
    var seal := HEADER_SIZE + |m|;
    var index := seal + |s|;
    FileHeader(FORMAT_MAJOR, minor, HEADER_SIZE, |m|, seal, |s|, index, |ix|, index + |ix|, |d|)
  }

  function Assemble(minor: u16, m: Bytes, s: Bytes, ix: Bytes, d: Bytes): (b: Bytes)
    requires |m| < U32_LIMIT && |s| < U32_LIMIT && HEADER_SIZE + |m| + |s| + |ix| < U64_LIMIT && |d| < U64_LIMIT
    ensures |b| == HEADER_SIZE + |m| + |s| + |ix| + |d|
  {
    WriteHeader(Layout(minor, m, s, ix, d)) + (m + (s + (ix + d)))
  }

  /** Sections a file of these sizes can hold. */
  predicate FitsFile(m: Bytes, s: Bytes, ix: Bytes, d: Bytes) {
    |m| < U32_LIMIT && |s| < U32_LIMIT && HEADER_SIZE + |m| + |s| + |ix| + |d| < U64_LIMIT
  }

  lemma Middle(before: Bytes, x: Bytes, after: Bytes)
    ensures Slice(before + (x + after), |before|, |x|) == x
  {
  }

  lemma FourSlices(w: Bytes, m: Bytes, s: Bytes, ix: Bytes, d: Bytes)
    ensures var b := w + (m + (s + (ix + d)));
            && Slice(b, |w|, |m|) == m
            && Slice(b, |w| + |m|, |s|) == s
            && Slice(b, |w| + |m| + |s|, |ix|) == ix
            && Slice(b, |w| + |m| + |s| + |ix|, |d|) == d
  {
    Middle(w, m, s + (ix + d));
    Regroup(w, m, s + (ix + d));
    Middle(w + m, s, ix + d);
    Regroup(w + m, s, ix + d);
    Middle(w + m + s, ix, d);
    Regroup(w + m + s, ix, d);
    Middle(w + m + s + ix, d, []);
    assert d + [] == d;
  }

  lemma AssembledSections(minor: u16, m: Bytes, s: Bytes, ix: Bytes, d: Bytes)
    requires FitsFile(m, s, ix, d)
    ensures var b, h := Assemble(minor, m, s, ix, d), Layout(minor, m, s, ix, d);
            && ReadHeader(b) == Ok(h) && ValidateBounds(h, |b|).None?
            && Slice(b, h.manifestOffset, h.manifestLength) == m
            && Slice(b, h.sealOffset, h.sealLength) == s
            && Slice(b, h.indexOffset, h.indexLength) == ix
            && Slice(b, h.dataOffset, h.dataLength) == d
  {
    var h := Layout(minor, m, s, ix, d);
    HeaderRoundTrip(h, m + (s + (ix + d)));
    FourSlices(WriteHeader(h), m, s, ix, d);
  }

  /** A file laid out this way parses to its sections. */
  lemma AssembledParses(c: Codec, minor: u16, m: Bytes, s: Bytes, rs: seq<IndexRecord>, d: Bytes)
    requires FitsFile(m, s, EncodeIndex(rs), d) && c.fromCbor(m).Ok?
    ensures FromBytes(c, Assemble(minor, m, s, EncodeIndex(rs), d))
         == Ok(Bundle(Layout(minor, m, s, EncodeIndex(rs), d), c.fromCbor(m).value, m, s, rs, d))
  {
    AssembledSections(minor, m, s, EncodeIndex(rs), d);
    IndexRoundTrip(rs);
  }

  /** `to_bytes`: the parsed sections under a fresh layout; oversized sections are an error. */
  function ToBytes(b: Bundle): Result<Bytes, FormatError>
    requires |b.data| < U64_LIMIT
  {
    var ix := EncodeIndex(b.index);
    if |b.manifestBytes| >= U32_LIMIT || |b.sealBytes| >= U32_LIMIT then Err(TooLarge)
    else if HEADER_SIZE + |b.manifestBytes| + |b.sealBytes| + |ix| >= U64_LIMIT then Err(TooLarge)
    else
      var h := Layout(b.header.formatMinor, b.manifestBytes, b.sealBytes, ix, b.data);
      Ok(WriteHeader(h.(formatMajor := b.header.formatMajor))
         + (b.manifestBytes + (b.sealBytes + (ix + b.data))))
  }

  /** The writer, with its loop over the index records. */
  method WriteBundle(b: Bundle) returns (r: Result<Bytes, FormatError>)
    requires |b.data| < U64_LIMIT
    ensures r == ToBytes(b)
  {
    var ix := WriteIndex(b.index);
    if |b.manifestBytes| >= U32_LIMIT || |b.sealBytes| >= U32_LIMIT {
      return Err(TooLarge);
    }
    var index := HEADER_SIZE + |b.manifestBytes| + |b.sealBytes|;
    if index + |ix| >= U64_LIMIT {
      return Err(TooLarge);
    }
    var h := b.header.(manifestOffset := HEADER_SIZE, manifestLength := |b.manifestBytes|,
                       sealOffset := HEADER_SIZE + |b.manifestBytes|, sealLength := |b.sealBytes|,
                       indexOffset := index, indexLength := |ix|,
                       dataOffset := index + |ix|, dataLength := |b.data|);
    r := Ok(WriteHeader(h) + (b.manifestBytes + (b.sealBytes + (ix + b.data))));
  }

  /** A parsed bundle whose sections together fit a file. */
  predicate Serializable(b: Bundle) {
    FitsFile(b.manifestBytes, b.sealBytes, EncodeIndex(b.index), b.data)
  }

  lemma ParsedBundle(c: Codec, f: Bytes)
    requires FromBytes(c, f).Ok?
    ensures var b := FromBytes(c, f).value;
            && b.header.formatMajor == FORMAT_MAJOR
            && c.fromCbor(b.manifestBytes) == Ok(b.manifest)
            && |b.data| < U64_LIMIT
  {
  }

  lemma ToBytesIsAssemble(b: Bundle)
    requires Serializable(b) && b.header.formatMajor == FORMAT_MAJOR
    ensures ToBytes(b)
         == Ok(Assemble(b.header.formatMinor, b.manifestBytes, b.sealBytes, EncodeIndex(b.index), b.data))
  {
  }

  /**
   Writing a parsed bundle and parsing it again keeps everything but the offsets,
   and from then on the bytes no longer change.
   */
  lemma RewriteIsStable(c: Codec, f: Bytes)
    requires FromBytes(c, f).Ok? && Serializable(FromBytes(c, f).value)
    ensures var b := FromBytes(c, f).value;
            && ToBytes(b).Ok?
            && FromBytes(c, ToBytes(b).value).Ok?
            && var b' := FromBytes(c, ToBytes(b).value).value;
               && b' == b.(header := b'.header)
               && ToBytes(b') == ToBytes(b)
  {
    var b := FromBytes(c, f).value;
    ParsedBundle(c, f);
    ToBytesIsAssemble(b);
    AssembledParses(c, b.header.formatMinor, b.manifestBytes, b.sealBytes, b.index, b.data);
    var b' := FromBytes(c, ToBytes(b).value).value;
    ToBytesIsAssemble(b');
  }

  // ---- entries ----------------------------------------------------------------------

  /** The bytes of a record, unless it is a tombstone or points outside the data section. */
  function EntryBytes(b: Bundle, r: IndexRecord): Option<Bytes> {
    if r.flags.tombstone then None
    else if r.dataOffset + r.dataLength <= |b.data| then Some(Slice(b.data, r.dataOffset, r.dataLength))
    else None
  }

  function EntryAt(b: Bundle, n: Option<nat>): Option<Bytes>
    requires n.Some? ==> n.value < |b.index|
  {
    if n.None? then None else EntryBytes(b, b.index[n.value])
  }

  function LookupId(b: Bundle, id: EntryId): Option<Bytes> {
    EntryAt(b, Search(b.index, id))
  }

  function Lookup(b: Bundle, key: Digest): Option<Bytes> {
    LookupId(b, EntryId(key, DEFAULT_DISCRIMINATOR))
  }

  function LookupPreferred(b: Bundle, key: Digest, prefs: seq<u16>): Option<Bytes> {
    PreferredInRange(b.index, key, prefs, []);
    EntryAt(b, Preferred(b.index, key, prefs, []))
  }

  lemma {:induction false} PreferredInRange(rs: seq<IndexRecord>, key: Digest, prefs: seq<u16>, tried: seq<u16>)
    ensures Preferred(rs, key, prefs, tried).Some? ==> Preferred(rs, key, prefs, tried).value < |rs|
  {
    if prefs != [] {
      PreferredInRange(rs, key, prefs[1..], tried + [prefs[0]]);
    }
  }

  // ---- structural verification --------------------------------------------------------

  datatype StructureError =
    | Undecodable(why: FieldError)
    | ManifestMismatch
    | IndexDigestMismatch
    | DataDigestMismatch
    | BadOrder(order: SortError)
    | EntryOutOfBounds(at: nat)
    | DeltaMissingBase

  datatype Warning = CountMismatch | SealMissing

  datatype VerifyResult = VerifyResult(
    headerOk: bool,
    manifestOk: bool,
    indexDigestOk: bool,
    dataDigestOk: bool,
    sortOrderOk: bool,
    entryBoundsOk: bool,
    sealPresent: bool,
    entryCountMatches: bool,
    warnings: seq<Warning>)

  /** Every record that is not a tombstone has its bytes inside the data section. */
  ghost predicate EntriesInside(b: Bundle) {
    forall n :: 0 <= n < |b.index| && !b.index[n].flags.tombstone ==> EntryBytes(b, b.index[n]).Some?
  }

  method FirstOutside(b: Bundle) returns (r: Option<nat>)
    ensures r.None? <==> EntriesInside(b)
    ensures r.Some? ==> r.value < |b.index|
                        && !b.index[r.value].flags.tombstone && EntryBytes(b, b.index[r.value]).None?
  {
    for n := 0 to |b.index|
      invariant forall k :: 0 <= k < n && !b.index[k].flags.tombstone ==> EntryBytes(b, b.index[k]).Some?
    {
      if !b.index[n].flags.tombstone && EntryBytes(b, b.index[n]).None? {
        return Some(n);
      }
    }
    r := None;
  }

  ghost predicate StructureOk(c: Codec, b: Bundle) {
    && c.fromCbor(b.manifestBytes).Ok?
    && var m := c.fromCbor(b.manifestBytes).value;
       && c.toCbor(m) == c.toCbor(b.manifest)
       && c.sha(EncodeIndex(b.index)) == m.integrity.indexDigest
       && c.sha(b.data) == m.integrity.dataDigest
       && StrictlySorted(b.index)
       && EntriesInside(b)
       && (m.bundleType.Delta? ==> m.continuity.baseManifestDigest.Some?)
  }

  /**
   The signed bytes decide every answer: two bundles that verify with one manifest have
   the same index and data, as far as the digest separates them, and answer alike.
   */
  lemma ManifestDecidesAnswers(c: Codec, a: Bundle, b: Bundle, id: EntryId)
    requires StructureOk(c, a) && StructureOk(c, b) && a.manifestBytes == b.manifestBytes
    requires c.sha(EncodeIndex(a.index)) == c.sha(EncodeIndex(b.index)) ==> EncodeIndex(a.index) == EncodeIndex(b.index)
    requires c.sha(a.data) == c.sha(b.data) ==> a.data == b.data
    ensures a.index == b.index && a.data == b.data && LookupId(a, id) == LookupId(b, id)
  {
    IndexRoundTrip(a.index);
    IndexRoundTrip(b.index);
  }

  /** What an accepted bundle is reported as: everything holds, apart from two warnings. */
  function Report(c: Codec, b: Bundle): VerifyResult
    requires c.fromCbor(b.manifestBytes).Ok?
  {
    var counted := |b.index| == c.fromCbor(b.manifestBytes).value.entryCount;
    VerifyResult(true, true, true, true, true, true, b.sealBytes != [], counted,
                 (if counted then [] else [CountMismatch]) + (if b.sealBytes == [] then [SealMissing] else []))
  }

  method VerifyStructure(c: Codec, b: Bundle) returns (r: Result<VerifyResult, StructureError>)
    ensures r.Ok? <==> StructureOk(c, b)
    ensures r.Ok? ==> r.value == Report(c, b)
    ensures r.Err? && r.error.BadOrder? ==> !StrictlySorted(b.index)
  {
    match c.fromCbor(b.manifestBytes) {
      case Err(e) => return Err(Undecodable(e));
      case Ok(_) =>
    }
    var m := c.fromCbor(b.manifestBytes).value;
    if c.toCbor(m) != c.toCbor(b.manifest) {
      return Err(ManifestMismatch);
    }
    var result := VerifyResult(true, true, false, false, false, true, b.sealBytes != [], false, []);
    var ix := WriteIndex(b.index);
    result := result.(indexDigestOk := c.sha(ix) == m.integrity.indexDigest);
    if !result.indexDigestOk {
      return Err(IndexDigestMismatch);
    }
    result := result.(dataDigestOk := c.sha(b.data) == m.integrity.dataDigest);
    if !result.dataDigestOk {
      return Err(DataDigestMismatch);
    }
    var order := ValidateSortOrder(b.index);
    if order.Err? {
      return Err(BadOrder(order.error));
    }
    result := result.(sortOrderOk := true, entryCountMatches := |b.index| == m.entryCount);
    if !result.entryCountMatches {
      result := result.(warnings := result.warnings + [CountMismatch]);
    }
    var outside := FirstOutside(b);
    if outside.Some? {
      return Err(EntryOutOfBounds(outside.value));
    }
    if m.bundleType.Delta? && m.continuity.baseManifestDigest.None? {
      return Err(DeltaMissingBase);
    }
    if !result.sealPresent {
      result := result.(warnings := result.warnings + [SealMissing]);
    }
    r := Ok(result);
  }

  /** An accepted bundle's decoded manifest is the one its signed bytes carry. */
  lemma VerifiedManifestIsSigned(c: Codec, b: Bundle)
    requires Faithful(c) && StructureOk(c, b)
    ensures c.fromCbor(b.manifestBytes) == Ok(b.manifest)
  {
    CborUnique(c, c.fromCbor(b.manifestBytes).value, b.manifest);
  }

  // ---- the plain map a bundle stands for ---------------------------------------------

  /** What an identifier denotes: nothing, a removal, or a payload. */
  type Content = map<EntryId, Option<Bytes>>

  function At(m: Content, id: EntryId): Option<Bytes> {
    if id in m then m[id] else None
  }

  /** The first preferred variant present decides, a removal included; the default comes last. */
  function Choice(m: Content, key: Digest, prefs: seq<u16>): Option<Bytes> {
    if prefs == [] then At(m, EntryId(key, DEFAULT_DISCRIMINATOR))
    else if EntryId(key, prefs[0]) in m then m[EntryId(key, prefs[0])]
    else Choice(m, key, prefs[1..])
  }

  /** The preference order written out: the first variant that is there, and the default if none is. */
  lemma {:induction false} ChoiceExactly(m: Content, key: Digest, prefs: seq<u16>, n: nat)
    requires n <= |prefs| && forall k :: 0 <= k < n ==> EntryId(key, prefs[k]) !in m
    ensures n < |prefs| && EntryId(key, prefs[n]) in m ==> Choice(m, key, prefs) == m[EntryId(key, prefs[n])]
    ensures n == |prefs| ==>
              Choice(m, key, prefs) == if EntryId(key, 0) in m then m[EntryId(key, 0)] else None
  {
    if n > 0 {
      assert forall k :: 0 <= k < n - 1 ==> prefs[1..][k] == prefs[k + 1];
      ChoiceExactly(m, key, prefs[1..], n - 1);
    }
  }

  function ContentOver(b: Bundle, rs: seq<IndexRecord>): Content {
    if rs == [] then map[]
    else ContentOver(b, rs[..|rs| - 1])[IdOf(rs[|rs| - 1]) := EntryBytes(b, rs[|rs| - 1])]
  }

  function ContentOf(b: Bundle): Content {
    ContentOver(b, b.index)
  }

  lemma {:induction false} ContentKeys(b: Bundle, rs: seq<IndexRecord>, id: EntryId)
    ensures id in ContentOver(b, rs) <==> exists n :: 0 <= n < |rs| && IdOf(rs[n]) == id
  {
    if rs != [] {
      var last := |rs| - 1;
      ContentKeys(b, rs[..last], id);
      assert forall n :: 0 <= n < last ==> rs[n] == rs[..last][n];
      assert id == IdOf(rs[last]) ==> exists n :: 0 <= n < |rs| && IdOf(rs[n]) == id;
    }
  }

  lemma {:induction false} ContentAt(b: Bundle, rs: seq<IndexRecord>, n: nat)
    requires StrictlySorted(rs) && n < |rs|
    ensures IdOf(rs[n]) in ContentOver(b, rs) && ContentOver(b, rs)[IdOf(rs[n])] == EntryBytes(b, rs[n])
  {
    var last := |rs| - 1;
    if n < last {
      ContentAt(b, rs[..last], n);
      IdIrreflexive(IdOf(rs[last]));
    }
  }

  /** Bisection over a verified index reads the plain map. */
  lemma SearchRefines(b: Bundle, id: EntryId)
    requires StrictlySorted(b.index)
    ensures Search(b.index, id).Some? <==> id in ContentOf(b)
    ensures LookupId(b, id) == At(ContentOf(b), id)
  {
    ContentKeys(b, b.index, id);
    var hit := Search(b.index, id);
    if hit.Some? {
      ContentAt(b, b.index, hit.value);
    }
  }

  lemma {:induction false} PreferredRefines(b: Bundle, key: Digest, prefs: seq<u16>, tried: seq<u16>)
    requires StrictlySorted(b.index)
    requires forall d :: d in tried ==> EntryId(key, d) !in ContentOf(b)
    ensures Preferred(b.index, key, prefs, tried).Some? ==> Preferred(b.index, key, prefs, tried).value < |b.index|
    ensures EntryAt(b, Preferred(b.index, key, prefs, tried)) == Choice(ContentOf(b), key, prefs)
  {
    if prefs == [] {
      SearchRefines(b, EntryId(key, DEFAULT_DISCRIMINATOR));
    } else {
      SearchRefines(b, EntryId(key, prefs[0]));
      if Search(b.index, EntryId(key, prefs[0])).None? {
        PreferredRefines(b, key, prefs[1..], tried + [prefs[0]]);
      }
    }
  }

  /** Both lookups of a verified bundle are lookups in its plain map. */
  lemma LookupRefines(b: Bundle, key: Digest, prefs: seq<u16>)
    requires StrictlySorted(b.index)
    ensures Lookup(b, key) == At(ContentOf(b), EntryId(key, DEFAULT_DISCRIMINATOR))
    ensures LookupPreferred(b, key, prefs) == Choice(ContentOf(b), key, prefs)
  {
    SearchRefines(b, EntryId(key, DEFAULT_DISCRIMINATOR));
    PreferredRefines(b, key, prefs, []);
  }
}
