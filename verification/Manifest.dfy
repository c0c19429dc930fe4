/**
 The bundle manifest and its CBOR tree (crates/ahu/src/manifest.rs). The byte
 level of CBOR is a pair of functions supplied by the caller.
 */
module Manifest {
  import opened Wrappers
  import opened Bytes

  datatype BundleType = Full | Delta
  datatype Completeness = Partial | AuthoritativeComplete
  datatype ResponderIdType = ByName | ByKey
  datatype CompressionAlgorithm = Uncompressed | Zstd

  datatype ResponderId = ResponderId(idType: ResponderIdType, value: Bytes)

  datatype CaScope = CaScope(
    hashAlgorithm: Bytes,
    issuerNameHash: Bytes,
    issuerKeyHash: Bytes,
    epoch: u64,
    responderId: ResponderId,
    responderChain: Option<seq<Bytes>>,
    signatureAlgorithm: Bytes,
    completeness: Completeness)

  datatype Window = Window(producedAt: u64, thisUpdateMin: u64, nextUpdateMin: u64, nextUpdateMax: u64)

  datatype Integrity = Integrity(indexDigest: Digest, dataDigest: Digest)

  datatype Continuity = Continuity(
    prevManifestDigest: Option<Digest>,
    baseManifestDigest: Option<Digest>,
    chainLength: u64)

  datatype Shard = Shard(shardIndex: u64, shardCount: u64, shardFn: u64)

  datatype Compression = Compression(algorithm: CompressionAlgorithm, dictionaryDigest: Option<Digest>)

  type Uuid = u: Bytes | |u| == 16 witness seq(16, i => 0)

  datatype Manifest = Manifest(
    formatVersion: u64,
    bundleId: Uuid,
    producerId: string,
    createdAt: u64,
    bundleType: BundleType,
    caScopes: seq<CaScope>,
    window: Window,
    integrity: Integrity,
    entryCount: u64,
    continuity: Continuity,
    shard: Option<Shard>,
    compression: Option<Compression>,
    extensions: Option<seq<(string, Value)>>)

  // ---- the tree ------------------------------------------------------------------

  /** The integers a CBOR item can carry: 64 bits and a sign (section 3.1 of RFC 8949). */
  type CborInt = x: int | -0x1_0000_0000_0000_0000 <= x < 0x1_0000_0000_0000_0000

  /** A decoded CBOR item; floats are kept by their bits, so a NaN equals itself. */
  datatype Value =
    | Integer(i: CborInt)
    | ByteString(bytes: Bytes)
    | Text(text: string)
    | Float(bits: u64)
    | Boolean(flag: bool)
    | Null
    | Tag(tag: u64, item: Value)
    | Array(items: seq<Value>)
    | Map(entries: seq<(Value, Value)>)

  datatype FieldError =
    | NotCbor
    | RootNotMap
    | Missing(key: int)
    | WrongType(key: int)
    | OutOfRange(key: int)
    | UnknownCode(key: int, code: u64)
    | BadLength(key: int)
    | ScopeNotMap
    | ChainEntryNotBytes

  type Entries = seq<(Value, Value)>

  /** The first value filed under an integer key. */
  function Find(m: Entries, key: CborInt): Option<Value> {
    if m == [] then None
    else if m[0].0 == Integer(key) then Some(m[0].1)
    else Find(m[1..], key)
  }

  function GetUint(m: Entries, key: CborInt): Result<u64, FieldError> {
    match Find(m, key)
    case None => Err(Missing(key))
    case Some(Integer(n)) => if 0 <= n < U64_LIMIT then Ok(n) else Err(OutOfRange(key))
    case Some(_) => Err(WrongType(key))
  }

  function GetBytes(m: Entries, key: CborInt): Result<Bytes, FieldError> {
    match Find(m, key)
    case None => Err(Missing(key))
    case Some(ByteString(b)) => Ok(b)
    case Some(_) => Err(WrongType(key))
  }

  function GetText(m: Entries, key: CborInt): Result<string, FieldError> {
    match Find(m, key)
    case None => Err(Missing(key))
    case Some(Text(s)) => Ok(s)
    case Some(_) => Err(WrongType(key))
  }

  function GetMap(m: Entries, key: CborInt): Result<Entries, FieldError> {
    match Find(m, key)
    case None => Err(Missing(key))
    case Some(Map(e)) => Ok(e)
    case Some(_) => Err(WrongType(key))
  }

  function GetArray(m: Entries, key: CborInt): Result<seq<Value>, FieldError> {
    match Find(m, key)
    case None => Err(Missing(key))
    case Some(Array(a)) => Ok(a)
    case Some(_) => Err(WrongType(key))
  }

  /** A value that is present and not a map reads as absent here. */
  function GetOptionalMap(m: Entries, key: CborInt): Option<Entries> {
    match Find(m, key)
    case Some(Map(e)) => Some(e)
    case _ => None
  }

  function GetOptionalDigest(m: Entries, key: CborInt): Result<Option<Digest>, FieldError> {
    match Find(m, key)
    case None => Ok(None)
    case Some(ByteString(b)) => if |b| == 32 then Ok(Some(b)) else Err(BadLength(key))
    case Some(_) => Err(WrongType(key))
  }

  function GetDigest(m: Entries, key: CborInt): Result<Digest, FieldError> {
    var b :- GetBytes(m, key);
    if |b| == 32 then Ok(b) else Err(BadLength(key))
  }

  // ---- encoding --------------------------------------------------------------------

  /** Values under consecutive integer keys. */
  function Keyed(vs: seq<Value>, first: CborInt): (m: Entries)
    requires first + |vs| < U64_LIMIT
    ensures |m| == |vs|
    ensures forall n :: 0 <= n < |vs| ==> m[n] == (Integer(first + n), vs[n])
  {
    seq(|vs|, n requires 0 <= n < |vs| => (Integer(first + n), vs[n]))
  }

  function Opt(key: CborInt, v: Option<Value>): Entries {
    match v
    case None => []
    case Some(x) => [(Integer(key), x)]
  }

  function DigestValue(d: Option<Digest>): Option<Value> {
    match d
    case None => None
    case Some(b) => Some(ByteString(b))
  }

  function ByteStrings(bs: seq<Bytes>): (r: seq<Value>)
    ensures |r| == |bs|
    ensures forall n :: 0 <= n < |bs| ==> r[n] == ByteString(bs[n])
  {
    seq(|bs|, n requires 0 <= n < |bs| => ByteString(bs[n]))
  }

  function ResponderIdValue(r: ResponderId): Value {
    Map(Keyed([Integer(if r.idType.ByName? then 0 else 1), ByteString(r.value)], 1))
  }

  function ScopeEntries(s: CaScope): Entries {
    Keyed([ByteString(s.hashAlgorithm), ByteString(s.issuerNameHash), ByteString(s.issuerKeyHash),
           Integer(s.epoch), ResponderIdValue(s.responderId)], 1)
    + Opt(6, match s.responderChain case None => None case Some(c) => Some(Array(ByteStrings(c))))
    + Keyed([ByteString(s.signatureAlgorithm), Integer(if s.completeness.Partial? then 0 else 1)], 7)
  }

  function ScopeValues(ss: seq<CaScope>): (r: seq<Value>)
    ensures |r| == |ss|
    ensures forall n :: 0 <= n < |ss| ==> r[n] == Map(ScopeEntries(ss[n]))
  {
    seq(|ss|, n requires 0 <= n < |ss| => Map(ScopeEntries(ss[n])))
  }

  function WindowEntries(w: Window): Entries {
    Keyed([Integer(w.producedAt), Integer(w.thisUpdateMin), Integer(w.nextUpdateMin), Integer(w.nextUpdateMax)], 1)
  }

  function IntegrityEntries(i: Integrity): Entries {
    Keyed([ByteString(i.indexDigest), ByteString(i.dataDigest)], 1)
  }

  function ContinuityEntries(c: Continuity): Entries {
    Opt(1, DigestValue(c.prevManifestDigest)) + Opt(2, DigestValue(c.baseManifestDigest))
    + Keyed([Integer(c.chainLength)], 3)
  }

  function ShardEntries(s: Shard): Entries {
    Keyed([Integer(s.shardIndex), Integer(s.shardCount), Integer(s.shardFn)], 1)
  }

  function CompressionEntries(c: Compression): Entries {
    Keyed([Integer(if c.algorithm.Uncompressed? then 0 else 1)], 1) + Opt(2, DigestValue(c.dictionaryDigest))
  }

  function ExtensionEntries(x: seq<(string, Value)>): (m: Entries)
    ensures |m| == |x|
    ensures forall n :: 0 <= n < |x| ==> m[n] == (Text(x[n].0), x[n].1)
  {
    seq(|x|, n requires 0 <= n < |x| => (Text(x[n].0), x[n].1))
  }

  function RequiredValues(m: Manifest): seq<Value> {
    [Integer(m.formatVersion), ByteString(m.bundleId), Text(m.producerId), Integer(m.createdAt),
     Integer(if m.bundleType.Full? then 0 else 1), Array(ScopeValues(m.caScopes)),
     Map(WindowEntries(m.window)), Map(IntegrityEntries(m.integrity)), Integer(m.entryCount),
     Map(ContinuityEntries(m.continuity))]
  }

  function OptionalEntries(m: Manifest): Entries {
    Opt(11, match m.shard case None => None case Some(s) => Some(Map(ShardEntries(s))))
    + Opt(12, match m.compression case None => None case Some(c) => Some(Map(CompressionEntries(c))))
    + Opt(13, match m.extensions case None => None case Some(x) => Some(Map(ExtensionEntries(x))))
  }

  function ToValue(m: Manifest): Value {
    Map(Keyed(RequiredValues(m), 1) + OptionalEntries(m))
  }

  // ---- decoding --------------------------------------------------------------------

  function AllBytes(items: seq<Value>): Result<seq<Bytes>, FieldError> {
    if items == [] then Ok([])
    else if !items[0].ByteString? then Err(ChainEntryNotBytes)
    else
      var rest :- AllBytes(items[1..]);
      Ok([items[0].bytes] + rest)
  }

  /** The responder chain: the last array under key 6 wins, anything else there is skipped. */
  function ChainFrom(m: Entries, chain: Option<seq<Bytes>>): Result<Option<seq<Bytes>>, FieldError> {
    if m == [] then Ok(chain)
    else if m[0].0 == Integer(6) && m[0].1.Array? then
      var certs :- AllBytes(m[0].1.items);
      ChainFrom(m[1..], Some(certs))
    else ChainFrom(m[1..], chain)
  }

  function FromResponderId(m: Entries): Result<ResponderId, FieldError> {
    var code :- GetUint(m, 1);
    if code > 1 then Err(UnknownCode(1, code))
    else
      var value :- GetBytes(m, 2);
      Ok(ResponderId(if code == 0 then ByName else ByKey, value))
  }

  function FromScope(m: Entries): Result<CaScope, FieldError> {
    var ridMap :- GetMap(m, 5);
    var rid :- FromResponderId(ridMap);
    var chain :- ChainFrom(m, None);
    var alg :- GetBytes(m, 1);
    var nameHash :- GetBytes(m, 2);
    var keyHash :- GetBytes(m, 3);
    var epoch :- GetUint(m, 4);
    var sigAlg :- GetBytes(m, 7);
    var code :- GetUint(m, 8);
    if code > 1 then Err(UnknownCode(8, code))
    else Ok(CaScope(alg, nameHash, keyHash, epoch, rid, chain, sigAlg,
                    if code == 0 then Partial else AuthoritativeComplete))
  }

  function FromScopes(items: seq<Value>): Result<seq<CaScope>, FieldError> {
    if items == [] then Ok([])
    else if !items[0].Map? then Err(ScopeNotMap)
    else
      var s :- FromScope(items[0].entries);
      var rest :- FromScopes(items[1..]);
      Ok([s] + rest)
  }

  function FromWindow(m: Entries): Result<Window, FieldError> {
    var a :- GetUint(m, 1);
    var b :- GetUint(m, 2);
    var c :- GetUint(m, 3);
    var d :- GetUint(m, 4);
    Ok(Window(a, b, c, d))
  }

  function FromIntegrity(m: Entries): Result<Integrity, FieldError> {
    var i :- GetDigest(m, 1);
    var d :- GetDigest(m, 2);
    Ok(Integrity(i, d))
  }

  function FromContinuity(m: Entries): Result<Continuity, FieldError> {
    var prev :- GetOptionalDigest(m, 1);
    var base :- GetOptionalDigest(m, 2);
    var n :- GetUint(m, 3);
    Ok(Continuity(prev, base, n))
  }

  function FromShard(m: Option<Entries>): Result<Option<Shard>, FieldError> {
    if m.None? then Ok(None)
    else
      var a :- GetUint(m.value, 1);
      var b :- GetUint(m.value, 2);
      var c :- GetUint(m.value, 3);
      Ok(Some(Shard(a, b, c)))
  }

  function FromCompression(m: Option<Entries>): Result<Option<Compression>, FieldError> {
    if m.None? then Ok(None)
    else
      var code :- GetUint(m.value, 1);
      if code > 1 then Err(UnknownCode(1, code))
      else
        var dict :- GetOptionalDigest(m.value, 2);
        Ok(Some(Compression(if code == 0 then Uncompressed else Zstd, dict)))
  }

  /** Entries of the extension map that are not under a text key are dropped. */
  function FromExtensions(m: Entries): seq<(string, Value)> {
    if m == [] then []
    else if m[0].0.Text? then [(m[0].0.text, m[0].1)] + FromExtensions(m[1..])
    else FromExtensions(m[1..])
  }

  function FromHead(m: Entries): Result<(u64, Uuid, string, u64, BundleType, seq<CaScope>), FieldError> {
    var version :- GetUint(m, 1);
    var id :- GetBytes(m, 2);
    if |id| != 16 then Err(BadLength(2))
    else
      var producer :- GetText(m, 3);
      var created :- GetUint(m, 4);
      var code :- GetUint(m, 5);
      if code > 1 then Err(UnknownCode(5, code))
      else
        var scopeItems :- GetArray(m, 6);
        var scopes :- FromScopes(scopeItems);
        Ok((version, id, producer, created, if code == 0 then Full else Delta, scopes))
  }

  function FromMiddle(m: Entries): Result<(Window, Integrity, u64, Continuity), FieldError> {
    var windowMap :- GetMap(m, 7);
    var window :- FromWindow(windowMap);
    var integrityMap :- GetMap(m, 8);
    var integrity :- FromIntegrity(integrityMap);
    var count :- GetUint(m, 9);
    var continuityMap :- GetMap(m, 10);
    var continuity :- FromContinuity(continuityMap);
    Ok((window, integrity, count, continuity))
  }

  function FromTail(m: Entries)
    : Result<(Option<Shard>, Option<Compression>, Option<seq<(string, Value)>>), FieldError>
  {
    var shard :- FromShard(GetOptionalMap(m, 11));
    var compression :- FromCompression(GetOptionalMap(m, 12));
    Ok((shard, compression, match GetOptionalMap(m, 13) case None => None case Some(x) => Some(FromExtensions(x))))
  }

  function FromEntries(m: Entries): Result<Manifest, FieldError> {
    var h :- FromHead(m);
    var b :- FromMiddle(m);
    var t :- FromTail(m);
    Ok(Manifest(h.0, h.1, h.2, h.3, h.4, h.5, b.0, b.1, b.2, b.3, t.0, t.1, t.2))
  }

  function FromValue(v: Value): Result<Manifest, FieldError> {
    if v.Map? then FromEntries(v.entries) else Err(RootNotMap)
  }
}
