/**
 From a status snapshot to per-serial responses: pruning, status and validity
 times, CertIDs and entry keys (crates/hoike-sign/src/generate.rs,
 crates/hoike-sign/src/source.rs).
 */
module Prepare {
  import opened Wrappers
  import opened Bytes
  import opened Calendar

  type Serial = Bytes

  datatype HashAlg = Sha256 | Sha1

  datatype CertId = CertId(alg: HashAlg, nameHash: Bytes, keyHash: Bytes, serial: Serial)

  datatype Status = Good | Revoked(time: u64, reason: Option<nat>)

  /** The OCSP form of a status; the revocation time is a calendar time. */
  datatype CertStatus = CertGood | CertUnknown | CertRevoked(time: DateTime, reason: Option<nat>)

  datatype SingleResponse = SingleResponse(
    certId: CertId,
    status: CertStatus,
    thisUpdate: DateTime,
    nextUpdate: DateTime)

  datatype Compat = Sha256Only | Sha1Only | Dual

  datatype Issuer = Issuer(nameDer: Bytes, keyBytes: Bytes)

  /** Entries are in the order of the source's sorted map. */
  datatype Snapshot = Snapshot(
    entries: seq<(Serial, Status)>,
    thisUpdate: u64,
    nextUpdate: Option<u64>,
    notAfter: map<Serial, u64>)

  predicate DistinctSerials(s: Snapshot) {
    forall a, b :: 0 <= a < b < |s.entries| ==> s.entries[a].0 != s.entries[b].0
  }

  datatype Config = Config(
    producerId: string,
    epoch: u64,
    validitySecs: u64,
    jitterSecs: u64,
    compat: Compat,
    archiveCutoffSecs: u64,
    bucketSize: nat,
    authoritative: bool)

  datatype SignError =
    | SourceInvalid
    | ValidityOverflow
    | AlreadyExpired
    | BadTime
    | BadSerial
    | MissingExpiry
    | SigningFailed

  /** Library functions: the two digests, CertID DER, and which serials DER can carry. */
  datatype Tools = Tools(
    hash: (HashAlg, Bytes) -> Bytes,
    sha: Bytes -> Digest,
    der: CertId -> Bytes,
    serialOk: Serial -> bool)

  function MakeCertId(t: Tools, ca: Issuer, alg: HashAlg, serial: Serial): CertId {
    CertId(alg, t.hash(alg, ca.nameDer), t.hash(alg, ca.keyBytes), serial)
  }

  function EntryKey(t: Tools, c: CertId): Digest {
    t.sha(t.der(c))
  }

  function Algs(compat: Compat): (r: seq<HashAlg>)
    ensures 1 <= |r| <= 2
    ensures forall a, b :: 0 <= a < b < |r| ==> r[a] != r[b]
  {
    match compat
    case Sha256Only => [Sha256]
    case Sha1Only => [Sha1]
    case Dual => [Sha256, Sha1]
  }

  // ---- validity -------------------------------------------------------------------------

  /** The source must be current at `now`; its expiry is returned. */
  function ValidateAt(s: Snapshot, now: u64): (r: Result<u64, SignError>)
    ensures r.Ok? <==> s.nextUpdate.Some? && s.thisUpdate <= now < s.nextUpdate.value
    ensures r.Ok? ==> s.nextUpdate == Some(r.value)
  {
    if s.nextUpdate.None? then Err(SourceInvalid)
    else
      var end := s.nextUpdate.value;
      if s.thisUpdate > now || end <= now || end <= s.thisUpdate then Err(SourceInvalid) else Ok(end)
  }

  function OcspTime(secs: u64): Result<DateTime, SignError> {
    match EpochToDatetime(secs)
    case None => Err(BadTime)
    case Some(dt) => Ok(dt)
  }

  /** The share `a` of `m` parts of `c`, rounded down. */
  function Share(a: nat, m: nat, c: nat): (r: nat)
    requires m > 0
    ensures a <= m ==> r <= c
  {
    if a <= m then ShareBound(a, m, c); a * c / m else a * c / m
  }

  lemma ShareBound(a: nat, m: nat, c: nat)
    requires a <= m && m > 0
    ensures a * c / m <= c
  {
    assert a * c <= m * c;
    assert a * c / m <= m * c / m;
  }

  /** A share of the jitter fixed by the serial's digest. */
  function Jitter(t: Tools, serial: Serial, jitterSecs: u64): (r: u64)
    ensures r <= jitterSecs
  {
    Widths();
    Share(FromBigEndian(t.sha(serial)[..4]), U32_LIMIT - 1, jitterSecs)
  }

  /** When a serial's response expires: the base time plus jitter, capped by the source. */
  function NextUpdateTime(t: Tools, serial: Serial, jitterSecs: u64, base: u64, sourceEnd: u64): u64 {
    Min(SaturatingAdd(base, Jitter(t, serial, jitterSecs)), sourceEnd)
  }

  lemma NextUpdateWithin(t: Tools, serial: Serial, jitterSecs: u64, base: u64, sourceEnd: u64)
    requires base <= sourceEnd
    ensures base <= NextUpdateTime(t, serial, jitterSecs, base, sourceEnd)
              <= Min(SaturatingAdd(base, jitterSecs), sourceEnd)
  {
    assert Jitter(t, serial, jitterSecs) <= jitterSecs;
  }

  // ---- one serial ------------------------------------------------------------------------

  /** Long-expired certificates are dropped, but only when their expiry is known. */
  predicate Pruned(s: Snapshot, cfg: Config, serial: Serial) {
    && cfg.archiveCutoffSecs > 0 && serial in s.notAfter
    && SaturatingAdd(s.notAfter[serial], cfg.archiveCutoffSecs) < s.thisUpdate
  }

  function OcspStatus(st: Status): Result<CertStatus, SignError> {
    match st
    case Good => Ok(CertGood)
    case Revoked(time, reason) =>
      match OcspTime(time)
      case Err(e) => Err(e)
      case Ok(dt) => Ok(CertRevoked(dt, reason))
  }

  datatype PreparedEntry = PreparedEntry(keys: seq<Digest>, singles: seq<SingleResponse>)

  datatype Frame = Frame(tools: Tools, ca: Issuer, snapshot: Snapshot, cfg: Config, thisUpdate: DateTime, base: u64)

  function Single(f: Frame, alg: HashAlg, serial: Serial, st: CertStatus, next: DateTime): SingleResponse {
    SingleResponse(MakeCertId(f.tools, f.ca, alg, serial), st, f.thisUpdate, next)
  }

  function PreparedWith(f: Frame, serial: Serial, st: CertStatus, next: DateTime): PreparedEntry {
    var algs := Algs(f.cfg.compat);
    PreparedEntry(
      seq(|algs|, n requires 0 <= n < |algs| => EntryKey(f.tools, MakeCertId(f.tools, f.ca, algs[n], serial))),
      seq(|algs|, n requires 0 <= n < |algs| => Single(f, algs[n], serial, st, next)))
  }

  function PrepareOne(f: Frame, serial: Serial, status: Status): Result<PreparedEntry, SignError> {
    match OcspStatus(status)
    case Err(e) => Err(e)
    case Ok(st) =>
      if !f.tools.serialOk(serial) then Err(BadSerial)
      else if f.snapshot.nextUpdate.None? then Err(MissingExpiry)
      else
        var next := NextUpdateTime(f.tools, serial, f.cfg.jitterSecs, f.base, f.snapshot.nextUpdate.value);
        match OcspTime(next)
        case Err(e) => Err(e)
        case Ok(dt) => Ok(PreparedWith(f, serial, st, dt))
  }

  // ---- the whole snapshot -----------------------------------------------------------------

  /** What entry `k` contributes: nothing when pruned. */
  function PrepareAt(f: Frame, k: nat): Result<Option<PreparedEntry>, SignError> {
    if k >= |f.snapshot.entries| || Pruned(f.snapshot, f.cfg, f.snapshot.entries[k].0) then Ok(None)
    else match PrepareOne(f, f.snapshot.entries[k].0, f.snapshot.entries[k].1)
      case Err(e) => Err(e)
      case Ok(p) => Ok(Some(p))
  }

  type Yield = nat -> Result<Option<PreparedEntry>, SignError>

  /** What the first `n` steps yield, up to the first error. */
  function Collect(one: Yield, n: nat): Result<seq<PreparedEntry>, SignError> {
    if n == 0 then Ok([])
    else match Collect(one, n - 1)
      case Err(e) => Err(e)
      case Ok(ps) =>
        match one(n - 1)
        case Err(e) => Err(e)
        case Ok(None) => Ok(ps)
        case Ok(Some(p)) => Ok(ps + [p])
  }

  function Steps(f: Frame): Yield {
    (k: nat) => PrepareAt(f, k)
  }

  function Prepared(f: Frame): Result<seq<PreparedEntry>, SignError> {
    Collect(Steps(f), |f.snapshot.entries|)
  }

  lemma {:induction false} ErrorStays(one: Yield, n: nat, m: nat)
    requires n <= m && Collect(one, n).Err?
    ensures Collect(one, m) == Collect(one, n)
  {
    if n < m {
      ErrorStays(one, n, m - 1);
    }
  }

  method CollectAll(one: Yield, count: nat) returns (r: Result<seq<PreparedEntry>, SignError>)
    ensures r == Collect(one, count)
  {
    var prepared: seq<PreparedEntry> := [];
    for n := 0 to count
      invariant Collect(one, n) == Ok(prepared)
    {
      var p := one(n);
      if p.Err? {
        ErrorStays(one, n + 1, count);
        return Err(p.error);
      }
      if p.value.Some? {
        prepared := prepared + [p.value.value];
      }
    }
    r := Ok(prepared);
  }

  method PrepareEntries(f: Frame) returns (r: Result<seq<PreparedEntry>, SignError>)
    ensures r == Prepared(f)
  {
    r := CollectAll(Steps(f), |f.snapshot.entries|);
  }

  // ---- what was prepared ---------------------------------------------------------------------

  lemma {:induction false} CollectedFrom(one: Yield, n: nat, i: nat) returns (k: nat)
    requires Collect(one, n).Ok? && i < |Collect(one, n).value|
    ensures k < n && one(k) == Ok(Some(Collect(one, n).value[i]))
  {
    k := n - 1;
    if i < |Collect(one, n - 1).value| {
      k := CollectedFrom(one, n - 1, i);
    }
  }

  lemma {:induction false} CollectedAll(one: Yield, n: nat, k: nat) returns (i: nat)
    requires k < n && Collect(one, n).Ok? && (one(k).Ok? ==> one(k).value.Some?)
    ensures i < |Collect(one, n).value| && one(k) == Ok(Some(Collect(one, n).value[i]))
  {
    if k == n - 1 {
      i := |Collect(one, n).value| - 1;
    } else {
      i := CollectedAll(one, n - 1, k);
    }
  }

  /** Positions in the result keep the order of the steps they came from. */
  lemma {:induction false} CollectedInOrder(one: Yield, n: nat, i: nat, i': nat) returns (k: nat, k': nat)
    requires Collect(one, n).Ok? && i < i' < |Collect(one, n).value|
    ensures k < k' < n
    ensures one(k) == Ok(Some(Collect(one, n).value[i])) && one(k') == Ok(Some(Collect(one, n).value[i']))
  {
    if i' < |Collect(one, n - 1).value| {
      k, k' := CollectedInOrder(one, n - 1, i, i');
    } else {
      k := CollectedFrom(one, n - 1, i);
      k' := n - 1;
    }
  }

  /** Entry `k` of the snapshot, prepared. */
  predicate IsPrepared(f: Frame, k: nat, p: PreparedEntry) {
    && k < |f.snapshot.entries| && !Pruned(f.snapshot, f.cfg, f.snapshot.entries[k].0)
    && PrepareOne(f, f.snapshot.entries[k].0, f.snapshot.entries[k].1) == Ok(p)
  }

  lemma PreparedFrom(f: Frame, i: nat) returns (k: nat)
    requires Prepared(f).Ok? && i < |Prepared(f).value|
    ensures IsPrepared(f, k, Prepared(f).value[i])
  {
    k := CollectedFrom(Steps(f), |f.snapshot.entries|, i);
  }

  /** Every unpruned serial is prepared. */
  lemma PreparedAll(f: Frame, k: nat) returns (i: nat)
    requires Prepared(f).Ok? && k < |f.snapshot.entries|
    requires !Pruned(f.snapshot, f.cfg, f.snapshot.entries[k].0)
    ensures i < |Prepared(f).value| && IsPrepared(f, k, Prepared(f).value[i])
  {
    i := CollectedAll(Steps(f), |f.snapshot.entries|, k);
  }

  function SerialOf(p: PreparedEntry): Serial
    requires p.singles != []
  {
    p.singles[0].certId.serial
  }

  lemma PreparedShape(f: Frame, k: nat, p: PreparedEntry)
    requires IsPrepared(f, k, p)
    ensures k < |f.snapshot.entries| && |p.keys| == |p.singles| == |Algs(f.cfg.compat)|
    ensures forall j :: 0 <= j < |p.singles| ==>
              && p.singles[j].certId == MakeCertId(f.tools, f.ca, Algs(f.cfg.compat)[j], f.snapshot.entries[k].0)
              && p.keys[j] == EntryKey(f.tools, p.singles[j].certId)
    ensures SerialOf(p) == f.snapshot.entries[k].0
  {
  }

  /** Different prepared entries answer for different serials. */
  lemma PreparedDistinct(f: Frame, i: nat, i': nat)
    requires DistinctSerials(f.snapshot) && Prepared(f).Ok? && i < i' < |Prepared(f).value|
    ensures var ps := Prepared(f).value;
            ps[i].singles != [] && ps[i'].singles != [] && SerialOf(ps[i]) != SerialOf(ps[i'])
  {
    var ps := Prepared(f).value;
    var k, k' := CollectedInOrder(Steps(f), |f.snapshot.entries|, i, i');
    PreparedShape(f, k, ps[i]);
    PreparedShape(f, k', ps[i']);
  }

  // ---- what a response says ---------------------------------------------------------------------

  /** A calendar time stands for `secs` if and only if its year was not cut to 16 bits. */
  ghost predicate SameTime(dt: DateTime, secs: nat) {
    EpochOf(dt) == secs <==> DaysToYmd(secs / 86400).year < 0x1_0000
  }

  lemma ConvertedIsSameTime(secs: u64)
    requires OcspTime(secs).Ok?
    ensures SameTime(OcspTime(secs).value, secs)
  {
    DatetimeExactly(secs);
  }

  /** The response's status is the source's: good for good, else revoked at that time for that reason. */
  ghost predicate Says(st: Status, told: CertStatus) {
    match st
    case Good => told.CertGood?
    case Revoked(time, reason) => told.CertRevoked? && told.reason == reason && SameTime(told.time, time)
  }

  lemma StatusIsTold(st: Status)
    ensures OcspStatus(st).Ok? <==> (st.Revoked? ==> EpochToDatetime(st.time).Some?)
    ensures OcspStatus(st).Ok? ==> Says(st, OcspStatus(st).value)
  {
    if st.Revoked? && OcspTime(st.time).Ok? {
      ConvertedIsSameTime(st.time);
    }
  }

  /** The first four bytes of a digest, most significant first. */
  function FirstWord(d: Digest): nat {
    0x100_0000 * (d[0] as int) + 0x1_0000 * (d[1] as int) + 0x100 * (d[2] as int) + d[3] as int
  }

  /** `j` parts in `c` as `x` in 2^32 - 1, rounded down. */
  predicate IsShare(j: nat, x: nat, c: nat) {
    j * 0xFFFF_FFFF <= x * c < (j + 1) * 0xFFFF_FFFF
  }

  lemma FirstWordIsBigEndian(d: Digest)
    ensures FromBigEndian(d[..4]) == FirstWord(d)
  {
    var b := d[..4];
    assert b[..3][..2] == b[..2] && b[..2][..1] == b[..1] && b[..1][..0] == [];
    assert FromBigEndian(b[..1]) == d[0];
    assert FromBigEndian(b[..2]) == 0x100 * (d[0] as int) + d[1] as int;
    assert FromBigEndian(b[..3]) == 0x1_0000 * (d[0] as int) + 0x100 * (d[1] as int) + d[2] as int;
  }

  lemma Quotient(a: nat, m: nat)
    requires m > 0
    ensures a / m * m <= a < (a / m + 1) * m
  {
  }

  /** The jitter is the share of the range that the digest's first word is of all words. */
  lemma JitterExactly(t: Tools, serial: Serial, jitterSecs: u64)
    ensures IsShare(Jitter(t, serial, jitterSecs), FirstWord(t.sha(serial)), jitterSecs)
  {
    FirstWordIsBigEndian(t.sha(serial));
    Quotient(FirstWord(t.sha(serial)) * jitterSecs, U32_LIMIT - 1);
  }

  /** `next` is the base time plus the serial's jitter, or the source's end if that comes first. */
  ghost predicate Until(t: Tools, serial: Serial, jitterSecs: u64, base: u64, end: u64, next: nat) {
    exists j: nat ::
      && IsShare(j, FirstWord(t.sha(serial)), jitterSecs)
      && next <= end && next <= base + j && (next == end || next == base + j)
  }

  lemma NextUpdateExactly(t: Tools, serial: Serial, jitterSecs: u64, base: u64, end: u64)
    ensures Until(t, serial, jitterSecs, base, end, NextUpdateTime(t, serial, jitterSecs, base, end))
  {
    JitterExactly(t, serial, jitterSecs);
  }

  /** Every single of a prepared entry carries the snapshot's status and times inside the window. */
  lemma PreparedContent(f: Frame, k: nat, p: PreparedEntry, j: nat)
    requires IsPrepared(f, k, p) && j < |p.singles|
    ensures k < |f.snapshot.entries| && OcspStatus(f.snapshot.entries[k].1) == Ok(p.singles[j].status)
    ensures Says(f.snapshot.entries[k].1, p.singles[j].status)
    ensures p.singles[j].thisUpdate == f.thisUpdate
    ensures f.snapshot.nextUpdate.Some?
    ensures OcspTime(NextUpdateTime(f.tools, f.snapshot.entries[k].0, f.cfg.jitterSecs, f.base,
                                    f.snapshot.nextUpdate.value)) == Ok(p.singles[j].nextUpdate)
    ensures exists next :: SameTime(p.singles[j].nextUpdate, next)
              && Until(f.tools, f.snapshot.entries[k].0, f.cfg.jitterSecs, f.base, f.snapshot.nextUpdate.value, next)
  {
    StatusIsTold(f.snapshot.entries[k].1);
    var serial, end := f.snapshot.entries[k].0, f.snapshot.nextUpdate.value;
    var next := NextUpdateTime(f.tools, serial, f.cfg.jitterSecs, f.base, end);
    NextUpdateExactly(f.tools, serial, f.cfg.jitterSecs, f.base, end);
    ConvertedIsSameTime(next);
  }

  // ---- when preparing succeeds ---------------------------------------------------------------

  /** The expiry of a certificate is known and the cutoff after it ends before the snapshot was taken. */
  lemma PrunedExactly(s: Snapshot, cfg: Config, serial: Serial)
    ensures Pruned(s, cfg, serial) <==>
            && cfg.archiveCutoffSecs > 0 && serial in s.notAfter
            && s.notAfter[serial] + cfg.archiveCutoffSecs < s.thisUpdate
  {
  }

  /** DER can carry the serial, and its times can be written. */
  ghost predicate Preparable(f: Frame, serial: Serial, st: Status) {
    && f.tools.serialOk(serial) && f.snapshot.nextUpdate.Some?
    && (st.Revoked? ==> EpochToDatetime(st.time).Some?)
    && EpochToDatetime(NextUpdateTime(f.tools, serial, f.cfg.jitterSecs, f.base, f.snapshot.nextUpdate.value)).Some?
  }

  lemma {:induction false} CollectExactly(one: Yield, n: nat)
    ensures Collect(one, n).Ok? <==> forall k :: 0 <= k < n ==> one(k).Ok?
  {
    if n > 0 {
      CollectExactly(one, n - 1);
    }
  }

  /** A snapshot is prepared if and only if each of its unpruned entries can be. */
  lemma PreparedExactly(f: Frame)
    ensures Prepared(f).Ok? <==>
            forall k :: 0 <= k < |f.snapshot.entries| && !Pruned(f.snapshot, f.cfg, f.snapshot.entries[k].0) ==>
              Preparable(f, f.snapshot.entries[k].0, f.snapshot.entries[k].1)
  {
    CollectExactly(Steps(f), |f.snapshot.entries|);
    forall k | 0 <= k < |f.snapshot.entries| && !Pruned(f.snapshot, f.cfg, f.snapshot.entries[k].0)
      ensures Steps(f)(k).Ok? <==> Preparable(f, f.snapshot.entries[k].0, f.snapshot.entries[k].1)
    {
      StatusIsTold(f.snapshot.entries[k].1);
    }
  }
}
