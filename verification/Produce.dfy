/**
 Producing a bundle from a snapshot, with one signer or two
 (`produce_bundle` and `produce_dual_bundle` in crates/hoike-sign/src/generate.rs).
 */
module Produce {
  import opened Wrappers
  import opened Bytes
  import opened Manifest
  import opened Index
  import opened Bundle
  import opened Entries
  import opened Builder
  import opened Calendar
  import opened Signing
  import opened Answers
  import P = Prepare

  const SHA256_OID: Bytes := [0x60, 0x86, 0x48, 0x01, 0x65, 0x03, 0x04, 0x02, 0x01]
  const SHA1_OID: Bytes := [0x2B, 0x0E, 0x03, 0x02, 0x1A]

  function Oid(alg: P.HashAlg): Bytes {
    match alg
    case Sha256 => SHA256_OID
    case Sha1 => SHA1_OID
  }

  /** The clock is read anew at each use. */
  datatype Clock = Clock(source: u64, expiry: u64, produced: u64, created: u64, window: u64)

  /** The times a production run works with. */
  datatype Plan = Plan(end: u64, base: u64, producedAt: DateTime, thisUpdate: DateTime)

  function MakePlan(s: P.Snapshot, cfg: P.Config, clock: Clock): Result<Plan, P.SignError> {
    match P.ValidateAt(s, clock.source)
    case Err(e) => Err(e)
    case Ok(end) =>
      if s.thisUpdate + cfg.validitySecs >= U64_LIMIT then Err(P.ValidityOverflow)
      else
        var base := Min(s.thisUpdate + cfg.validitySecs, end);
        if base <= clock.expiry then Err(P.AlreadyExpired)
        else match P.OcspTime(clock.produced)
          case Err(e) => Err(e)
          case Ok(producedAt) =>
            match P.OcspTime(s.thisUpdate)
            case Err(e) => Err(e)
            case Ok(thisUpdate) => Ok(Plan(end, base, producedAt, thisUpdate))
  }

  // ---- the manifest -----------------------------------------------------------------------

  function ScopeFor(t: P.Tools, ca: P.Issuer, cfg: P.Config, alg: P.HashAlg, signer: Signer): CaScope {
    CaScope(Oid(alg), t.hash(alg, ca.nameDer), t.hash(alg, ca.keyBytes), cfg.epoch,
            ResponderId(ByKey, signer.keyHash), signer.chain, [],
            if cfg.authoritative then AuthoritativeComplete else Partial)
  }

  function ScopesFor(t: P.Tools, ca: P.Issuer, cfg: P.Config, alg: P.HashAlg, passes: seq<Pass>): (r: seq<CaScope>)
    ensures |r| == |passes|
    ensures forall k :: 0 <= k < |r| ==> r[k] == ScopeFor(t, ca, cfg, alg, passes[k].signer)
  {
    seq(|passes|, k requires 0 <= k < |passes| => ScopeFor(t, ca, cfg, alg, passes[k].signer))
  }

  /** SHA-256 scopes always; SHA-1 scopes whenever SHA-1 CertIDs are written. */
  function Scopes(t: P.Tools, ca: P.Issuer, cfg: P.Config, passes: seq<Pass>): seq<CaScope> {
    ScopesFor(t, ca, cfg, P.Sha256, passes)
    + (if cfg.compat.Sha256Only? then [] else ScopesFor(t, ca, cfg, P.Sha1, passes))
  }

  /** All scopes carry the configured epoch and one of the issuer's two key hashes. */
  lemma ScopesShareEpoch(t: P.Tools, ca: P.Issuer, cfg: P.Config, passes: seq<Pass>, n: nat)
    requires n < |Scopes(t, ca, cfg, passes)|
    ensures Scopes(t, ca, cfg, passes)[n].epoch == cfg.epoch
    ensures Scopes(t, ca, cfg, passes)[n].issuerKeyHash
         in {t.hash(P.Sha256, ca.keyBytes), t.hash(P.Sha1, ca.keyBytes)}
  {
    var k := if n < |passes| then n else n - |passes|;
    assert Scopes(t, ca, cfg, passes)[n] == ScopeFor(t, ca, cfg, P.Sha256, passes[k].signer)
        || Scopes(t, ca, cfg, passes)[n] == ScopeFor(t, ca, cfg, P.Sha1, passes[k].signer);
  }

  function WindowFor(s: P.Snapshot, cfg: P.Config, plan: Plan, clock: Clock): Window {
    Window(clock.window, s.thisUpdate, plan.base, Min(SaturatingAdd(plan.base, cfg.jitterSecs), plan.end))
  }

  function NilUuid(): Uuid {
    seq(16, i => 0)
  }

  function NoDigest(): Digest {
    seq(32, i => 0)
  }

  function ManifestFor(t: P.Tools, ca: P.Issuer, s: P.Snapshot, cfg: P.Config, plan: Plan, clock: Clock,
                       passes: seq<Pass>): Manifest
  {
    Manifest(1, NilUuid(), cfg.producerId, clock.created, Full, Scopes(t, ca, cfg, passes),
             WindowFor(s, cfg, plan, clock), Integrity(NoDigest(), NoDigest()), 0, Continuity(None, None, 0),
             None, None, None)
  }

  // ---- production --------------------------------------------------------------------------

  /** Who signs, and under which discriminator. */
  datatype Role = Role(signer: Signer, disc: u16)

  function PassesFor(roles: seq<Role>, producedAt: DateTime): (r: seq<Pass>)
    ensures |r| == |roles|
    ensures forall k :: 0 <= k < |r| ==> r[k] == Pass(roles[k].signer, roles[k].disc, producedAt)
  {
    seq(|roles|, k requires 0 <= k < |roles| => Pass(roles[k].signer, roles[k].disc, producedAt))
  }

  datatype Product = Product(manifest: Manifest, entries: seq<Entry>)

  function FrameFor(t: P.Tools, ca: P.Issuer, s: P.Snapshot, cfg: P.Config, plan: Plan): P.Frame {
    P.Frame(t, ca, s, cfg, plan.thisUpdate, plan.base)
  }

  function Production(t: P.Tools, ca: P.Issuer, s: P.Snapshot, cfg: P.Config, clock: Clock, roles: seq<Role>)
    : Result<Product, P.SignError>
  {
    match MakePlan(s, cfg, clock)
    case Err(e) => Err(e)
    case Ok(plan) =>
      match P.Prepared(FrameFor(t, ca, s, cfg, plan))
      case Err(e) => Err(e)
      case Ok(ps) =>
        match SignPasses(PassesFor(roles, plan.producedAt), |roles|, ps, cfg.bucketSize)
        case None => Err(P.SigningFailed)
        case Some(es) => Ok(Product(ManifestFor(t, ca, s, cfg, plan, clock, PassesFor(roles, plan.producedAt)), es))
  }

  datatype ProduceError<E> = Signing(why: P.SignError) | Sealing(error: E)

  function Outcome<E>(c: Codec, p: Result<Product, P.SignError>, seal: Seal<E>): Result<Bytes, ProduceError<E>> {
    match p
    case Err(e) => Err(Signing(e))
    case Ok(product) =>
      match BuiltFile(c, product.manifest, product.entries, seal)
      case Err(e) => Err(Sealing(e))
      case Ok(bytes) => Ok(bytes)
  }

  method ProduceWith<E>(c: Codec, t: P.Tools, ca: P.Issuer, s: P.Snapshot, cfg: P.Config, clock: Clock,
                        roles: seq<Role>, seal: Seal<E>)
    returns (r: Result<Bytes, ProduceError<E>>)
    ensures r == Outcome(c, Production(t, ca, s, cfg, clock, roles), seal)
  {
    var plan := MakePlan(s, cfg, clock);
    if plan.Err? {
      return Err(Signing(plan.error));
    }
    var passes := PassesFor(roles, plan.value.producedAt);
    var manifest := ManifestFor(t, ca, s, cfg, plan.value, clock, passes);
    var prepared := P.PrepareEntries(FrameFor(t, ca, s, cfg, plan.value));
    if prepared.Err? {
      return Err(Signing(prepared.error));
    }
    var builder := new BundleBuilder(manifest);
    var ok := AddPasses(builder, passes, prepared.value, cfg.bucketSize);
    if !ok {
      return Err(Signing(P.SigningFailed));
    }
    var bytes := builder.Build(c, seal);
    r := if bytes.Ok? then Ok(bytes.value) else Err(Sealing(bytes.error));
  }

  method AddPasses(builder: BundleBuilder, passes: seq<Pass>, ps: seq<P.PreparedEntry>, size: nat) returns (ok: bool)
    requires builder.entries == []
    modifies builder`entries
    ensures ok == SignPasses(passes, |passes|, ps, size).Some?
    ensures ok ==> builder.entries == SignPasses(passes, |passes|, ps, size).value
  {
    for n := 0 to |passes|
      invariant SignPasses(passes, n, ps, size) == Some(builder.entries)
    {
      OneMorePass(passes, n, ps, size, builder.entries);
      ok := SignAndAddEntries(builder, passes[n], ps, size);
      if !ok {
        FailedPass(passes, n + 1, |passes|, ps, size);
        return;
      }
    }
    ok := true;
  }

  lemma OneMorePass(passes: seq<Pass>, n: nat, ps: seq<P.PreparedEntry>, size: nat, before: seq<Entry>)
    requires n < |passes| && SignPasses(passes, n, ps, size) == Some(before)
    ensures SignPasses(passes, n + 1, ps, size).Some? <==> Signed(passes[n], ps, size).Some?
    ensures Signed(passes[n], ps, size).Some? ==>
              SignPasses(passes, n + 1, ps, size) == Some(before + Signed(passes[n], ps, size).value)
  {
  }

  lemma {:induction false} FailedPass(passes: seq<Pass>, n: nat, m: nat, ps: seq<P.PreparedEntry>, size: nat)
    requires n <= m <= |passes| && SignPasses(passes, n, ps, size).None?
    ensures SignPasses(passes, m, ps, size).None?
  {
    if n < m {
      FailedPass(passes, n, m - 1, ps, size);
    }
  }

  method ProduceBundle<E>(c: Codec, t: P.Tools, ca: P.Issuer, s: P.Snapshot, cfg: P.Config, clock: Clock,
                          signer: Signer, seal: Seal<E>)
    returns (r: Result<Bytes, ProduceError<E>>)
    ensures r == Outcome(c, Production(t, ca, s, cfg, clock, [Role(signer, 0)]), seal)
  {
    r := ProduceWith(c, t, ca, s, cfg, clock, [Role(signer, 0)], seal);
  }

  method ProduceDualBundle<E>(c: Codec, t: P.Tools, ca: P.Issuer, s: P.Snapshot, cfg: P.Config, clock: Clock,
                              classical: Signer, pq: Signer, discPq: u16, seal: Seal<E>)
    returns (r: Result<Bytes, ProduceError<E>>)
    ensures r == Outcome(c, Production(t, ca, s, cfg, clock, [Role(classical, 0), Role(pq, discPq)]), seal)
  {
    r := ProduceWith(c, t, ca, s, cfg, clock, [Role(classical, 0), Role(pq, discPq)], seal);
  }

  // ---- what the product answers ---------------------------------------------------------------

  /** The digest of the DER separates the CertIDs in play. */
  ghost predicate Separated(t: P.Tools, inPlay: P.CertId -> bool) {
    forall a, b :: inPlay(a) && inPlay(b) && P.EntryKey(t, a) == P.EntryKey(t, b) ==> a == b
  }

  /** Both CertIDs of every serial of the snapshot are in play. */
  ghost predicate CoversPlay(f: P.Frame, inPlay: P.CertId -> bool) {
    forall k, alg :: 0 <= k < |f.snapshot.entries| ==>
      inPlay(P.MakeCertId(f.tools, f.ca, alg, f.snapshot.entries[k].0))
  }

  lemma PreparedKeys(f: P.Frame, inPlay: P.CertId -> bool)
    requires P.DistinctSerials(f.snapshot) && P.Prepared(f).Ok? && Separated(f.tools, inPlay) && CoversPlay(f, inPlay)
    ensures SameShape(P.Prepared(f).value) && CertIdsDistinct(P.Prepared(f).value) && KeysDistinct(P.Prepared(f).value)
  {
    var ps := P.Prepared(f).value;
    forall i | 0 <= i < |ps|
      ensures |ps[i].keys| == |ps[i].singles|
    {
      var k := P.PreparedFrom(f, i);
      P.PreparedShape(f, k, ps[i]);
    }
    forall i, j, i', j' | 0 <= i < |ps| && 0 <= j < |ps[i].singles| && 0 <= i' < |ps| && 0 <= j' < |ps[i'].singles|
      ensures ps[i].singles[j].certId == ps[i'].singles[j'].certId ==> i == i' && j == j'
      ensures ps[i].keys[j] == ps[i'].keys[j'] ==> i == i' && j == j'
    {
      KeyApart(f, inPlay, i, j, i', j');
    }
  }

  lemma KeyApart(f: P.Frame, inPlay: P.CertId -> bool, i: nat, j: nat, i': nat, j': nat)
    requires P.DistinctSerials(f.snapshot) && P.Prepared(f).Ok? && Separated(f.tools, inPlay) && CoversPlay(f, inPlay)
    requires i < |P.Prepared(f).value| && j < |P.Prepared(f).value[i].singles|
    requires i' < |P.Prepared(f).value| && j' < |P.Prepared(f).value[i'].singles|
    ensures var p, q := P.Prepared(f).value[i], P.Prepared(f).value[i'];
            && |p.keys| == |p.singles| && |q.keys| == |q.singles|
            && (p.singles[j].certId == q.singles[j'].certId ==> i == i' && j == j')
            && (p.keys[j] == q.keys[j'] ==> p.singles[j].certId == q.singles[j'].certId)
  {
    var p, q := P.Prepared(f).value[i], P.Prepared(f).value[i'];
    var k := P.PreparedFrom(f, i);
    var k' := P.PreparedFrom(f, i');
    P.PreparedShape(f, k, p);
    P.PreparedShape(f, k', q);
    if i < i' {
      P.PreparedDistinct(f, i, i');
    } else if i' < i {
      P.PreparedDistinct(f, i', i);
    }
  }

  ghost predicate GoodRoles(roles: seq<Role>, read: Reader) {
    && |roles| > 0 && roles[0].disc == DEFAULT_DISCRIMINATOR
    && (forall k :: 0 <= k < |roles| ==> Readable(roles[k].signer, read))
    && (forall k, l :: 0 <= k < l < |roles| ==> roles[k].disc != roles[l].disc)
  }

  /** Everything the theorems below assume about a run. */
  ghost predicate Run(t: P.Tools, ca: P.Issuer, s: P.Snapshot, cfg: P.Config, clock: Clock, roles: seq<Role>,
                      read: Reader, inPlay: P.CertId -> bool)
  {
    && P.DistinctSerials(s) && GoodRoles(roles, read) && Separated(t, inPlay)
    && (forall k, alg :: 0 <= k < |s.entries| ==> inPlay(P.MakeCertId(t, ca, alg, s.entries[k].0)))
    && Production(t, ca, s, cfg, clock, roles).Ok?
  }

  lemma RunParts(t: P.Tools, ca: P.Issuer, s: P.Snapshot, cfg: P.Config, clock: Clock, roles: seq<Role>,
                 read: Reader, inPlay: P.CertId -> bool)
    returns (f: P.Frame, passes: seq<Pass>, ps: seq<P.PreparedEntry>)
    requires Run(t, ca, s, cfg, clock, roles, read, inPlay)
    ensures MakePlan(s, cfg, clock).Ok? && f == FrameFor(t, ca, s, cfg, MakePlan(s, cfg, clock).value)
    ensures P.Prepared(f) == Ok(ps) && SameShape(ps) && CertIdsDistinct(ps) && KeysDistinct(ps)
    ensures GoodPasses(passes, read) && |passes| == |roles| && passes[0].disc == DEFAULT_DISCRIMINATOR
    ensures SignPasses(passes, |passes|, ps, cfg.bucketSize)
         == Some(Production(t, ca, s, cfg, clock, roles).value.entries)
  {
    var plan := MakePlan(s, cfg, clock).value;
    f := FrameFor(t, ca, s, cfg, plan);
    passes := PassesFor(roles, plan.producedAt);
    ps := P.Prepared(f).value;
    PreparedKeys(f, inPlay);
  }

  /** `next` ends the configured validity plus the serial's jitter, or the source's if that comes first. */
  ghost predicate Expires(t: P.Tools, s: P.Snapshot, cfg: P.Config, serial: P.Serial, next: nat) {
    && s.nextUpdate.Some?
    && exists j: nat ::
         && P.IsShare(j, P.FirstWord(t.sha(serial)), cfg.jitterSecs)
         && var wanted := s.thisUpdate + cfg.validitySecs + j;
            next <= s.nextUpdate.value && next <= wanted && (next == s.nextUpdate.value || next == wanted)
  }

  /** The response is valid from the snapshot's time to the serial's expiry. */
  ghost predicate Current(t: P.Tools, s: P.Snapshot, cfg: P.Config, serial: P.Serial, single: P.SingleResponse) {
    && P.SameTime(single.thisUpdate, s.thisUpdate)
    && exists next :: Expires(t, s, cfg, serial, next) && P.SameTime(single.nextUpdate, next)
  }

  lemma PlanTimes(s: P.Snapshot, cfg: P.Config, clock: Clock)
    requires MakePlan(s, cfg, clock).Ok?
    ensures var plan := MakePlan(s, cfg, clock).value;
            && s.nextUpdate == Some(plan.end) && plan.base == Min(s.thisUpdate + cfg.validitySecs, plan.end)
            && P.SameTime(plan.thisUpdate, s.thisUpdate)
  {
    P.ConvertedIsSameTime(s.thisUpdate);
  }

  lemma PreparedIsCurrent(f: P.Frame, k: nat, p: P.PreparedEntry, n: nat)
    requires f.snapshot.nextUpdate.Some? && P.SameTime(f.thisUpdate, f.snapshot.thisUpdate)
    requires f.base == Min(f.snapshot.thisUpdate + f.cfg.validitySecs, f.snapshot.nextUpdate.value)
    requires P.IsPrepared(f, k, p) && n < |p.singles|
    ensures k < |f.snapshot.entries| && Current(f.tools, f.snapshot, f.cfg, f.snapshot.entries[k].0, p.singles[n])
  {
    P.PreparedContent(f, k, p, n);
    var serial, end := f.snapshot.entries[k].0, f.snapshot.nextUpdate.value;
    var next :| P.SameTime(p.singles[n].nextUpdate, next)
                && P.Until(f.tools, serial, f.cfg.jitterSecs, f.base, end, next);
    UntilExpires(f.tools, f.snapshot, f.cfg, serial, f.base, next);
  }

  lemma UntilExpires(t: P.Tools, s: P.Snapshot, cfg: P.Config, serial: P.Serial, base: u64, next: nat)
    requires s.nextUpdate.Some? && base == Min(s.thisUpdate + cfg.validitySecs, s.nextUpdate.value)
    requires P.Until(t, serial, cfg.jitterSecs, base, s.nextUpdate.value, next)
    ensures Expires(t, s, cfg, serial, next)
  {
    var j: nat :| P.IsShare(j, P.FirstWord(t.sha(serial)), cfg.jitterSecs)
                  && next <= s.nextUpdate.value && next <= base + j
                  && (next == s.nextUpdate.value || next == base + j);
  }

  /** An unpruned serial, asked for by a CertID of the configured kind, is answered with its status. */
  lemma ProducedAnswers(t: P.Tools, ca: P.Issuer, s: P.Snapshot, cfg: P.Config, clock: Clock, roles: seq<Role>,
                        read: Reader, inPlay: P.CertId -> bool, k: nat, n: nat, prefs: seq<u16>)
    returns (single: P.SingleResponse)
    requires Run(t, ca, s, cfg, clock, roles, read, inPlay)
    requires k < |s.entries| && n < |P.Algs(cfg.compat)| && !P.Pruned(s, cfg, s.entries[k].0)
    ensures single.certId == P.MakeCertId(t, ca, P.Algs(cfg.compat)[n], s.entries[k].0)
    ensures P.OcspStatus(s.entries[k].1) == Ok(single.status)
    ensures P.Says(s.entries[k].1, single.status) && Current(t, s, cfg, s.entries[k].0, single)
    ensures Answer(read, Choice(Meaning(Production(t, ca, s, cfg, clock, roles).value.entries),
                                P.EntryKey(t, single.certId), prefs), single)
  {
    var f, passes, ps := RunParts(t, ca, s, cfg, clock, roles, read, inPlay);
    var i := P.PreparedAll(f, k);
    P.PreparedShape(f, k, ps[i]);
    P.PreparedContent(f, k, ps[i], n);
    single := ps[i].singles[n];
    PlanTimes(s, cfg, clock);
    PreparedIsCurrent(f, k, ps[i], n);
    AnyChoiceAnswers(passes, ps, cfg.bucketSize, read, i, n, prefs);
  }

  /** Whether a CertID is one the bundle was produced for. */
  predicate Covered(t: P.Tools, ca: P.Issuer, s: P.Snapshot, cfg: P.Config, id: P.CertId) {
    exists k, n :: 0 <= k < |s.entries| && 0 <= n < |P.Algs(cfg.compat)| && !P.Pruned(s, cfg, s.entries[k].0)
                   && id == P.MakeCertId(t, ca, P.Algs(cfg.compat)[n], s.entries[k].0)
  }

  /** Any other CertID gets no answer. */
  lemma ProducedMisses(t: P.Tools, ca: P.Issuer, s: P.Snapshot, cfg: P.Config, clock: Clock, roles: seq<Role>,
                       read: Reader, inPlay: P.CertId -> bool, id: P.CertId, prefs: seq<u16>)
    requires Run(t, ca, s, cfg, clock, roles, read, inPlay) && inPlay(id) && !Covered(t, ca, s, cfg, id)
    ensures Choice(Meaning(Production(t, ca, s, cfg, clock, roles).value.entries), P.EntryKey(t, id), prefs) == None
  {
    var f, passes, ps := RunParts(t, ca, s, cfg, clock, roles, read, inPlay);
    forall i, j | 0 <= i < |ps| && 0 <= j < |ps[i].keys|
      ensures ps[i].keys[j] != P.EntryKey(t, id)
    {
      var k := P.PreparedFrom(f, i);
      P.PreparedShape(f, k, ps[i]);
      assert inPlay(ps[i].singles[j].certId);
    }
    NoChoiceAnswers(passes, ps, cfg.bucketSize, read, P.EntryKey(t, id), prefs);
  }

  /** The produced file parses, verifies, and its lookups are lookups among the signed entries. */
  lemma ProducedFile<E>(c: Codec, t: P.Tools, ca: P.Issuer, s: P.Snapshot, cfg: P.Config, clock: Clock,
                        roles: seq<Role>, read: Reader, inPlay: P.CertId -> bool, seal: Seal<E>, key: Digest,
                        prefs: seq<u16>)
    requires Run(t, ca, s, cfg, clock, roles, read, inPlay) && Faithful(c)
    requires var p := Production(t, ca, s, cfg, clock, roles).value;
             Fits(c, p.manifest, p.entries, seal) && Separates(c.sha, p.entries)
    ensures var p := Production(t, ca, s, cfg, clock, roles).value;
            var r := FromBytes(c, BuiltFile(c, p.manifest, p.entries, seal).value);
            && r.Ok? && StructureOk(c, r.value)
            && LookupPreferred(r.value, key, prefs) == Choice(Meaning(p.entries), key, prefs)
            && Lookup(r.value, key) == Choice(Meaning(p.entries), key, [])
  {
    var f, passes, ps := RunParts(t, ca, s, cfg, clock, roles, read, inPlay);
    var p := Production(t, ca, s, cfg, clock, roles).value;
    PassesDistinct(passes, |passes|, ps, cfg.bucketSize, read);
    BuildThenLookup(c, p.manifest, p.entries, seal, key, prefs);
    BuildParses(c, p.manifest, p.entries, seal);
    BuildVerifies(c, p.manifest, p.entries, seal);
  }

  /** The answer names this CertID, the status of entry `k`, and the times it is valid for. */
  ghost predicate Tells(
    t: P.Tools, s: P.Snapshot, cfg: P.Config, read: Reader, answer: Option<Bytes>, id: P.CertId, k: nat)
    requires k < |s.entries|
  {
    && answer.Some? && ExtractStatus(read, answer.value, id).Ok?
    && var single := ExtractStatus(read, answer.value, id).value;
       && single.certId == id && P.OcspStatus(s.entries[k].1) == Ok(single.status)
       && P.Says(s.entries[k].1, single.status) && Current(t, s, cfg, id.serial, single)
  }

  /**
   A CertID the bundle answers for: the issuer's name and key under an algorithm of the
   configured mode, and a serial whose archive cutoff has not passed.
   */
  predicate Asked(t: P.Tools, ca: P.Issuer, s: P.Snapshot, cfg: P.Config, k: nat, id: P.CertId) {
    && k < |s.entries| && id.serial == s.entries[k].0
    && id.nameHash == t.hash(id.alg, ca.nameDer) && id.keyHash == t.hash(id.alg, ca.keyBytes)
    && (id.alg.Sha256? ==> cfg.compat.Sha256Only? || cfg.compat.Dual?)
    && (id.alg.Sha1? ==> cfg.compat.Sha1Only? || cfg.compat.Dual?)
    && (cfg.archiveCutoffSecs > 0 && id.serial in s.notAfter ==>
          s.notAfter[id.serial] + cfg.archiveCutoffSecs >= s.thisUpdate)
  }

  /** Serial `k` under one of the configured algorithms. */
  predicate IdOfSerial(t: P.Tools, ca: P.Issuer, s: P.Snapshot, cfg: P.Config, k: nat, n: nat, id: P.CertId) {
    && k < |s.entries| && n < |P.Algs(cfg.compat)| && !P.Pruned(s, cfg, s.entries[k].0)
    && id == P.MakeCertId(t, ca, P.Algs(cfg.compat)[n], s.entries[k].0)
  }

  lemma AskedExactly(t: P.Tools, ca: P.Issuer, s: P.Snapshot, cfg: P.Config, k: nat, id: P.CertId)
    ensures Asked(t, ca, s, cfg, k, id) <==> exists n: nat :: IdOfSerial(t, ca, s, cfg, k, n, id)
  {
    if Asked(t, ca, s, cfg, k, id) {
      var n := if cfg.compat.Dual? && id.alg.Sha1? then 1 else 0;
      assert IdOfSerial(t, ca, s, cfg, k, n, id);
    }
  }

  /**
   From snapshot to answer: the produced file parses and verifies, and any CertID in
   play, looked up in it under any preferences, gets the status the snapshot gives
   its serial if the bundle was produced for it, and nothing otherwise.
   */
  lemma ProducedFileAnswers<E>(c: Codec, t: P.Tools, ca: P.Issuer, s: P.Snapshot, cfg: P.Config, clock: Clock,
                               roles: seq<Role>, read: Reader, inPlay: P.CertId -> bool, seal: Seal<E>, id: P.CertId,
                               prefs: seq<u16>)
    requires Run(t, ca, s, cfg, clock, roles, read, inPlay) && Faithful(c) && inPlay(id)
    requires var p := Production(t, ca, s, cfg, clock, roles).value;
             Fits(c, p.manifest, p.entries, seal) && Separates(c.sha, p.entries)
    ensures var p := Production(t, ca, s, cfg, clock, roles).value;
            var r := FromBytes(c, BuiltFile(c, p.manifest, p.entries, seal).value);
            && r.Ok? && StructureOk(c, r.value)
            && (forall k: nat :: Asked(t, ca, s, cfg, k, id) ==>
                  Tells(t, s, cfg, read, LookupPreferred(r.value, P.EntryKey(t, id), prefs), id, k))
            && (LookupPreferred(r.value, P.EntryKey(t, id), prefs).Some? <==>
                  exists k: nat :: Asked(t, ca, s, cfg, k, id))
  {
    ProducedFile(c, t, ca, s, cfg, clock, roles, read, inPlay, seal, P.EntryKey(t, id), prefs);
    var m := Meaning(Production(t, ca, s, cfg, clock, roles).value.entries);
    forall k: nat | Asked(t, ca, s, cfg, k, id)
      ensures Tells(t, s, cfg, read, Choice(m, P.EntryKey(t, id), prefs), id, k)
    {
      AskedExactly(t, ca, s, cfg, k, id);
      var n: nat :| IdOfSerial(t, ca, s, cfg, k, n, id);
      var single := ProducedAnswers(t, ca, s, cfg, clock, roles, read, inPlay, k, n, prefs);
    }
    if !exists k: nat :: Asked(t, ca, s, cfg, k, id) {
      NotCovered(t, ca, s, cfg, id);
      ProducedMisses(t, ca, s, cfg, clock, roles, read, inPlay, id, prefs);
    }
  }

  lemma NotCovered(t: P.Tools, ca: P.Issuer, s: P.Snapshot, cfg: P.Config, id: P.CertId)
    requires forall k: nat :: !Asked(t, ca, s, cfg, k, id)
    ensures !Covered(t, ca, s, cfg, id)
  {
    if Covered(t, ca, s, cfg, id) {
      var k, n :| 0 <= k < |s.entries| && 0 <= n < |P.Algs(cfg.compat)| && !P.Pruned(s, cfg, s.entries[k].0)
                  && id == P.MakeCertId(t, ca, P.Algs(cfg.compat)[n], s.entries[k].0);
      assert IdOfSerial(t, ca, s, cfg, k, n, id);
      AskedExactly(t, ca, s, cfg, k, id);
    }
  }

  // ---- when production succeeds, and what its manifest says ---------------------------------------

  /** The source is current, the validity window is open, and both times can be written. */
  ghost predicate Plannable(s: P.Snapshot, cfg: P.Config, clock: Clock) {
    && s.nextUpdate.Some? && s.thisUpdate <= clock.source < s.nextUpdate.value
    && s.thisUpdate + cfg.validitySecs <= U64_MAX
    && clock.expiry < s.thisUpdate + cfg.validitySecs && clock.expiry < s.nextUpdate.value
    && EpochToDatetime(clock.produced).Some? && EpochToDatetime(s.thisUpdate).Some?
  }

  lemma PlanExactly(s: P.Snapshot, cfg: P.Config, clock: Clock)
    ensures MakePlan(s, cfg, clock).Ok? <==> Plannable(s, cfg, clock)
    ensures MakePlan(s, cfg, clock).Ok? ==> P.SameTime(MakePlan(s, cfg, clock).value.producedAt, clock.produced)
  {
    if MakePlan(s, cfg, clock).Ok? {
      P.ConvertedIsSameTime(clock.produced);
    }
  }

  lemma {:induction false} PassesExactly(passes: seq<Pass>, n: nat, ps: seq<P.PreparedEntry>, size: nat)
    requires n <= |passes|
    ensures SignPasses(passes, n, ps, size).Some? <==> forall k :: 0 <= k < n ==> Signed(passes[k], ps, size).Some?
  {
    if n > 0 {
      PassesExactly(passes, n - 1, ps, size);
    }
  }

  /** The signer of a role signs every bucket. */
  ghost predicate RoleSigns(role: Role, producedAt: DateTime, ps: seq<P.PreparedEntry>, size: nat) {
    forall n: nat :: BucketSigns(Pass(role.signer, role.disc, producedAt), ps, Width(size), n)
  }

  ghost predicate AllSign(roles: seq<Role>, producedAt: DateTime, ps: seq<P.PreparedEntry>, size: nat) {
    forall k :: 0 <= k < |roles| ==> RoleSigns(roles[k], producedAt, ps, size)
  }

  lemma AllSignExactly(roles: seq<Role>, producedAt: DateTime, ps: seq<P.PreparedEntry>, size: nat)
    ensures SignPasses(PassesFor(roles, producedAt), |roles|, ps, size).Some? <==> AllSign(roles, producedAt, ps, size)
  {
    PassesExactly(PassesFor(roles, producedAt), |roles|, ps, size);
    forall k | 0 <= k < |roles|
      ensures Signed(PassesFor(roles, producedAt)[k], ps, size).Some? <==> RoleSigns(roles[k], producedAt, ps, size)
    {
      SignedExactly(PassesFor(roles, producedAt)[k], ps, size);
    }
  }

  ghost predicate AllPreparable(f: P.Frame) {
    forall k :: 0 <= k < |f.snapshot.entries| && !P.Pruned(f.snapshot, f.cfg, f.snapshot.entries[k].0) ==>
      P.Preparable(f, f.snapshot.entries[k].0, f.snapshot.entries[k].1)
  }

  /** With these times, every serial can be prepared and every bucket of the prepared entries signed. */
  ghost predicate Feasible(t: P.Tools, ca: P.Issuer, s: P.Snapshot, cfg: P.Config, plan: Plan, roles: seq<Role>) {
    var f := FrameFor(t, ca, s, cfg, plan);
    && AllPreparable(f) && P.Prepared(f).Ok?
    && AllSign(roles, plan.producedAt, P.Prepared(f).value, cfg.bucketSize)
  }

  lemma FeasibleExactly(t: P.Tools, ca: P.Issuer, s: P.Snapshot, cfg: P.Config, plan: Plan, roles: seq<Role>)
    ensures var ps := P.Prepared(FrameFor(t, ca, s, cfg, plan));
            Feasible(t, ca, s, cfg, plan, roles) <==>
              ps.Ok? && SignPasses(PassesFor(roles, plan.producedAt), |roles|, ps.value, cfg.bucketSize).Some?
  {
    var f := FrameFor(t, ca, s, cfg, plan);
    P.PreparedExactly(f);
    if P.Prepared(f).Ok? {
      AllSignExactly(roles, plan.producedAt, P.Prepared(f).value, cfg.bucketSize);
    }
  }

  /** Production succeeds if and only if it can be planned, every serial prepared and every bucket signed. */
  lemma ProductionExactly(
    t: P.Tools, ca: P.Issuer, s: P.Snapshot, cfg: P.Config, clock: Clock, roles: seq<Role>)
    ensures Production(t, ca, s, cfg, clock, roles).Ok? <==>
            && Plannable(s, cfg, clock)
            && var plan := MakePlan(s, cfg, clock);
               plan.Ok? && Feasible(t, ca, s, cfg, plan.value, roles)
  {
    PlanExactly(s, cfg, clock);
    if MakePlan(s, cfg, clock).Ok? {
      FeasibleExactly(t, ca, s, cfg, MakePlan(s, cfg, clock).value, roles);
    }
  }

  /** The manifest's window: from the snapshot's time to the earliest and latest expiry of its responses. */
  lemma ProducedWindow(t: P.Tools, ca: P.Issuer, s: P.Snapshot, cfg: P.Config, clock: Clock, roles: seq<Role>)
    requires Production(t, ca, s, cfg, clock, roles).Ok?
    ensures var w := Production(t, ca, s, cfg, clock, roles).value.manifest.window;
            && w.producedAt == clock.window && w.thisUpdateMin == s.thisUpdate && s.nextUpdate.Some?
            && w.nextUpdateMin == Min(s.thisUpdate + cfg.validitySecs, s.nextUpdate.value)
            && w.nextUpdateMax == Min(s.thisUpdate + cfg.validitySecs + cfg.jitterSecs, s.nextUpdate.value)
  {
  }

  /** The rest of the manifest as a reader parses it: a full bundle of version 1 that continues nothing. */
  lemma ProducedManifest<E>(c: Codec, t: P.Tools, ca: P.Issuer, s: P.Snapshot, cfg: P.Config, clock: Clock,
                            roles: seq<Role>, seal: Seal<E>)
    requires Production(t, ca, s, cfg, clock, roles).Ok? && Faithful(c)
    requires var p := Production(t, ca, s, cfg, clock, roles).value; Fits(c, p.manifest, p.entries, seal)
    ensures var p := Production(t, ca, s, cfg, clock, roles).value;
            var r := FromBytes(c, BuiltFile(c, p.manifest, p.entries, seal).value);
            && r.Ok?
            && var m := r.value.manifest;
               && m.formatVersion == 1 && m.bundleType.Full? && m.producerId == cfg.producerId
               && m.createdAt == clock.created && m.entryCount == |r.value.index| % U64_LIMIT
               && (forall n :: 0 <= n < 16 ==> m.bundleId[n] == 0)
               && m.continuity == Continuity(None, None, 0)
               && m.caScopes == p.manifest.caScopes && m.window == p.manifest.window
               && m.shard.None? && m.compression.None? && m.extensions.None?
  {
    var p := Production(t, ca, s, cfg, clock, roles).value;
    BuildParses(c, p.manifest, p.entries, seal);
  }

  /** A scope of the manifest a lookup for this CertID is routed by. */
  predicate Routes(scope: CaScope, cfg: P.Config, id: P.CertId) {
    && scope.hashAlgorithm == (if id.alg.Sha256? then SHA256_OID else SHA1_OID)
    && scope.issuerNameHash == id.nameHash && scope.issuerKeyHash == id.keyHash && scope.epoch == cfg.epoch
  }

  lemma ScopesRoute(t: P.Tools, ca: P.Issuer, s: P.Snapshot, cfg: P.Config, passes: seq<Pass>, k: nat, id: P.CertId)
    requires |passes| > 0 && Asked(t, ca, s, cfg, k, id)
    ensures exists n :: 0 <= n < |Scopes(t, ca, cfg, passes)| && Routes(Scopes(t, ca, cfg, passes)[n], cfg, id)
  {
    var n := if id.alg.Sha256? then 0 else |passes|;
    assert Scopes(t, ca, cfg, passes)[n] == ScopeFor(t, ca, cfg, id.alg, passes[0].signer);
    assert Routes(Scopes(t, ca, cfg, passes)[n], cfg, id);
  }

  /** Every CertID the bundle answers for is routed by one of its scopes. */
  lemma ScopesRouteAnswers(t: P.Tools, ca: P.Issuer, s: P.Snapshot, cfg: P.Config, clock: Clock, roles: seq<Role>,
                           k: nat, id: P.CertId)
    requires Production(t, ca, s, cfg, clock, roles).Ok? && |roles| > 0 && Asked(t, ca, s, cfg, k, id)
    ensures exists n :: 0 <= n < |Production(t, ca, s, cfg, clock, roles).value.manifest.caScopes|
              && Routes(Production(t, ca, s, cfg, clock, roles).value.manifest.caScopes[n], cfg, id)
  {
    var passes := PassesFor(roles, MakePlan(s, cfg, clock).value.producedAt);
    ScopesRoute(t, ca, s, cfg, passes, k, id);
  }

  /** Every serial of the snapshot was dropped. */
  predicate AllPruned(s: P.Snapshot, cfg: P.Config) {
    forall k :: 0 <= k < |s.entries| ==> P.Pruned(s, cfg, s.entries[k].0)
  }

  lemma PreparedNothing(f: P.Frame)
    requires P.Prepared(f).Ok?
    ensures P.Prepared(f).value == [] <==> AllPruned(f.snapshot, f.cfg)
  {
    if P.Prepared(f).value != [] {
      var k := P.PreparedFrom(f, 0);
    }
    if !AllPruned(f.snapshot, f.cfg) {
      var k :| 0 <= k < |f.snapshot.entries| && !P.Pruned(f.snapshot, f.cfg, f.snapshot.entries[k].0);
      var i := P.PreparedAll(f, k);
    }
  }

  /**
   The discriminator of the second signer is taken as given: the dual bundle a
   reader parses verifies if and only if it differs from the first one's, or there
   was nothing to sign.
   */
  lemma DualVerifies<E>(c: Codec, t: P.Tools, ca: P.Issuer, s: P.Snapshot, cfg: P.Config, clock: Clock,
                        classical: Signer, pq: Signer, discPq: u16, read: Reader, inPlay: P.CertId -> bool,
                        seal: Seal<E>)
    requires P.DistinctSerials(s) && Separated(t, inPlay) && Readable(classical, read) && Readable(pq, read)
    requires forall k, alg :: 0 <= k < |s.entries| ==> inPlay(P.MakeCertId(t, ca, alg, s.entries[k].0))
    requires Production(t, ca, s, cfg, clock, [Role(classical, 0), Role(pq, discPq)]).Ok? && Faithful(c)
    requires var p := Production(t, ca, s, cfg, clock, [Role(classical, 0), Role(pq, discPq)]).value;
             Fits(c, p.manifest, p.entries, seal) && Separates(c.sha, p.entries)
    ensures var p := Production(t, ca, s, cfg, clock, [Role(classical, 0), Role(pq, discPq)]).value;
            var r := FromBytes(c, BuiltFile(c, p.manifest, p.entries, seal).value);
            r.Ok? && (StructureOk(c, r.value) <==> discPq != 0 || AllPruned(s, cfg))
  {
    var roles := [Role(classical, 0), Role(pq, discPq)];
    var p := Production(t, ca, s, cfg, clock, roles).value;
    BuildParses(c, p.manifest, p.entries, seal);
    BuildVerifies(c, p.manifest, p.entries, seal);
    DualIdsDistinct(t, ca, s, cfg, clock, roles, read, inPlay);
  }

  lemma DualIdsDistinct(t: P.Tools, ca: P.Issuer, s: P.Snapshot, cfg: P.Config, clock: Clock, roles: seq<Role>,
                        read: Reader, inPlay: P.CertId -> bool)
    requires P.DistinctSerials(s) && Separated(t, inPlay)
    requires forall k, alg :: 0 <= k < |s.entries| ==> inPlay(P.MakeCertId(t, ca, alg, s.entries[k].0))
    requires |roles| == 2 && Readable(roles[0].signer, read) && Readable(roles[1].signer, read)
    requires Production(t, ca, s, cfg, clock, roles).Ok?
    ensures DistinctIds(Production(t, ca, s, cfg, clock, roles).value.entries)
        <==> roles[0].disc != roles[1].disc || AllPruned(s, cfg)
  {
    var plan := MakePlan(s, cfg, clock).value;
    var f, passes := FrameFor(t, ca, s, cfg, plan), PassesFor(roles, plan.producedAt);
    var ps := P.Prepared(f).value;
    PreparedKeys(f, inPlay);
    PreparedNothing(f);
    if ps != [] {
      var k := P.PreparedFrom(f, 0);
      P.PreparedShape(f, k, ps[0]);
    }
    TwoPassesDistinct(passes, ps, cfg.bucketSize, read);
  }

  lemma TwoPassesDistinct(passes: seq<Pass>, ps: seq<P.PreparedEntry>, size: nat, read: Reader)
    requires |passes| == 2 && Readable(passes[0].signer, read) && Readable(passes[1].signer, read)
    requires SameShape(ps) && CertIdsDistinct(ps) && KeysDistinct(ps) && (ps == [] || |ps[0].keys| > 0)
    requires SignPasses(passes, 2, ps, size).Some?
    ensures DistinctIds(SignPasses(passes, 2, ps, size).value) <==> passes[0].disc != passes[1].disc || ps == []
  {
    TwoPasses(passes, ps, size);
    if passes[0].disc != passes[1].disc {
      PassesDistinct(passes, 2, ps, size, read);
    } else if ps != [] {
      SameDiscriminatorRepeats(passes, ps, size);
    }
  }

  /** Two passes under one discriminator repeat every identifier, so the bundle would not verify. */
  lemma SameDiscriminatorRepeats(passes: seq<Pass>, ps: seq<P.PreparedEntry>, size: nat)
    requires |passes| == 2 && passes[0].disc == passes[1].disc
    requires |ps| > 0 && |ps[0].keys| > 0 && SignPasses(passes, 2, ps, size).Some?
    ensures !DistinctIds(SignPasses(passes, 2, ps, size).value)
  {
    TwoPasses(passes, ps, size);
    var e := SignedHas(passes[0], ps, size, 0, 0, 0, 0);
    var e' := SignedHas(passes[1], ps, size, 0, 0, 0, 0);
    RepeatedId(Signed(passes[0], ps, size).value, Signed(passes[1], ps, size).value, e, e');
  }

  lemma TwoPasses(passes: seq<Pass>, ps: seq<P.PreparedEntry>, size: nat)
    requires |passes| == 2 && SignPasses(passes, 2, ps, size).Some?
    ensures Signed(passes[0], ps, size).Some? && Signed(passes[1], ps, size).Some?
    ensures SignPasses(passes, 2, ps, size).value
         == Signed(passes[0], ps, size).value + Signed(passes[1], ps, size).value
  {
    assert SignPasses(passes, 0, ps, size) == Some([]);
    var first := Signed(passes[0], ps, size).value;
    assert [] + first == first;
    assert SignPasses(passes, 1, ps, size) == Some(first);
  }

  lemma RepeatedId(s: seq<Entry>, t: seq<Entry>, e: Entry, f: Entry)
    requires e in s && f in t && Id(e) == Id(f)
    ensures !DistinctIds(s + t)
  {
    var x :| 0 <= x < |s| && s[x] == e;
    var y :| 0 <= y < |t| && t[y] == f;
    DistinctPairs(s + t);
    assert (s + t)[x] == e && (s + t)[|s| + y] == f;
  }
}
