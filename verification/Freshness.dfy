/**
 No response is served past its nextUpdate: the bound a bundle's window puts on
 its payloads, from production (crates/hoike-sign/src/generate.rs) through
 delta materialization (crates/ahu/src/ops.rs) to serving
 (crates/hoike-server/src/handlers.rs) and live signing
 (crates/hoike-sign/src/live.rs).
 */
module Freshness {
  import opened Wrappers
  import opened Bytes
  import opened Collections
  import opened Manifest
  import opened Index
  import opened Bundle
  import opened Entries
  import opened Builder
  import opened Calendar
  import opened Signing
  import opened Answers
  import opened Overlay
  import D = DeltaOps
  import M = Produce
  import P = Prepare

  predicate ExpiresIn(s: P.SingleResponse, lo: u64, hi: u64) {
    lo <= EpochOf(s.nextUpdate) <= hi
  }

  /** Every status in the payload stays valid until `lo` and no longer than `hi`. */
  ghost predicate PayloadWithin(read: Reader, payload: Bytes, lo: u64, hi: u64) {
    read(payload).Some? && forall s :: s in read(payload).value.singles ==> ExpiresIn(s, lo, hi)
  }

  ghost predicate ContentWithin(read: Reader, m: Content, lo: u64, hi: u64) {
    forall id :: id in m && m[id].Some? ==> PayloadWithin(read, m[id].value, lo, hi)
  }

  /** A bundle's window starts its expiry no later than any payload does. */
  ghost predicate FreshUntilWindow(read: Reader, b: Bundle) {
    ContentWithin(read, ContentOf(b), b.manifest.window.nextUpdateMin, U64_MAX)
  }

  // ---- production ---------------------------------------------------------------------------

  lemma {:induction false} SingleFrom(ps: seq<P.PreparedEntry>, a: nat, b: nat, s: P.SingleResponse)
    returns (i: nat, j: nat)
    requires a <= b <= |ps| && s in Singles(ps[a..b])
    ensures a <= i < b && j < |ps[i].singles| && ps[i].singles[j] == s
    decreases b
  {
    SinglesSnoc(ps, a, b);
    if s in ps[b - 1].singles {
      i := b - 1;
      j :| 0 <= j < |ps[i].singles| && ps[i].singles[j] == s;
    } else {
      i, j := SingleFrom(ps, a, b - 1, s);
    }
  }

  ghost predicate AllExpireIn(ps: seq<P.PreparedEntry>, lo: u64, hi: u64) {
    forall i, j :: 0 <= i < |ps| && 0 <= j < |ps[i].singles| ==> ExpiresIn(ps[i].singles[j], lo, hi)
  }

  lemma PassWithin(pass: Pass, ps: seq<P.PreparedEntry>, size: nat, read: Reader, lo: u64, hi: u64, e: Entry)
    requires Readable(pass.signer, read) && AllExpireIn(ps, lo, hi)
    requires Signed(pass, ps, size).Some? && e in Signed(pass, ps, size).value
    ensures Denoted(e) == Some(e.payload) && PayloadWithin(read, e.payload, lo, hi)
  {
    var i, j, a, b := SignedFrom(pass, ps, size, 0, 0, read, e);
    forall s | s in Singles(ps[a..b])
      ensures ExpiresIn(s, lo, hi)
    {
      var i', j' := SingleFrom(ps, a, b, s);
    }
  }

  lemma {:induction false} PassesWithin(passes: seq<Pass>, n: nat, ps: seq<P.PreparedEntry>, size: nat, read: Reader,
                                        lo: u64, hi: u64, e: Entry)
    requires n <= |passes| && GoodPasses(passes, read) && AllExpireIn(ps, lo, hi)
    requires SignPasses(passes, n, ps, size).Some? && e in SignPasses(passes, n, ps, size).value
    ensures Denoted(e) == Some(e.payload) && PayloadWithin(read, e.payload, lo, hi)
  {
    var before, es := SignPasses(passes, n - 1, ps, size).value, Signed(passes[n - 1], ps, size).value;
    InConcat(e, before, es);
    if e in es {
      PassWithin(passes[n - 1], ps, size, read, lo, hi, e);
    } else {
      PassesWithin(passes, n - 1, ps, size, read, lo, hi, e);
    }
  }

  /** What entries stand for is bounded when each entry is. */
  lemma {:induction false} MeaningWithin(es: seq<Entry>, read: Reader, lo: u64, hi: u64)
    requires forall e :: e in es ==> Denoted(e) == Some(e.payload) && PayloadWithin(read, e.payload, lo, hi)
    ensures ContentWithin(read, Meaning(es), lo, hi)
  {
    if es != [] {
      assert forall e :: e in es[..|es| - 1] ==> e in es;
      MeaningWithin(es[..|es| - 1], read, lo, hi);
      assert es[|es| - 1] in es;
    }
  }

  /** The year still fits 16 bits, so the calendar time is the one meant. */
  predicate Representable(secs: u64) {
    DaysToYmd(secs / 86400).year < 0x1_0000
  }

  /** The year is one that `der::DateTime` takes. */
  predicate Dated(secs: u64) {
    DaysToYmd(secs / 86400).year <= 9999
  }

  lemma EarlierIsRepresentable(a: u64, b: u64)
    requires a <= b && Representable(b)
    ensures Representable(a)
  {
    YearsAscend(a / 86400, b / 86400);
  }

  /** nextUpdate lies between the base time and the window's end, both inside the source's validity. */
  lemma PreparedExpires(f: P.Frame, end: u64, i: nat, j: nat)
    requires P.Prepared(f).Ok? && i < |P.Prepared(f).value| && j < |P.Prepared(f).value[i].singles|
    requires f.snapshot.nextUpdate == Some(end) && f.base <= end
    ensures var hi := Min(SaturatingAdd(f.base, f.cfg.jitterSecs), end);
            && (Representable(hi) ==> ExpiresIn(P.Prepared(f).value[i].singles[j], f.base, hi))
            && (!Dated(f.base) ==> EpochOf(P.Prepared(f).value[i].singles[j].nextUpdate) < f.base)
  {
    var hi := Min(SaturatingAdd(f.base, f.cfg.jitterSecs), end);
    var k := P.PreparedFrom(f, i);
    P.PreparedContent(f, k, P.Prepared(f).value[i], j);
    var serial := f.snapshot.entries[k].0;
    P.NextUpdateWithin(f.tools, serial, f.cfg.jitterSecs, f.base, end);
    var next := P.NextUpdateTime(f.tools, serial, f.cfg.jitterSecs, f.base, end);
    DatetimeExactly(next);
    if Representable(hi) {
      EarlierIsRepresentable(next, hi);
    }
    if !Dated(f.base) {
      ConvertedIsEarlier(next, f.base);
    }
  }

  /** Whatever a time is converted to lies before every time past the year 9999. */
  lemma ConvertedIsEarlier(secs: u64, late: u64)
    requires EpochToDatetime(secs).Some? && !Dated(late)
    ensures EpochOf(EpochToDatetime(secs).value) < late
  {
    CountingInvertsYmd(secs / 86400);
    CountingInvertsYmd(late / 86400);
    var d, e := DateOf(EpochToDatetime(secs).value), DaysToYmd(late / 86400);
    if CountDays(e) <= CountDays(d) {
      AscendingDates(e, d);
    }
    TimeOfDay(secs % 86400);
  }

  /** thisUpdate is the moment the source established the status, exactly when that moment can be written down. */
  lemma ProducedStarts(t: P.Tools, ca: P.Issuer, s: P.Snapshot, cfg: P.Config, clock: M.Clock, i: nat, j: nat)
    requires M.MakePlan(s, cfg, clock).Ok?
    requires var f := M.FrameFor(t, ca, s, cfg, M.MakePlan(s, cfg, clock).value);
             P.Prepared(f).Ok? && i < |P.Prepared(f).value| && j < |P.Prepared(f).value[i].singles|
    ensures var f := M.FrameFor(t, ca, s, cfg, M.MakePlan(s, cfg, clock).value);
            EpochOf(P.Prepared(f).value[i].singles[j].thisUpdate) == s.thisUpdate <==> Representable(s.thisUpdate)
  {
    var f := M.FrameFor(t, ca, s, cfg, M.MakePlan(s, cfg, clock).value);
    M.PlanTimes(s, cfg, clock);
    PreparedStarts(f, i, j);
  }

  lemma PreparedStarts(f: P.Frame, i: nat, j: nat)
    requires P.Prepared(f).Ok? && i < |P.Prepared(f).value| && j < |P.Prepared(f).value[i].singles|
    ensures P.Prepared(f).value[i].singles[j].thisUpdate == f.thisUpdate
  {
    var k := P.PreparedFrom(f, i);
    P.PreparedContent(f, k, P.Prepared(f).value[i], j);
  }

  lemma EntriesWithin(f: P.Frame, end: u64, passes: seq<Pass>, ps: seq<P.PreparedEntry>, size: nat, read: Reader)
    requires P.Prepared(f) == Ok(ps) && f.snapshot.nextUpdate == Some(end) && f.base <= end
    requires Representable(Min(SaturatingAdd(f.base, f.cfg.jitterSecs), end))
    requires GoodPasses(passes, read) && SignPasses(passes, |passes|, ps, size).Some?
    ensures ContentWithin(read, Meaning(SignPasses(passes, |passes|, ps, size).value), f.base,
                          Min(SaturatingAdd(f.base, f.cfg.jitterSecs), end))
  {
    var hi := Min(SaturatingAdd(f.base, f.cfg.jitterSecs), end);
    forall i, j | 0 <= i < |ps| && 0 <= j < |ps[i].singles|
      ensures ExpiresIn(ps[i].singles[j], f.base, hi)
    {
      PreparedExpires(f, end, i, j);
    }
    AllEntriesWithin(passes, ps, size, read, f.base, hi);
  }

  lemma AllEntriesWithin(passes: seq<Pass>, ps: seq<P.PreparedEntry>, size: nat, read: Reader, lo: u64, hi: u64)
    requires AllExpireIn(ps, lo, hi) && GoodPasses(passes, read) && SignPasses(passes, |passes|, ps, size).Some?
    ensures ContentWithin(read, Meaning(SignPasses(passes, |passes|, ps, size).value), lo, hi)
  {
    var es := SignPasses(passes, |passes|, ps, size).value;
    forall e | e in es
      ensures Denoted(e) == Some(e.payload) && PayloadWithin(read, e.payload, lo, hi)
    {
      PassesWithin(passes, |passes|, ps, size, read, lo, hi, e);
    }
    MeaningWithin(es, read, lo, hi);
  }

  /** A produced bundle's payloads expire inside its window, which ends with the source at the latest. */
  lemma ProducedWithin(t: P.Tools, ca: P.Issuer, s: P.Snapshot, cfg: P.Config, clock: M.Clock, roles: seq<M.Role>,
                       read: Reader, inPlay: P.CertId -> bool)
    requires M.Run(t, ca, s, cfg, clock, roles, read, inPlay)
    requires Representable(M.Production(t, ca, s, cfg, clock, roles).value.manifest.window.nextUpdateMax)
    ensures var p := M.Production(t, ca, s, cfg, clock, roles).value;
            var w := p.manifest.window;
            && s.nextUpdate.Some?
            && ContentWithin(read, Meaning(p.entries), w.nextUpdateMin, w.nextUpdateMax)
            && w.nextUpdateMin <= w.nextUpdateMax <= s.nextUpdate.value
            && w.thisUpdateMin == s.thisUpdate <= clock.source < s.nextUpdate.value
            && clock.expiry < w.nextUpdateMin
  {
    var f, passes, ps := M.RunParts(t, ca, s, cfg, clock, roles, read, inPlay);
    EntriesWithin(f, s.nextUpdate.value, passes, ps, cfg.bucketSize, read);
  }

  /** The moment a serial's response is meant to expire. */
  function MeantExpiry(f: P.Frame, end: u64, k: nat): u64
    requires k < |f.snapshot.entries|
  {
    P.NextUpdateTime(f.tools, f.snapshot.entries[k].0, f.cfg.jitterSecs, f.base, end)
  }

  /**
   What is written for a time is not before `base`: either the year fits 16 bits, or
   the earlier time it is narrowed to still lies at or after it.
   */
  predicate WrittenSince(secs: u64, base: u64) {
    Representable(secs) || (EpochToDatetime(secs).Some? && base <= EpochOf(EpochToDatetime(secs).value))
  }

  /** Every serial that is not dropped is written with an expiry at or after the base time. */
  predicate AllWrittenSince(f: P.Frame, end: u64) {
    forall k :: 0 <= k < |f.snapshot.entries| && !P.Pruned(f.snapshot, f.cfg, f.snapshot.entries[k].0) ==>
      WrittenSince(MeantExpiry(f, end, k), f.base)
  }

  lemma SingleStays(f: P.Frame, end: u64, k: nat, p: P.PreparedEntry, j: nat)
    requires P.IsPrepared(f, k, p) && j < |p.singles|
    requires f.snapshot.nextUpdate == Some(end) && f.base <= end
    ensures WrittenSince(MeantExpiry(f, end, k), f.base)
        <==> ExpiresIn(p.singles[j], f.base, Min(SaturatingAdd(f.base, f.cfg.jitterSecs), end))
    ensures !WrittenSince(MeantExpiry(f, end, k), f.base) ==> EpochOf(p.singles[j].nextUpdate) < f.base
  {
    var next := MeantExpiry(f, end, k);
    P.PreparedContent(f, k, p, j);
    P.NextUpdateWithin(f.tools, f.snapshot.entries[k].0, f.cfg.jitterSecs, f.base, end);
    DatetimeExactly(next);
    if !Representable(next) {
      ConvertedIsEarlier(next, next);
    }
  }

  lemma EntriesWithinExactly(f: P.Frame, end: u64, passes: seq<Pass>, ps: seq<P.PreparedEntry>, size: nat, read: Reader)
    requires P.Prepared(f) == Ok(ps) && f.snapshot.nextUpdate == Some(end) && f.base <= end
    requires GoodPasses(passes, read) && |passes| > 0 && passes[0].disc == DEFAULT_DISCRIMINATOR
    requires SignPasses(passes, |passes|, ps, size).Some? && SameShape(ps) && KeysDistinct(ps) && CertIdsDistinct(ps)
    ensures ContentWithin(read, Meaning(SignPasses(passes, |passes|, ps, size).value), f.base,
                          Min(SaturatingAdd(f.base, f.cfg.jitterSecs), end))
        <==> AllWrittenSince(f, end)
  {
    var hi := Min(SaturatingAdd(f.base, f.cfg.jitterSecs), end);
    if AllWrittenSince(f, end) {
      forall i, j | 0 <= i < |ps| && 0 <= j < |ps[i].singles|
        ensures ExpiresIn(ps[i].singles[j], f.base, hi)
      {
        var k := P.PreparedFrom(f, i);
        SingleStays(f, end, k, ps[i], j);
      }
      AllEntriesWithin(passes, ps, size, read, f.base, hi);
    } else {
      var k :| 0 <= k < |f.snapshot.entries| && !P.Pruned(f.snapshot, f.cfg, f.snapshot.entries[k].0)
               && !WrittenSince(MeantExpiry(f, end, k), f.base);
      var i := P.PreparedAll(f, k);
      P.PreparedShape(f, k, ps[i]);
      SingleStays(f, end, k, ps[i], 0);
      EarlyIsNotWithin(passes, ps, size, read, i, 0, f.base, hi);
    }
  }

  /**
   Exactly when, for every production: the payloads stay inside the window if and
   only if each serial's expiry, known from its digest and the configuration, falls
   in a year below 65536 or is narrowed to a time not before the window's.
   */
  lemma ProducedWithinExactly(t: P.Tools, ca: P.Issuer, s: P.Snapshot, cfg: P.Config, clock: M.Clock,
                              roles: seq<M.Role>, read: Reader, inPlay: P.CertId -> bool)
    requires M.Run(t, ca, s, cfg, clock, roles, read, inPlay)
    ensures var p := M.Production(t, ca, s, cfg, clock, roles).value;
            var w := p.manifest.window;
            && M.MakePlan(s, cfg, clock).Ok? && s.nextUpdate.Some?
            && (ContentWithin(read, Meaning(p.entries), w.nextUpdateMin, w.nextUpdateMax)
                <==> AllWrittenSince(M.FrameFor(t, ca, s, cfg, M.MakePlan(s, cfg, clock).value), s.nextUpdate.value))
  {
    var f, passes, ps := M.RunParts(t, ca, s, cfg, clock, roles, read, inPlay);
    EntriesWithinExactly(f, s.nextUpdate.value, passes, ps, cfg.bucketSize, read);
  }

  /**
   For a bundle with an entry and a window that does not reach from before the year
   10000 past the year 65535, that is: the window begins to expire by the year 9999.
   A later time is refused or, past the year 65535, written down as an earlier one.
   */
  lemma ProducedWithinByYear(t: P.Tools, ca: P.Issuer, s: P.Snapshot, cfg: P.Config, clock: M.Clock,
                             roles: seq<M.Role>, read: Reader, inPlay: P.CertId -> bool, k: nat)
    requires M.Run(t, ca, s, cfg, clock, roles, read, inPlay)
    requires k < |s.entries| && !P.Pruned(s, cfg, s.entries[k].0)
    requires var w := M.Production(t, ca, s, cfg, clock, roles).value.manifest.window;
             Dated(w.nextUpdateMin) ==> Representable(w.nextUpdateMax)
    ensures var p := M.Production(t, ca, s, cfg, clock, roles).value;
            var w := p.manifest.window;
            ContentWithin(read, Meaning(p.entries), w.nextUpdateMin, w.nextUpdateMax) <==> Dated(w.nextUpdateMin)
  {
    if Dated(M.Production(t, ca, s, cfg, clock, roles).value.manifest.window.nextUpdateMin) {
      ProducedWithin(t, ca, s, cfg, clock, roles, read, inPlay);
    } else {
      LateIsNotWithin(t, ca, s, cfg, clock, roles, read, inPlay, k);
    }
  }

  /** Only a jitter of tens of thousands of years reaches from such a time past the year 65535. */
  lemma ShortJitterIsRepresentable(base: u64, jitter: u64)
    requires Dated(base) && jitter <= 50_000 * 365 * 86400
    ensures base + jitter < U64_LIMIT ==> Representable(base + jitter)
  {
    if base + jitter < U64_LIMIT && !Representable(base + jitter) {
      FarApart(DaysToYmd(base / 86400), DaysToYmd((base + jitter) / 86400), base / 86400, (base + jitter) / 86400);
    }
  }

  lemma FarApart(d: Date, e: Date, a: nat, b: nat)
    requires d == DaysToYmd(a) && e == DaysToYmd(b) && d.year <= 9999 && e.year >= 0x1_0000
    ensures b > a + 50_000 * 365 + 1
  {
    CountingInvertsYmd(a);
    CountingInvertsYmd(b);
    MonthsFit(d.year, d.month);
    YearsApart(d.year + 1, e.year);
  }

  lemma {:induction false} YearsApart(y: int, z: int)
    requires 1970 <= y <= z
    ensures DaysBeforeYear(z) >= DaysBeforeYear(y) + 365 * (z - y)
    decreases z
  {
    if y < z {
      YearsApart(y, z - 1);
    }
  }

  lemma LateIsNotWithin(t: P.Tools, ca: P.Issuer, s: P.Snapshot, cfg: P.Config, clock: M.Clock,
                        roles: seq<M.Role>, read: Reader, inPlay: P.CertId -> bool, k: nat)
    requires M.Run(t, ca, s, cfg, clock, roles, read, inPlay)
    requires k < |s.entries| && !P.Pruned(s, cfg, s.entries[k].0)
    requires !Dated(M.Production(t, ca, s, cfg, clock, roles).value.manifest.window.nextUpdateMin)
    ensures var p := M.Production(t, ca, s, cfg, clock, roles).value;
            var w := p.manifest.window;
            !ContentWithin(read, Meaning(p.entries), w.nextUpdateMin, w.nextUpdateMax)
  {
    var f, passes, ps := M.RunParts(t, ca, s, cfg, clock, roles, read, inPlay);
    var w := M.Production(t, ca, s, cfg, clock, roles).value.manifest.window;
    LateEntriesNotWithin(f, s.nextUpdate.value, passes, ps, cfg.bucketSize, read, k, w.nextUpdateMax);
  }

  lemma LateEntriesNotWithin(f: P.Frame, end: u64, passes: seq<Pass>, ps: seq<P.PreparedEntry>, size: nat, read: Reader,
                             k: nat, hi: u64)
    requires P.Prepared(f) == Ok(ps) && f.snapshot.nextUpdate == Some(end) && f.base <= end && !Dated(f.base)
    requires GoodPasses(passes, read) && |passes| > 0 && passes[0].disc == DEFAULT_DISCRIMINATOR
    requires SignPasses(passes, |passes|, ps, size).Some? && SameShape(ps) && KeysDistinct(ps) && CertIdsDistinct(ps)
    requires k < |f.snapshot.entries| && !P.Pruned(f.snapshot, f.cfg, f.snapshot.entries[k].0)
    ensures !ContentWithin(read, Meaning(SignPasses(passes, |passes|, ps, size).value), f.base, hi)
  {
    var i := P.PreparedAll(f, k);
    P.PreparedShape(f, k, ps[i]);
    PreparedExpires(f, end, i, 0);
    EarlyIsNotWithin(passes, ps, size, read, i, 0, f.base, hi);
  }

  /** One status that expires too early shows in what the bundle answers. */
  lemma EarlyIsNotWithin(passes: seq<Pass>, ps: seq<P.PreparedEntry>, size: nat, read: Reader, i: nat, j: nat,
                         lo: u64, hi: u64)
    requires GoodPasses(passes, read) && |passes| > 0 && passes[0].disc == DEFAULT_DISCRIMINATOR
    requires SignPasses(passes, |passes|, ps, size).Some? && SameShape(ps) && KeysDistinct(ps) && CertIdsDistinct(ps)
    requires i < |ps| && j < |ps[i].singles| && EpochOf(ps[i].singles[j].nextUpdate) < lo
    ensures !ContentWithin(read, Meaning(SignPasses(passes, |passes|, ps, size).value), lo, hi)
  {
    AnyChoiceAnswers(passes, ps, size, read, i, j, []);
    var es := SignPasses(passes, |passes|, ps, size).value;
    AnswerNotWithin(read, Meaning(es), ps[i].keys[j], ps[i].singles[j], lo, hi);
  }

  lemma AnswerNotWithin(read: Reader, m: Content, key: Digest, single: P.SingleResponse, lo: u64, hi: u64)
    requires Answer(read, Choice(m, key, []), single) && EpochOf(single.nextUpdate) < lo
    ensures !ContentWithin(read, m, lo, hi)
  {
    var id := ChosenId(m, key, []);
    AnsweredIsIn(read, m[id].value, single);
    assert !ExpiresIn(single, lo, hi);
  }

  lemma AnsweredIsIn(read: Reader, payload: Bytes, single: P.SingleResponse)
    requires ExtractStatus(read, payload, single.certId) == Ok(single)
    ensures read(payload).Some? && single in read(payload).value.singles
  {
    MatchingAreThere(read(payload).value.singles, single.certId, single);
  }

  lemma {:induction false} MatchingAreThere(ss: seq<P.SingleResponse>, id: P.CertId, s: P.SingleResponse)
    requires s in Matching(ss, id)
    ensures s in ss
  {
    if ss != [] && s in Matching(ss[..|ss| - 1], id) {
      MatchingAreThere(ss[..|ss| - 1], id, s);
    }
  }

  // ---- a production past the year 65535 ----------------------------------------------------------

  /** A source with one good certificate, valid from the epoch until `end`. */
  function LongSource(serial: P.Serial, end: u64): P.Snapshot {
    P.Snapshot([(serial, P.Good)], 0, Some(end), map[])
  }

  function LongConfig(end: u64): P.Config {
    P.Config("p", 0, end, 0, P.Sha256Only, 0, 1, false)
  }

  const AT_EPOCH := M.Clock(0, 0, 0, 0, 0)

  lemma {:induction false} YearsAreBounded(y: int)
    requires y >= 1970
    ensures DaysBeforeYear(y) <= 366 * (y - 1970)
    decreases y
  {
    if y > 1970 {
      YearsAreBounded(y - 1);
    }
  }

  lemma EpochConverts(d: Date, secs: u64)
    requires ValidDate(d) && d.year <= 9999 && secs == 0
    ensures P.OcspTime(secs).Ok?
  {
    YmdInvertsCounting(d);
    YearsAscend(secs / 86400, CountDays(d));
    DatetimeRoundTrip(secs);
  }

  /** Midnight of such a year is within 64 bits, converts, and is not what it converts to. */
  lemma LongEnd(d: Date) returns (end: u64)
    requires 1970 < d.year < 0x10_0000 && d.year % 0x1_0000 == 1970 && d.month == 1 && d.day == 1
    ensures P.OcspTime(end).Ok? && !Representable(end) && end > 0
  {
    YearsAreBounded(d.year);
    assert DaysBeforeMonth(d.year, 1) == 0;
    NarrowingExample(d);
    end := CountDays(d) * 86400;
    DatetimeExactly(end);
  }

  lemma LongPlan(serial: P.Serial, end: u64)
    requires end > 0
    ensures var plan := M.MakePlan(LongSource(serial, end), LongConfig(end), AT_EPOCH);
            plan.Ok? && plan.value.end == end && plan.value.base == end
  {
    EpochConverts(Date(1970, 1, 1), AT_EPOCH.produced);
    EpochConverts(Date(1970, 1, 1), LongSource(serial, end).thisUpdate);
  }

  lemma LongPrepared(f: P.Frame, serial: P.Serial, end: u64)
    requires f.snapshot == LongSource(serial, end) && f.cfg == LongConfig(end) && f.base == end
    requires f.tools.serialOk(serial) && P.OcspTime(end).Ok?
    ensures P.Prepared(f).Ok? && |P.Prepared(f).value| == 1
  {
    assert P.NextUpdateTime(f.tools, serial, 0, end, end) == end;
    assert P.Collect(P.Steps(f), 0) == Ok([]);
    assert P.Steps(f)(0) == P.PrepareAt(f, 0);
    assert P.PrepareAt(f, 0).Ok?;
  }

  /** A signer that signs one response and no other, with the empty string. */
  function SignerOf(r: Response): Signer {
    Signer((n, x) => if x == r then Some([]) else None, [], None)
  }

  function ReaderOf(r: Response): Reader {
    (bytes: Bytes) => if bytes == [] then Some(r) else None
  }

  lemma SignerOfIsReadable(r: Response)
    ensures Readable(SignerOf(r), ReaderOf(r))
  {
  }

  /**
   Such a production: the source and the configured validity end with the year
   67505 or later, where the year becomes 1970 in 16 bits. It succeeds, and its
   one payload expired long before the window it is published with begins to expire.
   The signer signs nothing but the one response this production asks for.
   */
  lemma ProducedPastItsWindow(t: P.Tools, ca: P.Issuer, serial: P.Serial, d: Date)
    returns (s: P.Snapshot, cfg: P.Config, signer: Signer, read: Reader)
    requires 1970 < d.year < 0x10_0000 && d.year % 0x1_0000 == 1970 && d.month == 1 && d.day == 1
    requires t.serialOk(serial)
    requires P.EntryKey(t, P.MakeCertId(t, ca, P.Sha256, serial)) != P.EntryKey(t, P.MakeCertId(t, ca, P.Sha1, serial))
    ensures s.entries == [(serial, P.Good)] && Readable(signer, read)
    ensures M.Production(t, ca, s, cfg, AT_EPOCH, [M.Role(signer, 0)]).Ok?
    ensures var p := M.Production(t, ca, s, cfg, AT_EPOCH, [M.Role(signer, 0)]).value;
            !ContentWithin(read, Meaning(p.entries), p.manifest.window.nextUpdateMin, p.manifest.window.nextUpdateMax)
  {
    var end := LongEnd(d);
    s, cfg := LongSource(serial, end), LongConfig(end);
    var r := LongProduction(t, ca, serial, end);
    signer, read := SignerOf(r), ReaderOf(r);
    SignerOfIsReadable(r);
    LongIsNotWithin(t, ca, s, cfg, [M.Role(signer, 0)], read, serial);
  }

  lemma LongProduction(t: P.Tools, ca: P.Issuer, serial: P.Serial, end: u64) returns (r: Response)
    requires end > 0 && P.OcspTime(end).Ok? && t.serialOk(serial)
    ensures var p := M.Production(t, ca, LongSource(serial, end), LongConfig(end), AT_EPOCH, [M.Role(SignerOf(r), 0)]);
            p.Ok? && p.value.manifest.window.nextUpdateMin == end
  {
    var s, cfg := LongSource(serial, end), LongConfig(end);
    LongPlan(serial, end);
    var plan := M.MakePlan(s, cfg, AT_EPOCH).value;
    var f := M.FrameFor(t, ca, s, cfg, plan);
    LongPrepared(f, serial, end);
    r := Response(Singles(P.Prepared(f).value), plan.producedAt);
    OnePassSigns(M.PassesFor([M.Role(SignerOf(r), 0)], plan.producedAt), P.Prepared(f).value, cfg.bucketSize);
  }

  /** A pass over one prepared entry signs as soon as its signer signs that entry's response. */
  lemma OnePassSigns(passes: seq<Pass>, ps: seq<P.PreparedEntry>, size: nat)
    requires |passes| == 1 && |ps| == 1
    requires passes[0].signer.sign(0, Response(Singles(ps), passes[0].producedAt)).Some?
    ensures SignPasses(passes, 1, ps, size).Some?
  {
    assert SignPasses(passes, 0, ps, size) == Some([]);
    assert ps[0..1] == ps && BucketEnd(1, size, 0) == 1;
    assert SignFrom(passes[0], ps, size, 1, 1) == Some([]);
  }

  lemma LongIsNotWithin(t: P.Tools, ca: P.Issuer, s: P.Snapshot, cfg: P.Config, roles: seq<M.Role>, read: Reader,
                        serial: P.Serial)
    requires P.EntryKey(t, P.MakeCertId(t, ca, P.Sha256, serial)) != P.EntryKey(t, P.MakeCertId(t, ca, P.Sha1, serial))
    requires s.entries == [(serial, P.Good)] && |roles| == 1 && roles[0].disc == DEFAULT_DISCRIMINATOR
    requires cfg.compat == P.Sha256Only && cfg.archiveCutoffSecs == 0 && Readable(roles[0].signer, read)
    requires M.Production(t, ca, s, cfg, AT_EPOCH, roles).Ok?
    requires !Representable(M.Production(t, ca, s, cfg, AT_EPOCH, roles).value.manifest.window.nextUpdateMin)
    ensures var p := M.Production(t, ca, s, cfg, AT_EPOCH, roles).value;
            !ContentWithin(read, Meaning(p.entries), p.manifest.window.nextUpdateMin, p.manifest.window.nextUpdateMax)
  {
    var inPlay := (id: P.CertId) =>
      id == P.MakeCertId(t, ca, P.Sha256, serial) || id == P.MakeCertId(t, ca, P.Sha1, serial);
    OneSerialRuns(t, ca, s, roles, read, serial, inPlay);
    ProducedWithinByYear(t, ca, s, cfg, AT_EPOCH, roles, read, inPlay, 0);
  }

  lemma OneSerialRuns(t: P.Tools, ca: P.Issuer, s: P.Snapshot, roles: seq<M.Role>, read: Reader, serial: P.Serial,
                      inPlay: P.CertId -> bool)
    requires P.EntryKey(t, P.MakeCertId(t, ca, P.Sha256, serial)) != P.EntryKey(t, P.MakeCertId(t, ca, P.Sha1, serial))
    requires s.entries == [(serial, P.Good)] && |roles| == 1 && roles[0].disc == DEFAULT_DISCRIMINATOR
    requires Readable(roles[0].signer, read)
    requires forall id :: inPlay(id) <==>
               id == P.MakeCertId(t, ca, P.Sha256, serial) || id == P.MakeCertId(t, ca, P.Sha1, serial)
    ensures P.DistinctSerials(s) && M.GoodRoles(roles, read) && M.Separated(t, inPlay)
    ensures forall k, alg :: 0 <= k < |s.entries| ==> inPlay(P.MakeCertId(t, ca, alg, s.entries[k].0))
  {
    forall alg
      ensures inPlay(P.MakeCertId(t, ca, alg, serial))
    {
      assert alg == P.Sha256 || alg == P.Sha1;
    }
  }

  lemma Widen(read: Reader, m: Content, lo: u64, hi: u64)
    requires ContentWithin(read, m, lo, hi)
    ensures ContentWithin(read, m, lo, U64_MAX)
  {
    forall id | id in m && m[id].Some?
      ensures PayloadWithin(read, m[id].value, lo, U64_MAX)
    {
      assert PayloadWithin(read, m[id].value, lo, hi);
      forall s | s in read(m[id].value).value.singles
        ensures ExpiresIn(s, lo, U64_MAX)
      {
        assert ExpiresIn(s, lo, hi);
      }
    }
  }

  /** So the bundle a reader parses is fresh until its window says otherwise. */
  lemma ProducedIsFresh<E>(c: Codec, t: P.Tools, ca: P.Issuer, s: P.Snapshot, cfg: P.Config, clock: M.Clock,
                           roles: seq<M.Role>, read: Reader, inPlay: P.CertId -> bool, seal: Seal<E>)
    requires M.Run(t, ca, s, cfg, clock, roles, read, inPlay)
    requires Representable(M.Production(t, ca, s, cfg, clock, roles).value.manifest.window.nextUpdateMax)
    requires var p := M.Production(t, ca, s, cfg, clock, roles).value;
             Fits(c, p.manifest, p.entries, seal) && Separates(c.sha, p.entries)
    ensures var p := M.Production(t, ca, s, cfg, clock, roles).value;
            FreshUntilWindow(read, BuiltBundle(c, p.manifest, p.entries, seal))
  {
    var f, passes, ps := M.RunParts(t, ca, s, cfg, clock, roles, read, inPlay);
    var p := M.Production(t, ca, s, cfg, clock, roles).value;
    PassesDistinct(passes, |passes|, ps, cfg.bucketSize, read);
    BuildRefines(c, p.manifest, p.entries, seal);
    ProducedWithin(t, ca, s, cfg, clock, roles, read, inPlay);
    Widen(read, Meaning(p.entries), p.manifest.window.nextUpdateMin, p.manifest.window.nextUpdateMax);
  }

  // ---- delta materialization -------------------------------------------------------------------

  lemma WindowBounds(ws: WorkingSet, w0: Window, w: Window, id: EntryId)
    requires D.WindowFor(D.WindowsOf(ws), w0, w) && id in ws
    ensures w.nextUpdateMin <= ws[id].window.nextUpdateMin
  {
    assert ws[id].window in D.WindowsOf(ws);
    assert D.Within(ws[id].window, w);
  }

  /** Whatever a chain retains stays fresh until the output's window says it may not be. */
  lemma ApplyKeepsFresh<E>(c: Codec, base: Bundle, deltas: seq<Bundle>, m: Manifest, es: seq<Entry>, seal: Seal<E>,
                           read: Reader)
    requires Faithful(c) && D.Output(c, base, deltas, m, es) && Fits(c, m, es, seal)
    requires FreshUntilWindow(read, base) && forall k :: 0 <= k < |deltas| ==> FreshUntilWindow(read, deltas[k])
    ensures FreshUntilWindow(read, BuiltBundle(c, m, es, seal))
  {
    var ws, out := Chain(base, deltas), BuiltBundle(c, m, es, seal);
    D.ListingIsPlain(ws, es);
    D.PlainSeparates(c, es);
    BuildRefines(c, m, es, seal);
    forall id | id in ContentOf(out) && ContentOf(out)[id].Some?
      ensures PayloadWithin(read, ContentOf(out)[id].value, m.window.nextUpdateMin, U64_MAX)
    {
      D.ListingMeans(ws, es, id);
      RetainedIsShort(base, deltas, id);
      var k := RetainedFrom(base, deltas, |deltas|, id);
      var b := Input(base, deltas, k);
      assert FreshUntilWindow(read, b);
      WindowBounds(ws, base.manifest.window, m.window, id);
      Loosen(read, ws[id].data, b.manifest.window.nextUpdateMin, m.window.nextUpdateMin);
    }
  }

  lemma Loosen(read: Reader, payload: Bytes, lo: u64, lo': u64)
    requires PayloadWithin(read, payload, lo, U64_MAX) && lo' <= lo
    ensures PayloadWithin(read, payload, lo', U64_MAX)
  {
    forall s | s in read(payload).value.singles
      ensures ExpiresIn(s, lo', U64_MAX)
    {
      assert ExpiresIn(s, lo, U64_MAX);
    }
  }

  // ---- serving ---------------------------------------------------------------------------------

  datatype Reply = TryLater | Presigned(payload: Bytes, maxAge: u64)

  predicate Open(w: Window, now: u64) {
    w.thisUpdateMin <= now < w.nextUpdateMin
  }

  /**
   The window is tested when the request is resolved and again when the answer is
   written; `scaled` is the configured fraction of the window, however rounded.
   */
  function Serve(w: Window, payload: Bytes, resolved: u64, written: u64, scaled: u64): Reply {
    if !Open(w, resolved) || !Open(w, written) then TryLater
    else Presigned(payload, Min(scaled, w.nextUpdateMin - written))
  }

  /**
   The stored answer is served exactly while the window is open at both times, for as
   long as configured but not past the window.
   */
  lemma ServesWhileOpen(w: Window, payload: Bytes, resolved: u64, written: u64, scaled: u64)
    ensures var reply := Serve(w, payload, resolved, written, scaled);
            && (reply.Presigned? <==>
                  w.thisUpdateMin <= resolved < w.nextUpdateMin && w.thisUpdateMin <= written < w.nextUpdateMin)
            && (reply.Presigned? ==>
                  && reply.payload == payload && reply.maxAge <= scaled && written + reply.maxAge <= w.nextUpdateMin
                  && (reply.maxAge == scaled || written + reply.maxAge == w.nextUpdateMin))
  {
  }

  /** A served payload, and any cached copy for as long as it may be reused, is not past nextUpdate. */
  lemma ServedIsFresh(read: Reader, b: Bundle, key: Digest, prefs: seq<u16>, resolved: u64, written: u64, scaled: u64)
    requires StrictlySorted(b.index) && FreshUntilWindow(read, b)
    requires LookupPreferred(b, key, prefs).Some?
    requires Serve(b.manifest.window, LookupPreferred(b, key, prefs).value, resolved, written, scaled).Presigned?
    ensures var reply := Serve(b.manifest.window, LookupPreferred(b, key, prefs).value, resolved, written, scaled);
            && read(reply.payload).Some?
            && forall s :: s in read(reply.payload).value.singles ==>
                 written < EpochOf(s.nextUpdate) && written + reply.maxAge <= EpochOf(s.nextUpdate)
  {
    LookupRefines(b, key, prefs);
    var payload := LookupPreferred(b, key, prefs).value;
    var id := ChosenId(ContentOf(b), key, prefs);
    assert PayloadWithin(read, payload, b.manifest.window.nextUpdateMin, U64_MAX);
    forall s | s in read(payload).value.singles
      ensures b.manifest.window.nextUpdateMin <= EpochOf(s.nextUpdate)
    {
      assert ExpiresIn(s, b.manifest.window.nextUpdateMin, U64_MAX);
    }
  }

  lemma {:induction false} ChosenId(m: Content, key: Digest, prefs: seq<u16>) returns (id: EntryId)
    requires Choice(m, key, prefs).Some?
    ensures id in m && m[id] == Choice(m, key, prefs)
  {
    if prefs == [] {
      id := EntryId(key, DEFAULT_DISCRIMINATOR);
    } else if EntryId(key, prefs[0]) in m {
      id := EntryId(key, prefs[0]);
    } else {
      id := ChosenId(m, key, prefs[1..]);
    }
  }

  // ---- live signing -------------------------------------------------------------------------------

  datatype CertWindow = CertWindow(notBefore: u64, notAfter: u64)

  /** The window a live answer is signed with, or nothing when it may not be signed now. */
  method LiveWindow(now: u64, sourceThis: u64, sourceNext: u64, cert: Option<CertWindow>)
    returns (r: Option<(u64, u64)>)
    ensures r.Some? <==> && sourceThis <= now < sourceNext
                         && (cert.Some? ==> cert.value.notBefore <= now < cert.value.notAfter)
    ensures r.Some? ==> && r.value.0 == sourceThis && r.value.0 <= now < r.value.1 <= sourceNext
                        && (cert.Some? ==> r.value.1 <= cert.value.notAfter)
                        && (r.value.1 == sourceNext || (cert.Some? && r.value.1 == cert.value.notAfter))
  {
    if sourceThis > now || sourceNext <= now || sourceNext <= sourceThis {
      return None;
    }
    var next := sourceNext;
    if cert.Some? {
      if now < cert.value.notBefore || now >= cert.value.notAfter {
        return None;
      }
      next := Min(next, cert.value.notAfter);
    }
    r := Some((sourceThis, next));
  }

  /** The source end handed to the live signer for a pre-signed status. */
  function LiveSourceEnd(single: P.SingleResponse, w: Window, now: u64, validitySecs: u64): int {
    var next := EpochOf(single.nextUpdate);
    var capped := if next <= w.nextUpdateMin then next else w.nextUpdateMin;
    if capped <= SaturatingAdd(now, validitySecs) then capped else SaturatingAdd(now, validitySecs)
  }

  /** Live answers never outlast the status they repeat, the bundle's window, or the certificate. */
  method LiveAnswer(single: P.SingleResponse, w: Window, now: u64, validitySecs: u64, cert: Option<CertWindow>)
    returns (r: Option<(u64, u64)>)
    requires 0 <= EpochOf(single.thisUpdate) < U64_LIMIT && 0 <= EpochOf(single.nextUpdate) < U64_LIMIT
    ensures r.Some? ==> && r.value.0 == EpochOf(single.thisUpdate) && r.value.0 <= now < r.value.1
                        && r.value.1 <= EpochOf(single.nextUpdate) && r.value.1 <= w.nextUpdateMin
                        && r.value.1 <= now + validitySecs
                        && (cert.Some? ==> cert.value.notBefore <= now && r.value.1 <= cert.value.notAfter)
    // it answers whenever it may, and for as long as it may
    ensures r.Some? <==> && EpochOf(single.thisUpdate) <= now < EpochOf(single.nextUpdate)
                         && now < w.nextUpdateMin && validitySecs > 0
                         && (cert.Some? ==> cert.value.notBefore <= now < cert.value.notAfter)
    ensures r.Some? ==> || r.value.1 == EpochOf(single.nextUpdate) || r.value.1 == w.nextUpdateMin
                        || r.value.1 == now + validitySecs || (cert.Some? && r.value.1 == cert.value.notAfter)
  {
    r := LiveWindow(now, EpochOf(single.thisUpdate), LiveSourceEnd(single, w, now, validitySecs), cert);
  }

  // ---- a serial with no entry -----------------------------------------------------------------------

  /** The delegated key of a scope; `signs` is whether the signing operation itself succeeds. */
  datatype LiveSigner = LiveSigner(validitySecs: u64, cert: Option<CertWindow>, signs: bool)

  /** The scope a CertID belongs to; `forwards` is whether a forwarding address and client exist. */
  datatype MissScope = MissScope(authoritative: bool, window: Window, signer: Option<LiveSigner>, forwards: bool)

  datatype MissReply = Unauthorized | Forwarded | SignedUnknown(thisUpdate: u64, nextUpdate: u64)

  /** How long the signer would let an answer given now live. */
  function UnknownEnd(now: u64, signer: LiveSigner): int {
    if signer.cert.Some? && signer.cert.value.notAfter <= now + signer.validitySecs
    then signer.cert.value.notAfter else now + signer.validitySecs
  }

  /** The key may be used now and the validity does not overflow. */
  predicate CanSign(now: u64, signer: LiveSigner) {
    && signer.signs && 0 < signer.validitySecs && now + signer.validitySecs < U64_LIMIT
    && (signer.cert.Some? ==> signer.cert.value.notBefore <= now < signer.cert.value.notAfter)
  }

  /** The answer to a request for a serial that no bundle holds. */
  method ReplyToMiss(hasNonce: bool, scope: Option<MissScope>, now: u64) returns (r: MissReply)
    ensures r.SignedUnknown? <==> && hasNonce && scope.Some? && scope.value.authoritative
                                  && scope.value.signer.Some? && CanSign(now, scope.value.signer.value)
    ensures r.SignedUnknown? ==> r.thisUpdate == now && r.nextUpdate == UnknownEnd(now, scope.value.signer.value)
    ensures r.Forwarded? <==> && hasNonce && scope.Some? && scope.value.authoritative
                              && scope.value.signer.None? && scope.value.forwards
    // whether it stays inside the window of the bundle that had no entry
    ensures r.SignedUnknown? ==>
              (InsideWindow(r, scope.value.window) <==> UnknownFits(now, scope.value.signer.value, scope.value.window))
  {
    r := Unauthorized;
    if hasNonce && scope.Some? && scope.value.authoritative {
      if scope.value.signer.Some? {
        var signer := scope.value.signer.value;
        if now + signer.validitySecs < U64_LIMIT {
          var times := LiveWindow(now, now, now + signer.validitySecs, signer.cert);
          if times.Some? && signer.signs {
            r := SignedUnknown(times.value.0, times.value.1);
          }
        }
      } else if scope.value.forwards {
        r := Forwarded;
      }
    }
  }

  predicate InsideWindow(r: MissReply, w: Window)
    requires r.SignedUnknown?
  {
    w.thisUpdateMin <= r.thisUpdate && r.nextUpdate <= w.nextUpdateMin
  }

  /** Known before the call: the window is open, and the signer's validity or certificate ends with it. */
  predicate UnknownFits(now: u64, signer: LiveSigner, w: Window) {
    w.thisUpdateMin <= now && UnknownEnd(now, signer) <= w.nextUpdateMin
  }

  /**
   The window is never looked at: once it has closed, and `lookup` answers with
   "try later", an unknown serial of the same scope still gets a signed answer.
   */
  lemma UnknownOutlastsWindow(w: Window, payload: Bytes, scaled: u64) returns (scope: MissScope, now: u64)
    requires w.nextUpdateMin < U64_MAX
    ensures scope == MissScope(true, w, Some(LiveSigner(1, None, true)), false) && now == w.nextUpdateMin
    ensures Serve(w, payload, now, now, scaled) == TryLater
    ensures CanSign(now, scope.signer.value) && !UnknownFits(now, scope.signer.value, w)
  {
    scope, now := MissScope(true, w, Some(LiveSigner(1, None, true)), false), w.nextUpdateMin;
  }
}
