/**
 High-water marks: the persisted anti-rollback record and the checks a bundle
 must pass before it may advance it (crates/hoike-core/src/state.rs).
 */
module Marks {
  import opened Wrappers
  import opened Bytes

  type Label = string

  /** One CA scope of a manifest, as far as routing and rollback care. */
  datatype Scope = Scope(nameHash: Bytes, keyHash: Bytes, epoch: u64)

  /** What the store reads of a bundle; `digest` is the SHA-256 of its manifest bytes. */
  datatype Info = Info(producer: string, scopes: seq<Scope>, prev: Option<Digest>, digest: Digest)

  /** The pair a mark is kept for; `KeyText` is its spelling in state.json. */
  datatype ScopeId = ScopeId(producer: string, keyHash: Bytes)

  /** The contents of state.json; `active` names each label's snapshot by content digest. */
  datatype Persisted = Persisted(
    marks: map<ScopeId, u64>,
    digests: map<ScopeId, Bytes>,
    active: map<Label, Digest>)

  const FRESH := Persisted(map[], map[], map[])

  const MAX_EPOCH_JUMP: u64 := 10_000

  datatype Refusal = EpochRollback | EpochJumpTooLarge | ForkDetected

  // ---- keys ----------------------------------------------------------------

  function KeyText(k: ScopeId): string {
    k.producer + ":" + Hex(k.keyHash)
  }

  /** Hexadecimal text holds no colon, so the last colon separates the two parts. */
  lemma KeyTextInjective(j: ScopeId, k: ScopeId)
    requires KeyText(j) == KeyText(k)
    ensures j == k
  {
    var p, q, a, b := j.producer, k.producer, j.keyHash, k.keyHash;
    var s, t := KeyText(j), KeyText(k);
    assert s[|p|] == ':' && t[|q|] == ':';
    assert forall x :: |p| < x < |s| ==> s[x] == Hex(a)[x - |p| - 1];
    assert forall x :: |q| < x < |t| ==> t[x] == Hex(b)[x - |q| - 1];
    assert |p| == |q|;
    assert p == s[..|p|] && q == t[..|q|];
    assert Hex(a) == s[|p| + 1..] && Hex(b) == t[|q| + 1..];
    HexInjective(a, b);
  }

  function KeyAt(i: Info, n: nat): ScopeId
    requires n < |i.scopes|
  {
    ScopeId(i.producer, i.scopes[n].keyHash)
  }

  // ---- well-formedness and order --------------------------------------------

  /** Marks and digests are written as pairs (state.rs:347-377). */
  predicate Paired(p: Persisted) {
    p.marks.Keys == p.digests.Keys && forall k :: k in p.digests ==> |p.digests[k]| == 32
  }

  /**
   `q` never forgets what `p` recorded: marks only rise, and an unchanged mark
   keeps its manifest digest.
   */
  ghost predicate Extends(p: Persisted, q: Persisted) {
    forall k :: k in p.marks ==>
      && k in q.marks
      && p.marks[k] <= q.marks[k]
      && (p.marks[k] == q.marks[k] ==> DigestOf(p, k) == DigestOf(q, k))
  }

  lemma ExtendsTransitive(p: Persisted, q: Persisted, r: Persisted)
    requires Extends(p, q) && Extends(q, r)
    ensures Extends(p, r)
  {
  }

  /** `get_manifest_digest`: a recorded value of the wrong length reads as absent. */
  function DigestOf(p: Persisted, k: ScopeId): Option<Digest> {
    if k in p.digests && |p.digests[k]| == 32 then Some(p.digests[k]) else None
  }

  // ---- the two admission checks ----------------------------------------------

  function ScopeVerdict(p: Persisted, i: Info, n: nat): Option<Refusal>
    requires n < |i.scopes|
  {
    var k, e := KeyAt(i, n), i.scopes[n].epoch;
    if k !in p.marks then None
    else if e < p.marks[k] then Some(EpochRollback)
    else if e == p.marks[k] && DigestOf(p, k) != Some(i.digest) then Some(EpochRollback)
    else if e - p.marks[k] > MAX_EPOCH_JUMP then Some(EpochJumpTooLarge)
    else None
  }

  predicate RollbackOk(p: Persisted, i: Info) {
    forall n :: 0 <= n < |i.scopes| ==> ScopeVerdict(p, i, n).None?
  }

  predicate ScopeContinues(p: Persisted, i: Info, n: nat)
    requires n < |i.scopes| && i.prev.Some?
  {
    var k := KeyAt(i, n);
    match DigestOf(p, k)
    case None => true
    case Some(recorded) =>
      || (k in p.marks && p.marks[k] == i.scopes[n].epoch && i.digest == recorded)
      || i.prev.value == recorded
  }

  predicate ContinuityOk(p: Persisted, i: Info) {
    i.prev.Some? ==> forall n :: 0 <= n < |i.scopes| ==> ScopeContinues(p, i, n)
  }

  function AdvanceOne(p: Persisted, key: ScopeId, epoch: u64, digest: Digest): Persisted {
    if key !in p.marks || epoch > p.marks[key]
    then p.(marks := p.marks[key := epoch], digests := p.digests[key := digest])
    else p
  }

  /** The marks after the first `n` scopes of a bundle have advanced them. */
  function AdvanceFirst(p: Persisted, i: Info, n: nat): Persisted
    requires n <= |i.scopes|
  {
    if n == 0 then p
    else AdvanceOne(AdvanceFirst(p, i, n - 1), KeyAt(i, n - 1), i.scopes[n - 1].epoch, i.digest)
  }

  function AdvanceAll(p: Persisted, i: Info): Persisted {
    AdvanceFirst(p, i, |i.scopes|)
  }

  function Admit(p: Persisted, i: Info): Option<Persisted> {
    if RollbackOk(p, i) && ContinuityOk(p, i) then Some(AdvanceAll(p, i)) else None
  }

  /** A reload admits its bundles one after the other against the running candidate. */
  function AdmitAll(p: Persisted, bundles: seq<Info>): Option<Persisted> {
    if bundles == [] then Some(p)
    else
      match AdmitAll(p, bundles[..|bundles| - 1])
      case None => None
      case Some(q) => Admit(q, bundles[|bundles| - 1])
  }

  // ---- what advancing does ---------------------------------------------------

  /** Where a mark of `q` comes from: untouched in `p`, or raised to a scope of `i`. */
  ghost predicate FromScope(p: Persisted, i: Info, q: Persisted, k: ScopeId)
    requires k in q.marks
  {
    || (k in p.marks && q.marks[k] == p.marks[k] && DigestOf(q, k) == DigestOf(p, k))
    || (DigestOf(q, k) == Some(i.digest)
        && exists n :: 0 <= n < |i.scopes| && KeyAt(i, n) == k && q.marks[k] == i.scopes[n].epoch
                       && (k in p.marks ==> p.marks[k] < i.scopes[n].epoch))
  }

  lemma AdvanceOneExtends(p: Persisted, key: ScopeId, epoch: u64, digest: Digest)
    ensures var q := AdvanceOne(p, key, epoch, digest);
            && q.active == p.active
            && (Paired(p) ==> Paired(q))
            && Extends(p, q)
            && key in q.marks && epoch <= q.marks[key]
  {
  }

  lemma {:induction false} AdvanceFirstExtends(p: Persisted, i: Info, n: nat)
    requires n <= |i.scopes|
    ensures var q := AdvanceFirst(p, i, n);
            && q.active == p.active
            && (Paired(p) ==> Paired(q))
            && Extends(p, q)
            && (forall m :: 0 <= m < n ==> KeyAt(i, m) in q.marks && i.scopes[m].epoch <= q.marks[KeyAt(i, m)])
  {
    if n > 0 {
      var r := AdvanceFirst(p, i, n - 1);
      AdvanceFirstExtends(p, i, n - 1);
      AdvanceOneExtends(r, KeyAt(i, n - 1), i.scopes[n - 1].epoch, i.digest);
      ExtendsTransitive(p, r, AdvanceFirst(p, i, n));
    }
  }

  lemma {:induction false} AdvanceFirstFrom(p: Persisted, i: Info, n: nat, k: ScopeId)
    requires n <= |i.scopes| && k in AdvanceFirst(p, i, n).marks
    ensures FromScope(p, i, AdvanceFirst(p, i, n), k)
  {
    if n > 0 {
      var r, q := AdvanceFirst(p, i, n - 1), AdvanceFirst(p, i, n);
      if q.marks != r.marks && KeyAt(i, n - 1) == k {
        AdvanceFirstExtends(p, i, n - 1);
        assert q.marks[k] == i.scopes[n - 1].epoch;
      } else {
        AdvanceFirstFrom(p, i, n - 1, k);
      }
    }
  }

  /** Every key of an admitted bundle, and how far one bundle can move a mark. */
  lemma AdmitSpec(p: Persisted, i: Info)
    requires Admit(p, i).Some?
    ensures var q := Admit(p, i).value;
            && q.active == p.active
            && (Paired(p) ==> Paired(q))
            && Extends(p, q)
            && (forall k :: k in p.marks ==> q.marks[k] <= p.marks[k] + MAX_EPOCH_JUMP)
            && (forall n :: 0 <= n < |i.scopes| ==> KeyAt(i, n) in q.marks && i.scopes[n].epoch <= q.marks[KeyAt(i, n)])
            && (forall k :: k in q.marks ==> FromScope(p, i, q, k))
  {
    AdvanceFirstExtends(p, i, |i.scopes|);
    var q := Admit(p, i).value;
    forall k | k in q.marks
      ensures FromScope(p, i, q, k)
    {
      AdvanceFirstFrom(p, i, |i.scopes|, k);
    }
    forall k | k in p.marks
      ensures q.marks[k] <= p.marks[k] + MAX_EPOCH_JUMP
    {
      assert FromScope(p, i, q, k);
      if q.marks[k] != p.marks[k] {
        var n :| 0 <= n < |i.scopes| && KeyAt(i, n) == k && q.marks[k] == i.scopes[n].epoch;
        assert ScopeVerdict(p, i, n).None?;
      }
    }
  }

  // ---- admission, written out ------------------------------------------------------

  /** The recorded manifest digest under this key, as 32 bytes. */
  predicate Holds(digests: map<ScopeId, Bytes>, k: ScopeId) {
    k in digests && |digests[k]| == 32
  }

  /** No older epoch, no jump past 10,000, and at an equal epoch only the recorded manifest. */
  predicate NotRolledBack(p: Persisted, k: ScopeId, epoch: u64, digest: Digest) {
    k in p.marks ==>
      && p.marks[k] <= epoch && epoch - p.marks[k] <= 10_000
      && (epoch == p.marks[k] ==> Holds(p.digests, k) && p.digests[k] == digest)
  }

  /** A named predecessor is the recorded manifest, unless this very bundle is recorded already. */
  predicate NotForked(p: Persisted, k: ScopeId, epoch: u64, digest: Digest, prev: Option<Digest>) {
    prev.Some? && Holds(p.digests, k) ==>
      || p.digests[k] == prev.value
      || (k in p.marks && p.marks[k] == epoch && p.digests[k] == digest)
  }

  /** The verdict on one scope: too old, too far, or neither. */
  lemma VerdictExactly(p: Persisted, i: Info, n: nat)
    requires n < |i.scopes|
    ensures var k, e := ScopeId(i.producer, i.scopes[n].keyHash), i.scopes[n].epoch;
            && (ScopeVerdict(p, i, n).None? <==> NotRolledBack(p, k, e, i.digest))
            && (ScopeVerdict(p, i, n) == Some(EpochJumpTooLarge) <==>
                  k in p.marks && p.marks[k] <= e && e - p.marks[k] > 10_000)
            && (ScopeVerdict(p, i, n) == Some(EpochRollback) <==>
                  && k in p.marks
                  && (e < p.marks[k] || (e == p.marks[k] && !(Holds(p.digests, k) && p.digests[k] == i.digest))))
  {
    assert KeyAt(i, n) == ScopeId(i.producer, i.scopes[n].keyHash);
  }

  lemma ContinuityExactly(p: Persisted, i: Info)
    ensures ContinuityOk(p, i) <==>
            forall n :: 0 <= n < |i.scopes| ==>
              NotForked(p, ScopeId(i.producer, i.scopes[n].keyHash), i.scopes[n].epoch, i.digest, i.prev)
  {
    forall n | 0 <= n < |i.scopes|
      ensures i.prev.Some? ==>
                (NotForked(p, ScopeId(i.producer, i.scopes[n].keyHash), i.scopes[n].epoch, i.digest, i.prev)
                 <==> ScopeContinues(p, i, n))
    {
      assert KeyAt(i, n) == ScopeId(i.producer, i.scopes[n].keyHash);
    }
  }

  /** Exactly which bundles are admitted, in terms of the recorded marks and digests. */
  lemma AdmitExactly(p: Persisted, i: Info)
    ensures Admit(p, i).Some? <==>
            forall n :: 0 <= n < |i.scopes| ==>
              var k := ScopeId(i.producer, i.scopes[n].keyHash);
              NotRolledBack(p, k, i.scopes[n].epoch, i.digest) && NotForked(p, k, i.scopes[n].epoch, i.digest, i.prev)
  {
    ContinuityExactly(p, i);
    forall n | 0 <= n < |i.scopes|
      ensures ScopeVerdict(p, i, n).None?
          <==> NotRolledBack(p, ScopeId(i.producer, i.scopes[n].keyHash), i.scopes[n].epoch, i.digest)
    {
      VerdictExactly(p, i, n);
    }
  }

  /** A fork is refused: an admitted bundle that names a predecessor names what is recorded, or is recorded itself. */
  lemma ForksAreRefused(p: Persisted, i: Info, x: Digest, n: nat)
    requires Admit(p, i).Some? && i.prev == Some(x) && n < |i.scopes|
    requires Holds(p.digests, ScopeId(i.producer, i.scopes[n].keyHash))
    ensures var k := ScopeId(i.producer, i.scopes[n].keyHash);
            || p.digests[k] == x
            || (k in p.marks && p.marks[k] == i.scopes[n].epoch && p.digests[k] == i.digest)
  {
    AdmitExactly(p, i);
  }

  /** The true successor is admitted: later epochs within the jump limit, naming what is recorded. */
  lemma SuccessorsAreAdmitted(p: Persisted, i: Info, x: Digest)
    requires i.prev == Some(x)
    requires forall n :: 0 <= n < |i.scopes| ==>
               var k := ScopeId(i.producer, i.scopes[n].keyHash);
               && (k in p.marks ==> p.marks[k] < i.scopes[n].epoch && i.scopes[n].epoch - p.marks[k] <= 10_000)
               && (Holds(p.digests, k) ==> p.digests[k] == x)
    ensures Admit(p, i).Some?
  {
    AdmitExactly(p, i);
  }

  /** Some bundle before `b` covers this key and has this manifest. */
  predicate RecordedEarlier(bundles: seq<Info>, b: nat, k: ScopeId, x: Digest)
    requires b <= |bundles|
  {
    exists a :: 0 <= a < b && Covering(bundles[a], k) && bundles[a].digest == x
  }

  predicate Covering(i: Info, k: ScopeId) {
    exists n :: 0 <= n < |i.scopes| && ScopeId(i.producer, i.scopes[n].keyHash) == k
  }

  /** Bundle `b` is what `q` records for `k`, and follows what was recorded before it. */
  predicate FollowsRecorded(p: Persisted, bundles: seq<Info>, q: Persisted, k: ScopeId, b: nat)
    requires b < |bundles|
  {
    && Covering(bundles[b], k) && DigestOf(q, k) == Some(bundles[b].digest)
    && (bundles[b].prev.Some? && DigestOf(p, k).Some? ==>
          DigestOf(p, k) == bundles[b].prev || RecordedEarlier(bundles, b, k, bundles[b].prev.value))
  }

  /** A key an accepted reload moves is left at a bundle that follows what was recorded, or one loaded before it. */
  lemma {:induction false} ReloadLinks(p: Persisted, bundles: seq<Info>, k: ScopeId)
    requires Paired(p) && AdmitAll(p, bundles).Some? && k in AdmitAll(p, bundles).value.marks
    ensures var q := AdmitAll(p, bundles).value;
            || (k in p.marks && q.marks[k] == p.marks[k] && DigestOf(q, k) == DigestOf(p, k))
            || exists b :: 0 <= b < |bundles| && FollowsRecorded(p, bundles, q, k, b)
  {
    if bundles != [] {
      var init, last := bundles[..|bundles| - 1], bundles[|bundles| - 1];
      var r, q := AdmitAll(p, init).value, AdmitAll(p, bundles).value;
      AdmitSpec(r, last);
      assert FromScope(r, last, q, k);
      if k in r.marks {
        ReloadLinks(p, init, k);
      }
      if k in r.marks && q.marks[k] == r.marks[k] && DigestOf(q, k) == DigestOf(r, k) {
        if exists b :: 0 <= b < |init| && FollowsRecorded(p, init, r, k, b) {
          var b :| 0 <= b < |init| && FollowsRecorded(p, init, r, k, b);
          LinksCarryOver(p, init, last, r, q, k, b);
          assert bundles == init + [last];
        }
      } else {
        LastLinks(p, init, last, k);
        assert bundles == init + [last];
      }
    }
  }

  lemma LinksCarryOver(p: Persisted, init: seq<Info>, last: Info, r: Persisted, q: Persisted, k: ScopeId, b: nat)
    requires b < |init| && FollowsRecorded(p, init, r, k, b) && DigestOf(q, k) == DigestOf(r, k)
    ensures FollowsRecorded(p, init + [last], q, k, b)
  {
    var bundles := init + [last];
    assert forall a :: 0 <= a < |init| ==> bundles[a] == init[a];
    assert bundles[..|bundles| - 1] == init;
  }

  /** The bundle that moved the key: what it names is what the running record held. */
  lemma LastLinks(p: Persisted, init: seq<Info>, last: Info, k: ScopeId)
    requires Paired(p) && AdmitAll(p, init).Some? && Admit(AdmitAll(p, init).value, last).Some?
    requires var r, q := AdmitAll(p, init).value, Admit(AdmitAll(p, init).value, last).value;
             && k in q.marks && FromScope(r, last, q, k)
             && !(k in r.marks && q.marks[k] == r.marks[k] && DigestOf(q, k) == DigestOf(r, k))
             && (k in r.marks ==>
                   || (k in p.marks && r.marks[k] == p.marks[k] && DigestOf(r, k) == DigestOf(p, k))
                   || exists b :: 0 <= b < |init| && FollowsRecorded(p, init, r, k, b))
    ensures FollowsRecorded(p, init + [last], Admit(AdmitAll(p, init).value, last).value, k, |init|)
  {
    var r, bundles := AdmitAll(p, init).value, init + [last];
    var n :| 0 <= n < |last.scopes| && KeyAt(last, n) == k && (k in r.marks ==> r.marks[k] < last.scopes[n].epoch);
    AdmitAllSpec(p, init);
    assert forall a :: 0 <= a < |init| ==> bundles[a] == init[a];
    if last.prev.Some? && DigestOf(p, k).Some? {
      AdmitExactly(r, last);
      assert NotForked(r, k, last.scopes[n].epoch, last.digest, last.prev);
      assert DigestOf(r, k) == last.prev;
      if DigestOf(r, k) != DigestOf(p, k) {
        var b :| 0 <= b < |init| && FollowsRecorded(p, init, r, k, b);
        assert Covering(bundles[b], k) && bundles[b].digest == last.prev.value;
      }
    }
  }

  lemma {:induction false} AdmitAllPrefix(p: Persisted, bundles: seq<Info>, n: nat)
    requires AdmitAll(p, bundles).Some? && n <= |bundles|
    ensures AdmitAll(p, bundles[..n]).Some?
    ensures Extends(AdmitAll(p, bundles[..n]).value, AdmitAll(p, bundles).value)
    decreases |bundles|
  {
    if n == |bundles| {
      assert bundles[..n] == bundles;
    } else {
      var init := bundles[..|bundles| - 1];
      AdmitAllPrefix(p, init, n);
      assert init[..n] == bundles[..n];
      AdmitSpec(AdmitAll(p, init).value, bundles[|bundles| - 1]);
      ExtendsTransitive(AdmitAll(p, init[..n]).value, AdmitAll(p, init).value, AdmitAll(p, bundles).value);
    }
  }

  /** A reload never lowers a mark; each bundle moves an existing one by at most the jump limit. */
  lemma {:induction false} AdmitAllSpec(p: Persisted, bundles: seq<Info>)
    requires AdmitAll(p, bundles).Some?
    ensures var q := AdmitAll(p, bundles).value;
            && q.active == p.active
            && (Paired(p) ==> Paired(q))
            && Extends(p, q)
            && (forall k :: k in p.marks ==> q.marks[k] <= p.marks[k] + |bundles| * 10_000)
  {
    if bundles != [] {
      var init, last := bundles[..|bundles| - 1], bundles[|bundles| - 1];
      AdmitAllSpec(p, init);
      AdmitSpec(AdmitAll(p, init).value, last);
    }
  }

  /** Every loaded scope ends at or below its mark. */
  lemma AdmitAllCovers(p: Persisted, bundles: seq<Info>, b: nat, n: nat)
    requires AdmitAll(p, bundles).Some? && b < |bundles| && n < |bundles[b].scopes|
    ensures var q := AdmitAll(p, bundles).value;
            KeyAt(bundles[b], n) in q.marks && bundles[b].scopes[n].epoch <= q.marks[KeyAt(bundles[b], n)]
  {
    AdmitAllPrefix(p, bundles, b + 1);
    AdmitAllPrefix(p, bundles, b);
    assert bundles[..b + 1][..b] == bundles[..b];
    AdmitSpec(AdmitAll(p, bundles[..b]).value, bundles[b]);
  }

  /** Scopes sharing a key share an epoch and a manifest. */
  ghost predicate AgreeOnKeys(bundles: seq<Info>) {
    forall a, b, m, n ::
      && 0 <= a < |bundles| && 0 <= b < |bundles|
      && 0 <= m < |bundles[a].scopes| && 0 <= n < |bundles[b].scopes|
      && KeyAt(bundles[a], m) == KeyAt(bundles[b], n) ==>
        bundles[a].scopes[m].epoch == bundles[b].scopes[n].epoch && bundles[a].digest == bundles[b].digest
  }

  /** Where a mark comes from after a whole reload. */
  lemma {:induction false} AdmitAllFrom(p: Persisted, bundles: seq<Info>, k: ScopeId)
    requires AdmitAll(p, bundles).Some? && k in AdmitAll(p, bundles).value.marks
    ensures var q := AdmitAll(p, bundles).value;
            || (k in p.marks && q.marks[k] == p.marks[k])
            || exists b, n :: 0 <= b < |bundles| && 0 <= n < |bundles[b].scopes|
                              && KeyAt(bundles[b], n) == k && bundles[b].scopes[n].epoch == q.marks[k]
  {
    if bundles != [] {
      var init, last := bundles[..|bundles| - 1], bundles[|bundles| - 1];
      var r, q := AdmitAll(p, init).value, AdmitAll(p, bundles).value;
      AdmitSpec(r, last);
      assert FromScope(r, last, q, k);
      if k in r.marks && q.marks[k] == r.marks[k] {
        AdmitAllFrom(p, init, k);
        assert forall c :: 0 <= c < |init| ==> init[c] == bundles[c];
      } else {
        var n :| 0 <= n < |last.scopes| && KeyAt(last, n) == k && q.marks[k] == last.scopes[n].epoch;
        assert bundles[|bundles| - 1].scopes[n].epoch == q.marks[k];
      }
    }
  }

  /**
   An accepted reload keeps every existing mark within the jump limit if and only
   if each scope is within the limit of the mark the reload started from; the code
   compares it with the running candidate instead.
   */
  lemma ReloadJumpExactly(p: Persisted, bundles: seq<Info>)
    requires AdmitAll(p, bundles).Some?
    ensures (forall k :: k in p.marks ==>
               var q := AdmitAll(p, bundles).value; k in q.marks && q.marks[k] <= p.marks[k] + MAX_EPOCH_JUMP)
            <==> (forall b, n :: 0 <= b < |bundles| && 0 <= n < |bundles[b].scopes| && KeyAt(bundles[b], n) in p.marks
                    ==> bundles[b].scopes[n].epoch <= p.marks[KeyAt(bundles[b], n)] + MAX_EPOCH_JUMP)
  {
    AdmitAllSpec(p, bundles);
    forall b, n | 0 <= b < |bundles| && 0 <= n < |bundles[b].scopes|
      ensures var q := AdmitAll(p, bundles).value;
              KeyAt(bundles[b], n) in q.marks && bundles[b].scopes[n].epoch <= q.marks[KeyAt(bundles[b], n)]
    {
      AdmitAllCovers(p, bundles, b, n);
    }
    forall k | k in p.marks
      ensures var q := AdmitAll(p, bundles).value;
              || q.marks[k] == p.marks[k]
              || exists b, n :: 0 <= b < |bundles| && 0 <= n < |bundles[b].scopes|
                                && KeyAt(bundles[b], n) == k && bundles[b].scopes[n].epoch == q.marks[k]
    {
      AdmitAllFrom(p, bundles, k);
    }
  }

  /** Which holds whenever the loaded bundles agree on the keys they share. */
  lemma {:induction false} AgreeingJump(p: Persisted, bundles: seq<Info>, k: ScopeId)
    requires AdmitAll(p, bundles).Some? && AgreeOnKeys(bundles)
    requires k in p.marks
    ensures k in AdmitAll(p, bundles).value.marks
    ensures AdmitAll(p, bundles).value.marks[k] <= p.marks[k] + MAX_EPOCH_JUMP
  {
    if bundles != [] {
      var init, last := bundles[..|bundles| - 1], bundles[|bundles| - 1];
      assert forall b :: 0 <= b < |init| ==> init[b] == bundles[b];
      AgreeingJump(p, init, k);
      var r, q := AdmitAll(p, init).value, AdmitAll(p, bundles).value;
      AdmitSpec(r, last);
      assert FromScope(r, last, q, k);
      AdmitAllFrom(p, init, k);
    }
  }

  /**
   Otherwise the limit is per bundle: two labels covering one key move its mark
   twice as far in a single reload, and the first of them is then served below the
   mark.
   */
  lemma OverlappingJump()
    ensures exists p: Persisted, bundles: seq<Info>, k: ScopeId ::
              && Paired(p) && k in p.marks && |bundles| == 2
              && AdmitAll(p, bundles).Some?
              && k in AdmitAll(p, bundles).value.marks
              && AdmitAll(p, bundles).value.marks[k] == p.marks[k] + 2 * MAX_EPOCH_JUMP
              && |bundles[0].scopes| == 1 && KeyAt(bundles[0], 0) == k
              && bundles[0].scopes[0].epoch < AdmitAll(p, bundles).value.marks[k]
  {
    var z: Digest := seq(32, i => 0);
    var a, b := Info("p", [Scope([], [], 10_000)], None, z), Info("p", [Scope([], [], 20_000)], None, z);
    var k := ScopeId("p", []);
    var p := Persisted(map[k := 0], map[k := z], map[]);
    assert KeyAt(a, 0) == k && KeyAt(b, 0) == k;
    TwoSteps(p, a, b, k, z);
    var bundles := [a, b];
    assert Paired(p) && |bundles| == 2 && |bundles[0].scopes| == 1 && KeyAt(bundles[0], 0) == k;
    assert AdmitAll(p, bundles).value.marks[k] == p.marks[k] + 2 * MAX_EPOCH_JUMP;
  }

  lemma TwoSteps(p: Persisted, a: Info, b: Info, k: ScopeId, z: Digest)
    requires p == Persisted(map[k := 0], map[k := z], map[])
    requires a == Info(k.producer, [Scope([], k.keyHash, 10_000)], None, z)
    requires b == Info(k.producer, [Scope([], k.keyHash, 20_000)], None, z)
    ensures AdmitAll(p, [a, b]).Some? && AdmitAll(p, [a, b]).value.marks == map[k := 20_000]
  {
    assert KeyAt(a, 0) == k && KeyAt(b, 0) == k;
    var p1 := Persisted(map[k := 10_000], map[k := z], map[]);
    assert AdvanceFirst(p, a, 1) == AdvanceOne(AdvanceFirst(p, a, 0), k, 10_000, z) == p1;
    assert Admit(p, a) == Some(p1);
    assert AdvanceFirst(p1, b, 1) == AdvanceOne(AdvanceFirst(p1, b, 0), k, 20_000, z);
    assert p1.marks[k := 20_000] == map[k := 20_000];
    assert Admit(p1, b).Some?;
    assert [a, b][..1] == [a] && [a][..0] == [];
    assert AdmitAll(p, []) == Some(p) && AdmitAll(p, [a]) == Some(p1) && AdmitAll(p, [a, b]) == Admit(p1, b);
  }

  // ---- agreement between a working set and its marks ---------------------------

  /** The record holds exactly this scope: same epoch, same manifest. */
  predicate ScopeRecorded(p: Persisted, i: Info, n: nat)
    requires n < |i.scopes|
  {
    var k := KeyAt(i, n);
    k in p.marks && p.marks[k] == i.scopes[n].epoch && DigestOf(p, k) == Some(i.digest)
  }

  ghost predicate Recorded(p: Persisted, i: Info) {
    forall n :: 0 <= n < |i.scopes| ==> ScopeRecorded(p, i, n)
  }

  /** The last bundle of an accepted reload is recorded once its own scopes agree. */
  lemma LastBundleRecorded(r: Persisted, i: Info, n: nat)
    requires Admit(r, i).Some? && n < |i.scopes|
    requires forall m :: 0 <= m < |i.scopes| && KeyAt(i, m) == KeyAt(i, n) ==> i.scopes[m].epoch == i.scopes[n].epoch
    ensures ScopeRecorded(Admit(r, i).value, i, n)
  {
    AdmitSpec(r, i);
    assert FromScope(r, i, Admit(r, i).value, KeyAt(i, n));
    assert ScopeVerdict(r, i, n).None?;
  }

  /** An agreeing later bundle does not disturb a recorded one. */
  lemma EarlierBundleRecorded(r: Persisted, i: Info, e: Info, n: nat)
    requires Admit(r, i).Some? && n < |e.scopes| && ScopeRecorded(r, e, n)
    requires forall m :: 0 <= m < |i.scopes| && KeyAt(i, m) == KeyAt(e, n) ==> i.scopes[m].epoch == e.scopes[n].epoch
    ensures ScopeRecorded(Admit(r, i).value, e, n)
  {
    AdmitSpec(r, i);
    assert FromScope(r, i, Admit(r, i).value, KeyAt(e, n));
  }

  lemma {:induction false} AgreeingKeysRecorded(p: Persisted, bundles: seq<Info>, b: nat, n: nat)
    requires AdmitAll(p, bundles).Some? && AgreeOnKeys(bundles)
    requires b < |bundles| && n < |bundles[b].scopes|
    ensures ScopeRecorded(AdmitAll(p, bundles).value, bundles[b], n)
    decreases |bundles|
  {
    var init, last := bundles[..|bundles| - 1], bundles[|bundles| - 1];
    var r := AdmitAll(p, init).value;
    if b < |init| {
      assert forall c :: 0 <= c < |init| ==> init[c] == bundles[c];
      AgreeingKeysRecorded(p, init, b, n);
      EarlierBundleRecorded(r, last, bundles[b], n);
    } else {
      LastBundleRecorded(r, last, n);
    }
  }

  /**
   After an accepted reload every loaded scope is exactly what the marks record
   if and only if scopes sharing a key agree on epoch and manifest.
   */
  lemma WorkingSetRecorded(p: Persisted, bundles: seq<Info>)
    requires AdmitAll(p, bundles).Some?
    ensures AgreeOnKeys(bundles) <==>
            forall b :: 0 <= b < |bundles| ==> Recorded(AdmitAll(p, bundles).value, bundles[b])
  {
    var q := AdmitAll(p, bundles).value;
    if AgreeOnKeys(bundles) {
      forall b, n | 0 <= b < |bundles| && 0 <= n < |bundles[b].scopes|
        ensures ScopeRecorded(q, bundles[b], n)
      {
        AgreeingKeysRecorded(p, bundles, b, n);
      }
    } else {
      var a, b, m, n :|
        && 0 <= a < |bundles| && 0 <= b < |bundles|
        && 0 <= m < |bundles[a].scopes| && 0 <= n < |bundles[b].scopes|
        && KeyAt(bundles[a], m) == KeyAt(bundles[b], n)
        && !(bundles[a].scopes[m].epoch == bundles[b].scopes[n].epoch && bundles[a].digest == bundles[b].digest);
      assert !ScopeRecorded(q, bundles[a], m) || !ScopeRecorded(q, bundles[b], n);
    }
  }

  /** A recorded bundle is admitted again and moves nothing. */
  lemma {:induction false} RecordedIsIdempotent(p: Persisted, i: Info, n: nat)
    requires Recorded(p, i) && n <= |i.scopes|
    ensures AdvanceFirst(p, i, n) == p
    ensures Admit(p, i) == Some(AdvanceAll(p, i))
  {
    forall m | 0 <= m < |i.scopes|
      ensures ScopeVerdict(p, i, m).None? && (i.prev.Some? ==> ScopeContinues(p, i, m))
    {
      assert ScopeRecorded(p, i, m);
    }
    if n > 0 {
      RecordedIsIdempotent(p, i, n - 1);
      assert ScopeRecorded(p, i, n - 1);
    }
  }

  /** Reloading the recorded working set is accepted and leaves the record as it was. */
  lemma {:induction false} ReloadIsIdempotent(p: Persisted, bundles: seq<Info>)
    requires forall b :: 0 <= b < |bundles| ==> Recorded(p, bundles[b])
    ensures AdmitAll(p, bundles) == Some(p)
  {
    if bundles != [] {
      var init, last := bundles[..|bundles| - 1], bundles[|bundles| - 1];
      assert forall b :: 0 <= b < |init| ==> init[b] == bundles[b];
      ReloadIsIdempotent(p, init);
      assert Recorded(p, bundles[|bundles| - 1]);
      RecordedIsIdempotent(p, last, |last.scopes|);
    }
  }
}
