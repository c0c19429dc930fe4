/**
 Signing passes: the epoch a scope is signed with, and why the next reload
 accepts what a pass wrote (crates/hoike-sign/src/orchestrate.rs).
 */
module Orchestrate {
  import opened Wrappers
  import opened Bytes
  import opened Marks
  import I = Images
  import B = Bundle
  import BB = Builder
  import S = Signing
  import D = Disk
  import M = Produce
  import P = Prepare

  const COMBINED: string := "hoike-combined"

  /** A configured CA: its label and the digests of its issuer key. */
  datatype Ca = Ca(name: Label, key256: Bytes, key1: Bytes, sha1: bool, hasSource: bool)

  predicate Owns(ca: Ca, keyHash: Bytes) {
    keyHash == ca.key256 || keyHash == ca.key1
  }

  /** The epoch after the SHA-256 scope's mark; a full mark stays where it is. */
  function NextEpoch(p: Persisted, ca: Ca): u64 {
    var k := ScopeId(COMBINED, ca.key256);
    SaturatingAdd(if k in p.marks then p.marks[k] else 0, 1)
  }

  /** A bundle signed for `ca` at `epoch`: one scope per CertID digest in use, no predecessor named. */
  ghost predicate SignedFor(ca: Ca, epoch: u64, i: Info) {
    && i.producer == COMBINED && i.prev == None
    && (forall n :: 0 <= n < |i.scopes| ==>
          i.scopes[n].epoch == epoch
          && (i.scopes[n].keyHash == ca.key256 || (ca.sha1 && i.scopes[n].keyHash == ca.key1)))
    && (exists n :: 0 <= n < |i.scopes| && i.scopes[n].keyHash == ca.key256)
    && (ca.sha1 ==> exists n :: 0 <= n < |i.scopes| && i.scopes[n].keyHash == ca.key1)
  }

  /** The manifest digest is not one the store has for these scopes. */
  predicate NewDigest(p: Persisted, ca: Ca, i: Info) {
    && DigestOf(p, ScopeId(COMBINED, ca.key256)) != Some(i.digest)
    && DigestOf(p, ScopeId(COMBINED, ca.key1)) != Some(i.digest)
  }

  /** The marks leave room: neither full, and the SHA-1 mark below the new epoch within the jump limit. */
  predicate Room(p: Persisted, ca: Ca) {
    var k, k1 := ScopeId(COMBINED, ca.key256), ScopeId(COMBINED, ca.key1);
    && (k in p.marks ==> p.marks[k] < U64_MAX)
    && (ca.sha1 && k1 in p.marks ==> p.marks[k1] < NextEpoch(p, ca) <= p.marks[k1] + MAX_EPOCH_JUMP)
  }

  /** A freshly signed bundle is admitted exactly when the marks leave room. */
  lemma SignedIsAdmitted(p: Persisted, ca: Ca, i: Info)
    requires SignedFor(ca, NextEpoch(p, ca), i) && NewDigest(p, ca, i)
    ensures Admit(p, i).Some? <==> Room(p, ca)
  {
    var k, k1, e := ScopeId(COMBINED, ca.key256), ScopeId(COMBINED, ca.key1), NextEpoch(p, ca);
    var n :| 0 <= n < |i.scopes| && i.scopes[n].keyHash == ca.key256;
    assert KeyAt(i, n) == k;
    if ca.sha1 {
      var m :| 0 <= m < |i.scopes| && i.scopes[m].keyHash == ca.key1;
      assert KeyAt(i, m) == k1;
      if Admit(p, i).Some? {
        assert ScopeVerdict(p, i, n).None? && ScopeVerdict(p, i, m).None?;
      }
    } else if Admit(p, i).Some? {
      assert ScopeVerdict(p, i, n).None?;
    }
    if Room(p, ca) {
      forall m | 0 <= m < |i.scopes|
        ensures ScopeVerdict(p, i, m).None?
      {
        assert KeyAt(i, m) == k || (ca.sha1 && KeyAt(i, m) == k1);
      }
    }
  }

  predicate Raised(p: Persisted, q: Persisted, ca: Ca) {
    var k := ScopeId(COMBINED, ca.key256);
    var before: int := if k in p.marks then p.marks[k] else 0;
    k in q.marks && q.marks[k] == before + 1
  }

  /** Admitting it raises the SHA-256 mark by exactly one. */
  lemma SignedAdvances(p: Persisted, ca: Ca, i: Info)
    requires SignedFor(ca, NextEpoch(p, ca), i) && Admit(p, i).Some? && Room(p, ca)
    ensures Raised(p, Admit(p, i).value, ca)
  {
    var n :| 0 <= n < |i.scopes| && i.scopes[n].keyHash == ca.key256;
    LastBundleRecorded(p, i, n);
  }

  // ---- disjoint bundles -----------------------------------------------------------------

  predicate HasKey(i: Info, k: ScopeId) {
    exists n :: 0 <= n < |i.scopes| && KeyAt(i, n) == k
  }

  ghost predicate KeysDisjoint(bundles: seq<Info>) {
    forall a, b, k :: 0 <= a < b < |bundles| && HasKey(bundles[a], k) ==> !HasKey(bundles[b], k)
  }

  predicate SameAt(p: Persisted, q: Persisted, k: ScopeId) {
    && (k in p.marks <==> k in q.marks) && (k in p.marks ==> p.marks[k] == q.marks[k])
    && DigestOf(p, k) == DigestOf(q, k)
  }

  /** Admission depends on the record only at the bundle's own keys. */
  lemma AdmitIsLocal(p: Persisted, q: Persisted, i: Info)
    requires forall k :: HasKey(i, k) ==> SameAt(p, q, k)
    ensures Admit(p, i).Some? <==> Admit(q, i).Some?
  {
    forall n | 0 <= n < |i.scopes|
      ensures SameAt(p, q, KeyAt(i, n))
    {
      assert HasKey(i, KeyAt(i, n));
    }
    assert RollbackOk(p, i) <==> RollbackOk(q, i) by {
      assert forall n :: 0 <= n < |i.scopes| ==> ScopeVerdict(p, i, n) == ScopeVerdict(q, i, n);
    }
    if i.prev.Some? {
      assert forall n :: 0 <= n < |i.scopes| ==> ScopeContinues(p, i, n) == ScopeContinues(q, i, n);
    }
  }

  lemma AdvanceOneElsewhere(p: Persisted, key: ScopeId, epoch: u64, digest: Digest, k: ScopeId)
    requires k != key
    ensures SameAt(p, AdvanceOne(p, key, epoch, digest), k)
  {
  }

  lemma {:induction false} AdvanceElsewhere(p: Persisted, i: Info, n: nat, k: ScopeId)
    requires n <= |i.scopes| && !HasKey(i, k)
    ensures SameAt(p, AdvanceFirst(p, i, n), k)
  {
    if n > 0 {
      AdvanceElsewhere(p, i, n - 1, k);
      AdvanceOneElsewhere(AdvanceFirst(p, i, n - 1), KeyAt(i, n - 1), i.scopes[n - 1].epoch, i.digest, k);
    }
  }

  /** Admitting bundles changes nothing at keys none of them has. */
  lemma {:induction false} AdmitAllElsewhere(p: Persisted, bundles: seq<Info>, k: ScopeId)
    requires AdmitAll(p, bundles).Some? && forall b :: 0 <= b < |bundles| ==> !HasKey(bundles[b], k)
    ensures SameAt(p, AdmitAll(p, bundles).value, k)
  {
    if bundles != [] {
      var init, last := bundles[..|bundles| - 1], bundles[|bundles| - 1];
      AdmitAllElsewhere(p, init, k);
      AdvanceElsewhere(AdmitAll(p, init).value, last, |last.scopes|, k);
    }
  }

  /** Bundles with disjoint keys are admitted together when each is admitted alone. */
  lemma {:induction false} DisjointAdmitAll(p: Persisted, bundles: seq<Info>)
    requires KeysDisjoint(bundles) && forall b :: 0 <= b < |bundles| ==> Admit(p, bundles[b]).Some?
    ensures AdmitAll(p, bundles).Some?
  {
    if bundles != [] {
      var init, last := bundles[..|bundles| - 1], bundles[|bundles| - 1];
      DisjointAdmitAll(p, init);
      forall k | HasKey(last, k)
        ensures SameAt(p, AdmitAll(p, init).value, k)
      {
        AdmitAllElsewhere(p, init, k);
      }
      AdmitIsLocal(p, AdmitAll(p, init).value, last);
    }
  }

  lemma AdvanceOneLocal(p: Persisted, q: Persisted, key: ScopeId, epoch: u64, digest: Digest, k: ScopeId)
    requires SameAt(p, q, k)
    ensures SameAt(AdvanceOne(p, key, epoch, digest), AdvanceOne(q, key, epoch, digest), k)
  {
  }

  lemma {:induction false} AdvanceIsLocal(p: Persisted, q: Persisted, i: Info, n: nat, k: ScopeId)
    requires n <= |i.scopes| && SameAt(p, q, k)
    ensures SameAt(AdvanceFirst(p, i, n), AdvanceFirst(q, i, n), k)
  {
    if n > 0 {
      AdvanceIsLocal(p, q, i, n - 1, k);
      AdvanceOneLocal(AdvanceFirst(p, i, n - 1), AdvanceFirst(q, i, n - 1), KeyAt(i, n - 1), i.scopes[n - 1].epoch,
                      i.digest, k);
    }
  }

  /** Each key ends where its own bundle alone would have left it. */
  lemma {:induction false} DisjointMarks(p: Persisted, bundles: seq<Info>, b: nat, k: ScopeId)
    requires KeysDisjoint(bundles) && AdmitAll(p, bundles).Some?
    requires b < |bundles| && HasKey(bundles[b], k) && Admit(p, bundles[b]).Some?
    ensures SameAt(Admit(p, bundles[b]).value, AdmitAll(p, bundles).value, k)
  {
    var init, last := bundles[..|bundles| - 1], bundles[|bundles| - 1];
    if b == |init| {
      AdmitAllElsewhere(p, init, k);
      AdvanceIsLocal(p, AdmitAll(p, init).value, last, |last.scopes|, k);
    } else {
      DisjointMarks(p, init, b, k);
      AdvanceElsewhere(AdmitAll(p, init).value, last, |last.scopes|, k);
    }
  }

  // ---- the pass ---------------------------------------------------------------------------

  ghost predicate DistinctCas(cas: seq<Ca>) {
    forall a, b :: 0 <= a < b < |cas| ==>
      cas[a].name != cas[b].name && (forall h :: Owns(cas[a], h) ==> !Owns(cas[b], h))
  }

  ghost predicate OwnsAll(ca: Ca, i: Info) {
    forall n :: 0 <= n < |i.scopes| ==> Owns(ca, i.scopes[n].keyHash)
  }

  /** A label's file: still the recorded bundle, or freshly signed. */
  ghost predicate FileFits(p: Persisted, ca: Ca, i: Info) {
    || (Recorded(p, i) && OwnsAll(ca, i))
    || (SignedFor(ca, NextEpoch(p, ca), i) && NewDigest(p, ca, i) && Room(p, ca))
  }

  ghost predicate FilesFit(p: Persisted, cas: seq<Ca>, files: map<Label, Info>) {
    forall a :: 0 <= a < |cas| ==> cas[a].name in files && FileFits(p, cas[a], files[cas[a].name])
  }

  function Bundles(cas: seq<Ca>, files: map<Label, Info>): (r: seq<Info>)
    requires forall a :: 0 <= a < |cas| ==> cas[a].name in files
    ensures |r| == |cas| && forall a :: 0 <= a < |r| ==> r[a] == files[cas[a].name]
  {
    seq(|cas|, a requires 0 <= a < |cas| => files[cas[a].name])
  }

  lemma FitsIsAdmitted(p: Persisted, ca: Ca, i: Info)
    requires FileFits(p, ca, i)
    ensures Admit(p, i).Some? && OwnsAll(ca, i)
  {
    if Recorded(p, i) && OwnsAll(ca, i) {
      RecordedIsIdempotent(p, i, 0);
    } else {
      SignedIsAdmitted(p, ca, i);
    }
  }

  lemma FilesAreDisjoint(p: Persisted, cas: seq<Ca>, files: map<Label, Info>)
    requires DistinctCas(cas) && FilesFit(p, cas, files)
    ensures KeysDisjoint(Bundles(cas, files))
  {
    var bundles := Bundles(cas, files);
    forall a, b, k | 0 <= a < b < |bundles| && HasKey(bundles[a], k)
      ensures !HasKey(bundles[b], k)
    {
      FitsIsAdmitted(p, cas[a], bundles[a]);
      FitsIsAdmitted(p, cas[b], bundles[b]);
      assert Owns(cas[a], k.keyHash);
    }
  }

  /**
   A directory in which every label has its recorded or a freshly signed file is
   accepted whole by the next reload, and each label that was signed has its SHA-256
   mark raised by exactly one.
   */
  lemma NextReloadAccepts(p: Persisted, cas: seq<Ca>, files: map<Label, Info>)
    requires DistinctCas(cas) && FilesFit(p, cas, files)
    ensures AdmitAll(p, Bundles(cas, files)).Some?
    ensures forall a :: 0 <= a < |cas| && SignedFor(cas[a], NextEpoch(p, cas[a]), files[cas[a].name])
                        && Room(p, cas[a]) ==>
              Raised(p, AdmitAll(p, Bundles(cas, files)).value, cas[a])
  {
    var bundles := Bundles(cas, files);
    FilesAreDisjoint(p, cas, files);
    forall b | 0 <= b < |bundles|
      ensures Admit(p, bundles[b]).Some?
    {
      FitsIsAdmitted(p, cas[b], bundles[b]);
    }
    DisjointAdmitAll(p, bundles);
    forall a | 0 <= a < |cas| && SignedFor(cas[a], NextEpoch(p, cas[a]), files[cas[a].name]) && Room(p, cas[a])
      ensures Raised(p, AdmitAll(p, bundles).value, cas[a])
    {
      var i, k := bundles[a], ScopeId(COMBINED, cas[a].key256);
      var n :| 0 <= n < |i.scopes| && i.scopes[n].keyHash == cas[a].key256;
      assert HasKey(i, k) by {
        assert KeyAt(i, n) == k;
      }
      SignedAdvances(p, cas[a], i);
      DisjointMarks(p, bundles, a, k);
    }
  }

  // ---- writing the files ----------------------------------------------------------------------

  datatype PassError = NotSigned(name: Label) | NotWritten(name: Label)

  datatype SignedScope = SignedScope(name: Label, epoch: u64)

  /** Producing a bundle at an epoch, and what became of writing it. */
  datatype Works = Works(produce: (Ca, u64) -> Option<Info>, write: Label -> D.Written)

  /** Whatever is produced has the requested epoch and a manifest the store has not seen. */
  ghost predicate Produces(p: Persisted, w: Works, cas: seq<Ca>) {
    forall a :: 0 <= a < |cas| && w.produce(cas[a], NextEpoch(p, cas[a])).Some? ==>
      var i := w.produce(cas[a], NextEpoch(p, cas[a])).value;
      SignedFor(cas[a], NextEpoch(p, cas[a]), i) && NewDigest(p, cas[a], i)
  }

  /** What a pass needs: distinct CAs, fresh manifests, and room for every mark it will raise. */
  ghost predicate Signs(p: Persisted, w: Works, cas: seq<Ca>) {
    && DistinctCas(cas) && Produces(p, w, cas)
    && forall a :: 0 <= a < |cas| && cas[a].hasSource ==> Room(p, cas[a])
  }

  /** The file of CA `a`, if there is one, is one the store would accept. */
  ghost predicate PresentFits(p: Persisted, ca: Ca, files: map<Label, Info>) {
    ca.name in files ==> FileFits(p, ca, files[ca.name])
  }

  ghost predicate AllPresentFit(p: Persisted, cas: seq<Ca>, files: map<Label, Info>) {
    forall a :: 0 <= a < |cas| ==> PresentFits(p, cas[a], files)
  }

  /** This CA's file is there and was signed at the epoch after its mark. */
  ghost predicate FreshlySigned(p: Persisted, ca: Ca, files: map<Label, Info>) {
    ca.name in files && SignedFor(ca, NextEpoch(p, ca), files[ca.name]) && FileFits(p, ca, files[ca.name])
  }

  /** Of the first `n` CAs, each with a source is. */
  ghost predicate SignedUpTo(p: Persisted, cas: seq<Ca>, files: map<Label, Info>, n: nat)
    requires n <= |cas|
  {
    forall a :: 0 <= a < n && cas[a].hasSource ==> FreshlySigned(p, cas[a], files)
  }

  /** The CAs without a source have files the store would accept. */
  ghost predicate OthersFit(p: Persisted, cas: seq<Ca>, files: map<Label, Info>) {
    forall a :: 0 <= a < |cas| && !cas[a].hasSource ==> cas[a].name in files && FileFits(p, cas[a], files[cas[a].name])
  }

  /** What a finished pass reports of the first `n` CAs: those with a source, in order. */
  function Reported(p: Persisted, cas: seq<Ca>, n: nat): seq<SignedScope>
    requires n <= |cas|
  {
    if n == 0 then []
    else Reported(p, cas, n - 1)
         + (if cas[n - 1].hasSource then [SignedScope(cas[n - 1].name, NextEpoch(p, cas[n - 1]))] else [])
  }

  /** The bundle for the epoch after the mark is produced, and its file written and synced. */
  ghost predicate Goes(p: Persisted, w: Works, ca: Ca) {
    w.produce(ca, NextEpoch(p, ca)).Some? && w.write(ca.name).Done?
  }

  class Publisher {
    var files: map<Label, Info>

    constructor (fs: map<Label, Info>)
      ensures files == fs
    {
      files := fs;
    }

    /** Signs one scope at the epoch after its mark and replaces its file. */
    method SignAndWriteScope(p: Persisted, w: Works, ca: Ca) returns (r: Result<SignedScope, PassError>)
      modifies this
      ensures files == if w.produce(ca, NextEpoch(p, ca)).Some? && !w.write(ca.name).Failed?
                       then old(files)[ca.name := w.produce(ca, NextEpoch(p, ca)).value] else old(files)
      ensures r.Ok? ==> && r.value == SignedScope(ca.name, NextEpoch(p, ca))
                        && w.produce(ca, NextEpoch(p, ca)).Some?
                        && files == old(files)[ca.name := w.produce(ca, NextEpoch(p, ca)).value]
      ensures r.Ok? <==> Goes(p, w, ca)
    {
      var epoch := NextEpoch(p, ca);
      var signed := w.produce(ca, epoch);
      if signed.None? {
        return Err(NotSigned(ca.name));
      }
      var outcome := w.write(ca.name);
      if !outcome.Failed? {
        files := files[ca.name := signed.value];
      }
      if !outcome.Done? {
        return Err(NotWritten(ca.name));
      }
      r := Ok(SignedScope(ca.name, epoch));
    }

    /**
     Signs every CA that has a source, stopping at the first error. Nothing is asked
     of the files it replaces. Whether or not it finishes, files that fitted or were
     missing fit or are missing after it; when it finishes every CA with a source has a
     fresh file, and if the others had fitting ones the next reload accepts them all.
     */
    method SignAndWriteAll(p: Persisted, w: Works, cas: seq<Ca>) returns (r: Result<seq<SignedScope>, PassError>)
      modifies this
      ensures Signs(p, w, cas) ==>
                && (AllPresentFit(p, cas, old(files)) ==> AllPresentFit(p, cas, files))
                && (FilesFit(p, cas, old(files)) ==> FilesFit(p, cas, files))
                && (r.Ok? ==> SignedUpTo(p, cas, files, |cas|))
                && (r.Ok? && OthersFit(p, cas, old(files)) ==> FilesFit(p, cas, files))
      ensures r.Ok? ==> r.value == Reported(p, cas, |cas|)
      ensures ReplacesOnly(cas, old(files), files)
      // it finishes exactly when every CA with a source is signed and its file written
      ensures r.Ok? <==> forall a :: 0 <= a < |cas| && cas[a].hasSource ==> Goes(p, w, cas[a])
    {
      var out: seq<SignedScope> := [];
      for n := 0 to |cas|
        invariant PassKeeps(p, w, cas, old(files), files, n) && out == Reported(p, cas, n)
        invariant forall a :: 0 <= a < n && cas[a].hasSource ==> Goes(p, w, cas[a])
      {
        if cas[n].hasSource {
          ghost var before := files;
          var one := SignAndWriteScope(p, w, cas[n]);
          if files != before {
            PassReplaces(p, w, cas, old(files), before, n);
          }
          if one.Err? {
            if Signs(p, w, cas) {
              PassEnds(p, w, cas, old(files), files, n);
            }
            return Err(one.error);
          }
          out := out + [one.value];
          PassReplaces(p, w, cas, old(files), before, n);
        }
      }
      if Signs(p, w, cas) {
        PassEnds(p, w, cas, old(files), files, |cas|);
      }
      r := Ok(out);
    }
  }

  /** Only the file of a CA with a source is ever replaced, and none is removed. */
  ghost predicate ReplacesOnly(cas: seq<Ca>, before: map<Label, Info>, after: map<Label, Info>) {
    forall l :: l in before ==> l in after && (SourceOf(cas, l) || after[l] == before[l])
  }

  predicate SourceOf(cas: seq<Ca>, l: Label) {
    exists a :: 0 <= a < |cas| && cas[a].hasSource && cas[a].name == l
  }

  /** Where a pass over `before` stands after `n` CAs. */
  ghost predicate PassKeeps(
    p: Persisted, w: Works, cas: seq<Ca>, before: map<Label, Info>, files: map<Label, Info>, n: nat)
    requires n <= |cas|
  {
    && ReplacesOnly(cas, before, files)
    && (Signs(p, w, cas) && AllPresentFit(p, cas, before) ==> AllPresentFit(p, cas, files))
    && (Signs(p, w, cas) ==> SignedUpTo(p, cas, files, n))
  }

  lemma PassReplaces(p: Persisted, w: Works, cas: seq<Ca>, before: map<Label, Info>, files: map<Label, Info>, n: nat)
    requires n < |cas| && cas[n].hasSource && w.produce(cas[n], NextEpoch(p, cas[n])).Some?
    requires PassKeeps(p, w, cas, before, files, n)
    ensures var after := files[cas[n].name := w.produce(cas[n], NextEpoch(p, cas[n])).value];
            PassKeeps(p, w, cas, before, after, n) && PassKeeps(p, w, cas, before, after, n + 1)
  {
    assert SourceOf(cas, cas[n].name);
    if Signs(p, w, cas) {
      ReplacedFits(p, cas, files, n, w.produce(cas[n], NextEpoch(p, cas[n])).value);
    }
  }

  lemma PassEnds(p: Persisted, w: Works, cas: seq<Ca>, before: map<Label, Info>, files: map<Label, Info>, n: nat)
    requires n <= |cas| && PassKeeps(p, w, cas, before, files, n) && Signs(p, w, cas)
    ensures FilesFit(p, cas, before) ==> FilesFit(p, cas, files)
    ensures n == |cas| && OthersFit(p, cas, before) ==> FilesFit(p, cas, files)
  {
    if FilesFit(p, cas, before) {
      forall a | 0 <= a < |cas|
        ensures cas[a].name in files && FileFits(p, cas[a], files[cas[a].name])
      {
        assert PresentFits(p, cas[a], files);
      }
    }
    if n == |cas| && OthersFit(p, cas, before) {
      forall a | 0 <= a < |cas|
        ensures cas[a].name in files && FileFits(p, cas[a], files[cas[a].name])
      {
        EachFits(p, cas, before, files, a);
      }
    }
  }

  lemma EachFits(p: Persisted, cas: seq<Ca>, before: map<Label, Info>, files: map<Label, Info>, a: nat)
    requires a < |cas| && DistinctCas(cas) && ReplacesOnly(cas, before, files)
    requires SignedUpTo(p, cas, files, |cas|) && OthersFit(p, cas, before)
    ensures cas[a].name in files && FileFits(p, cas[a], files[cas[a].name])
  {
    if cas[a].hasSource {
      assert FreshlySigned(p, cas[a], files);
    }
  }

  lemma ReplacedFits(p: Persisted, cas: seq<Ca>, files: map<Label, Info>, n: nat, i: Info)
    requires DistinctCas(cas) && n < |cas| && FileFits(p, cas[n], i) && SignedFor(cas[n], NextEpoch(p, cas[n]), i)
    ensures AllPresentFit(p, cas, files) ==> AllPresentFit(p, cas, files[cas[n].name := i])
    ensures SignedUpTo(p, cas, files, n) ==>
              SignedUpTo(p, cas, files[cas[n].name := i], n) && SignedUpTo(p, cas, files[cas[n].name := i], n + 1)
  {
    var after := files[cas[n].name := i];
    forall a | 0 <= a < |cas| && a != n
      ensures PresentFits(p, cas[a], files) ==> PresentFits(p, cas[a], after)
      ensures FreshlySigned(p, cas[a], files) ==> FreshlySigned(p, cas[a], after)
    {
      assert cas[a].name != cas[n].name;
    }
  }

  /**
   The pass a node runs before its first load: from an empty directory, with a source
   for every CA, a pass that finishes leaves a directory the first load accepts, and
   raises every CA's SHA-256 mark by exactly one.
   */
  method FirstPass(p: Persisted, w: Works, cas: seq<Ca>)
    returns (r: Result<seq<SignedScope>, PassError>, pub: Publisher)
    requires Signs(p, w, cas) && forall a :: 0 <= a < |cas| ==> cas[a].hasSource
    ensures r.Ok? <==> forall a :: 0 <= a < |cas| ==> Goes(p, w, cas[a])
    ensures r.Ok? ==>
              && FilesFit(p, cas, pub.files) && |r.value| == |cas|
              && AdmitAll(p, Bundles(cas, pub.files)).Some?
              && forall a :: 0 <= a < |cas| ==> Raised(p, AdmitAll(p, Bundles(cas, pub.files)).value, cas[a])
  {
    pub := new Publisher(map[]);
    r := pub.SignAndWriteAll(p, w, cas);
    if r.Ok? {
      NextReloadAccepts(p, cas, pub.files);
      AllReported(p, cas, |cas|);
      assert forall a :: 0 <= a < |cas| ==> FreshlySigned(p, cas[a], pub.files);
    }
  }

  lemma {:induction false} AllReported(p: Persisted, cas: seq<Ca>, n: nat)
    requires n <= |cas| && forall a :: 0 <= a < |cas| ==> cas[a].hasSource
    ensures |Reported(p, cas, n)| == n
  {
    if n > 0 {
      AllReported(p, cas, n - 1);
    }
  }

  // ---- the produced bundle is such a bundle ------------------------------------------------------

  /** What the store reads of a bundle produced with one signer for a CA. */
  lemma ProducedIsSigned<E>(c: B.Codec, t: P.Tools, issuer: P.Issuer, s: P.Snapshot, cfg: P.Config, clock: M.Clock,
                            signer: S.Signer, seal: BB.Seal<E>, ca: Ca)
    requires M.Production(t, issuer, s, cfg, clock, [M.Role(signer, 0)]).Ok?
    requires var p := M.Production(t, issuer, s, cfg, clock, [M.Role(signer, 0)]).value;
             BB.Fits(c, p.manifest, p.entries, seal)
    requires cfg.producerId == COMBINED && ca.sha1 == !cfg.compat.Sha256Only?
    requires ca.key256 == t.hash(P.Sha256, issuer.keyBytes) && ca.key1 == t.hash(P.Sha1, issuer.keyBytes)
    ensures var p := M.Production(t, issuer, s, cfg, clock, [M.Role(signer, 0)]).value;
            SignedFor(ca, cfg.epoch, I.InfoOf(c, BB.BuiltBundle(c, p.manifest, p.entries, seal)))
  {
    var p := M.Production(t, issuer, s, cfg, clock, [M.Role(signer, 0)]).value;
    var plan := M.MakePlan(s, cfg, clock).value;
    var passes := M.PassesFor([M.Role(signer, 0)], plan.producedAt);
    ScopesAreSigned(t, issuer, cfg, passes, ca);
    var i := I.InfoOf(c, BB.BuiltBundle(c, p.manifest, p.entries, seal));
    assert i.scopes == I.ScopesOf(M.Scopes(t, issuer, cfg, passes));
    ShapeIsSigned(ca, cfg.epoch, i);
  }

  lemma ShapeIsSigned(ca: Ca, epoch: u64, i: Info)
    requires i.producer == COMBINED && i.prev == None && |i.scopes| == (if ca.sha1 then 2 else 1)
    requires i.scopes[0].keyHash == ca.key256 && i.scopes[0].epoch == epoch
    requires ca.sha1 ==> i.scopes[1].keyHash == ca.key1 && i.scopes[1].epoch == epoch
    ensures SignedFor(ca, epoch, i)
  {
  }

  lemma ScopesAreSigned(t: P.Tools, issuer: P.Issuer, cfg: P.Config, passes: seq<S.Pass>, ca: Ca)
    requires |passes| == 1 && ca.sha1 == !cfg.compat.Sha256Only?
    requires ca.key256 == t.hash(P.Sha256, issuer.keyBytes) && ca.key1 == t.hash(P.Sha1, issuer.keyBytes)
    ensures var ss := I.ScopesOf(M.Scopes(t, issuer, cfg, passes));
            && |ss| == (if ca.sha1 then 2 else 1)
            && ss[0].keyHash == ca.key256 && ss[0].epoch == cfg.epoch
            && (ca.sha1 ==> ss[1].keyHash == ca.key1 && ss[1].epoch == cfg.epoch)
  {
  }
}
