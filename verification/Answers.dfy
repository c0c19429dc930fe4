/**
 What the signed entries answer: each key leads to a response with exactly one
 matching single response (crates/hoike-sign/src/generate.rs, and the selection
 by CertID in crates/hoike-sign/src/live.rs).
 */
module Answers {
  import opened Wrappers
  import opened Bytes
  import opened Collections
  import opened Index
  import opened Bundle
  import opened Entries
  import opened Signing
  import P = Prepare

  // ---- selecting by CertID ----------------------------------------------------------------

  function Matching(ss: seq<P.SingleResponse>, id: P.CertId): seq<P.SingleResponse> {
    if ss == [] then []
    else Matching(ss[..|ss| - 1], id) + (if ss[|ss| - 1].certId == id then [ss[|ss| - 1]] else [])
  }

  datatype ExtractError = Unreadable | Absent | Ambiguous

  /** The one single response for a CertID; none or several is an error. */
  function ExtractStatus(read: Reader, payload: Bytes, id: P.CertId): Result<P.SingleResponse, ExtractError> {
    match read(payload)
    case None => Err(Unreadable)
    case Some(r) =>
      var found := Matching(r.singles, id);
      if found == [] then Err(Absent) else if |found| > 1 then Err(Ambiguous) else Ok(found[0])
  }

  lemma MatchingSnoc(ss: seq<P.SingleResponse>, s: P.SingleResponse, id: P.CertId)
    ensures Matching(ss + [s], id) == Matching(ss, id) + (if s.certId == id then [s] else [])
  {
    assert (ss + [s])[..|ss|] == ss;
  }

  lemma {:induction false} MatchingConcat(ss: seq<P.SingleResponse>, ts: seq<P.SingleResponse>, id: P.CertId)
    ensures Matching(ss + ts, id) == Matching(ss, id) + Matching(ts, id)
  {
    if ts == [] {
      assert ss + ts == ss;
    } else {
      var init, last := ts[..|ts| - 1], ts[|ts| - 1];
      assert ss + ts == (ss + init) + [last];
      MatchingSnoc(ss + init, last, id);
      MatchingConcat(ss, init, id);
    }
  }

  lemma {:induction false} MatchingNone(ss: seq<P.SingleResponse>, id: P.CertId)
    requires forall n :: 0 <= n < |ss| ==> ss[n].certId != id
    ensures Matching(ss, id) == []
  {
    if ss != [] {
      MatchingNone(ss[..|ss| - 1], id);
    }
  }

  lemma {:induction false} MatchingOne(ss: seq<P.SingleResponse>, j: nat)
    requires j < |ss| && forall n :: 0 <= n < |ss| && n != j ==> ss[n].certId != ss[j].certId
    ensures Matching(ss, ss[j].certId) == [ss[j]]
  {
    if j == |ss| - 1 {
      MatchingNone(ss[..j], ss[j].certId);
    } else {
      MatchingOne(ss[..|ss| - 1], j);
    }
  }

  /** No two single responses among the prepared entries share a CertID. */
  ghost predicate CertIdsDistinct(ps: seq<P.PreparedEntry>) {
    forall i, j, i', j' ::
      (&& 0 <= i < |ps| && 0 <= j < |ps[i].singles| && 0 <= i' < |ps| && 0 <= j' < |ps[i'].singles|
       && ps[i].singles[j].certId == ps[i'].singles[j'].certId)
      ==> i == i' && j == j'
  }

  lemma SinglesSnoc(ps: seq<P.PreparedEntry>, a: nat, b: nat)
    requires a < b <= |ps|
    ensures Singles(ps[a..b]) == Singles(ps[a..b - 1]) + ps[b - 1].singles
  {
    assert ps[a..b][..b - 1 - a] == ps[a..b - 1];
  }

  ghost predicate NotNamed(ss: seq<P.SingleResponse>, id: P.CertId) {
    forall n :: 0 <= n < |ss| ==> ss[n].certId != id
  }

  lemma NamedElsewhere(ps: seq<P.PreparedEntry>, i: nat, j: nat, k: nat)
    requires CertIdsDistinct(ps) && i < |ps| && j < |ps[i].singles| && k < |ps| && k != i
    ensures NotNamed(ps[k].singles, ps[i].singles[j].certId)
  {
  }

  lemma {:induction false} UnnamedBucket(ps: seq<P.PreparedEntry>, a: nat, b: nat, id: P.CertId)
    requires a <= b <= |ps| && forall k :: a <= k < b ==> NotNamed(ps[k].singles, id)
    ensures Matching(Singles(ps[a..b]), id) == []
    decreases b
  {
    if a < b {
      SinglesSnoc(ps, a, b);
      UnnamedBucket(ps, a, b - 1, id);
      assert NotNamed(ps[b - 1].singles, id);
      MatchingNone(ps[b - 1].singles, id);
      MatchingConcat(Singles(ps[a..b - 1]), ps[b - 1].singles, id);
    }
  }

  lemma {:induction false} NamedInOne(ps: seq<P.PreparedEntry>, a: nat, b: nat, i: nat, id: P.CertId)
    requires a <= i < b <= |ps| && forall k :: a <= k < b && k != i ==> NotNamed(ps[k].singles, id)
    ensures Matching(Singles(ps[a..b]), id) == Matching(ps[i].singles, id)
    decreases b
  {
    SinglesSnoc(ps, a, b);
    MatchingConcat(Singles(ps[a..b - 1]), ps[b - 1].singles, id);
    if i == b - 1 {
      UnnamedBucket(ps, a, b - 1, id);
    } else {
      NamedInOne(ps, a, b - 1, i, id);
      assert NotNamed(ps[b - 1].singles, id);
      MatchingNone(ps[b - 1].singles, id);
    }
  }

  /** A bucket holds exactly one single response for each CertID it covers. */
  lemma InsideBucket(ps: seq<P.PreparedEntry>, a: nat, b: nat, i: nat, j: nat)
    requires CertIdsDistinct(ps) && a <= i < b <= |ps| && j < |ps[i].singles|
    ensures Matching(Singles(ps[a..b]), ps[i].singles[j].certId) == [ps[i].singles[j]]
  {
    forall k | a <= k < b && k != i
      ensures NotNamed(ps[k].singles, ps[i].singles[j].certId)
    {
      NamedElsewhere(ps, i, j, k);
    }
    NamedInOne(ps, a, b, i, ps[i].singles[j].certId);
    MatchingOne(ps[i].singles, j);
  }

  // ---- keys -----------------------------------------------------------------------------------

  ghost predicate KeysDistinct(ps: seq<P.PreparedEntry>) {
    forall i, j, i', j' ::
      (&& 0 <= i < |ps| && 0 <= j < |ps[i].keys| && 0 <= i' < |ps| && 0 <= j' < |ps[i'].keys|
       && ps[i].keys[j] == ps[i'].keys[j'])
      ==> i == i' && j == j'
  }

  lemma KeysSnoc(ps: seq<P.PreparedEntry>, a: nat, b: nat)
    requires a < b <= |ps|
    ensures Keys(ps[a..b]) == Keys(ps[a..b - 1]) + ps[b - 1].keys
  {
    assert ps[a..b][..b - 1 - a] == ps[a..b - 1];
  }

  /** Where the key at position `x` of a bucket comes from. */
  lemma {:induction false} KeyFrom(ps: seq<P.PreparedEntry>, a: nat, b: nat, x: nat) returns (i: nat, j: nat)
    requires a <= b <= |ps| && x < |Keys(ps[a..b])|
    ensures a <= i < b && j < |ps[i].keys| && ps[i].keys[j] == Keys(ps[a..b])[x]
    decreases b
  {
    KeysSnoc(ps, a, b);
    var before := |Keys(ps[a..b - 1])|;
    if x < before {
      i, j := KeyFrom(ps, a, b - 1, x);
    } else {
      i, j := b - 1, x - before;
    }
  }

  lemma {:induction false} KeyIn(ps: seq<P.PreparedEntry>, a: nat, b: nat, i: nat, j: nat) returns (x: nat)
    requires a <= i < b <= |ps| && j < |ps[i].keys|
    ensures x < |Keys(ps[a..b])| && Keys(ps[a..b])[x] == ps[i].keys[j]
    decreases b
  {
    KeysSnoc(ps, a, b);
    if i == b - 1 {
      x := |Keys(ps[a..b - 1])| + j;
    } else {
      x := KeyIn(ps, a, b - 1, i, j);
    }
  }

  ghost predicate NoRepeats(keys: seq<Digest>) {
    forall x, y :: 0 <= x < y < |keys| ==> keys[x] != keys[y]
  }

  lemma {:induction false} KeysDoNotRepeat(ps: seq<P.PreparedEntry>, a: nat, b: nat)
    requires KeysDistinct(ps) && a <= b <= |ps|
    ensures NoRepeats(Keys(ps[a..b]))
    decreases b
  {
    if a < b {
      KeysDoNotRepeat(ps, a, b - 1);
      KeysSnoc(ps, a, b);
      var before, keys := |Keys(ps[a..b - 1])|, Keys(ps[a..b]);
      forall x, y | 0 <= x < y < |keys|
        ensures keys[x] != keys[y]
      {
        if x < before <= y {
          var i, j := KeyFrom(ps, a, b - 1, x);
          assert keys[y] == ps[b - 1].keys[y - before];
        }
      }
    }
  }

  // ---- the signed entries -----------------------------------------------------------------------

  /** A signed entry: which key it has, and which bucket its payload covers. */
  ghost predicate SignedAs(
    pass: Pass, ps: seq<P.PreparedEntry>, read: Reader, e: Entry, i: nat, j: nat, a: nat, b: nat)
  {
    && a <= i < b <= |ps| && j < |ps[i].keys|
    && Id(e) == EntryId(ps[i].keys[j], pass.disc) && !e.record.flags.tombstone
    && |e.payload| < U32_LIMIT
    && read(e.payload) == Some(Response(Singles(ps[a..b]), pass.producedAt))
  }

  lemma {:induction false} SignedFrom(pass: Pass, ps: seq<P.PreparedEntry>, size: nat, lo: nat, n: nat, read: Reader,
                                      e: Entry)
    returns (i: nat, j: nat, a: nat, b: nat)
    requires Readable(pass.signer, read) && lo <= |ps|
    requires SignFrom(pass, ps, size, lo, n).Some? && e in SignFrom(pass, ps, size, lo, n).value
    ensures lo <= i && SignedAs(pass, ps, read, e, i, j, a, b)
    decreases |ps| - lo
  {
    var hi := BucketEnd(|ps|, size, lo);
    var response := Response(Singles(ps[lo..hi]), pass.producedAt);
    var payload := pass.signer.sign(n, response).value;
    var keys := Keys(ps[lo..hi]);
    var first := SharedEntries(keys, payload, pass.disc);
    InConcat(e, first, SignFrom(pass, ps, size, hi, n + 1).value);
    if e in first {
      SharedCarries(keys, 0, payload, pass.disc);
      var x :| 0 <= x < |first| && first[x] == e;
      assert Carries(first[x], keys[0 + x], payload, pass.disc);
      i, j := KeyFrom(ps, lo, hi, x);
      a, b := lo, hi;
    } else {
      i, j, a, b := SignedFrom(pass, ps, size, hi, n + 1, read, e);
    }
  }

  /** Every prepared key has an entry. */
  lemma {:induction false} SignedHas(pass: Pass, ps: seq<P.PreparedEntry>, size: nat, lo: nat, n: nat, i: nat, j: nat)
    returns (e: Entry)
    requires lo <= i < |ps| && j < |ps[i].keys| && SignFrom(pass, ps, size, lo, n).Some?
    ensures e in SignFrom(pass, ps, size, lo, n).value && Id(e) == EntryId(ps[i].keys[j], pass.disc)
    decreases |ps| - lo
  {
    var hi := BucketEnd(|ps|, size, lo);
    var payload := pass.signer.sign(n, Response(Singles(ps[lo..hi]), pass.producedAt)).value;
    var keys := Keys(ps[lo..hi]);
    var first := SharedEntries(keys, payload, pass.disc);
    if i < hi {
      var x := KeyIn(ps, lo, hi, i, j);
      SharedCarries(keys, 0, payload, pass.disc);
      assert Carries(first[x], keys[0 + x], payload, pass.disc);
      e := first[x];
    } else {
      e := SignedHas(pass, ps, size, hi, n + 1, i, j);
    }
    InConcat(e, first, SignFrom(pass, ps, size, hi, n + 1).value);
  }

  lemma DistinctConcat(s: seq<Entry>, t: seq<Entry>)
    requires DistinctIds(s) && DistinctIds(t) && forall e, f :: e in s && f in t ==> Id(e) != Id(f)
    ensures DistinctIds(s + t)
  {
    DistinctPairs(s);
    DistinctPairs(t);
    DistinctPairs(s + t);
    forall x, y | 0 <= x < y < |s + t|
      ensures Id((s + t)[x]) != Id((s + t)[y])
    {
      assert x < |s| ==> s[x] in s;
      assert y >= |s| ==> t[y - |s|] in t;
    }
  }

  lemma SharedDistinct(keys: seq<Digest>, payload: Bytes, disc: u16)
    requires NoRepeats(keys)
    ensures DistinctIds(SharedEntries(keys, payload, disc))
  {
    var es := SharedEntries(keys, payload, disc);
    SharedCarries(keys, 0, payload, disc);
    DistinctPairs(es);
    forall x, y | 0 <= x < y < |es|
      ensures Id(es[x]) != Id(es[y])
    {
      assert Carries(es[x], keys[0 + x], payload, disc) && Carries(es[y], keys[0 + y], payload, disc);
    }
  }

  lemma {:induction false} SignedDistinct(
    pass: Pass, ps: seq<P.PreparedEntry>, size: nat, lo: nat, n: nat, read: Reader)
    requires Readable(pass.signer, read) && KeysDistinct(ps) && lo <= |ps| && SignFrom(pass, ps, size, lo, n).Some?
    ensures DistinctIds(SignFrom(pass, ps, size, lo, n).value)
    decreases |ps| - lo
  {
    if lo < |ps| {
      var hi := BucketEnd(|ps|, size, lo);
      var payload := pass.signer.sign(n, Response(Singles(ps[lo..hi]), pass.producedAt)).value;
      var keys := Keys(ps[lo..hi]);
      var first, rest := SharedEntries(keys, payload, pass.disc), SignFrom(pass, ps, size, hi, n + 1).value;
      KeysDoNotRepeat(ps, lo, hi);
      SharedDistinct(keys, payload, pass.disc);
      SignedDistinct(pass, ps, size, hi, n + 1, read);
      forall e, f | e in first && f in rest
        ensures Id(e) != Id(f)
      {
        SharedCarries(keys, 0, payload, pass.disc);
        var x :| 0 <= x < |first| && first[x] == e;
        assert Carries(first[x], keys[0 + x], payload, pass.disc);
        var i, j := KeyFrom(ps, lo, hi, x);
        var i', j', a, b := SignedFrom(pass, ps, size, hi, n + 1, read, f);
      }
      DistinctConcat(first, rest);
    }
  }

  // ---- what one pass answers -------------------------------------------------------------------

  predicate SameShape(ps: seq<P.PreparedEntry>) {
    forall i :: 0 <= i < |ps| ==> |ps[i].keys| == |ps[i].singles|
  }

  /** An answer from which the given single response is extracted. */
  predicate Answer(read: Reader, r: Option<Bytes>, single: P.SingleResponse) {
    r.Some? && ExtractStatus(read, r.value, single.certId) == Ok(single)
  }

  lemma BucketAnswers(pass: Pass, ps: seq<P.PreparedEntry>, read: Reader, e: Entry, i: nat, j: nat, a: nat, b: nat)
    requires CertIdsDistinct(ps) && SameShape(ps) && SignedAs(pass, ps, read, e, i, j, a, b)
    ensures Denoted(e) == Some(e.payload) && Answer(read, Denoted(e), ps[i].singles[j])
  {
    InsideBucket(ps, a, b, i, j);
  }

  /** Every identifier a pass writes answers with the single response of its key. */
  lemma PassAnswers(pass: Pass, ps: seq<P.PreparedEntry>, size: nat, read: Reader, i: nat, j: nat)
    requires Readable(pass.signer, read) && KeysDistinct(ps) && CertIdsDistinct(ps) && SameShape(ps)
    requires Signed(pass, ps, size).Some? && i < |ps| && j < |ps[i].keys|
    ensures var m, id := Meaning(Signed(pass, ps, size).value), EntryId(ps[i].keys[j], pass.disc);
            id in m && Answer(read, m[id], ps[i].singles[j])
  {
    var es := Signed(pass, ps, size).value;
    var e := SignedHas(pass, ps, size, 0, 0, i, j);
    var i', j', a, b := SignedFrom(pass, ps, size, 0, 0, read, e);
    BucketAnswers(pass, ps, read, e, i', j', a, b);
    SignedDistinct(pass, ps, size, 0, 0, read);
    var x :| 0 <= x < |es| && es[x] == e;
    AddedIsMeant(es, x);
  }

  /** And it writes no other identifiers. */
  lemma PassOnly(pass: Pass, ps: seq<P.PreparedEntry>, size: nat, read: Reader, id: EntryId) returns (i: nat, j: nat)
    requires Readable(pass.signer, read) && Signed(pass, ps, size).Some?
    requires id in Meaning(Signed(pass, ps, size).value)
    ensures i < |ps| && j < |ps[i].keys| && id == EntryId(ps[i].keys[j], pass.disc)
  {
    var es := Signed(pass, ps, size).value;
    MeaningKeys(es, id);
    var e :| e in es && Id(e) == id;
    var a, b;
    i, j, a, b := SignedFrom(pass, ps, size, 0, 0, read, e);
  }

  // ---- all passes ---------------------------------------------------------------------------------

  /** The entries of the first `n` passes. */
  function SignPasses(passes: seq<Pass>, n: nat, ps: seq<P.PreparedEntry>, size: nat): Option<seq<Entry>>
    requires n <= |passes|
  {
    if n == 0 then Some([])
    else match SignPasses(passes, n - 1, ps, size)
      case None => None
      case Some(before) =>
        match Signed(passes[n - 1], ps, size)
        case None => None
        case Some(es) => Some(before + es)
  }

  ghost predicate GoodPasses(passes: seq<Pass>, read: Reader) {
    && (forall k :: 0 <= k < |passes| ==> Readable(passes[k].signer, read))
    && (forall k, l :: 0 <= k < l < |passes| ==> passes[k].disc != passes[l].disc)
  }

  lemma {:induction false} PassesOnly(passes: seq<Pass>, n: nat, ps: seq<P.PreparedEntry>, size: nat, read: Reader,
                                      id: EntryId)
    returns (k: nat, i: nat, j: nat)
    requires n <= |passes| && GoodPasses(passes, read) && SignPasses(passes, n, ps, size).Some?
    requires id in Meaning(SignPasses(passes, n, ps, size).value)
    ensures k < n && i < |ps| && j < |ps[i].keys| && id == EntryId(ps[i].keys[j], passes[k].disc)
  {
    var before, es := SignPasses(passes, n - 1, ps, size).value, Signed(passes[n - 1], ps, size).value;
    MeaningConcat(before, es);
    assert id in Meaning(before) || id in Meaning(es);
    if id in Meaning(es) {
      k := n - 1;
      i, j := PassOnly(passes[n - 1], ps, size, read, id);
    } else {
      k, i, j := PassesOnly(passes, n - 1, ps, size, read, id);
    }
  }

  lemma {:induction false} PassesAnswer(passes: seq<Pass>, n: nat, ps: seq<P.PreparedEntry>, size: nat, read: Reader,
                                        k: nat, i: nat, j: nat)
    requires k < n <= |passes| && GoodPasses(passes, read) && SignPasses(passes, n, ps, size).Some?
    requires KeysDistinct(ps) && CertIdsDistinct(ps) && SameShape(ps) && i < |ps| && j < |ps[i].keys|
    ensures var m, id := Meaning(SignPasses(passes, n, ps, size).value), EntryId(ps[i].keys[j], passes[k].disc);
            id in m && Answer(read, m[id], ps[i].singles[j])
  {
    var before, es := SignPasses(passes, n - 1, ps, size).value, Signed(passes[n - 1], ps, size).value;
    var id := EntryId(ps[i].keys[j], passes[k].disc);
    MeaningConcat(before, es);
    if k == n - 1 {
      PassAnswers(passes[k], ps, size, read, i, j);
    } else {
      PassesAnswer(passes, n - 1, ps, size, read, k, i, j);
      if id in Meaning(es) {
        var i', j' := PassOnly(passes[n - 1], ps, size, read, id);
      }
    }
  }

  lemma {:induction false} PassesDistinct(passes: seq<Pass>, n: nat, ps: seq<P.PreparedEntry>, size: nat, read: Reader)
    requires n <= |passes| && GoodPasses(passes, read) && SignPasses(passes, n, ps, size).Some? && KeysDistinct(ps)
    ensures DistinctIds(SignPasses(passes, n, ps, size).value)
  {
    if n > 0 {
      var before, es := SignPasses(passes, n - 1, ps, size).value, Signed(passes[n - 1], ps, size).value;
      PassesDistinct(passes, n - 1, ps, size, read);
      SignedDistinct(passes[n - 1], ps, size, 0, 0, read);
      forall e, f | e in before && f in es
        ensures Id(e) != Id(f)
      {
        MeaningKeys(before, Id(e));
        var k, i, j := PassesOnly(passes, n - 1, ps, size, read, Id(e));
        var i', j', a, b := SignedFrom(passes[n - 1], ps, size, 0, 0, read, f);
      }
      DistinctConcat(before, es);
    }
  }

  // ---- choosing among variants ----------------------------------------------------------------------

  /** With the default present some variant is always chosen. */
  lemma {:induction false} ChoiceHits(m: Content, key: Digest, prefs: seq<u16>) returns (d: u16)
    requires EntryId(key, DEFAULT_DISCRIMINATOR) in m
    ensures EntryId(key, d) in m && Choice(m, key, prefs) == m[EntryId(key, d)]
  {
    if prefs == [] {
      d := DEFAULT_DISCRIMINATOR;
    } else if EntryId(key, prefs[0]) in m {
      d := prefs[0];
    } else {
      d := ChoiceHits(m, key, prefs[1..]);
    }
  }

  lemma {:induction false} ChoiceMisses(m: Content, key: Digest, prefs: seq<u16>)
    requires forall d: u16 :: EntryId(key, d) !in m
    ensures Choice(m, key, prefs) == None
  {
    if prefs != [] {
      ChoiceMisses(m, key, prefs[1..]);
    }
  }

  /** Whatever the preferences, a prepared key is answered with its single response. */
  lemma AnyChoiceAnswers(passes: seq<Pass>, ps: seq<P.PreparedEntry>, size: nat, read: Reader, i: nat, j: nat,
                         prefs: seq<u16>)
    requires GoodPasses(passes, read) && SignPasses(passes, |passes|, ps, size).Some?
    requires |passes| > 0 && passes[0].disc == DEFAULT_DISCRIMINATOR
    requires KeysDistinct(ps) && CertIdsDistinct(ps) && SameShape(ps) && i < |ps| && j < |ps[i].keys|
    ensures Answer(read, Choice(Meaning(SignPasses(passes, |passes|, ps, size).value), ps[i].keys[j], prefs),
                   ps[i].singles[j])
  {
    var m, key := Meaning(SignPasses(passes, |passes|, ps, size).value), ps[i].keys[j];
    PassesAnswer(passes, |passes|, ps, size, read, 0, i, j);
    var d := ChoiceHits(m, key, prefs);
    var k, i', j' := PassesOnly(passes, |passes|, ps, size, read, EntryId(key, d));
    PassesAnswer(passes, |passes|, ps, size, read, k, i, j);
  }

  /** A key that was not prepared is not answered. */
  lemma NoChoiceAnswers(passes: seq<Pass>, ps: seq<P.PreparedEntry>, size: nat, read: Reader, key: Digest,
                        prefs: seq<u16>)
    requires GoodPasses(passes, read) && SignPasses(passes, |passes|, ps, size).Some?
    requires forall i, j :: 0 <= i < |ps| && 0 <= j < |ps[i].keys| ==> ps[i].keys[j] != key
    ensures Choice(Meaning(SignPasses(passes, |passes|, ps, size).value), key, prefs) == None
  {
    var m := Meaning(SignPasses(passes, |passes|, ps, size).value);
    forall d: u16
      ensures EntryId(key, d) !in m
    {
      if EntryId(key, d) in m {
        var k, i, j := PassesOnly(passes, |passes|, ps, size, read, EntryId(key, d));
      }
    }
    ChoiceMisses(m, key, prefs);
  }
}
