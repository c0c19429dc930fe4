/**
 Signing prepared responses in buckets and adding each payload under all keys
 of its bucket (crates/hoike-sign/src/generate.rs).
 */
module Signing {
  import opened Wrappers
  import opened Bytes
  import opened Collections
  import opened Index
  import opened Entries
  import opened Builder
  import opened Calendar
  import P = Prepare

  /** A signed OCSP answer: the single responses it covers and when it was made. */
  datatype Response = Response(singles: seq<P.SingleResponse>, producedAt: DateTime)

  /** A signer may answer differently at each call; `n` counts the calls. */
  datatype Signer = Signer(sign: (nat, Response) -> Option<Bytes>, keyHash: Bytes, chain: Option<seq<Bytes>>)

  type Reader = Bytes -> Option<Response>

  /** What is signed can be read back, and is short enough for a 32-bit length. */
  ghost predicate Readable(s: Signer, read: Reader) {
    forall n, r :: s.sign(n, r).Some? ==>
      read(s.sign(n, r).value) == Some(r) && |s.sign(n, r).value| < U32_LIMIT
  }

  // ---- shared entries ---------------------------------------------------------------------

  /** Keys are paired so that the payload is stored once per pair; an odd key stands alone. */
  function SharedFrom(keys: seq<Digest>, i: nat, payload: Bytes, disc: u16): seq<Entry>
    requires i <= |keys|
    decreases |keys| - i
  {
    if i == |keys| then []
    else if i + 1 == |keys| then [MakeEntry(EntryId(keys[i], disc), NO_FLAGS, payload)]
    else DualEntries(keys[i], keys[i + 1], payload, disc) + SharedFrom(keys, i + 2, payload, disc)
  }

  function SharedEntries(keys: seq<Digest>, payload: Bytes, disc: u16): seq<Entry> {
    SharedFrom(keys, 0, payload, disc)
  }

  /** An entry that answers `key` with `payload`. */
  predicate Carries(e: Entry, key: Digest, payload: Bytes, disc: u16) {
    Id(e) == EntryId(key, disc) && e.payload == payload && !e.record.flags.tombstone
  }

  lemma {:induction false} SharedCarries(keys: seq<Digest>, i: nat, payload: Bytes, disc: u16)
    requires i <= |keys|
    ensures |SharedFrom(keys, i, payload, disc)| == |keys| - i
    ensures forall n :: 0 <= n < |keys| - i ==>
              Carries(SharedFrom(keys, i, payload, disc)[n], keys[i + n], payload, disc)
    decreases |keys| - i
  {
    if i + 1 < |keys| {
      SharedCarries(keys, i + 2, payload, disc);
      var rest := SharedFrom(keys, i + 2, payload, disc);
      forall n | 2 <= n < |keys| - i
        ensures Carries(SharedFrom(keys, i, payload, disc)[n], keys[i + n], payload, disc)
      {
        assert SharedFrom(keys, i, payload, disc)[n] == rest[n - 2];
        assert Carries(rest[n - 2], keys[i + 2 + (n - 2)], payload, disc);
      }
    }
  }

  method AddSharedEntries(builder: BundleBuilder, keys: seq<Digest>, response: Bytes, disc: u16)
    modifies builder`entries
    ensures builder.entries == old(builder.entries) + SharedEntries(keys, response, disc)
  {
    if |keys| == 1 {
      builder.AddEntryWithDiscriminator(keys[0], disc, response);
    } else if |keys| == 2 {
      builder.AddDualEntryWithDiscriminator(keys[0], keys[1], response, disc);
      assert SharedFrom(keys, 2, response, disc) == [];
    } else if |keys| > 2 {
      var i := 0;
      while i + 1 < |keys|
        invariant 0 <= i <= |keys|
        invariant builder.entries + SharedFrom(keys, i, response, disc)
               == old(builder.entries) + SharedFrom(keys, 0, response, disc)
      {
        ghost var before := builder.entries;
        builder.AddDualEntryWithDiscriminator(keys[i], keys[i + 1], response, disc);
        Regroup(before, DualEntries(keys[i], keys[i + 1], response, disc), SharedFrom(keys, i + 2, response, disc));
        i := i + 2;
      }
      if i < |keys| {
        builder.AddEntryWithDiscriminator(keys[i], disc, response);
      }
    }
  }

  // ---- buckets ------------------------------------------------------------------------------

  function Singles(ps: seq<P.PreparedEntry>): seq<P.SingleResponse> {
    if ps == [] then [] else Singles(ps[..|ps| - 1]) + ps[|ps| - 1].singles
  }

  function Keys(ps: seq<P.PreparedEntry>): seq<Digest> {
    if ps == [] then [] else Keys(ps[..|ps| - 1]) + ps[|ps| - 1].keys
  }

  function BucketEnd(count: nat, size: nat, lo: nat): nat {
    Min(lo + (if size == 0 then 1 else size), count)
  }

  /** One pass over the prepared entries with one signer and one discriminator. */
  datatype Pass = Pass(signer: Signer, disc: u16, producedAt: DateTime)

  /** The entries of the buckets from position `lo` on; `n` buckets were signed before. */
  function SignFrom(pass: Pass, ps: seq<P.PreparedEntry>, size: nat, lo: nat, n: nat): Option<seq<Entry>>
    requires lo <= |ps|
    decreases |ps| - lo
  {
    if lo == |ps| then Some([])
    else
      var hi := BucketEnd(|ps|, size, lo);
      match pass.signer.sign(n, Response(Singles(ps[lo..hi]), pass.producedAt))
      case None => None
      case Some(payload) =>
        match SignFrom(pass, ps, size, hi, n + 1)
        case None => None
        case Some(rest) => Some(SharedEntries(Keys(ps[lo..hi]), payload, pass.disc) + rest)
  }

  function Signed(pass: Pass, ps: seq<P.PreparedEntry>, size: nat): Option<seq<Entry>> {
    SignFrom(pass, ps, size, 0, 0)
  }

  method CollectBucket(ps: seq<P.PreparedEntry>) returns (singles: seq<P.SingleResponse>, keys: seq<Digest>)
    ensures singles == Singles(ps) && keys == Keys(ps)
  {
    singles, keys := [], [];
    for n := 0 to |ps|
      invariant singles == Singles(ps[..n]) && keys == Keys(ps[..n])
    {
      singles := singles + ps[n].singles;
      keys := keys + ps[n].keys;
      assert ps[..n + 1][..n] == ps[..n];
    }
    assert ps[..|ps|] == ps;
  }

  /** On success the builder gains exactly the signed entries; on failure it is abandoned. */
  method SignAndAddEntries(builder: BundleBuilder, pass: Pass, ps: seq<P.PreparedEntry>, size: nat)
    returns (ok: bool)
    modifies builder`entries
    ensures ok == Signed(pass, ps, size).Some?
    ensures ok ==> builder.entries == old(builder.entries) + Signed(pass, ps, size).value
  {
    var lo, n := 0, 0;
    ghost var done: seq<Entry> := [];
    while lo < |ps|
      invariant lo <= |ps|
      invariant builder.entries == old(builder.entries) + done
      invariant Signed(pass, ps, size).Some? <==> SignFrom(pass, ps, size, lo, n).Some?
      invariant Signed(pass, ps, size).Some? ==>
                  Signed(pass, ps, size).value == done + SignFrom(pass, ps, size, lo, n).value
    {
      var hi := BucketEnd(|ps|, size, lo);
      var singles, keys := CollectBucket(ps[lo..hi]);
      var payload := pass.signer.sign(n, Response(singles, pass.producedAt));
      if payload.None? {
        return false;
      }
      AddSharedEntries(builder, keys, payload.value, pass.disc);
      Regroup(old(builder.entries), done, SharedEntries(keys, payload.value, pass.disc));
      if SignFrom(pass, ps, size, hi, n + 1).Some? {
        Regroup(done, SharedEntries(keys, payload.value, pass.disc), SignFrom(pass, ps, size, hi, n + 1).value);
      }
      done := done + SharedEntries(keys, payload.value, pass.disc);
      lo, n := hi, n + 1;
    }
    ok := true;
  }

  // ---- when signing succeeds ------------------------------------------------------------------

  /** How many entries go into a bucket. */
  function Width(size: nat): (w: nat)
    ensures w >= 1 && (size >= 1 ==> w == size)
  {
    if size == 0 then 1 else size
  }

  /** The `n`-th bucket. */
  function Bucket(ps: seq<P.PreparedEntry>, w: nat, n: nat): seq<P.PreparedEntry> {
    ps[Min(n * w, |ps|)..Min(n * w + w, |ps|)]
  }

  ghost predicate BucketSigns(pass: Pass, ps: seq<P.PreparedEntry>, w: nat, n: nat) {
    n * w < |ps| ==> pass.signer.sign(n, Response(Singles(Bucket(ps, w, n)), pass.producedAt)).Some?
  }

  lemma NextBucket(w: nat, n: nat)
    ensures n * w + w == (n + 1) * w
  {
  }

  lemma PastTheEnd(w: nat, n: nat, m: nat, count: nat)
    requires n <= m && count <= n * w
    ensures count <= m * w
  {
    assert n * w <= m * w;
  }

  lemma {:induction false} SignFromExactly(pass: Pass, ps: seq<P.PreparedEntry>, size: nat, lo: nat, n: nat)
    requires lo == Min(n * Width(size), |ps|)
    ensures SignFrom(pass, ps, size, lo, n).Some? <==> forall m: nat :: n <= m ==> BucketSigns(pass, ps, Width(size), m)
    decreases |ps| - lo
  {
    var w := Width(size);
    if lo == |ps| {
      forall m: nat | n <= m
        ensures BucketSigns(pass, ps, w, m)
      {
        PastTheEnd(w, n, m, |ps|);
      }
    } else {
      NextBucket(w, n);
      SignFromExactly(pass, ps, size, BucketEnd(|ps|, size, lo), n + 1);
      assert ps[lo..BucketEnd(|ps|, size, lo)] == Bucket(ps, w, n);
      assert SignFrom(pass, ps, size, lo, n).Some? <==>
             BucketSigns(pass, ps, w, n) && SignFrom(pass, ps, size, BucketEnd(|ps|, size, lo), n + 1).Some?;
    }
  }

  /** A pass succeeds if and only if every one of its buckets is signed. */
  lemma SignedExactly(pass: Pass, ps: seq<P.PreparedEntry>, size: nat)
    ensures Signed(pass, ps, size).Some? <==> forall n: nat :: BucketSigns(pass, ps, Width(size), n)
  {
    SignFromExactly(pass, ps, size, 0, 0);
  }
}
