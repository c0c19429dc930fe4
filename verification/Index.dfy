/**
 Index records: their 48-byte form, their order, and the searches over them
 (crates/ahu/src/index.rs).
 */
module Index {
  import opened Wrappers
  import opened Bytes

  const RECORD_SIZE: nat := 48
  const DEFAULT_DISCRIMINATOR: u16 := 0

  datatype Flags = Flags(multi: bool, alias: bool, tombstone: bool)

  function Bits(f: Flags): u16 {
    (if f.multi then 1 else 0) + (if f.alias then 2 else 0) + (if f.tombstone then 4 else 0)
  }

  /** Unknown bits are dropped on read. */
  function FromBitsTruncate(raw: u16): Flags {
    Flags(raw % 2 == 1, raw / 2 % 2 == 1, raw / 4 % 2 == 1)
  }

  datatype IndexRecord = IndexRecord(
    entryKey: Digest,
    dataOffset: u64,
    dataLength: u32,
    flags: Flags,
    discriminator: u16)

  function WriteRecord(r: IndexRecord): (b: Bytes)
    ensures |b| == RECORD_SIZE
  {
    r.entryKey + ToBigEndian(r.dataOffset, 8) + ToBigEndian(r.dataLength, 4)
    + ToBigEndian(Bits(r.flags), 2) + ToBigEndian(r.discriminator, 2)
  }

  function ReadRecord(b: Bytes): IndexRecord
    requires |b| == RECORD_SIZE
  {
    Widths();
    IndexRecord(b[..32], FromBigEndian(b[32..40]), FromBigEndian(b[40..44]),
                FromBitsTruncate(FromBigEndian(b[44..46])), FromBigEndian(b[46..48]))
  }

  lemma RecordRoundTrip(r: IndexRecord)
    ensures ReadRecord(WriteRecord(r)) == r
  {
    var b := WriteRecord(r);
    Widths();
    assert b[..32] == r.entryKey;
    assert b[32..40] == ToBigEndian(r.dataOffset, 8);
    assert b[40..44] == ToBigEndian(r.dataLength, 4);
    assert b[44..46] == ToBigEndian(Bits(r.flags), 2);
    assert b[46..48] == ToBigEndian(r.discriminator, 2);
    BigEndianRoundTrip(r.dataOffset, 8);
    BigEndianRoundTrip(r.dataLength, 4);
    BigEndianRoundTrip(Bits(r.flags), 2);
    BigEndianRoundTrip(r.discriminator, 2);
  }

  lemma KnownBits(raw: u16)
    ensures Bits(FromBitsTruncate(raw)) == raw <==> raw < 8
  {
  }

  /** Reading and writing back is exact if and only if no unknown flag bit is set. */
  lemma RecordRewrite(b: Bytes)
    requires |b| == RECORD_SIZE
    ensures WriteRecord(ReadRecord(b)) == b <==> FromBigEndian(b[44..46]) < 8
  {
    var raw, r := FromBigEndian(b[44..46]), ReadRecord(b);
    KnownBits(raw);
    if raw < 8 {
      BigEndianUnique(b[32..40]);
      BigEndianUnique(b[40..44]);
      BigEndianUnique(b[44..46]);
      BigEndianUnique(b[46..48]);
      assert b == b[..32] + b[32..40] + b[40..44] + b[44..46] + b[46..48];
    } else {
      Widths();
      BigEndianRoundTrip(Bits(r.flags), 2);
      assert WriteRecord(r)[44..46] == ToBigEndian(Bits(r.flags), 2);
    }
  }

  // ---- the index section -----------------------------------------------------------

  function EncodeIndex(rs: seq<IndexRecord>): (b: Bytes)
    ensures |b| == RECORD_SIZE * |rs|
  {
    if rs == [] then [] else EncodeIndex(rs[..|rs| - 1]) + WriteRecord(rs[|rs| - 1])
  }

  function RecordAt(b: Bytes, n: nat): IndexRecord
    requires RECORD_SIZE * n + RECORD_SIZE <= |b|
  {
    ReadRecord(b[RECORD_SIZE * n..RECORD_SIZE * n + RECORD_SIZE])
  }

  function DecodeIndex(b: Bytes): (rs: seq<IndexRecord>)
    requires |b| % RECORD_SIZE == 0
    ensures |rs| == |b| / RECORD_SIZE
    ensures forall n :: 0 <= n < |rs| ==> rs[n] == RecordAt(b, n)
  {
    seq(|b| / RECORD_SIZE, n requires 0 <= n < |b| / RECORD_SIZE => RecordAt(b, n))
  }

  lemma {:induction false} EncodedAt(rs: seq<IndexRecord>, n: nat)
    requires n < |rs|
    ensures EncodeIndex(rs)[RECORD_SIZE * n..RECORD_SIZE * n + RECORD_SIZE] == WriteRecord(rs[n])
  {
    var init := rs[..|rs| - 1];
    if n < |init| {
      EncodedAt(init, n);
      assert EncodeIndex(rs)[RECORD_SIZE * n..RECORD_SIZE * n + RECORD_SIZE]
          == EncodeIndex(init)[RECORD_SIZE * n..RECORD_SIZE * n + RECORD_SIZE];
    }
  }

  lemma IndexRoundTrip(rs: seq<IndexRecord>)
    ensures DecodeIndex(EncodeIndex(rs)) == rs
  {
    forall n | 0 <= n < |rs|
      ensures DecodeIndex(EncodeIndex(rs))[n] == rs[n]
    {
      EncodedAt(rs, n);
      RecordRoundTrip(rs[n]);
    }
  }

  /** The reader's loop over a section whose length has been checked. */
  method ParseIndex(b: Bytes) returns (r: Option<seq<IndexRecord>>)
    ensures r.Some? <==> |b| % RECORD_SIZE == 0
    ensures r.Some? ==> r.value == DecodeIndex(b)
  {
    if |b| % RECORD_SIZE != 0 {
      return None;
    }
    var records: seq<IndexRecord> := [];
    var cursor := 0;
    for n := 0 to |b| / RECORD_SIZE
      invariant cursor == RECORD_SIZE * n
      invariant records == DecodeIndex(b)[..n]
    {
      records := records + [ReadRecord(b[cursor..cursor + RECORD_SIZE])];
      cursor := cursor + RECORD_SIZE;
    }
    r := Some(records);
  }

  /** The writer's loop. */
  method WriteIndex(rs: seq<IndexRecord>) returns (b: Bytes)
    ensures b == EncodeIndex(rs)
  {
    b := [];
    for n := 0 to |rs|
      invariant b == EncodeIndex(rs[..n])
    {
      b := b + WriteRecord(rs[n]);
      assert rs[..n + 1][..n] == rs[..n];
    }
    assert rs[..|rs|] == rs;
  }

  // ---- order ----------------------------------------------------------------------

  /** What names an entry: its key and its signature-algorithm variant. */
  datatype EntryId = EntryId(key: Digest, disc: u16)

  function IdOf(r: IndexRecord): EntryId {
    EntryId(r.entryKey, r.discriminator)
  }

  predicate IdLess(a: EntryId, b: EntryId) {
    Less(a.key, b.key) || (a.key == b.key && a.disc < b.disc)
  }

  lemma IdIrreflexive(a: EntryId)
    ensures !IdLess(a, a)
  {
    LessIrreflexive(a.key);
  }

  lemma IdTransitive(a: EntryId, b: EntryId, c: EntryId)
    requires IdLess(a, b) && IdLess(b, c)
    ensures IdLess(a, c)
  {
    if Less(a.key, b.key) && Less(b.key, c.key) {
      LessTransitive(a.key, b.key, c.key);
    }
  }

  lemma IdTotal(a: EntryId, b: EntryId)
    ensures IdLess(a, b) || a == b || IdLess(b, a)
  {
    LessTotal(a.key, b.key);
  }

  ghost predicate StrictlySorted(rs: seq<IndexRecord>) {
    forall a, b :: 0 <= a < b < |rs| ==> IdLess(IdOf(rs[a]), IdOf(rs[b]))
  }

  datatype SortError = NotSorted(at: nat) | DuplicateKey(at: nat)

  lemma {:induction false} AdjacentIsEnough(rs: seq<IndexRecord>, a: nat, b: nat)
    requires forall n :: 0 <= n < |rs| - 1 ==> IdLess(IdOf(rs[n]), IdOf(rs[n + 1]))
    requires a < b < |rs|
    ensures IdLess(IdOf(rs[a]), IdOf(rs[b]))
    decreases b
  {
    if a < b - 1 {
      AdjacentIsEnough(rs, a, b - 1);
      IdTransitive(IdOf(rs[a]), IdOf(rs[b - 1]), IdOf(rs[b]));
    }
  }

  /** Compares neighbours only; accepts exactly the strictly sorted sequences. */
  method ValidateSortOrder(rs: seq<IndexRecord>) returns (r: Result<(), SortError>)
    ensures r.Ok? <==> StrictlySorted(rs)
    ensures r.Err? ==> r.error.at + 1 < |rs|
                       && !IdLess(IdOf(rs[r.error.at]), IdOf(rs[r.error.at + 1]))
                       && (forall n :: 0 <= n < r.error.at ==> IdLess(IdOf(rs[n]), IdOf(rs[n + 1])))
                       && (r.error.DuplicateKey? <==> IdOf(rs[r.error.at]) == IdOf(rs[r.error.at + 1]))
  {
    for n := 0 to |rs|
      invariant forall m :: 0 <= m < n && m + 1 < |rs| ==> IdLess(IdOf(rs[m]), IdOf(rs[m + 1]))
    {
      if n + 1 < |rs| && !IdLess(IdOf(rs[n]), IdOf(rs[n + 1])) {
        return Err(if IdOf(rs[n]) == IdOf(rs[n + 1]) then DuplicateKey(n) else NotSorted(n));
      }
    }
    forall a, b | 0 <= a < b < |rs|
      ensures IdLess(IdOf(rs[a]), IdOf(rs[b]))
    {
      AdjacentIsEnough(rs, a, b);
    }
    r := Ok(());
  }

  // ---- search ----------------------------------------------------------------------

  /** Bisection between `lo` and `hi`; a hit always matches, a miss means absence once sorted. */
  function SearchBetween(rs: seq<IndexRecord>, id: EntryId, lo: nat, hi: nat): (r: Option<nat>)
    requires lo <= hi <= |rs|
    ensures r.Some? ==> lo <= r.value < hi && IdOf(rs[r.value]) == id
    ensures StrictlySorted(rs) && r.None? ==> forall n :: lo <= n < hi ==> IdOf(rs[n]) != id
    decreases hi - lo
  {
    if lo == hi then None
    else
      var mid := lo + (hi - lo) / 2;
      if IdOf(rs[mid]) == id then Some(mid)
      else if IdLess(IdOf(rs[mid]), id) then
        BelowProbe(rs, id, lo, mid);
        SearchBetween(rs, id, mid + 1, hi)
      else
        AboveProbe(rs, id, mid, hi);
        SearchBetween(rs, id, lo, mid)
  }

  lemma BelowProbe(rs: seq<IndexRecord>, id: EntryId, lo: nat, mid: nat)
    requires lo <= mid < |rs| && IdLess(IdOf(rs[mid]), id)
    ensures StrictlySorted(rs) ==> forall n :: lo <= n <= mid ==> IdOf(rs[n]) != id
  {
    if StrictlySorted(rs) {
      forall n | lo <= n <= mid
        ensures IdOf(rs[n]) != id
      {
        if n < mid {
          IdTransitive(IdOf(rs[n]), IdOf(rs[mid]), id);
        }
        IdIrreflexive(id);
      }
    }
  }

  lemma AboveProbe(rs: seq<IndexRecord>, id: EntryId, mid: nat, hi: nat)
    requires mid < hi <= |rs| && IdOf(rs[mid]) != id && !IdLess(IdOf(rs[mid]), id)
    ensures StrictlySorted(rs) ==> forall n :: mid <= n < hi ==> IdOf(rs[n]) != id
  {
    if StrictlySorted(rs) {
      IdTotal(IdOf(rs[mid]), id);
      forall n | mid <= n < hi
        ensures IdOf(rs[n]) != id
      {
        if mid < n {
          IdTransitive(id, IdOf(rs[mid]), IdOf(rs[n]));
        }
        IdIrreflexive(id);
      }
    }
  }

  function Search(rs: seq<IndexRecord>, id: EntryId): (r: Option<nat>)
    ensures r.Some? ==> r.value < |rs| && IdOf(rs[r.value]) == id
    ensures StrictlySorted(rs) && r.None? ==> forall n :: 0 <= n < |rs| ==> IdOf(rs[n]) != id
  {
    SearchBetween(rs, id, 0, |rs|)
  }

  /** In a strictly sorted index there is one answer. */
  lemma SearchUnique(rs: seq<IndexRecord>, id: EntryId, n: nat)
    requires StrictlySorted(rs) && n < |rs| && IdOf(rs[n]) == id
    ensures Search(rs, id) == Some(n)
  {
    IdIrreflexive(id);
  }

  /** The first preference with a record, then the default unless it was among them. */
  function Preferred(rs: seq<IndexRecord>, key: Digest, prefs: seq<u16>, tried: seq<u16>): Option<nat> {
    if prefs == [] then
      if DEFAULT_DISCRIMINATOR in tried then None else Search(rs, EntryId(key, DEFAULT_DISCRIMINATOR))
    else
      var hit := Search(rs, EntryId(key, prefs[0]));
      if hit.Some? then hit else Preferred(rs, key, prefs[1..], tried + [prefs[0]])
  }

  method SearchPreferred(rs: seq<IndexRecord>, key: Digest, prefs: seq<u16>) returns (r: Option<nat>)
    ensures r == Preferred(rs, key, prefs, [])
  {
    for n := 0 to |prefs|
      invariant Preferred(rs, key, prefs, []) == Preferred(rs, key, prefs[n..], prefs[..n])
    {
      var hit := Search(rs, EntryId(key, prefs[n]));
      if hit.Some? {
        return hit;
      }
      assert prefs[n..][1..] == prefs[n + 1..] && prefs[..n] + [prefs[n]] == prefs[..n + 1];
    }
    assert prefs[|prefs|..] == [] && prefs[..|prefs|] == prefs;
    r := if DEFAULT_DISCRIMINATOR in prefs then None else Search(rs, EntryId(key, DEFAULT_DISCRIMINATOR));
  }
}
