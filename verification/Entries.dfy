/**
 The entries a bundle is built from, what they stand for, and their stable sort
 (crates/ahu/src/bundle.rs).
 */
module Entries {
  import opened Wrappers
  import opened Bytes
  import opened Collections
  import opened Index
  import opened Bundle

  datatype Entry = Entry(record: IndexRecord, payload: Bytes)

  const NO_FLAGS := Flags(false, false, false)
  const DUAL_FLAGS := Flags(true, true, false)
  const TOMBSTONE_FLAGS := Flags(false, false, true)

  function AsU32(n: nat): u32 {
    n % U32_LIMIT
  }

  function AsU64(n: nat): u64 {
    n % U64_LIMIT
  }

  function MakeEntry(id: EntryId, flags: Flags, payload: Bytes): Entry {
    Entry(IndexRecord(id.key, 0, AsU32(|payload|), flags, id.disc), payload)
  }

  function Id(e: Entry): EntryId {
    IdOf(e.record)
  }

  /** What a reader can get back of a payload: lengths are kept in 32 bits. */
  function Stored(payload: Bytes): (r: Bytes)
    ensures r == payload <==> |payload| < U32_LIMIT
  {
    payload[..AsU32(|payload|)]
  }

  /** A payload of exactly 2^32 bytes reads back empty. */
  lemma LongPayloadIsCut(payload: Bytes)
    requires |payload| == U32_LIMIT
    ensures Stored(payload) == []
  {
  }

  function Denoted(e: Entry): Option<Bytes> {
    if e.record.flags.tombstone then None else Some(Stored(e.payload))
  }

  /** The plain map the added entries stand for. */
  function Meaning(es: seq<Entry>): Content {
    if es == [] then map[] else Meaning(es[..|es| - 1])[Id(es[|es| - 1]) := Denoted(es[|es| - 1])]
  }

  predicate DistinctIds(es: seq<Entry>) {
    es == [] || (DistinctIds(es[..|es| - 1]) && Fresh(es[..|es| - 1], Id(es[|es| - 1])))
  }

  predicate Fresh(es: seq<Entry>, id: EntryId) {
    forall e :: e in es ==> Id(e) != id
  }

  // ---- the stable sort -------------------------------------------------------------

  /** `e` goes after every entry that does not exceed it. */
  function Insert(e: Entry, s: seq<Entry>): seq<Entry> {
    if s == [] then [e]
    else if IdLess(Id(e), Id(s[|s| - 1])) then Insert(e, s[..|s| - 1]) + [s[|s| - 1]]
    else s + [e]
  }

  function Sorted(es: seq<Entry>): seq<Entry> {
    if es == [] then [] else Insert(es[|es| - 1], Sorted(es[..|es| - 1]))
  }

  ghost predicate InOrder(s: seq<Entry>) {
    forall a, b :: 0 <= a < b < |s| ==> !IdLess(Id(s[b]), Id(s[a]))
  }

  function Pick(e: Entry, id: EntryId): seq<Entry> {
    if Id(e) == id then [e] else []
  }

  /** The entries with one identifier, in order. */
  function Select(es: seq<Entry>, id: EntryId): seq<Entry> {
    if es == [] then []
    else Select(es[..|es| - 1], id) + Pick(es[|es| - 1], id)
  }

  lemma {:induction false} InsertMembers(e: Entry, s: seq<Entry>, x: Entry)
    ensures x in Insert(e, s) <==> x == e || x in s
  {
    if s != [] {
      SnocMembers(s, x);
      InsertMembers(e, s[..|s| - 1], x);
    }
  }

  lemma {:induction false} InsertInOrder(e: Entry, s: seq<Entry>)
    requires InOrder(s)
    ensures InOrder(Insert(e, s))
  {
    if s != [] {
      var last := s[|s| - 1];
      if IdLess(Id(e), Id(last)) {
        InsertInOrder(e, s[..|s| - 1]);
        var t := Insert(e, s[..|s| - 1]);
        forall a | 0 <= a < |t|
          ensures !IdLess(Id(last), Id(t[a]))
        {
          InsertMembers(e, s[..|s| - 1], t[a]);
          NotBelow(Id(e), Id(last));
        }
      } else {
        forall a | 0 <= a < |s|
          ensures !IdLess(Id(e), Id(s[a]))
        {
          IdIrreflexive(Id(last));
          NotBelowChain(Id(e), Id(last), Id(s[a]));
        }
      }
    }
  }

  lemma NotBelow(a: EntryId, b: EntryId)
    requires IdLess(a, b)
    ensures !IdLess(b, a)
  {
    IdIrreflexive(a);
    if IdLess(b, a) {
      IdTransitive(a, b, a);
    }
  }

  /** From c <= b <= a follows c <= a. */
  lemma NotBelowChain(a: EntryId, b: EntryId, c: EntryId)
    requires !IdLess(a, b) && !IdLess(b, c)
    ensures !IdLess(a, c)
  {
    if IdLess(a, c) {
      IdTotal(b, c);
      if IdLess(c, b) {
        IdTransitive(a, c, b);
      }
    }
  }

  lemma {:induction false} SortedInOrder(es: seq<Entry>)
    ensures InOrder(Sorted(es))
  {
    if es != [] {
      SortedInOrder(es[..|es| - 1]);
      InsertInOrder(es[|es| - 1], Sorted(es[..|es| - 1]));
    }
  }

  lemma {:induction false} SortedMembers(es: seq<Entry>, x: Entry)
    ensures x in Sorted(es) <==> x in es
  {
    if es != [] {
      SortedMembers(es[..|es| - 1], x);
      InsertMembers(es[|es| - 1], Sorted(es[..|es| - 1]), x);
      SnocMembers(es, x);
    }
  }

  lemma SelectSnoc(s: seq<Entry>, e: Entry, id: EntryId)
    ensures Select(s + [e], id) == Select(s, id) + Pick(e, id)
  {
    assert (s + [e])[..|s|] == s;
  }

  lemma SwapPicks(x: seq<Entry>, a: Entry, b: Entry, id: EntryId)
    requires Id(a) != Id(b)
    ensures x + Pick(a, id) + Pick(b, id) == x + Pick(b, id) + Pick(a, id)
  {
  }

  lemma SelectThenLess(e: Entry, init: seq<Entry>, last: Entry, id: EntryId)
    requires IdLess(Id(e), Id(last))
    requires Select(Insert(e, init), id) == Select(init, id) + Pick(e, id)
    ensures Select(Insert(e, init) + [last], id) == Select(init + [last], id) + Pick(e, id)
  {
    SelectSnoc(Insert(e, init), last, id);
    SelectSnoc(init, last, id);
    IdIrreflexive(Id(e));
    SwapPicks(Select(init, id), e, last, id);
  }

  lemma {:induction false} InsertSelects(e: Entry, s: seq<Entry>, id: EntryId)
    ensures Select(Insert(e, s), id) == Select(s, id) + Pick(e, id)
  {
    if s != [] && IdLess(Id(e), Id(s[|s| - 1])) {
      InsertSelects(e, s[..|s| - 1], id);
      SelectThenLess(e, s[..|s| - 1], s[|s| - 1], id);
      assert s == s[..|s| - 1] + [s[|s| - 1]];
    } else {
      assert Insert(e, s) == s + [e];
      SelectSnoc(s, e, id);
    }
  }

  /** Entries with equal identifiers keep the order in which they were added. */
  lemma {:induction false} SortIsStable(es: seq<Entry>, id: EntryId)
    ensures Select(Sorted(es), id) == Select(es, id)
  {
    if es != [] {
      var init := es[..|es| - 1];
      SortIsStable(init, id);
      InsertSelects(es[|es| - 1], Sorted(init), id);
    }
  }

  lemma FreshSnoc(s: seq<Entry>, e: Entry, id: EntryId)
    ensures Fresh(s + [e], id) <==> Fresh(s, id) && Id(e) != id
  {
    assert e in s + [e];
    assert forall x :: x in s ==> x in s + [e];
  }

  lemma {:induction false} InsertFresh(e: Entry, s: seq<Entry>, id: EntryId)
    ensures Fresh(Insert(e, s), id) <==> Fresh(s, id) && Id(e) != id
  {
    if s == [] {
      FreshSnoc(s, e, id);
      assert [e] == s + [e];
    } else if IdLess(Id(e), Id(s[|s| - 1])) {
      var init, last := s[..|s| - 1], s[|s| - 1];
      InsertFresh(e, init, id);
      FreshSnoc(Insert(e, init), last, id);
      FreshSnoc(init, last, id);
      assert s == init + [last];
    } else {
      FreshSnoc(s, e, id);
    }
  }

  lemma {:induction false} InsertDistinct(e: Entry, s: seq<Entry>)
    ensures DistinctIds(Insert(e, s)) <==> DistinctIds(s) && Fresh(s, Id(e))
  {
    if s != [] {
      var init, last := s[..|s| - 1], s[|s| - 1];
      if IdLess(Id(e), Id(last)) {
        var t := Insert(e, init);
        InsertDistinct(e, init);
        InsertFresh(e, init, Id(last));
        FreshSnoc(init, last, Id(e));
        assert s == init + [last] && (t + [last])[..|t|] == t;
      } else {
        assert (s + [e])[..|s|] == s;
      }
    }
  }

  lemma SortedFresh(es: seq<Entry>, id: EntryId)
    ensures Fresh(Sorted(es), id) <==> Fresh(es, id)
  {
    forall e
      ensures e in Sorted(es) <==> e in es
    {
      SortedMembers(es, e);
    }
  }

  lemma {:induction false} SortedDistinct(es: seq<Entry>)
    ensures DistinctIds(Sorted(es)) <==> DistinctIds(es)
  {
    if es != [] {
      var init := es[..|es| - 1];
      SortedDistinct(init);
      SortedFresh(init, Id(es[|es| - 1]));
      InsertDistinct(es[|es| - 1], Sorted(init));
    }
  }

  lemma MeaningSnoc(s: seq<Entry>, e: Entry)
    ensures Meaning(s + [e]) == Meaning(s)[Id(e) := Denoted(e)]
  {
    assert (s + [e])[..|s|] == s;
  }

  lemma {:induction false} InsertMeaning(e: Entry, s: seq<Entry>)
    requires DistinctIds(s) && Fresh(s, Id(e))
    ensures Meaning(Insert(e, s)) == Meaning(s)[Id(e) := Denoted(e)]
  {
    if s != [] && IdLess(Id(e), Id(s[|s| - 1])) {
      var init, last := s[..|s| - 1], s[|s| - 1];
      assert last in s && s == init + [last];
      FreshSnoc(init, last, Id(e));
      InsertMeaning(e, init);
      MeaningSnoc(Insert(e, init), last);
      MeaningSnoc(init, last);
      UpdatesCommute(Meaning(init), Id(e), Denoted(e), Id(last), Denoted(last));
    } else {
      assert Insert(e, s) == s + [e];
      MeaningSnoc(s, e);
    }
  }

  lemma UpdatesCommute(m: Content, a: EntryId, x: Option<Bytes>, b: EntryId, y: Option<Bytes>)
    requires a != b
    ensures m[a := x][b := y] == m[b := y][a := x]
  {
  }

  /** Sorting does not change what distinct entries stand for. */
  lemma {:induction false} SortedMeaning(es: seq<Entry>)
    requires DistinctIds(es)
    ensures Meaning(Sorted(es)) == Meaning(es)
  {
    if es != [] {
      var init := es[..|es| - 1];
      SortedMeaning(init);
      SortedDistinct(init);
      SortedFresh(init, Id(es[|es| - 1]));
      InsertMeaning(es[|es| - 1], Sorted(init));
    }
  }

  lemma {:induction false} DistinctPairs(s: seq<Entry>)
    ensures DistinctIds(s) <==> forall a, b :: 0 <= a < b < |s| ==> Id(s[a]) != Id(s[b])
  {
    if s != [] {
      var init, last := s[..|s| - 1], |s| - 1;
      DistinctPairs(init);
      assert forall a :: 0 <= a < last ==> s[a] == init[a] && init[a] in init;
      assert Fresh(init, Id(s[last])) <==> forall a :: 0 <= a < last ==> Id(s[a]) != Id(s[last]);
    }
  }

  /** Every added entry is found under its identifier, up to the 32-bit length. */
  lemma {:induction false} AddedIsMeant(es: seq<Entry>, n: nat)
    requires DistinctIds(es) && n < |es|
    ensures Id(es[n]) in Meaning(es) && Meaning(es)[Id(es[n])] == Denoted(es[n])
  {
    if n < |es| - 1 {
      AddedIsMeant(es[..|es| - 1], n);
      assert es[n] in es[..|es| - 1];
    }
  }

  lemma {:induction false} MeaningKeys(es: seq<Entry>, id: EntryId)
    ensures id in Meaning(es) <==> !Fresh(es, id)
  {
    if es != [] {
      var init, last := es[..|es| - 1], es[|es| - 1];
      MeaningKeys(init, id);
      FreshSnoc(init, last, id);
      assert es == init + [last];
    }
  }

  lemma {:induction false} MeaningConcat(s: seq<Entry>, t: seq<Entry>)
    ensures Meaning(s + t) == Meaning(s) + Meaning(t)
  {
    if t == [] {
      assert s + t == s;
    } else {
      var init, last := t[..|t| - 1], t[|t| - 1];
      assert s + t == (s + init) + [last];
      MeaningSnoc(s + init, last);
      MeaningConcat(s, init);
    }
  }
}
