/**
 The structural difference of two bundles, and how it reads on a base and what
 one delta made of it (crates/ahu/src/ops.rs).
 */
module Diff {
  import opened Wrappers
  import opened Bytes
  import opened Collections
  import opened Manifest
  import opened Index
  import opened Bundle
  import opened Entries
  import opened Builder
  import opened Overlay
  import opened DeltaOps

  /** Entry references are collected from hash sets, so their order carries no meaning. */
  datatype DiffResult = DiffResult(
    aEntryCount: nat,
    bEntryCount: nat,
    aEpochs: seq<u64>,
    bEpochs: seq<u64>,
    added: set<EntryId>,
    removed: set<EntryId>,
    changed: set<EntryId>,
    same: nat)

  function IdsOver(rs: seq<IndexRecord>): set<EntryId> {
    if rs == [] then {} else IdsOver(rs[..|rs| - 1]) + {IdOf(rs[|rs| - 1])}
  }

  function Ids(b: Bundle): set<EntryId> {
    IdsOver(b.index)
  }

  lemma {:induction false} IdsAreKeysOver(b: Bundle, rs: seq<IndexRecord>)
    ensures IdsOver(rs) == ContentOver(b, rs).Keys
  {
    if rs != [] {
      IdsAreKeysOver(b, rs[..|rs| - 1]);
    }
  }

  lemma IdsAreKeys(b: Bundle)
    ensures Ids(b) == ContentOf(b).Keys
  {
    IdsAreKeysOver(b, b.index);
  }

  function Epochs(ss: seq<CaScope>): seq<u64> {
    seq(|ss|, n requires 0 <= n < |ss| => ss[n].epoch)
  }

  /** The shared identifiers whose responses differ. */
  function ChangedAmong(a: Bundle, b: Bundle, ids: set<EntryId>): set<EntryId> {
    set id | id in ids && LookupId(a, id) != LookupId(b, id)
  }

  lemma ChangedOneMore(a: Bundle, b: Bundle, seen: set<EntryId>, id: EntryId)
    requires id !in seen
    ensures ChangedAmong(a, b, seen + {id})
         == if LookupId(a, id) != LookupId(b, id) then ChangedAmong(a, b, seen) + {id} else ChangedAmong(a, b, seen)
    ensures |seen + {id}| == |seen| + 1
    ensures |ChangedAmong(a, b, seen + {id})|
         == |ChangedAmong(a, b, seen)| + if LookupId(a, id) != LookupId(b, id) then 1 else 0
  {
    Grown(ChangedAmong(a, b, seen), ChangedAmong(a, b, seen + {id}), id, LookupId(a, id) != LookupId(b, id));
  }

  method Diff(a: Bundle, b: Bundle) returns (r: DiffResult)
    ensures r.aEntryCount == |a.index| && r.bEntryCount == |b.index|
    ensures r.aEpochs == Epochs(a.manifest.caScopes) && r.bEpochs == Epochs(b.manifest.caScopes)
    ensures r.added == Ids(b) - Ids(a) && r.removed == Ids(a) - Ids(b)
    ensures r.changed == ChangedAmong(a, b, Ids(a) * Ids(b))
    // every identifier of either side is counted once
    ensures |r.added| + |r.changed| + r.same == |Ids(b)|
    ensures |r.removed| + |r.changed| + r.same == |Ids(a)|
    ensures StrictlySorted(b.index) ==> |r.added| + |r.changed| + r.same == r.bEntryCount
    ensures StrictlySorted(a.index) ==> |r.removed| + |r.changed| + r.same == r.aEntryCount
  {
    var keysA, keysB := Ids(a), Ids(b);
    var changed: set<EntryId> := {};
    var same, left := 0, keysA * keysB;
    ghost var seen: set<EntryId> := {};
    while left != {}
      invariant Parts(left, seen, keysA * keysB)
      invariant changed == ChangedAmong(a, b, seen)
      invariant |changed| + same == |seen|
      decreases |left|
    {
      var id :| id in left;
      VisitOne(left, seen, keysA * keysB, id);
      ChangedOneMore(a, b, seen, id);
      if LookupId(a, id) != LookupId(b, id) {
        changed := changed + {id};
      } else {
        same := same + 1;
      }
      left := left - {id};
      seen := seen + {id};
    }
    VisitedAll(seen, keysA * keysB);
    DiffPartitions(a, b);
    r := DiffResult(|a.index|, |b.index|, Epochs(a.manifest.caScopes), Epochs(b.manifest.caScopes),
                    keysB - keysA, keysA - keysB, changed, same);
  }

  /** The three parts split both key sets without overlap. */
  lemma DiffPartitions(a: Bundle, b: Bundle)
    ensures |Ids(b) - Ids(a)| + |Ids(a) * Ids(b)| == |Ids(b)|
    ensures |Ids(a) - Ids(b)| + |Ids(a) * Ids(b)| == |Ids(a)|
    ensures StrictlySorted(b.index) ==> |Ids(b)| == |b.index|
    ensures StrictlySorted(a.index) ==> |Ids(a)| == |a.index|
  {
    SplitSize(Ids(b), Ids(b) - Ids(a), Ids(a) * Ids(b));
    SplitSize(Ids(a), Ids(a) - Ids(b), Ids(a) * Ids(b));
    if StrictlySorted(b.index) {
      OneRecordEach(b);
    }
    if StrictlySorted(a.index) {
      OneRecordEach(a);
    }
  }

  /** In a verified bundle each record is one identifier. */
  lemma {:induction false} SortedIdsCount(b: Bundle, n: nat)
    requires StrictlySorted(b.index) && n <= |b.index|
    ensures |IdsOver(b.index[..n])| == n
  {
    if n > 0 {
      SortedIdsCount(b, n - 1);
      NextIsFresh(b, n - 1);
      IdsAreKeysOver(b, b.index[..n - 1]);
      assert b.index[..n][..n - 1] == b.index[..n - 1];
    }
  }

  // ---- the difference one delta makes --------------------------------------------------

  /** Identifiers the base mentions only to remove them. */
  function BaseTombstones(base: Bundle): set<EntryId> {
    Ids(base) - Overlaid(map[], base).Keys
  }

  /** `out` answers exactly the working set left by the chain. */
  ghost predicate Materializes(out: Bundle, ws: WorkingSet) {
    && StrictlySorted(out.index)
    && Ids(out) == ws.Keys
    && forall id :: id in ws ==> LookupId(out, id) == Some(ws[id].data)
  }

  lemma AddedByDelta(base: Bundle, d: Bundle, out: Bundle)
    requires Materializes(out, Chain(base, [d]))
    ensures var ws := Overlaid(map[], base);
            && Ids(out) - Ids(base) == AddedIds(ws, ContentOf(d)) - BaseTombstones(base)
            && Ids(base) - Ids(out) == RemovedIds(ws, ContentOf(d)) + (BaseTombstones(base) - Ids(out))
            && BaseTombstones(base) * Ids(out) <= AddedIds(ws, ContentOf(d))
  {
    var ws := Overlaid(map[], base);
    assert Chain(base, [d]) == Overlaid(ws, d) by {
      assert ChainTo(base, [d], 0) == ws;
    }
    OverlayKeys(ws, ContentOf(d), d.manifest.window);
    IdsAreKeys(base);
    assert ws.Keys <= Ids(base);
  }

  lemma Untouched<T>(s: set<T>, t: set<T>)
    ensures |s - t| == |s| <==> s * t == {}
  {
    SplitSize(s, s - t, s * t);
  }

  lemma NothingMore<T>(s: set<T>, t: set<T>)
    requires s !! t
    ensures |s + t| == |s| <==> t == {}
  {
    SplitSize(s + t, s, t);
  }

  lemma CountsAgree<T>(added: set<T>, removed: set<T>, t: set<T>, kept: set<T>)
    requires removed !! t && t * kept <= added
    ensures |added - t| == |added| && |removed + (t - kept)| == |removed| <==> t == {}
  {
    Untouched(added, t);
    NothingMore(removed, t - kept);
    assert t == t * kept + (t - kept);
  }

  /**
   The difference between a base and what one delta made of it counts the same
   additions and removals as the delta's own statistics, exactly when the base
   holds no tombstones.
   */
  lemma DiffMatchesStats(base: Bundle, d: Bundle, out: Bundle)
    requires Materializes(out, Chain(base, [d]))
    ensures var stat := StatOf(Overlaid(map[], base), d);
            |Ids(out) - Ids(base)| == stat.added && |Ids(base) - Ids(out)| == stat.removed
            <==> BaseTombstones(base) == {}
  {
    var ws := Overlaid(map[], base);
    AddedByDelta(base, d, out);
    OverlayKeys(ws, ContentOf(d), d.manifest.window);
    CountsAgree(AddedIds(ws, ContentOf(d)), RemovedIds(ws, ContentOf(d)), BaseTombstones(base), Ids(out));
  }

  lemma LoneTombstone<E>(c: Codec, m: Manifest, id: EntryId, seal: Seal<E>)
    requires Faithful(c) && m.bundleType.Full? && Fits(c, m, [MakeEntry(id, TOMBSTONE_FLAGS, [])], seal)
    ensures var base := BuiltBundle(c, m, [MakeEntry(id, TOMBSTONE_FLAGS, [])], seal);
            && StructureOk(c, base) && Ids(base) == {id} && Overlaid(map[], base) == map[]
  {
    var e := MakeEntry(id, TOMBSTONE_FLAGS, []);
    assert [e][..0] == [];
    assert DistinctIds([]) && DistinctIds([e]) && Meaning([]) == map[] && Meaning([e]) == map[id := None];
    BuildVerifies(c, m, [e], seal);
    BuildRefines(c, m, [e], seal);
    IdsAreKeys(BuiltBundle(c, m, [e], seal));
  }

  lemma EmptyDelta<E>(c: Codec, m: Manifest, seal: Seal<E>)
    requires Faithful(c) && Fits(c, m, [], seal)
    requires m.bundleType.Delta? ==> m.continuity.baseManifestDigest.Some?
    ensures StructureOk(c, BuiltBundle(c, m, [], seal)) && ContentOf(BuiltBundle(c, m, [], seal)) == map[]
  {
    BuildVerifies(c, m, [], seal);
    BuildRefines(c, m, [], seal);
  }

  /**
   Such a base: its one entry is a tombstone, and the delta applied to it is empty.
   The delta's statistics report no removal, the difference reports one.
   */
  lemma TombstoneIsMiscounted<E>(
    c: Codec, m: Manifest, n: Manifest, id: EntryId, seal: Seal<E>, base: Bundle, d: Bundle, out: Bundle)
    requires Faithful(c) && m.bundleType.Full? && n.bundleType.Delta?
    requires Fits(c, m, [MakeEntry(id, TOMBSTONE_FLAGS, [])], seal) && Fits(c, n, [], seal)
    requires base == BuiltBundle(c, m, [MakeEntry(id, TOMBSTONE_FLAGS, [])], seal) && d == BuiltBundle(c, n, [], seal)
    requires n.continuity.baseManifestDigest == Some(c.sha(base.manifestBytes))
    requires n.continuity.prevManifestDigest.None?
    requires n.producerId == m.producerId && n.caScopes == m.caScopes && MaxEpoch(m.caScopes) < U64_MAX
    requires Materializes(out, Chain(base, [d]))
    ensures Applicable(c, base, [d])
    ensures |Ids(base) - Ids(out)| == 1 && StatOf(Overlaid(map[], base), d).removed == 0
  {
    LoneTombstone(c, m, id, seal);
    EmptyDelta(c, n, seal);
    BuiltManifest(c, m, [MakeEntry(id, TOMBSTONE_FLAGS, [])], seal);
    BuiltManifest(c, n, [], seal);
    NothingLeft(base, d, id, out);
    OneLinkApplies(c, base, d);
  }

  lemma BuiltManifest<E>(c: Codec, m: Manifest, es: seq<Entry>, seal: Seal<E>)
    requires Fits(c, m, es, seal)
    ensures var b := BuiltBundle(c, m, es, seal).manifest;
            && b.bundleType == m.bundleType && b.producerId == m.producerId && b.caScopes == m.caScopes
            && b.continuity == m.continuity
  {
  }

  lemma NothingLeft(base: Bundle, d: Bundle, id: EntryId, out: Bundle)
    requires Ids(base) == {id} && Overlaid(map[], base) == map[] && ContentOf(d) == map[]
    requires Materializes(out, Chain(base, [d]))
    ensures Chain(base, [d]) == map[]
    ensures |Ids(base) - Ids(out)| == 1 && StatOf(Overlaid(map[], base), d).removed == 0
  {
    assert ChainTo(base, [d], 0) == map[];
    assert Ids(base) - Ids(out) == {id};
    assert RemovedIds(Overlaid(map[], base), ContentOf(d)) == {};
  }

  lemma OneLinkApplies(c: Codec, base: Bundle, d: Bundle)
    requires StructureOk(c, base) && base.manifest.bundleType.Full? && Chain(base, [d]) == map[]
    requires LinkOk(c, base, c.sha(base.manifestBytes), d)
    requires MaxEpoch(base.manifest.caScopes) < U64_MAX && MaxEpoch(d.manifest.caScopes) < U64_MAX
    ensures Applicable(c, base, [d])
  {
    assert HighestTo(base, [d], 0) == MaxEpoch(base.manifest.caScopes);
    assert Linked(c, base, [d], 0);
    assert WindowsOf(Chain(base, [d])) == {};
  }

  lemma KeptIsSame(base: Bundle, d: Bundle, out: Bundle, id: EntryId)
    requires StrictlySorted(base.index) && Materializes(out, Chain(base, [d]))
    requires id in Overlaid(map[], base) && id in Ids(out) && id !in ContentOf(d)
    ensures LookupId(base, id) == LookupId(out, id)
  {
    assert ChainTo(base, [d], 0) == Overlaid(map[], base);
    SearchRefines(base, id);
  }

  /** Over a tombstone-free base, whatever differs was replaced by the delta. */
  lemma ChangedWasReplaced(base: Bundle, d: Bundle, out: Bundle)
    requires StrictlySorted(base.index) && Materializes(out, Chain(base, [d])) && BaseTombstones(base) == {}
    ensures ChangedAmong(base, out, Ids(base) * Ids(out)) <= ReplacedIds(Overlaid(map[], base), ContentOf(d))
    ensures |ChangedAmong(base, out, Ids(base) * Ids(out))| <= StatOf(Overlaid(map[], base), d).replaced
  {
    var changed := ChangedAmong(base, out, Ids(base) * Ids(out));
    var replaced := ReplacedIds(Overlaid(map[], base), ContentOf(d));
    forall id | id in changed
      ensures id in replaced
    {
      DifferentIsReplaced(base, d, out, id);
    }
    SubsetSize(changed, replaced);
  }

  lemma DifferentIsReplaced(base: Bundle, d: Bundle, out: Bundle, id: EntryId)
    requires StrictlySorted(base.index) && Materializes(out, Chain(base, [d])) && BaseTombstones(base) == {}
    requires id in Ids(base) && id in Ids(out) && LookupId(base, id) != LookupId(out, id)
    ensures id in ReplacedIds(Overlaid(map[], base), ContentOf(d))
  {
    LiveInDelta(base, d, out, id);
    if id !in ContentOf(d) {
      KeptIsSame(base, d, out, id);
    }
  }

  lemma LiveInDelta(base: Bundle, d: Bundle, out: Bundle, id: EntryId)
    requires Materializes(out, Chain(base, [d])) && BaseTombstones(base) == {}
    requires id in Ids(base) && id in Ids(out)
    ensures id in Overlaid(map[], base)
    ensures id in ContentOf(d) ==> ContentOf(d)[id].Some?
  {
    assert ChainTo(base, [d], 0) == Overlaid(map[], base);
    assert id !in BaseTombstones(base);
  }

  lemma ListingKeys(ws: WorkingSet, es: seq<Entry>, id: EntryId)
    requires Listing(ws, es)
    ensures id in Meaning(es) <==> id in ws
  {
    MeaningKeys(es, id);
    if id in ws {
      assert Includes(es, ws, id);
    }
  }

  lemma BuiltKeys(out: Bundle, ws: WorkingSet, es: seq<Entry>)
    requires Listing(ws, es) && ContentOf(out) == Meaning(es)
    ensures Ids(out) == ws.Keys
  {
    IdsAreKeys(out);
    forall id
      ensures id in Ids(out) <==> id in ws
    {
      ListingKeys(ws, es, id);
    }
  }

  lemma OneRecordEach(out: Bundle)
    requires StrictlySorted(out.index)
    ensures |Ids(out)| == |out.index|
  {
    SortedIdsCount(out, |out.index|);
    assert out.index[..|out.index|] == out.index;
  }

  /** What `apply_sealed` writes is the chain's working set, so the two lemmas above speak of it. */
  lemma ApplyMaterializes<E>(c: Codec, base: Bundle, deltas: seq<Bundle>, m: Manifest, es: seq<Entry>, seal: Seal<E>)
    requires Faithful(c) && Output(c, base, deltas, m, es) && Fits(c, m, es, seal)
    ensures Materializes(BuiltBundle(c, m, es, seal), Chain(base, deltas))
    ensures |BuiltBundle(c, m, es, seal).index| == |Chain(base, deltas)|
  {
    var ws, out := Chain(base, deltas), BuiltBundle(c, m, es, seal);
    ListingIsPlain(ws, es);
    PlainSeparates(c, es);
    BuildRefines(c, m, es, seal);
    BuiltKeys(out, ws, es);
    OneRecordEach(out);
    ApplyAnswers(c, base, deltas, m, es, seal);
  }

  lemma ApplyAnswers<E>(c: Codec, base: Bundle, deltas: seq<Bundle>, m: Manifest, es: seq<Entry>, seal: Seal<E>)
    requires Faithful(c) && Output(c, base, deltas, m, es) && Fits(c, m, es, seal)
    ensures forall id :: id in Chain(base, deltas) ==>
              LookupId(BuiltBundle(c, m, es, seal), id) == Some(Chain(base, deltas)[id].data)
  {
    ApplyRefines(c, base, deltas, m, es, seal);
    forall id | id in Chain(base, deltas)
      ensures LookupId(BuiltBundle(c, m, es, seal), id) == Some(Chain(base, deltas)[id].data)
    {
      ChainIsLastWriter(base, deltas, |deltas|, id);
    }
  }
}
