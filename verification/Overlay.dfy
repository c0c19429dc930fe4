/**
 The working set a delta chain is applied to: what one bundle does to it, and
 what a whole chain leaves (crates/ahu/src/ops.rs).
 */
module Overlay {
  import opened Wrappers
  import opened Bytes
  import opened Collections
  import opened Manifest
  import opened Index
  import opened Bundle

  /** A payload kept so far and the validity window of the bundle it came from. */
  datatype Retained = Retained(data: Bytes, window: Window)

  type WorkingSet = map<EntryId, Retained>

  /** Entries override, tombstones remove, everything else stays. */
  function OverlayMap(ws: WorkingSet, d: Content, w: Window): WorkingSet {
    map id | id in ws.Keys + d.Keys && (id in d ==> d[id].Some?) ::
      if id in d then Retained(d[id].value, w) else ws[id]
  }

  function Overlaid(ws: WorkingSet, b: Bundle): WorkingSet {
    OverlayMap(ws, ContentOf(b), b.manifest.window)
  }

  /** The working set once the first `n` deltas have been applied. */
  function ChainTo(base: Bundle, deltas: seq<Bundle>, n: nat): WorkingSet
    requires n <= |deltas|
  {
    if n == 0 then Overlaid(map[], base) else Overlaid(ChainTo(base, deltas, n - 1), deltas[n - 1])
  }

  function Chain(base: Bundle, deltas: seq<Bundle>): WorkingSet {
    ChainTo(base, deltas, |deltas|)
  }

  function AddedIds(ws: WorkingSet, d: Content): set<EntryId> {
    set id | id in d && d[id].Some? && id !in ws
  }

  function ReplacedIds(ws: WorkingSet, d: Content): set<EntryId> {
    set id | id in d && d[id].Some? && id in ws
  }

  function RemovedIds(ws: WorkingSet, d: Content): set<EntryId> {
    set id | id in d && d[id].None? && id in ws
  }

  // ---- the simple reading --------------------------------------------------------------

  /** The newest bundle of the chain that mentions an identifier decides what it denotes. */
  function LastWriterTo(base: Bundle, deltas: seq<Bundle>, n: nat, id: EntryId): Option<Bytes>
    requires n <= |deltas|
  {
    if n == 0 then At(ContentOf(base), id)
    else if id in ContentOf(deltas[n - 1]) then ContentOf(deltas[n - 1])[id]
    else LastWriterTo(base, deltas, n - 1, id)
  }

  function LastWriter(base: Bundle, deltas: seq<Bundle>, id: EntryId): Option<Bytes> {
    LastWriterTo(base, deltas, |deltas|, id)
  }

  lemma {:induction false} ChainIsLastWriter(base: Bundle, deltas: seq<Bundle>, n: nat, id: EntryId)
    requires n <= |deltas|
    ensures LastWriterTo(base, deltas, n, id)
         == if id in ChainTo(base, deltas, n) then Some(ChainTo(base, deltas, n)[id].data) else None
  {
    if n > 0 {
      ChainIsLastWriter(base, deltas, n - 1, id);
    }
  }

  /** Input number `k`: the base, then the deltas. */
  function Input(base: Bundle, deltas: seq<Bundle>, k: nat): Bundle
    requires k <= |deltas|
  {
    if k == 0 then base else deltas[k - 1]
  }

  /** A retained payload is one that some input answers with, under that input's window. */
  lemma {:induction false} RetainedFrom(base: Bundle, deltas: seq<Bundle>, n: nat, id: EntryId) returns (k: nat)
    requires n <= |deltas| && id in ChainTo(base, deltas, n)
    ensures k <= n
    ensures var b, kept := Input(base, deltas, k), ChainTo(base, deltas, n)[id];
            At(ContentOf(b), id) == Some(kept.data) && kept.window == b.manifest.window
  {
    k := n;
    if n > 0 && id !in ContentOf(deltas[n - 1]) {
      k := RetainedFrom(base, deltas, n - 1, id);
    }
  }

  /** Input `k` carries a payload for `id` and no later input mentions it. */
  ghost predicate Live(base: Bundle, deltas: seq<Bundle>, n: nat, k: nat, id: EntryId)
    requires n <= |deltas|
  {
    && k <= n && At(ContentOf(Input(base, deltas, k)), id).Some?
    && forall j :: k < j <= n ==> id !in ContentOf(Input(base, deltas, j))
  }

  lemma {:induction false} RetainedIsLive(base: Bundle, deltas: seq<Bundle>, n: nat, id: EntryId) returns (k: nat)
    requires n <= |deltas| && id in ChainTo(base, deltas, n)
    ensures Live(base, deltas, n, k, id)
  {
    k := n;
    if n > 0 && id !in ContentOf(deltas[n - 1]) {
      k := RetainedIsLive(base, deltas, n - 1, id);
    }
  }

  /** What is retained is the newest payload, under the window of the input that carried it. */
  lemma {:induction false} LiveIsRetained(base: Bundle, deltas: seq<Bundle>, n: nat, k: nat, id: EntryId)
    requires n <= |deltas| && Live(base, deltas, n, k, id)
    ensures id in ChainTo(base, deltas, n)
    ensures var b, kept := Input(base, deltas, k), ChainTo(base, deltas, n)[id];
            At(ContentOf(b), id) == Some(kept.data) && kept.window == b.manifest.window
  {
    if k < n {
      assert id !in ContentOf(Input(base, deltas, n));
      LiveIsRetained(base, deltas, n - 1, k, id);
    }
  }

  lemma {:induction false} ShortContent(b: Bundle, rs: seq<IndexRecord>, id: EntryId)
    requires id in ContentOver(b, rs) && ContentOver(b, rs)[id].Some?
    ensures |ContentOver(b, rs)[id].value| < U32_LIMIT
  {
    if rs != [] && id != IdOf(rs[|rs| - 1]) {
      ShortContent(b, rs[..|rs| - 1], id);
    }
  }

  /** Retained payloads fit 32-bit lengths, so building from them cuts nothing. */
  lemma RetainedIsShort(base: Bundle, deltas: seq<Bundle>, id: EntryId)
    requires id in Chain(base, deltas)
    ensures |Chain(base, deltas)[id].data| < U32_LIMIT
  {
    var k := RetainedFrom(base, deltas, |deltas|, id);
    var b := Input(base, deltas, k);
    ShortContent(b, b.index, id);
  }

  // ---- one record at a time ---------------------------------------------------------------

  lemma OverlayPut(ws: WorkingSet, d: Content, w: Window, id: EntryId, data: Bytes)
    requires id !in d
    ensures OverlayMap(ws, d[id := Some(data)], w) == OverlayMap(ws, d, w)[id := Retained(data, w)]
    ensures id in OverlayMap(ws, d, w) <==> id in ws
  {
  }

  lemma OverlayDrop(ws: WorkingSet, d: Content, w: Window, id: EntryId)
    requires id !in d
    ensures OverlayMap(ws, d[id := None], w) == OverlayMap(ws, d, w) - {id}
    ensures id in OverlayMap(ws, d, w) <==> id in ws
  {
  }

  lemma PutAdds(ws: WorkingSet, d: Content, id: EntryId, data: Bytes)
    requires id !in d
    ensures AddedIds(ws, d[id := Some(data)]) == if id !in ws then AddedIds(ws, d) + {id} else AddedIds(ws, d)
  {
  }

  lemma PutReplaces(ws: WorkingSet, d: Content, id: EntryId, data: Bytes)
    requires id !in d
    ensures ReplacedIds(ws, d[id := Some(data)]) == if id in ws then ReplacedIds(ws, d) + {id} else ReplacedIds(ws, d)
  {
  }

  lemma PutRemoves(ws: WorkingSet, d: Content, id: EntryId, data: Bytes)
    requires id !in d
    ensures RemovedIds(ws, d[id := Some(data)]) == RemovedIds(ws, d)
  {
  }

  lemma CountPut(ws: WorkingSet, d: Content, id: EntryId, data: Bytes)
    requires id !in d
    ensures var d' := d[id := Some(data)];
            && |AddedIds(ws, d')| == |AddedIds(ws, d)| + (if id !in ws then 1 else 0)
            && |ReplacedIds(ws, d')| == |ReplacedIds(ws, d)| + (if id in ws then 1 else 0)
            && |RemovedIds(ws, d')| == |RemovedIds(ws, d)|
  {
    var d' := d[id := Some(data)];
    PutAdds(ws, d, id, data);
    PutReplaces(ws, d, id, data);
    PutRemoves(ws, d, id, data);
    Grown(AddedIds(ws, d), AddedIds(ws, d'), id, id !in ws);
    Grown(ReplacedIds(ws, d), ReplacedIds(ws, d'), id, id in ws);
  }

  lemma DropKeeps(ws: WorkingSet, d: Content, id: EntryId)
    requires id !in d
    ensures AddedIds(ws, d[id := None]) == AddedIds(ws, d)
    ensures ReplacedIds(ws, d[id := None]) == ReplacedIds(ws, d)
  {
  }

  lemma DropRemoves(ws: WorkingSet, d: Content, id: EntryId)
    requires id !in d
    ensures RemovedIds(ws, d[id := None]) == if id in ws then RemovedIds(ws, d) + {id} else RemovedIds(ws, d)
  {
  }

  lemma CountDrop(ws: WorkingSet, d: Content, id: EntryId)
    requires id !in d
    ensures var d' := d[id := None];
            && |AddedIds(ws, d')| == |AddedIds(ws, d)| && |ReplacedIds(ws, d')| == |ReplacedIds(ws, d)|
            && |RemovedIds(ws, d')| == |RemovedIds(ws, d)| + (if id in ws then 1 else 0)
  {
    DropKeeps(ws, d, id);
    DropRemoves(ws, d, id);
    Grown(RemovedIds(ws, d), RemovedIds(ws, d[id := None]), id, id in ws);
  }

  lemma NextIsFresh(b: Bundle, n: nat)
    requires StrictlySorted(b.index) && n < |b.index|
    ensures IdOf(b.index[n]) !in ContentOver(b, b.index[..n])
    ensures ContentOver(b, b.index[..n + 1])
         == ContentOver(b, b.index[..n])[IdOf(b.index[n]) := EntryBytes(b, b.index[n])]
  {
    assert b.index[..n + 1][..n] == b.index[..n];
    ContentKeys(b, b.index[..n], IdOf(b.index[n]));
    IdIrreflexive(IdOf(b.index[n]));
  }

  datatype DeltaStat = DeltaStat(added: nat, replaced: nat, removed: nat, chainLengthWarning: bool)

  const MAX_CHAIN_LENGTH: u64 := 24

  function StatOf(ws: WorkingSet, d: Bundle): DeltaStat {
    DeltaStat(|AddedIds(ws, ContentOf(d))|, |ReplacedIds(ws, ContentOf(d))|, |RemovedIds(ws, ContentOf(d))|,
              d.manifest.continuity.chainLength > MAX_CHAIN_LENGTH)
  }

  /** Loading the base: its live entries. */
  method LoadBase(base: Bundle) returns (ws: WorkingSet)
    requires StrictlySorted(base.index)
    ensures ws == Overlaid(map[], base)
  {
    ws := map[];
    for n := 0 to |base.index|
      invariant ws == OverlayMap(map[], ContentOver(base, base.index[..n]), base.manifest.window)
    {
      var record := base.index[n];
      var data := EntryBytes(base, record);
      NextIsFresh(base, n);
      ghost var d := ContentOver(base, base.index[..n]);
      if data.Some? {
        OverlayPut(map[], d, base.manifest.window, IdOf(record), data.value);
        ws := ws[IdOf(record) := Retained(data.value, base.manifest.window)];
      } else {
        OverlayDrop(map[], d, base.manifest.window, IdOf(record));
      }
    }
    assert base.index[..|base.index|] == base.index;
  }

  /** One delta's records, in order, with the running counts. */
  method ApplyRecords(ws0: WorkingSet, delta: Bundle) returns (ws: WorkingSet, stat: DeltaStat)
    requires StrictlySorted(delta.index) && EntriesInside(delta)
    ensures ws == Overlaid(ws0, delta)
    ensures stat == StatOf(ws0, delta)
  {
    ws := ws0;
    var added, replaced, removed := 0, 0, 0;
    var w := delta.manifest.window;
    assert OverlayMap(ws0, map[], w) == ws0;
    for n := 0 to |delta.index|
      invariant ws == OverlayMap(ws0, ContentOver(delta, delta.index[..n]), w)
      invariant added == |AddedIds(ws0, ContentOver(delta, delta.index[..n]))|
      invariant replaced == |ReplacedIds(ws0, ContentOver(delta, delta.index[..n]))|
      invariant removed == |RemovedIds(ws0, ContentOver(delta, delta.index[..n]))|
    {
      var record := delta.index[n];
      var id := IdOf(record);
      ghost var d := ContentOver(delta, delta.index[..n]);
      NextIsFresh(delta, n);
      if record.flags.tombstone {
        OverlayDrop(ws0, d, w, id);
        CountDrop(ws0, d, id);
        if id in ws {
          removed := removed + 1;
        }
        ws := ws - {id};
      } else {
        var data := EntryBytes(delta, record).value;
        OverlayPut(ws0, d, w, id, data);
        CountPut(ws0, d, id, data);
        if id in ws {
          replaced := replaced + 1;
        } else {
          added := added + 1;
        }
        ws := ws[id := Retained(data, w)];
      }
    }
    assert delta.index[..|delta.index|] == delta.index;
    stat := DeltaStat(added, replaced, removed, delta.manifest.continuity.chainLength > MAX_CHAIN_LENGTH);
  }

  // ---- conservation ------------------------------------------------------------------------

  lemma OverlayKeys(ws: WorkingSet, d: Content, w: Window)
    ensures OverlayMap(ws, d, w).Keys == (ws.Keys - RemovedIds(ws, d)) + AddedIds(ws, d)
    ensures RemovedIds(ws, d) <= ws.Keys && AddedIds(ws, d) !! ws.Keys
  {
  }

  lemma StepConserves(ws: WorkingSet, d: Content, w: Window)
    ensures |OverlayMap(ws, d, w)| + |RemovedIds(ws, d)| == |ws| + |AddedIds(ws, d)|
  {
    OverlayKeys(ws, d, w);
    Balance(ws.Keys, OverlayMap(ws, d, w).Keys, AddedIds(ws, d), RemovedIds(ws, d));
  }

  function StatsTo(base: Bundle, deltas: seq<Bundle>, n: nat): (stats: seq<DeltaStat>)
    requires n <= |deltas|
    ensures |stats| == n
  {
    if n == 0 then []
    else StatsTo(base, deltas, n - 1) + [StatOf(ChainTo(base, deltas, n - 1), deltas[n - 1])]
  }

  function StatsOf(base: Bundle, deltas: seq<Bundle>): seq<DeltaStat> {
    StatsTo(base, deltas, |deltas|)
  }

  function TotalAdded(stats: seq<DeltaStat>): nat {
    if stats == [] then 0 else TotalAdded(stats[..|stats| - 1]) + stats[|stats| - 1].added
  }

  function TotalRemoved(stats: seq<DeltaStat>): nat {
    if stats == [] then 0 else TotalRemoved(stats[..|stats| - 1]) + stats[|stats| - 1].removed
  }

  /** Each step's size follows from the last by what was removed and added. */
  ghost predicate Conserves(sizes: seq<nat>, stats: seq<DeltaStat>, k: nat)
    requires |sizes| == |stats| + 1 && k < |stats|
  {
    sizes[k + 1] + stats[k].removed == sizes[k] + stats[k].added
  }

  lemma {:induction false} Accumulates(sizes: seq<nat>, stats: seq<DeltaStat>, n: nat)
    requires |sizes| == |stats| + 1 && n <= |stats| && forall k :: 0 <= k < |stats| ==> Conserves(sizes, stats, k)
    ensures sizes[n] + TotalRemoved(stats[..n]) == sizes[0] + TotalAdded(stats[..n])
  {
    if n > 0 {
      Accumulates(sizes, stats, n - 1);
      assert Conserves(sizes, stats, n - 1);
      assert stats[..n][..n - 1] == stats[..n - 1];
    }
  }

  lemma LastStat(base: Bundle, deltas: seq<Bundle>, n: nat)
    requires 0 < n <= |deltas|
    ensures StatsTo(base, deltas, n)
         == StatsTo(base, deltas, n - 1) + [StatOf(ChainTo(base, deltas, n - 1), deltas[n - 1])]
  {
  }

  lemma {:induction false} StatsAt(base: Bundle, deltas: seq<Bundle>, n: nat, k: nat)
    requires k < n <= |deltas|
    ensures StatsTo(base, deltas, n)[k] == StatOf(ChainTo(base, deltas, k), deltas[k])
  {
    var before, last := StatsTo(base, deltas, n - 1), StatOf(ChainTo(base, deltas, n - 1), deltas[n - 1]);
    LastStat(base, deltas, n);
    if k < n - 1 {
      StatsAt(base, deltas, n - 1, k);
      assert (before + [last])[k] == before[k];
    } else {
      assert (before + [last])[k] == last;
    }
  }

  /**
   The counts reported of delta `k`: the payloads it brings for identifiers not held, those
   it brings for held ones, the held ones it removes, and whether its chain is longer than 24.
   */
  lemma StatsExactly(base: Bundle, deltas: seq<Bundle>, k: nat)
    requires k < |deltas|
    ensures var ws, d, s := ChainTo(base, deltas, k), ContentOf(deltas[k]), StatsOf(base, deltas)[k];
            && s.added == |set id | id in d && d[id].Some? && id !in ws|
            && s.replaced == |set id | id in d && d[id].Some? && id in ws|
            && s.removed == |set id | id in d && d[id].None? && id in ws|
            && (s.chainLengthWarning <==> deltas[k].manifest.continuity.chainLength > 24)
  {
    StatsAt(base, deltas, |deltas|, k);
  }

  ghost function SizeAt(base: Bundle, deltas: seq<Bundle>, k: nat): nat
    requires k <= |deltas|
  {
    |ChainTo(base, deltas, k)|
  }

  lemma SizeSteps(base: Bundle, deltas: seq<Bundle>, k: nat)
    requires k < |deltas|
    ensures var s := StatOf(ChainTo(base, deltas, k), deltas[k]);
            SizeAt(base, deltas, k + 1) + s.removed == SizeAt(base, deltas, k) + s.added
  {
    StepConserves(ChainTo(base, deltas, k), ContentOf(deltas[k]), deltas[k].manifest.window);
  }

  /** Over any chain, what is left plus what was removed is what was there plus what was added. */
  lemma ChainConserves(base: Bundle, deltas: seq<Bundle>)
    ensures |Chain(base, deltas)| + TotalRemoved(StatsOf(base, deltas))
         == |Overlaid(map[], base)| + TotalAdded(StatsOf(base, deltas))
  {
    var sizes := seq(|deltas| + 1, k requires 0 <= k <= |deltas| => SizeAt(base, deltas, k));
    var stats := StatsOf(base, deltas);
    forall k | 0 <= k < |stats|
      ensures Conserves(sizes, stats, k)
    {
      StatsAt(base, deltas, |deltas|, k);
      SizeSteps(base, deltas, k);
    }
    Accumulates(sizes, stats, |deltas|);
    assert stats[..|deltas|] == stats;
  }
}
