/** Materializing a delta chain into a full bundle (crates/ahu/src/ops.rs). */
module DeltaOps {
  import opened Wrappers
  import opened Bytes
  import opened Manifest
  import opened Index
  import opened Bundle
  import opened Entries
  import opened Builder
  import opened Overlay

  datatype ApplyError<E> =
    | BadBase(structure: StructureError)
    | BaseNotFull
    | NotDelta(at: nat)
    | BadDelta(at: nat, structure: StructureError)
    | WrongBase(at: nat)
    | WrongScopes(at: nat)
    | BrokenChain(at: nat)
    | EpochExhausted
    | InconsistentWindow
    | NoOverlap
    | SealFailed(why: E)

  datatype Applied = Applied(bytes: Bytes, entryCount: nat, finalEpoch: u64, deltas: seq<DeltaStat>)

  // ---- the chain checks -------------------------------------------------------------

  function ScopeName(s: CaScope): (Bytes, Bytes, Bytes) {
    (s.hashAlgorithm, s.issuerNameHash, s.issuerKeyHash)
  }

  function ScopeNames(ss: seq<CaScope>): set<(Bytes, Bytes, Bytes)> {
    if ss == [] then {} else ScopeNames(ss[..|ss| - 1]) + {ScopeName(ss[|ss| - 1])}
  }

  /** The manifest digest a delta at position `n` may name as its predecessor. */
  function PrevDigest(c: Codec, base: Bundle, deltas: seq<Bundle>, n: nat): Digest
    requires n <= |deltas|
  {
    if n == 0 then c.sha(base.manifestBytes) else c.sha(deltas[n - 1].manifestBytes)
  }

  ghost predicate LinkOk(c: Codec, base: Bundle, prev: Digest, d: Bundle) {
    && d.manifest.bundleType.Delta?
    && StructureOk(c, d)
    && d.manifest.continuity.baseManifestDigest == Some(c.sha(base.manifestBytes))
    && d.manifest.producerId == base.manifest.producerId
    && ScopeNames(d.manifest.caScopes) == ScopeNames(base.manifest.caScopes)
    && (d.manifest.continuity.prevManifestDigest.Some? ==> d.manifest.continuity.prevManifestDigest == Some(prev))
  }

  ghost predicate Linked(c: Codec, base: Bundle, deltas: seq<Bundle>, n: nat)
    requires n < |deltas|
  {
    LinkOk(c, base, PrevDigest(c, base, deltas, n), deltas[n])
  }

  ghost predicate Chained(c: Codec, base: Bundle, deltas: seq<Bundle>) {
    forall n :: 0 <= n < |deltas| ==> Linked(c, base, deltas, n)
  }

  method CheckLink<E>(c: Codec, base: Bundle, prev: Digest, d: Bundle, n: nat) returns (bad: Option<ApplyError<E>>)
    ensures bad.None? <==> LinkOk(c, base, prev, d)
    ensures bad.Some? ==> !bad.value.SealFailed?
  {
    if !d.manifest.bundleType.Delta? {
      return Some(NotDelta(n));
    }
    var structure := VerifyStructure(c, d);
    if structure.Err? {
      return Some(BadDelta(n, structure.error));
    }
    if d.manifest.continuity.baseManifestDigest != Some(c.sha(base.manifestBytes)) {
      return Some(WrongBase(n));
    }
    if d.manifest.producerId != base.manifest.producerId
       || ScopeNames(d.manifest.caScopes) != ScopeNames(base.manifest.caScopes) {
      return Some(WrongScopes(n));
    }
    if d.manifest.continuity.prevManifestDigest.Some? && d.manifest.continuity.prevManifestDigest.value != prev {
      return Some(BrokenChain(n));
    }
    bad := None;
  }

  // ---- epochs -------------------------------------------------------------------------

  function MaxOf(a: u64, b: u64): u64 {
    if a >= b then a else b
  }

  function MaxEpoch(ss: seq<CaScope>): u64 {
    if ss == [] then 0 else MaxOf(MaxEpoch(ss[..|ss| - 1]), ss[|ss| - 1].epoch)
  }

  function HighestTo(base: Bundle, deltas: seq<Bundle>, n: nat): u64
    requires n <= |deltas|
  {
    if n == 0 then MaxEpoch(base.manifest.caScopes)
    else MaxOf(HighestTo(base, deltas, n - 1), MaxEpoch(deltas[n - 1].manifest.caScopes))
  }

  function HighestEpoch(base: Bundle, deltas: seq<Bundle>): u64 {
    HighestTo(base, deltas, |deltas|)
  }

  lemma {:induction false} MaxEpochBounds(ss: seq<CaScope>, n: nat)
    requires n < |ss|
    ensures ss[n].epoch <= MaxEpoch(ss)
  {
    if n < |ss| - 1 {
      MaxEpochBounds(ss[..|ss| - 1], n);
    }
  }

  /** No scope of any input has an epoch above the highest. */
  lemma {:induction false} HighestBounds(base: Bundle, deltas: seq<Bundle>, n: nat, k: nat, i: nat)
    requires k <= n <= |deltas| && i < |Input(base, deltas, k).manifest.caScopes|
    ensures Input(base, deltas, k).manifest.caScopes[i].epoch <= HighestTo(base, deltas, n)
  {
    MaxEpochBounds(Input(base, deltas, k).manifest.caScopes, i);
    if k < n {
      HighestBounds(base, deltas, n - 1, k, i);
    }
  }

  method MaxOver(start: u64, ss: seq<CaScope>) returns (e: u64)
    ensures e == MaxOf(start, MaxEpoch(ss))
  {
    e := start;
    for n := 0 to |ss|
      invariant e == MaxOf(start, MaxEpoch(ss[..n]))
    {
      e := MaxOf(e, ss[n].epoch);
      assert ss[..n + 1][..n] == ss[..n];
    }
    assert ss[..|ss|] == ss;
  }

  function WithEpoch(ss: seq<CaScope>, e: u64): (r: seq<CaScope>)
    ensures |r| == |ss| && forall n :: 0 <= n < |r| ==> r[n] == ss[n].(epoch := e)
  {
    if ss == [] then [] else WithEpoch(ss[..|ss| - 1], e) + [ss[|ss| - 1].(epoch := e)]
  }

  // ---- the working set in key order -------------------------------------------------------

  function EntryFor(id: EntryId, r: Retained): Entry {
    MakeEntry(id, NO_FLAGS, r.data)
  }

  predicate Lists(ws: WorkingSet, e: Entry) {
    Id(e) in ws && e == EntryFor(Id(e), ws[Id(e)])
  }

  predicate Includes(es: seq<Entry>, ws: WorkingSet, id: EntryId)
    requires id in ws
  {
    EntryFor(id, ws[id]) in es
  }

  /** The entries of a working set, each once, in key order. */
  ghost predicate Listing(ws: WorkingSet, es: seq<Entry>) {
    && InOrder(es) && DistinctIds(es) && |es| == |ws|
    && (forall e :: e in es ==> Lists(ws, e))
    && (forall id {:trigger Includes(es, ws, id)} :: id in ws ==> Includes(es, ws, id))
  }

  ghost predicate Listed(ws: WorkingSet, left: set<EntryId>, es: seq<Entry>) {
    && left <= ws.Keys && InOrder(es) && DistinctIds(es) && |es| + |left| == |ws|
    && (forall e :: e in es ==> Lists(ws, e) && Id(e) !in left)
    && (forall id {:trigger Includes(es, ws, id)} :: id in ws && id !in left ==> Includes(es, ws, id))
  }

  lemma InsertIncludes(ws: WorkingSet, e: Entry, es: seq<Entry>, id: EntryId)
    requires id in ws && (e == EntryFor(id, ws[id]) || Includes(es, ws, id))
    ensures Includes(Insert(e, es), ws, id)
  {
    InsertMembers(e, es, EntryFor(id, ws[id]));
  }

  lemma InsertLists(ws: WorkingSet, left: set<EntryId>, es: seq<Entry>, e: Entry, x: Entry)
    requires forall y :: y in es ==> Lists(ws, y) && Id(y) !in left
    requires Lists(ws, e) && Id(e) !in left && x in Insert(e, es)
    ensures Lists(ws, x) && Id(x) !in left
  {
    InsertMembers(e, es, x);
  }

  lemma ListOneMore(ws: WorkingSet, left: set<EntryId>, es: seq<Entry>, id: EntryId)
    requires Listed(ws, left, es) && id in left
    ensures Listed(ws, left - {id}, Insert(EntryFor(id, ws[id]), es))
  {
    var e := EntryFor(id, ws[id]);
    InsertInOrder(e, es);
    InsertDistinct(e, es);
    InsertSize(e, es);
    forall x | x in Insert(e, es)
      ensures Lists(ws, x) && Id(x) !in left - {id}
    {
      InsertLists(ws, left - {id}, es, e, x);
    }
    forall x | x in ws && x !in left - {id}
      ensures Includes(Insert(e, es), ws, x)
    {
      InsertIncludes(ws, e, es, x);
    }
  }

  lemma {:induction false} InsertSize(e: Entry, s: seq<Entry>)
    ensures |Insert(e, s)| == |s| + 1
  {
    if s != [] {
      InsertSize(e, s[..|s| - 1]);
    }
  }

  method InKeyOrder(ws: WorkingSet) returns (es: seq<Entry>)
    ensures Listing(ws, es)
  {
    var left := ws.Keys;
    es := [];
    while left != {}
      invariant Listed(ws, left, es)
      decreases |left|
    {
      var id :| id in left;
      ListOneMore(ws, left, es, id);
      es := Insert(EntryFor(id, ws[id]), es);
      left := left - {id};
    }
  }

  /** Listed entries stand for the working set's payloads, up to 32-bit lengths. */
  lemma ListingMeans(ws: WorkingSet, es: seq<Entry>, id: EntryId)
    requires Listing(ws, es)
    ensures At(Meaning(es), id) == if id in ws then Some(Stored(ws[id].data)) else None
  {
    MeaningKeys(es, id);
    if id in ws {
      assert Includes(es, ws, id);
      var n :| 0 <= n < |es| && es[n] == EntryFor(id, ws[id]);
      AddedIsMeant(es, n);
    }
  }

  // ---- the validity window -------------------------------------------------------------------

  predicate Ordered(w: Window) {
    w.thisUpdateMin <= w.nextUpdateMin <= w.nextUpdateMax
  }

  /** The windows of what is retained. */
  function WindowsOf(ws: WorkingSet): set<Window> {
    set id | id in ws :: ws[id].window
  }

  /** Windows are well formed, and none expires before another was produced. */
  ghost predicate WindowsFit(s: set<Window>) {
    && (forall x :: x in s ==> Ordered(x))
    && (forall x, y :: x in s && y in s ==> Precedes(x, y))
  }

  predicate Precedes(x: Window, y: Window) {
    x.producedAt < y.nextUpdateMin
  }

  predicate Within(x: Window, w: Window) {
    w.thisUpdateMin <= x.thisUpdateMin && x.producedAt <= w.producedAt && w.nextUpdateMin <= x.nextUpdateMin
  }

  /** The earliest start, latest production and earliest expiry, each of them attained. */
  ghost predicate Envelope(s: set<Window>, w: Window) {
    && (forall x :: x in s ==> Within(x, w))
    && (exists x :: x in s && x.thisUpdateMin == w.thisUpdateMin)
    && (exists x :: x in s && x.producedAt == w.producedAt)
    && (exists x :: x in s && x.nextUpdateMin == w.nextUpdateMin)
    && w.nextUpdateMax == w.nextUpdateMin
  }

  function Merge(w: Window, x: Window): Window {
    var expires := Min(w.nextUpdateMin, x.nextUpdateMin);
    Window(MaxOf(w.producedAt, x.producedAt), Min(w.thisUpdateMin, x.thisUpdateMin), expires, expires)
  }

  lemma MergeOneMore(s: set<Window>, w: Window, x: Window)
    requires Envelope(s, w)
    ensures Envelope(s + {x}, Merge(w, x))
  {
    var a :| a in s && a.thisUpdateMin == w.thisUpdateMin;
    var b :| b in s && b.producedAt == w.producedAt;
    var d :| d in s && d.nextUpdateMin == w.nextUpdateMin;
    var t, w' := s + {x}, Merge(w, x);
    assert x in t && a in t && b in t && d in t;
  }

  /** Whether everything overlaps can be read off the envelope. */
  lemma EnvelopeDecides(s: set<Window>, w: Window)
    requires Envelope(s, w)
    ensures w.producedAt < w.nextUpdateMin <==> forall x, y :: x in s && y in s ==> Precedes(x, y)
  {
    if w.producedAt >= w.nextUpdateMin {
      var x :| x in s && x.producedAt == w.producedAt;
      var y :| y in s && y.nextUpdateMin == w.nextUpdateMin;
      assert !Precedes(x, y);
    }
  }

  function Elems(s: seq<Window>): set<Window> {
    set x | x in s
  }

  lemma ElemsSnoc(s: seq<Window>, n: nat)
    requires n < |s|
    ensures Elems(s[..n + 1]) == Elems(s[..n]) + {s[n]}
  {
    assert s[..n + 1] == s[..n] + [s[n]];
  }

  method AllOrdered(windows: seq<Window>) returns (ok: bool)
    ensures ok <==> forall x :: x in windows ==> Ordered(x)
  {
    for n := 0 to |windows|
      invariant forall k :: 0 <= k < n ==> Ordered(windows[k])
    {
      if !Ordered(windows[n]) {
        return false;
      }
    }
    ok := true;
  }

  method EnvelopeWindow(windows: seq<Window>) returns (w: Window)
    requires windows != []
    ensures Envelope(Elems(windows), w)
  {
    w := windows[0].(nextUpdateMax := windows[0].nextUpdateMin);
    assert windows[0] in Elems(windows[..1]);
    for n := 1 to |windows|
      invariant Envelope(Elems(windows[..n]), w)
    {
      MergeOneMore(Elems(windows[..n]), w, windows[n]);
      ElemsSnoc(windows, n);
      w := Merge(w, windows[n]);
    }
    assert windows[..|windows|] == windows;
  }

  /** What the output window must be; an empty working set keeps the base's. */
  ghost predicate WindowFor(s: set<Window>, w0: Window, w: Window) {
    if s == {} then w == w0 else Envelope(s, w)
  }

  method ComputeWindow<E>(windows: seq<Window>, w0: Window) returns (r: Result<Window, ApplyError<E>>)
    ensures r.Ok? <==> WindowsFit(Elems(windows))
    ensures r.Ok? ==> WindowFor(Elems(windows), w0, r.value)
    ensures r.Err? ==> !r.error.SealFailed?
  {
    if windows == [] {
      return Ok(w0);
    }
    assert windows[0] in Elems(windows);
    var fine := AllOrdered(windows);
    if !fine {
      return Err(InconsistentWindow);
    }
    var w := EnvelopeWindow(windows);
    EnvelopeDecides(Elems(windows), w);
    if w.producedAt >= w.nextUpdateMin {
      return Err(NoOverlap);
    }
    r := Ok(w);
  }

  method RetainedWindows(ws: WorkingSet, es: seq<Entry>) returns (windows: seq<Window>)
    requires Listing(ws, es)
    ensures Elems(windows) == WindowsOf(ws)
  {
    windows := [];
    for n := 0 to |es|
      invariant |windows| == n && forall k :: 0 <= k < n ==> Id(es[k]) in ws && windows[k] == ws[Id(es[k])].window
    {
      assert Lists(ws, es[n]);
      windows := windows + [ws[Id(es[n])].window];
    }
    forall id | id in ws
      ensures ws[id].window in windows
    {
      assert Includes(es, ws, id);
      var k :| 0 <= k < |es| && es[k] == EntryFor(id, ws[id]);
      assert windows[k] == ws[id].window;
    }
  }

  // ---- apply ---------------------------------------------------------------------------

  /** A manifest as a full bundle at the given epoch, continuing from the last delta. */
  function FullManifest(m: Manifest, prev: Digest, epoch: u64, w: Window): Manifest {
    m.(bundleType := Full, continuity := Continuity(Some(prev), None, 0),
       caScopes := WithEpoch(m.caScopes, epoch), window := w)
  }

  /** Exactly when a chain can be materialized, the seal aside. */
  ghost predicate Applicable(c: Codec, base: Bundle, deltas: seq<Bundle>) {
    && StructureOk(c, base) && base.manifest.bundleType.Full?
    && Chained(c, base, deltas)
    && HighestEpoch(base, deltas) < U64_MAX
    && WindowsFit(WindowsOf(Chain(base, deltas)))
  }

  datatype Progress = Progress(ws: WorkingSet, epoch: u64, prev: Digest, stats: seq<DeltaStat>)

  /** Where the loop over the deltas stands after `n` of them. */
  function ProgressAt(c: Codec, base: Bundle, deltas: seq<Bundle>, n: nat): Progress
    requires n <= |deltas|
  {
    Progress(ChainTo(base, deltas, n), HighestTo(base, deltas, n), PrevDigest(c, base, deltas, n),
             StatsTo(base, deltas, n))
  }

  function Finished(c: Codec, base: Bundle, deltas: seq<Bundle>): Progress {
    ProgressAt(c, base, deltas, |deltas|)
  }

  method StartChain(c: Codec, base: Bundle, deltas: seq<Bundle>) returns (p: Progress)
    requires StrictlySorted(base.index)
    ensures p == ProgressAt(c, base, deltas, 0)
  {
    var ws := LoadBase(base);
    var epoch := MaxOver(0, base.manifest.caScopes);
    p := Progress(ws, epoch, c.sha(base.manifestBytes), []);
  }

  method ApplyOne<E>(c: Codec, base: Bundle, deltas: seq<Bundle>, n: nat, p: Progress)
    returns (r: Result<Progress, ApplyError<E>>)
    requires n < |deltas| && p == ProgressAt(c, base, deltas, n)
    ensures r.Ok? <==> Linked(c, base, deltas, n)
    ensures r.Ok? ==> r.value == ProgressAt(c, base, deltas, n + 1)
    ensures r.Err? ==> !r.error.SealFailed?
  {
    var bad := CheckLink<E>(c, base, p.prev, deltas[n], n);
    if bad.Some? {
      return Err(bad.value);
    }
    var ws, stat := ApplyRecords(p.ws, deltas[n]);
    var epoch := MaxOver(p.epoch, deltas[n].manifest.caScopes);
    r := Ok(Progress(ws, epoch, c.sha(deltas[n].manifestBytes), p.stats + [stat]));
  }

  /** The first `n` deltas link. */
  ghost predicate LinkedTo(c: Codec, base: Bundle, deltas: seq<Bundle>, n: nat)
    requires n <= |deltas|
  {
    forall k :: 0 <= k < n ==> Linked(c, base, deltas, k)
  }

  lemma OneMoreLink(c: Codec, base: Bundle, deltas: seq<Bundle>, n: nat)
    requires n < |deltas| && LinkedTo(c, base, deltas, n)
    ensures LinkedTo(c, base, deltas, n + 1) <==> Linked(c, base, deltas, n)
    ensures !Linked(c, base, deltas, n) ==> !LinkedTo(c, base, deltas, |deltas|)
  {
  }

  /** Applies deltas in order until one does not link. */
  method RunDeltas<E>(c: Codec, base: Bundle, deltas: seq<Bundle>) returns (r: Result<Progress, ApplyError<E>>)
    requires StrictlySorted(base.index)
    ensures r.Ok? <==> LinkedTo(c, base, deltas, |deltas|)
    ensures r.Ok? ==> r.value == ProgressAt(c, base, deltas, |deltas|)
    ensures r.Err? ==> !r.error.SealFailed?
  {
    var p := StartChain(c, base, deltas);
    for n := 0 to |deltas|
      invariant p == ProgressAt(c, base, deltas, n) && LinkedTo(c, base, deltas, n)
    {
      OneMoreLink(c, base, deltas, n);
      var next := ApplyOne<E>(c, base, deltas, n, p);
      if next.Err? {
        return Err(next.error);
      }
      p := next.value;
    }
    r := Ok(p);
  }

  method RunChain<E>(c: Codec, base: Bundle, deltas: seq<Bundle>) returns (r: Result<Progress, ApplyError<E>>)
    requires StrictlySorted(base.index)
    ensures r.Ok? <==> Chained(c, base, deltas)
    ensures r.Ok? <==> AllSucceed(c, base, deltas)
    ensures r.Ok? ==> r.value == Finished(c, base, deltas)
    ensures r.Err? ==> !r.error.SealFailed?
  {
    r := RunDeltas(c, base, deltas);
    ChainedExactly(c, base, deltas);
  }

  predicate PlainEntries(es: seq<Entry>) {
    forall e :: e in es ==> e == MakeEntry(Id(e), NO_FLAGS, e.payload)
  }

  lemma ListingIsPlain(ws: WorkingSet, es: seq<Entry>)
    requires Listing(ws, es)
    ensures PlainEntries(es)
  {
  }

  method BuildFrom<E>(c: Codec, m: Manifest, es: seq<Entry>, seal: Seal<E>) returns (r: Result<Bytes, E>)
    requires PlainEntries(es)
    ensures r == BuiltFile(c, m, es, seal)
  {
    var builder := new BundleBuilder(m);
    for n := 0 to |es|
      invariant fresh(builder)
      invariant builder.manifest == m && builder.entries == es[..n]
    {
      assert es[n] in es;
      builder.AddEntryWithDiscriminator(es[n].record.entryKey, es[n].record.discriminator, es[n].payload);
      assert es[..n + 1] == es[..n] + [es[n]];
    }
    assert es[..|es|] == es;
    r := builder.Build(c, seal);
  }

  /** The manifest and entries a finished chain is written with. */
  ghost predicate Composed(p: Progress, m0: Manifest, m: Manifest, es: seq<Entry>) {
    && p.epoch < U64_MAX
    && Listing(p.ws, es)
    && WindowFor(WindowsOf(p.ws), m0.window, m.window)
    && m == FullManifest(m0, p.prev, p.epoch + 1, m.window)
  }

  /** The manifest and entries the output is built from. */
  ghost predicate Output(c: Codec, base: Bundle, deltas: seq<Bundle>, m: Manifest, es: seq<Entry>) {
    Composed(Finished(c, base, deltas), base.manifest, m, es)
  }

  lemma ComposedFull(p: Progress, m0: Manifest, w: Window, es: seq<Entry>)
    requires p.epoch < U64_MAX && Listing(p.ws, es) && WindowFor(WindowsOf(p.ws), m0.window, w)
    ensures Composed(p, m0, FullManifest(m0, p.prev, p.epoch + 1, w), es)
  {
    FullManifestWindow(m0, p.prev, p.epoch + 1, w);
  }

  lemma FullManifestWindow(m: Manifest, prev: Digest, epoch: u64, w: Window)
    ensures FullManifest(m, prev, epoch, w).window == w
  {
  }

  /** The retained entries in key order, and the window that bounds them all. */
  method Bounded<E>(ws: WorkingSet, w0: Window) returns (es: seq<Entry>, r: Result<Window, ApplyError<E>>)
    ensures Listing(ws, es)
    ensures r.Ok? <==> WindowsFit(WindowsOf(ws))
    ensures r.Ok? ==> WindowFor(WindowsOf(ws), w0, r.value)
    ensures r.Err? ==> !r.error.SealFailed?
  {
    es := InKeyOrder(ws);
    var windows := RetainedWindows(ws, es);
    r := ComputeWindow<E>(windows, w0);
  }

  /** The output's manifest and entries, once the chain has been run. */
  method Compose<E>(p: Progress, m0: Manifest) returns (r: Result<(Manifest, seq<Entry>), ApplyError<E>>)
    requires p.epoch < U64_MAX
    ensures r.Ok? <==> WindowsFit(WindowsOf(p.ws))
    ensures r.Ok? ==> Composed(p, m0, r.value.0, r.value.1)
    ensures r.Err? ==> !r.error.SealFailed?
  {
    var entries, window := Bounded<E>(p.ws, m0.window);
    if window.Err? {
      return Err(window.error);
    }
    ComposedFull(p, m0, window.value, entries);
    r := Ok((FullManifest(m0, p.prev, p.epoch + 1, window.value), entries));
  }

  /**
   Materializes the chain: succeeds exactly when it is applicable and the seal is
   given, and then writes the retained entries under the rebased manifest.
   */
  method ApplySealed<E>(c: Codec, base: Bundle, deltas: seq<Bundle>, seal: Seal<E>)
    returns (r: Result<Applied, ApplyError<E>>, ghost m: Manifest, ghost es: seq<Entry>)
    ensures (r.Ok? || r.error.SealFailed?) <==> Applicable(c, base, deltas)
    ensures (r.Ok? || r.error.SealFailed?) <==> Accepts(c, base, deltas)
    ensures Applicable(c, base, deltas) ==> Output(c, base, deltas, m, es)
    ensures r.Err? && r.error.SealFailed? ==> BuiltFile(c, m, es, seal) == Err(r.error.why)
    ensures r.Ok? ==>
              && BuiltFile(c, m, es, seal) == Ok(r.value.bytes)
              && r.value.entryCount == |Chain(base, deltas)|
              && r.value.finalEpoch == HighestEpoch(base, deltas) + 1
              && r.value.deltas == StatsOf(base, deltas)
  {
    m, es := base.manifest, [];
    ApplicableExactly(c, base, deltas);
    var structure := VerifyStructure(c, base);
    if structure.Err? {
      r := Err(BadBase(structure.error));
      return;
    }
    if !base.manifest.bundleType.Full? {
      r := Err(BaseNotFull);
      return;
    }
    var chain := RunChain<E>(c, base, deltas);
    if chain.Err? {
      r := Err(chain.error);
      return;
    }
    var p := chain.value;
    if p.epoch == U64_MAX {
      r := Err(EpochExhausted);
      return;
    }
    var parts := Compose<E>(p, base.manifest);
    if parts.Err? {
      r := Err(parts.error);
      return;
    }
    var (manifest, entries) := parts.value;
    m, es := manifest, entries;
    ListingIsPlain(Chain(base, deltas), entries);
    var bytes := BuildFrom(c, manifest, entries, seal);
    if bytes.Err? {
      r := Err(SealFailed(bytes.error));
      return;
    }
    r := Ok(Applied(bytes.value, |p.ws|, p.epoch + 1, p.stats));
  }

  // ---- what the output stands for ----------------------------------------------------------

  lemma PlainSeparates(c: Codec, es: seq<Entry>)
    requires PlainEntries(es)
    ensures Separates(c.sha, es)
  {
  }

  /**
   The output parses, passes structural verification, and for every identifier
   answers what the newest input mentioning it says.
   */
  lemma ApplyRefines<E>(c: Codec, base: Bundle, deltas: seq<Bundle>, m: Manifest, es: seq<Entry>, seal: Seal<E>)
    requires Faithful(c) && Output(c, base, deltas, m, es) && Fits(c, m, es, seal)
    ensures FromBytes(c, BuiltFile(c, m, es, seal).value) == Ok(BuiltBundle(c, m, es, seal))
    ensures StructureOk(c, BuiltBundle(c, m, es, seal))
    ensures forall id :: LookupId(BuiltBundle(c, m, es, seal), id) == LastWriter(base, deltas, id)
  {
    var ws, out := Chain(base, deltas), BuiltBundle(c, m, es, seal);
    ListingIsPlain(ws, es);
    PlainSeparates(c, es);
    BuildParses(c, m, es, seal);
    BuildVerifies(c, m, es, seal);
    BuildRefines(c, m, es, seal);
    forall id
      ensures LookupId(out, id) == LastWriter(base, deltas, id)
    {
      SearchRefines(out, id);
      ListingMeans(ws, es, id);
      ChainIsLastWriter(base, deltas, |deltas|, id);
      if id in ws {
        RetainedIsShort(base, deltas, id);
      }
    }
  }

  /** Every scope of the output has an epoch above every scope of every input. */
  lemma ApplyAdvances<E>(c: Codec, base: Bundle, deltas: seq<Bundle>, m: Manifest, es: seq<Entry>, seal: Seal<E>,
                         k: nat, i: nat, n: nat)
    requires Output(c, base, deltas, m, es) && Fits(c, m, es, seal)
    requires k <= |deltas| && i < |Input(base, deltas, k).manifest.caScopes|
    requires n < |BuiltBundle(c, m, es, seal).manifest.caScopes|
    ensures Input(base, deltas, k).manifest.caScopes[i].epoch < BuiltBundle(c, m, es, seal).manifest.caScopes[n].epoch
  {
    HighestBounds(base, deltas, |deltas|, k, i);
  }

  // ---- the conditions written out ------------------------------------------------------------

  predicate SameIssuer(s: CaScope, t: CaScope) {
    && s.hashAlgorithm == t.hashAlgorithm && s.issuerNameHash == t.issuerNameHash
    && s.issuerKeyHash == t.issuerKeyHash
  }

  predicate HasIssuer(ss: seq<CaScope>, t: CaScope) {
    exists n :: 0 <= n < |ss| && SameIssuer(ss[n], t)
  }

  predicate SameIssuers(ss: seq<CaScope>, ts: seq<CaScope>) {
    && (forall n :: 0 <= n < |ss| ==> HasIssuer(ts, ss[n]))
    && (forall n :: 0 <= n < |ts| ==> HasIssuer(ss, ts[n]))
  }

  lemma {:induction false} ScopeNamesHas(ss: seq<CaScope>, t: CaScope)
    ensures ScopeName(t) in ScopeNames(ss) <==> HasIssuer(ss, t)
  {
    if ss != [] {
      var init := ss[..|ss| - 1];
      ScopeNamesHas(init, t);
      assert forall n :: 0 <= n < |init| ==> ss[n] == init[n];
      if HasIssuer(init, t) {
        var n :| 0 <= n < |init| && SameIssuer(init[n], t);
        assert SameIssuer(ss[n], t);
      }
      if HasIssuer(ss, t) && !SameIssuer(ss[|ss| - 1], t) {
        var n :| 0 <= n < |ss| && SameIssuer(ss[n], t);
        assert SameIssuer(init[n], t);
      }
    }
  }

  lemma {:induction false} ScopeNamesFrom(ss: seq<CaScope>, x: (Bytes, Bytes, Bytes)) returns (n: nat)
    requires x in ScopeNames(ss)
    ensures n < |ss| && ScopeName(ss[n]) == x
  {
    n := |ss| - 1;
    if ScopeName(ss[n]) != x {
      n := ScopeNamesFrom(ss[..|ss| - 1], x);
    }
  }

  lemma SameIssuersExactly(ss: seq<CaScope>, ts: seq<CaScope>)
    ensures ScopeNames(ss) == ScopeNames(ts) <==> SameIssuers(ss, ts)
  {
    forall n | 0 <= n < |ss|
      ensures ScopeName(ss[n]) in ScopeNames(ts) <==> HasIssuer(ts, ss[n])
      ensures ScopeName(ss[n]) in ScopeNames(ss)
    {
      ScopeNamesHas(ts, ss[n]);
      ScopeNamesHas(ss, ss[n]);
      assert SameIssuer(ss[n], ss[n]);
    }
    forall n | 0 <= n < |ts|
      ensures ScopeName(ts[n]) in ScopeNames(ss) <==> HasIssuer(ss, ts[n])
      ensures ScopeName(ts[n]) in ScopeNames(ts)
    {
      ScopeNamesHas(ss, ts[n]);
      ScopeNamesHas(ts, ts[n]);
      assert SameIssuer(ts[n], ts[n]);
    }
    if SameIssuers(ss, ts) {
      forall x
        ensures x in ScopeNames(ss) <==> x in ScopeNames(ts)
      {
        if x in ScopeNames(ss) {
          var n := ScopeNamesFrom(ss, x);
        }
        if x in ScopeNames(ts) {
          var n := ScopeNamesFrom(ts, x);
        }
      }
    }
  }

  /**
   Delta `n` stands on the base and names nothing but the input before it: a delta that
   verifies, of the same producer and issuers, whose base is the base's manifest and whose
   predecessor, if it names one, is the previous input's.
   */
  ghost predicate Succeeds(c: Codec, base: Bundle, deltas: seq<Bundle>, n: nat)
    requires n < |deltas|
  {
    var d, before := deltas[n], Input(base, deltas, n);
    && d.manifest.bundleType.Delta? && StructureOk(c, d)
    && d.manifest.continuity.baseManifestDigest == Some(c.sha(base.manifestBytes))
    && d.manifest.producerId == base.manifest.producerId
    && SameIssuers(d.manifest.caScopes, base.manifest.caScopes)
    && (d.manifest.continuity.prevManifestDigest.Some? ==>
          d.manifest.continuity.prevManifestDigest.value == c.sha(before.manifestBytes))
  }

  lemma LinkedExactly(c: Codec, base: Bundle, deltas: seq<Bundle>, n: nat)
    requires n < |deltas|
    ensures Linked(c, base, deltas, n) <==> Succeeds(c, base, deltas, n)
  {
    SameIssuersExactly(deltas[n].manifest.caScopes, base.manifest.caScopes);
  }

  ghost predicate AllSucceed(c: Codec, base: Bundle, deltas: seq<Bundle>) {
    forall n :: 0 <= n < |deltas| ==> Succeeds(c, base, deltas, n)
  }

  /** The chain is accepted if and only if each delta succeeds the input before it. */
  lemma ChainedExactly(c: Codec, base: Bundle, deltas: seq<Bundle>)
    ensures Chained(c, base, deltas) <==> AllSucceed(c, base, deltas)
  {
    forall n | 0 <= n < |deltas|
      ensures Linked(c, base, deltas, n) <==> Succeeds(c, base, deltas, n)
    {
      LinkedExactly(c, base, deltas, n);
    }
  }

  lemma {:induction false} MaxEpochAttained(ss: seq<CaScope>)
    ensures MaxEpoch(ss) == 0 || exists n :: 0 <= n < |ss| && ss[n].epoch == MaxEpoch(ss)
  {
    if ss != [] {
      MaxEpochAttained(ss[..|ss| - 1]);
    }
  }

  /** Some scope of some input has epoch `e`. */
  ghost predicate HasEpoch(base: Bundle, deltas: seq<Bundle>, e: u64) {
    exists k: nat, i: nat :: EpochAt(base, deltas, k, i) == Some(e)
  }

  /** The epoch of scope `i` of input `k`. */
  function EpochAt(base: Bundle, deltas: seq<Bundle>, k: nat, i: nat): Option<u64> {
    if k <= |deltas| && i < |Input(base, deltas, k).manifest.caScopes| then
      Some(Input(base, deltas, k).manifest.caScopes[i].epoch)
    else None
  }

  lemma {:induction false} HighestAttained(base: Bundle, deltas: seq<Bundle>, n: nat)
    requires n <= |deltas|
    ensures HighestTo(base, deltas, n) == 0 || HasEpoch(base, deltas, HighestTo(base, deltas, n))
  {
    var ss := Input(base, deltas, n).manifest.caScopes;
    MaxEpochAttained(ss);
    if n > 0 && HighestTo(base, deltas, n) == HighestTo(base, deltas, n - 1) {
      HighestAttained(base, deltas, n - 1);
    } else if MaxEpoch(ss) != 0 {
      var i :| 0 <= i < |ss| && ss[i].epoch == MaxEpoch(ss);
      assert EpochAt(base, deltas, n, i) == Some(HighestTo(base, deltas, n));
    }
  }

  /** `e` is above every epoch of every input, and one above the highest of them. */
  ghost predicate NextEpoch(base: Bundle, deltas: seq<Bundle>, e: u64) {
    && (forall k: nat, i: nat :: EpochAt(base, deltas, k, i).Some? ==> EpochAt(base, deltas, k, i).value < e)
    && (e == 1 || (e > 1 && HasEpoch(base, deltas, e - 1)))
  }

  lemma HighestIsNext(base: Bundle, deltas: seq<Bundle>)
    requires HighestEpoch(base, deltas) < U64_MAX
    ensures NextEpoch(base, deltas, HighestEpoch(base, deltas) + 1)
  {
    HighestAttained(base, deltas, |deltas|);
    forall k: nat, i: nat | EpochAt(base, deltas, k, i).Some?
      ensures EpochAt(base, deltas, k, i).value <= HighestEpoch(base, deltas)
    {
      HighestBounds(base, deltas, |deltas|, k, i);
    }
  }

  lemma EpochLeftExactly(base: Bundle, deltas: seq<Bundle>)
    ensures HighestEpoch(base, deltas) < U64_MAX <==> !HasEpoch(base, deltas, U64_MAX)
  {
    HighestAttained(base, deltas, |deltas|);
    if HasEpoch(base, deltas, U64_MAX) {
      var k: nat, i: nat :| EpochAt(base, deltas, k, i) == Some(U64_MAX);
      HighestBounds(base, deltas, |deltas|, k, i);
    }
  }

  /** Input `k` carries a payload that no later input overrides. */
  ghost predicate Contributes(base: Bundle, deltas: seq<Bundle>, k: nat) {
    exists id :: Live(base, deltas, |deltas|, k, id)
  }

  lemma WindowsExactly(base: Bundle, deltas: seq<Bundle>, w: Window)
    ensures w in WindowsOf(Chain(base, deltas)) <==>
            exists k: nat :: Contributes(base, deltas, k) && Input(base, deltas, k).manifest.window == w
  {
    if w in WindowsOf(Chain(base, deltas)) {
      var id :| id in Chain(base, deltas) && Chain(base, deltas)[id].window == w;
      var k := RetainedIsLive(base, deltas, |deltas|, id);
      LiveIsRetained(base, deltas, |deltas|, k, id);
      assert Contributes(base, deltas, k);
    }
    if exists k: nat :: Contributes(base, deltas, k) && Input(base, deltas, k).manifest.window == w {
      var k: nat :| Contributes(base, deltas, k) && Input(base, deltas, k).manifest.window == w;
      var id :| Live(base, deltas, |deltas|, k, id);
      LiveIsRetained(base, deltas, |deltas|, k, id);
    }
  }

  /** The windows of contributing inputs are in order, and none was produced after another expires. */
  ghost predicate Compatible(base: Bundle, deltas: seq<Bundle>) {
    && (forall k: nat :: Contributes(base, deltas, k) ==>
          var w := Input(base, deltas, k).manifest.window;
          w.thisUpdateMin <= w.nextUpdateMin && w.nextUpdateMin <= w.nextUpdateMax)
    && (forall j: nat, k: nat :: Contributes(base, deltas, j) && Contributes(base, deltas, k) ==>
          Input(base, deltas, j).manifest.window.producedAt < Input(base, deltas, k).manifest.window.nextUpdateMin)
  }

  lemma CompatibleExactly(base: Bundle, deltas: seq<Bundle>)
    ensures WindowsFit(WindowsOf(Chain(base, deltas))) <==> Compatible(base, deltas)
  {
    var s := WindowsOf(Chain(base, deltas));
    forall w
      ensures w in s <==> exists k: nat :: Contributes(base, deltas, k) && Input(base, deltas, k).manifest.window == w
    {
      WindowsExactly(base, deltas, w);
    }
    if WindowsFit(s) {
      forall k: nat | Contributes(base, deltas, k)
        ensures Input(base, deltas, k).manifest.window in s && Ordered(Input(base, deltas, k).manifest.window)
      {
      }
      forall j: nat, k: nat | Contributes(base, deltas, j) && Contributes(base, deltas, k)
        ensures Precedes(Input(base, deltas, j).manifest.window, Input(base, deltas, k).manifest.window)
      {
      }
    }
    if Compatible(base, deltas) {
      forall x | x in s
        ensures Ordered(x)
      {
      }
      forall x, y | x in s && y in s
        ensures Precedes(x, y)
      {
      }
    }
  }

  /** When a chain can be materialized, in terms of its inputs alone. */
  ghost predicate Accepts(c: Codec, base: Bundle, deltas: seq<Bundle>) {
    && StructureOk(c, base) && base.manifest.bundleType.Full?
    && AllSucceed(c, base, deltas) && !HasEpoch(base, deltas, U64_MAX) && Compatible(base, deltas)
  }

  lemma ApplicableExactly(c: Codec, base: Bundle, deltas: seq<Bundle>)
    ensures Applicable(c, base, deltas) <==> Accepts(c, base, deltas)
  {
    ChainedExactly(c, base, deltas);
    EpochLeftExactly(base, deltas);
    CompatibleExactly(base, deltas);
  }

  /** The window of the output, told by the contributing inputs; with none of them the base's. */
  ghost predicate Bounds(base: Bundle, deltas: seq<Bundle>, w: Window) {
    if !exists k: nat :: Contributes(base, deltas, k) then w == base.manifest.window
    else
      && w.nextUpdateMax == w.nextUpdateMin
      && (forall k: nat :: Contributes(base, deltas, k) ==>
            var x := Input(base, deltas, k).manifest.window;
            w.thisUpdateMin <= x.thisUpdateMin && x.producedAt <= w.producedAt && w.nextUpdateMin <= x.nextUpdateMin)
      && (exists k: nat :: Contributes(base, deltas, k)
                           && Input(base, deltas, k).manifest.window.thisUpdateMin == w.thisUpdateMin)
      && (exists k: nat :: Contributes(base, deltas, k)
                           && Input(base, deltas, k).manifest.window.producedAt == w.producedAt)
      && (exists k: nat :: Contributes(base, deltas, k)
                           && Input(base, deltas, k).manifest.window.nextUpdateMin == w.nextUpdateMin)
  }

  lemma BoundsExactly(base: Bundle, deltas: seq<Bundle>, w: Window)
    requires WindowFor(WindowsOf(Chain(base, deltas)), base.manifest.window, w)
    ensures Bounds(base, deltas, w)
  {
    var s := WindowsOf(Chain(base, deltas));
    forall x
      ensures x in s <==> exists k: nat :: Contributes(base, deltas, k) && Input(base, deltas, k).manifest.window == x
    {
      WindowsExactly(base, deltas, x);
    }
    if k: nat :| Contributes(base, deltas, k) {
      assert Input(base, deltas, k).manifest.window in s;
    }
    if s != {} {
      forall k: nat | Contributes(base, deltas, k)
        ensures Within(Input(base, deltas, k).manifest.window, w)
      {
      }
    }
  }

  /**
   The manifest of the output as a reader parses it: a full bundle that names the last
   input as its predecessor, the base's producer and issuers at the next epoch, and the
   window all contributing inputs are valid in.
   */
  lemma ApplyContinues<E>(c: Codec, base: Bundle, deltas: seq<Bundle>, m: Manifest, es: seq<Entry>, seal: Seal<E>)
    requires Faithful(c) && Output(c, base, deltas, m, es) && Fits(c, m, es, seal)
    ensures var r := FromBytes(c, BuiltFile(c, m, es, seal).value);
            && r.Ok?
            && var out, last := r.value.manifest, Input(base, deltas, |deltas|);
               && out.bundleType.Full? && out.producerId == base.manifest.producerId
               && out.continuity.prevManifestDigest == Some(c.sha(last.manifestBytes))
               && out.continuity.baseManifestDigest.None? && out.continuity.chainLength == 0
               && |out.caScopes| == |base.manifest.caScopes|
               && (forall n :: 0 <= n < |out.caScopes| ==>
                     && NextEpoch(base, deltas, out.caScopes[n].epoch)
                     && out.caScopes[n] == base.manifest.caScopes[n].(epoch := out.caScopes[n].epoch))
               && Bounds(base, deltas, out.window)
  {
    BuildParses(c, m, es, seal);
    HighestIsNext(base, deltas);
    BoundsExactly(base, deltas, m.window);
    RebasedScopes(base.manifest.caScopes, HighestEpoch(base, deltas) + 1);
  }

  lemma RebasedScopes(ss: seq<CaScope>, e: u64)
    ensures |WithEpoch(ss, e)| == |ss|
    ensures forall n :: 0 <= n < |ss| ==> WithEpoch(ss, e)[n] == ss[n].(epoch := e)
  {
  }
}
