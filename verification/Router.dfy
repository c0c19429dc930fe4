/**
 The responder: loading the configured bundles as one transaction, routing a
 CertID to the first bundle that holds it, reload and restart with fallback to
 committed snapshots (crates/hoike-core/src/router.rs).
 */
module Router {
  import opened Wrappers
  import opened Bytes
  import opened Marks
  import opened Disk
  import opened Commit
  import opened StateStore
  import opened Install
  import opened Runs
  import opened Recovery

  /** One configured CA: its label and the file its bundle is read from. */
  datatype CaEntry = CaEntry(name: Label, path: Path)

  type ScopeKey = (Bytes, Bytes)

  datatype ScopeEntry = ScopeEntry(bundle: nat, name: Label)

  datatype ScopeMap = ScopeMap(entries: map<ScopeKey, seq<ScopeEntry>>, bundles: seq<Loaded>)

  datatype LoadError = BadConfig | Unreadable | Refused(why: Refusal) | StoreFailed(how: Written)

  function ScopeKeyAt(i: Info, n: nat): ScopeKey
    requires n < |i.scopes|
  {
    (i.scopes[n].nameHash, i.scopes[n].keyHash)
  }

  predicate DistinctLabels(config: seq<CaEntry>) {
    forall a, b :: 0 <= a < b < |config| ==> config[a].name != config[b].name
  }

  // ---- the routing table ---------------------------------------------------------

  function At(entries: map<ScopeKey, seq<ScopeEntry>>, k: ScopeKey): seq<ScopeEntry> {
    if k in entries then entries[k] else []
  }

  /** One copy of `entry` for each of the first `n` scopes filed under `k`. */
  function Copies(i: Info, n: nat, k: ScopeKey, entry: ScopeEntry): seq<ScopeEntry>
    requires n <= |i.scopes|
  {
    if n == 0 then []
    else if ScopeKeyAt(i, n - 1) == k then Copies(i, n - 1, k, entry) + [entry]
    else Copies(i, n - 1, k, entry)
  }

  lemma {:induction false} CopiesSpec(i: Info, n: nat, k: ScopeKey, entry: ScopeEntry)
    requires n <= |i.scopes|
    ensures forall e :: e in Copies(i, n, k, entry) ==> e == entry
    ensures entry in Copies(i, n, k, entry) <==> exists s :: 0 <= s < n && ScopeKeyAt(i, s) == k
  {
    if n > 0 {
      CopiesSpec(i, n - 1, k, entry);
      if ScopeKeyAt(i, n - 1) == k {
        assert Copies(i, n, k, entry)[|Copies(i, n - 1, k, entry)|] == entry;
      }
    }
  }

  /** The entries under `k` contributed by the first `c` configured CAs, in that order. */
  function Table(config: seq<CaEntry>, bundles: seq<Loaded>, index: seq<nat>, c: nat, k: ScopeKey): seq<ScopeEntry>
    requires c <= |config| && c <= |index| && forall a :: 0 <= a < c ==> index[a] < |bundles|
  {
    if c == 0 then []
    else
      var i := bundles[index[c - 1]].info;
      Table(config, bundles, index, c - 1, k) + Copies(i, |i.scopes|, k, ScopeEntry(index[c - 1], config[c - 1].name))
  }

  ghost predicate Filed(before: map<ScopeKey, seq<ScopeEntry>>, after: map<ScopeKey, seq<ScopeEntry>>,
                        i: Info, n: nat, entry: ScopeEntry)
    requires n <= |i.scopes|
  {
    forall k :: At(after, k) == At(before, k) + Copies(i, n, k, entry)
  }

  lemma FileOneMore(before: map<ScopeKey, seq<ScopeEntry>>, after: map<ScopeKey, seq<ScopeEntry>>,
                    i: Info, n: nat, entry: ScopeEntry)
    requires n < |i.scopes| && Filed(before, after, i, n, entry)
    ensures Filed(before, after[ScopeKeyAt(i, n) := At(after, ScopeKeyAt(i, n)) + [entry]], i, n + 1, entry)
  {
    var key := ScopeKeyAt(i, n);
    var next := after[key := At(after, key) + [entry]];
    forall k
      ensures At(next, k) == At(before, k) + Copies(i, n + 1, k, entry)
    {
      assert At(after, k) == At(before, k) + Copies(i, n, k, entry);
      if k == key {
        assert (At(before, k) + Copies(i, n, k, entry)) + [entry] == At(before, k) + (Copies(i, n, k, entry) + [entry]);
      }
    }
  }

  method RegisterScopes(entries: map<ScopeKey, seq<ScopeEntry>>, i: Info, entry: ScopeEntry)
    returns (r: map<ScopeKey, seq<ScopeEntry>>)
    ensures forall k :: At(r, k) == At(entries, k) + Copies(i, |i.scopes|, k, entry)
  {
    r := entries;
    for n := 0 to |i.scopes|
      invariant Filed(entries, r, i, n, entry)
    {
      FileOneMore(entries, r, i, n, entry);
      r := r[ScopeKeyAt(i, n) := At(r, ScopeKeyAt(i, n)) + [entry]];
    }
  }

  /** More configured CAs, or more bundles, leave the earlier part of the table alone. */
  lemma {:induction false} TableExtends(
    config: seq<CaEntry>, bundles: seq<Loaded>, index: seq<nat>, more: seq<Loaded>, next: seq<nat>, c: nat, k: ScopeKey)
    requires c <= |config| && c <= |index| && forall a :: 0 <= a < c ==> index[a] < |bundles|
    requires bundles <= more && index <= next
    ensures Table(config, more, next, c, k) == Table(config, bundles, index, c, k)
  {
    if c > 0 {
      TableExtends(config, bundles, index, more, next, c - 1, k);
    }
  }

  /** An entry comes from a configured CA whose bundle carries the scope. */
  lemma {:induction false} TableSound(
    config: seq<CaEntry>, bundles: seq<Loaded>, index: seq<nat>, c: nat, k: ScopeKey, e: ScopeEntry)
    requires c <= |config| && c <= |index| && forall a :: 0 <= a < c ==> index[a] < |bundles|
    requires e in Table(config, bundles, index, c, k)
    ensures exists a, s :: 0 <= a < c && e == ScopeEntry(index[a], config[a].name)
                           && 0 <= s < |bundles[index[a]].info.scopes| && ScopeKeyAt(bundles[index[a]].info, s) == k
  {
    if e in Table(config, bundles, index, c - 1, k) {
      TableSound(config, bundles, index, c - 1, k, e);
    } else {
      var i := bundles[index[c - 1]].info;
      CopiesSpec(i, |i.scopes|, k, ScopeEntry(index[c - 1], config[c - 1].name));
    }
  }

  /** Every scope of every configured bundle is routed. */
  lemma {:induction false} TableComplete(
    config: seq<CaEntry>, bundles: seq<Loaded>, index: seq<nat>, c: nat, a: nat, s: nat)
    requires c <= |config| && c <= |index| && forall b :: 0 <= b < c ==> index[b] < |bundles|
    requires a < c && s < |bundles[index[a]].info.scopes|
    ensures ScopeEntry(index[a], config[a].name)
            in Table(config, bundles, index, c, ScopeKeyAt(bundles[index[a]].info, s))
  {
    if a < c - 1 {
      TableComplete(config, bundles, index, c - 1, a, s);
    } else {
      var i := bundles[index[a]].info;
      CopiesSpec(i, |i.scopes|, ScopeKeyAt(i, s), ScopeEntry(index[a], config[a].name));
    }
  }

  /**
   The answer to a CertID: the first entry under its issuer hashes, in
   configuration order, whose bundle holds a response; `find` is the bundle lookup.
   */
  method Lookup(m: ScopeMap, k: ScopeKey, find: Loaded -> Option<Bytes>) returns (r: Option<(ScopeEntry, Bytes)>)
    requires forall e :: e in At(m.entries, k) ==> e.bundle < |m.bundles|
    ensures r.None? ==> forall e :: e in At(m.entries, k) ==> find(m.bundles[e.bundle]).None?
    ensures r.Some? ==> exists n :: 0 <= n < |At(m.entries, k)|
                          && At(m.entries, k)[n] == r.value.0
                          && find(m.bundles[r.value.0.bundle]) == Some(r.value.1)
                          && forall j :: 0 <= j < n ==> find(m.bundles[At(m.entries, k)[j].bundle]).None?
  {
    var entries := At(m.entries, k);
    var hits: seq<(ScopeEntry, Bytes)> := [];
    ghost var first := 0;
    for n := 0 to |entries|
      invariant hits == [] ==> forall j :: 0 <= j < n ==> find(m.bundles[entries[j].bundle]).None?
      invariant hits != [] ==>
                  && 0 <= first < n && entries[first] == hits[0].0
                  && find(m.bundles[hits[0].0.bundle]) == Some(hits[0].1)
                  && forall j :: 0 <= j < first ==> find(m.bundles[entries[j].bundle]).None?
    {
      var found := find(m.bundles[entries[n].bundle]);
      if found.Some? {
        if hits == [] {
          first := n;
        }
        hits := hits + [(entries[n], found.value)];
      }
    }
    r := if hits == [] then None else Some(hits[0]);
  }

  /** The bundle has a scope with exactly this issuer name hash and issuer key hash. */
  predicate HasScope(i: Info, nameHash: Bytes, keyHash: Bytes) {
    exists s :: 0 <= s < |i.scopes| && i.scopes[s].nameHash == nameHash && i.scopes[s].keyHash == keyHash
  }

  /**
   CA `a` answers a CertID with these issuer hashes: its bundle has the scope and the
   response, and no CA configured before it has both.
   */
  ghost predicate AnswersFirst(config: seq<CaEntry>, bundles: seq<Loaded>, index: seq<nat>, c: nat,
                               nameHash: Bytes, keyHash: Bytes, find: Loaded -> Option<Bytes>, a: nat)
    requires c <= |config| && c <= |index| && forall b :: 0 <= b < c ==> index[b] < |bundles|
  {
    && a < c && HasScope(bundles[index[a]].info, nameHash, keyHash) && find(bundles[index[a]]).Some?
    && forall b :: 0 <= b < a && HasScope(bundles[index[b]].info, nameHash, keyHash) ==> find(bundles[index[b]]).None?
  }

  lemma TableHasScope(
    config: seq<CaEntry>, bundles: seq<Loaded>, index: seq<nat>, c: nat, nameHash: Bytes, keyHash: Bytes, a: nat)
    requires c <= |config| && c <= |index| && forall b :: 0 <= b < c ==> index[b] < |bundles|
    requires a < c && HasScope(bundles[index[a]].info, nameHash, keyHash)
    ensures ScopeEntry(index[a], config[a].name) in Table(config, bundles, index, c, (nameHash, keyHash))
  {
    var i := bundles[index[a]].info;
    var s :| 0 <= s < |i.scopes| && i.scopes[s].nameHash == nameHash && i.scopes[s].keyHash == keyHash;
    TableComplete(config, bundles, index, c, a, s);
  }

  /** The first entry of the table with a response belongs to the first configured CA that can answer. */
  lemma {:induction false} FirstHitIsFirstConfigured(
    config: seq<CaEntry>, bundles: seq<Loaded>, index: seq<nat>, c: nat, nameHash: Bytes, keyHash: Bytes,
    find: Loaded -> Option<Bytes>, n: nat) returns (a: nat)
    requires c <= |config| && c <= |index| && forall b :: 0 <= b < c ==> index[b] < |bundles|
    requires var t := Table(config, bundles, index, c, (nameHash, keyHash));
             && n < |t| && t[n].bundle < |bundles| && find(bundles[t[n].bundle]).Some?
             && forall j :: 0 <= j < n ==> t[j].bundle < |bundles| && find(bundles[t[j].bundle]).None?
    ensures AnswersFirst(config, bundles, index, c, nameHash, keyHash, find, a)
    ensures Table(config, bundles, index, c, (nameHash, keyHash))[n] == ScopeEntry(index[a], config[a].name)
  {
    var k := (nameHash, keyHash);
    var init := Table(config, bundles, index, c - 1, k);
    assert forall j :: 0 <= j < |init| ==> Table(config, bundles, index, c, k)[j] == init[j];
    if n < |init| {
      a := FirstHitIsFirstConfigured(config, bundles, index, c - 1, nameHash, keyHash, find, n);
    } else {
      a := c - 1;
      var i := bundles[index[a]].info;
      CopiesSpec(i, |i.scopes|, k, ScopeEntry(index[a], config[a].name));
      assert Table(config, bundles, index, c, k)[n] in Copies(i, |i.scopes|, k, ScopeEntry(index[a], config[a].name));
      forall b | 0 <= b < a && HasScope(bundles[index[b]].info, nameHash, keyHash)
        ensures find(bundles[index[b]]).None?
      {
        TableHasScope(config, bundles, index, a, nameHash, keyHash, b);
        var j :| 0 <= j < |init| && init[j] == ScopeEntry(index[b], config[b].name);
        assert Table(config, bundles, index, c, k)[j] == init[j];
      }
    }
  }

  /**
   `lookup` for the issuer hashes of a request's CertID, on a table that was built from
   a configuration: the first configured CA whose bundle has that scope and a response
   answers, and there is no answer exactly when none can.
   */
  method LookupCertId(m: ScopeMap, nameHash: Bytes, keyHash: Bytes, find: Loaded -> Option<Bytes>,
                      ghost config: seq<CaEntry>, ghost index: seq<nat>)
    returns (r: Option<(ScopeEntry, Bytes)>)
    requires |config| <= |index| && Tabled(config, m.bundles, index, |config|, m.entries)
    ensures r.Some? ==> exists a: nat ::
              && AnswersFirst(config, m.bundles, index, |config|, nameHash, keyHash, find, a)
              && r.value.0 == ScopeEntry(index[a], config[a].name)
              && find(m.bundles[index[a]]) == Some(r.value.1)
    ensures r.None? ==> forall a :: 0 <= a < |config| && HasScope(m.bundles[index[a]].info, nameHash, keyHash) ==>
              find(m.bundles[index[a]]).None?
  {
    var k := (nameHash, keyHash);
    assert At(m.entries, k) == Table(config, m.bundles, index, |config|, k);
    forall e | e in At(m.entries, k)
      ensures e.bundle < |m.bundles|
    {
      TableSound(config, m.bundles, index, |config|, k, e);
    }
    r := Lookup(m, k, find);
    if r.Some? {
      ghost var n :| 0 <= n < |At(m.entries, k)| && At(m.entries, k)[n] == r.value.0
                     && forall j :: 0 <= j < n ==> find(m.bundles[At(m.entries, k)[j].bundle]).None?;
      ghost var a := FirstHitIsFirstConfigured(config, m.bundles, index, |config|, nameHash, keyHash, find, n);
    } else {
      forall a | 0 <= a < |config| && HasScope(m.bundles[index[a]].info, nameHash, keyHash)
        ensures find(m.bundles[index[a]]).None?
      {
        TableHasScope(config, m.bundles, index, |config|, nameHash, keyHash, a);
      }
    }
  }

  // ---- what is loaded ----------------------------------------------------------

  /** `index` maps each entry to the bundle of its path; entries naming one path share one bundle. */
  ghost predicate Resolves(
    env: Env, d: DiskState, config: seq<CaEntry>, c: nat, bundles: seq<Loaded>, index: seq<nat>)
  {
    && |index| == c <= |config|
    && (forall a :: 0 <= a < c ==> index[a] < |bundles| && LoadAt(env, d, config[a].path) == Some(bundles[index[a]]))
    && (forall a, b :: 0 <= a < c && 0 <= b < c && config[a].path == config[b].path ==> index[a] == index[b])
    && (forall b :: 0 <= b < |bundles| ==> b in index)
  }

  /** The file can be read, parsed and authenticated. */
  predicate Admitted(env: Env, d: DiskState, path: Path, admit: Bytes -> bool) {
    match Get(d, path)
    case Some(File(Raw(bytes), _)) => env.load(bytes).Some? && admit(bytes)
    case _ => false
  }

  predicate AllAdmitted(env: Env, d: DiskState, config: seq<CaEntry>, admit: Bytes -> bool) {
    forall c :: 0 <= c < |config| ==> Admitted(env, d, config[c].path, admit)
  }

  /** Read, parse and admit one file, and advance the staged candidate by it. */
  method LoadOne(env: Env, candidate: Store, path: Path, admit: Bytes -> bool) returns (r: Result<Loaded, LoadError>)
    requires candidate.drive.Valid() && candidate.staged
    modifies candidate`state, candidate.drive
    ensures candidate.drive.Valid() && candidate.drive.state == old(candidate.drive.state)
    ensures candidate.drive.trace == old(candidate.drive.trace)
    ensures r.Ok? ==>
              && LoadAt(env, candidate.drive.state, path) == Some(r.value)
              && Admit(old(candidate.state), r.value.info) == Some(candidate.state)
    ensures r.Err? && r.error.Refused? ==>
              && LoadAt(env, candidate.drive.state, path).Some?
              && Admit(old(candidate.state), LoadAt(env, candidate.drive.state, path).value.info).None?
    ensures r.Err? && Admitted(env, candidate.drive.state, path, admit) ==> r.error.Refused?
    // loaded exactly when it is authenticated and admissible
    ensures r.Ok? <==>
            && Admitted(env, candidate.drive.state, path, admit)
            && Admit(old(candidate.state), LoadAt(env, candidate.drive.state, path).value.info).Some?
    ensures candidate.drive.failures == old(candidate.drive.failures)
  {
    match Get(candidate.drive.state, path) {
      case Some(File(Raw(bytes), _)) =>
        if env.load(bytes).None? || !admit(bytes) {
          return Err(Unreadable);
        }
        var b := env.load(bytes).value;
        var rollback := candidate.CheckRollback(b.info);
        if rollback.Err? {
          return Err(Refused(rollback.error));
        }
        var continuity := candidate.CheckContinuity(b.info);
        if continuity.Err? {
          return Err(Refused(continuity.error));
        }
        var _ := candidate.AdvanceFromBundle(b.info);
        r := Ok(b);
      case _ =>
        r := Err(Unreadable);
    }
  }

  lemma AdmitOneMore(p: Persisted, bundles: seq<Loaded>, b: Loaded, q: Persisted)
    requires AdmitAll(p, Infos(bundles)) == Some(q)
    ensures AdmitAll(p, Infos(bundles + [b])) == Admit(q, b.info)
  {
    var s := Infos(bundles + [b]);
    assert s[..|s| - 1] == Infos(bundles);
  }

  predicate SeenPath(config: seq<CaEntry>, c: nat, path: Path)
    requires c <= |config|
  {
    exists a :: 0 <= a < c && config[a].path == path
  }

  /** The bundles of the first `c` entries, each file once, in the order of its first entry. */
  function BundleList(env: Env, d: DiskState, config: seq<CaEntry>, c: nat): Option<seq<Loaded>>
    requires c <= |config|
  {
    if c == 0 then Some([])
    else match BundleList(env, d, config, c - 1)
      case None => None
      case Some(bs) =>
        if SeenPath(config, c - 1, config[c - 1].path) then Some(bs)
        else match LoadAt(env, d, config[c - 1].path)
          case None => None
          case Some(b) => Some(bs + [b])
  }

  lemma {:induction false} BundleListGrows(env: Env, d: DiskState, config: seq<CaEntry>, c: nat, n: nat)
    requires c <= n <= |config| && BundleList(env, d, config, n).Some?
    ensures BundleList(env, d, config, c).Some?
    ensures BundleList(env, d, config, c).value <= BundleList(env, d, config, n).value
  {
    if c < n {
      BundleListGrows(env, d, config, c, n - 1);
    }
  }

  /** What a load accepts: every file authenticated, and their bundles admissible one after the other. */
  ghost predicate Loadable(env: Env, d: DiskState, base: Persisted, config: seq<CaEntry>, admit: Bytes -> bool) {
    && AllAdmitted(env, d, config, admit) && BundleList(env, d, config, |config|).Some?
    && AdmitAll(base, Infos(BundleList(env, d, config, |config|).value)).Some?
  }

  /** The first `c` entries are authenticated and these are their bundles. */
  ghost predicate Listed(
    env: Env, d: DiskState, config: seq<CaEntry>, c: nat, admit: Bytes -> bool, bundles: seq<Loaded>)
    requires c <= |config|
  {
    && BundleList(env, d, config, c) == Some(bundles)
    && forall a :: 0 <= a < c ==> Admitted(env, d, config[a].path, admit)
  }

  /** Where the loading loop stands after `c` entries. */
  ghost predicate LoadedSoFar(
    env: Env, d: DiskState, config: seq<CaEntry>, c: nat, admit: Bytes -> bool, p: Persisted, q: Persisted,
    bundles: seq<Loaded>, index: seq<nat>, loaded: map<Path, nat>, entries: map<ScopeKey, seq<ScopeEntry>>)
  {
    && c <= |config|
    && Resolves(env, d, config, c, bundles, index) && Indexed(config, c, loaded, index)
    && AdmitAll(p, Infos(bundles)) == Some(q) && Tabled(config, bundles, index, c, entries)
    && Listed(env, d, config, c, admit, bundles)
  }

  lemma IndexedPath(config: seq<CaEntry>, c: nat, loaded: map<Path, nat>, index: seq<nat>, path: Path)
    requires Indexed(config, c, loaded, index)
    ensures path in loaded <==> SeenPath(config, c, path)
    ensures path in loaded ==> exists a :: 0 <= a < c && config[a].path == path && index[a] == loaded[path]
  {
  }

  lemma IndexedShared(config: seq<CaEntry>, c: nat, loaded: map<Path, nat>, index: seq<nat>)
    requires c < |config| && Indexed(config, c, loaded, index) && config[c].path in loaded
    ensures Indexed(config, c + 1, loaded, index + [loaded[config[c].path]])
  {
  }

  lemma IndexedFresh(config: seq<CaEntry>, c: nat, loaded: map<Path, nat>, index: seq<nat>, n: nat)
    requires c < |config| && Indexed(config, c, loaded, index) && config[c].path !in loaded
    ensures Indexed(config, c + 1, loaded[config[c].path := n], index + [n])
  {
    var after := loaded[config[c].path := n];
    forall path | path in after
      ensures exists a :: 0 <= a < c + 1 && config[a].path == path
    {
      if path in loaded {
        var a :| 0 <= a < c && config[a].path == path;
      } else {
        assert config[c].path == path;
      }
    }
  }

  /** A path seen before is authenticated already. */
  lemma ListedShared(env: Env, d: DiskState, config: seq<CaEntry>, c: nat, admit: Bytes -> bool, bundles: seq<Loaded>)
    requires c < |config| && Listed(env, d, config, c, admit, bundles) && SeenPath(config, c, config[c].path)
    ensures Listed(env, d, config, c + 1, admit, bundles)
  {
  }

  lemma ListedFresh(
    env: Env, d: DiskState, config: seq<CaEntry>, c: nat, admit: Bytes -> bool, bundles: seq<Loaded>, b: Loaded)
    requires c < |config| && Listed(env, d, config, c, admit, bundles) && !SeenPath(config, c, config[c].path)
    requires LoadAt(env, d, config[c].path) == Some(b) && Admitted(env, d, config[c].path, admit)
    ensures Listed(env, d, config, c + 1, admit, bundles + [b])
  {
  }

  /** An entry whose file was loaded for an earlier one. */
  lemma LoadShared(
    env: Env, d: DiskState, config: seq<CaEntry>, c: nat, admit: Bytes -> bool, p: Persisted, q: Persisted,
    bundles: seq<Loaded>, index: seq<nat>, loaded: map<Path, nat>, entries: map<ScopeKey, seq<ScopeEntry>>,
    after: map<ScopeKey, seq<ScopeEntry>>, at: nat)
    requires LoadedSoFar(env, d, config, c, admit, p, q, bundles, index, loaded, entries)
    requires c < |config| && config[c].path in loaded && loaded[config[c].path] == at < |bundles|
    requires var i := bundles[at].info; Filed(entries, after, i, |i.scopes|, ScopeEntry(at, config[c].name))
    ensures LoadedSoFar(env, d, config, c + 1, admit, p, q, bundles, index + [at], loaded, after)
  {
    IndexedPath(config, c, loaded, index, config[c].path);
    IndexedShared(config, c, loaded, index);
    ListedShared(env, d, config, c, admit, bundles);
    SharedResolves(env, d, config, c, bundles, index, at);
    TabledOneMore(config, bundles, index, bundles, index + [at], c, entries, after);
  }

  lemma SharedResolves(
    env: Env, d: DiskState, config: seq<CaEntry>, c: nat, bundles: seq<Loaded>, index: seq<nat>, at: nat)
    requires c < |config| && Resolves(env, d, config, c, bundles, index)
    requires exists a :: 0 <= a < c && config[a].path == config[c].path && index[a] == at
    ensures Resolves(env, d, config, c + 1, bundles, index + [at])
    ensures forall a :: 0 <= a <= c ==> (index + [at])[a] < |bundles|
  {
    ResolvesOneMore(env, d, config, c, bundles, index, bundles, index + [at]);
  }

  lemma FreshResolves(
    env: Env, d: DiskState, config: seq<CaEntry>, c: nat, bundles: seq<Loaded>, index: seq<nat>, b: Loaded)
    requires c < |config| && Resolves(env, d, config, c, bundles, index) && !SeenPath(config, c, config[c].path)
    requires LoadAt(env, d, config[c].path) == Some(b)
    ensures Resolves(env, d, config, c + 1, bundles + [b], index + [|bundles|])
    ensures forall a :: 0 <= a <= c ==> (index + [|bundles|])[a] < |bundles + [b]|
  {
    ResolvesOneMore(env, d, config, c, bundles, index, bundles + [b], index + [|bundles|]);
  }

  /** An entry that brings a file of its own. */
  lemma LoadFresh(
    env: Env, d: DiskState, config: seq<CaEntry>, c: nat, admit: Bytes -> bool, p: Persisted, q: Persisted,
    bundles: seq<Loaded>, index: seq<nat>, loaded: map<Path, nat>, entries: map<ScopeKey, seq<ScopeEntry>>,
    after: map<ScopeKey, seq<ScopeEntry>>, b: Loaded, q': Persisted)
    requires LoadedSoFar(env, d, config, c, admit, p, q, bundles, index, loaded, entries)
    requires c < |config| && config[c].path !in loaded && Admitted(env, d, config[c].path, admit)
    requires LoadAt(env, d, config[c].path) == Some(b) && Admit(q, b.info) == Some(q')
    requires Filed(entries, after, b.info, |b.info.scopes|, ScopeEntry(|bundles|, config[c].name))
    ensures LoadedSoFar(env, d, config, c + 1, admit, p, q', bundles + [b], index + [|bundles|],
                        loaded[config[c].path := |bundles|], after)
  {
    IndexedPath(config, c, loaded, index, config[c].path);
    IndexedFresh(config, c, loaded, index, |bundles|);
    ListedFresh(env, d, config, c, admit, bundles, b);
    FreshResolves(env, d, config, c, bundles, index, b);
    AdmitOneMore(p, bundles, b, q);
    FreshTabled(config, bundles, index, c, entries, after, b);
  }

  lemma FreshTabled(
    config: seq<CaEntry>, bundles: seq<Loaded>, index: seq<nat>, c: nat,
    entries: map<ScopeKey, seq<ScopeEntry>>, after: map<ScopeKey, seq<ScopeEntry>>, b: Loaded)
    requires c < |config| && |index| == c && Tabled(config, bundles, index, c, entries)
    requires Filed(entries, after, b.info, |b.info.scopes|, ScopeEntry(|bundles|, config[c].name))
    ensures Tabled(config, bundles + [b], index + [|bundles|], c + 1, after)
  {
    TabledOneMore(config, bundles, index, bundles + [b], index + [|bundles|], c, entries, after);
  }

  /** A load that is accepted admits every file where it is reached. */
  lemma LoadableReaches(
    env: Env, d: DiskState, config: seq<CaEntry>, c: nat, admit: Bytes -> bool, p: Persisted, q: Persisted,
    bundles: seq<Loaded>)
    requires c < |config| && BundleList(env, d, config, c) == Some(bundles) && AdmitAll(p, Infos(bundles)) == Some(q)
    requires !SeenPath(config, c, config[c].path) && Loadable(env, d, p, config, admit)
    ensures Admitted(env, d, config[c].path, admit) && Admit(q, LoadAt(env, d, config[c].path).value.info).Some?
  {
    BundleListGrows(env, d, config, c + 1, |config|);
    var all, b := BundleList(env, d, config, |config|).value, LoadAt(env, d, config[c].path).value;
    assert bundles + [b] <= all;
    AdmitPrefix(p, bundles, b, q, all);
  }

  lemma AdmitPrefix(p: Persisted, bundles: seq<Loaded>, b: Loaded, q: Persisted, all: seq<Loaded>)
    requires bundles + [b] <= all && AdmitAll(p, Infos(all)).Some? && AdmitAll(p, Infos(bundles)) == Some(q)
    ensures Admit(q, b.info).Some?
  {
    AdmitOneMore(p, bundles, b, q);
    AdmitAllPrefix(p, Infos(all), |bundles| + 1);
    assert Infos(all)[..|bundles| + 1] == Infos(bundles + [b]);
  }

  /** So a file that is not authenticated, or not admissible where it is reached, makes the load fail. */
  lemma NotLoadable(
    env: Env, d: DiskState, config: seq<CaEntry>, c: nat, admit: Bytes -> bool, p: Persisted, q: Persisted,
    bundles: seq<Loaded>)
    requires c < |config| && BundleList(env, d, config, c) == Some(bundles) && AdmitAll(p, Infos(bundles)) == Some(q)
    requires !SeenPath(config, c, config[c].path)
    requires !(Admitted(env, d, config[c].path, admit) && Admit(q, LoadAt(env, d, config[c].path).value.info).Some?)
    ensures !Loadable(env, d, p, config, admit)
  {
    if Loadable(env, d, p, config, admit) {
      LoadableReaches(env, d, config, c, admit, p, q, bundles);
    }
  }

  /** Every configured file is checked before any snapshot is written. */
  method LoadBundles(env: Env, candidate: Store, config: seq<CaEntry>, admit: Bytes -> bool)
    returns (r: Result<ScopeMap, LoadError>, index: seq<nat>)
    requires candidate.drive.Valid() && candidate.staged
    modifies candidate`state, candidate.drive
    ensures candidate.drive.Valid() && candidate.drive.state == old(candidate.drive.state)
    ensures candidate.drive.trace == old(candidate.drive.trace)
    ensures candidate.drive.failures == old(candidate.drive.failures)
    // accepted exactly when every file is authenticated and their bundles are admissible
    ensures r.Ok? <==> Loadable(env, candidate.drive.state, old(candidate.state), config, admit)
    ensures r.Ok? ==>
              && Resolves(env, candidate.drive.state, config, |config|, r.value.bundles, index)
              && AdmitAll(old(candidate.state), Infos(r.value.bundles)) == Some(candidate.state)
              && Tabled(config, r.value.bundles, index, |config|, r.value.entries)
              && BundleList(env, candidate.drive.state, config, |config|) == Some(r.value.bundles)
    // a working set the record already holds is never refused
    ensures r.Err? && r.error.Refused? ==> NotAllRecorded(env, candidate.drive.state, old(candidate.state), config)
    ensures r.Err? && AllAdmitted(env, candidate.drive.state, config, admit) ==> r.error.Refused?
  {
    ghost var d, p := candidate.drive.state, candidate.state;
    var bundles: seq<Loaded> := [];
    var entries: map<ScopeKey, seq<ScopeEntry>> := map[];
    var loaded: map<Path, nat> := map[];
    index := [];
    for c := 0 to |config|
      invariant candidate.drive.Valid() && candidate.drive.state == d
      invariant candidate.drive.trace == old(candidate.drive.trace)
      invariant candidate.drive.failures == old(candidate.drive.failures)
      invariant LoadedSoFar(env, d, config, c, admit, p, candidate.state, bundles, index, loaded, entries)
    {
      ghost var q, entries0 := candidate.state, entries;
      var path := config[c].path;
      IndexedPath(config, c, loaded, index, path);
      if path in loaded {
        entries := RegisterScopes(entries, bundles[loaded[path]].info, ScopeEntry(loaded[path], config[c].name));
        LoadShared(env, d, config, c, admit, p, q, bundles, index, loaded, entries0, entries, loaded[path]);
        index := index + [loaded[path]];
      } else {
        var one := LoadOne(env, candidate, path, admit);
        if one.Err? {
          NotLoadable(env, d, config, c, admit, p, q, bundles);
          if one.error.Refused? {
            RefusedIsNotRecorded(env, d, config, c, bundles, index, p, q);
          }
          return Err(one.error), index;
        }
        entries := RegisterScopes(entries, one.value.info, ScopeEntry(|bundles|, config[c].name));
        LoadFresh(env, d, config, c, admit, p, q, bundles, index, loaded, entries0, entries, one.value,
                  candidate.state);
        loaded := loaded[path := |bundles|];
        index := index + [|bundles|];
        bundles := bundles + [one.value];
      }
    }
    r := Ok(ScopeMap(entries, bundles));
  }

  ghost predicate Indexed(config: seq<CaEntry>, c: nat, loaded: map<Path, nat>, index: seq<nat>) {
    && |index| == c <= |config|
    && (forall path :: path in loaded ==> exists a :: 0 <= a < c && config[a].path == path)
    && (forall a :: 0 <= a < c ==> config[a].path in loaded && loaded[config[a].path] == index[a])
  }

  ghost predicate Tabled(
    config: seq<CaEntry>, bundles: seq<Loaded>, index: seq<nat>, c: nat, entries: map<ScopeKey, seq<ScopeEntry>>)
  {
    && c <= |config| && c <= |index| && (forall a :: 0 <= a < c ==> index[a] < |bundles|)
    && forall k :: At(entries, k) == Table(config, bundles, index, c, k)
  }

  lemma TabledOneMore(
    config: seq<CaEntry>, bundles: seq<Loaded>, index: seq<nat>, more: seq<Loaded>, next: seq<nat>, c: nat,
    entries: map<ScopeKey, seq<ScopeEntry>>, after: map<ScopeKey, seq<ScopeEntry>>)
    requires c < |config| && |next| == c + 1 && bundles <= more && index <= next
    requires forall a :: 0 <= a <= c ==> next[a] < |more|
    requires Tabled(config, bundles, index, c, entries)
    requires var i := more[next[c]].info; Filed(entries, after, i, |i.scopes|, ScopeEntry(next[c], config[c].name))
    ensures Tabled(config, more, next, c + 1, after)
  {
    forall k
      ensures At(after, k) == Table(config, more, next, c + 1, k)
    {
      TableExtends(config, bundles, index, more, next, c, k);
      assert At(entries, k) == Table(config, bundles, index, c, k);
    }
  }

  /** The next entry either shares an earlier path or brings its own bundle. */
  lemma ResolvesOneMore(
    env: Env, d: DiskState, config: seq<CaEntry>, c: nat,
    bundles: seq<Loaded>, index: seq<nat>, more: seq<Loaded>, next: seq<nat>)
    requires c < |config| && Resolves(env, d, config, c, bundles, index) && |next| == c + 1 && index <= next
    requires || (more == bundles && exists a :: 0 <= a < c && config[a].path == config[c].path && next[c] == index[a])
             || (&& |more| == |bundles| + 1 && bundles <= more && next[c] == |bundles|
                 && LoadAt(env, d, config[c].path) == Some(more[next[c]])
                 && forall a :: 0 <= a < c ==> config[a].path != config[c].path)
    ensures Resolves(env, d, config, c + 1, more, next)
  {
    assert forall b :: b in index ==> b in next;
    assert next[c] in next;
  }

  /** If everything read so far is recorded, nothing read next is refused unless it is not. */
  lemma RefusedIsNotRecorded(
    env: Env, d: DiskState, config: seq<CaEntry>, c: nat, bundles: seq<Loaded>, index: seq<nat>, p: Persisted,
    q: Persisted)
    requires c < |config| && Resolves(env, d, config, c, bundles, index)
    requires AdmitAll(p, Infos(bundles)) == Some(q)
    requires LoadAt(env, d, config[c].path).Some? && Admit(q, LoadAt(env, d, config[c].path).value.info).None?
    ensures exists a :: 0 <= a < |config| && LoadAt(env, d, config[a].path).Some?
                        && !Recorded(p, LoadAt(env, d, config[a].path).value.info)
  {
    var i := LoadAt(env, d, config[c].path).value.info;
    if forall b :: 0 <= b < |bundles| ==> Recorded(p, Infos(bundles)[b]) {
      ReloadIsIdempotent(p, Infos(bundles));
      RecordedIsAdmitted(p, i);
    } else {
      var b :| 0 <= b < |bundles| && !Recorded(p, Infos(bundles)[b]);
      assert b in index;
      var a :| 0 <= a < |index| && index[a] == b;
      assert LoadAt(env, d, config[a].path) == Some(bundles[b]);
    }
  }

  lemma RecordedIsAdmitted(p: Persisted, i: Info)
    ensures Recorded(p, i) ==> Admit(p, i).Some?
  {
    if Recorded(p, i) {
      RecordedIsIdempotent(p, i, |i.scopes|);
    }
  }

  // ---- snapshots of the working set ------------------------------------------------

  ghost predicate LabelsOf(order: seq<ScopeEntry>, labels: set<Label>) {
    && (forall a, b :: 0 <= a < b < |order| ==> order[a].name != order[b].name)
    && (forall a :: 0 <= a < |order| ==> order[a].name in labels)
    && (forall l :: l in labels ==> exists a :: 0 <= a < |order| && order[a].name == l)
  }

  lemma LabelsOfOneMore(order: seq<ScopeEntry>, labels: set<Label>, e: ScopeEntry)
    requires LabelsOf(order, labels) && e.name !in labels
    ensures LabelsOf(order + [e], labels + {e.name})
  {
    var next := order + [e];
    forall l | l in labels + {e.name}
      ensures exists a :: 0 <= a < |next| && next[a].name == l
    {
      if l == e.name {
        assert next[|order|].name == l;
      } else {
        var a :| 0 <= a < |order| && order[a].name == l;
        assert next[a].name == l;
      }
    }
  }

  /** The entries under one key: the first of each new label joins the order. */
  method WalkEntries(entries: seq<ScopeEntry>, order0: seq<ScopeEntry>, labels0: set<Label>)
    returns (order: seq<ScopeEntry>, labels: set<Label>)
    requires LabelsOf(order0, labels0)
    ensures LabelsOf(order, labels) && order0 <= order && labels0 <= labels
    ensures forall a :: |order0| <= a < |order| ==> order[a] in entries
    ensures forall e :: e in entries ==> e.name in labels
  {
    order, labels := order0, labels0;
    for n := 0 to |entries|
      invariant LabelsOf(order, labels) && order0 <= order && labels0 <= labels
      invariant forall a :: |order0| <= a < |order| ==> order[a] in entries
      invariant forall j :: 0 <= j < n ==> entries[j].name in labels
    {
      if entries[n].name !in labels {
        LabelsOfOneMore(order, labels, entries[n]);
        labels := labels + {entries[n].name};
        order := order + [entries[n]];
      }
    }
  }

  ghost predicate Filled(entries: map<ScopeKey, seq<ScopeEntry>>, order: seq<ScopeEntry>) {
    forall a :: 0 <= a < |order| ==> exists k :: k in entries && order[a] in entries[k]
  }

  /** One entry per routed label, in whatever order the table is walked. */
  method LabelOrder(entries: map<ScopeKey, seq<ScopeEntry>>) returns (order: seq<ScopeEntry>, labels: set<Label>)
    ensures LabelsOf(order, labels) && Filled(entries, order)
    ensures forall k, e :: k in entries && e in entries[k] ==> e.name in labels
  {
    order, labels := [], {};
    var todo := entries.Keys;
    while todo != {}
      invariant LabelsOf(order, labels) && Filled(entries, order) && todo <= entries.Keys
      invariant forall k, e :: k in entries && k !in todo && e in entries[k] ==> e.name in labels
      decreases |todo|
    {
      var k :| k in todo;
      ghost var before := order;
      order, labels := WalkEntries(entries[k], order, labels);
      assert forall a :: 0 <= a < |order| ==> order[a] in entries[k] || order[a] in before;
      todo := todo - {k};
    }
  }

  ghost predicate Prepared(env: Env, m: ScopeMap, order: seq<ScopeEntry>) {
    && (forall a :: 0 <= a < |order| ==> order[a].bundle < |m.bundles| && Genuine(env, m.bundles[order[a].bundle]))
    && (forall a, b :: 0 <= a < b < |order| ==> order[a].name != order[b].name)
  }

  function ImageOf(m: ScopeMap, order: seq<ScopeEntry>, a: nat): Bytes
    requires a < |order| && order[a].bundle < |m.bundles|
  {
    m.bundles[order[a].bundle].image
  }

  /** The first `n` labels, and no others, refer to the digest of their bundle's image. */
  ghost predicate Referenced(env: Env, m: ScopeMap, order: seq<ScopeEntry>, n: nat, active: map<Label, Digest>)
    requires Prepared(env, m, order) && n <= |order|
  {
    && (forall a :: 0 <= a < n ==> order[a].name in active && active[order[a].name] == env.sha(ImageOf(m, order, a)))
    && (forall l :: l in active ==> exists a :: 0 <= a < n && order[a].name == l)
  }

  /** Every value that may survive of the blob of label `a` is its image. */
  ghost predicate ImageStays(env: Env, e: DiskState, m: ScopeMap, order: seq<ScopeEntry>, a: nat)
    requires a < |order| && order[a].bundle < |m.bundles|
  {
    var x := env.sha(ImageOf(m, order, a));
    forall v :: v in Alts(e, Snapshot(x)) ==> IsImage(env, x, v)
  }

  /** Each label's blob is still to be written or durable as found. */
  ghost predicate Ready(env: Env, d: DiskState, m: ScopeMap, order: seq<ScopeEntry>)
    requires Prepared(env, m, order)
  {
    forall a :: 0 <= a < |order| && Found(env, d, env.sha(ImageOf(m, order, a))) ==> ImageStays(env, d, m, order, a)
  }

  /** The images of the first `n` labels are durable, provided those found at the start were. */
  ghost predicate Imaged(env: Env, d: DiskState, e: DiskState, m: ScopeMap, order: seq<ScopeEntry>, n: nat)
    requires Prepared(env, m, order) && n <= |order|
  {
    Ready(env, d, m, order) ==>
      Ready(env, e, m, order) && forall a :: 0 <= a < n ==> ImageStays(env, e, m, order, a)
  }

  /** Staging one blob leaves every other one at least as settled, and this one durable. */
  lemma OneMoreImage(env: Env, e: DiskState, f: DiskState, m: ScopeMap, order: seq<ScopeEntry>, n: nat, a: nat)
    requires Prepared(env, m, order) && n < |order| && a < |order| && Ready(env, e, m, order)
    requires Snapshotted(e, f, env.sha(ImageOf(m, order, n)), ImageOf(m, order, n))
    ensures a == n || ImageStays(env, e, m, order, a) ==> ImageStays(env, f, m, order, a)
    ensures Found(env, f, env.sha(ImageOf(m, order, a))) ==> ImageStays(env, f, m, order, a)
  {
    var image := ImageOf(m, order, n);
    assert Genuine(env, m.bundles[order[n].bundle]);
    if env.sha(ImageOf(m, order, a)) == env.sha(image) && Reused(e, env.sha(image), image) {
      assert ImageStays(env, e, m, order, a);
    }
  }

  lemma ImagedOneMore(
    env: Env, d: DiskState, e: DiskState, f: DiskState, m: ScopeMap, order: seq<ScopeEntry>, n: nat)
    requires Prepared(env, m, order) && n < |order|
    requires Imaged(env, d, e, m, order, n)
    requires Snapshotted(e, f, env.sha(ImageOf(m, order, n)), ImageOf(m, order, n))
    ensures Imaged(env, d, f, m, order, n + 1)
  {
    if Ready(env, d, m, order) {
      forall a | 0 <= a < |order|
        ensures a == n || ImageStays(env, e, m, order, a) ==> ImageStays(env, f, m, order, a)
        ensures Found(env, f, env.sha(ImageOf(m, order, a))) ==> ImageStays(env, f, m, order, a)
      {
        OneMoreImage(env, e, f, m, order, n, a);
      }
    }
  }

  /** The blob of label `a` is not there byte for byte, so this load writes it. */
  predicate MustWrite(env: Env, d: DiskState, m: ScopeMap, order: seq<ScopeEntry>, a: nat)
    requires a < |order| && order[a].bundle < |m.bundles|
  {
    !Reused(d, env.sha(ImageOf(m, order, a)), ImageOf(m, order, a))
  }

  /** One of the first `n` labels had its blob written. */
  ghost predicate WritesOne(env: Env, d: DiskState, m: ScopeMap, order: seq<ScopeEntry>, n: nat)
    requires Prepared(env, m, order) && n <= |order|
  {
    exists a :: 0 <= a < n && MustWrite(env, d, m, order, a)
  }

  /** What is seen under the name of label `a`'s blob, once the first `n` labels are staged. */
  ghost predicate SeenAs(env: Env, d: DiskState, e: DiskState, m: ScopeMap, order: seq<ScopeEntry>, n: nat, a: nat)
    requires a < |order| && order[a].bundle < |m.bundles|
  {
    var image := ImageOf(m, order, a);
    var now, was := Get(e, Snapshot(env.sha(image))), Get(d, Snapshot(env.sha(image)));
    && (now == was || (MustWrite(env, d, m, order, a) && now == Some(File(Raw(image), true))))
    && (a < n ==> now.Some? && now.value.body == Raw(image))
  }

  /** The snapshots are as they were, seen and surviving. */
  ghost predicate SameBlobs(d: DiskState, e: DiskState) {
    forall x :: Get(e, Snapshot(x)) == Get(d, Snapshot(x)) && Alts(e, Snapshot(x)) == Alts(d, Snapshot(x))
  }

  /**
   Exactly what staging the first `n` labels leaves: the snapshots as they were if
   nothing had to be written, and otherwise a synced directory.
   */
  ghost predicate StagedExactly(env: Env, d: DiskState, e: DiskState, m: ScopeMap, order: seq<ScopeEntry>, n: nat)
    requires Prepared(env, m, order) && n <= |order|
  {
    && (if WritesOne(env, d, m, order, n) then SettledDir(e, Generations) else SameBlobs(d, e))
    && (n > 0 ==> Get(e, BlobDir).Some?) && Alts(d, BlobDir) <= Alts(e, BlobDir)
    && forall a :: 0 <= a < |order| ==> SeenAs(env, d, e, m, order, n, a)
  }

  lemma SeenOneMore(
    env: Env, d: DiskState, e: DiskState, f: DiskState, m: ScopeMap, order: seq<ScopeEntry>, n: nat, a: nat)
    requires CollisionFree(env) && Prepared(env, m, order) && n < |order| && a < |order|
    requires SeenAs(env, d, e, m, order, n, a)
    requires Snapshotted(e, f, env.sha(ImageOf(m, order, n)), ImageOf(m, order, n))
    ensures SeenAs(env, d, f, m, order, n + 1, a)
  {
    var x, y := env.sha(ImageOf(m, order, a)), env.sha(ImageOf(m, order, n));
    assert Genuine(env, m.bundles[order[a].bundle]) && Genuine(env, m.bundles[order[n].bundle]);
    if x == y && !Reused(e, y, ImageOf(m, order, n)) {
      assert Get(f, Snapshot(y)) in Alts(f, Snapshot(y));
    }
  }

  lemma StagedOneMore(
    env: Env, d: DiskState, e: DiskState, f: DiskState, m: ScopeMap, order: seq<ScopeEntry>, n: nat)
    requires CollisionFree(env) && Prepared(env, m, order) && n < |order|
    requires StagedExactly(env, d, e, m, order, n)
    requires Snapshotted(e, f, env.sha(ImageOf(m, order, n)), ImageOf(m, order, n))
    ensures StagedExactly(env, d, f, m, order, n + 1)
  {
    var k := n + 1;
    forall a | 0 <= a < |order|
      ensures SeenAs(env, d, f, m, order, k, a)
    {
      SeenOneMore(env, d, e, f, m, order, n, a);
    }
    assert WritesOne(env, d, m, order, n + 1) <==> WritesOne(env, d, m, order, n) || MustWrite(env, d, m, order, n);
  }

  lemma ReferencedOneMore(env: Env, m: ScopeMap, order: seq<ScopeEntry>, n: nat, active: map<Label, Digest>)
    requires Prepared(env, m, order) && n < |order| && Referenced(env, m, order, n, active)
    ensures Referenced(env, m, order, n + 1, active[order[n].name := env.sha(ImageOf(m, order, n))])
  {
  }

  /** The first `n` labels: their references, how durable their images are, and what the disk holds of them. */
  ghost predicate LabelsStaged(env: Env, d: DiskState, e: DiskState, m: ScopeMap, order: seq<ScopeEntry>, n: nat,
                               active: map<Label, Digest>)
    requires Prepared(env, m, order) && n <= |order|
  {
    Referenced(env, m, order, n, active) && Imaged(env, d, e, m, order, n) && StagedExactly(env, d, e, m, order, n)
  }

  lemma LabelsOneMore(env: Env, d: DiskState, e: DiskState, f: DiskState, m: ScopeMap, order: seq<ScopeEntry>, n: nat,
                      active: map<Label, Digest>)
    requires CollisionFree(env) && Prepared(env, m, order) && n < |order|
    requires LabelsStaged(env, d, e, m, order, n, active)
    requires Snapshotted(e, f, env.sha(ImageOf(m, order, n)), ImageOf(m, order, n))
    ensures LabelsStaged(env, d, f, m, order, n + 1, active[order[n].name := env.sha(ImageOf(m, order, n))])
  {
    ReferencedOneMore(env, m, order, n, active);
    ImagedOneMore(env, d, e, f, m, order, n);
    StagedOneMore(env, d, e, f, m, order, n);
  }

  /** `StageSnapshot` inside a transaction that began at `d`. */
  method StageOneMore(env: Env, candidate: Store, name: Label, b: Loaded, ghost d: DiskState) returns (w: Written)
    requires candidate.drive.Valid() && Genuine(env, b) && Staging(env, d, candidate.drive.state)
    modifies candidate`state, candidate.drive
    ensures candidate.drive.Valid() && old(candidate.drive.trace) <= candidate.drive.trace
    ensures forall i :: |old(candidate.drive.trace)| <= i < |candidate.drive.trace| ==>
              Staging(env, d, candidate.drive.trace[i])
    ensures Staging(env, d, candidate.drive.state)
    ensures candidate.state ==
            if w.Done? then old(candidate.state).(active := old(candidate.state).active[name := env.sha(b.image)])
            else old(candidate.state)
    ensures w.Done? ==> Snapshotted(old(candidate.drive.state), candidate.drive.state, env.sha(b.image), b.image)
    ensures old(candidate.drive.failures) <= candidate.drive.failures
    ensures w.Done? <==> candidate.drive.failures == old(candidate.drive.failures)
  {
    w := StageSnapshot(env, candidate, name, b);
    forall f | Staging(env, old(candidate.drive.state), f)
      ensures Staging(env, d, f)
    {
      StagingTransitive(env, d, old(candidate.drive.state), f);
    }
  }

  method SnapshotLabels(env: Env, candidate: Store, m: ScopeMap, order: seq<ScopeEntry>) returns (w: Written)
    requires CollisionFree(env) && candidate.drive.Valid() && Prepared(env, m, order)
    requires candidate.state.active == map[]
    modifies candidate`state, candidate.drive
    ensures candidate.drive.Valid() && old(candidate.drive.trace) <= candidate.drive.trace
    ensures forall i :: |old(candidate.drive.trace)| <= i < |candidate.drive.trace| ==>
              Staging(env, old(candidate.drive.state), candidate.drive.trace[i])
    ensures Staging(env, old(candidate.drive.state), candidate.drive.state)
    ensures candidate.state == old(candidate.state).(active := candidate.state.active)
    ensures w.Done? ==>
              LabelsStaged(env, old(candidate.drive.state), candidate.drive.state, m, order, |order|,
                           candidate.state.active)
    ensures old(candidate.drive.failures) <= candidate.drive.failures
    ensures w.Done? <==> candidate.drive.failures == old(candidate.drive.failures)
  {
    w := Done;
    for n := 0 to |order|
      invariant w == Done && candidate.drive.Valid() && old(candidate.drive.trace) <= candidate.drive.trace
      invariant forall i :: |old(candidate.drive.trace)| <= i < |candidate.drive.trace| ==>
                  Staging(env, old(candidate.drive.state), candidate.drive.trace[i])
      invariant Staging(env, old(candidate.drive.state), candidate.drive.state)
      invariant candidate.state == old(candidate.state).(active := candidate.state.active)
      invariant candidate.drive.failures == old(candidate.drive.failures)
      invariant LabelsStaged(env, old(candidate.drive.state), candidate.drive.state, m, order, n,
                             candidate.state.active)
    {
      ghost var e, active := candidate.drive.state, candidate.state.active;
      w := StageOneMore(env, candidate, order[n].name, m.bundles[order[n].bundle], old(candidate.drive.state));
      if !w.Done? {
        return;
      }
      LabelsOneMore(env, old(candidate.drive.state), e, candidate.drive.state, m, order, n, active);
    }
  }

  // ---- the load transaction ---------------------------------------------------------

  /** Every file the configuration names holds an image the digest separates from the others. */
  ghost predicate FilesInPlay(env: Env, d: DiskState, config: seq<CaEntry>) {
    forall c :: 0 <= c < |config| && LoadAt(env, d, config[c].path).Some? ==>
      env.inPlay(LoadAt(env, d, config[c].path).value.image)
  }

  lemma ResolvedAreGenuine(env: Env, d: DiskState, config: seq<CaEntry>, bundles: seq<Loaded>, index: seq<nat>, b: nat)
    requires Reparses(env) && FilesInPlay(env, d, config) && Resolves(env, d, config, |config|, bundles, index)
    requires b < |bundles|
    ensures Genuine(env, bundles[b])
  {
    assert b in index;
    var c :| 0 <= c < |index| && index[c] == b;
    assert LoadAt(env, d, config[c].path) == Some(bundles[b]);
  }

  lemma TableIsPrepared(
    env: Env, d: DiskState, config: seq<CaEntry>, m: ScopeMap, index: seq<nat>, order: seq<ScopeEntry>,
    labels: set<Label>)
    requires Reparses(env) && FilesInPlay(env, d, config) && Resolves(env, d, config, |config|, m.bundles, index)
    requires Tabled(config, m.bundles, index, |config|, m.entries)
    requires Filled(m.entries, order) && LabelsOf(order, labels)
    ensures Prepared(env, m, order)
  {
    forall a | 0 <= a < |order|
      ensures order[a].bundle < |m.bundles| && Genuine(env, m.bundles[order[a].bundle])
    {
      var k :| k in m.entries && order[a] in m.entries[k];
      assert At(m.entries, k) == Table(config, m.bundles, index, |config|, k);
      TableSound(config, m.bundles, index, |config|, k, order[a]);
      ResolvedAreGenuine(env, d, config, m.bundles, index, order[a].bundle);
    }
  }

  lemma LoadedAreCovered(mem: Persisted, bundles: seq<Loaded>, cand: Persisted, b: nat)
    requires AdmitAll(mem, Infos(bundles)).Some? && cand.marks == AdmitAll(mem, Infos(bundles)).value.marks
    requires b < |bundles|
    ensures Covers(cand, bundles[b].info)
  {
    assert Infos(bundles)[b] == bundles[b].info;
    forall n | 0 <= n < |bundles[b].info.scopes|
      ensures KeyAt(bundles[b].info, n) in cand.marks
      ensures bundles[b].info.scopes[n].epoch <= cand.marks[KeyAt(bundles[b].info, n)]
    {
      AdmitAllCovers(mem, Infos(bundles), b, n);
    }
  }

  lemma ReloadedSnapshotDurable(
    env: Env, e: DiskState, mem: Persisted, m: ScopeMap, order: seq<ScopeEntry>, cand: Persisted, a: nat)
    requires CollisionFree(env) && Prepared(env, m, order) && a < |order| && ImageStays(env, e, m, order, a)
    requires AdmitAll(mem, Infos(m.bundles)).Some? && cand.marks == AdmitAll(mem, Infos(m.bundles)).value.marks
    ensures DurableBlob(env, e, cand, env.sha(ImageOf(m, order, a)))
  {
    LoadedAreCovered(mem, m.bundles, cand, order[a].bundle);
    assert Genuine(env, m.bundles[order[a].bundle]);
    ImagesAreDurable(env, e, cand, env.sha(ImageOf(m, order, a)), Some(File(Raw(ImageOf(m, order, a)), true)));
  }

  lemma ReferencedAreReady(env: Env, d: DiskState, m: ScopeMap, order: seq<ScopeEntry>, cand: Persisted)
    requires Prepared(env, m, order) && Referenced(env, m, order, |order|, cand.active)
    requires ReusesDurable(env, d, cand)
    ensures Ready(env, d, m, order)
  {
    forall a | 0 <= a < |order| && Found(env, d, env.sha(ImageOf(m, order, a)))
      ensures ImageStays(env, d, m, order, a)
    {
      assert cand.active[order[a].name] == env.sha(ImageOf(m, order, a));
    }
  }

  lemma ReloadIsSound(
    env: Env, d: DiskState, staged: DiskState, mem: Persisted, m: ScopeMap, order: seq<ScopeEntry>, cand: Persisted)
    requires CollisionFree(env) && Paired(mem) && Prepared(env, m, order) && ReusesDurable(env, d, cand)
    requires AdmitAll(mem, Infos(m.bundles)).Some?
    requires cand == AdmitAll(mem, Infos(m.bundles)).value.(active := cand.active)
    requires LabelsStaged(env, d, staged, m, order, |order|, cand.active)
    ensures ReadyToCommit(env, staged, cand)
  {
    AdmitAllSpec(mem, Infos(m.bundles));
    ReferencedAreReady(env, d, m, order, cand);
    forall l | l in cand.active
      ensures DurableBlob(env, staged, cand, cand.active[l])
    {
      var a :| 0 <= a < |order| && order[a].name == l;
      ReloadedSnapshotDurable(env, staged, mem, m, order, cand, a);
    }
  }

  lemma ReferencedIsCandidate(env: Env, mem: Persisted, m: ScopeMap, order: seq<ScopeEntry>, cand: Persisted)
    requires Prepared(env, m, order) && forall b :: 0 <= b < |m.bundles| ==> Genuine(env, m.bundles[b])
    requires AdmitAll(mem.(active := map[]), Infos(m.bundles)).Some?
    requires cand == AdmitAll(mem.(active := map[]), Infos(m.bundles)).value.(active := cand.active)
    requires Referenced(env, m, order, |order|, cand.active)
    ensures ReloadCandidate(env, mem, m.bundles, cand)
  {
    forall l | l in cand.active
      ensures exists b :: 0 <= b < |m.bundles| && cand.active[l] == env.sha(m.bundles[b].image)
    {
      var a :| 0 <= a < |order| && order[a].name == l;
      assert cand.active[l] == env.sha(m.bundles[order[a].bundle].image);
    }
  }

  lemma StagedIsCandidate(
    env: Env, d: DiskState, staged: DiskState, mem: Persisted, m: ScopeMap, order: seq<ScopeEntry>, cand: Persisted)
    requires CollisionFree(env) && Paired(mem) && Prepared(env, m, order)
    requires forall b :: 0 <= b < |m.bundles| ==> Genuine(env, m.bundles[b])
    requires AdmitAll(mem.(active := map[]), Infos(m.bundles)).Some?
    requires cand == AdmitAll(mem.(active := map[]), Infos(m.bundles)).value.(active := cand.active)
    requires LabelsStaged(env, d, staged, m, order, |order|, cand.active)
    ensures ReloadCandidate(env, mem, m.bundles, cand)
    ensures ReusesDurable(env, d, cand) ==> ReadyToCommit(env, staged, cand)
  {
    ReferencedIsCandidate(env, mem, m, order, cand);
    if ReusesDurable(env, d, cand) {
      ReloadIsSound(env, d, staged, mem.(active := map[]), m, order, cand);
    }
  }

  /** Label `l` of the record is kept in the blob of bundle `b`. */
  predicate Uses(env: Env, bundles: seq<Loaded>, cand: Persisted, l: Label, b: nat) {
    l in cand.active && b < |bundles| && cand.active[l] == env.sha(bundles[b].image)
  }

  /** The blob of this label is not there byte for byte, so it will be written. */
  predicate IsWritten(env: Env, d: DiskState, bundles: seq<Loaded>, cand: Persisted, l: Label, b: nat)
    requires Uses(env, bundles, cand, l, b)
  {
    !Reused(d, cand.active[l], bundles[b].image)
  }

  ghost predicate WritesBlob(env: Env, d: DiskState, bundles: seq<Loaded>, cand: Persisted) {
    exists l: Label, b: nat :: Uses(env, bundles, cand, l, b) && IsWritten(env, d, bundles, cand, l, b)
  }

  /** The values that may survive of this label's blob once the load has committed. */
  ghost function BlobAfter(env: Env, d: DiskState, bundles: seq<Loaded>, cand: Persisted, l: Label, b: nat)
    : set<Option<File>>
    requires Uses(env, bundles, cand, l, b)
  {
    if !WritesBlob(env, d, bundles, cand) then Alts(d, Snapshot(cand.active[l]))
    else if IsWritten(env, d, bundles, cand, l, b) then {Some(File(Raw(bundles[b].image), true))}
    else {Get(d, Snapshot(cand.active[l]))}
  }

  /** The blobs a committed load leaves, told from the disk it started on. */
  ghost predicate StoredLoad(env: Env, d: DiskState, bundles: seq<Loaded>, cand: Persisted, e: DiskState) {
    (cand.active != map[] ==> DirDurable(e)) && StoredImages(env, d, bundles, cand, e)
  }

  ghost predicate StoredImages(env: Env, d: DiskState, bundles: seq<Loaded>, cand: Persisted, e: DiskState) {
    forall l: Label, b: nat :: Uses(env, bundles, cand, l, b) ==>
      Alts(e, Snapshot(cand.active[l])) == BlobAfter(env, d, bundles, cand, l, b)
  }

  lemma UsesOrdered(env: Env, m: ScopeMap, order: seq<ScopeEntry>, cand: Persisted, l: Label, b: nat) returns (a: nat)
    requires CollisionFree(env) && Prepared(env, m, order) && Referenced(env, m, order, |order|, cand.active)
    requires forall c :: 0 <= c < |m.bundles| ==> Genuine(env, m.bundles[c])
    requires Uses(env, m.bundles, cand, l, b)
    ensures a < |order| && order[a].name == l && ImageOf(m, order, a) == m.bundles[b].image
  {
    a :| 0 <= a < |order| && order[a].name == l;
    assert Genuine(env, m.bundles[order[a].bundle]) && Genuine(env, m.bundles[b]);
  }

  lemma WritesEither(env: Env, d: DiskState, m: ScopeMap, order: seq<ScopeEntry>, cand: Persisted)
    requires CollisionFree(env) && Prepared(env, m, order) && Referenced(env, m, order, |order|, cand.active)
    requires forall c :: 0 <= c < |m.bundles| ==> Genuine(env, m.bundles[c])
    ensures WritesBlob(env, d, m.bundles, cand) <==> WritesOne(env, d, m, order, |order|)
  {
    if WritesBlob(env, d, m.bundles, cand) {
      var l: Label, b: nat :| Uses(env, m.bundles, cand, l, b) && IsWritten(env, d, m.bundles, cand, l, b);
      var a := UsesOrdered(env, m, order, cand, l, b);
      assert MustWrite(env, d, m, order, a);
    }
    if WritesOne(env, d, m, order, |order|) {
      var a :| 0 <= a < |order| && MustWrite(env, d, m, order, a);
      assert Uses(env, m.bundles, cand, order[a].name, order[a].bundle);
      assert IsWritten(env, d, m.bundles, cand, order[a].name, order[a].bundle);
    }
  }

  lemma StagedIsStored(
    env: Env, d: DiskState, staged: DiskState, m: ScopeMap, order: seq<ScopeEntry>, cand: Persisted, e: DiskState)
    requires CollisionFree(env) && Prepared(env, m, order) && Referenced(env, m, order, |order|, cand.active)
    requires forall c :: 0 <= c < |m.bundles| ==> Genuine(env, m.bundles[c])
    requires StagedExactly(env, d, staged, m, order, |order|) && KeepsNamed(staged, e, cand)
    ensures StoredImages(env, d, m.bundles, cand, e)
    ensures (Get(staged, BlobDir).Some? ==> DirDurable(e)) ==> StoredLoad(env, d, m.bundles, cand, e)
  {
    if cand.active != map[] {
      var l :| l in cand.active;
      assert exists a :: 0 <= a < |order| && order[a].name == l;
    }
    forall l: Label, b: nat | Uses(env, m.bundles, cand, l, b)
      ensures Alts(e, Snapshot(cand.active[l])) == BlobAfter(env, d, m.bundles, cand, l, b)
    {
      BlobIsStored(env, d, staged, m, order, cand, e, l, b);
    }
  }

  lemma BlobIsStored(env: Env, d: DiskState, staged: DiskState, m: ScopeMap, order: seq<ScopeEntry>, cand: Persisted,
                     e: DiskState, l: Label, b: nat)
    requires CollisionFree(env) && Prepared(env, m, order) && Referenced(env, m, order, |order|, cand.active)
    requires forall c :: 0 <= c < |m.bundles| ==> Genuine(env, m.bundles[c])
    requires StagedExactly(env, d, staged, m, order, |order|) && KeepsNamed(staged, e, cand)
    requires Uses(env, m.bundles, cand, l, b)
    ensures Alts(e, Snapshot(cand.active[l])) == BlobAfter(env, d, m.bundles, cand, l, b)
  {
    WritesEither(env, d, m, order, cand);
    var a := UsesOrdered(env, m, order, cand, l, b);
    assert SeenAs(env, d, staged, m, order, |order|, a);
    StoredAs(d, staged, cand.active[l], m.bundles[b].image, WritesOne(env, d, m, order, |order|));
  }

  /** What may survive of one blob that was found, or written because it was not. */
  lemma StoredAs(d: DiskState, staged: DiskState, x: Digest, image: Bytes, writes: bool)
    requires if writes then SettledDir(staged, Generations) else SameBlobs(d, staged)
    requires var now, was := Get(staged, Snapshot(x)), Get(d, Snapshot(x));
             && (now == was || (!Reused(d, x, image) && now == Some(File(Raw(image), true))))
             && now.Some? && now.value.body == Raw(image)
    ensures Alts(staged, Snapshot(x)) ==
            if !writes then Alts(d, Snapshot(x))
            else if !Reused(d, x, image) then {Some(File(Raw(image), true))}
            else {Get(d, Snapshot(x))}
  {
  }

  /**
   Known before the load: if it writes any blob, and so syncs their directory, the
   blobs it finds have synced contents; if it writes none, every value that may
   survive of each is its synced image.
   */
  ghost predicate LoadIsDurable(env: Env, d: DiskState, bundles: seq<Loaded>, cand: Persisted) {
    forall l: Label, b: nat :: Uses(env, bundles, cand, l, b) && !IsWritten(env, d, bundles, cand, l, b) ==>
      if WritesBlob(env, d, bundles, cand) then Get(d, Snapshot(cand.active[l])).value.synced
      else forall v :: v in Alts(d, Snapshot(cand.active[l])) ==> v == Some(File(Raw(bundles[b].image), true))
  }

  lemma DurableBlobs(env: Env, d: DiskState, bundles: seq<Loaded>, cand: Persisted, l: Label, b: nat)
    requires Consistent(d) && Uses(env, bundles, cand, l, b) && LoadIsDurable(env, d, bundles, cand)
    ensures forall v :: v in BlobAfter(env, d, bundles, cand, l, b) ==> v == Some(File(Raw(bundles[b].image), true))
  {
    if !WritesBlob(env, d, bundles, cand) {
      assert !IsWritten(env, d, bundles, cand, l, b);
    }
  }

  /** What is stored under the names this load uses is the image or has another digest. */
  ghost predicate OnlyTheseImages(env: Env, d: DiskState, bundles: seq<Loaded>, cand: Persisted) {
    forall l: Label, b: nat, v :: Uses(env, bundles, cand, l, b) && v in Alts(d, Snapshot(cand.active[l])) ==>
      OnlyThisImage(env, bundles[b].image, v)
  }

  /**
   When a successful reload is safe: every crash after it opens to the new record
   if and only if the blobs it reused were durable in this sense.
   */
  lemma LoadedSurvivesCrash(
    env: Env, d: DiskState, mem: Persisted, bundles: seq<Loaded>, cand: Persisted, e: DiskState)
    requires CollisionFree(env) && Consistent(d) && Paired(mem) && ReloadCandidate(env, mem, bundles, cand)
    requires Consistent(e) && Alts(e, Descriptor) == {Described(cand)} && StoredLoad(env, d, bundles, cand, e)
    requires OnlyTheseImages(env, d, bundles, cand)
    ensures (forall f :: CrashOf(e, f) ==> Opened(env, f) == Some(cand)) <==> LoadIsDurable(env, d, bundles, cand)
  {
    if LoadIsDurable(env, d, bundles, cand) {
      LoadedIsSound(env, d, mem, bundles, cand, e);
      forall f | CrashOf(e, f)
        ensures Opened(env, f) == Some(cand)
      {
        CrashOpens(env, e, f);
      }
    } else {
      var f := FlawedLoadLoses(env, d, mem, bundles, cand, e);
    }
  }

  /** What such an interruption leaves: nothing removed, and the blobs as they were staged. */
  lemma LoadRenamedLeaves(env: Env, d: DiskState, bundles: seq<Loaded>, cand: Persisted, e: DiskState)
    requires LoadRenamed(env, d, bundles, cand, e)
    ensures Consistent(e) && Alts(e, Descriptor) <= Alts(d, Descriptor) + {Described(cand)} && MayHold(e, cand)
    ensures OnlyImagesAdded(env, d, e) && Alts(d, BlobDir) <= Alts(e, BlobDir)
    ensures DirReused(d, cand) ==> StoredLoad(env, d, bundles, cand, e)
  {
    var staged :| StagedFor(env, d, staged) && Replaced(staged, e, Descriptor, StateJson(cand), Uncertain);
    RenamingAddsNothing(env, d, staged, cand, e);
  }

  lemma RenamedLoadIsSound(env: Env, d: DiskState, mem: Persisted, bundles: seq<Loaded>, cand: Persisted, e: DiskState)
    requires CollisionFree(env) && DiskInv(env, d) && Paired(mem) && ReloadCandidate(env, mem, bundles, cand)
    requires LoadRenamed(env, d, bundles, cand, e) && DirReused(d, cand) && LoadIsDurable(env, d, bundles, cand)
    ensures DiskInv(env, e)
  {
    LoadRenamedLeaves(env, d, bundles, cand, e);
    LoadedIsSound(env, d, mem, bundles, cand, e);
    forall v | v in Alts(e, Descriptor)
      ensures v.Some? && v.value.synced && v.value.body.StateJson? && Sound(env, e, v.value.body.state)
    {
      if v in Alts(d, Descriptor) {
        SoundStays(env, d, e, v.value.body.state);
      }
    }
  }

  /**
   When a reload interrupted between the descriptor's rename and the sync of its
   directory is safe: every crash there leaves a disk that opens if and only if,
   before the call, the record named no snapshot or their directory was durable, and
   the blobs it reused were durable as a finished reload needs them.
   */
  lemma RenamedLoadSurvivesCrash(
    env: Env, d: DiskState, mem: Persisted, bundles: seq<Loaded>, cand: Persisted, e: DiskState)
    requires CollisionFree(env) && DiskInv(env, d) && Paired(mem) && ReloadCandidate(env, mem, bundles, cand)
    requires LoadRenamed(env, d, bundles, cand, e) && OnlyTheseImages(env, d, bundles, cand)
    ensures (forall f :: CrashOf(e, f) ==> Opened(env, f).Some?)
            <==> DirReused(d, cand) && LoadIsDurable(env, d, bundles, cand)
  {
    LoadRenamedLeaves(env, d, bundles, cand, e);
    if !DirReused(d, cand) {
      var l :| l in cand.active;
      var f := LosesDirectory(env, e, cand, l);
    } else if LoadIsDurable(env, d, bundles, cand) {
      RenamedLoadIsSound(env, d, mem, bundles, cand, e);
      forall f | CrashOf(e, f)
        ensures Opened(env, f).Some?
      {
        CrashOpens(env, e, f);
      }
    } else {
      var f := FlawedLoadLoses(env, d, mem, bundles, cand, e);
    }
  }

  /** A crash after which the record a load committed cannot be opened. */
  lemma FlawedLoadLoses(env: Env, d: DiskState, mem: Persisted, bundles: seq<Loaded>, cand: Persisted, e: DiskState)
    returns (f: DiskState)
    requires Consistent(d) && ReloadCandidate(env, mem, bundles, cand) && !LoadIsDurable(env, d, bundles, cand)
    requires Consistent(e) && MayHold(e, cand) && StoredLoad(env, d, bundles, cand, e)
    requires OnlyTheseImages(env, d, bundles, cand)
    ensures CrashOf(e, f) && Opened(env, f).None?
  {
    var l: Label, b: nat := FlawedBlob(env, d, bundles, cand);
    assert Genuine(env, bundles[b]);
    assert Alts(e, Snapshot(cand.active[l])) == BlobAfter(env, d, bundles, cand, l, b);
    OnlyImageFits(env, d, bundles, cand, l, b);
    f := LosesSnapshot(env, e, cand, l);
  }

  lemma LoadedIsSound(env: Env, d: DiskState, mem: Persisted, bundles: seq<Loaded>, cand: Persisted, e: DiskState)
    requires CollisionFree(env) && Consistent(d) && Paired(mem) && ReloadCandidate(env, mem, bundles, cand)
    requires StoredLoad(env, d, bundles, cand, e) && LoadIsDurable(env, d, bundles, cand)
    ensures Sound(env, e, cand)
  {
    ReloadExtends(env, mem, bundles, cand);
    forall l | l in cand.active
      ensures DurableSnapshot(env, e, cand, cand.active[l])
    {
      var b: nat :| b < |bundles| && cand.active[l] == env.sha(bundles[b].image);
      assert Uses(env, bundles, cand, l, b) && Genuine(env, bundles[b]);
      DurableBlobs(env, d, bundles, cand, l, b);
      LoadedAreCovered(mem.(active := map[]), bundles, cand, b);
      assert Alts(e, Snapshot(cand.active[l])) == BlobAfter(env, d, bundles, cand, l, b);
      ImagesAreDurable(env, e, cand, cand.active[l], Some(File(Raw(bundles[b].image), true)));
    }
  }

  /** A blob of which something else than its synced image may survive. */
  lemma FlawedBlob(env: Env, d: DiskState, bundles: seq<Loaded>, cand: Persisted) returns (l: Label, b: nat)
    requires Consistent(d) && !LoadIsDurable(env, d, bundles, cand)
    ensures Uses(env, bundles, cand, l, b)
    ensures exists v :: v in BlobAfter(env, d, bundles, cand, l, b) && v != Some(File(Raw(bundles[b].image), true))
  {
    l, b :| && Uses(env, bundles, cand, l, b) && !IsWritten(env, d, bundles, cand, l, b)
            && !(if WritesBlob(env, d, bundles, cand) then Get(d, Snapshot(cand.active[l])).value.synced
                 else forall v :: v in Alts(d, Snapshot(cand.active[l])) ==>
                        v == Some(File(Raw(bundles[b].image), true)));
    if WritesBlob(env, d, bundles, cand) {
      assert Get(d, Snapshot(cand.active[l])) in BlobAfter(env, d, bundles, cand, l, b);
    } else {
      var v :| v in Alts(d, Snapshot(cand.active[l])) && v != Some(File(Raw(bundles[b].image), true));
      assert v in BlobAfter(env, d, bundles, cand, l, b);
    }
  }

  lemma OnlyImageFits(env: Env, d: DiskState, bundles: seq<Loaded>, cand: Persisted, l: Label, b: nat)
    requires Consistent(d) && Uses(env, bundles, cand, l, b) && Genuine(env, bundles[b])
    requires OnlyTheseImages(env, d, bundles, cand)
    ensures forall v :: v in BlobAfter(env, d, bundles, cand, l, b) && SnapshotFits(env, cand, cand.active[l], v) ==>
              v.value.body == Raw(bundles[b].image) && Canonical(env, v.value.body.bytes)
  {
    forall v | v in BlobAfter(env, d, bundles, cand, l, b) && SnapshotFits(env, cand, cand.active[l], v)
      ensures v.value.body == Raw(bundles[b].image)
    {
      assert Get(d, Snapshot(cand.active[l])) in Alts(d, Snapshot(cand.active[l]));
      if v in Alts(d, Snapshot(cand.active[l])) {
        assert OnlyThisImage(env, bundles[b].image, v);
      }
    }
  }

  /** A label is given a snapshot exactly when its bundle has at least one scope. */
  ghost predicate SnapshotsRouted(
    env: Env, config: seq<CaEntry>, m: ScopeMap, index: seq<nat>, active: map<Label, Digest>)
  {
    && |index| == |config|
    && (forall c :: 0 <= c < |config| ==>
          && index[c] < |m.bundles|
          && (m.bundles[index[c]].info.scopes != [] <==> config[c].name in active)
          && (config[c].name in active ==> active[config[c].name] == env.sha(m.bundles[index[c]].image)))
    && forall l :: l in active ==> exists c :: 0 <= c < |config| && config[c].name == l
  }

  lemma OrderIsRouted(config: seq<CaEntry>, m: ScopeMap, index: seq<nat>, order: seq<ScopeEntry>, a: nat)
    requires Tabled(config, m.bundles, index, |config|, m.entries) && Filled(m.entries, order) && a < |order|
    ensures exists c :: RoutedBy(config, m, index, order[a], c)
  {
    assert order[a] == order[a] && exists k :: k in m.entries && order[a] in m.entries[k];
    var k :| k in m.entries && order[a] in m.entries[k];
    assert At(m.entries, k) == Table(config, m.bundles, index, |config|, k);
    TableSound(config, m.bundles, index, |config|, k, order[a]);
    var c, s :| 0 <= c < |config| && order[a] == ScopeEntry(index[c], config[c].name)
                && 0 <= s < |m.bundles[index[c]].info.scopes| && ScopeKeyAt(m.bundles[index[c]].info, s) == k;
    assert RoutedBy(config, m, index, order[a], c);
  }

  lemma ScopesAreOrdered(
    config: seq<CaEntry>, m: ScopeMap, index: seq<nat>, order: seq<ScopeEntry>, labels: set<Label>, c: nat)
    requires Tabled(config, m.bundles, index, |config|, m.entries) && LabelsOf(order, labels)
    requires forall k, e :: k in m.entries && e in m.entries[k] ==> e.name in labels
    requires c < |config| && m.bundles[index[c]].info.scopes != []
    ensures exists a :: 0 <= a < |order| && order[a].name == config[c].name
  {
    TableComplete(config, m.bundles, index, |config|, c, 0);
    var k := ScopeKeyAt(m.bundles[index[c]].info, 0);
    assert At(m.entries, k) == Table(config, m.bundles, index, |config|, k);
    assert k in m.entries && ScopeEntry(index[c], config[c].name) in m.entries[k];
  }

  lemma RoutedLabel(
    env: Env, config: seq<CaEntry>, m: ScopeMap, index: seq<nat>, order: seq<ScopeEntry>, labels: set<Label>,
    active: map<Label, Digest>, c: nat)
    requires DistinctLabels(config) && Prepared(env, m, order)
    requires Tabled(config, m.bundles, index, |config|, m.entries)
    requires Filled(m.entries, order) && LabelsOf(order, labels)
    requires Referenced(env, m, order, |order|, active)
    requires forall k, e :: k in m.entries && e in m.entries[k] ==> e.name in labels
    requires c < |config|
    ensures m.bundles[index[c]].info.scopes != [] <==> config[c].name in active
    ensures config[c].name in active ==> active[config[c].name] == env.sha(m.bundles[index[c]].image)
  {
    if m.bundles[index[c]].info.scopes != [] {
      ScopesAreOrdered(config, m, index, order, labels, c);
    }
    if config[c].name in active {
      var a :| 0 <= a < |order| && order[a].name == config[c].name;
      OrderIsRouted(config, m, index, order, a);
      var b :| RoutedBy(config, m, index, order[a], b);
      assert b == c;
    }
  }

  lemma RoutedLabels(
    env: Env, config: seq<CaEntry>, m: ScopeMap, index: seq<nat>, order: seq<ScopeEntry>, labels: set<Label>,
    active: map<Label, Digest>)
    requires DistinctLabels(config) && Prepared(env, m, order) && |index| == |config|
    requires Tabled(config, m.bundles, index, |config|, m.entries)
    requires Filled(m.entries, order) && LabelsOf(order, labels)
    requires Referenced(env, m, order, |order|, active)
    requires forall k, e :: k in m.entries && e in m.entries[k] ==> e.name in labels
    ensures SnapshotsRouted(env, config, m, index, active)
  {
    forall c | 0 <= c < |config|
      ensures m.bundles[index[c]].info.scopes != [] <==> config[c].name in active
      ensures config[c].name in active ==> active[config[c].name] == env.sha(m.bundles[index[c]].image)
    {
      RoutedLabel(env, config, m, index, order, labels, active, c);
    }
    forall l | l in active
      ensures exists c :: 0 <= c < |config| && config[c].name == l
    {
      var a :| 0 <= a < |order| && order[a].name == l;
      OrderIsRouted(config, m, index, order, a);
    }
  }

  ghost predicate RoutedBy(config: seq<CaEntry>, m: ScopeMap, index: seq<nat>, e: ScopeEntry, c: nat) {
    && c < |config| && c < |index| && index[c] < |m.bundles|
    && e == ScopeEntry(index[c], config[c].name) && m.bundles[index[c]].info.scopes != []
  }

  /** A state of a load that began with memory `mem` and disk `d`. */
  ghost predicate Loading(env: Env, d: DiskState, mem: Persisted, bundles: seq<Loaded>, cand: Persisted, e: DiskState) {
    || Staging(env, d, e)
    || (ReloadCandidate(env, mem, bundles, cand) && InFlight(env, d, cand, e))
  }

  /** Blobs were stored; whatever could be lost of their directory still can. */
  ghost predicate StagedFor(env: Env, d: DiskState, staged: DiskState) {
    Staging(env, d, staged) && Alts(d, BlobDir) <= Alts(staged, BlobDir)
  }

  /** Every blob was stored and the descriptor renamed over, but the directory sync after that failed. */
  ghost predicate LoadRenamed(env: Env, d: DiskState, bundles: seq<Loaded>, cand: Persisted, e: DiskState) {
    && StoredImages(env, d, bundles, cand, e)
    && exists staged :: StagedFor(env, d, staged) && Replaced(staged, e, Descriptor, StateJson(cand), Uncertain)
  }

  /** Where a load that failed may have stopped. */
  ghost predicate LoadStopped(env: Env, d: DiskState, bundles: seq<Loaded>, cand: Persisted, e: DiskState) {
    Staging(env, d, e) || LoadRenamed(env, d, bundles, cand, e)
  }

  lemma StagedIsRenamed(
    env: Env, d: DiskState, staged: DiskState, m: ScopeMap, order: seq<ScopeEntry>, cand: Persisted, e: DiskState)
    requires CollisionFree(env) && Prepared(env, m, order) && Referenced(env, m, order, |order|, cand.active)
    requires forall c :: 0 <= c < |m.bundles| ==> Genuine(env, m.bundles[c])
    requires Staging(env, d, staged) && StagedExactly(env, d, staged, m, order, |order|)
    requires Replaced(staged, e, Descriptor, StateJson(cand), Uncertain)
    ensures LoadRenamed(env, d, m.bundles, cand, e)
  {
    assert KeepsNamed(staged, e, cand);
    StagedIsStored(env, d, staged, m, order, cand, e);
    assert StagedFor(env, d, staged);
  }

  /** Write every label's blob, then the descriptor that names them. */
  method StageAndCommit(env: Env, store: Store, candidate: Store, m: ScopeMap, order: seq<ScopeEntry>,
                        ghost mem: Persisted)
    returns (w: Written, ghost cand: Persisted)
    requires CollisionFree(env) && Paired(mem) && Prepared(env, m, order)
    requires forall b :: 0 <= b < |m.bundles| ==> Genuine(env, m.bundles[b])
    requires store.drive.Valid() && candidate.drive == store.drive && candidate != store
    requires AdmitAll(mem.(active := map[]), Infos(m.bundles)) == Some(candidate.state)
    modifies store`state, candidate`state, store.drive
    ensures store.drive.Valid() && old(store.drive.trace) <= store.drive.trace
    ensures forall i :: |old(store.drive.trace)| <= i < |store.drive.trace| ==>
              Loading(env, old(store.drive.state), mem, m.bundles, cand, store.drive.trace[i])
    ensures w.Done? ==>
              && store.state == cand && ReloadCandidate(env, mem, m.bundles, cand)
              && Committed(env, old(store.drive.state), cand, store.drive.state)
              && Referenced(env, m, order, |order|, cand.active)
              && StoredLoad(env, old(store.drive.state), m.bundles, cand, store.drive.state)
    ensures !w.Done? ==>
              && store.state == old(store.state)
              && Loading(env, old(store.drive.state), mem, m.bundles, cand, store.drive.state)
              && OnlyImagesAdded(env, old(store.drive.state), store.drive.state)
              && LoadStopped(env, old(store.drive.state), m.bundles, cand, store.drive.state)
    ensures old(store.drive.failures) <= store.drive.failures
    ensures store.drive.failures == old(store.drive.failures) ==> w.Done? && OnlyNamed(store.drive.state, cand)
  {
    ghost var d := store.drive.state;
    w := StageLabels(env, candidate, m, order, mem);
    cand := candidate.state;
    if w.Done? {
      ghost var staged := store.drive.state;
      w := CommitLoaded(env, store, candidate, d, mem, m.bundles);
      if w.Done? {
        StagedIsStored(env, d, staged, m, order, cand, store.drive.state);
      } else if !Staging(env, d, store.drive.state) {
        StagedIsRenamed(env, d, staged, m, order, cand, store.drive.state);
      }
    }
  }

  /** `SnapshotLabels` as the middle phase of a load: what it leaves is ready to be committed. */
  method StageLabels(env: Env, candidate: Store, m: ScopeMap, order: seq<ScopeEntry>, ghost mem: Persisted)
    returns (w: Written)
    requires CollisionFree(env) && Paired(mem) && Prepared(env, m, order) && candidate.drive.Valid()
    requires forall b :: 0 <= b < |m.bundles| ==> Genuine(env, m.bundles[b])
    requires AdmitAll(mem.(active := map[]), Infos(m.bundles)) == Some(candidate.state)
    modifies candidate`state, candidate.drive
    ensures candidate.drive.Valid() && old(candidate.drive.trace) <= candidate.drive.trace
    ensures forall i :: |old(candidate.drive.trace)| <= i < |candidate.drive.trace| ==>
              Staging(env, old(candidate.drive.state), candidate.drive.trace[i])
    ensures Staging(env, old(candidate.drive.state), candidate.drive.state)
    ensures w.Done? ==>
              && ReloadCandidate(env, mem, m.bundles, candidate.state)
              && Referenced(env, m, order, |order|, candidate.state.active)
              && StagedExactly(env, old(candidate.drive.state), candidate.drive.state, m, order, |order|)
              && (ReusesDurable(env, old(candidate.drive.state), candidate.state) ==>
                    ReadyToCommit(env, candidate.drive.state, candidate.state))
    ensures old(candidate.drive.failures) <= candidate.drive.failures
    ensures w.Done? <==> candidate.drive.failures == old(candidate.drive.failures)
  {
    ghost var d := candidate.drive.state;
    AdmitAllSpec(mem.(active := map[]), Infos(m.bundles));
    w := SnapshotLabels(env, candidate, m, order);
    if w.Done? {
      StagedIsCandidate(env, d, candidate.drive.state, mem, m, order, candidate.state);
    }
  }

  /** `CommitStaged` as the last phase of a load. */
  method CommitLoaded(env: Env, store: Store, candidate: Store, ghost d: DiskState, ghost mem: Persisted,
                      ghost bundles: seq<Loaded>)
    returns (w: Written)
    requires store.drive.Valid() && candidate.drive == store.drive && candidate != store
    requires Staging(env, d, store.drive.state) && ReloadCandidate(env, mem, bundles, candidate.state)
    requires ReusesDurable(env, d, candidate.state) ==> ReadyToCommit(env, store.drive.state, candidate.state)
    modifies store`state, store.drive
    ensures store.drive.Valid() && old(store.drive.trace) <= store.drive.trace
    ensures forall i :: |old(store.drive.trace)| <= i < |store.drive.trace| ==>
              Loading(env, d, mem, bundles, candidate.state, store.drive.trace[i])
    ensures w.Done? ==>
              && store.state == candidate.state && Committed(env, d, candidate.state, store.drive.state)
              && KeepsNamed(old(store.drive.state), store.drive.state, candidate.state)
              && (Get(old(store.drive.state), BlobDir).Some? ==> DirDurable(store.drive.state))
    ensures !w.Done? ==>
              && store.state == old(store.state) && Loading(env, d, mem, bundles, candidate.state, store.drive.state)
              && OnlyImagesAdded(env, d, store.drive.state)
              && (|| Staging(env, d, store.drive.state)
                  || Replaced(old(store.drive.state), store.drive.state, Descriptor, StateJson(candidate.state),
                              Uncertain))
    ensures old(store.drive.failures) <= store.drive.failures
    ensures store.drive.failures == old(store.drive.failures) ==>
              w.Done? && OnlyNamed(store.drive.state, candidate.state)
  {
    w := CommitStaged(env, store, candidate, d);
  }

  /** The bundles a load went on with are those its configured files hold. */
  ghost predicate ReadFrom(env: Env, d: DiskState, config: seq<CaEntry>, bundles: seq<Loaded>) {
    forall b :: 0 <= b < |bundles| ==> HeldByFile(env, d, config, bundles[b])
  }

  ghost predicate HeldByFile(env: Env, d: DiskState, config: seq<CaEntry>, b: Loaded) {
    exists c :: 0 <= c < |config| && LoadAt(env, d, config[c].path) == Some(b)
  }

  lemma ResolvedAreRead(env: Env, d: DiskState, config: seq<CaEntry>, bundles: seq<Loaded>, index: seq<nat>)
    requires Resolves(env, d, config, |config|, bundles, index)
    ensures ReadFrom(env, d, config, bundles)
  {
    forall b | 0 <= b < |bundles|
      ensures HeldByFile(env, d, config, bundles[b])
    {
      assert b in index;
      var c :| 0 <= c < |index| && index[c] == b;
      assert LoadAt(env, d, config[c].path) == Some(bundles[b]);
    }
  }

  /** Distinct labels, every file authenticated, and bundles that pass their checks against the record. */
  ghost predicate LoadAccepts(env: Env, d: DiskState, mem: Persisted, config: seq<CaEntry>, admit: Bytes -> bool) {
    DistinctLabels(config) && Loadable(env, d, mem.(active := map[]), config, admit)
  }

  /** Check everything, stage everything, then commit a replacement working set. */
  method LoadScopeMap(env: Env, store: Store, config: seq<CaEntry>, admit: Bytes -> bool)
    returns (r: Result<ScopeMap, LoadError>, ghost bundles: seq<Loaded>, ghost cand: Persisted, ghost index: seq<nat>)
    requires CollisionFree(env) && Reparses(env) && Paired(store.state)
    requires store.drive.Valid() && FilesInPlay(env, store.drive.state, config)
    modifies store`state, store.drive
    ensures store.drive.Valid() && old(store.drive.trace) <= store.drive.trace
    ensures forall i :: |old(store.drive.trace)| <= i < |store.drive.trace| ==>
              Loading(env, old(store.drive.state), old(store.state), bundles, cand, store.drive.trace[i])
    ensures ReadFrom(env, old(store.drive.state), config, bundles)
    ensures r.Ok? ==>
              && DistinctLabels(config)
              && bundles == r.value.bundles && store.state == cand
              && ReloadCandidate(env, old(store.state), bundles, cand)
              && Committed(env, old(store.drive.state), cand, store.drive.state)
              && StoredLoad(env, old(store.drive.state), bundles, cand, store.drive.state)
              && Resolves(env, old(store.drive.state), config, |config|, bundles, index)
              && Tabled(config, bundles, index, |config|, r.value.entries)
              && SnapshotsRouted(env, config, r.value, index, cand.active)
    ensures r.Err? ==>
              && store.state == old(store.state)
              && Loading(env, old(store.drive.state), old(store.state), bundles, cand, store.drive.state)
              && OnlyImagesAdded(env, old(store.drive.state), store.drive.state)
              && LoadStopped(env, old(store.drive.state), bundles, cand, store.drive.state)
    ensures RefusesWhen(env, old(store.drive.state), old(store.state), config, admit, r)
    ensures r.Ok? ==> AllAdmitted(env, old(store.drive.state), config, admit)
    // it succeeds unless the configuration is not acceptable or a system call fails
    ensures old(store.drive.failures) <= store.drive.failures
    ensures !LoadAccepts(env, old(store.drive.state), old(store.state), config, admit) ==>
              r.Err? && store.drive.state == old(store.drive.state) && store.drive.trace == old(store.drive.trace)
    ensures LoadAccepts(env, old(store.drive.state), old(store.state), config, admit) ==>
              && (r.Ok? ==> BundleList(env, old(store.drive.state), config, |config|) == Some(bundles))
              && (store.drive.failures == old(store.drive.failures) ==> r.Ok? && OnlyNamed(store.drive.state, cand))
  {
    ghost var d, mem := store.drive.state, store.state;
    bundles, cand, index := [], FRESH, [];
    if !DistinctLabels(config) {
      return Err(BadConfig), bundles, cand, index;
    }
    var candidate := store.Transaction();
    candidate.ClearActive();
    var loaded, ix := LoadBundles(env, candidate, config, admit);
    RefusesAnyway(env, d, mem, config, admit, loaded, ix);
    if loaded.Err? {
      return Err(loaded.error), bundles, cand, index;
    }
    var m := loaded.value;
    var order, labels := LabelOrder(m.entries);
    TableIsPrepared(env, d, config, m, ix, order, labels);
    forall b | 0 <= b < |m.bundles|
      ensures Genuine(env, m.bundles[b])
    {
      ResolvedAreGenuine(env, d, config, m.bundles, ix, b);
    }
    ResolvedAreRead(env, d, config, m.bundles, ix);
    bundles, index := m.bundles, ix;
    var w;
    w, cand := StageAndCommit(env, store, candidate, m, order, mem);
    if w.Done? {
      RoutedLabels(env, config, m, ix, order, labels, cand.active);
    }
    r := if w.Done? then Ok(m) else Err(StoreFailed(w));
  }

  /** The table routes to the bundles the configured files held on `d`, and the record names their images. */
  ghost predicate Routed(env: Env, d: DiskState, config: seq<CaEntry>, m: ScopeMap, active: map<Label, Digest>) {
    exists index ::
      && Resolves(env, d, config, |config|, m.bundles, index)
      && Tabled(config, m.bundles, index, |config|, m.entries)
      && SnapshotsRouted(env, config, m, index, active)
  }

  /** How a load ended: it serves authenticated files only, and fails only if refused or a system call failed. */
  ghost predicate Outcome(env: Env, d: DiskState, mem: Persisted, config: seq<CaEntry>, admit: Bytes -> bool,
                          r: Result<ScopeMap, LoadError>, after: Persisted, failed: bool)
  {
    && (r.Ok? ==>
          && AllAdmitted(env, d, config, admit) && LoadAccepts(env, d, mem, config, admit)
          && BundleList(env, d, config, |config|) == Some(r.value.bundles)
          && Routed(env, d, config, r.value, after.active))
    && (LoadAccepts(env, d, mem, config, admit) && !failed ==> r.Ok?)
  }

  /** Some file's bytes parse to this bundle and were admitted. */
  ghost predicate Authenticated(env: Env, admit: Bytes -> bool, b: Loaded) {
    exists bytes :: env.load(bytes) == Some(b) && admit(bytes)
  }

  lemma AdmittedIsAuthenticated(env: Env, d: DiskState, path: Path, admit: Bytes -> bool)
    requires Admitted(env, d, path, admit)
    ensures LoadAt(env, d, path).Some? && Authenticated(env, admit, LoadAt(env, d, path).value)
  {
  }

  /** What a load serves was authenticated, bundle by bundle. */
  lemma LoadedAreAuthenticated(
    env: Env, d: DiskState, config: seq<CaEntry>, admit: Bytes -> bool, m: ScopeMap, active: map<Label, Digest>)
    requires AllAdmitted(env, d, config, admit) && Routed(env, d, config, m, active)
    ensures forall b :: b in m.bundles ==> Authenticated(env, admit, b)
  {
    var index :| Resolves(env, d, config, |config|, m.bundles, index);
    forall b | b in m.bundles
      ensures Authenticated(env, admit, b)
    {
      var n :| 0 <= n < |m.bundles| && m.bundles[n] == b;
      assert n in index;
      var c :| 0 <= c < |index| && index[c] == n;
      AdmittedIsAuthenticated(env, d, config[c].path, admit);
    }
  }

  ghost predicate NotAllRecorded(env: Env, d: DiskState, mem: Persisted, config: seq<CaEntry>) {
    exists c :: 0 <= c < |config| && LoadAt(env, d, config[c].path).Some?
                && !Recorded(mem, LoadAt(env, d, config[c].path).value.info)
  }

  /** Every file the configuration names was authenticated and lies at or below the record's marks. */
  ghost predicate AllBelow(env: Env, d: DiskState, mem: Persisted, config: seq<CaEntry>, admit: Bytes -> bool) {
    forall c :: 0 <= c < |config| ==>
      && Admitted(env, d, config[c].path, admit)
      && Covers(mem, LoadAt(env, d, config[c].path).value.info)
  }

  /**
   A load is refused only if some file is not recorded; when every file can be read
   and none is above the marks, exactly then.
   */
  ghost predicate RefusesWhen<T>(env: Env, d: DiskState, mem: Persisted, config: seq<CaEntry>, admit: Bytes -> bool,
                                 r: Result<T, LoadError>)
  {
    && (r.Err? && r.error.Refused? ==> NotAllRecorded(env, d, mem, config))
    && (DistinctLabels(config) && AllBelow(env, d, mem, config, admit) && NotAllRecorded(env, d, mem, config) ==>
          r.Err? && r.error.Refused?)
  }

  /** A bundle at or below the marks passes the checks only if it is what they record. */
  lemma BelowAndAdmittedIsRecorded(p: Persisted, i: Info)
    requires Covers(p, i) && Admit(p, i).Some?
    ensures Recorded(p, i) && Admit(p, i) == Some(p)
  {
    forall n | 0 <= n < |i.scopes|
      ensures ScopeRecorded(p, i, n)
    {
      assert ScopeVerdict(p, i, n).None?;
    }
    RecordedIsIdempotent(p, i, |i.scopes|);
  }

  lemma {:induction false} AllBelowAreRecorded(p: Persisted, infos: seq<Info>)
    requires AdmitAll(p, infos).Some? && forall b :: 0 <= b < |infos| ==> Covers(p, infos[b])
    ensures AdmitAll(p, infos) == Some(p) && forall b :: 0 <= b < |infos| ==> Recorded(p, infos[b])
  {
    if infos != [] {
      var init := infos[..|infos| - 1];
      AllBelowAreRecorded(p, init);
      BelowAndAdmittedIsRecorded(p, infos[|infos| - 1]);
      assert forall b :: 0 <= b < |init| ==> infos[b] == init[b];
    }
  }

  lemma LoadedAreRecorded(
    env: Env, d: DiskState, base: Persisted, config: seq<CaEntry>, admit: Bytes -> bool, bundles: seq<Loaded>,
    index: seq<nat>)
    requires Resolves(env, d, config, |config|, bundles, index) && AdmitAll(base, Infos(bundles)).Some?
    requires AllBelow(env, d, base, config, admit)
    ensures !NotAllRecorded(env, d, base, config)
  {
    ResolvedAreRead(env, d, config, bundles, index);
    forall b | 0 <= b < |bundles|
      ensures Covers(base, Infos(bundles)[b])
    {
      assert HeldByFile(env, d, config, bundles[b]);
    }
    AllBelowAreRecorded(base, Infos(bundles));
    forall c | 0 <= c < |config|
      ensures Recorded(base, LoadAt(env, d, config[c].path).value.info)
    {
      assert bundles[index[c]].info == Infos(bundles)[index[c]];
    }
  }

  lemma NotRecordedIgnoresActive(env: Env, d: DiskState, p: Persisted, q: Persisted, config: seq<CaEntry>)
    requires p.marks == q.marks && p.digests == q.digests && NotAllRecorded(env, d, p, config)
    ensures NotAllRecorded(env, d, q, config)
  {
    var c :| 0 <= c < |config| && LoadAt(env, d, config[c].path).Some?
             && !Recorded(p, LoadAt(env, d, config[c].path).value.info);
    var i := LoadAt(env, d, config[c].path).value.info;
    if Recorded(q, i) {
      RecordedIgnoresActive(q, p, i);
    }
  }

  /** The verdict of the loading phase, stated of the record in memory. */
  lemma RefusesAnyway(env: Env, d: DiskState, mem: Persisted, config: seq<CaEntry>, admit: Bytes -> bool,
                      r: Result<ScopeMap, LoadError>, index: seq<nat>)
    requires r.Ok? ==>
               && Resolves(env, d, config, |config|, r.value.bundles, index)
               && AdmitAll(mem.(active := map[]), Infos(r.value.bundles)).Some?
    requires r.Err? && r.error.Refused? ==> NotAllRecorded(env, d, mem.(active := map[]), config)
    requires r.Err? && AllAdmitted(env, d, config, admit) ==> r.error.Refused?
    ensures RefusesWhen(env, d, mem, config, admit, r)
  {
    var base := mem.(active := map[]);
    if r.Err? && r.error.Refused? {
      NotRecordedIgnoresActive(env, d, base, mem, config);
    }
    if AllBelow(env, d, mem, config, admit) && NotAllRecorded(env, d, mem, config) && r.Ok? {
      NotRecordedIgnoresActive(env, d, mem, base, config);
      LoadedAreRecorded(env, d, base, config, admit, r.value.bundles, index);
    }
  }
}
