/**
 The running responder: hot reload under the store lock, and startup with
 fallback to the committed generation (crates/hoike-core/src/router.rs:80-159, 326-340).
 */
module Responder {
  import opened Wrappers
  import opened Bytes
  import opened Marks
  import opened Disk
  import opened Commit
  import opened StateStore
  import opened Runs
  import opened Recovery
  import opened Router

  class ResponderState {
    const store: Store
    const config: seq<CaEntry>
    var scopes: ScopeMap
    /** The record of the last commit that returned success. */
    ghost var acked: Persisted

    constructor (store: Store, config: seq<CaEntry>, scopes: ScopeMap, ghost acked: Persisted)
      ensures this.store == store && this.config == config && this.scopes == scopes && this.acked == acked
    {
      this.store, this.config, this.scopes, this.acked := store, config, scopes, acked;
    }

    /** This process and its disk as a state of a run. */
    ghost function View(): System
      reads this, store, store.drive
    {
      System(store.drive.state, Some(Server(store.state, scopes.bundles)), acked)
    }

    /** The working set is swapped only after its commit succeeded; a failed reload changes nothing served. */
    method Reload(env: Env, admit: Bytes -> bool) returns (r: Result<(), LoadError>, ghost step: Step)
      requires CollisionFree(env) && Reparses(env) && Paired(store.state)
      requires store.drive.Valid() && FilesInPlay(env, store.drive.state, config)
      modifies this, store`state, store.drive
      ensures store.drive.Valid() && old(store.drive.trace) <= store.drive.trace
      ensures step.ReloadStep? && step.ok == r.Ok? && Next(env, old(View()), step, View())
      ensures Midway(env, old(View()), step, store.drive.trace[|old(store.drive.trace)|..])
      ensures r.Err? ==> scopes == old(scopes) && store.state == old(store.state) && acked == old(acked)
      ensures r.Ok? ==> StoredLoad(env, old(store.drive.state), scopes.bundles, store.state, store.drive.state)
      ensures r.Ok? ==> Routed(env, old(store.drive.state), config, scopes, store.state.active)
      // only authenticated files are served, and one file that is not leaves everything as it was
      ensures r.Ok? ==>
                && AllAdmitted(env, old(store.drive.state), config, admit)
                && forall b :: b in scopes.bundles ==> Authenticated(env, admit, b)
      ensures !LoadAccepts(env, old(store.drive.state), old(store.state), config, admit) ==>
                r.Err? && store.drive.state == old(store.drive.state)
      ensures (LoadAccepts(env, old(store.drive.state), old(store.state), config, admit)
               && store.drive.failures == old(store.drive.failures)) ==>
                r.Ok? && OnlyNamed(store.drive.state, store.state)
    {
      ghost var s := View();
      var loaded;
      loaded, step := LoadStep(env, store, config, admit, s);
      if loaded.Err? {
        return Err(loaded.error), step;
      }
      scopes, acked := loaded.value, store.state;
      LoadedAreAuthenticated(env, s.disk, config, admit, scopes, store.state.active);
      r := Ok(());
    }
  }

  /** Every state of a load is one an unsuccessful reload may end in. */
  lemma LoadingIsStep(env: Env, s: System, bundles: seq<Loaded>, cand: Persisted, e: DiskState)
    requires s.server.Some? && Loading(env, s.disk, s.server.value.mem, bundles, cand, e)
    ensures Next(env, s, ReloadStep(bundles, cand, false), s.(disk := e))
  {
  }

  /** Between a load's system calls the disk is one an unsuccessful load may leave. */
  ghost predicate Midway(env: Env, s: System, step: Step, states: seq<DiskState>)
    requires step.ReloadStep?
  {
    forall i :: 0 <= i < |states| ==>
      Next(env, s, ReloadStep(step.bundles, step.cand, false), s.(disk := states[i]))
  }

  /** One load as a step of a run, and how it ended. */
  method LoadStep(env: Env, store: Store, config: seq<CaEntry>, admit: Bytes -> bool, ghost s: System)
    returns (r: Result<ScopeMap, LoadError>, ghost step: Step)
    requires CollisionFree(env) && Reparses(env) && Paired(store.state)
    requires store.drive.Valid() && FilesInPlay(env, store.drive.state, config)
    requires s.disk == store.drive.state && s.server.Some? && s.server.value.mem == store.state
    modifies store`state, store.drive
    ensures store.drive.Valid() && old(store.drive.trace) <= store.drive.trace
    ensures step.ReloadStep? && step.ok == r.Ok?
    ensures Midway(env, s, step, store.drive.trace[|old(store.drive.trace)|..])
    ensures r.Ok? ==>
              && Next(env, s, step, System(store.drive.state, Some(Server(store.state, r.value.bundles)), store.state))
              && StoredLoad(env, s.disk, r.value.bundles, store.state, store.drive.state)
    ensures r.Err? ==>
              && Next(env, s, step, s.(disk := store.drive.state)) && store.state == old(store.state)
              && OnlyImagesAdded(env, s.disk, store.drive.state)
    ensures ReadFrom(env, s.disk, config, step.bundles)
    ensures RefusesWhen(env, s.disk, s.server.value.mem, config, admit, r)
    ensures Outcome(env, s.disk, s.server.value.mem, config, admit, r, store.state,
                    store.drive.failures != old(store.drive.failures))
    ensures old(store.drive.failures) <= store.drive.failures
    ensures !LoadAccepts(env, s.disk, s.server.value.mem, config, admit) ==> store.drive.state == s.disk
    ensures r.Ok? && store.drive.failures == old(store.drive.failures) ==> OnlyNamed(store.drive.state, store.state)
  {
    ghost var bundles, cand, index;
    r, bundles, cand, index := LoadScopeMap(env, store, config, admit);
    step := ReloadStep(bundles, cand, r.Ok?);
    forall e | Loading(env, s.disk, s.server.value.mem, bundles, cand, e)
      ensures Next(env, s, ReloadStep(bundles, cand, false), s.(disk := e))
    {
      LoadingIsStep(env, s, bundles, cand, e);
    }
    assert r.Ok? ==> Routed(env, s.disk, config, r.value, store.state.active);
  }

  /** The fallback reads every label's committed snapshot instead of its configured file. */
  method SnapshotConfig(config: seq<CaEntry>, active: map<Label, Digest>) returns (r: Option<seq<CaEntry>>)
    ensures r.Some? <==> HasSnapshots(config, active)
    ensures r.Some? ==> r.value == SnapshotsOf(config, active)
  {
    var out: seq<CaEntry> := [];
    for c := 0 to |config|
      invariant |out| == c && forall a :: 0 <= a < c ==> config[a].name in active
      invariant forall a :: 0 <= a < c ==> out[a] == CaEntry(config[a].name, Snapshot(active[config[a].name]))
    {
      if config[c].name !in active {
        return None;
      }
      out := out + [CaEntry(config[c].name, Snapshot(active[config[c].name]))];
    }
    r := Some(out);
  }

  ghost predicate HasSnapshots(config: seq<CaEntry>, active: map<Label, Digest>) {
    forall c :: 0 <= c < |config| ==> config[c].name in active
  }

  /** Every label with the path of the snapshot committed for it. */
  ghost function SnapshotsOf(config: seq<CaEntry>, active: map<Label, Digest>): (out: seq<CaEntry>)
    requires HasSnapshots(config, active)
    ensures SnapshotPaths(config, active, out)
  {
    seq(|config|, c requires 0 <= c < |config| => CaEntry(config[c].name, Snapshot(active[config[c].name])))
  }

  ghost predicate SnapshotPaths(config: seq<CaEntry>, active: map<Label, Digest>, out: seq<CaEntry>) {
    && |out| == |config|
    && forall c :: 0 <= c < |config| ==>
         config[c].name in active && out[c] == CaEntry(config[c].name, Snapshot(active[config[c].name]))
  }

  /** The committed snapshot of a label, as the fallback reads it. */
  lemma SnapshotIsThere(env: Env, d: DiskState, p: Persisted, l: Label)
    requires Consistent(d) && Sound(env, d, p) && l in p.active
    ensures var f := Get(d, Snapshot(p.active[l]));
            && f.Some? && f.value.body.Raw? && env.sha(f.value.body.bytes) == p.active[l]
            && Canonical(env, f.value.body.bytes) && Covers(p, env.load(f.value.body.bytes).value.info)
    ensures LoadAt(env, d, Snapshot(p.active[l])).Some?
  {
    assert DurableSnapshot(env, d, p, p.active[l]);
    assert Get(d, Snapshot(p.active[l])) in Alts(d, Snapshot(p.active[l]));
  }

  /** Whatever may be found of the record's snapshots is among the images the digest separates. */
  ghost predicate BlobsInPlay(env: Env, d: DiskState, p: Persisted) {
    forall l, v :: l in p.active && v in Alts(d, Snapshot(p.active[l])) ==> BlobInPlay(env, v)
  }

  ghost predicate BlobInPlay(env: Env, v: Option<File>) {
    v.Some? && v.value.body.Raw? && env.load(v.value.body.bytes).Some? ==>
      env.inPlay(env.load(v.value.body.bytes).value.image)
  }

  /** A sound record brings this with it. */
  lemma SoundIsInPlay(env: Env, d: DiskState, p: Persisted)
    requires Sound(env, d, p)
    ensures BlobsInPlay(env, d, p)
  {
    forall l, v | l in p.active && v in Alts(d, Snapshot(p.active[l]))
      ensures BlobInPlay(env, v)
    {
      assert DurableSnapshot(env, d, p, p.active[l]);
    }
  }

  lemma StaysInPlay(env: Env, d: DiskState, e: DiskState, p: Persisted)
    requires BlobsInPlay(env, d, p) && OnlyImagesAdded(env, d, e)
    ensures BlobsInPlay(env, e, p)
  {
    forall l, v | l in p.active && v in Alts(e, Snapshot(p.active[l]))
      ensures BlobInPlay(env, v)
    {
      assert v in Alts(d, Snapshot(p.active[l])) || IsImage(env, p.active[l], v);
    }
  }

  lemma SnapshotsInPlay(env: Env, d: DiskState, p: Persisted, config: seq<CaEntry>, out: seq<CaEntry>)
    requires Consistent(d) && BlobsInPlay(env, d, p) && SnapshotPaths(config, p.active, out)
    ensures FilesInPlay(env, d, out)
  {
    forall c | 0 <= c < |out| && LoadAt(env, d, out[c].path).Some?
      ensures env.inPlay(LoadAt(env, d, out[c].path).value.image)
    {
      assert Get(d, out[c].path) in Alts(d, Snapshot(p.active[config[c].name]));
      assert BlobInPlay(env, Get(d, out[c].path));
    }
  }

  /** Whatever was staged since, a sound record's snapshots still read the same. */
  lemma SnapshotsReadTheSame(env: Env, d: DiskState, e: DiskState, p: Persisted, l: Label)
    requires CollisionFree(env) && Consistent(d) && Consistent(e)
    requires Sound(env, d, p) && Sound(env, e, p) && l in p.active
    ensures LoadAt(env, d, Snapshot(p.active[l])) == LoadAt(env, e, Snapshot(p.active[l]))
    ensures forall admit: Bytes -> bool ::
              Admitted(env, d, Snapshot(p.active[l]), admit) == Admitted(env, e, Snapshot(p.active[l]), admit)
  {
    SnapshotIsThere(env, d, p, l);
    SnapshotIsThere(env, e, p, l);
  }

  /** What the fallback commits names only blobs the record already named, and those are durable. */
  lemma FallbackReusesDurable(env: Env, d: DiskState, p: Persisted, config: seq<CaEntry>, out: seq<CaEntry>,
                              bundles: seq<Loaded>, cand: Persisted)
    requires Consistent(d) && Sound(env, d, p) && SnapshotPaths(config, p.active, out)
    requires ReadFrom(env, d, out, bundles) && ReloadCandidate(env, p, bundles, cand)
    ensures ReusesDurable(env, d, cand)
  {
    forall l, v | l in cand.active && Found(env, d, cand.active[l]) && v in Alts(d, Snapshot(cand.active[l]))
      ensures IsImage(env, cand.active[l], v)
    {
      var b :| 0 <= b < |bundles| && cand.active[l] == env.sha(bundles[b].image);
      assert HeldByFile(env, d, out, bundles[b]);
      var c :| 0 <= c < |out| && LoadAt(env, d, out[c].path) == Some(bundles[b]);
      SnapshotIsThere(env, d, p, config[c].name);
      assert DurableSnapshot(env, d, p, p.active[config[c].name]);
    }
  }

  lemma FallbackIsDurable(env: Env, s: System, step: Step, t: System, config: seq<CaEntry>, out: seq<CaEntry>)
    requires step.ReloadStep? && Next(env, s, step, t) && Consistent(s.disk) && Sound(env, s.disk, s.server.value.mem)
    requires SnapshotPaths(config, s.server.value.mem.active, out) && ReadFrom(env, s.disk, out, step.bundles)
    ensures DurableStep(env, s, step, t) && (step.ok ==> ReusesDurable(env, s.disk, step.cand))
  {
    if step.ok || !Staging(env, s.disk, t.disk) {
      FallbackReusesDurable(env, s.disk, s.server.value.mem, config, out, step.bundles, step.cand);
      FallbackReusesDir(env, s.disk, s.server.value.mem, config, out, step.bundles, step.cand);
    }
  }

  lemma FallbackReusesDir(env: Env, d: DiskState, p: Persisted, config: seq<CaEntry>, out: seq<CaEntry>,
                          bundles: seq<Loaded>, cand: Persisted)
    requires Sound(env, d, p) && SnapshotPaths(config, p.active, out)
    requires ReadFrom(env, d, out, bundles) && ReloadCandidate(env, p, bundles, cand)
    ensures DirReused(d, cand)
  {
    if cand.active != map[] {
      var l :| l in cand.active;
      var b :| 0 <= b < |bundles| && cand.active[l] == env.sha(bundles[b].image);
      assert HeldByFile(env, d, out, bundles[b]);
      var c :| 0 <= c < |out| && LoadAt(env, d, out[c].path) == Some(bundles[b]);
      assert DurableSnapshot(env, d, p, p.active[config[c].name]);
    }
  }

  /** Every configured label has a committed snapshot, and the admission checks accept it. */
  ghost predicate SnapshotsAdmitted(env: Env, d: DiskState, p: Persisted, config: seq<CaEntry>, admit: Bytes -> bool) {
    forall c :: 0 <= c < |config| ==>
      config[c].name in p.active && Admitted(env, d, Snapshot(p.active[config[c].name]), admit)
  }

  ghost predicate SomeStranded(env: Env, d: DiskState, p: Persisted, config: seq<CaEntry>) {
    exists c :: 0 <= c < |config| && Stranded(env, d, p, config[c].name)
  }

  lemma StrandedIsNotRecorded(env: Env, d: DiskState, p: Persisted, config: seq<CaEntry>, out: seq<CaEntry>)
    requires SnapshotPaths(config, p.active, out)
    ensures SomeStranded(env, d, p, config) <==> NotAllRecorded(env, d, p, out)
  {
    if SomeStranded(env, d, p, config) {
      var c :| 0 <= c < |config| && Stranded(env, d, p, config[c].name);
      assert out[c].path == Snapshot(p.active[config[c].name]);
    }
    if NotAllRecorded(env, d, p, out) {
      var c :| 0 <= c < |out| && LoadAt(env, d, out[c].path).Some?
               && !Recorded(p, LoadAt(env, d, out[c].path).value.info);
      assert Stranded(env, d, p, config[c].name);
    }
  }

  lemma StrandedIsNotFaithful(env: Env, d: DiskState, p: Persisted, config: seq<CaEntry>)
    requires Consistent(d) && SomeStranded(env, d, p, config)
    ensures !Faithful(env, d, p)
  {
    var c :| 0 <= c < |config| && Stranded(env, d, p, config[c].name);
    assert Get(d, Snapshot(p.active[config[c].name])) in Alts(d, Snapshot(p.active[config[c].name]));
  }

  /** The fallback's verdict in terms of the labels it loads. */
  lemma FallbackRefuses(env: Env, d: DiskState, p: Persisted, config: seq<CaEntry>, out: seq<CaEntry>,
                        admit: Bytes -> bool, r: Result<ScopeMap, LoadError>)
    requires Consistent(d) && SnapshotPaths(config, p.active, out)
    requires RefusesWhen(env, d, p, out, admit, r)
    ensures r.Err? && r.error.Refused? ==> SomeStranded(env, d, p, config)
    ensures Sound(env, d, p) ==> Verdict(env, d, p, config, admit, true, r)
  {
    StrandedIsNotRecorded(env, d, p, config, out);
    if Sound(env, d, p) && DistinctLabels(config) && SnapshotsAdmitted(env, d, p, config, admit) {
      forall c | 0 <= c < |out|
        ensures Admitted(env, d, out[c].path, admit) && Covers(p, LoadAt(env, d, out[c].path).value.info)
      {
        SnapshotIsThere(env, d, p, config[c].name);
      }
    }
  }

  /** What startup did: open, perhaps a failed load, perhaps a second one from the snapshots. */
  ghost predicate Startup(env: Env, d: DiskState, acked: Persisted, run: seq<System>, steps: seq<Step>) {
    && |run| == |steps| + 1 && run[0] == System(d, None, acked)
    && forall i :: 0 <= i < |steps| ==> Follows(env, run, steps, i)
  }

  ghost predicate Follows(env: Env, run: seq<System>, steps: seq<Step>, i: nat)
    requires i < |steps| && |run| == |steps| + 1
  {
    Next(env, run[i], steps[i], run[i + 1])
  }

  lemma StartupOneMore(
    env: Env, d: DiskState, acked: Persisted, run: seq<System>, steps: seq<Step>, step: Step, t: System)
    requires Startup(env, d, acked, run, steps) && Next(env, run[|steps|], step, t)
    ensures Startup(env, d, acked, run + [t], steps + [step])
  {
    forall i | 0 <= i < |steps| + 1
      ensures Follows(env, run + [t], steps + [step], i)
    {
      if i < |steps| {
        assert Follows(env, run, steps, i);
      }
    }
  }

  /**
   Startup continues any run that ended without a server, so what is proved of runs
   holds of it, and of durable runs if its own steps are.
   */
  lemma StartupExtendsRun(
    env: Env, run: seq<System>, steps: seq<Step>, acked: Persisted, more: seq<System>, next: seq<Step>)
    requires IsRun(env, run, steps) && run[|steps|] == System(run[|steps|].disk, None, acked)
    requires Startup(env, run[|steps|].disk, acked, more, next)
    ensures IsRun(env, run + more[1..], steps + next)
    ensures IsDurableRun(env, run, steps) && (forall i :: 0 <= i < |next| ==> DurableAt(env, more, next, i)) ==>
              IsDurableRun(env, run + more[1..], steps + next)
  {
    var states, all := run + more[1..], steps + next;
    forall i | 0 <= i < |all|
      ensures StepAt(env, states, all, i)
    {
      if i < |steps| {
        assert StepAt(env, run, steps, i);
      } else {
        assert Follows(env, more, next, i - |steps|);
        assert states[i] == more[i - |steps|] && states[i + 1] == more[i - |steps| + 1];
      }
    }
    if IsDurableRun(env, run, steps) && (forall i :: 0 <= i < |next| ==> DurableAt(env, more, next, i)) {
      forall i | 0 <= i < |all|
        ensures DurableAt(env, states, all, i)
      {
        if i < |steps| {
          assert DurableAt(env, run, steps, i);
        } else {
          assert DurableAt(env, more, next, i - |steps|);
          assert states[i] == more[i - |steps|] && states[i + 1] == more[i - |steps| + 1];
        }
      }
    }
  }

  /** Open as the first step of startup. */
  method OpenStore(env: Env, drive: Drive, ghost acked: Persisted)
    returns (r: Option<Store>, ghost run: seq<System>, ghost steps: seq<Step>)
    requires drive.Valid()
    ensures Startup(env, drive.state, acked, run, steps)
    ensures r.Some? <==> Opened(env, drive.state).Some?
    ensures steps == if r.Some? then [OpenStep] else []
    ensures r.None? ==> run[|steps|] == System(drive.state, None, acked)
    ensures r.Some? ==>
              && fresh(r.value) && r.value.drive == drive && Opened(env, drive.state) == Some(r.value.state)
              && Paired(r.value.state)
              && run[|steps|] == System(drive.state, Some(Server(r.value.state, [])), acked)
  {
    ghost var s := System(drive.state, None, acked);
    run, steps := [s], [];
    r := Store.Open(env, drive);
    if r.Some? {
      ghost var t := System(drive.state, Some(Server(r.value.state, [])), acked);
      StartupOneMore(env, drive.state, acked, run, steps, OpenStep, t);
      run, steps := run + [t], steps + [OpenStep];
    }
  }

  /** A load by a process that serves nothing yet, appended to the run so far. */
  method Attempt(env: Env, store: Store, config: seq<CaEntry>, admit: Bytes -> bool,
                 ghost d: DiskState, ghost acked: Persisted, ghost run0: seq<System>, ghost steps0: seq<Step>)
    returns (r: Result<ScopeMap, LoadError>, ghost run: seq<System>, ghost steps: seq<Step>)
    requires CollisionFree(env) && Reparses(env) && Paired(store.state)
    requires store.drive.Valid() && FilesInPlay(env, store.drive.state, config)
    requires Startup(env, d, acked, run0, steps0)
    requires run0[|steps0|] == System(store.drive.state, Some(Server(store.state, [])), acked)
    modifies store`state, store.drive
    ensures store.drive.Valid() && Startup(env, d, acked, run, steps)
    ensures r.Ok? ==> run[|steps|] == System(store.drive.state, Some(Server(store.state, r.value.bundles)), store.state)
    ensures r.Err? ==>
              && run[|steps|] == System(store.drive.state, Some(Server(store.state, [])), acked)
              && store.state == old(store.state) && OnlyImagesAdded(env, old(store.drive.state), store.drive.state)
    ensures RefusesWhen(env, old(store.drive.state), old(store.state), config, admit, r)
    ensures |steps| == |steps0| + 1 && steps0 <= steps && run0 <= run && steps[|steps0|].ReloadStep?
    ensures steps[|steps0|].ok == r.Ok?
    ensures ReadFrom(env, old(store.drive.state), config, steps[|steps0|].bundles)
    ensures Outcome(env, old(store.drive.state), old(store.state), config, admit, r, store.state,
                    store.drive.failures != old(store.drive.failures))
    ensures old(store.drive.failures) <= store.drive.failures
    ensures !LoadAccepts(env, old(store.drive.state), old(store.state), config, admit) ==>
              store.drive.state == old(store.drive.state)
  {
    ghost var step;
    r, step := LoadStep(env, store, config, admit, run0[|steps0|]);
    ghost var t := if r.Ok? then System(store.drive.state, Some(Server(store.state, r.value.bundles)), store.state)
                   else System(store.drive.state, Some(Server(store.state, [])), acked);
    StartupOneMore(env, d, acked, run0, steps0, step, t);
    run, steps := run0 + [t], steps0 + [step];
  }

  /** The second attempt, from the snapshots of the record in memory. */
  method Fallback(env: Env, store: Store, config: seq<CaEntry>, admit: Bytes -> bool,
                  ghost d: DiskState, ghost acked: Persisted, ghost run0: seq<System>, ghost steps0: seq<Step>)
    returns (r: Result<ScopeMap, LoadError>, ghost run: seq<System>, ghost steps: seq<Step>)
    requires CollisionFree(env) && Reparses(env) && Paired(store.state)
    requires store.drive.Valid() && BlobsInPlay(env, store.drive.state, store.state)
    requires Startup(env, d, acked, run0, steps0)
    requires run0[|steps0|] == System(store.drive.state, Some(Server(store.state, [])), acked)
    modifies store`state, store.drive
    ensures store.drive.Valid() && Startup(env, d, acked, run, steps)
    ensures run[|steps|].disk == store.drive.state
    ensures r.Ok? ==> run[|steps|] == System(store.drive.state, Some(Server(store.state, r.value.bundles)), store.state)
    ensures !HasSnapshots(config, old(store.state.active)) ==> r == Err(BadConfig) && steps == steps0
    ensures HasSnapshots(config, old(store.state.active)) ==>
              && |steps| == |steps0| + 1
              && Outcome(env, old(store.drive.state), old(store.state), SnapshotsOf(config, old(store.state.active)),
                         admit, r, store.state, store.drive.failures != old(store.drive.failures))
    ensures old(store.drive.failures) <= store.drive.failures
    ensures steps0 <= steps && run0 <= run && |steps| <= |steps0| + 1
    ensures |steps| == |steps0| + 1 ==> steps[|steps0|].ReloadStep? && steps[|steps0|].ok == r.Ok?
    ensures r.Err? && r.error.Refused? ==> SomeStranded(env, old(store.drive.state), old(store.state), config)
    ensures Sound(env, old(store.drive.state), old(store.state)) ==>
              && Verdict(env, old(store.drive.state), old(store.state), config, admit, true, r)
              && (|steps| == |steps0| + 1 ==>
                    && DurableStep(env, run[|steps0|], steps[|steps0|], run[|steps|])
                    && (r.Ok? ==> ReusesDurable(env, run[|steps0|].disk, steps[|steps0|].cand)))
  {
    var paths := SnapshotConfig(config, store.state.active);
    if paths.None? {
      r, run, steps := Err(BadConfig), run0, steps0;
    } else {
      r, run, steps := FromSnapshots(env, store, config, paths.value, admit, d, acked, run0, steps0);
    }
  }

  method FromSnapshots(env: Env, store: Store, config: seq<CaEntry>, out: seq<CaEntry>, admit: Bytes -> bool,
                       ghost d: DiskState, ghost acked: Persisted, ghost run0: seq<System>, ghost steps0: seq<Step>)
    returns (r: Result<ScopeMap, LoadError>, ghost run: seq<System>, ghost steps: seq<Step>)
    requires CollisionFree(env) && Reparses(env) && Paired(store.state)
    requires store.drive.Valid() && BlobsInPlay(env, store.drive.state, store.state)
    requires HasSnapshots(config, store.state.active) && out == SnapshotsOf(config, store.state.active)
    requires Startup(env, d, acked, run0, steps0)
    requires run0[|steps0|] == System(store.drive.state, Some(Server(store.state, [])), acked)
    modifies store`state, store.drive
    ensures store.drive.Valid() && Startup(env, d, acked, run, steps)
    ensures run[|steps|].disk == store.drive.state
    ensures r.Ok? ==> run[|steps|] == System(store.drive.state, Some(Server(store.state, r.value.bundles)), store.state)
    ensures steps0 <= steps && run0 <= run && |steps| == |steps0| + 1
    ensures steps[|steps0|].ReloadStep? && steps[|steps0|].ok == r.Ok?
    ensures Outcome(env, old(store.drive.state), old(store.state), out, admit, r, store.state,
                    store.drive.failures != old(store.drive.failures))
    ensures old(store.drive.failures) <= store.drive.failures
    ensures r.Err? && r.error.Refused? ==> SomeStranded(env, old(store.drive.state), old(store.state), config)
    ensures Sound(env, old(store.drive.state), old(store.state)) ==>
              && Verdict(env, old(store.drive.state), old(store.state), config, admit, true, r)
              && DurableStep(env, run[|steps0|], steps[|steps0|], run[|steps|])
              && (r.Ok? ==> ReusesDurable(env, run[|steps0|].disk, steps[|steps0|].cand))
  {
    ghost var e, p := store.drive.state, store.state;
    SnapshotsInPlay(env, e, p, config, out);
    r, run, steps := Attempt(env, store, out, admit, d, acked, run0, steps0);
    FallbackRefuses(env, e, p, config, out, admit, r);
    assert Follows(env, run, steps, |steps0|);
    if Sound(env, e, p) {
      FallbackIsDurable(env, run[|steps0|], steps[|steps0|], run[|steps|], config, out);
    }
  }

  lemma StrandedEitherWay(
    env: Env, d: DiskState, e: DiskState, p: Persisted, config: seq<CaEntry>, admit: Bytes -> bool)
    requires CollisionFree(env) && Consistent(d) && Consistent(e) && Sound(env, d, p) && Sound(env, e, p)
    ensures SomeStranded(env, d, p, config) <==> SomeStranded(env, e, p, config)
    ensures SnapshotsAdmitted(env, d, p, config, admit) <==> SnapshotsAdmitted(env, e, p, config, admit)
  {
    forall c | 0 <= c < |config| && config[c].name in p.active
      ensures Stranded(env, d, p, config[c].name) == Stranded(env, e, p, config[c].name)
      ensures Admitted(env, d, Snapshot(p.active[config[c].name]), admit)
           == Admitted(env, e, Snapshot(p.active[config[c].name]), admit)
    {
      SnapshotsReadTheSame(env, d, e, p, config[c].name);
    }
  }

  /** A durable commit leaves an openable disk whatever was there before. */
  lemma CommitOpens(env: Env, s: System, step: Step, t: System)
    requires Next(env, s, step, t) && step.ReloadStep? && step.ok && ReusesDurable(env, s.disk, step.cand)
    ensures DiskInv(env, t.disk)
  {
  }

  /** Startup leaves an openable disk if its first load reused only durable blobs, or if the fallback succeeded. */
  lemma StartupKeepsDisk(env: Env, d: DiskState, acked: Persisted, run: seq<System>, steps: seq<Step>)
    requires CollisionFree(env) && Startup(env, d, acked, run, steps)
    requires |steps| <= 3 && (|steps| > 0 ==> steps[0] == OpenStep)
    requires |steps| == 3 ==>
               && steps[2].ReloadStep? && DurableStep(env, run[2], steps[2], run[3])
               && (steps[2].ok ==> ReusesDurable(env, run[2].disk, steps[2].cand))
    requires || (|steps| == 3 && steps[2].ok)
             || (DiskInv(env, d) && (|steps| >= 2 ==> DurableStep(env, run[1], steps[1], run[2])))
    ensures DiskInv(env, run[|steps|].disk)
  {
    if |steps| == 3 && steps[2].ok {
      assert Follows(env, run, steps, 2);
      CommitOpens(env, run[2], steps[2], run[3]);
    } else {
      DurableStepsKeepDisk(env, run, steps, |steps|);
    }
  }

  lemma {:induction false} DurableStepsKeepDisk(env: Env, run: seq<System>, steps: seq<Step>, n: nat)
    requires CollisionFree(env) && n <= |steps| && |run| == |steps| + 1 && DiskInv(env, run[0].disk)
    requires forall i :: 0 <= i < n ==> Follows(env, run, steps, i) && DurableAt(env, run, steps, i)
    ensures DiskInv(env, run[n].disk)
  {
    if n > 0 {
      DurableStepsKeepDisk(env, run, steps, n - 1);
      assert Follows(env, run, steps, n - 1) && DurableAt(env, run, steps, n - 1);
      NextKeepsDisk(env, run[n - 1], steps[n - 1], run[n]);
    }
  }

  /**
   Open the store and load the configured files; if that fails and a generation was
   committed, load its snapshots instead. From any disk this is a run. If the opened
   record is sound the fallback reuses only durable blobs, and when its snapshots are
   readable it is refused exactly when one of them is stranded below the marks.
   */
  method Load(env: Env, drive: Drive, config: seq<CaEntry>, admit: Bytes -> bool, ghost acked: Persisted)
    returns (r: Result<ResponderState, LoadError>, ghost run: seq<System>, ghost steps: seq<Step>)
    requires CollisionFree(env) && Reparses(env)
    requires drive.Valid() && FilesInPlay(env, drive.state, config)
    requires Opened(env, drive.state).Some? ==> BlobsInPlay(env, drive.state, Opened(env, drive.state).value)
    modifies drive
    ensures drive.Valid()
    ensures Startup(env, old(drive.state), acked, run, steps) && run[|steps|].disk == drive.state && |steps| <= 3
    ensures r.Ok? ==> r.value.store.drive == drive && run[|steps|] == r.value.View() && r.value.config == config
    // what is served was authenticated, on the first attempt and on the second
    ensures r.Ok? ==> Opened(env, old(drive.state)).Some? && |steps| >= 2
    ensures r.Ok? ==> forall b :: b in r.value.scopes.bundles ==> Authenticated(env, admit, b)
    ensures r.Ok? && |steps| == 2 ==>
              && AllAdmitted(env, old(drive.state), config, admit)
              && Routed(env, old(drive.state), config, r.value.scopes, r.value.store.state.active)
    ensures r.Ok? && |steps| == 3 ==>
              && SnapshotsAdmitted(env, run[2].disk, Opened(env, old(drive.state)).value, config, admit)
              && Routed(env, run[2].disk, SnapshotsOf(config, Opened(env, old(drive.state)).value.active),
                        r.value.scopes, r.value.store.state.active)
    // it starts exactly when the files load or the snapshots do, unless a system call fails
    ensures drive.failures == old(drive.failures) ==>
              (r.Ok? <==> && Opened(env, old(drive.state)).Some?
                          && Starts(env, old(drive.state), Opened(env, old(drive.state)).value, config, admit))
    ensures OpensSound(env, old(drive.state)) ==>
              && Verdict(env, old(drive.state), Opened(env, old(drive.state)).value, config, admit, |steps| == 3, r)
              && (|steps| == 3 ==> DurableStep(env, run[2], steps[2], run[3]))
              && (|steps| == 3 && r.Ok? ==> DiskInv(env, drive.state))
    ensures DiskInv(env, old(drive.state)) && (|steps| >= 2 ==> DurableStep(env, run[1], steps[1], run[2])) ==>
              DiskInv(env, drive.state)
  {
    ghost var d := drive.state;
    var found;
    found, run, steps := OpenStore(env, drive, acked);
    if found.None? {
      return Err(Unreadable), run, steps;
    }
    var store := found.value;
    var loaded;
    loaded, run, steps := LoadOrFallBack(env, store, config, admit, acked, run, steps);
    StartupLeaves(env, d, acked, run, steps, loaded.Ok?);
    AttemptsExactly(env, d, Opened(env, d).value, config, admit, |steps| == 3, run[2].disk, loaded, store.state,
                    drive.failures != old(drive.failures));
    if loaded.Ok? {
      var s := new ResponderState(store, config, loaded.value, store.state);
      r := Ok(s);
    } else {
      r := Err(loaded.error);
    }
  }

  /** The disk opens, to a record whose snapshots are durable. */
  ghost predicate OpensSound(env: Env, d: DiskState) {
    Opened(env, d).Some? && Sound(env, d, Opened(env, d).value)
  }

  lemma StartupLeaves(env: Env, d: DiskState, acked: Persisted, run: seq<System>, steps: seq<Step>, ok: bool)
    requires CollisionFree(env) && Startup(env, d, acked, run, steps) && Opened(env, d).Some?
    requires 2 <= |steps| <= 3 && steps[0] == OpenStep
    requires |steps| == 3 ==> steps[2].ReloadStep? && steps[2].ok == ok
    requires |steps| == 3 && OpensSound(env, d) ==>
               && DurableStep(env, run[2], steps[2], run[3])
               && (ok ==> ReusesDurable(env, run[2].disk, steps[2].cand))
    ensures OpensSound(env, d) && |steps| == 3 && ok ==> DiskInv(env, run[|steps|].disk)
    ensures DiskInv(env, d) && DurableStep(env, run[1], steps[1], run[2]) ==> DiskInv(env, run[|steps|].disk)
  {
    if DiskInv(env, d) {
      OpenedMayHold(env, d);
    }
    if OpensSound(env, d) && ((|steps| == 3 && ok) || (DiskInv(env, d) && DurableStep(env, run[1], steps[1], run[2]))) {
      StartupKeepsDisk(env, d, acked, run, steps);
    }
  }

  /** The second attempt is made exactly when the first failed and every label has a committed snapshot. */
  ghost predicate Attempts(env: Env, d: DiskState, p: Persisted, config: seq<CaEntry>, admit: Bytes -> bool,
                           fellBack: bool, e: DiskState, r: Result<ScopeMap, LoadError>, after: Persisted, failed: bool)
  {
    if fellBack then
      && p.active != map[] && HasSnapshots(config, p.active)
      && (LoadAccepts(env, d, p, config, admit) ==> failed)
      && (!LoadAccepts(env, d, p, config, admit) ==> e == d)
      && Outcome(env, e, p, SnapshotsOf(config, p.active), admit, r, after, failed)
    else
      && Outcome(env, d, p, config, admit, r, after, failed)
      && (r.Err? ==> p.active == map[] || !HasSnapshots(config, p.active))
  }

  /** The configured files load, or a committed generation covers every label and its snapshots do. */
  ghost predicate Starts(env: Env, d: DiskState, p: Persisted, config: seq<CaEntry>, admit: Bytes -> bool) {
    || LoadAccepts(env, d, p, config, admit)
    || (&& p.active != map[] && HasSnapshots(config, p.active)
        && LoadAccepts(env, d, p, SnapshotsOf(config, p.active), admit))
  }

  /** Startup serves authenticated bundles only, and without failed system calls exactly when one source loads. */
  lemma AttemptsExactly(env: Env, d: DiskState, p: Persisted, config: seq<CaEntry>, admit: Bytes -> bool,
                        fellBack: bool, e: DiskState, r: Result<ScopeMap, LoadError>, after: Persisted, failed: bool)
    requires Attempts(env, d, p, config, admit, fellBack, e, r, after, failed)
    ensures !failed ==> (r.Ok? <==> Starts(env, d, p, config, admit))
    ensures r.Ok? ==> forall b :: b in r.value.bundles ==> Authenticated(env, admit, b)
    ensures r.Ok? && fellBack ==> SnapshotsAdmitted(env, e, p, config, admit)
  {
    if r.Ok? {
      var disk, paths := if fellBack then e else d, if fellBack then SnapshotsOf(config, p.active) else config;
      LoadedAreAuthenticated(env, disk, paths, admit, r.value, after.active);
      if fellBack {
        forall c | 0 <= c < |config|
          ensures Admitted(env, e, Snapshot(p.active[config[c].name]), admit)
        {
          assert paths[c].path == Snapshot(p.active[config[c].name]);
        }
      }
    }
  }

  /** The two attempts of startup, by a process that has just opened its record. */
  method LoadOrFallBack(env: Env, store: Store, config: seq<CaEntry>, admit: Bytes -> bool,
                        ghost acked: Persisted, ghost run0: seq<System>, ghost steps0: seq<Step>)
    returns (r: Result<ScopeMap, LoadError>, ghost run: seq<System>, ghost steps: seq<Step>)
    requires CollisionFree(env) && Reparses(env) && Paired(store.state)
    requires store.drive.Valid() && BlobsInPlay(env, store.drive.state, store.state)
    requires FilesInPlay(env, store.drive.state, config)
    requires Startup(env, store.drive.state, acked, run0, steps0) && |steps0| == 1
    requires run0[1] == System(store.drive.state, Some(Server(store.state, [])), acked)
    modifies store`state, store.drive
    ensures store.drive.Valid() && Startup(env, old(store.drive.state), acked, run, steps)
    ensures steps0 <= steps && 2 <= |steps| <= 3 && run[|steps|].disk == store.drive.state
    ensures r.Ok? ==> run[|steps|] == System(store.drive.state, Some(Server(store.state, r.value.bundles)), store.state)
    ensures |steps| == 3 ==> steps[2].ReloadStep? && steps[2].ok == r.Ok?
    ensures old(store.drive.failures) <= store.drive.failures
    ensures Attempts(env, old(store.drive.state), old(store.state), config, admit, |steps| == 3, run[2].disk,
                     r, store.state, store.drive.failures != old(store.drive.failures))
    ensures Sound(env, old(store.drive.state), old(store.state)) ==>
              && Verdict(env, old(store.drive.state), old(store.state), config, admit, |steps| == 3, r)
              && (|steps| == 3 ==>
                    && DurableStep(env, run[2], steps[2], run[3])
                    && (r.Ok? ==> ReusesDurable(env, run[2].disk, steps[2].cand)))
  {
    ghost var d, p := store.drive.state, store.state;
    r, run, steps := Attempt(env, store, config, admit, d, acked, run0, steps0);
    if r.Err? && store.state.active != map[] {
      StaysInPlay(env, d, store.drive.state, p);
      if Sound(env, d, p) {
        SoundStays(env, d, store.drive.state, p);
        StrandedEitherWay(env, d, store.drive.state, p, config, admit);
      }
      r, run, steps := Fallback(env, store, config, admit, d, acked, run, steps);
    }
  }

  /** With a committed generation, refusal means a stranded label; in the fallback it is that and nothing else. */
  ghost predicate Verdict<T>(env: Env, d: DiskState, p: Persisted, config: seq<CaEntry>, admit: Bytes -> bool,
                             fellBack: bool, r: Result<T, LoadError>)
  {
    && (r.Err? && r.error.Refused? && p.active != map[] ==> SomeStranded(env, d, p, config))
    && (fellBack && DistinctLabels(config) && SnapshotsAdmitted(env, d, p, config, admit) ==>
          (SomeStranded(env, d, p, config) <==> r.Err? && r.error.Refused?))
  }
}
