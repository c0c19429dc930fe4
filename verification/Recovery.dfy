/**
 Committed snapshots stay loadable: what a run must respect so that a restart can
 always fall back to them, and that fallback's acceptance
 (crates/hoike-core/src/router.rs:98-150).
 */
module Recovery {
  import opened Wrappers
  import opened Marks
  import opened Disk
  import opened Commit
  import opened Install
  import opened Runs

  /** The bundle a file holds, as a reader of the path finds it. */
  function LoadAt(env: Env, d: DiskState, p: Path): Option<Loaded> {
    match Get(d, p)
    case Some(File(Raw(bytes), _)) => env.load(bytes)
    case _ => None
  }

  /** Each snapshot the record names is recorded exactly, whichever of its values survives. */
  ghost predicate Faithful(env: Env, d: DiskState, p: Persisted) {
    forall l, v :: l in p.active && v in Alts(d, Snapshot(p.active[l])) && v.Some? && v.value.body.Raw?
                   && env.load(v.value.body.bytes).Some?
      ==> Recorded(p, env.load(v.value.body.bytes).value.info)
  }

  ghost predicate AllFaithful(env: Env, s: System) {
    forall p :: MayHold(s.disk, p) ==> Faithful(env, s.disk, p)
  }

  /** The new bundle and another label's agree on the epoch of every key they share. */
  ghost predicate SameEpochs(i: Info, j: Info) {
    forall m, n :: 0 <= m < |i.scopes| && 0 <= n < |j.scopes| && KeyAt(i, m) == KeyAt(j, n)
      ==> i.scopes[m].epoch == j.scopes[n].epoch
  }

  /** A step whose working set has one epoch and manifest per key. */
  ghost predicate Coherent(env: Env, s: System, step: Step) {
    && (step.ReloadStep? ==> AgreeOnKeys(Infos(step.bundles)))
    && (step.InstallStep? ==>
          && SameEpochs(step.b.info, step.b.info)
          && forall l :: Opened(env, s.disk).Some? && l in Opened(env, s.disk).value.active && l != step.name
                         && LoadAt(env, s.disk, Snapshot(Opened(env, s.disk).value.active[l])).Some?
               ==> SameEpochs(step.b.info,
                              LoadAt(env, s.disk, Snapshot(Opened(env, s.disk).value.active[l])).value.info))
  }

  /**
   Installing one label keeps another label's recorded snapshot recorded if and
   only if the two bundles agree on the epochs of the keys they share.
   */
  lemma InstallKeepsOthersRecorded(p: Persisted, i: Info, j: Info)
    requires Admit(p, i).Some? && Recorded(p, j)
    ensures Recorded(Admit(p, i).value, j) <==> SameEpochs(i, j)
  {
    var q := Admit(p, i).value;
    AdmitSpec(p, i);
    if SameEpochs(i, j) {
      forall n | 0 <= n < |j.scopes|
        ensures ScopeRecorded(q, j, n)
      {
        assert ScopeRecorded(p, j, n);
        assert FromScope(p, i, q, KeyAt(j, n));
      }
    } else {
      var m, n :| 0 <= m < |i.scopes| && 0 <= n < |j.scopes| && KeyAt(i, m) == KeyAt(j, n)
                  && i.scopes[m].epoch != j.scopes[n].epoch;
      assert ScopeRecorded(p, j, n) && ScopeVerdict(p, i, m).None?;
      assert !ScopeRecorded(q, j, n);
    }
  }

  /** A bundle whose own scopes agree is recorded by admitting it. */
  lemma AdmittedIsRecorded(p: Persisted, i: Info)
    requires Admit(p, i).Some? && SameEpochs(i, i)
    ensures Recorded(Admit(p, i).value, i)
  {
    forall n | 0 <= n < |i.scopes|
      ensures ScopeRecorded(Admit(p, i).value, i, n)
    {
      LastBundleRecorded(p, i, n);
    }
  }

  lemma RecordedIgnoresActive(p: Persisted, q: Persisted, i: Info)
    requires p.marks == q.marks && p.digests == q.digests && Recorded(p, i)
    ensures Recorded(q, i)
  {
    forall n | 0 <= n < |i.scopes|
      ensures ScopeRecorded(q, i, n)
    {
      assert ScopeRecorded(p, i, n);
    }
  }

  // ---- every step keeps the snapshots faithful -----------------------------------

  /** What durably lies under a genuine image's digest is that image. */
  lemma DurableIsGenuine(env: Env, d: DiskState, p: Persisted, b: Loaded, v: Option<File>)
    requires CollisionFree(env) && Genuine(env, b) && DurableSnapshot(env, d, p, env.sha(b.image))
    requires v in Alts(d, Snapshot(env.sha(b.image)))
    ensures v.Some? && v.value.body == Raw(b.image) && env.load(v.value.body.bytes) == Some(b)
  {
    assert SnapshotFits(env, p, env.sha(b.image), v);
  }

  lemma FaithfulStays(env: Env, d: DiskState, e: DiskState, p: Persisted)
    requires CollisionFree(env) && Consistent(d) && Sound(env, d, p) && Faithful(env, d, p)
    requires OnlyImagesAdded(env, d, e)
    ensures Faithful(env, e, p)
  {
    forall l, v | l in p.active && v in Alts(e, Snapshot(p.active[l])) && v.Some? && v.value.body.Raw?
                  && env.load(v.value.body.bytes).Some?
      ensures Recorded(p, env.load(v.value.body.bytes).value.info)
    {
      var x := p.active[l];
      assert DurableSnapshot(env, d, p, x) && Get(d, Snapshot(x)) in Alts(d, Snapshot(x));
      assert SnapshotFits(env, p, x, Get(d, Snapshot(x)));
    }
  }

  lemma ReloadIsFaithful(env: Env, mem: Persisted, bundles: seq<Loaded>, cand: Persisted, e: DiskState)
    requires CollisionFree(env) && ReloadCandidate(env, mem, bundles, cand) && AgreeOnKeys(Infos(bundles))
    requires Sound(env, e, cand)
    ensures Faithful(env, e, cand)
  {
    var base := mem.(active := map[]);
    WorkingSetRecorded(base, Infos(bundles));
    forall l, v | l in cand.active && v in Alts(e, Snapshot(cand.active[l])) && v.Some? && v.value.body.Raw?
                  && env.load(v.value.body.bytes).Some?
      ensures Recorded(cand, env.load(v.value.body.bytes).value.info)
    {
      var b :| 0 <= b < |bundles| && cand.active[l] == env.sha(bundles[b].image);
      DurableIsGenuine(env, e, cand, bundles[b], v);
      assert Recorded(AdmitAll(base, Infos(bundles)).value, Infos(bundles)[b]);
      RecordedIgnoresActive(AdmitAll(base, Infos(bundles)).value, cand, bundles[b].info);
    }
  }

  /** The other labels' snapshots, as the installing process found them, stay recorded. */
  lemma OtherLabelRecorded(env: Env, s: System, step: Step, e: DiskState, l: Label, v: Option<File>)
    requires CollisionFree(env) && DiskInv(env, s.disk) && AllFaithful(env, s) && step.InstallStep?
    requires Coherent(env, s, step)
    requires Opened(env, s.disk).Some? && Admit(Opened(env, s.disk).value, step.b.info).Some?
    requires l in Opened(env, s.disk).value.active && l != step.name
    requires DurableSnapshot(env, e, step.cand, Opened(env, s.disk).value.active[l])
    requires v in Alts(e, Snapshot(Opened(env, s.disk).value.active[l]))
    ensures v.Some? && v.value.body.Raw? && env.load(v.value.body.bytes).Some?
    ensures Recorded(Admit(Opened(env, s.disk).value, step.b.info).value, env.load(v.value.body.bytes).value.info)
  {
    var p := Opened(env, s.disk).value;
    OpenedMayHold(env, s.disk);
    var x := p.active[l];
    var w := Get(s.disk, Snapshot(x));
    assert w in Alts(s.disk, Snapshot(x));
    assert DurableSnapshot(env, s.disk, p, x);
    assert v.value.body == w.value.body;
    assert LoadAt(env, s.disk, Snapshot(x)) == env.load(w.value.body.bytes);
    InstallKeepsOthersRecorded(p, step.b.info, env.load(w.value.body.bytes).value.info);
  }

  lemma InstallIsFaithful(env: Env, s: System, step: Step, e: DiskState)
    requires CollisionFree(env) && DiskInv(env, s.disk) && AllFaithful(env, s) && step.InstallStep?
    requires Coherent(env, s, step)
    requires Genuine(env, step.b) && Opened(env, s.disk).Some? && Admit(Opened(env, s.disk).value, step.b.info).Some?
    requires step.cand == InstallCandidate(env, Opened(env, s.disk).value, step.name, step.b)
    requires Sound(env, e, step.cand)
    ensures Faithful(env, e, step.cand)
  {
    var p, b, cand := Opened(env, s.disk).value, step.b, step.cand;
    forall l, v | l in cand.active && v in Alts(e, Snapshot(cand.active[l])) && v.Some? && v.value.body.Raw?
                  && env.load(v.value.body.bytes).Some?
      ensures Recorded(cand, env.load(v.value.body.bytes).value.info)
    {
      if l == step.name {
        DurableIsGenuine(env, e, cand, b, v);
        AdmittedIsRecorded(p, b.info);
      } else {
        OtherLabelRecorded(env, s, step, e, l, v);
      }
      RecordedIgnoresActive(Admit(p, b.info).value, cand, env.load(v.value.body.bytes).value.info);
    }
  }

  /** A transaction leaves old records faithful and, if it writes it, the new one too. */
  lemma TransactionKeepsFaithful(env: Env, s: System, cand: Persisted, e: DiskState)
    requires CollisionFree(env) && DiskInv(env, s.disk) && AllFaithful(env, s) && InFlight(env, s.disk, cand, e)
    requires Staging(env, s.disk, e) || (Sound(env, e, cand) && Faithful(env, e, cand))
    ensures forall p :: MayHold(e, p) ==> Faithful(env, e, p)
  {
    forall p | MayHold(e, p)
      ensures Faithful(env, e, p)
    {
      if Staging(env, s.disk, e) || (Renaming(env, s.disk, cand, e) && p != cand) {
        assert MayHold(s.disk, p);
        FaithfulStays(env, s.disk, e, p);
      }
    }
  }

  lemma ReloadKeepsFaithful(env: Env, s: System, step: Step, t: System)
    requires CollisionFree(env) && DiskInv(env, s.disk) && AllFaithful(env, s) && Coherent(env, s, step)
    requires step.ReloadStep? && Next(env, s, step, t) && DurableStep(env, s, step, t)
    ensures AllFaithful(env, t)
  {
    if !Staging(env, s.disk, t.disk) {
      ReliesOnSound(env, s.disk, step.cand, t.disk);
      ReloadIsFaithful(env, s.server.value.mem, step.bundles, step.cand, t.disk);
    }
    TransactionKeepsFaithful(env, s, step.cand, t.disk);
  }

  lemma InstallKeepsFaithful(env: Env, s: System, step: Step, t: System)
    requires CollisionFree(env) && DiskInv(env, s.disk) && AllFaithful(env, s) && Coherent(env, s, step)
    requires step.InstallStep? && Next(env, s, step, t) && DurableStep(env, s, step, t)
    ensures AllFaithful(env, t)
  {
    if !Staging(env, s.disk, t.disk) {
      ReliesOnSound(env, s.disk, step.cand, t.disk);
      InstallIsFaithful(env, s, step, t.disk);
    }
    TransactionKeepsFaithful(env, s, step.cand, t.disk);
  }

  /** Fewer surviving values, the same promise. */
  lemma FewerAltsKeepFaithful(env: Env, d: DiskState, e: DiskState, p: Persisted)
    requires Faithful(env, d, p)
    requires forall x :: x in p.active.Values ==> Alts(e, Snapshot(x)) <= Alts(d, Snapshot(x))
    ensures Faithful(env, e, p)
  {
    forall l | l in p.active
      ensures Alts(e, Snapshot(p.active[l])) <= Alts(d, Snapshot(p.active[l]))
    {
      assert p.active[l] in p.active.Values;
    }
  }

  lemma CrashKeepsFaithful(env: Env, s: System, e: DiskState)
    requires DiskInv(env, s.disk) && AllFaithful(env, s) && CrashOf(s.disk, e)
    ensures forall p :: MayHold(e, p) ==> Faithful(env, e, p)
  {
    CrashOpens(env, s.disk, e);
    OpenedMayHold(env, e);
    forall p | MayHold(e, p)
      ensures Faithful(env, e, p)
    {
      assert Sound(env, s.disk, p);
      forall x | x in p.active.Values
        ensures Alts(e, Snapshot(x)) <= Alts(s.disk, Snapshot(x))
      {
        assert DurableSnapshot(env, s.disk, p, x);
        assert SurvivesAs(Alts(s.disk, Snapshot(x)), Get(e, Snapshot(x)));
      }
      FewerAltsKeepFaithful(env, s.disk, e, p);
    }
  }

  lemma NextKeepsFaithful(env: Env, s: System, step: Step, t: System)
    requires CollisionFree(env) && DiskInv(env, s.disk) && AllFaithful(env, s) && Coherent(env, s, step)
    requires Next(env, s, step, t) && DurableStep(env, s, step, t)
    ensures AllFaithful(env, t)
  {
    match step
    case OpenStep =>
    case ReloadStep(_, _, _) => ReloadKeepsFaithful(env, s, step, t);
    case InstallStep(_, _, _, _) => InstallKeepsFaithful(env, s, step, t);
    case StopStep =>
    case CrashStep => CrashKeepsFaithful(env, s, t.disk);
    case OtherStep =>
      forall p | MayHold(t.disk, p)
        ensures Faithful(env, t.disk, p)
      {
        FewerAltsKeepFaithful(env, s.disk, t.disk, p);
      }
  }

  lemma {:induction false} RunFaithful(env: Env, run: seq<System>, steps: seq<Step>, i: nat)
    requires CollisionFree(env) && IsDurableRun(env, run, steps) && i < |run|
    requires forall k :: 0 <= k < |steps| ==> Coherent(env, run[k], steps[k])
    ensures AllFaithful(env, run[i])
  {
    if i > 0 {
      RunFaithful(env, run, steps, i - 1);
      RunKeepsDisk(env, run, steps, i - 1);
      assert StepAt(env, run, steps, i - 1) && DurableAt(env, run, steps, i - 1);
      NextKeepsFaithful(env, run[i - 1], steps[i - 1], run[i]);
    }
  }

  // ---- falling back to the committed snapshots -----------------------------------

  lemma DiskOpens(env: Env, d: DiskState)
    requires DiskInv(env, d)
    ensures Opened(env, d).Some? && MayHold(d, Opened(env, d).value)
  {
    var v := Get(d, Descriptor);
    assert v in Alts(d, Descriptor);
    var p := v.value.body.state;
    forall l | l in p.active
      ensures SnapshotFits(env, p, p.active[l], Get(d, Snapshot(p.active[l])))
    {
      assert DurableSnapshot(env, d, p, p.active[l]);
      assert Get(d, Snapshot(p.active[l])) in Alts(d, Snapshot(p.active[l]));
    }
  }

  /** This label's snapshot is readable but is not what the record's marks say: the checks refuse it. */
  ghost predicate Stranded(env: Env, d: DiskState, p: Persisted, l: Label) {
    && l in p.active && LoadAt(env, d, Snapshot(p.active[l])).Some?
    && !Recorded(p, LoadAt(env, d, Snapshot(p.active[l])).value.info)
  }

  /** The bundles the fallback loads: each label's committed snapshot. */
  ghost predicate SnapshotBundles(env: Env, d: DiskState, p: Persisted, labels: seq<Label>, bundles: seq<Loaded>) {
    && |bundles| == |labels|
    && forall n :: 0 <= n < |labels| ==>
         labels[n] in p.active && LoadAt(env, d, Snapshot(p.active[labels[n]])) == Some(bundles[n])
  }

  lemma FaithfulSnapshotsAdmitted(env: Env, d: DiskState, p: Persisted, labels: seq<Label>, bundles: seq<Loaded>)
    requires Consistent(d) && Faithful(env, d, p) && SnapshotBundles(env, d, p, labels, bundles)
    ensures AdmitAll(p.(active := map[]), Infos(bundles)) == Some(p.(active := map[]))
  {
    var base := p.(active := map[]);
    forall n | 0 <= n < |bundles|
      ensures Recorded(base, Infos(bundles)[n])
    {
      var x := p.active[labels[n]];
      assert Get(d, Snapshot(x)) in Alts(d, Snapshot(x));
      RecordedIgnoresActive(p, base, bundles[n].info);
    }
    ReloadIsIdempotent(base, Infos(bundles));
  }

  /**
   In every coherent run whose commits reuse only durable blobs, after a crash or a
   plain restart at any point, the record that is opened has a readable snapshot
   behind every label, and loading any of them passes the rollback and continuity
   checks and leaves the marks as they were.
   */
  lemma RecoveryIsAdmitted(env: Env, run: seq<System>, steps: seq<Step>, i: nat, e: DiskState, labels: seq<Label>)
    requires CollisionFree(env) && IsDurableRun(env, run, steps) && i < |run|
    requires forall k :: 0 <= k < |steps| ==> Coherent(env, run[k], steps[k])
    requires CrashOf(run[i].disk, e) || e == run[i].disk
    ensures Opened(env, e).Some?
    ensures var p := Opened(env, e).value;
            && (forall l :: l in p.active ==> LoadAt(env, e, Snapshot(p.active[l])).Some?)
            && (forall bundles :: SnapshotBundles(env, e, p, labels, bundles) ==>
                  AdmitAll(p.(active := map[]), Infos(bundles)) == Some(p.(active := map[])))
  {
    RunKeepsDisk(env, run, steps, i);
    RunFaithful(env, run, steps, i);
    if CrashOf(run[i].disk, e) {
      CrashOpens(env, run[i].disk, e);
      CrashKeepsFaithful(env, run[i], e);
    }
    DiskOpens(env, e);
    var p := Opened(env, e).value;
    forall l | l in p.active
      ensures LoadAt(env, e, Snapshot(p.active[l])).Some?
    {
      assert SnapshotFits(env, p, p.active[l], Get(e, Snapshot(p.active[l])));
    }
    forall bundles | SnapshotBundles(env, e, p, labels, bundles)
      ensures AdmitAll(p.(active := map[]), Infos(bundles)) == Some(p.(active := map[]))
    {
      FaithfulSnapshotsAdmitted(env, e, p, labels, bundles);
    }
  }
}
