/**
 Short concrete runs: what the rollback protection does not promise
 (crates/hoike-core/src/router.rs, install.rs, state.rs).
 */
module RunExamples {
  import opened Wrappers
  import opened Bytes
  import opened Marks
  import opened Disk
  import opened Commit
  import opened Install
  import opened Runs
  import opened Recovery

  /** One scope of one producer at this epoch. */
  function OneScope(epoch: u64, digest: Digest): Info {
    Info("p", [Scope([], [], epoch)], None, digest)
  }

  const KEY := ScopeId("p", [])

  function At(epoch: u64, digest: Digest, active: map<Label, Digest>): Persisted {
    Persisted(map[KEY := epoch], map[KEY := digest], active)
  }

  lemma FirstScope(i: Info, epoch: u64, digest: Digest)
    requires i == OneScope(epoch, digest)
    ensures Admit(FRESH, i) == Some(At(epoch, digest, map[]))
  {
    assert KeyAt(i, 0) == KEY;
    assert AdvanceFirst(FRESH, i, 0) == FRESH;
    assert AdvanceFirst(FRESH, i, 1) == AdvanceOne(FRESH, KEY, epoch, digest);
  }

  lemma NextScope(p: Persisted, i: Info, epoch: u64, digest: Digest)
    requires i == OneScope(epoch, digest) && p.marks.Keys == {KEY} && p.digests.Keys == {KEY}
    requires p.marks[KEY] < epoch <= p.marks[KEY] + MAX_EPOCH_JUMP
    ensures Admit(p, i) == Some(At(epoch, digest, p.active))
  {
    assert KeyAt(i, 0) == KEY;
    assert AdvanceFirst(p, i, 0) == p;
    assert AdvanceFirst(p, i, 1) == AdvanceOne(p, KEY, epoch, digest);
    assert p.marks[KEY := epoch] == map[KEY := epoch] && p.digests[KEY := digest] == map[KEY := digest];
  }

  /** A settled disk with this record and these two blobs. */
  function Holding(env: Env, p: Persisted, a: Loaded, b: Loaded): DiskState {
    DiskState(
      map[Descriptor := File(StateJson(p), true), BlobDir := DIRECTORY.value,
          Snapshot(env.sha(a.image)) := File(Raw(a.image), true),
          Snapshot(env.sha(b.image)) := File(Raw(b.image), true)],
      map[])
  }

  lemma HoldingIsSound(env: Env, p: Persisted, a: Loaded, b: Loaded)
    requires CollisionFree(env) && Genuine(env, a) && Genuine(env, b) && Paired(p)
    requires forall l :: l in p.active ==>
               || (p.active[l] == env.sha(a.image) && Covers(p, a.info))
               || (p.active[l] == env.sha(b.image) && Covers(p, b.info))
    ensures var d := Holding(env, p, a, b);
            && Consistent(d) && Sound(env, d, p) && Acceptable(env, d, p) && Opened(env, d) == Some(p)
            && Alts(d, Descriptor) == {Described(p)}
  {
    var d := Holding(env, p, a, b);
    forall l | l in p.active
      ensures DurableSnapshot(env, d, p, p.active[l])
      ensures SnapshotFits(env, p, p.active[l], Get(d, Snapshot(p.active[l])))
    {
      assert Alts(d, Snapshot(p.active[l])) == {Get(d, Snapshot(p.active[l]))};
    }
  }

  lemma OneMoreStep(env: Env, run: seq<System>, steps: seq<Step>, step: Step, t: System)
    requires IsRun(env, run, steps) && Next(env, run[|steps|], step, t)
    ensures IsRun(env, run + [t], steps + [step])
  {
    var longer, more := run + [t], steps + [step];
    forall i | 0 <= i < |more|
      ensures StepAt(env, longer, more, i)
    {
      if i < |steps| {
        assert StepAt(env, run, steps, i);
      }
    }
  }

  lemma Extended(env: Env, run0: seq<System>, steps0: seq<Step>, step: Step, t: System)
    returns (run: seq<System>, steps: seq<Step>)
    requires IsRun(env, run0, steps0) && Next(env, run0[|steps0|], step, t)
    ensures IsRun(env, run, steps) && |steps| == |steps0| + 1 && run0 <= run && steps0 <= steps
    ensures steps[|steps0|] == step && run[|steps0| + 1] == t
  {
    OneMoreStep(env, run0, steps0, step, t);
    run, steps := run0 + [t], steps0 + [step];
  }

  /** A fresh directory that a server has just opened. */
  lemma FreshlyOpened(env: Env) returns (run: seq<System>, steps: seq<Step>)
    ensures IsRun(env, run, steps) && steps == [OpenStep]
    ensures run[1] == System(Bare(FRESH), Some(Server(FRESH, [])), FRESH)
  {
    BareFreshOpens(env);
    run, steps := [System(Bare(FRESH), None, FRESH)], [];
    OneMoreStep(env, run, steps, OpenStep, System(Bare(FRESH), Some(Server(FRESH, [])), FRESH));
    run, steps := run + [System(Bare(FRESH), Some(Server(FRESH, [])), FRESH)], steps + [OpenStep];
  }

  /**
   Two labels on one key: the server opens a fresh directory and accepts one reload
   of both. It then serves the key at epoch 1 and at epoch 2 at the same moment.
   */
  lemma OverlappingReloadServesOlder(env: Env, a: Loaded, b: Loaded)
    returns (run: seq<System>, steps: seq<Step>)
    requires CollisionFree(env) && Genuine(env, a) && Genuine(env, b)
    requires a.info == OneScope(1, a.info.digest) && b.info == OneScope(2, b.info.digest)
    ensures IsRun(env, run, steps) && |steps| == 2 && steps[0] == OpenStep
    ensures steps[1].ReloadStep? && steps[1].ok && steps[1].bundles == [a, b]
    ensures ServedAt(run, 2, 0, 0) && ServedAt(run, 2, 1, 0)
    ensures var served := run[2].server.value.served;
            !NotOlder(served[1].info, 0, served[0].info, 0)
    ensures !NeverServesOlder(run)
  {
    var cand := At(2, b.info.digest, map["first" := env.sha(a.image), "second" := env.sha(b.image)]);
    var t := System(Holding(env, cand, a, b), Some(Server(cand, [a, b])), cand);
    BothReload(env, a, b, cand);
    run, steps := FreshlyOpened(env);
    OneMoreStep(env, run, steps, ReloadStep([a, b], cand, true), t);
    run, steps := run + [t], steps + [ReloadStep([a, b], cand, true)];
    ServesBoth(run, a, b);
  }

  lemma ServesBoth(run: seq<System>, a: Loaded, b: Loaded)
    requires |run| == 3 && run[2].server.Some? && run[2].server.value.served == [a, b]
    requires a.info == OneScope(1, a.info.digest) && b.info == OneScope(2, b.info.digest)
    ensures ServedAt(run, 2, 0, 0) && ServedAt(run, 2, 1, 0)
    ensures var served := run[2].server.value.served;
            !NotOlder(served[1].info, 0, served[0].info, 0)
    ensures !NeverServesOlder(run)
  {
    assert KeyAt(a.info, 0) == KEY && KeyAt(b.info, 0) == KEY;
    assert ServedAt(run, 2, 1, 0) && ServedAt(run, 2, 0, 0);
  }

  lemma BothReload(env: Env, a: Loaded, b: Loaded, cand: Persisted)
    requires CollisionFree(env) && Genuine(env, a) && Genuine(env, b)
    requires a.info == OneScope(1, a.info.digest) && b.info == OneScope(2, b.info.digest)
    requires cand == At(2, b.info.digest, map["first" := env.sha(a.image), "second" := env.sha(b.image)])
    ensures Next(env, System(Bare(FRESH), Some(Server(FRESH, [])), FRESH), ReloadStep([a, b], cand, true),
                 System(Holding(env, cand, a, b), Some(Server(cand, [a, b])), cand))
  {
    BothAreCandidate(env, a, b, cand);
    assert Covers(cand, a.info) && Covers(cand, b.info) by {
      assert KeyAt(a.info, 0) == KEY && KeyAt(b.info, 0) == KEY;
    }
    HoldingIsSound(env, cand, a, b);
  }

  lemma BothAreCandidate(env: Env, a: Loaded, b: Loaded, cand: Persisted)
    requires Genuine(env, a) && Genuine(env, b)
    requires a.info == OneScope(1, a.info.digest) && b.info == OneScope(2, b.info.digest)
    requires cand == At(2, b.info.digest, map["first" := env.sha(a.image), "second" := env.sha(b.image)])
    ensures ReloadCandidate(env, FRESH, [a, b], cand)
  {
    BothAdmitted(a.info, b.info);
    assert Infos([a, b]) == [a.info, b.info];
    assert FRESH.(active := map[]) == FRESH && [a, b][0] == a && [a, b][1] == b;
  }

  lemma BothAdmitted(a: Info, b: Info)
    requires a == OneScope(1, a.digest) && b == OneScope(2, b.digest)
    ensures AdmitAll(FRESH, [a, b]) == Some(At(2, b.digest, map[]))
  {
    FirstScope(a, 1, a.digest);
    NextScope(At(1, a.digest, map[]), b, 2, b.digest);
    assert [a, b][..1] == [a] && [a][..0] == [];
    assert AdmitAll(FRESH, []) == Some(FRESH);
    assert AdmitAll(FRESH, [a]) == Some(At(1, a.digest, map[]));
  }

  /** The disk after a descriptor rename whose directory sync failed. */
  function Uncertain(env: Env, p: Persisted, q: Persisted, a: Loaded, b: Loaded): DiskState {
    Holding(env, q, a, b).(unsettled := map[Descriptor := {Described(p), Described(q)}])
  }

  /** From a committed first image, the second one renamed over it without its directory sync. */
  lemma UncertainIsRenaming(env: Env, p: Persisted, q: Persisted, a: Loaded, b: Loaded)
    requires CollisionFree(env) && Genuine(env, a) && Genuine(env, b) && Paired(q)
    requires forall l :: l in q.active ==> q.active[l] == env.sha(b.image) && Covers(q, b.info)
    ensures Renaming(env, Holding(env, p, a, a), q, Uncertain(env, p, q, a, b))
    ensures Opened(env, Uncertain(env, p, q, a, b)) == Some(q)
  {
    var d, e, h := Holding(env, p, a, a), Uncertain(env, p, q, a, b), Holding(env, q, a, b);
    HoldingIsSound(env, q, a, b);
    assert forall x :: Get(e, x) == Get(h, x);
    assert forall x :: Alts(e, Snapshot(x)) == Alts(h, Snapshot(x));
    forall l | l in q.active
      ensures DurableSnapshot(env, e, q, q.active[l])
    {
      assert DurableSnapshot(env, h, q, q.active[l]);
    }
  }

  /**
   Measured against the last acknowledged record the limit is not 10,000: an
   installation whose descriptor sync failed is what the next one opens and starts
   from, and its success acknowledges a mark 20,000 higher.
   */
  lemma UncertainCommitDoublesJump(env: Env, a: Loaded, b: Loaded, c: Loaded)
    returns (run: seq<System>, steps: seq<Step>)
    requires CollisionFree(env) && Genuine(env, a) && Genuine(env, b) && Genuine(env, c)
    requires a.info == OneScope(0, a.info.digest) && b.info == OneScope(10_000, b.info.digest)
    requires c.info == OneScope(20_000, c.info.digest)
    ensures IsRun(env, run, steps) && |steps| == 3
    ensures forall k :: 0 <= k < 3 ==> steps[k].InstallStep? && (steps[k].ok <==> k != 1)
    ensures run[2].acked == run[1].acked && KEY in run[1].acked.marks && KEY in run[3].acked.marks
    ensures run[3].acked.marks[KEY] == run[1].acked.marks[KEY] + 2 * MAX_EPOCH_JUMP
  {
    run, steps := UncertainRun(env, a, b);
    var p, q := run[1].acked, Opened(env, run[2].disk).value;
    var r := At(20_000, c.info.digest, map["l" := env.sha(c.image)]);
    ThirdInstall(env, run[2].disk, p, q, c, r);
    OneMoreStep(env, run, steps, InstallStep("l", c, r, true), System(Holding(env, r, c, c), None, r));
    run, steps := run + [System(Holding(env, r, c, c), None, r)], steps + [InstallStep("l", c, r, true)];
  }

  lemma UncertainRun(env: Env, a: Loaded, b: Loaded) returns (run: seq<System>, steps: seq<Step>)
    requires CollisionFree(env) && Genuine(env, a) && Genuine(env, b)
    requires a.info == OneScope(0, a.info.digest) && b.info == OneScope(10_000, b.info.digest)
    ensures IsRun(env, run, steps) && |steps| == 2 && run[2] == System(run[2].disk, None, run[1].acked)
    ensures steps[0].InstallStep? && steps[0].ok && steps[1].InstallStep? && !steps[1].ok
    ensures run[1].acked.marks == map[KEY := 0] && Opened(env, run[2].disk).Some?
    ensures var q := Opened(env, run[2].disk).value;
            q.marks == map[KEY := 10_000] && q.digests.Keys == {KEY} && q.active.Keys == {"l"}
  {
    var p := At(0, a.info.digest, map["l" := env.sha(a.image)]);
    var q := At(10_000, b.info.digest, map["l" := env.sha(b.image)]);
    var s0, s1 := System(Bare(FRESH), None, FRESH), System(Holding(env, p, a, a), None, p);
    var s2 := System(Uncertain(env, p, q, a, b), None, p);
    FirstInstall(env, a, p);
    OneMoreStep(env, [s0], [], InstallStep("l", a, p, true), s1);
    SecondInstall(env, a, b, p, q);
    OneMoreStep(env, [s0] + [s1], [] + [InstallStep("l", a, p, true)], InstallStep("l", b, q, false), s2);
    run := [s0] + [s1] + [s2];
    steps := [] + [InstallStep("l", a, p, true)] + [InstallStep("l", b, q, false)];
  }

  lemma FirstInstall(env: Env, a: Loaded, p: Persisted)
    requires CollisionFree(env) && Genuine(env, a) && a.info == OneScope(0, a.info.digest)
    requires p == At(0, a.info.digest, map["l" := env.sha(a.image)])
    ensures Start(System(Bare(FRESH), None, FRESH))
    ensures Next(env, System(Bare(FRESH), None, FRESH), InstallStep("l", a, p, true),
                 System(Holding(env, p, a, a), None, p))
  {
    BareFreshOpens(env);
    FirstScope(a.info, 0, a.info.digest);
    assert KeyAt(a.info, 0) == KEY;
    InstallSucceeds(env, Bare(FRESH), FRESH, FRESH, "l", a, a, p);
  }

  lemma SecondInstall(env: Env, a: Loaded, b: Loaded, p: Persisted, q: Persisted)
    requires CollisionFree(env) && Genuine(env, a) && Genuine(env, b)
    requires a.info == OneScope(0, a.info.digest) && b.info == OneScope(10_000, b.info.digest)
    requires p == At(0, a.info.digest, map["l" := env.sha(a.image)])
    requires q == At(10_000, b.info.digest, map["l" := env.sha(b.image)])
    ensures Next(env, System(Holding(env, p, a, a), None, p), InstallStep("l", b, q, false),
                 System(Uncertain(env, p, q, a, b), None, p))
    ensures Opened(env, Uncertain(env, p, q, a, b)) == Some(q)
  {
    NextScope(p, b.info, 10_000, b.info.digest);
    assert KeyAt(a.info, 0) == KEY && KeyAt(b.info, 0) == KEY;
    HoldingIsSound(env, p, a, a);
    UncertainIsRenaming(env, p, q, a, b);
    assert p.active["l" := env.sha(b.image)] == q.active;
    assert InstallCandidate(env, p, "l", b) == q;
  }

  lemma ThirdInstall(env: Env, d: DiskState, p: Persisted, q: Persisted, c: Loaded, r: Persisted)
    requires CollisionFree(env) && Genuine(env, c) && c.info == OneScope(20_000, c.info.digest)
    requires Opened(env, d) == Some(q) && q.marks == map[KEY := 10_000] && q.digests.Keys == {KEY}
    requires q.active.Keys == {"l"} && r == At(20_000, c.info.digest, map["l" := env.sha(c.image)])
    ensures Next(env, System(d, None, p), InstallStep("l", c, r, true), System(Holding(env, r, c, c), None, r))
  {
    NextScope(q, c.info, 20_000, c.info.digest);
    assert KeyAt(c.info, 0) == KEY;
    assert q.active["l" := env.sha(c.image)] == r.active;
    InstallSucceeds(env, d, q, p, "l", c, c, r);
  }

  /** A durable installation that leaves this blob and one other, from any disk that opens. */
  lemma InstallSucceeds(
    env: Env, d: DiskState, p: Persisted, acked: Persisted, name: Label, other: Loaded, b: Loaded, cand: Persisted)
    requires CollisionFree(env) && Genuine(env, other) && Genuine(env, b) && Opened(env, d) == Some(p) && Paired(cand)
    requires Admit(p, b.info) == Some(cand.(active := p.active))
    requires cand.active == p.active[name := env.sha(b.image)]
    requires Covers(cand, b.info) && Covers(cand, other.info)
    requires forall l :: l in cand.active ==>
               cand.active[l] == env.sha(other.image) || cand.active[l] == env.sha(b.image)
    ensures Next(env, System(d, None, acked), InstallStep(name, b, cand, true),
                 System(Holding(env, cand, other, b), None, cand))
  {
    HoldingIsSound(env, cand, other, b);
    assert InstallCandidate(env, p, name, b) == cand;
  }

  /**
   Two labels share one bundle. Installing a newer bundle of the same key for one of
   them leaves the other label's snapshot, which nothing replaced, below the new
   mark: it can no longer be loaded, and a fallback that needs it is refused.
   */
  lemma InstallStrandsSharedLabel(env: Env, a: Loaded, b: Loaded) returns (run: seq<System>, steps: seq<Step>)
    requires CollisionFree(env) && Genuine(env, a) && Genuine(env, b)
    requires a.info == OneScope(1, a.info.digest) && b.info == OneScope(2, b.info.digest)
    ensures IsRun(env, run, steps) && |steps| == 4
    ensures steps[1].ReloadStep? && steps[1].ok && steps[1].bundles == [a]
    ensures steps[3].InstallStep? && steps[3].ok && steps[3].name == "x" && steps[3].b == b
    ensures Opened(env, run[4].disk) == Some(run[4].acked)
    ensures Stranded(env, run[4].disk, run[4].acked, "y")
    ensures Admit(run[4].acked.(active := map[]), a.info).None?
  {
    var p := At(1, a.info.digest, map["x" := env.sha(a.image), "y" := env.sha(a.image)]);
    var q := At(2, b.info.digest, map["x" := env.sha(b.image), "y" := env.sha(a.image)]);
    var run0, steps0 := SharedRun(env, a, p);
    var t := SharedInstall(env, a, b, p, q);
    run, steps := Extended(env, run0, steps0, InstallStep("x", b, q, true), t);
  }

  lemma SharedRun(env: Env, a: Loaded, p: Persisted) returns (run: seq<System>, steps: seq<Step>)
    requires CollisionFree(env) && Genuine(env, a) && a.info == OneScope(1, a.info.digest)
    requires p == At(1, a.info.digest, map["x" := env.sha(a.image), "y" := env.sha(a.image)])
    ensures IsRun(env, run, steps) && |steps| == 3 && run[3] == System(Holding(env, p, a, a), None, p)
    ensures steps[1].ReloadStep? && steps[1].ok && steps[1].bundles == [a]
    ensures Opened(env, Holding(env, p, a, a)) == Some(p)
  {
    var t := System(Holding(env, p, a, a), Some(Server(p, [a])), p);
    SharedReload(env, a, p);
    run, steps := FreshlyOpened(env);
    OneMoreStep(env, run, steps, ReloadStep([a], p, true), t);
    run, steps := run + [t], steps + [ReloadStep([a], p, true)];
    OneMoreStep(env, run, steps, StopStep, t.(server := None));
    run, steps := run + [t.(server := None)], steps + [StopStep];
  }

  lemma SharedReload(env: Env, a: Loaded, p: Persisted)
    requires CollisionFree(env) && Genuine(env, a) && a.info == OneScope(1, a.info.digest)
    requires p == At(1, a.info.digest, map["x" := env.sha(a.image), "y" := env.sha(a.image)])
    ensures Opened(env, Holding(env, p, a, a)) == Some(p)
    ensures Next(env, System(Bare(FRESH), Some(Server(FRESH, [])), FRESH), ReloadStep([a], p, true),
                 System(Holding(env, p, a, a), Some(Server(p, [a])), p))
  {
    FirstScope(a.info, 1, a.info.digest);
    assert KeyAt(a.info, 0) == KEY;
    HoldingIsSound(env, p, a, a);
    assert ReloadCandidate(env, FRESH, [a], p) by {
      assert Infos([a]) == [a.info] && [a.info][..0] == [] && FRESH.(active := map[]) == FRESH;
      assert AdmitAll(FRESH, []) == Some(FRESH) && AdmitAll(FRESH, [a.info]) == Admit(FRESH, a.info);
      assert [a][0] == a;
    }
  }

  lemma SharedInstall(env: Env, a: Loaded, b: Loaded, p: Persisted, q: Persisted) returns (t: System)
    requires CollisionFree(env) && Genuine(env, a) && Genuine(env, b)
    requires a.info == OneScope(1, a.info.digest) && b.info == OneScope(2, b.info.digest)
    requires p == At(1, a.info.digest, map["x" := env.sha(a.image), "y" := env.sha(a.image)])
    requires q == At(2, b.info.digest, map["x" := env.sha(b.image), "y" := env.sha(a.image)])
    requires Opened(env, Holding(env, p, a, a)) == Some(p)
    ensures Next(env, System(Holding(env, p, a, a), None, p), InstallStep("x", b, q, true), t)
    ensures t.acked == q && Opened(env, t.disk) == Some(q) && Stranded(env, t.disk, q, "y")
    ensures Admit(q.(active := map[]), a.info).None?
  {
    t := System(Holding(env, q, a, b), None, q);
    NewerStrands(env, a, b, q);
    NextScope(p, b.info, 2, b.info.digest);
    assert KeyAt(a.info, 0) == KEY && KeyAt(b.info, 0) == KEY;
    assert p.active["x" := env.sha(b.image)] == q.active;
    InstallSucceeds(env, Holding(env, p, a, a), p, p, "x", a, b, q);
  }

  lemma NewerStrands(env: Env, a: Loaded, b: Loaded, q: Persisted)
    requires CollisionFree(env) && Genuine(env, a) && Genuine(env, b)
    requires a.info == OneScope(1, a.info.digest) && b.info == OneScope(2, b.info.digest)
    requires q == At(2, b.info.digest, map["x" := env.sha(b.image), "y" := env.sha(a.image)])
    ensures Opened(env, Holding(env, q, a, b)) == Some(q) && Stranded(env, Holding(env, q, a, b), q, "y")
    ensures Admit(q.(active := map[]), a.info).None?
  {
    assert KeyAt(a.info, 0) == KEY && KeyAt(b.info, 0) == KEY;
    HoldingIsSound(env, q, a, b);
    assert LoadAt(env, Holding(env, q, a, b), Snapshot(q.active["y"])) == Some(a);
    assert !ScopeRecorded(q, a.info, 0);
    assert ScopeVerdict(q.(active := map[]), a.info, 0) == Some(EpochRollback);
  }
}
