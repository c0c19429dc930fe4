/**
 Whole runs of one state directory: a server that opens, reloads and serves,
 offline installations, failed commits, stops and crashes, in any order
 (crates/hoike-core/src/router.rs, install.rs, state.rs).
 */
module Runs {
  import opened Wrappers
  import opened Bytes
  import opened Marks
  import opened Disk
  import opened Commit
  import opened Install

  /** A running server: its store's memory and the bundles of its scope map. */
  datatype Server = Server(mem: Persisted, served: seq<Loaded>)

  /** `acked` is the record of the last commit that returned success. */
  datatype System = System(disk: DiskState, server: Option<Server>, acked: Persisted)

  datatype Step =
    | OpenStep
    | ReloadStep(bundles: seq<Loaded>, cand: Persisted, ok: bool)
    | InstallStep(name: Label, b: Loaded, cand: Persisted, ok: bool)
    | StopStep
    | CrashStep
    | OtherStep

  function Infos(bundles: seq<Loaded>): (r: seq<Info>)
    ensures |r| == |bundles|
    ensures forall n :: 0 <= n < |bundles| ==> r[n] == bundles[n].info
  {
    seq(|bundles|, n requires 0 <= n < |bundles| => bundles[n].info)
  }

  /** A bundle as the parser yields it, its image among the strings the digest separates. */
  ghost predicate Genuine(env: Env, b: Loaded) {
    env.load(b.image) == Some(b) && env.inPlay(b.image)
  }

  /** The candidate a reload commits: marks admitted in order, references replaced. */
  ghost predicate ReloadCandidate(env: Env, mem: Persisted, bundles: seq<Loaded>, cand: Persisted) {
    && (forall b :: 0 <= b < |bundles| ==> Genuine(env, bundles[b]))
    && AdmitAll(mem.(active := map[]), Infos(bundles)).Some?
    && cand == AdmitAll(mem.(active := map[]), Infos(bundles)).value.(active := cand.active)
    && forall l :: l in cand.active ==> exists b :: 0 <= b < |bundles| && cand.active[l] == env.sha(bundles[b].image)
  }

  /** Everything else on the machine: published files, directory flushes, never the store's own names. */
  ghost predicate Unrelated(d: DiskState, e: DiskState) {
    && Consistent(e)
    && forall p: Path :: !p.Published? && !p.Temp? ==> Get(e, p) == Get(d, p) && Alts(e, p) <= Alts(d, p)
  }

  /**
   One step. A reload or installation that does not succeed may leave the disk in
   any state of its transaction, so a crash in the middle is such a step followed
   by a crash.
   */
  ghost predicate Next(env: Env, s: System, step: Step, t: System) {
    match step
    case OpenStep =>
      && s.server.None? && Opened(env, s.disk).Some?
      && t == s.(server := Some(Server(Opened(env, s.disk).value, [])))
    case ReloadStep(bundles, cand, true) =>
      && s.server.Some? && ReloadCandidate(env, s.server.value.mem, bundles, cand)
      && Committed(env, s.disk, cand, t.disk)
      && t.server == Some(Server(cand, bundles)) && t.acked == cand
    case ReloadStep(bundles, cand, false) =>
      && s.server.Some? && t.server == s.server && t.acked == s.acked
      && (|| Staging(env, s.disk, t.disk)
          || (ReloadCandidate(env, s.server.value.mem, bundles, cand) && InFlight(env, s.disk, cand, t.disk)))
    case InstallStep(name, b, cand, ok) =>
      && s.server.None? && t.server.None?
      && (|| (!ok && t.acked == s.acked && Staging(env, s.disk, t.disk))
          || (&& Genuine(env, b) && Opened(env, s.disk).Some? && Admit(Opened(env, s.disk).value, b.info).Some?
              && cand == InstallCandidate(env, Opened(env, s.disk).value, name, b)
              && (if ok then t.acked == cand && Committed(env, s.disk, cand, t.disk)
                  else t.acked == s.acked && InFlight(env, s.disk, cand, t.disk))))
    case StopStep => s.server.Some? && t == s.(server := None)
    case CrashStep => t.server.None? && t.acked == s.acked && CrashOf(s.disk, t.disk)
    case OtherStep => t == s.(disk := t.disk) && Unrelated(s.disk, t.disk)
  }

  /** Every state an installation passes through, and the one it ends in, is a step of this relation. */
  lemma InstallIsStep(
    env: Env, d: DiskState, acked: Persisted, name: Label, bytes: Bytes, cand: Persisted, e: DiskState)
    requires Reparses(env) && Chosen(env, d, name, bytes, cand) && env.inPlay(env.load(bytes).value.image)
    ensures InFlight(env, d, cand, e) ==>
              Next(env, System(d, None, acked), InstallStep(name, env.load(bytes).value, cand, false),
                   System(e, None, acked))
    ensures Committed(env, d, cand, e) ==>
              Next(env, System(d, None, acked), InstallStep(name, env.load(bytes).value, cand, true),
                   System(e, None, cand))
  {
  }

  /** Whatever record may be on the disk, and the server's memory, is at or above the acknowledged one. */
  ghost predicate MarksHold(s: System) {
    && Consistent(s.disk)
    && (forall v :: v in Alts(s.disk, Descriptor) ==> v.Some? && v.value.synced && v.value.body.StateJson?)
    && (forall p :: MayHold(s.disk, p) ==> Extends(s.acked, p))
    && (s.server.Some? ==> Extends(s.acked, s.server.value.mem))
  }

  /** The served bundles are exactly what the last acknowledged record holds. */
  ghost predicate ServesAcked(s: System) {
    s.server.Some? ==> forall b :: 0 <= b < |s.server.value.served| ==> Recorded(s.acked, s.server.value.served[b].info)
  }

  /**
   A transaction that gets as far as the descriptor reuses only durable blobs and, if
   it stops before that is synced, a durable directory.
   */
  ghost predicate DurableStep(env: Env, s: System, step: Step, t: System) {
    step.ReloadStep? || step.InstallStep? ==> Relies(env, s.disk, step.cand, t.disk)
  }

  /** Bundles of a successful reload that share a key agree on its epoch and manifest. */
  ghost predicate AgreeingReload(step: Step) {
    step.ReloadStep? && step.ok ==> AgreeOnKeys(Infos(step.bundles))
  }

  // ---- one step --------------------------------------------------------------

  lemma OpenedMayHold(env: Env, d: DiskState)
    requires Consistent(d) && Opened(env, d).Some?
    requires forall v :: v in Alts(d, Descriptor) ==> v.Some? && v.value.synced && v.value.body.StateJson?
    ensures MayHold(d, Opened(env, d).value)
  {
    assert Get(d, Descriptor) in Alts(d, Descriptor);
  }

  lemma ReloadExtends(env: Env, mem: Persisted, bundles: seq<Loaded>, cand: Persisted)
    requires ReloadCandidate(env, mem, bundles, cand)
    ensures Extends(mem, cand) && (Paired(mem) ==> Paired(cand))
  {
    AdmitAllSpec(mem.(active := map[]), Infos(bundles));
  }

  /** A transaction whose candidate is above the acknowledged record, seen by its marks alone. */
  lemma TransactionKeepsMarks(env: Env, s: System, base: Persisted, cand: Persisted, ok: bool, t: System)
    requires MarksHold(s) && Extends(s.acked, base) && Extends(base, cand)
    requires if ok then Committed(env, s.disk, cand, t.disk) && t.acked == cand
             else InFlight(env, s.disk, cand, t.disk) && t.acked == s.acked
    requires t.server.Some? ==> t.server.value.mem == cand || (!ok && t.server == s.server)
    ensures MarksHold(t) && Extends(s.acked, t.acked)
  {
    ExtendsTransitive(s.acked, base, cand);
  }

  lemma CrashKeepsMarks(s: System, e: DiskState)
    requires MarksHold(s) && CrashOf(s.disk, e)
    ensures MarksHold(s.(disk := e))
  {
    assert SurvivesAs(Alts(s.disk, Descriptor), Get(e, Descriptor));
    assert Alts(e, Descriptor) == {Get(e, Descriptor)};
  }

  /** Every step keeps the marks, whatever blobs it reuses: the acknowledged record never goes back. */
  lemma NextKeepsMarks(env: Env, s: System, step: Step, t: System)
    requires MarksHold(s) && Next(env, s, step, t)
    ensures MarksHold(t) && Extends(s.acked, t.acked)
  {
    match step
    case OpenStep => OpenedMayHold(env, s.disk);
    case ReloadStep(bundles, cand, ok) =>
      if ReloadCandidate(env, s.server.value.mem, bundles, cand) {
        ReloadExtends(env, s.server.value.mem, bundles, cand);
        TransactionKeepsMarks(env, s, s.server.value.mem, cand, ok, t);
      }
    case InstallStep(_, b, cand, ok) =>
      if ok || !Staging(env, s.disk, t.disk) {
        OpenedMayHold(env, s.disk);
        AdmitSpec(Opened(env, s.disk).value, b.info);
        TransactionKeepsMarks(env, s, Opened(env, s.disk).value, cand, ok, t);
      }
    case StopStep =>
    case CrashStep => CrashKeepsMarks(s, t.disk);
    case OtherStep =>
  }

  lemma UnrelatedKeepsDisk(env: Env, d: DiskState, e: DiskState)
    requires DiskInv(env, d) && Unrelated(d, e)
    ensures DiskInv(env, e)
  {
    forall v | v in Alts(e, Descriptor)
      ensures v.Some? && v.value.synced && v.value.body.StateJson? && Sound(env, e, v.value.body.state)
    {
      assert v in Alts(d, Descriptor);
      var p := v.value.body.state;
      forall l | l in p.active
        ensures DurableSnapshot(env, e, p, p.active[l])
      {
        assert DurableSnapshot(env, d, p, p.active[l]);
        assert Alts(e, Snapshot(p.active[l])) <= Alts(d, Snapshot(p.active[l]));
      }
    }
  }

  /** A step that reuses only durable blobs leaves a disk that every crash leaves openable. */
  lemma NextKeepsDisk(env: Env, s: System, step: Step, t: System)
    requires CollisionFree(env) && DiskInv(env, s.disk) && Next(env, s, step, t) && DurableStep(env, s, step, t)
    ensures DiskInv(env, t.disk)
  {
    match step
    case OpenStep =>
    case ReloadStep(_, cand, _) => InFlightKeepsDisk(env, s.disk, cand, t.disk);
    case InstallStep(_, _, cand, _) => InFlightKeepsDisk(env, s.disk, cand, t.disk);
    case StopStep =>
    case CrashStep => CrashOpens(env, s.disk, t.disk);
    case OtherStep => UnrelatedKeepsDisk(env, s.disk, t.disk);
  }

  lemma NextKeepsServing(env: Env, s: System, step: Step, t: System)
    requires Next(env, s, step, t) && AgreeingReload(step) && ServesAcked(s)
    ensures ServesAcked(t)
  {
    if step.ReloadStep? && step.ok {
      var base, infos := s.server.value.mem.(active := map[]), Infos(step.bundles);
      WorkingSetRecorded(base, infos);
      forall b | 0 <= b < |step.bundles|
        ensures Recorded(t.acked, step.bundles[b].info)
      {
        var q := AdmitAll(base, infos).value;
        assert Recorded(q, infos[b]);
        forall n | 0 <= n < |infos[b].scopes|
          ensures ScopeRecorded(t.acked, infos[b], n)
        {
          assert ScopeRecorded(q, infos[b], n);
        }
      }
    }
  }

  // ---- whole runs ------------------------------------------------------------

  /** A freshly initialized directory with no server. */
  ghost predicate Start(s: System) {
    && s.server.None? && s.acked == FRESH
    && Consistent(s.disk) && Alts(s.disk, Descriptor) == {Described(FRESH)}
  }

  ghost predicate IsRun(env: Env, run: seq<System>, steps: seq<Step>) {
    && |run| == |steps| + 1
    && Start(run[0])
    && forall i :: 0 <= i < |steps| ==> StepAt(env, run, steps, i)
  }

  ghost predicate StepAt(env: Env, run: seq<System>, steps: seq<Step>, i: nat)
    requires i < |steps| && |run| == |steps| + 1
  {
    Next(env, run[i], steps[i], run[i + 1])
  }

  /** A run in which no commit relies on a blob that a crash could still lose. */
  ghost predicate IsDurableRun(env: Env, run: seq<System>, steps: seq<Step>) {
    IsRun(env, run, steps) && forall i :: 0 <= i < |steps| ==> DurableAt(env, run, steps, i)
  }

  ghost predicate DurableAt(env: Env, run: seq<System>, steps: seq<Step>, i: nat)
    requires i < |steps| && |run| == |steps| + 1
  {
    DurableStep(env, run[i], steps[i], run[i + 1])
  }

  lemma {:induction false} RunKeepsMarks(env: Env, run: seq<System>, steps: seq<Step>, i: nat)
    requires IsRun(env, run, steps) && i < |run|
    ensures MarksHold(run[i])
  {
    if i > 0 {
      RunKeepsMarks(env, run, steps, i - 1);
      assert StepAt(env, run, steps, i - 1);
      NextKeepsMarks(env, run[i - 1], steps[i - 1], run[i]);
    }
  }

  lemma {:induction false} RunKeepsDisk(env: Env, run: seq<System>, steps: seq<Step>, i: nat)
    requires CollisionFree(env) && IsDurableRun(env, run, steps) && i < |run|
    ensures DiskInv(env, run[i].disk)
  {
    if i > 0 {
      RunKeepsDisk(env, run, steps, i - 1);
      assert StepAt(env, run, steps, i - 1) && DurableAt(env, run, steps, i - 1);
      NextKeepsDisk(env, run[i - 1], steps[i - 1], run[i]);
    }
  }

  lemma {:induction false} AckedNeverFallsBack(env: Env, run: seq<System>, steps: seq<Step>, i: nat, j: nat)
    requires IsRun(env, run, steps) && i <= j < |run|
    ensures Extends(run[i].acked, run[j].acked)
    decreases j
  {
    if i < j {
      AckedNeverFallsBack(env, run, steps, i, j - 1);
      RunKeepsMarks(env, run, steps, j - 1);
      assert StepAt(env, run, steps, j - 1);
      NextKeepsMarks(env, run[j - 1], steps[j - 1], run[j]);
      ExtendsTransitive(run[i].acked, run[j - 1].acked, run[j].acked);
    }
  }

  /**
   In every run with crashes, restarts and failed directory syncs, whatever record
   is on the disk, or may be there after a crash, is at or above every record
   acknowledged before, and so is whatever open finds.
   */
  lemma DiskNeverBelowAcked(env: Env, run: seq<System>, steps: seq<Step>, i: nat, j: nat)
    requires IsRun(env, run, steps) && i <= j < |run|
    ensures forall p :: MayHold(run[j].disk, p) ==> Extends(run[i].acked, p)
    ensures forall e :: (e == run[j].disk || CrashOf(run[j].disk, e)) && Opened(env, e).Some? ==>
              Extends(run[i].acked, Opened(env, e).value)
  {
    RunKeepsMarks(env, run, steps, j);
    AckedNeverFallsBack(env, run, steps, i, j);
    forall p | MayHold(run[j].disk, p)
      ensures Extends(run[i].acked, p)
    {
      ExtendsTransitive(run[i].acked, run[j].acked, p);
    }
    forall e | (e == run[j].disk || CrashOf(run[j].disk, e)) && Opened(env, e).Some?
      ensures Extends(run[i].acked, Opened(env, e).value)
    {
      if e != run[j].disk {
        assert SurvivesAs(Alts(run[j].disk, Descriptor), Get(e, Descriptor));
      } else {
        OpenedMayHold(env, e);
      }
      assert MayHold(run[j].disk, Opened(env, e).value);
    }
  }

  /** In every run whose commits reuse only durable blobs, a crash at any point leaves a disk that open accepts. */
  lemma CrashAlwaysOpens(env: Env, run: seq<System>, steps: seq<Step>, i: nat, e: DiskState)
    requires CollisionFree(env) && IsDurableRun(env, run, steps) && i < |run| && CrashOf(run[i].disk, e)
    ensures Opened(env, e).Some? && MayHold(run[i].disk, Opened(env, e).value)
  {
    RunKeepsDisk(env, run, steps, i);
    CrashOpens(env, run[i].disk, e);
  }

  lemma {:induction false} RunServesAcked(env: Env, run: seq<System>, steps: seq<Step>, i: nat)
    requires IsRun(env, run, steps) && i < |run|
    requires forall k :: 0 <= k < |steps| ==> AgreeingReload(steps[k])
    ensures ServesAcked(run[i])
  {
    if i > 0 {
      RunServesAcked(env, run, steps, i - 1);
      assert StepAt(env, run, steps, i - 1);
      NextKeepsServing(env, run[i - 1], steps[i - 1], run[i]);
    }
  }

  /** Scope `m` of bundle `a` of those served at moment `i`. */
  ghost predicate ServedAt(run: seq<System>, i: nat, a: nat, m: nat) {
    && i < |run| && run[i].server.Some? && a < |run[i].server.value.served|
    && m < |run[i].server.value.served[a].info.scopes|
  }

  /** If the two scopes have one (producer, issuer key hash), the later one is not older and not another manifest. */
  ghost predicate NotOlder(x: Info, m: nat, y: Info, n: nat)
    requires m < |x.scopes| && n < |y.scopes|
  {
    KeyAt(x, m) == KeyAt(y, n) ==>
      && x.scopes[m].epoch <= y.scopes[n].epoch
      && (x.scopes[m].epoch == y.scopes[n].epoch ==> x.digest == y.digest)
  }

  /** Served epochs never fall from one moment to a later one, and an epoch stands for one manifest. */
  ghost predicate NeverServesOlder(run: seq<System>) {
    forall i: nat, j: nat, a: nat, b: nat, m: nat, n: nat ::
      i <= j && ServedAt(run, i, a, m) && ServedAt(run, j, b, n) ==>
        NotOlder(run[i].server.value.served[a].info, m, run[j].server.value.served[b].info, n)
  }

  lemma ServedNeverRollsBack(
    env: Env, run: seq<System>, steps: seq<Step>, i: nat, j: nat, a: nat, b: nat, m: nat, n: nat)
    requires IsRun(env, run, steps) && i <= j && ServedAt(run, i, a, m) && ServedAt(run, j, b, n)
    requires forall k :: 0 <= k < |steps| ==> AgreeingReload(steps[k])
    ensures NotOlder(run[i].server.value.served[a].info, m, run[j].server.value.served[b].info, n)
  {
    RunServesAcked(env, run, steps, i);
    RunServesAcked(env, run, steps, j);
    AckedNeverFallsBack(env, run, steps, i, j);
    var x, y := run[i].server.value.served[a].info, run[j].server.value.served[b].info;
    assert ScopeRecorded(run[i].acked, x, m) && ScopeRecorded(run[j].acked, y, n);
  }

  /** A reload whose bundles disagree on a key serves that key at two epochs, or one epoch twice. */
  lemma DisagreeingReloadServesOlder(env: Env, run: seq<System>, steps: seq<Step>, k: nat)
    requires IsRun(env, run, steps) && k < |steps| && NeverServesOlder(run)
    ensures AgreeingReload(steps[k])
  {
    if steps[k].ReloadStep? && steps[k].ok {
      assert StepAt(env, run, steps, k);
      var infos := Infos(steps[k].bundles);
      forall a, b, m, n | 0 <= a < |infos| && 0 <= b < |infos| && 0 <= m < |infos[a].scopes|
                          && 0 <= n < |infos[b].scopes| && KeyAt(infos[a], m) == KeyAt(infos[b], n)
        ensures infos[a].scopes[m].epoch == infos[b].scopes[n].epoch && infos[a].digest == infos[b].digest
      {
        assert ServedAt(run, k + 1, a, m) && ServedAt(run, k + 1, b, n);
        assert NotOlder(infos[a], m, infos[b], n) && NotOlder(infos[b], n, infos[a], m);
      }
    }
  }

  /**
   Over every interleaving of reloads, failed reloads, installations, stops,
   restarts and crashes, the epochs served for one (producer, issuer key hash)
   never fall and equal epochs are one manifest, if and only if every accepted
   reload was given bundles that agree on the keys they share.
   */
  lemma ServedEpochsNeverFall(env: Env, run: seq<System>, steps: seq<Step>)
    requires IsRun(env, run, steps)
    ensures NeverServesOlder(run) <==> forall k :: 0 <= k < |steps| ==> AgreeingReload(steps[k])
  {
    if NeverServesOlder(run) {
      forall k | 0 <= k < |steps|
        ensures AgreeingReload(steps[k])
      {
        DisagreeingReloadServesOlder(env, run, steps, k);
      }
    }
    if forall k :: 0 <= k < |steps| ==> AgreeingReload(steps[k]) {
      forall i: nat, j: nat, a: nat, b: nat, m: nat, n: nat |
        i <= j && ServedAt(run, i, a, m) && ServedAt(run, j, b, n)
        ensures NotOlder(run[i].server.value.served[a].info, m, run[j].server.value.served[b].info, n)
      {
        ServedNeverRollsBack(env, run, steps, i, j, a, b, m, n);
      }
    }
  }

  /** How far one acknowledged commit moves a mark of the record it started from. */
  lemma AckedJump(env: Env, s: System, step: Step, t: System, k: ScopeId)
    requires Next(env, s, step, t) && AgreeingReload(step)
    ensures step.InstallStep? && step.ok && k in Opened(env, s.disk).value.marks ==>
              && k in t.acked.marks
              && t.acked.marks[k] <= Opened(env, s.disk).value.marks[k] + MAX_EPOCH_JUMP
    ensures step.ReloadStep? && step.ok && k in s.server.value.mem.marks ==>
              && k in t.acked.marks
              && t.acked.marks[k] <= s.server.value.mem.marks[k] + MAX_EPOCH_JUMP
  {
    if step.InstallStep? && step.ok {
      AdmitSpec(Opened(env, s.disk).value, step.b.info);
    } else if step.ReloadStep? && step.ok && k in s.server.value.mem.marks {
      AgreeingJump(s.server.value.mem.(active := map[]), Infos(step.bundles), k);
    }
  }

  // ---- what recorded manifests follow ------------------------------------------------

  /** The record a transaction starts from. */
  ghost function StartedFrom(env: Env, s: System, step: Step): Persisted
    requires step.ReloadStep? ==> s.server.Some?
    requires step.InstallStep? ==> Opened(env, s.disk).Some?
  {
    if step.ReloadStep? then s.server.value.mem
    else if step.InstallStep? then Opened(env, s.disk).value
    else s.acked
  }

  function LoadedInfos(step: Step): seq<Info> {
    match step
    case ReloadStep(bundles, _, _) => Infos(bundles)
    case InstallStep(_, b, _, _) => [b.info]
    case _ => []
  }

  lemma {:induction false} RunIsPaired(env: Env, run: seq<System>, steps: seq<Step>, i: nat)
    requires IsRun(env, run, steps) && i < |run|
    ensures run[i].server.Some? ==> Paired(run[i].server.value.mem)
  {
    if i > 0 {
      RunIsPaired(env, run, steps, i - 1);
      assert StepAt(env, run, steps, i - 1);
      var step := steps[i - 1];
      if step.ReloadStep? && step.ok {
        ReloadExtends(env, run[i - 1].server.value.mem, step.bundles, step.cand);
      }
    }
  }

  /**
   In every run: what a commit newly records for a key is a bundle that, if it names
   a predecessor, names the manifest recorded when the transaction started or one
   loaded for that key earlier in the same transaction. That record is at or above
   the last acknowledged one.
   */
  lemma RecordedNamesPredecessor(env: Env, run: seq<System>, steps: seq<Step>, i: nat, k: ScopeId)
    requires IsRun(env, run, steps) && i < |steps| && Commits(steps[i]) && k in run[i + 1].acked.marks
    ensures steps[i].ReloadStep? ==> run[i].server.Some?
    ensures steps[i].InstallStep? ==> Opened(env, run[i].disk).Some?
    ensures var p, q, infos := StartedFrom(env, run[i], steps[i]), run[i + 1].acked, LoadedInfos(steps[i]);
            && Extends(run[i].acked, p)
            && (|| (k in p.marks && q.marks[k] == p.marks[k] && DigestOf(q, k) == DigestOf(p, k))
                || exists b :: 0 <= b < |infos| && FollowsRecorded(p, infos, q, k, b))
  {
    assert StepAt(env, run, steps, i);
    RunKeepsMarks(env, run, steps, i);
    RunIsPaired(env, run, steps, i);
    var step, s := steps[i], run[i];
    match step
    case InstallStep(_, b, _, _) =>
      OpenedMayHold(env, s.disk);
      InstallLinks(Opened(env, s.disk).value, b.info, run[i + 1].acked, k);
      assert LoadedInfos(step) == [b.info];
    case ReloadStep(bundles, _, _) =>
      LinksIgnoreActive(s.server.value.mem, Infos(bundles), run[i + 1].acked, k);
      assert LoadedInfos(step) == Infos(bundles);
  }

  lemma InstallLinks(p: Persisted, i: Info, q: Persisted, k: ScopeId)
    requires Paired(p) && Admit(p, i).Some? && k in q.marks
    requires q == Admit(p, i).value.(active := q.active)
    ensures || (k in p.marks && q.marks[k] == p.marks[k] && DigestOf(q, k) == DigestOf(p, k))
            || exists b :: 0 <= b < 1 && FollowsRecorded(p, [i], q, k, b)
  {
    assert [i][..0] == [] && AdmitAll(p, []) == Some(p) && AdmitAll(p, [i]) == Admit(p, i);
    ReloadLinks(p, [i], k);
    if b :| 0 <= b < 1 && FollowsRecorded(p, [i], Admit(p, i).value, k, b) {
      assert FollowsRecorded(p, [i], q, k, b);
    }
  }

  lemma LinksIgnoreActive(mem: Persisted, infos: seq<Info>, q: Persisted, k: ScopeId)
    requires Paired(mem) && AdmitAll(mem.(active := map[]), infos).Some? && k in q.marks
    requires q == AdmitAll(mem.(active := map[]), infos).value.(active := q.active)
    ensures || (k in mem.marks && q.marks[k] == mem.marks[k] && DigestOf(q, k) == DigestOf(mem, k))
            || exists b :: 0 <= b < |infos| && FollowsRecorded(mem, infos, q, k, b)
  {
    var base := mem.(active := map[]);
    var r := AdmitAll(base, infos).value;
    ReloadLinks(base, infos, k);
    if b :| 0 <= b < |infos| && FollowsRecorded(base, infos, r, k, b) {
      assert FollowsRecorded(mem, infos, q, k, b);
    }
  }

  // ---- how far marks move over a run ------------------------------------------

  ghost predicate UpTo(p: Persisted, k: ScopeId, c: int) {
    k in p.marks && p.marks[k] <= c
  }

  /** No record in play puts this key above `c`. */
  ghost predicate Bounded(s: System, k: ScopeId, c: int) {
    && UpTo(s.acked, k, c)
    && (forall p :: MayHold(s.disk, p) ==> UpTo(p, k, c))
    && (s.server.Some? ==> UpTo(s.server.value.mem, k, c))
  }

  ghost predicate Commits(step: Step) {
    (step.ReloadStep? || step.InstallStep?) && step.ok
  }

  /** An installation or reload that wrote the descriptor, acknowledged or not. */
  ghost predicate Reaches(env: Env, s: System, step: Step, t: System) {
    (step.ReloadStep? || step.InstallStep?) && !Staging(env, s.disk, t.disk)
  }

  ghost predicate AgreeingBundles(step: Step) {
    step.ReloadStep? ==> AgreeOnKeys(Infos(step.bundles))
  }

  /** The candidate of a transaction is at most one jump above where it started. */
  lemma CandidateJump(env: Env, s: System, step: Step, t: System, k: ScopeId, c: int)
    requires MarksHold(s) && Next(env, s, step, t) && AgreeingBundles(step) && Bounded(s, k, c)
    requires Reaches(env, s, step, t) || Commits(step)
    ensures UpTo(step.cand, k, c + MAX_EPOCH_JUMP)
  {
    if step.InstallStep? {
      OpenedMayHold(env, s.disk);
      AdmitSpec(Opened(env, s.disk).value, step.b.info);
    } else {
      AgreeingJump(s.server.value.mem.(active := map[]), Infos(step.bundles), k);
    }
  }

  lemma NextJump(env: Env, s: System, step: Step, t: System, k: ScopeId, c: int)
    requires MarksHold(s) && Next(env, s, step, t) && AgreeingBundles(step) && Bounded(s, k, c)
    ensures Bounded(t, k, if Reaches(env, s, step, t) then c + MAX_EPOCH_JUMP else c)
  {
    if Reaches(env, s, step, t) {
      CandidateJump(env, s, step, t, k, c);
      forall p | MayHold(t.disk, p)
        ensures UpTo(p, k, c + MAX_EPOCH_JUMP)
      {
        assert MayHold(s.disk, p) || p == step.cand;
      }
    } else if Commits(step) {
      assert MayHold(t.disk, step.cand) && MayHold(s.disk, step.cand);
    } else if step.OpenStep? {
      OpenedMayHold(env, s.disk);
    } else if step.CrashStep? {
      assert SurvivesAs(Alts(s.disk, Descriptor), Get(t.disk, Descriptor));
      assert Alts(t.disk, Descriptor) == {Get(t.disk, Descriptor)};
    }
  }

  /** How many transactions wrote the descriptor between two moments of a run. */
  ghost function DescriptorsWritten(env: Env, run: seq<System>, steps: seq<Step>, i: nat, j: nat): nat
    requires i <= j <= |steps| && |run| == |steps| + 1
    decreases j
  {
    if i == j then 0
    else DescriptorsWritten(env, run, steps, i, j - 1) + if Reaches(env, run[j - 1], steps[j - 1], run[j]) then 1 else 0
  }

  lemma {:induction false} RunJump(
    env: Env, run: seq<System>, steps: seq<Step>, i: nat, j: nat, k: ScopeId, c: int)
    requires IsRun(env, run, steps) && i <= j < |run| && Bounded(run[i], k, c)
    requires forall m :: i <= m < j ==> AgreeingBundles(steps[m])
    ensures Bounded(run[j], k, c + MAX_EPOCH_JUMP * DescriptorsWritten(env, run, steps, i, j))
    decreases j
  {
    if i < j {
      RunJump(env, run, steps, i, j - 1, k, c);
      RunKeepsMarks(env, run, steps, j - 1);
      assert StepAt(env, run, steps, j - 1);
      var before := DescriptorsWritten(env, run, steps, i, j - 1);
      NextJump(env, run[j - 1], steps[j - 1], run[j], k, c + MAX_EPOCH_JUMP * before);
    }
  }

  /**
   After an acknowledged commit, a later acknowledged mark is at most one jump
   higher for each descriptor written in between, the last one included: a commit
   whose outcome stayed unknown is the starting point of the next one.
   */
  lemma AckedJumpOverRun(env: Env, run: seq<System>, steps: seq<Step>, i: nat, j: nat, k: ScopeId)
    requires IsRun(env, run, steps) && i < j < |run| && Commits(steps[i]) && k in run[i + 1].acked.marks
    requires forall m :: i < m < j ==> AgreeingBundles(steps[m])
    ensures k in run[j].acked.marks
    ensures run[j].acked.marks[k] <=
            run[i + 1].acked.marks[k] + MAX_EPOCH_JUMP * DescriptorsWritten(env, run, steps, i + 1, j)
  {
    assert StepAt(env, run, steps, i);
    RunJump(env, run, steps, i + 1, j, k, run[i + 1].acked.marks[k]);
  }
}
