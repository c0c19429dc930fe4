/**
 Offline authenticated installation of one label's bundle: authenticate, check,
 stage, commit, then publish (crates/hoike-core/src/install.rs).
 */
module Install {
  import opened Wrappers
  import opened Bytes
  import opened Marks
  import opened Disk
  import opened Commit
  import opened StateStore

  datatype Installation = Rejected | Indeterminate | Installed(publicationWarning: bool)

  // ---- composing the phases of a transaction -------------------------------------

  lemma StagingTransitive(env: Env, a: DiskState, b: DiskState, c: DiskState)
    requires Staging(env, a, b) && Staging(env, b, c)
    ensures Staging(env, a, c)
  {
  }

  /** Writing one canonical image is staging. */
  lemma SnapshotStages(env: Env, d: DiskState, e: DiskState, x: Digest, image: Bytes)
    requires Consistent(d) && Storing(d, e, x, image)
    requires IsImage(env, x, Some(File(Raw(image), true)))
    ensures Staging(env, d, e)
  {
  }

  /** Copies of one image under its digest are durable for every record that image fits. */
  lemma ImagesAreDurable(env: Env, d: DiskState, p: Persisted, x: Digest, w: Option<File>)
    requires CollisionFree(env) && IsImage(env, x, w) && SnapshotFits(env, p, x, w)
    requires forall v :: v in Alts(d, Snapshot(x)) ==> IsImage(env, x, v)
    ensures DurableBlob(env, d, p, x)
  {
  }

  /** A blob that a transaction needs is durable once staged, whether it was found durable or written. */
  lemma StagedImageIsDurable(env: Env, d: DiskState, e: DiskState, p: Persisted, x: Digest, image: Bytes)
    requires CollisionFree(env) && Consistent(d) && Snapshotted(d, e, x, image)
    requires IsImage(env, x, Some(File(Raw(image), true))) && SnapshotFits(env, p, x, Some(File(Raw(image), true)))
    requires Found(env, d, x) ==> forall v :: v in Alts(d, Snapshot(x)) ==> IsImage(env, x, v)
    ensures DurableBlob(env, e, p, x)
  {
    assert Get(d, Snapshot(x)) in Alts(d, Snapshot(x));
    ImagesAreDurable(env, e, p, x, Some(File(Raw(image), true)));
  }

  /** A durable snapshot stays durable for a record with the same or higher marks. */
  lemma HigherMarksKeepSnapshots(env: Env, d: DiskState, p: Persisted, q: Persisted, x: Digest)
    requires DurableBlob(env, d, p, x) && Extends(p, q)
    ensures DurableBlob(env, d, q, x)
  {
    forall v | v in Alts(d, Snapshot(x))
      ensures v.Some? && v.value.synced && SnapshotFits(env, q, x, v) && Canonical(env, v.value.body.bytes)
    {
      assert SnapshotFits(env, p, x, v);
    }
  }

  /** Every state of `commit`, seen from the start of the transaction. */
  lemma CommitInFlight(env: Env, d: DiskState, staged: DiskState, cand: Persisted, e: DiskState)
    requires Staging(env, d, staged)
    requires ReusesDurable(env, d, cand) ==> ReadyToCommit(env, staged, cand)
    requires Committing(staged, e, cand)
    ensures InFlight(env, d, cand, e)
  {
    if Replacing(staged, e, Descriptor, StateJson(cand)) {
      UncertainCommitIsRenaming(env, d, staged, cand, e);
    } else {
      var c :| Replaced(staged, c, Descriptor, StateJson(cand), Done) && Collecting(c, e, cand);
      CollectedIsCommitted(env, d, staged, cand, c, e);
    }
  }

  lemma CollectedIsCommitted(env: Env, d: DiskState, staged: DiskState, cand: Persisted, c: DiskState, e: DiskState)
    requires ReusesDurable(env, d, cand) ==> ReadyToCommit(env, staged, cand)
    requires Replaced(staged, c, Descriptor, StateJson(cand), Done) && Collecting(c, e, cand)
    ensures Committed(env, d, cand, e)
  {
    if ReusesDurable(env, d, cand) {
      forall l | l in cand.active
        ensures DurableSnapshot(env, e, cand, cand.active[l])
      {
        var x := cand.active[l];
        assert x in cand.active.Values;
        assert DurableBlob(env, staged, cand, x);
        assert Alts(e, Snapshot(x)) == Alts(c, Snapshot(x)) <= Alts(staged, Snapshot(x));
      }
    }
  }

  /** Publishing the configured path touches neither the descriptor nor a snapshot. */
  lemma PublishingKeepsCommit(env: Env, d: DiskState, cand: Persisted, c: DiskState, e: DiskState, p: Path, body: Body)
    requires Committed(env, d, cand, c) && p.Published? && Replacing(c, e, p, body)
    ensures Committed(env, d, cand, e)
  {
    assert Get(e, Descriptor) in Alts(e, Descriptor);
    if ReusesDurable(env, d, cand) {
      forall l | l in cand.active
        ensures DurableSnapshot(env, e, cand, cand.active[l])
      {
        assert DurableSnapshot(env, c, cand, cand.active[l]);
        assert Alts(e, Snapshot(cand.active[l])) <= Alts(c, Snapshot(cand.active[l]));
      }
    }
  }

  lemma FailedCommitIsStaging(env: Env, d: DiskState, staged: DiskState, cand: Persisted, e: DiskState)
    requires Staging(env, d, staged) && Replaced(staged, e, Descriptor, StateJson(cand), Failed)
    ensures Staging(env, d, e)
  {
  }

  lemma UncertainCommitIsRenaming(env: Env, d: DiskState, staged: DiskState, cand: Persisted, e: DiskState)
    requires Staging(env, d, staged) && (ReusesDurable(env, d, cand) ==> ReadyToCommit(env, staged, cand))
    requires Replacing(staged, e, Descriptor, StateJson(cand))
    ensures Renaming(env, d, cand, e)
  {
    RenamingAddsNothing(env, d, staged, cand, e);
    if ReusesDurable(env, d, cand) {
      RenamingKeepsReady(env, staged, cand, e);
    }
  }

  lemma RenamingAddsNothing(env: Env, d: DiskState, staged: DiskState, cand: Persisted, e: DiskState)
    requires OnlyImagesAdded(env, d, staged) && Replacing(staged, e, Descriptor, StateJson(cand))
    ensures OnlyImagesAdded(env, d, e)
  {
    forall x, v | v in Alts(e, Snapshot(x))
      ensures v in Alts(d, Snapshot(x)) || IsImage(env, x, v)
    {
      assert v in Alts(staged, Snapshot(x));
    }
  }

  lemma RenamingKeepsReady(env: Env, staged: DiskState, cand: Persisted, e: DiskState)
    requires ReadyToCommit(env, staged, cand) && Replacing(staged, e, Descriptor, StateJson(cand))
    ensures ReadyToCommit(env, e, cand)
  {
    forall l | l in cand.active
      ensures DurableBlob(env, e, cand, cand.active[l])
    {
      assert DurableBlob(env, staged, cand, cand.active[l]);
      assert Alts(e, Snapshot(cand.active[l])) == Alts(staged, Snapshot(cand.active[l]));
    }
  }

  /** The values that may survive of the blobs this record names are the same in both states. */
  ghost predicate KeepsNamed(d: DiskState, e: DiskState, p: Persisted) {
    forall l :: l in p.active ==> Alts(e, Snapshot(p.active[l])) == Alts(d, Snapshot(p.active[l]))
  }

  lemma CommitDone(env: Env, d: DiskState, staged: DiskState, cand: Persisted, e: DiskState)
    requires ReusesDurable(env, d, cand) ==> ReadyToCommit(env, staged, cand)
    requires exists c :: Replaced(staged, c, Descriptor, StateJson(cand), Done) && Collecting(c, e, cand)
    ensures Committed(env, d, cand, e) && KeepsNamed(staged, e, cand)
    ensures Get(staged, BlobDir).Some? ==> DirDurable(e)
  {
    var c :| Replaced(staged, c, Descriptor, StateJson(cand), Done) && Collecting(c, e, cand);
    CollectedIsCommitted(env, d, staged, cand, c, e);
    forall l | l in cand.active
      ensures Alts(e, Snapshot(cand.active[l])) == Alts(staged, Snapshot(cand.active[l]))
    {
      assert cand.active[l] in cand.active.Values;
    }
  }

  /** `commit`, with every intermediate state placed in the transaction that began at `d`. */
  method CommitStaged(env: Env, store: Store, candidate: Store, ghost d: DiskState) returns (w: Written)
    requires store.drive.Valid() && candidate.drive == store.drive && candidate != store
    requires Staging(env, d, store.drive.state)
    requires ReusesDurable(env, d, candidate.state) ==> ReadyToCommit(env, store.drive.state, candidate.state)
    modifies store`state, store.drive
    ensures store.drive.Valid() && old(store.drive.trace) <= store.drive.trace
    ensures forall i :: |old(store.drive.trace)| <= i < |store.drive.trace| ==>
              InFlight(env, d, candidate.state, store.drive.trace[i])
    ensures store.state == if w.Done? then candidate.state else old(store.state)
    ensures w.Done? ==>
              && Committed(env, d, candidate.state, store.drive.state)
              && KeepsNamed(old(store.drive.state), store.drive.state, candidate.state)
              && (Get(old(store.drive.state), BlobDir).Some? ==> DirDurable(store.drive.state))
    ensures w.Failed? ==> Staging(env, d, store.drive.state)
    ensures w.Uncertain? ==>
              && Renaming(env, d, candidate.state, store.drive.state)
              && Replaced(old(store.drive.state), store.drive.state, Descriptor, StateJson(candidate.state), Uncertain)
    ensures old(store.drive.failures) <= store.drive.failures
    ensures store.drive.failures == old(store.drive.failures) ==>
              w.Done? && OnlyNamed(store.drive.state, candidate.state)
  {
    ghost var staged, cand := store.drive.state, candidate.state;
    w := store.Commit(candidate);
    forall e | Committing(staged, e, cand)
      ensures InFlight(env, d, cand, e)
    {
      CommitInFlight(env, d, staged, cand, e);
    }
    if w.Done? {
      CommitDone(env, d, staged, cand, store.drive.state);
    } else if w.Failed? {
      FailedCommitIsStaging(env, d, staged, cand, store.drive.state);
    } else {
      UncertainCommitIsRenaming(env, d, staged, cand, store.drive.state);
    }
  }

  // ---- the installation --------------------------------------------------------

  /** Marks advanced by the bundle; only this label's reference is replaced. */
  function InstallCandidate(env: Env, p: Persisted, name: Label, b: Loaded): Persisted {
    var q := AdvanceAll(p, b.info);
    q.(active := p.active[name := env.sha(b.image)])
  }

  /** The other labels' blobs, found by `open` and durable, stay so under the higher marks. */
  lemma OtherLabelIsDurable(env: Env, d: DiskState, e: DiskState, p: Persisted, q: Persisted, x: Digest)
    requires CollisionFree(env) && Consistent(d) && OnlyImagesAdded(env, d, e) && Extends(p, q)
    requires SnapshotFits(env, p, x, Get(d, Snapshot(x)))
    requires forall v :: v in Alts(d, Snapshot(x)) ==> IsImage(env, x, v)
    ensures DurableBlob(env, e, q, x)
  {
    assert Get(d, Snapshot(x)) in Alts(d, Snapshot(x));
    ImagesAreDurable(env, e, p, x, Get(d, Snapshot(x)));
    HigherMarksKeepSnapshots(env, e, p, q, x);
  }

  lemma InstallIsSound(env: Env, d: DiskState, p: Persisted, name: Label, b: Loaded, staged: DiskState)
    requires CollisionFree(env) && Consistent(d) && Opened(env, d) == Some(p)
    requires Admit(p, b.info).Some? && env.load(b.image) == Some(b) && env.inPlay(b.image)
    requires Snapshotted(d, staged, env.sha(b.image), b.image)
    requires ReusesDurable(env, d, InstallCandidate(env, p, name, b))
    ensures ReadyToCommit(env, staged, InstallCandidate(env, p, name, b))
  {
    var cand := InstallCandidate(env, p, name, b);
    AdmitSpec(p, b.info);
    SnapshotStages(env, d, staged, env.sha(b.image), b.image);
    assert Covers(cand, b.info);
    forall l | l in cand.active
      ensures DurableBlob(env, staged, cand, cand.active[l])
    {
      StagedLabelIsDurable(env, d, p, name, b, cand, staged, l);
    }
  }

  lemma StagedLabelIsDurable(
    env: Env, d: DiskState, p: Persisted, name: Label, b: Loaded, cand: Persisted, staged: DiskState, l: Label)
    requires CollisionFree(env) && Consistent(d) && Acceptable(env, d, p) && ReusesDurable(env, d, cand)
    requires env.load(b.image) == Some(b) && env.inPlay(b.image) && Covers(cand, b.info)
    requires Extends(p, cand) && cand.active == p.active[name := env.sha(b.image)] && l in cand.active
    requires Snapshotted(d, staged, env.sha(b.image), b.image) && OnlyImagesAdded(env, d, staged)
    ensures DurableBlob(env, staged, cand, cand.active[l])
  {
    if l == name {
      StagedImageIsDurable(env, d, staged, cand, env.sha(b.image), b.image);
    } else {
      assert SnapshotFits(env, p, p.active[l], Get(d, Snapshot(p.active[l])));
      OtherLabelIsDurable(env, d, staged, p, cand, p.active[l]);
    }
  }

  /** The record an installation of these bytes under this label is about to commit. */
  ghost predicate Chosen(env: Env, d: DiskState, name: Label, bytes: Bytes, cand: Persisted) {
    && env.load(bytes).Some? && Opened(env, d).Some?
    && Admit(Opened(env, d).value, env.load(bytes).value.info).Some?
    && cand == InstallCandidate(env, Opened(env, d).value, name, env.load(bytes).value)
  }

  /** The blob was found or written, and nothing after that touched a blob the record names. */
  ghost predicate StoredBlobs(d: DiskState, x: Digest, image: Bytes, cand: Persisted, e: DiskState) {
    DirDurable(e) && exists staged :: Snapshotted(d, staged, x, image) && KeepsNamed(staged, e, cand)
  }

  /** The blob was stored and the descriptor renamed over, but the directory sync after that failed. */
  ghost predicate RenamedOver(d: DiskState, x: Digest, image: Bytes, cand: Persisted, e: DiskState) {
    exists staged :: Snapshotted(d, staged, x, image) && Replaced(staged, e, Descriptor, StateJson(cand), Uncertain)
  }

  /** The blob is written by this installation, or every value that may survive of it is the synced image. */
  ghost predicate WritesOrDurable(d: DiskState, x: Digest, image: Bytes) {
    !Reused(d, x, image) || forall v :: v in Alts(d, Snapshot(x)) ==> v == Some(File(Raw(image), true))
  }

  ghost predicate OnlyThisImage(env: Env, image: Bytes, v: Option<File>) {
    v.Some? && v.value.body.Raw? && env.sha(v.value.body.bytes) == env.sha(image) ==> v.value.body.bytes == image
  }

  lemma InstalledIsSound(env: Env, d: DiskState, p: Persisted, name: Label, b: Loaded, cand: Persisted, e: DiskState)
    requires DiskInv(env, d) && Opened(env, d) == Some(p)
    requires env.load(b.image) == Some(b) && env.inPlay(b.image) && Admit(p, b.info).Some?
    requires cand == InstallCandidate(env, p, name, b)
    requires StoredBlobs(d, env.sha(b.image), b.image, cand, e) && WritesOrDurable(d, env.sha(b.image), b.image)
    ensures Sound(env, e, cand)
  {
    var x := env.sha(b.image);
    var staged :| Snapshotted(d, staged, x, b.image) && KeepsNamed(staged, e, cand);
    AdmitSpec(p, b.info);
    assert Get(d, Descriptor) in Alts(d, Descriptor);
    assert Covers(cand, b.info);
    forall l | l in cand.active
      ensures DurableSnapshot(env, e, cand, cand.active[l])
    {
      InstalledLabelIsDurable(env, d, staged, p, name, b, cand, e, l);
    }
  }

  lemma InstalledLabelIsDurable(
    env: Env, d: DiskState, staged: DiskState, p: Persisted, name: Label, b: Loaded, cand: Persisted, e: DiskState,
    l: Label)
    requires Sound(env, d, p) && env.load(b.image) == Some(b) && env.inPlay(b.image)
    requires Extends(p, cand) && Covers(cand, b.info) && cand.active == p.active[name := env.sha(b.image)]
    requires Snapshotted(d, staged, env.sha(b.image), b.image) && KeepsNamed(staged, e, cand)
    requires WritesOrDurable(d, env.sha(b.image), b.image) && l in cand.active
    ensures DurableBlob(env, e, cand, cand.active[l])
  {
    var x := cand.active[l];
    assert Alts(e, Snapshot(x)) == Alts(staged, Snapshot(x));
    if x != env.sha(b.image) {
      assert DurableSnapshot(env, d, p, x);
      FewerAltsAreDurable(env, d, e, p, cand, x);
    }
  }

  lemma FewerAltsAreDurable(env: Env, d: DiskState, e: DiskState, p: Persisted, q: Persisted, x: Digest)
    requires DurableBlob(env, d, p, x) && Extends(p, q) && Alts(e, Snapshot(x)) <= Alts(d, Snapshot(x))
    ensures DurableBlob(env, e, q, x)
  {
    HigherMarksKeepSnapshots(env, d, p, q, x);
  }

  /** A blob reused without being durable is not durable after the commit either. */
  lemma UnsettledStays(env: Env, d: DiskState, b: Loaded, cand: Persisted, name: Label, e: DiskState)
    requires env.load(b.image) == Some(b) && env.inPlay(b.image)
    requires name in cand.active && cand.active[name] == env.sha(b.image)
    requires StoredBlobs(d, env.sha(b.image), b.image, cand, e) && !WritesOrDurable(d, env.sha(b.image), b.image)
    requires forall v :: v in Alts(d, Snapshot(env.sha(b.image))) ==> OnlyThisImage(env, b.image, v)
    ensures Alts(e, Snapshot(env.sha(b.image))) == Alts(d, Snapshot(env.sha(b.image)))
    ensures !DurableSnapshot(env, e, cand, env.sha(b.image))
  {
    var x := env.sha(b.image);
    var staged :| Snapshotted(d, staged, x, b.image) && KeepsNamed(staged, e, cand);
    var v :| v in Alts(d, Snapshot(x)) && v != Some(File(Raw(b.image), true));
  }

  /**
   When a successful installation is safe: every crash after it opens to the new
   record if and only if the blob was not found on the disk the installation
   started from, or was found durable there.
   */
  lemma InstalledSurvivesCrash(
    env: Env, d: DiskState, p: Persisted, name: Label, b: Loaded, cand: Persisted, e: DiskState)
    requires DiskInv(env, d) && Opened(env, d) == Some(p)
    requires env.load(b.image) == Some(b) && env.inPlay(b.image) && Admit(p, b.info).Some?
    requires cand == InstallCandidate(env, p, name, b)
    requires Consistent(e) && Alts(e, Descriptor) == {Described(cand)}
    requires StoredBlobs(d, env.sha(b.image), b.image, cand, e)
    // no other contents stored under this name have its digest
    requires forall v :: v in Alts(d, Snapshot(env.sha(b.image))) ==> OnlyThisImage(env, b.image, v)
    ensures (forall f :: CrashOf(e, f) ==> Opened(env, f) == Some(cand))
            <==> WritesOrDurable(d, env.sha(b.image), b.image)
  {
    var x := env.sha(b.image);
    if WritesOrDurable(d, x, b.image) {
      InstalledIsSound(env, d, p, name, b, cand, e);
      forall f | CrashOf(e, f)
        ensures Opened(env, f) == Some(cand)
      {
        CrashOpens(env, e, f);
      }
    } else {
      assert cand.active[name] == x;
      UnsettledStays(env, d, b, cand, name, e);
      var f := LosesSnapshot(env, e, cand, name);
    }
  }

  /** What such an interruption leaves: nothing removed, and the blobs as they were staged. */
  lemma RenamedLeaves(env: Env, d: DiskState, b: Loaded, cand: Persisted, e: DiskState)
    requires Consistent(d) && env.load(b.image) == Some(b) && env.inPlay(b.image)
    requires RenamedOver(d, env.sha(b.image), b.image, cand, e)
    ensures Consistent(e) && Alts(e, Descriptor) <= Alts(d, Descriptor) + {Described(cand)} && MayHold(e, cand)
    ensures OnlyImagesAdded(env, d, e) && Alts(d, BlobDir) <= Alts(e, BlobDir)
    ensures DirDurable(d) ==> StoredBlobs(d, env.sha(b.image), b.image, cand, e)
  {
    var x := env.sha(b.image);
    var staged :| Snapshotted(d, staged, x, b.image) && Replaced(staged, e, Descriptor, StateJson(cand), Uncertain);
    SnapshotStages(env, d, staged, x, b.image);
    RenamingAddsNothing(env, d, staged, cand, e);
    assert KeepsNamed(staged, e, cand);
  }

  lemma RenamedIsSound(env: Env, d: DiskState, p: Persisted, name: Label, b: Loaded, cand: Persisted, e: DiskState)
    requires CollisionFree(env) && DiskInv(env, d) && Opened(env, d) == Some(p)
    requires env.load(b.image) == Some(b) && env.inPlay(b.image) && Admit(p, b.info).Some?
    requires cand == InstallCandidate(env, p, name, b)
    requires RenamedOver(d, env.sha(b.image), b.image, cand, e)
    requires DirDurable(d) && WritesOrDurable(d, env.sha(b.image), b.image)
    ensures DiskInv(env, e)
  {
    RenamedLeaves(env, d, b, cand, e);
    InstalledIsSound(env, d, p, name, b, cand, e);
    forall v | v in Alts(e, Descriptor)
      ensures v.Some? && v.value.synced && v.value.body.StateJson? && Sound(env, e, v.value.body.state)
    {
      if v in Alts(d, Descriptor) {
        SoundStays(env, d, e, v.value.body.state);
      }
    }
  }

  /**
   When an installation interrupted between the descriptor's rename and the sync of
   its directory is safe: every crash there leaves a disk that opens if and only if,
   before the call, the directory of the snapshots was durable and the blob was not
   found or was found durable. The directory never is on a first installation, which
   creates it.
   */
  lemma RenamedSurvivesCrash(
    env: Env, d: DiskState, p: Persisted, name: Label, b: Loaded, cand: Persisted, e: DiskState)
    requires CollisionFree(env) && DiskInv(env, d) && Opened(env, d) == Some(p)
    requires env.load(b.image) == Some(b) && env.inPlay(b.image) && Admit(p, b.info).Some?
    requires cand == InstallCandidate(env, p, name, b)
    requires RenamedOver(d, env.sha(b.image), b.image, cand, e)
    // no other contents stored under this name have its digest
    requires forall v :: v in Alts(d, Snapshot(env.sha(b.image))) ==> OnlyThisImage(env, b.image, v)
    ensures (forall f :: CrashOf(e, f) ==> Opened(env, f).Some?)
            <==> DirDurable(d) && WritesOrDurable(d, env.sha(b.image), b.image)
    ensures Get(d, BlobDir).None? ==> !DirDurable(d)
  {
    RenamedLeaves(env, d, b, cand, e);
    assert Get(d, BlobDir) in Alts(d, BlobDir);
    if DirDurable(d) && WritesOrDurable(d, env.sha(b.image), b.image) {
      RenamedIsSound(env, d, p, name, b, cand, e);
      forall f | CrashOf(e, f)
        ensures Opened(env, f).Some?
      {
        CrashOpens(env, e, f);
      }
    } else if DirDurable(d) {
      assert cand.active[name] == env.sha(b.image);
      UnsettledStays(env, d, b, cand, name, e);
      var f := LosesSnapshot(env, e, cand, name);
    } else {
      var f := LosesDirectory(env, e, cand, name);
    }
  }

  /** A single-label installation keeps every other label's reference, and its snapshot with it. */
  lemma OtherLabelsSurvive(env: Env, d: DiskState, name: Label, bytes: Bytes, cand: Persisted, mid: DiskState,
                           e: DiskState, l: Label)
    requires CollisionFree(env) && DiskInv(env, d) && ReusesDurable(env, d, cand)
    requires Chosen(env, d, name, bytes, cand) && Committed(env, d, cand, mid) && CrashOf(mid, e)
    requires l in Opened(env, d).value.active && l != name
    ensures Opened(env, e).Some? && l in Opened(env, e).value.active
    ensures Opened(env, e).value.active[l] == Opened(env, d).value.active[l]
    ensures SnapshotFits(env, cand, cand.active[l], Get(e, Snapshot(cand.active[l])))
  {
    CrashIsAtomic(env, d, cand, mid, e);
  }

  /** Open strictly, then check the bundle against what was found. */
  method OpenChecked(env: Env, drive: Drive, i: Info) returns (r: Option<Store>)
    ensures r.Some? <==> Opened(env, drive.state).Some? && Admit(Opened(env, drive.state).value, i).Some?
    ensures r.Some? ==> fresh(r.value) && r.value.drive == drive && Opened(env, drive.state) == Some(r.value.state)
  {
    r := Store.Open(env, drive);
    if r.Some? {
      var rollback := r.value.CheckRollback(i);
      var continuity := r.value.CheckContinuity(i);
      if rollback.Err? || continuity.Err? {
        r := None;
      }
    }
  }

  /** A known destination, an authenticated bundle, a store that opens, and no rollback, jump or fork. */
  predicate Installable(env: Env, d: DiskState, dest: Option<Path>, bytes: Bytes, admit: Bytes -> bool) {
    && dest.Some? && env.load(bytes).Some? && admit(bytes)
    && Opened(env, d).Some? && Admit(Opened(env, d).value, env.load(bytes).value.info).Some?
  }

  /** The writer lock and the destination lookup are the caller's; `dest` is `None` when it fails. */
  method InstallBundle(env: Env, drive: Drive, name: Label, dest: Option<Path>, bytes: Bytes, admit: Bytes -> bool)
    returns (r: Installation, ghost cand: Persisted)
    requires CollisionFree(env) && Reparses(env)
    requires drive.Valid()
    requires dest.Some? ==> dest.value.Published?
    requires env.load(bytes).Some? ==> env.inPlay(env.load(bytes).value.image)
    modifies drive
    ensures drive.Valid() && old(drive.trace) <= drive.trace
    // a crash after any step
    ensures forall i :: |old(drive.trace)| <= i < |drive.trace| ==>
              InFlight(env, old(drive.state), cand, drive.trace[i])
    ensures r.Indeterminate? || r.Installed? ==> env.load(bytes).Some?
    // either nothing was touched or the candidate is the admissible one
    ensures Chosen(env, old(drive.state), name, bytes, cand)
            || (drive.trace == old(drive.trace) && drive.state == old(drive.state))
    // it succeeds unless there is a reason to refuse or a system call fails
    ensures old(drive.failures) <= drive.failures
    ensures !Installable(env, old(drive.state), dest, bytes, admit) ==>
              r.Rejected? && drive.state == old(drive.state) && drive.trace == old(drive.trace)
    ensures Installable(env, old(drive.state), dest, bytes, admit) && drive.failures == old(drive.failures) ==>
              r == Installed(false) && OnlyNamed(drive.state, cand)
    // the three outcomes
    ensures r.Rejected? ==> Staging(env, old(drive.state), drive.state)
    ensures r.Indeterminate? ==>
              && Renaming(env, old(drive.state), cand, drive.state)
              && RenamedOver(old(drive.state), env.sha(env.load(bytes).value.image), env.load(bytes).value.image, cand,
                             drive.state)
    ensures r.Installed? ==>
              && dest.Some? && env.load(bytes).Some? && admit(bytes) && Opened(env, old(drive.state)).Some?
              && var p, b := Opened(env, old(drive.state)).value, env.load(bytes).value;
                 && Admit(p, b.info).Some?
                 && cand == InstallCandidate(env, p, name, b)
                 && Committed(env, old(drive.state), cand, drive.state)
                 && StoredBlobs(old(drive.state), env.sha(b.image), b.image, cand, drive.state)
                 && (!r.publicationWarning ==> Get(drive.state, dest.value) == Some(File(Raw(bytes), true)))
  {
    cand := FRESH;
    assert Staging(env, drive.state, drive.state);
    if dest.None? || env.load(bytes).None? || !admit(bytes) {
      return Rejected, cand;
    }
    var b := env.load(bytes).value;
    var found := OpenChecked(env, drive, b.info);
    if found.None? {
      return Rejected, cand;
    }
    r, cand := InstallAdmitted(env, found.value, name, dest.value, b, bytes);
  }

  /** The rest of an installation, once the store is open and the bundle passed its checks. */
  method InstallAdmitted(env: Env, store: Store, name: Label, dest: Path, b: Loaded, bytes: Bytes)
    returns (r: Installation, ghost cand: Persisted)
    requires CollisionFree(env) && store.drive.Valid() && dest.Published?
    requires env.load(b.image) == Some(b) && env.inPlay(b.image)
    requires Opened(env, store.drive.state) == Some(store.state) && Admit(store.state, b.info).Some?
    modifies store`state, store.drive
    ensures store.drive.Valid() && old(store.drive.trace) <= store.drive.trace
    ensures forall i :: |old(store.drive.trace)| <= i < |store.drive.trace| ==>
              InFlight(env, old(store.drive.state), cand, store.drive.trace[i])
    ensures cand == InstallCandidate(env, old(store.state), name, b)
    ensures old(store.drive.failures) <= store.drive.failures
    ensures store.drive.failures == old(store.drive.failures) ==>
              r == Installed(false) && OnlyNamed(store.drive.state, cand)
    ensures r.Rejected? ==> Staging(env, old(store.drive.state), store.drive.state)
    ensures r.Indeterminate? ==>
              && Renaming(env, old(store.drive.state), cand, store.drive.state)
              && RenamedOver(old(store.drive.state), env.sha(b.image), b.image, cand, store.drive.state)
    ensures r.Installed? ==>
              && Committed(env, old(store.drive.state), cand, store.drive.state)
              && StoredBlobs(old(store.drive.state), env.sha(b.image), b.image, cand, store.drive.state)
              && (!r.publicationWarning ==> Get(store.drive.state, dest) == Some(File(Raw(bytes), true)))
  {
    ghost var d, p := store.drive.state, store.state;
    var candidate := store.Transaction();
    var _ := candidate.AdvanceFromBundle(b.info);
    cand := InstallCandidate(env, p, name, b);
    var w := StageCandidate(env, candidate, name, b, p);
    if !w.Done? {
      return Rejected, cand;
    }
    r := Finish(env, store, candidate, dest, bytes, d);
  }

  /** Stage the blob of the chosen candidate; what is left is ready to be committed. */
  method StageCandidate(env: Env, candidate: Store, name: Label, b: Loaded, ghost p: Persisted) returns (w: Written)
    requires CollisionFree(env) && candidate.drive.Valid() && env.load(b.image) == Some(b) && env.inPlay(b.image)
    requires Opened(env, candidate.drive.state) == Some(p) && Admit(p, b.info) == Some(candidate.state)
    modifies candidate`state, candidate.drive
    ensures candidate.drive.Valid() && old(candidate.drive.trace) <= candidate.drive.trace
    ensures forall i :: |old(candidate.drive.trace)| <= i < |candidate.drive.trace| ==>
              Staging(env, old(candidate.drive.state), candidate.drive.trace[i])
    ensures Staging(env, old(candidate.drive.state), candidate.drive.state)
    ensures w.Done? ==>
              && candidate.state == InstallCandidate(env, p, name, b)
              && Snapshotted(old(candidate.drive.state), candidate.drive.state, env.sha(b.image), b.image)
              && Get(candidate.drive.state, BlobDir).Some?
              && (ReusesDurable(env, old(candidate.drive.state), candidate.state) ==>
                    ReadyToCommit(env, candidate.drive.state, candidate.state))
    ensures old(candidate.drive.failures) <= candidate.drive.failures
    ensures w.Done? <==> candidate.drive.failures == old(candidate.drive.failures)
  {
    ghost var d := candidate.drive.state;
    AdmitSpec(p, b.info);
    w := StageSnapshot(env, candidate, name, b);
    if w.Done? && ReusesDurable(env, d, candidate.state) {
      InstallIsSound(env, d, p, name, b, candidate.drive.state);
    }
  }

  /** Commit what is staged, then publish; a commit of unknown outcome publishes nothing. */
  method Finish(env: Env, store: Store, candidate: Store, dest: Path, bytes: Bytes, ghost d: DiskState)
    returns (r: Installation)
    requires store.drive.Valid() && candidate.drive == store.drive && candidate != store && dest.Published?
    requires Staging(env, d, store.drive.state)
    requires ReusesDurable(env, d, candidate.state) ==> ReadyToCommit(env, store.drive.state, candidate.state)
    modifies store`state, store.drive
    ensures store.drive.Valid() && old(store.drive.trace) <= store.drive.trace
    ensures forall i :: |old(store.drive.trace)| <= i < |store.drive.trace| ==>
              InFlight(env, d, candidate.state, store.drive.trace[i])
    ensures r.Rejected? ==> Staging(env, d, store.drive.state)
    ensures r.Indeterminate? ==>
              && Renaming(env, d, candidate.state, store.drive.state)
              && Replaced(old(store.drive.state), store.drive.state, Descriptor, StateJson(candidate.state), Uncertain)
    ensures r.Installed? ==>
              && Committed(env, d, candidate.state, store.drive.state)
              && KeepsNamed(old(store.drive.state), store.drive.state, candidate.state)
              && (Get(old(store.drive.state), BlobDir).Some? ==> DirDurable(store.drive.state))
              && (!r.publicationWarning ==> Get(store.drive.state, dest) == Some(File(Raw(bytes), true)))
    ensures old(store.drive.failures) <= store.drive.failures
    ensures store.drive.failures == old(store.drive.failures) ==>
              r == Installed(false) && OnlyNamed(store.drive.state, candidate.state)
  {
    var w := CommitStaged(env, store, candidate, d);
    if w.Failed? {
      return Rejected;
    }
    if w.Uncertain? {
      return Indeterminate;
    }
    var warning := PublishPath(env, store.drive, dest, bytes, d, candidate.state);
    r := Installed(warning);
  }

  /** The snapshot of one staged label, with every intermediate state accounted for. */
  method StageSnapshot(env: Env, candidate: Store, name: Label, b: Loaded) returns (w: Written)
    requires candidate.drive.Valid() && env.load(b.image) == Some(b) && env.inPlay(b.image)
    modifies candidate`state, candidate.drive
    ensures candidate.drive.Valid() && old(candidate.drive.trace) <= candidate.drive.trace
    ensures forall i :: |old(candidate.drive.trace)| <= i < |candidate.drive.trace| ==>
              Staging(env, old(candidate.drive.state), candidate.drive.trace[i])
    ensures Staging(env, old(candidate.drive.state), candidate.drive.state)
    ensures w.Done? ==>
              && candidate.state
              == old(candidate.state).(active := old(candidate.state).active[name := env.sha(b.image)])
              && Snapshotted(old(candidate.drive.state), candidate.drive.state, env.sha(b.image), b.image)
    ensures !w.Done? ==> candidate.state == old(candidate.state)
    ensures old(candidate.drive.failures) <= candidate.drive.failures
    ensures w.Done? <==> candidate.drive.failures == old(candidate.drive.failures)
  {
    w := candidate.Snapshot(env, name, b);
    forall e | Storing(old(candidate.drive.state), e, env.sha(b.image), b.image)
      ensures Staging(env, old(candidate.drive.state), e)
    {
      SnapshotStages(env, old(candidate.drive.state), e, env.sha(b.image), b.image);
    }
  }

  /** The convenience path; its failure is a warning, the commit stands. */
  method PublishPath(env: Env, drive: Drive, dest: Path, bytes: Bytes, ghost d: DiskState, ghost cand: Persisted)
    returns (warning: bool)
    requires drive.Valid() && dest.Published? && Committed(env, d, cand, drive.state)
    modifies drive
    ensures drive.Valid() && old(drive.trace) <= drive.trace
    ensures forall i :: |old(drive.trace)| <= i < |drive.trace| ==> Committed(env, d, cand, drive.trace[i])
    ensures Committed(env, d, cand, drive.state) && KeepsNamed(old(drive.state), drive.state, cand)
    ensures DirDurable(old(drive.state)) ==> DirDurable(drive.state)
    ensures !warning ==> Get(drive.state, dest) == Some(File(Raw(bytes), true))
    ensures old(drive.failures) <= drive.failures && (warning <==> drive.failures > old(drive.failures))
    ensures forall x :: Get(drive.state, Snapshot(x)) == Get(old(drive.state), Snapshot(x))
  {
    var w := drive.WriteAtomic(dest, Raw(bytes));
    warning := !w.Done?;
    forall e | Replacing(old(drive.state), e, dest, Raw(bytes))
      ensures Committed(env, d, cand, e)
    {
      PublishingKeepsCommit(env, d, cand, old(drive.state), e, dest, Raw(bytes));
    }
  }

  // ---- a blob left unsettled ----------------------------------------------------------

  lemma NamedReplaces(d: DiskState, p: Path, body: Body)
    requires Consistent(d) && !p.Temp?
    ensures Replaced(d, SetName(d, p, Some(File(body, true))), p, body, Uncertain)
  {
  }

  lemma ReuseIsSnapshotted(d: DiskState, x: Digest, image: Bytes)
    requires Consistent(d) && Get(d, Snapshot(x)) == Some(File(Raw(image), true)) && Get(d, BlobDir).Some?
    ensures Snapshotted(d, d, x, image)
  {
  }

  /** A disk holding this record's descriptor and nothing else. */
  function Bare(p: Persisted): DiskState {
    DiskState(map[Descriptor := File(StateJson(p), true)], map[])
  }

  /** And with an empty directory for its snapshots. */
  function BareWithDir(p: Persisted): DiskState {
    DiskState(map[Descriptor := File(StateJson(p), true), BlobDir := DIRECTORY.value], map[])
  }

  lemma BareFreshOpens(env: Env)
    ensures DiskInv(env, Bare(FRESH)) && Opened(env, Bare(FRESH)) == Some(FRESH)
  {
    assert Alts(Bare(FRESH), Descriptor) == {Described(FRESH)};
  }

  lemma EmptyLacksSnapshots(env: Env, p: Persisted, name: Label)
    requires name in p.active
    ensures Opened(env, BareWithDir(p)).None?
  {
    assert Get(BareWithDir(p), Snapshot(p.active[name])).None?;
  }

  /**
   The hypothesis that reused blobs are durable is needed. A snapshot whose
   directory sync failed is found by the next attempt with equal bytes and reused
   without a new sync; the commit after it succeeds, and a crash can then lose the
   snapshot under a descriptor that names it.
   */
  lemma UnsettledReuseLosesCommit(env: Env, image: Bytes, x: Digest, name: Label, i: Info)
    returns (d: DiskState, retry: DiskState, done: DiskState, e: DiskState)
    requires env.sha(image) == x && env.load(image) == Some(Loaded(i, image))
    ensures var cand := InstallCandidate(env, FRESH, name, Loaded(i, image));
            && DiskInv(env, d) && Opened(env, d) == Some(FRESH) && Admit(FRESH, i).Some?
            && Replaced(WithDir(d), retry, Snapshot(x), Raw(image), Uncertain)
            && Snapshotted(retry, retry, x, image)
            && Replaced(retry, done, Descriptor, StateJson(cand), Done)
            && CrashOf(done, e) && Opened(env, e).None?
  {
    var cand := InstallCandidate(env, FRESH, name, Loaded(i, image));
    d := Bare(FRESH);
    BareFreshOpens(env);
    retry := LeftUnsettled(d, x, image);
    done := CommittedOver(retry, cand);
    e := BareWithDir(cand);
    CrashLosesBlob(done, cand);
    EmptyLacksSnapshots(env, cand, name);
  }

  /** A blob whose rename was not followed by a directory sync. */
  lemma LeftUnsettled(d: DiskState, x: Digest, image: Bytes) returns (retry: DiskState)
    requires Consistent(d) && forall q: Path :: q != Descriptor ==> Get(d, q).None?
    ensures Consistent(retry) && Replaced(WithDir(d), retry, Snapshot(x), Raw(image), Uncertain)
    ensures Snapshotted(retry, retry, x, image) && Get(retry, BlobDir) == DIRECTORY
    ensures forall q: Path :: q != Descriptor ==> None in Alts(retry, q)
    ensures forall q: Path :: q != Descriptor && q != BlobDir && DirOf(q) == StateDir ==> Get(retry, q).None?
  {
    retry := SetName(WithDir(d), Snapshot(x), Some(File(Raw(image), true)));
    NamedReplaces(WithDir(d), Snapshot(x), Raw(image));
    ReuseIsSnapshotted(retry, x, image);
  }

  lemma CommittedOver(d: DiskState, cand: Persisted) returns (done: DiskState)
    requires Consistent(d)
    ensures Replaced(d, done, Descriptor, StateJson(cand), Done)
    ensures Alts(done, Descriptor) == {Described(cand)} && Alts(done, BlobDir) == {Get(d, BlobDir)}
    ensures forall q :: DirOf(q) != StateDir ==> Alts(done, q) == Alts(d, q)
    ensures forall q :: DirOf(q) == StateDir && q != Descriptor ==> Alts(done, q) == {Get(d, q)}
  {
    var renamed := SetName(d, Descriptor, Described(cand));
    NamedReplaces(d, Descriptor, StateJson(cand));
    SyncReplaces(d, renamed, Descriptor, StateJson(cand));
    done := SyncedDir(renamed, StateDir);
  }

  lemma CrashLosesBlob(done: DiskState, cand: Persisted)
    requires Alts(done, Descriptor) == {Described(cand)} && Alts(done, BlobDir) == {DIRECTORY}
    requires forall q: Path :: q != Descriptor && q != BlobDir ==> None in Alts(done, q)
    ensures CrashOf(done, BareWithDir(cand))
  {
    var e := BareWithDir(cand);
    assert Get(e, BlobDir) == DIRECTORY && Get(e, Descriptor) == Described(cand);
    forall p: Path
      ensures SurvivesAs(Alts(done, p), Get(e, p))
    {
      assert p != Descriptor && p != BlobDir ==> Get(e, p).None?;
    }
  }

  // ---- the first installation -----------------------------------------------------------

  /**
   A first installation stopped after the descriptor's rename: a crash can keep the
   new descriptor and lose the directory that was created for its snapshot.
   */
  lemma FirstInstallMayNotOpen(env: Env, b: Loaded, name: Label)
    returns (d: DiskState, cand: Persisted, e: DiskState, f: DiskState)
    requires CollisionFree(env) && env.load(b.image) == Some(b) && env.inPlay(b.image)
    ensures DiskInv(env, d) && Opened(env, d) == Some(FRESH) && cand == InstallCandidate(env, FRESH, name, b)
    ensures Admit(FRESH, b.info).Some? && ReusesDurable(env, d, cand)
    ensures RenamedOver(d, env.sha(b.image), b.image, cand, e)
    ensures CrashOf(e, f) && Opened(env, f).None?
  {
    d, cand := Bare(FRESH), InstallCandidate(env, FRESH, name, b);
    BareFreshOpens(env);
    var staged := FirstStaged(d, env.sha(b.image), b.image);
    e := SetName(staged, Descriptor, Described(cand));
    NamedReplaces(staged, Descriptor, StateJson(cand));
    f := LosesDirectory(env, e, cand, name);
  }

  lemma FirstStaged(d: DiskState, x: Digest, image: Bytes) returns (staged: DiskState)
    requires Consistent(d) && Get(d, BlobDir).None? && Get(d, Snapshot(x)).None?
    ensures Consistent(staged) && Snapshotted(d, staged, x, image) && None in Alts(staged, BlobDir)
  {
    var written := SetName(WithDir(d), Snapshot(x), Some(File(Raw(image), true)));
    NamedReplaces(WithDir(d), Snapshot(x), Raw(image));
    SyncReplaces(WithDir(d), written, Snapshot(x), Raw(image));
    staged := SyncedDir(written, Generations);
    assert Get(d, BlobDir) in Alts(d, BlobDir);
  }
}
