/**
 The anti-rollback store: a process's copy of the persisted record, staged
 candidates, and the commit that makes one of them durable
 (crates/hoike-core/src/state.rs).
 */
module StateStore {
  import opened Wrappers
  import opened Bytes
  import opened Marks
  import opened Disk
  import opened Commit

  /** Snapshots may be unlinked, but not the ones `p` names; nothing else moves. */
  ghost predicate Collecting(d: DiskState, e: DiskState, p: Persisted) {
    && Consistent(e)
    && Get(e, Descriptor) == Get(d, Descriptor) && Alts(e, Descriptor) == Alts(d, Descriptor)
    && Get(e, BlobDir) == Get(d, BlobDir) && Alts(e, BlobDir) == Alts(d, BlobDir)
    && forall x :: if x in p.active.Values
                   then Get(e, Snapshot(x)) == Get(d, Snapshot(x)) && Alts(e, Snapshot(x)) == Alts(d, Snapshot(x))
                   else Get(e, Snapshot(x)) == Get(d, Snapshot(x)) || Get(e, Snapshot(x)).None?
  }

  lemma UnlinkingCollects(d: DiskState, e: DiskState, p: Persisted, x: Digest)
    requires Collecting(d, e, p) && x !in p.active.Values
    ensures Collecting(d, SetName(e, Snapshot(x), None), p)
  {
  }

  /** No snapshot is left that the record does not name. */
  ghost predicate OnlyNamed(d: DiskState, p: Persisted) {
    forall x :: Get(d, Disk.Snapshot(x)).Some? ==> x in p.active.Values
  }

  /** The blob is already there, byte for byte, and will not be written again. */
  predicate Reused(d: DiskState, x: Digest, image: Bytes) {
    var found := Get(d, Disk.Snapshot(x));
    found.Some? && found.value.body == Raw(image)
  }

  /** A state while a blob is being stored: its directory may have to be created first. */
  ghost predicate Storing(d: DiskState, e: DiskState, x: Digest, image: Bytes) {
    e == d || Replacing(WithDir(d), e, Disk.Snapshot(x), Raw(image))
  }

  /** What storing a blob leaves, whether it was written or found. */
  ghost predicate Snapshotted(d: DiskState, e: DiskState, x: Digest, image: Bytes) {
    && Replacing(WithDir(d), e, Disk.Snapshot(x), Raw(image))
    && Get(e, Disk.Snapshot(x)).Some? && Get(e, Disk.Snapshot(x)).value.body == Raw(image)
    && (if Reused(d, x, image) then e == WithDir(d)
        else Alts(e, Disk.Snapshot(x)) == {Some(File(Raw(image), true))} && SettledDir(e, Generations))
  }

  /** A state between the start and the end of `commit`. */
  ghost predicate Committing(d: DiskState, e: DiskState, cand: Persisted) {
    || Replacing(d, e, Descriptor, StateJson(cand))
    || exists c :: Replaced(d, c, Descriptor, StateJson(cand), Done) && Collecting(c, e, cand)
  }

  class Store {
    const drive: Drive
    var state: Persisted
    var staged: bool

    constructor (drive: Drive, state: Persisted, staged: bool)
      ensures this.drive == drive && this.state == state && this.staged == staged
    {
      this.drive, this.state, this.staged := drive, state, staged;
    }

    /** A missing, malformed or incomplete record is an error, never a fresh timeline. */
    static method Open(env: Env, drive: Drive) returns (r: Option<Store>)
      ensures r.Some? <==> Opened(env, drive.state).Some?
      ensures r.Some? ==>
                && fresh(r.value) && r.value.drive == drive
                && Opened(env, drive.state) == Some(r.value.state) && !r.value.staged
    {
      r := None;
      match Get(drive.state, Descriptor) {
        case Some(File(StateJson(p), _)) =>
          if Acceptable(env, drive.state, p) {
            var s := new Store(drive, p, false);
            r := Some(s);
          }
        case _ =>
      }
    }

    /** Refuses any existing file of the state directory, then persists an empty record. */
    static method Initialize(drive: Drive) returns (r: Written, s: Store)
      requires drive.Valid()
      modifies drive
      ensures drive.Valid()
      ensures s.state == FRESH && s.drive == drive
      ensures (exists p :: p in old(drive.state.visible) && DirOf(p) != BundleDir) ==>
                r.Failed? && drive.state == old(drive.state)
      ensures r.Done? ==> Alts(drive.state, Descriptor) == {Described(FRESH)}
      ensures r.Done? ==> forall env: Env :: Opened(env, drive.state) == Some(FRESH)
      // it fails for no other reason
      ensures (forall p :: p in old(drive.state.visible) ==> DirOf(p) == BundleDir) ==>
                old(drive.failures) <= drive.failures && (r.Done? <==> drive.failures == old(drive.failures))
    {
      s := new Store(drive, FRESH, false);
      if exists p :: p in drive.state.visible && DirOf(p) != BundleDir {
        r := Failed;
      } else {
        r := s.Persist();
      }
    }

    method Persist() returns (r: Written)
      requires drive.Valid()
      modifies drive
      ensures drive.Valid() && old(drive.trace) <= drive.trace
      ensures forall i :: |old(drive.trace)| <= i < |drive.trace| ==>
                Replacing(old(drive.state), drive.trace[i], Descriptor, StateJson(state))
      ensures Replaced(old(drive.state), drive.state, Descriptor, StateJson(state), r)
      ensures old(drive.failures) <= drive.failures && (r.Done? <==> drive.failures == old(drive.failures))
    {
      r := drive.WriteAtomic(Descriptor, StateJson(state));
    }

    /** Raise one mark; outside a transaction the new record is persisted first. */
    method Advance(key: ScopeId, epoch: u64, digest: Digest) returns (r: Written)
      requires drive.Valid()
      modifies this`state, drive
      ensures drive.Valid()
      ensures state == if r.Done? then AdvanceOne(old(state), key, epoch, digest) else old(state)
      ensures staged ==> r.Done? && drive.state == old(drive.state) && drive.trace == old(drive.trace)
      ensures !staged && state != old(state) ==> Alts(drive.state, Descriptor) == {Described(state)}
      ensures key in old(state.marks) && epoch <= old(state.marks)[key] ==>
                state == old(state) && drive.state == old(drive.state) && drive.trace == old(drive.trace)
      ensures old(drive.failures) <= drive.failures && (r.Done? <==> drive.failures == old(drive.failures))
    {
      r := Done;
      var next := AdvanceOne(state, key, epoch, digest);
      if next != state {
        if !staged {
          r := drive.WriteAtomic(Descriptor, StateJson(next));
        }
        if r.Done? {
          state := next;
        }
      }
    }

    /** All scopes are checked against the record as it stands before any of them advances it. */
    method CheckRollback(i: Info) returns (r: Result<(), Refusal>)
      ensures r.Ok? <==> RollbackOk(state, i)
      ensures r.Err? ==> exists n :: 0 <= n < |i.scopes| && ScopeVerdict(state, i, n) == Some(r.error)
                           && forall m :: 0 <= m < n ==> ScopeVerdict(state, i, m).None?
    {
      for n := 0 to |i.scopes|
        invariant forall m :: 0 <= m < n ==> ScopeVerdict(state, i, m).None?
      {
        var v := ScopeVerdict(state, i, n);
        if v.Some? {
          return Err(v.value);
        }
      }
      r := Ok(());
    }

    method CheckContinuity(i: Info) returns (r: Result<(), Refusal>)
      ensures r.Ok? <==> ContinuityOk(state, i)
      ensures r.Ok? <==> forall n :: 0 <= n < |i.scopes| ==>
                NotForked(state, ScopeId(i.producer, i.scopes[n].keyHash), i.scopes[n].epoch, i.digest, i.prev)
      ensures r.Err? ==> r.error == ForkDetected
    {
      ContinuityExactly(state, i);
      if i.prev.Some? {
        for n := 0 to |i.scopes|
          invariant forall m :: 0 <= m < n ==> ScopeContinues(state, i, m)
        {
          if !ScopeContinues(state, i, n) {
            return Err(ForkDetected);
          }
        }
      }
      r := Ok(());
    }

    method AdvanceFromBundle(i: Info) returns (r: Written)
      requires drive.Valid()
      modifies this`state, drive
      ensures drive.Valid()
      ensures state == if r.Done? then AdvanceAll(old(state), i) else old(state)
      ensures staged ==> r.Done? && drive.state == old(drive.state) && drive.trace == old(drive.trace)
      ensures !staged ==> Replaced(old(drive.state), drive.state, Descriptor, StateJson(AdvanceAll(old(state), i)), r)
      ensures old(drive.failures) <= drive.failures && (r.Done? <==> drive.failures == old(drive.failures))
    {
      var candidate := new Store(drive, state, true);
      for n := 0 to |i.scopes|
        invariant candidate.state == AdvanceFirst(state, i, n) && candidate.staged && candidate.drive == drive
        invariant drive.state == old(drive.state) && drive.trace == old(drive.trace) && drive.Valid()
        invariant drive.failures == old(drive.failures)
        invariant state == old(state) && candidate != this && fresh(candidate)
      {
        var _ := candidate.Advance(KeyAt(i, n), i.scopes[n].epoch, i.digest);
      }
      r := Done;
      if !staged {
        r := candidate.Persist();
      }
      if r.Done? {
        state := candidate.state;
      }
    }

    /** A candidate to stage changes in; nothing reaches the disk descriptor before `Commit`. */
    method Transaction() returns (candidate: Store)
      ensures fresh(candidate) && candidate.drive == drive && candidate.state == state && candidate.staged
    {
      candidate := new Store(drive, state, true);
    }

    method ClearActive()
      modifies this`state
      ensures state == old(state).(active := map[])
    {
      state := state.(active := map[]);
    }

    /** The blob goes to the disk first; only then may a staged record refer to its digest. */
    method Snapshot(env: Env, name: Label, b: Loaded) returns (r: Written)
      requires drive.Valid()
      modifies this`state, drive
      ensures drive.Valid() && old(drive.trace) <= drive.trace
      ensures var x := env.sha(b.image);
              && (forall i :: |old(drive.trace)| <= i < |drive.trace| ==>
                    Storing(old(drive.state), drive.trace[i], x, b.image))
              && Storing(old(drive.state), drive.state, x, b.image)
              && (if r.Done?
                  then && state == old(state).(active := old(state).active[name := x])
                       && Snapshotted(old(drive.state), drive.state, x, b.image)
                  else state == old(state))
      ensures old(drive.failures) <= drive.failures && (r.Done? <==> drive.failures == old(drive.failures))
    {
      var x := env.sha(b.image);
      var ok := drive.MakeDir();
      if ok && Get(drive.state, Disk.Snapshot(x)).Some? {
        ok := drive.CanRead(Disk.Snapshot(x));
      }
      if !ok {
        return Failed;
      }
      r := Done;
      if !Reused(drive.state, x, b.image) {
        r := drive.WriteAtomic(Disk.Snapshot(x), Raw(b.image));
      }
      if r.Done? {
        state := state.(active := state.active[name := x]);
      }
    }

    /** Unlink snapshots the record does not name; a failed unlink is only logged. */
    method Collect() returns (failed: set<Path>)
      requires drive.Valid()
      modifies drive`state, drive`trace, drive`failures
      ensures drive.Valid() && old(drive.trace) <= drive.trace
      ensures forall i :: |old(drive.trace)| <= i < |drive.trace| ==>
                Collecting(old(drive.state), drive.trace[i], state)
      ensures Collecting(old(drive.state), drive.state, state)
      ensures forall x :: Get(drive.state, Disk.Snapshot(x)).Some? && x !in state.active.Values ==>
                Disk.Snapshot(x) in failed
      ensures old(drive.failures) <= drive.failures && (failed == {} <==> drive.failures == old(drive.failures))
    {
      failed := {};
      var todo := set p | p in drive.state.visible && p.Snapshot?;
      while todo != {}
        invariant drive.Valid() && old(drive.trace) <= drive.trace
        invariant forall i :: |old(drive.trace)| <= i < |drive.trace| ==>
                    Collecting(old(drive.state), drive.trace[i], state)
        invariant Collecting(old(drive.state), drive.state, state)
        invariant forall p :: p in todo ==> p.Snapshot?
        invariant old(drive.failures) <= drive.failures && (failed == {} <==> drive.failures == old(drive.failures))
        invariant forall x :: Get(drive.state, Disk.Snapshot(x)).Some? && x !in state.active.Values ==>
                    Disk.Snapshot(x) in failed + todo
        decreases |todo|
      {
        var p :| p in todo;
        todo := todo - {p};
        if p.digest !in state.active.Values {
          UnlinkingCollects(old(drive.state), drive.state, state, p.digest);
          var ok := drive.Change(p, None);
          if !ok {
            failed := failed + {p};
          }
        }
      }
    }

    /** Only after the new descriptor is durable does the memory follow and collection run. */
    method Commit(candidate: Store) returns (r: Written)
      requires drive.Valid() && candidate.drive == drive && candidate != this
      modifies this`state, drive
      ensures drive.Valid() && old(drive.trace) <= drive.trace
      ensures state == if r.Done? then candidate.state else old(state)
      ensures forall i :: |old(drive.trace)| <= i < |drive.trace| ==>
                Committing(old(drive.state), drive.trace[i], candidate.state)
      ensures !r.Done? ==> Replaced(old(drive.state), drive.state, Descriptor, StateJson(candidate.state), r)
      ensures r.Done? ==> exists c :: Replaced(old(drive.state), c, Descriptor, StateJson(candidate.state), Done)
                                      && Collecting(c, drive.state, candidate.state)
      // with no failed call it succeeds and leaves only the snapshots the record names
      ensures old(drive.failures) <= drive.failures
      ensures drive.failures == old(drive.failures) ==> r.Done? && OnlyNamed(drive.state, candidate.state)
    {
      r := candidate.Persist();
      if r.Done? {
        state := candidate.state;
        ghost var c, n := drive.state, |drive.trace|;
        var _ := Collect();
        assert forall i :: n <= i < |drive.trace| ==> Collecting(c, drive.trace[i], state);
      }
    }
  }
}
