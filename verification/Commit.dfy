/**
 The commit protocol seen from the disk: which states an installation or reload
 passes through, and what a process that opens them after a crash finds
 (crates/hoike-core/src/state.rs, crates/hoike-core/src/install.rs).
 */
module Commit {
  import opened Wrappers
  import opened Bytes
  import opened Marks
  import opened Disk

  /** A parsed bundle: what the store reads of it, and its canonical serialization. */
  datatype Loaded = Loaded(info: Info, image: Bytes)

  /**
   The surroundings of the store: the digest function, the bundle parser followed
   by `to_bytes`, and the byte strings on which the digest has no collision.
   */
  datatype Env = Env(sha: Bytes -> Digest, load: Bytes -> Option<Loaded>, inPlay: Bytes -> bool)

  ghost predicate CollisionFree(env: Env) {
    forall a, b :: env.inPlay(a) && env.inPlay(b) && env.sha(a) == env.sha(b) ==> a == b
  }

  /** A canonical image parses back to the bundle it was written from. */
  ghost predicate Reparses(env: Env) {
    forall f :: env.load(f).Some? ==> env.load(env.load(f).value.image) == env.load(f)
  }

  // ---- open ------------------------------------------------------------------

  /** Every scope of a snapshot is covered by a mark at or above its epoch. */
  predicate Covers(p: Persisted, i: Info) {
    forall n :: 0 <= n < |i.scopes| ==> KeyAt(i, n) in p.marks && i.scopes[n].epoch <= p.marks[KeyAt(i, n)]
  }

  predicate SnapshotFits(env: Env, p: Persisted, x: Digest, v: Option<File>) {
    && v.Some? && v.value.body.Raw?
    && env.sha(v.value.body.bytes) == x
    && env.load(v.value.body.bytes).Some?
    && Covers(p, env.load(v.value.body.bytes).value.info)
  }

  predicate Acceptable(env: Env, d: DiskState, p: Persisted) {
    && Paired(p)
    && forall l :: l in p.active ==> SnapshotFits(env, p, p.active[l], Get(d, Snapshot(p.active[l])))
  }

  /** `StateStore::open`: the descriptor must parse and its snapshots must check out. */
  function Opened(env: Env, d: DiskState): Option<Persisted> {
    match Get(d, Descriptor)
    case Some(File(StateJson(p), _)) => if Acceptable(env, d, p) then Some(p) else None
    case _ => None
  }

  /** Exactly what is opened: a paired record each of whose labels has its blob, hashed, parsed and covered. */
  lemma OpenedExactly(env: Env, d: DiskState, p: Persisted)
    ensures Opened(env, d) == Some(p) <==>
            && Get(d, Descriptor).Some? && Get(d, Descriptor).value.body == StateJson(p)
            && p.marks.Keys == p.digests.Keys && (forall k :: k in p.digests ==> |p.digests[k]| == 32)
            && forall l :: l in p.active ==>
                 exists bytes :: HoldsBlob(d, p.active[l], bytes) && env.sha(bytes) == p.active[l]
                                 && env.load(bytes).Some? && AtOrBelow(p, env.load(bytes).value.info)
  {
    forall l | l in p.active
      ensures SnapshotFits(env, p, p.active[l], Get(d, Snapshot(p.active[l]))) <==>
              exists bytes :: HoldsBlob(d, p.active[l], bytes) && env.sha(bytes) == p.active[l]
                              && env.load(bytes).Some? && AtOrBelow(p, env.load(bytes).value.info)
    {
      var f := Get(d, Snapshot(p.active[l]));
      if f.Some? && f.value.body.Raw? {
        assert HoldsBlob(d, p.active[l], f.value.body.bytes);
      }
    }
  }

  predicate HoldsBlob(d: DiskState, x: Digest, bytes: Bytes) {
    Snapshot(x) in d.visible && d.visible[Snapshot(x)].body == Raw(bytes)
  }

  /** No scope of the bundle is above the mark of its producer and key hash, and none lacks one. */
  predicate AtOrBelow(p: Persisted, i: Info) {
    forall n :: 0 <= n < |i.scopes| ==>
      var k := ScopeId(i.producer, i.scopes[n].keyHash);
      k in p.marks && i.scopes[n].epoch <= p.marks[k]
  }

  // ---- durability ------------------------------------------------------------

  /** A canonical image among the strings the digest separates. */
  ghost predicate Canonical(env: Env, bytes: Bytes) {
    env.inPlay(bytes) && env.load(bytes).Some? && env.load(bytes).value.image == bytes
  }

  /** Whatever survives under this snapshot's name is a canonical image that fits the descriptor. */
  ghost predicate DurableBlob(env: Env, d: DiskState, p: Persisted, x: Digest) {
    forall v :: v in Alts(d, Snapshot(x)) ==>
      v.Some? && v.value.synced && SnapshotFits(env, p, x, v) && Canonical(env, v.value.body.bytes)
  }

  /** And the directory it lies in survives with it. */
  ghost predicate DurableSnapshot(env: Env, d: DiskState, p: Persisted, x: Digest) {
    DirDurable(d) && DurableBlob(env, d, p, x)
  }

  ghost predicate Sound(env: Env, d: DiskState, p: Persisted) {
    Paired(p) && forall l :: l in p.active ==> DurableSnapshot(env, d, p, p.active[l])
  }

  /** Sound as soon as the state directory is synced: its entry for the snapshots' directory may still be new. */
  ghost predicate ReadyToCommit(env: Env, d: DiskState, p: Persisted) {
    && Paired(p) && (p.active != map[] ==> Get(d, BlobDir).Some?)
    && forall l :: l in p.active ==> DurableBlob(env, d, p, p.active[l])
  }

  function Described(p: Persisted): Option<File> {
    Some(File(StateJson(p), true))
  }

  /** The descriptors a crash may leave behind. */
  ghost predicate MayHold(d: DiskState, p: Persisted) {
    Described(p) in Alts(d, Descriptor)
  }

  /** Every descriptor that may survive is whole and its snapshots are durable. */
  ghost predicate DiskInv(env: Env, d: DiskState) {
    && Consistent(d)
    && forall v :: v in Alts(d, Descriptor) ==>
         v.Some? && v.value.synced && v.value.body.StateJson? && Sound(env, d, v.value.body.state)
  }

  lemma SurvivingSnapshot(env: Env, d: DiskState, e: DiskState, p: Persisted, x: Digest)
    requires CrashOf(d, e) && DurableSnapshot(env, d, p, x)
    ensures SnapshotFits(env, p, x, Get(e, Snapshot(x)))
    ensures DurableSnapshot(env, e, p, x)
  {
    var v := Get(e, Snapshot(x));
    assert SurvivesAs(Alts(d, BlobDir), Get(e, BlobDir));
    assert SurvivesAs(Alts(d, Snapshot(x)), v);
    assert Alts(e, Snapshot(x)) == {v};
  }

  /** After a crash, open accepts the disk and finds one of the descriptors it could hold. */
  lemma CrashOpens(env: Env, d: DiskState, e: DiskState)
    requires DiskInv(env, d) && CrashOf(d, e)
    ensures Opened(env, e).Some? && MayHold(d, Opened(env, e).value)
    ensures DiskInv(env, e)
  {
    var v := Get(e, Descriptor);
    assert SurvivesAs(Alts(d, Descriptor), v);
    assert Alts(e, Descriptor) == {v};
    var p := v.value.body.state;
    forall l | l in p.active
      ensures SnapshotFits(env, p, p.active[l], Get(e, Snapshot(p.active[l])))
      ensures DurableSnapshot(env, e, p, p.active[l])
    {
      SurvivingSnapshot(env, d, e, p, p.active[l]);
    }
  }

  /** A crash in which a name that is not durable takes a value the record does not fit. */
  lemma LosesSnapshot(env: Env, d: DiskState, p: Persisted, l: Label) returns (e: DiskState)
    requires Consistent(d) && Described(p) in Alts(d, Descriptor)
    requires l in p.active && !DurableSnapshot(env, d, p, p.active[l])
    requires forall v :: v in Alts(d, Snapshot(p.active[l])) && SnapshotFits(env, p, p.active[l], v)
                         ==> Canonical(env, v.value.body.bytes)
    ensures CrashOf(d, e) && Opened(env, e).None? && Get(e, Descriptor) == Described(p)
  {
    if DirDurable(d) {
      e := LosesBlob(env, d, p, l);
    } else {
      e := LosesDirectory(env, d, p, l);
    }
  }

  lemma LosesBlob(env: Env, d: DiskState, p: Persisted, l: Label) returns (e: DiskState)
    requires Consistent(d) && Described(p) in Alts(d, Descriptor) && DirDurable(d)
    requires l in p.active && !DurableBlob(env, d, p, p.active[l])
    requires forall v :: v in Alts(d, Snapshot(p.active[l])) && SnapshotFits(env, p, p.active[l], v)
                         ==> Canonical(env, v.value.body.bytes)
    ensures CrashOf(d, e) && Opened(env, e).None? && Get(e, Descriptor) == Described(p)
  {
    var x := p.active[l];
    var v :| v in Alts(d, Snapshot(x)) && !(v.Some? && v.value.synced && SnapshotFits(env, p, x, v));
    var w := if v.Some? && !v.value.synced then Some(File(StateJson(p), true)) else v;
    e := CrashTo(d, p, x, w);
  }

  /** A crash that keeps the directory, this descriptor and this value of one blob. */
  lemma CrashTo(d: DiskState, p: Persisted, x: Digest, w: Option<File>) returns (e: DiskState)
    requires Consistent(d) && Described(p) in Alts(d, Descriptor) && DirDurable(d)
    requires SurvivesAs(Alts(d, Snapshot(x)), w)
    ensures CrashOf(d, e) && Get(e, Descriptor) == Described(p) && Get(e, Snapshot(x)) == w
  {
    var f := SetName(SetName(d, Snapshot(x), w), Descriptor, Described(p));
    e := DiskState(f.visible, map[]);
    forall q
      ensures SurvivesAs(Alts(d, q), Get(e, q))
    {
      assert Get(e, q) == Get(f, q);
    }
    assert Get(e, BlobDir) == Get(f, BlobDir) == Get(d, BlobDir) && Get(d, BlobDir) in Alts(d, BlobDir);
  }

  /** A lost directory leaves every label without its snapshot. */
  lemma LosesDirectory(env: Env, d: DiskState, p: Persisted, l: Label) returns (e: DiskState)
    requires Consistent(d) && Described(p) in Alts(d, Descriptor) && l in p.active && !DirDurable(d)
    ensures CrashOf(d, e) && Opened(env, e).None? && Get(e, Descriptor) == Described(p)
  {
    var f := SetName(SetName(d, BlobDir, None), Descriptor, Described(p));
    e := DiskState(map q | q in f.visible && DirOf(q) != Generations :: f.visible[q], map[]);
    forall q
      ensures if Orphaned(e, q) then Get(e, q).None? else SurvivesAs(Alts(d, q), Get(e, q))
    {
      assert DirOf(q) != Generations ==> Get(e, q) == Get(f, q);
      assert Get(e, BlobDir) == Get(f, BlobDir);
    }
    assert Get(e, Descriptor) == Get(f, Descriptor) == Described(p);
    assert Get(e, Snapshot(p.active[l])).None?;
  }

  /**
   For a committed descriptor, every crash leaves it openable if and only if each
   snapshot it names is durable.
   */
  lemma OpensAfterEveryCrash(env: Env, d: DiskState, p: Persisted)
    requires Consistent(d) && Alts(d, Descriptor) == {Described(p)} && Acceptable(env, d, p)
    requires forall l, v :: l in p.active && v in Alts(d, Snapshot(p.active[l])) && SnapshotFits(env, p, p.active[l], v)
                            ==> Canonical(env, v.value.body.bytes)
    ensures (forall e :: CrashOf(d, e) ==> Opened(env, e) == Some(p)) <==> Sound(env, d, p)
  {
    if Sound(env, d, p) {
      forall e | CrashOf(d, e)
        ensures Opened(env, e) == Some(p)
      {
        CrashOpens(env, d, e);
      }
    } else {
      var l :| l in p.active && !DurableSnapshot(env, d, p, p.active[l]);
      var e := LosesSnapshot(env, d, p, l);
    }
  }

  // ---- the states of a transaction ---------------------------------------------

  ghost predicate IsImage(env: Env, x: Digest, v: Option<File>) {
    && v.Some? && v.value.synced && v.value.body.Raw?
    && env.sha(v.value.body.bytes) == x
    && Canonical(env, v.value.body.bytes)
  }

  /** A blob with this digest is already there, so a transaction that needs it writes nothing. */
  predicate Found(env: Env, d: DiskState, x: Digest) {
    match Get(d, Snapshot(x))
    case Some(File(Raw(bytes), _)) => env.sha(bytes) == x
    case _ => false
  }

  /** Each blob the record names is either still to be written or survives every crash as it is. */
  ghost predicate ReusesDurable(env: Env, d: DiskState, cand: Persisted) {
    forall l, v :: l in cand.active && Found(env, d, cand.active[l]) && v in Alts(d, Snapshot(cand.active[l])) ==>
      IsImage(env, cand.active[l], v)
  }

  /** The directory this record's snapshots lie in was there, durably, before the transaction. */
  ghost predicate DirReused(d: DiskState, cand: Persisted) {
    cand.active != map[] ==> DirDurable(d)
  }

  /**
   What a transaction in state `e` relies on: durable blobs and, while the descriptor
   is renamed and its directory not yet synced, a snapshot directory that is not new.
   */
  ghost predicate Relies(env: Env, d: DiskState, cand: Persisted, e: DiskState) {
    || Staging(env, d, e)
    || (ReusesDurable(env, d, cand) && (Committed(env, d, cand, e) || DirReused(d, cand)))
  }

  /** Snapshots have gained nothing but canonical images under their own digest; their directory may be new. */
  ghost predicate OnlyImagesAdded(env: Env, d: DiskState, e: DiskState) {
    && (forall x, v :: v in Alts(e, Snapshot(x)) ==> v in Alts(d, Snapshot(x)) || IsImage(env, x, v))
    && (forall v :: v in Alts(e, BlobDir) ==> v in Alts(d, BlobDir) || v.Some?)
  }

  /** Before the descriptor is touched: snapshots are being written. */
  ghost predicate Staging(env: Env, d: DiskState, e: DiskState) {
    && Consistent(e)
    && Get(e, Descriptor) == Get(d, Descriptor)
    && Alts(e, Descriptor) <= Alts(d, Descriptor)
    && OnlyImagesAdded(env, d, e)
  }

  /** The descriptor has been renamed over and its directory is not known to be synced. */
  ghost predicate Renaming(env: Env, d: DiskState, cand: Persisted, e: DiskState) {
    && Consistent(e)
    && (Get(e, Descriptor) == Get(d, Descriptor) || Get(e, Descriptor) == Described(cand))
    && Alts(e, Descriptor) <= Alts(d, Descriptor) + {Described(cand)}
    && OnlyImagesAdded(env, d, e)
    && (ReusesDurable(env, d, cand) ==> ReadyToCommit(env, e, cand))
  }

  /** The commit point is past: the new descriptor is the only one left. */
  ghost predicate Committed(env: Env, d: DiskState, cand: Persisted, e: DiskState) {
    && Consistent(e)
    && Get(e, Descriptor) == Described(cand)
    && Alts(e, Descriptor) == {Described(cand)}
    && (ReusesDurable(env, d, cand) ==> Sound(env, e, cand))
  }

  ghost predicate InFlight(env: Env, d: DiskState, cand: Persisted, e: DiskState) {
    Staging(env, d, e) || Renaming(env, d, cand, e) || Committed(env, d, cand, e)
  }

  lemma ImagesKeepSnapshots(env: Env, d: DiskState, e: DiskState, p: Persisted, x: Digest)
    requires CollisionFree(env) && Consistent(d)
    requires OnlyImagesAdded(env, d, e) && DurableSnapshot(env, d, p, x)
    ensures DurableSnapshot(env, e, p, x)
  {
    assert Get(d, Snapshot(x)) in Alts(d, Snapshot(x));
  }

  lemma SoundStays(env: Env, d: DiskState, e: DiskState, p: Persisted)
    requires CollisionFree(env) && Consistent(d) && Sound(env, d, p) && OnlyImagesAdded(env, d, e)
    ensures Sound(env, e, p)
  {
    forall l | l in p.active
      ensures DurableSnapshot(env, e, p, p.active[l])
    {
      ImagesKeepSnapshots(env, d, e, p, p.active[l]);
    }
  }

  /** Once the descriptor is written, what the transaction relies on makes the new record sound. */
  lemma ReliesOnSound(env: Env, d: DiskState, cand: Persisted, e: DiskState)
    requires InFlight(env, d, cand, e) && Relies(env, d, cand, e) && !Staging(env, d, e)
    ensures Sound(env, e, cand)
  {
    if !Committed(env, d, cand, e) && cand.active != map[] {
      assert DirDurable(e);
    }
  }

  /** Every state of a transaction keeps the disk openable, with the old or the new descriptor. */
  lemma InFlightKeepsDisk(env: Env, d: DiskState, cand: Persisted, e: DiskState)
    requires CollisionFree(env) && DiskInv(env, d)
    requires InFlight(env, d, cand, e) && Relies(env, d, cand, e)
    ensures DiskInv(env, e)
    ensures forall p :: MayHold(e, p) ==> MayHold(d, p) || p == cand
  {
    if Staging(env, d, e) || !Committed(env, d, cand, e) {
      forall v | v in Alts(e, Descriptor)
        ensures v.Some? && v.value.synced && v.value.body.StateJson? && Sound(env, e, v.value.body.state)
      {
        if v in Alts(d, Descriptor) {
          SoundStays(env, d, e, v.value.body.state);
        } else {
          ReliesOnSound(env, d, cand, e);
        }
      }
    }
  }

  /**
   Crash safety of an installation or reload: stop the machine after any step and
   open accepts what is found, holding exactly the old or exactly the new record.
   */
  lemma CrashIsAtomic(env: Env, d: DiskState, cand: Persisted, mid: DiskState, e: DiskState)
    requires CollisionFree(env) && DiskInv(env, d)
    requires InFlight(env, d, cand, mid) && Relies(env, d, cand, mid) && CrashOf(mid, e)
    ensures Opened(env, e).Some?
    ensures MayHold(d, Opened(env, e).value) || Opened(env, e) == Some(cand)
    ensures Committed(env, d, cand, mid) ==> Opened(env, e) == Some(cand)
    ensures DiskInv(env, e)
  {
    InFlightKeepsDisk(env, d, cand, mid);
    CrashOpens(env, mid, e);
  }
}
