/**
 A disk whose names survive a crash only once their directory has been synced,
 and the atomic replacement built on it (crates/hoike-core/src/storage.rs).
 */
module Disk {
  import opened Wrappers
  import opened Bytes
  import opened Marks

  datatype Dir = StateDir | Generations | BundleDir

  /**
   One spelling per file: the descriptor, a snapshot, a published bundle, a
   temporary; and the directory of the snapshots, as a name in the state directory.
   */
  datatype Path =
    | Descriptor
    | BlobDir
    | Snapshot(digest: Digest)
    | Published(name: Label)
    | Temp(dir: Dir, n: nat)

  function DirOf(p: Path): Dir {
    match p
    case Descriptor => StateDir
    case BlobDir => StateDir
    case Snapshot(_) => Generations
    case Published(_) => BundleDir
    case Temp(dir, _) => dir
  }

  datatype Body = StateJson(state: Persisted) | Raw(bytes: Bytes)

  /** Contents that were never synced are lost in a crash. */
  datatype File = File(body: Body, synced: bool)

  /**
   `visible` is what a running process reads. `unsettled` holds, for each name
   changed since its directory was last synced, every value that name has had
   since then: after a crash any of them may be found.
   */
  datatype DiskState = DiskState(visible: map<Path, File>, unsettled: map<Path, set<Option<File>>>)

  function Get(d: DiskState, p: Path): Option<File> {
    if p in d.visible then Some(d.visible[p]) else None
  }

  /** The values a name may hold after a crash. */
  function Alts(d: DiskState, p: Path): set<Option<File>> {
    if p in d.unsettled then d.unsettled[p] else {Get(d, p)}
  }

  ghost predicate Consistent(d: DiskState) {
    forall p :: Get(d, p) in Alts(d, p)
  }

  function SetName(d: DiskState, p: Path, v: Option<File>): (e: DiskState)
    ensures forall q :: Get(e, q) == if q == p then v else Get(d, q)
    ensures forall q :: Alts(e, q) == if q == p then Alts(d, p) + {v} else Alts(d, q)
    ensures Consistent(d) ==> Consistent(e)
  {
    DiskState(
      if v.Some? then d.visible[p := v.value] else d.visible - {p},
      d.unsettled[p := Alts(d, p) + {v}])
  }

  function SyncedDir(d: DiskState, dir: Dir): (e: DiskState)
    ensures forall q :: Get(e, q) == Get(d, q)
    ensures forall q :: Alts(e, q) == if DirOf(q) == dir then {Get(d, q)} else Alts(d, q)
    ensures Consistent(d) ==> Consistent(e)
  {
    d.(unsettled := map p | p in d.unsettled && DirOf(p) != dir :: d.unsettled[p])
  }

  /** What the name of a directory holds; its files are kept under their own names. */
  const DIRECTORY: Option<File> := Some(File(Raw([]), true))

  /** `e` may be found after the machine stops in `d`. A lost directory takes its files with it. */
  ghost predicate CrashOf(d: DiskState, e: DiskState) {
    && e.unsettled == map[]
    && forall p :: if Orphaned(e, p) then Get(e, p).None? else SurvivesAs(Alts(d, p), Get(e, p))
  }

  predicate Orphaned(d: DiskState, p: Path) {
    DirOf(p) == Generations && Get(d, BlobDir).None?
  }

  /** The directory of the snapshots is there after every crash. */
  ghost predicate DirDurable(d: DiskState) {
    forall v :: v in Alts(d, BlobDir) ==> v.Some?
  }

  /** A synced file survives whole; an unsynced one may come back with any contents. */
  ghost predicate SurvivesAs(alts: set<Option<File>>, v: Option<File>) {
    || v in alts
    || (v.Some? && exists a :: a in alts && a.Some? && !a.value.synced)
  }

  /** The directory of the snapshots, created where it is missing. */
  function WithDir(d: DiskState): (e: DiskState)
    ensures Get(e, BlobDir).Some? && (Consistent(d) ==> Consistent(e))
    ensures forall q :: q != BlobDir ==> Get(e, q) == Get(d, q) && Alts(e, q) == Alts(d, q)
    ensures Alts(d, BlobDir) <= Alts(e, BlobDir) <= Alts(d, BlobDir) + {DIRECTORY}
  {
    if Get(d, BlobDir).Some? then d else SetName(d, BlobDir, DIRECTORY)
  }

  // ---- atomic replacement --------------------------------------------------

  datatype Written = Done | Failed | Uncertain

  /** `e` can be seen while `p` is being replaced by `body`, starting from `d`. */
  ghost predicate Replacing(d: DiskState, e: DiskState, p: Path, body: Body) {
    && Consistent(e)
    && (forall q: Path :: !q.Temp? && q != p ==>
          && Get(e, q) == Get(d, q) && Alts(e, q) <= Alts(d, q)
          && (DirOf(q) != DirOf(p) ==> Alts(e, q) == Alts(d, q)))
    && (Get(e, p) == Get(d, p) || Get(e, p) == Some(File(body, true)))
    && Alts(e, p) <= Alts(d, p) + {Some(File(body, true))}
  }

  /** Every name in this directory survives a crash as it is seen. */
  ghost predicate SettledDir(d: DiskState, dir: Dir) {
    forall q: Path :: !q.Temp? && DirOf(q) == dir ==> Alts(d, q) == {Get(d, q)}
  }

  /**
   The three ways a replacement ends: durable, not begun, or renamed with the
   directory sync failed, when either value may survive.
   */
  ghost predicate Replaced(d: DiskState, e: DiskState, p: Path, body: Body, r: Written) {
    && Replacing(d, e, p, body)
    && match r {
      case Done =>
        Get(e, p) == Some(File(body, true)) && Alts(e, p) == {Some(File(body, true))} && SettledDir(e, DirOf(p))
      case Failed => Get(e, p) == Get(d, p) && Alts(e, p) == Alts(d, p)
      case Uncertain =>
        && Get(e, p) == Some(File(body, true)) && Alts(e, p) == Alts(d, p) + {Some(File(body, true))}
        && (forall q: Path :: !q.Temp? && q != p ==> Alts(e, q) == Alts(d, q))
    }
  }

  lemma RenameReplaces(d: DiskState, tmp: Path, p: Path, body: Body)
    requires Consistent(d) && tmp.Temp? && !p.Temp? && Get(d, tmp) == Some(File(body, true))
    ensures Replaced(d, SetName(SetName(d, p, Get(d, tmp)), tmp, None), p, body, Uncertain)
  {
  }

  lemma SyncReplaces(d: DiskState, e: DiskState, p: Path, body: Body)
    requires Consistent(d) && Replaced(d, e, p, body, Uncertain)
    ensures Replaced(d, SyncedDir(e, DirOf(p)), p, body, Done)
  {
  }

  /** Only temporaries differ. */
  ghost predicate SameFiles(d: DiskState, e: DiskState) {
    Consistent(e) && forall q: Path :: !q.Temp? ==> Get(e, q) == Get(d, q) && Alts(e, q) == Alts(d, q)
  }

  class Drive {
    var state: DiskState
    var counter: nat
    /** Every state the drive has been in, in order: the places a crash can happen. */
    ghost var trace: seq<DiskState>
    /** How many system calls have failed so far. */
    ghost var failures: nat

    ghost predicate Valid()
      reads this
    {
      Consistent(state)
    }

    /** One change of a name; the call may fail and then changes nothing. */
    method Change(p: Path, v: Option<File>) returns (ok: bool)
      modifies this`state, this`trace, this`failures
      ensures state == if ok then SetName(old(state), p, v) else old(state)
      ensures trace == old(trace) + [state] && failures == old(failures) + if ok then 0 else 1
    {
      ok := *;
      if ok {
        state := SetName(state, p, v);
      }
      trace := trace + [state];
      failures := failures + if ok then 0 else 1;
    }

    /** Rename replaces the target and removes the source in one step. */
    method Rename(from: Path, to: Path) returns (ok: bool)
      requires from != to
      modifies this`state, this`trace, this`failures
      ensures state == if ok then SetName(SetName(old(state), to, Get(old(state), from)), from, None) else old(state)
      ensures trace == old(trace) + [state] && failures == old(failures) + if ok then 0 else 1
    {
      ok := *;
      if ok {
        state := SetName(SetName(state, to, Get(state, from)), from, None);
      }
      trace := trace + [state];
      failures := failures + if ok then 0 else 1;
    }

    method SyncDir(dir: Dir) returns (ok: bool)
      modifies this`state, this`trace, this`failures
      ensures state == if ok then SyncedDir(old(state), dir) else old(state)
      ensures trace == old(trace) + [state] && failures == old(failures) + if ok then 0 else 1
    {
      ok := *;
      if ok {
        state := SyncedDir(state, dir);
      }
      trace := trace + [state];
      failures := failures + if ok then 0 else 1;
    }

    /** Creating a directory that exists changes nothing; creating one does not sync the directory it is in. */
    method MakeDir() returns (ok: bool)
      requires Valid()
      modifies this`state, this`trace, this`failures
      ensures Valid() && old(trace) <= trace
      ensures forall i :: |old(trace)| <= i < |trace| ==> trace[i] == old(state) || trace[i] == WithDir(old(state))
      ensures state == if ok then WithDir(old(state)) else old(state)
      ensures old(failures) <= failures && (ok <==> failures == old(failures))
    {
      ok := Get(state, BlobDir).Some?;
      if !ok {
        ok := Change(BlobDir, DIRECTORY);
      }
    }

    /** Reading a file changes nothing and may fail. */
    method CanRead(p: Path) returns (ok: bool)
      modifies this`failures
      ensures failures == old(failures) + if ok then 0 else 1
    {
      ok := *;
      failures := failures + if ok then 0 else 1;
    }

    /** Create a fresh temporary, fill it and sync its contents. */
    method WriteTemp(tmp: Path, body: Body) returns (ok: bool)
      requires Valid() && tmp.Temp?
      modifies this`state, this`trace, this`failures
      ensures Valid() && old(trace) <= trace
      ensures forall i :: |old(trace)| <= i < |trace| ==> SameFiles(old(state), trace[i])
      ensures SameFiles(old(state), state)
      ensures ok ==> Get(state, tmp) == Some(File(body, true))
      ensures old(failures) <= failures && (ok <==> failures == old(failures))
    {
      ok := Get(state, tmp).None?;
      if ok {
        ok := Change(tmp, Some(File(Raw([]), false)));
      } else {
        // creating a name that exists is a failed call
        failures := failures + 1;
      }
      if ok {
        ok := Change(tmp, Some(File(body, false)));
      }
      if ok {
        ok := Change(tmp, Some(File(body, true)));
      }
    }

    /** Rename a synced temporary over the target, then sync the directory. */
    method Publish(tmp: Path, p: Path, ghost body: Body) returns (r: Written)
      requires Valid() && !p.Temp? && tmp.Temp? && Get(state, tmp) == Some(File(body, true))
      modifies this`state, this`trace, this`failures
      ensures Valid() && old(trace) <= trace
      ensures forall i :: |old(trace)| <= i < |trace| ==> Replacing(old(state), trace[i], p, body)
      ensures Replaced(old(state), state, p, body, r)
      ensures !r.Failed? ==> Get(state, tmp).None?
      ensures old(failures) <= failures && (r.Done? <==> failures == old(failures))
    {
      r := Failed;
      var ok := Rename(tmp, p);
      if ok {
        RenameReplaces(old(state), tmp, p, body);
        SyncReplaces(old(state), state, p, body);
        ok := SyncDir(DirOf(p));
        r := if ok then Done else Uncertain;
      }
    }

    /** Write and sync a temporary, rename it over the target, sync the directory. */
    method WriteAtomic(p: Path, body: Body) returns (r: Written)
      requires Valid() && !p.Temp?
      modifies this
      ensures Valid() && old(trace) <= trace
      ensures forall i :: |old(trace)| <= i < |trace| ==> Replacing(old(state), trace[i], p, body)
      ensures Replaced(old(state), state, p, body, r)
      ensures old(failures) <= failures && (r.Done? <==> failures == old(failures))
      // no temporary is left behind unless its removal fails too
      ensures failures <= old(failures) + 1 ==> Get(state, Temp(DirOf(p), old(counter))).None?
    {
      var tmp := Temp(DirOf(p), counter);
      counter := counter + 1;
      r := Failed;
      var ok := WriteTemp(tmp, body);
      if ok {
        r := Publish(tmp, p, body);
      }
      if !r.Done? {
        var _ := Change(tmp, None);
      }
    }
  }
}
