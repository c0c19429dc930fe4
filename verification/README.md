# hoike in Dafny

A model of hoike and proofs about it. hoike pre-signs OCSP answers, packs them
into sealed `.ahu` bundles and lets edges without keys serve them. Five parts are
modelled, each in the form its source has: state that is updated in place is a
class or a method with loops proved against a specification function, and pure
code is functions with lemmas.

| part | modules |
|---|---|
| anti-rollback store, its commit protocol, reload, restart and recovery | `Marks`, `Disk`, `Commit`, `StateStore`, `Install`, `Runs`, `RunExamples`, `Recovery`, `Router`, `Responder`, `Images` |
| bundle format, structural verification and both readers | `Header`, `Index`, `Manifest`, `ManifestCodec`, `Bundle`, `Entries`, `Builder`, `MappedBundle` |
| delta materialization and diff | `Overlay`, `DeltaOps`, `Diff` |
| production, freshness, signing passes and calendar arithmetic | `Calendar`, `GeneralizedTime`, `Prepare`, `Signing`, `Answers`, `Produce`, `Freshness`, `Orchestrate` |
| directory synchronization and the gossip table | `SyncCheckpoint`, `Gossip` |

`Wrappers`, `Bytes` and `Collections` hold what all of them use. `dafny verify
dfyconfig.toml` covers the whole project.

## How it is modelled

- **Disk.** A disk has what a process sees and, for each name changed since its
  directory was last synced, every value it has had. A crash picks any of them; a
  file whose contents were never synced comes back with any contents. The directory
  of the snapshots is itself a name of the state directory, and its loss takes the
  snapshots with it. The drive records every state it passes through, so "after any
  step" is a quantifier over that trace. Every write, rename, sync, unlink and
  directory creation may fail, and so may the read of a blob that is already there.
  The drive counts the calls that failed, so that an operation which needs no excuse
  must succeed.
- **Runs.** `Runs.Next` is the step relation of one state directory: opening,
  reloading, installing, stopping, crashing, and unrelated writes. A transaction
  that does not succeed may leave the disk in any of its states, so a crash in the
  middle of one is such a step followed by a crash. The methods of `Install`,
  `Router` and `Responder` are proved to make only such steps.
- **Functions supplied from outside.** SHA-256 and SHA-1, the CBOR and DER byte
  codecs, signers, seals, admission by signature, and the clock are parameters.
  What is needed of them is stated where it is used: decoding what was encoded
  gives it back, and the digest separates the byte strings in play (not all byte
  strings, which no 32-byte digest can do). Serials are taken as canonical byte
  strings: equal certificate numbers are equal bytes.
- **Machine integers.** Widths are subset types; casts that truncate (`as u32`,
  `as u64`, `as u16`), saturating and checked additions are written out.
- **Sorting and searching.** `sort_by_key` and `binary_search_by` are library
  functions; the model uses an insertion sort proved stable, and a bisection whose
  contract is what the library promises. On a strictly sorted index the answer is
  unique, so any bisection gives it.
- **Heap files.** Map iteration order is left open where the source iterates a hash
  map and is key order where it iterates a sorted map.

## Where a promised property needs a condition

Each of these has a lemma giving the exact condition and one with a concrete failing
input; for dual bundles the failing half speaks of every bundle with a serial.

- A commit that returned success survives every crash if and only if the blobs it
  reused were durable on the disk it started from (`Install.InstalledSurvivesCrash`,
  `Router.LoadedSurvivesCrash`): a blob left by a failed directory sync is found with
  equal bytes and not synced again (`Install.UnsettledReuseLosesCommit`). Marks and
  served epochs do not depend on this; only that a crash leaves a disk that opens
  (`Runs.CrashAlwaysOpens`) is stated for commits that reuse durable blobs. The
  fallback at startup from a sound record always does (`Responder.FallbackIsDurable`).
- A transaction interrupted after the descriptor's rename and before the sync of its
  directory leaves a disk that every crash leaves openable if and only if the blobs it
  reused and the directory of the snapshots were durable before
  (`Install.RenamedSurvivesCrash`, `Router.RenamedLoadSurvivesCrash`). A first
  installation creates that directory, so a crash there may keep the descriptor and
  lose it (`Install.FirstInstallMayNotOpen`).
- The jump limit of 10,000 is compared with the running candidate, so it bounds a
  reload if and only if each scope is within it of the starting mark
  (`Marks.ReloadJumpExactly`, `Marks.OverlappingJump`). Over a run it counts once per
  descriptor written, acknowledged or not (`Runs.AckedJumpOverRun`,
  `RunExamples.UncertainCommitDoublesJump`).
- Served epochs never fall if and only if every accepted reload has bundles that agree
  on the keys they share (`Runs.ServedEpochsNeverFall`,
  `RunExamples.OverlappingReloadServesOlder`); producers ensure that
  (`Produce.ScopesShareEpoch`, `DeltaOps.ApplySealed`).
- Installing one label keeps another label's snapshot loadable if and only if the two
  bundles agree on shared epochs (`Recovery.InstallKeepsOthersRecorded`,
  `RunExamples.InstallStrandsSharedLabel`); a fallback that needs a stranded snapshot
  is refused (`Responder.Load`).
- Payload lengths are cut to 32 bits, so a reader gets a payload back if and only if
  it is shorter than 2^32 bytes (`Entries.Stored`, `Entries.LongPayloadIsCut`).
- Calendar years are narrowed to 16 bits, so a time converts exactly if and only if
  its year is below 65536 (`Calendar.DatetimeExactly`, `Calendar.NarrowingExample`).
  A production's payloads stay inside its window if and only if each serial's expiry
  falls in such a year or is narrowed to one not before the window's
  (`Freshness.ProducedWithinExactly`), which up to a jitter of 50,000 years means that
  the window begins to expire by the year 9999 (`Freshness.ProducedWithinByYear`,
  `Freshness.ProducedPastItsWindow`).
- A live answer stays inside the bundle's window when the serial has an entry
  (`Freshness.LiveAnswer`); without one it does if and only if the window is open and
  the signer's validity or certificate ends with it (`Freshness.ReplyToMiss`,
  `Freshness.UnknownOutlastsWindow`).
- A dual bundle verifies if and only if its two discriminators differ or it is empty
  (`Produce.DualVerifies`).
- A directory refresh that ends with the delete flag set reproduces the server if and
  only if every change and disappearance was mentioned, which a refresh of a present
  phase followed by a delete phase need not do (`SyncCheckpoint.DeleteRefresh`,
  `SyncCheckpoint.TwoPhasesKeepStale`). A full poll holds every certificate it was sent
  if and only if entries of one serial are equal (`SyncCheckpoint.PollReproduces`,
  `SyncCheckpoint.PollDropsRevocation`).
- The difference of a base and what one delta made of it counts what the delta's own
  statistics count if and only if the base holds no tombstones
  (`Diff.DiffMatchesStats`, `Diff.TombstoneIsMiscounted`).

Where code and comment disagree the code is modelled: the gossip table's comment says
a row advances only on a newer epoch, while an equal epoch also takes over the digest
(crates/hoike-gossip/src/node.rs:383-386), and the full poll's comment says serials are
checked to be unique when it finishes, while a repeated one has by then replaced the
earlier (crates/hoike-sign/src/dogtag_sync.rs:468-502).

## Model

| member | source | states |
|---|---|---|
| Marks.KeyTextInjective | crates/hoike-core/src/state.rs:27-29 | The text key of a mark determines producer and key hash, because hexadecimal text holds no colon. |
| Marks.AdvanceFirstExtends | crates/hoike-core/src/state.rs:313-330 | Advancing a bundle's scopes never lowers or forgets a mark, keeps marks and digests paired, and leaves every scope at or below its mark. |
| Marks.AdmitExactly | crates/hoike-core/src/state.rs:251-311 | A bundle is admitted if and only if at each of its keys the recorded mark is not above its epoch, is matched by the same digest at the same epoch and is within 10,000 below it otherwise, and a predecessor it names is the recorded digest, unless the mark and digest recorded are its own. |
| Marks.ForksAreRefused | crates/hoike-core/src/state.rs:293-311 | At every key with a recorded 32-byte digest, an admitted bundle that names a predecessor names exactly that digest, or the mark and digest recorded are its own epoch and digest. |
| Marks.SuccessorsAreAdmitted | crates/hoike-core/src/state.rs:251-311 | A bundle that names the recorded digest at all its keys that have one, with epochs above the marks by at most 10,000, is admitted. |
| Marks.AdmitSpec | crates/hoike-core/src/state.rs:251-330 | A bundle that passes rollback and continuity raises an existing mark by at most 10,000, covers all its scopes, and every changed mark comes from one of its scopes with its digest. |
| Marks.AdmitAllSpec | crates/hoike-core/src/router.rs:399-473 | A whole reload extends the record; each bundle moves an existing mark by at most the jump limit. |
| Marks.ReloadLinks | crates/hoike-core/src/state.rs:293-330 | A key whose mark an accepted reload moves is left at a loaded bundle that covers it, and if that bundle names a predecessor it is the digest recorded before the reload or that of a bundle loaded earlier for the key. |
| Marks.ReloadJumpExactly | crates/hoike-core/src/state.rs:278-287 | An accepted reload keeps every existing mark within 10,000 of where it started if and only if each loaded scope is within 10,000 of the mark the reload started from. |
| Marks.AgreeingJump | crates/hoike-core/src/state.rs:278-287 | Which holds whenever bundles sharing a scope key agree on epoch and manifest. |
| Marks.OverlappingJump | crates/hoike-core/src/state.rs:251-291 | Concrete reload of two labels covering one key: the mark moves 20,000 in one accepted reload, and the first bundle is then served below it. |
| Marks.WorkingSetRecorded | crates/hoike-core/src/router.rs:399-473 | After an accepted reload every loaded scope is exactly what the marks record if and only if scopes sharing a key agree on epoch and manifest. |
| Marks.RecordedIsIdempotent | crates/hoike-core/src/state.rs:251-330 | A recorded bundle is admitted again and moves nothing. |
| Marks.ReloadIsIdempotent | crates/hoike-core/src/router.rs:399-473 | Reloading a recorded working set is accepted and leaves the record unchanged. |
| Disk.SetName | crates/hoike-core/src/storage.rs:162-169 | A renamed or removed name may survive a crash with its old or its new value until its directory is synced. |
| Disk.SyncedDir | crates/hoike-core/src/storage.rs:163-169 | Syncing a directory settles exactly the names in it. |
| Disk.Drive.MakeDir | crates/hoike-core/src/state.rs:236-241 | A missing directory becomes a name that may not survive a crash until its parent is synced; an existing one is left as it is. |
| Disk.Drive.WriteTemp | crates/hoike-core/src/storage.rs:136-146 | Writing a fresh temporary changes no other name, in any intermediate state. |
| Disk.Drive.Publish | crates/hoike-core/src/storage.rs:162-175 | Rename then directory sync: durable, not begun, or uncertain, with every intermediate state a replacement in progress; durable exactly when neither call failed. |
| Disk.Drive.WriteAtomic | crates/hoike-core/src/storage.rs:123-176 | After any step a reader or a crash finds the whole old or the whole new contents; the outcome says which, or that it is uncertain, and it is done exactly when no system call failed. It leaves no temporary behind unless removing it fails too. |
| Commit.CrashOpens | crates/hoike-core/src/state.rs:47-68 | From a disk whose possible descriptors are all sound, any crash leaves one that `open` accepts, holding one of them. |
| Commit.OpenedExactly | crates/hoike-core/src/state.rs:47-68 | `open` accepts exactly a descriptor with paired 32-byte records each of whose labels has its blob there, hashing to its name, parsing, and at or below the marks. |
| Commit.OpensAfterEveryCrash | crates/hoike-core/src/state.rs:194-249 | For any committed descriptor, every crash leaves a disk that opens to it if and only if each snapshot it names is durable on that disk; `Install.InstalledSurvivesCrash` and `Router.LoadedSurvivesCrash` state it of the disk before the call. |
| Commit.LosesSnapshot | crates/hoike-core/src/state.rs:233-249 | When something other than the image may survive of a named snapshot, or its directory may be lost, there is a crash after which `open` refuses. |
| Commit.InFlightKeepsDisk | crates/hoike-core/src/state.rs:194-249 | Every state of a transaction that reuses only durable blobs and either is committed or found their directory durable, and every state before the descriptor is written, keeps all possible descriptors sound; only the old ones or the candidate are possible. |
| Commit.CrashIsAtomic | crates/hoike-core/src/install.rs:61-157 | A crash after any step of an install or reload whose reused blobs are durable, and whose snapshot directory was durable unless the commit point is past, leaves a disk that `open` accepts with exactly an old or exactly the new record; past the commit point, the new one. |
| StateStore.Store.Open | crates/hoike-core/src/state.rs:47-68 | Accepts exactly a parsed descriptor with paired records whose snapshots exist, hash to their names, parse and are covered by marks. |
| StateStore.Store.Initialize | crates/hoike-core/src/state.rs:79-133 | Refuses, changing nothing, where the descriptor or any other state file exists; otherwise it succeeds exactly when no system call failed, and then the fresh record is durable and opens. |
| StateStore.Store.Persist | crates/hoike-core/src/state.rs:332-337 | Replaces the descriptor atomically, succeeding exactly when no system call failed; every intermediate state is such a replacement. |
| StateStore.Store.Advance | crates/hoike-core/src/state.rs:152-173 | Raises a mark only to a higher epoch; an unstaged store changes in memory only if the descriptor was written. An epoch at or below the mark touches nothing. |
| StateStore.Store.CheckRollback | crates/hoike-core/src/state.rs:251-291 | Accepts exactly the bundles all of whose scopes are at or above the mark, identical at equal epoch, and within the jump limit. |
| StateStore.Store.CheckContinuity | crates/hoike-core/src/state.rs:293-311 | Accepts exactly the bundles that name no predecessor, or at each of whose keys no 32-byte digest is recorded, or the recorded digest is the one named, or mark and digest recorded are the bundle's own; stated of the recorded maps. |
| StateStore.Store.AdvanceFromBundle | crates/hoike-core/src/state.rs:313-330 | Advances all scopes of a bundle against the pre-state, in order. |
| StateStore.Store.Snapshot | crates/hoike-core/src/state.rs:233-249 | Creates the directory if it is missing, then writes or reuses the content-addressed blob before the reference; a failing creation, read or write changes no reference, only that label's reference changes on success, and it succeeds exactly when no system call failed. |
| StateStore.Store.Collect | crates/hoike-core/src/state.rs:197-225 | Collection unlinks only snapshots the record does not name, in any order, with any unlink failing; none is reported as failed exactly when no unlink failed. |
| StateStore.Store.Commit | crates/hoike-core/src/state.rs:194-226 | Descriptor first, memory and collection only after it is durable; every intermediate state is accounted for and a failed or uncertain write leaves memory alone. If no system call failed it succeeds and only snapshots the record names are left. |
| Install.CommitStaged | crates/hoike-core/src/install.rs:115-122 | Every intermediate state of `commit` is a state of the transaction that began before staging; the outcome tells staging, renaming and committed apart. |
| Install.InstallIsSound | crates/hoike-core/src/install.rs:113-122 | If the blobs it found were durable, the staged candidate of an admitted install names only durable, covered snapshots, including every other label's. |
| Install.OtherLabelsSurvive | crates/hoike-core/src/state.rs:175-186 | Other labels keep their reference and a usable snapshot through a single-label install and any crash after it. |
| Install.InstallBundle | crates/hoike-core/src/install.rs:61-157 | Whole install from any disk: after any step the disk is in a state of the transaction; rejection leaves only staged blobs; an indeterminate outcome is exactly the stored blob with the descriptor renamed and not synced; success means the candidate is the only descriptor, its blob was found or written and nothing later touched a named blob; nothing is touched unless the candidate is admissible. If the destination is named, the bytes parse and are admitted, the disk opens and its record admits the bundle, then without a failed system call it is installed with no warning and only named snapshots are left; in every other case it is rejected and nothing is touched. |
| Install.InstalledSurvivesCrash | crates/hoike-core/src/state.rs:194-249 | After a successful install every crash opens to the new record if and only if, on the disk it started from, the blob was not there byte for byte (so it is written and synced) or every value that may survive of it is already the synced image. |
| Install.RenamedSurvivesCrash | crates/hoike-core/src/state.rs:233-249 | After an install that stopped between the descriptor's rename and its directory sync, every crash leaves a disk that opens if and only if, before the call, the snapshot directory was durable and the blob was not there byte for byte or every value that may survive of it was the synced image; the directory is not when the install had to create it. |
| Install.UnsettledReuseLosesCommit | crates/hoike-core/src/state.rs:243-246 | Concrete sequence for any admissible bundle: a blob whose directory sync failed is reused, the commit succeeds, and a crash leaves a disk `open` refuses. |
| Install.FirstInstallMayNotOpen | crates/hoike-core/src/state.rs:236-241 | Concrete first install of any bundle: a crash keeps the new descriptor and loses the directory created for its snapshot, and `open` refuses. |
| Runs.InstallIsStep | crates/hoike-core/src/install.rs:61-157 | Every state an install passes through, and its end state, is a step of the run relation. |
| Runs.NextKeepsMarks | crates/hoike-core/src/state.rs:152-330 | Every step (open, reload, install, stop, crash, unrelated writes), whatever blobs it reuses, keeps every possible descriptor and the server's memory at or above the acknowledged record, which only extends. |
| Runs.NextKeepsDisk | crates/hoike-core/src/state.rs:194-249 | Every step whose transaction reuses only durable blobs, and a durable directory if it stops before the descriptor is synced, keeps every possible descriptor sound. |
| Runs.AckedNeverFallsBack | crates/hoike-core/src/state.rs:152-330 | Along every run the acknowledged record only extends. |
| Runs.RecordedNamesPredecessor | crates/hoike-core/src/state.rs:293-311 | In every run, what a commit newly records for a key is a bundle that, if it names a predecessor, names the digest recorded when the transaction started or one loaded earlier in it; that starting record is at or above the last acknowledged one. |
| Runs.DiskNeverBelowAcked | crates/hoike-core/src/state.rs:152-330 | In every run with crashes, restarts and failed syncs, whatever is on disk, may be there after a crash, or is opened, is never below any record acknowledged before. |
| Runs.CrashAlwaysOpens | crates/hoike-core/src/state.rs:47-68 | In every run whose transactions do so, a crash at any point leaves a disk that `open` accepts. |
| Runs.ServedEpochsNeverFall | crates/hoike-core/src/router.rs:326-397 | Over every run: the epochs served for one producer and key hash never fall and equal epochs mean equal manifest digests, if and only if every accepted reload was given bundles that agree on the keys they share. |
| Runs.ServedNeverRollsBack | crates/hoike-core/src/router.rs:326-397 | Its sufficient half, for any two moments and any two served scopes. |
| Runs.AckedJump | crates/hoike-core/src/state.rs:278-287 | Each acknowledged commit raises an existing mark by at most 10,000 above the record the transaction started from, which an earlier commit of unknown outcome may have left above the last acknowledged one. |
| Runs.AckedJumpOverRun | crates/hoike-core/src/state.rs:278-287 | After an acknowledged commit, a later acknowledged mark is at most 10,000 higher for each descriptor written since, in every run whose reloads agree on shared keys. |
| RunExamples.OverlappingReloadServesOlder | crates/hoike-core/src/router.rs:326-397 | Concrete run (open, one accepted reload of two labels on one key) in which the key is served at epochs 1 and 2 at the same moment. |
| RunExamples.UncertainCommitDoublesJump | crates/hoike-core/src/state.rs:194-226 | Concrete run of three installs, the second ending with a failed directory sync, in which the acknowledged mark rises by 20,000. |
| RunExamples.InstallStrandsSharedLabel | crates/hoike-core/src/state.rs:175-186 | Concrete run: two labels share a bundle, a newer one is installed for one of them, and the other label's snapshot lies below the mark, so loading it is refused. |
| Recovery.InstallKeepsOthersRecorded | crates/hoike-core/src/state.rs:175-186 | An install leaves another label's bundle recorded if and only if they agree on shared keys. |
| Recovery.NextKeepsFaithful | crates/hoike-core/src/router.rs:98-150 | Every such step whose working set has one epoch per key keeps each active snapshot's epoch and digest equal to the recorded marks. |
| Recovery.RunFaithful | crates/hoike-core/src/router.rs:98-150 | So every record a run can leave on disk is faithful. |
| Recovery.RecoveryIsAdmitted | crates/hoike-core/src/router.rs:98-150 | Loading the committed snapshots after any crash passes rollback and continuity, whatever the configured files hold. |
| Router.RegisterScopes | crates/hoike-core/src/router.rs:475-510 | Appends one routing entry per scope of the bundle under that scope's hash pair, and touches no other pair. |
| Router.TableSound | crates/hoike-core/src/router.rs:475-510 | Every routing entry comes from a scope of the bundle it points at. |
| Router.TableComplete | crates/hoike-core/src/router.rs:475-510 | Every scope of every loaded bundle is routed. |
| Router.Lookup | crates/hoike-core/src/router.rs:194-250 | Answers from the first routed bundle, in registration order, that has the entry; no answer means none of them has it. |
| Router.LookupCertId | crates/hoike-core/src/router.rs:194-250 | A request is answered by the first configured CA, in configuration order, whose bundle has a scope with the request's issuer name hash and key hash and holds the entry; it gets no answer exactly when no such bundle holds it. |
| Router.LoadOne | crates/hoike-core/src/router.rs:399-425 | One file is loaded exactly when it can be read, parses, is authenticated, and the running candidate admits it. |
| Router.LoadBundles | crates/hoike-core/src/router.rs:399-452 | Loads each configured file once, in order, admits it against the running candidate and registers it for its label. Succeeds if and only if every configured file is authenticated and each is admitted after those before it; a refusal means some configured bundle is not the recorded one. |
| Router.SnapshotLabels | crates/hoike-core/src/router.rs:453-461 | Stages one snapshot per routed label in order; if none had to be written the snapshots are as they were, otherwise their directory is synced. |
| Router.ReloadIsSound | crates/hoike-core/src/router.rs:388-473 | If the blobs it found were durable, the candidate of an accepted reload names only durable, covered snapshots. |
| Router.LoadScopeMap | crates/hoike-core/src/router.rs:388-397 | Candidate store, load, snapshot, commit: on success every configured file was authenticated, memory, disk and scope map agree and each named blob holds exactly what was found or written; on failure memory is unchanged and the disk is in a state of the transaction. If the labels repeat or a file is not authenticated or not admitted it fails and touches nothing; otherwise it succeeds unless a system call fails. With readable files none of which is above the marks it is refused exactly when one of them is not what the marks record. |
| Router.LoadedAreAuthenticated | crates/hoike-core/src/router.rs:399-452 | Every bundle a load serves comes from bytes that parse to it and that the admission check accepted. |
| Router.LoadedSurvivesCrash | crates/hoike-core/src/state.rs:194-249 | After a successful reload every crash opens to the new record if and only if, on the disk it started from: either some blob had to be written (which syncs the directory) and those found have synced contents, or every value that may survive of each is its synced image. |
| Router.RenamedLoadSurvivesCrash | crates/hoike-core/src/state.rs:194-249 | After a reload that stopped there, every crash leaves a disk that opens if and only if, before the call, the record named no snapshot or the snapshot directory was durable, and the reused blobs were durable in the sense of the row above. |
| Router.BelowAndAdmittedIsRecorded | crates/hoike-core/src/state.rs:251-311 | A bundle at or below the marks passes the checks only if it is exactly what they record. |
| Responder.ResponderState.Reload | crates/hoike-core/src/router.rs:326-340 | The scope map is swapped only after its commit; a failed reload changes nothing served, and each intermediate disk state is a step of a run. What is served was authenticated, bundle by bundle; one file that is not authenticated or not admitted leaves scope map, marks and disk as they were; otherwise the reload succeeds unless a system call fails. |
| Responder.SnapshotConfig | crates/hoike-core/src/router.rs:137-147 | The fallback configuration exists exactly when every label has a committed snapshot. |
| Responder.FallbackIsDurable | crates/hoike-core/src/router.rs:98-150 | From a sound record the fallback commits only blobs it already named, in a directory already durable, so it relies on nothing that a crash could lose, even right after a first load whose writes ended uncertain. |
| Responder.StartupExtendsRun | crates/hoike-core/src/router.rs:80-159 | Startup continues any run that ended without a server, so the theorems over runs and durable runs hold of it. |
| Responder.StartupKeepsDisk | crates/hoike-core/src/router.rs:80-159 | Startup leaves a disk that every crash leaves openable if its first load relied on nothing a crash could lose, or if its fallback succeeded. |
| Responder.AttemptsExactly | crates/hoike-core/src/router.rs:98-159 | The second attempt is made exactly when the first failed and every label has a committed snapshot; from that follow what is served and when startup succeeds. |
| Responder.Load | crates/hoike-core/src/router.rs:80-159 | From any disk, startup is a run of open, load and at most one fallback load from the committed snapshots. If the opened record is sound: refusal with a committed generation means a configured label is stranded below the marks, a fallback whose snapshots are authenticated is refused if and only if one is, and a successful fallback leaves a disk that every crash leaves openable. Every served bundle was authenticated, on the first attempt and on the fallback. Without a failed system call it starts exactly when the store opens and either the configured files load or a committed generation has a snapshot for every label and those load. |
| Images.SnapshotReparses | crates/ahu/src/bundle.rs:29-84 | A snapshot re-parses to the scopes, digest and image it was committed with. |
| Images.FormatReparses | crates/hoike-core/src/state.rs:233-249 | The bundle format meets what the commit protocol assumes of images. |
| Header.HeaderRoundTrip | crates/ahu/src/header.rs:26-70 | A written header reads back whatever follows it exactly when its version is supported. |
| Header.HeaderReadExactly | crates/ahu/src/header.rs:26-56 | A file has a header exactly when it has 64 bytes that begin with AHU1 and major version 0. |
| Header.ValidateBounds | crates/ahu/src/header.rs:72-94 | Accepts exactly the headers whose four sections end inside the file without overflow. |
| Index.RecordRoundTrip | crates/ahu/src/index.rs:46-71 | A written record reads back. |
| Index.RecordRewrite | crates/ahu/src/index.rs:46-71 | Reading and rewriting 48 bytes is exact if and only if no unknown flag bit is set. |
| Index.IndexRoundTrip | crates/ahu/src/bundle.rs:138-153 | The index section round-trips. |
| Index.ParseIndex | crates/ahu/src/bundle.rs:138-153 | The reader's loop accepts exactly whole records and returns them all. |
| Index.WriteIndex | crates/ahu/src/bundle.rs:59-62 | The writer's loop produces the concatenated records. |
| Bytes.LessIsNumeric | crates/ahu/src/bundle.rs:263-263 | Between keys of one length the order of the index is that of the keys as big-endian numbers. |
| Index.ValidateSortOrder | crates/ahu/src/index.rs:96-130 | Comparing neighbours accepts exactly the strictly sorted sequences; an error names the first offending pair and tells duplicates from disorder. |
| Index.SearchBetween | crates/ahu/src/index.rs:137-152 | Bisection: a hit matches, and in a sorted index a miss means absence. |
| Index.SearchPreferred | crates/ahu/src/index.rs:154-170 | The preference loop finds the first preferred record, then the default. |
| ManifestCodec.RoundTrip | crates/ahu/src/manifest.rs:120-612 | Decoding the encoded tree returns the manifest. |
| ManifestCodec.NormalFormIsUnique | crates/ahu/src/manifest.rs:120-290 | Equal trees mean equal manifests. |
| ManifestCodec.CodesAreRead | crates/ahu/src/manifest.rs:120-300 | Type, completeness, responder-id and compression codes decode to what they are written for; every other code is refused. |
| ManifestCodec.DecodingIgnoresOrder | crates/ahu/src/manifest.rs:293-612 | Decoding is unchanged by permuting any integer-keyed map with distinct keys, at every level. |
| ManifestCodec.PermutedMaps | crates/ahu/src/manifest.rs:301-445 | Permuting distinct integer keys changes no field lookup. |
| Bundle.CborIsFaithful | crates/ahu/src/manifest.rs:120-300 | A faithful byte-level CBOR codec makes the manifest codec faithful. |
| Bundle.ReadBundle | crates/ahu/src/bundle.rs:29-55 | The reader returns what the section layout says, with its errors in order. |
| Bundle.WriteBundle | crates/ahu/src/bundle.rs:58-84 | The writer lays out sections after the header without gaps, or reports sections too large. |
| Bundle.AssembledParses | crates/ahu/src/bundle.rs:29-84 | A file laid out this way parses to its sections. |
| Bundle.RewriteIsStable | crates/ahu/src/bundle.rs:29-84 | Writing a parsed bundle and parsing again keeps manifest bytes, seal, index and data, and the bytes then no longer change. |
| Bundle.VerifyStructure | crates/ahu/src/verify.rs:28-117 | Accepts exactly when the decoded manifest matches its bytes, digests match, the index is strictly sorted, entries lie inside the data, and a delta names its base; the report then holds everywhere but the count and seal warnings. |
| Bundle.VerifiedManifestIsSigned | crates/ahu/src/verify.rs:30-50 | An accepted bundle's manifest is the one its signed bytes carry. |
| Bundle.ManifestDecidesAnswers | crates/ahu/src/verify.rs:28-117 | Two bundles that verify with one manifest have equal index and data, as far as the digest separates them, so the signed bytes decide every lookup. |
| Bundle.SearchRefines | crates/ahu/src/bundle.rs:88-118 | Bisection over a verified index reads a plain finite map. |
| Bundle.LookupRefines | crates/ahu/src/bundle.rs:88-97 | Both lookups of a verified bundle are lookups in its plain map: first preference present, then the default. |
| Bundle.ChoiceExactly | crates/ahu/src/bundle.rs:88-97 | A lookup with preferences takes the first preferred variant that is there, a removal included, and the default only if none is. |
| Entries.Stored | crates/ahu/src/bundle.rs:177-193 | What a reader gets back of a payload equals it if and only if it is shorter than 2^32 bytes. |
| Entries.LongPayloadIsCut | crates/ahu/src/bundle.rs:186-188 | A payload of exactly 2^32 bytes reads back empty. |
| Entries.SortedInOrder | crates/ahu/src/bundle.rs:261-263 | The sort orders entries by key and discriminator. |
| Entries.SortIsStable | crates/ahu/src/bundle.rs:261-263 | Entries with equal identifiers keep their order. |
| Entries.SortedDistinct | crates/ahu/src/bundle.rs:261-263 | Sorting neither makes nor removes repeated identifiers. |
| Entries.SortedMeaning | crates/ahu/src/bundle.rs:261-263 | Sorting does not change the map distinct entries stand for. |
| Builder.BundleBuilder.AddEntryWithDiscriminator | crates/ahu/src/bundle.rs:177-193 | Appends one plain entry. |
| Builder.BundleBuilder.AddDualEntryWithDiscriminator | crates/ahu/src/bundle.rs:209-238 | Appends two aliased entries carrying one payload. |
| Builder.BundleBuilder.AddTombstone | crates/ahu/src/bundle.rs:242-253 | Appends a removal. |
| Builder.LayOutPoints | crates/ahu/src/bundle.rs:265-305 | Despite sharing, every record points at its own entry's payload. |
| Builder.BundleBuilder.Build | crates/ahu/src/bundle.rs:257-359 | The loop, digests, seal and header together write the specified file. |
| Builder.BuildParses | crates/ahu/src/bundle.rs:257-359 | The built file parses to its sections, and writing the parsed bundle reproduces it byte for byte. |
| Builder.BuildVerifies | crates/ahu/src/bundle.rs:257-359 | `verify_structure` accepts the parsed build if and only if all (key, discriminator) pairs are distinct and a delta names its base. |
| Builder.BuildRefines | crates/ahu/src/bundle.rs:257-359 | A verified build stands for the plain map of added payloads. |
| Builder.BuildThenLookup | crates/ahu/src/bundle.rs:88-97 | Parse the built file, look up with any preference list, get what was added. |
| MappedBundle.OpenAgrees | crates/ahu/src/mmap_bundle.rs:42-100 | The mapped reader accepts the same files as the heap reader and sees the same sections, all inside the file. |
| MappedBundle.FieldsAgree | crates/ahu/src/mmap_bundle.rs:161-185 | Fields read in place are those of the decoded record. |
| MappedBundle.BinarySearchDisc | crates/ahu/src/mmap_bundle.rs:141-157 | The hand-written search on raw bytes agrees with the heap search on every strictly sorted index, every access inside the file. |
| MappedBundle.EntryAgrees | crates/ahu/src/mmap_bundle.rs:125-138 | The bounds arithmetic on the mapping returns the heap reader's bytes. |
| MappedBundle.LookupMapped | crates/ahu/src/mmap_bundle.rs:105-108 | Default lookup agrees with the heap reader. |
| MappedBundle.LookupPreferredMapped | crates/ahu/src/mmap_bundle.rs:111-123 | Preference lookup agrees with the heap reader. |
| Overlay.LoadBase | crates/ahu/src/ops.rs:138-147 | The working set starts as the base's live entries. |
| Overlay.ApplyRecords | crates/ahu/src/ops.rs:214-233 | One delta's records overlay the working set; the counts are the sizes of the added, replaced and removed sets. |
| Overlay.StatsExactly | crates/ahu/src/ops.rs:208-245 | The counts reported of each delta are the payloads it brought for identifiers not held and for held ones, the held ones it removed, and whether its chain length exceeds 24. |
| Overlay.ChainIsLastWriter | crates/ahu/src/ops.rs:140-250 | The working set answers what the newest input mentioning an identifier says. |
| Overlay.RetainedFrom | crates/ahu/src/ops.rs:262-285 | A retained payload comes from an input that answers with it, under that input's window. |
| Overlay.LiveIsRetained | crates/ahu/src/ops.rs:208-245 | What is retained for an identifier is the payload of the newest input that mentions it, under that input's window. |
| Overlay.ChainConserves | crates/ahu/src/ops.rs:208-245 | Over any chain, entries left plus all removals equal live base entries plus all additions. |
| DeltaOps.CheckLink | crates/ahu/src/ops.rs:161-207 | A delta links exactly when type, structure, base digest, producer, scopes and any named predecessor match. |
| DeltaOps.ChainedExactly | crates/ahu/src/ops.rs:149-207 | A chain links if and only if every delta is a verified delta of the base's producer and issuers that names the base's manifest digest as its base, and as its predecessor, if any, the manifest digest of the input just before it. |
| DeltaOps.RunChain | crates/ahu/src/ops.rs:149-246 | The loop succeeds exactly when every delta so succeeds the input before it, with working set, highest epoch, running digest and counts as specified. |
| DeltaOps.EnvelopeDecides | crates/ahu/src/ops.rs:275-281 | Comparing the latest production with the earliest expiry decides whether all retained windows overlap. |
| DeltaOps.ComputeWindow | crates/ahu/src/ops.rs:262-285 | Accepts exactly well-formed overlapping windows and returns the earliest start, latest production and earliest expiry, each attained. |
| DeltaOps.ApplySealed | crates/ahu/src/ops.rs:124-300 | Succeeds exactly when the seal is given and, told by the inputs alone: the base is a verified full bundle, each delta succeeds the input before it, no scope of any input is at the last epoch, and the windows of the inputs that contribute a payload are in order and overlap. It then writes the retained entries in key order under the rebased manifest with the right counts and epoch. |
| DeltaOps.ApplyRefines | crates/ahu/src/ops.rs:124-300 | The output parses, passes structural verification, and its lookup map is the left-to-right overlay of base and deltas. |
| DeltaOps.ApplyContinues | crates/ahu/src/ops.rs:248-287 | The output as a reader parses it: a full bundle naming the last input's manifest digest as its predecessor, no base, chain length 0, the base's producer and scopes at exactly one above the highest input epoch, and the earliest start, latest production and earliest expiry of the contributing inputs. |
| DeltaOps.ApplyAdvances | crates/ahu/src/ops.rs:255-260 | Every output scope's epoch exceeds every input scope's. |
| Diff.Diff | crates/ahu/src/ops.rs:42-86 | Added, removed and changed are exactly the set differences and the shared identifiers whose responses differ; with the unchanged ones they count every identifier of either bundle once, which for verified bundles is the entry count. |
| Diff.DiffMatchesStats | crates/ahu/src/ops.rs:42-86 | Between a base and what one delta made of it, added and removed equal the delta's counts if and only if the base holds no tombstones. |
| Diff.TombstoneIsMiscounted | crates/ahu/src/ops.rs:42-86 | Such a base, applied with an empty delta: it is applicable, the statistics report no removal and the difference reports one. |
| Diff.ChangedWasReplaced | crates/ahu/src/ops.rs:63-74 | Over a tombstone-free base whatever changed was replaced, so changed is at most replaced. |
| Diff.ApplyMaterializes | crates/ahu/src/ops.rs:287-300 | What `apply_sealed` writes is the chain's working set, one record per entry. |
| Calendar.DatetimeToEpoch | crates/hoike-sign/src/generate.rs:670-695 | The counting loops compute days by years and months plus the time of day. |
| Calendar.CountingIsCivil | crates/hoike-sign/src/dogtag_sync.rs:652-658 | Counting and the closed form number every date from 1970 on alike. |
| Calendar.YmdInvertsCounting | crates/hoike-sign/src/generate.rs:709-721 | `days_to_ymd` inverts counting on every valid date. |
| Calendar.CountingInvertsYmd | crates/hoike-sign/src/generate.rs:670-721 | On every day from 1970 on `days_to_ymd` gives a valid month and day and counting returns the day. |
| Calendar.DatetimeRoundTrip | crates/hoike-sign/src/generate.rs:697-707 | Times up to the end of 9999 convert and convert back. |
| Calendar.DatetimeExactly | crates/hoike-sign/src/generate.rs:704-706 | A converted time is the one asked for if and only if its year was below 65536, where the 16-bit narrowing starts. |
| Calendar.NarrowingExample | crates/hoike-sign/src/generate.rs:704-706 | Every later year that is 1970 in 16 bits converts to 1970. |
| Calendar.YearsAscend | crates/hoike-server/src/handlers.rs:567-579 | Later days have later or equal years. |
| GeneralizedTime.ParseStamp | crates/hoike-sign/src/dogtag_sync.rs:630-661 | Every 14-digit stamp, with or without Z, is read field by field. |
| GeneralizedTime.ParseAgrees | crates/hoike-sign/src/dogtag_sync.rs:630-661 | On every valid date from 1970 to 9999 the parser agrees with the counting loop. |
| GeneralizedTime.StampReadExactly | crates/hoike-sign/src/dogtag_sync.rs:630-661 | From 1970 on a stamp is read if and only if month, day, hour, minute and second are in range, a leap second included. |
| GeneralizedTime.ImpossibleDayRolls | crates/hoike-sign/src/dogtag_sync.rs:649-660 | A day past the end of its month is accepted and read as a day of the next month. |
| Prepare.ValidateAt | crates/hoike-sign/src/source.rs:56-66 | Accepts exactly a source whose window contains `now`, and returns its expiry. |
| Prepare.Jitter | crates/hoike-sign/src/generate.rs:528-534 | The per-serial jitter is at most the configured jitter. |
| Prepare.JitterExactly | crates/hoike-sign/src/generate.rs:528-534 | It is the configured jitter times the first four bytes of the serial's digest, read big-endian, over 2^32 - 1, rounded down. |
| Prepare.NextUpdateWithin | crates/hoike-sign/src/generate.rs:535-540 | nextUpdate lies between the base time and the window's end, both at most the source's expiry. |
| Prepare.PrepareEntries | crates/hoike-sign/src/generate.rs:484-606 | Prunes, converts and keys every entry in order, stopping at the first error. |
| Prepare.PrunedExactly | crates/hoike-sign/src/generate.rs:498-509 | A serial is dropped exactly when a cutoff is set, its expiry is known, and the cutoff after it ends before the snapshot's time. |
| Prepare.PreparedExactly | crates/hoike-sign/src/generate.rs:484-606 | Preparation succeeds if and only if DER can carry each unpruned serial and its revocation and expiry times can be written. |
| Prepare.PreparedAll | crates/hoike-sign/src/generate.rs:503-509 | Every serial that is not pruned is prepared. |
| Prepare.PreparedDistinct | crates/hoike-sign/src/generate.rs:484-606 | Different prepared entries answer for different serials. |
| Prepare.PreparedContent | crates/hoike-sign/src/generate.rs:511-540 | Each single response says good exactly when the snapshot does, else revoked for the snapshot's reason at its time; every time is the snapshot's, or the serial's base plus jitter capped by the source, exactly when its year is below 65536. |
| Signing.AddSharedEntries | crates/hoike-sign/src/generate.rs:441-477 | Adds every key of a bucket once with the bucket's payload, pairing keys. |
| Signing.SharedCarries | crates/hoike-sign/src/generate.rs:441-477 | The n-th added entry answers the n-th key with the payload. |
| Signing.SignAndAddEntries | crates/hoike-sign/src/generate.rs:609-651 | The builder gains exactly the entries of the buckets signed in order. |
| Signing.SignedExactly | crates/hoike-sign/src/generate.rs:609-651 | A pass succeeds if and only if the signer signs every bucket. |
| Answers.InsideBucket | crates/hoike-sign/src/generate.rs:625-645 | A bucket's response holds exactly one single response for each CertID it covers. |
| Answers.SignedDistinct | crates/hoike-sign/src/generate.rs:609-651 | One pass writes no identifier twice. |
| Answers.PassAnswers | crates/hoike-sign/src/generate.rs:609-651 | Every identifier a pass writes answers with the single response of its key. |
| Answers.AnyChoiceAnswers | crates/hoike-sign/src/live.rs:395-423 | Whatever the preferences, extraction from the answer yields the key's single response. |
| Answers.NoChoiceAnswers | crates/ahu/src/bundle.rs:94-97 | A key that was not prepared is not answered under any preferences. |
| Produce.ScopesShareEpoch | crates/hoike-sign/src/generate.rs:121-154 | All scopes of a produced bundle carry the configured epoch and the issuer's key hashes. |
| Produce.ScopesRouteAnswers | crates/hoike-sign/src/generate.rs:121-154 | Every CertID the bundle answers for has a scope with its algorithm, name hash and key hash at the configured epoch. |
| Produce.ProduceBundle | crates/hoike-sign/src/generate.rs:75-220 | Single-signer production: plan, prepare, sign, build, with errors in order. |
| Produce.ProduceDualBundle | crates/hoike-sign/src/generate.rs:227-417 | Two-signer production under two discriminators. |
| Produce.ProductionExactly | crates/hoike-sign/src/generate.rs:75-220 | Production succeeds if and only if the source is current, the validity window is open and does not overflow, its times can be written, every unpruned serial can be prepared and every role signs every bucket. |
| Produce.ProducedWindow | crates/hoike-sign/src/generate.rs:87-97 | The manifest's window starts at the snapshot's time and ends between the configured validity and that plus the jitter, both capped by the source. |
| Produce.ProducedManifest | crates/hoike-sign/src/generate.rs:158-187 | As a reader parses it the manifest is a full bundle of version 1 by the configured producer, with a nil identifier, no predecessor or base, and as many entries as the index. |
| Produce.ProducedAnswers | crates/hoike-sign/src/generate.rs:441-651 | For every snapshot, CertID mode, bucket size, cutoff and preference list, an unpruned serial's CertID is answered with exactly one matching single response: good exactly when the snapshot says so, else revoked with its time and reason, valid from the snapshot's time to the serial's expiry. |
| Produce.ProducedMisses | crates/hoike-sign/src/generate.rs:441-651 | Any other CertID gets no answer. |
| Produce.ProducedFile | crates/hoike-sign/src/generate.rs:205-220 | The produced file parses and verifies, and its lookups are lookups among the signed entries. |
| Produce.ProducedFileAnswers | crates/hoike-sign/src/generate.rs:205-220 | From snapshot to answer: the produced file parses and verifies, and under every preference list a CertID in play is answered if and only if it names the issuer's name and key hashes under an algorithm of the configured mode and a serial of the snapshot whose cutoff has not passed; the answer then says good exactly when the snapshot does, else revoked at its time for its reason, with the serial's times. |
| Produce.DualVerifies | crates/hoike-sign/src/generate.rs:392-411 | The parsed dual bundle verifies if and only if the second discriminator differs from the first or every serial was pruned. |
| Freshness.ProducedWithin | crates/hoike-sign/src/generate.rs:87-97 | next_update_min <= every entry's nextUpdate <= next_update_max <= source expiry, whenever next_update_max lies before year 65536. |
| Freshness.ProducedWithinExactly | crates/hoike-sign/src/generate.rs:87-97 | For every production: if and only if each unpruned serial's expiry, computed from its digest and the configuration, falls in a year below 65536 or is narrowed to a time not before next_update_min. |
| Freshness.ProducedWithinByYear | crates/hoike-sign/src/generate.rs:87-97 | So for a bundle with an entry, if and only if next_update_min lies in year 9999 or before, unless a window that begins so early ends past year 65535. |
| Freshness.ShortJitterIsRepresentable | crates/hoike-sign/src/generate.rs:170-172 | Which takes a jitter of more than 50,000 years. |
| Freshness.ProducedPastItsWindow | crates/hoike-sign/src/generate.rs:697-706 | Concrete production, signer and reader included, whose window ends with year 67505 or a later one of the kind: it succeeds, and its payload expired before the window it is published with begins to expire. |
| Freshness.ProducedStarts | crates/hoike-sign/src/generate.rs:190-190 | thisUpdate is the moment the source established the status if and only if that moment lies before year 65536. |
| Freshness.ProducedIsFresh | crates/hoike-sign/src/generate.rs:87-97 | So the parsed bundle's payloads outlast its window's expiry. |
| Freshness.ApplyKeepsFresh | crates/ahu/src/ops.rs:262-285 | Materializing a chain keeps the window's expiry at or below every retained payload's nextUpdate. |
| Freshness.ServesWhileOpen | crates/hoike-server/src/handlers.rs:452-480 | A stored answer is served exactly while the window is open both when resolved and when written, for the configured time but never past the window. |
| Freshness.ServedIsFresh | crates/hoike-server/src/handlers.rs:452-480 | A served payload, and a cached copy for its max-age, is never past nextUpdate. |
| Freshness.LiveWindow | crates/hoike-sign/src/live.rs:88-109 | Live signing proceeds exactly inside the source's and certificate's windows and expires with the earlier. |
| Freshness.LiveAnswer | crates/hoike-server/src/handlers.rs:160-182 | A live answer for a serial with an entry is given exactly when the status it repeats, the bundle's window, the certificate and a nonzero validity allow it now, and ends with the first of them. |
| Freshness.ReplyToMiss | crates/hoike-server/src/handlers.rs:255-330 | For a serial with no entry: signed unknown, forwarded or unauthorized, exactly when; the signed one runs from now to the earlier of its validity and the certificate, and stays inside the bundle's window if and only if the window is open and ends no earlier. |
| Freshness.UnknownOutlastsWindow | crates/hoike-server/src/handlers.rs:255-300 | Concrete request at the moment the window closes: a serial with an entry gets try-later, one without is signed and outlasts the window. |
| Orchestrate.SignedIsAdmitted | crates/hoike-sign/src/orchestrate.rs:184-193 | A freshly signed bundle is admitted if and only if the SHA-256 mark is not full and the SHA-1 mark is below the new epoch within the jump limit. |
| Orchestrate.SignedAdvances | crates/hoike-sign/src/orchestrate.rs:184-193 | Admitting it raises the SHA-256 mark by exactly one. |
| Orchestrate.DisjointAdmitAll | crates/hoike-core/src/router.rs:399-473 | Bundles with disjoint keys are admitted together when each is admitted alone. |
| Orchestrate.DisjointMarks | crates/hoike-core/src/router.rs:399-473 | Each key ends where its own bundle alone would have left it. |
| Orchestrate.NextReloadAccepts | crates/hoike-sign/src/orchestrate.rs:272-306 | A directory in which every label has its recorded or a freshly signed file is accepted whole by the next reload, and each signed SHA-256 mark rises by exactly one. |
| Orchestrate.Publisher.SignAndWriteScope | crates/hoike-sign/src/orchestrate.rs:272-290 | Signs at the epoch after the mark and replaces only that label's file; succeeds exactly when the bundle is produced and its file written. |
| Orchestrate.Publisher.SignAndWriteAll | crates/hoike-sign/src/orchestrate.rs:294-306 | With distinct CAs, fresh manifests and room for their marks, and nothing asked of the files it replaces: finished or stopped midway, files that fitted or were missing fit or are missing after it; on success every CA with a source has a fresh fitting file, and if the other CAs had fitting files the whole directory fits. It reports those CAs in order and replaces no other file. It finishes exactly when every CA with a source is signed and its file written. |
| Orchestrate.FirstPass | crates/hoike-cli/src/main.rs:270-281 | The initial pass over an empty directory with a source for every CA: if it finishes, the first load accepts every file and every SHA-256 mark rises by exactly one. It finishes exactly when every CA is signed and written. |
| Orchestrate.ProducedIsSigned | crates/hoike-sign/src/orchestrate.rs:195-230 | A bundle produced for a CA has the scopes, epoch and missing predecessor the lemmas above assume. |
| SyncCheckpoint.Checkpoint.ApplyOne | crates/hoike-sign/src/dogtag_sync.rs:209-243 | One Sync State entry changes records, present set and cookie as specified, or fails. |
| SyncCheckpoint.Checkpoint.ApplyIdSet | crates/hoike-sign/src/dogtag_sync.rs:382-402 | A Sync Info id set deletes or marks present exactly its UUIDs, all of 16 bytes. |
| SyncCheckpoint.Checkpoint.Finish | crates/hoike-sign/src/dogtag_sync.rs:244-262 | Without a delete phase keeps exactly the present records; succeeds exactly when no serial repeats. |
| SyncCheckpoint.Checkpoint.DoSync | crates/hoike-sign/src/dogtag_sync.rs:343-455 | The stream loop folds the messages, then finishes or, where the directory does not support the control, polls; each way of ending has its outcome. |
| SyncCheckpoint.Checkpoint.FullPoll | crates/hoike-sign/src/dogtag_sync.rs:470-505 | Succeeds exactly when the search does and every entry parses, and leaves the last record of each serial, no cookie and no repeated serial. |
| SyncCheckpoint.TruthfulFold | crates/hoike-sign/src/dogtag_sync.rs:368-420 | A truthful stream is accepted message by message, in any order. |
| SyncCheckpoint.PresentRefresh | crates/hoike-sign/src/dogtag_sync.rs:208-263 | A truthful refresh without deletes makes the records equal the server's content if and only if every server entry was mentioned (sections 3.3.2 and 2.5 of RFC 4533). |
| SyncCheckpoint.DeleteRefresh | crates/hoike-sign/src/dogtag_sync.rs:208-263 | A truthful refresh with deletes does so if and only if every change and every disappearance was mentioned. |
| SyncCheckpoint.TwoPhasesKeepStale | crates/hoike-sign/src/dogtag_sync.rs:249-251 | Concrete two-phase stream: an entry left unmentioned in the present phase stays. |
| SyncCheckpoint.PollReproduces | crates/hoike-sign/src/dogtag_sync.rs:494-502 | A poll that parses never repeats a serial, and holds every certificate it was sent if and only if entries of one serial are equal. |
| SyncCheckpoint.PollDropsRevocation | crates/hoike-sign/src/dogtag_sync.rs:494-502 | Concrete poll of a revoked and then a good entry of one serial: the revocation is dropped, where a synchronization that adds both is refused. |
| SyncCheckpoint.RefreshReproduces | crates/hoike-sign/src/dogtag_sync.rs:343-455 | A correct single-phase refresh succeeds and leaves the checkpoint equal to the server's content. |
| SyncCheckpoint.ResumesAfterLastCookie | crates/hoike-sign/src/dogtag_sync.rs:343-455 | A finished exchange resumes after the last cookie it gave, or where it began if it gave none. |
| SyncCheckpoint.Source.Refresh | crates/hoike-sign/src/dogtag_sync.rs:301-341 | Starts from the held checkpoint or the complete stored one of version 1 and this binding, else from nothing; succeeds exactly when an exchange, the second from nothing if the server asks for it, is accepted and the result saved. A failure publishes nothing, success is what a restart resumes from, and other bindings keep their files. |
| SyncCheckpoint.TakeSnapshot | crates/hoike-sign/src/dogtag_sync.rs:509-531 | The snapshot holds every record that is not excluded and nothing else: good if it is not revoked, else revoked at its time with its code if that is a reason of RFC 5280, and its expiry. |
| Gossip.GossipNode.RecordGeneration | crates/hoike-gossip/src/node.rs:352-390 | Prunes, bounds and updates the table as specified. |
| Gossip.GossipNode.Generations | crates/hoike-gossip/src/node.rs:393-398 | Reading prunes rows an hour old and returns the rest. |
| Gossip.HeardExactly | crates/hoike-gossip/src/node.rs:352-390 | An announcement within the limits is in the table after it is heard if and only if its row is live or fewer than 4096 rows are, with the newer epoch and, at its epoch, its digest; every other row stays exactly if it is live. |
| Gossip.TableBounded | crates/hoike-gossip/src/node.rs:373-376 | For every sequence of announcements and reads the table holds at most 4096 rows. |
| Gossip.StaysListed | crates/hoike-gossip/src/node.rs:352-398 | Over every history a row stays, and its epoch does not fall, while events come within an hour after it was last heard. |
| Gossip.RowIsHighest | crates/hoike-gossip/src/node.rs:352-390 | Each surviving row holds the highest epoch heard since it was inserted, with the digest of the latest announcement at that epoch, and when it was last heard. |

## Left out

- Cryptography and certificate parsing (CMS, ECDSA, ML-DSA, PKCS#11, X.509, CRL signatures): one admission predicate and one signing function stand for them.
- CBOR and DER at the byte level, JSON of the state file, and Unicode text: inverse pairs or values.
- HTTP routing, nonce parsing and the other nonce policies, forwarding itself, TLS, metrics, the admin interface and the command line: no hard property.
- The entries of the state directory and of the bundle directory in their own parents: those two directories exist.
- Failing reads of the descriptor and of bundle files: they end as a file that does not parse.
- The writer lock and the store mutex: preconditions, one writer at a time.
- Snapshot paths are modelled with one spelling per digest, so collection comparing path spellings is not captured.
- SWIM membership, sockets, timers and the broadcast admission map of the gossip crate: only the generation table is modelled.
- The asynchronous signer loop and its urgent-revocation baseline.
- Configuration parsing and validation, key loading and certificate rotation, and the legacy configuration without CA entries, which serves the newest bundle under one default label.
- Floating-point rounding of the max-age fraction: the scaled value is an arbitrary number.
- Installability of a materialized bundle at a destination that recorded only the base.
- `ManifestCodec.DecodingIgnoresOrder`: extension entries are text-keyed and order-sensitive, so their order is not permuted.
- Builder.BuildVerifies: assumes the digest separates the aliased payloads and the sections fit a file, as the size fields demand.
- Runs.CrashAlwaysOpens: stated for runs whose transactions reuse only durable blobs, and a durable directory if they stop before the descriptor is synced, because it fails otherwise as listed above; that condition is sufficient, and exact for each single transaction in the lemmas named there.
- SyncCheckpoint.Source.Refresh: the checkpoint files are a map and saving has an outcome; their disk is not the crash model of the store.
- Parsing of directory attributes other than expiry times.
