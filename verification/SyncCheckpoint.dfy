/**
 The directory synchronization checkpoint: folding a refreshOnly response stream
 of RFC 4533 into the stored records, and taking a status snapshot of them
 (crates/hoike-sign/src/dogtag_sync.rs).
 */
module SyncCheckpoint {
  import opened Wrappers
  import opened Bytes
  import opened Collections
  import opened Disk
  import P = Prepare

  /** Sync UUIDs; records are kept under their hexadecimal form, which is unique. */
  type EntryUuid = Bytes

  datatype Record = Record(
    serial: P.Serial,
    revoked: Option<(u64, Option<nat>)>,
    excluded: bool,
    notAfter: Option<u64>)

  type Records = map<EntryUuid, Record>

  datatype EntryState = Add | Modify | Delete | Present

  /** What a server sends; an entry whose controls or attributes do not parse is `Garbled`. */
  datatype Message =
    | Entry(state: EntryState, uuid: EntryUuid, entryCookie: Option<Bytes>, record: Option<Record>)
    | NewCookie(newCookie: Bytes)
    | PhaseEnd(phaseCookie: Option<Bytes>)
    | IdSet(setCookie: Option<Bytes>, refreshDeletes: bool, uuids: seq<EntryUuid>)
    | Garbled

  /** Where the stream loop stands. */
  datatype Staged = Staged(records: Records, present: set<EntryUuid>, cookie: Option<Bytes>)

  function NewerCookie(old_: Option<Bytes>, new_: Option<Bytes>): Option<Bytes> {
    if new_.Some? then new_ else old_
  }

  function SetOf(uuids: seq<EntryUuid>): set<EntryUuid> {
    set u | u in uuids
  }

  predicate WellFormed(uuids: seq<EntryUuid>) {
    forall n :: 0 <= n < |uuids| ==> |uuids[n]| == 16
  }

  // ---- one message --------------------------------------------------------------------

  function ApplyEntry(st: Staged, state: EntryState, uuid: EntryUuid, cookie: Option<Bytes>, record: Option<Record>)
    : Option<Staged>
  {
    if |uuid| != 16 then None
    else
      var s := st.(cookie := NewerCookie(st.cookie, cookie));
      match state
      case Delete => Some(s.(records := s.records - {uuid}))
      case Present => if uuid in s.records then Some(s.(present := s.present + {uuid})) else None
      case Add => Put(s, uuid, record)
      case Modify => Put(s, uuid, record)
  }

  function Put(st: Staged, uuid: EntryUuid, record: Option<Record>): Option<Staged> {
    if record.None? then None
    else Some(st.(present := st.present + {uuid}, records := st.records[uuid := record.value]))
  }

  function Step(st: Staged, m: Message): Option<Staged> {
    match m
    case Entry(state, uuid, cookie, record) => ApplyEntry(st, state, uuid, cookie, record)
    case NewCookie(cookie) => Some(st.(cookie := Some(cookie)))
    case PhaseEnd(cookie) => Some(st.(cookie := NewerCookie(st.cookie, cookie)))
    case IdSet(cookie, refreshDeletes, uuids) =>
      var s := st.(cookie := NewerCookie(st.cookie, cookie));
      if !WellFormed(uuids) then None
      else if refreshDeletes then Some(s.(records := s.records - SetOf(uuids)))
      else Some(s.(present := s.present + SetOf(uuids)))
    case Garbled => None
  }

  /** The state after the first `n` messages. */
  function Fold(st: Staged, ms: seq<Message>, n: nat): Option<Staged>
    requires n <= |ms|
  {
    if n == 0 then Some(st)
    else match Fold(st, ms, n - 1)
      case None => None
      case Some(s) => Step(s, ms[n - 1])
  }

  // ---- finishing --------------------------------------------------------------------------

  ghost predicate DistinctSerials(records: Records) {
    forall u, v :: u in records && v in records && records[u].serial == records[v].serial ==> u == v
  }

  /** Without a delete phase, whatever was not reported present is gone. */
  function Retained(st: Staged, refreshDeletes: bool): Records {
    if refreshDeletes then st.records else map u | u in st.records && u in st.present :: st.records[u]
  }

  // ---- correct streams -------------------------------------------------------------------

  predicate Adds(m: Message, u: EntryUuid) {
    m.Entry? && (m.state.Add? || m.state.Modify?) && m.uuid == u
  }

  predicate Presents(m: Message, u: EntryUuid) {
    (m.Entry? && m.state.Present? && m.uuid == u) || (m.IdSet? && !m.refreshDeletes && u in m.uuids)
  }

  predicate Deletes(m: Message, u: EntryUuid) {
    (m.Entry? && m.state.Delete? && m.uuid == u) || (m.IdSet? && m.refreshDeletes && u in m.uuids)
  }

  /**
   A message tells the truth about server content `s` to a client that held
   `held`: additions carry the current entry, entries reported present are
   unchanged, and only absent entries are deleted.
   */
  ghost predicate Truthful(held: Records, s: Records, m: Message) {
    && !m.Garbled?
    && (m.Entry? ==> |m.uuid| == 16) && (m.IdSet? ==> WellFormed(m.uuids))
    && (forall u :: Adds(m, u) ==> u in s && m.record == Some(s[u]))
    && (forall u :: Presents(m, u) ==> u in s && u in held && held[u] == s[u])
    && (forall u :: Deletes(m, u) ==> u !in s)
  }

  ghost predicate TruthfulStream(held: Records, s: Records, ms: seq<Message>) {
    forall n :: 0 <= n < |ms| ==> Truthful(held, s, ms[n])
  }

  predicate AddedBy(ms: seq<Message>, n: nat, u: EntryUuid)
    requires n <= |ms|
  {
    exists k :: 0 <= k < n && Adds(ms[k], u)
  }

  predicate PresentedBy(ms: seq<Message>, n: nat, u: EntryUuid)
    requires n <= |ms|
  {
    exists k :: 0 <= k < n && Presents(ms[k], u)
  }

  predicate DeletedBy(ms: seq<Message>, n: nat, u: EntryUuid)
    requires n <= |ms|
  {
    exists k :: 0 <= k < n && Deletes(ms[k], u)
  }

  /** What the staged state holds about one entry after `n` truthful messages. */
  ghost predicate Tracks(held: Records, s: Records, ms: seq<Message>, n: nat, st: Staged, u: EntryUuid)
    requires n <= |ms|
  {
    && (u in st.records <==> AddedBy(ms, n, u) || (u in held && !DeletedBy(ms, n, u)))
    && (AddedBy(ms, n, u) ==> u in s && u in st.records && st.records[u] == s[u])
    && (!AddedBy(ms, n, u) && u in st.records ==> u in held && st.records[u] == held[u])
    && (u in st.present <==> AddedBy(ms, n, u) || PresentedBy(ms, n, u))
    && (DeletedBy(ms, n, u) ==> u !in s)
  }

  lemma OneMore(ms: seq<Message>, n: nat, u: EntryUuid)
    requires n < |ms|
    ensures AddedBy(ms, n + 1, u) <==> AddedBy(ms, n, u) || Adds(ms[n], u)
    ensures PresentedBy(ms, n + 1, u) <==> PresentedBy(ms, n, u) || Presents(ms[n], u)
    ensures DeletedBy(ms, n + 1, u) <==> DeletedBy(ms, n, u) || Deletes(ms[n], u)
  {
  }

  /** How one message changes what is staged about one entry. */
  lemma StepAt(st: Staged, m: Message, u: EntryUuid)
    requires Step(st, m).Some?
    ensures var t := Step(st, m).value;
            && (u in t.records <==> Adds(m, u) || (u in st.records && !Deletes(m, u)))
            && (Adds(m, u) ==> m.record == Some(t.records[u]))
            && (!Adds(m, u) && u in t.records ==> t.records[u] == st.records[u])
            && (u in t.present <==> u in st.present || Adds(m, u) || Presents(m, u))
  {
  }

  lemma TruthfulSteps(held: Records, s: Records, ms: seq<Message>, n: nat, st: Staged)
    requires n < |ms| && Truthful(held, s, ms[n]) && forall u :: Tracks(held, s, ms, n, st, u)
    ensures Step(st, ms[n]).Some?
  {
    var m := ms[n];
    if m.Entry? && m.state.Present? {
      assert Presents(m, m.uuid) && Tracks(held, s, ms, n, st, m.uuid);
    } else if m.Entry? && !m.state.Delete? {
      assert Adds(m, m.uuid);
    }
  }

  lemma TracksOn(held: Records, s: Records, ms: seq<Message>, n: nat, st: Staged, u: EntryUuid)
    requires n < |ms| && Truthful(held, s, ms[n]) && Tracks(held, s, ms, n, st, u) && Step(st, ms[n]).Some?
    ensures Tracks(held, s, ms, n + 1, Step(st, ms[n]).value, u)
  {
    OneMore(ms, n, u);
    StepAt(st, ms[n], u);
  }

  /** A truthful stream is accepted message by message. */
  lemma {:induction false} TruthfulFold(held: Records, s: Records, ms: seq<Message>, n: nat, cookie: Option<Bytes>)
    requires n <= |ms| && TruthfulStream(held, s, ms)
    ensures var r := Fold(Staged(held, {}, cookie), ms, n);
            r.Some? && forall u :: Tracks(held, s, ms, n, r.value, u)
  {
    if n > 0 {
      TruthfulFold(held, s, ms, n - 1, cookie);
      var st := Fold(Staged(held, {}, cookie), ms, n - 1).value;
      TruthfulSteps(held, s, ms, n - 1, st);
      var next := Step(st, ms[n - 1]).value;
      forall u
        ensures Tracks(held, s, ms, n, next, u)
      {
        TracksOn(held, s, ms, n - 1, st, u);
      }
    }
  }

  /** What a present-phase refresh must mention: every entry of the server. */
  ghost predicate CoversPresent(s: Records, ms: seq<Message>) {
    forall u :: u in s ==> AddedBy(ms, |ms|, u) || PresentedBy(ms, |ms|, u)
  }

  /** What a delete-phase refresh must mention: every change and every disappearance. */
  ghost predicate CoversDeletes(held: Records, s: Records, ms: seq<Message>) {
    && (forall u :: u in s ==> AddedBy(ms, |ms|, u) || (u in held && held[u] == s[u]))
    && (forall u :: u in held && u !in s ==> DeletedBy(ms, |ms|, u))
  }

  function Synced(held: Records, ms: seq<Message>, cookie: Option<Bytes>, refreshDeletes: bool): Records
    requires Fold(Staged(held, {}, cookie), ms, |ms|).Some?
  {
    Retained(Fold(Staged(held, {}, cookie), ms, |ms|).value, refreshDeletes)
  }

  /** A refresh without deletes reproduces the server exactly when every server entry was mentioned. */
  lemma PresentRefresh(held: Records, s: Records, ms: seq<Message>, cookie: Option<Bytes>)
    requires TruthfulStream(held, s, ms)
    ensures Fold(Staged(held, {}, cookie), ms, |ms|).Some?
    ensures Synced(held, ms, cookie, false) == s <==> CoversPresent(s, ms)
  {
    TruthfulFold(held, s, ms, |ms|, cookie);
    var st := Fold(Staged(held, {}, cookie), ms, |ms|).value;
    var out := Synced(held, ms, cookie, false);
    forall u
      ensures u in out <==> AddedBy(ms, |ms|, u) || PresentedBy(ms, |ms|, u)
      ensures u in out ==> u in s && out[u] == s[u]
    {
      PresentEntry(held, s, ms, st, u);
    }
    if CoversPresent(s, ms) {
      assert out.Keys == s.Keys;
    }
  }

  lemma PresentEntry(held: Records, s: Records, ms: seq<Message>, st: Staged, u: EntryUuid)
    requires TruthfulStream(held, s, ms) && Tracks(held, s, ms, |ms|, st, u)
    ensures var out := Retained(st, false);
            && (u in out <==> AddedBy(ms, |ms|, u) || PresentedBy(ms, |ms|, u))
            && (u in out ==> u in s && out[u] == s[u])
  {
    if PresentedBy(ms, |ms|, u) {
      var k :| 0 <= k < |ms| && Presents(ms[k], u);
      assert Truthful(held, s, ms[k]);
    }
  }

  /** A refresh with deletes reproduces the server exactly when every change and disappearance was mentioned. */
  lemma DeleteRefresh(held: Records, s: Records, ms: seq<Message>, cookie: Option<Bytes>)
    requires TruthfulStream(held, s, ms)
    ensures Fold(Staged(held, {}, cookie), ms, |ms|).Some?
    ensures Synced(held, ms, cookie, true) == s <==> CoversDeletes(held, s, ms)
  {
    TruthfulFold(held, s, ms, |ms|, cookie);
    var st := Fold(Staged(held, {}, cookie), ms, |ms|).value;
    var out := Synced(held, ms, cookie, true);
    assert forall u :: Tracks(held, s, ms, |ms|, st, u);
    if CoversDeletes(held, s, ms) {
      forall u
        ensures u in out <==> u in s
        ensures u in s ==> out[u] == s[u]
      {
        assert Tracks(held, s, ms, |ms|, st, u);
      }
      assert out.Keys == s.Keys;
    }
    if out == s {
      forall u
        ensures u in s ==> AddedBy(ms, |ms|, u) || (u in held && held[u] == s[u])
        ensures u in held && u !in s ==> DeletedBy(ms, |ms|, u)
      {
        assert Tracks(held, s, ms, |ms|, st, u);
      }
    }
  }

  /**
   A refresh of two phases ends with the delete flag set, so an entry that merely
   went unmentioned in its present phase stays: here `u` has left the server.
   */
  lemma TwoPhasesKeepStale(u: EntryUuid, r: Record, cookie: Option<Bytes>)
    ensures var held, s: Records, ms := map[u := r], map[], [PhaseEnd(None), PhaseEnd(None)];
            && TruthfulStream(held, s, ms)
            && CoversPresent(s, ms)
            && Fold(Staged(held, {}, cookie), ms, |ms|).Some?
            && Synced(held, ms, cookie, true) == held != s
  {
    var held: Records, s: Records, ms := map[u := r], map[], [PhaseEnd(None), PhaseEnd(None)];
    var st := Staged(held, {}, cookie);
    assert Fold(st, ms, 0) == Some(st) && Fold(st, ms, 1) == Some(st) && Fold(st, ms, 2) == Some(st);
    assert u in held && u !in s;
  }

  // ---- the full poll ----------------------------------------------------------------------------

  /** An entry of a plain search; the search itself may fail, and then there are none. */
  datatype PollEntry = Unparsed | NotCertificate | Certificate(record: Record)

  /** Records kept under their serial's own bytes, where a synchronization keeps them under its UUIDs. */
  function PolledTo(es: seq<PollEntry>, n: nat): Option<Records>
    requires n <= |es|
  {
    if n == 0 then Some(map[])
    else match PolledTo(es, n - 1)
      case None => None
      case Some(rs) =>
        match es[n - 1]
        case Unparsed => None
        case NotCertificate => Some(rs)
        case Certificate(r) => Some(rs[r.serial := r])
  }

  function Polled(poll: Option<seq<PollEntry>>): Option<Records> {
    match poll
    case None => None
    case Some(es) => PolledTo(es, |es|)
  }

  ghost predicate UnderSerials(records: Records) {
    forall u :: u in records ==> records[u].serial == u
  }

  /** Entry `k` is a certificate and none of the next ones up to `n` has its serial. */
  predicate LastOf(es: seq<PollEntry>, n: nat, k: nat)
    requires n <= |es|
  {
    && k < n && es[k].Certificate?
    && forall j :: k < j < n && es[j].Certificate? ==> es[j].record.serial != es[k].record.serial
  }

  /** The records of a poll are the last entry of each serial, and nothing else. */
  ghost predicate HoldsLast(es: seq<PollEntry>, n: nat, rs: Records)
    requires n <= |es|
  {
    && UnderSerials(rs)
    && (forall k :: 0 <= k < n && LastOf(es, n, k) ==>
          es[k].record.serial in rs && rs[es[k].record.serial] == es[k].record)
    && (forall x :: x in rs ==> exists k :: 0 <= k < n && LastOf(es, n, k) && es[k].record.serial == x)
  }

  lemma PollOneMore(es: seq<PollEntry>, n: nat, rs: Records)
    requires n < |es| && HoldsLast(es, n, rs) && !es[n].Unparsed?
    ensures HoldsLast(es, n + 1, if es[n].Certificate? then rs[es[n].record.serial := es[n].record] else rs)
  {
    var m := n + 1;
    var after := if es[n].Certificate? then rs[es[n].record.serial := es[n].record] else rs;
    forall k | 0 <= k < m && LastOf(es, m, k)
      ensures es[k].record.serial in after && after[es[k].record.serial] == es[k].record
    {
      assert k < n ==> LastOf(es, n, k);
    }
    forall x | x in after
      ensures exists k :: 0 <= k < m && LastOf(es, m, k) && es[k].record.serial == x
    {
      if es[n].Certificate? && es[n].record.serial == x {
        assert LastOf(es, m, n);
      } else {
        var k :| 0 <= k < n && LastOf(es, n, k) && es[k].record.serial == x;
        assert LastOf(es, m, k);
      }
    }
  }

  lemma {:induction false} PolledSpec(es: seq<PollEntry>, n: nat)
    requires n <= |es|
    ensures PolledTo(es, n).Some? <==> forall k :: 0 <= k < n ==> !es[k].Unparsed?
    ensures PolledTo(es, n).Some? ==> HoldsLast(es, n, PolledTo(es, n).value)
  {
    if n > 0 {
      PolledSpec(es, n - 1);
      if PolledTo(es, n).Some? {
        PollOneMore(es, n - 1, PolledTo(es, n - 1).value);
      }
    }
  }

  /** Every certificate the search returned is held as it was returned. */
  ghost predicate PollComplete(es: seq<PollEntry>, rs: Records) {
    forall k :: 0 <= k < |es| && es[k].Certificate? ==>
      es[k].record.serial in rs && rs[es[k].record.serial] == es[k].record
  }

  predicate SerialsAgree(es: seq<PollEntry>) {
    forall i, j :: 0 <= i < |es| && 0 <= j < |es| ==> Agree(es[i], es[j])
  }

  predicate Agree(e: PollEntry, f: PollEntry) {
    e.Certificate? && f.Certificate? && e.record.serial == f.record.serial ==> e.record == f.record
  }

  lemma {:induction false} LastExists(es: seq<PollEntry>, k: nat) returns (j: nat)
    requires k < |es| && es[k].Certificate?
    ensures k <= j < |es| && LastOf(es, |es|, j) && es[j].record.serial == es[k].record.serial
    decreases |es| - k
  {
    if LastOf(es, |es|, k) {
      j := k;
    } else {
      var i :| k < i < |es| && es[i].Certificate? && es[i].record.serial == es[k].record.serial;
      j := LastExists(es, i);
    }
  }

  /** A poll that parses is accepted, and loses no entry if and only if entries of one serial are equal. */
  lemma PollReproduces(es: seq<PollEntry>)
    requires PolledTo(es, |es|).Some?
    ensures DistinctSerials(PolledTo(es, |es|).value)
    ensures PollComplete(es, PolledTo(es, |es|).value) <==> SerialsAgree(es)
  {
    PolledSpec(es, |es|);
    var rs := PolledTo(es, |es|).value;
    if SerialsAgree(es) {
      forall k | 0 <= k < |es| && es[k].Certificate?
        ensures es[k].record.serial in rs && rs[es[k].record.serial] == es[k].record
      {
        var j := LastExists(es, k);
        assert Agree(es[k], es[j]);
      }
    }
  }

  /**
   Otherwise the last entry of a serial is kept without an error: here a revocation is
   dropped by a poll, where a synchronization that adds the same two records refuses.
   */
  lemma PollDropsRevocation(serial: P.Serial, u: EntryUuid, v: EntryUuid, time: u64)
    requires |u| == |v| == 16 && u != v
    ensures var revoked, good :=
              Record(serial, Some((time, None)), false, None), Record(serial, None, false, None);
            && PolledTo([Certificate(revoked), Certificate(good)], 2) == Some(map[serial := good])
            && var ms := [Entry(Add, u, None, Some(revoked)), Entry(Add, v, None, Some(good))];
               && Fold(Staged(map[], {}, None), ms, 2).Some?
               && !DistinctSerials(Retained(Fold(Staged(map[], {}, None), ms, 2).value, false))
  {
    var revoked, good := Record(serial, Some((time, None)), false, None), Record(serial, None, false, None);
    var es := [Certificate(revoked), Certificate(good)];
    assert PolledTo(es, 0) == Some(map[]) && PolledTo(es, 1) == Some(map[serial := revoked]);
    assert map[serial := revoked][serial := good] == map[serial := good];
    var ms, st := [Entry(Add, u, None, Some(revoked)), Entry(Add, v, None, Some(good))], Staged(map[], {}, None);
    var none: Records := map[];
    var one := Staged(none[u := revoked], {} + {u}, None);
    assert Fold(st, ms, 0) == Some(st) && Step(st, ms[0]) == Some(one) && Fold(st, ms, 1) == Some(one);
    var two := Step(one, ms[1]).value;
    assert Fold(st, ms, 2) == Some(two);
    var out := Retained(two, false);
    assert u in out && v in out && out[u].serial == out[v].serial;
  }

  // ---- the checkpoint object ------------------------------------------------------------------

  /** How the search ended. */
  datatype SearchEnd =
    | RefreshRequired
    | Unsupported(poll: Option<seq<PollEntry>>)
    | SearchFailed
    | Finished(dones: seq<(Option<Bytes>, bool)>)

  datatype SyncError = BadStream | NeedsRefresh | BadPoll | BadEnd | DuplicateSerial | NotSaved

  /** The serials seen so far are those of the records taken so far, each once. */
  ghost predicate Seen(records: Records, taken: set<EntryUuid>, serials: set<P.Serial>) {
    && taken <= records.Keys
    && (forall u :: u in taken ==> records[u].serial in serials)
    && (forall x :: x in serials ==> exists u :: u in taken && records[u].serial == x)
    && (forall u, v :: u in taken && v in taken && records[u].serial == records[v].serial ==> u == v)
  }

  lemma SeeOneMore(records: Records, taken: set<EntryUuid>, serials: set<P.Serial>, u: EntryUuid)
    requires Seen(records, taken, serials) && u in records && u !in taken && records[u].serial !in serials
    ensures Seen(records, taken + {u}, serials + {records[u].serial})
  {
    assert u in taken + {u};
    forall x | x in serials + {records[u].serial}
      ensures exists v :: v in taken + {u} && records[v].serial == x
    {
      if x in serials {
        var v :| v in taken && records[v].serial == x;
        assert v in taken + {u};
      }
    }
  }

  lemma SeenTwice(records: Records, taken: set<EntryUuid>, serials: set<P.Serial>, u: EntryUuid)
    requires Seen(records, taken, serials) && u in records && u !in taken && records[u].serial in serials
    ensures !DistinctSerials(records)
  {
    var v :| v in taken && records[v].serial == records[u].serial;
  }

  lemma SeenAll(records: Records, serials: set<P.Serial>)
    requires Seen(records, records.Keys, serials)
    ensures DistinctSerials(records)
  {
  }

  method SerialsDistinct(records: Records) returns (ok: bool)
    ensures ok <==> DistinctSerials(records)
  {
    var left, serials: set<P.Serial> := records.Keys, {};
    ghost var taken: set<EntryUuid> := {};
    while left != {}
      invariant Parts(left, taken, records.Keys) && Seen(records, taken, serials)
      decreases |left|
    {
      var u :| u in left;
      VisitOne(left, taken, records.Keys, u);
      if records[u].serial in serials {
        SeenTwice(records, taken, serials, u);
        return false;
      }
      SeeOneMore(records, taken, serials, u);
      serials := serials + {records[u].serial};
      left := left - {u};
      taken := taken + {u};
    }
    VisitedAll(taken, records.Keys);
    SeenAll(records, serials);
    ok := true;
  }

  class Checkpoint {
    var cookie: Option<Bytes>
    var records: Records
    var complete: bool

    constructor (c: Option<Bytes>, rs: Records, done: bool)
      ensures cookie == c && records == rs && complete == done
    {
      cookie, records, complete := c, rs, done;
    }

    /** One Sync State entry; on an error the caller drops the staged checkpoint. */
    method ApplyOne(state: EntryState, uuid: EntryUuid, newCookie: Option<Bytes>, record: Option<Record>,
                    present: set<EntryUuid>)
      returns (ok: bool, present': set<EntryUuid>)
      modifies this`cookie, this`records
      ensures var r := ApplyEntry(Staged(old(records), present, old(cookie)), state, uuid, newCookie, record);
              ok == r.Some? && (ok ==> r.value == Staged(records, present', cookie))
    {
      ok, present' := false, present;
      if |uuid| != 16 {
        return;
      }
      if newCookie.Some? {
        cookie := newCookie;
      }
      match state {
        case Delete =>
          records := records - {uuid};
        case Present =>
          if uuid !in records {
            return;
          }
          present' := present + {uuid};
        case _ =>
          if record.None? {
            return;
          }
          present' := present + {uuid};
          records := records[uuid := record.value];
      }
      ok := true;
    }

    /** A Sync Info id set, UUID by UUID. */
    method ApplyIdSet(refreshDeletes: bool, uuids: seq<EntryUuid>, present: set<EntryUuid>)
      returns (ok: bool, present': set<EntryUuid>)
      modifies this`records
      ensures ok == WellFormed(uuids)
      ensures ok ==> records == (if refreshDeletes then old(records) - SetOf(uuids) else old(records))
      ensures ok ==> present' == if refreshDeletes then present else present + SetOf(uuids)
    {
      present' := present;
      for n := 0 to |uuids|
        invariant forall k :: 0 <= k < n ==> |uuids[k]| == 16
        invariant records == if refreshDeletes then old(records) - SetOf(uuids[..n]) else old(records)
        invariant present' == if refreshDeletes then present else present + SetOf(uuids[..n])
      {
        if |uuids[n]| != 16 {
          ok := false;
          return;
        }
        SetOfSnoc(uuids, n);
        if refreshDeletes {
          records := records - {uuids[n]};
        } else {
          present' := present' + {uuids[n]};
        }
      }
      assert uuids[..|uuids|] == uuids;
      ok := true;
    }

    method ApplyMessage(m: Message, present: set<EntryUuid>) returns (ok: bool, present': set<EntryUuid>)
      modifies this`cookie, this`records
      ensures var r := Step(Staged(old(records), present, old(cookie)), m);
              ok == r.Some? && (ok ==> r.value == Staged(records, present', cookie))
    {
      ok, present' := true, present;
      match m {
        case Entry(state, uuid, entryCookie, record) =>
          ok, present' := ApplyOne(state, uuid, entryCookie, record, present);
        case NewCookie(c) =>
          cookie := Some(c);
        case PhaseEnd(c) =>
          cookie := NewerCookie(cookie, c);
        case IdSet(c, refreshDeletes, uuids) =>
          cookie := NewerCookie(cookie, c);
          ok, present' := ApplyIdSet(refreshDeletes, uuids, present);
        case Garbled =>
          ok := false;
      }
    }

    /** Drops what is gone and refuses a serial that occurs twice. */
    method Finish(present: set<EntryUuid>, refreshDeletes: bool) returns (ok: bool)
      modifies this`records, this`complete
      ensures records == Retained(Staged(old(records), present, cookie), refreshDeletes)
      ensures ok <==> DistinctSerials(records)
      ensures complete == (ok || old(complete))
    {
      if !refreshDeletes {
        records := map u | u in records && u in present :: records[u];
      }
      ok := SerialsDistinct(records);
      if ok {
        complete := true;
      }
    }

    /** The whole certificate population from a plain search, into an emptied checkpoint. */
    method FullPoll(poll: Option<seq<PollEntry>>) returns (r: Result<(), SyncError>)
      modifies this
      ensures r == if Polled(poll).Some? then Ok(()) else Err(BadPoll)
      ensures r.Ok? ==> records == Polled(poll).value && DistinctSerials(records) && cookie.None? && complete
      ensures r.Err? && complete ==> old(complete)
    {
      if poll.None? {
        return Err(BadPoll);
      }
      cookie, records, complete := None, map[], false;
      var es := poll.value;
      var present: set<EntryUuid> := {};
      for n := 0 to |es|
        invariant PolledTo(es, n) == Some(records) && present == records.Keys && cookie.None? && !complete
      {
        match es[n] {
          case Unparsed =>
            PollStays(es, n + 1, |es|);
            return Err(BadPoll);
          case NotCertificate =>
          case Certificate(record) =>
            present := present + {record.serial};
            records := records[record.serial := record];
        }
      }
      PollReproduces(es);
      assert Retained(Staged(records, present, cookie), false) == records;
      var ok := Finish(present, false);
      r := if ok then Ok(()) else Err(DuplicateSerial);
    }

    /** The whole exchange on a staged copy; without a cookie it starts from nothing. */
    method DoSync(ms: seq<Message>, end: SearchEnd) returns (r: Result<(), SyncError>)
      modifies this
      ensures r == SyncOutcome(old(cookie), old(records), ms, end)
      ensures r.Ok? ==> && records == SyncRecords(old(cookie), old(records), ms, end) && complete
                        && cookie == SyncCookie(old(cookie), old(records), ms, end) && DistinctSerials(records)
      // what fails is complete only if it resumed something complete
      ensures r.Err? && complete ==> old(complete) && old(cookie).Some?
    {
      if cookie.None? {
        records := map[];
        complete := false;
      }
      ghost var start := Staged(records, {}, cookie);
      var present: set<EntryUuid> := {};
      for n := 0 to |ms|
        invariant Fold(start, ms, n) == Some(Staged(records, present, cookie))
        invariant complete == (old(complete) && old(cookie).Some?)
      {
        var ok;
        ok, present := ApplyMessage(ms[n], present);
        if !ok {
          FailureStays(start, ms, n + 1, |ms|);
          return Err(BadStream);
        }
      }
      match end {
        case RefreshRequired => return Err(NeedsRefresh);
        case Unsupported(poll) =>
          r := FullPoll(poll);
        case SearchFailed => return Err(BadEnd);
        case Finished(dones) =>
          if |dones| != 1 {
            return Err(BadEnd);
          }
          cookie := NewerCookie(cookie, dones[0].0);
          var ok := Finish(present, dones[0].1);
          r := if ok then Ok(()) else Err(DuplicateSerial);
      }
    }
  }

  lemma SetOfSnoc(uuids: seq<EntryUuid>, n: nat)
    requires n < |uuids|
    ensures SetOf(uuids[..n + 1]) == SetOf(uuids[..n]) + {uuids[n]}
  {
    assert uuids[..n + 1] == uuids[..n] + [uuids[n]];
  }

  lemma {:induction false} FailureStays(st: Staged, ms: seq<Message>, n: nat, m: nat)
    requires n <= m <= |ms| && Fold(st, ms, n).None?
    ensures Fold(st, ms, m).None?
  {
    if n < m {
      FailureStays(st, ms, n, m - 1);
    }
  }

  lemma {:induction false} PollStays(es: seq<PollEntry>, n: nat, m: nat)
    requires n <= m <= |es| && PolledTo(es, n).None?
    ensures PolledTo(es, m).None?
  {
    if n < m {
      PollStays(es, n, m - 1);
    }
  }

  /** What the exchange starts from. */
  function StartFrom(cookie: Option<Bytes>, held: Records): Staged {
    Staged(if cookie.None? then map[] else held, {}, cookie)
  }

  ghost function SyncOutcome(cookie: Option<Bytes>, held: Records, ms: seq<Message>, end: SearchEnd)
    : Result<(), SyncError>
  {
    match Fold(StartFrom(cookie, held), ms, |ms|)
    case None => Err(BadStream)
    case Some(st) =>
      match end
      case RefreshRequired => Err(NeedsRefresh)
      case Unsupported(poll) => if Polled(poll).Some? then Ok(()) else Err(BadPoll)
      case SearchFailed => Err(BadEnd)
      case Finished(dones) =>
        if |dones| != 1 then Err(BadEnd)
        else if DistinctSerials(Retained(st, dones[0].1)) then Ok(()) else Err(DuplicateSerial)
  }

  ghost function SyncRecords(cookie: Option<Bytes>, held: Records, ms: seq<Message>, end: SearchEnd): Records
    requires SyncOutcome(cookie, held, ms, end).Ok?
  {
    if end.Unsupported? then Polled(end.poll).value
    else Retained(Fold(StartFrom(cookie, held), ms, |ms|).value, end.dones[0].1)
  }

  /** The position to resume from: the last cookie the server gave, none after a poll. */
  ghost function SyncCookie(cookie: Option<Bytes>, held: Records, ms: seq<Message>, end: SearchEnd): Option<Bytes>
    requires SyncOutcome(cookie, held, ms, end).Ok?
  {
    if end.Unsupported? then None
    else NewerCookie(Fold(StartFrom(cookie, held), ms, |ms|).value.cookie, end.dones[0].0)
  }

  /** A correct single-phase refresh leaves the checkpoint equal to the server's content. */
  lemma RefreshReproduces(cookie: Option<Bytes>, held: Records, s: Records, ms: seq<Message>, doneCookie: Option<Bytes>,
                          deletes: bool)
    requires TruthfulStream(StartFrom(cookie, held).records, s, ms) && DistinctSerials(s)
    requires if deletes then CoversDeletes(StartFrom(cookie, held).records, s, ms) else CoversPresent(s, ms)
    ensures var end := Finished([(doneCookie, deletes)]);
            SyncOutcome(cookie, held, ms, end).Ok? && SyncRecords(cookie, held, ms, end) == s
  {
    var start := StartFrom(cookie, held).records;
    if deletes {
      DeleteRefresh(start, s, ms, cookie);
    } else {
      PresentRefresh(start, s, ms, cookie);
    }
  }

  /** The cookie a message carries. */
  function CookieIn(m: Message): Option<Bytes> {
    match m
    case Entry(_, _, cookie, _) => cookie
    case NewCookie(cookie) => Some(cookie)
    case PhaseEnd(cookie) => cookie
    case IdSet(cookie, _, _) => cookie
    case Garbled => None
  }

  predicate NoCookie(ms: seq<Message>, from: nat, to: nat)
    requires to <= |ms|
  {
    forall k :: from <= k < to ==> CookieIn(ms[k]).None?
  }

  /** `c` is the last cookie of the first `n` messages, or `start` if they carry none. */
  ghost predicate LastCookie(start: Option<Bytes>, ms: seq<Message>, n: nat, c: Option<Bytes>)
    requires n <= |ms|
  {
    || (c == start && NoCookie(ms, 0, n))
    || (c.Some? && exists k :: 0 <= k < n && CookieIn(ms[k]) == c && NoCookie(ms, k + 1, n))
  }

  lemma {:induction false} FoldCookie(st: Staged, ms: seq<Message>, n: nat)
    requires n <= |ms| && Fold(st, ms, n).Some?
    ensures LastCookie(st.cookie, ms, n, Fold(st, ms, n).value.cookie)
  {
    if n > 0 {
      FoldCookie(st, ms, n - 1);
      var before, c := Fold(st, ms, n - 1).value.cookie, CookieIn(ms[n - 1]);
      assert Fold(st, ms, n).value.cookie == if c.Some? then c else before;
      if c.Some? {
        assert NoCookie(ms, n, n);
      } else if !NoCookie(ms, 0, n) {
        var k :| 0 <= k < n - 1 && CookieIn(ms[k]) == before && NoCookie(ms, k + 1, n - 1);
        assert NoCookie(ms, k + 1, n);
      }
    }
  }

  /** A finished exchange resumes after the last cookie it gave, or where it began if it gave none. */
  lemma ResumesAfterLastCookie(cookie: Option<Bytes>, held: Records, ms: seq<Message>, done: Option<Bytes>,
                               deletes: bool)
    requires SyncOutcome(cookie, held, ms, Finished([(done, deletes)])).Ok?
    ensures var c := SyncCookie(cookie, held, ms, Finished([(done, deletes)]));
            if done.Some? then c == done else LastCookie(cookie, ms, |ms|, c)
  {
    FoldCookie(StartFrom(cookie, held), ms, |ms|);
  }

  // ---- the source -----------------------------------------------------------------------------

  datatype Held = Held(cookie: Option<Bytes>, records: Records, complete: bool)

  datatype Exchange = Exchange(messages: seq<Message>, end: SearchEnd)

  /** What a refresh accepts: the first exchange, or a second from scratch when the server asks for it. */
  ghost predicate Accepted(held: Held, first: Exchange, second: Exchange, now: Held) {
    || (&& SyncOutcome(held.cookie, held.records, first.messages, first.end).Ok?
        && now == Held(SyncCookie(held.cookie, held.records, first.messages, first.end),
                       SyncRecords(held.cookie, held.records, first.messages, first.end), true))
    || (&& SyncOutcome(held.cookie, held.records, first.messages, first.end) == Err(NeedsRefresh)
        && SyncOutcome(None, map[], second.messages, second.end).Ok?
        && now == Held(SyncCookie(None, map[], second.messages, second.end),
                       SyncRecords(None, map[], second.messages, second.end), true))
  }

  ghost predicate Acceptable(held: Held, first: Exchange, second: Exchange) {
    || SyncOutcome(held.cookie, held.records, first.messages, first.end).Ok?
    || (&& SyncOutcome(held.cookie, held.records, first.messages, first.end) == Err(NeedsRefresh)
        && SyncOutcome(None, map[], second.messages, second.end).Ok?)
  }

  /** The digest of the source's and the issuer's identity; a checkpoint file is named after it. */
  type Binding = string

  datatype Stored = Stored(version: nat, binding: Binding, held: Held)

  const NOTHING_HELD := Held(None, map[], false)

  /** Only a complete checkpoint of this version and binding is resumed; a file that does not parse is absent. */
  function Resumed(files: map<Binding, Stored>, b: Binding): Held {
    if b in files && files[b].version == 1 && files[b].binding == b && files[b].held.complete then files[b].held
    else NOTHING_HELD
  }

  class Source {
    var binding: Binding
    var held: Held
    /** The checkpoint files, by the binding in their name. */
    var files: map<Binding, Stored>

    constructor (files: map<Binding, Stored>)
      ensures binding == "" && held == NOTHING_HELD && this.files == files
    {
      binding, held, this.files := "", NOTHING_HELD, files;
    }

    /** What this process refreshes from: its own checkpoint, or the stored one of another binding. */
    function Base(b: Binding): Held
      reads this
    {
      if binding == b then held else Resumed(files, b)
    }

    /** Works on a copy and publishes it only once it is complete and saved. */
    method Refresh(b: Binding, first: Exchange, second: Exchange, save: Written) returns (r: Result<Records, SyncError>)
      modifies this
      ensures binding == b
      ensures r.Err? ==> held == old(Base(b))
      ensures r.Ok? ==> && save.Done? && r.value == held.records && DistinctSerials(held.records)
                        && Accepted(old(Base(b)), first, second, held)
      // it succeeds exactly when an exchange is accepted and the result saved
      ensures r.Ok? <==> save.Done? && Acceptable(old(Base(b)), first, second)
      // another binding starts from its complete checkpoint of version 1, or from nothing
      ensures old(binding) != b && r.Ok? ==>
                if b in old(files) && Stored(1, b, old(files)[b].held) == old(files)[b] && old(files)[b].held.complete
                then Accepted(old(files)[b].held, first, second, held)
                else Accepted(Held(None, map[], false), first, second, held)
      // a restart resumes from what was published; other bindings keep their files
      ensures r.Ok? ==> Resumed(files, b) == held
      ensures forall c :: c != b ==> Resumed(files, c) == Resumed(old(files), c)
      // a failed save leaves the old file, or the accepted new one when only its directory sync failed
      ensures r.Err? ==>
                || files == old(files)
                || (save.Uncertain? && Accepted(old(Base(b)), first, second, Resumed(files, b)))
    {
      if binding != b {
        held := Resumed(files, b);
        binding := b;
      }
      var staged := new Checkpoint(held.cookie, held.records, held.complete);
      var done := staged.DoSync(first.messages, first.end);
      if done == Err(NeedsRefresh) {
        staged := new Checkpoint(None, map[], false);
        done := staged.DoSync(second.messages, second.end);
      }
      if done.Err? {
        return Err(done.error);
      }
      var next := Held(staged.cookie, staged.records, staged.complete);
      if !save.Failed? {
        files := files[b := Stored(1, b, next)];
      }
      if !save.Done? {
        return Err(NotSaved);
      }
      held := next;
      r := Ok(held.records);
    }
  }

  // ---- taking a snapshot ---------------------------------------------------------------------------

  function ReasonOf(code: nat): Option<nat> {
    if code <= 6 || 8 <= code <= 10 then Some(code) else None
  }

  function StatusOf(r: Record): P.Status {
    match r.revoked
    case None => P.Good
    case Some((time, code)) => P.Revoked(time, if code.Some? then ReasonOf(code.value) else None)
  }

  datatype Taken = Taken(entries: map<P.Serial, P.Status>, notAfter: map<P.Serial, u64>)

  /** Every record not excluded is under its serial with its status, and nothing else is. */
  ghost predicate EntriesOf(records: Records, from: set<EntryUuid>, entries: map<P.Serial, P.Status>) {
    && from <= records.Keys
    && (forall u :: u in from && !records[u].excluded ==>
          records[u].serial in entries && entries[records[u].serial] == StatusOf(records[u]))
    && (forall x :: x in entries ==> exists u :: u in from && !records[u].excluded && records[u].serial == x)
  }

  predicate Expiring(r: Record) {
    !r.excluded && r.notAfter.Some?
  }

  /** And so are the expiry times of those that have one. */
  ghost predicate ExpiriesOf(records: Records, from: set<EntryUuid>, notAfter: map<P.Serial, u64>) {
    && from <= records.Keys
    && (forall u :: u in from && Expiring(records[u]) ==>
          records[u].serial in notAfter && notAfter[records[u].serial] == records[u].notAfter.value)
    && (forall x :: x in notAfter ==> exists u :: u in from && Expiring(records[u]) && records[u].serial == x)
  }

  ghost predicate SnapshotOf(records: Records, from: set<EntryUuid>, t: Taken) {
    EntriesOf(records, from, t.entries) && ExpiriesOf(records, from, t.notAfter)
  }

  function TakeStatus(r: Record, entries: map<P.Serial, P.Status>): map<P.Serial, P.Status> {
    if r.excluded then entries else entries[r.serial := StatusOf(r)]
  }

  function TakeExpiry(r: Record, notAfter: map<P.Serial, u64>): map<P.Serial, u64> {
    if Expiring(r) then notAfter[r.serial := r.notAfter.value] else notAfter
  }

  lemma TakeOneStatus(records: Records, from: set<EntryUuid>, entries: map<P.Serial, P.Status>, u: EntryUuid)
    requires DistinctSerials(records) && EntriesOf(records, from, entries) && u in records && u !in from
    ensures EntriesOf(records, from + {u}, TakeStatus(records[u], entries))
  {
    var entries' := TakeStatus(records[u], entries);
    assert u in from + {u};
    forall x | x in entries'
      ensures exists v :: v in from + {u} && !records[v].excluded && records[v].serial == x
    {
      if x in entries {
        var v :| v in from && !records[v].excluded && records[v].serial == x;
        assert v in from + {u};
      }
    }
  }

  lemma TakeOneExpiry(records: Records, from: set<EntryUuid>, notAfter: map<P.Serial, u64>, u: EntryUuid)
    requires DistinctSerials(records) && ExpiriesOf(records, from, notAfter) && u in records && u !in from
    ensures ExpiriesOf(records, from + {u}, TakeExpiry(records[u], notAfter))
  {
    var notAfter' := TakeExpiry(records[u], notAfter);
    assert u in from + {u};
    forall x | x in notAfter'
      ensures exists v :: v in from + {u} && Expiring(records[v]) && records[v].serial == x
    {
      if x in notAfter {
        var v :| v in from && Expiring(records[v]) && records[v].serial == x;
        assert v in from + {u};
      }
    }
  }

  /** Good if not revoked; else revoked at that time, with the code if it is a reason of RFC 5280. */
  ghost predicate Reports(r: Record, st: P.Status) {
    match r.revoked
    case None => st.Good?
    case Some((time, code)) =>
      && st.Revoked? && st.time == time
      && st.reason == if code.Some? && code.value in {0, 1, 2, 3, 4, 5, 6, 8, 9, 10} then code else None
  }

  lemma StatusIsReported(r: Record)
    ensures Reports(r, StatusOf(r))
  {
  }

  /** No record that is not excluded is lost, because serials are distinct. */
  method TakeSnapshot(records: Records) returns (t: Taken)
    requires DistinctSerials(records)
    ensures SnapshotOf(records, records.Keys, t)
    ensures forall u :: u in records && !records[u].excluded ==>
              records[u].serial in t.entries && Reports(records[u], t.entries[records[u].serial])
  {
    t := Taken(map[], map[]);
    var left := records.Keys;
    ghost var from: set<EntryUuid> := {};
    while left != {}
      invariant Parts(left, from, records.Keys) && SnapshotOf(records, from, t)
      decreases |left|
    {
      var u :| u in left;
      VisitOne(left, from, records.Keys, u);
      TakeOneStatus(records, from, t.entries, u);
      TakeOneExpiry(records, from, t.notAfter, u);
      t := Taken(TakeStatus(records[u], t.entries), TakeExpiry(records[u], t.notAfter));
      left := left - {u};
      from := from + {u};
    }
    VisitedAll(from, records.Keys);
    forall u | u in records && !records[u].excluded
      ensures records[u].serial in t.entries && Reports(records[u], t.entries[records[u].serial])
    {
      StatusIsReported(records[u]);
    }
  }
}
