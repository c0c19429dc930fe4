/**
 The bounded table of generations heard from peers
 (crates/hoike-gossip/src/node.rs, crates/hoike-gossip/src/broadcast.rs).
 */
module Gossip {
  import opened Wrappers
  import opened Bytes
  import opened Collections

  const MAX_ROWS: nat := 4096
  const ROW_LIFETIME: nat := 3600

  /** Names are UTF-8 bytes; the key hash stands for its hexadecimal form. */
  datatype Key = Key(origin: Bytes, producer: Bytes, keyHash: Bytes)

  datatype Announcement = Announcement(key: Key, epoch: u64, digest: Digest, url: Option<Bytes>)

  datatype Row = Row(epoch: u64, digest: Digest, lastSeen: u64)

  type Table = map<Key, Row>

  predicate ValidBounds(a: Announcement) {
    && 0 < |a.key.producer| <= 256 && |a.key.origin| <= 256
    && (|a.key.keyHash| == 20 || |a.key.keyHash| == 32)
    && (a.url.Some? ==> |a.url.value| <= 1024)
  }

  predicate Live(r: Row, now: u64) {
    now < r.lastSeen + ROW_LIFETIME
  }

  /** Rows not refreshed for an hour are dropped; a clock that went back drops none. */
  function Prune(t: Table, now: u64): Table {
    map k | k in t && Live(t[k], now) :: t[k]
  }

  /** A newer or equal epoch takes over the row; any announcement refreshes it. */
  function Updated(r: Row, a: Announcement, now: u64): Row {
    if a.epoch >= r.epoch then Row(a.epoch, a.digest, now) else r.(lastSeen := now)
  }

  function Record(t: Table, a: Announcement, now: u64): Table {
    if !ValidBounds(a) then t
    else
      var u := Prune(t, now);
      if a.key in u then u[a.key := Updated(u[a.key], a, now)]
      else if |u| >= MAX_ROWS then u
      else u[a.key := Row(a.epoch, a.digest, now)]
  }

  class GossipNode {
    var generations: Table

    constructor ()
      ensures generations == map[]
    {
      generations := map[];
    }

    method RecordGeneration(a: Announcement, now: u64)
      modifies this
      ensures generations == Record(old(generations), a, now)
    {
      if !ValidBounds(a) {
        return;
      }
      generations := map k | k in generations && Live(generations[k], now) :: generations[k];
      if a.key !in generations && |generations| >= MAX_ROWS {
        return;
      }
      var entry := if a.key in generations then generations[a.key] else Row(a.epoch, a.digest, now);
      if a.epoch >= entry.epoch {
        entry := entry.(epoch := a.epoch, digest := a.digest);
      }
      entry := entry.(lastSeen := now);
      generations := generations[a.key := entry];
    }

    method Generations(now: u64) returns (rows: Table)
      modifies this
      ensures generations == Prune(old(generations), now) && rows == generations
    {
      generations := map k | k in generations && Live(generations[k], now) :: generations[k];
      rows := generations;
    }
  }

  // ---- histories --------------------------------------------------------------------------

  datatype Event = Announce(a: Announcement, at: u64) | Read(at: u64)

  function TableAt(es: seq<Event>, n: nat): Table
    requires n <= |es|
  {
    if n == 0 then map[]
    else match es[n - 1]
      case Announce(a, at) => Record(TableAt(es, n - 1), a, at)
      case Read(at) => Prune(TableAt(es, n - 1), at)
  }

  lemma PruneShrinks(t: Table, now: u64)
    ensures |Prune(t, now)| <= |t|
  {
    SubsetSize(Prune(t, now).Keys, t.Keys);
  }

  /** However many peers announce, the table stays bounded. */
  lemma {:induction false} TableBounded(es: seq<Event>, n: nat)
    requires n <= |es|
    ensures |TableAt(es, n)| <= MAX_ROWS
  {
    if n > 0 {
      TableBounded(es, n - 1);
      PruneShrinks(TableAt(es, n - 1), es[n - 1].at);
    }
  }

  /** An announcement the table listens to, for this key. */
  predicate Hears(e: Event, k: Key) {
    e.Announce? && ValidBounds(e.a) && e.a.key == k
  }

  /** The row was created by event `i` and has been there ever since. */
  ghost predicate InsertedBy(es: seq<Event>, n: nat, k: Key, i: nat)
    requires n <= |es|
  {
    && i < n && Hears(es[i], k)
    && k !in Prune(TableAt(es, i), es[i].at)
    && forall m :: i < m <= n ==> k in TableAt(es, m)
  }

  /** No announcement heard since `i` has a higher epoch. */
  ghost predicate IsHighest(es: seq<Event>, n: nat, k: Key, i: nat, epoch: u64)
    requires n <= |es|
  {
    forall j :: i <= j < n && Hears(es[j], k) ==> es[j].a.epoch <= epoch
  }

  /** Event `j` is the latest announcement heard since `i` with this epoch, and had this digest. */
  ghost predicate IsLatest(es: seq<Event>, n: nat, k: Key, i: nat, r: Row, j: nat)
    requires n <= |es|
  {
    && i <= j < n && Hears(es[j], k) && es[j].a.epoch == r.epoch && es[j].a.digest == r.digest
    && forall l :: j < l < n && Hears(es[l], k) ==> es[l].a.epoch < r.epoch
  }

  ghost predicate IsLastHeard(es: seq<Event>, n: nat, k: Key, i: nat, r: Row, j: nat)
    requires n <= |es|
  {
    && i <= j < n && Hears(es[j], k) && es[j].at == r.lastSeen
    && forall l :: j < l < n ==> !Hears(es[l], k)
  }

  /** Everything a row says about what was heard. */
  ghost predicate RowTells(es: seq<Event>, n: nat, k: Key, i: nat, r: Row, latest: nat, last: nat)
    requires n <= |es|
  {
    && InsertedBy(es, n, k, i) && IsHighest(es, n, k, i, r.epoch)
    && IsLatest(es, n, k, i, r, latest) && IsLastHeard(es, n, k, i, r, last)
  }

  lemma StillThere(es: seq<Event>, n: nat, k: Key)
    requires 0 < n <= |es| && k in TableAt(es, n) && !Hears(es[n - 1], k)
    ensures k in TableAt(es, n - 1) && TableAt(es, n)[k] == TableAt(es, n - 1)[k]
  {
  }

  lemma HeardRow(es: seq<Event>, n: nat, k: Key)
    requires 0 < n <= |es| && k in TableAt(es, n) && Hears(es[n - 1], k)
    ensures var u, a, at := Prune(TableAt(es, n - 1), es[n - 1].at), es[n - 1].a, es[n - 1].at;
            TableAt(es, n)[k] == if k in u then Updated(u[k], a, at) else Row(a.epoch, a.digest, at)
  {
  }

  /**
   Each surviving row holds the highest epoch heard since it was inserted, with
   the digest of the latest announcement at that epoch.
   */
  lemma {:induction false} RowIsHighest(es: seq<Event>, n: nat, k: Key) returns (i: nat, latest: nat, last: nat)
    requires n <= |es| && k in TableAt(es, n)
    ensures RowTells(es, n, k, i, TableAt(es, n)[k], latest, last)
  {
    if !Hears(es[n - 1], k) {
      StillThere(es, n, k);
      i, latest, last := RowIsHighest(es, n - 1, k);
    } else {
      HeardRow(es, n, k);
      var u, a := Prune(TableAt(es, n - 1), es[n - 1].at), es[n - 1].a;
      if k in u {
        i, latest, last := RowIsHighest(es, n - 1, k);
        if a.epoch >= u[k].epoch {
          latest := n - 1;
        }
        last := n - 1;
      } else {
        i, latest, last := n - 1, n - 1, n - 1;
      }
    }
  }

  // ---- what gets into the table and stays there ----------------------------------------------------

  /** The rows refreshed within the hour. */
  function LiveKeys(t: Table, now: u64): set<Key> {
    set k | k in t && now < t[k].lastSeen + 3600
  }

  /** An announcement within the size limits. */
  predicate Acceptable(a: Announcement) {
    && a.key.producer != [] && |a.key.producer| <= 256 && |a.key.origin| <= 256
    && |a.key.keyHash| in {20, 32} && (a.url.Some? ==> |a.url.value| <= 1024)
  }

  /**
   An acceptable announcement is in the table after it is heard if and only if its row
   is live or fewer than 4096 rows are; every other row stays if and only if it is live.
   */
  lemma HeardExactly(t: Table, a: Announcement, now: u64)
    requires Acceptable(a)
    ensures var u := Record(t, a, now);
            && (a.key in u <==> a.key in LiveKeys(t, now) || |LiveKeys(t, now)| < 4096)
            && (a.key in u ==>
                  && u[a.key].lastSeen == now && a.epoch <= u[a.key].epoch
                  && (u[a.key].epoch == a.epoch ==> u[a.key].digest == a.digest)
                  && (u[a.key].epoch > a.epoch ==> a.key in t && u[a.key] == t[a.key].(lastSeen := now)))
            && (forall k :: k != a.key ==> (k in u <==> k in LiveKeys(t, now)) && (k in u ==> u[k] == t[k]))
  {
    assert Prune(t, now).Keys == LiveKeys(t, now);
  }

  /** Any other announcement is ignored. */
  lemma OthersIgnored(t: Table, a: Announcement, now: u64)
    ensures !Acceptable(a) ==> Record(t, a, now) == t
  {
  }

  /** Every event from `i` to `n` falls in the hour after `since`. */
  ghost predicate WithinTheHour(es: seq<Event>, i: nat, n: nat, since: u64)
    requires n <= |es|
  {
    forall j :: i <= j < n ==> since <= es[j].at < since + 3600
  }

  /** A row stays, and its epoch does not fall, while the clock is within an hour of when it was last heard. */
  lemma {:induction false} StaysListed(es: seq<Event>, i: nat, n: nat, k: Key)
    requires i <= n <= |es| && k in TableAt(es, i) && WithinTheHour(es, i, n, TableAt(es, i)[k].lastSeen)
    ensures k in TableAt(es, n) && TableAt(es, i)[k].epoch <= TableAt(es, n)[k].epoch
    ensures TableAt(es, i)[k].lastSeen <= TableAt(es, n)[k].lastSeen
  {
    if i < n {
      StaysListed(es, i, n - 1, k);
      assert Live(TableAt(es, n - 1)[k], es[n - 1].at);
      assert k in Prune(TableAt(es, n - 1), es[n - 1].at);
    }
  }
}
