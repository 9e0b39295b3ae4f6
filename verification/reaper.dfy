/**
 The reaper, `cleanupInactiveSessions` (src/presence.js:39-50): one read of
 the `sessions` subtree, then a `null` write (a delete) for every entry
 whose `lastActive` is more than 10 000 ms behind the time of the scan.
 */
module Reaper {
  import opened Presence

  /** Age in milliseconds beyond which a session is deleted. */
  const StaleAfter: int := 10000

  /** The value a one-shot read returns: `null` for an absent subtree, otherwise its entries. */
  datatype Snapshot = Null | Value(entries: Sessions)

  /** `snap.val() || {}`: a `null` snapshot reads as no entries. */
  function Entries(snap: Snapshot): Sessions {
    match snap
    case Null => map[]
    case Value(e) => e
  }

  /** The strict comparison the reaper makes; `status` is not looked at. */
  predicate IsStale(rec: SessionRecord, now: int) {
    rec.lastActive < now - StaleAfter
  }

  /** The ids the scan deletes: the snapshot's entries that are stale at `now`. */
  function StaleIds(snap: Snapshot, now: int): (ids: set<string>)
    ensures forall id :: id in ids <==> id in Entries(snap) && IsStale(Entries(snap)[id], now)
  {
    set id | id in Entries(snap) && IsStale(Entries(snap)[id], now)
  }

  /**
   Staleness only grows with time: every session a scan at `now` would
   delete, a later scan of the same snapshot deletes too, so a later scan
   leaves no more sessions behind.
   */
  lemma LaterScanDeletesMore(snap: Snapshot, now: int, now': int)
    requires now <= now'
    ensures StaleIds(snap, now) <= StaleIds(snap, now')
    ensures forall store: Sessions :: Reap(store, snap, now').Keys <= Reap(store, snap, now).Keys
  {
  }

  /**
   The store after one scan: the stale ids of the snapshot are deleted from
   the current subtree, everything else keeps its record.
   */
  function Reap(store: Sessions, snap: Snapshot, now: int): (r: Sessions)
    ensures forall id :: id in r <==>
      id in store && !(id in Entries(snap) && Entries(snap)[id].lastActive < now - StaleAfter)
    ensures forall id :: id in r ==> r[id] == store[id]
  {
    store - StaleIds(snap, now)
  }

  /**
   The scan as the source writes it: a loop over the snapshot's entries
   deleting each stale one in turn. It ends in the same store as `Reap`.
   */
  method CleanupInactiveSessions(store: Sessions, snap: Snapshot, now: int) returns (r: Sessions)
    ensures r == Reap(store, snap, now)
  {
    var entries := Entries(snap);
    var todo := entries.Keys;
    r := store;
    while todo != {}
      invariant todo <= entries.Keys
      invariant r == store - (StaleIds(snap, now) - todo)
      decreases todo
    {
      var id :| id in todo;
      if entries[id].lastActive < now - StaleAfter {
        r := r - {id};
      }
      todo := todo - {id};
    }
  }

  /** An entry exactly 10 000 ms old survives; one a millisecond older does not. */
  lemma ThresholdBoundary(store: Sessions, id: string, rec: SessionRecord, now: int)
    requires id in store
    ensures rec.lastActive == now - StaleAfter ==> id in Reap(store, Value(map[id := rec]), now)
    ensures rec.lastActive == now - StaleAfter - 1 ==> id !in Reap(store, Value(map[id := rec]), now)
  {
  }

  /** A `null` or empty snapshot deletes nothing. */
  lemma EmptySnapshotNoChange(store: Sessions, now: int)
    ensures Reap(store, Null, now) == store
    ensures Reap(store, Value(map[]), now) == store
  {
  }

  /** Snapshots that differ only in `status` delete the same sessions. */
  lemma StatusIgnored(store: Sessions, s1: Sessions, s2: Sessions, now: int)
    requires s1.Keys == s2.Keys
    requires forall id :: id in s1 ==> s1[id].lastActive == s2[id].lastActive
    ensures Reap(store, Value(s1), now) == Reap(store, Value(s2), now)
  {
  }

  /**
   Scanning the current store twice at the same `now` (the second scan reads
   what the first left) gives the same store as scanning once.
   */
  lemma ReapIdempotent(store: Sessions, now: int)
    ensures var once := Reap(store, Value(store), now);
            Reap(once, Value(once), now) == once
  {
  }

  /**
   A record rewritten by a heartbeat no more than one heartbeat interval
   ago is not stale, so a scan of the current store keeps it.
   */
  lemma RecentHeartbeatSurvives(store: Sessions, id: string, now: int)
    requires id in store
    requires store[id].lastActive >= now - HeartbeatInterval
    ensures id in Reap(store, Value(store), now)
    ensures Reap(store, Value(store), now)[id] == store[id]
  {
  }
}
