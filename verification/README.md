# Session presence, modelled in Dafny

This project models the session-presence bookkeeping of a small meditation
web app (`src/presence.js`). There are two pieces of state:

- **Local storage**, where the browser keeps its session id under `"sessionId"`.
- **The realtime store's `sessions` subtree**, a map from session id to
  `{lastActive, status: "online"}`.

One tracker (`setupPresence`) writes its own record in three ways:

- on every connect notification;
- on every 5000 ms heartbeat;
- on stop, when it deletes the record.

It also arms a store-side hook that removes the record when the connection
drops. A reaper (`cleanupInactiveSessions`) deletes every record whose
`lastActive` is more than 10 000 ms old.

Every store write is a pure map update on the key `sessions/<id>`, with the
session id taken as one plain path segment (see "## Left out"). The timers,
the clock and the store's callbacks become explicit timestamped events:

| file | module | what it models |
|---|---|---|
| `local_session.dfy` | `LocalSession` | `getOrCreateSessionId`, the id format |
| `presence.dfy` | `Presence` | record, tracker state, connect, heartbeat, disconnect hook, stop |
| `reaper.dfy` | `Reaper` | the one-shot scan and delete |
| `trace.dfy` | `Trace` | runs of events; lemmas over event sequences |

What the code does not do:

- Records are deleted; they are never marked `offline`.
- Records have no `startTime` or `endTime` field.
- The staleness threshold is 10 000 ms, compared strictly (`<`).
- There is no daily-maximum aggregator.

Two details of the code are kept as written:

- `!sessionId` is also true for a stored empty string. So an empty stored id
  is replaced by a fresh one, just like a missing one.
- The stop function clears the heartbeat and deletes the record. It does not
  detach the `.info/connected` listener. A later connect-true notification
  therefore writes the record back online, with no heartbeat to keep it
  fresh (`Trace.ReconnectAfterStop`).

## Model

| member | source | states |
|---|---|---|
| LocalSession.GetOrCreateSessionId | src/presence.js:4-11 | the id returned is non-empty and is what storage holds under "sessionId" afterwards; a stored non-empty id is returned with storage untouched; otherwise the fresh id (time, dash, suffix) is returned; no other storage key changes |
| LocalSession.GetOrCreateIdempotent | src/presence.js:5-10 | a second call returns the first call's id and leaves storage as the first call left it, whatever time and suffix it would have generated |
| LocalSession.Decimal | src/presence.js:7 | the timestamp part of a fresh id is a non-empty string of decimal digits |
| LocalSession.DecimalRoundTrip | src/presence.js:7 | reading the timestamp part back as a decimal number gives the timestamp |
| LocalSession.FreshIdInjective | src/presence.js:7 | ids generated from different (time, suffix) pairs are different |
| LocalSession.FreshIdIsPlainKey | src/presence.js:7 | a generated id with a base-36 suffix is a single plain key for the path built at line 14: non-empty, with no `/`, `.`, `#`, `$`, `[` or `]` |
| Presence.Setup | src/presence.js:13-29 | setting up writes nothing to the store; the heartbeat is running and no disconnect hook is armed yet |
| Presence.Connected | src/presence.js:18-23 | a true notification makes the session's record exactly `{lastActive: now, status: "online"}`, leaves every other key as it was and arms the hook; a false notification changes nothing |
| Presence.ConnectReplacesRecord | src/presence.js:20 | the connect write overwrites: the result does not depend on the record that was there before |
| Presence.Tick | src/presence.js:27-29 | while the interval runs, a heartbeat makes the session's record `{lastActive: now, status: "online"}` and changes no other key; after it is cleared, a tick changes nothing |
| Presence.Disconnect | src/presence.js:22 | the armed hook removes the session's key (no offline record is written), touches no other key and is consumed; with no armed hook nothing changes |
| Presence.Stop | src/presence.js:32-35 | after stop the session's key is absent and the heartbeat is cleared; no other key changes; the armed hook stays |
| Presence.StopIdempotent | src/presence.js:32-35 | calling the stop function twice gives the same state as calling it once |
| Presence.NoTickAfterStop | src/presence.js:27-29 | a heartbeat after stop writes nothing and the session stays absent |
| Reaper.LaterScanDeletesMore | src/presence.js:43-45 | staleness only grows with time: a later scan of the same snapshot selects every id an earlier one would and leaves no more sessions behind |
| Reaper.Reap | src/presence.js:42-47 | after a scan a key is present exactly when it was present and was not a stale snapshot entry; surviving keys keep their records |
| Reaper.CleanupInactiveSessions | src/presence.js:39-50 | the entry-by-entry delete loop ends in the same store as `Reap` |
| Reaper.ThresholdBoundary | src/presence.js:45 | an entry exactly 10000 ms old is kept; one 10001 ms old is deleted |
| Reaper.EmptySnapshotNoChange | src/presence.js:42 | a null or empty snapshot leaves the store unchanged |
| Reaper.StatusIgnored | src/presence.js:45 | snapshots that differ only in status delete the same sessions |
| Reaper.ReapIdempotent | src/presence.js:41-47 | a second scan at the same time leaves the store as the first scan left it |
| Reaper.RecentHeartbeatSurvives | src/presence.js:27-29 | a record written within the last 5000 ms survives a scan of the current store, unchanged |
| Trace.RunAppend | src/presence.js:13-50 | running two event sequences one after the other is running their concatenation |
| Trace.IdStable | src/presence.js:13-14 | no event changes which session the tracker writes |
| Trace.NeverOffline | src/presence.js:20 | every record stays online under any run: the code only writes online records or deletes |
| Trace.OtherSessionsOnlyDeleted | src/presence.js:28 | over any run, another session's record is never changed, only possibly deleted by the reaper |
| Trace.StoppedStaysAbsent | src/presence.js:32-35 | once stopped, no run of heartbeats, disconnects and scans (with no connect-true) brings the session back or restarts the heartbeat |
| Trace.StopThenRun | src/presence.js:32-35 | from any state, stop followed by any run with no connect-true leaves the session absent |
| Trace.ClearedStaysCleared | src/presence.js:33 | once the interval is cleared, no run of events, reconnects included, restarts the heartbeat |
| Trace.HeartbeatActiveUntilStop | src/presence.js:27-33 | from a running heartbeat, after any run the heartbeat is running if and only if the run holds no stop call |
| Trace.SetupLifecycle | src/presence.js:13-35 | after `setupPresence` and any run, the tracker still writes the id it was given, and its heartbeat runs if and only if stop has not been called |
| Trace.ReconnectAfterStop | src/presence.js:18-20 | a connect-true notification after stop writes the record back online, with the heartbeat still cleared |
| Trace.AliveThroughRun | src/presence.js:27-29 | a heartbeating session written at time t or later stays present, with lastActive at least t, through heartbeats, reconnects and scans no later than t + 10000 |
| Trace.HeartbeatSurvivesCleanup | src/presence.js:45 | after a heartbeat at t, a scan at or before t + 10000 keeps the session, whatever heartbeats, reconnects and scans come in between |

## Left out

- Firebase SDK initialisation (`src/firebase.js`) is not modelled. That file
  does not export `onDisconnect`, although `src/presence.js:1` imports it. The
  hook is modelled as intended by `src/presence.js:22`: a `.remove()` run by
  the store.
- Clocks and timers are not modelled. `Date.now`, `setInterval` and
  `clearInterval` become event timestamps and a heartbeat-running flag.
- The random id suffix (`Math.random().toString(36).slice(2)`) is an opaque
  string parameter, because randomness cannot be modelled.
- Asynchronous writes, cross-tab races and snapshot-versus-write ordering are
  not modelled. `Reaper.Reap` takes any snapshot. Runs in `Trace` apply a scan
  atomically to the current subtree.
- The JavaScript number type is not modelled: timestamps are unbounded
  integers, which is exact for epoch milliseconds.
- Session ids are treated as single plain keys. An id with `/` would write to
  a nested path under `sessions/`, and one with `.`, `#`, `$`, `[` or `]`
  makes the store reject the path before any callback is registered.
  Neither is modelled. `LocalSession.FreshIdIsPlainKey` shows a generated id
  never has these characters; a hand-edited stored id could.
- The id generator takes the time as a `nat`, while events use `int`.
  `Date.now()` is never negative, and the decimal rendering covers only
  non-negative numbers.
- Records written by other clients with a missing `lastActive` are not
  modelled. Every record has an integer `lastActive`.
- Audio loading (`src/utils/soundUtils.js`) is not modelled. It is pure I/O.
- Routing (`src/router/index.js`) is not modelled. It is configuration only.
- The breathing-technique table (`src/data/BreathingTechniques.js`) is not
  modelled. It is static data.
