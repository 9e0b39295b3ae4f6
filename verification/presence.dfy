/**
 The presence tracker of one browser session (`setupPresence`,
 src/presence.js:13-36), as pure transitions over the realtime store's
 `sessions` subtree.

 The store's subtree is a map from session id to record. Writing `null`
 at `sessions/<id>` and the disconnect hook's `.remove()` both delete the
 key: no record is ever marked offline. Timers and the clock become
 explicit events carrying the time at which they fire.
 */
module Presence {

  /** The only status value the code ever writes. */
  const Online: string := "online"

  /** Period of the heartbeat timer, in milliseconds. */
  const HeartbeatInterval: int := 5000

  /** A record under `sessions/<id>`: `{lastActive, status}`. */
  datatype SessionRecord = SessionRecord(lastActive: int, status: string)

  type Sessions = map<string, SessionRecord>

  /**
   What one `setupPresence` call holds on to: the session id, whether its
   heartbeat interval is still running, and whether a disconnect hook has
   been armed on the store.
   */
  datatype Tracker = Tracker(id: string, heartbeatActive: bool, hookArmed: bool)

  /** The store's sessions subtree together with the tracker that writes to it. */
  datatype World = World(sessions: Sessions, tracker: Tracker)

  /** The value written by the connect callback and by every heartbeat. */
  function OnlineRecord(now: int): SessionRecord {
    SessionRecord(now, Online)
  }

  /** The two maps agree on every key other than `id`. */
  ghost predicate AgreeExcept(a: Sessions, b: Sessions, id: string) {
    forall k :: k != id ==> (k in a <==> k in b) && (k in a ==> a[k] == b[k])
  }

  /** `setupPresence(id)`: registers the callbacks and starts the heartbeat; it writes nothing itself. */
  function Setup(sessions: Sessions, id: string): (w: World)
    ensures w.sessions == sessions
    ensures w.tracker.id == id && w.tracker.heartbeatActive && !w.tracker.hookArmed
  {
    World(sessions, Tracker(id, true, false))
  }

  /**
   A notification on `.info/connected`. On `true` the record is written
   online at `now` and the remove-on-disconnect hook is armed; on `false`
   nothing happens. The listener is never detached, so this applies
   whether or not the stop function has run.
   */
  function Connected(w: World, connected: bool, now: int): (r: World)
    ensures connected ==> var id := w.tracker.id;
      && id in r.sessions && r.sessions[id] == OnlineRecord(now)
      && AgreeExcept(r.sessions, w.sessions, id)
      && r.tracker == w.tracker.(hookArmed := true)
    ensures !connected ==> r == w
  {
    if connected then
      World(w.sessions[w.tracker.id := OnlineRecord(now)], w.tracker.(hookArmed := true))
    else
      w
  }

  /**
   The heartbeat timer firing at `now`: while the interval runs it rewrites
   this session's record online at `now`; once cleared it never fires.
   */
  function Tick(w: World, now: int): (r: World)
    ensures r.tracker == w.tracker
    ensures AgreeExcept(r.sessions, w.sessions, w.tracker.id)
    ensures w.tracker.heartbeatActive ==>
      w.tracker.id in r.sessions && r.sessions[w.tracker.id] == OnlineRecord(now)
    ensures !w.tracker.heartbeatActive ==> r == w
  {
    if w.tracker.heartbeatActive then
      w.(sessions := w.sessions[w.tracker.id := OnlineRecord(now)])
    else
      w
  }

  /**
   The store running the armed disconnect hook when the connection drops:
   the session's key is removed (the hook is consumed). Without an armed
   hook nothing happens.
   */
  function Disconnect(w: World): (r: World)
    ensures w.tracker.hookArmed ==> w.tracker.id !in r.sessions
    ensures AgreeExcept(r.sessions, w.sessions, w.tracker.id)
    ensures !r.tracker.hookArmed
    ensures r.tracker.id == w.tracker.id && r.tracker.heartbeatActive == w.tracker.heartbeatActive
    ensures !w.tracker.hookArmed ==> r == w
  {
    if w.tracker.hookArmed then
      World(w.sessions - {w.tracker.id}, w.tracker.(hookArmed := false))
    else
      w
  }

  /**
   The stop function returned by `setupPresence`: clears the heartbeat and
   writes `null`, which deletes the session's key. The connection listener
   and any armed hook stay in place.
   */
  function Stop(w: World): (r: World)
    ensures w.tracker.id !in r.sessions
    ensures !r.tracker.heartbeatActive
    ensures AgreeExcept(r.sessions, w.sessions, w.tracker.id)
    ensures r.tracker.id == w.tracker.id && r.tracker.hookArmed == w.tracker.hookArmed
  {
    World(w.sessions - {w.tracker.id}, w.tracker.(heartbeatActive := false))
  }

  /** Calling the stop function a second time changes nothing more. */
  lemma StopIdempotent(w: World)
    ensures Stop(Stop(w)) == Stop(w)
  {
  }

  /** A heartbeat after the stop function has run writes nothing. */
  lemma NoTickAfterStop(w: World, now: int)
    ensures Tick(Stop(w), now) == Stop(w)
    ensures w.tracker.id !in Tick(Stop(w), now).sessions
  {
  }

  /**
   A connect write replaces whatever record was there, whatever its
   contents: the result does not depend on the previous record.
   */
  lemma ConnectReplacesRecord(w: World, prev: SessionRecord, now: int)
    ensures var w' := w.(sessions := w.sessions[w.tracker.id := prev]);
            Connected(w', true, now) == Connected(w, true, now)
  {
  }
}
