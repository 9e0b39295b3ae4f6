/**
 Runs of one presence tracker against the reaper: the callbacks of
 src/presence.js:13-50 as a sequence of timestamped events applied in order.
 A reaper scan here reads the current subtree and deletes from it in one
 step.
 */
module Trace {
  import opened Presence
  import opened Reaper

  datatype Event =
    | OnConnected(value: bool, at: int)  // a `.info/connected` notification
    | HeartbeatFired(at: int)            // the 5000 ms interval callback
    | ConnectionLost                     // the store runs the armed disconnect hook
    | StopCalled                         // the closure returned by `setupPresence`
    | CleanupRun(at: int)                // one `cleanupInactiveSessions` scan

  function Step(w: World, e: Event): World {
    match e
    case OnConnected(v, t) => Connected(w, v, t)
    case HeartbeatFired(t) => Tick(w, t)
    case ConnectionLost => Disconnect(w)
    case StopCalled => Stop(w)
    case CleanupRun(t) => w.(sessions := Reap(w.sessions, Value(w.sessions), t))
  }

  function Run(w: World, evs: seq<Event>): World
    decreases |evs|
  {
    if |evs| == 0 then w else Run(Step(w, evs[0]), evs[1..])
  }

  /** Every record in the subtree has status "online". */
  ghost predicate AllOnline(s: Sessions) {
    forall id :: id in s ==> s[id].status == Online
  }

  /** Running `a` then `b` is running their concatenation. */
  lemma {:induction false} RunAppend(w: World, a: seq<Event>, b: seq<Event>)
    ensures Run(w, a + b) == Run(Run(w, a), b)
    decreases |a|
  {
    if |a| == 0 {
      assert a + b == b;
    } else {
      assert (a + b)[1..] == a[1..] + b;
      RunAppend(Step(w, a[0]), a[1..], b);
    }
  }

  /** No event changes the tracker's id. */
  lemma {:induction false} IdStable(w: World, evs: seq<Event>)
    ensures Run(w, evs).tracker.id == w.tracker.id
    decreases |evs|
  {
    if |evs| > 0 {
      IdStable(Step(w, evs[0]), evs[1..]);
    }
  }

  /**
   The code never marks a session offline: if every record starts online,
   every record is online after any run.
   */
  lemma {:induction false} NeverOffline(w: World, evs: seq<Event>)
    requires AllOnline(w.sessions)
    ensures AllOnline(Run(w, evs).sessions)
    decreases |evs|
  {
    if |evs| > 0 {
      NeverOffline(Step(w, evs[0]), evs[1..]);
    }
  }

  /**
   The tracker writes only its own key: any other session present after a
   run was present before with the same record (it can only be deleted, by
   the reaper).
   */
  lemma {:induction false} OtherSessionsOnlyDeleted(w: World, evs: seq<Event>, k: string)
    requires k != w.tracker.id
    ensures k in Run(w, evs).sessions ==> k in w.sessions && Run(w, evs).sessions[k] == w.sessions[k]
    decreases |evs|
  {
    if |evs| > 0 {
      var w' := Step(w, evs[0]);
      OtherSessionsOnlyDeleted(w', evs[1..], k);
    }
  }

  /** The event is not a connect-true notification. */
  predicate NoReconnect(e: Event) {
    !(e.OnConnected? && e.value)
  }

  /**
   After the stop function has run, no heartbeat, disconnect or scan puts
   the session back: only a later connect-true notification can.
   */
  lemma {:induction false} StoppedStaysAbsent(w: World, evs: seq<Event>)
    requires !w.tracker.heartbeatActive
    requires w.tracker.id !in w.sessions
    requires forall i :: 0 <= i < |evs| ==> NoReconnect(evs[i])
    ensures w.tracker.id !in Run(w, evs).sessions
    ensures !Run(w, evs).tracker.heartbeatActive
    decreases |evs|
  {
    if |evs| > 0 {
      var w' := Step(w, evs[0]);
      assert NoReconnect(evs[0]);
      StoppedStaysAbsent(w', evs[1..]);
    }
  }

  /** From any world, stopping and then any run without a connect-true leaves the session absent. */
  lemma StopThenRun(w: World, evs: seq<Event>)
    requires forall i :: 0 <= i < |evs| ==> NoReconnect(evs[i])
    ensures w.tracker.id !in Run(w, [StopCalled] + evs).sessions
  {
    assert ([StopCalled] + evs)[1..] == evs;
    StoppedStaysAbsent(Stop(w), evs);
  }

  /**
   A cleared heartbeat is never restarted: no event, a connect-true
   notification included, sets the interval running again.
   */
  lemma {:induction false} ClearedStaysCleared(w: World, evs: seq<Event>)
    requires !w.tracker.heartbeatActive
    ensures !Run(w, evs).tracker.heartbeatActive
    decreases |evs|
  {
    if |evs| > 0 {
      ClearedStaysCleared(Step(w, evs[0]), evs[1..]);
    }
  }

  /**
   While the heartbeat runs, it keeps running exactly until the stop
   function is called: after a run it is active if and only if the run
   holds no `StopCalled`.
   */
  lemma {:induction false} HeartbeatActiveUntilStop(w: World, evs: seq<Event>)
    requires w.tracker.heartbeatActive
    ensures Run(w, evs).tracker.heartbeatActive <==> StopCalled !in evs
    decreases |evs|
  {
    if |evs| > 0 {
      assert evs == [evs[0]] + evs[1..];
      if evs[0] == StopCalled {
        ClearedStaysCleared(Step(w, evs[0]), evs[1..]);
      } else {
        HeartbeatActiveUntilStop(Step(w, evs[0]), evs[1..]);
      }
    }
  }

  /**
   The lifecycle of one `setupPresence` call: the tracker writes the id it
   was set up with, and its heartbeat runs until, and only until, its stop
   function is called.
   */
  lemma SetupLifecycle(sessions: Sessions, id: string, evs: seq<Event>)
    ensures Run(Setup(sessions, id), evs).tracker.id == id
    ensures Run(Setup(sessions, id), evs).tracker.heartbeatActive <==> StopCalled !in evs
  {
    IdStable(Setup(sessions, id), evs);
    HeartbeatActiveUntilStop(Setup(sessions, id), evs);
  }

  /**
   The connection listener outlives the stop function: a connect-true
   notification after stop writes the session back online, with the
   heartbeat still cleared.
   */
  lemma ReconnectAfterStop(w: World, evs: seq<Event>, t: int)
    ensures var r := Run(w, [StopCalled] + evs + [OnConnected(true, t)]);
            && w.tracker.id in r.sessions
            && r.sessions[w.tracker.id] == OnlineRecord(t)
            && !r.tracker.heartbeatActive
  {
    RunAppend(w, [StopCalled] + evs, [OnConnected(true, t)]);
    IdStable(w, [StopCalled] + evs);
    assert ([StopCalled] + evs)[1..] == evs;
    ClearedStaysCleared(Stop(w), evs);
  }

  /**
   The event keeps a session last written at `t` or later alive: a
   heartbeat or connect-true no earlier than `t`, a connect-false, or a
   scan no more than 10 000 ms after `t`.
   */
  predicate KeepsAlive(e: Event, t: int) {
    match e
    case OnConnected(v, at) => !v || at >= t
    case HeartbeatFired(at) => at >= t
    case CleanupRun(at) => at <= t + StaleAfter
    case ConnectionLost => false
    case StopCalled => false
  }

  /**
   A heartbeating session last written at `t` or later stays in the store,
   with `lastActive >= t`, through any run of heartbeats, reconnects and
   scans that happen no more than 10 000 ms after `t`.
   */
  lemma {:induction false} AliveThroughRun(w: World, t: int, evs: seq<Event>)
    requires w.tracker.heartbeatActive
    requires w.tracker.id in w.sessions && w.sessions[w.tracker.id].lastActive >= t
    requires forall i :: 0 <= i < |evs| ==> KeepsAlive(evs[i], t)
    ensures var r := Run(w, evs);
            r.tracker.heartbeatActive && w.tracker.id in r.sessions && r.sessions[w.tracker.id].lastActive >= t
    decreases |evs|
  {
    if |evs| > 0 {
      var w' := Step(w, evs[0]);
      assert KeepsAlive(evs[0], t);
      assert w'.tracker.id == w.tracker.id;
      AliveThroughRun(w', t, evs[1..]);
    }
  }

  /**
   Liveness under the reaper: once the heartbeat has fired at `t`, every
   scan within 10 000 ms of `t` keeps the session, whatever heartbeats,
   reconnects and scans come in between; in particular a scan at most one
   heartbeat interval after the last beat never removes it.
   */
  lemma HeartbeatSurvivesCleanup(w: World, t: int, evs: seq<Event>, now: int)
    requires w.tracker.heartbeatActive
    requires forall i :: 0 <= i < |evs| ==> KeepsAlive(evs[i], t)
    requires now <= t + StaleAfter
    ensures w.tracker.id in Run(w, [HeartbeatFired(t)] + evs + [CleanupRun(now)]).sessions
  {
    var all := [HeartbeatFired(t)] + evs + [CleanupRun(now)];
    var rest := evs + [CleanupRun(now)];
    assert all[0] == HeartbeatFired(t) && all[1..] == rest;
    var w1 := Tick(w, t);
    assert forall i :: 0 <= i < |rest| ==> KeepsAlive(rest[i], t) by {
      forall i | 0 <= i < |rest|
        ensures KeepsAlive(rest[i], t)
      {
        if i < |evs| {
          assert rest[i] == evs[i];
        }
      }
    }
    AliveThroughRun(w1, t, rest);
  }
}
