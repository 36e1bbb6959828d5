/**
 * Sequences of events delivered, one at a time and in order, to a single
 * plugin instance, and what the bridge promises across them: one greeting
 * per session id, one prompt notification per rising edge, no double `Stop`
 * when `session.status` idle and `session.idle` report the same transition.
 */
module PeonPingRuns {
  import opened JsValues
  import opened PeonPing

  /** The final state and every notification emitted, oldest first. */
  datatype Trace = Trace(state: BridgeState, emitted: seq<Notification>)

  /** Feeds `events` to the bridge in order, starting from state `s`. */
  function Run(s: BridgeState, directory: Option<string>, events: seq<Event>): (t: Trace)
    ensures s.greeted <= t.state.greeted
    ensures |t.emitted| <= |events|
    ensures forall n <- t.emitted :: n.cwd == Or(directory, "")
    decreases |events|
  {
    if events == [] then Trace(s, [])
    else
      var o := Step(s, directory, events[0]);
      var rest := Run(o.state, directory, events[1..]);
      Trace(rest.state, Emitted(o.emitted) + rest.emitted)
  }

  /**
   * Delivering one more event extends the trace by exactly what `Step` does
   * with it from the state the earlier events left: the run is the trace of
   * successive `PeonPingPlugin.Handle` calls on one instance.
   */
  lemma {:induction false} RunSnoc(s: BridgeState, directory: Option<string>, events: seq<Event>, e: Event)
    ensures var before := Run(s, directory, events);
      var o := Step(before.state, directory, e);
      Run(s, directory, events + [e]) == Trace(o.state, before.emitted + Emitted(o.emitted))
    decreases |events|
  {
    if events == [] {
      assert [] + [e] == [e];
    } else {
      assert (events + [e])[0] == events[0];
      assert (events + [e])[1..] == events[1..] + [e];
      RunSnoc(Step(s, directory, events[0]).state, directory, events[1..], e);
    }
  }

  /** How many `SessionStart` notifications for `sid` a log holds. */
  function StartsFor(log: seq<Notification>, sid: string): nat
  {
    if log == [] then 0
    else (if log[0].hookEventName == SessionStart && log[0].sessionId == sid then 1 else 0) + StartsFor(log[1..], sid)
  }

  lemma {:induction false} StartsForPrefix(n: Option<Notification>, log: seq<Notification>, sid: string)
    ensures StartsFor(Emitted(n) + log, sid)
         == (if n.Some? && n.value.hookEventName == SessionStart && n.value.sessionId == sid then 1 else 0)
            + StartsFor(log, sid)
  {
    if n.Some? {
      assert (Emitted(n) + log)[1..] == log;
    } else {
      assert Emitted(n) + log == log;
    }
  }

  /**
   * Whatever the events, a session id is greeted exactly once if this run
   * added it to the greeted set and never otherwise: at most one
   * `SessionStart` per id over the lifetime of the plugin.
   */
  lemma {:induction false} StartOncePerSession(s: BridgeState, directory: Option<string>, events: seq<Event>, sid: string)
    ensures var t := Run(s, directory, events);
      StartsFor(t.emitted, sid) == if sid in t.state.greeted && sid !in s.greeted then 1 else 0
    decreases |events|
  {
    if events != [] {
      var o := Step(s, directory, events[0]);
      var rest := Run(o.state, directory, events[1..]);
      StartOncePerSession(o.state, directory, events[1..], sid);
      StartsForPrefix(o.emitted, rest.emitted, sid);
      if o.emitted.Some? && o.emitted.value.hookEventName == SessionStart {
        assert o.emitted.value.sessionId == Or(IdOf(events[0].properties), "");
      }
    }
  }

  /** Any number of `session.created` events for one id greet it once, and only if it was new. */
  lemma RepeatedCreatedGreetsOnce(s: BridgeState, directory: Option<string>, events: seq<Event>, sid: string)
    requires |events| > 0
    requires forall i :: 0 <= i < |events| ==> events[i].kind == SessionCreated && Or(IdOf(events[i].properties), "") == sid
    ensures StartsFor(Run(s, directory, events).emitted, sid) == if sid in s.greeted then 0 else 1
  {
    var o := Step(s, directory, events[0]);
    assert sid in o.state.greeted;
    assert Run(s, directory, events).state.greeted >= Run(o.state, directory, events[1..]).state.greeted;
    StartOncePerSession(s, directory, events, sid);
  }

  /** Only `session.created` adds to the greeted set; without one it is left as it was. */
  lemma {:induction false} GreetedOnlyByCreated(s: BridgeState, directory: Option<string>, events: seq<Event>)
    requires forall i :: 0 <= i < |events| ==> events[i].kind != SessionCreated
    ensures Run(s, directory, events).state.greeted == s.greeted
    decreases |events|
  {
    if events != [] {
      GreetedOnlyByCreated(Step(s, directory, events[0]).state, directory, events[1..]);
    }
  }

  predicate IsRunningStatus(e: Event) {
    e.kind == SessionStatus && StatusOf(e.properties) == "running"
  }

  /** Once the last status is "running", further "running" statuses emit nothing. */
  lemma {:induction false} RepeatedRunningIsQuiet(s: BridgeState, directory: Option<string>, events: seq<Event>)
    requires s.lastStatus == "running"
    requires forall i :: 0 <= i < |events| ==> IsRunningStatus(events[i])
    ensures Run(s, directory, events) == Trace(s, [])
    decreases |events|
  {
    if events != [] {
      RepeatedRunningIsQuiet(Step(s, directory, events[0]).state, directory, events[1..]);
    }
  }

  /**
   * A burst of "running" statuses submits one prompt, for the first event's
   * session, exactly when the status was not already "running".
   */
  lemma {:induction false} RunningBurstPromptsOnce(s: BridgeState, directory: Option<string>, events: seq<Event>)
    requires |events| > 0
    requires forall i :: 0 <= i < |events| ==> IsRunningStatus(events[i])
    ensures var t := Run(s, directory, events);
      && t.state == s.(lastStatus := "running")
      && t.emitted == if s.lastStatus == "running" then []
                      else [Notification(UserPromptSubmit, Or(SessionIdOf(events[0].properties), ""), Or(directory, ""))]
  {
    RepeatedRunningIsQuiet(Step(s, directory, events[0]).state, directory, events[1..]);
  }

  /** A report that the session went idle: a `session.status` "idle" or a `session.idle`. */
  predicate SignalsIdle(e: Event) {
    (e.kind == SessionStatus && StatusOf(e.properties) == "idle") || e.kind == SessionIdle
  }

  /** Once the last status is "idle", further idle reports of either kind emit nothing. */
  lemma {:induction false} IdleReportsQuietOnceIdle(s: BridgeState, directory: Option<string>, events: seq<Event>)
    requires s.lastStatus == "idle"
    requires forall i :: 0 <= i < |events| ==> SignalsIdle(events[i])
    ensures Run(s, directory, events) == Trace(s, [])
    decreases |events|
  {
    if events != [] {
      IdleReportsQuietOnceIdle(Step(s, directory, events[0]).state, directory, events[1..]);
    }
  }

  /**
   * However the host reports that a task finished, by `session.status`
   * "idle", by `session.idle` or by both in any order, at most one `Stop`
   * is emitted, and it is decided by the first report alone: a status
   * report fires only on a falling edge from "running", the backstop fires
   * unless the status is already "idle".
   */
  lemma IdleReportsStopAtMostOnce(s: BridgeState, directory: Option<string>, events: seq<Event>)
    requires |events| > 0
    requires forall i :: 0 <= i < |events| ==> SignalsIdle(events[i])
    ensures var t := Run(s, directory, events);
      && t.state == s.(lastStatus := "idle")
      && |t.emitted| <= 1
      && (forall n <- t.emitted :: n.hookEventName == Stop)
      && (|t.emitted| == 1 <==>
            if events[0].kind == SessionIdle then s.lastStatus != "idle" else s.lastStatus == "running")
  {
    IdleReportsQuietOnceIdle(Step(s, directory, events[0]).state, directory, events[1..]);
  }

  /**
   * `session.error` leaves the last status alone, so an error during a
   * running task followed by the `session.idle` backstop emits `Stop` twice.
   */
  lemma ErrorDoesNotSuppressBackstop(s: BridgeState, directory: Option<string>, failed: Event, idle: Event)
    requires s.lastStatus == "running"
    requires failed.kind == SessionError && idle.kind == SessionIdle
    ensures var t := Run(s, directory, [failed, idle]);
      |t.emitted| == 2 && t.emitted[0].hookEventName == Stop && t.emitted[1].hookEventName == Stop
  {
  }

  function Created(id: string): Event {
    Event(SessionCreated, Some(Properties(Some(id), None, None)))
  }

  function Status(sid: string, status: string): Event {
    Event(SessionStatus, Some(Properties(None, Some(sid), Some(status))))
  }

  function StatusOnly(status: string): Event {
    Event(SessionStatus, Some(Properties(None, None, Some(status))))
  }

  function Idle(sid: string): Event {
    Event(SessionIdle, Some(Properties(None, Some(sid), None)))
  }

  /** A fresh plugin seeing a session start, run and finish greets, submits and stops, in that order. */
  lemma ScenarioCreateRunIdle(directory: Option<string>)
    ensures Run(Initial, directory, [Created("s1"), Status("s1", "running"), Status("s1", "idle")]).emitted
         == [Notification(SessionStart, "s1", Or(directory, "")),
             Notification(UserPromptSubmit, "s1", Or(directory, "")),
             Notification(Stop, "s1", Or(directory, ""))]
  {
    var events := [Created("s1"), Status("s1", "running"), Status("s1", "idle")];
    var greeted := BridgeState({"s1"}, "");
    var running := BridgeState({"s1"}, "running");
    assert events[1..] == [Status("s1", "running"), Status("s1", "idle")];
    assert events[1..][1..] == [Status("s1", "idle")];
    assert Step(Initial, directory, events[0]).state == greeted;
    assert Step(greeted, directory, events[1]).state == running;
    assert Run(running, directory, [Status("s1", "idle")]).emitted == [Notification(Stop, "s1", Or(directory, ""))];
  }

  /**
   * An "idle" status never preceded by "running" emits nothing, and the
   * `session.idle` after it is suppressed too, since the last status is
   * already "idle".
   */
  lemma ScenarioIdleBeforeRunning(directory: Option<string>)
    ensures Run(Initial, directory, [StatusOnly("idle"), Idle("s1")]).emitted == []
  {
  }
}
