/**
 * The peon-ping bridge: it receives host-runtime lifecycle events one at a
 * time and, for each, emits at most one hook notification for the peon.sh
 * pipeline, remembering which sessions it has greeted and the last session
 * status it observed.
 *
 * `Step` is the specification of one event, written as a dispatch table on
 * the event type; `PeonPingPlugin.Handle` is the handler as the plugin
 * writes it, five independent `if` blocks that mutate the closure state and
 * call `FirePeon`, and it is proved to agree with `Step`.
 */
module PeonPing {
  import opened JsValues

  // Event types the handler recognises (the `type` field of an event).
  const SessionCreated: string := "session.created"
  const SessionStatus: string := "session.status"
  const SessionIdle: string := "session.idle"
  const PermissionAsked: string := "permission.asked"
  const SessionError: string := "session.error"

  /** The `properties` fields the handler reads; every one may be absent. */
  datatype Properties = Properties(id: Option<string>, sessionID: Option<string>, status: Option<string>)

  /** A host-runtime event; `kind` is its `type` field, and `properties` may itself be absent. */
  datatype Event = Event(kind: string, properties: Option<Properties>)

  /** The `hook_event_name` values peon.sh understands. */
  datatype HookEvent = SessionStart | UserPromptSubmit | Stop | PermissionRequest

  /** The payload written to peon.sh: `{hook_event_name, session_id, cwd}`. */
  datatype Notification = Notification(hookEventName: HookEvent, sessionId: string, cwd: string)

  /** The closure state of one plugin instance. */
  datatype BridgeState = BridgeState(greeted: set<string>, lastStatus: string)

  /** What one event does: the state after it and the notification it emits, if any. */
  datatype Outcome = Outcome(state: BridgeState, emitted: Option<Notification>)

  const Initial: BridgeState := BridgeState({}, "")

  // `event.properties?.<field>`
  function IdOf(p: Option<Properties>): Option<string> {
    if p.Some? then p.value.id else None
  }

  function SessionIdOf(p: Option<Properties>): Option<string> {
    if p.Some? then p.value.sessionID else None
  }

  /** `event.properties?.status || ""`: the status when it is a non-empty string, else `""`. */
  function StatusOf(p: Option<Properties>): (r: string)
    ensures p.Some? && Truthy(p.value.status) ==> r == p.value.status.value
    ensures r == "" <==> p.None? || !Truthy(p.value.status)
  {
    Or(if p.Some? then p.value.status else None, "")
  }

  /** The notifications an outcome contributes to the log, in order. */
  function Emitted(n: Option<Notification>): (r: seq<Notification>)
    ensures |r| <= 1
    ensures forall m <- r :: n == Some(m)
    ensures n.Some? ==> r == [n.value]
  {
    if n.Some? then [n.value] else []
  }

  /** `session.created`: greet an id only the first time it is seen. */
  function OnCreated(s: BridgeState, cwd: string, p: Option<Properties>): (r: Outcome)
    ensures r.emitted.Some? <==> Or(IdOf(p), "") !in s.greeted
    ensures r.emitted.Some? ==> r.emitted.value == Notification(SessionStart, Or(IdOf(p), ""), cwd)
    ensures r.state.greeted == s.greeted + {Or(IdOf(p), "")}
    ensures r.state.lastStatus == s.lastStatus
  {
    var sid := Or(IdOf(p), "");
    if sid in s.greeted then Outcome(s, None)
    else Outcome(s.(greeted := s.greeted + {sid}), Some(Notification(SessionStart, sid, cwd)))
  }

  /**
   * `session.status`: a rising edge into "running" is a prompt submission, a
   * falling edge from "running" to "idle" is a finished task; the status is
   * remembered whatever happened.
   */
  function OnStatus(s: BridgeState, cwd: string, p: Option<Properties>): (r: Outcome)
    ensures r.state == s.(lastStatus := StatusOf(p))
    ensures r.emitted.Some? && r.emitted.value.hookEventName == UserPromptSubmit
      <==> StatusOf(p) == "running" && s.lastStatus != "running"
    ensures r.emitted.Some? && r.emitted.value.hookEventName == Stop
      <==> StatusOf(p) == "idle" && s.lastStatus == "running"
    ensures r.emitted.Some? ==> r.emitted.value.hookEventName in {UserPromptSubmit, Stop}
    ensures r.emitted.Some? ==> r.emitted.value.sessionId == Or(SessionIdOf(p), "") && r.emitted.value.cwd == cwd
  {
    var status := StatusOf(p);
    var hook :=
      if status == "running" && s.lastStatus != "running" then Some(UserPromptSubmit)
      else if status == "idle" && s.lastStatus == "running" then Some(Stop)
      else None;
    Outcome(s.(lastStatus := status),
            if hook.Some? then Some(Notification(hook.value, Or(SessionIdOf(p), ""), cwd)) else None)
  }

  /** `session.idle`: a backstop `Stop`, suppressed when the last status is already "idle". */
  function OnIdle(s: BridgeState, cwd: string, p: Option<Properties>): (r: Outcome)
    ensures r.emitted.Some? <==> s.lastStatus != "idle"
    ensures r.emitted.Some? ==> r.emitted.value == Notification(Stop, FirstTruthy(SessionIdOf(p), IdOf(p)), cwd)
    ensures r.state == s.(lastStatus := "idle")
  {
    if s.lastStatus != "idle" then
      Outcome(s.(lastStatus := "idle"), Some(Notification(Stop, FirstTruthy(SessionIdOf(p), IdOf(p)), cwd)))
    else
      Outcome(s, None)
  }

  /** One event, as a table on its type; `directory` is the plugin's working directory. */
  function Step(s: BridgeState, directory: Option<string>, e: Event): (r: Outcome)
    ensures s.greeted <= r.state.greeted
    ensures e.kind != SessionCreated ==> r.state.greeted == s.greeted
    ensures e.kind != SessionStatus && e.kind != SessionIdle ==> r.state.lastStatus == s.lastStatus
    ensures r.emitted.Some? ==> r.emitted.value.cwd == Or(directory, "")
    ensures r.emitted.Some? && r.emitted.value.hookEventName == SessionStart
      <==> e.kind == SessionCreated && Or(IdOf(e.properties), "") !in s.greeted
    ensures e.kind == PermissionAsked ==>
      r.emitted == Some(Notification(PermissionRequest, Or(SessionIdOf(e.properties), ""), Or(directory, "")))
    ensures e.kind == SessionError ==>
      r.emitted == Some(Notification(Stop, FirstTruthy(SessionIdOf(e.properties), IdOf(e.properties)), Or(directory, "")))
    ensures e.kind !in {SessionCreated, SessionStatus, SessionIdle, PermissionAsked, SessionError} ==>
      r == Outcome(s, None)
  {
    var cwd := Or(directory, "");
    var p := e.properties;
    if e.kind == SessionCreated then OnCreated(s, cwd, p)
    else if e.kind == SessionStatus then OnStatus(s, cwd, p)
    else if e.kind == SessionIdle then OnIdle(s, cwd, p)
    else if e.kind == PermissionAsked then
      Outcome(s, Some(Notification(PermissionRequest, Or(SessionIdOf(p), ""), cwd)))
    else if e.kind == SessionError then
      Outcome(s, Some(Notification(Stop, FirstTruthy(SessionIdOf(p), IdOf(p)), cwd)))
    else Outcome(s, None)
  }

  /**
   * One plugin instance: the closure state created by `PeonPingPlugin` and
   * the log of payloads handed to peon.sh.
   */
  class PeonPingPlugin {
    const directory: Option<string>
    var greetedSessions: set<string>
    var lastStatus: string
    /** Every payload `firePeon` was called with, oldest first. */
    var log: seq<Notification>

    function State(): BridgeState
      reads this
    {
      BridgeState(greetedSessions, lastStatus)
    }

    constructor (directory: Option<string>)
      ensures this.directory == directory
      ensures State() == Initial && log == []
    {
      this.directory := directory;
      greetedSessions := {};
      lastStatus := "";
      log := [];
    }

    /** Hands one payload to peon.sh; only the fact that it was sent is modelled. */
    method FirePeon(n: Notification)
      modifies this`log
      ensures log == old(log) + [n]
    {
      log := log + [n];
    }

    /** The `event` handler. */
    method Handle(e: Event)
      modifies this
      ensures State() == Step(old(State()), directory, e).state
      ensures log == old(log) + Emitted(Step(old(State()), directory, e).emitted)
    {
      var cwd := Or(directory, "");

      if e.kind == SessionCreated {
        var sid := Or(IdOf(e.properties), "");
        if sid !in greetedSessions {
          greetedSessions := greetedSessions + {sid};
          FirePeon(Notification(SessionStart, sid, cwd));
        }
      }

      if e.kind == SessionStatus {
        var status := StatusOf(e.properties);
        var sid := Or(SessionIdOf(e.properties), "");
        if status == "running" && lastStatus != "running" {
          FirePeon(Notification(UserPromptSubmit, sid, cwd));
        }
        if status == "idle" && lastStatus == "running" {
          FirePeon(Notification(Stop, sid, cwd));
        }
        lastStatus := status;
      }

      if e.kind == SessionIdle {
        var sid := FirstTruthy(SessionIdOf(e.properties), IdOf(e.properties));
        if lastStatus != "idle" {
          FirePeon(Notification(Stop, sid, cwd));
          lastStatus := "idle";
        }
      }

      if e.kind == PermissionAsked {
        var sid := Or(SessionIdOf(e.properties), "");
        FirePeon(Notification(PermissionRequest, sid, cwd));
      }

      if e.kind == SessionError {
        var sid := FirstTruthy(SessionIdOf(e.properties), IdOf(e.properties));
        FirePeon(Notification(Stop, sid, cwd));
      }
    }
  }
}
