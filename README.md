# peon-ping bridge, modelled in Dafny

peon-ping's OpenCode plugin translates the host runtime's lifecycle events
(`session.created`, `session.status`, `session.idle`, `permission.asked`,
`session.error`) into the hook events the peon.sh sound pipeline understands
(`SessionStart`, `UserPromptSubmit`, `Stop`, `PermissionRequest`). Each event
produces at most one payload `{hook_event_name, session_id, cwd}`. The
plugin instance keeps two pieces of closure state. `greetedSessions` makes
sure each session id is greeted once. `lastStatus` turns the host's
level-style status signal into edges: a rising edge into "running" means a
prompt was submitted, and a falling edge from "running" to "idle" means a
task finished.

The model has three modules:

- `JsValues` (js_values.dfy): event properties are either absent or strings.
  `Or` is JavaScript's `||` over such values, where `undefined` and `""` both
  fall through to the next name.
- `PeonPing` (peon_ping.dfy): the events, payloads and state as datatypes.
  `Step` specifies one event as a table keyed by the event type, built from
  `OnCreated`, `OnStatus` and `OnIdle`. The class `PeonPingPlugin` holds the
  closure state and a log of payloads. The log stands in for `firePeon`.
  Its method `Handle` is the handler as the plugin writes it: five
  independent `if` blocks that update the fields in place. `Handle` is
  proved to change the state and the log exactly as `Step` says.
- `PeonPingRuns` (peon_ping_runs.dfy): `Run` folds `Step` over a sequence
  of events in delivery order, starting from a bridge state. `RunSnoc` shows
  that one more event extends the trace by exactly what `Step` does with it.
  Together with `Handle`'s contract, this means successive `Handle` calls on
  one instance leave the state and append to the log exactly what `Run`
  gives. The lemmas over `Run` cover repeated events: one greeting per id,
  one prompt per rising edge, and at most one `Stop` when both idle reports
  arrive.

## Model

| member | source | states |
|---|---|---|
| JsValues.Or | peon-ping.js:36 | a present non-empty string is kept; an absent or empty one yields the fallback; the result is empty only when both are falsy |
| JsValues.FirstTruthy | peon-ping.js:78 | `sessionID \|\| id \|\| ""`: the first non-empty of the two fields, else `""` |
| PeonPing.StatusOf | peon-ping.js:52 | the status is kept when it is a non-empty string; it is `""` exactly when the properties or the status are missing or empty |
| PeonPing.OnCreated | peon-ping.js:38-48 | `SessionStart` with the created id is emitted if and only if that id was not yet greeted; afterwards the id is greeted in every case; `lastStatus` is untouched |
| PeonPing.OnStatus | peon-ping.js:51-74 | `UserPromptSubmit` if and only if the status is "running" and the last status was not; `Stop` if and only if the status is "idle" and the last status was "running"; no other notification; afterwards `lastStatus` is the event's status (`""` when absent or empty); greeted set untouched; session id from `sessionID` |
| PeonPing.OnIdle | peon-ping.js:76-88 | `Stop` (session id `sessionID \|\| id`) if and only if the last status was not "idle"; afterwards `lastStatus` is "idle" in every case |
| PeonPing.Step | peon-ping.js:35-107 | the greeted set only grows and only `session.created` changes it; only status and idle events change `lastStatus`; every payload's cwd is `directory \|\| ""`; `SessionStart` only for a new created id; `permission.asked` always emits one `PermissionRequest` and `session.error` always one `Stop`, with their session-id fallbacks; an unrecognised type changes nothing and emits nothing |
| PeonPing.PeonPingPlugin.constructor | peon-ping.js:28-33 | a new instance has no greeted sessions, `lastStatus` `""` and an empty log |
| PeonPing.PeonPingPlugin.FirePeon | peon-ping.js:16-26 | sending a payload appends it to the log and changes nothing else |
| PeonPing.PeonPingPlugin.Handle | peon-ping.js:35-107 | the handler's in-place updates leave exactly the state `Step` gives and append exactly the notification `Step` emits, if any |
| PeonPingRuns.Run | peon-ping.js:28-35 | over any event sequence the greeted set only grows, there are no more payloads than events, and every payload carries `directory \|\| ""` |
| PeonPingRuns.RunSnoc | peon-ping.js:30-35 | delivering one more event leaves the state `Step` gives from the earlier run's state and appends exactly the payload `Step` emits, so a run is the trace of successive handler calls on one instance |
| PeonPingRuns.StartOncePerSession | peon-ping.js:38-48 | over any event sequence an id gets exactly one `SessionStart` if the run newly greeted it and none otherwise |
| PeonPingRuns.RepeatedCreatedGreetsOnce | peon-ping.js:38-48 | any non-empty burst of `session.created` for one id yields one `SessionStart` for it if it was new and none if it was already greeted |
| PeonPingRuns.GreetedOnlyByCreated | peon-ping.js:40-41 | a run without `session.created` leaves the greeted set unchanged |
| PeonPingRuns.RepeatedRunningIsQuiet | peon-ping.js:55-62 | once the last status is "running", further "running" statuses emit nothing and change nothing |
| PeonPingRuns.RunningBurstPromptsOnce | peon-ping.js:55-73 | a burst of "running" statuses emits one `UserPromptSubmit` for the first event's session exactly when the last status was not "running", and leaves `lastStatus` "running" |
| PeonPingRuns.IdleReportsQuietOnceIdle | peon-ping.js:64-88 | once the last status is "idle", further idle reports of either kind emit nothing and change nothing |
| PeonPingRuns.IdleReportsStopAtMostOnce | peon-ping.js:64-88 | any mix of `session.status` "idle" and `session.idle` emits at most one payload, a `Stop`, decided by the first report alone, and leaves `lastStatus` "idle" |
| PeonPingRuns.ErrorDoesNotSuppressBackstop | peon-ping.js:99-106 | `session.error` does not update `lastStatus`, so an error in a running task followed by `session.idle` emits two `Stop`s |
| PeonPingRuns.ScenarioCreateRunIdle | peon-ping.js:38-71 | created, running, idle for one session emit `SessionStart`, `UserPromptSubmit`, `Stop` in that order |
| PeonPingRuns.ScenarioIdleBeforeRunning | peon-ping.js:64-88 | an "idle" status with no earlier "running" emits nothing, and a following `session.idle` is suppressed as well |

## Left out

- The body of `firePeon` (peon-ping.js:16-26) is left out. It spawns `bash` with an environment variable, pipes and a detached child, and ignores errors reported through the child's `error` event. The model only appends the payload to `log`.
- PeonPing.PeonPingPlugin.FirePeon: always returns normally. In the source, an exception thrown by `spawn` or by the writes to the child's stdin (peon-ping.js:17-23) is not caught and leaves the handler. Then a `session.status` skips its `lastStatus` update (line 73), and a `session.idle` skips its own (line 86). A `session.created` has already added the id (line 41). The model does not capture these aborted updates.
- `JSON.stringify` is not modelled. A payload is the `Notification` datatype.
- The `PEON_DIR` and `PEON_SH` paths built from `homedir()` (peon-ping.js:9-10) are not modelled. They are filesystem and environment lookups.
- The `async` wrappers are not modelled. Nothing is awaited, so `Handle` is a plain sequential method, and the host is assumed to deliver one event at a time.
- Property values are modelled as absent or strings. A non-string value such as a number or an object is not modelled. Neither are other `properties` fields. A truthy non-string would be stored in `lastStatus` as is, or used as the session id. A falsy one (`0`, `false`, `null`) becomes `""` through `|| ""`, as an absent value does.
- The plugin's `directory` argument is modelled as an absent-or-string value given to the constructor.
