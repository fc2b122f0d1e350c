# Autosave coordination of a fiction-drafting web app, in Dafny

This project models the autosave layer of `app.js`, the browser client of a
note-and-drafting tool for long-form fiction. The layer decides when the
current chapter is saved. It throttles and debounces typing. It skips saves
when the editor text equals the last recorded snapshot. It guards against
overlapping saves. It tries the remote document store first and falls back
to `localStorage`. It reports one of four save statuses, and "saved" and
"error" revert to "ready" on a timer.

The model makes time explicit. Every event carries `now`. A `setTimeout`
callback becomes a `Timer(due, args)`. The browser's event loop becomes a
`Tick(now)` that runs a timer once `now` has reached its due time. The
remote backend and `localStorage` are foreign code, so each attempt takes
their outcome as a value:

- `Remote`: `Absent`, `Truthy`, `Falsy` or `Throws`.
- `LocalWrite`: `Stored` or `Thrown`.

The editor's text and whether the status DOM elements exist are parameters
of the events that read them.

Files:

- `wrappers.dfy`: the `Option` type.
- `limiters.dfy`: `debounce` and `throttle`. Each has a step function over
  its closure state, lemmas about whole event sequences, and a class
  (`Debouncer`, `Throttler`) whose methods are proved to follow the step
  function.
- `status.dfy`: `showSaveStatus` and its single auto-reset timer. It has the
  pure `ShowSaveStatus`/`FireReset`, their invariant and timing lemmas, and
  the class `StatusReporter`.
- `autosave.dfy`: the save body of `setupAutoSave`, `saveToFirebase`, the
  time gates, and the class `AutoSaver`, which wires the pieces together the
  way `setupAutoSave` does. The save body is `async`, so it is split at its
  `await`:
  - `BeginSave` runs up to the `await`.
  - `FinishSave` is the continuation, including its `finally`.

  The `isCurrentlySaving` guard is what other events see between the two.
  `TypingScenario` is a client of the class that replays an end-to-end
  typing session.
- `tags.dfy`: the comma-list parsing of chapter-card tags
  (`split(',')`, `trim`, drop empties) and JavaScript `trim`.

Two behaviours of the code are worth knowing, and the model keeps both as
written:

- The saved-content snapshot (`localStorage['lastSavedContent']`) is written
  before the backend is tried (app.js:321-325). A save that then fails on both
  backends still updates it. `FailedSaveIsNotRetried` proves the consequence:
  the next trigger with the same text does nothing.
- A falsy remote result leaves `appState.isConnected` unchanged. Only a throw
  sets it to false (app.js:713-723). So when the flag was set by an earlier
  success, a local-only save shows the online "saved" label.
  `SavedLabelAfterSave` states exactly when each label appears.

## Model

| member | source | states |
|---|---|---|
| `Limiters.DebounceStep` | app.js:663-673 | A call never runs the function and replaces any pending timer by one due `wait` after the call, carrying the call's arguments. The clock runs the pending timer exactly when it is due, with its arguments, and clears it. |
| `Limiters.DebounceBurst` | app.js:663-673 | In a burst, where the clock never reaches `wait` past the latest call, the debounced function never runs. The only pending timer is the last call's, due `wait` after it. |
| `Limiters.DebounceTimerFires` | app.js:664-669 | A pending timer left alone runs exactly once, on the first tick at or after its due time. It never runs if no tick reaches that time. |
| `Limiters.DebounceSettles` | app.js:663-673 | After a burst and then only clock ticks, the function runs exactly once, with the last call's arguments, once the clock reaches `wait` past that call. Until then nothing runs and the last call's timer stays pending. |
| `Limiters.Debouncer.constructor` | app.js:664 | A new debounced function has no pending timer. |
| `Limiters.Debouncer.Call` | app.js:665-672 | The new pending timer is the one `DebounceStep` gives for a call (cancel, then reschedule). |
| `Limiters.Debouncer.Tick` | app.js:666-669 | Runs and clears a due timer, returning its arguments, as `DebounceStep` gives for a tick. Otherwise changes nothing. |
| `Limiters.ThrottleStep` | app.js:675-692 | A call runs at once if and only if `now - lastExecTime > delay` (strict), and then sets `lastExecTime := now`. Otherwise it replaces any deferred call by one due at `lastExecTime + delay` with the newest arguments. A due deferred call runs on the clock and sets `lastExecTime` to its own run time. |
| `Limiters.ThrottleSpacing` | app.js:681-690 | When the event loop delivers timers on time, every run is at least `delay` after the previous one and after the initial `lastExecTime`. `lastExecTime` is always the latest run, and a deferred call is always due `delay` after it. |
| `Limiters.ThrottleKeepsLastCall` | app.js:685-690 | Trailing edge: after any history, the last call either ran at once with its arguments or is the one deferred call carrying its arguments. |
| `Limiters.Throttler.constructor` | app.js:676-677 | A new throttled function has `lastExecTime = 0` and nothing deferred. |
| `Limiters.Throttler.Call` | app.js:678-691 | The new state and the immediate run, if any, are those `ThrottleStep` gives for a call. |
| `Limiters.Throttler.Tick` | app.js:687-690 | The new state and the deferred run, if due, are those `ThrottleStep` gives for a tick. |
| `Status.ShowSaveStatus` | app.js:214-292 | If either DOM target is missing, the call is a complete no-op and the pending reset stays. Otherwise the label shows the requested status and is the online "saved" variant if and only if connected. The old reset is always cancelled. A new one is scheduled only for saved (+4000 ms, checks the label) and error (+5000 ms). |
| `Status.FireReset` | app.js:259-276 | A reset that is not yet due changes nothing. A due reset always clears the timer. It then shows the ready label, unless the DOM targets are missing or the 4-second reset finds that the label no longer reads "saved"; in those cases the label stays. |
| `Status.Label.IsSaved` | app.js:260 | True for exactly the two labels whose text contains the "saved" words, the online and the local one: the labels that display the saved status. |
| `Status.ResetAlwaysMatchesLabel` | app.js:228-276 | Over any sequence of status calls and clock ticks, with DOM targets present or not, a pending reset belongs to the label on screen: the 4-second one to a "saved" label, the 5-second one to the error label. |
| `Status.DueResetRevertsToReady` | app.js:259-263 | Under that invariant, the "still saved" check never blocks. A due reset with the DOM present returns the reporter to ready with nothing pending. |
| `Status.AutoRevert` | app.js:243-276 | After "saved" (or "error") is shown at `t`, and then only clock ticks, the reporter is ready with nothing pending once the clock reaches `t + 4000` (or `t + 5000`). Until then it is unchanged. |
| `Status.SupersededResetNeverFires` | app.js:228-231 | Showing "ready" or "saving" cancels a pending reset. From then on no clock tick changes the reporter. |
| `Status.StatusReporter.constructor` | app.js:66 | The reporter starts on the ready label with no reset pending. |
| `Status.StatusReporter.Show` | app.js:214-292 | The new label and reset are those `ShowSaveStatus` gives. |
| `Status.StatusReporter.Tick` | app.js:259-276 | The new label and reset are those `FireReset` gives. |
| `Tags.Trim` | app.js:1125 | The result is empty or starts and ends with a non-whitespace character. It is the contiguous stretch of the input that starts where the leading whitespace ends. It is empty if and only if the input is all whitespace. |
| `Tags.TrimCutsEnds` | app.js:1125 | `trim` only cuts the ends: the result is `s[i..j]` for some `i <= j`, where everything before `i` and from `j` on is whitespace. Inner characters are all kept. |
| `Tags.TrimIdempotent` | app.js:1125 | Trimming a trimmed string changes nothing. |
| `Tags.Split` | app.js:1125 | Splitting gives exactly one more piece than there are separators, and no piece contains the separator. |
| `Tags.JoinSplit` | app.js:1125 | Splitting loses nothing: joining the pieces with the separator gives back the input. |
| `Tags.SplitJoin` | app.js:1125 | Splitting a join of separator-free pieces gives back exactly those pieces. |
| `Tags.TrimAll` | app.js:1125 | Piece `k` of the result is the trim of input piece `k`. |
| `Tags.DropEmpty` | app.js:1125 | Keeps exactly the non-empty strings, each as many times as it occurs. |
| `Tags.DropEmptyAppend` | app.js:1125 | Dropping the empty strings keeps the order: filtering a concatenation is concatenating the filtered parts. |
| `Tags.ParseTags` | app.js:1125-1139 | There are at most commas + 1 tags. Every tag is non-empty, equals its own trim and has no comma. The tags are the trimmed pieces without the empty ones, each as many times as it occurs, so repeated tags are kept. |
| `Tags.ParseTagsPiece` | app.js:1125 | A field without a comma gives its trimmed text as the one tag, or no tag if that text is empty. |
| `Tags.ParseTagsCons` | app.js:1125 | The tags of `p,tail` are the tags of `p` followed by the tags of `tail`. With `ParseTagsPiece`, this fixes the whole list, in order and with repeats. |
| `AutoSave.SaveAttempt` | app.js:709-735 | A truthy remote result sets `isConnected` and resolves true with no local write. A throw clears `isConnected`. A falsy result or no backend leaves it unchanged. In every case but success, the whole state is written locally, and the result is true if and only if that write succeeds. The backend is called exactly when it exists, with the state as it was. Nothing else changes. |
| `AutoSave.BeginSave` | app.js:300-325 | While a save is in flight, or when the change detector `Unchanged` finds the editor text equal to the stored snapshot (app.js:306-311: a missing editor or snapshot counts as `''`), nothing happens and nothing is reported. Otherwise "saving" is reported and the guard is taken. The editor text becomes the chapter content and the snapshot before any backend call. A throwing snapshot write reports "error" and releases the guard. No backend state is touched. |
| `AutoSave.FinishSave` | app.js:327-342 | The guard is released on every outcome. "saved" is reported, with `lastSaveTime := now`, if and only if the remote or the local write succeeded. Otherwise "error" is reported and the time is kept. Content and snapshot are never rolled back. The connection flag and the stores are what the save attempt left. |
| `AutoSave.OverlappingTriggersDropped` | app.js:301-304 | While a save is in flight, any number of further triggers are dropped, not queued: no status, no write, no backend call. |
| `AutoSave.SaveCycle` | app.js:300-343 | A full cycle for edited text reports "saving", holds the guard until completion and then releases it. It leaves the text as snapshot and content, reports "saved" if and only if a backend write succeeded, and hands the text to an existing remote backend. |
| `AutoSave.FailedSaveIsNotRetried` | app.js:309-338 | As written, a save that fails on both backends reports "error", and the next trigger with the same text does nothing, because the snapshot already holds it. |
| `AutoSave.TriggerAcceptedAfterThrow` | app.js:316-342 | After the remote backend throws, the connection flag is off and the next edit starts a new save. |
| `AutoSave.SavedLabelAfterSave` | app.js:243-257 | After a save, the online "saved" label appears if and only if the remote succeeded, or it did not throw, the flag was already on, and the local write succeeded. The local label appears if and only if the remote did not succeed, the local write saved the state, and the flag ended off. |
| `AutoSave.GatesAfterSave` | app.js:365-413 | For 60 s after a successful save the heartbeat gate `HeartbeatDue` (app.js:409) stays shut, and for 1 s the blur gate `BlurDue` (app.js:367) does. A failed save leaves both gates as they were. |
| `AutoSave.TimeGatesThreshold` | app.js:365-413 | Each gate, `BlurDue` (app.js:367) and `HeartbeatDue` (app.js:409), is still shut exactly at its interval after the last save and open 1 ms later (the heartbeat only when no save is in flight). Once open, a gate stays open as the clock runs on. Unlike the heartbeat, blur does not wait for a save in flight. |
| `AutoSave.AutoSaver.constructor` | app.js:295-298 | Starts with `lastSaveTime = 0`, no save in flight, nothing pending, the ready label, and whatever `localStorage` held. The chapter content and the connection flag are those of the stored app data that `loadLocalData` merges into `appState` (app.js:48, 751-757) before the first event, or `''` and offline when there is none. |
| `AutoSave.AutoSaver.SaveToFirebase` | app.js:709-735 | The new state and result are those `SaveAttempt` gives. |
| `AutoSave.AutoSaver.DebouncedSave` | app.js:300-325 | The new state is `BeginSave`'s. The reporter shows each status `BeginSave` reports, in order. |
| `AutoSave.AutoSaver.CompleteSave` | app.js:327-342 | Only while a save is in flight. The new state is `FinishSave`'s, and the reporter shows its status with the resulting connection flag. |
| `AutoSave.AutoSaver.SaveTimer` | app.js:300-343 | The debounce timer follows `DebounceStep`. The save body runs exactly when the timer was due, and otherwise nothing changes. |
| `AutoSave.AutoSaver.InputHandler` | app.js:356-360 | Reports "saving" at once and reschedules the debounced save 3000 ms later. |
| `AutoSave.AutoSaver.Input` | app.js:355-362 | The field's own 500 ms throttle follows `ThrottleStep` and the other field's is untouched. When the throttle runs, "saving" is reported and the debounced save is rescheduled. Otherwise nothing else changes. |
| `AutoSave.AutoSaver.InputTimer` | app.js:356-360 | A field's deferred input call runs when due, with the same effects as an immediate one. |
| `AutoSave.AutoSaver.Blur` | app.js:365-370 | Reschedules the debounced save if and only if the gate `BlurDue` (app.js:367) is open: more than 1000 ms have passed since the last successful save. |
| `AutoSave.AutoSaver.Focus` | app.js:373-378 | Shows "ready" if and only if the field's trimmed value is non-empty. |
| `AutoSave.AutoSaver.DomainUpdated` | app.js:387-395 | A character or chapter update event always reschedules the debounced save. |
| `AutoSave.AutoSaver.Heartbeat` | app.js:408-413 | Reschedules the debounced save if and only if the gate `HeartbeatDue` (app.js:409) is open: more than 60000 ms have passed since the last successful save and no save is in flight. |
| `AutoSave.AutoSaver.StatusTimer` | app.js:259-276 | The status reset fires as `FireReset` gives. |

## Left out

- Real timers, `Date.now()` and `setInterval` are not modelled. The clock is the `now` parameter, and a timer runs at the first `Tick` at or after its due time. The 60-second interval of the heartbeat is whatever sequence of `Heartbeat(now)` calls a client makes.
- The `async`/`await` interleaving is coarsened to two steps per save. The whole of `saveToFirebase` (remote call, flag update, local fallback) happens in the second step. When no backend exists, the real code writes `localStorage` before the first `await` yields.
- `localStorage.getItem` is assumed not to throw.
- `JSON.stringify(appState)` is not modelled. The stored and remote copies of `appState` keep only the fields this layer touches: the chapter content and the connection flag.
- Listener registration is not modelled: `attachAutoSave`, the `DOMContentLoaded`/`readyState` wiring, the `AbortController` scoping of `setupEventListeners`, and the duplicate listeners a second `setupAutoSave` would add. The model is one `AutoSaver` whose methods are the listeners.
- The delayed `showSaveStatus('ready')` 500 ms after setup is not modelled. It is an ordinary `Show(Ready)` a client can issue.
- Rendering is not modelled: innerHTML strings, colours, icons, the pulse animation, and `updateConnectionStatus`'s indicator element. The reporter keeps only the five labels.
- `ThrottleSpacing` assumes timely timer delivery, stated as `Timely`: no call arrives after a deferred call's due time while that call has not yet run. If ticks are withheld, the model still follows the code: an immediate run leaves the stale deferred call pending, and the two runs can then fall within one window.
- The whitespace that `trim` removes is ECMAScript's WhiteSpace and LineTerminator set, listed character by character. `split` is modelled for a one-character separator only, which is the only kind the source uses.
- `analyzeWithAI`, `performSystemHealthCheck`, `initializeFirebase`, `checkFirebaseConnection`, `loadLocalData`, the sidebar, the modal and the card rendering are outside the autosave layer. They are network calls, browser probes, JSON merging or DOM presentation with no coordination logic. Of `loadLocalData`, only its result for the chapter content and the connection flag enters the model, as the initial state of `AutoSaver`.
- Console logging is not modelled. It has no behavioural effect.
