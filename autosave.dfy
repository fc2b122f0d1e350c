/**
  The autosave coordination of app.js: the debounced save body of
  `setupAutoSave` (app.js:300-343), the remote-then-local fallback
  `saveToFirebase` (app.js:709-735), and the input, blur, focus, domain-event
  and heartbeat triggers (app.js:347-413).

  The save body is asynchronous: it runs up to `await saveToFirebase()`,
  other events may run while it waits, and it finishes when the result
  arrives. It is therefore split in two: `BeginSave` (the part before the
  `await`) and `FinishSave` (the continuation, including `finally`). The
  `isCurrentlySaving` guard is what other triggers see in between.

  The remote backend and `localStorage` are foreign: each attempt takes their
  outcome as a value (`Remote`, `LocalWrite`). The editor's text and the
  presence of the status DOM targets are parameters of the events that read them.
*/
module AutoSave {
  import opened Wrappers
  import opened Limiters
  import opened Status
  import Tags

  /** What `window.FirebaseModule.saveToFirebase(appState)` does on one attempt:
      no backend module at all, a truthy result, a falsy result, or a throw. */
  datatype Remote = Absent | Truthy | Falsy | Throws

  /** What one `localStorage.setItem` does: store the value, or throw (quota, storage disabled). */
  datatype LocalWrite = Stored | Thrown

  /** The parts of `appState` this layer reads and writes, as handed to a backend. */
  datatype AppData = AppData(chapterContent: string, isConnected: bool)

  /** The state the save path touches. */
  datatype Saver = Saver(
    content: string,                   // appState.currentChapter.content
    connected: bool,                   // appState.isConnected
    lastSavedContent: Option<string>,  // localStorage 'lastSavedContent'
    appData: Option<AppData>,          // localStorage 'jadeScrollData'
    remoteCalls: seq<AppData>,         // every state handed to the remote backend
    lastSaveTime: int,
    saving: bool)                      // isCurrentlySaving

  const DebounceWait: nat := 3000
  const InputThrottle: nat := 500
  const HeartbeatGap: nat := 60000
  const BlurGap: nat := 1000

  /** `localStorage.getItem('lastSavedContent') || ''`. */
  function StoredOrEmpty(stored: Option<string>): string
  {
    if stored.Some? then stored.value else ""
  }

  /** `writingEditor ? writingEditor.value : ''`. */
  function EditorText(editor: Option<string>): string
  {
    if editor.Some? then editor.value else ""
  }

  /** The change detector: the editor holds exactly what was last recorded as saved. */
  predicate Unchanged(editor: Option<string>, stored: Option<string>)
  {
    EditorText(editor) == StoredOrEmpty(stored)
  }

  // ---------------------------------------------------------------------------
  // saveToFirebase (app.js:709-735)
  // ---------------------------------------------------------------------------

  /** One `saveToFirebase()`: the new state and the result it resolves to. */
  function SaveAttempt(s: Saver, remote: Remote, local: LocalWrite): (r: (Saver, bool))
    // a truthy remote result: online, saved, and no local write
    ensures remote == Truthy ==> r.1 && r.0.connected && r.0.appData == s.appData
    // a throw: offline; a falsy result or no backend: the flag is left as it was
    ensures remote == Throws ==> !r.0.connected
    ensures remote == Absent || remote == Falsy ==> r.0.connected == s.connected
    // every other case falls back to a local write of the whole state; it decides the result
    ensures remote != Truthy ==> (r.1 <==> local == Stored)
    ensures remote != Truthy && local == Stored ==> r.0.appData == Some(AppData(s.content, r.0.connected))
    ensures remote != Truthy && local == Thrown ==> r.0.appData == s.appData
    // the backend is called exactly when it exists, with the state as it was
    ensures r.0.remoteCalls == if remote == Absent then s.remoteCalls
                               else s.remoteCalls + [AppData(s.content, s.connected)]
    // nothing else changes
    ensures r.0.content == s.content && r.0.lastSavedContent == s.lastSavedContent
    ensures r.0.lastSaveTime == s.lastSaveTime && r.0.saving == s.saving
  {
    var called := if remote == Absent then s else s.(remoteCalls := s.remoteCalls + [AppData(s.content, s.connected)]);
    if remote == Truthy then (called.(connected := true), true)
    else
      var fellBack := if remote == Throws then called.(connected := false) else called;
      match local
      case Stored => (fellBack.(appData := Some(AppData(fellBack.content, fellBack.connected))), true)
      case Thrown => (fellBack, false)
  }

  // ---------------------------------------------------------------------------
  // The debounced save body (app.js:300-343)
  // ---------------------------------------------------------------------------

  /** The part of the save body before the `await`: the new state and the
      statuses it reports, in order. */
  datatype Begun = Begun(state: Saver, reported: seq<SaveStatus>)

  function BeginSave(s: Saver, editor: Option<string>, snapshotWrite: LocalWrite): (r: Begun)
    // a save in flight, or nothing changed: no effect at all
    ensures s.saving || Unchanged(editor, s.lastSavedContent) ==> r == Begun(s, [])
    // otherwise "saving" is reported and the guard taken before anything is written
    ensures !s.saving && !Unchanged(editor, s.lastSavedContent) ==> |r.reported| > 0 && r.reported[0] == Saving
    // the editor text becomes the chapter content and, before the backend is
    // tried, the saved-content snapshot, whatever the outcome will be
    ensures !s.saving && !Unchanged(editor, s.lastSavedContent) && editor.Some? ==>
              && r.state.content == editor.value
              && (snapshotWrite == Stored ==> r.state.lastSavedContent == Some(editor.value))
              && (snapshotWrite == Thrown ==> r.state.lastSavedContent == s.lastSavedContent)
    ensures !s.saving && !Unchanged(editor, s.lastSavedContent) && editor.None? ==>
              r == Begun(s.(saving := true), [Saving])
    // a failing snapshot write is caught: "error", and the guard is released at once
    ensures !s.saving && !Unchanged(editor, s.lastSavedContent) && editor.Some? ==>
              (r.state.saving <==> snapshotWrite == Stored)
              && r.reported == (if snapshotWrite == Stored then [Saving] else [Saving, Error])
    // the backend is not touched before the `await`
    ensures r.state.connected == s.connected && r.state.appData == s.appData
    ensures r.state.remoteCalls == s.remoteCalls && r.state.lastSaveTime == s.lastSaveTime
  {
    if s.saving || Unchanged(editor, s.lastSavedContent) then Begun(s, [])
    else
      var started := s.(saving := true);
      if editor.None? then Begun(started, [Saving])
      else
        var written := started.(content := editor.value);
        match snapshotWrite
        case Stored => Begun(written.(lastSavedContent := Some(editor.value)), [Saving])
        case Thrown => Begun(written.(saving := false), [Saving, Error])
  }

  /** The continuation after `await saveToFirebase()`, with its `finally`. */
  datatype Finished = Finished(state: Saver, reported: SaveStatus)

  function FinishSave(s: Saver, now: int, remote: Remote, local: LocalWrite): (r: Finished)
    // the guard is released on every path
    ensures !r.state.saving
    // a true result: "saved" and the save time recorded; otherwise "error" and the time kept
    ensures r.reported == Saved || r.reported == Error
    ensures r.reported == Saved <==> remote == Truthy || local == Stored
    ensures r.state.lastSaveTime == if r.reported == Saved then now else s.lastSaveTime
    // the snapshot taken before the attempt is not rolled back on failure
    ensures r.state.content == s.content && r.state.lastSavedContent == s.lastSavedContent
    // the connection flag and the stores are what saveToFirebase left
    ensures var (a, _) := SaveAttempt(s, remote, local);
            r.state.connected == a.connected && r.state.appData == a.appData && r.state.remoteCalls == a.remoteCalls
  {
    var (a, ok) := SaveAttempt(s, remote, local);
    if ok then Finished(a.(lastSaveTime := now, saving := false), Saved)
    else Finished(a.(saving := false), Error)
  }

  /** `showSaveStatus` for each reported status in turn. */
  function ShowAll(r: Reporter, statuses: seq<SaveStatus>, connected: bool, now: int, dom: bool): Reporter
    decreases |statuses|
  {
    if |statuses| == 0 then r
    else ShowAll(ShowSaveStatus(r, statuses[0], connected, now, dom), statuses[1..], connected, now, dom)
  }

  // ---------------------------------------------------------------------------
  // The time gates (app.js:367, 409)
  // ---------------------------------------------------------------------------

  /** The heartbeat triggers a save when over a minute has passed since the last
      successful save and no save is in flight. */
  predicate HeartbeatDue(s: Saver, now: int)
  {
    now - s.lastSaveTime > HeartbeatGap && !s.saving
  }

  /** Leaving a field triggers a save when over a second has passed since the last successful save. */
  predicate BlurDue(s: Saver, now: int)
  {
    now - s.lastSaveTime > BlurGap
  }

  // ---------------------------------------------------------------------------
  // Properties of the save path
  // ---------------------------------------------------------------------------

  /** A trigger of the debounced save body. */
  datatype Trigger = Trigger(editor: Option<string>, snapshotWrite: LocalWrite)

  /** Several triggers of the save body with no completion in between. */
  function BeginAll(s: Saver, triggers: seq<Trigger>): Begun
    decreases |triggers|
  {
    if |triggers| == 0 then Begun(s, [])
    else
      var first := BeginSave(s, triggers[0].editor, triggers[0].snapshotWrite);
      var rest := BeginAll(first.state, triggers[1..]);
      Begun(rest.state, first.reported + rest.reported)
  }

  /** While a save is in flight every further trigger is dropped, not queued:
      no status, no write, no backend call, however many arrive. */
  lemma {:induction false} OverlappingTriggersDropped(s: Saver, triggers: seq<Trigger>)
    requires s.saving
    ensures BeginAll(s, triggers) == Begun(s, [])
  {
    if |triggers| > 0 {
      OverlappingTriggersDropped(s, triggers[1..]);
    }
  }

  /** A whole save cycle for edited text: the guard is free again afterwards,
      "saved" is reported exactly when the remote or the local write succeeded,
      and the snapshot holds the text either way. */
  lemma SaveCycle(s: Saver, text: string, now: int, remote: Remote, local: LocalWrite)
    requires !s.saving && text != StoredOrEmpty(s.lastSavedContent)
    ensures var b := BeginSave(s, Some(text), Stored);
            var f := FinishSave(b.state, now, remote, local);
            && b.reported == [Saving] && b.state.saving
            && !f.state.saving
            && f.state.lastSavedContent == Some(text) && f.state.content == text
            && (f.reported == Saved <==> remote == Truthy || local == Stored)
            && (remote != Absent ==> f.state.remoteCalls == s.remoteCalls + [AppData(text, s.connected)])
  {
  }

  /** As written, the snapshot is taken before the attempt, so a save that
      failed on both backends is never retried while the text stays the same:
      the next trigger finds nothing changed. Only an edit or a reload recovers. */
  lemma FailedSaveIsNotRetried(s: Saver, text: string, now: int, remote: Remote, retry: LocalWrite)
    requires !s.saving && text != StoredOrEmpty(s.lastSavedContent)
    requires remote != Truthy
    ensures var b := BeginSave(s, Some(text), Stored);
            var f := FinishSave(b.state, now, remote, Thrown);
            && f.reported == Error
            && BeginSave(f.state, Some(text), retry) == Begun(f.state, [])
  {
  }

  /** The guard is released after a throwing backend: the next edit is saved. */
  lemma TriggerAcceptedAfterThrow(s: Saver, text: string, next: string, now: int, local: LocalWrite)
    requires !s.saving && text != StoredOrEmpty(s.lastSavedContent) && next != text
    ensures var b := BeginSave(s, Some(text), Stored);
            var f := FinishSave(b.state, now, Throws, local);
            var again := BeginSave(f.state, Some(next), Stored);
            && !f.state.connected
            && again.reported == [Saving] && again.state.saving
  {
  }

  /** The "saved" label shown after a save is the online one exactly when the
      remote backend succeeded, or when it was absent or answered falsy and the
      flag was already set by an earlier success. */
  lemma SavedLabelAfterSave(rep: Reporter, s: Saver, now: int, remote: Remote, local: LocalWrite)
    ensures var f := FinishSave(s, now, remote, local);
            var shown := ShowSaveStatus(rep, f.reported, f.state.connected, now, true);
            && (shown.shown == SavedOnline <==>
                  remote == Truthy || (remote != Throws && s.connected && local == Stored))
            && (shown.shown == SavedLocal <==>
                  remote != Truthy && local == Stored && (remote == Throws || !s.connected))
  {
  }

  /** After a successful save neither gate opens again for its full interval,
      and a failed save leaves both gates as they were. */
  lemma GatesAfterSave(s: Saver, at: int, now: int, remote: Remote, local: LocalWrite)
    ensures var f := FinishSave(s, at, remote, local);
            && (f.reported == Saved && now <= at + HeartbeatGap ==> !HeartbeatDue(f.state, now))
            && (f.reported == Saved && now <= at + BlurGap ==> !BlurDue(f.state, now))
            && (f.reported == Error ==> (HeartbeatDue(f.state, now) <==> now - s.lastSaveTime > HeartbeatGap))
            && (f.reported == Error ==> (BlurDue(f.state, now) <==> BlurDue(s, now)))
  {
  }

  /** Each time gate opens on the first millisecond after its interval since the
      last successful save, and stays open as the clock runs on until the next save. */
  lemma TimeGatesThreshold(s: Saver, now: int, later: int)
    requires now <= later
    ensures !HeartbeatDue(s, s.lastSaveTime + HeartbeatGap) && !BlurDue(s, s.lastSaveTime + BlurGap)
    ensures BlurDue(s, s.lastSaveTime + BlurGap + 1)
    ensures !s.saving ==> HeartbeatDue(s, s.lastSaveTime + HeartbeatGap + 1)
    ensures HeartbeatDue(s, now) ==> HeartbeatDue(s, later)
    ensures BlurDue(s, now) ==> BlurDue(s, later)
    // unlike the heartbeat, blur does not wait for a save in flight
    ensures BlurDue(s, now) == BlurDue(s.(saving := true), now)
  {
  }

  /** Which of the two watched fields an input or blur event comes from. */
  datatype Field = WritingEditor | ChapterTitle

  /** The autosave layer set up by `setupAutoSave`: the state it shares with
      `appState` and `localStorage`, its debounced save, one throttled input
      handler per watched field, and the status reporter. */
  class AutoSaver {
    var content: string
    var connected: bool
    var lastSavedContent: Option<string>
    var appData: Option<AppData>
    var remoteCalls: seq<AppData>
    var lastSaveTime: int
    var isCurrentlySaving: bool
    const reporter: StatusReporter
    const debounced: Debouncer<()>
    const editorInput: Throttler<()>
    const titleInput: Throttler<()>

    ghost predicate Valid()
    {
      && editorInput != titleInput
      && debounced.wait == DebounceWait
      && editorInput.delay == InputThrottle && titleInput.delay == InputThrottle
    }

    function State(): Saver
      reads this
    {
      Saver(content, connected, lastSavedContent, appData, remoteCalls, lastSaveTime, isCurrentlySaving)
    }

    function InputOf(field: Field): Throttler<()>
    {
      if field == WritingEditor then editorInput else titleInput
    }

    /** Set up with whatever `localStorage` already holds; nothing is saved yet. */
    constructor (stored: Option<string>, data: Option<AppData>)
      ensures Valid()
      // appState after loadLocalData has merged the stored app data into it
      ensures State() == Saver(if data.Some? then data.value.chapterContent else "",
                               data.Some? && data.value.isConnected, stored, data, [], 0, false)
      ensures reporter.State() == Reporter(ReadyLabel, None) && debounced.pending.None?
      ensures editorInput.State() == ThrottleInit() && titleInput.State() == ThrottleInit()
      ensures fresh(reporter) && fresh(debounced) && fresh(editorInput) && fresh(titleInput)
    {
      content := if data.Some? then data.value.chapterContent else "";
      connected := data.Some? && data.value.isConnected;
      lastSavedContent, appData := stored, data;
      remoteCalls, lastSaveTime, isCurrentlySaving := [], 0, false;
      reporter := new StatusReporter();
      debounced := new Debouncer(DebounceWait);
      editorInput := new Throttler(InputThrottle);
      titleInput := new Throttler(InputThrottle);
    }

    /** `saveToFirebase()`. */
    method SaveToFirebase(remote: Remote, local: LocalWrite) returns (ok: bool)
      modifies this
      ensures (State(), ok) == SaveAttempt(old(State()), remote, local)
    {
      if remote != Absent {
        remoteCalls := remoteCalls + [AppData(content, connected)];
        if remote == Truthy {
          connected := true;
          return true;
        }
        if remote == Throws {
          connected := false;
        }
      }
      if local == Stored {
        appData := Some(AppData(content, connected));
        ok := true;
      } else {
        ok := false;
      }
    }

    /** The debounced save body, up to its `await`. */
    method DebouncedSave(now: int, editor: Option<string>, snapshotWrite: LocalWrite, dom: bool)
      modifies this, reporter
      ensures var b := BeginSave(old(State()), editor, snapshotWrite);
              State() == b.state && reporter.State() == ShowAll(old(reporter.State()), b.reported, connected, now, dom)
    {
      if isCurrentlySaving {
        return;
      }
      var current := if editor.Some? then editor.value else "";
      var stored := if lastSavedContent.Some? then lastSavedContent.value else "";
      if current == stored {
        return;
      }
      isCurrentlySaving := true;
      reporter.Show(Saving, connected, now, dom);
      if editor.Some? {
        content := editor.value;
        if snapshotWrite == Thrown {
          reporter.Show(Error, connected, now, dom);
          assert [Saving, Error][1..] == [Error];
          isCurrentlySaving := false;
          return;
        }
        lastSavedContent := Some(editor.value);
      }
    }

    /** The rest of the save body, once `saveToFirebase()` has resolved. */
    method CompleteSave(now: int, remote: Remote, local: LocalWrite, dom: bool)
      requires isCurrentlySaving
      modifies this, reporter
      ensures var f := FinishSave(old(State()), now, remote, local);
              State() == f.state && reporter.State() == ShowSaveStatus(old(reporter.State()), f.reported, connected, now, dom)
    {
      var ok := SaveToFirebase(remote, local);
      if ok {
        reporter.Show(Saved, connected, now, dom);
        lastSaveTime := now;
      } else {
        reporter.Show(Error, connected, now, dom);
      }
      isCurrentlySaving := false;
    }

    /** The clock reaches `now`: if the debounce timer is due, the save body runs. */
    method SaveTimer(now: int, editor: Option<string>, snapshotWrite: LocalWrite, dom: bool)
      requires Valid()
      modifies this, reporter, debounced
      ensures var (p, ran) := DebounceStep(old(debounced.pending), DebounceWait, Tick(now));
              && debounced.pending == p
              && (ran.None? ==> State() == old(State()) && reporter.State() == old(reporter.State()))
              && (ran.Some? ==>
                    var b := BeginSave(old(State()), editor, snapshotWrite);
                    State() == b.state && reporter.State() == ShowAll(old(reporter.State()), b.reported, connected, now, dom))
    {
      var ran := debounced.Tick(now);
      if ran.Some? {
        DebouncedSave(now, editor, snapshotWrite, dom);
      }
    }

    /** What the throttled input handler does when it runs: report "saving" at
        once and call the debounced save. */
    method InputHandler(now: int, dom: bool)
      requires Valid()
      modifies reporter, debounced
      ensures reporter.State() == ShowSaveStatus(old(reporter.State()), Saving, connected, now, dom)
      ensures debounced.pending == Some(Timer(now + DebounceWait, ()))
    {
      reporter.Show(Saving, connected, now, dom);
      debounced.Call(now, ());
    }

    /** An `input` event on a watched field, through that field's throttle. */
    method Input(field: Field, now: int, dom: bool)
      requires Valid()
      modifies reporter, debounced, editorInput, titleInput
      ensures var (t, ran) := ThrottleStep(old(InputOf(field).State()), InputThrottle, Event.Call(now, ()));
              && InputOf(field).State() == t
              && (field == WritingEditor ==> titleInput.State() == old(titleInput.State()))
              && (field == ChapterTitle ==> editorInput.State() == old(editorInput.State()))
              && (ran.None? ==> reporter.State() == old(reporter.State()) && debounced.pending == old(debounced.pending))
              && (ran.Some? ==> reporter.State() == ShowSaveStatus(old(reporter.State()), Saving, connected, now, dom)
                                && debounced.pending == Some(Timer(now + DebounceWait, ())))
    {
      var throttle := InputOf(field);
      var ran := throttle.Call(now, ());
      if ran.Some? {
        InputHandler(now, dom);
      }
    }

    /** The clock reaches `now`: a field's deferred input call runs if it is due. */
    method InputTimer(field: Field, now: int, dom: bool)
      requires Valid()
      modifies reporter, debounced, editorInput, titleInput
      ensures var (t, ran) := ThrottleStep(old(InputOf(field).State()), InputThrottle, Event.Tick(now));
              && InputOf(field).State() == t
              && (field == WritingEditor ==> titleInput.State() == old(titleInput.State()))
              && (field == ChapterTitle ==> editorInput.State() == old(editorInput.State()))
              && (ran.None? ==> reporter.State() == old(reporter.State()) && debounced.pending == old(debounced.pending))
              && (ran.Some? ==> reporter.State() == ShowSaveStatus(old(reporter.State()), Saving, connected, now, dom)
                                && debounced.pending == Some(Timer(now + DebounceWait, ())))
    {
      var throttle := InputOf(field);
      var ran := throttle.Tick(now);
      if ran.Some? {
        InputHandler(now, dom);
      }
    }

    /** A `blur` event on a watched field. */
    method Blur(now: int)
      requires Valid()
      modifies debounced
      ensures debounced.pending == if BlurDue(State(), now) then Some(Timer(now + DebounceWait, ())) else old(debounced.pending)
    {
      if now - lastSaveTime > BlurGap {
        debounced.Call(now, ());
      }
    }

    /** A `focus` event on a watched field holding `value`. */
    method Focus(value: string, now: int, dom: bool)
      modifies reporter
      ensures reporter.State() == if Tags.Trim(value) != "" then ShowSaveStatus(old(reporter.State()), Ready, connected, now, dom)
                                  else old(reporter.State())
    {
      if Tags.Trim(value) != "" {
        reporter.Show(Ready, connected, now, dom);
      }
    }

    /** A `characterUpdated` or `chapterUpdated` document event. */
    method DomainUpdated(now: int)
      requires Valid()
      modifies debounced
      ensures debounced.pending == Some(Timer(now + DebounceWait, ()))
    {
      debounced.Call(now, ());
    }

    /** One heartbeat of the 60-second interval. */
    method Heartbeat(now: int)
      requires Valid()
      modifies debounced
      ensures debounced.pending == if HeartbeatDue(State(), now) then Some(Timer(now + DebounceWait, ())) else old(debounced.pending)
    {
      if now - lastSaveTime > HeartbeatGap && !isCurrentlySaving {
        debounced.Call(now, ());
      }
    }

    /** The clock reaches `now`: the status auto-reset fires if it is due. */
    method StatusTimer(now: int, dom: bool)
      modifies reporter
      ensures reporter.State() == FireReset(old(reporter.State()), now, dom)
    {
      reporter.Tick(now, dom);
    }
  }

  /** A client of the class: "Hello" typed at 10 s, "Hello world" 300 ms later,
      with no remote backend. The first input runs at once, the second is
      deferred to the end of the 500 ms window, and exactly one save follows,
      3 s after that, with the final text; it ends in the local "saved" label. */
  method TypingScenario()
  {
    var app := new AutoSaver(None, None);
    app.Input(WritingEditor, 10000, true);
    assert app.reporter.State().shown == SavingLabel;
    app.Input(WritingEditor, 10300, true);
    app.InputTimer(WritingEditor, 10400, true);
    assert app.debounced.pending == Some(Timer(13000, ()));
    app.InputTimer(WritingEditor, 10500, true);
    assert app.debounced.pending == Some(Timer(13500, ()));
    app.SaveTimer(13000, Some("Hello world"), Stored, true);
    assert !app.isCurrentlySaving && app.lastSavedContent.None?;
    app.SaveTimer(13500, Some("Hello world"), Stored, true);
    assert app.isCurrentlySaving && app.lastSavedContent == Some("Hello world");
    app.CompleteSave(13600, Absent, Stored, true);
    assert app.reporter.State() == Reporter(SavedLocal, Some(Reset(17600, true)));
    assert app.appData == Some(AppData("Hello world", false)) && app.remoteCalls == [];
    app.StatusTimer(17600, true);
    assert app.reporter.State() == Reporter(ReadyLabel, None);
    app.SaveTimer(20000, Some("Hello world"), Stored, true);
    assert app.debounced.pending.None? && !app.isCurrentlySaving;
  }
}
