/**
  The save-status reporter of app.js, `showSaveStatus` (app.js:214-292).

  What the user sees is one of five labels: the four statuses, with "saved"
  in an online and a local variant chosen by the connection flag. The one
  cancellable auto-reset timer (`window.saveStatusTimeout`) is an optional
  `Reset`; the presence of the two DOM targets (`#saveStatusText` and
  `.save-status-inline`) is the parameter `dom`. Colours, icons and the pulse
  animation are presentation only and are not modelled.
*/
module Status {
  import opened Wrappers
  import Limiters

  /** The four values `showSaveStatus` accepts. */
  datatype SaveStatus = Ready | Saving | Saved | Error

  /** The text shown in the status element. */
  datatype Label = ReadyLabel | SavingLabel | SavedOnline | SavedLocal | ErrorLabel
  {
    /** The status this label displays. */
    function Status(): SaveStatus
    {
      match this
      case ReadyLabel => Ready
      case SavingLabel => Saving
      case SavedOnline => Saved
      case SavedLocal => Saved
      case ErrorLabel => Error
    }

    /** Whether the text contains the "saved" words checked by the 4-second callback. */
    predicate IsSaved(): (saved: bool)
      ensures saved <==> Status() == Saved
    {
      SavedOnline? || SavedLocal?
    }
  }

  /** The pending auto-reset: when it fires, and whether it first checks that
      the label still reads "saved" (the `includes` test of the 4-second callback). */
  datatype Reset = Reset(due: int, onlyIfSaved: bool)

  /** What the reporter holds between calls. */
  datatype Reporter = Reporter(shown: Label, reset: Option<Reset>)

  const SavedResetDelay: nat := 4000
  const ErrorResetDelay: nat := 5000

  /** The delay after which a status reverts to ready, for the two that do. */
  function ResetDelay(status: SaveStatus): nat
    requires status == Saved || status == Error
  {
    if status == Saved then SavedResetDelay else ErrorResetDelay
  }

  /** `showSaveStatus(status)` at time `now`, with `connected` the value of
      `appState.isConnected` at the call. */
  function ShowSaveStatus(r: Reporter, status: SaveStatus, connected: bool, now: int, dom: bool): (r': Reporter)
    // missing DOM targets: a complete no-op, the pending reset included
    ensures !dom ==> r' == r
    // otherwise the label shows the status, online exactly when connected
    ensures dom ==> r'.shown.Status() == status
    ensures dom ==> (r'.shown == SavedOnline <==> status == Saved && connected)
    // the previous reset is always cancelled; only saved and error schedule a new one
    ensures dom ==> (r'.reset.Some? <==> status == Saved || status == Error)
    ensures dom && status == Saved ==> r'.reset == Some(Reset(now + SavedResetDelay, true))
    ensures dom && status == Error ==> r'.reset == Some(Reset(now + ErrorResetDelay, false))
  {
    if !dom then r
    else
      match status
      case Saving => Reporter(SavingLabel, None)
      case Saved => Reporter(if connected then SavedOnline else SavedLocal, Some(Reset(now + SavedResetDelay, true)))
      case Error => Reporter(ErrorLabel, Some(Reset(now + ErrorResetDelay, false)))
      case Ready => Reporter(ReadyLabel, None)
  }

  /** The clock reaches `now`: a due reset fires and calls `showSaveStatus('ready')`,
      the 4-second one only if the label still reads "saved". */
  function FireReset(r: Reporter, now: int, dom: bool): (r': Reporter)
    ensures r.reset.None? || now < r.reset.value.due ==> r' == r
    ensures r.reset.Some? && r.reset.value.due <= now ==> r'.reset.None?
    // a due reset shows ready, unless the DOM targets are missing or the
    // 4-second one finds the label no longer reads "saved"
    ensures r.reset.Some? && r.reset.value.due <= now ==>
              r'.shown == if dom && (!r.reset.value.onlyIfSaved || r.shown.IsSaved()) then ReadyLabel else r.shown
  {
    if r.reset.Some? && r.reset.value.due <= now then
      var fired := r.(reset := None);
      if r.reset.value.onlyIfSaved && !r.shown.IsSaved() then fired
      else ShowSaveStatus(fired, Ready, false, now, dom)
    else r
  }

  /** What reaches the reporter: a `showSaveStatus` call or the clock. */
  datatype ReporterEvent =
    | Show(status: SaveStatus, connected: bool, time: int, dom: bool)
    | Clock(time: int, dom: bool)

  function ReporterStep(r: Reporter, e: ReporterEvent): Reporter
  {
    match e
    case Show(status, connected, now, dom) => ShowSaveStatus(r, status, connected, now, dom)
    case Clock(now, dom) => FireReset(r, now, dom)
  }

  function ReporterRun(r: Reporter, evs: seq<ReporterEvent>): Reporter
  {
    if |evs| == 0 then r else ReporterStep(ReporterRun(r, evs[..|evs| - 1]), evs[|evs| - 1])
  }

  /** A pending reset always belongs to the label on screen: the 4-second one
      to a "saved" label, the 5-second one to the error label. */
  ghost predicate ResetMatchesLabel(r: Reporter)
  {
    r.reset.Some? ==>
      if r.reset.value.onlyIfSaved then r.shown.IsSaved() else r.shown == ErrorLabel
  }

  /** The reporter's one invariant holds from any start that satisfies it,
      whatever calls and clock ticks follow (DOM targets present or not). */
  lemma {:induction false} ResetAlwaysMatchesLabel(r: Reporter, evs: seq<ReporterEvent>)
    requires ResetMatchesLabel(r)
    ensures ResetMatchesLabel(ReporterRun(r, evs))
  {
    if |evs| > 0 {
      ResetAlwaysMatchesLabel(r, evs[..|evs| - 1]);
    }
  }

  /** Hence the "still saved" test never blocks: whenever a reset falls due
      with the DOM targets present, the reporter returns to ready. */
  lemma DueResetRevertsToReady(r: Reporter, now: int)
    requires ResetMatchesLabel(r)
    requires r.reset.Some? && r.reset.value.due <= now
    ensures FireReset(r, now, true) == Reporter(ReadyLabel, None)
  {
  }

  /** Clock ticks only, all with the DOM targets present. */
  function ClockTicks(times: seq<int>): (evs: seq<ReporterEvent>)
    ensures |evs| == |times|
    ensures forall k :: 0 <= k < |evs| ==> evs[k] == Clock(times[k], true)
  {
    if |times| == 0 then [] else ClockTicks(times[..|times| - 1]) + [Clock(times[|times| - 1], true)]
  }

  /** "saved" and "error" revert to ready exactly when the clock first reaches
      4 s (respectively 5 s) after they were shown, if nothing else is shown first. */
  lemma {:induction false} AutoRevert(r: Reporter, status: SaveStatus, connected: bool, shownAt: int, times: seq<int>)
    requires status == Saved || status == Error
    ensures var shown := ShowSaveStatus(r, status, connected, shownAt, true);
            ReporterRun(shown, ClockTicks(times))
              == if Limiters.Reaches(times, shownAt + ResetDelay(status)) then Reporter(ReadyLabel, None) else shown
  {
    var shown := ShowSaveStatus(r, status, connected, shownAt, true);
    var due := shownAt + ResetDelay(status);
    if |times| > 0 {
      var init := times[..|times| - 1];
      var now := times[|times| - 1];
      AutoRevert(r, status, connected, shownAt, init);
      var evs := ClockTicks(times);
      assert evs[..|evs| - 1] == ClockTicks(init);
      assert evs[|evs| - 1] == Clock(now, true);
      var prev := ReporterRun(shown, ClockTicks(init));
      assert ReporterRun(shown, evs) == FireReset(prev, now, true);
      Limiters.ReachesSnoc(times, due);
    }
  }

  /** A newer status that schedules no reset supersedes a pending one: the old
      reset never fires, however long the clock runs. */
  lemma {:induction false} SupersededResetNeverFires(r: Reporter, status: SaveStatus, connected: bool, now: int, times: seq<int>)
    requires status == Ready || status == Saving
    ensures var shown := ShowSaveStatus(r, status, connected, now, true);
            shown.reset.None? && ReporterRun(shown, ClockTicks(times)) == shown
  {
    if |times| > 0 {
      SupersededResetNeverFires(r, status, connected, now, times[..|times| - 1]);
      var evs := ClockTicks(times);
      assert evs[..|evs| - 1] == ClockTicks(times[..|times| - 1]);
    }
  }

  /** The status element with its one auto-reset timer. */
  class StatusReporter {
    var shown: Label
    var reset: Option<Reset>

    function State(): Reporter
      reads this
    {
      Reporter(shown, reset)
    }

    /** Starts showing ready with no reset pending. */
    constructor ()
      ensures State() == Reporter(ReadyLabel, None)
    {
      shown := ReadyLabel;
      reset := None;
    }

    /** `showSaveStatus(status)`. */
    method Show(status: SaveStatus, connected: bool, now: int, dom: bool)
      modifies this
      ensures State() == ShowSaveStatus(old(State()), status, connected, now, dom)
    {
      if !dom {
        return;
      }
      reset := None;
      match status {
        case Saving =>
          shown := SavingLabel;
        case Saved =>
          shown := if connected then SavedOnline else SavedLocal;
          reset := Some(Reset(now + SavedResetDelay, true));
        case Error =>
          shown := ErrorLabel;
          reset := Some(Reset(now + ErrorResetDelay, false));
        case Ready =>
          shown := ReadyLabel;
      }
    }

    /** The clock reaches `now`: a due reset fires. */
    method Tick(now: int, dom: bool)
      modifies this
      ensures State() == FireReset(old(State()), now, dom)
    {
      if reset.Some? && reset.value.due <= now {
        var onlyIfSaved := reset.value.onlyIfSaved;
        reset := None;
        if !onlyIfSaved || shown.IsSaved() {
          Show(Ready, false, now, dom);
        }
      }
    }
  }
}
