/**
  The call-rate limiters of app.js, `debounce` and `throttle`, with the clock
  made explicit. A `setTimeout` callback becomes a `Timer` holding the time it
  is due and the arguments it will run with; the browser's event loop becomes a
  `Tick(now)` that runs the timer once `now` has reached its due time.

  Each limiter is given twice: as a step function over its state (used by the
  lemmas about whole call sequences) and as a class whose fields are the
  closure variables of the JavaScript (`timeout`, `timeoutId`, `lastExecTime`)
  and whose methods are proved to follow the step function.
*/
module Limiters {
  import opened Wrappers

  /** A pending `setTimeout` callback. */
  datatype Timer<A> = Timer(due: int, args: A)

  /** What a wrapped function sees: a call at some time, or the clock reaching some time. */
  datatype Event<A> = Call(time: int, args: A) | Tick(time: int)

  /** One run of the underlying function: when it ran and with which arguments. */
  datatype Execution<A> = Execution(at: int, args: A)

  /** The timer a call schedules, if there was a call. */
  function Scheduled<A>(call: Option<Execution<A>>, wait: nat): Option<Timer<A>>
  {
    match call
    case None => None
    case Some(c) => Some(Timer(c.at + wait, c.args))
  }

  /** The most recent `Call` of a sequence of events. */
  function LastCall<A>(evs: seq<Event<A>>): (r: Option<Execution<A>>)
    ensures r.None? <==> forall i :: 0 <= i < |evs| ==> evs[i].Tick?
  {
    if |evs| == 0 then None
    else
      var last := evs[|evs| - 1];
      if last.Call? then
        assert evs[|evs| - 1] == Call(last.time, last.args);
        Some(Execution(last.time, last.args))
      else
        var init := evs[..|evs| - 1];
        assert forall i :: 0 <= i < |init| ==> evs[i] == init[i];
        LastCall(init)
  }

  /** The most recent call is a call of the sequence, and only ticks follow it. */
  lemma {:induction false} LastCallIsLast<A>(evs: seq<Event<A>>)
    requires LastCall(evs).Some?
    ensures var c := LastCall(evs).value;
            exists i :: && 0 <= i < |evs| && evs[i] == Event.Call(c.at, c.args)
                        && forall j :: i < j < |evs| ==> evs[j].Tick?
  {
    var c := LastCall(evs).value;
    var n := |evs| - 1;
    if evs[n].Call? {
      assert evs[n] == Event.Call(c.at, c.args);
    } else {
      var init := evs[..n];
      assert LastCall(init) == LastCall(evs);
      LastCallIsLast(init);
      var i :| && 0 <= i < |init| && init[i] == Event.Call(c.at, c.args)
                && forall j :: i < j < |init| ==> init[j].Tick?;
      forall j | i < j < |evs| ensures evs[j].Tick? {
        if j < n {
          assert evs[j] == init[j];
        }
      }
      assert evs[i] == init[i];
    }
  }

  /** The clock reaching each of `times` in turn, with no call in between. */
  function Ticks<A>(times: seq<int>): (r: seq<Event<A>>)
    ensures |r| == |times|
    ensures forall k :: 0 <= k < |r| ==> r[k] == Tick(times[k])
  {
    if |times| == 0 then [] else Ticks(times[..|times| - 1]) + [Tick(times[|times| - 1])]
  }

  // ---------------------------------------------------------------------------
  // debounce (app.js:663-673)
  // ---------------------------------------------------------------------------

  /** One event seen by a debounced function whose pending timer is `pending`;
      returns the new pending timer and the arguments of the run, if one happened. */
  function DebounceStep<A>(pending: Option<Timer<A>>, wait: nat, e: Event<A>): (r: (Option<Timer<A>>, Option<A>))
    // a call never runs the function; it replaces any pending timer by one due `wait` later
    ensures e.Call? ==> r.1.None? && r.0 == Some(Timer(e.time + wait, e.args))
    // the clock runs the pending timer exactly when it is due, and that clears it
    ensures e.Tick? ==> (r.1.Some? <==> pending.Some? && pending.value.due <= e.time)
    ensures e.Tick? && r.1.Some? ==> r.1.value == pending.value.args && r.0.None?
    ensures e.Tick? && r.1.None? ==> r.0 == pending
  {
    match e
    case Call(now, args) => (Some(Timer(now + wait, args)), None)
    case Tick(now) =>
      if pending.Some? && pending.value.due <= now then (None, Some(pending.value.args))
      else (pending, None)
  }

  /** A sequence of events fed to a debounced function: the final pending timer
      and the arguments of every run, in order. */
  function DebounceRun<A>(pending: Option<Timer<A>>, wait: nat, evs: seq<Event<A>>): (Option<Timer<A>>, seq<A>)
  {
    if |evs| == 0 then (pending, [])
    else
      var (p, out) := DebounceRun(pending, wait, evs[..|evs| - 1]);
      var (p', fired) := DebounceStep(p, wait, evs[|evs| - 1]);
      (p', if fired.Some? then out + [fired.value] else out)
  }

  /** A burst: the clock never reaches `wait` past the most recent call. */
  ghost predicate QuietBurst<A>(evs: seq<Event<A>>, wait: nat)
  {
    forall i :: 0 <= i < |evs| && evs[i].Tick? ==>
      LastCall(evs[..i]).None? || evs[i].time < LastCall(evs[..i]).value.at + wait
  }

  lemma QuietBurstPrefix<A>(evs: seq<Event<A>>, wait: nat)
    requires |evs| > 0 && QuietBurst(evs, wait)
    ensures QuietBurst(evs[..|evs| - 1], wait)
  {
    var init := evs[..|evs| - 1];
    forall i | 0 <= i < |init| && init[i].Tick?
      ensures LastCall(init[..i]).None? || init[i].time < LastCall(init[..i]).value.at + wait
    {
      assert init[..i] == evs[..i];
    }
  }

  /** During a burst a debounced function never runs, and the one pending timer
      is the last call's, due `wait` after it. */
  lemma {:induction false} DebounceBurst<A>(wait: nat, evs: seq<Event<A>>)
    requires QuietBurst(evs, wait)
    ensures DebounceRun(None, wait, evs) == (Scheduled(LastCall(evs), wait), [])
  {
    if |evs| > 0 {
      var init := evs[..|evs| - 1];
      QuietBurstPrefix(evs, wait);
      DebounceBurst(wait, init);
    }
  }

  /** Feeding two sequences of events one after the other. */
  lemma {:induction false} DebounceRunAppend<A>(pending: Option<Timer<A>>, wait: nat, a: seq<Event<A>>, b: seq<Event<A>>)
    ensures var (p, out) := DebounceRun(pending, wait, a);
            var (p', out') := DebounceRun(p, wait, b);
            DebounceRun(pending, wait, a + b) == (p', out + out')
  {
    var (p, out) := DebounceRun(pending, wait, a);
    if |b| == 0 {
      assert a + b == a;
      assert out + [] == out;
    } else {
      var b0 := b[..|b| - 1];
      DebounceRunAppend(pending, wait, a, b0);
      assert (a + b)[..|a + b| - 1] == a + b0;
      assert (a + b)[|a + b| - 1] == b[|b| - 1];
      var (q, mid) := DebounceRun(p, wait, b0);
      var (q', fired) := DebounceStep(q, wait, b[|b| - 1]);
      if fired.Some? {
        assert out + (mid + [fired.value]) == (out + mid) + [fired.value];
      }
    }
  }

  /** Whether the clock ever reaches `due`. */
  predicate Reaches(times: seq<int>, due: int)
  {
    exists k :: 0 <= k < |times| && due <= times[k]
  }

  /** The clock reaches `due` in `times` exactly when it does before the last
      tick or at the last tick. */
  lemma ReachesSnoc(times: seq<int>, due: int)
    requires |times| > 0
    ensures Reaches(times, due) <==> Reaches(times[..|times| - 1], due) || due <= times[|times| - 1]
  {
    var init := times[..|times| - 1];
    if Reaches(init, due) {
      var k :| 0 <= k < |init| && due <= init[k];
      assert times[k] == init[k];
    }
    if Reaches(times, due) && due > times[|times| - 1] {
      var k :| 0 <= k < |times| && due <= times[k];
      assert init[k] == times[k];
    }
  }

  /** A pending timer left alone runs once, the first time the clock reaches it. */
  lemma {:induction false} DebounceTimerFires<A>(wait: nat, t: Timer<A>, times: seq<int>)
    ensures DebounceRun(Some(t), wait, Ticks(times))
              == if Reaches(times, t.due) then (None, [t.args]) else (Some(t), [])
  {
    if |times| > 0 {
      var init := times[..|times| - 1];
      var now := times[|times| - 1];
      DebounceTimerFires(wait, t, init);
      var evs := Ticks<A>(times);
      assert evs[..|evs| - 1] == Ticks(init);
      assert evs[|evs| - 1] == Tick(now);
      ReachesSnoc(times, t.due);
      if !Reaches(init, t.due) && t.due <= now {
        assert DebounceRun(Some(t), wait, Ticks(init)) == (Some(t), []);
        assert DebounceStep(Some(t), wait, Tick(now)) == (None, Some(t.args));
        assert [] + [t.args] == [t.args];
      }
    }
  }

  /** After a burst, the debounced function runs exactly once, with the arguments
      of the last call, as soon as the clock reaches `wait` past that call, and
      never again while nothing else calls it. */
  lemma {:induction false} DebounceSettles<A>(wait: nat, burst: seq<Event<A>>, times: seq<int>)
    requires QuietBurst(burst, wait) && LastCall(burst).Some?
    ensures var last := LastCall(burst).value;
            DebounceRun(None, wait, burst + Ticks(times))
              == if Reaches(times, last.at + wait) then (None, [last.args])
                 else (Some(Timer(last.at + wait, last.args)), [])
  {
    var last := LastCall(burst).value;
    var t := Timer(last.at + wait, last.args);
    DebounceBurst(wait, burst);
    assert DebounceRun(None, wait, burst) == (Some(t), []);
    DebounceRunAppend(None, wait, burst, Ticks(times));
    DebounceTimerFires(wait, t, times);
    var (p', out') := DebounceRun(Some(t), wait, Ticks(times));
    assert [] + out' == out';
  }

  /** The closure of `debounce(func, wait)`: the one pending timer. */
  class Debouncer<A> {
    const wait: nat
    var pending: Option<Timer<A>>

    constructor (wait: nat)
      ensures this.wait == wait && pending.None?
    {
      this.wait := wait;
      pending := None;
    }

    /** A call of the wrapped function: cancel the pending timer and schedule a new one. */
    method Call(now: int, args: A)
      modifies this
      ensures (pending, None) == DebounceStep(old(pending), wait, Event.Call(now, args))
    {
      pending := Some(Timer(now + wait, args));
    }

    /** The clock reaches `now`: if the timer is due, it runs `func` with its arguments. */
    method Tick(now: int) returns (ran: Option<A>)
      modifies this
      ensures (pending, ran) == DebounceStep(old(pending), wait, Event.Tick(now))
    {
      ran := None;
      if pending.Some? && pending.value.due <= now {
        ran := Some(pending.value.args);
        pending := None;
      }
    }
  }

  // ---------------------------------------------------------------------------
  // throttle (app.js:675-692)
  // ---------------------------------------------------------------------------

  /** The closure variables of `throttle(func, delay)`. */
  datatype ThrottleState<A> = ThrottleState(pending: Option<Timer<A>>, lastExec: int)

  /** `lastExecTime` starts at 0 and nothing is pending. */
  function ThrottleInit<A>(): ThrottleState<A>
  {
    ThrottleState(None, 0)
  }

  /** One event seen by a throttled function; returns the new state and the run, if one happened. */
  function ThrottleStep<A>(s: ThrottleState<A>, delay: nat, e: Event<A>): (r: (ThrottleState<A>, Option<Execution<A>>))
    // a call runs at once exactly when strictly more than `delay` has passed since the last run
    ensures e.Call? ==> (r.1.Some? <==> e.time - s.lastExec > delay)
    ensures e.Call? && r.1.Some? ==>
              r.1.value == Execution(e.time, e.args) && r.0 == ThrottleState(s.pending, e.time)
    // otherwise it replaces any deferred call by its own, due `delay` after the last run
    ensures e.Call? && r.1.None? ==> r.0 == ThrottleState(Some(Timer(s.lastExec + delay, e.args)), s.lastExec)
    // the clock runs the deferred call once it is due; that run is the new last run
    ensures e.Tick? ==> (r.1.Some? <==> s.pending.Some? && s.pending.value.due <= e.time)
    ensures e.Tick? && r.1.Some? ==>
              r.1.value == Execution(e.time, s.pending.value.args) && r.0 == ThrottleState(None, e.time)
    ensures e.Tick? && r.1.None? ==> r.0 == s
  {
    match e
    case Call(now, args) =>
      if now - s.lastExec > delay then (s.(lastExec := now), Some(Execution(now, args)))
      else (s.(pending := Some(Timer(now + (delay - (now - s.lastExec)), args))), None)
    case Tick(now) =>
      if s.pending.Some? && s.pending.value.due <= now then
        (ThrottleState(None, now), Some(Execution(now, s.pending.value.args)))
      else (s, None)
  }

  /** A sequence of events fed to a throttled function: the final state and every run, in order. */
  function ThrottleRun<A>(s: ThrottleState<A>, delay: nat, evs: seq<Event<A>>): (ThrottleState<A>, seq<Execution<A>>)
  {
    if |evs| == 0 then (s, [])
    else
      var (s1, out) := ThrottleRun(s, delay, evs[..|evs| - 1]);
      var (s2, ran) := ThrottleStep(s1, delay, evs[|evs| - 1]);
      (s2, if ran.Some? then out + [ran.value] else out)
  }

  /** A deferred call is always due `delay` after the last run. */
  ghost predicate ThrottleInv<A>(s: ThrottleState<A>, delay: nat)
  {
    s.pending.Some? ==> s.pending.value.due == s.lastExec + delay
  }

  /** The event loop runs every timer before any call made after its due time. */
  ghost predicate Timely<A>(s: ThrottleState<A>, delay: nat, evs: seq<Event<A>>)
  {
    forall i :: 0 <= i < |evs| && evs[i].Call? ==>
      var p := ThrottleRun(s, delay, evs[..i]).0.pending;
      p.None? || evs[i].time < p.value.due
  }

  /** Consecutive runs are at least `delay` apart. */
  ghost predicate Spaced<A>(out: seq<Execution<A>>, delay: nat)
  {
    forall i :: 0 < i < |out| ==> out[i - 1].at + delay <= out[i].at
  }

  lemma TimelyPrefix<A>(s: ThrottleState<A>, delay: nat, evs: seq<Event<A>>)
    requires |evs| > 0 && Timely(s, delay, evs)
    ensures Timely(s, delay, evs[..|evs| - 1])
  {
    var init := evs[..|evs| - 1];
    forall i | 0 <= i < |init| && init[i].Call?
      ensures var p := ThrottleRun(s, delay, init[..i]).0.pending;
              p.None? || init[i].time < p.value.due
    {
      assert init[..i] == evs[..i];
    }
  }

  /** With timers delivered on time, a throttled function runs at most once per
      `delay` window: every run is at least `delay` after the previous one (and
      after the initial last run), and `lastExecTime` is always the latest run. */
  lemma {:induction false} ThrottleSpacing<A>(s: ThrottleState<A>, delay: nat, evs: seq<Event<A>>)
    requires ThrottleInv(s, delay) && Timely(s, delay, evs)
    ensures var (s', out) := ThrottleRun(s, delay, evs);
            && ThrottleInv(s', delay)
            && Spaced(out, delay)
            && (|out| == 0 ==> s'.lastExec == s.lastExec)
            && (|out| > 0 ==> s.lastExec + delay <= out[0].at && s'.lastExec == out[|out| - 1].at)
  {
    if |evs| > 0 {
      var init := evs[..|evs| - 1];
      TimelyPrefix(s, delay, evs);
      ThrottleSpacing(s, delay, init);
      var (s1, out) := ThrottleRun(s, delay, init);
      var e := evs[|evs| - 1];
      if e.Call? {
        assert evs[..|evs| - 1] == init;
      }
    }
  }

  /** Trailing edge: the last call of a sequence is never lost. Either it ran
      at once, or it is the one deferred call, carrying its arguments. */
  lemma {:induction false} ThrottleKeepsLastCall<A>(s: ThrottleState<A>, delay: nat, evs: seq<Event<A>>, now: int, args: A)
    ensures var (s', out) := ThrottleRun(s, delay, evs + [Call(now, args)]);
            (|out| > 0 && out[|out| - 1] == Execution(now, args))
            || (s'.pending.Some? && s'.pending.value.args == args)
  {
    var evs' := evs + [Call(now, args)];
    assert evs'[..|evs'| - 1] == evs;
  }

  /** The closure of `throttle(func, delay)`: the deferred timer and `lastExecTime`. */
  class Throttler<A> {
    const delay: nat
    var pending: Option<Timer<A>>
    var lastExec: int

    function State(): ThrottleState<A>
      reads this
    {
      ThrottleState(pending, lastExec)
    }

    constructor (delay: nat)
      ensures this.delay == delay && State() == ThrottleInit()
    {
      this.delay := delay;
      pending := None;
      lastExec := 0;
    }

    /** A call of the wrapped function at time `now`. */
    method Call(now: int, args: A) returns (ran: Option<Execution<A>>)
      modifies this
      ensures (State(), ran) == ThrottleStep(old(State()), delay, Event.Call(now, args))
    {
      if now - lastExec > delay {
        ran := Some(Execution(now, args));
        lastExec := now;
      } else {
        ran := None;
        pending := Some(Timer(now + (delay - (now - lastExec)), args));
      }
    }

    /** The clock reaches `now`: a due deferred call runs and records its own time. */
    method Tick(now: int) returns (ran: Option<Execution<A>>)
      modifies this
      ensures (State(), ran) == ThrottleStep(old(State()), delay, Event.Tick(now))
    {
      ran := None;
      if pending.Some? && pending.value.due <= now {
        ran := Some(Execution(now, pending.value.args));
        pending := None;
        lastExec := now;
      }
    }
  }
}
