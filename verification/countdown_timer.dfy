/** CountdownTimer: the tick-driven integer countdown of the current
    generation. A periodic 1000 ms timer decrements the remaining time;
    when it runs out the timer disarms itself and reports completion.

    The underlying System.Threading.Timer is reduced to the flag `armed`
    (is it set to fire every TimerPeriod ms?); a fire of that timer is the
    explicit call `Tick`. */
module CountdownTimer {
  import opened Wrappers
  import opened Basics

  const TimerPeriod: int := 1000
  const MiniTotalTime: int := 1000
  const MiniDeferTime: int := 1000

  datatype Timer = Timer(total: int, remaining: int, paused: bool, armed: bool)

  datatype Event = ProgressChanged | Completed | IsPausedChanged

  /** A timer operation's new state and the events it raised, in order. */
  datatype Step = Step(timer: Timer, events: seq<Event>)

  /** Pause and Resume also answer whether they did anything. */
  datatype Toggled = Toggled(timer: Timer, events: seq<Event>, accepted: bool)

  /** The state right after construction: total = MiniTotalTime, nothing
      remaining, not paused, the inner timer created but not armed. */
  const Initial: Timer := Timer(MiniTotalTime, 0, false, false)

  /** The invariant every operation keeps: a total of at least one
      second, a remaining time within [0, total], and a paused timer never
      armed. */
  ghost predicate Valid(t: Timer) {
    && t.total >= MiniTotalTime
    && 0 <= t.remaining <= t.total
    && (t.paused ==> !t.armed)
  }

  lemma InitialIsValid()
    ensures Valid(Initial)
    ensures IsCompleted(Initial)
  {
  }

  /** Progress = min(1, remaining / total), and 1 when total <= 0. */
  function Progress(t: Timer): (p: Ratio)
    ensures p.den > 0
    ensures Valid(t) ==> p.InUnit()
    ensures Valid(t) ==> (p.num == 0 <==> IsCompleted(t))
    ensures Valid(t) ==> (p.num == p.den <==> t.remaining == t.total)
  {
    if t.total <= 0 then One else Ratio(Min(t.remaining, t.total), t.total)
  }

  predicate IsCompleted(t: Timer) {
    t.remaining <= 0
  }

  /** Under the invariant, "completed" means exactly "nothing remains". */
  lemma CompletedMeansZero(t: Timer)
    requires Valid(t)
    ensures IsCompleted(t) <==> t.remaining == 0
  {
  }

  /** Reset(totalTime, forcePause): restart the countdown from totalTime.
      The timer ends paused exactly when forcePause is set, and raises
      IsPausedChanged when that flips its paused flag. CountdownTimer.Reset
      is declared with the one parameter totalTime, which is the case
      forcePause = false; EyeshadeModule passes forcePause as well. */
  function Reset(t: Timer, totalTime: int, forcePause: bool): (r: Result<Step>)
    ensures r.Err? <==> totalTime < MiniTotalTime
    ensures r.Ok? ==> r.value.timer.total == totalTime && r.value.timer.remaining == totalTime
    ensures r.Ok? ==> r.value.timer.paused == forcePause && r.value.timer.armed != forcePause
    ensures r.Ok? ==> (r.value.events == [IsPausedChanged] <==> t.paused != forcePause)
    ensures r.Ok? ==> (r.value.events == [] <==> t.paused == forcePause)
    ensures r.Ok? ==> Valid(r.value.timer) && !IsCompleted(r.value.timer)
  {
    if totalTime < MiniTotalTime then Err(ArgumentOutOfRange)
    else
      var next := Timer(totalTime, totalTime, forcePause, !forcePause);
      Ok(Step(next, if t.paused != forcePause then [IsPausedChanged] else []))
  }

  /** Change(totalTime): a new total that keeps as much progress as
      possible; the remaining time is cut down to the new total if it
      exceeds it. The pause state and the inner timer are untouched. */
  function Change(t: Timer, totalTime: int): (r: Result<Timer>)
    ensures r.Err? <==> totalTime < MiniTotalTime
    ensures r.Ok? ==> r.value.total == totalTime
    ensures r.Ok? ==> r.value.remaining == Min(t.remaining, totalTime)
    ensures r.Ok? ==> r.value.paused == t.paused && r.value.armed == t.armed
    ensures r.Ok? && Valid(t) ==> Valid(r.value)
  {
    if totalTime < MiniTotalTime then Err(ArgumentOutOfRange)
    else Ok(Retotal(t, totalTime))
  }

  /** Change past its argument check. */
  function Retotal(t: Timer, totalTime: int): (r: Timer)
    requires totalTime >= MiniTotalTime
    ensures r.total == totalTime && r.remaining == Min(t.remaining, totalTime)
    ensures r.paused == t.paused && r.armed == t.armed
  {
    var remaining := if totalTime < t.remaining then totalTime else t.remaining;
    t.(total := totalTime, remaining := remaining)
  }

  /** Defer(value): move the deadline by value ms (negative values bring it
      closer), capped at the total and floored at MiniDeferTime. A running
      timer is re-armed because it may have completed already. */
  function Defer(t: Timer, value: int): (r: Timer)
    ensures r.remaining == Max(MiniDeferTime, Min(t.total, t.remaining + value))
    ensures r.total == t.total && r.paused == t.paused
    ensures r.armed == (t.armed || !t.paused)
    ensures Valid(t) ==> Valid(r) && MiniDeferTime <= r.remaining <= r.total
  {
    var remaining := t.remaining + value;
    var capped := if t.total < remaining then t.total else remaining;
    var floored := if capped < MiniDeferTime then MiniDeferTime else capped;
    t.(remaining := floored, armed := if !t.paused then true else t.armed)
  }

  /** Pause: stop the countdown. Answers false, and changes nothing, when
      the timer is paused already. */
  function Pause(t: Timer): (r: Toggled)
    ensures r.accepted <==> !t.paused
    ensures !r.accepted ==> r.timer == t && r.events == []
    ensures r.accepted ==> r.timer == t.(paused := true, armed := false) && r.events == [IsPausedChanged]
    ensures r.timer.paused
    ensures Valid(t) ==> Valid(r.timer)
  {
    if t.paused then Toggled(t, [], false)
    else Toggled(t.(armed := false, paused := true), [IsPausedChanged], true)
  }

  /** Resume, as written: it refuses only a timer that is both running and
      completed. A running timer with time left is "resumed" again: the
      inner timer is re-armed and IsPausedChanged is raised although the
      paused flag does not change. */
  function Resume(t: Timer): (r: Toggled)
    ensures !r.accepted <==> !t.paused && t.remaining <= 0
    ensures !r.accepted ==> r.timer == t && r.events == []
    ensures r.accepted ==> r.timer == t.(paused := false, armed := true) && r.events == [IsPausedChanged]
    ensures Valid(t) ==> Valid(r.timer)
  {
    if !t.paused && t.remaining <= 0 then Toggled(t, [], false)
    else Toggled(t.(armed := true, paused := false), [IsPausedChanged], true)
  }

  /** Resume as its documentation describes it: it refuses a timer that is
      not paused or whose countdown has completed, so IsPausedChanged is
      raised exactly when the paused flag flips. */
  function ResumeAsDocumented(t: Timer): (r: Toggled)
    ensures r.accepted <==> t.paused && t.remaining > 0
    ensures !r.accepted ==> r.timer == t && r.events == []
    ensures r.accepted ==> r.timer == t.(paused := false, armed := true)
    ensures r.events == [IsPausedChanged] <==> r.timer.paused != t.paused
    ensures r.events == [] <==> r.timer.paused == t.paused
    ensures Valid(t) ==> Valid(r.timer)
  {
    if !t.paused || t.remaining <= 0 then Toggled(t, [], false)
    else Toggled(t.(armed := true, paused := false), [IsPausedChanged], true)
  }

  /** One fire of the periodic inner timer (InnerTimerCallback). */
  function Tick(t: Timer): (r: Step)
    ensures t.remaining > TimerPeriod ==>
      r.timer == t.(remaining := t.remaining - TimerPeriod) && r.events == [ProgressChanged]
    ensures t.remaining <= TimerPeriod ==>
      r.timer == t.(remaining := 0, armed := false) && r.events == [Completed]
    ensures Valid(t) ==> Valid(r.timer)
  {
    if t.remaining > TimerPeriod then
      Step(t.(remaining := t.remaining - TimerPeriod), [ProgressChanged])
    else
      Step(t.(remaining := 0, armed := false), [Completed])
  }

  /* ---------------------------------------------------------------- */
  /* Properties relating several operations                            */
  /* ---------------------------------------------------------------- */

  /** Pausing twice is pausing once: the second call is refused and
      raises nothing. */
  lemma PauseIsIdempotent(t: Timer)
    ensures var once := Pause(t);
            var twice := Pause(once.timer);
            !twice.accepted && twice.timer == once.timer && twice.events == []
  {
  }

  /** Pausing a running, armed timer and resuming it restores it exactly,
      with one IsPausedChanged for each flip. Resume as written accepts any
      paused timer, so this holds for every such timer; the documented
      Resume agrees while time remains. */
  lemma PauseThenResumeRestores(t: Timer)
    requires Valid(t) && !t.paused && t.armed
    ensures var p := Pause(t);
            var q := Resume(p.timer);
            q.accepted && q.timer == t && p.events + q.events == [IsPausedChanged, IsPausedChanged]
    ensures var p := Pause(t);
            var q := ResumeAsDocumented(p.timer);
            t.remaining > 0 ==> q.timer == t && p.events + q.events == [IsPausedChanged, IsPausedChanged]
  {
  }

  /** The documented Resume is idempotent: a second call is refused. */
  lemma ResumeAsDocumentedIsIdempotent(t: Timer)
    ensures var once := ResumeAsDocumented(t);
            var twice := ResumeAsDocumented(once.timer);
            !twice.accepted && twice.timer == once.timer && twice.events == []
  {
  }

  /** Resume as written answers true on a running timer and raises
      IsPausedChanged although the paused flag stays false. */
  lemma ResumeOfRunningTimerRaisesSpuriousEvent()
    ensures var t := Timer(60000, 5000, false, true);
            var r := Resume(t);
            r.accepted && r.events == [IsPausedChanged] && r.timer.paused == t.paused
  {
  }

  /** Resume as written re-arms a completed timer after a Pause, so the
      next fire reports Completed a second time. */
  lemma ResumeAsWrittenCompletesTwice()
    ensures var done := Tick(Timer(60000, 1000, false, true));
            var again := Tick(Resume(Pause(done.timer).timer).timer);
            done.events == [Completed] && again.events == [Completed]
  {
  }

  /** The documented Resume never re-arms a completed timer. */
  lemma ResumeAsDocumentedKeepsCompletedTimerStopped(t: Timer)
    requires IsCompleted(t) && !t.armed
    ensures !ResumeAsDocumented(Pause(t).timer).timer.armed
  {
  }

  /** On every timer with time left whose running state matches its armed
      state, the two Resume variants reach the same timer. */
  lemma ResumeVariantsAgree(t: Timer)
    requires t.remaining > 0 && (!t.paused ==> t.armed)
    ensures Resume(t).timer == ResumeAsDocumented(t).timer
  {
  }

  /* ---------------------------------------------------------------- */
  /* Runs of ticks                                                     */
  /* ---------------------------------------------------------------- */

  /** The outcome of a run of fires: the final timer and how many
      ProgressChanged and Completed events were raised. */
  datatype Run = Run(timer: Timer, progressed: nat, completed: nat)

  /** Up to n fires of the inner timer; a disarmed timer does not fire. */
  function RunTicks(t: Timer, n: nat): Run
    decreases n
  {
    if n == 0 || !t.armed then Run(t, 0, 0)
    else
      var s := Tick(t);
      var rest := RunTicks(s.timer, n - 1);
      if s.events == [Completed] then rest.(completed := rest.completed + 1)
      else rest.(progressed := rest.progressed + 1)
  }

  /** However many fires happen, completion is reported at most once. */
  lemma {:induction false} CompletionReportedAtMostOnce(t: Timer, n: nat)
    ensures RunTicks(t, n).completed <= 1
    ensures RunTicks(t, n).completed == 1 ==> !RunTicks(t, n).timer.armed && RunTicks(t, n).timer.remaining == 0
    decreases n
  {
    if n == 0 || !t.armed {
    } else {
      var s := Tick(t);
      CompletionReportedAtMostOnce(s.timer, n - 1);
      if s.events == [Completed] {
        assert RunTicks(s.timer, n - 1) == Run(s.timer, 0, 0);
      }
    }
  }

  /** An armed timer with r ms left raises exactly (r - 1) / 1000
      ProgressChanged events, one per second, and then Completed: after n
      fires it has counted down n seconds, or has completed if n exceeds
      that number. */
  lemma {:induction false} CountsDownOneSecondPerTick(t: Timer, n: nat)
    requires Valid(t) && t.armed && t.remaining > 0
    ensures var k := (t.remaining - 1) / TimerPeriod;
            var run := RunTicks(t, n);
            (n <= k ==> run == Run(t.(remaining := t.remaining - n * TimerPeriod), n, 0))
            && (n > k ==> run == Run(t.(remaining := 0, armed := false), k, 1))
    decreases n
  {
    if n == 0 {
    } else if t.remaining > TimerPeriod {
      var s := Tick(t);
      CountsDownOneSecondPerTick(s.timer, n - 1);
      assert (s.timer.remaining - 1) / TimerPeriod == (t.remaining - 1) / TimerPeriod - 1;
    } else {
      var s := Tick(t);
      assert RunTicks(s.timer, n - 1) == Run(s.timer, 0, 0);
    }
  }
}
