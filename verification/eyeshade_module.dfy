/** EyeshadeModule: the two-phase (Work / Resting) engine of the current
    generation, layered on one CountdownTimer, with two independent pause
    flags. A user pause always stops the timer; a smart pause (raised by
    the idle detector) stops it only during Work; a timer stopped for one
    reason restarts only once the other flag is clear too. */
module EyeshadeModule {
  import opened Wrappers
  import opened Basics
  import CountdownTimer
  import opened EyeshadeUserConfig

  datatype Module = Module(
    config: UserConfig,
    timer: CountdownTimer.Timer,
    state: Phase,
    userPaused: bool,
    smartPaused: bool)

  /** The module's events, plus ConfigSaved for each call of the
      configuration's Save. */
  datatype Event = StateChanged | ProgressChanged | IsUserPausedChanged | ConfigSaved

  datatype Step = Step(after: Module, events: seq<Event>)

  /** The invariant of the module: the configuration within its bounds,
      the timer within its own invariant and never left at zero, its total
      the active phase's configured duration, the inner timer armed exactly
      when not paused, and the pause flags tied to the
      timer: a user pause means a stopped timer, a stopped timer has a
      reason, and a smart pause during Work means a stopped timer. */
  ghost predicate Valid(m: Module) {
    && DurationsValid(m.config)
    && CountdownTimer.Valid(m.timer)
    && m.timer.remaining > 0
    && m.timer.total == (if m.state == Phase.Work then m.config.workTime else m.config.restingTime)
    && (m.timer.armed <==> !m.timer.paused)
    && (m.userPaused ==> m.timer.paused)
    && (m.timer.paused ==> m.userPaused || m.smartPaused)
    && (m.state == Phase.Work && m.smartPaused ==> m.timer.paused)
  }

  /** The constructor: Work phase, a countdown of the configured work
      time, no pause. */
  function Create(config: UserConfig): (r: Result<Module>)
    ensures r.Err? <==> config.workTime < CountdownTimer.MiniTotalTime
    ensures r.Ok? ==> r.value.state == Phase.Work && !r.value.userPaused && !r.value.smartPaused
    ensures r.Ok? ==> r.value.timer.total == config.workTime && r.value.timer.remaining == config.workTime
    ensures DurationsValid(config) ==> r.Ok? && Valid(r.value)
  {
    var reset :- CountdownTimer.Reset(CountdownTimer.Initial, config.workTime, false);
    Ok(Module(config, reset.timer, Phase.Work, false, false))
  }

  /** The events of clearing the user pause at the start of Work and Rest. */
  function ClearUserPauseEvents(m: Module): (r: seq<Event>)
    ensures r == [IsUserPausedChanged] <==> m.userPaused
    ensures r == [] <==> !m.userPaused
  {
    if m.userPaused then [IsUserPausedChanged] else []
  }

  /** Work: start a full work countdown now. The user pause is cancelled,
      the smart pause is kept and, if set, leaves the new countdown
      stopped. StateChanged is raised once. */
  function Work(m: Module): (r: Result<Step>)
    ensures r.Err? <==> m.config.workTime < CountdownTimer.MiniTotalTime
    ensures r.Ok? ==> r.value.after.state == Phase.Work
    ensures r.Ok? ==> !r.value.after.userPaused && r.value.after.smartPaused == m.smartPaused
    ensures r.Ok? ==> r.value.after.timer.total == m.config.workTime
    ensures r.Ok? ==> r.value.after.timer.remaining == m.config.workTime
    ensures r.Ok? ==> r.value.after.timer.paused == m.smartPaused
    ensures r.Ok? ==> r.value.after.config == m.config
    ensures r.Ok? ==> r.value.events == (if m.userPaused then [IsUserPausedChanged] else []) + [StateChanged]
    ensures Valid(m) ==> r.Ok? && Valid(r.value.after)
  {
    var events := ClearUserPauseEvents(m);
    var reset :- CountdownTimer.Reset(m.timer, m.config.workTime, m.smartPaused);
    Ok(Step(m.(timer := reset.timer, state := Phase.Work, userPaused := false), events + [StateChanged]))
  }

  /** Rest: start a full rest countdown now. The user pause is cancelled;
      the smart pause is ignored (the countdown runs) but its flag is
      kept. StateChanged is raised once. */
  function Rest(m: Module): (r: Result<Step>)
    ensures r.Err? <==> m.config.restingTime < CountdownTimer.MiniTotalTime
    ensures r.Ok? ==> r.value.after.state == Resting
    ensures r.Ok? ==> !r.value.after.userPaused && r.value.after.smartPaused == m.smartPaused
    ensures r.Ok? ==> r.value.after.timer.total == m.config.restingTime
    ensures r.Ok? ==> r.value.after.timer.remaining == m.config.restingTime
    ensures r.Ok? ==> !r.value.after.timer.paused && r.value.after.timer.armed
    ensures r.Ok? ==> r.value.after.config == m.config
    ensures r.Ok? ==> r.value.events == (if m.userPaused then [IsUserPausedChanged] else []) + [StateChanged]
    ensures Valid(m) ==> r.Ok? && Valid(r.value.after)
  {
    var events := ClearUserPauseEvents(m);
    var reset :- CountdownTimer.Reset(m.timer, m.config.restingTime, false);
    Ok(Step(m.(timer := reset.timer, state := Resting, userPaused := false), events + [StateChanged]))
  }

  /** Defer: move the deadline, within [1 s, total]; nothing is raised. */
  function Defer(m: Module, value: int): (r: Step)
    ensures r.after == m.(timer := CountdownTimer.Defer(m.timer, value)) && r.events == []
    ensures Valid(m) ==> Valid(r.after)
    ensures Valid(m) ==> CountdownTimer.MiniDeferTime <= r.after.timer.remaining <= m.timer.total
  {
    Step(m.(timer := CountdownTimer.Defer(m.timer, value)), [])
  }

  /** UserPause: record the user's pause and stop the timer. Idempotent;
      IsUserPausedChanged is raised only when the flag flips. */
  function UserPause(m: Module): (r: Step)
    ensures m.userPaused ==> r == Step(m, [])
    ensures !m.userPaused ==> r.events == [IsUserPausedChanged]
    ensures r.after.userPaused
    ensures Valid(m) ==> r.after.timer.paused
    ensures r.after.smartPaused == m.smartPaused && r.after.state == m.state && r.after.config == m.config
    ensures r.after.timer.remaining == m.timer.remaining && r.after.timer.total == m.timer.total
    ensures Valid(m) ==> Valid(r.after)
  {
    if m.userPaused then Step(m, [])
    else
      var t := if !m.timer.paused then CountdownTimer.Pause(m.timer).timer else m.timer;
      Step(m.(userPaused := true, timer := t), [IsUserPausedChanged])
  }

  /** UserResume: drop the user's pause; the timer restarts only if no
      smart pause holds it. Idempotent; IsUserPausedChanged is raised only
      when the flag flips. */
  function UserResume(m: Module): (r: Step)
    ensures !m.userPaused ==> r == Step(m, [])
    ensures m.userPaused ==> r.events == [IsUserPausedChanged]
    ensures !r.after.userPaused
    ensures m.userPaused && m.smartPaused ==> r.after.timer == m.timer
    ensures Valid(m) && m.userPaused && !m.smartPaused ==> !r.after.timer.paused
    ensures r.after.smartPaused == m.smartPaused && r.after.state == m.state && r.after.config == m.config
    ensures Valid(m) ==> Valid(r.after)
  {
    if !m.userPaused then Step(m, [])
    else
      var t := if !m.smartPaused then CountdownTimer.Resume(m.timer).timer else m.timer;
      Step(m.(userPaused := false, timer := t), [IsUserPausedChanged])
  }

  /** SmartPause: record the idle pause; stop the timer only during Work.
      Raises nothing. */
  function SmartPause(m: Module): (r: Module)
    ensures r.smartPaused
    ensures m.smartPaused ==> r == m
    ensures m.state == Resting ==> r.timer == m.timer
    ensures Valid(m) && m.state == Phase.Work ==> r.timer.paused
    ensures r.userPaused == m.userPaused && r.state == m.state && r.config == m.config
    ensures Valid(m) ==> Valid(r)
  {
    if m.smartPaused then m
    else
      var t := if !m.timer.paused && m.state == Phase.Work then CountdownTimer.Pause(m.timer).timer else m.timer;
      m.(smartPaused := true, timer := t)
  }

  /** SmartResume: drop the idle pause; the timer restarts only if no user
      pause holds it. Raises nothing. */
  function SmartResume(m: Module): (r: Module)
    ensures !r.smartPaused
    ensures !m.smartPaused ==> r == m
    ensures m.userPaused ==> r.timer == m.timer
    ensures Valid(m) && !m.userPaused ==> !r.timer.paused
    ensures r.userPaused == m.userPaused && r.state == m.state && r.config == m.config
    ensures Valid(m) ==> Valid(r)
  {
    if !m.smartPaused then m
    else
      var t := if !m.userPaused then CountdownTimer.Resume(m.timer).timer else m.timer;
      m.(smartPaused := false, timer := t)
  }

  /** SetWorkTime: rejected below one minute before anything changes; a
      no-op for the current value; otherwise saved, and the running
      countdown is adjusted only during Work. */
  function SetWorkTime(m: Module, value: int): (r: Result<Step>)
    ensures r.Err? <==> value < MinuteMs
    ensures r.Ok? && value == m.config.workTime ==> r.value == Step(m, [])
    ensures r.Ok? && value != m.config.workTime ==>
      r.value.events == [ConfigSaved] && r.value.after.config == m.config.(workTime := value)
    ensures r.Ok? ==> (r.value.after.state == m.state && r.value.after.userPaused == m.userPaused
                       && r.value.after.smartPaused == m.smartPaused)
    ensures r.Ok? && m.state == Resting ==> r.value.after.timer == m.timer
    ensures r.Ok? && m.state == Phase.Work && value != m.config.workTime ==>
      r.value.after.timer.total == value && r.value.after.timer.remaining == Min(m.timer.remaining, value)
    ensures r.Ok? && Valid(m) ==> Valid(r.value.after)
  {
    if value < MinuteMs then Err(ArgumentOutOfRange)
    else if m.config.workTime == value then Ok(Step(m, []))
    else
      var saved := m.(config := m.config.(workTime := value));
      if m.state == Phase.Work then
        Ok(Step(saved.(timer := CountdownTimer.Retotal(m.timer, value)), [ConfigSaved]))
      else Ok(Step(saved, [ConfigSaved]))
  }

  /** SetRestingTime: as SetWorkTime, for the Resting phase. */
  function SetRestingTime(m: Module, value: int): (r: Result<Step>)
    ensures r.Err? <==> value < MinuteMs
    ensures r.Ok? && value == m.config.restingTime ==> r.value == Step(m, [])
    ensures r.Ok? && value != m.config.restingTime ==>
      r.value.events == [ConfigSaved] && r.value.after.config == m.config.(restingTime := value)
    ensures r.Ok? ==> (r.value.after.state == m.state && r.value.after.userPaused == m.userPaused
                       && r.value.after.smartPaused == m.smartPaused)
    ensures r.Ok? && m.state == Phase.Work ==> r.value.after.timer == m.timer
    ensures r.Ok? && m.state == Resting && value != m.config.restingTime ==>
      r.value.after.timer.total == value && r.value.after.timer.remaining == Min(m.timer.remaining, value)
    ensures r.Ok? && Valid(m) ==> Valid(r.value.after)
  {
    if value < MinuteMs then Err(ArgumentOutOfRange)
    else if m.config.restingTime == value then Ok(Step(m, []))
    else
      var saved := m.(config := m.config.(restingTime := value));
      if m.state == Resting then
        Ok(Step(saved.(timer := CountdownTimer.Retotal(m.timer, value)), [ConfigSaved]))
      else Ok(Step(saved, [ConfigSaved]))
  }

  /** SetNotifyTime: rejected below one second; a no-op for the current
      value; otherwise saved. The countdown is not touched. */
  function SetNotifyTime(m: Module, value: int): (r: Result<Step>)
    ensures r.Err? <==> value < SecondMs
    ensures r.Ok? && value == m.config.notifyTime ==> r.value == Step(m, [])
    ensures r.Ok? && value != m.config.notifyTime ==>
      r.value == Step(m.(config := m.config.(notifyTime := value)), [ConfigSaved])
    ensures r.Ok? && Valid(m) ==> Valid(r.value.after)
  {
    if value < SecondMs then Err(ArgumentOutOfRange)
    else if m.config.notifyTime == value then Ok(Step(m, []))
    else Ok(Step(m.(config := m.config.(notifyTime := value)), [ConfigSaved]))
  }

  /** SetRingerVolume: rejected outside [0, 100]; otherwise stored and
      saved, even when unchanged. */
  function SetRingerVolume(m: Module, value: int): (r: Result<Step>)
    ensures r.Err? <==> value < 0 || value > 100
    ensures r.Ok? ==> r.value == Step(m.(config := m.config.(ringerVolume := value)), [ConfigSaved])
    ensures r.Ok? && Valid(m) ==> Valid(r.value.after)
  {
    if value < 0 || value > 100 then Err(ArgumentOutOfRange)
    else Ok(Step(m.(config := m.config.(ringerVolume := value)), [ConfigSaved]))
  }

  /** SetAutoPauseWhenUserLeave: a no-op for the current value; otherwise
      stored and saved. */
  function SetAutoPauseWhenUserLeave(m: Module, value: bool): (r: Step)
    ensures value == m.config.autoPauseWhenUserLeave ==> r == Step(m, [])
    ensures value != m.config.autoPauseWhenUserLeave ==>
      r == Step(m.(config := m.config.(autoPauseWhenUserLeave := value)), [ConfigSaved])
    ensures Valid(m) ==> Valid(r.after)
  {
    if m.config.autoPauseWhenUserLeave == value then Step(m, [])
    else Step(m.(config := m.config.(autoPauseWhenUserLeave := value)), [ConfigSaved])
  }

  /** Countdown_Completed: the phase flips, Work to Resting and Resting to
      Work. */
  function CountdownCompleted(m: Module): (r: Result<Step>)
    ensures r.Ok? ==> r.value.after.state == Flip(m.state)
    ensures r.Ok? ==>
      r.value.after.timer.total == (if m.state == Phase.Work then m.config.restingTime else m.config.workTime)
    ensures r.Ok? ==> StateChanged in r.value.events
    ensures DurationsValid(m.config) ==> r.Ok? && Valid(r.value.after)
  {
    if m.state == Phase.Work then Rest(m) else Work(m)
  }

  /** One fire of the countdown's inner timer: either a second passes and
      ProgressChanged is forwarded, or the countdown completes and the
      phase flips. */
  function Tick(m: Module): (r: Result<Step>)
    ensures m.timer.remaining > CountdownTimer.TimerPeriod ==>
      r == Ok(Step(m.(timer := m.timer.(remaining := m.timer.remaining - CountdownTimer.TimerPeriod)), [ProgressChanged]))
    ensures m.timer.remaining <= CountdownTimer.TimerPeriod && r.Ok? ==> r.value.after.state == Flip(m.state)
    ensures Valid(m) ==> r.Ok? && Valid(r.value.after)
  {
    var fired := CountdownTimer.Tick(m.timer);
    if fired.events == [CountdownTimer.Completed] then CountdownCompleted(m.(timer := fired.timer))
    else Ok(Step(m.(timer := fired.timer), [ProgressChanged]))
  }

  /** Read-only views. */
  function Progress(m: Module): (p: Ratio)
    ensures Valid(m) ==> p.InUnit() && p.num > 0
  {
    CountdownTimer.Progress(m.timer)
  }

  /* ---------------------------------------------------------------- */
  /* Every command, and the invariant across all of them                */
  /* ---------------------------------------------------------------- */

  datatype Command =
    | DoWork
    | DoRest
    | DoDefer(value: int)
    | DoUserPause
    | DoUserResume
    | DoSmartPause
    | DoSmartResume
    | DoSetWorkTime(workTime: int)
    | DoSetRestingTime(restingTime: int)
    | DoSetNotifyTime(notifyTime: int)
    | DoSetRingerVolume(volume: int)
    | DoSetAutoPause(autoPause: bool)
    | DoTick

  /** One command applied to the engine. A tick comes only from a running
      timer, so on a stopped one DoTick changes nothing. */
  function Execute(m: Module, c: Command): Result<Step> {
    match c
    case DoWork => Work(m)
    case DoRest => Rest(m)
    case DoDefer(v) => Ok(Defer(m, v))
    case DoUserPause => Ok(UserPause(m))
    case DoUserResume => Ok(UserResume(m))
    case DoSmartPause => Ok(Step(SmartPause(m), []))
    case DoSmartResume => Ok(Step(SmartResume(m), []))
    case DoSetWorkTime(v) => SetWorkTime(m, v)
    case DoSetRestingTime(v) => SetRestingTime(m, v)
    case DoSetNotifyTime(v) => SetNotifyTime(m, v)
    case DoSetRingerVolume(v) => SetRingerVolume(m, v)
    case DoSetAutoPause(v) => Ok(SetAutoPauseWhenUserLeave(m, v))
    case DoTick => if m.timer.armed then Tick(m) else Ok(Step(m, []))
  }

  /** A command fails only by rejecting a setter's argument. */
  predicate Rejects(c: Command) {
    || (c.DoSetWorkTime? && c.workTime < MinuteMs)
    || (c.DoSetRestingTime? && c.restingTime < MinuteMs)
    || (c.DoSetNotifyTime? && c.notifyTime < SecondMs)
    || (c.DoSetRingerVolume? && (c.volume < 0 || c.volume > 100))
  }

  /** The state reached by running commands in order; a rejected command
      leaves the state as it was, as a caught exception would. */
  function Run(m: Module, cs: seq<Command>): Module
    decreases |cs|
  {
    if |cs| == 0 then m
    else
      match Execute(m, cs[0])
      case Ok(s) => Run(s.after, cs[1..])
      case Err(_) => Run(m, cs[1..])
  }

  /** From a valid state, every command either is rejected up front or
      succeeds, and it keeps the invariant; in particular a user pause
      always means a stopped timer. */
  lemma ExecutePreservesValid(m: Module, c: Command)
    requires Valid(m)
    ensures Execute(m, c).Err? <==> Rejects(c)
    ensures Execute(m, c).Ok? ==> Valid(Execute(m, c).value.after)
  {
  }

  /** The invariant holds after any sequence of commands from a freshly
      created module. */
  lemma {:induction false} RunPreservesValid(m: Module, cs: seq<Command>)
    requires Valid(m)
    ensures Valid(Run(m, cs))
    ensures Run(m, cs).userPaused ==> Run(m, cs).timer.paused
    decreases |cs|
  {
    if |cs| > 0 {
      ExecutePreservesValid(m, cs[0]);
      match Execute(m, cs[0])
      case Ok(s) => RunPreservesValid(s.after, cs[1..]);
      case Err(_) => RunPreservesValid(m, cs[1..]);
    }
  }

  /** A user pause is idempotent and raises one event in all. */
  lemma UserPauseTwiceRaisesOnce(m: Module)
    requires !m.userPaused
    ensures var a := UserPause(m);
            var b := UserPause(a.after);
            b.after == a.after && a.events + b.events == [IsUserPausedChanged]
  {
  }

  /** A user resume is idempotent and raises one event in all. */
  lemma UserResumeTwiceRaisesOnce(m: Module)
    requires m.userPaused
    ensures var a := UserResume(m);
            var b := UserResume(a.after);
            b.after == a.after && a.events + b.events == [IsUserPausedChanged]
  {
  }

  /** Pause composition during Work: smart pause, then a user pause and a
      user resume, leaves the timer stopped; only the smart resume
      restarts it. */
  lemma SmartPauseOutlastsUserResume(m: Module)
    requires Valid(m) && m.state == Phase.Work && !m.userPaused && !m.smartPaused
    ensures var s1 := SmartPause(m);
            var s2 := UserPause(s1).after;
            var s3 := UserResume(s2).after;
            var s4 := SmartResume(s3);
            s1.timer.paused && s2.timer.paused && s3.timer.paused && !s4.timer.paused
            && s4.timer.remaining == m.timer.remaining
  {
  }

  /** During Resting a smart pause does not stop the countdown, yet it
      keeps a user resume from restarting it: a user who pauses while
      idle and resumes is still stopped until the idle pause lifts. */
  lemma SmartPauseDuringRestBlocksUserResume(m: Module)
    requires Valid(m) && m.state == Resting && !m.userPaused && !m.smartPaused
    ensures var s1 := SmartPause(m);
            var s3 := UserResume(UserPause(s1).after).after;
            !s1.timer.paused && s3.timer.paused && !SmartResume(s3).timer.paused
  {
  }

  /** A smart pause raised during Resting takes effect at the next Work. */
  lemma SmartPauseDuringRestAppliesAtWork(m: Module)
    requires Valid(m) && m.state == Resting && !m.smartPaused
    ensures var s := SmartPause(m);
            Work(s).Ok? && Work(s).value.after.timer.paused
  {
  }

  /** After a Work phase's countdown runs out the module is Resting for
      the configured rest time; StateChanged is raised exactly once. */
  lemma WorkCompletesIntoRest(m: Module)
    requires Valid(m) && m.timer.armed && m.state == Phase.Work && m.timer.remaining <= CountdownTimer.TimerPeriod
    ensures var r := Tick(m);
            r.Ok? && r.value.after.state == Resting
            && r.value.after.timer.total == m.config.restingTime
            && r.value.after.timer.remaining == m.config.restingTime
            && r.value.events == [StateChanged]
  {
  }
}
