/** AlarmClockModule: the older generation of the engine. Instead of
    counting ticks it keeps wall-clock bookkeeping, the due time the
    expiry timer was last armed with and the instant it was armed, and
    derives the remaining time as dueTime - (now - startTime). Progress
    notices are scheduled adaptively at the 75 %, 50 % and 25 % marks and
    10 s before expiry.

    `now` (DateTime.Now, in milliseconds) is a parameter of every
    operation that reads the clock; one operation reads one instant. The
    one-shot timers are reduced to events: ProgressScheduled(d) arms the
    progress timer to fire d ms later, ProgressCancelled disarms it, and
    expiry (CountdownCallback) and progress fires are explicit calls. */
module AlarmClock {
  import opened Wrappers
  import opened Basics
  import EyeshadeUserConfig

  /* ---------------------------------------------------------------- */
  /* AlarmClockConfig                                                  */
  /* ---------------------------------------------------------------- */

  datatype AlarmConfig = AlarmConfig(workTime: int, restingTime: int, ringerVolume: int)

  const DefaultConfig: AlarmConfig := AlarmConfig(45 * MinuteMs, 4 * MinuteMs, 100)

  ghost predicate ConfigValid(c: AlarmConfig) {
    c.workTime >= MinuteMs && c.restingTime >= MinuteMs
  }

  /** The loop body of AlarmClockConfig.Load: the two durations need at
      least a minute, the volume any parsed integer, and every other name
      (NotifyTime included) is ignored. */
  function ApplyEntry(c: AlarmConfig, e: EyeshadeUserConfig.Entry): (r: AlarmConfig)
    ensures (e.key != EyeshadeUserConfig.WorkTimeKey && e.key != EyeshadeUserConfig.RestingTimeKey
             && e.key != EyeshadeUserConfig.RingerVolumeKey) ==> r == c
    ensures ConfigValid(c) ==> ConfigValid(r)
  {
    if e.key == EyeshadeUserConfig.WorkTimeKey then
      (if EyeshadeUserConfig.Passes(e, Some(MinuteMs)) then c.(workTime := e.parsed.value) else c)
    else if e.key == EyeshadeUserConfig.RestingTimeKey then
      (if EyeshadeUserConfig.Passes(e, Some(MinuteMs)) then c.(restingTime := e.parsed.value) else c)
    else if e.key == EyeshadeUserConfig.RingerVolumeKey then
      (if EyeshadeUserConfig.Passes(e, None) then c.(ringerVolume := e.parsed.value) else c)
    else c
  }

  function LoadConfig(c: AlarmConfig, entries: seq<EyeshadeUserConfig.Entry>): (r: AlarmConfig)
    ensures ConfigValid(c) ==> ConfigValid(r)
    decreases |entries|
  {
    if |entries| == 0 then c else LoadConfig(ApplyEntry(c, entries[0]), entries[1..])
  }

  /** Load as a whole: a missing or rootless document keeps the current
      values. */
  function LoadConfigDocument(c: AlarmConfig, doc: Option<seq<EyeshadeUserConfig.Entry>>): (r: AlarmConfig)
    ensures doc.None? ==> r == c
    ensures doc.Some? ==> r == LoadConfig(c, doc.value)
    ensures ConfigValid(c) ==> ConfigValid(r)
  {
    match doc
    case None => c
    case Some(entries) => LoadConfig(c, entries)
  }

  /** Save writes the three fields, in this order. */
  function SaveConfig(c: AlarmConfig): (r: seq<EyeshadeUserConfig.Entry>)
    ensures |r| == 3
    ensures r[0] == EyeshadeUserConfig.Entry(EyeshadeUserConfig.WorkTimeKey, Some(c.workTime))
    ensures r[1] == EyeshadeUserConfig.Entry(EyeshadeUserConfig.RestingTimeKey, Some(c.restingTime))
    ensures r[2] == EyeshadeUserConfig.Entry(EyeshadeUserConfig.RingerVolumeKey, Some(c.ringerVolume))
  {
    [ EyeshadeUserConfig.Entry(EyeshadeUserConfig.WorkTimeKey, Some(c.workTime)),
      EyeshadeUserConfig.Entry(EyeshadeUserConfig.RestingTimeKey, Some(c.restingTime)),
      EyeshadeUserConfig.Entry(EyeshadeUserConfig.RingerVolumeKey, Some(c.ringerVolume)) ]
  }

  /** The fields the two generations' settings share. */
  function Shared(u: EyeshadeUserConfig.UserConfig): AlarmConfig {
    AlarmConfig(u.workTime, u.restingTime, u.ringerVolume)
  }

  /** The two generations load the same document into the same shared
      fields: the older loader is the newer one with NotifyTime dropped. */
  lemma {:induction false} LoadGenerationsAgree(u: EyeshadeUserConfig.UserConfig, entries: seq<EyeshadeUserConfig.Entry>)
    ensures LoadConfig(Shared(u), entries) == Shared(EyeshadeUserConfig.Load(u, entries))
    decreases |entries|
  {
    if |entries| > 0 {
      assert ApplyEntry(Shared(u), entries[0]) == Shared(EyeshadeUserConfig.Apply(u, entries[0]));
      LoadGenerationsAgree(EyeshadeUserConfig.Apply(u, entries[0]), entries[1..]);
    }
  }

  /** Loading what Save wrote restores a configuration within bounds. */
  lemma SaveThenLoadConfig(base: AlarmConfig, c: AlarmConfig)
    requires ConfigValid(c)
    ensures LoadConfig(base, SaveConfig(c)) == c
  {
    var s := SaveConfig(c);
    var c1 := ApplyEntry(base, s[0]);
    var c2 := ApplyEntry(c1, s[1]);
    var c3 := ApplyEntry(c2, s[2]);
    assert s[1..][1..][1..] == [];
    assert LoadConfig(c3, s[1..][1..][1..]) == c3;
    assert LoadConfig(base, s) == LoadConfig(c1, s[1..]) == LoadConfig(c2, s[1..][1..]) == c3;
  }

  /* ---------------------------------------------------------------- */
  /* The clock                                                         */
  /* ---------------------------------------------------------------- */

  /** 1 s: the earliest a progress notice is ever scheduled. */
  const ProgressFloorMs: int := 1000
  /** 10 s: the last progress mark before expiry. */
  const LowWaterMs: int := 10000

  /** total: the current phase's duration; due and start: the due time the
      expiry timer was last armed with and the instant it was armed;
      armed: whether the expiry timer is running. */
  datatype Clock = Clock(config: AlarmConfig, state: Phase, total: int, due: int, start: int,
                         paused: bool, armed: bool)

  datatype Event =
    | StateChanged(state: Phase)
    | ProgressChanged(progress: Ratio)
    | IsPausedChanged(isPaused: bool)
    | ProgressScheduled(delayMs: int)
    | ProgressCancelled
    | ConfigSaved

  datatype Step = Step(clock: Clock, events: seq<Event>)

  /** RemainingTime: frozen at the due time while paused, otherwise the
      due time less what has elapsed since the timer was armed. */
  function RemainingTime(c: Clock, now: int): (r: int)
    ensures c.paused ==> r == c.due
    ensures !c.paused ==> r + (now - c.start) == c.due
  {
    if c.paused then c.due else c.due - (now - c.start)
  }

  /** Progress = remaining / total (not clamped), and 1 when total is 0. */
  function Progress(c: Clock, now: int): (p: Ratio)
    ensures p.den > 0
    ensures c.total == 0 ==> p == One
    ensures c.total > 0 ==> p == Ratio(RemainingTime(c, now), c.total)
  {
    if c.total == 0 then One
    else if c.total > 0 then Ratio(RemainingTime(c, now), c.total)
    else Ratio(-RemainingTime(c, now), -c.total)
  }

  /* ---------------------------------------------------------------- */
  /* The progress schedule (SetNextProgressTimer)                      */
  /* ---------------------------------------------------------------- */

  /** The delay SetNextProgressTimer arms the progress timer with, or None
      when the total is zero: the time until remaining reaches the first
      of 75 %, 50 %, 25 % of the total or 10 s that lies strictly below
      it (rounded up), else until expiry; never less than one second. */
  function NextProgressDelay(total: int, remaining: int): (d: Option<int>)
    ensures d.None? <==> total == 0
    ensures d.Some? ==> d.value >= ProgressFloorMs
  {
    if total == 0 then None
    else
      var dueTime :=
        if 4 * remaining > 3 * total then CeilDiv(4 * remaining - 3 * total, 4)
        else if 2 * remaining > total then CeilDiv(2 * remaining - total, 2)
        else if 4 * remaining > total then CeilDiv(4 * remaining - total, 4)
        else if remaining > LowWaterMs then remaining - LowWaterMs
        else remaining;
      Some(Max(ProgressFloorMs, dueTime))
  }

  /** Which mark the schedule aims at: 0 for 75 %, 1 for 50 %, 2 for 25 %,
      3 for 10 s, 4 for expiry. */
  function MarkIndex(total: int, remaining: int): (i: nat)
    ensures i <= 4
  {
    if 4 * remaining > 3 * total then 0
    else if 4 * remaining > 2 * total then 1
    else if 4 * remaining > total then 2
    else if remaining > LowWaterMs then 3
    else 4
  }

  /** Four times the remaining time at mark i: 3T, 2T, T, 40000 or 0. */
  function Mark4(total: int, i: nat): int
    requires i <= 4
  {
    if i == 0 then 3 * total
    else if i == 1 then 2 * total
    else if i == 2 then total
    else if i == 3 then 4 * LowWaterMs
    else 0
  }

  /** The notice is aimed at the first mark below the remaining time: it
      fires once that mark has been reached and less than a millisecond
      after, unless the one-second floor applies. */
  lemma ProgressDelayTargetsNextMark(total: int, remaining: int)
    requires total != 0
    ensures var d := NextProgressDelay(total, remaining).value;
            var m := Mark4(total, MarkIndex(total, remaining));
            (MarkIndex(total, remaining) < 4 || remaining > 0 ==> m < 4 * remaining)
            && (d == ProgressFloorMs || (4 * (remaining - d) <= m < 4 * (remaining - d) + 4))
            && 4 * (remaining - d) <= m
  {
  }

  /** The notice is never scheduled after expiry unless the one-second
      floor applies. */
  lemma ProgressDelayNotAfterExpiry(total: int, remaining: int)
    requires total > 0
    ensures NextProgressDelay(total, remaining).value <= Max(ProgressFloorMs, remaining)
  {
  }

  /** For a phase of at least a minute the marks are ordered
      75 % > 50 % > 25 % > 10 s, so waiting for the scheduled notice
      crosses no mark other than the one aimed at, and the next schedule
      aims at a later mark. */
  lemma ProgressDelayAdvancesMark(total: int, remaining: int)
    requires total >= MinuteMs
    ensures var d := NextProgressDelay(total, remaining).value;
            var i := MarkIndex(total, remaining);
            (i < 4 ==> MarkIndex(total, remaining - d) > i)
            && (forall j :: 0 <= j < i ==> Mark4(total, j) >= 4 * remaining)
  {
  }

  /** ProgressCallback's test: keep scheduling while progress > 25 % or
      more than 10 s remain. */
  predicate Reschedules(c: Clock, now: int) {
    Progress(c, now).Exceeds(1, 4) || RemainingTime(c, now) > LowWaterMs
  }

  /** The schedule SetNextProgressTimer produces at `now`. */
  function Schedule(c: Clock, now: int): (r: seq<Event>)
    ensures c.total == 0 <==> r == []
    ensures c.total != 0 ==> r == [ProgressScheduled(NextProgressDelay(c.total, RemainingTime(c, now)).value)]
  {
    match NextProgressDelay(c.total, RemainingTime(c, now))
    case None => []
    case Some(d) => [ProgressScheduled(d)]
  }

  /** The number of progress notices an undisturbed phase raises from a
      schedule made with `remaining` ms left: one per fire, for as long as
      each fire reschedules. */
  function NoticesFrom(total: int, remaining: int): nat
    requires total > 0
    decreases if remaining > 0 then remaining else 0
  {
    var d := NextProgressDelay(total, remaining).value;
    var left := remaining - d;
    if 4 * left > total || left > LowWaterMs then 1 + NoticesFrom(total, left) else 1
  }

  /** A phase of at least a minute raises at most four progress notices
      between expiries: one per mark, instead of one per second. */
  lemma {:induction false} AtMostFourNoticesPerPhase(total: int, remaining: int)
    requires total >= MinuteMs
    requires 4 * remaining > total || remaining > LowWaterMs
    ensures NoticesFrom(total, remaining) <= 4 - MarkIndex(total, remaining)
    decreases if remaining > 0 then remaining else 0
  {
    var d := NextProgressDelay(total, remaining).value;
    var left := remaining - d;
    ProgressDelayAdvancesMark(total, remaining);
    if 4 * left > total || left > LowWaterMs {
      AtMostFourNoticesPerPhase(total, left);
    }
  }

  /* ---------------------------------------------------------------- */
  /* Operations                                                        */
  /* ---------------------------------------------------------------- */

  /** The clock's invariant: configured durations of at least a minute, a
      current total of at least a minute, a due time within [0, total],
      and the expiry timer running exactly when not paused. */
  ghost predicate Valid(c: Clock) {
    && ConfigValid(c.config)
    && c.total >= MinuteMs
    && 0 <= c.due <= c.total
    && (c.armed <==> !c.paused)
  }

  /** At `now` the armed countdown has not yet run past its due time. */
  ghost predicate Live(c: Clock, now: int) {
    c.paused || c.start <= now <= c.start + c.due
  }

  /** At any live instant of a valid clock the
      remaining time lies in [0, total] and the progress in [0, 1]. */
  lemma RemainingWithinTotal(c: Clock, now: int)
    requires Valid(c) && Live(c, now)
    ensures 0 <= RemainingTime(c, now) <= c.total
    ensures Progress(c, now).InUnit()
  {
  }

  /** The constructor: Work, a full work countdown armed at `now`. */
  function Create(config: AlarmConfig, now: int): (r: Step)
    ensures r.clock.state == Work && !r.clock.paused
    ensures r.clock.total == config.workTime && RemainingTime(r.clock, now) == config.workTime
    ensures config.workTime != 0 ==> |r.events| == 1
    ensures ConfigValid(config) ==> Valid(r.clock) && Live(r.clock, now)
  {
    var c := Clock(config, Work, config.workTime, config.workTime, now, false, true);
    Step(c, Schedule(c, now))
  }

  /** SetTotalTime past its argument check: the new total, the remaining
      time cut down to it, and a running countdown re-armed now. */
  function Retotal(c: Clock, value: int, now: int): (r: Step)
    ensures r.clock.total == value
    ensures RemainingTime(r.clock, now) == Min(RemainingTime(c, now), value)
    ensures r.clock.state == c.state && r.clock.paused == c.paused && r.clock.config == c.config
    ensures c.paused ==> r.events == []
    ensures !c.paused ==> r.events == Schedule(r.clock, now)
    ensures Valid(c) && Live(c, now) && value >= MinuteMs ==> Valid(r.clock) && Live(r.clock, now)
  {
    var remaining := RemainingTime(c, now);
    var remaining' := if value < remaining then value else remaining;
    var c' := c.(total := value, due := remaining');
    if !c.paused then
      var armed := c'.(start := now);
      Step(armed, Schedule(armed, now))
    else Step(c', [])
  }

  /** SetTotalTime: rejected below one minute; otherwise the total changes
      and the remaining time is kept, cut down to the new total. */
  function SetTotalTime(c: Clock, value: int, now: int): (r: Result<Step>)
    ensures r.Err? <==> value < MinuteMs
    ensures r.Ok? ==> r.value.clock.total == value
    ensures r.Ok? ==> RemainingTime(r.value.clock, now) == Min(RemainingTime(c, now), value)
    ensures r.Ok? ==> r.value.clock.state == c.state && r.value.clock.paused == c.paused
    ensures r.Ok? && Valid(c) && Live(c, now) ==> Valid(r.value.clock) && Live(r.value.clock, now)
  {
    if value < MinuteMs then Err(ArgumentOutOfRange) else Ok(Retotal(c, value, now))
  }

  /** Defer: move the deadline by value ms, capped at the total and floored
      at one minute; a running countdown is re-armed now. */
  function Defer(c: Clock, value: int, now: int): (r: Step)
    ensures RemainingTime(r.clock, now) == Max(MinuteMs, Min(c.total, RemainingTime(c, now) + value))
    ensures r.clock.total == c.total && r.clock.state == c.state && r.clock.paused == c.paused
    ensures c.paused ==> r.events == []
    ensures !c.paused ==> r.events == Schedule(r.clock, now)
    ensures Valid(c) ==> Valid(r.clock) && Live(r.clock, now)
    ensures Valid(c) ==> MinuteMs <= RemainingTime(r.clock, now) <= c.total
  {
    var remaining := RemainingTime(c, now) + value;
    var capped := if c.total < remaining then c.total else remaining;
    var floored := if capped < MinuteMs then MinuteMs else capped;
    var c' := c.(due := floored);
    if !c.paused then
      var armed := c'.(start := now);
      Step(armed, Schedule(armed, now))
    else Step(c', [])
  }

  /** CountdownCallback as written: the phase flips and a full countdown
      of the new phase's configured duration is armed now, together with
      its progress notice, whether or not the clock is paused; the pause
      flag is left as it is. */
  function Expire(c: Clock, now: int): (r: Step)
    ensures r.clock.state == Flip(c.state)
    ensures r.clock.total == (if r.clock.state == Work then c.config.workTime else c.config.restingTime)
    ensures RemainingTime(r.clock, now) == r.clock.total
    ensures r.clock.paused == c.paused && r.clock.config == c.config
    ensures r.clock.armed && r.clock.start == now
    ensures r.events == Schedule(r.clock, now) + [StateChanged(r.clock.state)]
    ensures Valid(c) && !c.paused ==> Valid(r.clock) && Live(r.clock, now)
  {
    var state := Flip(c.state);
    var total := if state == Work then c.config.workTime else c.config.restingTime;
    var c' := c.(state := state, total := total, due := total, start := now, armed := true);
    Step(c', Schedule(c', now) + [StateChanged(state)])
  }

  /** CountdownCallback as Pause, Resume, SetTotalTime and Defer treat the
      timers: the expiry timer and the progress notice are armed only when
      the clock is not paused. */
  function ExpireAsIntended(c: Clock, now: int): (r: Step)
    ensures r.clock.state == Flip(c.state)
    ensures r.clock.total == (if r.clock.state == Work then c.config.workTime else c.config.restingTime)
    ensures RemainingTime(r.clock, now) == r.clock.total
    ensures r.clock.paused == c.paused && r.clock.config == c.config
    ensures r.clock.armed <==> !c.paused
    ensures !c.paused ==> r.events == Schedule(r.clock, now) + [StateChanged(r.clock.state)]
    ensures c.paused ==> r.events == [StateChanged(r.clock.state)]
    ensures Valid(c) ==> Valid(r.clock) && Live(r.clock, now)
  {
    var state := Flip(c.state);
    var total := if state == Work then c.config.workTime else c.config.restingTime;
    var c' := c.(state := state, total := total, due := total, start := now, armed := !c.paused);
    var schedule := if c.paused then [] else Schedule(c', now);
    Step(c', schedule + [StateChanged(state)])
  }

  /** An expiry only comes from the armed timer, and on a running clock
      both readings agree. */
  lemma ExpireVariantsAgree(c: Clock, now: int)
    requires !c.paused
    ensures Expire(c, now) == ExpireAsIntended(c, now)
  {
  }

  /** As written, forcing the phase change on a paused clock leaves it
      paused, showing a frozen full countdown, while its expiry timer runs:
      one full phase later the phase changes again without a resume. */
  lemma ExpireWhilePausedKeepsCounting(c: Clock, now: int)
    requires Valid(c) && c.paused
    ensures var s := Expire(c, now).clock;
            s.paused && s.armed && !Valid(s)
            && RemainingTime(s, now + s.total) == s.total
            && Expire(s, s.start + s.due).clock.state == c.state
  {
  }

  /** WorkOrRest: the public way to force the phase change, which runs
      CountdownCallback as written. On a running clock the invariant is
      kept; on a paused one the clock stays paused while its expiry timer
      runs (see ExpireWhilePausedKeepsCounting). */
  function WorkOrRest(c: Clock, now: int): (r: Step)
    ensures r.clock.state == Flip(c.state)
    ensures r.clock.total == (if r.clock.state == Work then c.config.workTime else c.config.restingTime)
    ensures RemainingTime(r.clock, now) == r.clock.total
    ensures r.clock.paused == c.paused && r.clock.armed
    ensures |r.events| >= 1 && r.events[|r.events| - 1] == StateChanged(r.clock.state)
    ensures Valid(c) && !c.paused ==> Valid(r.clock) && Live(r.clock, now)
    ensures Valid(c) && c.paused ==> !Valid(r.clock)
  {
    Expire(c, now)
  }

  /** Pause: freeze the remaining time. A no-op when already paused;
      otherwise the progress timer is cancelled and IsPausedChanged(true)
      raised once. */
  function Pause(c: Clock, now: int): (r: Step)
    ensures c.paused ==> r == Step(c, [])
    ensures !c.paused ==> r.clock.paused && !r.clock.armed && r.events == [ProgressCancelled, IsPausedChanged(true)]
    ensures RemainingTime(r.clock, now) == RemainingTime(c, now)
    ensures r.clock.total == c.total && r.clock.state == c.state && r.clock.config == c.config
    ensures Valid(c) && Live(c, now) ==> Valid(r.clock) && Live(r.clock, now)
  {
    if c.paused then Step(c, [])
    else Step(c.(due := RemainingTime(c, now), paused := true, armed := false),
              [ProgressCancelled, IsPausedChanged(true)])
  }

  /** Resume: re-arm the countdown now with the frozen remaining time. A
      no-op when running; otherwise IsPausedChanged(false) is raised once,
      after the progress timer is rescheduled. */
  function Resume(c: Clock, now: int): (r: Step)
    ensures !c.paused ==> r == Step(c, [])
    ensures c.paused ==> !r.clock.paused && r.clock.armed && r.clock.start == now
    ensures c.paused ==> r.events == Schedule(r.clock, now) + [IsPausedChanged(false)]
    ensures RemainingTime(r.clock, now) == RemainingTime(c, now)
    ensures r.clock.total == c.total && r.clock.state == c.state && r.clock.config == c.config
    ensures Valid(c) && Live(c, now) ==> Valid(r.clock) && Live(r.clock, now)
  {
    if !c.paused then Step(c, [])
    else
      var c' := c.(due := RemainingTime(c, now), start := now, paused := false, armed := true);
      Step(c', Schedule(c', now) + [IsPausedChanged(false)])
  }

  /** SetWorkTime: rejected below one minute; a no-op for the current
      value; otherwise saved, and the total is adjusted only during Work. */
  function SetWorkTime(c: Clock, value: int, now: int): (r: Result<Step>)
    ensures r.Err? <==> value < MinuteMs
    ensures r.Ok? && value == c.config.workTime ==> r.value == Step(c, [])
    ensures r.Ok? && value != c.config.workTime ==>
      r.value.clock.config == c.config.(workTime := value) && |r.value.events| >= 1 && r.value.events[0] == ConfigSaved
    ensures r.Ok? && c.state == Resting ==> r.value.clock == c.(config := r.value.clock.config)
    ensures r.Ok? && c.state == Work && value != c.config.workTime ==>
      r.value.clock.total == value && RemainingTime(r.value.clock, now) == Min(RemainingTime(c, now), value)
    ensures r.Ok? && Valid(c) && Live(c, now) ==> Valid(r.value.clock) && Live(r.value.clock, now)
  {
    if value < MinuteMs then Err(ArgumentOutOfRange)
    else if c.config.workTime == value then Ok(Step(c, []))
    else
      var saved := c.(config := c.config.(workTime := value));
      if c.state == Work then
        var s := Retotal(saved, value, now);
        Ok(Step(s.clock, [ConfigSaved] + s.events))
      else Ok(Step(saved, [ConfigSaved]))
  }

  /** SetRestingTime: as SetWorkTime, for the Resting phase. */
  function SetRestingTime(c: Clock, value: int, now: int): (r: Result<Step>)
    ensures r.Err? <==> value < MinuteMs
    ensures r.Ok? && value == c.config.restingTime ==> r.value == Step(c, [])
    ensures r.Ok? && value != c.config.restingTime ==>
      r.value.clock.config == c.config.(restingTime := value) && |r.value.events| >= 1 && r.value.events[0] == ConfigSaved
    ensures r.Ok? && c.state == Work ==> r.value.clock == c.(config := r.value.clock.config)
    ensures r.Ok? && c.state == Resting && value != c.config.restingTime ==>
      r.value.clock.total == value && RemainingTime(r.value.clock, now) == Min(RemainingTime(c, now), value)
    ensures r.Ok? && Valid(c) && Live(c, now) ==> Valid(r.value.clock) && Live(r.value.clock, now)
  {
    if value < MinuteMs then Err(ArgumentOutOfRange)
    else if c.config.restingTime == value then Ok(Step(c, []))
    else
      var saved := c.(config := c.config.(restingTime := value));
      if c.state == Resting then
        var s := Retotal(saved, value, now);
        Ok(Step(s.clock, [ConfigSaved] + s.events))
      else Ok(Step(saved, [ConfigSaved]))
  }

  /** SetRingerVolume: only a negative volume is rejected; otherwise the
      value is stored and saved. */
  function SetRingerVolume(c: Clock, value: int): (r: Result<Step>)
    ensures r.Err? <==> value < 0
    ensures r.Ok? ==> r.value == Step(c.(config := c.config.(ringerVolume := value)), [ConfigSaved])
  {
    if value < 0 then Err(ArgumentOutOfRange)
    else Ok(Step(c.(config := c.config.(ringerVolume := value)), [ConfigSaved]))
  }

  /** ProgressCallback: report the progress, and first schedule the next
      notice while progress > 25 % or more than 10 s remain (the final
      stretch is covered by the expiry). */
  function ProgressFired(c: Clock, now: int): (r: Step)
    ensures r.clock == c
    ensures |r.events| >= 1 && r.events[|r.events| - 1] == ProgressChanged(Progress(c, now))
    ensures Reschedules(c, now) ==> r.events == Schedule(c, now) + [ProgressChanged(Progress(c, now))]
    ensures !Reschedules(c, now) ==> r.events == [ProgressChanged(Progress(c, now))]
  {
    var progress := Progress(c, now);
    var schedule := if Reschedules(c, now) then Schedule(c, now) else [];
    Step(c, schedule + [ProgressChanged(progress)])
  }

  /* ---------------------------------------------------------------- */
  /* Properties across operations                                      */
  /* ---------------------------------------------------------------- */

  /** While paused the remaining time is frozen, and after resuming it
      runs down from where it stopped: the paused interval is excluded
      exactly, whatever instants the calls happen at. */
  lemma NoDriftAcrossPause(c: Clock, t1: int, t2: int, t3: int)
    requires !c.paused
    ensures var p := Pause(c, t1).clock;
            RemainingTime(p, t2) == RemainingTime(c, t1)
            && RemainingTime(Resume(p, t2).clock, t3) == RemainingTime(c, t1) - (t3 - t2)
            && RemainingTime(c, t3) - RemainingTime(Resume(p, t2).clock, t3) == -(t2 - t1)
  {
  }

  /** Pause and Resume are each idempotent: a repeated call changes
      nothing and raises nothing, so each flip raises IsPausedChanged
      once. */
  lemma PauseResumeIdempotent(c: Clock, t1: int, t2: int)
    ensures var p := Pause(c, t1);
            Pause(p.clock, t2) == Step(p.clock, [])
    ensures var q := Resume(c, t1);
            Resume(q.clock, t2) == Step(q.clock, [])
  {
  }

  /** Scenario: with the default 45 min of work the first notice is
      due after 11.25 min (the 75 % mark) and reports progress 3/4. */
  lemma DefaultScheduleScenario(now: int)
    ensures var s := Create(DefaultConfig, now);
            s.events == [ProgressScheduled(675000)]
            && ProgressFired(s.clock, now + 675000).events
               == [ProgressScheduled(675000), ProgressChanged(Ratio(2025000, 2700000))]
  {
  }

  /** Scenario: a phase ending in Work moves to Resting with the rest
      duration and reports the new state once. */
  lemma ExpiryFromWork(c: Clock, now: int)
    requires Valid(c) && c.state == Work
    ensures var s := Expire(c, now);
            s.clock.state == Resting && s.clock.total == c.config.restingTime
            && s.events == [ProgressScheduled(NextProgressDelay(c.config.restingTime, c.config.restingTime).value),
                            StateChanged(Resting)]
  {
  }
}
