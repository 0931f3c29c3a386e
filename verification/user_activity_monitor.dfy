/** UserActivityMonitor: decides whether the user has left the machine
    from the time since the last keyboard or mouse input, and raises
    UserLeave / UserBack on the edges only.

    The absence time (GetLastInputInfo against the tick count) and the
    "a process keeps the display on" flag (CallNtPowerInformation) are
    inputs of each detection; the threading timer is reduced to the
    schedule the callback leaves it with. */
module UserActivityMonitor {
  import opened Wrappers

  /** Polling period once the user has left. */
  const DetectIntervalMs: int := 1000
  /** Absence from which the user counts as having left: 4 minutes. */
  const UserAbsenceLimitMs: int := 4 * 60 * 1000

  datatype Signal = UserLeave(isSystemDisplayRequired: bool) | UserBack

  /** The detection timer: never started, periodic, or a single check
      due after `delay` ms. */
  datatype Schedule = Stopped | Periodic(period: int) | Once(delay: int)

  datatype Monitor = Monitor(isUserLeave: bool, timer: Schedule)

  /** One sample fed to the callback. */
  datatype Sample = Sample(absenceMs: int, displayRequired: bool)

  datatype Detection = Detection(monitor: Monitor, signal: Option<Signal>)

  const Initial: Monitor := Monitor(false, Stopped)

  /** The monitor's invariant once started: the timer is armed, polling
      every second exactly while the user counts as away, otherwise a
      single check due no earlier than now. */
  ghost predicate Valid(m: Monitor) {
    && (m.isUserLeave <==> m.timer == Periodic(DetectIntervalMs))
    && (!m.isUserLeave ==> m.timer.Once? && m.timer.delay >= 0)
  }

  /** Start: the first check is due immediately. */
  function Start(m: Monitor): (r: Monitor)
    ensures r.isUserLeave == m.isUserLeave
    ensures !m.isUserLeave ==> Valid(r)
    ensures r.timer.Once? && r.timer.delay == 0
  {
    m.(timer := Once(0))
  }

  /** DetectTimerCallback. At or above the limit the user counts as away;
      UserLeave is raised, and polling switches to every second, only on
      the edge. Below it the user counts as present; UserBack is raised
      only on the edge, and the next check is due when the absence could
      first reach the limit. */
  function Detect(m: Monitor, s: Sample): (r: Detection)
    ensures r.monitor.isUserLeave <==> s.absenceMs >= UserAbsenceLimitMs
    ensures r.signal.Some? <==> m.isUserLeave != r.monitor.isUserLeave
    ensures r.signal == Some(UserLeave(s.displayRequired)) <==> !m.isUserLeave && s.absenceMs >= UserAbsenceLimitMs
    ensures r.signal == Some(UserBack) <==> m.isUserLeave && s.absenceMs < UserAbsenceLimitMs
    ensures s.absenceMs < UserAbsenceLimitMs ==>
      r.monitor.timer.Once? && r.monitor.timer.delay > 0 && s.absenceMs + r.monitor.timer.delay == UserAbsenceLimitMs
    ensures s.absenceMs >= UserAbsenceLimitMs && !m.isUserLeave ==> r.monitor.timer == Periodic(DetectIntervalMs)
    ensures s.absenceMs >= UserAbsenceLimitMs && m.isUserLeave ==> r.monitor.timer == m.timer
    ensures Valid(m) ==> Valid(r.monitor)
  {
    if s.absenceMs >= UserAbsenceLimitMs then
      if !m.isUserLeave then
        Detection(Monitor(true, Periodic(DetectIntervalMs)), Some(UserLeave(s.displayRequired)))
      else Detection(m, None)
    else
      var signal := if m.isUserLeave then Some(UserBack) else None;
      Detection(Monitor(false, Once(UserAbsenceLimitMs - s.absenceMs)), signal)
  }

  datatype Observation = Observation(monitor: Monitor, signals: seq<Signal>)

  /** Feed a sequence of samples through the callback, collecting the
      signals raised. */
  function Observe(m: Monitor, samples: seq<Sample>): (r: Observation)
    ensures |r.signals| <= |samples|
    decreases |samples|
  {
    if |samples| == 0 then Observation(m, [])
    else
      var d := Detect(m, samples[0]);
      var rest := Observe(d.monitor, samples[1..]);
      match d.signal
      case None => rest
      case Some(sig) => Observation(rest.monitor, [sig] + rest.signals)
  }

  /** Signals alternate between UserLeave and UserBack, starting with the
      edge away from `isUserLeave`. */
  ghost predicate Alternates(isUserLeave: bool, signals: seq<Signal>)
    decreases |signals|
  {
    |signals| == 0
    || (signals[0].UserLeave? == !isUserLeave && Alternates(!isUserLeave, signals[1..]))
  }

  /** Over any observation sequence UserLeave and UserBack strictly
      alternate, the first one moving away from the starting flag, and
      IsUserLeave afterwards is the target of the last signal raised. */
  lemma {:induction false} SignalsAlternate(m: Monitor, samples: seq<Sample>)
    ensures Alternates(m.isUserLeave, Observe(m, samples).signals)
    ensures var o := Observe(m, samples);
            o.monitor.isUserLeave == (if |o.signals| == 0 then m.isUserLeave else o.signals[|o.signals| - 1].UserLeave?)
    decreases |samples|
  {
    if |samples| > 0 {
      var d := Detect(m, samples[0]);
      SignalsAlternate(d.monitor, samples[1..]);
      var rest := Observe(d.monitor, samples[1..]);
      if d.signal.Some? {
        assert ([d.signal.value] + rest.signals)[1..] == rest.signals;
      }
    }
  }

  /** After a non-empty observation sequence the flag reflects the last
      sample alone. */
  lemma {:induction false} LastSampleDecides(m: Monitor, samples: seq<Sample>)
    requires |samples| > 0
    ensures Observe(m, samples).monitor.isUserLeave <==> samples[|samples| - 1].absenceMs >= UserAbsenceLimitMs
    decreases |samples|
  {
    if |samples| > 1 {
      LastSampleDecides(Detect(m, samples[0]).monitor, samples[1..]);
    }
  }

  /** A started monitor stays valid over any observation sequence. */
  lemma {:induction false} ObservePreservesValid(m: Monitor, samples: seq<Sample>)
    requires Valid(m)
    ensures Valid(Observe(m, samples).monitor)
    decreases |samples|
  {
    if |samples| > 0 {
      ObservePreservesValid(Detect(m, samples[0]).monitor, samples[1..]);
    }
  }

  /** Scenario: 3 min of absence schedules the next check in 1 min
      and raises nothing; 4 min raises UserLeave; coming back raises
      UserBack once. */
  lemma LeaveAndBackScenario()
    ensures var m := Start(Initial);
            var a := Detect(m, Sample(180000, false));
            var b := Detect(a.monitor, Sample(240000, true));
            var c := Detect(b.monitor, Sample(241000, true));
            var d := Detect(c.monitor, Sample(500, false));
            a.signal == None && a.monitor.timer == Once(60000)
            && b.signal == Some(UserLeave(true)) && b.monitor.timer == Periodic(1000)
            && c.signal == None
            && d.signal == Some(UserBack) && d.monitor.timer == Once(239500)
  {
  }
}
