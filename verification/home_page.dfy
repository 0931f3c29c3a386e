/** The home page's view-model (HomeData) and ReadData, which copies the
    engine's state into it. Only the display arithmetic and the
    change notifications are modelled; bindings, icons and the command
    bar belong to the UI framework. */
module HomePage {
  import opened Basics
  import EyeshadeModule

  /** What CountdownUnit shows: "分 s 秒" (minutes, then s seconds) above
      a minute, "秒" (seconds) otherwise. */
  datatype Unit = MinutesAndSeconds(seconds: int) | SecondsOnly

  /** The large number on the page: whole minutes above one minute,
      otherwise whole seconds (C# division, truncating toward zero). */
  function Countdown(remainingMs: int): (c: int)
    ensures remainingMs > MinuteMs ==> c >= 1 && c * MinuteMs <= remainingMs < c * MinuteMs + MinuteMs
    ensures 0 <= remainingMs <= MinuteMs ==> 0 <= c <= 60 && c * SecondMs <= remainingMs < c * SecondMs + SecondMs
    ensures remainingMs < 0 ==> c <= 0 && c * SecondMs - SecondMs < remainingMs <= c * SecondMs
  {
    if remainingMs > MinuteMs then TruncDiv(remainingMs, MinuteMs)
    else TruncDiv(remainingMs, SecondMs)
  }

  function CountdownUnit(remainingMs: int): (u: Unit)
    ensures u.MinutesAndSeconds? <==> remainingMs > MinuteMs
    ensures u.MinutesAndSeconds? ==> 0 <= u.seconds <= 59
  {
    if remainingMs > MinuteMs then MinutesAndSeconds(TruncDiv(remainingMs % MinuteMs, SecondMs))
    else SecondsOnly
  }

  /** Minutes and seconds together reconstruct the remaining time to
      within the second below it. */
  lemma CountdownReconstructs(remainingMs: int)
    requires remainingMs > MinuteMs
    ensures var m := Countdown(remainingMs);
            var s := CountdownUnit(remainingMs).seconds;
            m * MinuteMs + s * SecondMs <= remainingMs < m * MinuteMs + s * SecondMs + SecondMs
  {
    var m := Countdown(remainingMs);
    var s := CountdownUnit(remainingMs).seconds;
    assert m == remainingMs / MinuteMs;
    assert remainingMs == m * MinuteMs + remainingMs % MinuteMs;
    assert s * SecondMs <= remainingMs % MinuteMs < s * SecondMs + SecondMs;
  }

  const WorkTitle: string := "\U{5DE5}\U{4F5C}\U{4E2D}\U{2026}\U{2026}"
  const RestingTitle: string := "\U{4F11}\U{606F}\U{4E2D}\U{2026}\U{2026}"

  /** "Working……" in Work, "Resting……" in any other state. */
  function StateTitle(state: Phase): (t: string)
    ensures t == WorkTitle <==> state == Work
    ensures t == RestingTitle <==> state == Resting
  {
    assert WorkTitle[0] != RestingTitle[0];
    match state
    case Work => WorkTitle
    case Resting => RestingTitle
  }

  predicate IsResting(state: Phase) {
    state == Resting
  }

  /** The progress bar value of ReadData: the truncated percentage,
      clamped into [0, 100]. */
  function ProgressValue(p: Ratio): (v: int)
    requires p.den > 0
    ensures 0 <= v <= 100
    ensures p.num <= 0 ==> v == 0
    ensures p.num >= p.den ==> v == 100
    ensures p.InUnit() ==> v * p.den <= 100 * p.num < v * p.den + p.den
  {
    var percent := TruncDiv(100 * p.num, p.den);
    PercentBounds(p, percent);
    Min(100, Max(0, percent))
  }

  /** The truncated percentage stays within [0, 100] exactly when the
      fraction does. */
  lemma PercentBounds(p: Ratio, percent: int)
    requires p.den > 0
    requires 100 * p.num >= 0 ==> percent * p.den <= 100 * p.num < percent * p.den + p.den
    requires 100 * p.num < 0 ==> percent * p.den - p.den < 100 * p.num <= percent * p.den
    ensures p.num <= 0 ==> percent <= 0
    ensures p.num >= p.den ==> percent >= 100
    ensures p.InUnit() ==> percent <= 100
  {
    MulCompare(0, percent, p.den);
    MulCompare(percent, 1, p.den);
    MulCompare(percent + 1, 100, p.den);
    MulCompare(100, percent, p.den);
  }

  /* ---------------------------------------------------------------- */
  /* HomeData and its change notifications                             */
  /* ---------------------------------------------------------------- */

  datatype HomeData = HomeData(remainingMs: int, progressValue: int, isUserPaused: bool, state: Phase)

  /** A fresh HomeData: every field at its .NET default. */
  const InitialData: HomeData := HomeData(0, 0, false, Work)

  /** A set property and the PropertyChanged names it raised. */
  datatype Updated = Updated(data: HomeData, notified: seq<string>)

  /** What a binding to a property name displays. */
  datatype Shown =
    | Number(n: int)
    | Flag(b: bool)
    | UnitShown(u: Unit)
    | PhaseShown(p: Phase)
    | Text(s: string)
    | Unbound

  function Bound(d: HomeData, name: string): Shown {
    if name == "RemainingMilliseconds" then Number(d.remainingMs)
    else if name == "Countdown" then Number(Countdown(d.remainingMs))
    else if name == "CountdownUnit" then UnitShown(CountdownUnit(d.remainingMs))
    else if name == "CountdownProgressValue" then Number(d.progressValue)
    else if name == "IsUserPaused" then Flag(d.isUserPaused)
    else if name == "EyeshadeState" then PhaseShown(d.state)
    else if name == "StateTitle" then Text(StateTitle(d.state))
    else if name == "IsResting" then Flag(IsResting(d.state))
    else Unbound
  }

  /** A binding can go stale only if it was not notified. */
  ghost predicate NotifiesEveryChange(before: HomeData, u: Updated) {
    forall name :: Bound(before, name) != Bound(u.data, name) ==> name in u.notified
  }

  /** RemainingMilliseconds: on a change, it notifies itself and the two
      properties derived from it. */
  function SetRemainingMilliseconds(d: HomeData, value: int): (r: Updated)
    ensures r.data == d.(remainingMs := value)
    ensures r.notified == [] <==> d.remainingMs == value
    ensures r.notified != [] ==> r.notified == ["RemainingMilliseconds", "Countdown", "CountdownUnit"]
  {
    if d.remainingMs != value then
      Updated(d.(remainingMs := value), ["RemainingMilliseconds", "Countdown", "CountdownUnit"])
    else Updated(d, [])
  }

  function SetCountdownProgressValue(d: HomeData, value: int): (r: Updated)
    ensures r.data == d.(progressValue := value)
    ensures r.notified == (if d.progressValue == value then [] else ["CountdownProgressValue"])
  {
    if d.progressValue != value then Updated(d.(progressValue := value), ["CountdownProgressValue"])
    else Updated(d, [])
  }

  function SetIsUserPaused(d: HomeData, value: bool): (r: Updated)
    ensures r.data == d.(isUserPaused := value)
    ensures r.notified == (if d.isUserPaused == value then [] else ["IsUserPaused"])
  {
    if d.isUserPaused != value then Updated(d.(isUserPaused := value), ["IsUserPaused"])
    else Updated(d, [])
  }

  /** EyeshadeState: on a change, it notifies itself and the title and
      resting flag derived from it. */
  function SetEyeshadeState(d: HomeData, value: Phase): (r: Updated)
    ensures r.data == d.(state := value)
    ensures r.notified == [] <==> d.state == value
    ensures r.notified != [] ==> r.notified == ["EyeshadeState", "StateTitle", "IsResting"]
  {
    if d.state != value then Updated(d.(state := value), ["EyeshadeState", "StateTitle", "IsResting"])
    else Updated(d, [])
  }

  /** Each setter notifies every property whose shown value changes, and
      notifies nothing when the data stays the same. */
  lemma SettersNotifyExactly(d: HomeData, ms: int, progress: int, paused: bool, state: Phase)
    ensures NotifiesEveryChange(d, SetRemainingMilliseconds(d, ms))
    ensures NotifiesEveryChange(d, SetCountdownProgressValue(d, progress))
    ensures NotifiesEveryChange(d, SetIsUserPaused(d, paused))
    ensures NotifiesEveryChange(d, SetEyeshadeState(d, state))
    ensures SetRemainingMilliseconds(d, ms).notified != [] <==> SetRemainingMilliseconds(d, ms).data != d
    ensures SetCountdownProgressValue(d, progress).notified != [] <==> SetCountdownProgressValue(d, progress).data != d
    ensures SetIsUserPaused(d, paused).notified != [] <==> SetIsUserPaused(d, paused).data != d
    ensures SetEyeshadeState(d, state).notified != [] <==> SetEyeshadeState(d, state).data != d
  {
    RemainingSetterNotifies(d, ms);
    ProgressSetterNotifies(d, progress);
    PausedSetterNotifies(d, paused);
    StateSetterNotifies(d, state);
  }

  lemma RemainingSetterNotifies(d: HomeData, ms: int)
    ensures NotifiesEveryChange(d, SetRemainingMilliseconds(d, ms))
    ensures SetRemainingMilliseconds(d, ms).notified != [] <==> SetRemainingMilliseconds(d, ms).data != d
  {
  }

  lemma ProgressSetterNotifies(d: HomeData, progress: int)
    ensures NotifiesEveryChange(d, SetCountdownProgressValue(d, progress))
    ensures SetCountdownProgressValue(d, progress).notified != [] <==> SetCountdownProgressValue(d, progress).data != d
  {
  }

  lemma PausedSetterNotifies(d: HomeData, paused: bool)
    ensures NotifiesEveryChange(d, SetIsUserPaused(d, paused))
    ensures SetIsUserPaused(d, paused).notified != [] <==> SetIsUserPaused(d, paused).data != d
  {
  }

  lemma StateSetterNotifies(d: HomeData, state: Phase)
    ensures NotifiesEveryChange(d, SetEyeshadeState(d, state))
    ensures SetEyeshadeState(d, state).notified != [] <==> SetEyeshadeState(d, state).data != d
  {
  }

  /** The engine state ReadData reads. */
  datatype ModuleView = ModuleView(remainingMs: int, progress: Ratio, isUserPaused: bool, state: Phase)

  function ViewOf(m: EyeshadeModule.Module): (v: ModuleView)
    ensures EyeshadeModule.Valid(m) ==> v.progress.InUnit() && 0 < v.remainingMs <= m.timer.total
  {
    ModuleView(m.timer.remaining, EyeshadeModule.Progress(m), m.userPaused, m.state)
  }

  /** ReadData: the four setters in order, progress clamped into
      [0, 100]. */
  function ReadData(d: HomeData, v: ModuleView): (r: Updated)
    requires v.progress.den > 0
    ensures r.data == HomeData(v.remainingMs, ProgressValue(v.progress), v.isUserPaused, v.state)
    ensures 0 <= r.data.progressValue <= 100
  {
    var a := SetRemainingMilliseconds(d, v.remainingMs);
    var b := SetCountdownProgressValue(a.data, ProgressValue(v.progress));
    var c := SetIsUserPaused(b.data, v.isUserPaused);
    var e := SetEyeshadeState(c.data, v.state);
    Updated(e.data, a.notified + b.notified + c.notified + e.notified)
  }

  /** ReadData leaves no binding stale, and reading the same engine
      state again notifies nothing. */
  lemma ReadDataNotifiesExactly(d: HomeData, v: ModuleView)
    requires v.progress.den > 0
    ensures NotifiesEveryChange(d, ReadData(d, v))
    ensures ReadData(ReadData(d, v).data, v).notified == []
  {
    var a := SetRemainingMilliseconds(d, v.remainingMs);
    var b := SetCountdownProgressValue(a.data, ProgressValue(v.progress));
    var c := SetIsUserPaused(b.data, v.isUserPaused);
    var e := SetEyeshadeState(c.data, v.state);
    RemainingSetterNotifies(d, v.remainingMs);
    ProgressSetterNotifies(a.data, ProgressValue(v.progress));
    PausedSetterNotifies(b.data, v.isUserPaused);
    StateSetterNotifies(c.data, v.state);
    forall name | Bound(d, name) != Bound(e.data, name)
      ensures name in ReadData(d, v).notified
    {
      if Bound(d, name) != Bound(a.data, name) {
        assert name in a.notified;
      } else if Bound(a.data, name) != Bound(b.data, name) {
        assert name in b.notified;
      } else if Bound(b.data, name) != Bound(c.data, name) {
        assert name in c.notified;
      } else {
        assert name in e.notified;
      }
    }
  }

  /** For a valid engine the page shows the floor of the remaining
      percentage. */
  lemma ReadDataShowsPercentage(d: HomeData, m: EyeshadeModule.Module)
    requires EyeshadeModule.Valid(m)
    ensures var shown := ReadData(d, ViewOf(m)).data.progressValue;
            shown * m.timer.total <= 100 * m.timer.remaining < shown * m.timer.total + m.timer.total
  {
  }
}
