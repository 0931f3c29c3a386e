/** The main window's reactions to the engine: which tray icon to show,
    when to refresh it, when to pop the window up before a break, and the
    tray menu's "rest now" entry. The window reads the older API's
    IsPaused flag, which is an input here. Progress is the engine's
    fraction, a Ratio with a positive denominator. */
module MainWindow {
  import opened Wrappers
  import opened Basics
  import EyeshadeModule

  /** The tray icon files under Images\TrayIcon. */
  datatype TrayIcon = Full | ThreeQuarters | Half | Quarter | Paused | RestingIcon

  function IconFile(i: TrayIcon): string {
    match i
    case Full => "Images\\TrayIcon\\100.ico"
    case ThreeQuarters => "Images\\TrayIcon\\75.ico"
    case Half => "Images\\TrayIcon\\50.ico"
    case Quarter => "Images\\TrayIcon\\25.ico"
    case Paused => "Images\\TrayIcon\\pause.ico"
    case RestingIcon => "Images\\TrayIcon\\resting.ico"
  }

  /** What the window reads from the engine. */
  datatype ModuleView = ModuleView(progress: Ratio, remainingMs: int, isPaused: bool, state: Phase)

  ghost predicate WellFormed(v: ModuleView) {
    v.progress.den > 0
  }

  /** How full a work icon is drawn, in quarters; 0 for the others. */
  function Fill(i: TrayIcon): nat {
    match i
    case Full => 4
    case ThreeQuarters => 3
    case Half => 2
    case Quarter => 1
    case _ => 0
  }

  /** The work icon for a progress fraction: a quarter is added for each
      of 1/4, 1/2 and 3/4 that the progress strictly exceeds. */
  function WorkIcon(p: Ratio): (i: TrayIcon)
    requires p.den > 0
    ensures 1 <= Fill(i) <= 4
    ensures Fill(i) == Max(1, Min(4, CeilDiv(4 * p.num, p.den)))
  {
    var q := CeilDiv(4 * p.num, p.den);
    MulCompare(q, 4, p.den);
    MulCompare(3, q, p.den);
    MulCompare(q, 3, p.den);
    MulCompare(2, q, p.den);
    MulCompare(q, 2, p.den);
    MulCompare(1, q, p.den);
    MulCompare(q, 1, p.den);
    MulCompare(0, q, p.den);
    if p.Exceeds(3, 4) then Full
    else if p.Exceeds(1, 2) then ThreeQuarters
    else if p.Exceeds(1, 4) then Half
    else Quarter
  }

  /** GetCurrentStateTrayIcon: the full icon when there is no engine;
      otherwise the pause icon whenever paused, the resting icon whenever
      resting, and the work icon for the progress. */
  function CurrentStateTrayIcon(m: Option<ModuleView>): (i: TrayIcon)
    requires m.Some? ==> WellFormed(m.value)
    ensures m.None? ==> i == Full
    ensures m.Some? ==> (i == Paused <==> m.value.isPaused)
    ensures m.Some? ==> (i == RestingIcon <==> !m.value.isPaused && m.value.state == Resting)
    ensures m.Some? && !m.value.isPaused && m.value.state == Work ==> i == WorkIcon(m.value.progress)
  {
    match m
    case None => Full
    case Some(v) =>
      if v.isPaused then Paused
      else if v.state == Resting then RestingIcon
      else WorkIcon(v.progress)
  }

  /** p <= q as fractions. */
  predicate AtMost(p: Ratio, q: Ratio) {
    p.num * q.den <= q.num * p.den
  }

  /** Less progress never selects a fuller work icon. */
  lemma WorkIconMonotone(p: Ratio, q: Ratio)
    requires p.den > 0 && q.den > 0
    requires AtMost(p, q)
    ensures Fill(WorkIcon(p)) <= Fill(WorkIcon(q))
  {
    CrossMultiply(p, q, 3, 4);
    CrossMultiply(p, q, 1, 2);
    CrossMultiply(p, q, 1, 4);
  }

  /** If p <= q and p > n/d then q > n/d. */
  lemma CrossMultiply(p: Ratio, q: Ratio, n: int, d: int)
    requires p.den > 0 && q.den > 0 && d > 0
    requires AtMost(p, q)
    ensures p.Exceeds(n, d) ==> q.Exceeds(n, d)
  {
    if p.Exceeds(n, d) && !q.Exceeds(n, d) {
      // p.num * d > n * p.den and q.num * d <= n * q.den; scaling each by
      // the other denominator contradicts p.num * q.den <= q.num * p.den.
      MulCompare(n * p.den, p.num * d, q.den);
      MulCompare(n * q.den, q.num * d, p.den);
      MulCompare(q.num * p.den, p.num * q.den, d);
    }
  }

  /* ---------------------------------------------------------------- */
  /* EyeshadeModule_ProgressChanged                                    */
  /* ---------------------------------------------------------------- */

  /** The popup threshold: the last ten seconds of work. */
  const LastSecondsMs: int := 10000

  /** The samples the handler remembers; before the first notice they
      are progress 1 and 0 ms remaining. */
  datatype Watcher = Watcher(preProgress: Ratio, preRemainingMs: int)

  const InitialWatcher: Watcher := Watcher(One, 0)

  /** (int)(progress / 0.25): the number of whole quarters, truncated. */
  function QuarterBucket(p: Ratio): (b: int)
    requires p.den > 0
    ensures p.InUnit() ==> 0 <= b <= 4
    ensures p.num >= 0 ==> 0 <= b && b * p.den <= 4 * p.num < b * p.den + p.den
  {
    var b := TruncDiv(4 * p.num, p.den);
    MulCompare(4, b, p.den);
    b
  }

  /** Less progress never has more whole quarters. */
  lemma QuarterBucketMonotone(p: Ratio, q: Ratio)
    requires p.den > 0 && q.den > 0 && p.num >= 0 && q.num >= 0
    requires AtMost(p, q)
    ensures QuarterBucket(p) <= QuarterBucket(q)
  {
    FloorMonotone(QuarterBucket(p), QuarterBucket(q), p.num, p.den, q.num, q.den);
  }

  /** If bp <= 4 pn / pd, 4 qn / qd < bq + 1 and pn / pd <= qn / qd, then
      bp <= bq: scaling each bound by the other denominator chains them
      into bp * (pd * qd) < (bq + 1) * (pd * qd). */
  lemma FloorMonotone(bp: int, bq: int, pn: int, pd: int, qn: int, qd: int)
    requires pd > 0 && qd > 0
    requires bp * pd <= 4 * pn && 4 * qn < (bq + 1) * qd
    requires pn * qd <= qn * pd
    ensures bp <= bq
  {
    var k := pd * qd;
    MulSign(pd, qd);
    MulCompare(4 * pn, bp * pd, qd);
    Rescale(bp, pd, qd);
    Rescale(4, pn, qd);
    MulCompare(4 * qn, (bq + 1) * qd, pd);
    Rescale(bq + 1, qd, pd);
    Rescale(4, qn, pd);
    MulCompare(bp, bq + 1, k);
  }

  /** (a * b) * c regrouped, with the product of the last two in either order. */
  lemma Rescale(a: int, b: int, c: int)
    ensures (a * b) * c == a * (b * c) == a * (c * b)
  {
  }

  /** The refresh test as written: the truncated quarter count differs
      between the previous and the current sample. */
  predicate BucketChanged(pre: Ratio, cur: Ratio)
    requires pre.den > 0 && cur.den > 0
  {
    QuarterBucket(pre) != QuarterBucket(cur)
  }

  /** The refresh test as intended: the work icon differs between the
      previous and the current sample. */
  predicate IconChanged(pre: Ratio, cur: Ratio)
    requires pre.den > 0 && cur.den > 0
  {
    WorkIcon(pre) != WorkIcon(cur)
  }

  /** The truncated test misses an icon change: at the default 45 min
      phase, going from 2026 s to exactly 2025 s remaining (3/4) moves the
      icon from "100" to "75" while both samples truncate to 3 quarters,
      so the icon is refreshed one notice late. */
  lemma BucketTestMissesExactQuarter()
    ensures var pre := Ratio(2026000, 2700000);
            var cur := Ratio(2025000, 2700000);
            !BucketChanged(pre, cur) && IconChanged(pre, cur)
            && WorkIcon(pre) == Full && WorkIcon(cur) == ThreeQuarters
  {
    var pre := Ratio(2026000, 2700000);
    var cur := Ratio(2025000, 2700000);
    assert QuarterBucket(pre) == 3;
    assert QuarterBucket(cur) == 3;
  }

  /** The intended test refreshes exactly when the icon shown in Work
      would change. */
  lemma IconChangedMeansNewIcon(pre: Ratio, cur: Ratio)
    requires pre.den > 0 && cur.den > 0
    ensures IconChanged(pre, cur) <==>
      CurrentStateTrayIcon(Some(ModuleView(pre, 0, false, Work)))
      != CurrentStateTrayIcon(Some(ModuleView(cur, 0, false, Work)))
  {
  }

  /** Which refresh test the handler applies: the truncated quarter test
      of MainWindow.xaml.cs, or the icon comparison it stands for. */
  datatype RefreshRule = AsWritten | AsIntended

  predicate Refreshes(rule: RefreshRule, pre: Ratio, cur: Ratio)
    requires pre.den > 0 && cur.den > 0
  {
    match rule
    case AsWritten => BucketChanged(pre, cur)
    case AsIntended => IconChanged(pre, cur)
  }

  datatype Reaction = Reaction(watcher: Watcher, refreshIcon: bool, popup: bool)

  /** EyeshadeModule_ProgressChanged. Without an engine nothing happens.
      In Work the tray icon is refreshed when the refresh test fires (as
      written: when the truncated quarter count changes), and the window
      pops up on the edge from above ten seconds to at most ten seconds
      remaining. The samples are remembered in every state. */
  function OnProgressChanged(rule: RefreshRule, w: Watcher, m: Option<ModuleView>): (r: Reaction)
    requires w.preProgress.den > 0
    requires m.Some? ==> WellFormed(m.value)
    ensures m.None? ==> r == Reaction(w, false, false)
    ensures m.Some? ==> r.watcher == Watcher(m.value.progress, m.value.remainingMs)
    ensures r.refreshIcon ==> m.Some? && m.value.state == Work
    ensures r.popup <==> m.Some? && m.value.state == Work
                         && w.preRemainingMs > LastSecondsMs && m.value.remainingMs <= LastSecondsMs
    ensures m.Some? && m.value.state == Work && rule == AsWritten ==>
      (r.refreshIcon <==> QuarterBucket(w.preProgress) != QuarterBucket(m.value.progress))
    ensures m.Some? && m.value.state == Work && rule == AsIntended ==>
      (r.refreshIcon <==> WorkIcon(w.preProgress) != WorkIcon(m.value.progress))
  {
    match m
    case None => Reaction(w, false, false)
    case Some(v) =>
      var work := v.state == Work;
      var refresh := work && Refreshes(rule, w.preProgress, v.progress);
      var popup := work && w.preRemainingMs > LastSecondsMs && v.remainingMs <= LastSecondsMs;
      Reaction(Watcher(v.progress, v.remainingMs), refresh, popup)
  }

  /** The handler over a run of progress notices: the final watcher and
      how many refreshes and popups it produced. */
  datatype Tally = Tally(watcher: Watcher, refreshes: nat, popups: nat)

  function Watch(rule: RefreshRule, w: Watcher, samples: seq<ModuleView>): (t: Tally)
    requires w.preProgress.den > 0
    requires forall i :: 0 <= i < |samples| ==> WellFormed(samples[i])
    ensures |samples| == 0 ==> t == Tally(w, 0, 0)
    ensures |samples| > 0 ==> t.watcher.preProgress == samples[|samples| - 1].progress
    ensures t.watcher.preProgress.den > 0
    ensures t.popups <= |samples| && t.refreshes <= |samples|
    decreases |samples|
  {
    if |samples| == 0 then Tally(w, 0, 0)
    else
      var r := OnProgressChanged(rule, w, Some(samples[0]));
      var rest := Watch(rule, r.watcher, samples[1..]);
      Tally(rest.watcher, rest.refreshes + (if r.refreshIcon then 1 else 0),
            rest.popups + (if r.popup then 1 else 0))
  }

  /** Remaining time that never goes up from the remembered sample on. */
  ghost predicate RemainingNonIncreasing(w: Watcher, samples: seq<ModuleView>) {
    (|samples| > 0 ==> samples[0].remainingMs <= w.preRemainingMs)
    && forall i :: 0 < i < |samples| ==> samples[i].remainingMs <= samples[i - 1].remainingMs
  }

  /** While the remaining time only goes down, the window pops up at most
      once, and never if it started at ten seconds or less. */
  lemma {:induction false} PopupAtMostOnce(rule: RefreshRule, w: Watcher, samples: seq<ModuleView>)
    requires w.preProgress.den > 0
    requires forall i :: 0 <= i < |samples| ==> WellFormed(samples[i])
    requires RemainingNonIncreasing(w, samples)
    ensures Watch(rule, w, samples).popups <= 1
    ensures w.preRemainingMs <= LastSecondsMs ==> Watch(rule, w, samples).popups == 0
    decreases |samples|
  {
    if |samples| > 0 {
      var r := OnProgressChanged(rule, w, Some(samples[0]));
      assert RemainingNonIncreasing(r.watcher, samples[1..]);
      PopupAtMostOnce(rule, r.watcher, samples[1..]);
    }
  }

  /** Progress that never goes up from the remembered sample on. */
  ghost predicate ProgressNonIncreasing(w: Watcher, samples: seq<ModuleView>)
    requires forall i :: 0 <= i < |samples| ==> WellFormed(samples[i])
  {
    (|samples| > 0 ==> AtMost(samples[0].progress, w.preProgress))
    && forall i :: 0 < i < |samples| ==> AtMost(samples[i].progress, samples[i - 1].progress)
  }

  /** As written, while progress in [0, 1] only goes down, each refresh
      moves to a smaller quarter count, so the refreshes plus the final
      count never exceed the initial count. */
  lemma {:induction false} RefreshesBoundedByBucket(w: Watcher, samples: seq<ModuleView>)
    requires w.preProgress.den > 0 && w.preProgress.num >= 0
    requires forall i :: 0 <= i < |samples| ==> WellFormed(samples[i]) && samples[i].progress.InUnit()
    requires ProgressNonIncreasing(w, samples)
    ensures Watch(AsWritten, w, samples).refreshes + QuarterBucket(Watch(AsWritten, w, samples).watcher.preProgress)
            <= QuarterBucket(w.preProgress)
    decreases |samples|
  {
    if |samples| > 0 {
      var r := OnProgressChanged(AsWritten, w, Some(samples[0]));
      QuarterBucketMonotone(samples[0].progress, w.preProgress);
      assert ProgressNonIncreasing(r.watcher, samples[1..]);
      RefreshesBoundedByBucket(r.watcher, samples[1..]);
    }
  }

  /** As written, from the handler's initial state a run of falling
      progress in [0, 1] refreshes the icon at most four times. */
  lemma AtMostFourRefreshes(samples: seq<ModuleView>)
    requires forall i :: 0 <= i < |samples| ==> WellFormed(samples[i]) && samples[i].progress.InUnit()
    requires ProgressNonIncreasing(InitialWatcher, samples)
    ensures Watch(AsWritten, InitialWatcher, samples).refreshes <= 4
  {
    RefreshesBoundedByBucket(InitialWatcher, samples);
  }

  /** The four-refresh run: Work samples at 0.9, 0.7, 0.4 and 0.1 after the
      initial state refresh four times as written, although the icon
      changes only three times (100 -> 75 -> 50 -> 25). */
  lemma FourRefreshesAsWritten()
    ensures var samples := [ModuleView(Ratio(9, 10), 60000, false, Work),
                            ModuleView(Ratio(7, 10), 60000, false, Work),
                            ModuleView(Ratio(4, 10), 60000, false, Work),
                            ModuleView(Ratio(1, 10), 60000, false, Work)];
            Watch(AsWritten, InitialWatcher, samples).refreshes == 4
            && Watch(AsIntended, InitialWatcher, samples).refreshes == 3
  {
    var samples := [ModuleView(Ratio(9, 10), 60000, false, Work),
                    ModuleView(Ratio(7, 10), 60000, false, Work),
                    ModuleView(Ratio(4, 10), 60000, false, Work),
                    ModuleView(Ratio(1, 10), 60000, false, Work)];
    assert QuarterBucket(One) == 4;
    assert QuarterBucket(Ratio(9, 10)) == 3;
    assert QuarterBucket(Ratio(7, 10)) == 2;
    assert QuarterBucket(Ratio(4, 10)) == 1;
    assert QuarterBucket(Ratio(1, 10)) == 0;
  }

  /** As intended, while progress only goes down, the tray icon is
      refreshed at most once per quarter: each refresh moves to an
      emptier icon. */
  lemma {:induction false} RefreshesBoundedByFill(w: Watcher, samples: seq<ModuleView>)
    requires w.preProgress.den > 0
    requires forall i :: 0 <= i < |samples| ==> WellFormed(samples[i])
    requires ProgressNonIncreasing(w, samples)
    ensures Watch(AsIntended, w, samples).refreshes + Fill(WorkIcon(Watch(AsIntended, w, samples).watcher.preProgress))
            <= Fill(WorkIcon(w.preProgress))
    decreases |samples|
  {
    if |samples| > 0 {
      var r := OnProgressChanged(AsIntended, w, Some(samples[0]));
      WorkIconMonotone(samples[0].progress, w.preProgress);
      assert ProgressNonIncreasing(r.watcher, samples[1..]);
      RefreshesBoundedByFill(r.watcher, samples[1..]);
    }
  }

  /** As intended, from the handler's initial state a run of falling
      progress refreshes the icon at most three times. */
  lemma AtMostThreeRefreshes(samples: seq<ModuleView>)
    requires forall i :: 0 <= i < |samples| ==> WellFormed(samples[i])
    requires ProgressNonIncreasing(InitialWatcher, samples)
    ensures Watch(AsIntended, InitialWatcher, samples).refreshes <= 3
  {
    RefreshesBoundedByFill(InitialWatcher, samples);
    assert WorkIcon(One) == Full;
  }

  /* ---------------------------------------------------------------- */
  /* Tray menu                                                         */
  /* ---------------------------------------------------------------- */

  datatype MenuAction = RestNow | Exit | Ignore

  /** _trayIcon_MenuItemExecute: item 1 is "rest now", item 2 closes the
      window, any other id does nothing. */
  function MenuItemAction(id: int): (a: MenuAction)
    ensures a == RestNow <==> id == 1
    ensures a == Exit <==> id == 2
  {
    if id == 1 then RestNow else if id == 2 then Exit else Ignore
  }

  /** Menu item 1 starts a rest only during Work; otherwise the engine is
      left as it is. */
  function MenuItemExecute(m: Option<EyeshadeModule.Module>, id: int): (r: Option<EyeshadeModule.Module>)
    requires m.Some? ==> EyeshadeModule.Valid(m.value)
    ensures r.Some? <==> m.Some?
    ensures m.Some? && !(id == 1 && m.value.state == Work) ==> r == m
    ensures m.Some? && id == 1 && m.value.state == Work ==>
      r.value.state == Resting && r.value.timer.remaining == m.value.config.restingTime
      && !r.value.userPaused && EyeshadeModule.Valid(r.value)
  {
    match m
    case None => None
    case Some(engine) =>
      if MenuItemAction(id) == RestNow && engine.state == Work then
        match EyeshadeModule.Rest(engine)
        case Ok(step) => Some(step.after)
        case Err(_) => m
      else m
  }
}
