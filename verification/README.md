# Eyeshade work/rest engine in Dafny

Eyeshade is a Windows tray utility that alternates a Work phase and a
Resting phase and reminds the user to rest their eyes. This project models
its countdown engine and the pure decision logic around it as
state-transition functions over integer milliseconds.

- **Current generation.** `CountdownTimer` is a tick-driven countdown with Reset, Change, Defer, Pause, Resume and a 1000 ms tick. `EyeshadeModule` is the Work/Resting state machine built on it. It has two independent pause flags, user and smart, and validated setters. Its settings are `EyeshadeUserConfig`.
- **Older generation.** `AlarmClockModule` keeps wall-clock bookkeeping: the remaining time is `dueTime - (now - startTime)`. It schedules progress notices adaptively at the 75 %, 50 % and 25 % marks and 10 s before expiry. Its settings are `AlarmClockConfig`.
- **Satellites.**
  - The idle detector (`UserActivityMonitor`).
  - The launcher-path parsing behind "start with Windows".
  - The home page's countdown display (`HomeData`, `ReadData`).
  - The main window's tray-icon choice, icon refresh and popup edges, and tray menu.

Every operation returns its new state together with the events it raises,
in order. Timers are reduced to flags: `armed` for the countdown, and
scheduled delays as events. The clock (`now`), the user's absence time and
the display-required flag are parameters. An operation that throws in the
source returns `Err`.

Files: `wrappers.dfy` (Option, Result), `basics.dfy` (phases, progress
ratios, C# integer division), then one file per source component.

## Model

| member | source | states |
|---|---|---|
| Basics.Flip | src/Eyeshade/Modules/AlarmClockModule.cs:234 | a completed phase always switches to the other phase |
| CountdownTimer.InitialIsValid | src/Eyeshade/FuncModule/CountdownTimer.cs:20-35 | a fresh timer (total 1000 ms, nothing remaining, not paused) satisfies the invariant `total >= 1000 && 0 <= remaining <= total` and counts as completed |
| CountdownTimer.Progress | src/Eyeshade/FuncModule/CountdownTimer.cs:55-66 | for a valid timer progress lies in [0, 1]; it is 0 exactly when the timer is completed and 1 exactly when nothing has elapsed |
| CountdownTimer.CompletedMeansZero | src/Eyeshade/FuncModule/CountdownTimer.cs:71 | under the invariant, IsCompleted holds exactly when remaining is 0 |
| CountdownTimer.Reset | src/Eyeshade/FuncModule/CountdownTimer.cs:94-106 | rejects a total below 1000 ms; otherwise total and remaining both become the new total and the timer ends paused exactly when forcePause is set; IsPausedChanged is raised exactly when the pause flag flips; the result is valid and not completed |
| CountdownTimer.Change | src/Eyeshade/FuncModule/CountdownTimer.cs:112-121 | rejects a total below 1000 ms; otherwise sets the total, cuts remaining down to it (min of the two) and leaves pausing untouched, keeping the invariant |
| CountdownTimer.Retotal | src/Eyeshade/FuncModule/CountdownTimer.cs:116-120 | Change past its argument check: new total, remaining min(old remaining, new total), pause state unchanged |
| CountdownTimer.Defer | src/Eyeshade/FuncModule/CountdownTimer.cs:127-143 | remaining becomes max(1000, min(total, remaining + value)), so it lies in [1000, total] for every value, negative ones included; a running timer is re-armed, a paused one stays paused |
| CountdownTimer.Pause | src/Eyeshade/FuncModule/CountdownTimer.cs:154-162 | accepted exactly when not paused; a refused call changes nothing and raises nothing; an accepted one stops the timer and raises IsPausedChanged once; the timer always ends paused |
| CountdownTimer.Resume | src/Eyeshade/FuncModule/CountdownTimer.cs:167-175 | as written: refused exactly when not paused and nothing remains; every other call, a running timer's included, un-pauses, re-arms and raises IsPausedChanged |
| CountdownTimer.ResumeAsDocumented | src/Eyeshade/FuncModule/CountdownTimer.cs:164-166 | accepted exactly when paused with time remaining; IsPausedChanged is raised exactly when the pause flag flips |
| CountdownTimer.Tick | src/Eyeshade/FuncModule/CountdownTimer.cs:184-197 | above 1000 ms remaining drops by exactly 1000 and progress is reported; otherwise remaining becomes 0, the timer stops and Completed is raised; the invariant is kept |
| CountdownTimer.PauseIsIdempotent | src/Eyeshade/FuncModule/CountdownTimer.cs:154-162 | a second Pause changes nothing and raises nothing |
| CountdownTimer.PauseThenResumeRestores | src/Eyeshade/FuncModule/CountdownTimer.cs:154-175 | pausing a running timer and resuming it with Resume as written is accepted and gives back exactly the same timer, with one IsPausedChanged per flip, whatever time remains; the documented Resume does the same while time remains |
| CountdownTimer.ResumeAsDocumentedIsIdempotent | src/Eyeshade/FuncModule/CountdownTimer.cs:164-166 | a second documented Resume changes nothing and raises nothing |
| CountdownTimer.ResumeOfRunningTimerRaisesSpuriousEvent | src/Eyeshade/FuncModule/CountdownTimer.cs:167-175 | the as-written Resume of a running timer with 5 s left is accepted and raises IsPausedChanged although the flag does not change |
| CountdownTimer.ResumeAsWrittenCompletesTwice | src/Eyeshade/FuncModule/CountdownTimer.cs:167-197 | the as-written Resume on a completed, paused timer re-arms it, and the next tick raises Completed a second time |
| CountdownTimer.ResumeAsDocumentedKeepsCompletedTimerStopped | src/Eyeshade/FuncModule/CountdownTimer.cs:164-166 | with the documented guard, pausing and resuming a completed timer leaves it stopped |
| CountdownTimer.ResumeVariantsAgree | src/Eyeshade/FuncModule/CountdownTimer.cs:164-175 | on every timer with time remaining whose running state means armed (all that EyeshadeModule reaches), both Resume variants give the same timer |
| CountdownTimer.CompletionReportedAtMostOnce | src/Eyeshade/FuncModule/CountdownTimer.cs:184-197 | over any number of ticks Completed is raised at most once, and after it the timer is stopped at 0 |
| CountdownTimer.CountsDownOneSecondPerTick | src/Eyeshade/FuncModule/CountdownTimer.cs:184-197 | from remaining r, n ticks give r - 1000n and n progress reports while n <= (r - 1)/1000; after that the timer is at 0, stopped, with exactly one completion |
| EyeshadeUserConfig.DefaultIsValid | src/Eyeshade/FuncModule/EyeshadeUserConfig.cs:29-41 | the defaults (45 min, 4 min, 20 s, volume 100) satisfy the settings bounds |
| EyeshadeUserConfig.Apply | src/Eyeshade/FuncModule/EyeshadeUserConfig.cs:52-88 | one element of the file: an unknown name changes nothing, and no element can break the duration bounds (work and rest at least 1 min, notify at least 1 s) |
| EyeshadeUserConfig.Load | src/Eyeshade/FuncModule/EyeshadeUserConfig.cs:43-95 | loading any element sequence keeps valid durations valid and never touches the auto-pause flag |
| EyeshadeUserConfig.LoadDocument | src/Eyeshade/FuncModule/EyeshadeUserConfig.cs:45-48 | a missing or rootless document keeps the current values |
| EyeshadeUserConfig.Construct | src/Eyeshade/FuncModule/EyeshadeUserConfig.cs:18-24 | the settings the constructor produces from any file are within bounds |
| EyeshadeUserConfig.Save | src/Eyeshade/FuncModule/EyeshadeUserConfig.cs:97-115 | Save writes exactly WorkTime, RestingTime, NotifyTime, RingerVolume, in that order, each with a value |
| EyeshadeUserConfig.LoadSnoc | src/Eyeshade/FuncModule/EyeshadeUserConfig.cs:50-89 | loading one more element applies it to the result of loading the others |
| EyeshadeUserConfig.LoadKeepsLastAcceptedEntry | src/Eyeshade/FuncModule/EyeshadeUserConfig.cs:50-89 | each loaded field equals the last element for its name that passes that field's check, or the prior value if none does (a backward reference definition) |
| EyeshadeUserConfig.LoadIgnoresUnknownKeys | src/Eyeshade/FuncModule/EyeshadeUserConfig.cs:86-87 | an element with any other name leaves the loaded settings unchanged |
| EyeshadeUserConfig.LoadLaterValidEntryOverrides | src/Eyeshade/FuncModule/EyeshadeUserConfig.cs:54-69 | a later in-range WorkTime or RestingTime element overrides every earlier one |
| EyeshadeUserConfig.LoadRejectsOutOfRangeEntry | src/Eyeshade/FuncModule/EyeshadeUserConfig.cs:54-77 | an unparsable duration, or one below 1 s, is ignored by all three duration fields |
| EyeshadeUserConfig.LoadAcceptsAnyVolume | src/Eyeshade/FuncModule/EyeshadeUserConfig.cs:78-85 | any parsable RingerVolume is taken, with no range check |
| EyeshadeUserConfig.SaveThenLoad | src/Eyeshade/FuncModule/EyeshadeUserConfig.cs:97-115 | loading what Save wrote takes each field if it passes its load check and keeps the base value otherwise |
| EyeshadeUserConfig.SaveThenLoadRoundTrip | src/Eyeshade/FuncModule/EyeshadeUserConfig.cs:43-115 | for settings within bounds, load after save reproduces all four saved fields |
| EyeshadeModule.Create | src/Eyeshade/FuncModule/EyeshadeModule.cs:36-46 | a new module starts in Work, unpaused, with a full work countdown; from settings within bounds it satisfies the module invariant |
| EyeshadeModule.ClearUserPauseEvents | src/Eyeshade/FuncModule/EyeshadeModule.cs:77-81 | IsUserPausedChanged is raised exactly when a user pause is cleared |
| EyeshadeModule.Work | src/Eyeshade/FuncModule/EyeshadeModule.cs:72-86 | clears the user pause (event only if it was set), restarts a full work countdown that ends paused exactly when smart-paused, keeps the smart flag, enters Work and raises StateChanged once; never fails on a valid module |
| EyeshadeModule.Rest | src/Eyeshade/FuncModule/EyeshadeModule.cs:91-105 | clears the user pause, restarts a full rest countdown running whatever the smart flag, keeps that flag, enters Resting and raises StateChanged once |
| EyeshadeModule.Defer | src/Eyeshade/FuncModule/EyeshadeModule.cs:107-111 | defers the timer, leaving remaining in [1000 ms, total] and the invariant intact |
| EyeshadeModule.UserPause | src/Eyeshade/FuncModule/EyeshadeModule.cs:113-126 | idempotent; on a flip it sets the user flag, stops the timer and raises IsUserPausedChanged; nothing else changes |
| EyeshadeModule.UserResume | src/Eyeshade/FuncModule/EyeshadeModule.cs:128-141 | idempotent; on a flip it clears the user flag and raises IsUserPausedChanged, restarting the timer (through the timer's Resume as written) only when not smart-paused |
| EyeshadeModule.SmartPause | src/Eyeshade/FuncModule/EyeshadeModule.cs:143-156 | always records the smart flag, stops the timer only in Work, raises nothing |
| EyeshadeModule.SmartResume | src/Eyeshade/FuncModule/EyeshadeModule.cs:158-170 | clears the smart flag and restarts the timer (through the timer's Resume as written) only when not user-paused, raising nothing |
| EyeshadeModule.SetWorkTime | src/Eyeshade/FuncModule/EyeshadeModule.cs:172-184 | rejects under 1 min before any change; an equal value is a no-op; otherwise saves, and changes the timer's total only in Work |
| EyeshadeModule.SetRestingTime | src/Eyeshade/FuncModule/EyeshadeModule.cs:186-198 | rejects under 1 min before any change; an equal value is a no-op; otherwise saves, and changes the timer's total only in Resting |
| EyeshadeModule.SetNotifyTime | src/Eyeshade/FuncModule/EyeshadeModule.cs:200-208 | rejects under 1 s; an equal value is a no-op; otherwise only the setting changes, and it is saved |
| EyeshadeModule.SetRingerVolume | src/Eyeshade/FuncModule/EyeshadeModule.cs:210-216 | rejects a volume outside [0, 100]; otherwise stores and saves it, even when equal |
| EyeshadeModule.SetAutoPauseWhenUserLeave | src/Eyeshade/FuncModule/EyeshadeModule.cs:218-224 | an equal value is a no-op; otherwise stores and saves it |
| EyeshadeModule.CountdownCompleted | src/Eyeshade/FuncModule/EyeshadeModule.cs:258-269 | on completion the phase flips, with the new phase's full duration and a StateChanged event |
| EyeshadeModule.Tick | src/Eyeshade/FuncModule/EyeshadeModule.cs:258-274 | a tick either forwards the timer's progress or completes the phase, flipping it; the module invariant is kept |
| EyeshadeModule.Progress | src/Eyeshade/FuncModule/EyeshadeModule.cs:56 | for a valid module, progress lies in (0, 1] |
| EyeshadeModule.ExecutePreservesValid | src/Eyeshade/FuncModule/EyeshadeModule.cs:72-224 | on a valid module a command fails exactly when its argument is out of range, and every accepted command keeps the module invariant |
| EyeshadeModule.RunPreservesValid | src/Eyeshade/FuncModule/EyeshadeModule.cs:72-224 | over any command sequence, rejected ones included, the invariant holds and a user pause always means a stopped timer |
| EyeshadeModule.UserPauseTwiceRaisesOnce | src/Eyeshade/FuncModule/EyeshadeModule.cs:113-126 | two user pauses give the same module as one and raise one event in all |
| EyeshadeModule.UserResumeTwiceRaisesOnce | src/Eyeshade/FuncModule/EyeshadeModule.cs:128-141 | two user resumes give the same module as one and raise one event in all |
| EyeshadeModule.SmartPauseOutlastsUserResume | src/Eyeshade/FuncModule/EyeshadeModule.cs:113-170 | in Work, smart pause then user pause and user resume leave the timer stopped; only the smart resume restarts it, with the time it had |
| EyeshadeModule.SmartPauseDuringRestBlocksUserResume | src/Eyeshade/FuncModule/EyeshadeModule.cs:128-156 | in Resting a smart pause does not stop the timer, but after a user pause a user resume no longer restarts it; the smart resume does |
| EyeshadeModule.SmartPauseDuringRestAppliesAtWork | src/Eyeshade/FuncModule/EyeshadeModule.cs:83 | a smart pause recorded in Resting makes the next Work start paused |
| EyeshadeModule.WorkCompletesIntoRest | src/Eyeshade/FuncModule/EyeshadeModule.cs:258-264 | the last tick of Work gives Resting with the configured rest time, raising StateChanged once |
| LauncherPath.TrimStart | src/Eyeshade/FuncModule/EyeshadeModule.cs:332 | the result is a suffix of the input, every dropped character is white space, and the result does not start with white space |
| LauncherPath.TrimEnd | src/Eyeshade/FuncModule/EyeshadeModule.cs:332 | the result is a prefix of the input, every dropped character is white space, and the result does not end with white space |
| LauncherPath.IndexOf | src/Eyeshade/FuncModule/EyeshadeModule.cs:340 | returns the first position at or after `from` holding the character, or -1 when there is none |
| LauncherPath.FirstField | src/Eyeshade/FuncModule/EyeshadeModule.cs:343 | the result is the longest space-free prefix: `Split(' ')[0]` |
| LauncherPath.ParseLauncher | src/Eyeshade/FuncModule/EyeshadeModule.cs:337-343 | an unquoted value names its first field; a quoted one names the non-empty text up to the closing quote, and names nothing exactly when there is no closing quote or the quoted text is empty |
| LauncherPath.RunValue | src/Eyeshade/FuncModule/EyeshadeModule.cs:305 | the stored value starts with a quote |
| LauncherPath.SetIsStartWithSystem | src/Eyeshade/FuncModule/EyeshadeModule.cs:276-311 | an empty launcher path is an argument error; the registry is left alone when it already says the wanted thing, otherwise the value is written or deleted |
| LauncherPath.LauncherFromLocation | src/Eyeshade/FuncModule/EyeshadeModule.cs:226-236 | no launcher for an empty location; a path ending in `.dll` (any case) gets `.exe` instead; any other path is kept |
| LauncherPath.RunValueIsTrimmed | src/Eyeshade/FuncModule/EyeshadeModule.cs:305-332 | the value written has no surrounding white space, so Trim leaves it intact |
| LauncherPath.ParseRunValue | src/Eyeshade/FuncModule/EyeshadeModule.cs:305-343 | reading back the written value gives the launcher path again (for a non-empty path without quotes) |
| LauncherPath.SetThenGet | src/Eyeshade/FuncModule/EyeshadeModule.cs:276-346 | after setting start-with-system to a value, reading it gives that value |
| LauncherPath.UnquotedValueNamesFirstField | src/Eyeshade/FuncModule/EyeshadeModule.cs:343 | a stored value without a leading quote names its non-empty first field |
| AlarmClock.ApplyEntry | src/Eyeshade/Modules/AlarmClockModule.cs:383-403 | one element of the older file: any other name (NotifyTime included) changes nothing, and the 1 min bounds are kept |
| AlarmClock.LoadConfig | src/Eyeshade/Modules/AlarmClockModule.cs:374-410 | loading keeps work and rest at least 1 min |
| AlarmClock.LoadConfigDocument | src/Eyeshade/Modules/AlarmClockModule.cs:376-379 | a missing or rootless document keeps the current values |
| AlarmClock.SaveConfig | src/Eyeshade/Modules/AlarmClockModule.cs:412-429 | Save writes WorkTime, RestingTime, RingerVolume with their values, in that order |
| AlarmClock.LoadGenerationsAgree | src/Eyeshade/Modules/AlarmClockModule.cs:374-410 | the older loader gives the same shared fields as the current one on every document: it is the current one with NotifyTime dropped |
| AlarmClock.SaveThenLoadConfig | src/Eyeshade/Modules/AlarmClockModule.cs:374-429 | for settings within bounds, load after save reproduces them |
| AlarmClock.RemainingTime | src/Eyeshade/Modules/AlarmClockModule.cs:50-63 | frozen at the due time while paused; otherwise remaining plus the time elapsed since arming equals the due time |
| AlarmClock.Progress | src/Eyeshade/Modules/AlarmClockModule.cs:64-72 | 1 for a zero total, otherwise remaining / total with a positive denominator |
| AlarmClock.NextProgressDelay | src/Eyeshade/Modules/AlarmClockModule.cs:246-261 | nothing is scheduled exactly when the total is zero; a scheduled delay is at least 1 s |
| AlarmClock.MarkIndex | src/Eyeshade/Modules/AlarmClockModule.cs:254-258 | one of five marks (75 %, 50 %, 25 %, 10 s, expiry) is aimed at |
| AlarmClock.ProgressDelayTargetsNextMark | src/Eyeshade/Modules/AlarmClockModule.cs:254-260 | the notice aims at the first mark below the remaining time; it fires once that mark is reached and, unless the 1 s floor applies, less than 1 ms past it |
| AlarmClock.ProgressDelayNotAfterExpiry | src/Eyeshade/Modules/AlarmClockModule.cs:254-260 | the notice is never later than expiry unless the 1 s floor applies |
| AlarmClock.ProgressDelayAdvancesMark | src/Eyeshade/Modules/AlarmClockModule.cs:254-260 | for a phase of at least 1 min, waiting for the notice lands on a strictly later mark, and every earlier mark is already behind |
| AlarmClock.Schedule | src/Eyeshade/Modules/AlarmClockModule.cs:246-260 | re-arming the progress timer schedules exactly one notice, unless the total is zero |
| AlarmClock.AtMostFourNoticesPerPhase | src/Eyeshade/Modules/AlarmClockModule.cs:246-272 | an undisturbed phase of at least 1 min raises at most four progress notices, one per mark |
| AlarmClock.RemainingWithinTotal | src/Eyeshade/Modules/AlarmClockModule.cs:50-72 | for a valid clock before its due time, remaining lies in [0, total] and progress in [0, 1] |
| AlarmClock.Create | src/Eyeshade/Modules/AlarmClockModule.cs:32-43 | a new clock is in Work, running, with a full work countdown and one scheduled notice |
| AlarmClock.Retotal | src/Eyeshade/Modules/AlarmClockModule.cs:88-103 | SetTotalTime past its check: new total, remaining min(old remaining, new total) at the same instant, a running clock re-armed and its notice rescheduled |
| AlarmClock.SetTotalTime | src/Eyeshade/Modules/AlarmClockModule.cs:84-104 | rejects under 1 min; otherwise the total changes and the remaining time at that instant is kept, cut down to the new total |
| AlarmClock.Defer | src/Eyeshade/Modules/AlarmClockModule.cs:106-129 | remaining becomes max(1 min, min(total, remaining + value)); a running clock is re-armed now, a paused one only has its due time updated |
| AlarmClock.Expire | src/Eyeshade/Modules/AlarmClockModule.cs:232-244 | as written: the phase flips to the configured duration of the new phase and the expiry timer is armed even when paused |
| AlarmClock.ExpireAsIntended | src/Eyeshade/Modules/AlarmClockModule.cs:232-244 | the phase flips as in Expire, but the timers are armed only when not paused; the clock invariant is kept |
| AlarmClock.ExpireVariantsAgree | src/Eyeshade/Modules/AlarmClockModule.cs:232-244 | on a running clock, the only kind the expiry timer fires on, both variants agree |
| AlarmClock.ExpireWhilePausedKeepsCounting | src/Eyeshade/Modules/AlarmClockModule.cs:232-244 | as written, a forced phase change while paused gives a clock that shows a frozen full countdown but has its expiry timer running, and one phase later the phase flips back without a resume |
| AlarmClock.WorkOrRest | src/Eyeshade/Modules/AlarmClockModule.cs:131-135 | as written: the forced phase change flips the phase to the configured duration of the new phase, keeps the pause flag and arms the expiry timer even while paused; it keeps the clock invariant for a running clock and breaks it for a paused one |
| AlarmClock.Pause | src/Eyeshade/Modules/AlarmClockModule.cs:137-148 | idempotent; otherwise freezes the remaining time, stops both timers and raises ProgressCancelled then IsPausedChanged(true) |
| AlarmClock.Resume | src/Eyeshade/Modules/AlarmClockModule.cs:150-162 | idempotent; otherwise re-arms now with the frozen remaining time, reschedules the notice, then raises IsPausedChanged(false) |
| AlarmClock.SetWorkTime | src/Eyeshade/Modules/AlarmClockModule.cs:164-176 | rejects under 1 min; an equal value is a no-op; otherwise saves, and retotals only in Work |
| AlarmClock.SetRestingTime | src/Eyeshade/Modules/AlarmClockModule.cs:178-190 | rejects under 1 min; an equal value is a no-op; otherwise saves, and retotals only in Resting |
| AlarmClock.SetRingerVolume | src/Eyeshade/Modules/AlarmClockModule.cs:192-198 | rejects only a negative volume; otherwise stores and saves |
| AlarmClock.ProgressFired | src/Eyeshade/Modules/AlarmClockModule.cs:263-272 | reports the progress last, after rescheduling exactly when progress > 25 % or more than 10 s remain |
| AlarmClock.NoDriftAcrossPause | src/Eyeshade/Modules/AlarmClockModule.cs:50-63 | a paused clock shows the remaining time of the pause instant; after the resume it runs down from there, so exactly the paused interval is excluded |
| AlarmClock.PauseResumeIdempotent | src/Eyeshade/Modules/AlarmClockModule.cs:137-162 | a repeated Pause or Resume changes nothing and raises nothing |
| AlarmClock.DefaultScheduleScenario | src/Eyeshade/Modules/AlarmClockModule.cs:246-272 | with the default 45 min, the first notice is due after 11.25 min and reports progress 3/4, scheduling the next one 11.25 min later |
| AlarmClock.ExpiryFromWork | src/Eyeshade/Modules/AlarmClockModule.cs:232-244 | Work expires into Resting with the rest duration, one notice scheduled and StateChanged(Resting) |
| UserActivityMonitor.Start | src/Eyeshade/UserActivity/UserActivityMonitor.cs:60-63 | starting makes the first check due immediately, leaving the flag |
| UserActivityMonitor.Detect | src/Eyeshade/UserActivity/UserActivityMonitor.cs:76-99 | the user counts as away exactly at or above 4 min of absence; UserLeave is raised only on the present-to-away edge, then polling is every second; UserBack only on the away-to-present edge; below the limit the next check is due exactly when the absence could reach it, a positive delay |
| UserActivityMonitor.Observe | src/Eyeshade/UserActivity/UserActivityMonitor.cs:76-99 | over a run of checks, at most one signal per check |
| UserActivityMonitor.SignalsAlternate | src/Eyeshade/UserActivity/UserActivityMonitor.cs:46-99 | over any run of checks UserLeave and UserBack strictly alternate, starting away from the initial flag, and IsUserLeave ends as the last signal's target |
| UserActivityMonitor.LastSampleDecides | src/Eyeshade/UserActivity/UserActivityMonitor.cs:79-98 | after a non-empty run the flag depends on the last absence sample alone |
| UserActivityMonitor.ObservePreservesValid | src/Eyeshade/UserActivity/UserActivityMonitor.cs:79-98 | a started monitor always stays armed: polling every second exactly while the user is away, otherwise one pending check |
| UserActivityMonitor.LeaveAndBackScenario | src/Eyeshade/UserActivity/UserActivityMonitor.cs:76-99 | 3 min idle schedules the next check in 1 min; 4 min raises UserLeave; more idle raises nothing; input again raises UserBack |
| HomePage.Countdown | src/Eyeshade/Views/HomePage.xaml.cs:256-266 | whole minutes (at least 1) above one minute; whole seconds up to a minute, truncated toward zero |
| HomePage.CountdownUnit | src/Eyeshade/Views/HomePage.xaml.cs:268-281 | minutes-and-seconds exactly above one minute, with the seconds in [0, 59]; seconds only otherwise |
| HomePage.CountdownReconstructs | src/Eyeshade/Views/HomePage.xaml.cs:261-274 | above a minute, 60000 m + 1000 s <= r < 60000 m + 1000 s + 1000 for the shown minutes m and seconds s |
| HomePage.StateTitle | src/Eyeshade/Views/HomePage.xaml.cs:329-335 | the work title exactly in Work, the resting title exactly in Resting |
| HomePage.ProgressValue | src/Eyeshade/Views/HomePage.xaml.cs:151 | the bar value lies in [0, 100]: 0 for no progress, 100 for full, the floor of the percentage in between |
| HomePage.SetRemainingMilliseconds | src/Eyeshade/Views/HomePage.xaml.cs:240-254 | stores the value; notifies nothing exactly when it is unchanged, otherwise itself, Countdown and CountdownUnit |
| HomePage.SetCountdownProgressValue | src/Eyeshade/Views/HomePage.xaml.cs:283-295 | stores the value; notifies itself only on a change |
| HomePage.SetIsUserPaused | src/Eyeshade/Views/HomePage.xaml.cs:297-309 | stores the value; notifies itself only on a change |
| HomePage.SetEyeshadeState | src/Eyeshade/Views/HomePage.xaml.cs:311-325 | stores the value; notifies nothing exactly when unchanged, otherwise itself, StateTitle and IsResting |
| HomePage.SettersNotifyExactly | src/Eyeshade/Views/HomePage.xaml.cs:240-327 | every binding whose shown value a setter changes is notified, and a setter notifies only when the data changes |
| HomePage.ViewOf | src/Eyeshade/FuncModule/EyeshadeModule.cs:55-59 | what the page reads from a valid engine: progress in [0, 1], remaining in (0, total] |
| HomePage.ReadData | src/Eyeshade/Views/HomePage.xaml.cs:145-153 | the page ends up showing the engine's remaining time, clamped progress, user pause and state |
| HomePage.ReadDataNotifiesExactly | src/Eyeshade/Views/HomePage.xaml.cs:145-153 | ReadData leaves no binding stale, and reading the same engine state again notifies nothing |
| HomePage.ReadDataShowsPercentage | src/Eyeshade/Views/HomePage.xaml.cs:151 | for a valid engine the bar shows the floor of 100 * remaining / total |
| MainWindow.WorkIcon | src/Eyeshade/MainWindow.xaml.cs:217-220 | the work icon holds max(1, min(4, ceil(4p))) quarters: one more quarter for each of 1/4, 1/2, 3/4 the progress strictly exceeds |
| MainWindow.CurrentStateTrayIcon | src/Eyeshade/MainWindow.xaml.cs:207-224 | the 100 icon without an engine; the pause icon exactly when paused; the resting icon exactly when resting and not paused; the work icon for the progress otherwise |
| MainWindow.WorkIconMonotone | src/Eyeshade/MainWindow.xaml.cs:217-220 | less progress never selects a fuller icon |
| MainWindow.QuarterBucket | src/Eyeshade/MainWindow.xaml.cs:182 | the truncated quarter count lies in [0, 4] for progress in [0, 1], and is the floor of 4p |
| MainWindow.BucketTestMissesExactQuarter | src/Eyeshade/MainWindow.xaml.cs:182 | at 2026 s then 2025 s of 2700 s the icon changes from 100 to 75, but both samples truncate to three quarters, so the as-written test skips the refresh |
| MainWindow.IconChangedMeansNewIcon | src/Eyeshade/MainWindow.xaml.cs:182-185 | the corrected refresh test holds exactly when the icon shown in Work changes |
| MainWindow.QuarterBucketMonotone | src/Eyeshade/MainWindow.xaml.cs:182 | for progress in [0, 1], less progress never has more whole quarters |
| MainWindow.OnProgressChanged | src/Eyeshade/MainWindow.xaml.cs:173-200 | does nothing without an engine; in Work refreshes the icon exactly when the truncated quarter count changes (rule AsWritten; rule AsIntended: exactly when the work icon changes), and never outside Work; pops up exactly in Work on the edge from above 10 s to at most 10 s; always remembers the sample |
| MainWindow.Watch | src/Eyeshade/MainWindow.xaml.cs:173-200 | over a run of notices, at most one refresh and one popup per notice; the remembered progress is the last sample's |
| MainWindow.PopupAtMostOnce | src/Eyeshade/MainWindow.xaml.cs:188-199 | while the remaining time only goes down the window pops up at most once, and never when the remembered sample was already at most 10 s |
| MainWindow.RefreshesBoundedByBucket | src/Eyeshade/MainWindow.xaml.cs:180-186 | as written, while progress in [0, 1] only goes down each refresh lowers the quarter count, so the refreshes plus the final count never exceed the initial count |
| MainWindow.AtMostFourRefreshes | src/Eyeshade/MainWindow.xaml.cs:46-47 | as written, from the initial remembered progress 1, falling progress in [0, 1] refreshes the icon at most four times |
| MainWindow.FourRefreshesAsWritten | src/Eyeshade/MainWindow.xaml.cs:180-186 | Work samples 0.9, 0.7, 0.4, 0.1 after the initial state refresh four times as written but only three times under the icon comparison, so the bound of four is reached |
| MainWindow.RefreshesBoundedByFill | src/Eyeshade/MainWindow.xaml.cs:180-186 | with the corrected icon comparison, while progress only goes down each refresh moves to an emptier icon, so the refreshes plus the final fill never exceed the initial fill |
| MainWindow.AtMostThreeRefreshes | src/Eyeshade/MainWindow.xaml.cs:46-47 | with the corrected icon comparison, from the initial remembered progress 1 falling progress refreshes the icon at most three times, once per icon change |
| MainWindow.MenuItemAction | src/Eyeshade/MainWindow.xaml.cs:334-351 | item 1 is rest-now, item 2 is exit, any other id does nothing |
| MainWindow.MenuItemExecute | src/Eyeshade/MainWindow.xaml.cs:336-343 | item 1 starts a rest only in Work, giving a valid Resting engine with a full rest countdown; otherwise the engine is left as it is |

## Left out

- Threads and timers are not modelled as running code. Instead, arming is a flag and scheduled delays are events. Expiry, ticks and progress fires are explicit calls.
- I/O and foreign calls are out: the XML settings files, the registry, logging, media playback, and all Win32/WinUI window, tray and DPI code. Registry contents, parsed settings elements, the absence time and the display-required flag are inputs.
- TimeSpan parsing and formatting are out. A settings element is its name plus the parsed millisecond value, or nothing when it does not parse.
- Time has millisecond resolution. DateTime's 100 ns ticks and `Math.Ceiling` of fractional milliseconds are not modelled.
- Progress is an exact fraction, not a double. Rounding in `remaining / total`, `progress / 0.25` and `100 * progress` is not modelled.
- CountdownTimer.Defer: does not model the 32-bit wrap-around of `remaining + value`, which needs a total near 24.8 days.
- The tick-count wrap-around behind the absence time (after 49.7 days of uptime) is not modelled, because the absence time is an input.
- LauncherPath.SetIsStartWithSystem: the case-insensitive path comparison (OrdinalIgnoreCase) is modelled as exact equality. `Trim` removes only the ASCII white-space characters, not every Unicode one.
- The PropertyChanged event, the command bar's labels and icons, and the window-showing code are reduced to the notified property names and popup and refresh flags.
- No source file subscribes to UserActivityMonitor's `UserLeave` and `UserBack` events, so the model does not connect them to EyeshadeModule.SmartPause and EyeshadeModule.SmartResume. Both are modelled as operations that any caller may invoke.
- `EyeshadeModule.cs` calls `Reset(ms, forcePause)`, but `CountdownTimer.Reset` (`CountdownTimer.cs:94`) takes the one parameter `totalTime`. The model takes `forcePause` to mean that the timer ends paused exactly when it is set.
- `EyeshadeModule.cs` calls a two-argument settings constructor and reads `AutoPauseWhenUserLeave`. `EyeshadeUserConfig.cs` declares a one-argument constructor and no such property. The model's settings record carries the flag, default true. Load and Save leave it alone, because `EyeshadeUserConfig.cs` neither reads nor writes it.
- EyeshadeModule.SetWorkTime: does not model the `(int)` cast of the new duration in milliseconds (`EyeshadeModule.cs:182`). Durations are unbounded integers, so a value of 2^31 ms (about 24.9 days) or more, which the source would turn into an out-of-range timer argument, is taken as it is.
- EyeshadeModule.SetRestingTime: does not model the `(int)` cast at `EyeshadeModule.cs:196`, for the same reason.
- EyeshadeModule.Create: does not model the `(int)` cast of the work time at `EyeshadeModule.cs:45`, for the same reason.
- EyeshadeModule.Work: does not model the `(int)` cast of the work time at `EyeshadeModule.cs:83`, for the same reason.
- EyeshadeModule.Rest: does not model the `(int)` cast of the resting time at `EyeshadeModule.cs:102`, for the same reason.
- AlarmClock.NextProgressDelay: does not model the `(int)` cast of the delay at `AlarmClockModule.cs:260`; a delay of 2^31 ms or more is kept as it is.
- AlarmClock.Retotal, AlarmClock.SetTotalTime and AlarmClock.Defer: the clock is read once per operation. The source reads `DateTime.Now` twice, once for the remaining time and once for the new start (`AlarmClockModule.cs:88` and `101`, `108` and `126`), so the model drops the few milliseconds between the two reads.
- EyeshadeModule.Defer: takes the deferral in whole milliseconds. The `(int)` cast of `TimeSpan.TotalMilliseconds` at `EyeshadeModule.cs:110`, which truncates a fractional millisecond and cannot hold 2^31 ms or more, is not modelled. The caller passes whole minutes (`HomePage.xaml.cs:202`).
- EyeshadeModule.Execute: a DoTick on a stopped timer changes nothing, because the source's tick comes only from a running timer.
- MainWindow reads `IsPaused` from the older API. It is an input of the icon choice.

Facts about the code that the model keeps as they are:
- The current generation's Defer floor is 1 s, while the older one's is 1 min.
- In both generations a RingerVolume read from the settings file is taken without a range check (`EyeshadeUserConfig.Load`, and `AlarmClock.LoadConfig` at `AlarmClockModule.cs:397-403`). Only the setters check it: the current generation's `EyeshadeModule.SetRingerVolume` requires [0, 100], while the older `AlarmClock.SetRingerVolume` rejects only negative values (`AlarmClockModule.cs:192`).
- Below 10 s the older generation schedules no further progress notice. The expiry alone ends the phase.
- A smart pause is recorded in both phases but stops the timer only in Work. It then delays a user resume during Resting (`SmartPauseDuringRestBlocksUserResume`).

## Findings

| source | as written | input that shows it | evidently intended | confidence | as-written member | corrected member |
|---|---|---|---|---|---|---|
| src/Eyeshade/FuncModule/CountdownTimer.cs:164-175 | Resume refuses only when not paused AND nothing remains | a running timer with 5 s left: Resume is accepted and raises IsPausedChanged; a completed timer that was paused: Resume re-arms it and the next tick completes it again | refuse when not paused OR nothing remains, as the doc comment says | medium, not executed | CountdownTimer.Resume | CountdownTimer.ResumeAsDocumented |
| src/Eyeshade/Modules/AlarmClockModule.cs:232-244 | CountdownCallback (and so WorkOrRest) re-arms the expiry timer and schedules a notice even while paused | WorkOrRest on a paused clock: it stays paused, showing a full frozen countdown, yet expires again one phase later | arm the timers only when not paused, as Pause, Resume, SetTotalTime and Defer do | medium, not executed | AlarmClock.Expire | AlarmClock.ExpireAsIntended |
| src/Eyeshade/MainWindow.xaml.cs:180-186 | the icon is refreshed when the truncated quarter count changes, but the icon is chosen with strict comparisons | 2026000 then 2025000 ms of a 2700000 ms phase: the icon should go from 100 to 75, yet both samples count 3 quarters, so the refresh comes one notice late; samples 0.9, 0.7, 0.4, 0.1 refresh four times for three icon changes | refresh whenever the chosen icon changes | high, not executed | MainWindow.BucketTestMissesExactQuarter | MainWindow.AtMostThreeRefreshes |
