# mac-timer core, modelled in Dafny

A model of the core of a desktop countdown/interval timer. The timer has two
interchangeable modes:

- a **basic** countdown with the states Idle, Running, Paused and Finished;
- a **pomodoro** scheduler that cycles through Work, ShortBreak and LongBreak
  phases and counts completed work sessions.

Around the two timer state machines sit:

- the tagged union that holds the live timer;
- the render-ready snapshot projected from it;
- the `do_*` commands that act on it;
- the decision that the once-a-second tick driver takes;
- two front-end helpers: the TypeScript `formatDisplay` and `getNotificationMessage`.

Modules follow the source files:

| module | file | models |
|---|---|---|
| `Timer` | timer.dfy | `src-tauri/src/timer.rs`: `TimerStatus`, `BasicTimer` (a class whose methods update its fields in place), `display` |
| `Pomodoro` | pomodoro.dfy | `src-tauri/src/pomodoro.rs`: `Phase`, `PhaseTransition`, `PomodoroConfig` and its default, `PomodoroTimer` (a class), `display`, `session_display`, `tray_title` |
| `Commands` | commands.dfy | `src-tauri/src/commands.rs`: `ActiveTimer`, `AppState::default`, `TimerSnapshot::from_*`, the `do_*` functions |
| `Runner` | runner.dfy | the decision logic of `tick_once` and the overlay/notification routing test in `src-tauri/src/runner.rs` |
| `TimerUi` | timer_ui.dfy | `formatDisplay` in `src/timer-ui.ts` |
| `Notification` | notification.dfy | `getNotificationMessage` in `src/notification.ts` |
| `Text`, `Numeric`, `Wrappers` | text.dfy, numeric.dfy, wrappers.dfy | decimal formatting (`{}`, `{:02}`, `String(n)`, `padStart`), `join`, `u32`, `saturating_sub`, `is_multiple_of`, `Option` |

Each timer class has fields that mirror the Rust struct. A `State()` function
projects those fields onto a value datatype (`BasicState`, `PomodoroState`).
Pure transition functions on that value are the specification:
`AfterTick`, `AfterStart`, `AfterPause`, `AfterReset`, `AfterSetDuration`.
Every method ensures that its new `State()` is the transition function applied
to the old one. The lemmas then prove the source's promises about those
functions.

Display strings are checked against a reference reader. `Text.Split` cuts a
string at a separator, and `Text.ClockValue` reads colon-separated fields as
base-60 digits. The round-trip lemmas show that each display is a lossless
rendering of the remaining seconds, with the field layout stated separately.

Three points about the code are worth stating up front:
- A zero-length basic timer that is started stays Running with 0 left until
  its next tick (`src-tauri/src/timer.rs:47-50`), so the invariant is
  "Finished ⇒ 0 left", not "Finished iff 0 left".
- The pomodoro `display` does not reduce minutes to hours
  (`src-tauri/src/pomodoro.rs:128-133`): 3600 s is `60:00`, with no hour field.
- `phase_duration_secs` is called at `src-tauri/src/commands.rs:68` but is not
  defined in `src-tauri/src/pomodoro.rs`. It is modelled as `Pomodoro.PhaseDuration`,
  using the phase-to-length mapping of `src-tauri/src/pomodoro.rs:117-121`.

## Model

| member | source | states |
|---|---|---|
| `Numeric.SaturatingSub` | src-tauri/src/timer.rs:47 | `saturating_sub` never goes below 0: the result is `a - b` when `b <= a`, else 0 |
| `Numeric.IsMultipleOf` | src-tauri/src/pomodoro.rs:105-107 | `u32::is_multiple_of`: `a` is a multiple of `b`, where only 0 is a multiple of 0; used by `Pomodoro.TransitionRule` and the pomodoro invariant |
| `Text.Join` | src-tauri/src/pomodoro.rs:145-146 | `join` with a one-character separator; `Text.SplitJoin` and `Text.JoinSplit` show it is undone by splitting on that separator |
| `Text.NatToString` | src-tauri/src/timer.rs:82 | decimal text of `n`: at least one digit, all digits, a single digit exactly when `n < 10`, a leading `0` only for 0 |
| `Text.ParseNatToString` | src-tauri/src/timer.rs:82 | the decimal text reads back as `n` |
| `Text.ZeroPad2` | src-tauri/src/timer.rs:82-84 | `{:02}` gives at least two digits, exactly two when `n < 100` |
| `Text.ParseZeroPad2` | src-tauri/src/timer.rs:82-84 | the zero-padded text reads back as `n` |
| `Text.PadStart` | src/timer-ui.ts:5-6 | `padStart`: the length is the larger of the width and the input's length; the input is a suffix; the prefix is all fill characters |
| `Text.PadStartIsZeroPad2` | src/timer-ui.ts:5-6 | `String(n).padStart(2, "0")` equals Rust's `{n:02}` for every `n` |
| `Text.SplitJoin` | src-tauri/src/pomodoro.rs:145-146 | splitting a join of separator-free pieces gives back exactly the pieces |
| `Text.JoinSplit` | src-tauri/src/pomodoro.rs:145-146 | joining the pieces of a split gives back the string |
| `Timer.New` | src-tauri/src/timer.rs:19-25 | the fields of `new(d)`; `Timer.NewIsIdleAndFull` states them and that the invariant holds |
| `Timer.IsFinished` | src-tauri/src/timer.rs:39-41 | `is_finished`: the status is Finished; `Runner.BasicFinishEdge` uses it for the finish edge |
| `Timer.AfterTick` | src-tauri/src/timer.rs:43-51 | the fields after `tick`; `Timer.TickOnlyWhenRunning`, `Timer.InvariantPreserved` and `Timer.TicksCountDown` state its behaviour |
| `Timer.AfterStart` | src-tauri/src/timer.rs:53-57 | the fields after `start`; `Timer.StartGuard` and `Timer.FinishedIsTerminal` state its behaviour |
| `Timer.AfterPause` | src-tauri/src/timer.rs:59-63 | the fields after `pause`; `Timer.PauseOnlyFromRunning` states its behaviour |
| `Timer.AfterReset` | src-tauri/src/timer.rs:65-68 | the fields after `reset`; `Timer.ResetAndRetargetAreFresh` states it equals a fresh timer |
| `Timer.AfterSetDuration` | src-tauri/src/timer.rs:70-74 | the fields after `set_duration`; `Timer.ResetAndRetargetAreFresh` states it equals a fresh timer of the new length |
| `Timer.Display` | src-tauri/src/timer.rs:76-86 | `display`; `Timer.DisplayRoundTrip`, `Timer.DisplayLayout` and `TimerUi.AgreesWithBasicDisplay` state its text |
| `Timer.NewIsIdleAndFull` | src-tauri/src/timer.rs:19-25 | `new(d)` has duration and remaining `d`, is Idle, and satisfies the invariant |
| `Timer.TickOnlyWhenRunning` | src-tauri/src/timer.rs:43-51 | a tick changes nothing unless Running; when Running, remaining becomes `max(r - 1, 0)`, the status becomes Finished exactly when that is 0 and stays Running otherwise, and the duration is kept |
| `Timer.StartGuard` | src-tauri/src/timer.rs:53-57 | `start` sets Running from every status except Finished, and leaves a Finished timer untouched |
| `Timer.PauseOnlyFromRunning` | src-tauri/src/timer.rs:59-63 | `pause` turns only Running into Paused; the other statuses and both counters are unchanged |
| `Timer.ResetAndRetargetAreFresh` | src-tauri/src/timer.rs:65-74 | `reset` is the same as a fresh timer of the same duration; `set_duration(s)` is the same as a fresh timer of `s` |
| `Timer.InvariantPreserved` | src-tauri/src/timer.rs:43-74 | every operation keeps three facts: remaining ≤ duration, Finished ⇒ remaining = 0, and Idle ⇒ remaining = duration |
| `Timer.RunPreservesInvariant` | src-tauri/src/timer.rs:43-74 | any sequence of operations keeps the invariant |
| `Timer.ReachableSatisfiesInvariant` | src-tauri/src/timer.rs:19-74 | every state reachable from `new(d)` satisfies the invariant |
| `Timer.FinishedIsTerminal` | src-tauri/src/timer.rs:43-57 | from any Finished state, any mix of start, pause and tick leaves the timer exactly as it is; only reset or retarget leave Finished |
| `Timer.TicksCountDown` | src-tauri/src/timer.rs:43-51 | `k` ticks of a running timer count down `k` seconds, saturating at 0; it is Finished exactly when `k ≥ 1` and `k ≥` the remaining seconds, and Running otherwise |
| `Timer.TicksStayFinished` | src-tauri/src/timer.rs:43-46 | any number of ticks leaves a timer that is not running unchanged |
| `Timer.DisplayRoundTrip` | src-tauri/src/timer.rs:76-86 | the display, read as base-60 fields, is exactly the remaining seconds |
| `Timer.DisplayLayout` | src-tauri/src/timer.rs:76-86 | below 3600 s the display has two fields; from 3600 s on it has three, the hour field without a leading zero; every field is digits; every field except the hour is two digits below 60 |
| `Timer.DisplayExamples` | src-tauri/src/timer.rs:143-158 | 125 → `02:05`, 0 → `00:00`, 3661 → `1:01:01` |
| `Timer.BasicTimer.constructor` | src-tauri/src/timer.rs:19-25 | the new object's state is `New(d)` and it is valid |
| `Timer.BasicTimer.Tick` | src-tauri/src/timer.rs:43-51 | updates the fields in place to `AfterTick` of the old state and keeps the invariant |
| `Timer.BasicTimer.Start` | src-tauri/src/timer.rs:53-57 | updates the fields in place to `AfterStart` of the old state and keeps the invariant |
| `Timer.BasicTimer.Pause` | src-tauri/src/timer.rs:59-63 | updates the fields in place to `AfterPause` of the old state and keeps the invariant |
| `Timer.BasicTimer.Reset` | src-tauri/src/timer.rs:65-68 | updates the fields in place to `AfterReset` of the old state and establishes the invariant |
| `Timer.BasicTimer.SetDuration` | src-tauri/src/timer.rs:70-74 | updates the fields in place to `AfterSetDuration` and establishes the invariant |
| `Pomodoro.PhaseDuration` | src-tauri/src/pomodoro.rs:117-121 | the configured length of a phase, used for `phase_duration_secs` at src-tauri/src/commands.rs:68; `Pomodoro.TransitionRule` and the invariant use it |
| `Pomodoro.New` | src-tauri/src/pomodoro.rs:52-60 | the fields of `new(c)`; `Pomodoro.NewStartsWorkPhase` states them |
| `Pomodoro.AfterStart` | src-tauri/src/pomodoro.rs:78-80 | the fields after `start`; `Pomodoro.StartAndPause` states its behaviour |
| `Pomodoro.AfterPause` | src-tauri/src/pomodoro.rs:82-86 | the fields after `pause`; `Pomodoro.StartAndPause` states its behaviour |
| `Pomodoro.AfterReset` | src-tauri/src/pomodoro.rs:88-93 | the fields after `reset`; `Pomodoro.ResetIsFresh` states it equals a fresh timer |
| `Pomodoro.NextPhase` | src-tauri/src/pomodoro.rs:101-115 | the phase after the current one ends; `Pomodoro.TransitionRule` and `Pomodoro.TransitionsAlternate` state the choice |
| `Pomodoro.AfterTick` | src-tauri/src/pomodoro.rs:95-126 | the fields and the returned transition of `tick`; `Pomodoro.TickOnlyWhenRunning`, `Pomodoro.TransitionIff`, `Pomodoro.TickWithoutTransition` and `Pomodoro.TransitionRule` state its behaviour |
| `Pomodoro.Display` | src-tauri/src/pomodoro.rs:128-133 | `display`; `Pomodoro.DisplayRoundTrip` states its text |
| `Pomodoro.SessionDisplay` | src-tauri/src/pomodoro.rs:135-147 | `session_display`; `Pomodoro.SessionDisplayLayout` and `Pomodoro.SessionDisplayAllFilled` state its text |
| `Pomodoro.TrayTitle` | src-tauri/src/pomodoro.rs:149-155 | `tray_title`; `Pomodoro.TrayTitleLayout` states its text |
| `Pomodoro.PhaseName` | src-tauri/src/commands.rs:71 | the `{:?}` name of a phase (also src-tauri/src/runner.rs:51-52); `Pomodoro.PhaseNameRoundTrip` and `Pomodoro.PhaseNameInjective` state it |
| `Pomodoro.PhaseNameRoundTrip` | src-tauri/src/commands.rs:71 | the `{:?}` name of a phase reads back as that phase |
| `Pomodoro.PhaseNameInjective` | src-tauri/src/runner.rs:51-52 | two phases have the same name exactly when they are the same phase |
| `Pomodoro.NewStartsWorkPhase` | src-tauri/src/pomodoro.rs:52-60 | `new(c)` is Idle in Work with `c.work_secs` left, no sessions done, and satisfies the invariant |
| `Pomodoro.DefaultConfigValues` | src-tauri/src/pomodoro.rs:24-33 | the default configuration is 1500 / 300 / 900 s with a long break every 4 sessions |
| `Pomodoro.ResetIsFresh` | src-tauri/src/pomodoro.rs:88-93 | `reset` from any state equals a fresh timer of the same configuration |
| `Pomodoro.StartAndPause` | src-tauri/src/pomodoro.rs:78-86 | `start` sets Running unconditionally; `pause` turns only Running into Paused; neither touches anything else |
| `Pomodoro.TickOnlyWhenRunning` | src-tauri/src/pomodoro.rs:95-98 | a tick of a timer that is not running returns None and changes nothing |
| `Pomodoro.TransitionIff` | src-tauri/src/pomodoro.rs:99-125 | a tick reports a transition exactly when the timer is Running with at most 1 second left |
| `Pomodoro.TickWithoutTransition` | src-tauri/src/pomodoro.rs:99-125 | a running tick that does not reach 0 takes one second off, keeps the phase and the count, and returns None |
| `Pomodoro.TransitionRule` | src-tauri/src/pomodoro.rs:100-122 | a tick with at most 1 s left reports `from` → the new phase, and restarts Running with the new phase's full length and the same configuration; ending Work counts one session and goes to LongBreak exactly when the new count is a multiple of the threshold (ShortBreak otherwise); ending a break goes to Work without counting |
| `Pomodoro.ZeroThresholdNeverLongBreak` | src-tauri/src/pomodoro.rs:103-113 | with a threshold of 0 a tick never enters a long break, since the count after the increment is at least 1 |
| `Pomodoro.TransitionsAlternate` | src-tauri/src/pomodoro.rs:101-115 | every transition goes from Work to a break or from a break to Work |
| `Pomodoro.InvariantPreserved` | src-tauri/src/pomodoro.rs:78-126 | every operation keeps five facts: remaining ≤ the phase's length; Idle ⇒ start of Work with full time and 0 sessions; a break ⇒ at least one session; LongBreak ⇒ the count is a multiple of the threshold; ShortBreak ⇒ it is not |
| `Pomodoro.RunPreservesInvariant` | src-tauri/src/pomodoro.rs:78-126 | any sequence of operations keeps the invariant |
| `Pomodoro.ReachableSatisfiesInvariant` | src-tauri/src/pomodoro.rs:52-126 | every state reachable from `new(c)` satisfies the invariant |
| `Pomodoro.CounterNeverDecreases` | src-tauri/src/pomodoro.rs:88-126 | without a reset, no sequence of operations lowers the session counter or changes the configuration |
| `Pomodoro.TicksAppend` | src-tauri/src/pomodoro.rs:95-126 | `a + b` ticks equal `a` ticks then `b` ticks, with the reported transitions concatenated |
| `Pomodoro.PhaseEndsAfterRemaining` | src-tauri/src/pomodoro.rs:95-126 | a running phase ends after exactly its remaining seconds of ticks (one for a zero-length phase), with exactly one transition, reported on the last tick |
| `Pomodoro.FastScenario` | src-tauri/src/pomodoro.rs:206-264 | with 3/1/2 s phases and a threshold of 4, the first 15 ticks from a fresh start report three Work→ShortBreak→Work cycles, then Work→LongBreak, leaving 2 s; two more ticks report LongBreak→Work |
| `Pomodoro.SessionDisplayLayout` | src-tauri/src/pomodoro.rs:135-147 | the empty string for a threshold of 0; otherwise exactly `threshold` glyphs separated by single spaces, glyph `i` filled iff `i < completed_sessions` |
| `Pomodoro.SessionDisplayAllFilled` | src-tauri/src/pomodoro.rs:135-147 | once the counter reaches the threshold, every glyph is filled (the counter is not reduced after a long break) |
| `Pomodoro.DisplayRoundTrip` | src-tauri/src/pomodoro.rs:128-133 | the display is two digit fields. The minutes are padded to at least two digits: exactly two below 6000 s, and no leading zero when longer. They equal the whole number of minutes, not reduced mod 60. The seconds are exactly two digits. The whole reads back as the remaining seconds |
| `Pomodoro.TrayTitleLayout` | src-tauri/src/pomodoro.rs:149-155 | the tray title is the work icon (in Work) or the break icon (in a break), then a space, then exactly `Display(s)`, which reads back as the remaining seconds |
| `Pomodoro.RendererExamples` | src-tauri/src/pomodoro.rs:266-286 | a fresh default timer shows `○ ○ ○ ○` and its tray title is `🍅 25:00` |
| `Pomodoro.AfterFirstSession` | src-tauri/src/pomodoro.rs:272-296 | three ticks of the fast configuration give a short break with 1 s left and one session; it shows `● ○ ○ ○` and the tray title `☕ 00:01` |
| `Pomodoro.PomodoroTimer.constructor` | src-tauri/src/pomodoro.rs:52-60 | the new object's state is `New(c)` and it is valid |
| `Pomodoro.PomodoroTimer.Start` | src-tauri/src/pomodoro.rs:78-80 | updates the status in place to `AfterStart` of the old state and keeps the invariant |
| `Pomodoro.PomodoroTimer.Pause` | src-tauri/src/pomodoro.rs:82-86 | updates the status in place to `AfterPause` of the old state and keeps the invariant |
| `Pomodoro.PomodoroTimer.Reset` | src-tauri/src/pomodoro.rs:88-93 | updates the fields in place to `AfterReset` of the old state and establishes the invariant |
| `Pomodoro.PomodoroTimer.Tick` | src-tauri/src/pomodoro.rs:95-126 | updates the fields in place and returns the transition; together they equal `AfterTick` of the old state; keeps the invariant |
| `Commands.FromState` | src-tauri/src/commands.rs:42-47 | `from_state`, dispatching on the variant; `Commands.SnapshotReflectsTimer` and `Commands.SnapshotConsistent` state the result |
| `Commands.FromBasic` | src-tauri/src/commands.rs:49-61 | `from_basic`; the basic clauses of `Commands.SnapshotReflectsTimer` state every field |
| `Commands.FromPomodoro` | src-tauri/src/commands.rs:63-75 | `from_pomodoro`; the pomodoro clauses of `Commands.SnapshotReflectsTimer` state every field |
| `Commands.Step` | src-tauri/src/commands.rs:80-125 | one `do_*` command as a value: the new live timer and the reply; `Commands.CommandsKeepMode`, `Commands.SetDurationApplies`, `Commands.SwitchDiscardsState` and `Commands.StepPreservesValid` state its behaviour |
| `Commands.SnapshotConsistent` | src-tauri/src/commands.rs:41-75 | the snapshot of any valid timer is consistent: the mode is `basic` or `pomodoro` and decides whether the phase and session fields are present; a pomodoro is never finished and its phase name parses; remaining ≤ total; the display reads back as the remaining seconds; never running and finished at once; finished ⇒ 0 left; the tray title is an icon, a space and the display |
| `Commands.SnapshotReflectsTimer` | src-tauri/src/commands.rs:42-75 | mode `basic` exactly for the basic variant. Basic: the display is the timer's `display`, counters and flags come from the timer, no phase or session fields, tray `⏱ ` + display. Pomodoro: mode `pomodoro`, the display is the timer's `display`, never finished, remaining from the timer, total = the current phase's length, running flag from the status, phase name reads back as the phase, session display and tray title are the timer's |
| `Commands.CommandsKeepMode` | src-tauri/src/commands.rs:80-111 | start, pause, reset and set-duration never change which variant is live |
| `Commands.SetDurationApplies` | src-tauri/src/commands.rs:104-111 | on Basic: the timer becomes fresh with the new length, and the reply is a snapshot with remaining = total = secs, neither running nor finished; on Pomodoro: nothing changes and the reply is None |
| `Commands.SwitchDiscardsState` | src-tauri/src/commands.rs:113-121 | a mode switch does not depend on the previous timer: it gives a fresh `BasicTimer::new(1500)` or a fresh default pomodoro |
| `Commands.StepPreservesValid` | src-tauri/src/commands.rs:80-121 | every command keeps the live timer's invariant, and every reply is the snapshot of the post-state |
| `Commands.RunCommandsPreservesValid` | src-tauri/src/commands.rs:80-121 | any sequence of commands keeps the live timer's invariant |
| `Commands.RepliesAreConsistent` | src-tauri/src/commands.rs:20-121 | after any commands from start-up, every snapshot a command replies with is consistent |
| `Commands.DefaultSnapshot` | src-tauri/src/commands.rs:239-251 | the start-up snapshot: `pomodoro`, `25:00`, 1500 of 1500 s, idle, phase `Work`, `○ ○ ○ ○`, tray `🍅 25:00` |
| `Commands.AppState.constructor` | src-tauri/src/commands.rs:20-26 | `AppState::default` holds a fresh default-configured pomodoro |
| `Commands.DoStart` | src-tauri/src/commands.rs:80-86 | starts the live timer in place, keeps the same variant and object, and returns the snapshot of the post-state |
| `Commands.DoPause` | src-tauri/src/commands.rs:88-94 | pauses the live timer in place, keeps the same variant and object, and returns the snapshot of the post-state |
| `Commands.DoReset` | src-tauri/src/commands.rs:96-102 | resets the live timer in place, keeps the same variant and object, and returns the snapshot of the post-state |
| `Commands.DoSetDuration` | src-tauri/src/commands.rs:104-111 | retargets a basic timer and returns its snapshot; on a pomodoro it returns None and leaves the timer untouched |
| `Commands.DoSwitchToBasic` | src-tauri/src/commands.rs:113-116 | replaces the live timer with a freshly allocated `BasicTimer::new(1500)` and returns its snapshot |
| `Commands.DoSwitchToPomodoro` | src-tauri/src/commands.rs:118-121 | replaces the live timer with a freshly allocated default pomodoro and returns its snapshot |
| `Commands.DoGetSnapshot` | src-tauri/src/commands.rs:123-125 | returns the snapshot of the current state and modifies nothing |
| `Runner.TickOutcome` | src-tauri/src/runner.rs:29-63 | the decision `tick_once` takes: the ticked timer, its snapshot, and the report; `Runner.TickAdvancesOnce`, `Runner.BasicFinishEdge` and `Runner.PomodoroReportsTransition` state it |
| `Runner.IsOverlayRoute` | src-tauri/src/runner.rs:71 | the test for a Work → break report; `Runner.RoutingOfReports` states which reports pass it |
| `Runner.Route` | src-tauri/src/runner.rs:69-74 | where `open_notification_window` sends a report; `Runner.RoutingOfReports` states the rule |
| `Runner.TickOnce` | src-tauri/src/runner.rs:29-63 | ticks the live timer once in place and returns three things: the post-tick snapshot, the report (if any), and its delivery chosen by the routing rule |
| `Runner.TickAdvancesOnce` | src-tauri/src/runner.rs:29-49 | the tick applies the timer's own `tick` exactly once, and the emitted snapshot is that of the result |
| `Runner.BasicFinishEdge` | src-tauri/src/runner.rs:31-44 | a basic timer reports `timer`→`finished` exactly when it was Running with at most 1 s left; the snapshot then shows it finished; a timer already Finished reports nothing and does not change |
| `Runner.FinishReportedOnce` | src-tauri/src/runner.rs:31-44 | over any `k` ticks there is one finish report if the timer is Running and `k` reaches 0, and none otherwise, so never two |
| `Runner.FinishReportedOncePerCountdown` | src-tauri/src/runner.rs:31-44 | over any mix of start, pause and tick with no reset or retarget, a basic timer reports its finish at most once, and a timer already Finished never reports |
| `Runner.PomodoroReportsTransition` | src-tauri/src/runner.rs:46-61 | a pomodoro reports a change exactly when its `tick` returned a transition, and the reported names read back as its two phases |
| `Runner.RoutingOfReports` | src-tauri/src/runner.rs:71-74 | a report goes to the overlay exactly when a pomodoro work phase ended; every other report goes to the notification window |
| `Runner.EveryReportHasMessage` | src/notification.ts:5-19 | every report a tick can produce, basic or pomodoro, has a notification message |
| `Notification.GetNotificationMessage` | src/notification.ts:1-21 | `getNotificationMessage`; `Notification.MessageDefinedIff`, `Notification.BreakEndsShareMessage` and `Notification.MessageExamples` state its results |
| `Notification.MessageDefinedIff` | src/notification.ts:5-20 | there is a message exactly for the five pairs timer→finished, Work→ShortBreak, Work→LongBreak, ShortBreak→Work and LongBreak→Work; every other pair gets null |
| `Notification.BreakEndsShareMessage` | src/notification.ts:14-19 | ShortBreak→Work and LongBreak→Work both give "Back to Work!" / "Time to focus." |
| `Notification.MessageExamples` | src/notification.ts:5-13 | timer→finished, Work→ShortBreak and Work→LongBreak give their exact title and body; an unknown pair gets null |
| `TimerUi.FormatDisplay` | src/timer-ui.ts:1-11 | `formatDisplay`; `TimerUi.AgreesWithBasicDisplay`, `TimerUi.ShortForm`, `TimerUi.LongForm` and `TimerUi.ShortLayout` state its text |
| `TimerUi.AgreesWithBasicDisplay` | src/timer-ui.ts:1-11 | for every `u32` count of seconds, `formatDisplay` gives the same text as the basic timer's `display` |
| `TimerUi.ShortForm` | src/timer-ui.ts:1-10 | below 3600 s the text is the two-digit minutes, a colon and the two-digit seconds |
| `TimerUi.LongForm` | src/timer-ui.ts:1-9 | from 3600 s on the text is the unpadded hours, then the two-digit minutes within the hour and the two-digit seconds, colon-separated |
| `TimerUi.ShortLayout` | src/timer-ui.ts:5-10 | below 3600 s the text is exactly two 2-digit fields joined by `:`, and it reads back as `n` |
| `TimerUi.ShortExamples` | src/timer-ui.ts:1-11 | 0 → `00:00`, 5 → `00:05`, 60 → `01:00`, 125 → `02:05` |
| `TimerUi.HourExamples` | src/timer-ui.ts:7-9 | 3661 → `1:01:01`, 7200 → `2:00:00` |

## Left out

- Host-runtime I/O is not modelled: the Tauri command wrappers, `emit_and_update_tray`, `toggle_always_on_top`, the dismiss commands, event emission, tray setup and `update_tray_title`. The tray title is the string the snapshot already holds.
- The `Mutex` and the async one-second `interval` loop of `start_tick_loop` are left out. That is concurrency and scheduling; each command and tick is modelled as one atomic call.
- Window creation and closing are left out, and so are monitor enumeration and its floating-point scale geometry. Routing is modelled only as the choice between the overlay and the notification window (`Runner.Delivery`).
- DOM rendering, the re-render caches, the progress ring, `main.ts`, the notification and overlay window scripts and the application bootstrap are left out. They are UI, timers, audio and CSS.
- Serialisation of the snapshot (serde) is not modelled; the snapshot is a datatype.
- The getters (`remaining_secs()`, `duration_secs()`, `status()`, `phase()`, `completed_sessions()`) are not separate members. They are the class fields, read through `State()`.
- `completed_sessions` is an unbounded `nat`. The `u32` overflow after 2^32 − 1 sessions is not modelled.
- `TimerUi.FormatDisplay` takes a natural number. JavaScript numbers that are negative, fractional or NaN are not modelled.
- The glyphs are the single code points ● ○ 🍅 ☕ ⏱. `src-tauri/src/pomodoro.rs:140-152` holds these glyphs as UTF-8 bytes mis-decoded as Mac Roman.
- `ActiveTimer` holds a reference to the timer object. Rust's exclusive ownership of the timer by one `AppState` is not enforced: two `AppState` objects could share a timer, which the source's types rule out.
