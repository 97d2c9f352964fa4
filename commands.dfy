/**
 * The live timer (basic or pomodoro), the render-ready snapshot projected
 * from it, and the commands that act on it.
 */
module Commands {
  import opened Numeric
  import opened Wrappers
  import T = Timer
  import P = Pomodoro
  import Text

  /** Exactly one live timer, owned by the application state. */
  datatype ActiveTimer = Basic(basic: T.BasicTimer) | Pomodoro(pomodoro: P.PomodoroTimer)

  /** The live timer's fields, as a value. */
  datatype ActiveState = BasicMode(basic: T.BasicState) | PomodoroMode(pomodoro: P.PomodoroState)

  /** The length a basic timer gets when the user switches to basic mode. */
  const BasicDefaultSecs: u32 := 25 * 60

  /** ⏱ */
  const StopwatchIcon: string := "\U{23F1}"

  /** What the interface renders, computed afresh from the live timer. */
  datatype TimerSnapshot = TimerSnapshot(
    mode: string,
    display: string,
    remainingSecs: u32,
    totalSecs: u32,
    isRunning: bool,
    isFinished: bool,
    phase: Option<string>,
    sessionDisplay: Option<string>,
    trayTitle: string)

  function FromBasic(t: T.BasicState): TimerSnapshot
  {
    TimerSnapshot(
      "basic", T.Display(t), t.remaining, t.duration,
      t.status == T.Running, T.IsFinished(t),
      None, None, StopwatchIcon + " " + T.Display(t))
  }

  function FromPomodoro(t: P.PomodoroState): TimerSnapshot
  {
    TimerSnapshot(
      "pomodoro", P.Display(t), t.remaining, P.PhaseDuration(t.config, t.phase),
      t.status == P.Running, false,
      Some(P.PhaseName(t.phase)), Some(P.SessionDisplay(t)), P.TrayTitle(t))
  }

  function FromState(a: ActiveState): TimerSnapshot
  {
    match a
    case BasicMode(t) => FromBasic(t)
    case PomodoroMode(t) => FromPomodoro(t)
  }

  ghost predicate ValidState(a: ActiveState)
  {
    match a
    case BasicMode(t) => T.Invariant(t)
    case PomodoroMode(t) => P.Invariant(t)
  }

  /** The state the application starts in: a default-configured pomodoro. */
  const DefaultState: ActiveState := PomodoroMode(P.New(P.DefaultConfig))

  /**
   * What every snapshot of a valid timer satisfies: its mode tag is one of two
   * and decides which optional fields are present; the display reads back as
   * the remaining seconds, which never exceed the total; it is never running
   * and finished at once; a finished timer has nothing left; and the tray title
   * is an icon, a space and the display.
   */
  ghost predicate Consistent(snap: TimerSnapshot)
  {
    && (snap.mode == "basic" || snap.mode == "pomodoro")
    && (snap.phase.Some? <==> snap.mode == "pomodoro")
    && (snap.sessionDisplay.Some? <==> snap.mode == "pomodoro")
    && (snap.mode == "pomodoro" ==> !snap.isFinished && P.ParsePhase(snap.phase.value).Some?)
    && snap.remainingSecs <= snap.totalSecs
    && Text.ClockValue(snap.display) == snap.remainingSecs
    && !(snap.isRunning && snap.isFinished)
    && (snap.isFinished ==> snap.remainingSecs == 0)
    && |snap.trayTitle| >= 2 && snap.trayTitle[1] == ' ' && snap.trayTitle[2..] == snap.display
  }

  lemma SnapshotConsistent(a: ActiveState)
    requires ValidState(a)
    ensures Consistent(FromState(a))
  {
    match a
    case BasicMode(t) =>
      T.DisplayRoundTrip(t);
      var snap := FromBasic(t);
      assert snap.trayTitle[2..] == snap.display;
    case PomodoroMode(t) =>
      P.DisplayRoundTrip(t);
      P.PhaseNameRoundTrip(t.phase);
      P.TrayTitleLayout(t);
  }

  /**
   * The snapshot reports the timer faithfully: the mode tag names the variant;
   * the display, the running and finished flags, the phase name (read back),
   * the session display and the tray title are the timer's own; and the total
   * is the basic duration or the phase's length.
   */
  lemma SnapshotReflectsTimer(a: ActiveState)
    ensures var snap := FromState(a);
      && (snap.mode == "basic" <==> a.BasicMode?)
      && (a.BasicMode? ==>
            && snap.display == T.Display(a.basic)
            && snap.remainingSecs == a.basic.remaining && snap.totalSecs == a.basic.duration
            && (snap.isRunning <==> a.basic.status == T.Running)
            && (snap.isFinished <==> a.basic.status == T.Finished)
            && snap.phase == None && snap.sessionDisplay == None
            && snap.trayTitle == StopwatchIcon + " " + snap.display)
      && (a.PomodoroMode? ==>
            && snap.mode == "pomodoro" && snap.display == P.Display(a.pomodoro)
            && !snap.isFinished
            && snap.remainingSecs == a.pomodoro.remaining
            && snap.totalSecs == P.PhaseDuration(a.pomodoro.config, a.pomodoro.phase)
            && (snap.isRunning <==> a.pomodoro.status == P.Running)
            && P.ParsePhase(snap.phase.value) == Some(a.pomodoro.phase)
            && snap.sessionDisplay == Some(P.SessionDisplay(a.pomodoro))
            && snap.trayTitle == P.TrayTitle(a.pomodoro))
  {
    if a.PomodoroMode? {
      P.PhaseNameRoundTrip(a.pomodoro.phase);
    }
  }

  // ---- commands ----

  datatype Command = Start | Pause | Reset | SetDuration(secs: u32) | SwitchToBasic | SwitchToPomodoro

  /** The state after a command and the snapshot it answers with (none when the command does not apply). */
  datatype Outcome = Outcome(state: ActiveState, reply: Option<TimerSnapshot>)

  function Step(a: ActiveState, c: Command): Outcome
  {
    match c
    case Start =>
      var s := match a
        case BasicMode(t) => BasicMode(T.AfterStart(t))
        case PomodoroMode(t) => PomodoroMode(P.AfterStart(t));
      Outcome(s, Some(FromState(s)))
    case Pause =>
      var s := match a
        case BasicMode(t) => BasicMode(T.AfterPause(t))
        case PomodoroMode(t) => PomodoroMode(P.AfterPause(t));
      Outcome(s, Some(FromState(s)))
    case Reset =>
      var s := match a
        case BasicMode(t) => BasicMode(T.AfterReset(t))
        case PomodoroMode(t) => PomodoroMode(P.AfterReset(t));
      Outcome(s, Some(FromState(s)))
    case SetDuration(secs) =>
      (match a
       case BasicMode(t) =>
         var t' := T.AfterSetDuration(t, secs);
         Outcome(BasicMode(t'), Some(FromBasic(t')))
       case PomodoroMode(_) => Outcome(a, None))
    case SwitchToBasic =>
      var s := BasicMode(T.New(BasicDefaultSecs));
      Outcome(s, Some(FromState(s)))
    case SwitchToPomodoro =>
      var s := PomodoroMode(P.New(P.DefaultConfig));
      Outcome(s, Some(FromState(s)))
  }

  function RunCommands(a: ActiveState, cs: seq<Command>): ActiveState
    decreases |cs|
  {
    if |cs| == 0 then a else RunCommands(Step(a, cs[0]).state, cs[1..])
  }

  /** Start, pause, reset and set-duration act on the live timer and never change the mode. */
  lemma CommandsKeepMode(a: ActiveState, c: Command)
    requires c.Start? || c.Pause? || c.Reset? || c.SetDuration?
    ensures Step(a, c).state.BasicMode? == a.BasicMode?
  {
  }

  /**
   * Setting a duration retargets a basic timer (remaining and total become the
   * new value, idle) and answers with its snapshot; on a pomodoro it changes
   * nothing and answers with nothing.
   */
  lemma SetDurationApplies(a: ActiveState, secs: u32)
    ensures var o := Step(a, SetDuration(secs));
      && (a.PomodoroMode? ==> o == Outcome(a, None))
      && (a.BasicMode? ==>
            && o.state == BasicMode(T.New(secs))
            && o.reply.Some? && o.reply.value.remainingSecs == secs && o.reply.value.totalSecs == secs
            && !o.reply.value.isRunning && !o.reply.value.isFinished)
  {
  }

  /** A mode switch discards the previous timer entirely: the result does not depend on it. */
  lemma SwitchDiscardsState(a: ActiveState, b: ActiveState)
    ensures Step(a, SwitchToBasic) == Step(b, SwitchToBasic)
    ensures Step(a, SwitchToBasic).state == BasicMode(T.New(1500))
    ensures Step(a, SwitchToPomodoro) == Step(b, SwitchToPomodoro)
    ensures Step(a, SwitchToPomodoro).state == DefaultState
  {
  }

  /** Every command keeps the live timer valid, and every reply is the snapshot of the new state. */
  lemma StepPreservesValid(a: ActiveState, c: Command)
    requires ValidState(a)
    ensures ValidState(Step(a, c).state)
    ensures Step(a, c).reply.Some? ==> Step(a, c).reply.value == FromState(Step(a, c).state)
  {
  }

  lemma {:induction false} RunCommandsPreservesValid(a: ActiveState, cs: seq<Command>)
    requires ValidState(a)
    ensures ValidState(RunCommands(a, cs))
    decreases |cs|
  {
    if |cs| > 0 {
      StepPreservesValid(a, cs[0]);
      RunCommandsPreservesValid(Step(a, cs[0]).state, cs[1..]);
    }
  }

  /** From start-up, every command answers with a consistent snapshot. */
  lemma RepliesAreConsistent(cs: seq<Command>, c: Command)
    ensures var a := RunCommands(DefaultState, cs);
      Step(a, c).reply.Some? ==> Consistent(Step(a, c).reply.value)
  {
    P.NewStartsWorkPhase(P.DefaultConfig);
    RunCommandsPreservesValid(DefaultState, cs);
    var a := RunCommands(DefaultState, cs);
    StepPreservesValid(a, c);
    SnapshotConsistent(Step(a, c).state);
  }

  /** The start-up snapshot: an idle 25-minute work phase with no sessions done. */
  lemma DefaultSnapshot()
    ensures var snap := FromState(DefaultState);
      && snap.mode == "pomodoro" && snap.display == "25:00"
      && snap.remainingSecs == 1500 && snap.totalSecs == 1500
      && !snap.isRunning && !snap.isFinished
      && snap.phase == Some("Work")
      && snap.sessionDisplay == Some("\U{25CB} \U{25CB} \U{25CB} \U{25CB}")
      && snap.trayTitle == "\U{1F345} 25:00"
  {
    P.RendererExamples();
  }

  /** The application state: the live timer, replaced wholesale by a mode switch. */
  class AppState {
    var active: ActiveTimer

    /** The object holding the live timer's fields. */
    function Live(): object
      reads this
    {
      match active
      case Basic(t) => t
      case Pomodoro(t) => t
    }

    function Model(): ActiveState
      reads this, Live()
    {
      match active
      case Basic(t) => BasicMode(t.State())
      case Pomodoro(t) => PomodoroMode(t.State())
    }

    ghost predicate Valid()
      reads this, Live()
    {
      match active
      case Basic(t) => t.Valid()
      case Pomodoro(t) => t.Valid()
    }

    /** `AppState::default`. */
    constructor ()
      ensures Valid() && Model() == DefaultState && fresh(Live())
    {
      var t := new P.PomodoroTimer(P.DefaultConfig);
      active := Pomodoro(t);
    }
  }

  method DoStart(state: AppState) returns (snap: TimerSnapshot)
    requires state.Valid()
    modifies state.Live()
    ensures state.active == old(state.active) && state.Valid()
    ensures Step(old(state.Model()), Start) == Outcome(state.Model(), Some(snap))
  {
    match state.active {
      case Basic(t) => t.Start();
      case Pomodoro(t) => t.Start();
    }
    snap := FromState(state.Model());
  }

  method DoPause(state: AppState) returns (snap: TimerSnapshot)
    requires state.Valid()
    modifies state.Live()
    ensures state.active == old(state.active) && state.Valid()
    ensures Step(old(state.Model()), Pause) == Outcome(state.Model(), Some(snap))
  {
    match state.active {
      case Basic(t) => t.Pause();
      case Pomodoro(t) => t.Pause();
    }
    snap := FromState(state.Model());
  }

  method DoReset(state: AppState) returns (snap: TimerSnapshot)
    requires state.Valid()
    modifies state.Live()
    ensures state.active == old(state.active) && state.Valid()
    ensures Step(old(state.Model()), Reset) == Outcome(state.Model(), Some(snap))
  {
    match state.active {
      case Basic(t) => t.Reset();
      case Pomodoro(t) => t.Reset();
    }
    snap := FromState(state.Model());
  }

  method DoSetDuration(state: AppState, secs: u32) returns (snap: Option<TimerSnapshot>)
    requires state.Valid()
    modifies state.Live()
    ensures state.active == old(state.active) && state.Valid()
    ensures Step(old(state.Model()), SetDuration(secs)) == Outcome(state.Model(), snap)
    ensures old(state.active).Pomodoro? ==> unchanged(state.Live())
  {
    if state.active.Basic? {
      var t := state.active.basic;
      t.SetDuration(secs);
      snap := Some(FromBasic(t.State()));
    } else {
      snap := None;
    }
  }

  method DoSwitchToBasic(state: AppState) returns (snap: TimerSnapshot)
    modifies state
    ensures state.Valid() && fresh(state.Live())
    ensures Step(old(state.Model()), SwitchToBasic) == Outcome(state.Model(), Some(snap))
  {
    var t := new T.BasicTimer(BasicDefaultSecs);
    state.active := Basic(t);
    snap := FromState(state.Model());
  }

  method DoSwitchToPomodoro(state: AppState) returns (snap: TimerSnapshot)
    modifies state
    ensures state.Valid() && fresh(state.Live())
    ensures Step(old(state.Model()), SwitchToPomodoro) == Outcome(state.Model(), Some(snap))
  {
    var t := new P.PomodoroTimer(P.DefaultConfig);
    state.active := Pomodoro(t);
    snap := FromState(state.Model());
  }

  /** Reads the snapshot without changing anything. */
  method DoGetSnapshot(state: AppState) returns (snap: TimerSnapshot)
    ensures snap == FromState(state.Model())
  {
    snap := FromState(state.Model());
  }
}
