/**
 * The decision taken on every one-second tick: advance the live timer once,
 * emit its snapshot, report a finish or phase change, and choose where the
 * report is shown.
 */
module Runner {
  import opened Wrappers
  import T = Timer
  import P = Pomodoro
  import C = Commands
  import N = Notification

  /** A reported change: two phase names, or `timer` → `finished`. */
  datatype PhaseChange = PhaseChange(from: string, to: string)

  const FinishedChange: PhaseChange := PhaseChange("timer", "finished")

  /** Where a report is shown: a full-screen break overlay or the small notification window. */
  datatype Delivery = Overlay(to: string) | NotificationWindow(from: string, to: string)

  /** Work turning into a break gets the overlay. */
  predicate IsOverlayRoute(from: string, to: string)
  {
    from == "Work" && (to == "ShortBreak" || to == "LongBreak")
  }

  function Route(e: PhaseChange): Delivery
  {
    if IsOverlayRoute(e.from, e.to) then Overlay(e.to) else NotificationWindow(e.from, e.to)
  }

  /** The timer after the tick, the snapshot emitted, and the change reported, if any. */
  datatype TickReport = TickReport(state: C.ActiveState, snapshot: C.TimerSnapshot, change: Option<PhaseChange>)

  function TickOutcome(a: C.ActiveState): TickReport
  {
    match a
    case BasicMode(t) =>
      var wasFinished := T.IsFinished(t);
      var t' := T.AfterTick(t);
      TickReport(C.BasicMode(t'), C.FromBasic(t'),
        if T.IsFinished(t') && !wasFinished then Some(FinishedChange) else None)
    case PomodoroMode(t) =>
      var r := P.AfterTick(t);
      TickReport(C.PomodoroMode(r.state), C.FromPomodoro(r.state),
        match r.transition
        case Some(tr) => Some(PhaseChange(P.PhaseName(tr.from), P.PhaseName(tr.to)))
        case None => None)
  }

  /** `tick_once`: one tick, one snapshot, at most one report and its delivery. */
  method TickOnce(state: C.AppState) returns (snapshot: C.TimerSnapshot, change: Option<PhaseChange>, delivery: Option<Delivery>)
    requires state.Valid()
    modifies state.Live()
    ensures state.active == old(state.active) && state.Valid()
    ensures TickOutcome(old(state.Model())) == TickReport(state.Model(), snapshot, change)
    ensures delivery == if change.Some? then Some(Route(change.value)) else None
  {
    match state.active {
      case Basic(timer) =>
        var wasFinished := timer.status == T.Finished;
        timer.Tick();
        snapshot := C.FromBasic(timer.State());
        if timer.status == T.Finished && !wasFinished {
          change := Some(FinishedChange);
        } else {
          change := None;
        }
      case Pomodoro(timer) =>
        var transition := timer.Tick();
        snapshot := C.FromPomodoro(timer.State());
        if transition.Some? {
          change := Some(PhaseChange(P.PhaseName(transition.value.from), P.PhaseName(transition.value.to)));
        } else {
          change := None;
        }
    }
    delivery := if change.Some? then Some(Route(change.value)) else None;
  }

  /** The tick advances the live timer exactly once and emits the snapshot of the result. */
  lemma TickAdvancesOnce(a: C.ActiveState)
    ensures var r := TickOutcome(a);
      && r.snapshot == C.FromState(r.state)
      && (a.BasicMode? ==> r.state == C.BasicMode(T.AfterTick(a.basic)))
      && (a.PomodoroMode? ==> r.state == C.PomodoroMode(P.AfterTick(a.pomodoro).state))
  {
  }

  /** A basic timer reports its finish exactly on the tick that takes a running countdown to zero. */
  lemma BasicFinishEdge(t: T.BasicState)
    ensures var r := TickOutcome(C.BasicMode(t));
      && (r.change.Some? <==> t.status == T.Running && t.remaining <= 1)
      && (r.change.Some? ==> r.change == Some(FinishedChange) && r.snapshot.isFinished)
      && (t.status == T.Finished ==> r.change == None && r.state == C.BasicMode(t))
  {
  }

  /** Number of finish reports over `k` consecutive ticks of a basic timer. */
  function FinishReports(t: T.BasicState, k: nat): nat
    decreases k
  {
    if k == 0 then 0
    else
      (if TickOutcome(C.BasicMode(t)).change.Some? then 1 else 0) + FinishReports(T.AfterTick(t), k - 1)
  }

  /**
   * Over any run of ticks a countdown is reported finished at most once: once
   * if the timer is running and the run is long enough to reach zero, and
   * never otherwise (a finished timer does not report again).
   */
  lemma {:induction false} FinishReportedOnce(t: T.BasicState, k: nat)
    ensures FinishReports(t, k) == (if t.status == T.Running && k > 0 && k >= t.remaining then 1 else 0)
    decreases k
  {
    if k > 0 {
      BasicFinishEdge(t);
      var t' := T.AfterTick(t);
      if t.status != T.Running {
        assert t' == t;
        FinishReportedOnce(t', k - 1);
      } else {
        FinishReportedOnce(t', k - 1);
      }
    }
  }

  /**
   * Finish reports of a basic timer over a sequence of operations: one for
   * each tick that reports the finish edge.
   */
  function FinishReportsOver(t: T.BasicState, ops: seq<T.Op>): nat
    decreases |ops|
  {
    if |ops| == 0 then 0
    else
      (if ops[0] == T.Tick && TickOutcome(C.BasicMode(t)).change.Some? then 1 else 0)
      + FinishReportsOver(T.Apply(t, ops[0]), ops[1..])
  }

  /**
   * However a countdown is started, paused and resumed, it reports its finish
   * at most once until it is reset or retargeted; a finished timer never
   * reports again.
   */
  lemma {:induction false} FinishReportedOncePerCountdown(t: T.BasicState, ops: seq<T.Op>)
    requires forall i :: 0 <= i < |ops| ==> !ops[i].Reset? && !ops[i].SetDuration?
    ensures FinishReportsOver(t, ops) <= 1
    ensures t.status == T.Finished ==> FinishReportsOver(t, ops) == 0
    decreases |ops|
  {
    if |ops| > 0 {
      BasicFinishEdge(t);
      assert !ops[0].Reset? && !ops[0].SetDuration?;
      FinishReportedOncePerCountdown(T.Apply(t, ops[0]), ops[1..]);
    }
  }

  /** A pomodoro reports exactly the transitions its tick returns, by phase name. */
  lemma PomodoroReportsTransition(t: P.PomodoroState)
    ensures var r := TickOutcome(C.PomodoroMode(t));
      var tr := P.AfterTick(t).transition;
      && (r.change.Some? <==> tr.Some?)
      && (tr.Some? ==>
            && P.ParsePhase(r.change.value.from) == Some(tr.value.from)
            && P.ParsePhase(r.change.value.to) == Some(tr.value.to))
  {
    var tr := P.AfterTick(t).transition;
    if tr.Some? {
      P.PhaseNameRoundTrip(tr.value.from);
      P.PhaseNameRoundTrip(tr.value.to);
    }
  }

  /** A report goes to the overlay exactly when a work phase ended; everything else to the window. */
  lemma RoutingOfReports(a: C.ActiveState)
    requires TickOutcome(a).change.Some?
    ensures var e := TickOutcome(a).change.value;
      (Route(e).Overlay? <==> a.PomodoroMode? && a.pomodoro.phase == P.Work)
  {
  }

  /** Every report a tick can produce has a notification message. */
  lemma EveryReportHasMessage(a: C.ActiveState)
    requires TickOutcome(a).change.Some?
    ensures var e := TickOutcome(a).change.value;
      N.GetNotificationMessage(e.from, e.to).Some?
  {
    if a.PomodoroMode? {
      P.TransitionsAlternate(a.pomodoro);
    }
  }
}
