/**
 * The pomodoro scheduler: Work, ShortBreak and LongBreak phases cycled by a
 * one-second tick, with a counter of completed work sessions.
 */
module Pomodoro {
  import opened Numeric
  import opened Wrappers
  import Text

  datatype Phase = Work | ShortBreak | LongBreak

  datatype PhaseTransition = PhaseTransition(from: Phase, to: Phase)

  datatype PomodoroConfig = PomodoroConfig(
    workSecs: u32,
    shortBreakSecs: u32,
    longBreakSecs: u32,
    sessionsBeforeLongBreak: u32)

  /** 25 minutes of work, 5 and 15 minute breaks, a long break every 4 sessions. */
  const DefaultConfig: PomodoroConfig := PomodoroConfig(25 * 60, 5 * 60, 15 * 60, 4)

  datatype PomodoroStatus = Idle | Running | Paused

  /** The fields of a pomodoro timer, as a value. The session counter is unbounded. */
  datatype PomodoroState = PomodoroState(
    config: PomodoroConfig,
    phase: Phase,
    remaining: u32,
    completedSessions: nat,
    status: PomodoroStatus)

  /** The configured length of a phase. */
  function PhaseDuration(c: PomodoroConfig, p: Phase): u32
  {
    match p
    case Work => c.workSecs
    case ShortBreak => c.shortBreakSecs
    case LongBreak => c.longBreakSecs
  }

  /** Name of a phase as Rust's `{:?}` writes it. */
  function PhaseName(p: Phase): string
  {
    match p
    case Work => "Work"
    case ShortBreak => "ShortBreak"
    case LongBreak => "LongBreak"
  }

  /** Reads a phase name back. */
  function ParsePhase(name: string): Option<Phase>
  {
    if name == "Work" then Some(Work)
    else if name == "ShortBreak" then Some(ShortBreak)
    else if name == "LongBreak" then Some(LongBreak)
    else None
  }

  lemma PhaseNameRoundTrip(p: Phase)
    ensures ParsePhase(PhaseName(p)) == Some(p)
  {
  }

  /** Distinct phases have distinct names. */
  lemma PhaseNameInjective(p: Phase, q: Phase)
    ensures PhaseName(p) == PhaseName(q) <==> p == q
  {
    PhaseNameRoundTrip(p);
    PhaseNameRoundTrip(q);
  }

  function New(c: PomodoroConfig): PomodoroState
  {
    PomodoroState(c, Work, c.workSecs, 0, Idle)
  }

  function AfterStart(s: PomodoroState): PomodoroState
  {
    s.(status := Running)
  }

  function AfterPause(s: PomodoroState): PomodoroState
  {
    if s.status == Running then s.(status := Paused) else s
  }

  function AfterReset(s: PomodoroState): PomodoroState
  {
    s.(phase := Work, remaining := s.config.workSecs, completedSessions := 0, status := Idle)
  }

  /** The phase after `p` ends, given the session count after the increment. */
  function NextPhase(p: Phase, sessions: nat, threshold: u32): Phase
  {
    match p
    case Work => if IsMultipleOf(sessions, threshold) then LongBreak else ShortBreak
    case ShortBreak => Work
    case LongBreak => Work
  }

  /** The new state after a tick and the transition it reports, if any. */
  datatype TickResult = TickResult(state: PomodoroState, transition: Option<PhaseTransition>)

  function AfterTick(s: PomodoroState): TickResult
  {
    if s.status != Running then TickResult(s, None)
    else
      var r := SaturatingSub(s.remaining, 1);
      if r != 0 then TickResult(s.(remaining := r), None)
      else
        var sessions := if s.phase == Work then s.completedSessions + 1 else s.completedSessions;
        var to := NextPhase(s.phase, sessions, s.config.sessionsBeforeLongBreak);
        TickResult(
          s.(phase := to, remaining := PhaseDuration(s.config, to), completedSessions := sessions),
          Some(PhaseTransition(s.phase, to)))
  }

  /** `MM:SS` of the remaining seconds; minutes are not reduced to an hour. */
  function Display(s: PomodoroState): string
  {
    Text.ZeroPad2(s.remaining / 60) + ":" + Text.ZeroPad2(s.remaining % 60)
  }

  /** ● */
  const FilledGlyph: string := "\U{25CF}"
  /** ○ */
  const EmptyGlyph: string := "\U{25CB}"
  /** 🍅 */
  const WorkIcon: string := "\U{1F345}"
  /** ☕ */
  const BreakIcon: string := "\U{2615}"

  /** One glyph per session before a long break: filled for each completed session. */
  function SessionGlyphs(threshold: nat, completed: nat): seq<string>
  {
    seq(threshold, i => if i < completed then FilledGlyph else EmptyGlyph)
  }

  function SessionDisplay(s: PomodoroState): string
  {
    Text.Join(SessionGlyphs(s.config.sessionsBeforeLongBreak, s.completedSessions), ' ')
  }

  function PhaseIcon(p: Phase): string
  {
    if p == Work then WorkIcon else BreakIcon
  }

  function TrayTitle(s: PomodoroState): string
  {
    PhaseIcon(s.phase) + " " + Display(s)
  }

  /**
   * What every reachable state satisfies: the countdown is within the phase's
   * length; an idle timer is at the start of a work phase with no sessions;
   * a break follows at least one session, and its kind agrees with the count.
   */
  ghost predicate Invariant(s: PomodoroState)
  {
    var threshold := s.config.sessionsBeforeLongBreak;
    && s.remaining <= PhaseDuration(s.config, s.phase)
    && (s.status == Idle ==> s.phase == Work && s.remaining == s.config.workSecs && s.completedSessions == 0)
    && (s.phase != Work ==> s.completedSessions >= 1)
    && (s.phase == LongBreak ==> IsMultipleOf(s.completedSessions, threshold))
    && (s.phase == ShortBreak ==> !IsMultipleOf(s.completedSessions, threshold))
  }

  /** The operations a caller can apply to a pomodoro timer. */
  datatype Op = Start | Pause | Reset | Tick

  function Apply(s: PomodoroState, op: Op): PomodoroState
  {
    match op
    case Start => AfterStart(s)
    case Pause => AfterPause(s)
    case Reset => AfterReset(s)
    case Tick => AfterTick(s).state
  }

  function Run(s: PomodoroState, ops: seq<Op>): PomodoroState
    decreases |ops|
  {
    if |ops| == 0 then s else Run(Apply(s, ops[0]), ops[1..])
  }

  /** The state after `k` ticks and the transitions they reported, in order. */
  function Ticks(s: PomodoroState, k: nat): (PomodoroState, seq<PhaseTransition>)
    decreases k
  {
    if k == 0 then (s, [])
    else
      var t := AfterTick(s);
      var (final, later) := Ticks(t.state, k - 1);
      (final, (if t.transition.Some? then [t.transition.value] else []) + later)
  }

  // ---- construction and the simple commands ----

  lemma NewStartsWorkPhase(c: PomodoroConfig)
    ensures New(c).phase == Work && New(c).remaining == c.workSecs
    ensures New(c).completedSessions == 0 && New(c).status == Idle
    ensures Invariant(New(c))
  {
  }

  lemma DefaultConfigValues()
    ensures DefaultConfig.workSecs == 1500 && DefaultConfig.shortBreakSecs == 300
    ensures DefaultConfig.longBreakSecs == 900 && DefaultConfig.sessionsBeforeLongBreak == 4
  {
  }

  /** Reset rewinds to a fresh timer of the same configuration, whatever came before. */
  lemma ResetIsFresh(s: PomodoroState)
    ensures AfterReset(s) == New(s.config)
  {
  }

  /** Start is unconditional; pause changes only Running into Paused. */
  lemma StartAndPause(s: PomodoroState)
    ensures AfterStart(s).status == Running && AfterStart(s).(status := s.status) == s
    ensures AfterPause(s).status == (if s.status == Running then Paused else s.status)
    ensures AfterPause(s).(status := s.status) == s
  {
  }

  // ---- the tick ----

  /** A tick of a timer that is not running reports nothing and changes nothing. */
  lemma TickOnlyWhenRunning(s: PomodoroState)
    requires s.status != Running
    ensures AfterTick(s) == TickResult(s, None)
  {
  }

  /** A transition happens exactly when a running countdown reaches zero. */
  lemma TransitionIff(s: PomodoroState)
    ensures AfterTick(s).transition.Some? <==> s.status == Running && s.remaining <= 1
  {
  }

  /** A tick that does not reach zero takes one second off and keeps phase and count. */
  lemma TickWithoutTransition(s: PomodoroState)
    requires s.status == Running && s.remaining > 1
    ensures AfterTick(s) == TickResult(s.(remaining := s.remaining - 1), None)
  {
  }

  /**
   * Ending a work phase counts one session and starts a long break exactly when
   * the new count is a multiple of the threshold; ending a break returns to
   * work with the count unchanged. The new phase starts full and keeps running.
   */
  lemma TransitionRule(s: PomodoroState)
    requires s.status == Running && s.remaining <= 1
    ensures var t := AfterTick(s);
      && t.transition == Some(PhaseTransition(s.phase, t.state.phase))
      && t.state.remaining == PhaseDuration(s.config, t.state.phase)
      && t.state.status == Running
      && t.state.config == s.config
      && (s.phase == Work ==>
            && t.state.completedSessions == s.completedSessions + 1
            && (t.state.phase == LongBreak <==> IsMultipleOf(s.completedSessions + 1, s.config.sessionsBeforeLongBreak))
            && t.state.phase != Work)
      && (s.phase != Work ==> t.state.phase == Work && t.state.completedSessions == s.completedSessions)
  {
  }

  /** With a threshold of 0 there is never a long break (the count is at least 1). */
  lemma ZeroThresholdNeverLongBreak(s: PomodoroState)
    requires s.config.sessionsBeforeLongBreak == 0
    ensures AfterTick(s).state.phase == LongBreak ==> s.phase == LongBreak
  {
  }

  /** Every transition goes from work to a break or from a break to work. */
  lemma TransitionsAlternate(s: PomodoroState)
    requires AfterTick(s).transition.Some?
    ensures var tr := AfterTick(s).transition.value; (tr.from == Work) != (tr.to == Work)
  {
  }

  lemma InvariantPreserved(s: PomodoroState, op: Op)
    requires Invariant(s)
    ensures Invariant(Apply(s, op))
  {
  }

  lemma {:induction false} RunPreservesInvariant(s: PomodoroState, ops: seq<Op>)
    requires Invariant(s)
    ensures Invariant(Run(s, ops))
    decreases |ops|
  {
    if |ops| > 0 {
      InvariantPreserved(s, ops[0]);
      RunPreservesInvariant(Apply(s, ops[0]), ops[1..]);
    }
  }

  lemma ReachableSatisfiesInvariant(c: PomodoroConfig, ops: seq<Op>)
    ensures Invariant(Run(New(c), ops))
  {
    RunPreservesInvariant(New(c), ops);
  }

  /** The session counter only grows, unless the sequence contains a reset; the configuration never changes. */
  lemma {:induction false} CounterNeverDecreases(s: PomodoroState, ops: seq<Op>)
    requires Reset !in ops
    ensures Run(s, ops).completedSessions >= s.completedSessions
    ensures Run(s, ops).config == s.config
    decreases |ops|
  {
    if |ops| > 0 {
      assert ops[0] in ops;
      CounterNeverDecreases(Apply(s, ops[0]), ops[1..]);
    }
  }

  /** Ticks compose: `a + b` ticks are `a` ticks followed by `b` ticks. */
  lemma {:induction false} TicksAppend(s: PomodoroState, a: nat, b: nat)
    ensures var (mid, first) := Ticks(s, a);
      var (final, second) := Ticks(mid, b);
      Ticks(s, a + b) == (final, first + second)
    decreases a
  {
    if a == 0 {
      assert [] + Ticks(s, b).1 == Ticks(s, b).1;
    } else {
      var t := AfterTick(s);
      TicksAppend(t.state, a - 1, b);
      var pre := if t.transition.Some? then [t.transition.value] else [];
      var (mid, first') := Ticks(t.state, a - 1);
      assert Ticks(s, a) == (mid, pre + first');
      assert a + b - 1 == (a - 1) + b;
      var (final, second) := Ticks(mid, b);
      assert Ticks(s, a + b) == (final, pre + (first' + second));
      assert pre + (first' + second) == (pre + first') + second;
    }
  }

  /**
   * A running phase ends after exactly as many ticks as remain (one for a
   * zero-length phase), reporting its single transition on the last tick.
   */
  lemma {:induction false} PhaseEndsAfterRemaining(s: PomodoroState)
    requires s.status == Running
    ensures var k := if s.remaining == 0 then 1 else s.remaining;
      var last := AfterTick(s.(remaining := 1));
      Ticks(s, k) == (last.state, [last.transition.value])
    decreases s.remaining
  {
    if s.remaining > 1 {
      var t := AfterTick(s);
      assert t == TickResult(s.(remaining := s.remaining - 1), None);
      PhaseEndsAfterRemaining(t.state);
      assert t.state.(remaining := 1) == s.(remaining := 1);
      var rest := Ticks(t.state, s.remaining - 1);
      assert Ticks(s, s.remaining) == (rest.0, [] + rest.1);
      assert [] + rest.1 == rest.1;
    } else {
      var t := AfterTick(s);
      assert t == AfterTick(s.(remaining := 1));
      assert Ticks(t.state, 0) == (t.state, []);
      assert Ticks(s, 1) == (t.state, [t.transition.value] + []);
      assert [t.transition.value] + [] == [t.transition.value];
    }
  }

  /** The configuration the unit tests drive: 3 s of work, 1 s and 2 s breaks, a long break every 4 sessions. */
  const FastConfig: PomodoroConfig := PomodoroConfig(3, 1, 2, 4)

  /**
   * From a fresh start, three work/short-break cycles and a fourth work phase
   * (15 ticks) end in a long break of 2 s; two more ticks return to work.
   */
  lemma FastScenario()
    ensures var (s15, trs15) := Ticks(AfterStart(New(FastConfig)), 15);
      && s15 == PomodoroState(FastConfig, LongBreak, 2, 4, Running)
      && trs15 == [PhaseTransition(Work, ShortBreak), PhaseTransition(ShortBreak, Work),
                   PhaseTransition(Work, ShortBreak), PhaseTransition(ShortBreak, Work),
                   PhaseTransition(Work, ShortBreak), PhaseTransition(ShortBreak, Work),
                   PhaseTransition(Work, LongBreak)]
      && Ticks(s15, 2) == (PomodoroState(FastConfig, Work, 3, 4, Running), [PhaseTransition(LongBreak, Work)])
  {
    var c := FastConfig;
    var w1 := AfterStart(New(c));
    var b1 := PomodoroState(c, ShortBreak, 1, 1, Running);
    var w2 := PomodoroState(c, Work, 3, 1, Running);
    var b2 := PomodoroState(c, ShortBreak, 1, 2, Running);
    var w3 := PomodoroState(c, Work, 3, 2, Running);
    var b3 := PomodoroState(c, ShortBreak, 1, 3, Running);
    var w4 := PomodoroState(c, Work, 3, 3, Running);
    var lb := PomodoroState(c, LongBreak, 2, 4, Running);
    PhaseEndsAfterRemaining(w1);
    PhaseEndsAfterRemaining(b1);
    PhaseEndsAfterRemaining(w2);
    PhaseEndsAfterRemaining(b2);
    PhaseEndsAfterRemaining(w3);
    PhaseEndsAfterRemaining(b3);
    PhaseEndsAfterRemaining(w4);
    PhaseEndsAfterRemaining(lb);
    TicksAppend(w1, 3, 1);
    TicksAppend(w1, 4, 3);
    TicksAppend(w1, 7, 1);
    TicksAppend(w1, 8, 3);
    TicksAppend(w1, 11, 1);
    TicksAppend(w1, 12, 3);
  }

  // ---- renderers ----

  /** The session display is `threshold` glyphs joined by single spaces; glyph i is filled iff i < completed. */
  lemma SessionDisplayLayout(s: PomodoroState)
    ensures var threshold := s.config.sessionsBeforeLongBreak;
      var r := SessionDisplay(s);
      && (threshold == 0 ==> r == "")
      && (threshold > 0 ==>
            var f := Text.Split(r, ' ');
            && |f| == threshold
            && forall i :: 0 <= i < threshold ==> f[i] == (if i < s.completedSessions then FilledGlyph else EmptyGlyph))
  {
    var threshold := s.config.sessionsBeforeLongBreak;
    if threshold > 0 {
      var g := SessionGlyphs(threshold, s.completedSessions);
      forall k | 0 <= k < |g| ensures ' ' !in g[k] {
      }
      Text.SplitJoin(g, ' ');
    }
  }

  /** Once the counter reaches the threshold every glyph is filled: a long break does not reset it. */
  lemma SessionDisplayAllFilled(s: PomodoroState, i: nat)
    requires s.completedSessions >= s.config.sessionsBeforeLongBreak
    requires i < s.config.sessionsBeforeLongBreak
    ensures var f := Text.Split(SessionDisplay(s), ' '); i < |f| && f[i] == FilledGlyph
  {
    SessionDisplayLayout(s);
  }

  /**
   * The display is two digit fields: the minutes padded to at least two digits
   * (exactly two below 6000 s, with no leading zero beyond that) and not
   * reduced to hours, then two-digit seconds;
   * it reads back as the remaining seconds.
   */
  lemma DisplayRoundTrip(s: PomodoroState)
    ensures var f := Text.Split(Display(s), ':');
      && |f| == 2 && |f[1]| == 2
      && |f[0]| >= 2 && Text.AllDigits(f[0]) && Text.AllDigits(f[1])
      && (|f[0]| == 2 <==> s.remaining < 6000)
      && (|f[0]| > 2 ==> f[0][0] != '0')
      && Text.ParseDecimal(f[0]) == s.remaining / 60
      && Text.ClockValue(Display(s)) == s.remaining
  {
    var m, sec := s.remaining / 60, s.remaining % 60;
    Text.ParseZeroPad2(m);
    Text.ParseZeroPad2(sec);
    Text.SplitTwoFields(Text.ZeroPad2(m), Text.ZeroPad2(sec));
    Text.FieldsValue2(Text.ZeroPad2(m), Text.ZeroPad2(sec));
  }

  /** The tray title is the phase's icon (work or break), a space, and the display. */
  lemma TrayTitleLayout(s: PomodoroState)
    ensures var r := TrayTitle(s);
      && |r| >= 2 && r[1] == ' '
      && (r[..1] == WorkIcon <==> s.phase == Work)
      && (r[..1] == BreakIcon <==> s.phase != Work)
      && r[2..] == Display(s)
      && Text.ClockValue(r[2..]) == s.remaining
  {
    var r := TrayTitle(s);
    assert r[..1] == PhaseIcon(s.phase);
    assert WorkIcon != BreakIcon;
    assert r[2..] == Display(s);
    DisplayRoundTrip(s);
  }

  lemma RendererExamples()
    ensures SessionDisplay(New(DefaultConfig)) == "\U{25CB} \U{25CB} \U{25CB} \U{25CB}"
    ensures TrayTitle(New(DefaultConfig)) == "\U{1F345} 25:00"
  {
  }

  /** After the first work session of the fast configuration: one filled glyph, and a break icon. */
  lemma AfterFirstSession()
    ensures var (s3, _) := Ticks(AfterStart(New(FastConfig)), 3);
      && s3 == PomodoroState(FastConfig, ShortBreak, 1, 1, Running)
      && SessionDisplay(s3) == "\U{25CF} \U{25CB} \U{25CB} \U{25CB}"
      && TrayTitle(s3) == "\U{2615} 00:01"
  {
    var b1 := PomodoroState(FastConfig, ShortBreak, 1, 1, Running);
    assert Ticks(AfterStart(New(FastConfig)), 3).0 == b1;
    assert SessionGlyphs(4, 1) == [FilledGlyph, EmptyGlyph, EmptyGlyph, EmptyGlyph];
    assert SessionDisplay(b1) == "\U{25CF} \U{25CB} \U{25CB} \U{25CB}";
    Text.ZeroPad2Digits(0);
    Text.ZeroPad2Digits(1);
    assert Display(b1) == "00:01";
  }

  // ---- the mutable timer ----

  /** A pomodoro timer whose fields are updated in place; its configuration is fixed. */
  class PomodoroTimer {
    const config: PomodoroConfig
    var phase: Phase
    var remainingSecs: u32
    var completedSessions: nat
    var status: PomodoroStatus

    function State(): PomodoroState
      reads this
    {
      PomodoroState(config, phase, remainingSecs, completedSessions, status)
    }

    ghost predicate Valid()
      reads this
    {
      Invariant(State())
    }

    constructor (config: PomodoroConfig)
      ensures State() == New(config) && Valid()
    {
      this.config := config;
      remainingSecs := config.workSecs;
      phase := Work;
      completedSessions := 0;
      status := Idle;
    }

    method Start()
      requires Valid()
      modifies this
      ensures State() == AfterStart(old(State())) && Valid()
    {
      status := Running;
    }

    method Pause()
      requires Valid()
      modifies this
      ensures State() == AfterPause(old(State())) && Valid()
    {
      if status == Running {
        status := Paused;
      }
    }

    method Reset()
      modifies this
      ensures State() == AfterReset(old(State())) && Valid()
    {
      phase := Work;
      remainingSecs := config.workSecs;
      completedSessions := 0;
      status := Idle;
    }

    method Tick() returns (transition: Option<PhaseTransition>)
      requires Valid()
      modifies this
      ensures TickResult(State(), transition) == AfterTick(old(State())) && Valid()
    {
      if status != Running {
        return None;
      }
      remainingSecs := SaturatingSub(remainingSecs, 1);
      if remainingSecs == 0 {
        var from := phase;
        var to;
        match phase {
          case Work =>
            completedSessions := completedSessions + 1;
            if IsMultipleOf(completedSessions, config.sessionsBeforeLongBreak) {
              to := LongBreak;
            } else {
              to := ShortBreak;
            }
          case ShortBreak => to := Work;
          case LongBreak => to := Work;
        }
        phase := to;
        remainingSecs := match to {
          case Work => config.workSecs
          case ShortBreak => config.shortBreakSecs
          case LongBreak => config.longBreakSecs
        };
        transition := Some(PhaseTransition(from, to));
      } else {
        transition := None;
      }
    }
  }
}
