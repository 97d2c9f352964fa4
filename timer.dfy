/**
 * The basic countdown timer: one configured duration counted down a second
 * per tick, with a terminal Finished state.
 */
module Timer {
  import opened Numeric
  import Text

  datatype TimerStatus = Idle | Running | Paused | Finished

  /** The three fields of a basic timer, as a value. */
  datatype BasicState = BasicState(duration: u32, remaining: u32, status: TimerStatus)

  /** What a freshly constructed timer holds. */
  function New(duration: u32): BasicState
  {
    BasicState(duration, duration, Idle)
  }

  predicate IsFinished(s: BasicState)
  {
    s.status == Finished
  }

  /** One second elapses: only a running timer moves, and it finishes on reaching zero. */
  function AfterTick(s: BasicState): BasicState
  {
    if s.status != Running then s
    else
      var r := SaturatingSub(s.remaining, 1);
      if r == 0 then s.(remaining := r, status := Finished) else s.(remaining := r)
  }

  /** Start or resume; a finished timer stays finished. */
  function AfterStart(s: BasicState): BasicState
  {
    if s.status != Finished then s.(status := Running) else s
  }

  function AfterPause(s: BasicState): BasicState
  {
    if s.status == Running then s.(status := Paused) else s
  }

  function AfterReset(s: BasicState): BasicState
  {
    s.(remaining := s.duration, status := Idle)
  }

  function AfterSetDuration(s: BasicState, secs: u32): BasicState
  {
    BasicState(secs, secs, Idle)
  }

  /** `H:MM:SS` once at least an hour remains, otherwise `MM:SS`. */
  function Display(s: BasicState): string
  {
    var total := s.remaining;
    var h := total / 3600;
    var m := (total % 3600) / 60;
    var sec := total % 60;
    if h > 0 then Text.NatToString(h) + ":" + Text.ZeroPad2(m) + ":" + Text.ZeroPad2(sec)
    else Text.ZeroPad2(m) + ":" + Text.ZeroPad2(sec)
  }

  /**
   * What every reachable state satisfies: the countdown never exceeds its
   * duration, a finished timer has nothing left, and an idle timer is full.
   */
  ghost predicate Invariant(s: BasicState)
  {
    && s.remaining <= s.duration
    && (s.status == Finished ==> s.remaining == 0)
    && (s.status == Idle ==> s.remaining == s.duration)
  }

  /** The operations a caller can apply to a basic timer. */
  datatype Op = Start | Pause | Reset | SetDuration(secs: u32) | Tick

  function Apply(s: BasicState, op: Op): BasicState
  {
    match op
    case Start => AfterStart(s)
    case Pause => AfterPause(s)
    case Reset => AfterReset(s)
    case SetDuration(secs) => AfterSetDuration(s, secs)
    case Tick => AfterTick(s)
  }

  function Run(s: BasicState, ops: seq<Op>): BasicState
    decreases |ops|
  {
    if |ops| == 0 then s else Run(Apply(s, ops[0]), ops[1..])
  }

  function Ticks(s: BasicState, k: nat): BasicState
    decreases k
  {
    if k == 0 then s else Ticks(AfterTick(s), k - 1)
  }

  // ---- single-step properties ----

  lemma NewIsIdleAndFull(d: u32)
    ensures New(d).remaining == d && New(d).duration == d && New(d).status == Idle
    ensures Invariant(New(d))
  {
  }

  /** A tick moves nothing unless the timer is running. */
  lemma TickOnlyWhenRunning(s: BasicState)
    ensures s.status != Running ==> AfterTick(s) == s
    ensures s.status == Running ==>
      && AfterTick(s).duration == s.duration
      && AfterTick(s).remaining == (if s.remaining == 0 then 0 else s.remaining - 1)
      && (AfterTick(s).status == Finished <==> AfterTick(s).remaining == 0)
      && (AfterTick(s).status != Finished ==> AfterTick(s).status == Running)
  {
  }

  /** `start` runs every status except Finished, which it leaves alone. */
  lemma StartGuard(s: BasicState)
    ensures s.status == Finished ==> AfterStart(s) == s
    ensures s.status != Finished ==> AfterStart(s) == s.(status := Running)
  {
  }

  /** `pause` changes only Running into Paused. */
  lemma PauseOnlyFromRunning(s: BasicState)
    ensures AfterPause(s).status == (if s.status == Running then Paused else s.status)
    ensures AfterPause(s).remaining == s.remaining && AfterPause(s).duration == s.duration
  {
  }

  /** Reset and retarget are the same as constructing a fresh timer. */
  lemma ResetAndRetargetAreFresh(s: BasicState, secs: u32)
    ensures AfterReset(s) == New(s.duration)
    ensures AfterSetDuration(s, secs) == New(secs)
  {
  }

  lemma InvariantPreserved(s: BasicState, op: Op)
    requires Invariant(s)
    ensures Invariant(Apply(s, op))
  {
  }

  // ---- properties of operation sequences ----

  lemma {:induction false} RunPreservesInvariant(s: BasicState, ops: seq<Op>)
    requires Invariant(s)
    ensures Invariant(Run(s, ops))
    decreases |ops|
  {
    if |ops| > 0 {
      InvariantPreserved(s, ops[0]);
      RunPreservesInvariant(Apply(s, ops[0]), ops[1..]);
    }
  }

  /** Every state reachable from construction satisfies the invariant. */
  lemma ReachableSatisfiesInvariant(d: u32, ops: seq<Op>)
    ensures Invariant(Run(New(d), ops))
  {
    RunPreservesInvariant(New(d), ops);
  }

  /** A finished timer cannot resume: only reset or retarget leave Finished. */
  lemma {:induction false} FinishedIsTerminal(s: BasicState, ops: seq<Op>)
    requires s.status == Finished
    requires forall i :: 0 <= i < |ops| ==> ops[i] in {Start, Pause, Tick}
    ensures Run(s, ops) == s
  {
    if |ops| > 0 {
      assert ops[0] in {Start, Pause, Tick};
      FinishedIsTerminal(Apply(s, ops[0]), ops[1..]);
    }
  }

  /**
   * `k` ticks of a running timer count down `k` seconds, saturating at 0;
   * it is Finished exactly when the count reached 0 (at least one tick).
   */
  lemma {:induction false} TicksCountDown(s: BasicState, k: nat)
    requires s.status == Running
    ensures Ticks(s, k).duration == s.duration
    ensures k <= s.remaining ==> Ticks(s, k).remaining == s.remaining - k
    ensures k > s.remaining ==> Ticks(s, k).remaining == 0
    ensures Ticks(s, k).status == (if k > 0 && k >= s.remaining then Finished else Running)
    decreases k
  {
    if k > 0 {
      var t := AfterTick(s);
      if t.status == Running {
        TicksCountDown(t, k - 1);
      } else {
        TicksStayFinished(t, k - 1);
      }
    }
  }

  /** Ticks leave a timer that is not running as it is. */
  lemma {:induction false} TicksStayFinished(s: BasicState, k: nat)
    requires s.status != Running
    ensures Ticks(s, k) == s
  {
    if k > 0 {
      TicksStayFinished(AfterTick(s), k - 1);
    }
  }

  // ---- display ----

  /** The display reads back as exactly the remaining seconds. */
  lemma DisplayRoundTrip(s: BasicState)
    ensures Text.ClockValue(Display(s)) == s.remaining
  {
    var total := s.remaining;
    var h, m, sec := total / 3600, (total % 3600) / 60, total % 60;
    Text.ParseZeroPad2(m);
    Text.ParseZeroPad2(sec);
    if h > 0 {
      Text.ParseNatToString(h);
      Text.SplitThreeFields(Text.NatToString(h), Text.ZeroPad2(m), Text.ZeroPad2(sec));
      Text.FieldsValue3(Text.NatToString(h), Text.ZeroPad2(m), Text.ZeroPad2(sec));
    } else {
      Text.SplitTwoFields(Text.ZeroPad2(m), Text.ZeroPad2(sec));
      Text.FieldsValue2(Text.ZeroPad2(m), Text.ZeroPad2(sec));
    }
    SexagesimalDigits(total);
  }

  lemma SexagesimalDigits(total: nat)
    ensures (total / 3600) * 3600 + ((total % 3600) / 60) * 60 + total % 60 == total
  {
    var q, r := total / 3600, total % 3600;
    var m, sec := r / 60, r % 60;
    assert total == q * 3600 + r;
    assert r == m * 60 + sec;
    ModOfSum(q * 60 + m, sec, total);
  }

  lemma ModOfSum(a: nat, b: nat, x: nat)
    requires b < 60 && x == a * 60 + b
    ensures x % 60 == b
  {
  }

  /**
   * Below an hour the display is two 2-digit fields; from an hour on it is an
   * unpadded hour field followed by two 2-digit fields, each below 60.
   */
  lemma DisplayLayout(s: BasicState)
    ensures var f := Text.Split(Display(s), ':');
      && (s.remaining < 3600 ==> |f| == 2)
      && (s.remaining >= 3600 ==> |f| == 3 && f[0][0] != '0')
      && (forall k :: 0 <= k < |f| ==> Text.AllDigits(f[k]))
      && (forall k :: 0 < k < |f| || (|f| == 2 && k == 0) ==> |f[k]| == 2 && Text.ParseDecimal(f[k]) < 60)
  {
    var total := s.remaining;
    var h, m, sec := total / 3600, (total % 3600) / 60, total % 60;
    Text.ParseZeroPad2(m);
    Text.ParseZeroPad2(sec);
    if h > 0 {
      Text.SplitThreeFields(Text.NatToString(h), Text.ZeroPad2(m), Text.ZeroPad2(sec));
    } else {
      Text.SplitTwoFields(Text.ZeroPad2(m), Text.ZeroPad2(sec));
    }
  }

  lemma DisplayExamples()
    ensures Display(New(125)) == "02:05"
    ensures Display(New(0)) == "00:00"
    ensures Display(New(3661)) == "1:01:01"
  {
    Text.ZeroPad2Digits(0);
    Text.ZeroPad2Digits(1);
    Text.ZeroPad2Digits(2);
    Text.ZeroPad2Digits(5);
    assert Display(New(125)) == "02:05" by {
      assert 125 / 3600 == 0 && (125 % 3600) / 60 == 2 && 125 % 60 == 5;
      assert Text.ZeroPad2(2) + ":" + Text.ZeroPad2(5) == "02:05";
    }
    assert Display(New(0)) == "00:00" by {
      assert Text.ZeroPad2(0) + ":" + Text.ZeroPad2(0) == "00:00";
    }
    assert Display(New(3661)) == "1:01:01" by {
      assert 3661 / 3600 == 1 && (3661 % 3600) / 60 == 1 && 3661 % 60 == 1;
      assert Text.NatToString(1) == "1";
      assert Text.NatToString(1) + ":" + Text.ZeroPad2(1) + ":" + Text.ZeroPad2(1) == "1:01:01";
    }
  }

  // ---- the mutable timer ----

  /** A basic timer whose fields are updated in place. */
  class BasicTimer {
    var durationSecs: u32
    var remainingSecs: u32
    var status: TimerStatus

    function State(): BasicState
      reads this
    {
      BasicState(durationSecs, remainingSecs, status)
    }

    ghost predicate Valid()
      reads this
    {
      Invariant(State())
    }

    constructor (duration: u32)
      ensures State() == New(duration) && Valid()
    {
      durationSecs := duration;
      remainingSecs := duration;
      status := Idle;
    }

    method Tick()
      requires Valid()
      modifies this
      ensures State() == AfterTick(old(State())) && Valid()
    {
      if status != Running {
        return;
      }
      remainingSecs := SaturatingSub(remainingSecs, 1);
      if remainingSecs == 0 {
        status := Finished;
      }
    }

    method Start()
      requires Valid()
      modifies this
      ensures State() == AfterStart(old(State())) && Valid()
    {
      if status != Finished {
        status := Running;
      }
    }

    method Pause()
      requires Valid()
      modifies this
      ensures State() == AfterPause(old(State())) && Valid()
    {
      if status == Running {
        status := Paused;
      }
    }

    method Reset()
      modifies this
      ensures State() == AfterReset(old(State())) && Valid()
    {
      remainingSecs := durationSecs;
      status := Idle;
    }

    method SetDuration(secs: u32)
      modifies this
      ensures State() == AfterSetDuration(old(State()), secs) && Valid()
    {
      durationSecs := secs;
      remainingSecs := secs;
      status := Idle;
    }
  }
}
