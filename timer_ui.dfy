/** The front end's own rendering of a basic timer's remaining time. */
module TimerUi {
  import Text
  import T = Timer

  /**
   * `formatDisplay`: hours unpadded when at least one, then two-digit minutes
   * and seconds, each padded with `padStart(2, "0")`. Inputs are whole,
   * non-negative seconds.
   */
  function FormatDisplay(remainingSecs: nat): string
  {
    var h := remainingSecs / 3600;
    var m := (remainingSecs % 3600) / 60;
    var s := remainingSecs % 60;
    var mm := Text.PadStart(Text.NatToString(m), 2, '0');
    var ss := Text.PadStart(Text.NatToString(s), 2, '0');
    if h > 0 then Text.NatToString(h) + ":" + mm + ":" + ss else mm + ":" + ss
  }

  /** The front end and the back end write the same text for every remaining time. */
  lemma AgreesWithBasicDisplay(s: T.BasicState)
    ensures FormatDisplay(s.remaining) == T.Display(s)
  {
    var n := s.remaining;
    var h, m, sec := n / 3600, (n % 3600) / 60, n % 60;
    var mm, ss := Text.PadStart(Text.NatToString(m), 2, '0'), Text.PadStart(Text.NatToString(sec), 2, '0');
    assert FormatDisplay(n) == if h > 0 then Text.NatToString(h) + ":" + mm + ":" + ss else mm + ":" + ss;
    assert T.Display(s) == if h > 0 then Text.NatToString(h) + ":" + Text.ZeroPad2(m) + ":" + Text.ZeroPad2(sec)
      else Text.ZeroPad2(m) + ":" + Text.ZeroPad2(sec);
    Text.PadStartIsZeroPad2(m);
    Text.PadStartIsZeroPad2(sec);
  }

  /** Below an hour: two-digit minutes and seconds. */
  lemma ShortForm(n: nat)
    requires n < 3600
    ensures FormatDisplay(n) == Text.ZeroPad2(n / 60) + ":" + Text.ZeroPad2(n % 60)
  {
    assert n / 3600 == 0 && n % 3600 == n;
    Text.PadStartIsZeroPad2(n / 60);
    Text.PadStartIsZeroPad2(n % 60);
  }

  /** Below an hour the text is exactly two 2-digit fields joined by a colon. */
  lemma ShortLayout(n: nat)
    requires n < 3600
    ensures var r := FormatDisplay(n);
      && |r| == 5 && r[2] == ':'
      && Text.AllDigits(r[..2]) && Text.AllDigits(r[3..])
      && Text.ClockValue(r) == n
  {
    var s := T.BasicState(n, n, T.Idle);
    AgreesWithBasicDisplay(s);
    T.DisplayRoundTrip(s);
    ShortForm(n);
    Text.TwoFieldText(Text.ZeroPad2(n / 60), Text.ZeroPad2(n % 60));
  }

  lemma ShortExamples()
    ensures FormatDisplay(0) == "00:00"
    ensures FormatDisplay(5) == "00:05"
    ensures FormatDisplay(60) == "01:00"
    ensures FormatDisplay(125) == "02:05"
  {
    Text.ZeroPad2Digits(0);
    Text.ZeroPad2Digits(1);
    Text.ZeroPad2Digits(2);
    Text.ZeroPad2Digits(5);
    assert FormatDisplay(0) == "00:00" by {
      ShortForm(0);
      assert Text.ZeroPad2(0) + ":" + Text.ZeroPad2(0) == "00:00";
    }
    assert FormatDisplay(5) == "00:05" by {
      ShortForm(5);
      assert 5 / 60 == 0 && 5 % 60 == 5;
      assert Text.ZeroPad2(0) + ":" + Text.ZeroPad2(5) == "00:05";
    }
    assert FormatDisplay(60) == "01:00" by {
      ShortForm(60);
      assert 60 / 60 == 1 && 60 % 60 == 0;
      assert Text.ZeroPad2(1) + ":" + Text.ZeroPad2(0) == "01:00";
    }
    assert FormatDisplay(125) == "02:05" by {
      ShortForm(125);
      assert 125 / 60 == 2 && 125 % 60 == 5;
      assert Text.ZeroPad2(2) + ":" + Text.ZeroPad2(5) == "02:05";
    }
  }

  /** From an hour on: unpadded hours, then two-digit minutes and seconds. */
  lemma LongForm(n: nat)
    requires n >= 3600
    ensures FormatDisplay(n) == Text.NatToString(n / 3600) + ":" + Text.ZeroPad2((n % 3600) / 60) + ":" + Text.ZeroPad2(n % 60)
  {
    Text.PadStartIsZeroPad2((n % 3600) / 60);
    Text.PadStartIsZeroPad2(n % 60);
  }

  lemma HourExamples()
    ensures FormatDisplay(3661) == "1:01:01"
    ensures FormatDisplay(7200) == "2:00:00"
  {
    LongForm(3661);
    LongForm(7200);
    assert 3661 / 3600 == 1 && (3661 % 3600) / 60 == 1 && 3661 % 60 == 1;
    assert 7200 / 3600 == 2 && (7200 % 3600) / 60 == 0 && 7200 % 60 == 0;
    assert Text.NatToString(1) == "1" && Text.NatToString(2) == "2";
    Text.ZeroPad2Digits(0);
    Text.ZeroPad2Digits(1);
  }
}
