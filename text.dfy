/**
 * Decimal rendering and the small string toolkit the display strings are built
 * from, with parsers that read those strings back.
 */
module Text {
  predicate IsDigit(c: char) { '0' <= c <= '9' }

  predicate AllDigits(s: string) { forall i :: 0 <= i < |s| ==> IsDigit(s[i]) }

  function DigitChar(d: nat): (c: char)
    requires d < 10
    ensures IsDigit(c)
  {
    ('0' as int + d) as char
  }

  function DigitValue(c: char): nat
  {
    if IsDigit(c) then c as int - '0' as int else 0
  }

  /** Decimal digits of `n` with no leading zero: Rust's `{}` and JavaScript's `String(n)`. */
  function NatToString(n: nat): (r: string)
    ensures |r| >= 1 && AllDigits(r)
    ensures (|r| == 1) == (n < 10)
    ensures (r[0] == '0') == (n == 0)
  {
    if n < 10 then [DigitChar(n)] else NatToString(n / 10) + [DigitChar(n % 10)]
  }

  /** Reads a string of decimal digits (leading zeros allowed). */
  function ParseDecimal(s: string): nat
  {
    if |s| == 0 then 0 else ParseDecimal(s[..|s| - 1]) * 10 + DigitValue(s[|s| - 1])
  }

  lemma {:induction false} ParseNatToString(n: nat)
    ensures ParseDecimal(NatToString(n)) == n
  {
    var r := NatToString(n);
    if n < 10 {
      assert r[..0] == [];
    } else {
      assert r[..|r| - 1] == NatToString(n / 10);
      ParseNatToString(n / 10);
    }
  }

  /** Rust's `{n:02}`: at least two digits, zero-filled on the left. */
  function ZeroPad2(n: nat): (r: string)
    ensures |r| >= 2 && AllDigits(r)
    ensures (|r| == 2) == (n < 100)
  {
    if n < 10 then "0" + NatToString(n) else NatToString(n)
  }

  /** Below 100 the padded text is exactly the tens digit and the units digit. */
  lemma ZeroPad2Digits(n: nat)
    requires n < 100
    ensures ZeroPad2(n) == [DigitChar(n / 10), DigitChar(n % 10)]
  {
    if n >= 10 {
      assert NatToString(n / 10) == [DigitChar(n / 10)];
    }
  }

  lemma ParseZeroPad2(n: nat)
    ensures ParseDecimal(ZeroPad2(n)) == n
  {
    ParseNatToString(n);
    if n < 10 {
      var r := ZeroPad2(n);
      assert r[..1] == "0";
      assert r[..1][..0] == [];
    }
  }

  /** JavaScript's `s.padStart(width, fill)` for a one-character fill. */
  function PadStart(s: string, width: nat, fill: char): (r: string)
    ensures |r| == if |s| >= width then |s| else width
    ensures r[|r| - |s|..] == s
    ensures forall i :: 0 <= i < |r| - |s| ==> r[i] == fill
  {
    if |s| >= width then s else seq(width - |s|, _ => fill) + s
  }

  /** `String(n).padStart(2, "0")` and Rust's `{n:02}` write the same text. */
  lemma PadStartIsZeroPad2(n: nat)
    ensures PadStart(NatToString(n), 2, '0') == ZeroPad2(n)
  {
    var s := NatToString(n);
    if n < 10 {
      assert PadStart(s, 2, '0') == ['0'] + s;
    }
  }

  /** Rust's `Vec<&str>::join` with a one-character separator. */
  function Join(xs: seq<string>, sep: char): string
  {
    if |xs| == 0 then "" else if |xs| == 1 then xs[0] else xs[0] + [sep] + Join(xs[1..], sep)
  }

  /** Cuts `s` at every `sep`; the pieces contain no `sep`. */
  function Split(s: string, sep: char): (r: seq<string>)
    ensures |r| >= 1
    ensures forall k :: 0 <= k < |r| ==> sep !in r[k]
  {
    if |s| == 0 then [""]
    else
      var rest := Split(s[1..], sep);
      if s[0] == sep then [""] + rest else [[s[0]] + rest[0]] + rest[1..]
  }

  lemma {:induction false} SplitNoSeparator(s: string, sep: char)
    requires sep !in s
    ensures Split(s, sep) == [s]
  {
    if |s| > 0 {
      assert sep !in s[1..];
      SplitNoSeparator(s[1..], sep);
      assert [s[0]] + s[1..] == s;
    }
  }

  lemma {:induction false} SplitAtFirst(a: string, sep: char, b: string)
    requires sep !in a
    ensures Split(a + [sep] + b, sep) == [a] + Split(b, sep)
  {
    if |a| == 0 {
      assert (a + [sep] + b)[1..] == b;
    } else {
      assert (a + [sep] + b)[1..] == a[1..] + [sep] + b;
      assert sep !in a[1..];
      SplitAtFirst(a[1..], sep, b);
      assert [a[0]] + a[1..] == a;
    }
  }

  /** Splitting undoes joining pieces that do not contain the separator. */
  lemma {:induction false} SplitJoin(xs: seq<string>, sep: char)
    requires |xs| >= 1
    requires forall k :: 0 <= k < |xs| ==> sep !in xs[k]
    ensures Split(Join(xs, sep), sep) == xs
  {
    if |xs| == 1 {
      SplitNoSeparator(xs[0], sep);
    } else {
      SplitJoin(xs[1..], sep);
      SplitAtFirst(xs[0], sep, Join(xs[1..], sep));
      assert [xs[0]] + xs[1..] == xs;
    }
  }

  /** Joining undoes splitting. */
  lemma {:induction false} JoinSplit(s: string, sep: char)
    ensures Join(Split(s, sep), sep) == s
  {
    if |s| > 0 {
      JoinSplit(s[1..], sep);
      var rest := Split(s[1..], sep);
      if s[0] != sep && |rest| > 1 {
        assert rest == [rest[0]] + rest[1..];
        assert Join(rest, sep) == rest[0] + [sep] + Join(rest[1..], sep);
        var r := [[s[0]] + rest[0]] + rest[1..];
        assert r[1..] == rest[1..];
      }
    }
  }

  /** Value of `h:m:s`-style fields read as base-60 digits, most significant first. */
  function FieldsValue(fields: seq<string>): nat
  {
    if |fields| == 0 then 0
    else FieldsValue(fields[..|fields| - 1]) * 60 + ParseDecimal(fields[|fields| - 1])
  }

  /** Number of seconds a colon-separated clock string denotes. */
  function ClockValue(s: string): nat
  {
    FieldsValue(Split(s, ':'))
  }

  /** The value of two or three fields, written out. */
  lemma FieldsValue2(a: string, b: string)
    ensures FieldsValue([a, b]) == ParseDecimal(a) * 60 + ParseDecimal(b)
  {
    assert [a, b][..1] == [a];
    assert [a][..0] == [];
    assert FieldsValue([a]) == ParseDecimal(a);
  }

  lemma FieldsValue3(a: string, b: string, c: string)
    ensures FieldsValue([a, b, c]) == ParseDecimal(a) * 3600 + ParseDecimal(b) * 60 + ParseDecimal(c)
  {
    assert [a, b, c][..2] == [a, b];
    FieldsValue2(a, b);
  }

  lemma NoColonInDigits(x: string)
    requires AllDigits(x)
    ensures ':' !in x
  {
  }

  /** `x + ":" + y` splits into the two fields when `x` has no colon. */
  lemma SplitTwoFields(x: string, y: string)
    requires AllDigits(x) && AllDigits(y)
    ensures Split(x + ":" + y, ':') == [x, y]
  {
    NoColonInDigits(x);
    NoColonInDigits(y);
    SplitAtFirst(x, ':', y);
    SplitNoSeparator(y, ':');
  }

  /** The character layout of two 2-digit fields joined by a colon. */
  lemma TwoFieldText(x: string, y: string)
    requires |x| == 2 && |y| == 2
    ensures var r := x + ":" + y;
      |r| == 5 && r[2] == ':' && r[..2] == x && r[3..] == y
  {
  }

  lemma SplitThreeFields(x: string, y: string, z: string)
    requires AllDigits(x) && AllDigits(y) && AllDigits(z)
    ensures Split(x + ":" + y + ":" + z, ':') == [x, y, z]
  {
    NoColonInDigits(x);
    SplitTwoFields(y, z);
    assert x + ":" + y + ":" + z == x + [':'] + (y + ":" + z);
    SplitAtFirst(x, ':', y + ":" + z);
  }
}
