/**
 * The `HH:MM:SS` rendering of a number of seconds (`format_time`) and a parser
 * that reads such a rendering back.
 */
module Format {
  import opened Wrappers

  predicate IsDigit(c: char) { '0' <= c <= '9' }

  predicate AllDigits(s: string) { forall i :: 0 <= i < |s| ==> IsDigit(s[i]) }

  function DigitChar(d: int): (c: char)
    requires 0 <= d < 10
    ensures IsDigit(c) && DigitValue(c) == d
  {
    (('0' as int) + d) as char
  }

  function DigitValue(c: char): int { (c as int) - ('0' as int) }

  /** The decimal numeral of `n`, without leading zeros. */
  function Digits(n: nat): (s: string)
    ensures |s| >= 1 && AllDigits(s)
    ensures n < 10 <==> |s| == 1
    ensures 10 <= n < 100 ==> |s| == 2
    ensures n >= 1 ==> s[0] != '0'
  {
    if n < 10 then [DigitChar(n)] else Digits(n / 10) + [DigitChar(n % 10)]
  }

  /** The value of a decimal numeral (leading zeros allowed). */
  function ParseNat(s: string): nat
    requires AllDigits(s)
  {
    if s == [] then 0 else ParseNat(s[..|s| - 1]) * 10 + DigitValue(s[|s| - 1])
  }

  lemma {:induction false} ParseDigits(n: nat)
    ensures ParseNat(Digits(n)) == n
  {
    if n >= 10 {
      var d := Digits(n / 10);
      var s := d + [DigitChar(n % 10)];
      assert s[..|s| - 1] == d;
      ParseDigits(n / 10);
    }
  }

  /**
   * Python's `f"{n:02}"`: zero-padded to a width of two, the sign counting
   * toward the width, so a negative number is just a minus and its digits.
   */
  function Pad2(n: int): (s: string)
    ensures |s| >= 2
    ensures n >= 0 ==> AllDigits(s)
    ensures 0 <= n < 100 ==> |s| == 2
    ensures n < 0 ==> s[0] == '-' && AllDigits(s[1..])
    ensures n >= 10 ==> s[0] != '0'
    ensures n < 0 ==> s[1] != '0'
  {
    if n < 0 then "-" + Digits(-n)
    else if n < 10 then "0" + Digits(n)
    else Digits(n)
  }

  /** A numeral that may carry a leading minus: the shape `Pad2` produces. */
  predicate IsSignedNumeral(s: string)
  {
    (|s| > 0 && AllDigits(s)) || (|s| > 1 && s[0] == '-' && AllDigits(s[1..]))
  }

  function ParseSigned(s: string): int
    requires IsSignedNumeral(s)
  {
    if s[0] == '-' then -(ParseNat(s[1..]) as int) else ParseNat(s)
  }

  lemma {:induction false} ParsePad2(n: int)
    ensures IsSignedNumeral(Pad2(n)) && ParseSigned(Pad2(n)) == n
  {
    var s := Pad2(n);
    if n < 0 {
      assert s[1..] == Digits(-n);
      ParseDigits(-n);
    } else if n < 10 {
      assert s == ['0', DigitChar(n)];
      assert s[..1] == ['0'] && ['0'][..0] == [];
      assert ParseNat(['0']) == 0;
      assert ParseNat(s) == DigitValue(DigitChar(n));
    } else {
      ParseDigits(n);
    }
  }

  /**
   * The hours, minutes and seconds of `format_time`: `seconds // 3600`,
   * `(seconds % 3600) // 60` and `seconds % 60`, with Python's floor division.
   */
  function ClockFields(seconds: int): (f: (int, int, int))
    ensures f.0 * 3600 + f.1 * 60 + f.2 == seconds
    ensures 0 <= f.1 < 60 && 0 <= f.2 < 60
    ensures seconds >= 0 ==> f.0 >= 0
  {
    (seconds / 3600, (seconds % 3600) / 60, seconds % 60)
  }

  /** The fields are the only split of `seconds` with minutes and seconds in 0..59. */
  lemma ClockFieldsUnique(seconds: int, h: int, m: int, s: int)
    requires h * 3600 + m * 60 + s == seconds
    requires 0 <= m < 60 && 0 <= s < 60
    ensures ClockFields(seconds) == (h, m, s)
  {
    var f := ClockFields(seconds);
    assert 0 <= m * 60 + s < 3600 && 0 <= f.1 * 60 + f.2 < 3600;
    assert (h - f.0) * 3600 == (f.1 * 60 + f.2) - (m * 60 + s);
    assert h == f.0;
    assert (m - f.1) * 60 == f.2 - s;
  }

  /** The text `hh:mm:ss`. */
  function ClockText(hh: string, mm: string, ss: string): string
  {
    hh + ":" + mm + ":" + ss
  }

  /** Where the parts of a clock text with two-character minutes and seconds lie. */
  lemma ClockTextSlices(hh: string, mm: string, ss: string)
    requires |mm| == 2 && |ss| == 2
    ensures var t := ClockText(hh, mm, ss);
      |t| == |hh| + 6 && t[..|t| - 6] == hh && t[|t| - 6] == ':' &&
      t[|t| - 5..|t| - 3] == mm && t[|t| - 3] == ':' && t[|t| - 2..] == ss
  {
    var t := ClockText(hh, mm, ss);
    assert t == hh + [':', mm[0], mm[1], ':', ss[0], ss[1]];
  }

  /** `format_time(seconds)`: `H:MM:SS` with each field zero-padded to two characters. */
  function FormatTime(seconds: int): (t: string)
    ensures |t| >= 8 && t[|t| - 6] == ':' && t[|t| - 3] == ':'
    ensures AllDigits(t[|t| - 5..|t| - 3]) && AllDigits(t[|t| - 2..])
    ensures seconds >= 0 ==> AllDigits(t[..|t| - 6])
    ensures ParseNat(t[|t| - 5..|t| - 3]) < 60 && ParseNat(t[|t| - 2..]) < 60
    ensures t[0] == '0' ==> |t| == 8
    ensures t[0] == '-' ==> t[1] != '0'
  {
    var f := ClockFields(seconds);
    var hh, mm, ss := Pad2(f.0), Pad2(f.1), Pad2(f.2);
    assert |mm| == 2 && AllDigits(mm) && |ss| == 2 && AllDigits(ss);
    assert seconds >= 0 ==> AllDigits(hh);
    ClockTextSlices(hh, mm, ss);
    ParsePad2(f.1);
    ParsePad2(f.2);
    assert ClockText(hh, mm, ss)[0] == hh[0] && ClockText(hh, mm, ss)[1] == hh[1];
    ClockText(hh, mm, ss)
  }

  /** The minutes and seconds shown are the `ClockFields` of the value rendered. */
  lemma FormatTimeShowsFields(seconds: int)
    ensures var t := FormatTime(seconds);
      ParseNat(t[|t| - 5..|t| - 3]) == ClockFields(seconds).1 &&
      ParseNat(t[|t| - 2..]) == ClockFields(seconds).2
  {
    var f := ClockFields(seconds);
    ClockTextSlices(Pad2(f.0), Pad2(f.1), Pad2(f.2));
    ParsePad2(f.1);
    ParsePad2(f.2);
  }

  /** The value of the three fields of a clock text; `None` unless they are numerals. */
  function ParseParts(hh: string, mm: string, ss: string): Option<int>
  {
    if IsSignedNumeral(hh) && AllDigits(mm) && AllDigits(ss)
    then Some(ParseSigned(hh) * 3600 + ParseNat(mm) * 60 + ParseNat(ss))
    else None
  }

  /** Reads an `H:MM:SS` text back into seconds; `None` when it is not of that shape. */
  function ParseClock(t: string): Option<int>
  {
    if |t| < 7 || t[|t| - 6] != ':' || t[|t| - 3] != ':' then None
    else ParseParts(t[..|t| - 6], t[|t| - 5..|t| - 3], t[|t| - 2..])
  }

  /** Every rendering reads back as the number of seconds it was made from. */
  lemma {:induction false} FormatTimeRoundTrip(seconds: int)
    ensures ParseClock(FormatTime(seconds)) == Some(seconds)
  {
    var f := ClockFields(seconds);
    var hh, mm, ss := Pad2(f.0), Pad2(f.1), Pad2(f.2);
    ClockTextSlices(hh, mm, ss);
    ParsePad2(f.0);
    ParsePad2(f.1);
    ParsePad2(f.2);
    assert ParseClock(FormatTime(seconds)) == ParseParts(hh, mm, ss);
  }
}
