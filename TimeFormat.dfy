/**
 * The player's `format_time`: a number of seconds shown as `MM:SS`.
 * Minutes are the whole minutes, seconds the remainder, each padded with
 * zeros to at least two digits (Python's `{n:02}`); there is no hour field,
 * so minutes grow past two digits.  The model works on whole, non-negative
 * seconds.
 */
module TimeFormat {
  import opened Wrappers
  import opened Numerals

  /** Python's `f"{n:02}"` for a non-negative integer. */
  function Pad2(n: nat): (r: string)
    ensures |r| >= 2 && AllDigits(r) && ValueOf(r) == n
    ensures n < 100 ==> |r| == 2
    ensures |r| > 2 ==> r[0] != '0'
  {
    ValueOfDecimal(n);
    if n < 10 then
      ValueOfLeadingZero(Decimal(n));
      "0" + Decimal(n)
    else
      assert n < 100 ==> Decimal(n) == Decimal(n / 10) + [DigitChar(n % 10)];
      Decimal(n)
  }

  /** `MM:SS`: the field before the colon is the whole minutes, the two digits after it the remaining seconds. */
  function FormatTime(seconds: nat): (r: string)
    ensures |r| >= 5 && r[|r| - 3] == ':'
    ensures AllDigits(r[..|r| - 3]) && AllDigits(r[|r| - 2..])
    ensures ValueOf(r[..|r| - 3]) == seconds / 60
    ensures ValueOf(r[|r| - 2..]) == seconds % 60 < 60
    ensures seconds < 6000 ==> |r| == 5
    ensures |r| > 5 ==> r[0] != '0'
  {
    var mm := Pad2(seconds / 60);
    var ss := Pad2(seconds % 60);
    var r := mm + ":" + ss;
    assert r[..|r| - 3] == mm && r[|r| - 2..] == ss;
    r
  }

  /** Reads an `MM:SS` label back into seconds; None when the text is not of that form. */
  function ParseTime(t: string): Option<nat> {
    if |t| >= 5 && t[|t| - 3] == ':' && AllDigits(t[..|t| - 3]) && AllDigits(t[|t| - 2..])
       && ValueOf(t[|t| - 2..]) < 60
    then Some(ValueOf(t[..|t| - 3]) * 60 + ValueOf(t[|t| - 2..]))
    else None
  }

  /** Every label the player shows reads back as the seconds it was made from. */
  lemma FormatTimeRoundTrip(seconds: nat)
    ensures ParseTime(FormatTime(seconds)) == Some(seconds)
  {
  }

  /** Different whole-second positions give different labels. */
  lemma FormatTimeInjective(a: nat, b: nat)
    requires FormatTime(a) == FormatTime(b)
    ensures a == b
  {
    FormatTimeRoundTrip(a);
    FormatTimeRoundTrip(b);
  }

  /** The label of a time position in milliseconds: whole minutes and whole seconds of the position. */
  lemma LabelOfMilliseconds(positionMs: nat)
    ensures var r := FormatTime(positionMs / 1000);
      ValueOf(r[..|r| - 3]) == positionMs / 60000 && ValueOf(r[|r| - 2..]) == (positionMs / 1000) % 60
  {
    assert (positionMs / 1000) / 60 == positionMs / 60000;
  }

  /** Concrete labels: the start of a video, two minutes five seconds, and a position past 99 minutes. */
  lemma FormatTimeExamples()
    ensures FormatTime(0) == "00:00"
    ensures FormatTime(125) == "02:05"
    ensures FormatTime(6000) == "100:00"
  {
    assert DigitChar(0) == '0' && DigitChar(1) == '1' && DigitChar(2) == '2' && DigitChar(5) == '5';
    assert Pad2(0) == "00" by { assert Decimal(0) == "0"; }
    assert Pad2(2) == "02" by { assert Decimal(2) == "2"; }
    assert Pad2(5) == "05" by { assert Decimal(5) == "5"; }
    assert Pad2(100) == "100" by {
      assert Decimal(1) == "1";
      assert Decimal(10) == Decimal(1) + "0";
      assert Decimal(100) == Decimal(10) + "0";
    }
    assert FormatTime(0) == Pad2(0) + ":" + Pad2(0);
    assert FormatTime(125) == Pad2(2) + ":" + Pad2(5);
    assert FormatTime(6000) == Pad2(100) + ":" + Pad2(0);
  }
}
