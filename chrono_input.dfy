/**
 * The sprint-time text field: `formatChrono` writes a time as `ss.hh`,
 * `parseChrono` reads the digits typed so far with the last two as
 * hundredths, and `handleChange` shows the digits with a '.' before the last two.
 */
module ChronoInput {
  import opened Wrappers
  import opened JsMath
  import opened Text

  /** Seconds and hundredths, each padded to two characters, joined by '.'. */
  function JoinTime(seconds: int, hundredths: int): (s: string)
    ensures |s| >= 5
  {
    var sec := PadStart(IntToString(seconds), 2, '0');
    var hun := PadStart(IntToString(hundredths), 2, '0');
    assert |sec| >= 2 && |hun| >= 2;
    sec + "." + hun
  }

  /** A time as its whole seconds and its fraction rounded to hundredths. */
  function FormatTime(v: real): (s: string)
    ensures |s| >= 5
  {
    var seconds := Floor(v);
    JoinTime(seconds, Round((v - seconds as real) * 100.0))
  }

  /** `formatChrono`: '' for no time, otherwise the time written out. */
  function FormatChrono(value: Option<real>): (s: string)
    ensures value.None? <==> s == ""
    ensures value.Some? ==> |s| >= 5
  {
    match value
    case None => ""
    case Some(v) => FormatTime(v)
  }

  /**
   * What a digit string stands for: nothing when empty, one or two digits
   * as that many decimal places, more as whole seconds then two hundredths.
   */
  function ChronoValue(digits: string): Option<real>
    requires AllDigits(digits)
  {
    if |digits| == 0 then None
    else if |digits| <= 2 then Some(DigitsValue(digits) as real / Pow10(|digits|) as real)
    else Some(DigitsValue(digits[..|digits| - 2]) as real + DigitsValue(digits[|digits| - 2..]) as real / 100.0)
  }

  /** The digits with a '.' before the last two, or in front when there are at most two. */
  function Dotted(digits: string): string {
    if |digits| <= 2 then "." + digits
    else digits[..|digits| - 2] + "." + digits[|digits| - 2..]
  }

  /** `parseChrono`: `parseFloat` of the digits with a '.' put before the last two (after "0" when there are fewer). */
  function ParseChrono(str: string): (r: Option<real>)
    ensures r == ChronoValue(Digits(str))
    ensures r.None? <==> Digits(str) == []
  {
    var digits := Digits(str);
    if |digits| == 0 then None
    else if |digits| <= 2 then
      ShortChrono(digits);
      Some(ParseFloat("0." + digits))
    else
      DottedChrono(digits);
      Some(ParseFloat(digits[..|digits| - 2] + "." + digits[|digits| - 2..]))
  }

  /** One or two digits after "0." read as that many decimal places. */
  lemma ShortChrono(digits: string)
    requires AllDigits(digits) && 1 <= |digits| <= 2
    ensures IsDecimalText("0." + digits)
    ensures ParseFloat("0." + digits) == ChronoValue(digits).value
  {
    ParseFloatOfParts("0", digits);
    assert DigitsValue("0") == 0 by {
      assert "0"[..0] == [];
    }
    assert "0." + digits == "0" + "." + digits;
  }

  /**
   * The dotted text of a non-empty digit string is decimal text, keeps the
   * same digits, and reads as the time the digits stand for.
   */
  lemma DottedChrono(digits: string)
    requires AllDigits(digits) && |digits| >= 1
    ensures IsDecimalText(Dotted(digits))
    ensures Digits(Dotted(digits)) == digits
    ensures ParseFloat(Dotted(digits)) == ChronoValue(digits).value
  {
    if |digits| <= 2 {
      DottedShort(digits);
    } else {
      DottedLong(digits);
    }
  }

  lemma DottedShort(digits: string)
    requires AllDigits(digits) && 1 <= |digits| <= 2
    ensures IsDecimalText(Dotted(digits))
    ensures Digits(Dotted(digits)) == digits
    ensures ParseFloat(Dotted(digits)) == ChronoValue(digits).value
  {
    assert "" + digits == digits;
    assert Dotted(digits) == "" + "." + digits;
    DottedParts(digits, "", digits);
    assert DigitsValue("") == 0;
  }

  lemma DottedLong(digits: string)
    requires AllDigits(digits) && |digits| > 2
    ensures IsDecimalText(Dotted(digits))
    ensures Digits(Dotted(digits)) == digits
    ensures ParseFloat(Dotted(digits)) == ChronoValue(digits).value
  {
    var n := |digits|;
    var intPart, fracPart := digits[..n - 2], digits[n - 2..];
    assert digits == intPart + fracPart;
    DottedParts(digits, intPart, fracPart);
    assert Pow10(|fracPart|) == 100;
  }

  /** The dotted text split at its '.', read by `parseFloat`. */
  lemma DottedParts(digits: string, intPart: string, fracPart: string)
    requires AllDigits(digits) && |digits| >= 1 && digits == intPart + fracPart
    requires Dotted(digits) == intPart + "." + fracPart
    ensures AllDigits(intPart) && AllDigits(fracPart)
    ensures IsDecimalText(Dotted(digits))
    ensures Digits(Dotted(digits)) == digits
    ensures ParseFloat(Dotted(digits)) == DecimalValue(intPart, fracPart)
  {
    assert forall i :: 0 <= i < |intPart| ==> intPart[i] == digits[i];
    assert forall i :: 0 <= i < |fracPart| ==> fracPart[i] == digits[|intPart| + i];
    ParseFloatOfParts(intPart, fracPart);
    DigitsAroundDot(intPart, fracPart);
  }

  /** Everything but the digits is discarded: the parse depends on the digit string alone. */
  lemma ParseChronoOnlyDigits(str: string)
    ensures ParseChrono(str) == ParseChrono(Digits(str))
  {
    DigitsOfDigits(Digits(str));
  }

  /** The examples of the field: "5" is 0.5 s, "05" is 0.05 s, "1234" is 12.34 s, "abc" is no time. */
  lemma ParseChronoExamples()
    ensures ParseChrono("5") == Some(0.5)
    ensures ParseChrono("05") == Some(0.05)
    ensures ParseChrono("1234") == Some(12.34)
    ensures ParseChrono("abc") == None
  {
    OneDigitExample();
    TwoDigitExample();
    FourDigitExample();
    NoDigitExample();
  }

  /** A text whose digits are `d` reads as the time `d` stands for. */
  lemma ParseChronoOfDigits(str: string, d: string, v: real)
    requires Digits(str) == d && |d| >= 1 && v == ChronoValue(d).value
    ensures ParseChrono(str) == Some(v)
  {
  }

  lemma OneDigitExample()
    ensures ParseChrono("5") == Some(0.5)
  {
    DigitsOfDigits("5");
    assert DigitsValue("5") == 5 by { assert "5"[..0] == []; }
    ParseChronoOfDigits("5", "5", 0.5);
  }

  lemma TwoDigitExample()
    ensures ParseChrono("05") == Some(0.05)
  {
    DigitsOfDigits("05");
    assert DigitsValue("05") == 5 by { assert "05"[..1] == "0"; assert "0"[..0] == []; }
    ParseChronoOfDigits("05", "05", 0.05);
  }

  lemma FourDigitExample()
    ensures ParseChrono("1234") == Some(12.34)
  {
    DigitsOfDigits("1234");
    assert "1234"[..2] == "12" && "1234"[2..] == "34";
    assert DigitsValue("12") == 12 by { assert "12"[..1] == "1"; assert "1"[..0] == []; }
    assert DigitsValue("34") == 34 by { assert "34"[..1] == "3"; assert "3"[..0] == []; }
    ParseChronoOfDigits("1234", "1234", 12.34);
  }

  lemma NoDigitExample()
    ensures ParseChrono("abc") == None
  {
    assert Digits("abc") == [] by {
      assert "abc"[1..] == "bc" && "bc"[1..] == "c" && "c"[1..] == [];
    }
  }

  /** The text of `handleChange`: the dotted digits, or nothing when there is no digit. */
  function DisplayText(input: string): string {
    var digits := Digits(input);
    if |digits| == 0 then "" else Dotted(digits)
  }

  /** What one keystroke produces: the text shown and the time passed to `onChange`. */
  datatype ChronoEdit = ChronoEdit(display: string, value: Option<real>)

  /**
   * `handleChange`: the text shown and the value emitted agree, the value
   * being exactly what the shown text reads as.
   */
  function HandleChange(input: string): (e: ChronoEdit)
    ensures e.display == "" <==> e.value.None?
    ensures e.value.Some? ==> IsDecimalText(e.display) && e.value.value == ParseFloat(e.display)
    ensures Digits(e.display) == Digits(input)
  {
    var digits := Digits(input);
    if |digits| == 0 then ChronoEdit(DisplayText(input), ParseChrono(input))
    else
      DottedChrono(digits);
      ChronoEdit(DisplayText(input), ParseChrono(input))
  }

  /** Typing into the shown text again shows the same text: the display is a fixed point. */
  lemma DisplayIdempotent(input: string)
    ensures DisplayText(DisplayText(input)) == DisplayText(input)
  {
    var e := HandleChange(input);
    assert Digits(DisplayText(input)) == Digits(input);
  }

  /** A time of `q` seconds and `r` hundredths splits back into `q` and `r`. */
  lemma HundredthsSplit(v: real, q: nat, r: nat)
    requires r < 100 && v == q as real + r as real / 100.0
    ensures Floor(v) == q
    ensures Round((v - Floor(v) as real) * 100.0) == r
  {
    assert (v - q as real) * 100.0 == r as real;
    RoundOfInt(r);
  }

  /** A time of `q` seconds and `r` hundredths is written as padded `q`, '.', padded `r`. */
  lemma FormatOfHundredths(v: real, q: nat, r: nat)
    requires r < 100 && v == q as real + r as real / 100.0
    ensures FormatChrono(Some(v)) == Pad2(NatToString(q)) + "." + Pad2(NatToString(r))
  {
    HundredthsSplit(v, q, r);
    FormatFromParts(v, q, r);
    JoinPadded(q, r);
  }

  lemma FormatChronoSome(v: real)
    ensures FormatChrono(Some(v)) == FormatTime(v)
  {
  }

  lemma JoinPadded(q: nat, r: nat)
    ensures JoinTime(q, r) == Pad2(NatToString(q)) + "." + Pad2(NatToString(r))
  {
  }

  lemma FormatTimeParts(v: real)
    ensures FormatTime(v) == JoinTime(Floor(v), Round((v - Floor(v) as real) * 100.0))
  {
  }

  /** A time written from its whole seconds and rounded hundredths. */
  lemma FormatFromParts(v: real, seconds: int, hundredths: int)
    requires Floor(v) == seconds && Round((v - Floor(v) as real) * 100.0) == hundredths
    ensures FormatChrono(Some(v)) == JoinTime(seconds, hundredths)
  {
    FormatChronoSome(v);
    FormatTimeParts(v);
  }

  /** Reading `a.b`, `b` two digits, gives `a` seconds and `b` hundredths. */
  lemma ParseDotted(a: string, b: string, v: real)
    requires AllDigits(a) && AllDigits(b) && |a| >= 1 && |b| == 2
    requires v == DigitsValue(a) as real + DigitsValue(b) as real / 100.0
    ensures ParseChrono(a + "." + b) == Some(v)
  {
    DigitsAroundDot(a, b);
    ChronoValueSplit(a, b);
  }

  lemma ChronoValueSplit(a: string, b: string)
    requires AllDigits(a) && AllDigits(b) && |a| >= 1 && |b| == 2
    ensures AllDigits(a + b)
    ensures ChronoValue(a + b) == Some(DigitsValue(a) as real + DigitsValue(b) as real / 100.0)
  {
    var d := a + b;
    assert d[..|d| - 2] == a && d[|d| - 2..] == b;
  }

  /**
   * `parseChrono(formatChrono(v)) == v` for every non-negative time `v`
   * given in whole hundredths (`q` seconds and `r` hundredths).
   */
  lemma FormatParseRoundTrip(v: real, q: nat, r: nat)
    requires r < 100 && v == q as real + r as real / 100.0
    ensures ParseChrono(FormatChrono(Some(v))) == Some(v)
  {
    FormatOfHundredths(v, q, r);
    ParseDotted(Pad2(NatToString(q)), Pad2(NatToString(r)), v);
  }

  // ---------------------------------------------------------------------------
  // Hundredths that round up to a whole second

  /**
   * As written, a time whose fraction rounds up to a whole second is shown
   * with 100 hundredths: 9.996 s becomes "09.100", which reads back as 91 s.
   */
  lemma CarryCounterexample()
    ensures FormatChrono(Some(9.996)) == "09.100"
    ensures ParseChrono(FormatChrono(Some(9.996))) == Some(91.0)
  {
    CarryFormat();
    CarryParse();
  }

  lemma CarryFormat()
    ensures FormatChrono(Some(9.996)) == "09.100"
  {
    SplitOfCarry();
    FormatFromParts(9.996, 9, 100);
    JoinNineHundred();
  }

  lemma SplitOfCarry()
    ensures Floor(9.996) == 9 && Round((9.996 - Floor(9.996) as real) * 100.0) == 100
  {
  }

  lemma JoinNineHundred()
    ensures JoinTime(9, 100) == "09.100"
  {
    assert IntToString(9) == "9";
    assert PadStart("9", 2, '0') == PadStart("09", 2, '0');
    assert NatToString(1) == "1";
    assert NatToString(10) == "1" + "0";
    assert NatToString(100) == "10" + "0";
  }

  lemma CarryParse()
    ensures ParseChrono("09.100") == Some(91.0)
  {
    DigitsAroundDot("09", "100");
    assert "09" + "." + "100" == "09.100";
    assert "09" + "100" == "091" + "00";
    ChronoValueSplit("091", "00");
    CarryDigitValues();
    ParseChronoOfDigits("09.100", "091" + "00", 91.0);
  }

  lemma CarryDigitValues()
    ensures DigitsValue("091") == 91 && DigitsValue("00") == 0
  {
    assert DigitsValue("091") == 91 by {
      LeadingZero("91");
      assert "0" + "91" == "091";
      assert "91"[..1] == "9" && "9"[..0] == [];
    }
    assert DigitsValue("00") == 0 by {
      LeadingZero("0");
      assert "0" + "0" == "00";
      assert "0"[..0] == [];
    }
  }

  /** `formatChrono` applied to the time rounded to hundredths, so that 100 hundredths carry into the seconds. */
  function FormatChronoRounded(value: Option<real>): (s: string)
    ensures value.None? <==> s == ""
  {
    match value
    case None => ""
    case Some(v) => FormatChrono(Some(RoundHundredths(v)))
  }

  /**
   * With the carry, every non-negative time reads back as itself rounded
   * to the nearest hundredth, which is at most 0.005 s away.
   */
  lemma FormatRoundedRoundTrip(v: real)
    requires v >= 0.0
    ensures ParseChrono(FormatChronoRounded(Some(v))) == Some(RoundHundredths(v))
  {
    var w := RoundHundredths(v);
    var q, r := HundredthsOf(v, w);
    FormatParseRoundTrip(w, q, r);
  }

  /** The rounded time of a non-negative `v` is `q` seconds and `r` hundredths. */
  lemma HundredthsOf(v: real, w: real) returns (q: nat, r: nat)
    requires v >= 0.0 && w == RoundHundredths(v)
    ensures r < 100 && w == q as real + r as real / 100.0
  {
    var k := Round(v * 100.0);
    assert k >= 0;
    q, r := k / 100, k % 100;
  }

  /** On times in whole hundredths the carrying format writes what `formatChrono` writes. */
  lemma FormatRoundedAgrees(v: real, q: nat, r: nat)
    requires r < 100 && v == q as real + r as real / 100.0
    ensures FormatChronoRounded(Some(v)) == FormatChrono(Some(v))
  {
    RoundHundredthsOfWhole(v, q, r);
    FormatRoundedSome(v, RoundHundredths(v));
  }

  lemma FormatRoundedSome(v: real, w: real)
    requires w == RoundHundredths(v)
    ensures FormatChronoRounded(Some(v)) == FormatChrono(Some(w))
  {
  }

  lemma RoundHundredthsOfWhole(v: real, q: nat, r: nat)
    requires r < 100 && v == q as real + r as real / 100.0
    ensures RoundHundredths(v) == v
  {
    var k := q * 100 + r;
    assert v * 100.0 == k as real;
    RoundOfInt(k);
  }
}
