/**
 * The sleep log's arithmetic: `calculateDuree` turns a bedtime and a wake
 * time (`HH:MM`) into hours rounded to two decimals, `formatDuree` writes
 * hours as `7h30`, and loading a stored entry rebuilds the two times from
 * the stored duration with the wake time fixed at 07:30.
 */
module SleepTracker {
  import opened Wrappers
  import opened JsMath
  import opened Text

  const MinutesPerDay: int := 24 * 60

  /** 07:30, the wake time a loaded entry is shown with. */
  const ReveilDefaut: int := 7 * 60 + 30

  /** The value of an `<input type="time">`: `HH:MM` with HH below 24 and MM below 60. */
  predicate IsClockText(s: string) {
    |s| == 5 && s[2] == ':' && AllDigits(s[..2]) && AllDigits(s[3..])
    && DigitsValue(s[..2]) < 24 && DigitsValue(s[3..]) < 60
  }

  /** `H * 60 + M` after `split(':').map(Number)`: minutes since midnight. */
  function ClockMinutes(s: string): (n: int)
    requires IsClockText(s)
    ensures 0 <= n < MinutesPerDay
  {
    DigitsValue(s[..2]) * 60 + DigitsValue(s[3..])
  }

  /** `toTimeString().substring(0, 5)` of the time `n` minutes after midnight. */
  function FormatClock(n: int): (s: string)
    requires 0 <= n < MinutesPerDay
    ensures IsClockText(s) && ClockMinutes(s) == n
  {
    var h, m := Pad2(NatToString(n / 60)), Pad2(NatToString(n % 60));
    JoinClock(h, m);
    h + ":" + m
  }

  lemma JoinClock(h: string, m: string)
    requires AllDigits(h) && AllDigits(m) && |h| == 2 && |m| == 2
    requires DigitsValue(h) < 24 && DigitsValue(m) < 60
    ensures IsClockText(h + ":" + m)
    ensures ClockMinutes(h + ":" + m) == DigitsValue(h) * 60 + DigitsValue(m)
  {
    var s := h + ":" + m;
    assert s[..2] == h && s[3..] == m;
  }

  /** Every clock text is what `FormatClock` writes for its minutes. */
  lemma ClockTextRoundTrip(s: string)
    requires IsClockText(s)
    ensures FormatClock(ClockMinutes(s)) == s
  {
    var hh, mm := s[..2], s[3..];
    var n := ClockMinutes(s);
    FormatClockText(n);
    HoursAndMinutes(n, DigitsValue(hh), DigitsValue(mm));
    PadTwoDigits(hh);
    PadTwoDigits(mm);
    SplitAtColon(s);
  }

  lemma SplitAtColon(s: string)
    requires |s| == 5 && s[2] == ':'
    ensures s == s[..2] + ":" + s[3..]
  {
  }

  lemma FormatClockText(n: int)
    requires 0 <= n < MinutesPerDay
    ensures FormatClock(n) == Pad2(NatToString(n / 60)) + ":" + Pad2(NatToString(n % 60))
  {
  }

  lemma HoursAndMinutes(n: int, h: int, m: int)
    requires n == h * 60 + m && 0 <= m < 60
    ensures n / 60 == h && n % 60 == m
  {
  }

  /**
   * Minutes slept: the wake time is taken on the next day when it is not
   * after the bedtime. The result is the one duration in (0, 24 h] that
   * agrees with the clock difference modulo a day.
   */
  function SleepMinutes(coucher: int, reveil: int): (d: int)
    requires 0 <= coucher < MinutesPerDay && 0 <= reveil < MinutesPerDay
    ensures 0 < d <= MinutesPerDay
    ensures (d - (reveil - coucher)) % MinutesPerDay == 0
    ensures d == MinutesPerDay <==> coucher == reveil
  {
    var reveilMinutes := if reveil <= coucher then reveil + MinutesPerDay else reveil;
    reveilMinutes - coucher
  }

  /**
   * `calculateDuree`: hours between bedtime and wake time, to two decimals,
   * never zero and at most 24, exactly 24 when both times are equal.
   */
  function CalculateDuree(coucher: string, reveil: string): (d: real)
    requires IsClockText(coucher) && IsClockText(reveil)
    ensures 0.02 <= d <= 24.0
    ensures ClockMinutes(coucher) == ClockMinutes(reveil) ==> d == 24.0
    ensures SleepMinutes(ClockMinutes(coucher), ClockMinutes(reveil)) as real / 60.0 - 0.005 < d
    ensures d <= SleepMinutes(ClockMinutes(coucher), ClockMinutes(reveil)) as real / 60.0 + 0.005
    ensures (d * 100.0).Floor as real == d * 100.0
  {
    var diff := SleepMinutes(ClockMinutes(coucher), ClockMinutes(reveil));
    DureeOfMinutes(diff);
    RoundHundredths(diff as real / 60.0)
  }

  /** Bounds of the rounded duration for a minute count in (0, 24 h]. */
  lemma DureeOfMinutes(diff: int)
    requires 0 < diff <= MinutesPerDay
    ensures 0.02 <= RoundHundredths(diff as real / 60.0) <= 24.0
    ensures diff == MinutesPerDay ==> RoundHundredths(diff as real / 60.0) == 24.0
  {
    var x := diff as real / 60.0 * 100.0;
    var k := Round(x);
    assert x >= 100.0 / 60.0;
    assert k >= 2;
    assert k <= 2400;
    if diff == MinutesPerDay {
      assert x == 2400.0;
      RoundOfInt(2400);
    }
  }

  /** The minutes `formatDuree` shows: the fractional hour rounded to the nearest minute. */
  function DureeMinutes(heures: real): (m: int)
    ensures 0 <= m <= 60
    ensures -0.5 <= (Floor(heures) as real * 60.0 + m as real) - heures * 60.0 <= 0.5
  {
    Round((heures - Floor(heures) as real) * 60.0)
  }

  /** `formatDuree`: whole hours, 'h', then the minutes padded to two digits, omitted when zero. */
  function FormatDuree(heures: real): (s: string)
    ensures |s| >= 2
    ensures s[0] == '-' <==> heures < 0.0
    ensures IsDigit(s[0]) <==> 0.0 <= heures
    ensures s[|s| - 1] == 'h' <==> DureeMinutes(heures) == 0
    ensures DureeMinutes(heures) > 0 ==> IsDigit(s[|s| - 1])
  {
    var m := DureeMinutes(heures);
    IntToString(Floor(heures)) + "h" + (if m > 0 then PadStart(IntToString(m), 2, '0') else "")
  }

  /**
   * What an `<input type="time">` holds: a time, or "" once the user has
   * cleared it.
   */
  predicate IsTimeField(s: string) {
    s == "" || IsClockText(s)
  }

  /**
   * The minutes since midnight of a time field. A cleared field splits into
   * `[0]` with no minutes part, so its minute count is NaN, here `None`.
   */
  function FieldMinutes(s: string): (n: Option<int>)
    requires IsTimeField(s)
    ensures n.None? <==> s == ""
    ensures n.Some? ==> n.value == ClockMinutes(s) && 0 <= n.value < MinutesPerDay
  {
    if s == "" then None else Some(ClockMinutes(s))
  }

  /**
   * `calculateDuree` on the two fields as they are: NaN (`None`) as soon as
   * either field is cleared, the rounded hours otherwise.
   */
  function DureeOfFields(coucher: string, reveil: string): (d: Option<real>)
    requires IsTimeField(coucher) && IsTimeField(reveil)
    ensures d.None? <==> coucher == "" || reveil == ""
    ensures d.Some? ==> 0.02 <= d.value <= 24.0
    ensures d.Some? ==> d.value == CalculateDuree(coucher, reveil)
  {
    match (FieldMinutes(coucher), FieldMinutes(reveil))
    case (Some(_), Some(_)) => Some(CalculateDuree(coucher, reveil))
    case _ => None
  }

  /** The duration as the card shows it: `formatDuree` of NaN reads "NaNh". */
  function ShownDuree(d: Option<real>): (s: string)
    ensures d.None? <==> s == "NaNh"
    ensures d.Some? ==> s == FormatDuree(d.value)
  {
    match d
    case None => "NaNh"
    case Some(h) => FormatDuree(h)
  }

  /** The card shows "NaNh" exactly when one of the two time fields is cleared. */
  lemma ClearedFieldShowsNaN(coucher: string, reveil: string)
    requires IsTimeField(coucher) && IsTimeField(reveil)
    ensures ShownDuree(DureeOfFields(coucher, reveil)) == "NaNh" <==> coucher == "" || reveil == ""
    ensures coucher != "" && reveil != "" ==>
      IsDigit(ShownDuree(DureeOfFields(coucher, reveil))[0])
  {
  }

  /**
   * For a duration in whole hundredths of an hour (what `calculateDuree`
   * returns) the minutes shown stay below 60, are omitted exactly on whole
   * hours, and are otherwise two digits.
   */
  lemma FormatDureeOfHundredths(heures: real, k: nat)
    requires heures == k as real / 100.0
    ensures DureeMinutes(heures) < 60
    ensures DureeMinutes(heures) == 0 <==> k % 100 == 0
    ensures FormatDuree(heures) == NatToString(k / 100) + "h"
      + (if k % 100 == 0 then "" else Pad2(NatToString(DureeMinutes(heures))))
  {
    var h, r := k / 100, k % 100;
    assert heures == h as real + r as real / 100.0;
    assert Floor(heures) == h;
    var m := DureeMinutes(heures);
    assert (heures - h as real) * 60.0 == r as real * 0.6;
    assert m as real <= r as real * 0.6 + 0.5;
    assert r as real * 0.6 - 0.5 < m as real;
    if r == 0 {
      RoundOfInt(0);
    }
    FormatDureeText(heures, h, m);
  }

  lemma FormatDureeText(heures: real, h: nat, m: int)
    requires Floor(heures) == h && DureeMinutes(heures) == m && 0 <= m < 60
    ensures FormatDuree(heures) == NatToString(h) + "h" + (if m == 0 then "" else Pad2(NatToString(m)))
  {
  }

  /** Bedtime of a loaded entry: 07:30 moved back by the whole hours, then by the rounded minutes, on a 24-hour clock. */
  function BedtimeMinutes(duree: real): (n: int)
    ensures 0 <= n < MinutesPerDay
  {
    (ReveilDefaut - 60 * Floor(duree) - Round(FracPart(duree) * 60.0)) % MinutesPerDay
  }

  /** The bedtime and wake-time texts `loadTodayEntry` puts in the form for a stored duration. */
  function LoadedTimes(duree: real): (times: (string, string))
    ensures IsClockText(times.0) && IsClockText(times.1)
    ensures ClockMinutes(times.1) == ReveilDefaut
  {
    (FormatClock(BedtimeMinutes(duree)), FormatClock(ReveilDefaut))
  }

  /** Minutes to step back from 07:30: the duration to the nearest minute. */
  lemma MinutesBack(duree: real, back: int)
    requires 0.02 <= duree <= 24.0
    requires back == 60 * Floor(duree) + Round(FracPart(duree) * 60.0)
    ensures 1 <= back <= MinutesPerDay
    ensures -0.5 <= back as real - duree * 60.0 <= 0.5
  {
    assert FracPart(duree) == duree - Floor(duree) as real;
  }

  /** Stepping back `back` minutes from 07:30 and sleeping until 07:30 again takes `back` minutes. */
  lemma WrapBack(back: int)
    requires 1 <= back <= MinutesPerDay
    ensures 0 <= (ReveilDefaut - back) % MinutesPerDay < MinutesPerDay
    ensures SleepMinutes((ReveilDefaut - back) % MinutesPerDay, ReveilDefaut) == back
  {
    if back <= ReveilDefaut {
      assert (ReveilDefaut - back) % MinutesPerDay == ReveilDefaut - back;
    } else {
      assert (ReveilDefaut - back) % MinutesPerDay == ReveilDefaut - back + MinutesPerDay;
    }
  }

  /**
   * Saving a night and loading it back shows times whose duration differs
   * from the saved one by at most a minute (the bedtime is rebuilt to the
   * minute, the duration to the hundredth of an hour).
   */
  lemma ReloadKeepsDuration(coucher: string, reveil: string)
    requires IsClockText(coucher) && IsClockText(reveil)
    ensures var d := CalculateDuree(coucher, reveil);
      -1.0 / 60.0 <= CalculateDuree(LoadedTimes(d).0, LoadedTimes(d).1) - d <= 1.0 / 60.0
  {
    var d := CalculateDuree(coucher, reveil);
    var back := 60 * Floor(d) + Round(FracPart(d) * 60.0);
    MinutesBack(d, back);
    WrapBack(back);
    var bed := BedtimeMinutes(d);
    assert bed == (ReveilDefaut - back) % MinutesPerDay;
    var times := LoadedTimes(d);
    assert ClockMinutes(times.0) == bed;
    assert SleepMinutes(ClockMinutes(times.0), ClockMinutes(times.1)) == back;
  }
}
