/** The base_date request parameter: `${yyyy}${mm}${dd}` from the clock's year,
    zero-based month and day of month, and the (base_date, base_time) pair the
    page requests. */
module BaseDate {
  import opened Wrappers
  import opened JsText
  import BaseTime

  /** The year, then String(month + 1) and String(day), each padded with '0' to two
      characters: the year's spelling leads, and two fields of at least two
      characters follow it. */
  function FormatBaseDate(year: int, month0: int, day: int): (r: string)
    ensures NumberToString(year) <= r
    ensures |r| >= |NumberToString(year)| + 4
  {
    NumberToString(year) + PadStart(NumberToString(month0 + 1), 2, '0') + PadStart(NumberToString(day), 2, '0')
  }

  /** Reads an eight-digit yyyymmdd string back into (year, zero-based month, day). */
  function ParseBaseDate(s: string): (r: Option<(int, int, int)>)
    ensures r.Some? <==> |s| == 8 && AllDigits(s)
    ensures r.Some? ==> 0 <= r.value.0 < 10000 && -1 <= r.value.1 < 99 && 0 <= r.value.2 < 100
  {
    if |s| == 8 && AllDigits(s) then
      Some((DecimalValue(s[..4]), DecimalValue(s[4..6]) - 1, DecimalValue(s[6..])))
    else None
  }

  /** Two-character zero-padded String(n) for 1 <= n <= 99, with its value. */
  lemma TwoDigitField(n: nat) returns (f: string)
    requires 1 <= n <= 99
    ensures f == PadStart(NumberToString(n), 2, '0')
    ensures |f| == 2 && AllDigits(f) && DecimalValue(f) == n
  {
    if n < 10 { DecimalWidth(n, 1); } else { DecimalWidth(n, 2); }
    NatToDecimalValue(n);
    PadStartValue(NumberToString(n), 2);
    f := PadStart(NumberToString(n), 2, '0');
  }

  /** Four-character String(year) for a four-digit year, with its value. */
  lemma FourDigitYear(year: nat) returns (y: string)
    requires 1000 <= year <= 9999
    ensures y == NumberToString(year)
    ensures |y| == 4 && AllDigits(y) && DecimalValue(y) == year
  {
    assert Pow10(3) == 1000 && Pow10(4) == 10000;
    DecimalWidth(year, 4);
    NatToDecimalValue(year);
    y := NumberToString(year);
  }

  /** Three digit fields of widths 4, 2 and 2 read back as the values they spell. */
  lemma ParseFields(y: string, m: string, d: string, year: int, month0: int, day: int)
    requires |y| == 4 && |m| == 2 && |d| == 2
    requires AllDigits(y) && AllDigits(m) && AllDigits(d)
    requires DecimalValue(y) == year && DecimalValue(m) == month0 + 1 && DecimalValue(d) == day
    ensures |y + m + d| == 8 && ParseBaseDate(y + m + d) == Some((year, month0, day))
  {
    var s := y + m + d;
    assert s[..4] == y && s[4..6] == m && s[6..] == d;
    assert AllDigits(s) by {
      forall i | 0 <= i < |s| ensures IsDigit(s[i]) {
        if i < 4 { assert s[i] == y[i]; }
        else if i < 6 { assert s[i] == m[i - 4]; }
        else { assert s[i] == d[i - 6]; }
      }
    }
  }

  /** For a four-digit year and a real month and day the base date has eight
      digits and reads back as the clock fields it came from. */
  lemma BaseDateRoundTrip(year: int, month0: int, day: int)
    requires 1000 <= year <= 9999 && 0 <= month0 <= 11 && 1 <= day <= 31
    ensures |FormatBaseDate(year, month0, day)| == 8
    ensures ParseBaseDate(FormatBaseDate(year, month0, day)) == Some((year, month0, day))
  {
    var y := NumberToString(year);
    var m := PadStart(NumberToString(month0 + 1), 2, '0');
    var d := PadStart(NumberToString(day), 2, '0');
    assert FormatBaseDate(year, month0, day) == y + m + d;
    assert |y| == 4 && AllDigits(y) && DecimalValue(y) == year by { var y1 := FourDigitYear(year); }
    assert |m| == 2 && AllDigits(m) && DecimalValue(m) == month0 + 1 by { var m1 := TwoDigitField(month0 + 1); }
    assert |d| == 2 && AllDigits(d) && DecimalValue(d) == day by { var d1 := TwoDigitField(day); }
    ParseFields(y, m, d, year, month0, day);
  }

  /** The (base_date, base_time) pair fetchWeather sends. The page reads the clock
      twice, once for the date and once inside getBaseTimeHourly for the hour, so
      the date fields and the hour are independent parameters. */
  function RequestStamp(year: int, month0: int, day: int, hour: int): (r: (string, string))
    ensures r.1 in BaseTime.BaseHours
  {
    (FormatBaseDate(year, month0, day), BaseTime.BaseTimeFor(hour))
  }

  /** At hours 0 and 1 the page asks for the 23:00 slot of the date it was given:
      the date is not moved back a day. When both clock readings fall on the same
      day, that slot has not been published yet. */
  lemma EarlyHoursKeepClockDate(year: int, month0: int, day: int, hour: int)
    requires 0 <= hour < 2
    ensures RequestStamp(year, month0, day, hour) == (FormatBaseDate(year, month0, day), BaseTime.Fallback)
    ensures !BaseTime.Reached(hour, RequestStamp(year, month0, day, hour).1)
  {
    BaseTime.SlotWindow(hour);
  }
}
