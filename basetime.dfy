/** getBaseTimeHourly: the most recent short-term forecast publication slot at or
    before the current local hour. The clock reading is a parameter. */
module BaseTime {
  import opened Wrappers
  import opened JsText

  /** The eight publication slots of a day, earliest first. */
  const BaseHours: seq<string> := ["0200", "0500", "0800", "1100", "1400", "1700", "2000", "2300"]

  /** What the scan returns when the hour is before every slot. */
  const Fallback: string := "2300"

  /** parseInt(code.slice(0, 2)): the hour a slot code starts at; None stands for NaN. */
  function SlotHour(code: string): (h: Option<nat>)
    ensures h.Some? ==> h.value < 100
  {
    ParseInt(Slice(code, 2))
  }

  /** `hour >= parseInt(code.slice(0, 2))`; any comparison with NaN is false. */
  predicate Reached(hour: int, code: string)
  {
    SlotHour(code).Some? && SlotHour(code).value <= hour
  }

  /** A code that starts with two digits starts at the hour they spell. */
  lemma SlotHourOfDigits(code: string)
    requires |code| >= 2 && IsDigit(code[0]) && IsDigit(code[1])
    ensures SlotHour(code) == Some(DigitValue(code[0]) * 10 + DigitValue(code[1]))
  {
    var p := Slice(code, 2);
    assert p == [code[0], code[1]];
    assert AllDigits(p);
    assert p[..1] == [code[0]] && p[..1][..0] == [];
    assert DecimalValue(p[..1]) == DigitValue(code[0]);
  }

  /** The k-th slot starts at hour 2 + 3k. */
  lemma SlotHours()
    ensures forall k | 0 <= k < |BaseHours| :: SlotHour(BaseHours[k]) == Some(2 + 3 * k)
  {
    forall k | 0 <= k < |BaseHours| ensures SlotHour(BaseHours[k]) == Some(2 + 3 * k) {
      SlotHourOfDigits(BaseHours[k]);
    }
  }

  /** Closed form of the schedule: the start of the three-hour window that holds
      `hour`, and 23:00 before 02:00. */
  function BaseTimeFor(hour: int): (code: string)
    ensures code in BaseHours
  {
    if hour < 2 then Fallback
    else if hour >= 23 then BaseHours[7]
    else BaseHours[(hour - 2) / 3]
  }

  /** Scans the slots from latest to earliest and returns the first one the hour
      has reached, or "2300" when it has reached none. */
  method GetBaseTimeHourly(hour: int) returns (code: string)
    ensures code in BaseHours
    ensures forall k | 0 <= k < |BaseHours| :: Reached(hour, BaseHours[k]) ==>
      Reached(hour, code) && SlotHour(BaseHours[k]).value <= SlotHour(code).value
    ensures (forall k | 0 <= k < |BaseHours| :: !Reached(hour, BaseHours[k])) ==> code == Fallback
    ensures code == BaseTimeFor(hour)
  {
    SlotHours();
    var i := |BaseHours| - 1;
    while i >= 0
      invariant -1 <= i < |BaseHours|
      invariant forall j | i < j < |BaseHours| :: !Reached(hour, BaseHours[j])
    {
      if Reached(hour, BaseHours[i]) {
        LatestReachedIsClosedForm(hour, i);
        return BaseHours[i];
      }
      i := i - 1;
    }
    NoneReachedIsEarly(hour);
    return Fallback;
  }

  /** The closed form picks the latest slot the hour has reached. */
  lemma LatestReachedIsClosedForm(hour: int, k: int)
    requires 0 <= k < |BaseHours| && Reached(hour, BaseHours[k])
    requires forall j | k < j < |BaseHours| :: !Reached(hour, BaseHours[j])
    ensures BaseTimeFor(hour) == BaseHours[k]
  {
    SlotHours();
    assert 2 + 3 * k <= hour;
    if k + 1 < |BaseHours| {
      assert !Reached(hour, BaseHours[k + 1]);
      var r := hour - 2 - 3 * k;
      assert 0 <= r < 3 && hour - 2 == 3 * k + r;
      assert (hour - 2) / 3 == k;
    }
  }

  /** An hour that has reached no slot is before 02:00, where the closed form falls back to 23:00. */
  lemma NoneReachedIsEarly(hour: int)
    requires forall j | 0 <= j < |BaseHours| :: !Reached(hour, BaseHours[j])
    ensures hour < 2 && BaseTimeFor(hour) == Fallback
  {
    SlotHours();
    assert !Reached(hour, BaseHours[0]);
  }

  /** Before 02:00 the slot lies after the clock (23:00); from 02:00 on it is the
      start of the three-hour window the clock is in. */
  lemma SlotWindow(hour: int)
    requires 0 <= hour <= 23
    ensures Reached(hour, BaseTimeFor(hour)) <==> 2 <= hour
    ensures 2 <= hour ==> hour - SlotHour(BaseTimeFor(hour)).value < 3
    ensures hour < 2 ==> SlotHour(BaseTimeFor(hour)) == Some(23)
  {
    SlotHours();
  }
}
