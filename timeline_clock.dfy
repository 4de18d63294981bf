/** The timeline's grid clock (src/components/Timeline.tsx): "HH:MM" strings to minutes and
    back, and a vertical pixel offset on the schedule strip to a snapped minute of the day. */
module TimelineClock {
  import opened Wrappers
  import opened Text

  /** The strip shows the hours 6..22 (`HOURS`), one 48-pixel row per hour, snapped to
      15 minutes, so one snap step is 12 pixels. */
  const FirstHour: int := 6
  const HourCount: int := 17
  const SlotHeight: int := 48
  const SnapMinutes: int := 15
  const SnapHeight: int := SlotHeight / (60 / SnapMinutes)

  /** JavaScript's `%`: the remainder takes the sign of the dividend. */
  function JsRem(a: int, b: int): (r: int)
    requires b > 0
    ensures a >= 0 ==> 0 <= r < b && r == a % b
    ensures a < 0 ==> -b < r <= 0
  {
    if a >= 0 then a % b else -((-a) % b)
  }

  /** `timeToMinutes`: split at ':', convert both pieces with `Number`, `h * 60 + m`;
      NaN (`None`) when a piece is missing or is not a number. */
  function TimeToMinutes(time: string): Option<int> {
    var parts := Split(time, ':');
    if |parts| < 2 then None
    else
      match (JsNumber(parts[0]), JsNumber(parts[1]))
      case (Some(h), Some(m)) => Some(h * 60 + m)
      case _ => None
  }

  /** `minutesToTime`: `Math.floor(minutes / 60)` and `minutes % 60`, each padded to two
      characters with '0' and joined by ':'. Dafny's `/` by a positive divisor is the floor. */
  function MinutesToTime(minutes: int): string {
    var h := minutes / 60;
    var m := JsRem(minutes, 60);
    PadStart2(IntToString(h)) + ":" + PadStart2(IntToString(m))
  }

  /** Within a day the printed time is exactly "HH:MM" with zero-padded two-digit fields. */
  lemma MinutesToTimeFormat(minutes: int)
    requires 0 <= minutes < 24 * 60
    ensures var s := MinutesToTime(minutes);
      && |s| == 5 && s[2] == ':'
      && AllDigits(s[..2]) && AllDigits(s[3..])
      && DigitsValue(s[..2]) == minutes / 60
      && DigitsValue(s[3..]) == minutes % 60
  {
    var h, m := minutes / 60, minutes % 60;
    assert 0 <= h < 24 && 0 <= m < 60;
    var a, b := PadStart2(NatToString(h)), PadStart2(NatToString(m));
    PaddedNatRoundTrip(h);
    PaddedNatRoundTrip(m);
    ShortNat(h);
    ShortNat(m);
    assert |a| == 2 && |b| == 2;
    var s := MinutesToTime(minutes);
    assert s == a + ":" + b by {
      assert IntToString(h) == NatToString(h) && JsRem(minutes, 60) == m;
    }
    assert s[..2] == a && s[3..] == b;
  }

  /** Reading back a printed time gives the minutes again, for every non-negative value
      (hours past 23 included: the drag has no upper clamp). */
  lemma TimeRoundTrip(minutes: nat)
    ensures TimeToMinutes(MinutesToTime(minutes)) == Some(minutes)
  {
    var h, m := minutes / 60, minutes % 60;
    PrintedParts(minutes);
    PaddedNatRoundTrip(h);
    PaddedNatRoundTrip(m);
    assert minutes == h * 60 + m;
  }

  /** A printed non-negative time splits at ':' into the padded hours and minutes. */
  lemma PrintedParts(minutes: nat)
    ensures Split(MinutesToTime(minutes), ':') == [PadStart2(NatToString(minutes / 60)), PadStart2(NatToString(minutes % 60))]
  {
    var h, m := minutes / 60, minutes % 60;
    var a, b := PadStart2(NatToString(h)), PadStart2(NatToString(m));
    PaddedNatRoundTrip(h);
    PaddedNatRoundTrip(m);
    assert MinutesToTime(minutes) == a + [':'] + b by {
      assert IntToString(h) == NatToString(h) && JsRem(minutes, 60) == m;
    }
    SplitDigitPair(a, ':', b);
  }

  /** `getMinutesFromY`: the hour row `Math.floor(y / 48)` from 06:00, plus the 15-minute
      step `Math.floor((y % 48) / 12)` within that row, with JavaScript's `%`. */
  function GetMinutesFromY(y: int): int {
    var slotIndex := y / SlotHeight;
    var minuteInSlot := (JsRem(y, SlotHeight) / SnapHeight) * SnapMinutes;
    (FirstHour + slotIndex) * 60 + minuteInSlot
  }

  lemma DivSplit(y: nat)
    ensures y / 12 == 4 * (y / 48) + (y % 48) / 12
  {
    var q, r := y / 48, y % 48;
    assert y == 12 * (4 * q + r / 12) + r % 12;
  }

  /** Below the top of the strip the offset is a plain 12-pixel staircase from 06:00. */
  lemma MinutesFromYFormula(y: int)
    requires y >= 0
    ensures GetMinutesFromY(y) == 360 + 15 * (y / 12)
  {
    DivSplit(y);
  }

  /** Every result is on the 15-minute grid, for any offset (also above the strip). */
  lemma MinutesFromYSnapped(y: int)
    ensures GetMinutesFromY(y) % SnapMinutes == 0
  {
    var slotIndex := y / SlotHeight;
    var step := JsRem(y, SlotHeight) / SnapHeight;
    assert GetMinutesFromY(y) == 15 * (4 * (FirstHour + slotIndex) + step);
  }

  /** On the strip the result is at least 06:00 and never decreases as the cursor moves down. */
  lemma MinutesFromYMonotone(y1: int, y2: int)
    requires 0 <= y1 <= y2
    ensures 360 <= GetMinutesFromY(y1) <= GetMinutesFromY(y2)
  {
    MinutesFromYFormula(y1);
    MinutesFromYFormula(y2);
    StepsMonotone(y1, y2);
  }

  /** The 12-pixel staircase never goes down. */
  lemma StepsMonotone(y1: int, y2: int)
    requires 0 <= y1 <= y2
    ensures 360 <= 360 + 15 * (y1 / 12) <= 360 + 15 * (y2 / 12)
  {
    var q1, q2 := y1 / 12, y2 / 12;
    assert 12 * q1 <= y1 && y2 < 12 * q2 + 12;
  }

  /** There is no upper clamp: every further 12 pixels adds 15 minutes, past 22:00 and midnight. */
  lemma MinutesFromYUnclamped(k: nat)
    ensures GetMinutesFromY(12 * k) == 360 + 15 * k
  {
    MinutesFromYFormula(12 * k);
  }
}
