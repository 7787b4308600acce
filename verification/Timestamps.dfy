/** Which texts denote a real instant: a day of the Gregorian calendar and a time of the day, as ECMAScript reckons them. */
module Timestamps {
  import opened Wrappers
  import opened Text
  import opened Checks

  // ---- The calendar ----

  /** The number of the first day of a year, counted from 1970 (Day Number and Year Number of ECMA-262). */
  function DayFromYear(year: int): int {
    365 * (year - 1970) + Fours(year) - Hundreds(year) + FourHundreds(year)
  }

  function Fours(year: int): int { (year - 1969) / 4 }

  function Hundreds(year: int): int { (year - 1901) / 100 }

  function FourHundreds(year: int): int { (year - 1601) / 400 }

  /** The day of the year on which a month starts (Month Number of ECMA-262); month 13 is the end of the year. */
  function MonthStart(month: nat, leap: int): int
    requires 1 <= month <= 13
  {
    if month == 1 then 0 else if month == 2 then 31 else
    leap + [59, 90, 120, 151, 181, 212, 243, 273, 304, 334, 365][month - 3]
  }

  /** The months are as long as the day numbers say. */
  lemma MonthsFillYears(year: nat, month: nat)
    requires 1 <= month <= 12
    ensures var leap := DayFromYear(year + 1) - DayFromYear(year) - 365;
            DaysIn(year, month) == MonthStart(month + 1, leap) - MonthStart(month, leap)
  {
    LeapDay(year);
  }

  predicate IsMultiple(year: nat, of: nat)
    requires of > 0
  {
    year % of == 0
  }

  lemma MultiplesNest(year: nat)
    ensures IsMultiple(year, 400) ==> IsMultiple(year, 100)
    ensures IsMultiple(year, 100) ==> IsMultiple(year, 4)
  {
    if IsMultiple(year, 400) {
      var q := year / 400;
      assert year == 100 * (4 * q);
    }
    if IsMultiple(year, 100) {
      var q := year / 100;
      assert year == 4 * (25 * q);
    }
  }

  /** A year has a leap day when it is divisible by 4, but not by 100 unless by 400. */
  lemma LeapDay(year: nat)
    ensures DayFromYear(year + 1) - DayFromYear(year) - 365 == if IsMultiple(year, 4) && (!IsMultiple(year, 100) || IsMultiple(year, 400)) then 1 else 0
  {
    hide Fours, Hundreds, FourHundreds, IsMultiple;
    MultiplesNest(year);
    FourthYear(year);
    HundredthYear(year);
    FourHundredthYear(year);
  }

  lemma FourthYear(year: nat)
    ensures Fours(year + 1) - Fours(year) == if IsMultiple(year, 4) then 1 else 0
  {}

  lemma HundredthYear(year: nat)
    ensures Hundreds(year + 1) - Hundreds(year) == if IsMultiple(year, 100) then 1 else 0
  {}

  lemma FourHundredthYear(year: nat)
    ensures FourHundreds(year + 1) - FourHundreds(year) == if IsMultiple(year, 400) then 1 else 0
  {}

  // ---- The text ----

  /** The number in `width` digits. */
  function Padded(n: nat, width: nat): (s: string)
    ensures |s| == width && forall i | 0 <= i < width :: IsDigit(s[i])
  {
    if width == 0 then "" else Padded(n / 10, width - 1) + [DigitOf(n % 10)]
  }

  function Power(width: nat): nat { if width == 0 then 1 else 10 * Power(width - 1) }

  lemma {:induction false} PaddedReads(n: nat, width: nat)
    requires n < Power(width)
    ensures IndexValue(Padded(n, width)) == n
  {
    if width > 0 {
      PaddedReads(n / 10, width - 1);
      assert Padded(n, width)[..width - 1] == Padded(n / 10, width - 1);
    }
  }

  lemma {:induction false} ReadsPadded(s: string)
    requires forall i | 0 <= i < |s| :: IsDigit(s[i])
    ensures IndexValue(s) < Power(|s|) && Padded(IndexValue(s), |s|) == s
  {
    if |s| > 0 {
      var front := s[..|s| - 1];
      ReadsPadded(front);
      assert s == front + [s[|s| - 1]];
    }
  }

  /** `YYYY-MM-DDThh:mm:ss`. */
  function Stamp(year: nat, month: nat, day: nat, hour: nat, minute: nat, second: nat): string {
    Padded(year, 4) + "-" + Padded(month, 2) + "-" + Padded(day, 2) + "T" + Padded(hour, 2) + ":" + Padded(minute, 2) + ":" + Padded(second, 2)
  }

  ghost predicate IsMoment(year: nat, month: nat, day: nat, hour: nat, minute: nat, second: nat) {
    && year < 10000 && 1 <= month <= 12 && 1 <= day <= DaysIn(UtcYear(year), month)
    && hour < 24 && minute < 60 && second < 60
  }

  lemma PartsOfStamp(text: string, year: nat, month: nat, day: nat, hour: nat, minute: nat, second: nat)
    requires Stamp(year, month, day, hour, minute, second) <= text
    ensures HasStamp(text)
    ensures text[0..4] == Padded(year, 4) && text[5..7] == Padded(month, 2) && text[8..10] == Padded(day, 2)
    ensures text[11..13] == Padded(hour, 2) && text[14..16] == Padded(minute, 2) && text[17..19] == Padded(second, 2)
  {
    hide Padded;
    var s := Stamp(year, month, day, hour, minute, second);
    assert |s| == 19 && s == text[..19];
    assert s[0..4] == Padded(year, 4) && s[5..7] == Padded(month, 2) && s[8..10] == Padded(day, 2);
    assert s[11..13] == Padded(hour, 2) && s[14..16] == Padded(minute, 2) && s[17..19] == Padded(second, 2);
    assert forall i | 0 <= i < 19 :: text[i] == s[i];
    assert text[0..4] == s[0..4] && text[5..7] == s[5..7] && text[8..10] == s[8..10];
    assert text[11..13] == s[11..13] && text[14..16] == s[14..16] && text[17..19] == s[17..19];
  }

  lemma StampOfParts(text: string)
    requires HasStamp(text)
    ensures Stamp(NumberAt(text, 0, 4), NumberAt(text, 5, 7), NumberAt(text, 8, 10), NumberAt(text, 11, 13), NumberAt(text, 14, 16), NumberAt(text, 17, 19)) == text[..19]
  {
    hide Padded;
    ReadsPadded(text[0..4]);
    ReadsPadded(text[5..7]);
    ReadsPadded(text[8..10]);
    ReadsPadded(text[11..13]);
    ReadsPadded(text[14..16]);
    ReadsPadded(text[17..19]);
    assert text[..19] == text[0..4] + "-" + text[5..7] + "-" + text[8..10] + "T" + text[11..13] + ":" + text[14..16] + ":" + text[17..19];
  }

  lemma Widths()
    ensures Power(4) == 10000 && Power(2) == 100
  {
    assert Power(0) == 1 && Power(1) == 10 && Power(2) == 100 && Power(3) == 1000;
  }

  lemma RealHasMoment(t: Timestamp)
    requires IsRealTimestamp(t)
    ensures exists year, month, day, hour, minute, second ::
              IsMoment(year, month, day, hour, minute, second) && Stamp(year, month, day, hour, minute, second) <= t.text
  {
    hide Stamp, Padded, Power, IndexValue, DaysIn;
    Widths();
    StampOfParts(t.text);
    var head := t.text[0..4];
    assert forall i | 0 <= i < 4 :: IsDigit(head[i]);
    ReadsPadded(head);
    assert t.text[..19] <= t.text;
    assert IsMoment(NumberAt(t.text, 0, 4), NumberAt(t.text, 5, 7), NumberAt(t.text, 8, 10), NumberAt(t.text, 11, 13), NumberAt(t.text, 14, 16), NumberAt(t.text, 17, 19));
  }

  lemma MomentIsReal(t: Timestamp, year: nat, month: nat, day: nat, hour: nat, minute: nat, second: nat)
    requires t.instant.Some? && IsMoment(year, month, day, hour, minute, second) && Stamp(year, month, day, hour, minute, second) <= t.text
    ensures IsRealTimestamp(t)
  {
    hide Stamp, Padded, Power, IndexValue, DaysIn;
    Widths();
    PartsOfStamp(t.text, year, month, day, hour, minute, second);
    DaysAreFew(UtcYear(year), month);
    PaddedReads(year, 4);
    PaddedReads(month, 2);
    PaddedReads(day, 2);
    PaddedReads(hour, 2);
    PaddedReads(minute, 2);
    PaddedReads(second, 2);
  }

  /** A timestamp is real exactly when `Date.parse` reads it and it starts with the text of a moment of the calendar. */
  lemma RealIsMoment(t: Timestamp)
    ensures IsRealTimestamp(t) <==>
            t.instant.Some? && exists year, month, day, hour, minute, second ::
              IsMoment(year, month, day, hour, minute, second) && Stamp(year, month, day, hour, minute, second) <= t.text
  {
    hide IsMoment, Stamp;
    if IsRealTimestamp(t) {
      RealHasMoment(t);
    }
    if t.instant.Some? {
      if year, month, day, hour, minute, second :| IsMoment(year, month, day, hour, minute, second) && Stamp(year, month, day, hour, minute, second) <= t.text {
        MomentIsReal(t, year, month, day, hour, minute, second);
      }
    }
  }

  lemma DaysAreFew(year: nat, month: nat)
    ensures DaysIn(year, month) <= 31
  {}
}
