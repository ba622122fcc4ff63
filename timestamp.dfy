/** The two `datetime.strptime` attempts of `parse_chat`, applied to the date and time
    groups of a header match:
      first  "%d/%m/%y %I:%M %p" on "<date> <time> <am|pm>",
      then   "%d/%m/%y %H:%M"    on "<date> <time>" (or on "<date> <time> <am|pm>", where
             the trailing meridiem is unconverted data and fails).
    Each directive of the format accepts a field of one or two digits whose value lies
    in its range (`%y` exactly two digits); the result must be a real calendar date. */
module Timestamps {
  import opened Wrappers
  import opened Text
  import opened HeaderPattern

  /** A `datetime` to the minute (seconds are always zero here). */
  datatype Timestamp = Timestamp(year: int, month: int, day: int, hour: int, minute: int)

  predicate IsLeapYear(y: int) {
    y % 4 == 0 && (y % 100 != 0 || y % 400 == 0)
  }

  function DaysInMonth(year: int, month: int): int
    requires 1 <= month <= 12
  {
    if month == 2 then (if IsLeapYear(year) then 29 else 28)
    else if month in {4, 6, 9, 11} then 30
    else 31
  }

  /** A timestamp the decoder can produce. */
  predicate IsValid(t: Timestamp) {
    && 1969 <= t.year <= 2068
    && 1 <= t.month <= 12
    && 1 <= t.day <= DaysInMonth(t.year, t.month)
    && 0 <= t.hour <= 23
    && 0 <= t.minute <= 59
  }

  /** A numeric directive (`%d`, `%m`, `%I`, `%H`, `%M`) applied to a whole field. */
  predicate NumberField(f: string, lo: nat, hi: nat) {
    AllDigits(f) && 1 <= |f| <= 2 && lo <= Value(f) <= hi
  }

  /** `%y`: two digits, 00-68 in the 2000s and 69-99 in the 1900s. */
  function CenturyYear(yy: nat): int {
    if yy <= 68 then 2000 + yy else 1900 + yy
  }

  /** The shared `%d/%m/%y` part: (year, month, day) when the fields convert and the date exists. */
  function CalendarDate(day: string, month: string, year: string): (r: Option<(int, int, int)>)
    ensures r.Some? ==> 1969 <= r.value.0 <= 2068 && 1 <= r.value.1 <= 12
                        && 1 <= r.value.2 <= DaysInMonth(r.value.0, r.value.1)
  {
    if NumberField(day, 1, 31) && NumberField(month, 1, 12) && AllDigits(year) && |year| == 2 then
      Pad2OfValue(year);
      var y := CenturyYear(Value(year));
      if Value(day) <= DaysInMonth(y, Value(month)) then Some((y, Value(month), Value(day)))
      else None
    else None
  }

  predicate IsPm(m: string) {
    |m| > 0 && m[0] in "pP"
  }

  /** `%I` with `%p`: 12 am is midnight, 12 pm noon, other pm hours move on by twelve. */
  function ClockHour(hour12: int, pm: bool): (r: int)
    ensures 1 <= hour12 <= 12 ==> 0 <= r <= 23 && r % 12 == hour12 % 12 && (r >= 12 <==> pm)
  {
    if hour12 == 12 then (if pm then 12 else 0)
    else if pm then hour12 + 12
    else hour12
  }

  /** The first attempt, "%d/%m/%y %I:%M %p". */
  function TwelveHourFormat(h: Header): (r: Option<Timestamp>)
    ensures r.Some? ==> IsValid(r.value)
  {
    if h.meridiem.None? then None  // nothing for "%p" to convert
    else
      var date :- CalendarDate(h.day, h.month, h.year);
      if NumberField(h.hour, 1, 12) && NumberField(h.minute, 0, 59) && IsMeridiem(h.meridiem.value) then
        Some(Timestamp(date.0, date.1, date.2,
                       ClockHour(Value(h.hour), IsPm(h.meridiem.value)), Value(h.minute)))
      else None
  }

  /** The second attempt, "%d/%m/%y %H:%M". */
  function TwentyFourHourFormat(h: Header): (r: Option<Timestamp>)
    ensures r.Some? ==> IsValid(r.value)
  {
    if h.meridiem.Some? then None  // " am"/" pm" would be left unconverted
    else
      var date :- CalendarDate(h.day, h.month, h.year);
      if NumberField(h.hour, 0, 23) && NumberField(h.minute, 0, 59) then
        Some(Timestamp(date.0, date.1, date.2, Value(h.hour), Value(h.minute)))
      else None
  }

  /** Decoding of a header's date and time, trying the formats in order; None is the case
      that skips the line. */
  function Decode(h: Header): (r: Option<Timestamp>)
    ensures r.Some? ==> IsValid(r.value)
  {
    match TwelveHourFormat(h)
    case Some(t) => Some(t)
    case None => TwentyFourHourFormat(h)
  }

  /** With a meridiem the hour field is read on the 12-hour clock: it must be 1-12, and
      the decoded hour is that field modulo twelve, in the afternoon exactly for "pm". */
  lemma DecodeTwelveHour(h: Header)
    requires WellFormed(h) && h.meridiem.Some?
    ensures Decode(h).Some? <==>
              CalendarDate(h.day, h.month, h.year).Some?
              && 1 <= Value(h.hour) <= 12 && Value(h.minute) <= 59
    ensures Decode(h).Some? ==>
              && Decode(h).value.hour % 12 == Value(h.hour) % 12
              && (Decode(h).value.hour >= 12 <==> IsPm(h.meridiem.value))
              && Decode(h).value.minute == Value(h.minute)
  {
  }

  /** Without a meridiem the hour field is read on the 24-hour clock. */
  lemma DecodeTwentyFourHour(h: Header)
    requires WellFormed(h) && h.meridiem.None?
    ensures Decode(h).Some? <==>
              CalendarDate(h.day, h.month, h.year).Some?
              && Value(h.hour) <= 23 && Value(h.minute) <= 59
    ensures Decode(h).Some? ==>
              Decode(h).value.hour == Value(h.hour) && Decode(h).value.minute == Value(h.minute)
  {
  }

  /** The date fields: a two-digit year only, day and month as written, and a day that
      exists in that month of that year. */
  lemma DecodeDate(h: Header)
    requires WellFormed(h)
    ensures CalendarDate(h.day, h.month, h.year).Some? <==>
              |h.year| == 2 && 1 <= Value(h.month) <= 12
              && 1 <= Value(h.day) <= DaysInMonth(CenturyYear(Value(h.year)), Value(h.month))
    ensures Decode(h).Some? ==>
              && |h.year| == 2
              && Decode(h).value.year % 100 == Value(h.year)
              && (Decode(h).value.year >= 2000 <==> Value(h.year) <= 68)
              && Decode(h).value.month == Value(h.month)
              && Decode(h).value.day == Value(h.day)
  {
    if |h.year| == 2 { Pad2OfValue(h.year); }
  }

  /** The hour field `%I` writes for a 24-hour hour. */
  function Hour12(hour: int): int {
    if hour % 12 == 0 then 12 else hour % 12
  }

  /** The header `h` with its date and time fields holding `t` as zero-padded fields,
      on the 12-hour clock with a lower-case meridiem or on the 24-hour clock. */
  function WithTimestamp(h: Header, t: Timestamp, twelveHour: bool): Header
    requires IsValid(t)
  {
    h.(day := Pad2(t.day), month := Pad2(t.month), year := Pad2(t.year % 100),
       hour := Pad2(if twelveHour then Hour12(t.hour) else t.hour), minute := Pad2(t.minute),
       meridiem := if twelveHour then Some(if t.hour < 12 then "am" else "pm") else None)
  }

  /** Round trip: every valid timestamp, written in either clock, decodes back to itself. */
  lemma DecodeWithTimestamp(h: Header, t: Timestamp, twelveHour: bool)
    requires IsValid(t)
    ensures WellFormed(h) ==> WellFormed(WithTimestamp(h, t, twelveHour))
    ensures Decode(WithTimestamp(h, t, twelveHour)) == Some(t)
  {
    var g := WithTimestamp(h, t, twelveHour);
    CalendarDateOf(t);
    if twelveHour {
      ClockHourOf(t.hour);
      assert IsMeridiem(g.meridiem.value) && IsPm(g.meridiem.value) == (t.hour >= 12);
      assert TwelveHourFormat(g) == Some(t);
    } else {
      assert TwelveHourFormat(g) == None;
      assert TwentyFourHourFormat(g) == Some(t);
    }
  }

  /** The date fields of a valid timestamp, padded, give its date back. */
  lemma CalendarDateOf(t: Timestamp)
    requires IsValid(t)
    ensures CalendarDate(Pad2(t.day), Pad2(t.month), Pad2(t.year % 100)) == Some((t.year, t.month, t.day))
  {
    assert CenturyYear(Value(Pad2(t.year % 100))) == t.year;
  }

  /** `%I` with `%p` undoes `Hour12` together with the half of the day. */
  lemma ClockHourOf(hour: int)
    requires 0 <= hour <= 23
    ensures 1 <= Hour12(hour) <= 12 && ClockHour(Hour12(hour), hour >= 12) == hour
  {
  }
}
