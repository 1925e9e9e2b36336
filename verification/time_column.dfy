/** `KQIProcessor._convert_time_column` for one value: the packed timestamp is
    rendered with `f"{n:012d}"`, parsed with the format `%Y%m%d%H%M` and emitted as
    `Date` (`%m/%d/%Y`, the grouping key) and `Time` (`%H:%M`). */
module TimeColumn {
  import opened Wrappers
  import opened Text

  datatype Stamp = Stamp(date: string, time: string)

  /** The parse failure of `pd.to_datetime`, reporting the rendered text. */
  datatype TimeError = NotADateTime(text: string)

  const TIMESTAMP_DIGITS: nat := 12

  /** The first and last whole minutes of pandas' nanosecond `Timestamp` range
      (1677-09-21 00:12:43.145224193 to 2262-04-11 23:47:16.854775807). */
  const EARLIEST_MINUTE: nat := 1677_09_21_00_13
  const LATEST_MINUTE: nat := 2262_04_11_23_47

  predicate IsLeapYear(year: nat)
  {
    (year % 4 == 0 && year % 100 != 0) || year % 400 == 0
  }

  function DaysInMonth(year: nat, month: nat): nat
    requires 1 <= month <= 12
  {
    if month == 2 then (if IsLeapYear(year) then 29 else 28)
    else if month == 4 || month == 6 || month == 9 || month == 11 then 30
    else 31
  }

  datatype Fields = Fields(year: nat, month: nat, day: nat, hour: nat, minute: nat)

  /** `f"{ts:012d}"`: twelve digits with leading zeros, a minus sign in front of
      eleven digits for a negative value, and all the digits when there are more. */
  function Render(ts: int): (text: string)
    ensures 0 <= ts < Pow(10, TIMESTAMP_DIGITS) ==> text == PadDecimal(ts, TIMESTAMP_DIGITS)
    ensures (|text| == TIMESTAMP_DIGITS && AllDigits(text)) <==> 0 <= ts < Pow(10, TIMESTAMP_DIGITS)
  {
    if ts < 0 then
      var magnitude := if -ts < Pow(10, TIMESTAMP_DIGITS - 1) then PadDecimal(-ts, TIMESTAMP_DIGITS - 1) else NatToString(-ts);
      assert !IsDigit(("-" + magnitude)[0]);
      "-" + magnitude
    else if ts < Pow(10, TIMESTAMP_DIGITS) then PadDecimal(ts, TIMESTAMP_DIGITS)
    else
      DecimalValueOfNatToString(ts);
      NatToString(ts)
  }

  /** The fields of `YYYYMMDDHHMM`, read at fixed positions. */
  function ReadFields(text: string): Fields
    requires |text| == TIMESTAMP_DIGITS && AllDigits(text)
  {
    Fields(DecimalValue(text[..4]), DecimalValue(text[4..6]), DecimalValue(text[6..8]),
           DecimalValue(text[8..10]), DecimalValue(text[10..12]))
  }

  predicate IsCalendarMinute(f: Fields)
  {
    && 1 <= f.month <= 12
    && 1 <= f.day <= DaysInMonth(f.year, f.month)
    && f.hour < 24
    && f.minute < 60
  }

  /** `strftime('%m/%d/%Y')` and `strftime('%H:%M')`. */
  function Format(f: Fields): Stamp
  {
    Stamp(PadDecimal(f.month, 2) + "/" + PadDecimal(f.day, 2) + "/" + PadDecimal(f.year, 4),
          PadDecimal(f.hour, 2) + ":" + PadDecimal(f.minute, 2))
  }

  /** One value of the time column, converted or rejected. */
  function Normalize(ts: int): (r: Result<Stamp, TimeError>)
    ensures r.Failure? ==> r.error == NotADateTime(Render(ts))
    ensures r.Success? <==>
      && 0 <= ts < Pow(10, TIMESTAMP_DIGITS)
      && IsCalendarMinute(ReadFields(PadDecimal(ts, TIMESTAMP_DIGITS)))
      && EARLIEST_MINUTE <= ts <= LATEST_MINUTE
  {
    var text := Render(ts);
    if |text| != TIMESTAMP_DIGITS || !AllDigits(text) then Failure(NotADateTime(text))
    else
      var f := ReadFields(text);
      DecimalValueOfPad(ts, TIMESTAMP_DIGITS);
      if !IsCalendarMinute(f) || DecimalValue(text) < EARLIEST_MINUTE || DecimalValue(text) > LATEST_MINUTE
      then Failure(NotADateTime(text))
      else Success(Format(f))
  }

  /** The twelve-digit text split into its five fields. */
  lemma RenderedFields(ts: nat)
    requires ts < Pow(10, TIMESTAMP_DIGITS)
    ensures var text := PadDecimal(ts, TIMESTAMP_DIGITS);
      && text[..4] == PadDecimal(ts / 100 / 100 / 100 / 100, 4)
      && text[4..6] == PadDecimal(ts / 100 / 100 / 100 % 100, 2)
      && text[6..8] == PadDecimal(ts / 100 / 100 % 100, 2)
      && text[8..10] == PadDecimal(ts / 100 % 100, 2)
      && text[10..12] == PadDecimal(ts % 100, 2)
  {
    PadSplitTwo(ts, 10);
    PadSplitTwo(ts / 100, 8);
    PadSplitTwo(ts / 100 / 100, 6);
    PadSplitTwo(ts / 100 / 100 / 100, 4);
  }

  /** The fields are the base-100 digits of the timestamp. */
  lemma FieldsOfTimestamp(ts: nat)
    requires ts < Pow(10, TIMESTAMP_DIGITS)
    ensures ReadFields(PadDecimal(ts, TIMESTAMP_DIGITS))
         == Fields(ts / 100 / 100 / 100 / 100, ts / 100 / 100 / 100 % 100, ts / 100 / 100 % 100, ts / 100 % 100, ts % 100)
  {
    RenderedFields(ts);
    assert Pow(10, 4) == 10000 && Pow(10, 2) == 100;
    DecimalValueOfPad(ts / 100 / 100 / 100 / 100, 4);
    DecimalValueOfPad(ts / 100 / 100 / 100 % 100, 2);
    DecimalValueOfPad(ts / 100 / 100 % 100, 2);
    DecimalValueOfPad(ts / 100 % 100, 2);
    DecimalValueOfPad(ts % 100, 2);
  }

  /** Date and Time are the digits of the rendered timestamp, rearranged. */
  lemma StampRearrangesDigits(ts: int)
    requires Normalize(ts).Success?
    ensures var text := PadDecimal(ts, TIMESTAMP_DIGITS);
      && Normalize(ts).value.date == text[4..6] + "/" + text[6..8] + "/" + text[..4]
      && Normalize(ts).value.time == text[8..10] + ":" + text[10..12]
  {
    var text := PadDecimal(ts, TIMESTAMP_DIGITS);
    assert Normalize(ts).value == Format(ReadFields(text));
    PadOfDecimalValue(text[..4]);
    PadOfDecimalValue(text[4..6]);
    PadOfDecimalValue(text[6..8]);
    PadOfDecimalValue(text[8..10]);
    PadOfDecimalValue(text[10..12]);
  }

  /** The Date key identifies the calendar day: two converted timestamps share a
      Date exactly when they agree in everything above the hour digits. */
  lemma DateIsCalendarDay(ts1: int, ts2: int)
    requires Normalize(ts1).Success? && Normalize(ts2).Success?
    ensures Normalize(ts1).value.date == Normalize(ts2).value.date <==> ts1 / 10000 == ts2 / 10000
  {
    FieldsOfTimestamp(ts1);
    FieldsOfTimestamp(ts2);
    var f1 := ReadFields(PadDecimal(ts1, TIMESTAMP_DIGITS));
    var f2 := ReadFields(PadDecimal(ts2, TIMESTAMP_DIGITS));
    var d1 := Normalize(ts1).value.date;
    var d2 := Normalize(ts2).value.date;
    assert Pow(10, 4) == 10000 && Pow(10, 2) == 100;
    if d1 == d2 {
      assert d1[..2] == d2[..2] && d1[3..5] == d2[3..5] && d1[6..] == d2[6..];
      assert d1[..2] == PadDecimal(f1.month, 2) && d1[3..5] == PadDecimal(f1.day, 2) && d1[6..] == PadDecimal(f1.year, 4);
      assert d2[..2] == PadDecimal(f2.month, 2) && d2[3..5] == PadDecimal(f2.day, 2) && d2[6..] == PadDecimal(f2.year, 4);
      PadDecimalInjective(f1.month, f2.month, 2);
      PadDecimalInjective(f1.day, f2.day, 2);
      PadDecimalInjective(f1.year, f2.year, 4);
    }
    var q1, q2 := ts1 / 100 / 100, ts2 / 100 / 100;
    assert ts1 / 10000 == q1 && ts2 / 10000 == q2;
    assert q1 == q1 / 100 / 100 * 10000 + q1 / 100 % 100 * 100 + q1 % 100;
    assert q2 == q2 / 100 / 100 * 10000 + q2 / 100 % 100 * 100 + q2 % 100;
  }
}
