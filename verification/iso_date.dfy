/** `new Date(s)` on the date-only ISO form "YYYY-MM-DD" that a date input
    produces, as V8 reads it: the string denotes midnight UTC of that day,
    kept here as a day number counted from 1970-01-01. V8 checks the month
    against 1..12 but the day only against 1..31, whatever the month; a day
    past the end of its month rolls over into the next ("2023-02-29" is
    2023-03-01). Anything else is an invalid date, whose time value is NaN. */
module IsoDate {
  import opened Wrappers
  import opened JsText

  predicate IsLeapYear(y: int) {
    y % 4 == 0 && (y % 100 != 0 || y % 400 == 0)
  }

  function DaysInMonth(y: int, m: int): int
    requires 1 <= m <= 12
  {
    if m == 2 then (if IsLeapYear(y) then 29 else 28)
    else if m == 4 || m == 6 || m == 9 || m == 11 then 30
    else 31
  }

  /** Day number of a proleptic Gregorian calendar date, 1970-01-01 being day
      0; the usual era-of-400-years computation. */
  function DaysFromCivil(y: int, m: int, d: int): int
    requires 1 <= m <= 12
  {
    var y' := if m <= 2 then y - 1 else y;
    var era := y' / 400;
    var yoe := y' - era * 400;
    var mp := if m > 2 then m - 3 else m + 9;
    var doy := (153 * mp + 2) / 5 + d - 1;
    var doe := yoe * 365 + yoe / 4 - yoe / 100 + doy;
    era * 146097 + doe - 719468
  }

  /** Consecutive days of one month have consecutive day numbers. */
  lemma NextDayInMonth(y: int, m: int, d: int)
    requires 1 <= m <= 12
    ensures DaysFromCivil(y, m, d + 1) == DaysFromCivil(y, m, d) + 1
  {
  }

  predicate IsIsoDateShape(s: string) {
    |s| == 10 && s[4] == '-' && s[7] == '-'
    && AllDigits(s[..4]) && AllDigits(s[5..7]) && AllDigits(s[8..])
  }

  /** The day `s` denotes, or None when `new Date(s)` is an invalid date. */
  function ParseIsoDate(s: string): (r: Option<int>)
    ensures r.Some? <==> IsIsoDateShape(s) && 1 <= ParseDecimal(s[5..7]) <= 12
                         && 1 <= ParseDecimal(s[8..]) <= 31
    ensures r.Some? ==> r.value == DaysFromCivil(ParseDecimal(s[..4]), ParseDecimal(s[5..7]), ParseDecimal(s[8..]))
  {
    if IsIsoDateShape(s) then
      var y := ParseDecimal(s[..4]);
      var m := ParseDecimal(s[5..7]);
      var d := ParseDecimal(s[8..]);
      if 1 <= m <= 12 && 1 <= d <= 31 then Some(DaysFromCivil(y, m, d))
      else None
    else None
  }

  /** The day after the last day of a month is the first day of the next
      month, across the end of February in leap and common years and across
      the end of the year; this is the roll-over V8 applies to a day past
      the end of its month. */
  lemma MonthRollsOver(y: int, m: int)
    requires 1 <= m <= 12
    ensures DaysFromCivil(y, m, DaysInMonth(y, m) + 1)
            == if m == 12 then DaysFromCivil(y + 1, 1, 1) else DaysFromCivil(y, m + 1, 1)
  {
    if m == 2 {
      MarchYearLength(y);
    }
  }

  /** Day number of 1 March of `y`, from its 400-year era and the year of
      that era. */
  lemma MarchFirst(y: int)
    ensures DaysFromCivil(y, 3, 1)
            == (y / 400) * 146097 + (y % 400) * 365 + (y % 400) / 4 - (y % 400) / 100 - 719468
  {
  }

  /** Stepping a year of the era up by one adds a fourth year exactly at a
      multiple of 4, and a hundredth year exactly at a multiple of 100. */
  lemma EraYearStep(e: int)
    requires 0 <= e
    ensures (e + 1) / 4 - e / 4 == if (e + 1) % 4 == 0 then 1 else 0
    ensures (e + 1) / 100 - e / 100 == if (e + 1) % 100 == 0 then 1 else 0
  {
  }

  /** Quotient and remainder are the unique pair with `y == q * 400 + c`. */
  lemma Split400(y: int, q: int, c: int)
    requires y == q * 400 + c && 0 <= c < 400
    ensures y / 400 == q && y % 400 == c
  {
  }

  lemma Split100(y: int, q: int, c: int)
    requires y == q * 100 + c && 0 <= c < 100
    ensures y % 100 == c
  {
  }

  lemma Split4(y: int, q: int, c: int)
    requires y == q * 4 + c && 0 <= c < 4
    ensures y % 4 == c
  {
  }

  /** A year written as whole eras plus a year of the era. */
  lemma EraSplit(y: int, k: int, r: int)
    requires y == k * 400 + r && 0 <= r < 400
    ensures y / 400 == k && y % 400 == r && y % 4 == r % 4 && y % 100 == r % 100
  {
    Split400(y, k, r);
    Split4(y, k * 100 + r / 4, r % 4);
    Split100(y, k * 4 + r / 100, r % 100);
  }

  /** Day number of 1 March of the year `e` of era `k`. */
  lemma MarchFirstInEra(y: int, k: int, e: int)
    requires y == k * 400 + e && 0 <= e < 400
    ensures DaysFromCivil(y, 3, 1) == k * 146097 + e * 365 + e / 4 - e / 100 - 719468
  {
    EraSplit(y, k, e);
    MarchFirst(y);
  }

  /** The year ending at 1 March of `y`, when both ends lie in one era. */
  lemma YearLengthInEra(y: int, k: int, e: int)
    requires y == k * 400 + e + 1 && 0 <= e < 399
    ensures DaysFromCivil(y, 3, 1) - DaysFromCivil(y - 1, 3, 1) == if IsLeapYear(y) then 366 else 365
  {
    MarchFirstInEra(y - 1, k, e);
    MarchFirstInEra(y, k, e + 1);
    EraSplit(y, k, e + 1);
    EraYearStep(e);
    if (e + 1) % 100 == 0 {
      Split4(e + 1, (e + 1) / 100 * 25, 0);
    }
  }

  /** The year ending at 1 March of `y`, when `y` starts an era. */
  lemma YearLengthAtEraEnd(y: int, k: int)
    requires y == (k + 1) * 400
    ensures DaysFromCivil(y, 3, 1) - DaysFromCivil(y - 1, 3, 1) == if IsLeapYear(y) then 366 else 365
  {
    MarchFirstInEra(y - 1, k, 399);
    MarchFirstInEra(y, k + 1, 0);
    EraSplit(y, k + 1, 0);
  }

  /** The year counted from 1 March of `y - 1` has 366 days exactly when `y`
      is a leap year. */
  lemma MarchYearLength(y: int)
    ensures DaysFromCivil(y, 3, 1) - DaysFromCivil(y - 1, 3, 1) == if IsLeapYear(y) then 366 else 365
  {
    var k, e := (y - 1) / 400, (y - 1) % 400;
    if e == 399 {
      YearLengthAtEraEnd(y, k);
    } else {
      YearLengthInEra(y, k, e);
    }
  }

  /** The decimal value of a numeral, read digit by digit. */
  lemma ParseDigits(s: string)
    requires AllDigits(s) && 0 < |s| <= 4
    ensures ParseDecimal(s) == if |s| == 1 then s[0] as int - '0' as int
                              else if |s| == 2 then (s[0] as int - '0' as int) * 10 + (s[1] as int - '0' as int)
                              else if |s| == 3 then (s[0] as int - '0' as int) * 100 + (s[1] as int - '0' as int) * 10 + (s[2] as int - '0' as int)
                              else (s[0] as int - '0' as int) * 1000 + (s[1] as int - '0' as int) * 100 + (s[2] as int - '0' as int) * 10 + (s[3] as int - '0' as int)
  {
    var p := s[..|s| - 1];
    if |s| > 1 {
      ParseDigits(p);
    }
    assert p[..|p|] == p;
    if |p| >= 1 { assert p[..|p| - 1] == s[..|s| - 2]; }
  }

  lemma EpochIsDayZero()
    ensures ParseIsoDate("1970-01-01") == Some(0)
  {
    var s := "1970-01-01";
    assert s[..4] == "1970" && s[5..7] == "01" && s[8..] == "01";
    ParseDigits("1970");
    ParseDigits("01");
    assert ParseDecimal(s[..4]) == 1970 && ParseDecimal(s[5..7]) == 1 && ParseDecimal(s[8..]) == 1;
    assert DaysFromCivil(1970, 1, 1) == 0;
  }

  lemma FirstOfMay2024()
    ensures ParseIsoDate("2024-05-01") == Some(19844)
  {
    var s := "2024-05-01";
    assert s[..4] == "2024" && s[5..7] == "05" && s[8..] == "01";
    ParseDigits("2024");
    ParseDigits("05");
    ParseDigits("01");
    assert ParseDecimal(s[..4]) == 2024 && ParseDecimal(s[5..7]) == 5 && ParseDecimal(s[8..]) == 1;
    assert DaysFromCivil(2024, 5, 1) == 19844;
  }

  lemma ThirdOfMay2024()
    ensures ParseIsoDate("2024-05-03") == Some(19846)
  {
    var s := "2024-05-03";
    assert s[..4] == "2024" && s[5..7] == "05" && s[8..] == "03";
    ParseDigits("2024");
    ParseDigits("05");
    ParseDigits("03");
    assert ParseDecimal(s[..4]) == 2024 && ParseDecimal(s[5..7]) == 5 && ParseDecimal(s[8..]) == 3;
    assert DaysFromCivil(2024, 5, 3) == 19846;
  }

  /** V8 reads the 29th of February of a common year as the 1st of March. */
  lemma LeapDayRollsOver2023()
    ensures ParseIsoDate("2023-02-29") == Some(19417)
  {
    var s := "2023-02-29";
    assert s[..4] == "2023" && s[5..7] == "02" && s[8..] == "29";
    ParseDigits("2023");
    ParseDigits("02");
    ParseDigits("29");
    assert ParseDecimal(s[..4]) == 2023 && ParseDecimal(s[5..7]) == 2 && ParseDecimal(s[8..]) == 29;
    assert DaysFromCivil(2023, 2, 29) == 19417;
  }

  lemma FirstOfMarch2023()
    ensures ParseIsoDate("2023-03-01") == Some(19417)
  {
    var s := "2023-03-01";
    assert s[..4] == "2023" && s[5..7] == "03" && s[8..] == "01";
    ParseDigits("2023");
    ParseDigits("03");
    ParseDigits("01");
    assert ParseDecimal(s[..4]) == 2023 && ParseDecimal(s[5..7]) == 3 && ParseDecimal(s[8..]) == 1;
    assert DaysFromCivil(2023, 3, 1) == 19417;
  }

  /** No month has a 32nd day, even with roll-over. */
  lemma NoThirtySecondDay()
    ensures ParseIsoDate("2024-01-32") == None
  {
    var s := "2024-01-32";
    assert s[8..] == "32";
    ParseDigits("32");
    assert ParseDecimal(s[8..]) == 32;
  }
}
