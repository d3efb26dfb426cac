/** Day numbers and date strings, told by how the calendar runs on and how numerals are read. */
module Calendar {
  import opened Common
  import opened Blog

  // ----- How days run on -----

  /** Days of a month, counted from 0 for January, in the Gregorian calendar. */
  function MonthDays(year: int, month: nat): nat
    requires month < 12
  {
    if month == 1 then if year % 4 == 0 && (year % 100 != 0 || year % 400 == 0) then 29 else 28
    else [31, 0, 31, 30, 31, 30, 31, 31, 30, 31, 30, 31][month]
  }

  lemma MonthsCarry(year: int, month: int, day: int)
    ensures MakeDay(year, month + 12, day) == MakeDay(year + 1, month, day)
  {
    assert (month + 12) / 12 == month / 12 + 1 && (month + 12) % 12 == month % 12;
    assert year + (month / 12 + 1) == year + 1 + month / 12;
  }

  lemma FirstOfMonth(year: int, month: nat)
    requires month < 12
    ensures MakeDay(year, month, 1) == DayFromYear(year) + MonthStart(year, month)
  {
    assert month / 12 == 0 && month % 12 == month;
  }

  lemma LengthOfMonth(year: int, month: nat)
    requires month < 12
    ensures MonthStart(year, month + 1) == MonthStart(year, month) + MonthDays(year, month)
  {
    MonthLength(year, month);
  }

  lemma NextMonth(year: int, month: nat)
    requires month < 12
    ensures MakeDay(year, month + 1, 1) == MakeDay(year, month, 1) + MonthDays(year, month)
  {
    FirstOfMonth(year, month);
    LengthOfMonth(year, month);
    if month < 11 {
      FirstOfMonth(year, month + 1);
    } else {
      MonthsCarry(year, 0, 1);
      FirstOfMonth(year + 1, 0);
      YearLength(year);
      MonthsFillYear(year);
    }
  }

  lemma Epoch()
    ensures MakeDay(1970, 0, 1) == 0
  {
    FirstOfMonth(1970, 0);
  }

  lemma NextDay(year: int, month: int, day: int)
    ensures MakeDay(year, month, day + 1) == MakeDay(year, month, day) + 1
  {
  }

  /** Day 0 is 1 January 1970; days run on within a month and beyond it; the first of a month
      follows the last day of the month before; and twelve months make a year, also for
      months before January and after December. This fixes the day of all fields. */
  lemma DaysRunOn(year: int, month: int, day: int)
    ensures MakeDay(1970, 0, 1) == 0
    ensures MakeDay(year, month, day + 1) == MakeDay(year, month, day) + 1
    ensures MakeDay(year, month + 12, day) == MakeDay(year + 1, month, day)
    ensures 0 <= month < 12 ==> MakeDay(year, month + 1, 1) == MakeDay(year, month, 1) + MonthDays(year, month)
  {
    Epoch();
    NextDay(year, month, day);
    MonthsCarry(year, month, day);
    if 0 <= month < 12 {
      NextMonth(year, month);
    }
  }

  // ----- How date strings are read -----

  const DIGITS := "0123456789"

  predicate AllDigits(s: string) {
    forall c :: c in s ==> c in DIGITS
  }

  function Numeral(s: string): int {
    if s == "" then 0 else 10 * Numeral(s[..|s| - 1]) + IndexOf(DIGITS, s[|s| - 1])
  }

  lemma DigitIs(c: char)
    ensures IsDigit(c) <==> c in DIGITS
    ensures IsDigit(c) ==> Digit(c) == IndexOf(DIGITS, c)
  {
    if IsDigit(c) {
      var k := c as int - '0' as int;
      assert DIGITS[k] == c;
      assert forall j :: 0 <= j < 10 ==> DIGITS[j] as int == '0' as int + j;
    }
  }

  lemma TwoDigits(s: string)
    requires |s| == 2 && AllDigits(s)
    ensures Numeral(s) == 10 * Digit(s[0]) + Digit(s[1])
  {
    assert s[0] in s && s[1] in s;
    DigitIs(s[0]);
    DigitIs(s[1]);
    assert s[..1][..0] == "" && s[..1][0] == s[0];
    assert Numeral(s[..1]) == IndexOf(DIGITS, s[0]);
  }

  lemma FourDigits(s: string)
    requires |s| == 4 && AllDigits(s)
    ensures Numeral(s) == 1000 * Digit(s[0]) + 100 * Digit(s[1]) + 10 * Digit(s[2]) + Digit(s[3])
  {
    assert s[2] in s && s[3] in s;
    DigitIs(s[2]);
    DigitIs(s[3]);
    TwoDigits(s[..2]);
    assert s[..3][..2] == s[..2] && s[..3][2] == s[2];
    assert Numeral(s[..3]) == 10 * Numeral(s[..2]) + Digit(s[2]);
  }

  ghost predicate IsWritten(s: string, y: string, m: string, d: string) {
    && |y| == 4 && |m| == 2 && |d| == 2 && AllDigits(y) && AllDigits(m) && AllDigits(d)
    && s == y + "-" + m + "-" + d
  }

  lemma WrittenParts(s: string)
    requires HasDateShape(s)
    ensures IsWritten(s, s[..4], s[5..7], s[8..])
  {
    forall i | 0 <= i < 10 && i != 4 && i != 7 ensures s[i] in DIGITS {
      DigitIs(s[i]);
    }
    assert s == s[..4] + "-" + s[5..7] + "-" + s[8..];
  }

  lemma WrittenHasShape(s: string, y: string, m: string, d: string)
    requires IsWritten(s, y, m, d)
    ensures HasDateShape(s) && y == s[..4] && m == s[5..7] && d == s[8..]
  {
    forall i | 0 <= i < 10 && i != 4 && i != 7 ensures IsDigit(s[i]) {
      if i < 4 {
        assert s[i] == y[i] && y[i] in y;
      } else if i < 7 {
        assert s[i] == m[i - 5] && m[i - 5] in m;
      } else {
        assert s[i] == d[i - 8] && d[i - 8] in d;
      }
      DigitIs(s[i]);
    }
  }

  /** A string has the pattern exactly when it is four digits, two digits and two digits
      joined by hyphens, and then its fields are the numbers these spell. */
  lemma PatternIff(s: string)
    ensures HasDateShape(s) <==> exists y, m, d :: IsWritten(s, y, m, d)
    ensures forall y, m, d | IsWritten(s, y, m, d) ::
              HasDateShape(s) && Written(s) == Fields(Numeral(y), Numeral(m), Numeral(d))
  {
    if HasDateShape(s) {
      WrittenParts(s);
    }
    forall y, m, d | IsWritten(s, y, m, d)
      ensures HasDateShape(s) && Written(s) == Fields(Numeral(y), Numeral(m), Numeral(d))
    {
      FieldsOfParts(s, y, m, d);
    }
  }

  lemma FieldsOfParts(s: string, y: string, m: string, d: string)
    requires IsWritten(s, y, m, d)
    ensures HasDateShape(s) && Written(s) == Fields(Numeral(y), Numeral(m), Numeral(d))
  {
    WrittenHasShape(s, y, m, d);
    FourDigits(y);
    TwoDigits(m);
    TwoDigits(d);
  }

  lemma UtcDayIs(s: string, f: Fields)
    requires HasDateShape(s) && f == Written(s)
    ensures UtcDay(s) == MakeDay(FullYear(f.year), f.month - 1, f.day)
    ensures 0 <= f.year
  {
    WrittenRange(s);
  }

  function ReadYear(year: int): int { if year < 100 then year + 1900 else year }

  lemma FullYearIs(year: int)
    requires 0 <= year
    ensures FullYear(year) == ReadYear(year)
  {
  }

  /** A date string stands for the day of the fields it spells, months counted from 1,
      except that the years 0 to 99 stand for 1900 to 1999. */
  lemma DayOfString(s: string)
    requires HasDateShape(s)
    ensures var f := Written(s); UtcDay(s) == MakeDay(ReadYear(f.year), f.month - 1, f.day)
  {
    UtcDayIs(s, Written(s));
    FullYearIs(Written(s).year);
  }
}
