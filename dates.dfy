/** Calendar dates as `datetime` holds them, the `%Y%m%d` text that
    `strftime` writes for the daily file name, and the `strptime` reading of
    that text back into a date. */
module Dates {
  import opened Wrappers
  import Lex

  datatype Date = Date(year: int, month: int, day: int)

  predicate IsLeapYear(y: int)
  {
    y % 4 == 0 && (y % 100 != 0 || y % 400 == 0)
  }

  function DaysInMonth(y: int, m: int): int
  {
    if m == 2 then (if IsLeapYear(y) then 29 else 28)
    else if m == 4 || m == 6 || m == 9 || m == 11 then 30
    else 31
  }

  /** The dates a `datetime` can hold: years 1 to 9999 of the Gregorian calendar. */
  predicate ValidDate(d: Date)
  {
    1 <= d.year <= 9999 && 1 <= d.month <= 12 && 1 <= d.day <= DaysInMonth(d.year, d.month)
  }

  type CalendarDate = d: Date | ValidDate(d) witness Date(2000, 1, 1)

  /** Calendar order. */
  predicate Before(a: Date, b: Date)
  {
    a.year < b.year
    || (a.year == b.year && a.month < b.month)
    || (a.year == b.year && a.month == b.month && a.day < b.day)
  }

  function Pow10(n: nat): (r: nat)
    ensures r >= 1
  {
    if n == 0 then 1 else 10 * Pow10(n - 1)
  }

  predicate IsDigit(c: char)
  {
    '0' <= c <= '9'
  }

  predicate AllDigits(s: string)
  {
    forall i :: 0 <= i < |s| ==> IsDigit(s[i])
  }

  function DigitChar(d: nat): (c: char)
    requires d < 10
    ensures IsDigit(c)
  {
    ('0' as int + d) as char
  }

  /** `n` written in decimal, zero-padded to `width` characters. */
  function Digits(n: nat, width: nat): (s: string)
    requires n < Pow10(width)
    ensures |s| == width && AllDigits(s)
  {
    if width == 0 then ""
    else Digits(n / 10, width - 1) + [DigitChar(n % 10)]
  }

  /** The number a string of decimal digits denotes. */
  function Value(s: string): (n: nat)
    requires AllDigits(s)
    ensures n < Pow10(|s|)
  {
    if |s| == 0 then 0
    else 10 * Value(s[..|s| - 1]) + (s[|s| - 1] as int - '0' as int)
  }

  lemma {:induction false} ValueOfDigits(n: nat, width: nat)
    requires n < Pow10(width)
    ensures Value(Digits(n, width)) == n
  {
    if width > 0 {
      var s := Digits(n, width);
      assert s[..|s| - 1] == Digits(n / 10, width - 1);
      ValueOfDigits(n / 10, width - 1);
    }
  }

  lemma {:induction false} DigitsOfValue(s: string)
    requires AllDigits(s)
    ensures Digits(Value(s), |s|) == s
  {
    if |s| > 0 {
      var init := s[..|s| - 1];
      var n := Value(s);
      assert n / 10 == Value(init) && n % 10 == s[|s| - 1] as int - '0' as int;
      DigitsOfValue(init);
      assert s == init + [s[|s| - 1]];
    }
  }

  /** Zero-padded numbers of one width compare as strings the way they
      compare as numbers. */
  lemma {:induction false} DigitsOrder(x: nat, y: nat, width: nat)
    requires x < Pow10(width) && y < Pow10(width)
    ensures Lex.Less(Digits(x, width), Digits(y, width)) <==> x < y
  {
    if width == 0 {
      assert x == 0 && y == 0;
    } else {
      var hx, hy := Digits(x / 10, width - 1), Digits(y / 10, width - 1);
      var cx, cy := DigitChar(x % 10), DigitChar(y % 10);
      Lex.LessBlocks(hx, [cx], hy, [cy]);
      DigitsOrder(x / 10, y / 10, width - 1);
      assert hx == hy <==> x / 10 == y / 10 by {
        ValueOfDigits(x / 10, width - 1);
        ValueOfDigits(y / 10, width - 1);
      }
      assert Lex.Less([cx], [cy]) <==> x % 10 < y % 10 by {
        assert [cx][1..] == [] && [cy][1..] == [];
      }
    }
  }

  /** `date.strftime('%Y%m%d')`. */
  function FormatDate(d: CalendarDate): (s: string)
    ensures |s| == 8 && AllDigits(s)
  {
    Digits(d.year, 4) + Digits(d.month, 2) + Digits(d.day, 2)
  }

  /** `datetime.strptime(s, '%Y%m%d')` on an eight-character token: `None`
      stands for the `ValueError` it raises. */
  function ParseDate(s: string): Option<CalendarDate>
  {
    if |s| == 8 && AllDigits(s) then
      var d := Date(Value(s[..4]), Value(s[4..6]), Value(s[6..]));
      if ValidDate(d) then Some(d) else None
    else None
  }

  /** Reading the written date gives the date back. */
  lemma ParseFormat(d: CalendarDate)
    ensures ParseDate(FormatDate(d)) == Some(d)
  {
    var y, m, dd := Digits(d.year, 4), Digits(d.month, 2), Digits(d.day, 2);
    var s := FormatDate(d);
    assert s[..4] == y && s[4..6] == m && s[6..] == dd;
    ValueOfDigits(d.year, 4);
    ValueOfDigits(d.month, 2);
    ValueOfDigits(d.day, 2);
  }

  /** Every token that reads as a date is exactly that date written out. */
  lemma FormatParse(s: string)
    requires ParseDate(s).Some?
    ensures FormatDate(ParseDate(s).value) == s
  {
    var d := ParseDate(s).value;
    assert AllDigits(s[..4]) && AllDigits(s[4..6]) && AllDigits(s[6..]);
    DigitsOfValue(s[..4]);
    DigitsOfValue(s[4..6]);
    DigitsOfValue(s[6..]);
    assert s == s[..4] + s[4..6] + s[6..];
  }

  /** The written dates sort as strings in calendar order. */
  lemma FormatOrder(a: CalendarDate, b: CalendarDate)
    ensures Lex.Less(FormatDate(a), FormatDate(b)) <==> Before(a, b)
  {
    var ya, ma, da := Digits(a.year, 4), Digits(a.month, 2), Digits(a.day, 2);
    var yb, mb, db := Digits(b.year, 4), Digits(b.month, 2), Digits(b.day, 2);
    Lex.LessBlocks(ya + ma, da, yb + mb, db);
    Lex.LessBlocks(ya, ma, yb, mb);
    DigitsOrder(a.year, b.year, 4);
    DigitsOrder(a.month, b.month, 2);
    DigitsOrder(a.day, b.day, 2);
    ValueOfDigits(a.year, 4);
    ValueOfDigits(b.year, 4);
    ValueOfDigits(a.month, 2);
    ValueOfDigits(b.month, 2);
    assert ya + ma == yb + mb <==> ya == yb && ma == mb by {
      if ya + ma == yb + mb {
        assert ya == (ya + ma)[..4] && yb == (yb + mb)[..4];
        assert ma == (ya + ma)[4..] && mb == (yb + mb)[4..];
      }
    }
  }
}
