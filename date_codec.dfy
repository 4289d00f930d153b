/**
 * The `DD.MM.YYYY` birth-date format, read with `datetime.strptime(s, '%d.%m.%Y')` and written
 * back with `strftime('%d.%m.%Y')`. Only the canonical form is modelled: a two-digit day, a
 * two-digit month and a four-digit year, separated by dots.
 */
module DateCodec {
  import opened Wrappers

  /** The calendar date that a parsed `datetime` carries. */
  datatype Date = Date(day: int, month: int, year: int)

  predicate IsLeapYear(year: int) {
    year % 4 == 0 && (year % 100 != 0 || year % 400 == 0)
  }

  function DaysInMonth(month: int, year: int): (n: int)
    requires 1 <= month <= 12
    ensures 28 <= n <= 31
    ensures n == 29 <==> month == 2 && IsLeapYear(year)
  {
    if month == 2 then (if IsLeapYear(year) then 29 else 28)
    else if month == 4 || month == 6 || month == 9 || month == 11 then 30
    else 31
  }

  /** The dates a `datetime` can hold: years 1 to 9999 of the proleptic Gregorian calendar. */
  predicate ValidDate(d: Date) {
    1 <= d.year <= 9999 && 1 <= d.month <= 12 && 1 <= d.day <= DaysInMonth(d.month, d.year)
  }

  predicate IsDigit(c: char) {
    '0' <= c <= '9'
  }

  predicate AllDigits(s: string) {
    forall i :: 0 <= i < |s| ==> IsDigit(s[i])
  }

  function Pow10(n: nat): (p: nat)
    ensures p >= 1
  {
    if n == 0 then 1 else 10 * Pow10(n - 1)
  }

  /** The number that a string of decimal digits denotes. */
  function DigitsValue(s: string): (n: nat)
    requires AllDigits(s)
    ensures n < Pow10(|s|)
  {
    if s == [] then 0
    else
      var init := s[..|s| - 1];
      var v := DigitsValue(init);
      assert v + 1 <= Pow10(|init|);
      v * 10 + (s[|s| - 1] as int - '0' as int)
  }

  /** The `width` lowest decimal digits of `n`, zero-padded on the left. */
  function Digits(n: nat, width: nat): (s: string)
    ensures |s| == width && AllDigits(s)
  {
    if width == 0 then [] else Digits(n / 10, width - 1) + [('0' as int + n % 10) as char]
  }

  lemma {:induction false} DigitsRoundTrip(n: nat, width: nat)
    requires n < Pow10(width)
    ensures DigitsValue(Digits(n, width)) == n
  {
    if width > 0 {
      DigitsRoundTrip(n / 10, width - 1);
      var s := Digits(n, width);
      assert s[..|s| - 1] == Digits(n / 10, width - 1);
    }
  }

  lemma {:induction false} ValueRoundTrip(s: string)
    requires AllDigits(s)
    ensures Digits(DigitsValue(s), |s|) == s
  {
    if s != [] {
      var init := s[..|s| - 1];
      ValueRoundTrip(init);
      var d := s[|s| - 1] as int - '0' as int;
      assert DigitsValue(s) == DigitsValue(init) * 10 + d;
      assert DigitsValue(s) / 10 == DigitsValue(init) && DigitsValue(s) % 10 == d;
      assert s == init + [s[|s| - 1]];
    }
  }

  /**
   * `strptime(s, '%d.%m.%Y')` restricted to canonical strings: None where Python raises ValueError
   * (wrong shape, day or month out of range, year 0).
   */
  function Parse(s: string): (r: Option<Date>)
    ensures r.Some? ==> ValidDate(r.value) && |s| == 10
  {
    if |s| == 10 && s[2] == '.' && s[5] == '.'
       && AllDigits(s[..2]) && AllDigits(s[3..5]) && AllDigits(s[6..])
    then
      var d := Date(DigitsValue(s[..2]), DigitsValue(s[3..5]), DigitsValue(s[6..]));
      if ValidDate(d) then Some(d) else None
    else None
  }

  /** `strftime('%d.%m.%Y')`: the canonical text of a date. */
  function Format(d: Date): (s: string)
    requires ValidDate(d)
    ensures |s| == 10 && s[2] == '.' && s[5] == '.'
  {
    Digits(d.day, 2) + "." + Digits(d.month, 2) + "." + Digits(d.year, 4)
  }

  /** Rendering a date and reading it back gives the same date. */
  lemma ParseFormat(d: Date)
    requires ValidDate(d) && 1000 <= d.year
    ensures Parse(Format(d)) == Some(d)
  {
    var s := Format(d);
    assert s[..2] == Digits(d.day, 2);
    assert s[3..5] == Digits(d.month, 2);
    assert s[6..] == Digits(d.year, 4);
    DigitsRoundTrip(d.day, 2);
    DigitsRoundTrip(d.month, 2);
    DigitsRoundTrip(d.year, 4);
  }

  /** Every accepted string is canonical: rendering the parsed date gives the string back. */
  lemma FormatParse(s: string)
    requires Parse(s).Some? && 1000 <= Parse(s).value.year
    ensures Format(Parse(s).value) == s
  {
    var d := Parse(s).value;
    ValueRoundTrip(s[..2]);
    ValueRoundTrip(s[3..5]);
    ValueRoundTrip(s[6..]);
    assert s == s[..2] + "." + s[3..5] + "." + s[6..];
  }

  /** The date string that the handler tests accept. */
  lemma ParseAcceptsExample()
    ensures Parse("31.12.2019") == Some(Date(31, 12, 2019))
  {
    assert Format(Date(31, 12, 2019)) == "31.12.2019";
    ParseFormat(Date(31, 12, 2019));
  }

  /** The date strings that the handler tests reject: wrong shape, day 35, a sign, month 14. */
  lemma ParseRejectsExamples()
    ensures Parse("aaa").None?
    ensures Parse("-10.02.1008").None?
    ensures Parse("35.02.1998").None?
    ensures Parse("12.14.2019").None?
  {
    assert "35.02.1998"[..2] == "35" && "35"[..1] == "3";
    assert "12.14.2019"[3..5] == "14" && "14"[..1] == "1";
  }

  /** The 29th of February exists only in leap years. */
  lemma ParseLeapDay()
    ensures Parse("29.02.2019").None?
    ensures Parse("29.02.2020") == Some(Date(29, 2, 2020))
  {
    assert Format(Date(29, 2, 2020)) == "29.02.2020";
    ParseFormat(Date(29, 2, 2020));
    assert "29.02.2019"[..2] == "29" && "29"[..1] == "2";
    assert "29.02.2019"[3..5] == "02" && "02"[..1] == "0";
    assert "29.02.2019"[6..] == "2019" && "2019"[..3] == "201" && "201"[..2] == "20" && "20"[..1] == "2";
  }
}
