/** Calendar months ("MM/YYYY" in the system) as one integer, so that adding
    or subtracting months (`relativedelta(months=k)`) is integer arithmetic. */
module MonthYear {
  import opened Wrappers
  import opened Text

  /** Month `month` (1..12) of `year` as the index `year * 12 + month - 1`. */
  function Index(year: int, month: int): int
  {
    year * 12 + month - 1
  }

  function YearOf(m: int): int
  {
    m / 12
  }

  function MonthOf(m: int): (k: int)
    ensures 1 <= k <= 12
  {
    m % 12 + 1
  }

  /** Year and month determine the index and are recovered from it. */
  lemma {:induction false} IndexParts(year: int, month: int)
    requires 1 <= month <= 12
    ensures YearOf(Index(year, month)) == year
    ensures MonthOf(Index(year, month)) == month
  {
  }

  lemma {:induction false} IndexOfParts(m: int)
    ensures Index(YearOf(m), MonthOf(m)) == m
  {
  }

  /** `strftime("%m/%Y")`: two-digit month, slash, four-digit year. */
  function Format(m: int): (s: string)
    requires 0 <= YearOf(m) <= 9999
    ensures |s| == 7 && s[2] == '/'
  {
    Render(MonthOf(m), YearOf(m))
  }

  /** "MM/YYYY" for month 1..12 of year 0..9999. */
  function Render(month: int, year: int): (s: string)
    requires 1 <= month <= 12 && 0 <= year <= 9999
    ensures |s| == 7 && s[2] == '/'
  {
    [DigitChar(month / 10), DigitChar(month % 10), '/',
     DigitChar(year / 1000), DigitChar(year / 100 % 10), DigitChar(year / 10 % 10), DigitChar(year % 10)]
  }

  /** `datetime.strptime(s, "%m/%Y")` for the canonical shape: two digits
      giving a month 01..12, a slash, four digits giving a year 0001..9999. */
  function Parse(s: string): (r: Option<int>)
    ensures r.Some? ==> 1 <= YearOf(r.value) <= 9999
  {
    if |s| == 7 && s[2] == '/' && IsDigit(s[0]) && IsDigit(s[1])
       && IsDigit(s[3]) && IsDigit(s[4]) && IsDigit(s[5]) && IsDigit(s[6])
    then
      var month := 10 * DigitValue(s[0]) + DigitValue(s[1]);
      var year := 1000 * DigitValue(s[3]) + 100 * DigitValue(s[4])
                  + 10 * DigitValue(s[5]) + DigitValue(s[6]);
      if 1 <= month <= 12 && 1 <= year then Some(Index(year, month)) else None
    else
      None
  }

  /** The two decimal digits of a month number. */
  lemma {:induction false} TwoDigits(k: int)
    requires 0 <= k <= 99
    ensures 0 <= k / 10 <= 9 && 10 * (k / 10) + k % 10 == k
  {
  }

  /** The four decimal digits of a year number. */
  lemma {:induction false} FourDigits(y: int)
    requires 0 <= y <= 9999
    ensures 0 <= y / 1000 <= 9
    ensures 1000 * (y / 1000) + 100 * (y / 100 % 10) + 10 * (y / 10 % 10) + y % 10 == y
  {
    assert y / 100 == 10 * (y / 1000) + y / 100 % 10;
    assert y / 10 == 10 * (y / 100) + y / 10 % 10;
    assert y == 10 * (y / 10) + y % 10;
  }

  lemma {:induction false} TwoDigitsBack(a: int, b: int)
    requires 0 <= a <= 9 && 0 <= b <= 9
    ensures (10 * a + b) / 10 == a && (10 * a + b) % 10 == b
  {
  }

  /** Digits recombined and split again. */
  lemma {:induction false} FourDigitsBack(y: int, a: int, b: int, c: int, d: int)
    requires 0 <= a <= 9 && 0 <= b <= 9 && 0 <= c <= 9 && 0 <= d <= 9
    requires y == 1000 * a + 100 * b + 10 * c + d
    ensures y / 1000 == a && y / 100 % 10 == b && y / 10 % 10 == c && y % 10 == d
  {
    assert y / 10 == 100 * a + 10 * b + c;
    assert y / 100 == 10 * a + b;
  }

  /** Rendering a month and a year given by their digits writes those digits. */
  lemma {:induction false} RenderDigits(a0: int, a1: int, b0: int, b1: int, b2: int, b3: int)
    requires 0 <= a0 <= 9 && 0 <= a1 <= 9
    requires 1 <= 10 * a0 + a1 <= 12
    requires 0 <= b0 <= 9 && 0 <= b1 <= 9 && 0 <= b2 <= 9 && 0 <= b3 <= 9
    ensures Render(10 * a0 + a1, 1000 * b0 + 100 * b1 + 10 * b2 + b3)
      == [DigitChar(a0), DigitChar(a1), '/', DigitChar(b0), DigitChar(b1), DigitChar(b2), DigitChar(b3)]
  {
    TwoDigitsBack(a0, a1);
    FourDigitsBack(1000 * b0 + 100 * b1 + 10 * b2 + b3, b0, b1, b2, b3);
  }

  /** Parsing a rendered month gives its index. */
  lemma {:induction false} ParseRender(month: int, year: int)
    requires 1 <= month <= 12 && 1 <= year <= 9999
    ensures Parse(Render(month, year)) == Some(Index(year, month))
  {
    var s := Render(month, year);
    TwoDigits(month);
    FourDigits(year);
    DigitRoundTrip(month / 10);
    DigitRoundTrip(month % 10);
    DigitRoundTrip(year / 1000);
    DigitRoundTrip(year / 100 % 10);
    DigitRoundTrip(year / 10 % 10);
    DigitRoundTrip(year % 10);
    assert 10 * DigitValue(s[0]) + DigitValue(s[1]) == month;
    assert 1000 * DigitValue(s[3]) + 100 * DigitValue(s[4]) + 10 * DigitValue(s[5]) + DigitValue(s[6]) == year;
  }

  /** Formatting a month of years 1..9999 and parsing it back gives the month. */
  lemma {:induction false} ParseFormat(m: int)
    requires 1 <= YearOf(m) <= 9999
    ensures Parse(Format(m)) == Some(m)
  {
    ParseRender(MonthOf(m), YearOf(m));
    IndexOfParts(m);
  }

  /** A text that parses is the rendering of the month and year its digits give. */
  lemma {:induction false} ParsedIsRendered(s: string) returns (month: int, year: int)
    requires Parse(s).Some?
    ensures 1 <= month <= 12 && 1 <= year <= 9999
    ensures Parse(s) == Some(Index(year, month)) && Render(month, year) == s
  {
    var a0, a1 := DigitValue(s[0]), DigitValue(s[1]);
    var b0, b1, b2, b3 := DigitValue(s[3]), DigitValue(s[4]), DigitValue(s[5]), DigitValue(s[6]);
    month := 10 * a0 + a1;
    year := 1000 * b0 + 100 * b1 + 10 * b2 + b3;
    RenderDigits(a0, a1, b0, b1, b2, b3);
    ValueRoundTrip(s[0]);
    ValueRoundTrip(s[1]);
    ValueRoundTrip(s[3]);
    ValueRoundTrip(s[4]);
    ValueRoundTrip(s[5]);
    ValueRoundTrip(s[6]);
  }

  /** Every text that parses is the canonical form of the month it denotes. */
  lemma {:induction false} FormatParse(s: string)
    requires Parse(s).Some?
    ensures Format(Parse(s).value) == s
  {
    var month, year := ParsedIsRendered(s);
    FormatIndex(year, month);
  }

  lemma {:induction false} FormatIndex(year: int, month: int)
    requires 1 <= month <= 12 && 0 <= year <= 9999
    ensures Format(Index(year, month)) == Render(month, year)
  {
    IndexParts(year, month);
  }

  /** Two different texts never denote the same month. */
  lemma {:induction false} ParseInjective(a: string, b: string)
    requires Parse(a).Some? && Parse(b).Some? && a != b
    ensures Parse(a).value != Parse(b).value
  {
    FormatParse(a);
    FormatParse(b);
  }
}
