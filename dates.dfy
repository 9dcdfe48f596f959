/** Calendar dates as Python's `datetime` handles them here: `strptime` and
    `strftime` with the two formats the application uses, `'%Y-%m-%d'` (the
    stored birthday) and `'%d/%m/%Y'` (what the date widget shows). */
module Dates {
  import opened Text
  import opened Common

  datatype Date = Date(year: int, month: int, day: int)

  predicate IsLeap(year: int) {
    year % 4 == 0 && (year % 100 != 0 || year % 400 == 0)
  }

  function DaysInMonth(year: int, month: int): int {
    if month == 2 then (if IsLeap(year) then 29 else 28)
    else if month == 4 || month == 6 || month == 9 || month == 11 then 30
    else 31
  }

  /** The dates `datetime` can represent; anything else raises `ValueError`. */
  predicate ValidDate(d: Date) {
    1 <= d.year <= 9999 && 1 <= d.month <= 12 && 1 <= d.day <= DaysInMonth(d.year, d.month)
  }

  /** Calendar order of two dates. */
  predicate Before(a: Date, b: Date) {
    a.year < b.year || (a.year == b.year && (a.month < b.month || (a.month == b.month && a.day < b.day)))
  }

  /** The calendar day before `d`, which `datetime` has for every date but
      1 January of year 1. It comes before `d` and no valid date lies
      between the two. */
  function PreviousDay(d: Date): (p: Date)
    requires ValidDate(d) && d != Date(1, 1, 1)
    ensures ValidDate(p) && Before(p, d)
    ensures forall e :: ValidDate(e) && Before(p, e) ==> !Before(e, d)
  {
    if d.day > 1 then Date(d.year, d.month, d.day - 1)
    else if d.month > 1 then Date(d.year, d.month - 1, DaysInMonth(d.year, d.month - 1))
    else Date(d.year - 1, 12, 31)
  }

  // ---------------------------------------------------------------------
  // strptime fields
  // ---------------------------------------------------------------------

  /** `%Y`: exactly four digits. */
  function YearField(s: string): Option<int> {
    if |s| == 4 && AllDigits(s) then Some(DecimalValue(s)) else None
  }

  /** `%m`: `1[0-2]|0[1-9]|[1-9]`. */
  function MonthField(s: string): Option<int> {
    if |s| == 2 && AllDigits(s) && 1 <= DecimalValue(s) <= 12 then Some(DecimalValue(s))
    else if |s| == 1 && '1' <= s[0] <= '9' then Some(DigitValue(s[0]))
    else None
  }

  /** `%d`: `3[01]|[12]\d|0[1-9]|[1-9]| [1-9]`. */
  function DayField(s: string): Option<int> {
    if |s| == 2 && AllDigits(s) && 1 <= DecimalValue(s) <= 31 then Some(DecimalValue(s))
    else if |s| == 1 && '1' <= s[0] <= '9' then Some(DigitValue(s[0]))
    else if |s| == 2 && s[0] == ' ' && '1' <= s[1] <= '9' then Some(DigitValue(s[1]))
    else None
  }

  /** Cut `s` at its first two occurrences of `sep`. None of the fields above
      may contain a separator, so this is the only way the format can match. */
  function Split3(s: string, sep: char): Option<(string, string, string)> {
    var i := IndexOf(s, sep);
    if i == |s| then None
    else
      var rest := s[i + 1..];
      var j := IndexOf(rest, sep);
      if j == |rest| then None else Some((s[..i], rest[..j], rest[j + 1..]))
  }

  function MakeDate(year: Option<int>, month: Option<int>, day: Option<int>): Option<Date> {
    if year.Some? && month.Some? && day.Some? && ValidDate(Date(year.value, month.value, day.value))
    then Some(Date(year.value, month.value, day.value))
    else None
  }

  /** `datetime.strptime(s, '%Y-%m-%d')`; `None` stands for `ValueError`. */
  function ParseIso(s: string): (r: Option<Date>)
    ensures r.Some? ==> ValidDate(r.value)
  {
    match Split3(s, '-')
    case None => None
    case Some((y, m, d)) => MakeDate(YearField(y), MonthField(m), DayField(d))
  }

  /** `datetime.strptime(s, '%d/%m/%Y')`; `None` stands for `ValueError`. */
  function ParseDisplay(s: string): (r: Option<Date>)
    ensures r.Some? ==> ValidDate(r.value)
  {
    match Split3(s, '/')
    case None => None
    case Some((d, m, y)) => MakeDate(YearField(y), MonthField(m), DayField(d))
  }

  /** `d.strftime('%Y-%m-%d')`. */
  function FormatIso(d: Date): string
    requires ValidDate(d)
  {
    FixedDigits(d.year, 4) + "-" + FixedDigits(d.month, 2) + "-" + FixedDigits(d.day, 2)
  }

  /** `d.strftime('%d/%m/%Y')`. */
  function FormatDisplay(d: Date): string
    requires ValidDate(d)
  {
    FixedDigits(d.day, 2) + "/" + FixedDigits(d.month, 2) + "/" + FixedDigits(d.year, 4)
  }

  lemma {:induction false} YearRoundTrip(y: int)
    requires 1 <= y <= 9999
    ensures AllDigits(FixedDigits(y, 4))
    ensures YearField(FixedDigits(y, 4)) == Some(y)
  {
    assert Pow10(4) == 10000 by { assert Pow10(2) == 100; }
    FixedDigitsRoundTrip(y, 4);
  }

  lemma {:induction false} TwoDigitsRoundTrip(n: int)
    requires 1 <= n <= 31
    ensures AllDigits(FixedDigits(n, 2))
    ensures |FixedDigits(n, 2)| == 2 && DecimalValue(FixedDigits(n, 2)) == n
  {
    assert Pow10(2) == 100;
    FixedDigitsRoundTrip(n, 2);
  }

  lemma {:induction false} FieldsRoundTrip(d: Date)
    requires ValidDate(d)
    ensures AllDigits(FixedDigits(d.year, 4)) && YearField(FixedDigits(d.year, 4)) == Some(d.year)
    ensures AllDigits(FixedDigits(d.month, 2)) && MonthField(FixedDigits(d.month, 2)) == Some(d.month)
    ensures AllDigits(FixedDigits(d.day, 2)) && DayField(FixedDigits(d.day, 2)) == Some(d.day)
  {
    YearRoundTrip(d.year);
    TwoDigitsRoundTrip(d.month);
    TwoDigitsRoundTrip(d.day);
  }

  /** Splitting three digit fields joined by a non-digit separator gives the fields back. */
  lemma {:induction false} Split3Join(a: string, b: string, c: string, sep: char)
    requires AllDigits(a) && AllDigits(b) && AllDigits(c) && !IsDigit(sep)
    ensures Split3(a + [sep] + b + [sep] + c, sep) == Some((a, b, c))
  {
    var s := a + [sep] + b + [sep] + c;
    assert s[|a|] == sep;
    assert forall i :: 0 <= i < |a| ==> s[i] == a[i];
    assert IndexOf(s, sep) == |a|;
    var rest := s[|a| + 1..];
    assert rest == b + [sep] + c;
    assert rest[|b|] == sep;
    assert IndexOf(rest, sep) == |b|;
    assert s[..|a|] == a;
    assert rest[..|b|] == b;
    assert rest[|b| + 1..] == c;
  }

  /** The stored birthday text reads back as the date that was written. */
  lemma IsoRoundTrip(d: Date)
    requires ValidDate(d)
    ensures ParseIso(FormatIso(d)) == Some(d)
  {
    FieldsRoundTrip(d);
    Split3Join(FixedDigits(d.year, 4), FixedDigits(d.month, 2), FixedDigits(d.day, 2), '-');
    assert FormatIso(d) == FixedDigits(d.year, 4) + ['-'] + FixedDigits(d.month, 2) + ['-'] + FixedDigits(d.day, 2);
  }

  /** The widget text reads back as the date it shows. */
  lemma DisplayRoundTrip(d: Date)
    requires ValidDate(d)
    ensures ParseDisplay(FormatDisplay(d)) == Some(d)
  {
    FieldsRoundTrip(d);
    Split3Join(FixedDigits(d.day, 2), FixedDigits(d.month, 2), FixedDigits(d.year, 4), '/');
    assert FormatDisplay(d) == FixedDigits(d.day, 2) + ['/'] + FixedDigits(d.month, 2) + ['/'] + FixedDigits(d.year, 4);
  }
}
