/**
 * Calendar dates as the application reads and writes them: the
 * `"YYYY-MM-DD"` strings written by the date picker and by
 * `strftime('%Y-%m-%d')`, and parsed back by `strptime(s, "%Y-%m-%d")`.
 */
module Calendar {
  import opened Wrappers
  import opened Text

  datatype Date = Date(year: int, month: int, day: int)

  /** The wall clock reading the application takes from `datetime.now()`. */
  datatype Now = Now(date: Date, hour: int, minute: int)

  predicate IsLeapYear(y: int) {
    y % 4 == 0 && (y % 100 != 0 || y % 400 == 0)
  }

  function DaysInMonth(y: int, m: int): int
    requires 1 <= m <= 12
  {
    if m == 2 then (if IsLeapYear(y) then 29 else 28)
    else if m == 4 || m == 6 || m == 9 || m == 11 then 30
    else 31
  }

  /** A date Python's `datetime.date` accepts (years 1 to 9999). */
  predicate ValidDate(d: Date) {
    1 <= d.year <= 9999 && 1 <= d.month <= 12 && 1 <= d.day <= DaysInMonth(d.year, d.month)
  }

  /** A clock reading; its year has four digits, so `strftime('%Y')` needs no padding. */
  predicate ValidNow(now: Now) {
    ValidDate(now.date) && 1000 <= now.date.year && 0 <= now.hour < 24 && 0 <= now.minute < 60
  }

  /** Chronological order of `datetime.date` values. */
  predicate Before(a: Date, b: Date) {
    a.year < b.year
    || (a.year == b.year && (a.month < b.month || (a.month == b.month && a.day < b.day)))
  }

  /**
   * The field `strptime` reads for `%m` and `%I`, whose pattern is
   * `1[0-2]|0[1-9]|[1-9]`: one digit 1-9, or two digits 01-12.
   */
  function OneToTwelve(f: string): (r: Option<nat>)
    ensures r.Some? ==> 1 <= r.value <= 12
  {
    if |f| == 1 && '1' <= f[0] <= '9' then Some(DigitValue(f[0]))
    else if |f| == 2 && ((f[0] == '0' && '1' <= f[1] <= '9') || (f[0] == '1' && '0' <= f[1] <= '2')) then
      Some(DigitValue(f[0]) * 10 + DigitValue(f[1]))
    else None
  }

  /**
   * The field `strptime` reads for `%d`, whose pattern is
   * `3[01]|[12]\d|0[1-9]|[1-9]| [1-9]`.
   */
  function DayOfMonth(f: string): (r: Option<nat>)
    ensures r.Some? ==> 1 <= r.value <= 31
  {
    if |f| == 1 && '1' <= f[0] <= '9' then Some(DigitValue(f[0]))
    else if |f| == 2 && f[0] == ' ' && '1' <= f[1] <= '9' then Some(DigitValue(f[1]))
    else if |f| == 2 && ((f[0] == '3' && '0' <= f[1] <= '1')
                         || ('1' <= f[0] <= '2' && IsDigit(f[1]))
                         || (f[0] == '0' && '1' <= f[1] <= '9')) then
      Some(DigitValue(f[0]) * 10 + DigitValue(f[1]))
    else None
  }

  /**
   * `datetime.strptime(s, "%Y-%m-%d").date()`, or `None` where it raises:
   * four year digits, a dash, the month field, a dash, and the day field
   * up to the end of the string; the result must be a real date.
   */
  function ParseDate(s: string): (r: Option<Date>)
    ensures r.Some? ==> ValidDate(r.value)
  {
    if |s| < 8 || !AllDigits(s[..4]) || s[4] != '-' then None
    else
      var monthLen := if s[6] == '-' then 1 else if s[7] == '-' then 2 else 0;
      if monthLen == 0 then None
      else
        match (OneToTwelve(s[5..5 + monthLen]), DayOfMonth(s[6 + monthLen..]))
        case (Some(m), Some(d)) =>
          var date := Date(DigitsValue(s[..4]), m, d);
          if ValidDate(date) then Some(date) else None
        case _ => None
  }

  /**
   * `strftime('%Y-%m-%d')` of a date with a year of at least 1000:
   * zero-padded, fixed width. Below 1000 this pads the year to four digits,
   * which glibc's `%Y` does not.
   */
  function FormatDate(d: Date): (s: string)
    requires ValidDate(d)
    ensures |s| == 10
  {
    Pad(d.year, 4) + "-" + Pad(d.month, 2) + "-" + Pad(d.day, 2)
  }

  lemma TwoDigitValue(f: string)
    requires |f| == 2 && AllDigits(f)
    ensures DigitsValue(f) == DigitValue(f[0]) * 10 + DigitValue(f[1])
  {
    var head := f[..|f| - 1];
    assert head == [f[0]] && head[..|head| - 1] == [];
    assert DigitsValue(head) == DigitValue(f[0]);
  }

  /** Where the parser finds the fields of a `YYYY-MM-DD` string. */
  lemma DateFields(y: string, m: string, dd: string)
    requires |y| == 4 && |m| == 2 && |dd| == 2 && AllDigits(m)
    ensures var s := y + "-" + m + "-" + dd;
            && |s| == 10 && s[..4] == y && s[4] == '-' && s[6] != '-' && s[7] == '-'
            && s[5..7] == m && s[8..] == dd
  {
    var s := y + "-" + m + "-" + dd;
    assert s[6] == m[1] && IsDigit(m[1]);
  }

  /** Reading back a formatted date gives the date: the writer and the parser agree. */
  lemma ParseFormatDate(d: Date)
    requires ValidDate(d)
    ensures ParseDate(FormatDate(d)) == Some(d)
  {
    var y, m, dd := Pad(d.year, 4), Pad(d.month, 2), Pad(d.day, 2);
    DateFields(y, m, dd);
    TwoDigitValue(m);
    TwoDigitValue(dd);
    assert OneToTwelve(m) == Some(d.month);
    assert DayOfMonth(dd) == Some(d.day);
  }

  /** The formatting is one-to-one: two dates print alike only when they are equal. */
  lemma FormatDateInjective(a: Date, b: Date)
    requires ValidDate(a) && ValidDate(b) && FormatDate(a) == FormatDate(b)
    ensures a == b
  {
    ParseFormatDate(a);
    ParseFormatDate(b);
  }

  /** Zero-padded numbers of one width compare as strings as they compare as numbers. */
  lemma PadOrder(x: nat, y: nat, width: nat)
    requires x < Pow10(width) && y < Pow10(width)
    ensures LexLess(Pad(x, width), Pad(y, width)) <==> x < y
    ensures Pad(x, width) == Pad(y, width) <==> x == y
  {
    LexLessDigits(Pad(x, width), Pad(y, width));
  }

  /** Two fields of one width joined by a dash compare field by field. */
  lemma DashedOrder(x: string, u: string, y: string, v: string)
    requires |x| == |y|
    ensures LexLess(x + "-" + u, y + "-" + v) <==> if x == y then LexLess(u, v) else LexLess(x, y)
  {
    assert x + "-" + u == x + ("-" + u);
    assert y + "-" + v == y + ("-" + v);
    LexLessAppend(x, "-" + u, y, "-" + v);
    LexLessAppend("-", u, "-", v);
  }

  /** `Y-M-D` strings with fields of matching widths compare field by field. */
  lemma FieldwiseOrder(y1: string, m1: string, d1: string, y2: string, m2: string, d2: string)
    requires |y1| == |y2| && |m1| == |m2|
    ensures LexLess(y1 + "-" + m1 + "-" + d1, y2 + "-" + m2 + "-" + d2)
            <==> if y1 != y2 then LexLess(y1, y2) else if m1 != m2 then LexLess(m1, m2) else LexLess(d1, d2)
  {
    assert y1 + "-" + m1 + "-" + d1 == y1 + "-" + (m1 + "-" + d1);
    assert y2 + "-" + m2 + "-" + d2 == y2 + "-" + (m2 + "-" + d2);
    DashedOrder(y1, m1 + "-" + d1, y2, m2 + "-" + d2);
    DashedOrder(m1, d1, m2, d2);
  }

  /**
   * ISO 8601 calendar dates with four-digit years sort as strings in
   * chronological order: the string `<` the date picker's check uses
   * agrees with `datetime.date` order.
   */
  lemma IsoOrderIsChronological(a: Date, b: Date)
    requires ValidDate(a) && ValidDate(b)
    ensures LexLess(FormatDate(a), FormatDate(b)) <==> Before(a, b)
  {
    FieldwiseOrder(Pad(a.year, 4), Pad(a.month, 2), Pad(a.day, 2), Pad(b.year, 4), Pad(b.month, 2), Pad(b.day, 2));
    PadOrder(a.year, b.year, 4);
    PadOrder(a.month, b.month, 2);
    PadOrder(a.day, b.day, 2);
  }
}
