/** Naive date-times as Python's `datetime` handles them in the server: parsing with
    `datetime.strptime` for the formats `%Y-%m-%d` and `%Y-%m-%d %H:%M:%S`, formatting with
    `strftime("%Y-%m-%d %H:%M:%S")`, and comparison with `<=` / `>=`. */
module DateTimes {
  import opened Wrappers
  import opened Text

  /** A date and time without time zone, to whole seconds. */
  datatype DateTime = DateTime(year: int, month: int, day: int, hour: int, minute: int, second: int)

  predicate IsLeapYear(year: int) {
    year % 4 == 0 && (year % 100 != 0 || year % 400 == 0)
  }

  function DaysInMonth(year: int, month: int): int
    requires 1 <= month <= 12
  {
    if month == 2 then (if IsLeapYear(year) then 29 else 28)
    else if month == 4 || month == 6 || month == 9 || month == 11 then 30
    else 31
  }

  /** The field values Python's `datetime` constructor accepts (years 1 to 9999). */
  predicate Valid(t: DateTime) {
    1 <= t.year <= 9999 && 1 <= t.month <= 12 && 1 <= t.day <= DaysInMonth(t.year, t.month)
    && 0 <= t.hour < 24 && 0 <= t.minute < 60 && 0 <= t.second < 60
  }

  /** Midnight at the start of the day of `t`. */
  function StartOfDay(t: DateTime): DateTime {
    DateTime(t.year, t.month, t.day, 0, 0, 0)
  }

  // ---------------------------------------------------------------------------------------------
  // Ordering

  /** The fields in order of significance. */
  function Fields(t: DateTime): seq<int> {
    [t.year, t.month, t.day, t.hour, t.minute, t.second]
  }

  /** Lexicographic `<=` on equally long integer sequences. */
  predicate LexLeq(a: seq<int>, b: seq<int>)
    requires |a| == |b|
  {
    a == [] || a[0] < b[0] || (a[0] == b[0] && LexLeq(a[1..], b[1..]))
  }

  /** Python's `a <= b` on naive datetimes: the most significant differing field decides. */
  predicate AtOrBefore(a: DateTime, b: DateTime) {
    LexLeq(Fields(a), Fields(b))
  }

  lemma {:induction false} LexLeqTotalOrder(a: seq<int>, b: seq<int>, c: seq<int>)
    requires |a| == |b| == |c|
    ensures LexLeq(a, a)
    ensures LexLeq(a, b) && LexLeq(b, a) ==> a == b
    ensures LexLeq(a, b) && LexLeq(b, c) ==> LexLeq(a, c)
    ensures LexLeq(a, b) || LexLeq(b, a)
  {
    if a != [] {
      LexLeqTotalOrder(a[1..], b[1..], c[1..]);
      assert a == [a[0]] + a[1..] && b == [b[0]] + b[1..];
    }
  }

  /** `<=` on datetimes is a total order. */
  lemma AtOrBeforeTotalOrder(a: DateTime, b: DateTime, c: DateTime)
    ensures AtOrBefore(a, a)
    ensures AtOrBefore(a, b) && AtOrBefore(b, a) ==> a == b
    ensures AtOrBefore(a, b) && AtOrBefore(b, c) ==> AtOrBefore(a, c)
    ensures AtOrBefore(a, b) || AtOrBefore(b, a)
  {
    LexLeqTotalOrder(Fields(a), Fields(b), Fields(c));
    if Fields(a) == Fields(b) {
      assert a.year == Fields(a)[0] == Fields(b)[0] == b.year;
      assert a.month == Fields(a)[1] == Fields(b)[1] == b.month;
      assert a.day == Fields(a)[2] == Fields(b)[2] == b.day;
      assert a.hour == Fields(a)[3] == Fields(b)[3] == b.hour;
      assert a.minute == Fields(a)[4] == Fields(b)[4] == b.minute;
      assert a.second == Fields(a)[5] == Fields(b)[5] == b.second;
    }
  }

  /** Equal leading fields leave the decision to the remaining ones. */
  lemma {:induction false} LexLeqCommonPrefix(a: seq<int>, b: seq<int>, k: nat)
    requires |a| == |b| && k <= |a| && a[..k] == b[..k]
    ensures LexLeq(a, b) == LexLeq(a[k..], b[k..])
  {
    if k > 0 {
      assert a[0] == a[..k][0] == b[..k][0] == b[0];
      assert a[1..][..k - 1] == a[1..k] == b[1..k] == b[1..][..k - 1];
      LexLeqCommonPrefix(a[1..], b[1..], k - 1);
      assert a[1..][k - 1..] == a[k..] && b[1..][k - 1..] == b[k..];
    }
  }

  /** `LexLeq` on three fields, spelt out. */
  lemma LexLeqOfThree(x: seq<int>, y: seq<int>)
    requires |x| == |y| == 3
    ensures LexLeq(x, y) <==> x[0] < y[0] || (x[0] == y[0] && (x[1] < y[1] || (x[1] == y[1] && x[2] <= y[2])))
  {
    var x1, y1 := x[1..], y[1..];
    var x2, y2 := x1[1..], y1[1..];
    assert LexLeq(x2, y2) <==> x2[0] < y2[0] || (x2[0] == y2[0] && LexLeq(x2[1..], y2[1..]));
    assert x2[1..] == [];
    assert LexLeq(x1, y1) <==> x1[0] < y1[0] || (x1[0] == y1[0] && LexLeq(x2, y2));
  }

  /** A whole day lies at or after its own midnight: a start bound admits all of its day. */
  lemma StartOfDayAtOrBefore(t: DateTime)
    requires Valid(t)
    ensures AtOrBefore(StartOfDay(t), t)
  {
    var a, b := Fields(StartOfDay(t)), Fields(t);
    LexLeqCommonPrefix(a, b, 3);
    LexLeqOfThree(a[3..], b[3..]);
  }

  /** Of the moments of one day, only its midnight is at or before that midnight: an end bound
      given as a date excludes everything after 00:00:00 on that day. */
  lemma OnlyMidnightAtOrBeforeStartOfDay(t: DateTime)
    requires Valid(t)
    ensures AtOrBefore(t, StartOfDay(t)) <==> t.hour == 0 && t.minute == 0 && t.second == 0
  {
    var a, b := Fields(t), Fields(StartOfDay(t));
    LexLeqCommonPrefix(a, b, 3);
    LexLeqOfThree(a[3..], b[3..]);
  }

  // ---------------------------------------------------------------------------------------------
  // Parsing

  /** A value read from the front of a string, and the text after it. */
  datatype Scanned<+T> = Scanned(value: T, rest: string)

  ghost predicate AllDigits(s: string) {
    forall i | 0 <= i < |s| :: IsDigit(s[i])
  }

  /** The number written by a string of ASCII digits, most significant first. */
  function DecimalValue(s: string): nat
    requires AllDigits(s)
  {
    if s == [] then 0 else DecimalValue(s[..|s| - 1]) * 10 + (s[|s| - 1] as int - '0' as int)
  }

  /** One numeric directive of `strptime`: the digits at the front of `s`, which must number
      between `minDigits` and `maxDigits` and have a value in `lo..hi`. The directive's pattern
      alternatives (for `%m`: `1[0-2]|0[1-9]|[1-9]`) are exactly the one- and two-digit texts
      in range, and since a separator or the end always follows, the whole digit run is taken. */
  function Number(s: string, minDigits: nat, maxDigits: nat, lo: int, hi: int): (r: Option<Scanned<int>>)
    ensures r.Some? ==> lo <= r.value.value <= hi && |r.value.rest| < |s| && r.value.rest == s[|s| - |r.value.rest|..]
  {
    var n := RunLength(s, IsDigit);
    if 1 <= minDigits <= n <= maxDigits && lo <= DecimalValue(s[..n]) <= hi then
      Some(Scanned(DecimalValue(s[..n]) as int, s[n..]))
    else
      None
  }

  /** A literal character of the format. */
  function Literal(s: string, c: char): Option<string> {
    if |s| > 0 && s[0] == c then Some(s[1..]) else None
  }

  /** `%d`, whose pattern also admits a space followed by a digit 1-9. */
  function DayNumber(s: string): Option<Scanned<int>> {
    if |s| >= 2 && s[0] == ' ' && '1' <= s[1] <= '9' then Some(Scanned(s[1] as int - '0' as int, s[2..]))
    else Number(s, 1, 2, 1, 31)
  }

  /** A space in a `strptime` format matches one or more whitespace characters. */
  function Whitespace(s: string): Option<string> {
    var n := RunLength(s, IsSpace);
    if n > 0 then Some(s[n..]) else None
  }

  /** The `%Y-%m-%d` part that both formats begin with. */
  function DatePart(s: string): Option<Scanned<(int, int, int)>> {
    var y :- Number(s, 4, 4, 0, 9999);
    var afterYear :- Literal(y.rest, '-');
    var m :- Number(afterYear, 1, 2, 1, 12);
    var afterMonth :- Literal(m.rest, '-');
    var d :- DayNumber(afterMonth);
    Some(Scanned((y.value, m.value, d.value), d.rest))
  }

  /** The datetime constructor's range check. */
  function Checked(t: DateTime): (r: Option<DateTime>)
    ensures r.Some? <==> Valid(t)
    ensures r.Some? ==> r.value == t
  {
    if Valid(t) then Some(t) else None
  }

  /** The `%H:%M:%S` part that ends the timestamp format. */
  function TimePart(s: string): Option<(int, int, int)> {
    var h :- Number(s, 1, 2, 0, 23);
    var afterHour :- Literal(h.rest, ':');
    var mi :- Number(afterHour, 1, 2, 0, 59);
    var afterMinute :- Literal(mi.rest, ':');
    var sec :- Number(afterMinute, 1, 2, 0, 61);
    if sec.rest == [] then Some((h.value, mi.value, sec.value)) else None
  }

  /** `datetime.strptime(s, "%Y-%m-%d")`; `None` where Python raises `ValueError`. */
  function ParseDate(s: string): (r: Option<DateTime>)
    ensures r.Some? ==> Valid(r.value) && r.value == StartOfDay(r.value)
  {
    var date :- DatePart(s);
    if date.rest == [] then Checked(DateTime(date.value.0, date.value.1, date.value.2, 0, 0, 0)) else None
  }

  /** `datetime.strptime(s, "%Y-%m-%d %H:%M:%S")`; `None` where Python raises `ValueError`. */
  function ParseTimestamp(s: string): (r: Option<DateTime>)
    ensures r.Some? ==> Valid(r.value)
  {
    var date :- DatePart(s);
    var afterSpace :- Whitespace(date.rest);
    var time :- TimePart(afterSpace);
    Checked(DateTime(date.value.0, date.value.1, date.value.2, time.0, time.1, time.2))
  }

  // ---------------------------------------------------------------------------------------------
  // Formatting

  function Pow10(n: nat): nat {
    if n == 0 then 1 else 10 * Pow10(n - 1)
  }

  /** `n` in decimal, zero-padded to `width` digits (the last `width` digits when `n` is wider). */
  function Digits(n: nat, width: nat): (r: string)
    ensures |r| == width && AllDigits(r)
  {
    if width == 0 then [] else Digits(n / 10, width - 1) + [('0' as int + n % 10) as char]
  }

  /** `t.strftime("%Y-%m-%d %H:%M:%S")`. */
  function FormatTimestamp(t: DateTime): (r: string)
    requires Valid(t)
    ensures |r| == 19
  {
    Digits(t.year, 4) + ("-" + (Digits(t.month, 2) + ("-" + (Digits(t.day, 2) + (" " +
      (Digits(t.hour, 2) + (":" + (Digits(t.minute, 2) + (":" + Digits(t.second, 2))))))))))
  }

  lemma {:induction false} DigitsValue(n: nat, width: nat)
    requires n < Pow10(width)
    ensures DecimalValue(Digits(n, width)) == n
  {
    if width > 0 {
      DigitsValue(n / 10, width - 1);
      var r := Digits(n, width);
      assert r[..|r| - 1] == Digits(n / 10, width - 1);
    }
  }

  /** Reading back a zero-padded number that is followed by a non-digit. */
  lemma NumberOfDigits(n: nat, width: nat, rest: string, minDigits: nat, maxDigits: nat, lo: int, hi: int)
    requires 1 <= minDigits <= width <= maxDigits && lo <= n <= hi && n < Pow10(width)
    requires rest == [] || !IsDigit(rest[0])
    ensures Number(Digits(n, width) + rest, minDigits, maxDigits, lo, hi) == Some(Scanned(n as int, rest))
  {
    var d := Digits(n, width);
    var s := d + rest;
    assert forall i | 0 <= i < width :: s[i] == d[i];
    RunLengthUnique(s, IsDigit, width);
    assert s[..width] == d && s[width..] == rest;
    DigitsValue(n, width);
  }

  /** The date part of a formatted timestamp reads back. */
  lemma DatePartOfFormatted(t: DateTime, rest: string)
    requires Valid(t)
    requires rest == [] || !IsDigit(rest[0])
    ensures DatePart(Digits(t.year, 4) + ("-" + (Digits(t.month, 2) + ("-" + (Digits(t.day, 2) + rest)))))
         == Some(Scanned((t.year, t.month, t.day), rest))
  {
    var dayText := Digits(t.day, 2) + rest;
    var afterMonth := "-" + dayText;
    var monthText := Digits(t.month, 2) + afterMonth;
    var afterYear := "-" + monthText;
    NumberOfDigits(t.year, 4, afterYear, 4, 4, 0, 9999);
    assert afterYear[1..] == monthText;
    NumberOfDigits(t.month, 2, afterMonth, 1, 2, 1, 12);
    assert afterMonth[1..] == dayText;
    assert dayText[0] != ' ';
    NumberOfDigits(t.day, 2, rest, 1, 2, 1, 31);
  }

  /** The time part of a formatted timestamp reads back. */
  lemma TimePartOfFormatted(t: DateTime)
    requires Valid(t)
    ensures TimePart(Digits(t.hour, 2) + (":" + (Digits(t.minute, 2) + (":" + Digits(t.second, 2)))))
         == Some((t.hour, t.minute, t.second))
  {
    var secText := Digits(t.second, 2);
    var afterMinute := ":" + secText;
    var minuteText := Digits(t.minute, 2) + afterMinute;
    var afterHour := ":" + minuteText;
    NumberOfDigits(t.hour, 2, afterHour, 1, 2, 0, 23);
    assert afterHour[1..] == minuteText;
    NumberOfDigits(t.minute, 2, afterMinute, 1, 2, 0, 59);
    assert afterMinute[1..] == secText;
    NumberOfDigits(t.second, 2, [], 1, 2, 0, 61);
    assert secText + [] == secText;
  }

  /** A well-formed `YYYY-MM-DD` text of a valid date parses to midnight of that day. */
  lemma ParseDateOfFormatted(t: DateTime)
    requires Valid(t)
    ensures ParseDate(Digits(t.year, 4) + ("-" + (Digits(t.month, 2) + ("-" + Digits(t.day, 2))))) == Some(StartOfDay(t))
  {
    DatePartOfFormatted(t, []);
    assert Digits(t.day, 2) + [] == Digits(t.day, 2);
  }

  /** A formatted timestamp parses back to the same moment: what the server writes as a
      `Timestamp` is accepted by the format its date filter reads. */
  lemma FormatParseRoundTrip(t: DateTime)
    requires Valid(t)
    ensures ParseTimestamp(FormatTimestamp(t)) == Some(t)
  {
    var timeText := Digits(t.hour, 2) + (":" + (Digits(t.minute, 2) + (":" + Digits(t.second, 2))));
    var afterDay := " " + timeText;
    DatePartOfFormatted(t, afterDay);
    assert afterDay[1..] == timeText;
    RunLengthUnique(afterDay, IsSpace, 1);
    assert Whitespace(afterDay) == Some(timeText);
    TimePartOfFormatted(t);
  }

  // ---------------------------------------------------------------------------------------------
  // A worked example: noon on 31 January 2024, and that day as a date bound

  lemma NoonDigits()
    ensures Digits(2024, 4) == "2024" && Digits(1, 2) == "01" && Digits(31, 2) == "31"
    ensures Digits(12, 2) == "12" && Digits(0, 2) == "00"
  {
  }

  lemma NoonTimestampParses(text: string)
    requires text == "2024-01-31 12:00:00"
    ensures ParseTimestamp(text) == Some(DateTime(2024, 1, 31, 12, 0, 0))
  {
    NoonDigits();
    assert FormatTimestamp(DateTime(2024, 1, 31, 12, 0, 0)) == text;
    FormatParseRoundTrip(DateTime(2024, 1, 31, 12, 0, 0));
  }

  lemma EndOfJanuaryParses(text: string)
    requires text == "2024-01-31"
    ensures ParseDate(text) == Some(DateTime(2024, 1, 31, 0, 0, 0))
  {
    NoonDigits();
    var t := DateTime(2024, 1, 31, 12, 0, 0);
    var year, month, day := Digits(t.year, 4), Digits(t.month, 2), Digits(t.day, 2);
    assert year + ("-" + (month + ("-" + day))) == text;
    ParseDateOfFormatted(t);
  }
}
