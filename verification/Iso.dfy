/** ISO 8601 text of a UTC time, as the database holds it, and its order. */
module Iso {
  import opened Sorting

  datatype DateTime = DateTime(year: nat, month: nat, day: nat, hour: nat, minute: nat, second: nat, micro: nat)

  predicate Leap(year: nat) {
    year % 4 == 0 && (year % 100 != 0 || year % 400 == 0)
  }

  function DaysInMonth(year: nat, month: nat): nat {
    if month == 2 then (if Leap(year) then 29 else 28)
    else if month in {4, 6, 9, 11} then 30 else 31
  }

  /** The times Python's `datetime` can hold. */
  predicate ValidTime(d: DateTime) {
    1 <= d.year <= 9999 && 1 <= d.month <= 12 && 1 <= d.day <= DaysInMonth(d.year, d.month)
    && d.hour < 24 && d.minute < 60 && d.second < 60 && d.micro < 1_000_000
  }

  // ---- the text ----

  function Digits(n: nat, width: nat): (s: string)
    ensures |s| == width
  {
    if width == 0 then "" else Digits(n / 10, width - 1) + [('0' as int + n % 10) as char]
  }

  /** The fraction is left out when it is zero. */
  function FractionText(d: DateTime): string {
    (if d.micro == 0 then "" else "." + Digits(d.micro, 6)) + "+00:00"
  }

  function TimeText(d: DateTime): string {
    Digits(d.hour, 2) + (":" + (Digits(d.minute, 2) + (":" + (Digits(d.second, 2) + FractionText(d)))))
  }

  /** `astimezone(UTC).isoformat()`. */
  function Text(d: DateTime): string {
    Digits(d.year, 4) + ("-" + (Digits(d.month, 2) + ("-" + (Digits(d.day, 2) + ("T" + TimeText(d))))))
  }

  /** SQLite's `<=` on text. */
  predicate TextLe(a: string, b: string) {
    a == b || Less(a, b)
  }

  // ---- the order of the text ----

  lemma {:induction false} LessConcat(a: string, b: string, s: string, t: string)
    requires |a| == |b|
    ensures Less(a + s, b + t) <==> Less(a, b) || (a == b && Less(s, t))
  {
    if a == "" {
      assert a + s == s && b + t == t;
    } else {
      assert (a + s)[1..] == a[1..] + s && (b + t)[1..] == b[1..] + t;
      LessConcat(a[1..], b[1..], s, t);
      LessTotal(a, b);
      assert a == [a[0]] + a[1..] && b == [b[0]] + b[1..];
    }
  }

  function Power10(n: nat): nat {
    if n == 0 then 1 else 10 * Power10(n - 1)
  }

  lemma {:induction false} DigitsOrder(x: nat, y: nat, width: nat)
    requires x < Power10(width) && y < Power10(width)
    ensures Less(Digits(x, width), Digits(y, width)) <==> x < y
    ensures Digits(x, width) == Digits(y, width) <==> x == y
  {
    if width > 0 {
      DigitsOrder(x / 10, y / 10, width - 1);
      var a, b := [('0' as int + x % 10) as char], [('0' as int + y % 10) as char];
      LessConcat(Digits(x / 10, width - 1), Digits(y / 10, width - 1), a, b);
      assert Digits(x, width)[..width - 1] == Digits(x / 10, width - 1);
      assert Digits(y, width)[..width - 1] == Digits(y / 10, width - 1);
      assert Digits(x, width)[width - 1] == a[0] && Digits(y, width)[width - 1] == b[0];
      assert Less(a, b) <==> x % 10 < y % 10;
    }
  }

  lemma FieldOrder(x: nat, y: nat, width: nat, separator: string, s: string, t: string)
    requires x < Power10(width) && y < Power10(width)
    ensures Less(Digits(x, width) + (separator + s), Digits(y, width) + (separator + t))
            <==> x < y || (x == y && Less(s, t))
  {
    DigitsOrder(x, y, width);
    LessConcat(Digits(x, width), Digits(y, width), separator + s, separator + t);
    LessWithPrefix(separator, s, t);
  }

  lemma Powers()
    ensures Power10(2) == 100 && Power10(4) == 10_000 && Power10(6) == 1_000_000
  {
  }

  /** '+' sorts before '.', so a whole second comes before its fractions. */
  lemma FractionOrder(a: DateTime, b: DateTime)
    requires a.micro < 1_000_000 && b.micro < 1_000_000
    ensures Less(FractionText(a), FractionText(b)) <==> a.micro < b.micro
  {
    Powers();
    if a.micro > 0 && b.micro > 0 {
      var x, y := Digits(a.micro, 6), Digits(b.micro, 6);
      assert FractionText(a) == "." + (x + ("" + "+00:00")) && FractionText(b) == "." + (y + ("" + "+00:00"));
      LessWithPrefix(".", x + ("" + "+00:00"), y + ("" + "+00:00"));
      FieldOrder(a.micro, b.micro, 6, "", "+00:00", "+00:00");
      LessTotal("+00:00", "+00:00");
    } else {
      LessTotal(FractionText(a), FractionText(a));
    }
  }

  predicate TimeLess(a: DateTime, b: DateTime) {
    a.hour < b.hour || (a.hour == b.hour &&
    (a.minute < b.minute || (a.minute == b.minute &&
    (a.second < b.second || (a.second == b.second && a.micro < b.micro)))))
  }

  /** The order Python gives two UTC times. */
  predicate FieldsLess(a: DateTime, b: DateTime) {
    a.year < b.year || (a.year == b.year &&
    (a.month < b.month || (a.month == b.month &&
    (a.day < b.day || (a.day == b.day && TimeLess(a, b))))))
  }

  lemma TimeTextOrder(a: DateTime, b: DateTime)
    requires ValidTime(a) && ValidTime(b)
    ensures Less(TimeText(a), TimeText(b)) <==> TimeLess(a, b)
  {
    Powers();
    FractionOrder(a, b);
    DigitsOrder(a.second, b.second, 2);
    LessConcat(Digits(a.second, 2), Digits(b.second, 2), FractionText(a), FractionText(b));
    FieldOrder(a.minute, b.minute, 2, ":",
               Digits(a.second, 2) + FractionText(a), Digits(b.second, 2) + FractionText(b));
    FieldOrder(a.hour, b.hour, 2, ":",
               Digits(a.minute, 2) + (":" + (Digits(a.second, 2) + FractionText(a))),
               Digits(b.minute, 2) + (":" + (Digits(b.second, 2) + FractionText(b))));
  }

  lemma TextOrder(a: DateTime, b: DateTime)
    requires ValidTime(a) && ValidTime(b)
    ensures Less(Text(a), Text(b)) <==> FieldsLess(a, b)
  {
    Powers();
    TimeTextOrder(a, b);
    FieldOrder(a.day, b.day, 2, "T", TimeText(a), TimeText(b));
    FieldOrder(a.month, b.month, 2, "-",
               Digits(a.day, 2) + ("T" + TimeText(a)), Digits(b.day, 2) + ("T" + TimeText(b)));
    FieldOrder(a.year, b.year, 4, "-",
               Digits(a.month, 2) + ("-" + (Digits(a.day, 2) + ("T" + TimeText(a)))),
               Digits(b.month, 2) + ("-" + (Digits(b.day, 2) + ("T" + TimeText(b)))));
  }

  // ---- the order of the instants ----

  function YearLength(year: nat): nat {
    if Leap(year) then 366 else 365
  }

  function DaysBeforeYear(year: nat): nat
    decreases year
  {
    if year <= 1 then 0 else DaysBeforeYear(year - 1) + YearLength(year - 1)
  }

  function DaysBeforeMonth(year: nat, month: nat): nat
    decreases month
  {
    if month <= 1 then 0 else DaysBeforeMonth(year, month - 1) + DaysInMonth(year, month - 1)
  }

  /** Microseconds since the calendar's first day. */
  function Instant(d: DateTime): nat {
    var days := DaysBeforeYear(d.year) + DaysBeforeMonth(d.year, d.month) + d.day;
    (((days * 24 + d.hour) * 60 + d.minute) * 60 + d.second) * 1_000_000 + d.micro
  }

  lemma {:induction false} YearsGrow(y: nat, z: nat)
    requires 1 <= y < z
    ensures DaysBeforeYear(y) + YearLength(y) <= DaysBeforeYear(z)
    decreases z
  {
    if z > y + 1 { YearsGrow(y, z - 1); }
  }

  lemma {:induction false} MonthsGrow(year: nat, m: nat, n: nat)
    requires 1 <= m < n
    ensures DaysBeforeMonth(year, m) + DaysInMonth(year, m) <= DaysBeforeMonth(year, n)
    decreases n
  {
    if n > m + 1 { MonthsGrow(year, m, n - 1); }
  }

  lemma MonthsFillYear(year: nat)
    ensures DaysBeforeMonth(year, 13) == YearLength(year)
  {
  }

  function Day(d: DateTime): nat {
    DaysBeforeYear(d.year) + DaysBeforeMonth(d.year, d.month) + d.day
  }

  lemma DayOfYear(d: DateTime)
    requires ValidTime(d)
    ensures 1 <= DaysBeforeMonth(d.year, d.month) + d.day <= YearLength(d.year)
  {
    MonthsFillYear(d.year);
    MonthsGrow(d.year, d.month, 13);
  }

  lemma DaysGrow(a: DateTime, b: DateTime)
    requires ValidTime(a) && ValidTime(b)
    requires a.year < b.year || (a.year == b.year && (a.month < b.month || (a.month == b.month && a.day < b.day)))
    ensures Day(a) < Day(b)
  {
    DayOfYear(a);
    DayOfYear(b);
    if a.year < b.year {
      YearsGrow(a.year, b.year);
    } else if a.month < b.month {
      MonthsGrow(a.year, a.month, b.month);
    }
  }

  lemma InstantsGrow(a: DateTime, b: DateTime)
    requires ValidTime(a) && ValidTime(b) && FieldsLess(a, b)
    ensures Instant(a) < Instant(b)
  {
    if a.year == b.year && a.month == b.month && a.day == b.day {
      assert Day(a) == Day(b);
    } else {
      DaysGrow(a, b);
    }
  }

  /** Comparing the stored text compares the times. */
  lemma TextOrderIsTimeOrder(a: DateTime, b: DateTime)
    requires ValidTime(a) && ValidTime(b)
    ensures TextLe(Text(a), Text(b)) <==> Instant(a) <= Instant(b)
    ensures Instant(a) == Instant(b) <==> a == b
  {
    TextOrder(a, b);
    TextOrder(b, a);
    LessTotal(Text(a), Text(b));
    if FieldsLess(a, b) {
      InstantsGrow(a, b);
    } else if FieldsLess(b, a) {
      InstantsGrow(b, a);
    } else {
      assert a == b;
    }
  }
}
