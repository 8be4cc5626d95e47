/** Times and their texts by the calendar's closed form and by the columns of the text. */
module Calendar {
  import opened Iso

  /** The days of a common year before each month, counted from 1. */
  const BEFORE: seq<nat> := [0, 0, 31, 59, 90, 120, 151, 181, 212, 243, 273, 304, 334]

  lemma {:induction false} YearsExactly(year: nat)
    requires year >= 1
    ensures DaysBeforeYear(year) == 365 * (year - 1) + (year - 1) / 4 - (year - 1) / 100 + (year - 1) / 400
  {
    if year > 1 {
      YearsExactly(year - 1);
      By4(year - 1);
      By100(year - 1);
      By400(year - 1);
    }
  }

  // Every so many years one more has passed.

  lemma By4(n: nat)
    requires n >= 1
    ensures n / 4 == (n - 1) / 4 + if n % 4 == 0 then 1 else 0
  {
  }

  lemma By100(n: nat)
    requires n >= 1
    ensures n / 100 == (n - 1) / 100 + if n % 100 == 0 then 1 else 0
    ensures n % 100 == 0 ==> n % 4 == 0
  {
  }

  lemma By400(n: nat)
    requires n >= 1
    ensures n / 400 == (n - 1) / 400 + if n % 400 == 0 then 1 else 0
    ensures n % 400 == 0 ==> n % 100 == 0
  {
  }

  lemma MonthsExactly(year: nat, month: nat)
    requires 1 <= month <= 12
    ensures DaysBeforeMonth(year, month)
            == BEFORE[month] + if month > 2 && year % 4 == 0 && (year % 100 != 0 || year % 400 == 0) then 1 else 0
  {
    FirstMonths(year);
  }

  lemma FirstMonths(year: nat)
    ensures DaysBeforeMonth(year, 4) == 59 + 31 + if year % 4 == 0 && (year % 100 != 0 || year % 400 == 0) then 1 else 0
    ensures DaysBeforeMonth(year, 8) == DaysBeforeMonth(year, 4) + 122
  {
  }

  const LENGTHS: seq<nat> := [0, 31, 28, 31, 30, 31, 30, 31, 31, 30, 31, 30, 31]

  /** Which times there are: those of the calendar from year 1 to 9999, by the length of each month. */
  lemma TimesExactly(d: DateTime)
    ensures ValidTime(d)
            <==> 1 <= d.year <= 9999 && 1 <= d.month <= 12 && 1 <= d.day
                 && d.day <= LENGTHS[d.month]
                             + (if d.month == 2 && d.year % 4 == 0 && (d.year % 100 != 0 || d.year % 400 == 0) then 1
                                else 0)
                 && d.hour <= 23 && d.minute <= 59 && d.second <= 59 && d.micro <= 999_999
  {
  }

  /** The calendar of Gregory: leap years by 4, 100 and 400, days of 24 hours, from the first day on. */
  lemma InstantExactly(d: DateTime)
    requires ValidTime(d)
    ensures var years := d.year - 1;
            var leap := d.year % 4 == 0 && (d.year % 100 != 0 || d.year % 400 == 0);
            var days := 365 * years + years / 4 - years / 100 + years / 400
                        + BEFORE[d.month] + (if d.month > 2 && leap then 1 else 0) + d.day;
            Instant(d)
            == days * 86_400_000_000 + d.hour * 3_600_000_000 + d.minute * 60_000_000 + d.second * 1_000_000 + d.micro
  {
    YearsExactly(d.year);
    MonthsExactly(d.year, d.month);
  }

  // ---- the columns of the text ----

  predicate Numeric(s: string) {
    forall i :: 0 <= i < |s| ==> '0' <= s[i] <= '9'
  }

  /** The number a text of digits stands for. */
  function Number(s: string): int {
    if s == "" then 0 else 10 * Number(s[..|s| - 1]) + (s[|s| - 1] as int - 48)
  }

  lemma {:induction false} NumberOfDigits(n: nat, width: nat)
    requires n < Power10(width)
    ensures Numeric(Digits(n, width)) && Number(Digits(n, width)) == n
  {
    if width > 0 {
      NumberOfDigits(n / 10, width - 1);
      assert Digits(n, width)[..width - 1] == Digits(n / 10, width - 1);
    }
  }

  predicate Column(s: string, from: nat, to: nat, n: nat) {
    from <= to <= |s| && Numeric(s[from..to]) && Number(s[from..to]) == n
  }

  /** Digits and what separates them from the rest. */
  lemma Field(s: string, k: nat, n: nat, width: nat, separator: string, rest: string)
    requires k <= |s| && n < Power10(width) && s[k..] == Digits(n, width) + (separator + rest)
    ensures Column(s, k, k + width, n) && k + width + |separator| + |rest| == |s|
    ensures s[k + width + |separator|..] == rest
    ensures |separator| == 1 ==> s[k + width] == separator[0]
  {
    NumberOfDigits(n, width);
    assert s[k..k + width] == s[k..][..width] == Digits(n, width);
    assert s[k + width..] == s[k..][width..] == separator + rest;
    assert s[k + width + |separator|..] == s[k + width..][|separator|..];
    assert |separator| == 1 ==> s[k + width] == s[k + width..][0];
  }

  /** The text of a time, column by column. */
  lemma TextExactly(d: DateTime)
    requires ValidTime(d)
    ensures var s := Text(d);
            |s| == (if d.micro == 0 then 25 else 32)
            && Column(s, 0, 4, d.year) && s[4] == '-' && Column(s, 5, 7, d.month) && s[7] == '-'
            && Column(s, 8, 10, d.day) && s[10] == 'T' && Column(s, 11, 13, d.hour) && s[13] == ':'
            && Column(s, 14, 16, d.minute) && s[16] == ':' && Column(s, 17, 19, d.second)
            && s[|s| - 6..] == "+00:00" && (d.micro > 0 ==> s[19] == '.' && Column(s, 20, 26, d.micro))
  {
    DateColumns(d);
    TimeColumns(d, Text(d));
  }

  lemma DateColumns(d: DateTime)
    requires ValidTime(d)
    ensures var s := Text(d);
            |s| > 11 && Column(s, 0, 4, d.year) && s[4] == '-' && Column(s, 5, 7, d.month) && s[7] == '-'
            && Column(s, 8, 10, d.day) && s[10] == 'T' && s[11..] == TimeText(d)
  {
    var s := Text(d);
    Powers();
    assert s[0..] == s;
    var day := Digits(d.day, 2) + ("T" + TimeText(d));
    Field(s, 0, d.year, 4, "-", Digits(d.month, 2) + ("-" + day));
    Field(s, 5, d.month, 2, "-", day);
    Field(s, 8, d.day, 2, "T", TimeText(d));
  }

  lemma TimeColumns(d: DateTime, s: string)
    requires ValidTime(d) && |s| > 11 && s[11..] == TimeText(d)
    ensures |s| == (if d.micro == 0 then 25 else 32)
    ensures Column(s, 11, 13, d.hour) && s[13] == ':' && Column(s, 14, 16, d.minute) && s[16] == ':'
            && Column(s, 17, 19, d.second)
    ensures s[|s| - 6..] == "+00:00" && (d.micro > 0 ==> s[19] == '.' && Column(s, 20, 26, d.micro))
  {
    Powers();
    var seconds := Digits(d.second, 2) + FractionText(d);
    Field(s, 11, d.hour, 2, ":", Digits(d.minute, 2) + (":" + seconds));
    Field(s, 14, d.minute, 2, ":", seconds);
    assert "" + FractionText(d) == FractionText(d);
    Field(s, 17, d.second, 2, "", FractionText(d));
    FractionColumns(d, s);
  }

  lemma FractionColumns(d: DateTime, s: string)
    requires d.micro < 1_000_000 && |s| >= 19 && s[19..] == FractionText(d)
    ensures |s| == (if d.micro == 0 then 25 else 32) && s[|s| - 6..] == "+00:00"
    ensures d.micro > 0 ==> s[19] == '.' && Column(s, 20, 26, d.micro)
  {
    Powers();
    if d.micro > 0 {
      assert s[19..] == "." + Digits(d.micro, 6) + "+00:00";
      assert s[20..] == s[19..][1..] == Digits(d.micro, 6) + ("" + "+00:00");
      Field(s, 20, d.micro, 6, "", "+00:00");
    }
  }
}
