/**
Timestamps as the service writes them: UTC to the second, in the form of section 5.6 of
RFC 3339. Comparing the strings compares the times, for the years 0000 to 9999.
*/
module Timestamps {
  import opened Order
  import opened ExecProtocol
  import opened WarmPool

  // Times

  datatype Moment = Moment(year: nat, month: nat, day: nat, hour: nat, minute: nat, second: nat) {
    predicate Valid() {
      && year <= 9999 && 1 <= month <= 12 && 1 <= day <= MonthLength(year, month)
      && hour < 24 && minute < 60 && second < 60
    }
  }

  predicate Leap(year: nat) { year % 4 == 0 && (year % 100 != 0 || year % 400 == 0) }

  function MonthLength(year: nat, month: nat): nat {
    if month == 2 then (if Leap(year) then 29 else 28)
    else if month == 4 || month == 6 || month == 9 || month == 11 then 30
    else 31
  }

  /** Days from the start of the year 0000 to the start of the year. */
  function YearStart(year: nat): nat {
    if year == 0 then 0 else YearStart(year - 1) + (if Leap(year - 1) then 366 else 365)
  }

  /** Days from the start of the year to the start of the month. */
  function MonthStart(year: nat, month: nat): nat {
    if month <= 1 then 0 else MonthStart(year, month - 1) + MonthLength(year, month - 1)
  }

  /** Seconds since the start of the year 0000. */
  function Seconds(t: Moment): int {
    (((YearStart(t.year) + MonthStart(t.year, t.month) + t.day - 1) * 24 + t.hour) * 60 + t.minute) * 60 + t.second
  }

  // The form

  function Digits(n: nat, width: nat): (s: string)
    ensures |s| == width
  {
    if width == 0 then "" else Digits(n / 10, width - 1) + [(n % 10 + '0' as int) as char]
  }

  function Format(t: Moment): string {
    Digits(t.year, 4) + ("-" + (Digits(t.month, 2) + ("-" + (Digits(t.day, 2) + ("T" +
    (Digits(t.hour, 2) + (":" + (Digits(t.minute, 2) + (":" + (Digits(t.second, 2) + "Z"))))))))))
  }

  // Order of strings

  /** After prefixes of equal length, the prefixes decide, and then the rest. */
  lemma {:induction false} PrefixDecides(p: string, q: string, s: string, t: string)
    requires |p| == |q|
    ensures StrLess(p + s, q + t) <==> StrLess(p, q) || (p == q && StrLess(s, t))
  {
    if p == "" {
      assert p + s == s && q + t == t;
    } else {
      assert (p + s)[1..] == p[1..] + s && (q + t)[1..] == q[1..] + t;
      PrefixDecides(p[1..], q[1..], s, t);
      assert p == [p[0]] + p[1..] && q == [q[0]] + q[1..];
    }
  }

  function Pow10(k: nat): nat {
    if k == 0 then 1 else 10 * Pow10(k - 1)
  }

  lemma {:induction false} DigitsInOrder(a: nat, b: nat, width: nat)
    requires a < Pow10(width) && b < Pow10(width)
    ensures StrLess(Digits(a, width), Digits(b, width)) <==> a < b
    ensures Digits(a, width) == Digits(b, width) <==> a == b
  {
    if width > 0 {
      DigitsInOrder(a / 10, b / 10, width - 1);
      var x, y := [(a % 10 + '0' as int) as char], [(b % 10 + '0' as int) as char];
      PrefixDecides(Digits(a / 10, width - 1), Digits(b / 10, width - 1), x, y);
      assert StrLess(x, y) <==> a % 10 < b % 10 by {
        assert x[1..] == "" && y[1..] == "" && !StrLess("", "");
        assert StrLess(x, y) <==> x[0] < y[0];
      }
      assert Digits(a, width)[..width - 1] == Digits(a / 10, width - 1);
      assert Digits(b, width)[..width - 1] == Digits(b / 10, width - 1);
      assert Digits(a, width)[width - 1] == x[0] && Digits(b, width)[width - 1] == y[0];
    }
  }

  lemma FieldDecides(a: nat, b: nat, width: nat, s: string, t: string)
    requires a < Pow10(width) && b < Pow10(width)
    ensures StrLess(Digits(a, width) + s, Digits(b, width) + t) <==> a < b || (a == b && StrLess(s, t))
  {
    DigitsInOrder(a, b, width);
    PrefixDecides(Digits(a, width), Digits(b, width), s, t);
  }

  lemma MarkDecidesNothing(mark: string, s: string, t: string)
    requires |mark| == 1
    ensures StrLess(mark + s, mark + t) <==> StrLess(s, t)
  {
  }

  /** The order of the fields, most significant first. */
  predicate DateBefore(a: Moment, b: Moment) {
    a.year < b.year || (a.year == b.year && (a.month < b.month || (a.month == b.month && a.day < b.day)))
  }

  predicate ClockBefore(a: Moment, b: Moment) {
    a.hour < b.hour || (a.hour == b.hour && (a.minute < b.minute || (a.minute == b.minute && a.second < b.second)))
  }

  predicate SameDate(a: Moment, b: Moment) { a.year == b.year && a.month == b.month && a.day == b.day }

  function Clock(t: Moment): string {
    Digits(t.hour, 2) + (":" + (Digits(t.minute, 2) + (":" + (Digits(t.second, 2) + "Z"))))
  }

  lemma ClockInOrder(a: Moment, b: Moment)
    requires a.Valid() && b.Valid()
    ensures StrLess(Clock(a), Clock(b)) <==> ClockBefore(a, b)
  {
    assert Pow10(2) == 100;
    FieldDecides(a.second, b.second, 2, "Z", "Z");
    MarkDecidesNothing(":", Digits(a.second, 2) + "Z", Digits(b.second, 2) + "Z");
    FieldDecides(a.minute, b.minute, 2, ":" + (Digits(a.second, 2) + "Z"), ":" + (Digits(b.second, 2) + "Z"));
    var restA, restB := Digits(a.minute, 2) + (":" + (Digits(a.second, 2) + "Z")), Digits(b.minute, 2) + (":" + (Digits(b.second, 2) + "Z"));
    MarkDecidesNothing(":", restA, restB);
    FieldDecides(a.hour, b.hour, 2, ":" + restA, ":" + restB);
    assert !StrLess("Z", "Z");
  }

  lemma FormatInOrder(a: Moment, b: Moment)
    requires a.Valid() && b.Valid()
    ensures StrLess(Format(a), Format(b)) <==> DateBefore(a, b) || (SameDate(a, b) && ClockBefore(a, b))
  {
    assert Pow10(2) == 100 && Pow10(4) == 10000;
    ClockInOrder(a, b);
    MarkDecidesNothing("T", Clock(a), Clock(b));
    FieldDecides(a.day, b.day, 2, "T" + Clock(a), "T" + Clock(b));
    var dayA, dayB := Digits(a.day, 2) + ("T" + Clock(a)), Digits(b.day, 2) + ("T" + Clock(b));
    MarkDecidesNothing("-", dayA, dayB);
    FieldDecides(a.month, b.month, 2, "-" + dayA, "-" + dayB);
    var monthA, monthB := Digits(a.month, 2) + ("-" + dayA), Digits(b.month, 2) + ("-" + dayB);
    MarkDecidesNothing("-", monthA, monthB);
    FieldDecides(a.year, b.year, 4, "-" + monthA, "-" + monthB);
  }

  // Order of times

  lemma {:induction false} MonthsAdvance(year: nat, m: nat, n: nat)
    requires 1 <= m < n <= 13
    ensures MonthStart(year, m) + MonthLength(year, m) <= MonthStart(year, n)
    decreases n
  {
    if m + 1 < n {
      MonthsAdvance(year, m, n - 1);
    }
  }

  lemma {:induction false} YearsAdvance(y: nat, z: nat)
    requires y < z
    ensures YearStart(y) + (if Leap(y) then 366 else 365) <= YearStart(z)
    decreases z
  {
    if y + 1 < z {
      YearsAdvance(y, z - 1);
    }
  }

  lemma MonthFits(year: nat, month: nat)
    requires 1 <= month <= 12
    ensures MonthStart(year, month) + MonthLength(year, month) <= if Leap(year) then 366 else 365
  {
  }

  function Day(t: Moment): int { YearStart(t.year) + MonthStart(t.year, t.month) + t.day - 1 }

  lemma DatesAdvance(a: Moment, b: Moment)
    requires a.Valid() && b.Valid() && DateBefore(a, b)
    ensures Day(a) < Day(b)
  {
    if a.year < b.year {
      YearsAdvance(a.year, b.year);
      MonthFits(a.year, a.month);
    } else if a.month < b.month {
      MonthsAdvance(a.year, a.month, b.month);
    }
  }

  lemma TimesAdvance(a: Moment, b: Moment)
    requires a.Valid() && b.Valid()
    ensures DateBefore(a, b) || (SameDate(a, b) && ClockBefore(a, b)) <==> Seconds(a) < Seconds(b)
  {
    if DateBefore(a, b) {
      DatesAdvance(a, b);
    } else if DateBefore(b, a) {
      DatesAdvance(b, a);
    }
    assert Seconds(a) == Day(a) * 86400 + a.hour * 3600 + a.minute * 60 + a.second;
    assert Seconds(b) == Day(b) * 86400 + b.hour * 3600 + b.minute * 60 + b.second;
  }

  /** String order is time order. */
  lemma StampsCompareAsTimes(a: Moment, b: Moment)
    requires a.Valid() && b.Valid()
    ensures StrLess(Format(a), Format(b)) <==> Seconds(a) < Seconds(b)
    ensures Format(a) == Format(b) <==> Seconds(a) == Seconds(b)
  {
    FormatInOrder(a, b);
    FormatInOrder(b, a);
    TimesAdvance(a, b);
    TimesAdvance(b, a);
    StrLessStrictTotal();
    assert StrLess(Format(a), Format(b)) || Format(a) == Format(b) || StrLess(Format(b), Format(a));
    assert Format(a) == Format(b) ==> !StrLess(Format(a), Format(b)) && !StrLess(Format(b), Format(a));
  }

  /** Clean-up deletes exactly the rows of tasks that completed before the cutoff. */
  lemma CleanupIsByTime(row: Task, completed: Moment, cutoff: Moment)
    requires completed.Valid() && cutoff.Valid() && row.completedAt == Format(completed)
    ensures Expired(row, Format(cutoff)) <==> Seconds(completed) < Seconds(cutoff)
  {
    StampsCompareAsTimes(completed, cutoff);
    assert |Format(completed)| > 0;
  }

  /** ListSnapshotsCreatedBefore, from the creation times of the rows. */
  function CreatedBefore(created: map<string, string>, before: string): set<string> {
    set id | id in created && StrLess(created[id], before)
  }

  /** Snapshot expiry lists exactly the snapshots created before the cutoff. */
  lemma ExpiryIsByTime(created: map<string, string>, times: map<string, Moment>, cutoff: Moment)
    requires cutoff.Valid() && created.Keys == times.Keys
    requires forall id :: id in times ==> times[id].Valid() && created[id] == Format(times[id])
    ensures CreatedBefore(created, Format(cutoff)) == set id | id in times && Seconds(times[id]) < Seconds(cutoff)
  {
    forall id | id in times
      ensures StrLess(created[id], Format(cutoff)) <==> Seconds(times[id]) < Seconds(cutoff)
    {
      StampsCompareAsTimes(times[id], cutoff);
    }
  }

  /** Idle clean-up lists exactly the owned sandboxes last used before the cutoff. */
  lemma IdleIsByTime(rows: map<string, Row>, times: map<string, Moment>, cutoff: Moment)
    requires cutoff.Valid() && rows.Keys == times.Keys
    requires forall id :: id in times ==> times[id].Valid() && rows[id].lastAccess == Format(times[id])
    ensures IdleBefore(rows, Format(cutoff))
            == set id | id in times && rows[id].owner != "" && Seconds(times[id]) < Seconds(cutoff)
  {
    forall id | id in times
      ensures StrLess(rows[id].lastAccess, Format(cutoff)) <==> Seconds(times[id]) < Seconds(cutoff)
      ensures rows[id].lastAccess != ""
    {
      StampsCompareAsTimes(times[id], cutoff);
      assert |Format(times[id])| > 0;
    }
  }
}
