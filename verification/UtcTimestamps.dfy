/**
 * Timestamps of the form 2026-01-31T23:59:59Z (section 5.1 of RFC 3339): the calendar behind them, and
 * that comparing the texts is comparing the times, leap years included.
 */
module UtcTimestamps {
  import opened Prelude

  datatype Stamp = Stamp(year: nat, month: nat, day: nat, hour: nat, minute: nat, second: nat)

  function Digit(c: char): nat
    requires IsDigit(c)
  {
    c as int - '0' as int
  }

  function Pair(a: char, b: char): nat
    requires IsDigit(a) && IsDigit(b)
  {
    10 * Digit(a) + Digit(b)
  }

  predicate IsSeparator(i: nat) {
    i in {4, 7, 10, 13, 16, 19}
  }

  predicate HasShape(s: string) {
    && |s| == 20 && s[4] == '-' && s[7] == '-' && s[10] == 'T' && s[13] == ':' && s[16] == ':' && s[19] == 'Z'
    && forall i | 0 <= i < 20 && !IsSeparator(i) :: IsDigit(s[i])
  }

  function Read(s: string): Stamp
    requires HasShape(s)
  {
    Stamp(100 * Pair(s[0], s[1]) + Pair(s[2], s[3]), Pair(s[5], s[6]), Pair(s[8], s[9]),
          Pair(s[11], s[12]), Pair(s[14], s[15]), Pair(s[17], s[18]))
  }

  predicate IsLeap(year: nat) {
    year % 4 == 0 && (year % 100 != 0 || year % 400 == 0)
  }

  function DaysIn(year: nat, month: nat): nat {
    if month == 2 then if IsLeap(year) then 29 else 28
    else if month in {4, 6, 9, 11} then 30
    else 31
  }

  predicate IsStamp(t: Stamp) {
    && t.year >= 1 && 1 <= t.month <= 12 && 1 <= t.day <= DaysIn(t.year, t.month)
    && t.hour < 24 && t.minute < 60 && t.second < 60
  }

  /** The texts that reading and printing leaves as they are; a year below 1000 is printed shorter. */
  predicate IsCanonical(s: string) {
    HasShape(s) && IsStamp(Read(s)) && s[0] != '0'
  }

  type Timestamp = s: string | IsCanonical(s) witness "1970-01-01T00:00:00Z"

  /** The days before a year, counted from the year 1. */
  function DaysBeforeYear(year: nat): nat {
    if year <= 1 then 0 else DaysBeforeYear(year - 1) + if IsLeap(year - 1) then 366 else 365
  }

  function DaysBeforeMonth(year: nat, month: nat): nat {
    if month <= 1 then 0 else DaysBeforeMonth(year, month - 1) + DaysIn(year, month - 1)
  }

  function Days(t: Stamp): nat
    requires IsStamp(t)
  {
    DaysBeforeYear(t.year) + DaysBeforeMonth(t.year, t.month) + t.day - 1
  }

  /** The leap years up to a year by the rule of the calendar: every fourth one, but for three in 400 years. */
  function LeapYears(year: nat): int {
    year / 4 - year / 100 + year / 400
  }

  lemma {:induction false} CalendarDays(year: nat)
    requires year >= 1
    ensures DaysBeforeYear(year) == 365 * (year - 1) + LeapYears(year - 1)
  {
    if year > 1 {
      CalendarDays(year - 1);
      OneMoreYear(year - 1);
    }
  }

  lemma OneMoreYear(year: nat)
    requires year > 0
    ensures LeapYears(year) == LeapYears(year - 1) + if IsLeap(year) then 1 else 0
  {
    EveryFourth(year);
    EveryHundredth(year);
    EveryFourHundredth(year);
    Multiples(year);
    AddedUp(year / 4, year / 100, year / 400, (year - 1) / 4, (year - 1) / 100, (year - 1) / 400,
            year % 4 == 0, year % 100 == 0, year % 400 == 0);
  }

  lemma AddedUp(a: int, b: int, c: int, x: int, y: int, z: int, fourth: bool, hundredth: bool, fourHundredth: bool)
    requires a == x + (if fourth then 1 else 0) && b == y + (if hundredth then 1 else 0)
    requires c == z + (if fourHundredth then 1 else 0) && (fourHundredth ==> hundredth) && (hundredth ==> fourth)
    ensures a - b + c == x - y + z + if fourth && (!hundredth || fourHundredth) then 1 else 0
  {
  }

  lemma Multiples(m: nat)
    ensures m % 400 == 0 ==> m % 100 == 0
    ensures m % 100 == 0 ==> m % 4 == 0
  {
    if m % 100 == 0 {
      TimesFour(25 * (m / 100));
    }
    if m % 400 == 0 {
      TimesHundred(4 * (m / 400));
    }
  }

  lemma TimesFour(k: nat)
    ensures 4 * k % 4 == 0
  {
  }

  lemma TimesHundred(k: nat)
    ensures 100 * k % 100 == 0
  {
  }

  lemma EveryFourth(m: nat)
    requires m > 0
    ensures m / 4 == (m - 1) / 4 + if m % 4 == 0 then 1 else 0
  {
  }

  lemma EveryHundredth(m: nat)
    requires m > 0
    ensures m / 100 == (m - 1) / 100 + if m % 100 == 0 then 1 else 0
  {
  }

  lemma EveryFourHundredth(m: nat)
    requires m > 0
    ensures m / 400 == (m - 1) / 400 + if m % 400 == 0 then 1 else 0
  {
  }

  /** The fields of a timestamp are its digits; only dates from the year 1000 on are printed as they are read. */
  lemma CanonicalFields(s: string)
    requires HasShape(s)
    ensures var t := Read(s);
            && t.year == 1000 * Digit(s[0]) + 100 * Digit(s[1]) + 10 * Digit(s[2]) + Digit(s[3])
            && t.month == 10 * Digit(s[5]) + Digit(s[6]) && t.day == 10 * Digit(s[8]) + Digit(s[9])
            && t.hour == 10 * Digit(s[11]) + Digit(s[12]) && t.minute == 10 * Digit(s[14]) + Digit(s[15])
            && t.second == 10 * Digit(s[17]) + Digit(s[18])
            && (IsCanonical(s) <==>
                  && t.year >= 1000 && 1 <= t.month <= 12 && 1 <= t.day <= DaysIn(t.year, t.month)
                  && t.hour <= 23 && t.minute <= 59 && t.second <= 59)
  {
  }

  /** The seconds since the beginning of the year 1. */
  function Instant(t: Stamp): nat
    requires IsStamp(t)
  {
    86400 * Days(t) + 3600 * t.hour + 60 * t.minute + t.second
  }

  lemma {:induction false} LaterYear(first: nat, second: nat)
    requires 1 <= first < second
    ensures DaysBeforeYear(first + 1) <= DaysBeforeYear(second)
  {
    if first + 1 < second {
      LaterYear(first, second - 1);
    }
  }

  lemma {:induction false} LaterMonth(year: nat, first: nat, second: nat)
    requires 1 <= first < second <= 13
    ensures DaysBeforeMonth(year, first) + DaysIn(year, first) <= DaysBeforeMonth(year, second)
  {
    if first + 1 < second {
      LaterMonth(year, first, second - 1);
    }
  }

  lemma YearLength(year: nat)
    ensures DaysBeforeMonth(year, 13) == if IsLeap(year) then 366 else 365
  {
    var february := DaysIn(year, 2);
    assert DaysBeforeMonth(year, 2) == 31;
    assert DaysBeforeMonth(year, 3) == 31 + february;
    assert DaysBeforeMonth(year, 4) == 62 + february;
    assert DaysBeforeMonth(year, 5) == 92 + february;
    assert DaysBeforeMonth(year, 6) == 123 + february;
    assert DaysBeforeMonth(year, 7) == 153 + february;
    assert DaysBeforeMonth(year, 8) == 184 + february;
    assert DaysBeforeMonth(year, 9) == 215 + february;
    assert DaysBeforeMonth(year, 10) == 245 + february;
    assert DaysBeforeMonth(year, 11) == 276 + february;
    assert DaysBeforeMonth(year, 12) == 306 + february;
  }

  /** The order by year, month and day is the order of the days. */
  lemma EarlierDay(a: Stamp, b: Stamp)
    requires IsStamp(a) && IsStamp(b)
    requires a.year < b.year || (a.year == b.year && (a.month < b.month || (a.month == b.month && a.day < b.day)))
    ensures Days(a) < Days(b)
  {
    if a.year < b.year {
      LaterYear(a.year, b.year);
      YearLength(a.year);
      LaterMonth(a.year, a.month, 13);
    } else if a.month < b.month {
      LaterMonth(a.year, a.month, b.month);
    }
  }

  /** The order by all fields is the order of the instants. */
  lemma EarlierInstant(a: Stamp, b: Stamp)
    requires IsStamp(a) && IsStamp(b) && Precedes(a, b)
    ensures Instant(a) < Instant(b)
  {
    if (a.year, a.month, a.day) != (b.year, b.month, b.day) {
      EarlierDay(a, b);
      assert 86400 * Days(a) + 86400 <= 86400 * Days(b);
    }
  }

  /** The order of the fields, the year first. */
  predicate Precedes(a: Stamp, b: Stamp) {
    a.year < b.year || (a.year == b.year &&
    (a.month < b.month || (a.month == b.month &&
    (a.day < b.day || (a.day == b.day &&
    (a.hour < b.hour || (a.hour == b.hour &&
    (a.minute < b.minute || (a.minute == b.minute && a.second < b.second)))))))))
  }

  /** The first place where two texts differ. */
  function Difference(a: string, b: string): (i: nat)
    requires |a| == |b|
    ensures i <= |a| && a[..i] == b[..i] && (i < |a| ==> a[i] != b[i])
    ensures forall k | 0 <= k < i :: a[k] == b[k]
  {
    if a == "" || a[0] != b[0] then 0
    else
      var i := 1 + Difference(a[1..], b[1..]);
      assert a[..i] == [a[0]] + a[1..][..i - 1];
      assert b[..i] == [b[0]] + b[1..][..i - 1];
      assert forall k | 0 < k < i :: a[k] == a[1..][k - 1] && b[k] == b[1..][k - 1];
      i
  }

  /** The order of texts of one length. */
  predicate Less(a: string, b: string)
    requires |a| == |b|
  {
    var i := Difference(a, b);
    i < |a| && a[i] < b[i]
  }

  lemma SmallerDigit(a: string, b: string, i: nat)
    requires HasShape(a) && HasShape(b) && i < 20 && a[i] < b[i] && forall k | 0 <= k < i :: a[k] == b[k]
    ensures Precedes(Read(a), Read(b))
  {
    assert !IsSeparator(i);
    assert IsDigit(a[i]) && IsDigit(b[i]);
    assert Digit(a[i]) < Digit(b[i]);
  }

  /** For canonical timestamps the order of the texts is the order in time. */
  lemma TextOrderIsTimeOrder(a: string, b: string)
    requires IsCanonical(a) && IsCanonical(b)
    ensures Less(a, b) <==> Instant(Read(a)) < Instant(Read(b))
    ensures a == b <==> Instant(Read(a)) == Instant(Read(b))
  {
    var i := Difference(a, b);
    if i < 20 {
      if a[i] < b[i] {
        SmallerDigit(a, b, i);
        EarlierInstant(Read(a), Read(b));
      } else {
        SmallerDigit(b, a, i);
        EarlierInstant(Read(b), Read(a));
      }
    } else {
      assert a == a[..20] == b[..20] == b;
    }
  }

  function TimeOf(s: Timestamp): nat {
    Instant(Read(s))
  }
}
