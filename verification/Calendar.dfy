/** The clock of the ext2 driver (ext2_now in kernel/ext2.c): a closed-form day number that must
    agree with counting days on the Gregorian calendar. */
module Calendar {
  datatype Time = Time(year: nat, month: nat, day: nat, hour: nat, minute: nat, second: nat)

  const TWO32: nat := 0x1_0000_0000

  // ---- counting ------------------------------------------------------------

  predicate Leap(y: nat) { y % 4 == 0 && (y % 100 != 0 || y % 400 == 0) }

  function YearLength(y: nat): nat { if Leap(y) then 366 else 365 }

  function MonthLength(y: nat, m: nat): nat
    requires 1 <= m <= 12
  {
    if m == 2 then (if Leap(y) then 29 else 28) else if m == 4 || m == 6 || m == 9 || m == 11 then 30 else 31
  }

  /** Days from 1 January 1970 to 1 January of year `y`. */
  function DaysToYear(y: nat): nat
    requires 1970 <= y
  {
    if y == 1970 then 0 else DaysToYear(y - 1) + YearLength(y - 1)
  }

  /** Days from the first of January to the first of month `m`. */
  function DaysToMonth(y: nat, m: nat): nat
    requires 1 <= m <= 12
  {
    if m == 1 then 0 else DaysToMonth(y, m - 1) + MonthLength(y, m - 1)
  }

  predicate Valid(y: nat, m: nat, d: nat) { 1970 <= y && 1 <= m <= 12 && 1 <= d <= MonthLength(y, m) }

  /** Days since 1 January 1970, counted one year and one month at a time. */
  function Counted(y: nat, m: nat, d: nat): nat
    requires Valid(y, m, d)
  {
    DaysToYear(y) + DaysToMonth(y, m) + d - 1
  }

  // ---- the closed form -----------------------------------------------------

  /** The arithmetic of ext2_now. */
  function Days(y: nat, m: nat, d: nat): (days: int)
    requires 1970 <= y && 1 <= m <= 12 && 1 <= d
  {
    var s := if m <= 2 then y - 1 else y;
    var era := s / 400;
    var yoe := s - era * 400;
    var doy := (153 * (if m > 2 then m - 3 else m + 9) + 2) / 5 + d - 1;
    var doe := yoe * 365 + yoe / 4 - yoe / 100 + doy;
    era * 146097 + doe - 719468
  }

  /** Days in all years up to `s` of a calendar that starts its years in March. */
  function Years(s: nat): nat { 365 * s + s / 4 - s / 100 + s / 400 }

  lemma EraSplit(s: nat)
    ensures var era, yoe := s / 400, s - s / 400 * 400; era * 146097 + yoe * 365 + yoe / 4 - yoe / 100 == Years(s)
  {
    var era := s / 400;
    var yoe := s - era * 400;
    assert 0 <= yoe < 400;
    assert s / 4 == 100 * era + yoe / 4;
    assert s / 100 == 4 * era + yoe / 100;
  }

  /** Each year adds its own length. */
  lemma OneYear(s: nat)
    requires s > 0
    ensures Years(s) == Years(s - 1) + YearLength(s)
  {
    Steps(s, 4);
    Steps(s, 100);
    Steps(s, 400);
    Multiples(s);
    LeapSum(s, s / 4, s / 100, s / 400, (s - 1) / 4, (s - 1) / 100, (s - 1) / 400);
  }

  lemma Multiples(s: nat)
    ensures (s % 400 == 0 ==> s % 100 == 0) && (s % 100 == 0 ==> s % 4 == 0)
  {
    if s % 400 == 0 { Multiple(s, s / 400 * 4, 100); }
    if s % 100 == 0 { Multiple(s, s / 100 * 25, 4); }
  }

  lemma Multiple(s: nat, q: nat, k: nat)
    requires s == k * q && (k == 100 || k == 4)
    ensures s % k == 0
  {
  }

  lemma LeapSum(s: nat, a: nat, b: nat, c: nat, a': nat, b': nat, c': nat)
    requires s > 0 && (s % 400 == 0 ==> s % 100 == 0) && (s % 100 == 0 ==> s % 4 == 0)
    requires a == a' + (if s % 4 == 0 then 1 else 0) && b == b' + (if s % 100 == 0 then 1 else 0)
    requires c == c' + (if s % 400 == 0 then 1 else 0)
    ensures 365 * s + a - b + c == 365 * (s - 1) + a' - b' + c' + YearLength(s)
  {
  }

  lemma Steps(s: nat, k: nat)
    requires s > 0 && (k == 4 || k == 100 || k == 400)
    ensures s / k == (s - 1) / k + if s % k == 0 then 1 else 0
  {
  }

  lemma {:induction false} NewYear(y: nat)
    requires 1970 <= y
    ensures DaysToYear(y) == Years(y - 1) + 306 - 719468
  {
    if y == 1970 {
      assert Years(1969) == 719162;
    } else {
      NewYear(y - 1);
      OneYear(y - 1);
    }
  }

  /** The month table hidden in (153 m + 2) / 5. */
  lemma MonthTable(y: nat, m: nat)
    requires 1 <= m <= 12
    ensures m <= 2 ==> DaysToMonth(y, m) == (153 * (m + 9) + 2) / 5 - 306
    ensures m > 2 ==> DaysToMonth(y, m) == (153 * (m - 3) + 2) / 5 + 59 + if Leap(y) then 1 else 0
  {
    FirstMonths(y);
    if m > 2 { LaterMonths(y, m); }
  }

  lemma FirstMonths(y: nat)
    ensures DaysToMonth(y, 1) == 0 && DaysToMonth(y, 2) == 31 && DaysToMonth(y, 3) == 59 + if Leap(y) then 1 else 0
  {
  }

  lemma {:induction false} LaterMonths(y: nat, m: nat)
    requires 3 <= m <= 12
    ensures DaysToMonth(y, m) == (153 * (m - 3) + 2) / 5 + 59 + if Leap(y) then 1 else 0
    decreases m
  {
    hide Leap;
    if m == 3 { FirstMonths(y); } else { LaterMonths(y, m - 1); }
  }

  /** The closed form counts days. */
  lemma DaysCount(y: nat, m: nat, d: nat)
    requires Valid(y, m, d)
    ensures Days(y, m, d) == Counted(y, m, d)
  {
    var s := if m <= 2 then y - 1 else y;
    EraSplit(s);
    NewYear(y);
    MonthTable(y, m);
    if m > 2 { OneYear(y); }
  }

  /** The day after. */
  function NextDate(y: nat, m: nat, d: nat): (nat, nat, nat)
    requires Valid(y, m, d)
  {
    if d < MonthLength(y, m) then (y, m, d + 1) else if m < 12 then (y, m + 1, 1) else (y + 1, 1, 1)
  }

  /** Successive dates get successive numbers. */
  lemma DaysSuccessive(y: nat, m: nat, d: nat)
    requires Valid(y, m, d)
    ensures var (a, b, c) := NextDate(y, m, d); Valid(a, b, c) && Days(a, b, c) == Days(y, m, d) + 1
  {
    var (a, b, c) := NextDate(y, m, d);
    DaysCount(y, m, d);
    DaysCount(a, b, c);
    if m == 12 && d == 31 { December(y); }
  }

  lemma December(y: nat)
    ensures DaysToMonth(y, 12) + 31 == YearLength(y)
  {
    LaterMonths(y, 12);
  }

  /** Seconds since the epoch as stored in an inode: 32 bits, zero for an unusable clock. */
  function Now(t: Time): (s: nat)
    ensures s < TWO32
  {
    if t.year < 1970 || t.month < 1 || t.month > 12 then 0
    else
      var days := Days(t.year, t.month, if t.day == 0 then 1 else t.day);
      (days * 86400 + t.hour * 3600 + t.minute * 60 + t.second) % TWO32
  }

  /** Up to the 32-bit cast, the stamp is the count of seconds. */
  lemma NowCounts(t: Time)
    requires Valid(t.year, t.month, t.day)
    ensures Now(t) == (Counted(t.year, t.month, t.day) * 86400 + t.hour * 3600 + t.minute * 60 + t.second) % TWO32
  {
    DaysCount(t.year, t.month, t.day);
  }
}
