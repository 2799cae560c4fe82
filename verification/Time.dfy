/**
 Weekly and Unix time (src/time.c and weekly_to_unix_time of src/aker_notification.c).

 localtime and mktime are calls into the C library; here they are arithmetic with one fixed
 offset from UTC, and a calendar date is the number of days since 1 January 1970.
 */
module Time {
  import opened Arithmetic

  const DAY := 86400
  const WEEK := 7 * DAY
  const INT_MAX := 2147483647

  /** struct tm: date stands for tm_year, tm_mon and tm_mday. */
  datatype Tm = Tm(date: int, wday: int, hour: int, min: int, sec: int)

  function LocalTime(t: int, offset: int): Tm {
    var local := t + offset;
    var sec := local % DAY;
    // 1 January 1970 was a Thursday
    Tm(local / DAY, (local / DAY + 4) % 7, sec / 3600, sec / 60 % 60, sec % 60)
  }

  function MakeTime(tm: Tm, offset: int): int {
    tm.date * DAY + tm.hour * 3600 + tm.min * 60 + tm.sec - offset
  }

  function ConvertUnixTimeToWeekly(unixtime: int, offset: int): int {
    var ts := LocalTime(unixtime, offset);
    ts.wday * 24 * 3600 + ts.hour * 3600 + ts.min * 60 + ts.sec
  }

  function WeeklyToUnixTime(weekly: int, base: int, offset: int): int {
    var tm := LocalTime(base, offset).(hour := 0, min := 0, sec := 0);
    MakeTime(tm, offset) - tm.wday * DAY + weekly
  }

  /** Sunday 00:00:00 of the local week that t falls in. */
  function WeekStart(t: int, offset: int): int {
    t - ConvertUnixTimeToWeekly(t, offset)
  }

  lemma WeeklyIsRemainder(t: int, offset: int)
    ensures ConvertUnixTimeToWeekly(t, offset) == (t + offset + 4 * DAY) % WEEK
  {
    var local := t + offset;
    var date, sec := local / DAY, local % DAY;
    var q, wday := (date + 4) / 7, (date + 4) % 7;
    assert sec / 60 % 60 == sec / 60 - sec / 3600 * 60;
    RemainderIsUnique(local + 4 * DAY, WEEK, q, wday * DAY + sec);
  }

  /** Weeks follow each other without gaps: the weekly time restarts exactly every WEEK seconds. */
  lemma WeeksAreAligned(t: int, u: int, offset: int)
    ensures 0 <= ConvertUnixTimeToWeekly(t, offset) < WEEK
    ensures (WeekStart(u, offset) - WeekStart(t, offset)) % WEEK == 0
    ensures WeekStart(t, offset) <= u < WeekStart(t, offset) + WEEK ==> WeekStart(u, offset) == WeekStart(t, offset)
  {
    hide ConvertUnixTimeToWeekly;
    WeeklyIsRemainder(t, offset);
    WeeklyIsRemainder(u, offset);
    var n, k := u + offset + 4 * DAY, t + offset + 4 * DAY;
    RemainderIsUnique(WeekStart(u, offset) - WeekStart(t, offset), WEEK, n / WEEK - k / WEEK, 0);
    if WeekStart(t, offset) <= u < WeekStart(t, offset) + WEEK {
      RemainderIsUnique(n, WEEK, k / WEEK, u - WeekStart(t, offset));
    }
  }

  /** A later time is a whole number of weeks further on. */
  lemma WeekNumber(t: int, u: int, offset: int) returns (week: nat)
    requires t <= u
    ensures WeekStart(u, offset) == WeekStart(t, offset) + week * WEEK
  {
    hide ConvertUnixTimeToWeekly;
    WeeksAreAligned(t, u, offset);
    WeeksAreAligned(u, u, offset);
    var n := (WeekStart(u, offset) - WeekStart(t, offset)) / WEEK;
    assert WeekStart(u, offset) - WeekStart(t, offset) == n * WEEK;
    week := n;
  }

  lemma WeeklyToUnixIsWeekStart(weekly: int, base: int, offset: int)
    ensures WeeklyToUnixTime(weekly, base, offset) == WeekStart(base, offset) + weekly
  {
    var sec := (base + offset) % DAY;
    assert sec == sec / 3600 * 3600 + sec / 60 % 60 * 60 + sec % 60;
  }

  /** Converting to weekly time and back, in the same week, gives the time again. */
  lemma RoundTrip(u: int, offset: int)
    ensures WeeklyToUnixTime(ConvertUnixTimeToWeekly(u, offset), u, offset) == u
  {
    WeeklyToUnixIsWeekStart(ConvertUnixTimeToWeekly(u, offset), u, offset);
  }

  /** Converting a weekly time of any week back gives the weekly time again. */
  lemma RoundTripWeekly(weekly: int, base: int, offset: int)
    requires 0 <= weekly < WEEK
    ensures ConvertUnixTimeToWeekly(WeeklyToUnixTime(weekly, base, offset), offset) == weekly
  {
    WeeklyToUnixIsWeekStart(weekly, base, offset);
    WeeksAreAligned(base, WeekStart(base, offset) + weekly, offset);
  }

  lemma NextWeek(t: int, k: int, offset: int)
    ensures WeekStart(t + k * WEEK, offset) == WeekStart(t, offset) + k * WEEK
  {
    WeeklyIsRemainder(t, offset);
    WeeklyIsRemainder(t + k * WEEK, offset);
    hide ConvertUnixTimeToWeekly;
    var n := t + offset + 4 * DAY;
    RemainderIsUnique(n + k * WEEK, WEEK, n / WEEK + k, n % WEEK);
  }
}
