/** Local days and weeks, eight hours east of UTC, in the mixed signed and unsigned arithmetic of the C++ code. */
module TimeUtils {
  import opened Modular

  const DAY: nat := 86400          // uint32_t
  const TIME_ZONE: int := -28800   // int32_t

  // ---------- conversions ----------

  function ToUint32(x: int): (r: nat)
    ensures r < UINT32
  {
    x % UINT32
  }

  function ToInt32(x: int): int { if ToUint32(x) < UINT32 / 2 then ToUint32(x) else ToUint32(x) - UINT32 }

  // ---------- the functions ----------

  /** The signed 32-bit dividend is converted to unsigned again, because the divisor is unsigned. */
  function LocalDaysFromEpoch(t: int): int { ToInt32(ToUint32(ToInt32(t - TIME_ZONE)) / DAY) }

  /** Here both operands are signed; the quotient is truncated. */
  function LocalWeeksFromEpoch(t: int): int {
    var d := ToInt32(LocalDaysFromEpoch(t) + 3);
    if d >= 0 then d / 7 else -(-d / 7)
  }

  function Between(days1: nat, days2: nat): nat { if days1 > days2 then days1 - days2 else days2 - days1 }

  function LocalDaysBetween(t1: int, t2: int): nat {
    Between(ToUint32(LocalDaysFromEpoch(t1)), ToUint32(LocalDaysFromEpoch(t2)))
  }

  function LocalWeeksBetween(t1: int, t2: int): nat {
    Between(ToUint32(LocalWeeksFromEpoch(t1)), ToUint32(LocalWeeksFromEpoch(t2)))
  }

  predicate IsSameLocalWeek(t1: int, t2: int) { LocalWeeksFromEpoch(t1) == LocalWeeksFromEpoch(t2) }

  /** Product and sum are unsigned 32-bit numbers before they become a `time_t`. */
  function LocalDayZero(t: int): int { ToUint32(ToUint32(ToUint32(LocalDaysFromEpoch(t)) * DAY) + ToUint32(TIME_ZONE)) }

  /** `tm_wday` of the local time, Sunday being 0: the first day of 1970 was a Thursday. */
  function Weekday(t: int): nat { (LocalDay(t) + 4) % 7 }

  function LocalMondayZero(t: int): int {
    var days := if Weekday(t) != 0 then Weekday(t) else 7;
    LocalDayZero(t) - ToUint32((days - 1) * DAY)
  }

  function LocalNextMondayZero(t: int): int { LocalMondayZero(t) + 7 * DAY }

  // ---------- the calendar ----------

  /** The number of the local day, rounded down, for any time. */
  function LocalDay(t: int): int { (t - TIME_ZONE) / DAY }

  predicate IsMidnight(t: int) { (t - TIME_ZONE) % DAY == 0 }

  predicate IsMondayMidnight(t: int) { IsMidnight(t) && Weekday(t) == 1 }

  /** How many midnights, or Monday midnights, there are after `t1` up to and including `t2`. */
  function Midnights(t1: int, t2: int, mondays: bool): nat
    decreases t2 - t1
  {
    if t1 >= t2 then 0
    else Midnights(t1, t2 - 1, mondays) + if IsMidnight(t2) && (mondays ==> Weekday(t2) == 1) then 1 else 0
  }

  /** The times whose distance from the local epoch an unsigned 32-bit number can hold. */
  predicate InRange(t: int) { 0 <= t - TIME_ZONE < UINT32 }

  // ---------- days ----------

  lemma Conversions(x: int)
    ensures ToUint32(ToInt32(x)) == ToUint32(x)
    ensures 0 <= x < UINT32 / 2 ==> ToInt32(x) == x
  {
  }

  lemma DaysAre(t: int)
    ensures LocalDaysFromEpoch(t) == ToUint32(t - TIME_ZONE) / DAY <= 49710
  {
    Conversions(t - TIME_ZONE);
    Conversions(ToUint32(t - TIME_ZONE) / DAY);
  }

  /** The days counted are true days rounded down exactly in that range, in spite of the signed conversion. */
  lemma DaysAreFloorInRange(t: int)
    ensures LocalDaysFromEpoch(t) == LocalDay(t) <==> InRange(t)
  {
    DaysAre(t);
    if t - TIME_ZONE >= UINT32 {
      var x, q := t - TIME_ZONE, (t - TIME_ZONE) / UINT32;
      assert x == UINT32 * q + ToUint32(x) && q >= 1;
      assert UINT32 * q >= UINT32;
      assert x >= UINT32 + ToUint32(x);
    }
  }

  lemma NextSecond(t: int)
    ensures LocalDay(t) == LocalDay(t - 1) + if IsMidnight(t) then 1 else 0
  {
  }

  lemma {:induction false} MidnightsAreDays(t1: int, t2: int)
    requires t1 <= t2
    ensures Midnights(t1, t2, false) == LocalDay(t2) - LocalDay(t1)
    decreases t2 - t1
  {
    if t1 < t2 {
      MidnightsAreDays(t1, t2 - 1);
      NextSecond(t2);
    }
  }

  function LocalWeek(t: int): int { (LocalDay(t) + 3) / 7 }

  lemma {:induction false} MondaysAreWeeks(t1: int, t2: int)
    requires t1 <= t2
    ensures Midnights(t1, t2, true) == LocalWeek(t2) - LocalWeek(t1)
    decreases t2 - t1
  {
    if t1 < t2 {
      MondaysAreWeeks(t1, t2 - 1);
      NextSecond(t2);
    }
  }

  lemma Backwards(t1: int, t2: int, mondays: bool)
    requires t1 <= t2
    ensures Midnights(t2, t1, mondays) == 0
  {
  }

  lemma DaysInRange(t: int)
    requires InRange(t)
    ensures LocalDaysFromEpoch(t) == LocalDay(t) == ToUint32(LocalDaysFromEpoch(t))
  {
    DaysAre(t);
    DaysAreFloorInRange(t);
  }

  /** In range, `localDaysBetween` counts the local midnights from the earlier time, excluded, to the later one. */
  lemma {:induction false} DaysBetweenCountMidnights(t1: int, t2: int)
    requires InRange(t1) && InRange(t2)
    ensures LocalDaysBetween(t1, t2) == Midnights(t1, t2, false) + Midnights(t2, t1, false)
  {
    hide LocalDay, LocalDaysFromEpoch, Midnights, ToUint32, InRange;
    DaysInRange(t1);
    DaysInRange(t2);
    if t1 <= t2 {
      MidnightsAreDays(t1, t2);
      Backwards(t1, t2, false);
    } else {
      MidnightsAreDays(t2, t1);
      Backwards(t2, t1, false);
    }
  }

  lemma WeeksInRange(t: int)
    requires InRange(t)
    ensures LocalWeeksFromEpoch(t) == LocalWeek(t) == ToUint32(LocalWeeksFromEpoch(t))
  {
    DaysAre(t);
    DaysAreFloorInRange(t);
    Conversions(LocalDay(t) + 3);
  }

  /** And `localWeeksBetween` counts the Monday midnights. */
  lemma {:induction false} WeeksBetweenCountMondays(t1: int, t2: int)
    requires InRange(t1) && InRange(t2)
    ensures LocalWeeksBetween(t1, t2) == Midnights(t1, t2, true) + Midnights(t2, t1, true)
  {
    hide LocalWeek, LocalWeeksFromEpoch, Midnights, ToUint32, InRange;
    WeeksInRange(t1);
    WeeksInRange(t2);
    if t1 <= t2 {
      MondaysAreWeeks(t1, t2);
      Backwards(t1, t2, true);
    } else {
      MondaysAreWeeks(t2, t1);
      Backwards(t2, t1, true);
    }
  }

  // ---------- Mondays ----------

  lemma DayZeroIs(t: int)
    requires InRange(t)
    ensures LocalDayZero(t) == DAY * LocalDay(t) + TIME_ZONE + if LocalDay(t) == 0 then UINT32 else 0
    ensures 0 <= LocalDay(t) <= 49710 && DAY * LocalDay(t) <= t - TIME_ZONE < DAY * LocalDay(t) + DAY
  {
    DaysAre(t);
    DaysAreFloorInRange(t);
  }

  /** In range, the midnight computed is the one that began the local day, exactly from local day 1 on. */
  lemma DayZeroIsTodays(t: int)
    requires InRange(t)
    ensures LocalDayZero(t) <= t < LocalDayZero(t) + DAY <==> LocalDay(t) >= 1
    ensures LocalDay(t) >= 1 ==> IsMidnight(LocalDayZero(t))
  {
    DayZeroIs(t);
  }

  lemma MondayZeroIs(t: int)
    requires InRange(t)
    ensures LocalMondayZero(t) == DAY * (7 * LocalWeek(t) - 3) + TIME_ZONE + if LocalDay(t) == 0 then UINT32 else 0
    ensures 7 * LocalWeek(t) - 3 <= LocalDay(t) < 7 * LocalWeek(t) + 4
  {
    DayZeroIs(t);
    var d := LocalDay(t);
    assert (if Weekday(t) != 0 then Weekday(t) else 7) - 1 == d - (7 * LocalWeek(t) - 3);
  }

  /** In range, the Monday computed is the one at or before `t`, less than a week ago, exactly from local day 1 on:
      on local day 0 the unsigned arithmetic wraps. */
  lemma MondayIsThisWeeks(t: int)
    requires InRange(t)
    ensures LocalMondayZero(t) <= t < LocalNextMondayZero(t) <==> LocalDay(t) >= 1
    ensures LocalDay(t) >= 1 ==> IsMondayMidnight(LocalMondayZero(t)) && IsMondayMidnight(LocalNextMondayZero(t))
  {
    DayZeroIs(t);
    MondayZeroIs(t);
    if LocalDay(t) >= 1 {
      MondayMidnight(LocalWeek(t));
      MondayMidnight(LocalWeek(t) + 1);
    }
  }

  lemma MondayMidnight(week: int)
    ensures IsMondayMidnight(DAY * (7 * week - 3) + TIME_ZONE)
  {
    var t := DAY * (7 * week - 3) + TIME_ZONE;
    assert t - TIME_ZONE == DAY * (7 * week - 3);
    assert LocalDay(t) == 7 * week - 3;
  }

  lemma MidnightIs(m: int)
    requires IsMidnight(m)
    ensures m == DAY * LocalDay(m) + TIME_ZONE
  {
  }

  lemma MondayIs(d: int, day: int, week: int)
    requires (d + 4) % 7 == 1 && d <= day < d + 7 && 7 * week - 3 <= day < 7 * week + 4
    ensures d == 7 * week - 3
  {
  }

  /** There is only one such Monday. */
  lemma OnlyMonday(t: int, m: int)
    requires InRange(t) && LocalDay(t) >= 1 && IsMondayMidnight(m) && m <= t < m + 7 * DAY
    ensures m == LocalMondayZero(t)
  {
    DayZeroIs(t);
    MondayZeroIs(t);
    var d := LocalDay(m);
    MidnightIs(m);
    hide LocalMondayZero, LocalDayZero, LocalDay;
    MondayIs(d, LocalDay(t), LocalWeek(t));
  }

  /** And no Monday midnight lies between `t` and the next Monday computed. */
  lemma NextMondayIsTheFirst(t: int, m: int)
    requires InRange(t) && LocalDay(t) >= 1 && IsMondayMidnight(m) && t < m
    ensures LocalNextMondayZero(t) <= m
  {
    DayZeroIs(t);
    MondayZeroIs(t);
    MidnightIs(m);
    MondayNotBefore(LocalDay(m), LocalDay(t), LocalWeek(t));
  }

  lemma MondayNotBefore(d: int, day: int, week: int)
    requires (d + 4) % 7 == 1 && day < d && 7 * week - 3 <= day < 7 * week + 4
    ensures 7 * week + 4 <= d
  {
  }

  /** Friday, 1 March 2024, eight o'clock: the midnight before, the Monday before and the Monday after. */
  lemma FirstOfMarch()
    ensures LocalDaysFromEpoch(1709251200) == 19783 && LocalWeeksFromEpoch(1709251200) == 2826
    ensures LocalDayZero(1709251200) == 1709222400
    ensures LocalMondayZero(1709251200) == 1708876800 && LocalNextMondayZero(1709251200) == 1709481600
  {
    DayZeroIs(1709251200);
    MondayZeroIs(1709251200);
    DaysInRange(1709251200);
    WeeksInRange(1709251200);
  }

  /** Being in the same week is having the same Monday, unless one of the times is on local day 0 and the other later in
      that week. */
  lemma SameWeekIsSameMonday(t1: int, t2: int)
    requires InRange(t1) && InRange(t2)
    ensures (IsSameLocalWeek(t1, t2) <==> LocalMondayZero(t1) == LocalMondayZero(t2))
       <==> !((LocalDay(t1) == 0 && 1 <= LocalDay(t2) <= 3) || (LocalDay(t2) == 0 && 1 <= LocalDay(t1) <= 3))
  {
    WeeksInRange(t1);
    WeeksInRange(t2);
    MondayZeroIs(t1);
    MondayZeroIs(t2);
    NoWholeDays(7 * LocalWeek(t1) - 7 * LocalWeek(t2));
    NoWholeDays(7 * LocalWeek(t2) - 7 * LocalWeek(t1));
  }

  lemma NoWholeDays(n: int)
    ensures DAY * n != UINT32
  {
  }

  /** Noon of Thursday, 1 January 1970: its Monday is computed as one in 2106. */
  lemma FirstDayHasALateMonday()
    ensures LocalMondayZero(43200 + TIME_ZONE) == 4294679296 && !(LocalMondayZero(43200 + TIME_ZONE) <= 43200 + TIME_ZONE)
    ensures IsSameLocalWeek(43200 + TIME_ZONE, DAY + TIME_ZONE)
         && LocalMondayZero(43200 + TIME_ZONE) != LocalMondayZero(DAY + TIME_ZONE)
  {
    MondayZeroIs(43200 + TIME_ZONE);
    MondayZeroIs(DAY + TIME_ZONE);
    WeeksInRange(43200 + TIME_ZONE);
    WeeksInRange(DAY + TIME_ZONE);
  }
}
