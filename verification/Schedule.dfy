/** When an every rule fires (internal/automation/schedule.go), in a zone of a
    fixed offset: times are nanoseconds of local time since the start of
    1970-01-01, a Thursday. */
module Schedules {

  const SECOND: int := 1_000_000_000
  const MINUTE: int := 60 * SECOND
  const HOUR: int := 60 * MINUTE
  const DAY: int := 24 * HOUR

  /** weekday is 0 for Sunday to 6, or -1 for every day. */
  datatype Schedule = Schedule(weekday: int, hour: int, minute: int, hourly: bool)

  /** What ParseSchedule accepts. */
  predicate Valid(s: Schedule) {
    -1 <= s.weekday <= 6 && 0 <= s.hour < 24 && 0 <= s.minute < 60
  }

  function DayOf(t: int): int { t / DAY }

  function Weekday(day: int): int { (day + 4) % 7 }

  /** The time of day of the slots. */
  function TimeOfDay(s: Schedule): int { s.hour * HOUR + s.minute * MINUTE }

  predicate OnDay(s: Schedule, day: int) { s.weekday < 0 || Weekday(day) == s.weekday }

  predicate IsSlot(s: Schedule, t: int) {
    if s.hourly then t % HOUR == s.minute * MINUTE
    else t % DAY == TimeOfDay(s) && OnDay(s, DayOf(t))
  }

  /** The moment of an hour and a minute of a day. */
  function TimeAt(day: int, hour: int, minute: int): int { day * DAY + hour * HOUR + minute * MINUTE }

  lemma ClockOf(day: int, hour: int, minute: int)
    requires 0 <= hour < 24 && 0 <= minute < 60
    ensures var t := TimeAt(day, hour, minute);
            t / DAY == day && t % DAY == hour * HOUR + minute * MINUTE && t % HOUR == minute * MINUTE
  {
    var rest := hour * HOUR + minute * MINUTE;
    assert 0 <= minute * MINUTE < HOUR && 0 <= rest < DAY;
    assert TimeAt(day, hour, minute) == day * DAY + rest;
    assert TimeAt(day, hour, minute) == (day * 24 + hour) * HOUR + minute * MINUTE;
  }

  /** The days of the week go round from 1970-01-01, a Thursday. */
  lemma WeekdaysGoRound(day: int)
    ensures Weekday(0) == 4 && Weekday(day + 1) == (if Weekday(day) == 6 then 0 else Weekday(day) + 1)
  {
  }

  /** A slot is the minute of the schedule of any hour, or its hour and minute on its day of
      the week, or on every day. */
  lemma SlotIsTime(s: Schedule, t: int)
    requires Valid(s)
    ensures IsSlot(s, t) <==>
              if s.hourly then exists day, hour :: 0 <= hour < 24 && t == TimeAt(day, hour, s.minute)
              else exists day :: t == TimeAt(day, s.hour, s.minute) && (s.weekday == -1 || Weekday(day) == s.weekday)
  {
    if s.hourly { HourlyIsTime(s, t); } else { DailyIsTime(s, t); }
  }

  lemma HourlyIsTime(s: Schedule, t: int)
    requires Valid(s)
    ensures t % HOUR == s.minute * MINUTE <==> exists day, hour :: 0 <= hour < 24 && t == TimeAt(day, hour, s.minute)
  {
    if t % HOUR == s.minute * MINUTE {
      var h := t / HOUR;
      assert t == h * HOUR + s.minute * MINUTE && h == h / 24 * 24 + h % 24;
      assert t == TimeAt(h / 24, h % 24, s.minute);
    }
    if day, hour :| 0 <= hour < 24 && t == TimeAt(day, hour, s.minute) { ClockOf(day, hour, s.minute); }
  }

  lemma DailyIsTime(s: Schedule, t: int)
    requires Valid(s)
    ensures t % DAY == TimeOfDay(s) && OnDay(s, DayOf(t))
            <==> exists day :: t == TimeAt(day, s.hour, s.minute) && (s.weekday == -1 || Weekday(day) == s.weekday)
  {
    if t % DAY == TimeOfDay(s) && OnDay(s, DayOf(t)) { assert t == TimeAt(DayOf(t), s.hour, s.minute); }
    if day :| t == TimeAt(day, s.hour, s.minute) && (s.weekday == -1 || Weekday(day) == s.weekday) {
      ClockOf(day, s.hour, s.minute);
    }
  }

  // ----- Last -----

  ghost predicate IsLast(s: Schedule, now: int, t: int) {
    IsSlot(s, t) && t <= now && forall u :: IsSlot(s, u) && u <= now ==> u <= t
  }

  /** The last day of the schedule up to day. */
  function LastDay(s: Schedule, day: int): (d: int)
    requires Valid(s)
    ensures day - 7 < d <= day && OnDay(s, d)
    ensures forall e :: d < e <= day ==> !OnDay(s, e)
  {
    if s.weekday < 0 then day else day - (Weekday(day) - s.weekday) % 7
  }

  function LastSlot(s: Schedule, now: int): int
    requires Valid(s)
  {
    if s.hourly then
      var t := now - now % HOUR + s.minute * MINUTE;
      if t > now then t - HOUR else t
    else
      var today := DayOf(now);
      LastDay(s, if today * DAY + TimeOfDay(s) <= now then today else today - 1) * DAY + TimeOfDay(s)
  }

  /** A slot of a day is at its time of day. */
  lemma SlotOfDay(s: Schedule, day: int)
    requires Valid(s) && !s.hourly
    ensures DayOf(day * DAY + TimeOfDay(s)) == day
    ensures IsSlot(s, day * DAY + TimeOfDay(s)) <==> OnDay(s, day)
  {
    assert 0 <= TimeOfDay(s) < DAY;
  }

  lemma HourlyGap(s: Schedule, l: int, u: int)
    requires Valid(s) && s.hourly && IsSlot(s, l) && IsSlot(s, u) && l < u
    ensures l + HOUR <= u
  {
    assert l == (l / HOUR) * HOUR + s.minute * MINUTE;
    assert u == (u / HOUR) * HOUR + s.minute * MINUTE;
  }

  /** A slot of a daily or weekly schedule is at its time of day, on its day. */
  lemma SlotIsOnDay(s: Schedule, u: int)
    requires Valid(s) && !s.hourly && IsSlot(s, u)
    ensures u == DayOf(u) * DAY + TimeOfDay(s) && OnDay(s, DayOf(u))
  {
  }

  lemma DailyLast(s: Schedule, now: int, u: int)
    requires Valid(s) && !s.hourly && IsSlot(s, u) && u <= now
    ensures u <= LastSlot(s, now)
  {
    SlotIsOnDay(s, u);
    var today := DayOf(now);
    var from := if today * DAY + TimeOfDay(s) <= now then today else today - 1;
    assert DayOf(u) <= from;
    assert DayOf(u) <= LastDay(s, from);
  }

  lemma DailyLastIsSlot(s: Schedule, now: int)
    requires Valid(s) && !s.hourly
    ensures var t := LastSlot(s, now); IsSlot(s, t) && now - 7 * DAY < t <= now
  {
    var today := DayOf(now);
    SlotOfDay(s, LastDay(s, if today * DAY + TimeOfDay(s) <= now then today else today - 1));
  }

  lemma HourlyLast(s: Schedule, now: int)
    requires Valid(s) && s.hourly
    ensures var t := LastSlot(s, now); IsSlot(s, t) && now - HOUR < t <= now
  {
  }

  /** LastSlot is the greatest slot at or before now, less than a week ago. */
  lemma LastSlotIsLast(s: Schedule, now: int)
    requires Valid(s)
    ensures IsLast(s, now, LastSlot(s, now))
    ensures now - 7 * DAY < LastSlot(s, now)
  {
    var t := LastSlot(s, now);
    if s.hourly {
      HourlyLast(s, now);
      forall u | IsSlot(s, u) && u <= now ensures u <= t {
        if t < u { HourlyGap(s, t, u); }
      }
    } else {
      DailyLastIsSlot(s, now);
      forall u | IsSlot(s, u) && u <= now ensures u <= t { DailyLast(s, now, u); }
    }
  }

  /** The loop of Last: a day back at a time, at most eight times. */
  method Last(s: Schedule, now: int) returns (t: int)
    requires Valid(s)
    ensures t == LastSlot(s, now) && IsLast(s, now, t)
  {
    LastSlotIsLast(s, now);
    if s.hourly {
      t := now - now % HOUR + s.minute * MINUTE;
      if t > now {
        t := t - HOUR;
      }
      return;
    }
    var today := DayOf(now);
    ghost var from := if today * DAY + TimeOfDay(s) <= now then today else today - 1;
    ghost var day := today;
    t := today * DAY + s.hour * HOUR + s.minute * MINUTE;
    for i := 0 to 8
      invariant t == day * DAY + TimeOfDay(s) && day == today - i
      invariant LastDay(s, from) <= day
    {
      SlotOfDay(s, day);
      if t <= now && (s.weekday < 0 || Weekday(DayOf(t)) == s.weekday) {
        assert day <= from;
        return;
      }
      day := day - 1;
      t := (DayOf(t) - 1) * DAY + s.hour * HOUR + s.minute * MINUTE;
    }
    assert false;
  }

  // ----- Next -----

  ghost predicate IsNext(s: Schedule, now: int, t: int) {
    IsSlot(s, t) && t > now && forall u :: IsSlot(s, u) && u > now ==> u >= t
  }

  /** The first day of the schedule from day on. */
  function FirstDay(s: Schedule, day: int): (d: int)
    requires Valid(s)
    ensures day <= d < day + 7 && OnDay(s, d)
    ensures forall e :: day <= e < d ==> !OnDay(s, e)
  {
    if s.weekday < 0 then day else day + (s.weekday - Weekday(day)) % 7
  }

  function NextSlot(s: Schedule, now: int): int
    requires Valid(s)
  {
    if s.hourly then LastSlot(s, now) + HOUR
    else
      var today := DayOf(now);
      FirstDay(s, if today * DAY + TimeOfDay(s) > now then today else today + 1) * DAY + TimeOfDay(s)
  }

  lemma DailyNext(s: Schedule, now: int, u: int)
    requires Valid(s) && !s.hourly && IsSlot(s, u) && u > now
    ensures u >= NextSlot(s, now)
  {
    SlotIsOnDay(s, u);
    var today := DayOf(now);
    var from := if today * DAY + TimeOfDay(s) > now then today else today + 1;
    assert from <= DayOf(u);
    assert FirstDay(s, from) <= DayOf(u);
  }

  lemma DailyNextIsSlot(s: Schedule, now: int)
    requires Valid(s) && !s.hourly
    ensures IsSlot(s, NextSlot(s, now)) && NextSlot(s, now) > now
  {
    var today := DayOf(now);
    SlotOfDay(s, FirstDay(s, if today * DAY + TimeOfDay(s) > now then today else today + 1));
  }

  /** NextSlot is the least slot after now. */
  lemma NextSlotIsNext(s: Schedule, now: int)
    requires Valid(s)
    ensures IsNext(s, now, NextSlot(s, now))
  {
    var t := NextSlot(s, now);
    if s.hourly {
      HourlyLast(s, now);
      assert IsSlot(s, t);
      forall u | IsSlot(s, u) && u > now ensures u >= t { HourlyGap(s, t - HOUR, u); }
    } else {
      DailyNextIsSlot(s, now);
      forall u | IsSlot(s, u) && u > now ensures u >= t { DailyNext(s, now, u); }
    }
  }

  /** The loop of Next: a day on at a time, at most nine times. */
  method Next(s: Schedule, now: int) returns (t: int)
    requires Valid(s)
    ensures t == NextSlot(s, now) && IsNext(s, now, t)
  {
    NextSlotIsNext(s, now);
    if s.hourly {
      t := Last(s, now);
      t := t + HOUR;
      return;
    }
    var today := DayOf(now);
    ghost var from := if today * DAY + TimeOfDay(s) > now then today else today + 1;
    ghost var day := today;
    t := today * DAY + s.hour * HOUR + s.minute * MINUTE;
    for i := 0 to 9
      invariant t == day * DAY + TimeOfDay(s) && day == today + i
      invariant day <= FirstDay(s, from)
    {
      SlotOfDay(s, day);
      if t > now && (s.weekday < 0 || Weekday(DayOf(t)) == s.weekday) {
        assert from <= day;
        return;
      }
      day := day + 1;
      t := (DayOf(t) + 1) * DAY + s.hour * HOUR + s.minute * MINUTE;
    }
    assert false;
  }

  /** No slot lies between the last and the next, and asking at the last slot
      itself, or anywhere before the next, gives the same two. */
  lemma SlotsMeet(s: Schedule, now: int, later: int)
    requires Valid(s) && LastSlot(s, now) <= later < NextSlot(s, now)
    ensures LastSlot(s, later) == LastSlot(s, now) && NextSlot(s, later) == NextSlot(s, now)
    ensures forall u :: IsSlot(s, u) ==> u <= LastSlot(s, now) || NextSlot(s, now) <= u
  {
    LastSlotIsLast(s, now);
    LastSlotIsLast(s, later);
    NextSlotIsNext(s, now);
    NextSlotIsNext(s, later);
  }
}
