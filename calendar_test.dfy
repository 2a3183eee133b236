/**
 * The older slot generator: it starts at 08:00 of the current day, whatever
 * the time is, and walks every day up to and including the day seven days
 * ahead. It uses the `slot_start < b_end and slot_end > b_start` overlap test
 * and keeps every free slot, with no cap.
 */
module CalendarTest {
  import opened Slots

  const DaysAhead: int := 7

  /**
   * The inner loop on a working day: from 08:00 the cursor moves half an
   * hour at a time while the slot still ends by 18:00, and every slot that
   * crosses no busy interval is appended. The cursor ends at 18:00.
   */
  method WalkDay(busy: seq<Interval>, day: int, free0: seq<Interval>) returns (free: seq<Interval>, current: int)
    ensures free == free0 + DayFree(Crossing, busy, day, DayEnd(day))
    ensures current == DayEnd(day)
  {
    free := free0;
    current := day * MinutesPerDay + WorkStart;
    var endTime := day * MinutesPerDay + WorkEnd;
    ghost var k: nat := 0;
    while current + SlotMinutes <= endTime
      invariant current == day * MinutesPerDay + WorkStart + k * SlotMinutes && k <= 20
      invariant free == free0 + DayFree(Crossing, busy, day, current)
    {
      DayFreeStep(Crossing, busy, day, current);
      var slotStart := current;
      var slotEnd := current + SlotMinutes;
      var overlapping := !IsFree(Crossing, busy, Interval(slotStart, slotEnd));
      if !overlapping {
        free := free + [Interval(slotStart, slotEnd)];
      }
      current := current + SlotMinutes;
      k := k + 1;
    }
  }

  /**
   * `get_free_slots` at minute `now`, given the busy intervals of the window.
   * A single cursor walks the slots of a working day and then jumps to 08:00
   * of the next day.
   */
  method GetFreeSlots(busy: seq<Interval>, now: int) returns (slots: seq<Interval>)
    ensures slots == FreeDays(Crossing, busy, DayOf(now), DayOf(now) + DaysAhead + 1)
    ensures ListsFreeSlots(Crossing, busy, DayOf(now), DayOf(now) + DaysAhead + 1, slots)
    ensures forall x :: IsCandidate(DayOf(now), DayOf(now) + DaysAhead + 1, x) && IsFree(Crossing, busy, x)
                        ==> x in slots
  {
    var endRange := now + DaysAhead * MinutesPerDay;
    var lo := DayOf(now);
    assert DayOf(endRange) == lo + DaysAhead;
    var free: seq<Interval> := [];
    var current := lo * MinutesPerDay + WorkStart;
    DayOfMinute(lo, WorkStart);
    while DayOf(current) <= DayOf(endRange)
      invariant lo <= DayOf(current) <= lo + DaysAhead + 1
      invariant current == DayOf(current) * MinutesPerDay + WorkStart
      invariant free == FreeDays(Crossing, busy, lo, DayOf(current))
      decreases lo + DaysAhead + 1 - DayOf(current)
    {
      var day := DayOf(current);
      if IsWeekday(Weekday(day)) {
        free, current := WalkDay(busy, day, free);
        DayOfMinute(day, WorkEnd);
      } else {
        DayOfMinute(day, WorkStart);
      }
      assert FreeDays(Crossing, busy, lo, day + 1)
             == FreeDays(Crossing, busy, lo, day) + WorkingDayFree(Crossing, busy, day);
      current := (DayOf(current) + 1) * MinutesPerDay + WorkStart;
      DayOfMinute(day + 1, WorkStart);
    }
    FreeDaysListsAll(Crossing, busy, lo, lo + DaysAhead + 1);
    slots := free;
  }

  /**
   * On a working day with an empty calendar the first slot offered is 08:00
   * of the current day, even when `now` is already past it.
   */
  lemma StartsAtEightToday(now: int)
    requires IsWorkingDay(DayOf(now))
    ensures |FreeDays(Crossing, [], DayOf(now), DayOf(now) + DaysAhead + 1)| > 0
    ensures FreeDays(Crossing, [], DayOf(now), DayOf(now) + DaysAhead + 1)[0] == SlotAt(DayOf(now), 0)
  {
    var d := DayOf(now);
    WorkingDayScenarios(Crossing, d);
    assert FreeDays(Crossing, [], d, d + 1) == WorkingDayFree(Crossing, [], d);
    FreeDaysPrefix(Crossing, [], d, d + 1, d + DaysAhead + 1);
  }
}
