/**
 * The bot's free-slot generator: one free/busy query over the fourteen days
 * that start tomorrow at 00:00, the busy list with unparsable entries
 * skipped, and then a walk over the working days and their half-hour
 * boundaries from 08:00 to 18:00 that stops at the tenth free slot.
 */
module FreeSlots {
  import opened Wrappers
  import opened Slots

  /** The window is tomorrow plus thirteen more days; at most ten slots are offered. */
  const DaysAhead: int := 14
  const MaxSlots: nat := 10

  /** The busy interval an entry contributes: none when either timestamp does not parse. */
  function ParseEntry(b: RawBusy): seq<Interval>
  {
    if b.start.Some? && b.end.Some? then [Interval(b.start.value, b.end.value)] else []
  }

  /** The busy intervals of a free/busy answer, in the answer's order. */
  function ParseBusy(raw: seq<RawBusy>): seq<Interval>
    decreases |raw|
  {
    if |raw| == 0 then [] else ParseBusy(raw[..|raw| - 1]) + ParseEntry(raw[|raw| - 1])
  }

  /** An interval is parsed from the answer exactly when an entry with both timestamps readable gives it. */
  lemma {:induction false} ParseBusyMembers(raw: seq<RawBusy>, x: Interval)
    ensures x in ParseBusy(raw) <==> RawBusy(Some(x.start), Some(x.end)) in raw
    decreases |raw|
  {
    if |raw| > 0 {
      var p := raw[..|raw| - 1];
      ParseBusyMembers(p, x);
      assert raw == p + [raw[|raw| - 1]];
    }
  }

  /** An unparsable entry is skipped: it adds no interval and removes none. */
  lemma SkipUnparsable(raw: seq<RawBusy>, b: RawBusy)
    requires b.start.None? || b.end.None?
    ensures ParseBusy(raw + [b]) == ParseBusy(raw)
  {
    assert (raw + [b])[..|raw + [b]| - 1] == raw;
  }

  /** Every entry yields at most one interval. */
  lemma {:induction false} ParseBusyLength(raw: seq<RawBusy>)
    ensures |ParseBusy(raw)| <= |raw|
    ensures |ParseBusy(raw)| == |raw| <==> forall i :: 0 <= i < |raw| ==> raw[i].start.Some? && raw[i].end.Some?
    decreases |raw|
  {
    if |raw| > 0 {
      var p := raw[..|raw| - 1];
      ParseBusyLength(p);
      if forall i :: 0 <= i < |p| ==> p[i].start.Some? && p[i].end.Some? {
        assert forall i :: 0 <= i < |raw| - 1 ==> raw[i] == p[i];
      } else {
        var i :| 0 <= i < |p| && !(p[i].start.Some? && p[i].end.Some?);
        assert raw[i] == p[i];
      }
    }
  }

  /** A scan stopped at the m-th slot has gathered the first m of the longer list. */
  lemma TakeStopped<T>(before: seq<T>, part: seq<T>, whole: seq<T>, m: nat)
    requires part <= whole && |before| + |part| == m
    ensures Take(before + whole, m) == before + part
  {
    assert before + part <= before + whole;
  }

  /** A scan of a day stopped at the tenth slot holds the first ten of the whole day's list. */
  lemma ScanStopped(busy: seq<Interval>, day: int, free0: seq<Interval>, scanned: int, j: nat)
    requires scanned + j * 30 == DayEnd(day)
    requires |free0 + DayFree(MaxMin, busy, day, scanned)| == MaxSlots
    ensures free0 + DayFree(MaxMin, busy, day, scanned) == Take(free0 + DayFree(MaxMin, busy, day, DayEnd(day)), MaxSlots)
  {
    DayFreePrefix(MaxMin, busy, day, scanned, j);
    TakeStopped(free0, DayFree(MaxMin, busy, day, scanned), DayFree(MaxMin, busy, day, DayEnd(day)), MaxSlots);
  }

  /** The parsing loop of `get_free_slots`: each entry that parses is kept, the rest are skipped. */
  method ParseIntervals(raw: seq<RawBusy>) returns (busy: seq<Interval>)
    ensures busy == ParseBusy(raw)
  {
    busy := [];
    for i := 0 to |raw|
      invariant busy == ParseBusy(raw[..i])
    {
      assert raw[..i + 1][..i] == raw[..i];
      if raw[i].start.Some? && raw[i].end.Some? {
        busy := busy + [Interval(raw[i].start.value, raw[i].end.value)];
      }
    }
    assert raw[..|raw|] == raw;
  }

  /**
   * The inner loop of `get_free_slots` on one working day: it walks the
   * half-hour boundaries 08:00 .. 17:30, appends every free slot, and stops as
   * soon as the list holds ten.
   */
  method ScanDay(busy: seq<Interval>, day: int, free0: seq<Interval>) returns (free: seq<Interval>)
    requires |free0| < MaxSlots
    ensures free == Take(free0 + DayFree(MaxMin, busy, day, DayEnd(day)), MaxSlots)
  {
    free := free0;
    var slotStart := day * MinutesPerDay + WorkStart;
    var slotEnd := day * MinutesPerDay + WorkEnd;
    ghost var k: nat := 0;
    ghost var scanned := slotStart;
    while slotStart + SlotMinutes <= slotEnd
      invariant slotStart == day * MinutesPerDay + WorkStart + k * SlotMinutes && k <= 20
      invariant scanned == slotStart && slotEnd == DayEnd(day)
      invariant free == free0 + DayFree(MaxMin, busy, day, scanned)
      invariant |free| < MaxSlots
    {
      DayFreeStep(MaxMin, busy, day, slotStart);
      if IsFree(MaxMin, busy, Interval(slotStart, slotStart + SlotMinutes)) {
        free := free + [Interval(slotStart, slotStart + SlotMinutes)];
        if |free| >= MaxSlots {
          scanned := slotStart + SlotMinutes;
          k := k + 1;
          break;
        }
      }
      slotStart := slotStart + SlotMinutes;
      k := k + 1;
      scanned := slotStart;
    }
    if |free| >= MaxSlots {
      ScanStopped(busy, day, free0, scanned, 20 - k);
    } else {
      assert k == 20;
    }
  }

  /**
   * `get_free_slots` for the day number `today` of the Warsaw clock. A failed
   * query gives no slots; otherwise the first ten free slots of the window.
   */
  method GetFreeSlots(query: FreeBusy, today: int) returns (slots: seq<Interval>)
    ensures query.Fail? ==> slots == []
    ensures query.Ok? ==>
              slots == Take(FreeDays(MaxMin, ParseBusy(query.entries), today + 1, today + 1 + DaysAhead), MaxSlots)
    ensures query.Ok? ==>
              FirstFreeSlots(MaxMin, ParseBusy(query.entries), today + 1, today + 1 + DaysAhead, MaxSlots, slots)
  {
    if query.Fail? {
      return [];
    }
    var busy := ParseIntervals(query.entries);
    var lo := today + 1;
    var hi := lo + DaysAhead;
    var free: seq<Interval> := [];
    var current := lo;
    while current < hi && |free| < MaxSlots
      invariant lo <= current <= hi
      invariant free == Take(FreeDays(MaxMin, busy, lo, current), MaxSlots)
    {
      ghost var before := FreeDays(MaxMin, busy, lo, current);
      assert free == before;
      if IsWeekday(Weekday(current)) {
        free := ScanDay(busy, current, free);
      }
      assert FreeDays(MaxMin, busy, lo, current + 1) == before + WorkingDayFree(MaxMin, busy, current);
      current := current + 1;
    }
    if current < hi {
      FreeDaysPrefix(MaxMin, busy, lo, current, hi);
      TakeOfPrefix(FreeDays(MaxMin, busy, lo, current), FreeDays(MaxMin, busy, lo, hi), MaxSlots);
    }
    TakeFreeDaysIsFirst(MaxMin, busy, lo, hi, MaxSlots);
    slots := free;
  }
}
