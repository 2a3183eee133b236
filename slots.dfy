/**
 * The calendar arithmetic shared by both slot generators and by the booking
 * revalidation. A timestamp is a whole number of minutes since 1970-01-01 00:00
 * on the calendar's wall clock (Europe/Warsaw), already normalised; day number
 * d covers minutes [d * 1440, (d + 1) * 1440), and day 0 was a Thursday.
 *
 * The reference list of free slots is `FreeDays(rule, busy, lo, hi)`: the
 * working days lo .. hi-1 in order, and on each of them the 30-minute
 * boundaries 08:00, 08:30, ..., 17:30 that no busy interval conflicts with.
 */
module Slots {
  import opened Wrappers

  const MinutesPerDay: int := 1440
  const SlotMinutes: int := 30
  /** 08:00 and 18:00 as minutes of the day. */
  const WorkStart: int := 480
  const WorkEnd: int := 1080

  /** Python's `weekday()`: Monday is 0, Sunday is 6. */
  type DayOfWeek = x: int | 0 <= x < 7

  /** The weekday of day number d (1970-01-01 was a Thursday, weekday 3). */
  function Weekday(d: int): DayOfWeek
  {
    (d + 3) % 7
  }

  /** `weekday() < 5`: Monday to Friday. */
  predicate IsWeekday(wd: DayOfWeek)
  {
    wd < 5
  }

  predicate IsWorkingDay(d: int)
  {
    IsWeekday(Weekday(d))
  }

  /**
   * The pattern repeats weekly, and in the week of d (from its Monday,
   * d - Weekday(d)) the first five days are working days and the last two are not.
   */
  lemma WorkingDaysRepeatWeekly(d: int)
    ensures IsWorkingDay(d) <==> IsWorkingDay(d + 7)
    ensures Weekday(d - Weekday(d)) == 0
    ensures IsWorkingDay(d - Weekday(d)) && IsWorkingDay(d - Weekday(d) + 1) && IsWorkingDay(d - Weekday(d) + 2)
    ensures IsWorkingDay(d - Weekday(d) + 3) && IsWorkingDay(d - Weekday(d) + 4)
    ensures !IsWorkingDay(d - Weekday(d) + 5) && !IsWorkingDay(d - Weekday(d) + 6)
  {
  }

  datatype Interval = Interval(start: int, end: int)

  /** One entry of a free/busy answer; None stands for a timestamp that does not parse. */
  datatype RawBusy = RawBusy(start: Option<int>, end: Option<int>)

  /** The outcome of a free/busy query: its busy list, or an exception. */
  datatype FreeBusy = Ok(entries: seq<RawBusy>) | Fail

  /** 00:00 and 18:00 of day d. */
  function DayStart(d: int): int { d * 1440 }

  function DayEnd(d: int): int { d * 1440 + 1080 }

  /** The k-th half-hour boundary slot of day d (k = 0 is 08:00). */
  function SlotAt(d: int, k: nat): Interval
  {
    Interval(d * 1440 + 480 + k * 30, d * 1440 + 480 + k * 30 + 30)
  }

  function Max(a: int, b: int): int { if a < b then b else a }

  function Min(a: int, b: int): int { if a < b then a else b }

  /**
   * The two overlap tests of the source: the generator's
   * `max(s, b_start) < min(s + 30, b_end)`, and the one written
   * `slot_start < b_end and slot_end > b_start` (the older generator and the
   * booking revalidation, which writes its operands the other way round).
   */
  datatype OverlapRule = MaxMin | Crossing

  /** A `max < min` overlap is an overlap of two non-empty intervals, and a crossing too. */
  predicate Conflicts(rule: OverlapRule, slot: Interval, b: Interval)
  {
    match rule
    case MaxMin => Max(slot.start, b.start) < Min(slot.end, b.end)
    case Crossing => slot.start < b.end && slot.end > b.start
  }

  predicate IsFree(rule: OverlapRule, busy: seq<Interval>, slot: Interval)
  {
    forall i :: 0 <= i < |busy| ==> !Conflicts(rule, slot, busy[i])
  }

  /** A slot is free of a list with one more interval in front iff it is free of both. */
  lemma IsFreeCons(rule: OverlapRule, b: Interval, rest: seq<Interval>, slot: Interval)
    ensures IsFree(rule, [b] + rest, slot) <==> !Conflicts(rule, slot, b) && IsFree(rule, rest, slot)
  {
    var s := [b] + rest;
    assert s[0] == b;
    assert forall i :: 0 <= i < |rest| ==> s[i + 1] == rest[i];
    if !Conflicts(rule, slot, b) && IsFree(rule, rest, slot) {
      forall i | 0 <= i < |s| ensures !Conflicts(rule, slot, s[i]) {
        if i > 0 {
          assert s[i] == rest[i - 1];
        }
      }
    }
  }

  /** For a non-empty slot and a non-empty busy interval the two rules agree. */
  lemma RulesAgree(slot: Interval, b: Interval)
    requires slot.start < slot.end && b.start < b.end
    ensures Conflicts(MaxMin, slot, b) <==> Conflicts(Crossing, slot, b)
  {
  }

  /** Touching endpoints are not a conflict under either rule. */
  lemma TouchingIsNoConflict(rule: OverlapRule, slot: Interval, b: Interval)
    requires b.end <= slot.start || slot.end <= b.start
    ensures !Conflicts(rule, slot, b)
  {
  }

  /**
   * The rules differ only on a busy interval that is empty or inverted (its
   * end not after its start): one lying strictly inside a slot is ignored by
   * `MaxMin` and reported by `Crossing`.
   */
  lemma DegenerateBusyIntervalSplitsRules(slot: Interval, b: Interval)
    requires slot.start < b.end <= b.start < slot.end
    ensures !Conflicts(MaxMin, slot, b)
    ensures Conflicts(Crossing, slot, b)
  {
  }

  function DayOf(t: int): int
  {
    t / MinutesPerDay
  }

  /** x is one of the 20 boundary slots of day d: 30 minutes, inside 08:00-18:00, on a boundary. */
  ghost predicate OnDay(d: int, x: Interval)
  {
    && x.end == x.start + 30
    && d * 1440 + 480 <= x.start
    && x.end <= d * 1440 + 1080
    && (x.start - d * 1440 - 480) % 30 == 0
  }

  /** x is a slot the generator walks over when it scans days lo .. hi-1. */
  ghost predicate IsCandidate(lo: int, hi: int, x: Interval)
  {
    && lo <= DayOf(x.start) < hi
    && IsWorkingDay(DayOf(x.start))
    && OnDay(DayOf(x.start), x)
  }

  predicate StrictlyIncreasing(s: seq<Interval>)
  {
    forall i, j :: 0 <= i < j < |s| ==> s[i].start < s[j].start
  }

  /** Every element of p starts before every element of q. */
  ghost predicate AllBefore(p: seq<Interval>, q: seq<Interval>)
  {
    forall x, y :: x in p && y in q ==> x.start < y.start
  }

  /** The free boundary slots of day d that end by minute `end`, in order. */
  function DayFree(rule: OverlapRule, busy: seq<Interval>, d: int, end: int): (r: seq<Interval>)
    ensures forall i :: 0 <= i < |r| ==> IsFree(rule, busy, r[i])
    decreases end - d * 1440
  {
    if end - 30 < d * 1440 + 480 then []
    else
      DayFree(rule, busy, d, end - 30)
      + (if IsFree(rule, busy, Interval(end - 30, end)) then [Interval(end - 30, end)] else [])
  }

  /** The free boundary slots of day d, none when d is a Saturday or a Sunday. */
  function WorkingDayFree(rule: OverlapRule, busy: seq<Interval>, d: int): (r: seq<Interval>)
    ensures |r| > 0 ==> IsWorkingDay(d)
    ensures forall i :: 0 <= i < |r| ==> IsFree(rule, busy, r[i])
  {
    if IsWorkingDay(d) then DayFree(rule, busy, d, DayEnd(d)) else []
  }

  /** The free boundary slots of the working days among days lo .. hi-1, in order. */
  function FreeDays(rule: OverlapRule, busy: seq<Interval>, lo: int, hi: int): (r: seq<Interval>)
    ensures forall i :: 0 <= i < |r| ==> IsFree(rule, busy, r[i])
    decreases hi - lo
  {
    if hi <= lo then [] else FreeDays(rule, busy, lo, hi - 1) + WorkingDayFree(rule, busy, hi - 1)
  }

  /** The first m elements of s, or all of s when it is shorter: Python's `s[:m]`. */
  function Take<T>(s: seq<T>, m: nat): (r: seq<T>)
    ensures r <= s
    ensures |r| == if |s| <= m then |s| else m
  {
    if |s| <= m then s else s[..m]
  }

  /** A minute t of day d, counted from its midnight, lies on day d. */
  lemma DayOfMinute(d: int, t: int)
    requires 0 <= t < 1440
    ensures DayOf(d * 1440 + t) == d
  {
  }

  lemma OnDayDay(d: int, x: Interval)
    requires OnDay(d, x)
    ensures DayOf(x.start) == d
  {
  }

  /** A boundary of day d: 08:00 plus a whole number of half hours. */
  ghost predicate OnBoundary(d: int, t: int)
  {
    d * 1440 + 480 <= t && (t - d * 1440 - 480) % 30 == 0
  }

  /** Exactly the free boundary slots of day d that end by `end` are listed by DayFree. */
  lemma {:induction false} DayFreeMembers(rule: OverlapRule, busy: seq<Interval>, d: int, end: int, x: Interval)
    requires OnBoundary(d, end) && end <= DayEnd(d)
    ensures x in DayFree(rule, busy, d, end) <==> OnDay(d, x) && x.end <= end && IsFree(rule, busy, x)
    decreases end - d * 1440
  {
    if end - 30 >= d * 1440 + 480 {
      DayFreeMembers(rule, busy, d, end - 30, x);
      if OnDay(d, x) && x.end <= end && x.end > end - 30 {
        assert x == Interval(end - 30, end);
      }
    }
  }

  lemma {:induction false} DayFreeSorted(rule: OverlapRule, busy: seq<Interval>, d: int, end: int)
    requires OnBoundary(d, end) && end <= DayEnd(d)
    ensures StrictlyIncreasing(DayFree(rule, busy, d, end))
    decreases end - d * 1440
  {
    if end - 30 >= d * 1440 + 480 {
      DayFreeSorted(rule, busy, d, end - 30);
      var p := DayFree(rule, busy, d, end - 30);
      var q := [Interval(end - 30, end)];
      forall x, y | x in p && y in q ensures x.start < y.start {
        DayFreeMembers(rule, busy, d, end - 30, x);
      }
      SortedConcat(p, q);
    }
  }

  lemma WorkingDayFreeMembers(rule: OverlapRule, busy: seq<Interval>, d: int, x: Interval)
    ensures x in WorkingDayFree(rule, busy, d) <==> IsWorkingDay(d) && OnDay(d, x) && IsFree(rule, busy, x)
  {
    DayFreeMembers(rule, busy, d, DayEnd(d), x);
  }

  /** A candidate of days lo .. hi-1 lies on days lo .. hi-2 or on day hi-1. */
  lemma CandidateSplit(lo: int, hi: int, x: Interval)
    requires lo < hi
    ensures IsCandidate(lo, hi, x) <==>
              IsCandidate(lo, hi - 1, x) || (IsWorkingDay(hi - 1) && OnDay(hi - 1, x))
  {
    if OnDay(hi - 1, x) {
      OnDayDay(hi - 1, x);
    }
  }

  /** Every candidate of days lo .. hi-1 starts before day hi. */
  lemma CandidateEndsBefore(lo: int, hi: int, x: Interval)
    requires IsCandidate(lo, hi, x)
    ensures x.start < DayStart(hi)
  {
    assert DayOf(x.start) <= hi - 1;
  }

  /** Exactly the free candidates of the window are listed by FreeDays. */
  lemma {:induction false} FreeDaysMembers(rule: OverlapRule, busy: seq<Interval>, lo: int, hi: int, x: Interval)
    ensures x in FreeDays(rule, busy, lo, hi) <==> IsCandidate(lo, hi, x) && IsFree(rule, busy, x)
    decreases hi - lo
  {
    if lo < hi {
      FreeDaysMembers(rule, busy, lo, hi - 1, x);
      WorkingDayFreeMembers(rule, busy, hi - 1, x);
      CandidateSplit(lo, hi, x);
      assert x in FreeDays(rule, busy, lo, hi) <==>
               x in FreeDays(rule, busy, lo, hi - 1) || x in WorkingDayFree(rule, busy, hi - 1);
    }
  }

  lemma {:induction false} FreeDaysSorted(rule: OverlapRule, busy: seq<Interval>, lo: int, hi: int)
    ensures StrictlyIncreasing(FreeDays(rule, busy, lo, hi))
    decreases hi - lo
  {
    if lo < hi {
      FreeDaysSorted(rule, busy, lo, hi - 1);
      DayFreeSorted(rule, busy, hi - 1, DayEnd(hi - 1));
      EarlierDaysFirst(rule, busy, lo, hi - 1);
      SortedConcat(FreeDays(rule, busy, lo, hi - 1), WorkingDayFree(rule, busy, hi - 1));
    }
  }

  /** Every slot listed for days lo .. d-1 starts before every slot listed for day d. */
  lemma EarlierDaysFirst(rule: OverlapRule, busy: seq<Interval>, lo: int, d: int)
    ensures AllBefore(FreeDays(rule, busy, lo, d), WorkingDayFree(rule, busy, d))
  {
    forall x, y | x in FreeDays(rule, busy, lo, d) && y in WorkingDayFree(rule, busy, d)
      ensures x.start < y.start
    {
      FreeDaysMembers(rule, busy, lo, d, x);
      CandidateEndsBefore(lo, d, x);
      WorkingDayFreeMembers(rule, busy, d, y);
    }
  }

  lemma SortedConcat(p: seq<Interval>, q: seq<Interval>)
    requires StrictlyIncreasing(p) && StrictlyIncreasing(q) && AllBefore(p, q)
    ensures StrictlyIncreasing(p + q)
  {
    forall i, j | 0 <= i < j < |p + q| ensures (p + q)[i].start < (p + q)[j].start {
      if i < |p| && j >= |p| {
        assert (p + q)[i] in p && (p + q)[j] in q;
      }
    }
  }

  /** Scanning one more half hour of a day appends that slot when it is free. */
  lemma DayFreeStep(rule: OverlapRule, busy: seq<Interval>, d: int, end: int)
    requires d * 1440 + 480 <= end
    ensures DayFree(rule, busy, d, end + 30)
            == DayFree(rule, busy, d, end)
               + (if IsFree(rule, busy, Interval(end, end + 30)) then [Interval(end, end + 30)] else [])
  {
  }

  /** Scanning j more half hours of a day only appends to the list. */
  lemma {:induction false} DayFreePrefix(rule: OverlapRule, busy: seq<Interval>, d: int, end: int, j: nat)
    ensures DayFree(rule, busy, d, end) <= DayFree(rule, busy, d, end + j * 30)
    decreases j
  {
    if j > 0 {
      DayFreePrefix(rule, busy, d, end, j - 1);
      assert end + j * 30 - 30 == end + (j - 1) * 30;
    }
  }

  lemma {:induction false} FreeDaysPrefix(rule: OverlapRule, busy: seq<Interval>, lo: int, m: int, n: int)
    requires m <= n
    ensures FreeDays(rule, busy, lo, m) <= FreeDays(rule, busy, lo, n)
    decreases n - m
  {
    if m < n {
      FreeDaysPrefix(rule, busy, lo, m, n - 1);
    }
  }

  /** Cutting a prefix that is already long enough gives the same first m elements. */
  lemma TakeOfPrefix<T>(p: seq<T>, s: seq<T>, m: nat)
    requires p <= s && |p| >= m
    ensures Take(p, m) == Take(s, m)
  {
  }

  /** The listed slots are free candidates of the window in strictly increasing order. */
  ghost predicate ListsFreeSlots(rule: OverlapRule, busy: seq<Interval>, lo: int, hi: int, r: seq<Interval>)
  {
    && (forall i :: 0 <= i < |r| ==> IsCandidate(lo, hi, r[i]) && IsFree(rule, busy, r[i]))
    && StrictlyIncreasing(r)
  }

  /**
   * First-m completeness: at most m slots, and no free candidate is missing
   * that starts no later than the last one listed (none at all when fewer
   * than m are listed).
   */
  ghost predicate FirstFreeSlots(rule: OverlapRule, busy: seq<Interval>, lo: int, hi: int, m: nat, r: seq<Interval>)
  {
    && ListsFreeSlots(rule, busy, lo, hi, r)
    && |r| <= m
    && forall x :: IsCandidate(lo, hi, x) && IsFree(rule, busy, x)
                   && (|r| < m || (|r| > 0 && x.start <= r[|r| - 1].start))
         ==> x in r
  }

  /** FreeDays lists every free candidate of the window, and only those, in order. */
  lemma FreeDaysListsAll(rule: OverlapRule, busy: seq<Interval>, lo: int, hi: int)
    ensures ListsFreeSlots(rule, busy, lo, hi, FreeDays(rule, busy, lo, hi))
    ensures forall x :: IsCandidate(lo, hi, x) && IsFree(rule, busy, x) ==> x in FreeDays(rule, busy, lo, hi)
  {
    var r := FreeDays(rule, busy, lo, hi);
    FreeDaysSorted(rule, busy, lo, hi);
    forall i | 0 <= i < |r| ensures IsCandidate(lo, hi, r[i]) && IsFree(rule, busy, r[i]) {
      FreeDaysMembers(rule, busy, lo, hi, r[i]);
    }
    forall x | IsCandidate(lo, hi, x) && IsFree(rule, busy, x) ensures x in r {
      FreeDaysMembers(rule, busy, lo, hi, x);
    }
  }

  /** The first m entries of FreeDays are exactly the first m free slots of the window. */
  lemma TakeFreeDaysIsFirst(rule: OverlapRule, busy: seq<Interval>, lo: int, hi: int, m: nat)
    ensures FirstFreeSlots(rule, busy, lo, hi, m, Take(FreeDays(rule, busy, lo, hi), m))
  {
    var s := FreeDays(rule, busy, lo, hi);
    var r := Take(s, m);
    FreeDaysListsAll(rule, busy, lo, hi);
    assert r <= s;
    forall i | 0 <= i < |r| ensures IsCandidate(lo, hi, r[i]) && IsFree(rule, busy, r[i]) {
      assert r[i] == s[i];
    }
    forall x | IsCandidate(lo, hi, x) && IsFree(rule, busy, x)
                 && (|r| < m || (|r| > 0 && x.start <= r[|r| - 1].start))
      ensures x in r
    {
      assert x in s;
      if |r| == m && |s| > m {
        var j :| 0 <= j < |s| && s[j] == x;
        assert j < m;
        assert r[j] == x;
      }
    }
  }

  /** With no busy interval every boundary slot of the day is free: 08:00, 08:30, ..., 17:30. */
  lemma {:induction false} DayFreeNoBusy(rule: OverlapRule, d: int, k: nat)
    ensures |DayFree(rule, [], d, SlotAt(d, k).start)| == k
    ensures forall i :: 0 <= i < k ==> DayFree(rule, [], d, SlotAt(d, k).start)[i] == SlotAt(d, i)
    decreases k
  {
    if k > 0 {
      assert SlotAt(d, k).start - 30 == SlotAt(d, k - 1).start;
      DayFreeNoBusy(rule, d, k - 1);
    }
  }

  /** Two boundary slots of one day conflict, under either rule, only when they are the same slot. */
  lemma SlotsOfDayConflict(rule: OverlapRule, d: int, i: nat, j: nat)
    ensures Conflicts(rule, SlotAt(d, i), SlotAt(d, j)) <==> i == j
  {
  }

  /**
   * A single busy interval that is exactly boundary slot j of day d removes
   * that slot and no other: its neighbours only touch it.
   */
  lemma {:induction false} DayFreeOneBusySlot(rule: OverlapRule, d: int, j: nat, k: nat)
    requires j < k
    ensures |DayFree(rule, [SlotAt(d, j)], d, SlotAt(d, k).start)| == k - 1
    ensures forall i :: 0 <= i < k - 1 ==>
              DayFree(rule, [SlotAt(d, j)], d, SlotAt(d, k).start)[i] == SlotAt(d, if i < j then i else i + 1)
    decreases k
  {
    var busy := [SlotAt(d, j)];
    assert SlotAt(d, k).start - 30 == SlotAt(d, k - 1).start;
    assert Interval(SlotAt(d, k).start - 30, SlotAt(d, k).start) == SlotAt(d, k - 1);
    SlotsOfDayConflict(rule, d, k - 1, j);
    if k - 1 == j {
      assert Conflicts(rule, SlotAt(d, k - 1), busy[0]);
      DayFreeBefore(rule, d, j, j);
    } else {
      assert IsFree(rule, busy, SlotAt(d, k - 1)) by {
        assert !Conflicts(rule, SlotAt(d, k - 1), busy[0]);
      }
      DayFreeOneBusySlot(rule, d, j, k - 1);
    }
  }

  /** Before the busy slot j every boundary slot is free. */
  lemma {:induction false} DayFreeBefore(rule: OverlapRule, d: int, j: nat, k: nat)
    requires k <= j
    ensures |DayFree(rule, [SlotAt(d, j)], d, SlotAt(d, k).start)| == k
    ensures forall i :: 0 <= i < k ==> DayFree(rule, [SlotAt(d, j)], d, SlotAt(d, k).start)[i] == SlotAt(d, i)
    decreases k
  {
    if k > 0 {
      var busy := [SlotAt(d, j)];
      assert SlotAt(d, k).start - 30 == SlotAt(d, k - 1).start;
      assert Interval(SlotAt(d, k).start - 30, SlotAt(d, k).start) == SlotAt(d, k - 1);
      SlotsOfDayConflict(rule, d, k - 1, j);
      assert IsFree(rule, busy, SlotAt(d, k - 1)) by {
        assert !Conflicts(rule, SlotAt(d, k - 1), busy[0]);
      }
      DayFreeBefore(rule, d, j, k - 1);
    }
  }

  /**
   * A working day with no busy interval yields exactly the 20 half-hour slots
   * 08:00 .. 17:30; with one busy interval that is exactly its 09:00 slot it
   * yields the other 19, in order.
   */
  lemma WorkingDayScenarios(rule: OverlapRule, d: int)
    requires IsWorkingDay(d)
    ensures |WorkingDayFree(rule, [], d)| == 20
    ensures forall i :: 0 <= i < 20 ==> WorkingDayFree(rule, [], d)[i] == SlotAt(d, i)
    ensures |WorkingDayFree(rule, [SlotAt(d, 2)], d)| == 19
    ensures forall i :: 0 <= i < 19 ==>
              WorkingDayFree(rule, [SlotAt(d, 2)], d)[i] == SlotAt(d, if i < 2 then i else i + 1)
  {
    assert DayEnd(d) == SlotAt(d, 20).start;
    DayFreeNoBusy(rule, d, 20);
    DayFreeOneBusySlot(rule, d, 2, 20);
  }
}
