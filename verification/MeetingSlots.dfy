// The slot search of agents/sdr/tools.py: an hourly scan over the week after now.
// An hour is a number of wall-clock hours since some Monday at midnight.

module MeetingSlots {

  /** A busy period of the calendar, in minutes since the same Monday. */
  datatype Period = Period(start: int, end: int)

  const WEEK: int := 168

  predicate Weekday(h: int) { (h / 24) % 7 < 5 }

  predicate OfficeHour(h: int) { 9 <= h % 24 <= 17 }

  /** A weekday hour from 9 to 17. */
  predicate Working(h: int) { Weekday(h) && OfficeHour(h) }

  predicate Eligible(h: int, busy: set<int>) { Working(h) && h !in busy }

  /** A busy period blocks the hour that it starts in. */
  function BusyStarts(periods: seq<Period>): set<int> {
    set p | p in periods :: p.start / 60
  }

  /** The first full hour after now. */
  function SearchStart(nowMinutes: int): int { nowMinutes / 60 + 1 }

  /** All eligible hours from lo up to but not including hi, in order. */
  function EligibleHours(lo: int, hi: int, busy: set<int>): seq<int>
    decreases hi - lo
  {
    if hi <= lo then []
    else EligibleHours(lo, hi - 1, busy) + (if Eligible(hi - 1, busy) then [hi - 1] else [])
  }

  function FirstOf(hours: seq<int>, slots: int): seq<int> {
    if slots <= 0 then [] else if slots <= |hours| then hours[..slots] else hours
  }

  lemma {:induction false} LaterHoursFollow(lo: int, mid: int, hi: int, busy: set<int>)
    requires lo <= mid <= hi
    ensures EligibleHours(lo, mid, busy) <= EligibleHours(lo, hi, busy)
    decreases hi - mid
  {
    if mid < hi {
      LaterHoursFollow(lo, mid, hi - 1, busy);
    }
  }

  /** The scan stops at the requested number of slots or at the end of the week, with the earliest eligible hours. */
  method ScheduleMeeting(nowMinutes: int, slots: int, periods: seq<Period>) returns (generated: seq<int>)
    ensures var start := SearchStart(nowMinutes);
      generated == FirstOf(EligibleHours(start, start + WEEK, BusyStarts(periods)), slots)
  {
    var searchStart := nowMinutes / 60 + 1;
    var searchEnd := searchStart + WEEK;
    var busyStarts := BusyStarts(periods);
    generated := [];
    var cursor := searchStart;
    while |generated| < slots && cursor < searchEnd
      invariant searchStart <= cursor <= searchEnd
      invariant generated == EligibleHours(searchStart, cursor, busyStarts)
      invariant |generated| <= slots || generated == []
    {
      if Weekday(cursor) && 9 <= cursor % 24 <= 17 && cursor !in busyStarts {
        generated := generated + [cursor];
      }
      cursor := cursor + 1;
    }
    LaterHoursFollow(searchStart, cursor, searchEnd, busyStarts);
  }

  // --- what the hours are ----------------------------------------------------------------

  /** In strictly increasing order, the eligible hours of the span and no others. */
  lemma {:induction false} EligibleHoursAreExact(lo: int, hi: int, busy: set<int>)
    ensures forall i, j :: 0 <= i < j < |EligibleHours(lo, hi, busy)| ==>
      EligibleHours(lo, hi, busy)[i] < EligibleHours(lo, hi, busy)[j]
    ensures forall h :: h in EligibleHours(lo, hi, busy) <==> lo <= h < hi && Eligible(h, busy)
    decreases hi - lo
  {
    if lo < hi {
      EligibleHoursAreExact(lo, hi - 1, busy);
      var init := EligibleHours(lo, hi - 1, busy);
      assert forall i :: 0 <= i < |init| ==> init[i] in init;
    }
  }

  /** The hour after the last slot, or the first hour of the search when there is no slot. */
  function ScannedTo(start: int, generated: seq<int>): int {
    if generated == [] then start else generated[|generated| - 1] + 1
  }

  /** The slots returned are the eligible hours up to the last of them. */
  lemma SlotsAreSpan(start: int, end: int, busy: set<int>, slots: int, generated: seq<int>)
    requires start <= end && generated == FirstOf(EligibleHours(start, end, busy), slots)
    ensures start <= ScannedTo(start, generated) <= end
    ensures generated == EligibleHours(start, ScannedTo(start, generated), busy)
  {
    var all := EligibleHours(start, end, busy);
    EligibleHoursAreExact(start, end, busy);
    if generated != [] {
      var last := generated[|generated| - 1];
      assert last in all;
      LaterHoursFollow(start, last + 1, end, busy);
      var span := EligibleHours(start, last + 1, busy);
      assert span[|span| - 1] == last;
      assert all[|span| - 1] == last == all[|generated| - 1];
    }
  }

  /** An hour of the week after now: Monday to Friday, from 9 to 17 o'clock, and no period starts in it. */
  ghost predicate Open(nowMinutes: int, periods: seq<Period>, h: int) {
    && nowMinutes < 60 * h && 60 * (h - 168) <= nowMinutes
    && (h / 24) % 7 in {0, 1, 2, 3, 4} && h % 24 in {9, 10, 11, 12, 13, 14, 15, 16, 17}
    && forall p | p in periods :: p.start < 60 * h || 60 * h + 60 <= p.start
  }

  lemma OpenExactly(nowMinutes: int, periods: seq<Period>, h: int)
    ensures Open(nowMinutes, periods, h)
       <==> var start := SearchStart(nowMinutes);
            start <= h < start + WEEK && Eligible(h, BusyStarts(periods))
  {
    forall p | p in periods ensures p.start / 60 == h <==> 60 * h <= p.start < 60 * h + 60 {}
  }

  /** What a scan returns are the open hours, the earliest first, as many as asked for or all there are. */
  lemma SlotsAre(nowMinutes: int, slots: int, periods: seq<Period>, generated: seq<int>)
    requires var start := SearchStart(nowMinutes);
      generated == FirstOf(EligibleHours(start, start + WEEK, BusyStarts(periods)), slots)
    ensures forall i, j :: 0 <= i < j < |generated| ==> generated[i] < generated[j]
    ensures forall h :: h in generated ==> Open(nowMinutes, periods, h)
    ensures |generated| <= if slots < 0 then 0 else slots
    ensures forall h | Open(nowMinutes, periods, h) && h !in generated ::
      |generated| >= slots && forall g | g in generated :: g < h
  {
    var start := SearchStart(nowMinutes);
    var all := EligibleHours(start, start + WEEK, BusyStarts(periods));
    EligibleHoursAreExact(start, start + WEEK, BusyStarts(periods));
    forall h ensures Open(nowMinutes, periods, h) <==> h in all {
      OpenExactly(nowMinutes, periods, h);
    }
    forall h | Open(nowMinutes, periods, h) && h !in generated
      ensures |generated| >= slots && forall g | g in generated :: g < h
    {
      LeftOutIsLater(all, slots, h);
    }
  }

  lemma LeftOutIsLater(all: seq<int>, slots: int, h: int)
    requires forall i, j :: 0 <= i < j < |all| ==> all[i] < all[j]
    requires h in all && h !in FirstOf(all, slots)
    ensures |FirstOf(all, slots)| >= slots && forall g | g in FirstOf(all, slots) :: g < h
  {
    var k :| 0 <= k < |all| && all[k] == h;
    var first := FirstOf(all, slots);
    assert k >= |first|;
  }

  /** What a scan returns is in order, lies after now, and leaves out no eligible hour before its last. */
  lemma SlotsAreTheEarliest(nowMinutes: int, slots: int, periods: seq<Period>, generated: seq<int>)
    requires var start := SearchStart(nowMinutes);
      generated == FirstOf(EligibleHours(start, start + WEEK, BusyStarts(periods)), slots)
    ensures forall i, j :: 0 <= i < j < |generated| ==> generated[i] < generated[j]
    ensures forall h :: h in generated ==>
      nowMinutes < 60 * h && Working(h) && forall p :: p in periods ==> !(60 * h <= p.start < 60 * h + 60)
    ensures forall h, g :: g in generated && SearchStart(nowMinutes) <= h < g && Eligible(h, BusyStarts(periods))
              ==> h in generated
  {
    var start, busy := SearchStart(nowMinutes), BusyStarts(periods);
    SlotsAreSpan(start, start + WEEK, busy, slots, generated);
    EligibleHoursAreExact(start, ScannedTo(start, generated), busy);
    forall h | h in generated
      ensures nowMinutes < 60 * h && Working(h) && forall p :: p in periods ==> !(60 * h <= p.start < 60 * h + 60)
    {
      HourOf(nowMinutes, h);
      forall p | p in periods ensures !(60 * h <= p.start < 60 * h + 60) {
        assert p.start / 60 in busy;
        HourOf(p.start, h);
      }
    }
  }

  // --- meetings that overlap a slot ---------------------------------------------------------

  /** The half hour offered at h meets the period. */
  predicate Overlaps(h: int, p: Period) {
    p.start < 60 * h + 30 && 60 * h < p.end
  }

  /** The period starts in an earlier hour and lasts into h. */
  predicate LastsInto(p: Period, h: int) {
    p.start / 60 < h && 60 * h < p.end
  }

  /** A slot at an eligible hour overlaps a period exactly if the period lasts into that hour. */
  lemma EligibleOverlapsExactly(h: int, periods: seq<Period>, p: Period)
    requires p in periods && Eligible(h, BusyStarts(periods))
    ensures Overlaps(h, p) <==> LastsInto(p, h)
  {
    assert p.start / 60 in BusyStarts(periods);
    HourOf(p.start, h);
  }

  lemma HourOf(minute: int, h: int)
    ensures minute / 60 < h <==> minute < 60 * h
    ensures minute / 60 == h <==> 60 * h <= minute < 60 * h + 60
  {
  }

  ghost predicate NoneOverlaps(lo: int, hi: int, periods: seq<Period>) {
    forall h, p :: h in EligibleHours(lo, hi, BusyStarts(periods)) && p in periods ==> !Overlaps(h, p)
  }

  /**
   * The eligible hours of a span avoid every meeting exactly if, in every working hour of it that some
   * period lasts into, some period starts.
   */
  lemma SlotsAvoidMeetingsExactly(lo: int, hi: int, periods: seq<Period>)
    ensures NoneOverlaps(lo, hi, periods)
       <==> forall h, p :: lo <= h < hi && Working(h) && p in periods && LastsInto(p, h) ==> h in BusyStarts(periods)
  {
    var busy := BusyStarts(periods);
    EligibleHoursAreExact(lo, hi, busy);
    if NoneOverlaps(lo, hi, periods) {
      forall h, p | lo <= h < hi && Working(h) && p in periods && LastsInto(p, h) ensures h in busy {
        if h !in busy {
          assert h in EligibleHours(lo, hi, busy);
          EligibleOverlapsExactly(h, periods, p);
        }
      }
    }
    if forall h, p :: lo <= h < hi && Working(h) && p in periods && LastsInto(p, h) ==> h in busy {
      forall h, p | h in EligibleHours(lo, hi, busy) && p in periods ensures !Overlaps(h, p) {
        EligibleOverlapsExactly(h, periods, p);
      }
    }
  }

  /**
   * No slot that is returned overlaps a period exactly if some period starts in each working hour, up to the
   * last slot, that a period lasts into.
   */
  lemma ReturnedSlotsAvoidMeetingsExactly(nowMinutes: int, slots: int, periods: seq<Period>, generated: seq<int>)
    requires var start := SearchStart(nowMinutes);
      generated == FirstOf(EligibleHours(start, start + WEEK, BusyStarts(periods)), slots)
    ensures var start := SearchStart(nowMinutes);
      (forall h, p :: h in generated && p in periods ==> !Overlaps(h, p))
      <==> forall h, p :: start <= h < ScannedTo(start, generated) && Working(h) && p in periods && LastsInto(p, h)
             ==> h in BusyStarts(periods)
  {
    var start, busy := SearchStart(nowMinutes), BusyStarts(periods);
    SlotsAreSpan(start, start + WEEK, busy, slots, generated);
    SlotsAvoidMeetingsExactly(start, ScannedTo(start, generated), periods);
  }

  /** It happens: the second hour of a two-hour meeting is eligible, and its slot overlaps the meeting. */
  lemma LongMeetingIsNotAvoided(h: int)
    requires Working(h)
    ensures var p := Period(60 * h - 60, 60 * h + 60);
      Eligible(h, BusyStarts([p])) && Overlaps(h, p)
  {
    assert (60 * h - 60) / 60 == h - 1;
  }

  /** Periods that end within the hour they start in never overlap a returned slot. */
  lemma ShortMeetingsAreAvoided(nowMinutes: int, slots: int, periods: seq<Period>, generated: seq<int>, h: int,
          p: Period)
    requires var start := SearchStart(nowMinutes);
      generated == FirstOf(EligibleHours(start, start + WEEK, BusyStarts(periods)), slots)
    requires h in generated && p in periods
    requires p.end <= 60 * (p.start / 60) + 60
    ensures !Overlaps(h, p)
  {
    var start := SearchStart(nowMinutes);
    EligibleHoursAreExact(start, start + WEEK, BusyStarts(periods));
    assert h in EligibleHours(start, start + WEEK, BusyStarts(periods));
    EligibleOverlapsExactly(h, periods, p);
    EndsBefore(p, h);
  }

  lemma EndsBefore(p: Period, h: int)
    requires p.end <= 60 * (p.start / 60) + 60
    ensures !LastsInto(p, h)
  {
  }

  // --- how many there are -----------------------------------------------------------------

  /** Working hours of the span, busy or not. */
  function WorkingCount(lo: int, hi: int): nat
    decreases hi - lo
  {
    if hi <= lo then 0 else WorkingCount(lo, hi - 1) + (if Working(hi - 1) then 1 else 0)
  }

  /** Working hours of the span in which a busy period starts. */
  function BusyCount(lo: int, hi: int, busy: set<int>): nat
    decreases hi - lo
  {
    if hi <= lo then 0
    else BusyCount(lo, hi - 1, busy) + (if Working(hi - 1) && hi - 1 in busy then 1 else 0)
  }

  lemma {:induction false} EligibleIsWorkingNotBusy(lo: int, hi: int, busy: set<int>)
    ensures |EligibleHours(lo, hi, busy)| == WorkingCount(lo, hi) - BusyCount(lo, hi, busy)
    decreases hi - lo
  {
    if lo < hi {
      EligibleIsWorkingNotBusy(lo, hi - 1, busy);
    }
  }

  lemma {:induction false} CountSplits(lo: int, mid: int, hi: int)
    requires lo <= mid <= hi
    ensures WorkingCount(lo, hi) == WorkingCount(lo, mid) + WorkingCount(mid, hi)
    decreases hi - mid
  {
    if mid < hi {
      CountSplits(lo, mid, hi - 1);
    }
  }

  lemma {:induction false} UniformCount(lo: int, hi: int, working: bool)
    requires lo <= hi
    requires forall h :: lo <= h < hi ==> Working(h) == working
    ensures WorkingCount(lo, hi) == if working then hi - lo else 0
    decreases hi - lo
  {
    if lo < hi {
      UniformCount(lo, hi - 1, working);
    }
  }

  lemma HourOfDay(day: int, k: int)
    requires 0 <= k < 24
    ensures (24 * day + k) / 24 == day && (24 * day + k) % 24 == k
  {
  }

  /** Nine working hours on a weekday, none at the weekend. */
  lemma DayCount(day: int)
    ensures WorkingCount(24 * day, 24 * day + 24) == if day % 7 < 5 then 9 else 0
  {
    var midnight := 24 * day;
    forall h | midnight <= h < midnight + 24 ensures Working(h) == (day % 7 < 5 && 9 <= h - midnight <= 17) {
      HourOfDay(day, h - midnight);
    }
    CountSplits(midnight, midnight + 9, midnight + 24);
    CountSplits(midnight + 9, midnight + 18, midnight + 24);
    UniformCount(midnight, midnight + 9, false);
    UniformCount(midnight + 9, midnight + 18, day % 7 < 5);
    UniformCount(midnight + 18, midnight + 24, false);
  }

  /** The working hours of the days up to `day`, from Monday of week 0. */
  lemma {:induction false} DaysCount(day: nat)
    requires day <= 7
    ensures WorkingCount(0, 24 * day) == if day <= 5 then 9 * day else 45
  {
    if 0 < day {
      DaysCount(day - 1);
      DayCount(day - 1);
      CountSplits(0, 24 * (day - 1), 24 * day);
    }
  }

  lemma WeekLater(h: int)
    ensures Working(h + WEEK) == Working(h)
  {
    assert (h + 168) / 24 == h / 24 + 7;
  }

  /** Sliding the week by an hour drops an hour and gains the same hour of the next week. */
  lemma Slide(start: int)
    ensures WorkingCount(start + 1, start + 1 + WEEK) == WorkingCount(start, start + WEEK)
  {
    CountSplits(start, start + 1, start + 1 + WEEK);
    assert WorkingCount(start, start) == 0;
    WeekLater(start);
  }

  /** Any seven days hold exactly 45 working hours, whatever the hour they start at. */
  lemma {:induction false} AnyWeekHas45(start: int)
    ensures WorkingCount(start, start + WEEK) == 45
    decreases if start < 0 then -start else start
  {
    if start == 0 {
      DaysCount(7);
    } else if 0 < start {
      AnyWeekHas45(start - 1);
      Slide(start - 1);
    } else {
      AnyWeekHas45(start + 1);
      Slide(start);
    }
  }

  /** The number of slots found, and that it is the number asked for exactly while busy hours leave room. */
  lemma SlotsFound(nowMinutes: int, slots: nat, periods: seq<Period>, generated: seq<int>)
    requires var start := SearchStart(nowMinutes);
      generated == FirstOf(EligibleHours(start, start + WEEK, BusyStarts(periods)), slots)
    ensures var start := SearchStart(nowMinutes);
      var room := 45 - BusyCount(start, start + WEEK, BusyStarts(periods));
      0 <= room
      && |generated| == (if slots <= room then slots else room)
      && (|generated| == slots <==> BusyCount(start, start + WEEK, BusyStarts(periods)) <= 45 - slots)
  {
    var start := SearchStart(nowMinutes);
    EligibleIsWorkingNotBusy(start, start + WEEK, BusyStarts(periods));
    AnyWeekHas45(start);
  }
}
