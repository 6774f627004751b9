/** The report window of the admin API (apps/server/src/admin.rs:858-892), in
    Unix seconds, and the records that a report over it is made of. */
module TimeWindow {
  import opened Common
  import opened Calendar
  import opened Timestamps
  import opened CostStore

  /** The queries take the start and leave the end out. */
  datatype Range = Range(start: int, end: int)

  /** Minutes east of UTC, clamped as the server does. */
  function OffsetSeconds(minutes: int): int {
    (if minutes < -720 then -720 else if minutes > 840 then 840 else minutes) * 60
  }

  /** The clamp is from 12 hours west to 14 hours east; within it a minute is 60
      seconds, and east is ahead of UTC. */
  lemma OffsetClamp(minutes: int)
    ensures -720 <= minutes <= 840 ==> OffsetSeconds(minutes) == minutes * 60
    ensures minutes < -720 ==> OffsetSeconds(minutes) == -43_200
    ensures minutes > 840 ==> OffsetSeconds(minutes) == 50_400
  {}

  /** The number of days asked for; zero counts as one. */
  function Span(days: nat): nat {
    if days == 0 then 1 else days
  }

  function SaturatingPred(days: nat): nat {
    if days == 0 then 0 else days - 1
  }

  /** The local date of an instant, as a day number. */
  function LocalDay(seconds: int, offset: int): int {
    (seconds + offset) / DAY
  }

  predicate AtLocalMidnight(seconds: int, offset: int) {
    (seconds + offset) % DAY == 0
  }

  function ComputeTimeRange(now: int, days: nat, tzOffset: Option<int>): Range {
    match tzOffset
    case None => Range(now - days * DAY, now)
    case Some(minutes) =>
      var offset := OffsetSeconds(minutes);
      var localTodayStart := LocalDay(now, offset) * DAY;
      var localStart := localTodayStart - SaturatingPred(days) * DAY;
      Range(localStart - offset, now)
  }

  /** A calendar window starts at a local midnight, and what lies in it is what
      lies before now on one of the last `Span(days)` local dates. */
  lemma CalendarWindowCoversLocalDates(now: int, days: nat, minutes: int)
    ensures var offset := OffsetSeconds(minutes);
            var r := ComputeTimeRange(now, days, Some(minutes));
            && AtLocalMidnight(r.start, offset)
            && (Span(days) - 1) * DAY <= r.end - r.start < Span(days) * DAY
            && (forall t :: r.start <= t < r.end <==>
                  t < now && LocalDay(now, offset) - LocalDay(t, offset) < Span(days))
  {
    var offset := OffsetSeconds(minutes);
    var r := ComputeTimeRange(now, days, Some(minutes));
    var first := LocalDay(now, offset) - (Span(days) - 1);
    assert r.start + offset == first * DAY;
    forall t
      ensures r.start <= t <==> first <= LocalDay(t, offset)
    {
      assert t + offset == LocalDay(t, offset) * DAY + (t + offset) % DAY;
    }
  }

  /** At noon UTC of the epoch: today began at 16:00 the day before in UTC+8, and
      at 05:00 in UTC-5; in UTC+14 it is tomorrow already. */
  lemma OffsetExamples()
    ensures ComputeTimeRange(43_200, 1, Some(480)) == Range(-28_800, 43_200)
    ensures ComputeTimeRange(43_200, 1, Some(-300)) == Range(18_000, 43_200)
    ensures ComputeTimeRange(43_200, 2, Some(-300)) == Range(-68_400, 43_200)
    ensures ComputeTimeRange(43_200, 1, Some(900)) == Range(36_000, 43_200)
  {}

  /** Every earlier one of these dates has an instant in the window; today has
      one exactly when it is not just midnight. */
  lemma LocalDateOccursIff(now: int, days: nat, minutes: int, back: nat)
    requires back < Span(days)
    ensures var offset := OffsetSeconds(minutes);
            var r := ComputeTimeRange(now, days, Some(minutes));
            (exists t :: r.start <= t < r.end && LocalDay(t, offset) == LocalDay(now, offset) - back) <==>
            back > 0 || !AtLocalMidnight(now, offset)
  {
    var offset := OffsetSeconds(minutes);
    var r := ComputeTimeRange(now, days, Some(minutes));
    CalendarWindowCoversLocalDates(now, days, minutes);
    var midnight := (LocalDay(now, offset) - back) * DAY - offset;
    assert LocalDay(midnight, offset) == LocalDay(now, offset) - back;
    assert now + offset == LocalDay(now, offset) * DAY + (now + offset) % DAY;
    if back > 0 || !AtLocalMidnight(now, offset) {
      assert midnight < now;
      assert r.start <= midnight < r.end;
    } else {
      forall t | r.start <= t < r.end
        ensures LocalDay(t, offset) != LocalDay(now, offset) - back
      {
        assert t + offset == LocalDay(t, offset) * DAY + (t + offset) % DAY;
      }
    }
  }

  // ---------------------------------------------------------------------
  // The records of a report
  // ---------------------------------------------------------------------

  /** The Unix second of an instant. */
  function UnixSecond(at: Instant): int {
    at / NANOS - EPOCH_SECONDS
  }

  lemma SecondsCompare(at: Instant, s: int)
    ensures OfUnixSeconds(s) <= at <==> s <= UnixSecond(at)
  {
    assert at == NANOS * (at / NANOS) + at % NANOS;
  }

  /** A report over a calendar window is made of exactly the project's records
      from before now on the last `Span(days)` local dates. */
  lemma CalendarReportSelects(rows: seq<CostRecord>, now: int, days: nat, minutes: int, project: seq<string>, reach: Reach,
                              r: CostRecord, at: Instant)
    requires InRange(at) && r.timestamp == Render(at) && ValidReach(reach)
    requires var w := ComputeTimeRange(now, days, Some(minutes)); SoundWindow(w.start, w.end, reach)
    ensures var w, offset := ComputeTimeRange(now, days, Some(minutes)), OffsetSeconds(minutes);
            multiset(Selected(rows, w.start, w.end, project, reach))[r] ==
            if && UnixSecond(at) < now
               && LocalDay(now, offset) - LocalDay(UnixSecond(at), offset) < Span(days)
               && (project == [] || r.project == project[0])
            then multiset(rows)[r] else 0
  {
    hide Render, InRange, SoundWindow, ValidReach, Selected, UnixSecond, LocalDay, OfUnixSeconds;
    var w := ComputeTimeRange(now, days, Some(minutes));
    CalendarWindowCoversLocalDates(now, days, minutes);
    SelectionIsByTime(rows, w.start, w.end, project, reach, r, at);
    SecondsCompare(at, w.start);
    SecondsCompare(at, w.end);
  }

  /** A report over one day is empty at local midnight, whatever is stored: the
      window ends where it starts. */
  lemma {:induction false} MidnightReportIsEmpty(rows: seq<CostRecord>, now: int, days: nat, minutes: int,
                                                 project: seq<string>, reach: Reach)
    requires days <= 1 && AtLocalMidnight(now, OffsetSeconds(minutes))
    ensures var w := ComputeTimeRange(now, days, Some(minutes));
            w == Range(now, now) && Selected(rows, w.start, w.end, project, reach) == []
  {
    hide Less, BoundText;
    var offset := OffsetSeconds(minutes);
    assert now + offset == LocalDay(now, offset) * DAY;
    if rows != [] {
      MidnightReportIsEmpty(rows[..|rows| - 1], now, days, minutes, project, reach);
    }
  }

  /** For instance at the epoch, in UTC, for one day. */
  lemma MidnightInput(rows: seq<CostRecord>, project: seq<string>, reach: Reach)
    ensures ComputeTimeRange(0, 1, Some(0)) == Range(0, 0)
    ensures Selected(rows, 0, 0, project, reach) == []
  {
    MidnightReportIsEmpty(rows, 0, 1, 0, project, reach);
  }

  /** Without an offset the window is the last `days` times 24 hours; a report
      over it is right for every possible record exactly when the date library
      reaches back to its start. */
  lemma RollingReportExactIff(now: int, days: nat, reach: Reach)
    requires ValidReach(reach) && 0 < OfUnixSeconds(now) && !Late(OfUnixSeconds(now))
    ensures var w := ComputeTimeRange(now, days, None);
            (forall at: Instant :: InRange(at) ==>
               (TextInWindow(Render(at), w.start, w.end, reach) <==> now - days * DAY <= UnixSecond(at) < now)) <==>
            reach.first <= now - days * DAY
  {
    hide Render, InRange, TextInWindow, UnixSecond, OfUnixSeconds, Late;
    var w := ComputeTimeRange(now, days, None);
    forall at: Instant
      ensures OfUnixSeconds(w.start) <= at < OfUnixSeconds(w.end) <==> w.start <= UnixSecond(at) < w.end
    {
      SecondsCompare(at, w.start);
      SecondsCompare(at, w.end);
    }
    NowInReach(now, reach);
    WindowFilterExactIff(w.start, w.end, reach);
  }

  lemma NowInReach(now: int, reach: Reach)
    requires ValidReach(reach) && !Late(OfUnixSeconds(now))
    ensures now <= reach.last
  {
    if now > reach.last {
      LateIsUpward(OfUnixSeconds(reach.last), OfUnixSeconds(now));
    }
  }
}
