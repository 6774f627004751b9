/** Cost records, their time filters and their roll-ups
    (crates/storage-sqlite/src/lib.rs). */
module CostStore {
  import opened Calendar
  import opened Timestamps

  datatype CostRecord = CostRecord(
    channelId: string, upstreamModel: string, project: string,
    inputTokens: int, outputTokens: int, cost: real, saved: int, timestamp: string)

  // ---------------------------------------------------------------------
  // Time filters: text stands in for instants
  // ---------------------------------------------------------------------

  /** The text of a bound at `x` nanoseconds since year 0. Years outside 0000
      to 9999 are written with a sign, and only that sign is modelled. */
  function BoundText(x: int): string {
    if x < 0 then "-" else if InRange(x) then Render(x) else "+"
  }

  const EPOCH_SECONDS: int := EPOCH_DAY * DAY

  function OfUnixSeconds(s: int): int {
    (s + EPOCH_SECONDS) * NANOS
  }

  /** The first and last Unix second that the date library can represent. */
  datatype Reach = Reach(first: int, last: int)

  /** It represents the years 0000 to 9999 and goes beyond them. */
  ghost predicate ValidReach(reach: Reach) {
    OfUnixSeconds(reach.first) <= 0 && Late(OfUnixSeconds(reach.last))
  }

  /** The instant a bound in Unix seconds stands for: out of reach, the epoch. */
  function Bound(s: int, reach: Reach): int {
    OfUnixSeconds(if reach.first <= s <= reach.last then s else 0)
  }

  /** `timestamp >= start AND timestamp < end`, on text. */
  predicate TextInWindow(timestamp: string, start: int, end: int, reach: Reach) {
    !Less(timestamp, BoundText(Bound(start, reach))) && Less(timestamp, BoundText(Bound(end, reach)))
  }

  predicate Late(x: int) {
    x >= 0 && !InRange(x)
  }

  lemma BoundOrder(t: Instant, x: int)
    requires InRange(t)
    ensures Less(Render(t), BoundText(x)) <==> t < x && !Late(x)
  {
    if x >= 0 && InRange(x) {
      TextOrderIsTimeOrder(t, x);
    } else {
      var y := DateOf(DayOf(t)).year;
      LeadIsDigit(y, 4);
      assert Render(t)[0] == Digits(y, 4)[0];
    }
  }

  /** Where the text filter is right for every record a proxy can write. Both
      bounds in reach: the window does not lead from the four-digit years into
      later ones, whose sign sorts first. A start before the library's reach,
      which becomes the epoch: no four-digit year ends before the window does.
      An end beyond its reach: so is the start. */
  ghost predicate SoundWindow(start: int, end: int, reach: Reach) {
    if end > reach.last then start > reach.last
    else if start < reach.first then OfUnixSeconds(end) <= 0
    else Late(OfUnixSeconds(end)) ==> Late(OfUnixSeconds(start))
  }

  /** The text filter selects exactly the instants of the window, of all those
      that a record can bear, if and only if the window is sound. */
  lemma WindowFilterExactIff(start: int, end: int, reach: Reach)
    requires start <= end && ValidReach(reach)
    ensures (forall t: Instant :: InRange(t) ==>
               (TextInWindow(Render(t), start, end, reach) <==> OfUnixSeconds(start) <= t < OfUnixSeconds(end))) <==>
            SoundWindow(start, end, reach)
  {
    hide BoundText, Render, Less, InRange, TextInWindow, SoundWindow, InBounds;
    forall t: Instant | InRange(t)
      ensures TextInWindow(Render(t), start, end, reach) <==> InBounds(t, start, end, reach)
    {
      TextWindow(t, start, end, reach);
    }
    if SoundWindow(start, end, reach) {
      SoundIsExact(start, end, reach);
    } else {
      var t := Counterexample(start, end, reach);
      assert TextInWindow(Render(t), start, end, reach) != (OfUnixSeconds(start) <= t < OfUnixSeconds(end));
    }
  }

  /** What the filter selects, on instants. */
  ghost predicate InBounds(t: Instant, start: int, end: int, reach: Reach) {
    (t >= Bound(start, reach) || Late(Bound(start, reach))) && t < Bound(end, reach) && !Late(Bound(end, reach))
  }

  lemma TextWindow(t: Instant, start: int, end: int, reach: Reach)
    requires InRange(t)
    ensures TextInWindow(Render(t), start, end, reach) <==> InBounds(t, start, end, reach)
  {
    hide BoundText, Render, Less, InRange, Late, Bound;
    BoundOrder(t, Bound(start, reach));
    BoundOrder(t, Bound(end, reach));
  }

  lemma LateIsAfter(t: Instant, x: int)
    requires InRange(t)
    ensures Late(x) ==> t < x
  {
    if Late(x) && x <= t {
      LateIsUpward(x, t);
    }
  }

  /** The epoch is in the four-digit years. */
  lemma EpochInRange(reach: Reach)
    requires ValidReach(reach)
    ensures reach.first < 0 < reach.last && InRange(OfUnixSeconds(0)) && !Late(OfUnixSeconds(0))
  {
    EpochDay(EPOCH_DAY);
    var epoch := OfUnixSeconds(0);
    assert DayOf(epoch) == EPOCH_DAY;
    LateIsAfter(epoch, OfUnixSeconds(reach.last));
  }

  lemma SoundIsExact(start: int, end: int, reach: Reach)
    requires start <= end && ValidReach(reach) && SoundWindow(start, end, reach)
    ensures forall t: Instant :: InRange(t) ==> (InBounds(t, start, end, reach) <==> OfUnixSeconds(start) <= t < OfUnixSeconds(end))
  {
    hide InRange, Late;
    EpochInRange(reach);
    forall t: Instant | InRange(t)
      ensures InBounds(t, start, end, reach) <==> OfUnixSeconds(start) <= t < OfUnixSeconds(end)
    {
      LateIsAfter(t, OfUnixSeconds(start));
      LateIsAfter(t, OfUnixSeconds(end));
      LateIsAfter(t, OfUnixSeconds(reach.last));
      if Late(OfUnixSeconds(start)) {
        LateIsUpward(OfUnixSeconds(start), OfUnixSeconds(end));
      }
    }
  }

  lemma Counterexample(start: int, end: int, reach: Reach) returns (t: Instant)
    requires start <= end && ValidReach(reach) && !SoundWindow(start, end, reach)
    ensures InRange(t) && InBounds(t, start, end, reach) != (OfUnixSeconds(start) <= t < OfUnixSeconds(end))
  {
    hide InRange, Late;
    EpochInRange(reach);
    YearZero();
    var from := OfUnixSeconds(start);
    if start < reach.first || (end > reach.last && Late(from)) {
      t := 0;
      LateIsAfter(t, from);
    } else {
      var earliest := if end > reach.last then OfUnixSeconds(0) else 0;
      t := if from < earliest then earliest else from;
      NotLateInRange(t);
    }
    LateIsAfter(t, OfUnixSeconds(reach.last));
    LateIsAfter(t, OfUnixSeconds(end));
  }

  lemma YearZero()
    ensures InRange(0) && !Late(0)
  {
    assert DateOf(0) == Date(0, 1, 1);
  }

  lemma NotLateInRange(t: Instant)
    ensures InRange(t) <==> !Late(t)
  {}

  lemma LateIsUpward(x: int, y: int)
    requires Late(x) && x <= y
    ensures Late(y)
  {
    DayOrder(x, y);
    if DayOf(x) < DayOf(y) {
      DatesAscend(DayOf(x), DayOf(y));
    }
  }

  lemma DayOrder(x: Instant, y: Instant)
    requires x <= y
    ensures DayOf(x) <= DayOf(y)
  {
    InstantOrder(y, x);
  }

  // ---------------------------------------------------------------------
  // Pruning
  // ---------------------------------------------------------------------

  /** The cutoff of a prune: `days` before now, or now itself when the date
      library cannot go back that far. */
  function Cutoff(now: Instant, days: nat, reach: Reach): int {
    var back := now - days * DAY * NANOS;
    if back >= OfUnixSeconds(reach.first) then back else now
  }

  function Keep(rows: seq<CostRecord>, cutoff: string): seq<CostRecord> {
    if rows == [] then []
    else
      var n := |rows| - 1;
      Keep(rows[..n], cutoff) + (if Less(rows[n].timestamp, cutoff) then [] else [rows[n]])
  }

  lemma KeepStep(rows: seq<CostRecord>, cutoff: string)
    ensures rows == [] ==> Keep(rows, cutoff) == []
    ensures rows != [] ==>
              var n := |rows| - 1;
              Keep(rows, cutoff) == Keep(rows[..n], cutoff) + (if Less(rows[n].timestamp, cutoff) then [] else [rows[n]])
  {}

  /** Each record stays exactly when its instant is not before the cutoff, as
      often as it was there. */
  lemma {:induction false} PruneIsByTime(rows: seq<CostRecord>, cutoff: int, r: CostRecord, at: Instant)
    requires InRange(at) && r.timestamp == Render(at) && !Late(cutoff)
    ensures multiset(Keep(rows, BoundText(cutoff)))[r] == if at >= cutoff then multiset(rows)[r] else 0
  {
    hide Less, Render, BoundText, Late, InRange, Keep;
    KeepStep(rows, BoundText(cutoff));
    if rows != [] {
      var n := |rows| - 1;
      PruneIsByTime(rows[..n], cutoff, r, at);
      BoundOrder(at, cutoff);
      assert rows == rows[..n] + [rows[n]];
    }
  }

  /** "Delete what is older than `days` days" is what happens to every record
      in the past exactly when the date library reaches back that far: beyond
      it the whole past is deleted. */
  lemma PruneMeetsItsPromiseIff(now: Instant, days: nat, reach: Reach)
    requires InRange(now) && days > 0 && now > 0
    ensures (forall at: Instant :: at < now ==>
               (Less(Render(at), BoundText(Cutoff(now, days, reach))) <==> at < now - days * DAY * NANOS))
            <==> OfUnixSeconds(reach.first) <= now - days * DAY * NANOS
  {
    hide Render, BoundText, Less, InRange;
    var cutoff := Cutoff(now, days, reach);
    assert days * DAY * NANOS >= NANOS;
    forall at: Instant | at < now
      ensures InRange(at) && (Less(Render(at), BoundText(cutoff)) <==> at < cutoff)
    {
      NotLateBelow(at, now);
      NotLateInRange(at);
      NotLateBelow(cutoff, now);
      BoundOrder(at, cutoff);
    }
    if OfUnixSeconds(reach.first) > now - days * DAY * NANOS {
      var at: Instant := now - 1;
      assert Less(Render(at), BoundText(cutoff)) && !(at < now - days * DAY * NANOS);
    }
  }

  lemma NotLateBelow(x: int, now: Instant)
    requires InRange(now) && x <= now
    ensures !Late(x)
  {
    if Late(x) {
      LateIsUpward(x, now);
    }
  }

  // ---------------------------------------------------------------------
  // Roll-ups
  // ---------------------------------------------------------------------

  datatype Totals = Totals(input: int, output: int, cost: real, saved: int, count: nat)

  function Zero(): Totals {
    Totals(0, 0, 0.0, 0, 0)
  }

  function Plus(a: Totals, b: Totals): Totals {
    Totals(a.input + b.input, a.output + b.output, a.cost + b.cost, a.saved + b.saved, a.count + b.count)
  }

  function Single(r: CostRecord): Totals {
    Totals(r.inputTokens, r.outputTokens, r.cost, r.saved, 1)
  }

  datatype GroupBy = Project | Model | Channel | ProjectModelMonth | ProjectModelHour | Hourly | Daily

  function Prefix(s: string, n: nat): string {
    if |s| <= n then s else s[..n]
  }

  type Key = seq<string>

  /** The value of the GROUP BY clause; the two project-model groupings leave
      out the month and hour that their displayed key shows. */
  function GroupOf(g: GroupBy, r: CostRecord): Key {
    match g
    case Project => [r.project]
    case Model => [r.channelId]
    case Channel => [r.channelId]
    case ProjectModelMonth => [r.project, r.upstreamModel]
    case ProjectModelHour => [r.project, r.upstreamModel]
    case Hourly => [Prefix(r.timestamp, 13)]
    case Daily => [Prefix(r.timestamp, 10)]
  }

  /** Two records fall in one group exactly when they agree on its columns. */
  lemma SameGroupIff(a: CostRecord, b: CostRecord)
    ensures GroupOf(Project, a) == GroupOf(Project, b) <==> a.project == b.project
    ensures GroupOf(Model, a) == GroupOf(Model, b) <==> a.channelId == b.channelId
    ensures GroupOf(Channel, a) == GroupOf(Channel, b) <==> a.channelId == b.channelId
    ensures GroupOf(ProjectModelMonth, a) == GroupOf(ProjectModelMonth, b) <==> a.project == b.project && a.upstreamModel == b.upstreamModel
    ensures GroupOf(ProjectModelHour, a) == GroupOf(ProjectModelHour, b) <==> a.project == b.project && a.upstreamModel == b.upstreamModel
    ensures |a.timestamp| >= 13 && |b.timestamp| >= 13 ==>
              (GroupOf(Hourly, a) == GroupOf(Hourly, b) <==> a.timestamp[..13] == b.timestamp[..13])
    ensures |a.timestamp| >= 10 && |b.timestamp| >= 10 ==>
              (GroupOf(Daily, a) == GroupOf(Daily, b) <==> a.timestamp[..10] == b.timestamp[..10])
  {
    assert GroupOf(ProjectModelMonth, a)[0] == a.project && GroupOf(ProjectModelMonth, a)[1] == a.upstreamModel;
    assert GroupOf(Project, a)[0] == a.project && GroupOf(Model, a)[0] == a.channelId;
    assert GroupOf(Hourly, a)[0] == Prefix(a.timestamp, 13) && GroupOf(Daily, a)[0] == Prefix(a.timestamp, 10);
    assert GroupOf(Hourly, b)[0] == Prefix(b.timestamp, 13) && GroupOf(Daily, b)[0] == Prefix(b.timestamp, 10);
    PrefixIsTake(a.timestamp);
    PrefixIsTake(b.timestamp);
  }

  lemma PrefixIsTake(s: string)
    ensures forall n: nat {:trigger Prefix(s, n)} :: n <= |s| ==> Prefix(s, n) == s[..n]
  {}

  /** So an hourly row is one hour of the clock in UTC and a daily row one date. */
  lemma TimeGroups(a: CostRecord, b: CostRecord, at: Instant, bt: Instant)
    requires InRange(at) && InRange(bt) && a.timestamp == Render(at) && b.timestamp == Render(bt)
    ensures GroupOf(Daily, a) == GroupOf(Daily, b) <==> DayOf(at) == DayOf(bt)
    ensures GroupOf(Hourly, a) == GroupOf(Hourly, b) <==> DayOf(at) == DayOf(bt) && SecondOfDay(at) / 3600 == SecondOfDay(bt) / 3600
  {
    hide Render, DateOf, DateText;
    SameGroupIff(a, b);
    TextPrefixes(at);
    TextPrefixes(bt);
    DateTextDetermines(DayOf(at), DayOf(bt));
    HourTextDetermines(DayOf(at), DayOf(bt), SecondOfDay(at) / 3600, SecondOfDay(bt) / 3600);
  }

  lemma HourTextDetermines(x: nat, y: nat, h: nat, k: nat)
    requires DateOf(x).year <= 9999 && DateOf(y).year <= 9999 && h < 24 && k < 24
    ensures DateText(x) + "T" + Digits(h, 2) == DateText(y) + "T" + Digits(k, 2) <==> x == y && h == k
  {
    hide DateText, DateOf, Digits;
    Widths();
    DateTextDetermines(x, y);
    DigitsOrder(h, k, 2);
    var s, t := DateText(x) + "T" + Digits(h, 2), DateText(y) + "T" + Digits(k, 2);
    assert s[..10] == DateText(x) && t[..10] == DateText(y);
    assert s[11..] == Digits(h, 2) && t[11..] == Digits(k, 2);
  }

  /** The ten characters of a date. */
  function DateText(day: nat): (s: string)
    ensures |s| == 10
  {
    var d := DateOf(day);
    Digits(d.year, 4) + "-" + Digits(d.month, 2) + "-" + Digits(d.day, 2)
  }

  lemma DateTextDetermines(x: nat, y: nat)
    requires DateOf(x).year <= 9999 && DateOf(y).year <= 9999
    ensures DateText(x) == DateText(y) <==> x == y
  {
    hide Digits, DateOf;
    Widths();
    var d, e := DateOf(x), DateOf(y);
    DigitsOrder(d.year, e.year, 4);
    DigitsOrder(d.month, e.month, 2);
    DigitsOrder(d.day, e.day, 2);
    DateOrderIsDayOrder(x, y);
    assert DateText(x)[..4] == Digits(d.year, 4) && DateText(y)[..4] == Digits(e.year, 4);
    assert DateText(x)[5..7] == Digits(d.month, 2) && DateText(y)[5..7] == Digits(e.month, 2);
    assert DateText(x)[8..] == Digits(d.day, 2) && DateText(y)[8..] == Digits(e.day, 2);
  }

  lemma TextPrefixes(t: Instant)
    ensures |Render(t)| >= 13 && Render(t)[..10] == DateText(DayOf(t))
    ensures Render(t)[..13] == DateText(DayOf(t)) + "T" + Digits(SecondOfDay(t) / 3600, 2)
  {
    hide Digits, DateOf, Fraction;
    var d, s := DateOf(DayOf(t)), SecondOfDay(t);
    var rest := [':'] + Field(s / 60 % 60, 2, ':', Digits(s % 60, 2) + (Fraction(t % NANOS) + UTC));
    assert Render(t) == DateText(DayOf(t)) + "T" + Digits(s / 3600, 2) + rest;
  }

  datatype Group = Group(key: Key, totals: Totals)

  /** The totals of the rows whose group is one of `keys`. */
  function TotalsIn(rows: seq<CostRecord>, g: GroupBy, keys: set<Key>): Totals {
    if rows == [] then Zero()
    else
      var n := |rows| - 1;
      if GroupOf(g, rows[n]) in keys then Plus(TotalsIn(rows[..n], g, keys), Single(rows[n]))
      else TotalsIn(rows[..n], g, keys)
  }

  function TotalsOf(rows: seq<CostRecord>): Totals {
    if rows == [] then Zero() else Plus(TotalsOf(rows[..|rows| - 1]), Single(rows[|rows| - 1]))
  }

  /** The rows whose group is one of `keys`. */
  function RowsIn(rows: seq<CostRecord>, g: GroupBy, keys: set<Key>): seq<CostRecord> {
    if rows == [] then []
    else
      var n := |rows| - 1;
      RowsIn(rows[..n], g, keys) + (if GroupOf(g, rows[n]) in keys then [rows[n]] else [])
  }

  function SumOf(rows: seq<CostRecord>, column: CostRecord -> int): int {
    if rows == [] then 0 else SumOf(rows[..|rows| - 1], column) + column(rows[|rows| - 1])
  }

  function CostOf(rows: seq<CostRecord>): real {
    if rows == [] then 0.0 else CostOf(rows[..|rows| - 1]) + rows[|rows| - 1].cost
  }

  /** Each total is the sum of its own column over the group's rows, and the
      count is their number. */
  lemma {:induction false} TotalsByColumn(rows: seq<CostRecord>, g: GroupBy, keys: set<Key>)
    ensures var t, mine := TotalsIn(rows, g, keys), RowsIn(rows, g, keys);
            && t.input == SumOf(mine, (r: CostRecord) => r.inputTokens)
            && t.output == SumOf(mine, (r: CostRecord) => r.outputTokens)
            && t.saved == SumOf(mine, (r: CostRecord) => r.saved)
            && t.cost == CostOf(mine)
            && t.count == |mine|
  {
    hide GroupOf;
    if rows != [] {
      var n := |rows| - 1;
      TotalsByColumn(rows[..n], g, keys);
      var front, mine := RowsIn(rows[..n], g, keys), RowsIn(rows, g, keys);
      assert mine == front || (mine == front + [rows[n]] && mine[..|mine| - 1] == front);
    }
  }

  /** A roll-up: one row per group that occurs, with that group's totals. */
  ghost predicate IsRollUp(groups: seq<Group>, rows: seq<CostRecord>, g: GroupBy) {
    && (forall i, j :: 0 <= i < j < |groups| ==> groups[i].key != groups[j].key)
    && (forall i :: 0 <= i < |groups| ==> groups[i].totals == TotalsIn(rows, g, {groups[i].key}))
    && (forall i :: 0 <= i < |groups| ==> groups[i].totals.count >= 1)
    && (forall r :: r in rows ==> exists i :: 0 <= i < |groups| && groups[i].key == GroupOf(g, r))
  }

  /** The totals of the roll-up's rows whose key is one of `keys`. */
  function SumGroups(groups: seq<Group>, keys: set<Key>): Totals {
    if groups == [] then Zero()
    else
      var n := |groups| - 1;
      if groups[n].key in keys then Plus(SumGroups(groups[..n], keys), groups[n].totals)
      else SumGroups(groups[..n], keys)
  }

  function KeysOf(groups: seq<Group>): set<Key> {
    set i | 0 <= i < |groups| :: groups[i].key
  }

  lemma {:induction false} TotalsOfOneMoreKey(rows: seq<CostRecord>, g: GroupBy, keys: set<Key>, k: Key)
    requires k !in keys
    ensures TotalsIn(rows, g, keys + {k}) == Plus(TotalsIn(rows, g, keys), TotalsIn(rows, g, {k}))
  {
    hide GroupOf, Single, Plus;
    if rows == [] {
      PlusZero(Zero());
    } else {
      var front, r := rows[..|rows| - 1], rows[|rows| - 1];
      TotalsOfOneMoreKey(front, g, keys, k);
      Rearrange(TotalsIn(front, g, keys), TotalsIn(front, g, {k}), Single(r));
    }
  }

  lemma Rearrange(a: Totals, b: Totals, c: Totals)
    ensures Plus(Plus(a, b), c) == Plus(Plus(a, c), b) == Plus(a, Plus(b, c))
  {}

  lemma PlusZero(a: Totals)
    ensures Plus(a, Zero()) == a
  {}

  lemma {:induction false} TotalsOfNoKey(rows: seq<CostRecord>, g: GroupBy)
    ensures TotalsIn(rows, g, {}) == Zero()
  {
    if rows != [] {
      TotalsOfNoKey(rows[..|rows| - 1], g);
    }
  }

  /** Any selection of roll-up rows totals the records that fall in it. */
  lemma {:induction false} GroupsTotalTheirRecords(groups: seq<Group>, rows: seq<CostRecord>, g: GroupBy, keys: set<Key>)
    requires forall i, j :: 0 <= i < j < |groups| ==> groups[i].key != groups[j].key
    requires forall i :: 0 <= i < |groups| ==> groups[i].totals == TotalsIn(rows, g, {groups[i].key})
    ensures SumGroups(groups, keys) == TotalsIn(rows, g, KeysOf(groups) * keys)
  {
    if groups == [] {
      TotalsOfNoKey(rows, g);
      assert KeysOf(groups) * keys == {};
    } else {
      var n := |groups| - 1;
      var front, k := groups[..n], groups[n].key;
      GroupsTotalTheirRecords(front, rows, g, keys);
      assert KeysOf(groups) == KeysOf(front) + {k};
      if k in keys {
        assert KeysOf(groups) * keys == KeysOf(front) * keys + {k};
        TotalsOfOneMoreKey(rows, g, KeysOf(front) * keys, k);
      } else {
        assert KeysOf(groups) * keys == KeysOf(front) * keys;
      }
    }
  }

  lemma {:induction false} TotalsOfAllKeys(rows: seq<CostRecord>, g: GroupBy, keys: set<Key>)
    requires forall r :: r in rows ==> GroupOf(g, r) in keys
    ensures TotalsIn(rows, g, keys) == TotalsOf(rows)
  {
    if rows != [] {
      TotalsOfAllKeys(rows[..|rows| - 1], g, keys);
    }
  }

  /** Conservation: in every grouping the roll-up's totals sum to those of the
      records that went in. */
  lemma RollUpConserves(groups: seq<Group>, rows: seq<CostRecord>, g: GroupBy)
    requires IsRollUp(groups, rows, g)
    ensures SumGroups(groups, KeysOf(groups)) == TotalsOf(rows)
  {
    GroupsTotalTheirRecords(groups, rows, g, KeysOf(groups));
    assert KeysOf(groups) * KeysOf(groups) == KeysOf(groups);
    TotalsOfAllKeys(rows, g, KeysOf(groups));
  }

  /** The hours of a day: the hourly keys that extend its daily key. */
  function HoursOf(hourly: seq<Group>, day: Key): set<Key> {
    set i | 0 <= i < |hourly| && |hourly[i].key| == 1 && [Prefix(hourly[i].key[0], 10)] == day :: hourly[i].key
  }

  lemma {:induction false} DayIsItsHours(rows: seq<CostRecord>, hourly: seq<Group>, day: Key)
    requires forall r :: r in rows ==> GroupOf(Hourly, r) in KeysOf(hourly)
    ensures TotalsIn(rows, Daily, {day}) == TotalsIn(rows, Hourly, HoursOf(hourly, day))
  {
    if rows != [] {
      var r := rows[|rows| - 1];
      DayIsItsHours(rows[..|rows| - 1], hourly, day);
      assert Prefix(Prefix(r.timestamp, 13), 10) == Prefix(r.timestamp, 10);
      assert r in rows;
      assert GroupOf(Hourly, r) in HoursOf(hourly, day) <==> GroupOf(Daily, r) == day;
    }
  }

  /** Each day's row is the sum of the hourly rows whose key extends its key. */
  lemma DailyIsSumOfHourly(daily: seq<Group>, hourly: seq<Group>, rows: seq<CostRecord>, i: nat)
    requires IsRollUp(daily, rows, Daily) && IsRollUp(hourly, rows, Hourly) && i < |daily|
    ensures daily[i].totals == SumGroups(hourly, HoursOf(hourly, daily[i].key))
  {
    var day := daily[i].key;
    GroupsTotalTheirRecords(hourly, rows, Hourly, HoursOf(hourly, day));
    assert KeysOf(hourly) * HoursOf(hourly, day) == HoursOf(hourly, day);
    DayIsItsHours(rows, hourly, day);
  }

  // ---------------------------------------------------------------------
  // The store
  // ---------------------------------------------------------------------

  class Store {
    const reach: Reach
    var rows: seq<CostRecord>

    constructor (reach: Reach)
      ensures this.reach == reach && rows == []
    {
      this.reach := reach;
      rows := [];
    }

    method InsertCostRecord(r: CostRecord, now: Instant)
      modifies this
      ensures rows == old(rows) + [r.(timestamp := Render(now))]
    {
      rows := rows + [r.(timestamp := Render(now))];
    }

    method PruneCostRecords(now: Instant, olderThanDays: nat) returns (deleted: nat)
      modifies this
      ensures rows == Keep(old(rows), BoundText(Cutoff(now, olderThanDays, reach)))
      ensures deleted == |old(rows)| - |rows|
    {
      var cutoff := BoundText(Cutoff(now, olderThanDays, reach));
      var kept := [];
      for i := 0 to |rows|
        invariant rows == old(rows) && kept == Keep(rows[..i], cutoff) && |kept| <= i
      {
        assert rows[..i + 1][..i] == rows[..i];
        if !Less(rows[i].timestamp, cutoff) {
          kept := kept + [rows[i]];
        }
      }
      assert rows[..|rows|] == rows;
      deleted := |rows| - |kept|;
      rows := kept;
    }

    /** The records of a window (and project), in storage order. */
    method SelectWindow(start: int, end: int, project: seq<string>) returns (sel: seq<CostRecord>)
      ensures sel == Selected(rows, start, end, project, reach)
    {
      sel := [];
      for i := 0 to |rows|
        invariant sel == Selected(rows[..i], start, end, project, reach)
      {
        assert rows[..i + 1][..i] == rows[..i];
        if Matches(rows[i], start, end, project, reach) {
          sel := sel + [rows[i]];
        }
      }
      assert rows[..|rows|] == rows;
    }

    method AggregateCosts(sel: seq<CostRecord>, g: GroupBy) returns (groups: seq<Group>)
      ensures IsRollUp(groups, sel, g)
    {
      hide IsRollUp, GroupOf, Plus, Single;
      groups := [];
      NoGroups(g);
      for i := 0 to |sel|
        invariant IsRollUp(groups, sel[..i], g)
      {
        ghost var seen := sel[..i];
        var r := sel[i];
        var key := GroupOf(g, r);
        var j := 0;
        while j < |groups| && groups[j].key != key
          invariant j <= |groups| && forall k :: 0 <= k < j ==> groups[k].key != key
        {
          j := j + 1;
        }
        assert sel[..i + 1] == seen + [r];
        if j < |groups| {
          AddToGroup(groups, seen, g, r, j);
          groups := groups[j := Group(key, Plus(groups[j].totals, Single(r)))];
        } else {
          AddNewGroup(groups, seen, g, r);
          groups := groups + [Group(key, Single(r))];
        }
      }
      assert sel[..|sel|] == sel;
    }
  }

  predicate Matches(r: CostRecord, start: int, end: int, project: seq<string>, reach: Reach) {
    && TextInWindow(r.timestamp, start, end, reach)
    && (project == [] || r.project == project[0])
  }

  function Selected(rows: seq<CostRecord>, start: int, end: int, project: seq<string>, reach: Reach): seq<CostRecord> {
    if rows == [] then []
    else
      var n := |rows| - 1;
      Selected(rows[..n], start, end, project, reach)
      + (if Matches(rows[n], start, end, project, reach) then [rows[n]] else [])
  }

  /** Each record of the project is selected exactly when its instant lies in
      the window, as often as it was stored. */
  lemma {:induction false} SelectionIsByTime(rows: seq<CostRecord>, start: int, end: int, project: seq<string>, reach: Reach,
                                             r: CostRecord, at: Instant)
    requires InRange(at) && r.timestamp == Render(at)
    requires start <= end && ValidReach(reach) && SoundWindow(start, end, reach)
    ensures multiset(Selected(rows, start, end, project, reach))[r] ==
            if OfUnixSeconds(start) <= at < OfUnixSeconds(end) && (project == [] || r.project == project[0])
            then multiset(rows)[r] else 0
  {
    hide TextInWindow, Less, Render, BoundText, InRange, Late, SoundWindow, ValidReach;
    if rows != [] {
      var n := |rows| - 1;
      SelectionIsByTime(rows[..n], start, end, project, reach, r, at);
      WindowFilterExactIff(start, end, reach);
      assert rows == rows[..n] + [rows[n]];
    }
  }

  lemma NoGroups(g: GroupBy)
    ensures IsRollUp([], [], g)
  {}

  lemma AddToGroup(groups: seq<Group>, rows: seq<CostRecord>, g: GroupBy, r: CostRecord, j: nat)
    requires IsRollUp(groups, rows, g) && j < |groups| && groups[j].key == GroupOf(g, r)
    ensures IsRollUp(groups[j := Group(GroupOf(g, r), Plus(groups[j].totals, Single(r)))], rows + [r], g)
  {
    hide GroupOf;
    var groups' := groups[j := Group(GroupOf(g, r), Plus(groups[j].totals, Single(r)))];
    assert (rows + [r])[..|rows|] == rows;
    assert forall i :: 0 <= i < |groups| ==> groups'[i].key == groups[i].key;
    forall x | x in rows + [r]
      ensures exists i :: 0 <= i < |groups'| && groups'[i].key == GroupOf(g, x)
    {
      if x in rows {
        var i :| 0 <= i < |groups| && groups[i].key == GroupOf(g, x);
        assert groups'[i].key == GroupOf(g, x);
      } else {
        assert groups'[j].key == GroupOf(g, x);
      }
    }
  }

  lemma AddNewGroup(groups: seq<Group>, rows: seq<CostRecord>, g: GroupBy, r: CostRecord)
    requires IsRollUp(groups, rows, g)
    requires forall k :: 0 <= k < |groups| ==> groups[k].key != GroupOf(g, r)
    ensures IsRollUp(groups + [Group(GroupOf(g, r), Single(r))], rows + [r], g)
  {
    hide GroupOf;
    assert Single(r).count == 1;
    var key := GroupOf(g, r);
    var groups' := groups + [Group(key, Single(r))];
    assert (rows + [r])[..|rows|] == rows;
    AbsentGroup(groups, rows, g, key);
    assert TotalsIn(rows + [r], g, {key}) == Plus(Zero(), Single(r)) == Single(r);
    forall x | x in rows + [r]
      ensures exists i :: 0 <= i < |groups'| && groups'[i].key == GroupOf(g, x)
    {
      if x in rows {
        var i :| 0 <= i < |groups| && groups[i].key == GroupOf(g, x);
        assert groups'[i].key == GroupOf(g, x);
      } else {
        assert groups'[|groups|].key == GroupOf(g, x);
      }
    }
  }

  lemma {:induction false} AbsentGroup(groups: seq<Group>, rows: seq<CostRecord>, g: GroupBy, key: Key)
    requires forall r :: r in rows ==> exists i :: 0 <= i < |groups| && groups[i].key == GroupOf(g, r)
    requires forall k :: 0 <= k < |groups| ==> groups[k].key != key
    ensures TotalsIn(rows, g, {key}) == Zero()
  {
    hide GroupOf;
    if rows != [] {
      assert rows[|rows| - 1] in rows;
      AbsentGroup(groups, rows[..|rows| - 1], g, key);
    }
  }
}
