/** components/dashboard/task-contribution-calendar.tsx: the heat map of
    task creations over the last 365 days. Days are day numbers
    (`DayOf`), the current time `now` is a parameter. */
module ContributionCalendar {
  import opened Common
  import opened Entities
  import opened Sorting

  /** The range selector: '30' | '90' | '180' | '365'. */
  datatype TimeRange = Last30 | Last90 | Last180 | Last365

  function RangeDays(range: TimeRange): (n: nat)
    ensures 1 <= n <= 365
  {
    match range
    case Last30 => 30
    case Last90 => 90
    case Last180 => 180
    case Last365 => 365
  }

  /** The 365 days ending today, oldest first. */
  function Window(today: int): (w: seq<int>)
    ensures |w| == 365 && w[364] == today
    ensures forall i, j :: 0 <= i < j < |w| ==> w[i] < w[j]
  {
    seq(365, i => today - 364 + i)
  }

  /** `dateList`: starting 364 days before `now`, one day is pushed per
      iteration until the cursor passes `now`. */
  method DateList(now: int) returns (dates: seq<int>)
    ensures dates == Window(DayOf(now))
  {
    var start := now - 364 * MsPerDay;
    var current := start;
    dates := [];
    while current <= now
      invariant current == start + |dates| * MsPerDay
      invariant |dates| <= 365
      invariant forall i :: 0 <= i < |dates| ==> dates[i] == DayOf(now) - 364 + i
      decreases now - current
    {
      DayOfShift(now, |dates| - 364);
      dates := dates + [DayOf(current)];
      current := current + MsPerDay;
    }
  }

  function CreatedOn(d: int): Task -> bool {
    (t: Task) => DayOf(t.createdAt) == d
  }

  /** Scanning one more task adds one to the tally of its creation day only. */
  lemma TallyStep(tasks: seq<Task>, i: nat)
    requires i < |tasks|
    ensures forall d :: Count(tasks[..i + 1], CreatedOn(d))
                        == Count(tasks[..i], CreatedOn(d)) + (if DayOf(tasks[i].createdAt) == d then 1 else 0)
  {
    assert tasks[..i + 1] == tasks[..i] + [tasks[i]];
    forall d
      ensures Count(tasks[..i + 1], CreatedOn(d))
              == Count(tasks[..i], CreatedOn(d)) + (if DayOf(tasks[i].createdAt) == d then 1 else 0)
    {
      FilterAppend(tasks[..i], [tasks[i]], CreatedOn(d));
      assert Filter([tasks[i]], CreatedOn(d)) == if CreatedOn(d)(tasks[i]) then [tasks[i]] else [];
    }
  }

  /** `taskCountByDate`: every listed day starts at 0, and each task adds
      one to its creation day if that day is listed. */
  method TallyCreated(dates: seq<int>, tasks: seq<Task>) returns (counts: map<int, nat>)
    ensures counts.Keys == set d | d in dates
    ensures forall d :: d in counts ==> counts[d] == Count(tasks, CreatedOn(d))
  {
    counts := map[];
    for i := 0 to |dates|
      invariant counts.Keys == set d | d in dates[..i]
      invariant forall d :: d in counts ==> counts[d] == 0
    {
      assert dates[..i + 1] == dates[..i] + [dates[i]];
      counts := counts[dates[i] := 0];
    }
    assert dates[..|dates|] == dates;
    for i := 0 to |tasks|
      invariant counts.Keys == set d | d in dates
      invariant forall d :: d in counts ==> counts[d] == Count(tasks[..i], CreatedOn(d))
    {
      TallyStep(tasks, i);
      var day := DayOf(tasks[i].createdAt);
      if day in counts {
        counts := counts[day := counts[day] + 1];
      }
    }
    assert tasks[..|tasks|] == tasks;
  }

  /** The sum of the tallies of the listed days. */
  function SumOver(dates: seq<int>, counts: map<int, nat>): nat
    requires forall i :: 0 <= i < |dates| ==> dates[i] in counts
  {
    if dates == [] then 0 else counts[dates[0]] + SumOver(dates[1..], counts)
  }

  function CreatedIn(dates: seq<int>): Task -> bool {
    (t: Task) => DayOf(t.createdAt) in dates
  }

  /** Over distinct days, the tallies add up to the number of tasks created
      on one of those days, so never to more than the number of tasks. */
  lemma {:induction false} TallySum(dates: seq<int>, counts: map<int, nat>, tasks: seq<Task>)
    requires Distinct(dates)
    requires forall i :: 0 <= i < |dates| ==> dates[i] in counts && counts[dates[i]] == Count(tasks, CreatedOn(dates[i]))
    ensures SumOver(dates, counts) == Count(tasks, CreatedIn(dates))
    ensures SumOver(dates, counts) <= |tasks|
  {
    if dates == [] {
      assert Filter(tasks, CreatedIn(dates)) == [] by {
        assert forall i :: 0 <= i < |tasks| ==> !CreatedIn(dates)(tasks[i]);
        FilterSame(tasks, CreatedIn(dates), (t: Task) => false);
        NoneKept(tasks);
      }
    } else {
      assert Distinct(dates[1..]);
      TallySum(dates[1..], counts, tasks);
      assert dates == [dates[0]] + dates[1..];
      assert dates[0] !in dates[1..];
      CountSplit(tasks, CreatedOn(dates[0]), CreatedIn(dates[1..]), CreatedIn(dates));
    }
  }

  lemma {:induction false} NoneKept(tasks: seq<Task>)
    ensures Filter(tasks, (t: Task) => false) == []
  {
    if tasks != [] {
      NoneKept(tasks[1..]);
    }
  }

  /** `Math.max(...Object.values(taskCountByDate), 1)`. */
  function MaxCount(dates: seq<int>, counts: map<int, nat>): (m: nat)
    requires forall i :: 0 <= i < |dates| ==> dates[i] in counts
    ensures m >= 1
    ensures forall i :: 0 <= i < |dates| ==> counts[dates[i]] <= m
    ensures m == 1 || exists i :: 0 <= i < |dates| && counts[dates[i]] == m
  {
    if dates == [] then 1
    else
      var rest := MaxCount(dates[1..], counts);
      if counts[dates[0]] > rest then counts[dates[0]] else rest
  }

  /** `calculateLevel`: 0 for no tasks; the count itself when the busiest
      day has at most 4; otherwise `min(ceil(count / (maxCount / 4)), 4)`,
      written here as the exact `ceil(4 count / maxCount)`. */
  function Level(count: nat, maxCount: nat): (level: nat)
    requires maxCount >= 1
    ensures level == 0 <==> count == 0
    ensures count <= maxCount ==> level <= 4
    ensures maxCount > 4 ==> level <= 4
    ensures count == maxCount ==> level == if maxCount <= 4 then count else 4
  {
    if count == 0 then 0
    else if maxCount <= 4 then count
    else
      CeilFacts(count, maxCount);
      var c := (4 * count + maxCount - 1) / maxCount;
      if c < 4 then c else 4
  }

  lemma CeilFacts(count: nat, maxCount: nat)
    requires count >= 1 && maxCount >= 1
    ensures (4 * count + maxCount - 1) / maxCount >= 1
    ensures count == maxCount ==> (4 * count + maxCount - 1) / maxCount >= 4
  {
    QuotientAtLeast(4 * count + maxCount - 1, maxCount, 1);
    if count == maxCount {
      QuotientAtLeast(4 * count + maxCount - 1, maxCount, 4);
    }
  }

  /** For a fixed busiest day, a busier day never gets a lower level. */
  lemma LevelMonotone(a: nat, b: nat, maxCount: nat)
    requires maxCount >= 1 && a <= b
    ensures Level(a, maxCount) <= Level(b, maxCount)
  {
    if a > 0 && maxCount > 4 {
      DivMonotone(4 * a + maxCount - 1, 4 * b + maxCount - 1, maxCount);
    }
  }

  lemma DivMonotone(x: nat, y: nat, d: nat)
    requires d > 0 && x <= y
    ensures x / d <= y / d
  {
    var q := x / d;
    assert d * q <= y;
    QuotientAtLeast(y, d, q);
  }

  /** `new Date(date) >= selectedRangeStartDate` as written: the day's first
      millisecond against `now` moved back `range - 1` whole days, time of
      day included. */
  predicate InSelectedRangeAsWritten(day: int, now: int, range: TimeRange)
    ensures day >= DayOf(now) ==> InSelectedRangeAsWritten(day, now, range)
    ensures day <= DayOf(now) - RangeDays(range) ==> !InSelectedRangeAsWritten(day, now, range)
  {
    DayOfBounds(now);
    DayStart(day) >= now - (RangeDays(range) - 1) * MsPerDay
  }

  /** Unless `now` is exactly midnight, the comparison as written leaves out
      the oldest day of the range: only `range - 1` days are highlighted. */
  lemma AsWrittenRangeIsOneDayShort(day: int, now: int, range: TimeRange)
    requires now % MsPerDay != 0
    ensures InSelectedRangeAsWritten(day, now, range) <==> day >= DayOf(now) - RangeDays(range) + 2
    ensures !InSelectedRangeAsWritten(DayOf(now) - RangeDays(range) + 1, now, range)
  {
    var r := now % MsPerDay;
    assert now == DayOf(now) * MsPerDay + r;
    var k := day - (DayOf(now) - RangeDays(range) + 1);
    assert DayStart(day) - (now - (RangeDays(range) - 1) * MsPerDay) == k * MsPerDay - r;
  }

  /** At exactly midnight the comparison as written selects the whole
      range: it then agrees with the corrected one. */
  lemma AsWrittenAtMidnight(day: int, now: int, range: TimeRange)
    requires now % MsPerDay == 0
    ensures InSelectedRangeAsWritten(day, now, range) <==> InSelectedRange(day, DayOf(now), range)
  {
    assert now == DayOf(now) * MsPerDay;
    var k := day - (DayOf(now) - RangeDays(range) + 1);
    assert DayStart(day) - (now - (RangeDays(range) - 1) * MsPerDay) == k * MsPerDay;
  }

  /** The selected range meant: the last `range` days, today included. */
  predicate InSelectedRange(day: int, today: int, range: TimeRange)
    ensures day == today ==> InSelectedRange(day, today, range)
    ensures day <= today - 365 ==> !InSelectedRange(day, today, range)
  {
    day > today - RangeDays(range)
  }

  /** Along the window, the days in range are exactly the last `range` ones,
      so once a day is in range every later day is too. */
  lemma SelectedRangeIsSuffix(today: int, range: TimeRange)
    ensures forall i :: 0 <= i < 365 ==> (InSelectedRange(Window(today)[i], today, range) <==> i >= 365 - RangeDays(range))
    ensures forall i, j :: 0 <= i <= j < 365 && InSelectedRange(Window(today)[i], today, range)
              ==> InSelectedRange(Window(today)[j], today, range)
  {
  }

  /** The as-written comparison is monotone along the window too. */
  lemma AsWrittenRangeMonotone(now: int, range: TimeRange, a: int, b: int)
    requires a <= b && InSelectedRangeAsWritten(a, now, range)
    ensures InSelectedRangeAsWritten(b, now, range)
  {
    assert DayStart(b) - DayStart(a) == (b - a) * MsPerDay;
  }

  /** One cell of the heat map. */
  datatype DayData = DayData(date: int, count: nat, level: nat, inSelectedRange: bool)

  /** `dateList.map(...)`: one cell per listed day, in order. */
  function CalendarData(dates: seq<int>, counts: map<int, nat>, today: int, range: TimeRange): (data: seq<DayData>)
    requires forall i :: 0 <= i < |dates| ==> dates[i] in counts
    ensures |data| == |dates|
    ensures forall i :: 0 <= i < |data| ==>
              && data[i].date == dates[i]
              && data[i].count == counts[dates[i]]
              && data[i].level <= 4
              && (data[i].level == 0 <==> data[i].count == 0)
              && data[i].inSelectedRange == InSelectedRange(dates[i], today, range)
  {
    var maxCount := MaxCount(dates, counts);
    seq(|dates|, i requires 0 <= i < |dates| =>
      DayData(dates[i], counts[dates[i]], Level(counts[dates[i]], maxCount), InSelectedRange(dates[i], today, range)))
  }

  /** The whole effect: 365 cells, oldest first, each with the number of
      tasks created that day; together they count no task twice. The
      in-range flag is the corrected one, the last `range` cells; it
      differs from the comparison as written only on the oldest cell of
      the range, and only when `now` is not exactly midnight. */
  method BuildCalendar(tasks: seq<Task>, now: int, range: TimeRange) returns (data: seq<DayData>)
    ensures |data| == 365
    ensures forall i :: 0 <= i < 365 ==>
              && data[i].date == DayOf(now) - 364 + i
              && data[i].count == Count(tasks, CreatedOn(data[i].date))
              && data[i].level <= 4
              && (data[i].level == 0 <==> data[i].count == 0)
              && (data[i].inSelectedRange <==> i >= 365 - RangeDays(range))
    ensures forall i :: 0 <= i < 365 ==>
              (data[i].inSelectedRange <==>
                 InSelectedRangeAsWritten(data[i].date, now, range)
                 || (now % MsPerDay != 0 && i == 365 - RangeDays(range)))
    ensures TotalCount(data) <= |tasks|
  {
    var dates := DateList(now);
    var counts := TallyCreated(dates, tasks);
    data := CalendarData(dates, counts, DayOf(now), range);
    SelectedRangeIsSuffix(DayOf(now), range);
    forall i | 0 <= i < 365
      ensures data[i].inSelectedRange <==>
                InSelectedRangeAsWritten(data[i].date, now, range)
                || (now % MsPerDay != 0 && i == 365 - RangeDays(range))
    {
      if now % MsPerDay == 0 {
        AsWrittenAtMidnight(data[i].date, now, range);
      } else {
        AsWrittenRangeIsOneDayShort(data[i].date, now, range);
      }
    }
    assert Distinct(dates);
    TallySum(dates, counts, tasks);
    TotalCountIsSum(data, dates, counts);
  }

  function TotalCount(data: seq<DayData>): nat {
    if data == [] then 0 else data[0].count + TotalCount(data[1..])
  }

  lemma {:induction false} TotalCountIsSum(data: seq<DayData>, dates: seq<int>, counts: map<int, nat>)
    requires forall i :: 0 <= i < |dates| ==> dates[i] in counts
    requires |data| == |dates|
    requires forall i :: 0 <= i < |data| ==> data[i].count == counts[dates[i]]
    ensures TotalCount(data) == SumOver(dates, counts)
  {
    if data != [] {
      TotalCountIsSum(data[1..], dates[1..], counts);
    }
  }
}
