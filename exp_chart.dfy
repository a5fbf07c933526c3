/** The experience-over-time chart: day labels for the chosen window ending
    today, and for each player a series with one value per day, forward-filled
    from the player's snapshots inside the window (the selected metric of the
    latest snapshot recorded by the end of that day, or nothing before the
    first one). Days are whole day numbers and times are milliseconds; the end
    of day `d` is `d * 86400000 + 86399999`. The current day and the cutoff
    time come in as parameters. */
module ExpChart {
  import opened Wrappers
  import opened JsText
  import ArraySort
  import GroupRoute

  type Point = GroupRoute.Point

  /** The metric shown: experience or level. */
  datatype Mode = Exp | Level

  const DayMs: int := 86400000

  /** `new Date(day + "T23:59:59.999Z")`: the last millisecond of a day. */
  function EndOfDay(day: int): int {
    day * DayMs + DayMs - 1
  }

  // ---------------------------------------------------------------------
  // Window title and axis ticks
  // ---------------------------------------------------------------------

  /** The title for a window of `windowDays` days. */
  function WindowLabel(windowDays: int): (r: string)
    ensures windowDays >= 365 ==> r == "Last 365 days"
    ensures windowDays < 365 ==> r == "Last " + IntToString(windowDays) + " days"
  {
    if windowDays == 7 then "Last 7 days"
    else if windowDays == 30 then "Last 30 days"
    else if windowDays == 90 then "Last 90 days"
    else if windowDays == 180 then "Last 180 days"
    else if windowDays >= 365 then "Last 365 days"
    else "Last " + IntToString(windowDays) + " days"
  }

  /** `String.prototype.slice(start)` for a nonnegative start. */
  function SliceFrom(s: string, start: nat): string {
    if start <= |s| then s[start..] else ""
  }

  /** The x-axis tick callback: "" for thinned-out ticks, otherwise the
      label without its year; `None` (undefined) past the last label. */
  function TickLabel(labels: seq<string>, index: nat): (r: Option<string>)
    ensures index < |labels| ==> r.Some?
    ensures r.Some? && r.value != "" ==> index < |labels| && r.value == SliceFrom(labels[index], 5)
  {
    if |labels| > 30 && index % 7 != 0 then Some("")
    else if |labels| > 15 && index % 3 != 0 then Some("")
    else if index < |labels| then Some(SliceFrom(labels[index], 5))
    else None
  }

  /** Thinning: with more than 30 labels only every 21st tick can show text,
      with 16 to 30 only every 3rd, and with at most 15 every tick shows its label. */
  lemma TickThinning(labels: seq<string>, index: nat)
    ensures |labels| > 30 && TickLabel(labels, index) != Some("") ==> index % 7 == 0 && index % 3 == 0
    ensures |labels| > 15 && TickLabel(labels, index) != Some("") ==> index % 3 == 0
    ensures |labels| > 30 && index % 21 == 0 && index < |labels| ==> TickLabel(labels, index) == Some(SliceFrom(labels[index], 5))
    ensures 15 < |labels| <= 30 && index % 3 == 0 && index < |labels| ==> TickLabel(labels, index) == Some(SliceFrom(labels[index], 5))
    ensures |labels| <= 15 && index < |labels| ==> TickLabel(labels, index) == Some(SliceFrom(labels[index], 5))
  {
  }

  // ---------------------------------------------------------------------
  // Day labels
  // ---------------------------------------------------------------------

  /** The `days` loop: `windowDays` consecutive days, oldest first, ending `today`. */
  method BuildDays(today: int, windowDays: int) returns (days: seq<int>)
    ensures |days| == if windowDays > 0 then windowDays else 0
    ensures forall k :: 0 <= k < |days| ==> days[k] == today - (|days| - 1) + k
    ensures days != [] ==> days[|days| - 1] == today
    ensures forall k :: 0 < k < |days| ==> days[k] == days[k - 1] + 1
  {
    days := [];
    var i := windowDays - 1;
    while i >= 0
      invariant i >= -1 || i == windowDays - 1
      invariant |days| == windowDays - 1 - i
      invariant forall k :: 0 <= k < |days| ==> days[k] == today - (windowDays - 1) + k
    {
      days := days + [today - i];
      i := i - 1;
    }
  }

  // ---------------------------------------------------------------------
  // Points inside the window, in time order
  // ---------------------------------------------------------------------

  /** `.filter((p) => p.date >= cutoff)`. */
  function AfterCutoff(points: seq<Point>, cutoff: int): (r: seq<Point>)
    ensures |r| <= |points|
  {
    if points == [] then []
    else (if points[0].timestamp >= cutoff then [points[0]] else []) + AfterCutoff(points[1..], cutoff)
  }

  lemma {:induction false} AfterCutoffAppend(s: seq<Point>, t: seq<Point>, cutoff: int)
    ensures AfterCutoff(s + t, cutoff) == AfterCutoff(s, cutoff) + AfterCutoff(t, cutoff)
  {
    if s != [] {
      assert (s + t)[0] == s[0] && (s + t)[1..] == s[1..] + t;
      AfterCutoffAppend(s[1..], t, cutoff);
    } else {
      assert s + t == t;
    }
  }

  /** A kept point is a point of the input at or after the cutoff, and every such point is kept. */
  lemma {:induction false} AfterCutoffMember(points: seq<Point>, cutoff: int, p: Point)
    ensures p in AfterCutoff(points, cutoff) <==> p in points && p.timestamp >= cutoff
  {
    if points != [] {
      AfterCutoffMember(points[1..], cutoff, p);
      assert points == [points[0]] + points[1..];
    }
  }

  /** `(a, b) => a.date.getTime() - b.date.getTime()`. */
  function ByTime(a: Point, b: Point): (r: int)
    ensures r < 0 <==> a.timestamp < b.timestamp
    ensures r == 0 <==> a.timestamp == b.timestamp
  {
    a.timestamp - b.timestamp
  }

  predicate Ascending(s: seq<Point>) {
    forall i, j :: 0 <= i < j < |s| ==> s[i].timestamp <= s[j].timestamp
  }

  lemma {:induction false} SortedAscending(s: seq<Point>)
    requires ArraySort.Sorted(s, ByTime)
    ensures Ascending(s)
  {
    if |s| > 1 {
      var n := |s| - 1;
      assert ArraySort.Sorted(s[..n], ByTime);
      SortedAscending(s[..n]);
      assert s[n - 1].timestamp <= s[n].timestamp;
    }
  }

  /** The window's points in time order, as the chain `map`/`filter`/`sort` builds them. */
  function Recent(points: seq<Point>, cutoff: int): seq<Point> {
    ArraySort.SortSpec(AfterCutoff(points, cutoff), ByTime)
  }

  /** The filtered copy sorted in place. */
  method SortRecent(points: seq<Point>, cutoff: int) returns (sorted: seq<Point>)
    ensures sorted == Recent(points, cutoff)
  {
    var kept := AfterCutoff(points, cutoff);
    var a := new Point[|kept|](i requires 0 <= i < |kept| => kept[i]);
    assert a[..] == kept;
    ArraySort.Sort(a, ByTime);
    sorted := a[..];
  }

  /** The window's points are ascending in time, are exactly the input's
      points at or after the cutoff, each as often as it occurs there. */
  lemma RecentIsSortedWindow(points: seq<Point>, cutoff: int)
    ensures Ascending(Recent(points, cutoff))
    ensures multiset(Recent(points, cutoff)) == multiset(AfterCutoff(points, cutoff))
    ensures forall p :: p in Recent(points, cutoff) <==> p in points && p.timestamp >= cutoff
  {
    ArraySort.SortSpecSorted(AfterCutoff(points, cutoff), ByTime);
    SortedAscending(Recent(points, cutoff));
    forall p ensures p in Recent(points, cutoff) <==> p in points && p.timestamp >= cutoff {
      AfterCutoffMember(points, cutoff, p);
      assert p in Recent(points, cutoff) <==> p in multiset(Recent(points, cutoff));
    }
  }

  // ---------------------------------------------------------------------
  // The forward-fill resampler
  // ---------------------------------------------------------------------

  function Metric(p: Point, mode: Mode): int {
    match mode
    case Exp => p.exp
    case Level => p.level
  }

  /** How many leading points are recorded at or before `t`: the longest such prefix. */
  function Consumed(sorted: seq<Point>, t: int): (n: nat)
    ensures n <= |sorted|
    ensures forall i :: 0 <= i < n ==> sorted[i].timestamp <= t
    ensures n < |sorted| ==> sorted[n].timestamp > t
  {
    if sorted == [] || sorted[0].timestamp > t then 0
    else 1 + Consumed(sorted[1..], t)
  }

  /** The value shown for time `t`: the metric of the last consumed point, or nothing. */
  function ValueAt(sorted: seq<Point>, t: int, mode: Mode): Option<int> {
    var n := Consumed(sorted, t);
    if n == 0 then None else Some(Metric(sorted[n - 1], mode))
  }

  /** One value per day. */
  function Resampled(sorted: seq<Point>, days: seq<int>, mode: Mode): (r: seq<Option<int>>)
    ensures |r| == |days|
  {
    seq(|days|, k requires 0 <= k < |days| => ValueAt(sorted, EndOfDay(days[k]), mode))
  }

  predicate DaysAscending(days: seq<int>) {
    forall k :: 0 < k < |days| ==> days[k - 1] <= days[k]
  }

  /** A later time consumes at least as many points. */
  lemma ConsumedMonotone(sorted: seq<Point>, t1: int, t2: int)
    requires t1 <= t2
    ensures Consumed(sorted, t1) <= Consumed(sorted, t2)
  {
  }

  /** The `for (const day of days)` loop with its cursor `lastIndex` / `lastValue`. */
  method Resample(sorted: seq<Point>, days: seq<int>, mode: Mode) returns (data: seq<Option<int>>)
    requires DaysAscending(days)
    ensures data == Resampled(sorted, days, mode)
  {
    data := [];
    var lastIndex := 0;
    var lastValue: Option<int> := None;
    for k := 0 to |days|
      invariant |data| == k
      invariant forall j :: 0 <= j < k ==> data[j] == ValueAt(sorted, EndOfDay(days[j]), mode)
      invariant lastIndex == if k == 0 then 0 else Consumed(sorted, EndOfDay(days[k - 1]))
      invariant lastValue == if lastIndex == 0 then None else Some(Metric(sorted[lastIndex - 1], mode))
    {
      var end := EndOfDay(days[k]);
      if k > 0 {
        ConsumedMonotone(sorted, EndOfDay(days[k - 1]), end);
      }
      ghost var start := lastIndex;
      while lastIndex < |sorted| && sorted[lastIndex].timestamp <= end
        invariant start <= lastIndex <= Consumed(sorted, end)
        invariant lastValue == if lastIndex == 0 then None else Some(Metric(sorted[lastIndex - 1], mode))
        decreases |sorted| - lastIndex
      {
        lastValue := Some(Metric(sorted[lastIndex], mode));
        lastIndex := lastIndex + 1;
      }
      data := data + [lastValue];
    }
  }

  /** On a time-ordered list the value for `t` is the metric of the last point
      recorded at or before `t`, and nothing exactly when every point is later. */
  lemma ValueIsLatestAtOrBefore(sorted: seq<Point>, t: int, mode: Mode)
    requires Ascending(sorted)
    ensures ValueAt(sorted, t, mode).None? <==> forall i :: 0 <= i < |sorted| ==> sorted[i].timestamp > t
    ensures ValueAt(sorted, t, mode).Some? ==>
              exists i :: 0 <= i < |sorted| && sorted[i].timestamp <= t
                && (forall j :: i < j < |sorted| ==> sorted[j].timestamp > t)
                && ValueAt(sorted, t, mode) == Some(Metric(sorted[i], mode))
  {
    var n := Consumed(sorted, t);
    if n > 0 {
      var i := n - 1;
      forall j | i < j < |sorted|
        ensures sorted[j].timestamp > t
      {
        assert sorted[n].timestamp <= sorted[j].timestamp;
      }
    } else if sorted != [] {
      forall j | 0 <= j < |sorted|
        ensures sorted[j].timestamp > t
      {
        assert sorted[0].timestamp <= sorted[j].timestamp;
      }
    }
  }

  /** Forward fill: once a day has a value, every later day has one. */
  lemma ForwardFill(sorted: seq<Point>, days: seq<int>, mode: Mode, j: int, k: int)
    requires DaysAscending(days)
    requires 0 <= j <= k < |days|
    requires Resampled(sorted, days, mode)[j].Some?
    ensures Resampled(sorted, days, mode)[k].Some?
  {
    DaysAscendingPairs(days, j, k);
    ConsumedMonotone(sorted, EndOfDay(days[j]), EndOfDay(days[k]));
  }

  lemma {:induction false} DaysAscendingPairs(days: seq<int>, j: int, k: int)
    requires DaysAscending(days)
    requires 0 <= j <= k < |days|
    ensures days[j] <= days[k]
  {
    if j < k {
      DaysAscendingPairs(days, j, k - 1);
    }
  }

  /** No points, no values. */
  lemma NoPointsAllNull(days: seq<int>, mode: Mode)
    ensures forall k :: 0 <= k < |days| ==> Resampled([], days, mode)[k] == None
  {
  }

  // ---------------------------------------------------------------------
  // Datasets
  // ---------------------------------------------------------------------

  /** `series[username]?.points ?? []`. */
  function PointsOf(series: map<string, seq<Point>>, username: string): (r: seq<Point>)
    ensures username !in series ==> r == []
    ensures username in series ==> r == series[username]
  {
    if username in series then series[username] else []
  }

  /** One player's values, one per day. */
  function DatasetSpec(points: seq<Point>, cutoff: int, days: seq<int>, mode: Mode): seq<Option<int>> {
    Resampled(Recent(points, cutoff), days, mode)
  }

  /** A point recorded before the cutoff never changes a player's values. */
  lemma OldPointIgnored(before: seq<Point>, old_: Point, after: seq<Point>, cutoff: int, days: seq<int>, mode: Mode)
    requires old_.timestamp < cutoff
    ensures DatasetSpec(before + [old_] + after, cutoff, days, mode) == DatasetSpec(before + after, cutoff, days, mode)
  {
    AfterCutoffAppend(before + [old_], after, cutoff);
    AfterCutoffAppend(before, [old_], cutoff);
    AfterCutoffAppend(before, after, cutoff);
    assert AfterCutoff([old_], cutoff) == [];
    assert AfterCutoff(before + [old_], cutoff) == AfterCutoff(before, cutoff);
    assert AfterCutoff(before + [old_] + after, cutoff) == AfterCutoff(before + after, cutoff);
  }

  /** When no point falls inside the window the values are all null. */
  lemma OnlyOldPointsAllNull(points: seq<Point>, cutoff: int, days: seq<int>, mode: Mode)
    requires forall i :: 0 <= i < |points| ==> points[i].timestamp < cutoff
    ensures forall k :: 0 <= k < |days| ==> DatasetSpec(points, cutoff, days, mode)[k] == None
  {
    RecentIsSortedWindow(points, cutoff);
  }

  /** The `players.map(...)` building one dataset per player. */
  method Datasets(players: seq<string>, series: map<string, seq<Point>>, cutoff: int, days: seq<int>, mode: Mode)
    returns (datasets: seq<seq<Option<int>>>)
    requires DaysAscending(days)
    ensures |datasets| == |players|
    ensures forall i :: 0 <= i < |players| ==> datasets[i] == DatasetSpec(PointsOf(series, players[i]), cutoff, days, mode)
  {
    ghost var want := (u: string) => DatasetSpec(PointsOf(series, u), cutoff, days, mode);
    datasets := [];
    for i := 0 to |players|
      invariant |datasets| == i
      invariant forall j :: 0 <= j < i ==> datasets[j] == want(players[j])
    {
      var data := PlayerDataset(PointsOf(series, players[i]), cutoff, days, mode);
      AppendMapped(datasets, data, players[..i + 1], want);
      datasets := datasets + [data];
    }
  }

  /** Appending the image of the next key keeps a list the image of its keys. */
  lemma AppendMapped<K, V>(done: seq<V>, next: V, keys: seq<K>, f: K -> V)
    requires |keys| == |done| + 1
    requires forall j :: 0 <= j < |done| ==> done[j] == f(keys[j])
    requires next == f(keys[|done|])
    ensures forall j :: 0 <= j < |keys| ==> (done + [next])[j] == f(keys[j])
  {
  }

  /** The body of the `players.map` callback: filter, sort, resample. */
  method PlayerDataset(points: seq<Point>, cutoff: int, days: seq<int>, mode: Mode) returns (data: seq<Option<int>>)
    requires DaysAscending(days)
    ensures data == DatasetSpec(points, cutoff, days, mode)
  {
    var sorted := SortRecent(points, cutoff);
    data := Resample(sorted, days, mode);
  }

  /** `hasData`: there is a dataset and some value in some dataset is not null. */
  function HasData(datasets: seq<seq<Option<int>>>): (r: bool)
    ensures r <==> exists i, k :: 0 <= i < |datasets| && 0 <= k < |datasets[i]| && datasets[i][k].Some?
  {
    AllNullIndexed(datasets);
    |datasets| > 0 && !AllNull(datasets)
  }

  /** `datasets.every((d) => d.data.every((v) => v == null))`. */
  predicate AllNull(datasets: seq<seq<Option<int>>>) {
    forall d :: d in datasets ==> forall v :: v in d ==> v.None?
  }

  lemma AllNullIndexed(datasets: seq<seq<Option<int>>>)
    ensures !AllNull(datasets) <==> exists i, k :: 0 <= i < |datasets| && 0 <= k < |datasets[i]| && datasets[i][k].Some?
  {
    if !AllNull(datasets) {
      var d, v :| d in datasets && v in d && v.Some?;
      var i :| 0 <= i < |datasets| && datasets[i] == d;
      var k :| 0 <= k < |d| && d[k] == v;
    }
    if exists i, k :: 0 <= i < |datasets| && 0 <= k < |datasets[i]| && datasets[i][k].Some? {
      var i, k :| 0 <= i < |datasets| && 0 <= k < |datasets[i]| && datasets[i][k].Some?;
      assert datasets[i] in datasets && datasets[i][k] in datasets[i];
    }
  }

  /** Without any snapshot inside the window for any player, the chart shows its "no history" message. */
  lemma NoHistoryWithoutRecentPoints(players: seq<string>, series: map<string, seq<Point>>, cutoff: int, days: seq<int>, mode: Mode, datasets: seq<seq<Option<int>>>)
    requires |datasets| == |players|
    requires forall i :: 0 <= i < |players| ==> datasets[i] == DatasetSpec(PointsOf(series, players[i]), cutoff, days, mode)
    requires forall u, i :: u in series && 0 <= i < |series[u]| ==> series[u][i].timestamp < cutoff
    ensures !HasData(datasets)
  {
    forall i | 0 <= i < |players|
      ensures forall k :: 0 <= k < |days| ==> datasets[i][k] == None
    {
      OnlyOldPointsAllNull(PointsOf(series, players[i]), cutoff, days, mode);
    }
    assert !(exists i, k :: 0 <= i < |datasets| && 0 <= k < |datasets[i]| && datasets[i][k].Some?);
  }
}
