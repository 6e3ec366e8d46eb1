/** The data step of the main dashboard (js/shiva.js): daily changes of the cumulative
    timelines, weekly totals for the line chart, the seven-day average shown in the bar
    chart's tooltip, and the fatality-rate rows of the bubble chart. */
module Shiva {
  import opened Common
  import Strings

  /** One entry of `Object.entries(rawData.cases)` (or of `deaths`): its day and running total. */
  datatype Point = Point(date: int, value: int)

  /** The same entry with its `daily_<key>` field added beside the original ones. */
  datatype DailyPoint = DailyPoint(point: Point, daily: int)

  /** `calculateDailyChanges`: every item kept, with the change from the item before it
      (0 for the first item, and a negative change where the total was revised down). */
  function DailyChanges(data: seq<Point>): (r: seq<DailyPoint>)
    ensures |r| == |data|
    ensures forall i :: 0 <= i < |r| ==> r[i].point == data[i]
    ensures |r| > 0 ==> r[0].daily == 0
  {
    seq(|data|, i requires 0 <= i < |data| =>
      DailyPoint(data[i], if i == 0 then 0 else data[i].value - data[i - 1].value))
  }

  /** The `daily_<key>` column of a series. */
  function DailyValues(d: seq<DailyPoint>): seq<int>
  {
    seq(|d|, i requires 0 <= i < |d| => d[i].daily)
  }

  /** The running totals of a series. */
  function Totals(data: seq<Point>): seq<int>
  {
    seq(|data|, i requires 0 <= i < |data| => data[i].value)
  }

  /** Differences of consecutive totals (0 first) add up, over the first k, to the k-th total
      minus the first. */
  lemma {:induction false} PrefixTelescope(d: seq<int>, v: seq<int>, k: nat)
    requires |d| == |v| && 1 <= k <= |d| && d[0] == 0
    requires forall i :: 1 <= i < |d| ==> d[i] == v[i] - v[i - 1]
    ensures Sum(d[..k]) == v[k - 1] - v[0]
  {
    if k == 1 {
      assert d[..1] == [0];
      assert Sum([0]) == Sum([]) + 0;
    } else {
      PrefixTelescope(d, v, k - 1);
      assert d[..k][..k - 1] == d[..k - 1];
    }
  }

  lemma {:induction false} DailyValuesAreDifferences(data: seq<Point>)
    requires |data| > 0
    ensures |DailyValues(DailyChanges(data))| == |Totals(data)|
    ensures DailyValues(DailyChanges(data))[0] == 0
    ensures forall i :: 1 <= i < |data| ==>
      DailyValues(DailyChanges(data))[i] == Totals(data)[i] - Totals(data)[i - 1]
  {
    var r := DailyChanges(data);
    forall i | 1 <= i < |data|
      ensures DailyValues(r)[i] == Totals(data)[i] - Totals(data)[i - 1]
    {
      assert r[i] == DailyPoint(data[i], data[i].value - data[i - 1].value);
    }
  }

  /** The daily changes telescope: their sum is the last total minus the first. */
  lemma {:induction false} DailyChangesTelescope(data: seq<Point>)
    requires |data| > 0
    ensures Sum(DailyValues(DailyChanges(data))) == data[|data| - 1].value - data[0].value
  {
    var d, v := DailyValues(DailyChanges(data)), Totals(data);
    DailyValuesAreDifferences(data);
    PrefixTelescope(d, v, |d|);
    SumWhole(d);
  }

  lemma {:induction false} SumWhole(s: seq<int>)
    ensures Sum(s[..|s|]) == Sum(s)
  {
    assert s[..|s|] == s;
  }

  /** No clamping: a total revised downwards gives a negative daily change. */
  lemma {:induction false} DailyChangeCanBeNegative()
    ensures DailyChanges([Point(0, 150), Point(1, 140)])[1].daily == -10
  {
  }

  /** What `processData` returns (the simulated vaccine series passed through is not modelled). */
  datatype Processed = Processed(
    cumulativeCases: seq<Point>, cumulativeDeaths: seq<Point>,
    dailyCases: seq<DailyPoint>, dailyDeaths: seq<DailyPoint>)

  /** `processData`: the cumulative series as given and their daily changes, aligned day by day. */
  function ProcessData(cases: seq<Point>, deaths: seq<Point>): (r: Processed)
    ensures r.cumulativeCases == cases && r.cumulativeDeaths == deaths
    ensures |r.dailyCases| == |cases| && |r.dailyDeaths| == |deaths|
    ensures forall i :: 0 <= i < |cases| ==> r.dailyCases[i].point == cases[i]
    ensures forall i :: 0 <= i < |deaths| ==> r.dailyDeaths[i].point == deaths[i]
  {
    Processed(cases, deaths, DailyChanges(cases), DailyChanges(deaths))
  }

  // ----- Weekly aggregation of the line chart -----

  /** One element of `weeklyData`. */
  datatype WeekBucket = WeekBucket(week: int, cases: int, weekLabel: string)

  /** `Math.max(0, dailyCases.length - 56)`: only the last eight weeks are aggregated. */
  function WeekStart(n: nat): nat
  {
    if n > 56 then n - 56 else 0
  }

  /** The number of windows the loop produces: the days from the start, in sevens, rounded up. */
  function WeekCount(n: nat): nat
  {
    (n - WeekStart(n) + 6) / 7
  }

  /** The daily values of week k (0-based): seven days, or fewer for the last window. */
  function WeekWindow(daily: seq<int>, k: nat): (w: seq<int>)
    requires WeekStart(|daily|) + 7 * k < |daily|
    ensures 1 <= |w| <= 7
  {
    var lo := WeekStart(|daily|) + 7 * k;
    daily[lo..Min(lo + 7, |daily|)]
  }

  function WeekTotals(weeks: seq<WeekBucket>): seq<int>
  {
    seq(|weeks|, k requires 0 <= k < |weeks| => weeks[k].cases)
  }

  /** Week k (0-based) as the loop builds it: numbered k + 1, labelled "Week k+1", holding
      the sum of its window. */
  function Bucket(daily: seq<int>, k: nat): WeekBucket
    requires WeekStart(|daily|) + 7 * k < |daily|
  {
    WeekBucket(k + 1, Sum(WeekWindow(daily, k)), "Week " + Strings.IntToString(k + 1))
  }

  /** The first w buckets the loop produces. */
  function WeeksUpTo(daily: seq<int>, w: nat): (r: seq<WeekBucket>)
    requires WeekStart(|daily|) + 7 * w <= |daily| + 6
    ensures |r| == w
  {
    if w == 0 then [] else WeeksUpTo(daily, w - 1) + [Bucket(daily, w - 1)]
  }

  /** Bucket k of the loop is week k + 1 with the sum of its own window. */
  lemma {:induction false} WeeksUpToAt(daily: seq<int>, w: nat, k: nat)
    requires WeekStart(|daily|) + 7 * w <= |daily| + 6 && k < w
    ensures WeekStart(|daily|) + 7 * k < |daily|
    ensures WeeksUpTo(daily, w)[k] == Bucket(daily, k)
  {
    if k < w - 1 {
      WeeksUpToAt(daily, w - 1, k);
    }
  }

  /** The first w buckets add up to the days they cover. */
  lemma {:induction false} WeeksUpToSum(daily: seq<int>, w: nat)
    requires WeekStart(|daily|) + 7 * w <= |daily| + 6
    ensures Sum(WeekTotals(WeeksUpTo(daily, w))) == Sum(daily[WeekStart(|daily|)..Min(WeekStart(|daily|) + 7 * w, |daily|)])
  {
    var start := WeekStart(|daily|);
    if w == 0 {
      assert daily[start..start] == [];
    } else {
      WeeksUpToSum(daily, w - 1);
      WeeksUpToSumStep(daily, w);
    }
  }

  /** The inductive step of `WeeksUpToSum`: one more window adds its own days. */
  lemma {:induction false} WeeksUpToSumStep(daily: seq<int>, w: nat)
    requires 0 < w && WeekStart(|daily|) + 7 * w <= |daily| + 6
    requires Sum(WeekTotals(WeeksUpTo(daily, w - 1))) == Sum(daily[WeekStart(|daily|)..WeekStart(|daily|) + 7 * (w - 1)])
    ensures Sum(WeekTotals(WeeksUpTo(daily, w))) == Sum(daily[WeekStart(|daily|)..Min(WeekStart(|daily|) + 7 * w, |daily|)])
  {
    var start, n := WeekStart(|daily|), |daily|;
    var i := start + 7 * (w - 1);
    var hi := Min(i + 7, n);
    var prev, b := WeeksUpTo(daily, w - 1), Bucket(daily, w - 1);
    assert WeeksUpTo(daily, w) == prev + [b];
    assert Min(start + 7 * w, n) == hi;
    assert b.cases == Sum(daily[i..hi]);
    WeekTotalsAppend(prev, b);
    SumSplit(daily, start, i, hi);
  }

  /** The weekly loop of `createLineChart`: windows of seven days from `WeekStart`, numbered
      1, 2, 3, ... and labelled "Week k"; at most eight of them, and together they add up to
      the daily cases they cover, no day counted twice or dropped. */
  method WeeklyData(dailyCases: seq<DailyPoint>) returns (weeks: seq<WeekBucket>)
    ensures |weeks| == WeekCount(|dailyCases|) && |weeks| <= 8
    ensures forall k :: 0 <= k < |weeks| ==>
      WeekStart(|dailyCases|) + 7 * k < |dailyCases| &&
      weeks[k] == Bucket(DailyValues(dailyCases), k)
    ensures Sum(WeekTotals(weeks)) == Sum(DailyValues(dailyCases)[WeekStart(|dailyCases|)..])
  {
    var daily := DailyValues(dailyCases);
    var n := |dailyCases|;
    var start := WeekStart(n);
    weeks := [];
    var i := start;
    while i < n
      invariant i == start + 7 * |weeks| <= n + 6
      invariant weeks == WeeksUpTo(daily, |weeks|)
    {
      var hi := Min(i + 7, n);
      var weekCases := Sum(daily[i..hi]);
      var week := (i - start) / 7 + 1;
      assert week == |weeks| + 1;
      assert daily[i..hi] == WeekWindow(daily, |weeks|);
      weeks := weeks + [WeekBucket(week, weekCases, "Week " + Strings.IntToString(week))];
      i := i + 7;
    }
    WeeksComplete(daily, |weeks|);
  }

  /** Once the windows reach past the last day, the buckets are all the weeks from `WeekStart`. */
  lemma {:induction false} WeeksComplete(daily: seq<int>, w: nat)
    requires |daily| <= WeekStart(|daily|) + 7 * w <= |daily| + 6
    ensures w == WeekCount(|daily|) && w <= 8
    ensures forall k :: 0 <= k < w ==>
      WeekStart(|daily|) + 7 * k < |daily| && WeeksUpTo(daily, w)[k] == Bucket(daily, k)
    ensures Sum(WeekTotals(WeeksUpTo(daily, w))) == Sum(daily[WeekStart(|daily|)..])
  {
    var start, n := WeekStart(|daily|), |daily|;
    WeekCountAtExit(n, w);
    forall k | 0 <= k < w
      ensures start + 7 * k < n && WeeksUpTo(daily, w)[k] == Bucket(daily, k)
    {
      WeeksUpToAt(daily, w, k);
    }
    WeeksUpToSum(daily, w);
    assert daily[start..Min(start + 7 * w, n)] == daily[start..];
  }

  /** Once the windows reach past the last day (by less than a week), there are WeekCount of them. */
  lemma {:induction false} WeekCountAtExit(n: nat, w: nat)
    requires n <= WeekStart(n) + 7 * w <= n + 6
    ensures w == WeekCount(n) && w <= 8
  {
  }

  lemma {:induction false} WeekTotalsAppend(weeks: seq<WeekBucket>, w: WeekBucket)
    ensures Sum(WeekTotals(weeks + [w])) == Sum(WeekTotals(weeks)) + w.cases
  {
    assert WeekTotals(weeks + [w]) == WeekTotals(weeks) + [w.cases];
    SumAppend(WeekTotals(weeks), w.cases);
  }

  // ----- Seven-day average -----

  /** `data.slice(Math.max(0, index - 6), index + 1)`. */
  function SevenDayWindow(data: seq<int>, index: nat): (w: seq<int>)
    requires index < |data|
    ensures 1 <= |w| <= 7
  {
    data[Max(0, index - 6)..index + 1]
  }

  /** `calculate7DayAvg`: the mean of the window ending at `index`; the window is never empty,
      so there is no division by zero. */
  function SevenDayAverage(data: seq<DailyPoint>, index: int): (avg: real)
    requires 0 <= index < |data|
    ensures avg * (|SevenDayWindow(DailyValues(data), index)| as real)
            == Sum(SevenDayWindow(DailyValues(data), index)) as real
  {
    var w := SevenDayWindow(DailyValues(data), index);
    Sum(w) as real / |w| as real
  }

  /** The average lies between any lower and upper bound of the values in its window. */
  lemma {:induction false} SevenDayAverageBounded(data: seq<DailyPoint>, index: int, lo: int, hi: int)
    requires 0 <= index < |data|
    requires forall i :: 0 <= i < |SevenDayWindow(DailyValues(data), index)| ==>
      lo <= SevenDayWindow(DailyValues(data), index)[i] <= hi
    ensures lo as real <= SevenDayAverage(data, index) <= hi as real
  {
    var w := SevenDayWindow(DailyValues(data), index);
    var n := |w|;
    SumBounds(w, lo, hi);
    ScaledBoundsAsReal(n, lo, hi, Sum(w));
    QuotientBounds(Sum(w) as real, n as real, lo as real, hi as real);
  }

  /** Integer bounds n * lo <= total <= n * hi carry over to the reals. */
  lemma {:induction false} ScaledBoundsAsReal(n: int, lo: int, hi: int, total: int)
    requires n * lo <= total <= n * hi
    ensures n as real * lo as real <= total as real <= n as real * hi as real
  {
    assert (n * lo) as real == n as real * lo as real;
    assert (n * hi) as real == n as real * hi as real;
  }

  // ----- Fatality-rate bubbles -----

  /** One row of `dailyData` in `createCaseFatalityChart`. */
  datatype FatalityRow = FatalityRow(date: int, newCases: int, newDeaths: int, fatalityRate: real)

  /** `newDeaths / newCases * 100` when both are positive, else 0. */
  function FatalityRate(newDeaths: int, newCases: int): (rate: real)
    ensures rate >= 0.0
    ensures rate > 0.0 <==> newDeaths > 0 && newCases > 0
    ensures newDeaths > 0 && newCases > 0 ==> rate * newCases as real == newDeaths as real * 100.0
  {
    if newDeaths > 0 && newCases > 0 then (newDeaths as real / newCases as real) * 100.0 else 0.0
  }

  /** The mapped rows, before filtering: day i of the cases series with day i of the deaths. */
  function AllFatalityRows(cases: seq<DailyPoint>, deaths: seq<DailyPoint>): seq<FatalityRow>
    requires |cases| <= |deaths|
  {
    seq(|cases|, i requires 0 <= i < |cases| =>
      FatalityRow(cases[i].point.date, cases[i].daily, deaths[i].daily,
                  FatalityRate(deaths[i].daily, cases[i].daily)))
  }

  predicate HasNewCases(row: FatalityRow) { row.newCases > 0 }

  /** `.filter(d => d.newCases > 0).slice(-30)`: the latest thirty days with new cases. */
  function FatalityRows(cases: seq<DailyPoint>, deaths: seq<DailyPoint>): (r: seq<FatalityRow>)
    requires |cases| <= |deaths|
    ensures |r| == Min(30, |Filter(AllFatalityRows(cases, deaths), HasNewCases)|)
    ensures forall k :: 0 <= k < |r| ==>
      r[k].newCases > 0 && r[k].fatalityRate >= 0.0 && r[k] in AllFatalityRows(cases, deaths)
  {
    LastN(Filter(AllFatalityRows(cases, deaths), HasNewCases), 30)
  }

  /** With thirty or fewer days of new cases, every one of them gets a bubble. */
  lemma {:induction false} FatalityRowsKeepRecentDays(cases: seq<DailyPoint>, deaths: seq<DailyPoint>, i: nat)
    requires |cases| <= |deaths| && i < |cases| && cases[i].daily > 0
    requires |Filter(AllFatalityRows(cases, deaths), HasNewCases)| <= 30
    ensures AllFatalityRows(cases, deaths)[i] in FatalityRows(cases, deaths)
  {
    var all := AllFatalityRows(cases, deaths);
    FilterKeeps(all, HasNewCases, all[i]);
  }

  /** The positions in the cases series that get a bubble: the last thirty positions with
      new cases, ascending. */
  function BubbleDays(cases: seq<DailyPoint>, deaths: seq<DailyPoint>): (r: seq<nat>)
    requires |cases| <= |deaths|
    ensures |r| == |FatalityRows(cases, deaths)|
    ensures forall k :: 0 <= k < |r| ==>
      r[k] < |cases| && cases[r[k]].daily > 0 && FatalityRows(cases, deaths)[k] == AllFatalityRows(cases, deaths)[r[k]]
    ensures forall a, b :: 0 <= a < b < |r| ==> r[a] < r[b]
  {
    var all := AllFatalityRows(cases, deaths);
    var idx := FilterIndices(all, HasNewCases);
    FilterInOrder(all, HasNewCases);
    var r := LastN(idx, 30);
    assert forall k :: 0 <= k < |r| ==> r[k] == idx[|idx| - |r| + k];
    r
  }

  /** The bubbles are the latest days with new cases: once a day gets a bubble, so does every
      later day with new cases; a day with new cases is left out only when thirty later days
      fill the chart. */
  lemma {:induction false} FatalityRowsLatest(cases: seq<DailyPoint>, deaths: seq<DailyPoint>, i: nat)
    requires |cases| <= |deaths| && i < |cases| && cases[i].daily > 0
    ensures i in BubbleDays(cases, deaths) ==>
      forall j :: i < j < |cases| && cases[j].daily > 0 ==> j in BubbleDays(cases, deaths)
    ensures i !in BubbleDays(cases, deaths) ==>
      |FatalityRows(cases, deaths)| == 30 && forall k :: 0 <= k < 30 ==> BubbleDays(cases, deaths)[k] > i
  {
    var all := AllFatalityRows(cases, deaths);
    var idx := FilterIndices(all, HasNewCases);
    FilterInOrder(all, HasNewCases);
    FilterPosition(all, HasNewCases, i);
    LastNLatest(idx, 30, i);
    forall j | i < j < |cases| && cases[j].daily > 0 ensures j in idx {
      FilterPosition(all, HasNewCases, j);
    }
  }

  /** The API series runs in date order, and so do the bubbles. */
  lemma {:induction false} FatalityRowsDateOrdered(cases: seq<DailyPoint>, deaths: seq<DailyPoint>)
    requires |cases| <= |deaths|
    requires forall a, b :: 0 <= a < b < |cases| ==> cases[a].point.date < cases[b].point.date
    ensures forall a, b :: 0 <= a < b < |FatalityRows(cases, deaths)| ==>
      FatalityRows(cases, deaths)[a].date < FatalityRows(cases, deaths)[b].date
  {
    var r := BubbleDays(cases, deaths);
    var rows := FatalityRows(cases, deaths);
    forall a, b | 0 <= a < b < |rows| ensures rows[a].date < rows[b].date {
      assert rows[a].date == cases[r[a]].point.date && rows[b].date == cases[r[b]].point.date;
    }
  }

  datatype Severity = Low | Medium | High

  /** The bubble class: high above 5 %, medium above 2 %, otherwise low. */
  function Classify(rate: real): Severity
  {
    if rate > 5.0 then High else if rate > 2.0 then Medium else Low
  }

  function Rank(s: Severity): nat
  {
    match s
    case Low => 0
    case Medium => 1
    case High => 2
  }

  /** A higher fatality rate never gets a lower class, and the classes split at 2 and 5. */
  lemma {:induction false} ClassifyMonotone(a: real, b: real)
    requires a <= b
    ensures Rank(Classify(a)) <= Rank(Classify(b))
    ensures Classify(a) == High <==> a > 5.0
    ensures Classify(a) == Low <==> a <= 2.0
  {
  }
}
