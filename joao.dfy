/** The data step of the disease.sh dashboard (js/joao/joao.js): the recovered series
    rebuilt from cases and deaths, the bar chart's clamped day-over-day changes, and the
    slices of the pie chart. */
module Joao {
  import opened Common
  import opened Dicts
  import Sorting

  /** A `timeline` object of the API: each series maps a date key to a running total;
      a series the response does not carry is None. */
  datatype Timeline = Timeline(cases: Option<Dict<int>>, deaths: Option<Dict<int>>, recovered: Option<Dict<int>>)

  /** A per-country response: its name and its timeline, if it has one. */
  datatype CountryResponse = CountryResponse(country: string, timeline: Option<Timeline>)

  /** The series the code works on are real JavaScript objects: each key once. */
  ghost predicate WellFormed(t: Timeline)
  {
    (t.cases.Some? ==> Valid(t.cases.value)) &&
    (t.deaths.Some? ==> Valid(t.deaths.value)) &&
    (t.recovered.Some? ==> Valid(t.recovered.value))
  }

  // ----- The recovered series -----

  /** The recovered value the code derives for one date: cases minus deaths, never below 0,
      a date missing from either series counting as 0. */
  function DerivedValue(cases: Dict<int>, deaths: Dict<int>, date: string): (v: int)
    ensures v >= 0
    ensures v >= Lookup(cases, date) - Lookup(deaths, date)
    ensures v == 0 || v == Lookup(cases, date) - Lookup(deaths, date)
  {
    Max(0, Lookup(cases, date) - Lookup(deaths, date))
  }

  /** The object holding the derived value of every date in `dates`, keys in that order. */
  function DerivedOver(dates: seq<string>, cases: Dict<int>, deaths: Dict<int>): Dict<int>
  {
    Dict(dates, map k | k in dates :: DerivedValue(cases, deaths, k))
  }

  /** A date of a distinct list is not among the dates before it. */
  lemma {:induction false} NotYetFilled(dates: seq<string>, i: nat, cases: Dict<int>, deaths: Dict<int>)
    requires i < |dates| && Distinct(dates)
    ensures dates[i] !in DerivedOver(dates[..i], cases, deaths).vals
  {
    assert forall j :: 0 <= j < i ==> dates[..i][j] != dates[i];
  }

  /** One turn of the `forEach` extends the object by the next date. */
  lemma {:induction false} DerivedOverStep(dates: seq<string>, i: nat, cases: Dict<int>, deaths: Dict<int>)
    requires i < |dates| && Distinct(dates)
    ensures Put(DerivedOver(dates[..i], cases, deaths), dates[i], DerivedValue(cases, deaths, dates[i]))
         == DerivedOver(dates[..i + 1], cases, deaths)
  {
    NotYetFilled(dates, i, cases, deaths);
    assert dates[..i + 1] == dates[..i] + [dates[i]];
  }

  /** The `forEach` of `processGlobalData` and `processCountryData`, as written: `recovered`
      has just been reset to `{}`, so the API value read from it for each date is always
      0 and the "reasonable API value" branch never runs. */
  method FillRecovered(cases: Dict<int>, deaths: Dict<int>) returns (recovered: Dict<int>)
    requires Valid(cases)
    ensures recovered == DerivedOver(cases.keys, cases, deaths)
  {
    var dates := cases.keys;
    recovered := Empty();
    var i := 0;
    while i < |dates|
      invariant 0 <= i <= |dates|
      invariant recovered == DerivedOver(dates[..i], cases, deaths)
    {
      var date := dates[i];
      var c := Lookup(cases, date);
      var d := Lookup(deaths, date);
      var apiRecovered := Lookup(recovered, date);
      assert apiRecovered == 0 by { NotYetFilled(dates, i, cases, deaths); }
      if apiRecovered > 0 && apiRecovered <= c {
        // `recovered[date] = apiRecovered` would go here; the date cannot be in a map
        // that was reset before the loop and has only received earlier dates.
        assert false;
      } else {
        recovered := Put(recovered, date, Max(0, c - d));
      }
      assert recovered == DerivedOver(dates[..i + 1], cases, deaths) by {
        assert Max(0, c - d) == DerivedValue(cases, deaths, date);
        DerivedOverStep(dates, i, cases, deaths);
      }
      i := i + 1;
    }
    assert dates[..i] == dates;
  }

  /** What `processGlobalData` returns: with both a cases and a deaths series, a copy whose
      `recovered` is rebuilt; otherwise the copy unchanged. */
  function GlobalProcessed(data: Timeline): Timeline
  {
    if data.cases.Some? && data.deaths.Some? then
      data.(recovered := Some(DerivedOver(data.cases.value.keys, data.cases.value, data.deaths.value)))
    else data
  }

  /** `processGlobalData`. */
  method ProcessGlobalData(data: Timeline) returns (processed: Timeline)
    requires WellFormed(data)
    ensures processed == GlobalProcessed(data)
  {
    processed := data;
    if data.cases.Some? && data.deaths.Some? {
      var recovered := FillRecovered(data.cases.value, data.deaths.value);
      processed := processed.(recovered := Some(recovered));
    }
  }

  /** What `processCountryData` returns: the response itself without a timeline, otherwise a
      copy whose timeline is processed like the global one. */
  function CountryProcessed(data: CountryResponse): CountryResponse
  {
    match data.timeline
    case None => data
    case Some(t) => data.(timeline := Some(GlobalProcessed(t)))
  }

  /** `processCountryData`. */
  method ProcessCountryData(data: CountryResponse) returns (processed: CountryResponse)
    requires data.timeline.Some? ==> WellFormed(data.timeline.value)
    ensures processed == CountryProcessed(data)
  {
    if data.timeline.None? {
      return data;
    }
    var timeline := data.timeline.value;
    if timeline.cases.Some? && timeline.deaths.Some? {
      var recovered := FillRecovered(timeline.cases.value, timeline.deaths.value);
      timeline := timeline.(recovered := Some(recovered));
    }
    processed := data.(timeline := Some(timeline));
  }

  /** With both series present, the new `recovered` has exactly the date keys of `cases`, in
      the same order, and each value is max(0, cases - deaths); cases and deaths are kept. */
  lemma {:induction false} GlobalRecovered(data: Timeline)
    requires WellFormed(data) && data.cases.Some? && data.deaths.Some?
    ensures var r := GlobalProcessed(data);
      r.cases == data.cases && r.deaths == data.deaths && r.recovered.Some? &&
      r.recovered.value.keys == data.cases.value.keys &&
      (forall k :: k in r.recovered.value.vals <==> k in data.cases.value.vals) &&
      (forall k :: k in r.recovered.value.vals ==>
        r.recovered.value.vals[k] == Max(0, Lookup(data.cases.value, k) - Lookup(data.deaths.value, k)) &&
        r.recovered.value.vals[k] >= 0)
  {
  }

  /** The recovered series the API sent has no effect on the result. */
  lemma {:induction false} ApiRecoveredIgnored(data: Timeline, other: Option<Dict<int>>)
    requires data.cases.Some? && data.deaths.Some?
    ensures GlobalProcessed(data.(recovered := other)) == GlobalProcessed(data)
  {
  }

  /** Without a cases or a deaths series, nothing is rebuilt and the API's recovered stays. */
  lemma {:induction false} GlobalKeepsRecoveredWithoutBoth(data: Timeline)
    requires data.cases.None? || data.deaths.None?
    ensures GlobalProcessed(data).recovered == data.recovered
  {
  }

  /** The country version behaves like the global one on the timeline, and returns its input
      when there is none. */
  lemma {:induction false} CountryProcessedTimeline(data: CountryResponse)
    ensures data.timeline.None? ==> CountryProcessed(data) == data
    ensures data.timeline.Some? ==>
      CountryProcessed(data).country == data.country &&
      CountryProcessed(data).timeline == Some(GlobalProcessed(data.timeline.value))
  {
  }

  // ----- Bar chart: clamped daily changes -----

  /** The metric selected by the bar chart's buttons. */
  datatype Metric = Cases | Deaths | Recovered

  /** `covidData.global[currentMetric] || covidData.global.cases`: a missing series falls back
      to cases (an empty object is still truthy, so it does not); None when cases is missing
      too, where `Object.entries(undefined)` throws a TypeError. */
  function ChooseSeries(t: Timeline, metric: Metric): (s: Option<Dict<int>>)
    ensures metric == Cases ==> s == t.cases
    ensures metric == Deaths ==> s == (if t.deaths.Some? then t.deaths else t.cases)
    ensures metric == Recovered ==> s == (if t.recovered.Some? then t.recovered else t.cases)
    ensures s.None? ==> t.cases.None?
  {
    var chosen := match metric
      case Cases => t.cases
      case Deaths => t.deaths
      case Recovered => t.recovered;
    if chosen.Some? then chosen else t.cases
  }

  /** One bar: a day (days since 1970-01-01) and a value. */
  datatype DatedValue = DatedValue(date: int, value: int)

  function DateOf(x: DatedValue): int { x.date }

  /** One entry `[date, value]` of the series, its key turned into a day by `parseDay`
      (standing for `new Date(date)`). */
  function EntryAt(series: Dict<int>, parseDay: string -> int, key: string): DatedValue
  {
    DatedValue(parseDay(key), Lookup(series, key))
  }

  /** `Object.entries(series).slice(-60).map(...)`: the entries of the last sixty keys. */
  function LastEntries(series: Dict<int>, parseDay: string -> int): (r: seq<DatedValue>)
    ensures |r| == Min(|series.keys|, 60)
    ensures forall i :: 0 <= i < |r| ==>
      r[i] == EntryAt(series, parseDay, series.keys[|series.keys| - |r| + i])
  {
    var keys := LastN(series.keys, 60);
    seq(|keys|, i requires 0 <= i < |keys| => EntryAt(series, parseDay, keys[i]))
  }

  /** Bar i's day-over-day change, clamped at 0; the first bar has no previous day and gets 0. */
  function Clamped(data: seq<DatedValue>, i: nat): (x: DatedValue)
    requires i < |data|
  {
    DatedValue(data[i].date, if i == 0 then 0 else Max(0, data[i].value - data[i - 1].value))
  }

  /** `data.map((d, i) => ...)`: the clamped change of every bar, before filtering. */
  function ClampedDeltas(data: seq<DatedValue>): (r: seq<DatedValue>)
    ensures |r| == |data|
    ensures forall i :: 0 <= i < |r| ==> r[i].date == data[i].date && r[i].value >= 0
    ensures |r| > 0 ==> r[0].value == 0
  {
    seq(|data|, i requires 0 <= i < |data| => Clamped(data, i))
  }

  /** `new Date('2020-03-01')` as a day number. */
  const March1: int := 18322

  predicate KeepBar(x: DatedValue) { x.value > 0 && x.date > March1 }

  /** `data` of `createBarChart`: the sorted last sixty entries of the chosen series, empty
      without a global timeline, and None where `Object.entries` throws. */
  function BarData(global: Option<Timeline>, metric: Metric, parseDay: string -> int): (r: Option<seq<DatedValue>>)
    ensures r.None? <==> global.Some? && ChooseSeries(global.value, metric).None?
    ensures global.None? ==> r == Some([])
    ensures r.Some? ==> |r.value| <= 60
  {
    if global.None? then Some([])
    else match ChooseSeries(global.value, metric)
      case None => None
      case Some(series) => Some(Sorting.SortByKey(LastEntries(series, parseDay), DateOf))
  }

  /** How `createBarChart` ends: it throws, returns early on empty data, or draws `dailyData`. */
  datatype BarChart = Throws | EarlyReturn | Bars(bars: seq<DatedValue>)

  function BarSeries(global: Option<Timeline>, metric: Metric, parseDay: string -> int): BarChart
  {
    match BarData(global, metric, parseDay)
    case None => Throws
    case Some(data) => if |data| == 0 then EarlyReturn else Bars(Filter(ClampedDeltas(data), KeepBar))
  }

  /** Filtering keeps the order of a sorted sequence. */
  lemma {:induction false} FilterSorted(s: seq<DatedValue>, p: DatedValue -> bool)
    requires Sorting.SortedBy(s, DateOf)
    ensures Sorting.SortedBy(Filter(s, p), DateOf)
  {
    if s != [] {
      var n := |s|;
      var init := s[..n - 1];
      var rest := Filter(init, p);
      assert Sorting.SortedBy(rest, DateOf) by {
        FilterSorted(init, p);
      }
      if p(s[n - 1]) {
        assert forall i :: 0 <= i < |rest| ==> rest[i].date <= s[n - 1].date by {
          assert forall x :: x in init ==> x.date <= s[n - 1].date;
        }
        assert Filter(s, p) == rest + [s[n - 1]];
        Sorting.SortedAppend(rest, s[n - 1], DateOf);
      }
    }
  }

  /** The chart throws exactly when neither the chosen series nor cases is present. Every bar
      drawn has a positive change and a day after 1 March 2020, the bars are in date order,
      and since the first change is always 0 there are at most 59 of them. */
  lemma {:induction false} BarSeriesBounds(global: Option<Timeline>, metric: Metric, parseDay: string -> int)
    ensures var r := BarSeries(global, metric, parseDay);
      (r.Throws? <==> global.Some? && ChooseSeries(global.value, metric).None?) &&
      (global.None? ==> r.EarlyReturn?) &&
      (r.Bars? ==>
        |r.bars| <= 59 &&
        Sorting.SortedBy(r.bars, DateOf) &&
        forall i :: 0 <= i < |r.bars| ==> r.bars[i].value > 0 && r.bars[i].date > March1)
  {
    var d := BarData(global, metric, parseDay);
    if d.Some? && |d.value| > 0 {
      var data := d.value;
      var series := ChooseSeries(global.value, metric).value;
      var deltas := ClampedDeltas(data);
      FilterDropsHead(deltas, KeepBar);
      Sorting.SortByKeySorted(LastEntries(series, parseDay), DateOf);
      assert Sorting.SortedBy(deltas, DateOf);
      FilterSorted(deltas, KeepBar);
    }
  }

  /** Conversely, every day after the first whose total rose, and which lies after 1 March
      2020, gets its bar. */
  lemma {:induction false} BarSeriesComplete(global: Option<Timeline>, metric: Metric, parseDay: string -> int, i: nat)
    requires var d := BarData(global, metric, parseDay);
      d.Some? && 1 <= i < |d.value| && d.value[i].value > d.value[i - 1].value && d.value[i].date > March1
    ensures var data := BarData(global, metric, parseDay).value;
      BarSeries(global, metric, parseDay) == Bars(Filter(ClampedDeltas(data), KeepBar)) &&
      DatedValue(data[i].date, data[i].value - data[i - 1].value) in BarSeries(global, metric, parseDay).bars
  {
    var data := BarData(global, metric, parseDay).value;
    var deltas := ClampedDeltas(data);
    assert deltas[i] == DatedValue(data[i].date, data[i].value - data[i - 1].value);
    FilterKeeps(deltas, KeepBar, deltas[i]);
  }

  /** A fall in the total is clamped to 0 and so gets no bar. */
  lemma {:induction false} DecreaseGetsNoBar()
    ensures ClampedDeltas([DatedValue(18400, 150), DatedValue(18401, 140)])[1].value == 0
    ensures Filter(ClampedDeltas([DatedValue(18400, 150), DatedValue(18401, 140)]), KeepBar) == []
  {
    var d := ClampedDeltas([DatedValue(18400, 150), DatedValue(18401, 140)]);
    assert d == [DatedValue(18400, 0), DatedValue(18401, 0)];
    assert Filter(d, KeepBar) == Filter(d[..1], KeepBar);
    assert d[..1][..0] == [];
  }

  // ----- Pie chart -----

  /** One slice: its name (the legend label) and its value. */
  datatype Slice = Slice(name: string, value: int)

  /** `dates[dates.length - 1]`; with no dates it is `undefined`, which as a property key reads
      as the string "undefined". */
  function LatestKey(keys: seq<string>): string
  {
    if keys == [] then "undefined" else keys[|keys| - 1]
  }

  /** `series?.[key] || 0`: a missing series or key reads as 0. */
  function ValueAt(series: Option<Dict<int>>, key: string): int
  {
    if series.Some? then Lookup(series.value, key) else 0
  }

  /** The pie data at the latest date: Active, Recovered and Deaths in that order, with every
      zero or negative slice left out. */
  function PieSlices(t: Timeline): (r: seq<Slice>)
    requires t.cases.Some?
    ensures |r| <= 3
    ensures forall i :: 0 <= i < |r| ==> r[i].value > 0
  {
    var key := LatestKey(t.cases.value.keys);
    var cases := Lookup(t.cases.value, key);
    var deaths := ValueAt(t.deaths, key);
    var recovered := ValueAt(t.recovered, key);
    var active := Max(0, cases - deaths - recovered);
    Filter([Slice("Active", active), Slice("Recovered", recovered), Slice("Deaths", deaths)], Positive)
  }

  predicate Positive(s: Slice) { s.value > 0 }

  /** How `createPieChart` ends: `Object.keys(undefined)` throws when the global timeline has
      no cases, it returns early on empty data, or it draws the slices. */
  datatype PieChart = PieThrows | PieEarlyReturn | Slices(slices: seq<Slice>)

  function PieOutcome(global: Option<Timeline>): PieChart
  {
    if global.None? then PieEarlyReturn
    else if global.value.cases.None? then PieThrows
    else
      var data := PieSlices(global.value);
      if |data| == 0 then PieEarlyReturn else Slices(data)
  }

  /** The pie chart throws exactly when a global timeline lacks cases, returns early exactly
      when there is no global timeline or no positive slice, and otherwise draws one to three
      positive slices. */
  lemma {:induction false} PieOutcomeCases(global: Option<Timeline>)
    ensures PieOutcome(global).PieThrows? <==> global.Some? && global.value.cases.None?
    ensures PieOutcome(global).PieEarlyReturn? <==>
      global.None? || (global.value.cases.Some? && PieSlices(global.value) == [])
    ensures PieOutcome(global).Slices? ==>
      1 <= |PieOutcome(global).slices| <= 3 &&
      forall i :: 0 <= i < |PieOutcome(global).slices| ==> PieOutcome(global).slices[i].value > 0
  {
  }

  function SliceTotal(s: seq<Slice>): int
  {
    if s == [] then 0 else SliceTotal(s[..|s| - 1]) + s[|s| - 1].value
  }

  /** Each of three slices, in order, when its value is positive. */
  function PositiveOf(x: Slice, y: Slice, z: Slice): seq<Slice>
  {
    (if x.value > 0 then [x] else []) + (if y.value > 0 then [y] else []) + (if z.value > 0 then [z] else [])
  }

  /** Which slices appear, in which order: each of the three when its value is positive. */
  lemma {:induction false} PieSlicesShown(t: Timeline)
    requires t.cases.Some?
    ensures var key := LatestKey(t.cases.value.keys);
      var c, d, r := Lookup(t.cases.value, key), ValueAt(t.deaths, key), ValueAt(t.recovered, key);
      PieSlices(t) ==
        PositiveOf(Slice("Active", Max(0, c - d - r)), Slice("Recovered", r), Slice("Deaths", d))
  {
    var key := LatestKey(t.cases.value.keys);
    var c, d, r := Lookup(t.cases.value, key), ValueAt(t.deaths, key), ValueAt(t.recovered, key);
    var a := Max(0, c - d - r);
    FilterThree(Slice("Active", a), Slice("Recovered", r), Slice("Deaths", d), Positive);
  }

  /** Filtering a three-element list keeps each element on its own merit, in order. */
  lemma {:induction false} FilterThree<T>(x: T, y: T, z: T, p: T -> bool)
    ensures Filter([x, y, z], p) ==
      (if p(x) then [x] else []) + (if p(y) then [y] else []) + (if p(z) then [z] else [])
  {
    assert [x, y, z][..2] == [x, y];
    assert Filter([x, y, z], p) == Filter([x, y], p) + (if p(z) then [z] else []);
    assert [x, y][..1] == [x];
    assert Filter([x, y], p) == Filter([x], p) + (if p(y) then [y] else []);
    assert [x][..0] == [];
    assert Filter([x], p) == Filter([], p) + (if p(x) then [x] else []);
  }

  /** With non-negative deaths and recovered, the slices add up to whichever is larger: the
      cases, or deaths plus recovered. */
  lemma {:induction false} PieTotal(t: Timeline)
    requires t.cases.Some?
    requires var key := LatestKey(t.cases.value.keys);
      ValueAt(t.deaths, key) >= 0 && ValueAt(t.recovered, key) >= 0
    ensures var key := LatestKey(t.cases.value.keys);
      SliceTotal(PieSlices(t)) ==
        Max(Lookup(t.cases.value, key), ValueAt(t.deaths, key) + ValueAt(t.recovered, key))
  {
    var key := LatestKey(t.cases.value.keys);
    var c, d, r := Lookup(t.cases.value, key), ValueAt(t.deaths, key), ValueAt(t.recovered, key);
    var sa, sr, sd := Slice("Active", Max(0, c - d - r)), Slice("Recovered", r), Slice("Deaths", d);
    PieSlicesShown(t);
    ThreeSlicesTotal(sa, sr, sd);
    ActivePlusRest(c, d, r);
  }

  lemma {:induction false} ActivePlusRest(c: int, d: int, r: int)
    requires d >= 0 && r >= 0
    ensures Max(0, Max(0, c - d - r)) + Max(0, r) + Max(0, d) == Max(c, d + r)
  {
  }

  /** The total of three slices each kept only when positive. */
  lemma {:induction false} ThreeSlicesTotal(x: Slice, y: Slice, z: Slice)
    ensures SliceTotal(PositiveOf(x, y, z)) == Max(0, x.value) + Max(0, y.value) + Max(0, z.value)
  {
    var sx := if x.value > 0 then [x] else [];
    var sy := if y.value > 0 then [y] else [];
    SliceTotalConcat(sx, sy);
    SliceTotalConcat(sx + sy, if z.value > 0 then [z] else []);
    SliceTotalKept(x);
    SliceTotalKept(y);
    SliceTotalKept(z);
  }

  /** A slice kept only when positive contributes its value when positive, else nothing. */
  lemma {:induction false} SliceTotalKept(x: Slice)
    ensures SliceTotal(if x.value > 0 then [x] else []) == Max(0, x.value)
  {
    assert [x][..0] == [];
  }

  lemma {:induction false} SliceTotalConcat(a: seq<Slice>, b: seq<Slice>)
    ensures SliceTotal(a + b) == SliceTotal(a) + SliceTotal(b)
  {
    if b != [] {
      assert (a + b)[..|a + b| - 1] == a + b[..|b| - 1];
      SliceTotalConcat(a, b[..|b| - 1]);
    } else {
      assert a + b == a;
    }
  }

  /** After `processGlobalData` has rebuilt recovered as max(0, cases - deaths), the Active
      slice is always 0 and never drawn (deaths being counts, never negative). */
  lemma {:induction false} ActiveNeverShown(data: Timeline)
    requires WellFormed(data) && data.cases.Some? && data.deaths.Some?
    requires forall k :: k in data.deaths.value.vals ==> data.deaths.value.vals[k] >= 0
    ensures forall i :: 0 <= i < |PieSlices(GlobalProcessed(data))| ==>
      PieSlices(GlobalProcessed(data))[i].name != "Active"
  {
    var t := GlobalProcessed(data);
    PieSlicesShown(t);
    var key := LatestKey(t.cases.value.keys);
    var c, d, r := Lookup(t.cases.value, key), ValueAt(t.deaths, key), ValueAt(t.recovered, key);
    var rec := t.recovered.value;
    assert t.cases == data.cases && t.deaths == data.deaths;
    assert d >= 0;
    if key in rec.vals {
      assert r == DerivedValue(data.cases.value, data.deaths.value, key);
    } else {
      assert key !in data.cases.value.vals;
    }
  }
}
