/** The radar chart of `js/devansh/spider.js`: for each of three countries the latest usable
    row of its CSV file, six metric values taken from hardcoded demographics or from that
    row, and a min–max normalisation of every metric across the countries that were kept. */
module Spider {
  import opened Common
  import opened Csv

  /** One axis of the radar: its label, its CSV or demographics key, and its direction. */
  datatype Metric = Metric(name: string, key: string, higherIsBetter: bool)

  const Metrics: seq<Metric> := [
    Metric("Population", "population", true),
    Metric("Total Cases", "cumulative_confirmed", false),
    Metric("Total Deaths", "cumulative_deceased", false),
    Metric("GDP Per Capita", "gdp_per_capita_usd", true),
    Metric("Life Expectancy", "life_expectancy", true),
    Metric("Population Density", "population_density", false)
  ]

  /** No two metrics share a key, so the per-key objects of the chart (`countryMetrics`,
      `allMetricValues`) can be indexed by the metric's position instead. */
  lemma {:induction false} MetricKeysDistinct()
    ensures forall i, j :: 0 <= i < j < |Metrics| ==> Metrics[i].key != Metrics[j].key
  {
  }

  /** `hardcodedDemographics[code]`: undefined for a code it does not list. */
  function Demographics(code: string): Option<map<string, real>>
  {
    if code == "US" then
      Some(map["population" := 330000000.0, "gdp_per_capita_usd" := 70000.0,
               "life_expectancy" := 79.0, "population_density" := 36.0])
    else if code == "IN" then
      Some(map["population" := 1400000000.0, "gdp_per_capita_usd" := 2500.0,
               "life_expectancy" := 70.0, "population_density" := 464.0])
    else if code == "CA" then
      Some(map["population" := 38000000.0, "gdp_per_capita_usd" := 52000.0,
               "life_expectancy" := 82.0, "population_density" := 4.0])
    else None
  }

  /** Every charted country has demographics, and they supply every metric except the two
      cumulative counts, which therefore come from the CSV row. */
  lemma {:induction false} DemographicsCoverage(i: nat, m: nat)
    requires i < |CountryCodes| && m < |Metrics|
    ensures Demographics(CountryCodes[i]).Some?
    ensures Metrics[m].key in Demographics(CountryCodes[i]).value <==> m != 1 && m != 2
  {
  }

  /** The condition of the backward scan: a non-empty date inside the data window and both
      cumulative counts present and non-empty. */
  predicate UsableRow(row: Row)
  {
    InDateRange(row) && HasValue(row, "cumulative_confirmed") && HasValue(row, "cumulative_deceased")
  }

  /** The value of one metric: from the demographics when they have the key, else from the
      row's column, else 0. */
  function MetricValue(demo: map<string, real>, row: Row, key: string): real
  {
    if key in demo then SafeParseNumber(Some(demo[key])) else FieldNumber(row, key)
  }

  /** One entry of `processedData`: the country and its metric values in `Metrics` order
      (both `countryMetrics[metric.key]` and `originalValues[i].value`). */
  datatype Processed = Processed(code: string, values: seq<real>)

  /** The metric values of one country, in `Metrics` order. */
  function MetricValues(demo: map<string, real>, row: Row): (r: seq<real>)
    ensures |r| == |Metrics|
  {
    seq(|Metrics|, m requires 0 <= m < |Metrics| => MetricValue(demo, row, Metrics[m].key))
  }

  /** What the chart keeps of one country: nothing when it has no usable row or no
      demographics, otherwise its metric values read from the latest usable row. */
  function CountryEntry(code: string, rows: seq<Row>): Option<Processed>
  {
    match LastWhere(rows, UsableRow)
    case None => None
    case Some(j) =>
      match Demographics(code)
      case None => None
      case Some(demo) => Some(Processed(code, MetricValues(demo, rows[j])))
  }

  /** `processedData` after the first `n` countries of the `forEach`. */
  function ProcessedUpTo(data: seq<seq<Row>>, n: nat): (r: seq<Processed>)
    requires n <= |data| && n <= |CountryCodes|
    ensures |r| <= n
    ensures forall c :: 0 <= c < |r| ==> |r[c].values| == |Metrics|
  {
    if n == 0 then []
    else
      ProcessedUpTo(data, n - 1) +
        match CountryEntry(CountryCodes[n - 1], data[n - 1])
        case None => []
        case Some(p) => [p]
  }

  /** `allMetricValues`: for each metric, the values of the kept countries in order. */
  function ColumnsOf(processed: seq<Processed>): (cols: seq<seq<real>>)
    requires forall c :: 0 <= c < |processed| ==> |processed[c].values| == |Metrics|
  {
    seq(|Metrics|, m requires 0 <= m < |Metrics| =>
      seq(|processed|, c requires 0 <= c < |processed| => processed[c].values[m]))
  }

  /** The `forEach` over the downloaded files: scans each backwards for its latest usable row,
      skips the country when there is none or it has no demographics, and otherwise pushes
      one value per metric into `allMetricValues` and one entry into `processedData`. */
  method CollectMetrics(data: seq<seq<Row>>) returns (processed: seq<Processed>, allValues: seq<seq<real>>)
    requires |data| == |CountryCodes|
    ensures processed == ProcessedUpTo(data, |data|)
    ensures allValues == ColumnsOf(processed)
  {
    processed := [];
    allValues := seq(|Metrics|, m => []);
    var c := 0;
    while c < |data|
      invariant 0 <= c <= |data|
      invariant processed == ProcessedUpTo(data, c)
      invariant allValues == ColumnsOf(processed)
    {
      var code := CountryCodes[c];
      var found := FindLatest(data[c], UsableRow);
      if found.Some? {
        var demo := Demographics(code);
        if demo.Some? {
          var before := allValues;
          var values;
          values, allValues := PushMetrics(demo.value, data[c][found.value], allValues);
          var entry := Processed(code, values);
          ColumnsAppend(processed, entry, before, allValues);
          processed := processed + [entry];
        }
      }
      c := c + 1;
    }
  }

  /** The `metrics.forEach` for one country: reads each metric's value and pushes it onto
      that metric's column. */
  method PushMetrics(demo: map<string, real>, row: Row, columns: seq<seq<real>>)
    returns (values: seq<real>, pushed: seq<seq<real>>)
    requires |columns| == |Metrics|
    ensures values == MetricValues(demo, row)
    ensures |pushed| == |Metrics|
    ensures forall k :: 0 <= k < |Metrics| ==> pushed[k] == columns[k] + [values[k]]
  {
    values := [];
    pushed := columns;
    var m := 0;
    while m < |Metrics|
      invariant 0 <= m <= |Metrics|
      invariant |values| == m
      invariant forall k :: 0 <= k < m ==> values[k] == MetricValue(demo, row, Metrics[k].key)
      invariant |pushed| == |Metrics|
      invariant forall k :: 0 <= k < m ==> pushed[k] == columns[k] + [values[k]]
      invariant forall k :: m <= k < |Metrics| ==> pushed[k] == columns[k]
    {
      var key := Metrics[m].key;
      var value: real;
      if key in demo {
        value := SafeParseNumber(Some(demo[key]));
      } else if key in row.cells {
        value := SafeParseNumber(row.cells[key].number);
      } else {
        value := 0.0;
      }
      pushed := pushed[m := pushed[m] + [value]];
      values := values + [value];
      m := m + 1;
    }
  }

  /** Pushing one value per metric onto the columns is taking the columns of the longer list. */
  lemma {:induction false} ColumnsAppend(processed: seq<Processed>, entry: Processed, before: seq<seq<real>>, after: seq<seq<real>>)
    requires forall c :: 0 <= c < |processed| ==> |processed[c].values| == |Metrics|
    requires |entry.values| == |Metrics|
    requires before == ColumnsOf(processed)
    requires |after| == |Metrics|
    requires forall k :: 0 <= k < |Metrics| ==> after[k] == before[k] + [entry.values[k]]
    ensures after == ColumnsOf(processed + [entry])
  {
    var longer := processed + [entry];
    forall k | 0 <= k < |Metrics| ensures after[k] == ColumnsOf(longer)[k] {
      assert forall c :: 0 <= c < |processed| ==> longer[c] == processed[c];
    }
  }

  /** Smallest and largest value of a non-empty column (`d3.min`, `d3.max`). */
  function ColumnMin(s: seq<real>): (r: real)
    requires s != []
    ensures r in s
    ensures forall i :: 0 <= i < |s| ==> r <= s[i]
  {
    if |s| == 1 then s[0]
    else
      var rest := ColumnMin(s[..|s| - 1]);
      if s[|s| - 1] < rest then s[|s| - 1] else rest
  }

  function ColumnMax(s: seq<real>): (r: real)
    requires s != []
    ensures r in s
    ensures forall i :: 0 <= i < |s| ==> s[i] <= r
  {
    if |s| == 1 then s[0]
    else
      var rest := ColumnMax(s[..|s| - 1]);
      if s[|s| - 1] > rest then s[|s| - 1] else rest
  }

  /** The min–max scaling of one value: 0.5 when the range is empty, the position of `v` in
      [lo, hi] for a higher-is-better metric, and its mirror image otherwise. */
  function Normalize(v: real, lo: real, hi: real, higherIsBetter: bool): real
  {
    if hi == lo then 0.5
    else if higherIsBetter then (v - lo) / (hi - lo)
    else 1.0 - (v - lo) / (hi - lo)
  }

  /** A label and a number, as in `normalizedValues` and `originalValues`. */
  datatype NamedValue = NamedValue(name: string, value: real)

  /** One entry of `normalizedData`. */
  datatype Normalized = Normalized(code: string, normalizedValues: seq<NamedValue>, originalValues: seq<NamedValue>)

  predicate WellFormed(processed: seq<Processed>)
  {
    forall c :: 0 <= c < |processed| ==> |processed[c].values| == |Metrics|
  }

  /** The score of country `c` on metric `m`, against the column of all kept countries. */
  function Score(processed: seq<Processed>, c: nat, m: nat): real
    requires WellFormed(processed) && c < |processed| && m < |Metrics|
  {
    var col := ColumnsOf(processed)[m];
    Normalize(processed[c].values[m], ColumnMin(col), ColumnMax(col), Metrics[m].higherIsBetter)
  }

  /** `processedData.map(...)`: one normalised record per kept country. */
  function NormalizeAll(processed: seq<Processed>): seq<Normalized>
    requires WellFormed(processed)
  {
    seq(|processed|, c requires 0 <= c < |processed| =>
      Normalized(processed[c].code,
        seq(|Metrics|, m requires 0 <= m < |Metrics| => NamedValue(Metrics[m].name, Score(processed, c, m))),
        seq(|Metrics|, m requires 0 <= m < |Metrics| => NamedValue(Metrics[m].name, processed[c].values[m]))))
  }

  const NoDataMessage: string :=
    "No valid data found to create the Spider Chart for the specified countries and date range. Ensure data is available for all selected metrics."

  /** The whole data step: collect, normalise, and give up with a message when nothing is left. */
  method SpiderData(data: seq<seq<Row>>) returns (render: Render<seq<Normalized>>)
    requires |data| == |CountryCodes|
    ensures render.Message? <==> ProcessedUpTo(data, |data|) == []
    ensures render.Message? ==> render.text == NoDataMessage
    ensures render.Draw? ==> render.data == NormalizeAll(ProcessedUpTo(data, |data|))
  {
    var processed, allValues := CollectMetrics(data);
    var normalized := NormalizeAll(processed);
    if |normalized| == 0 {
      render := Message(NoDataMessage);
    } else {
      render := Draw(normalized);
    }
  }

  /** Some entry of `processed` is for country `code`. */
  predicate Kept(processed: seq<Processed>, code: string)
  {
    exists c :: 0 <= c < |processed| && processed[c].code == code
  }

  /** The file has a row the backward scan accepts. */
  predicate HasUsableRow(rows: seq<Row>)
  {
    exists j :: 0 <= j < |rows| && UsableRow(rows[j])
  }

  lemma {:induction false} KeptConcat(a: seq<Processed>, b: seq<Processed>, code: string)
    ensures Kept(a + b, code) <==> Kept(a, code) || Kept(b, code)
  {
    if Kept(a + b, code) {
      var c :| 0 <= c < |a + b| && (a + b)[c].code == code;
      if c < |a| { assert a[c].code == code; } else { assert b[c - |a|].code == code; }
    }
    if Kept(a, code) {
      var c :| 0 <= c < |a| && a[c].code == code;
      assert (a + b)[c].code == code;
    }
    if Kept(b, code) {
      var c :| 0 <= c < |b| && b[c].code == code;
      assert (a + b)[|a| + c].code == code;
    }
  }

  /** A charted country yields an entry, for itself, exactly when its file has a usable row. */
  lemma {:induction false} CountryEntryKept(i: nat, rows: seq<Row>)
    requires i < |CountryCodes|
    ensures CountryEntry(CountryCodes[i], rows).Some? <==> HasUsableRow(rows)
    ensures CountryEntry(CountryCodes[i], rows).Some? ==> CountryEntry(CountryCodes[i], rows).value.code == CountryCodes[i]
  {
    DemographicsCoverage(i, 0);
    if HasUsableRow(rows) {
      var j :| 0 <= j < |rows| && UsableRow(rows[j]);
      assert LastWhere(rows, UsableRow).Some?;
    }
  }

  /** A country is kept exactly when its file has a usable row. */
  lemma {:induction false} KeptIff(data: seq<seq<Row>>, n: nat, i: nat)
    requires n <= |data| && n <= |CountryCodes| && i < n
    ensures Kept(ProcessedUpTo(data, n), CountryCodes[i]) <==> HasUsableRow(data[i])
  {
    var prev := ProcessedUpTo(data, n - 1);
    var entry := CountryEntry(CountryCodes[n - 1], data[n - 1]);
    var extra := if entry.Some? then [entry.value] else [];
    assert ProcessedUpTo(data, n) == prev + extra;
    KeptConcat(prev, extra, CountryCodes[i]);
    CountryEntryKept(n - 1, data[n - 1]);
    assert !Kept([], CountryCodes[i]);
    if i == n - 1 {
      NotKeptBefore(data, n - 1);
    } else {
      KeptIff(data, n - 1, i);
      assert CountryCodes[n - 1] != CountryCodes[i];
    }
  }

  /** No country is kept before its own turn in the `forEach`. */
  lemma {:induction false} NotKeptBefore(data: seq<seq<Row>>, n: nat)
    requires n < |data| && n < |CountryCodes|
    ensures !Kept(ProcessedUpTo(data, n), CountryCodes[n])
  {
    CodesOfProcessed(data, n);
  }

  /** Every kept entry belongs to one of the countries already visited. */
  lemma {:induction false} CodesOfProcessed(data: seq<seq<Row>>, n: nat)
    requires n <= |data| && n <= |CountryCodes|
    ensures forall c :: 0 <= c < |ProcessedUpTo(data, n)| ==> ProcessedUpTo(data, n)[c].code in CountryCodes[..n]
  {
    if n > 0 {
      CodesOfProcessed(data, n - 1);
      var prev := ProcessedUpTo(data, n - 1);
      var r := ProcessedUpTo(data, n);
      forall c | 0 <= c < |r| ensures r[c].code in CountryCodes[..n] {
        if c < |prev| {
          assert r[c] == prev[c];
          assert CountryCodes[..n - 1] <= CountryCodes[..n];
        } else {
          assert r[c].code == CountryCodes[n - 1];
        }
      }
    }
  }

  /** A kept country's values: its two cumulative counts are the numbers in its latest usable
      row `j`, read from columns that exist, and its other metrics are its demographics. */
  lemma {:induction false} CountryEntryValues(i: nat, rows: seq<Row>, j: nat)
    requires i < |CountryCodes| && LastWhere(rows, UsableRow) == Some(j)
    ensures CountryEntry(CountryCodes[i], rows).Some?
    ensures var p := CountryEntry(CountryCodes[i], rows).value;
            p.code == CountryCodes[i] &&
            p.values[1] == SafeParseNumber(rows[j].cells["cumulative_confirmed"].number) &&
            p.values[2] == SafeParseNumber(rows[j].cells["cumulative_deceased"].number) &&
            forall m :: 0 <= m < |Metrics| && m != 1 && m != 2 ==>
              p.values[m] == Demographics(CountryCodes[i]).value[Metrics[m].key]
  {
    var demo := Demographics(CountryCodes[i]).value;
    var values := MetricValues(demo, rows[j]);
    assert CountryEntry(CountryCodes[i], rows) == Some(Processed(CountryCodes[i], values));
    DemographicsCoverage(i, 1);
    DemographicsCoverage(i, 2);
    assert UsableRow(rows[j]);
    forall m | 0 <= m < |Metrics| && m != 1 && m != 2
      ensures values[m] == demo[Metrics[m].key]
    {
      DemographicsCoverage(i, m);
    }
  }

  /** Every normalised value lies in [0, 1]. */
  lemma {:induction false} ScoreInUnit(processed: seq<Processed>, c: nat, m: nat)
    requires WellFormed(processed) && c < |processed| && m < |Metrics|
    ensures 0.0 <= Score(processed, c, m) <= 1.0
  {
    var col := ColumnsOf(processed)[m];
    var lo, hi := ColumnMin(col), ColumnMax(col);
    var v := processed[c].values[m];
    assert col[c] == v;
    if hi != lo {
      QuotientBounds(v - lo, hi - lo, 0.0, 1.0);
    }
  }

  /** When every kept country has the same value on a metric, every country scores 0.5 on it. */
  lemma {:induction false} ScoreDegenerate(processed: seq<Processed>, m: nat)
    requires WellFormed(processed) && m < |Metrics|
    requires forall a, b :: 0 <= a < b < |processed| ==> processed[a].values[m] == processed[b].values[m]
    ensures forall c :: 0 <= c < |processed| ==> Score(processed, c, m) == 0.5
  {
    if processed != [] {
      var col := ColumnsOf(processed)[m];
      var lo, hi := ColumnMin(col), ColumnMax(col);
      var a :| 0 <= a < |col| && col[a] == lo;
      var b :| 0 <= b < |col| && col[b] == hi;
      assert processed[a].values[m] == processed[b].values[m];
    }
  }

  /** Otherwise the extremes score 0 and 1: the country with the largest value scores 1 on a
      higher-is-better metric and 0 on a lower-is-better one, and the smallest the reverse. */
  lemma {:induction false} ScoreExtremes(processed: seq<Processed>, m: nat, top: nat, bottom: nat)
    requires WellFormed(processed) && m < |Metrics| && top < |processed| && bottom < |processed|
    requires forall e :: 0 <= e < |processed| ==>
      processed[bottom].values[m] <= processed[e].values[m] <= processed[top].values[m]
    requires processed[bottom].values[m] < processed[top].values[m]
    ensures Score(processed, top, m) == (if Metrics[m].higherIsBetter then 1.0 else 0.0)
    ensures Score(processed, bottom, m) == (if Metrics[m].higherIsBetter then 0.0 else 1.0)
  {
    var col := ColumnsOf(processed)[m];
    var lo, hi := ColumnMin(col), ColumnMax(col);
    var a :| 0 <= a < |col| && col[a] == lo;
    var b :| 0 <= b < |col| && col[b] == hi;
    assert col[top] == processed[top].values[m] && col[bottom] == processed[bottom].values[m];
    assert col[a] == processed[a].values[m] && col[b] == processed[b].values[m];
    assert hi == processed[top].values[m] && lo == processed[bottom].values[m];
    NormalizeEnds(lo, hi, Metrics[m].higherIsBetter);
  }

  lemma {:induction false} NormalizeEnds(lo: real, hi: real, higherIsBetter: bool)
    requires lo < hi
    ensures Normalize(hi, lo, hi, higherIsBetter) == (if higherIsBetter then 1.0 else 0.0)
    ensures Normalize(lo, lo, hi, higherIsBetter) == (if higherIsBetter then 0.0 else 1.0)
  {
  }

  /** Normalisation keeps the ranking of the raw values on a higher-is-better metric and
      reverses it on a lower-is-better one, and the two directions mirror each other. */
  lemma {:induction false} NormalizeOrder(v: real, w: real, lo: real, hi: real)
    requires lo < hi && v <= w
    ensures Normalize(v, lo, hi, true) <= Normalize(w, lo, hi, true)
    ensures Normalize(v, lo, hi, false) >= Normalize(w, lo, hi, false)
    ensures Normalize(v, lo, hi, false) == 1.0 - Normalize(v, lo, hi, true)
  {
    var n := hi - lo;
    assert (v - lo) / n * n == v - lo && (w - lo) / n * n == w - lo;
    assert ((w - lo) / n - (v - lo) / n) * n == w - v;
  }

  /** The output has one record per kept country, in order, with the metrics in order and
      each original value kept beside its score. */
  lemma {:induction false} NormalizeAllShape(processed: seq<Processed>)
    requires WellFormed(processed)
    ensures |NormalizeAll(processed)| == |processed|
    ensures forall c :: 0 <= c < |processed| ==>
      var r := NormalizeAll(processed)[c];
      r.code == processed[c].code &&
      |r.normalizedValues| == |Metrics| == |r.originalValues| &&
      forall m :: 0 <= m < |Metrics| ==>
        r.normalizedValues[m].name == r.originalValues[m].name == Metrics[m].name &&
        r.originalValues[m].value == processed[c].values[m] &&
        0.0 <= r.normalizedValues[m].value <= 1.0
  {
    forall c, m | 0 <= c < |processed| && 0 <= m < |Metrics| {
      ScoreInUnit(processed, c, m);
    }
  }
}
