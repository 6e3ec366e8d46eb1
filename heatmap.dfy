/** The daily-cases heat map of `js/devansh/heatmap.js`: one record per usable row of each
    country's file, the sorted date and country axes, and the top of the colour scale. */
module Heatmap {
  import opened Common
  import opened Csv
  import opened Sorting

  const NoDataMessage: string :=
    "No valid data found to create the Heatmap for the specified countries and date range."

  /** One cell: the country, the day (`new Date(entry.date)`) and the day's new cases. */
  datatype Record = Record(country: string, date: int, value: real)

  /** What `drawHeatmap` lays out: the cells, the two axes and the colour domain's top. */
  datatype Layout = Layout(records: seq<Record>, dates: seq<int>, countries: seq<string>, maxCases: real)

  /** The filter of the inner `forEach`: a non-empty date inside the data window and a
      `new_confirmed` value that is present and not empty. */
  predicate UsableRow(entry: Row)
  {
    InDateRange(entry) && HasValue(entry, "new_confirmed")
  }

  function RecordOf(code: string, entry: Row): Record
    requires UsableRow(entry)
  {
    Record(code, entry.day.value, FieldNumber(entry, "new_confirmed"))
  }

  /** The records one country's rows contribute, in row order. */
  function RecordsOf(code: string, rows: seq<Row>): (r: seq<Record>)
    ensures forall k :: 0 <= k < |r| ==> r[k].country == code
  {
    if rows == [] then []
    else
      var last := rows[|rows| - 1];
      RecordsOf(code, rows[..|rows| - 1]) + (if UsableRow(last) then [RecordOf(code, last)] else [])
  }

  /** `processedData` after the first `n` countries. */
  function RecordsUpTo(data: seq<seq<Row>>, n: nat): (r: seq<Record>)
    requires n <= |data| && n <= |CountryCodes|
  {
    if n == 0 then [] else RecordsUpTo(data, n - 1) + RecordsOf(CountryCodes[n - 1], data[n - 1])
  }

  /** The nested `forEach`: every usable row of every country, pushed in order. */
  method ProcessRecords(data: seq<seq<Row>>) returns (processed: seq<Record>)
    requires |data| == |CountryCodes|
    ensures processed == RecordsUpTo(data, |data|)
  {
    processed := [];
    var i := 0;
    while i < |data|
      invariant 0 <= i <= |data|
      invariant processed == RecordsUpTo(data, i)
    {
      var countryCode := CountryCodes[i];
      var rows := data[i];
      var j := 0;
      while j < |rows|
        invariant 0 <= j <= |rows|
        invariant processed == RecordsUpTo(data, i) + RecordsOf(countryCode, rows[..j])
      {
        var entry := rows[j];
        assert rows[..j + 1][..j] == rows[..j];
        if InDateRange(entry) && HasValue(entry, "new_confirmed") {
          processed := processed + [Record(countryCode, entry.day.value, FieldNumber(entry, "new_confirmed"))];
        }
        j := j + 1;
      }
      assert rows[..j] == rows;
      i := i + 1;
    }
  }

  /** A country's records are exactly its usable rows, each read as a number. */
  lemma {:induction false} RecordsOfMembers(code: string, rows: seq<Row>, rec: Record)
    ensures rec in RecordsOf(code, rows) <==> exists j :: 0 <= j < |rows| && UsableRow(rows[j]) && rec == RecordOf(code, rows[j])
  {
    if rows != [] {
      var n := |rows|;
      var init := rows[..n - 1];
      RecordsOfMembers(code, init, rec);
      if exists j :: 0 <= j < n - 1 && UsableRow(init[j]) && rec == RecordOf(code, init[j]) {
        var j :| 0 <= j < n - 1 && UsableRow(init[j]) && rec == RecordOf(code, init[j]);
        assert rows[j] == init[j];
      }
      if exists j :: 0 <= j < n && UsableRow(rows[j]) && rec == RecordOf(code, rows[j]) {
        var j :| 0 <= j < n && UsableRow(rows[j]) && rec == RecordOf(code, rows[j]);
        if j < n - 1 {
          assert init[j] == rows[j];
        }
      }
    }
  }

  /** A country's records are its usable rows in file order, one record each: the rows that
      `Filter` keeps, each turned into a record. */
  lemma {:induction false} RecordsOfInRowOrder(code: string, rows: seq<Row>)
    ensures |RecordsOf(code, rows)| == |Filter(rows, UsableRow)|
    ensures forall k :: 0 <= k < |RecordsOf(code, rows)| ==>
      UsableRow(Filter(rows, UsableRow)[k]) && RecordsOf(code, rows)[k] == RecordOf(code, Filter(rows, UsableRow)[k])
  {
    if rows != [] {
      var init := rows[..|rows| - 1];
      RecordsOfInRowOrder(code, init);
      var prev, kept := RecordsOf(code, init), Filter(init, UsableRow);
      var r, f := RecordsOf(code, rows), Filter(rows, UsableRow);
      forall k | 0 <= k < |r| ensures UsableRow(f[k]) && r[k] == RecordOf(code, f[k]) {
        if k < |prev| {
          assert r[k] == prev[k] && f[k] == kept[k];
        }
      }
    }
  }

  /** Records of a country listed earlier in `CountryCodes` never follow records of one
      listed later. */
  predicate GroupedByCountry(records: seq<Record>)
  {
    forall a, b, i, k ::
      0 <= a < b < |records| && 0 <= i < k < |CountryCodes| && records[a].country == CountryCodes[k] ==>
        records[b].country != CountryCodes[i]
  }

  /** The records come grouped by country in `countryCodes` order, and only the visited
      countries appear. */
  lemma {:induction false} RecordsGrouped(data: seq<seq<Row>>, n: nat)
    requires n <= |data| && n <= |CountryCodes|
    ensures GroupedByCountry(RecordsUpTo(data, n))
    ensures forall a :: 0 <= a < |RecordsUpTo(data, n)| ==> RecordsUpTo(data, n)[a].country in CountryCodes[..n]
  {
    if n > 0 {
      RecordsGrouped(data, n - 1);
      var prev := RecordsUpTo(data, n - 1);
      var own := RecordsOf(CountryCodes[n - 1], data[n - 1]);
      var r := prev + own;
      assert RecordsUpTo(data, n) == r;
      assert CountryCodes[..n - 1] <= CountryCodes[..n];
      forall a | 0 <= a < |r| ensures r[a].country in CountryCodes[..n] {
        if a < |prev| { assert r[a] == prev[a]; } else { assert r[a] == own[a - |prev|]; }
      }
      forall a, b, i, k | 0 <= a < b < |r| && 0 <= i < k < |CountryCodes| && r[a].country == CountryCodes[k]
        ensures r[b].country != CountryCodes[i]
      {
        if b >= |prev| {
          assert r[b] == own[b - |prev|];
          if a < |prev| {
            assert r[a] == prev[a];
            assert r[a].country in CountryCodes[..n - 1];
          } else {
            assert r[a] == own[a - |prev|];
          }
        } else {
          assert r[a] == prev[a] && r[b] == prev[b];
        }
      }
    }
  }

  function DatesOf(records: seq<Record>): (r: seq<int>)
    ensures |r| == |records|
    ensures forall k :: 0 <= k < |r| ==> r[k] == records[k].date
  {
    seq(|records|, k requires 0 <= k < |records| => records[k].date)
  }

  function CountriesOf(records: seq<Record>): (r: seq<string>)
    ensures |r| == |records|
    ensures forall k :: 0 <= k < |r| ==> r[k] == records[k].country
  {
    seq(|records|, k requires 0 <= k < |records| => records[k].country)
  }

  function DayNumber(d: int): int { d }

  /** The date axis as the source computes it: a `Set` of `Date` objects keeps every record's
      date (no two objects are the same), so sorting leaves one entry per record. */
  function DateDomainAsWritten(records: seq<Record>): (r: seq<int>)
    ensures |r| == |records|
    ensures multiset(r) == multiset(DatesOf(records))
  {
    SortByKey(DatesOf(records), DayNumber)
  }

  /** The date axis as intended: each day once, ascending. */
  function DateDomain(records: seq<Record>): (r: seq<int>)
    ensures forall d :: d in r <==> d in DatesOf(records)
  {
    SortedDistinct(DatesOf(records), IntLess)
  }

  /** The country axis: `Array.from(new Set(countries)).sort()`; strings compare by value,
      so each country appears once, in code-unit order. */
  function CountryDomain(records: seq<Record>): (r: seq<string>)
    ensures forall c :: c in r <==> c in CountriesOf(records)
  {
    SortedDistinct(CountriesOf(records), StrLess)
  }

  /** The as-written date axis is ascending and lists every record's date. */
  lemma {:induction false} DateDomainAsWrittenSorted(records: seq<Record>)
    ensures SortedBy(DateDomainAsWritten(records), DayNumber)
  {
    SortByKeySorted(DatesOf(records), DayNumber);
  }

  /** Two countries reporting the same day put that day on the as-written axis twice; the
      intended axis has it once. */
  lemma {:induction false} DateDomainRepeats(d: int, v: real, w: real)
    ensures DateDomainAsWritten([Record("US", d, v), Record("IN", d, w)]) == [d, d]
    ensures DateDomain([Record("US", d, v), Record("IN", d, w)]) == [d]
  {
    var recs := [Record("US", d, v), Record("IN", d, w)];
    var dates := DatesOf(recs);
    assert dates == [d, d];
    assert dates[..1] == [d] && dates[..1][..0] == [];
    assert SortByKey([d], DayNumber) == [d];
    assert SortedDistinct([d], IntLess) == [d];
  }

  /** Both intended axes are strictly ascending, hence free of repeats. */
  lemma {:induction false} DomainsStrictlySorted(records: seq<Record>)
    ensures StrictlySorted(DateDomain(records), IntLess)
    ensures StrictlySorted(CountryDomain(records), StrLess)
    ensures forall a, b :: 0 <= a < b < |DateDomain(records)| ==> DateDomain(records)[a] != DateDomain(records)[b]
    ensures forall a, b :: 0 <= a < b < |CountryDomain(records)| ==> CountryDomain(records)[a] != CountryDomain(records)[b]
  {
    IntLessIsStrictOrder();
    StrLessIsStrictOrder();
    SortedDistinctSorted(DatesOf(records), IntLess);
    SortedDistinctSorted(CountriesOf(records), StrLess);
    StrictlySortedDistinct(DateDomain(records), IntLess);
    StrictlySortedDistinct(CountryDomain(records), StrLess);
  }

  /** `d3.max(data, d => d.value)` for a non-empty list: the largest value. */
  function MaxCases(records: seq<Record>): (m: real)
    requires records != []
    ensures forall k :: 0 <= k < |records| ==> records[k].value <= m
    ensures exists k :: 0 <= k < |records| && records[k].value == m
  {
    if |records| == 1 then records[0].value
    else
      var rest := MaxCases(records[..|records| - 1]);
      var last := records[|records| - 1].value;
      assert forall k :: 0 <= k < |records| - 1 ==> records[..|records| - 1][k] == records[k];
      if last > rest then last else rest
  }

  /** The guard before drawing, and what is drawn otherwise. */
  function HeatmapView(records: seq<Record>): (r: Render<Layout>)
    ensures r.Message? <==> records == []
    ensures r.Draw? ==> r.data.records == records && r.data.maxCases == MaxCases(records)
  {
    if |records| == 0 then Message(NoDataMessage)
    else Draw(Layout(records, DateDomain(records), CountryDomain(records), MaxCases(records)))
  }
}
