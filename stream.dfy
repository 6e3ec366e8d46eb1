/** The search-trend streamgraph of `js/devansh/stream.js`: the US rows inside the data window
    that have some search-trend signal, sorted by date, the readable names of the trend
    columns, and the data point nearest to the pointer. */
module Stream {
  import opened Common
  import opened Strings
  import opened Csv
  import opened Sorting

  const SymptomKeys: seq<string> := [
    "search_trends_cough",
    "search_trends_fever",
    "search_trends_shortness_of_breath",
    "search_trends_anosmia",
    "search_trends_ageusia",
    "search_trends_fatigue",
    "search_trends_anxiety",
    "search_trends_sore_throat",
    "search_trends_headache"
  ]

  const Prefix: string := "search_trends_"

  const NoDataMessage: string :=
    "No valid search trend data found for the USA within the specified date range to create the Streamgraph."

  /** `words.map(word => word.charAt(0).toUpperCase() + word.slice(1))`. */
  function CapitalizeAll(words: seq<string>): (r: seq<string>)
    ensures |r| == |words|
    ensures forall i :: 0 <= i < |words| ==> r[i] == Capitalize(words[i])
  {
    seq(|words|, i requires 0 <= i < |words| => Capitalize(words[i]))
  }

  /** `getSymptomDisplayName`: drop the first "search_trends_", turn every `_` into a space,
      and capitalise each space-separated word. */
  function DisplayName(key: string): string
  {
    Join(CapitalizeAll(Split(ReplaceAll(RemoveFirst(key, Prefix), '_', ' '), ' ')), ' ')
  }

  /** Capitalising a word that has no space and no underscore adds neither. */
  lemma {:induction false} CapitalizeKeepsOut(word: string)
    requires ' ' !in word && '_' !in word
    ensures ' ' !in Capitalize(word) && '_' !in Capitalize(word)
  {
    if word != [] {
      var r := Capitalize(word);
      assert r == [r[0]] + r[1..];
    }
  }

  /** For a key without spaces, the display name has no underscore, and its words are the
      `_`-separated segments of the key after the prefix, each capitalised. */
  lemma {:induction false} DisplayNameWords(key: string)
    requires ' ' !in key
    ensures '_' !in DisplayName(key)
    ensures Split(DisplayName(key), ' ') == CapitalizeAll(Split(RemoveFirst(key, Prefix), '_'))
    ensures |Split(DisplayName(key), ' ')| == |Split(RemoveFirst(key, Prefix), '_')|
  {
    var s := RemoveFirst(key, Prefix);
    assert ' ' !in s;
    SplitReplaced(s, '_', ' ');
    var parts := Split(s, '_');
    var words := Split(ReplaceAll(s, '_', ' '), ' ');
    assert words == parts;
    var caps := CapitalizeAll(parts);
    forall i | 0 <= i < |caps| ensures ' ' !in caps[i] && '_' !in caps[i] {
      assert '_' !in parts[i] && ' ' !in words[i];
      CapitalizeKeepsOut(parts[i]);
    }
    SplitJoin(caps, ' ');
    JoinWithout(caps, ' ', '_');
  }

  /** The example of the source's comments: the shortness-of-breath column. */
  lemma {:induction false} DisplayNameExample()
    ensures DisplayName("search_trends_shortness_of_breath") == "Shortness Of Breath"
  {
    ExampleStripped();
    ExampleSpaced();
    ExampleWords();
    ExampleCapitalized();
    ExampleJoined();
  }

  lemma {:induction false} ExampleStripped()
    ensures RemoveFirst("search_trends_shortness_of_breath", Prefix) == "shortness_of_breath"
  {
    var key := "search_trends_shortness_of_breath";
    assert key[..|Prefix|] == Prefix;
    assert key[|Prefix|..] == "shortness_of_breath";
  }

  lemma {:induction false} ExampleSpaced()
    ensures ReplaceAll("shortness_of_breath", '_', ' ') == "shortness of breath"
  {
  }

  lemma {:induction false} ExampleWords()
    ensures Split("shortness of breath", ' ') == ["shortness", "of", "breath"]
  {
    assert "shortness of breath" == "shortness" + [' '] + "of" + [' '] + "breath";
    ThreeWords("shortness", "of", "breath");
  }

  /** Three space-free words joined by spaces split back into those words. */
  lemma {:induction false} ThreeWords(a: string, b: string, c: string)
    requires ' ' !in a && ' ' !in b && ' ' !in c
    ensures Split(a + [' '] + b + [' '] + c, ' ') == [a, b, c]
  {
    SplitNoSeparator(c, ' ');
    SplitAppend(b, c, ' ');
    assert a + [' '] + b + [' '] + c == a + [' '] + (b + [' '] + c);
    SplitAppend(a, b + [' '] + c, ' ');
  }

  lemma {:induction false} ExampleCapitalized()
    ensures CapitalizeAll(["shortness", "of", "breath"]) == ["Shortness", "Of", "Breath"]
  {
    assert Upper('s') == 'S' && Upper('o') == 'O' && Upper('b') == 'B';
    assert Capitalize("shortness") == "Shortness";
    assert Capitalize("of") == "Of";
    assert Capitalize("breath") == "Breath";
  }

  lemma {:induction false} ExampleJoined()
    ensures Join(["Shortness", "Of", "Breath"], ' ') == "Shortness Of Breath"
  {
    var caps := ["Shortness", "Of", "Breath"];
    assert Join(["Breath"], ' ') == "Breath";
    assert Join(["Of", "Breath"], ' ') == "Of" + [' '] + "Breath" by {
      assert ["Of", "Breath"][1..] == ["Breath"];
    }
    assert Join(caps, ' ') == "Shortness" + [' '] + Join(["Of", "Breath"], ' ') by {
      assert caps[1..] == ["Of", "Breath"];
    }
  }

  /** One element of `processedData`: the day and the nine trend values in `SymptomKeys` order. */
  datatype TrendRow = TrendRow(date: int, values: seq<real>)

  function RowDate(row: TrendRow): int { row.date }

  /** `safeParseNumber(entry[key])` for each trend column. */
  function SymptomValues(entry: Row): (r: seq<real>)
    ensures |r| == |SymptomKeys|
  {
    seq(|SymptomKeys|, k requires 0 <= k < |SymptomKeys| => FieldNumber(entry, SymptomKeys[k]))
  }

  predicate HasSignal(values: seq<real>)
  {
    exists k :: 0 <= k < |values| && values[k] > 0.0
  }

  /** The row an entry contributes: one inside the data window with some positive trend
      value, stamped with its day and carrying all nine values. */
  function TrendRowOf(entry: Row): Option<TrendRow>
  {
    if InDateRange(entry) && HasSignal(SymptomValues(entry))
    then Some(TrendRow(entry.day.value, SymptomValues(entry)))
    else None
  }

  /** `processedData` before sorting: the contributed rows in file order. */
  function KeptRows(entries: seq<Row>): seq<TrendRow>
  {
    if entries == [] then []
    else
      KeptRows(entries[..|entries| - 1]) +
        match TrendRowOf(entries[|entries| - 1])
        case None => []
        case Some(row) => [row]
  }

  /** The `forEach` body's inner loop: reads the nine values and notes whether any is positive. */
  method ReadSymptoms(entry: Row) returns (values: seq<real>, hasValidSymptomData: bool)
    ensures values == SymptomValues(entry)
    ensures hasValidSymptomData <==> HasSignal(values)
  {
    values := [];
    hasValidSymptomData := false;
    var k := 0;
    while k < |SymptomKeys|
      invariant 0 <= k <= |SymptomKeys|
      invariant |values| == k
      invariant forall i :: 0 <= i < k ==> values[i] == FieldNumber(entry, SymptomKeys[i])
      invariant hasValidSymptomData <==> exists i :: 0 <= i < k && values[i] > 0.0
    {
      var value := FieldNumber(entry, SymptomKeys[k]);
      if value > 0.0 {
        hasValidSymptomData := true;
      }
      values := values + [value];
      k := k + 1;
    }
  }

  /** The data step: filter the rows, push the kept ones, then sort them by date in place. */
  method ProcessTrends(entries: seq<Row>) returns (data: seq<TrendRow>)
    ensures multiset(data) == multiset(KeptRows(entries))
    ensures SortedBy(data, RowDate)
  {
    var processed: seq<TrendRow> := [];
    var i := 0;
    while i < |entries|
      invariant 0 <= i <= |entries|
      invariant processed == KeptRows(entries[..i])
    {
      var entry := entries[i];
      assert entries[..i + 1][..i] == entries[..i];
      if InDateRange(entry) {
        var values, hasValidSymptomData := ReadSymptoms(entry);
        if hasValidSymptomData {
          processed := processed + [TrendRow(entry.day.value, values)];
        }
      }
      i := i + 1;
    }
    assert entries[..i] == entries;
    var a := new TrendRow[|processed|](j requires 0 <= j < |processed| => processed[j]);
    assert a[..] == processed;
    SortInPlace(a, RowDate);
    data := a[..];
  }

  /** A row is kept exactly when some entry contributes it. */
  lemma {:induction false} KeptRowsMembers(entries: seq<Row>, row: TrendRow)
    ensures row in KeptRows(entries) <==> exists j :: 0 <= j < |entries| && TrendRowOf(entries[j]) == Some(row)
  {
    if entries != [] {
      var n := |entries|;
      var init := entries[..n - 1];
      KeptRowsMembers(init, row);
      if exists j :: 0 <= j < n - 1 && TrendRowOf(init[j]) == Some(row) {
        var j :| 0 <= j < n - 1 && TrendRowOf(init[j]) == Some(row);
        assert entries[j] == init[j];
      }
      if exists j :: 0 <= j < n && TrendRowOf(entries[j]) == Some(row) {
        var j :| 0 <= j < n && TrendRowOf(entries[j]) == Some(row);
        if j < n - 1 {
          assert init[j] == entries[j];
        }
      }
    }
  }

  /** An entry contributes a row exactly when its date is inside the window and some trend
      value is positive; the row then has every trend column, as a number. */
  lemma {:induction false} TrendRowOfEntry(entry: Row)
    ensures TrendRowOf(entry).Some? <==>
      InDateRange(entry) && exists k :: 0 <= k < |SymptomKeys| && FieldNumber(entry, SymptomKeys[k]) > 0.0
    ensures TrendRowOf(entry).Some? ==>
      TrendRowOf(entry).value.date == entry.day.value &&
      |TrendRowOf(entry).value.values| == |SymptomKeys| &&
      forall k :: 0 <= k < |SymptomKeys| ==> TrendRowOf(entry).value.values[k] == FieldNumber(entry, SymptomKeys[k])
  {
    var values := SymptomValues(entry);
    if exists k :: 0 <= k < |SymptomKeys| && FieldNumber(entry, SymptomKeys[k]) > 0.0 {
      var k :| 0 <= k < |SymptomKeys| && FieldNumber(entry, SymptomKeys[k]) > 0.0;
      assert values[k] > 0.0;
    }
  }

  function Abs(x: int): int { if x < 0 then -x else x }

  /** The `reduce` that finds the point nearest `target`: a later point replaces the current
      one only when strictly nearer, so the earliest of equally near points wins. */
  function ClosestIndex(data: seq<TrendRow>, target: int): (i: nat)
    requires data != []
    ensures i < |data|
    ensures forall j :: 0 <= j < |data| ==> Abs(data[i].date - target) <= Abs(data[j].date - target)
    ensures forall j :: 0 <= j < i ==> Abs(data[j].date - target) > Abs(data[i].date - target)
  {
    if |data| == 1 then 0
    else
      var prev := ClosestIndex(data[..|data| - 1], target);
      var last := |data| - 1;
      assert data[..last][prev] == data[prev];
      assert forall j :: 0 <= j < last ==> data[..last][j] == data[j];
      if Abs(data[last].date - target) < Abs(data[prev].date - target) then last else prev
  }

  /** What the page shows: a message when no row was kept. */
  function StreamView(data: seq<TrendRow>): (r: Render<seq<TrendRow>>)
    ensures r.Message? <==> data == []
    ensures r.Draw? ==> r.data == data
  {
    if |data| == 0 then Message(NoDataMessage) else Draw(data)
  }
}
