/** Rows of the per-country CSV files (one column per field, every value a string),
    the number parsing the charts put on them, and the date window they share. */
module Csv {
  import opened Common

  /** One CSV value: its text and what `parseFloat` makes of it (None for NaN). */
  datatype Cell = Cell(text: string, number: Option<real>)

  /** One CSV row: the text of its `date` column, the day that `new Date(date)` denotes
      (days since 1970-01-01, None for an invalid date), and its other columns. A column
      that the file does not have is a key missing from `cells` (`entry[key]` is undefined). */
  datatype Row = Row(date: string, day: Option<int>, cells: map<string, Cell>)

  /** `new Date('2020-02-29')` and `new Date('2022-06-17')` as day numbers. */
  const DataStart: int := 18321
  const DataEnd: int := 19160

  /** The countries whose files the radar, flow and heat-map charts download, in order. */
  const CountryCodes: seq<string> := ["US", "IN", "CA"]

  /** `safeParseNumber`: the parsed value, or 0 where `parseFloat` gives NaN. */
  function SafeParseNumber(parsed: Option<real>): (v: real)
    ensures parsed.Some? ==> v == parsed.value
    ensures parsed.None? ==> v == 0.0
  {
    match parsed
    case Some(x) => x
    case None => 0.0
  }

  /** `safeParseNumber(entry[key])`; `parseFloat(undefined)` is NaN, so a missing column gives 0. */
  function FieldNumber(row: Row, key: string): real
  {
    if key in row.cells then SafeParseNumber(row.cells[key].number) else 0.0
  }

  /** `entry[key] !== undefined && entry[key] !== null && entry[key] !== ''`, which for a CSV
      string is also its truthiness: the column exists and is not empty. */
  predicate HasValue(row: Row, key: string)
  {
    key in row.cells && row.cells[key].text != ""
  }

  /** `entry.date && entryDate >= dataStartDate && entryDate <= dataEndDate`: an invalid
      date compares false with both ends. */
  predicate InDateRange(row: Row)
  {
    row.date != "" && row.day.Some? && DataStart <= row.day.value <= DataEnd
  }

  /** The highest index whose element satisfies `p`, if any. */
  function LastWhere<T>(s: seq<T>, p: T -> bool): (r: Option<nat>)
    ensures r.Some? ==> r.value < |s| && p(s[r.value])
    ensures r.Some? ==> forall j :: r.value < j < |s| ==> !p(s[j])
    ensures r.None? ==> forall j :: 0 <= j < |s| ==> !p(s[j])
  {
    if s == [] then None
    else if p(s[|s| - 1]) then Some(|s| - 1)
    else LastWhere(s[..|s| - 1], p)
  }

  /** The backward `for (let j = rows.length - 1; j >= 0; j--)` scan that stops at the first
      row (from the end) satisfying `valid`. */
  method FindLatest<T>(rows: seq<T>, valid: T -> bool) returns (found: Option<nat>)
    ensures found == LastWhere(rows, valid)
    ensures found.Some? ==> found.value < |rows| && valid(rows[found.value])
    ensures found.None? ==> forall j :: 0 <= j < |rows| ==> !valid(rows[j])
  {
    found := None;
    var j := |rows| - 1;
    while j >= 0
      invariant -1 <= j < |rows|
      invariant forall k :: j < k < |rows| ==> !valid(rows[k])
    {
      if valid(rows[j]) {
        found := Some(j);
        break;
      }
      j := j - 1;
    }
  }
}
