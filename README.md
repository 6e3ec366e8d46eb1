# COVID dashboards: the data-reshaping layer

This project models the part of the COVID dashboards that turns downloaded data into what the charts draw. The charts are written in JavaScript with D3, and every chart reshapes the data its own way:

- **Main dashboard** (`js/shiva.js`):
  - daily changes of the cumulative case and death series;
  - weekly totals over the last eight weeks;
  - the seven-day average;
  - the case-fatality bubbles and their classes.
- **disease.sh dashboard** (`js/joao/joao.js`):
  - the recovered series, rebuilt from cases and deaths;
  - the bar chart's clamped day-over-day changes;
  - the pie chart's slices.
- **Global charts** (`js/covid-charts.js`):
  - the cases at the last date of each month;
  - the new deaths of each quarter.
- **Radar chart** (`js/devansh/spider.js`):
  - the latest usable row of each country's CSV file;
  - six metrics per country, taken from hardcoded demographics or from that row;
  - a min–max normalisation of each metric across the countries.
- **Flow diagram** (`js/devansh/shankey.js`): country → Deaths / Non-Fatal Cases, with a node list kept free of repeats.
- **Streamgraph** (`js/devansh/stream.js`):
  - the rows that carry some search-trend signal, sorted by date;
  - the readable names of the trend columns;
  - the data point nearest the pointer.
- **Heat map** (`js/devansh/heatmap.js`):
  - one record per usable `new_confirmed` row;
  - the date and country axes;
  - the top of the colour scale.

## Modules

| Module | Role |
|---|---|
| `Common` | shared helpers |
| `Strings` | `split`, `join`, `parseInt`, `replace`, capitalisation |
| `Dicts` | a plain object used as an ordered string-keyed dictionary |
| `Csv` | CSV rows, `safeParseNumber`, the date window, the backward latest-row scan |
| `Sorting` | `sort` with a numeric comparator, and sorted distinct domains |
| `Shiva`, `Joao`, `CovidCharts`, `Spider`, `Shankey`, `Stream`, `Heatmap` | one module per chart file |

The code is modelled in the form it takes in the source:

- **Loops** that fill objects or arrays are methods. Each method is proved equal to a recursive specification function, and the lemmas are about those functions.
  - These loops are the weekly loop, `recovered`, `monthlyData`, `quarterlyDeaths`, the radar's collection loop, the stream's filter and the heat map's nested `forEach`.
- **The flow diagram's mutable state** (`nodeSet`, `nodesArray`, `linksArray` and `addNode`) is a class.
- **The stream's in-place `sort`** is an insertion sort on an array.
- **Map, filter, slice and reduce expressions** are functions.

Representations:

- Counts are `int`. Parsed CSV numbers, ratios and averages are `real`.
- Dates are day numbers counted from 1970-01-01:
  - 2020-02-29 is 18321;
  - 2022-06-17 is 19160;
  - 2020-03-01 is 18322.
- A CSV cell carries its text and what `parseFloat` makes of it, with `None` standing for NaN.

Some of the code's behaviour departs from what its comments suggest. The model follows the code:

- `js/shiva.js` does not clamp daily changes, so a downward revision gives a negative change.
- `js/covid-charts.js` counts the first day's whole cumulative value as that day's new deaths.
- `js/devansh/shankey.js` does three things that a conservative flow diagram would not:
  - it adds a node for every country with a usable row, even with no confirmed cases;
  - it adds the two outcome nodes as soon as one country has a usable row;
  - it does not clamp the Deaths link, so a country's links can add up to more than its confirmed count.
- `js/joao/joao.js` resets `recovered` before it reads the API value. The API value therefore never counts. The model keeps that behaviour and proves that the API's recovered series has no effect on the result.

## Model

| member | source | states |
|---|---|---|
| Common.Filter | js/shiva.js:227 | `Array.prototype.filter`: no longer than the input, and every element kept satisfies the predicate and comes from the input |
| Common.FilterIndices | js/shiva.js:227 | the filter's result is, element by element, the input at the kept positions |
| Common.FilterInOrder | js/shiva.js:227 | the kept positions ascend, so the filter keeps the input's order |
| Common.FilterPosition | js/shiva.js:227 | a position is kept exactly when its element satisfies the predicate |
| Common.FilterKeeps | js/joao/joao.js:467 | an element of the input that satisfies the predicate survives the filter |
| Common.LastN | js/shiva.js:227 | `slice(-n)`: the last min(length, n) elements, in order |
| Common.LastNLatest | js/shiva.js:227 | of an ascending sequence, `slice(-n)` keeps every element larger than a kept one, and drops an element only when it keeps n larger ones |
| Strings.ParseInt | js/covid-charts.js:20 | on the month field of an "M/D/YY" key (no leading space, no `0x`), `parseInt` yields a number exactly when a digit follows the optional sign, and a string of digits reads as its decimal value |
| Strings.JoinSplit | js/covid-charts.js:13 | joining the parts of `split(sep)` with `sep` gives the string back |
| Strings.SplitJoin | js/covid-charts.js:13 | splitting a join of separator-free parts gives those parts back |
| Strings.SplitReplaced | js/devansh/stream.js:47 | replacing every `a` by a character `b` that does not occur, then splitting on `b`, splits as `a` did |
| Strings.RemoveFirst | js/devansh/stream.js:47 | `replace` with a string pattern removes at most one occurrence, adds no character, and removes a leading occurrence |
| Strings.RemoveFirstOccurrence | js/devansh/stream.js:47 | where the pattern first occurs at i, the result is the string with exactly that occurrence cut out |
| Strings.RemoveFirstAbsent | js/devansh/stream.js:47 | where the pattern does not occur, the string is returned unchanged |
| Strings.ReplaceAll | js/devansh/stream.js:47 | `replace(/_/g, ' ')`: same length, each `_` replaced and every other character kept |
| Strings.Capitalize | js/devansh/stream.js:47 | the first character is upper-cased and the rest is unchanged |
| Dicts.Put | js/covid-charts.js:14 | assigning a property: an existing key keeps its place, a new key goes last, and the value is updated |
| Dicts.PutValid | js/covid-charts.js:14 | assigning a property keeps the key list free of repeats and equal to the keys that have a value |
| Dicts.SumAfterAdd | js/covid-charts.js:24-28 | adding x to one key's value (a missing key counts as 0) adds x to the total of the values |
| Dicts.KeysSeenMembers | js/covid-charts.js:11-15 | the keys of an object filled in order are exactly the assigned keys, each once, no more than there were assignments |
| Dicts.KeysSeenOrder | js/covid-charts.js:11-15 | those keys are listed in order of first assignment |
| Csv.SafeParseNumber | js/devansh/spider.js:27-30 | the parsed value when there is one, 0 for NaN |
| Csv.LastWhere | js/devansh/spider.js:279-290 | the highest index whose row is accepted, and no later row is accepted; none when no row is |
| Csv.FindLatest | js/devansh/shankey.js:209-220 | the backward scan that breaks at the first accepted row finds exactly `LastWhere` |
| Sorting.SortInPlace | js/devansh/stream.js:309 | after the in-place sort the array is ordered by the key and is a permutation of its old contents |
| Sorting.SortByKey | js/joao/joao.js:453-456 | the value-level sort is a permutation of its input |
| Sorting.SortByKeySorted | js/joao/joao.js:456 | the value-level sort is ordered by the key |
| Sorting.SortedDistinct | js/devansh/heatmap.js:48 | `Array.from(new Set(xs)).sort()` for values compared by value has exactly the elements of `xs` |
| Sorting.SortedDistinctSorted | js/devansh/heatmap.js:48 | ... and is strictly ascending |
| Sorting.StrLessIsStrictOrder | js/devansh/heatmap.js:48 | the default string order of `sort()` is irreflexive, transitive and total |
| Shiva.DailyChanges | js/shiva.js:63-66 | every item is kept with its fields, in order, and the first daily value is 0 |
| Shiva.DailyValuesAreDifferences | js/shiva.js:65 | the daily value of item i > 0 is its total minus the previous total, with no clamping |
| Shiva.DailyChangesTelescope | js/shiva.js:63-66 | the daily values add up to the last total minus the first |
| Shiva.DailyChangeCanBeNegative | js/shiva.js:65 | a total revised from 150 to 140 gives a daily value of -10 |
| Shiva.ProcessData | js/shiva.js:48-76 | the cumulative series pass through unchanged and the daily series align with them item by item |
| Shiva.WeeklyData | js/shiva.js:399-408 | ⌈(n − start)/7⌉ ≤ 8 weeks from `max(0, n − 56)`, week k numbered k and labelled "Week k" with the sum of its own window; the weekly totals add up to the daily cases from `start` on |
| Shiva.WeeksComplete | js/shiva.js:401-402 | once the loop has passed the last day, the buckets are exactly the windows, and they partition the days from `start` |
| Shiva.WeeksUpToSum | js/shiva.js:401-402 | the first w weekly totals add up to the days they cover |
| Shiva.WeekWindow | js/shiva.js:402 | every window holds between one and seven days |
| Shiva.SevenDayWindow | js/shiva.js:718-719 | the window ending at a valid index holds between one and seven values |
| Shiva.SevenDayAverage | js/shiva.js:717-722 | average times window size equals the window's sum, so there is no division by zero |
| Shiva.SevenDayAverageBounded | js/shiva.js:717-722 | the average lies between any lower and upper bounds of the window's values |
| Shiva.FatalityRate | js/shiva.js:225-226 | non-negative; positive exactly when deaths and cases both are; then rate × cases = deaths × 100 |
| Shiva.FatalityRows | js/shiva.js:220-227 | at most the last thirty rows with new cases, each with positive new cases, a non-negative rate, and taken from the mapped rows |
| Shiva.FatalityRowsKeepRecentDays | js/shiva.js:227 | with thirty or fewer days of new cases, every such day gets a bubble |
| Shiva.BubbleDays | js/shiva.js:220-227 | the bubbles are the mapped rows of ascending days, each with new cases |
| Shiva.FatalityRowsLatest | js/shiva.js:227 | once a day gets a bubble, every later day with new cases does too; a day with new cases is dropped only when thirty later days fill the chart |
| Shiva.FatalityRowsDateOrdered | js/shiva.js:220-227 | on a date-ordered series, the bubbles are in date order |
| Shiva.ClassifyMonotone | js/shiva.js:284-288 | a higher rate never gets a lower class; high exactly above 5, low exactly at or below 2 |
| Joao.DerivedValue | js/joao/joao.js:90-99 | the derived recovered value is max(0, cases − deaths), a missing date counting as 0 |
| Joao.FillRecovered | js/joao/joao.js:89-101 | the `forEach` over a reset `recovered` yields the derived value for every date of `cases`, keys in that order; the API branch is unreachable |
| Joao.ProcessGlobalData | js/joao/joao.js:81-105 | `processGlobalData` equals its specification `GlobalProcessed` |
| Joao.ProcessCountryData | js/joao/joao.js:108-136 | `processCountryData` equals its specification `CountryProcessed` |
| Joao.GlobalRecovered | js/joao/joao.js:85-101 | with cases and deaths present, cases and deaths are kept, and `recovered` has exactly the date keys of `cases`, in order, each with max(0, cases − deaths) ≥ 0 |
| Joao.ApiRecoveredIgnored | js/joao/joao.js:87-96 | the API's recovered series has no effect on the result |
| Joao.GlobalKeepsRecoveredWithoutBoth | js/joao/joao.js:85 | without cases or deaths the copy keeps its original `recovered` |
| Joao.CountryProcessedTimeline | js/joao/joao.js:109-135 | no timeline returns the input itself; otherwise the country is kept and the timeline processed like the global one |
| Joao.ChooseSeries | js/joao/joao.js:452 | the chosen metric's series, falling back to cases when that series is missing; nothing when cases is missing too |
| Joao.LastEntries | js/joao/joao.js:453-455 | the entries of the last min(n, 60) keys, in key order |
| Joao.ClampedDeltas | js/joao/joao.js:462-466 | one change per bar, same dates, never negative, the first one 0 |
| Joao.BarSeriesBounds | js/joao/joao.js:450-467 | the chart throws exactly when neither the chosen series nor cases exists, and returns early without a global timeline; every bar kept has a positive change and a day after 1 March 2020, the bars are in date order, and there are at most 59 |
| Joao.BarSeriesComplete | js/joao/joao.js:462-467 | every later day whose total rose, and which lies after 1 March 2020, gets a bar with exactly the rise |
| Joao.DecreaseGetsNoBar | js/joao/joao.js:466-467 | a fall in the total is clamped to 0 and gets no bar |
| Joao.FilterSorted | js/joao/joao.js:456-467 | filtering keeps a date-sorted series sorted |
| Joao.PieSlices | js/joao/joao.js:842-854 | at most three slices, each with a positive value |
| Joao.PieOutcomeCases | js/joao/joao.js:840-857 | the pie chart throws exactly when a global timeline has no cases, returns early exactly when there is no global timeline or no positive slice, and otherwise draws one to three positive slices |
| Joao.PieSlicesShown | js/joao/joao.js:845-854 | the slices are Active, Recovered, Deaths in that order, each present exactly when its value is positive |
| Joao.PieTotal | js/joao/joao.js:845-854 | the slices add up to the larger of the cases and deaths plus recovered |
| Joao.ActiveNeverShown | js/joao/joao.js:848 | once `recovered` is rebuilt as max(0, cases − deaths), the Active slice is never drawn |
| CovidCharts.Quarter | js/covid-charts.js:21 | `Math.ceil(m / 3)`: the q with 3(q − 1) < m ≤ 3q, in 1..4 for months 1..12 |
| CovidCharts.MonthlyData | js/covid-charts.js:11-15 | the loop fills `monthlyData` as the last-write fold `Assigned` over the month keys |
| CovidCharts.QuarterlyDeaths | js/covid-charts.js:18-29 | the loop, with its reset branch for a missing or zero value, fills `quarterlyDeaths` as the summing fold `Accumulated` over the quarter keys and deltas |
| CovidCharts.AssignedLastWins | js/covid-charts.js:14 | a key is present exactly when some date wrote it, and it holds the value of its last write |
| CovidCharts.MonthValue | js/covid-charts.js:12-15 | a month holds the case count of its last date |
| CovidCharts.AccumulatedByKey | js/covid-charts.js:24-28 | a quarter is present exactly when some date maps to it, and it holds the sum of those dates' values |
| CovidCharts.QuarterValue | js/covid-charts.js:19-29 | each quarter holds the sum of the deaths deltas of its own dates |
| CovidCharts.AccumulatedTotal | js/covid-charts.js:24-28 | nothing is dropped or counted twice: the quarters add up to the sum of all deltas |
| CovidCharts.DeltasTelescope | js/covid-charts.js:25-27 | the deltas of the first k days add up to day k's cumulative value |
| CovidCharts.QuarterTotal | js/covid-charts.js:19-29 | the quarters add up to the last cumulative deaths, not to the deaths within the year |
| CovidCharts.AssignedKeys | js/covid-charts.js:12-15 | `monthlyData`'s keys are the month keys in first-seen order, each once |
| CovidCharts.AccumulatedKeys | js/covid-charts.js:19-29 | `quarterlyDeaths`'s keys are the quarter keys in first-seen order, each once |
| CovidCharts.KeysInFirstSeenOrder | js/covid-charts.js:11-29 | both objects list their keys in first-seen order, no more keys than dates |
| CovidCharts.MonthKeyOfDate | js/covid-charts.js:13 | "M/D/YY" falls in month "M/YY" |
| CovidCharts.QuarterKeyOfDate | js/covid-charts.js:20-23 | "M/D/YY" with month 1–12 falls in "Q⌈M/3⌉ YY", a quarter from 1 to 4 |
| Spider.MetricKeysDistinct | js/devansh/spider.js:33-40 | no two metrics share a key |
| Spider.DemographicsCoverage | js/devansh/spider.js:252-271 | every charted country has demographics, and they hold every metric except the two cumulative counts |
| Spider.MetricValues | js/devansh/spider.js:308-319 | one value per metric |
| Spider.ProcessedUpTo | js/devansh/spider.js:274-331 | at most one entry per visited country, each with one value per metric |
| Spider.CollectMetrics | js/devansh/spider.js:274-331 | the `forEach` yields `processedData` as specified, and `allMetricValues` holds each metric's values of the kept countries in the same order |
| Spider.PushMetrics | js/devansh/spider.js:308-324 | the metric loop reads every metric's value and pushes it onto that metric's column |
| Spider.ColumnsAppend | js/devansh/spider.js:322-330 | pushing one value per metric extends every column by the new country |
| Spider.ColumnMin | js/devansh/spider.js:338 | `d3.min`: a value of the column, no larger than any |
| Spider.ColumnMax | js/devansh/spider.js:339 | `d3.max`: a value of the column, no smaller than any |
| Spider.SpiderData | js/devansh/spider.js:274-363 | a message exactly when no country is kept; otherwise the normalised records of the kept countries |
| Spider.KeptConcat | js/devansh/spider.js:326 | a country is among two lists of entries exactly when it is among either |
| Spider.CountryEntryKept | js/devansh/spider.js:279-301 | a charted country yields an entry, with its own code, exactly when its file has a usable row |
| Spider.KeptIff | js/devansh/spider.js:274-331 | a country is in `processedData` exactly when its file has a usable row |
| Spider.NotKeptBefore | js/devansh/spider.js:274-331 | no country has an entry before its own turn |
| Spider.CodesOfProcessed | js/devansh/spider.js:274-331 | every entry belongs to a visited country |
| Spider.CountryEntryValues | js/devansh/spider.js:279-319 | a kept country's two cumulative counts are the parsed cells of its latest usable row, and its other metrics are its demographics |
| Spider.ScoreInUnit | js/devansh/spider.js:342-348 | every normalised value lies in [0, 1] |
| Spider.ScoreDegenerate | js/devansh/spider.js:342-343 | when all kept countries share a metric's value, each scores 0.5 on it |
| Spider.ScoreExtremes | js/devansh/spider.js:344-348 | otherwise the largest value scores 1 and the smallest 0 on a higher-is-better metric, the reverse on a lower-is-better one |
| Spider.NormalizeEnds | js/devansh/spider.js:344-348 | the ends of the range map to 0 and 1, by direction |
| Spider.NormalizeOrder | js/devansh/spider.js:344-348 | scaling keeps the ranking of a higher-is-better metric and reverses it for a lower-is-better one, and the two directions are mirror images |
| Spider.NormalizeAllShape | js/devansh/spider.js:335-356 | one record per kept country in order, with the metric names in order, the original values kept, and every score in [0, 1] |
| Shankey.KeysSeenConcat | js/devansh/shankey.js:198-203 | `addNode` on one batch of names after another lists the names each once, in first-added order |
| Shankey.GraphBuilder.AddNode | js/devansh/shankey.js:198-203 | a name the set has not seen is appended, and the set and list stay in step without repeats |
| Shankey.GraphBuilder.AddCountry | js/devansh/shankey.js:205-235 | one country's turn adds its names through `addNode` and appends its links |
| Shankey.AddThree | js/devansh/shankey.js:228-230 | three `addNode` calls are the batch of three names |
| Shankey.BuildGraph | js/devansh/shankey.js:194-239 | the graph's nodes are the added names in first-added order, each once, and its links are all countries' links in turn |
| Shankey.NodesStep | js/devansh/shankey.js:205-235 | one more country extends the node list by that country's names |
| Shankey.SankeyView | js/devansh/shankey.js:55-59 | a message exactly when there are no links |
| Shankey.CountryLinksShape | js/devansh/shankey.js:232-235 | at most two links, from the country, with positive values; a Deaths link (value `deceased`) exactly when confirmed > 0 and deceased > 0; a Non-Fatal link (value confirmed − deceased) exactly when confirmed > 0 and that is positive; Deaths first |
| Shankey.CountryLinksTotal | js/devansh/shankey.js:224-235 | with deaths up to the confirmed count, a country's links add up to the confirmed count; with more deaths, to the deaths, more than the confirmed count |
| Shankey.LatestNonNegative | js/devansh/shankey.js:209-222 | a country has totals exactly when some row passes the scan, and the totals are non-negative |
| Shankey.LinksBetweenNames | js/devansh/shankey.js:228-234 | every link joins two names passed to `addNode` |
| Shankey.NamesWithin | js/devansh/shankey.js:228-230 | the only names added are the visited countries and the two outcomes |
| Shankey.CountryNamed | js/devansh/shankey.js:222-228 | a country is named exactly when its file has a usable row, even with no confirmed cases |
| Shankey.CountryNamedOnItsTurn | js/devansh/shankey.js:222-228 | after its own turn a country is named exactly when its file has a usable row |
| Shankey.NamesOfOthers | js/devansh/shankey.js:205-206 | another country's turn does not name this one |
| Shankey.OutcomesNamed | js/devansh/shankey.js:229-230 | "Deaths" and "Non-Fatal Cases" are named exactly when some file has a usable row |
| Shankey.GraphProperties | js/devansh/shankey.js:194-239 | the finished graph: nodes once each in first-added order; links between nodes; a country node exactly when it has a usable row; the outcome nodes exactly when any country does |
| Stream.CapitalizeAll | js/devansh/stream.js:47 | each word capitalised, count kept |
| Stream.CapitalizeKeepsOut | js/devansh/stream.js:47 | capitalising adds no space and no underscore |
| Stream.DisplayNameWords | js/devansh/stream.js:46-48 | the display name has no `_`, and its words are the `_`-separated segments after the prefix, capitalised, as many as there are segments |
| Stream.DisplayNameExample | js/devansh/stream.js:46-48 | "search_trends_shortness_of_breath" becomes "Shortness Of Breath" |
| Stream.ThreeWords | js/devansh/stream.js:47 | three space-free words joined by spaces split back into those words |
| Stream.SymptomValues | js/devansh/stream.js:296-300 | one value per trend column |
| Stream.ReadSymptoms | js/devansh/stream.js:294-300 | the inner loop reads every trend column through `safeParseNumber` and reports whether any value is positive |
| Stream.ProcessTrends | js/devansh/stream.js:288-309 | the result is a permutation of the kept rows, sorted by date |
| Stream.KeptRowsMembers | js/devansh/stream.js:288-306 | a row is kept exactly when some entry contributes it |
| Stream.TrendRowOfEntry | js/devansh/stream.js:292-304 | an entry contributes exactly when its date is in the window and some trend value is positive; the row then carries its day and every trend column's parsed value |
| Stream.ClosestIndex | js/devansh/stream.js:190-192 | an index minimising the distance to the target, with every earlier index strictly farther, so the earliest of equally near points wins |
| Stream.StreamView | js/devansh/stream.js:311-316 | a message exactly when no row is kept |
| Heatmap.ProcessRecords | js/devansh/heatmap.js:148-166 | the nested `forEach` pushes exactly the specified records, country by country, row by row |
| Heatmap.RecordsOf | js/devansh/heatmap.js:152-165 | every record of a country's file carries that country's code |
| Heatmap.RecordsOfMembers | js/devansh/heatmap.js:156-163 | a record is emitted exactly for a row with a date in the window and a non-empty `new_confirmed`, and its value is that cell through `safeParseNumber` |
| Heatmap.RecordsOfInRowOrder | js/devansh/heatmap.js:152-165 | a country's records are its usable rows in file order, one record each |
| Heatmap.RecordsGrouped | js/devansh/heatmap.js:140-166 | records are grouped by country in `countryCodes` order, and only visited countries appear |
| Heatmap.DateDomainAsWritten | js/devansh/heatmap.js:47 | the date axis as written holds one date per record, with the records' dates as a multiset |
| Heatmap.DateDomainAsWrittenSorted | js/devansh/heatmap.js:47 | ... in ascending order |
| Heatmap.DateDomainRepeats | js/devansh/heatmap.js:47 | two countries reporting the same day put it on the as-written axis twice, and once on the intended one |
| Heatmap.DateDomain | js/devansh/heatmap.js:47 | the intended date axis holds exactly the records' days |
| Heatmap.CountryDomain | js/devansh/heatmap.js:48 | the country axis holds exactly the records' countries |
| Heatmap.DomainsStrictlySorted | js/devansh/heatmap.js:47-48 | both axes are strictly ascending and free of repeats |
| Heatmap.MaxCases | js/devansh/heatmap.js:63 | `d3.max` of the values: at least every value, and one of them |
| Heatmap.HeatmapView | js/devansh/heatmap.js:168-178 | a message exactly when there are no records; otherwise the records with the colour domain topped by `MaxCases` |

## Left out

- D3 rendering in every file is not modelled:
  - scales, axes, the pie and arcs, stacking and the wiggle offset, the chord and Sankey layouts;
  - transitions, tooltips, legends, gradients and the radar's geometry.
- Fetching, `d3.csv`, `Promise.all`, timers, resize and click listeners, and the loaders' DOM messages are not modelled. The downloaded files are parameters. A message is modelled as its text.
- The source's console logging is not modelled.
- `js/devansh/cord.js` is not part of this model. It is a fixed matrix drawn as a chord diagram.
- The random generators `generateVaccineData` and `loadSampleData` are not modelled, because they depend on `Math.random` and the clock. The vaccine series is dropped from `Shiva.ProcessData`'s result.
- Number formatting (`toFixed`, `toLocaleString`, tick formats, `formattedDate`) is not modelled.
- `parseFloat` and `new Date` string parsing are not modelled. A cell carries its parse result, and a row carries its day number. Time zones are not modelled.
- Floating point is not modelled. Reals are exact, so rounding in the normalisation, the averages and the rates is absent.
- JavaScript number width is not modelled. Counts are unbounded integers.
- Case mapping is ASCII only: `Strings.Upper` maps `a`–`z`, where `toUpperCase` is Unicode-aware ("ß" becomes "SS"). The trend column names are ASCII.
- Strings.ParseInt: leading whitespace and the `0x` prefix that `parseInt` accepts are not modelled. The month fields it reads have neither.
- CovidCharts.QuarterlyDeaths: requires a deaths series as long as the date keys. The source reads `deaths[i]` by the position of the cases' keys, so a shorter series gives NaN quarters and a longer one is read in part. Both series come from one API response.
- Shiva.AllFatalityRows, Shiva.FatalityRows: require at least as many death points as case points. Otherwise `data.daily.deaths[i].daily_deaths` throws a TypeError. Both series come from one API response.
- Joao.LastEntries: the string → day conversion of the date keys is a parameter `parseDay`. The bar chart's later `sort` is modelled as a value-level stable insertion sort.
- Spider.CollectMetrics: the per-key objects `countryMetrics` and `allMetricValues` are indexed by the metric's position instead of its key. `Spider.MetricKeysDistinct` shows that the two are interchangeable.
- Spider.CollectMetrics: the `metric.key in latestValidEntry` test is modelled through the row's columns. `originalValues` is the same list as the metric values.
- Stream.ProcessTrends: the order of rows that share a date is not stated. `sort` is stable, but a location's file has one row per date, so no two kept rows share one.
- Stream.ClosestIndex: the target date comes from the pointer position, which is a parameter. The reduce over the drawn data is modelled on day numbers.
- Heatmap.ProcessRecords: the `Date` object stored in each record is its day number.

## Findings

| source | as written | input that shows it | evidently intended | confidence | as-written member | corrected member |
|---|---|---|---|---|---|---|
| js/devansh/heatmap.js:47 | `new Set(data.map(d => d.date))` collects `Date` objects. A `Set` compares objects by identity, and every record has its own `Date`, so nothing is merged: the date array holds one entry per record. | The US and IN files both have a usable row for the same day. That day then appears twice in `dates`. The band scale keys its domain by value, so no band is drawn twice, but the tick step `Math.floor(dates.length / 10)` at js/devansh/heatmap.js:98 uses the repeated length: with three countries reporting every day the step is three times wider than the ten ticks intended. | Each day appears once on the x axis, in ascending order. | not executed | Heatmap.DateDomainAsWritten (shown by Heatmap.DateDomainRepeats) | Heatmap.DateDomain (Heatmap.DomainsStrictlySorted; used by Heatmap.HeatmapView) |
