/** The global dashboard's two aggregations of the last year of world totals: the case
    count at the last date of each month (bar chart) and the new deaths of each quarter
    (pie chart). Dates are the API's "M/D/YY" keys; `cases` and `deaths` are the values
    of the two objects, by position. */
module CovidCharts {
  import opened Common
  import opened Strings
  import opened Dicts

  /** `date.split('/')[0] + '/' + date.split('/')[2]`; a missing field prints "undefined". */
  function MonthKey(date: string): string
  {
    var parts := Split(date, '/');
    Part(parts, 0) + "/" + Part(parts, 2)
  }

  /** `Math.ceil(month / 3)` for a whole month number. */
  function Quarter(month: int): (q: int)
    ensures 3 * (q - 1) < month <= 3 * q
    ensures 1 <= month <= 12 ==> 1 <= q <= 4
  {
    (month + 2) / 3
  }

  /** `` `Q${quarter} ${year}` `` with `quarter = Math.ceil(parseInt(date.split('/')[0]) / 3)`;
      a month field that does not parse gives NaN, printed "NaN". */
  function QuarterKey(date: string): string
  {
    var parts := Split(date, '/');
    var quarter := match ParseInt(Part(parts, 0))
      case Some(m) => IntToString(Quarter(m))
      case None => "NaN";
    "Q" + quarter + " " + Part(parts, 2)
  }

  function MonthKeys(dates: seq<string>): (r: seq<string>)
    ensures |r| == |dates| && forall i :: 0 <= i < |dates| ==> r[i] == MonthKey(dates[i])
  {
    seq(|dates|, i requires 0 <= i < |dates| => MonthKey(dates[i]))
  }

  function QuarterKeys(dates: seq<string>): (r: seq<string>)
    ensures |r| == |dates| && forall i :: 0 <= i < |dates| ==> r[i] == QuarterKey(dates[i])
  {
    seq(|dates|, i requires 0 <= i < |dates| => QuarterKey(dates[i]))
  }

  /** `deaths[i] - (i > 0 ? deaths[i-1] : 0)`: the first day counts all deaths so far. */
  function DeathDelta(deaths: seq<int>, i: nat): int
    requires i < |deaths|
  {
    deaths[i] - (if i > 0 then deaths[i - 1] else 0)
  }

  function Deltas(deaths: seq<int>): (r: seq<int>)
    ensures |r| == |deaths| && forall i :: 0 <= i < |deaths| ==> r[i] == DeathDelta(deaths, i)
  {
    seq(|deaths|, i requires 0 <= i < |deaths| => DeathDelta(deaths, i))
  }

  /** `obj[ks[i]] = xs[i]` for each i in turn: every key ends with the value of its last write. */
  function Assigned(ks: seq<string>, xs: seq<int>): Dict<int>
    requires |ks| == |xs|
  {
    if ks == [] then Empty()
    else Put(Assigned(ks[..|ks| - 1], xs[..|xs| - 1]), ks[|ks| - 1], xs[|xs| - 1])
  }

  /** `Add` for each i in turn: every key sums its values. */
  function Accumulated(ks: seq<string>, xs: seq<int>): Dict<int>
    requires |ks| == |xs|
  {
    if ks == [] then Empty()
    else Add(Accumulated(ks[..|ks| - 1], xs[..|xs| - 1]), ks[|ks| - 1], xs[|xs| - 1])
  }

  /** The loop that fills `monthlyData`. */
  method MonthlyData(dates: seq<string>, cases: seq<int>) returns (monthly: Dict<int>)
    requires |cases| == |dates|
    ensures monthly == Assigned(MonthKeys(dates), cases)
  {
    var keys := MonthKeys(dates);
    monthly := Empty();
    var i := 0;
    while i < |dates|
      invariant 0 <= i <= |dates|
      invariant monthly == Assigned(keys[..i], cases[..i])
    {
      var month := MonthKey(dates[i]);
      assert month == keys[i];
      AssignedStep(keys, cases, i, monthly);
      monthly := Put(monthly, month, cases[i]);
      i := i + 1;
    }
    assert keys[..i] == keys && cases[..i] == cases;
  }

  /** The loop that fills `quarterlyDeaths`. A key whose value is missing or 0 is (re)set to
      the delta, any other key has the delta added; both come to the running value plus the
      delta. */
  method QuarterlyDeaths(dates: seq<string>, deaths: seq<int>) returns (quarterly: Dict<int>)
    requires |deaths| == |dates|
    ensures quarterly == Accumulated(QuarterKeys(dates), Deltas(deaths))
  {
    var keys, deltas := QuarterKeys(dates), Deltas(deaths);
    quarterly := Empty();
    var i := 0;
    while i < |dates|
      invariant 0 <= i <= |dates|
      invariant quarterly == Accumulated(keys[..i], deltas[..i])
    {
      var key := QuarterKey(dates[i]);
      var delta := deaths[i] - (if i > 0 then deaths[i - 1] else 0);
      var value;
      if key !in quarterly.vals || quarterly.vals[key] == 0 {
        value := delta;
      } else {
        value := quarterly.vals[key] + delta;
      }
      assert key == keys[i] && delta == deltas[i];
      assert value == Lookup(quarterly, key) + delta;
      AccumulatedStep(keys, deltas, i, quarterly, key, value);
      quarterly := Put(quarterly, key, value);
      i := i + 1;
    }
    assert keys[..i] == keys && deltas[..i] == deltas;
  }

  /** One more write extends the fold by one index. */
  lemma {:induction false} AssignedStep(ks: seq<string>, xs: seq<int>, i: nat, prev: Dict<int>)
    requires |ks| == |xs| && i < |ks| && prev == Assigned(ks[..i], xs[..i])
    ensures Put(prev, ks[i], xs[i]) == Assigned(ks[..i + 1], xs[..i + 1])
  {
    assert ks[..i + 1][..i] == ks[..i] && xs[..i + 1][..i] == xs[..i];
  }

  lemma {:induction false} AccumulatedStep(ks: seq<string>, xs: seq<int>, i: nat, prev: Dict<int>, key: string, value: int)
    requires |ks| == |xs| && i < |ks| && prev == Accumulated(ks[..i], xs[..i])
    requires key == ks[i] && value == Lookup(prev, key) + xs[i]
    ensures Put(prev, key, value) == Accumulated(ks[..i + 1], xs[..i + 1])
  {
    assert ks[..i + 1][..i] == ks[..i] && xs[..i + 1][..i] == xs[..i];
  }

  /** The last write wins: a key is present exactly when some index wrote it, and holds the
      value written at the last such index. */
  lemma {:induction false} AssignedLastWins(ks: seq<string>, xs: seq<int>, k: string)
    requires |ks| == |xs|
    ensures k in Assigned(ks, xs).vals <==> k in ks
    ensures forall i :: 0 <= i < |ks| && ks[i] == k && (forall j :: i < j < |ks| ==> ks[j] != k) ==>
      Assigned(ks, xs).vals[k] == xs[i]
  {
    if ks != [] {
      var n := |ks|;
      var init, xinit := ks[..n - 1], xs[..n - 1];
      AssignedLastWins(init, xinit, k);
      assert ks == init + [ks[n - 1]];
      forall i | 0 <= i < n && ks[i] == k && (forall j :: i < j < n ==> ks[j] != k)
        ensures Assigned(ks, xs).vals[k] == xs[i]
      {
        if i < n - 1 {
          assert init[i] == k && xinit[i] == xs[i];
        }
      }
    }
  }

  /** Sum of the values written under key `k`. */
  function SumWhere(ks: seq<string>, xs: seq<int>, k: string): int
    requires |ks| == |xs|
  {
    if ks == [] then 0
    else SumWhere(ks[..|ks| - 1], xs[..|xs| - 1], k) + (if ks[|ks| - 1] == k then xs[|xs| - 1] else 0)
  }

  /** Each index contributes its value to its own key and to no other. */
  lemma {:induction false} AccumulatedByKey(ks: seq<string>, xs: seq<int>, k: string)
    requires |ks| == |xs|
    ensures k in Accumulated(ks, xs).vals <==> k in ks
    ensures Lookup(Accumulated(ks, xs), k) == SumWhere(ks, xs, k)
  {
    if ks != [] {
      var n := |ks|;
      AccumulatedByKey(ks[..n - 1], xs[..n - 1], k);
      assert ks == ks[..n - 1] + [ks[n - 1]];
    }
  }

  lemma {:induction false} AssignedKeys(ks: seq<string>, xs: seq<int>)
    requires |ks| == |xs|
    ensures Assigned(ks, xs).keys == KeysSeen(ks)
    ensures Valid(Assigned(ks, xs))
  {
    if ks != [] {
      var init, k := ks[..|ks| - 1], ks[|ks| - 1];
      var prev := Assigned(init, xs[..|xs| - 1]);
      AssignedStep(ks, xs, |ks| - 1, prev);
      assert ks[..|ks|] == ks && xs[..|xs|] == xs;
      assert Put(prev, k, xs[|xs| - 1]).keys == KeysSeen(ks) && Valid(Put(prev, k, xs[|xs| - 1])) by {
        AssignedKeys(init, xs[..|xs| - 1]);
        assert k in prev.vals <==> k in KeysSeen(init);
        assert KeysSeen(ks) == if k in KeysSeen(init) then KeysSeen(init) else KeysSeen(init) + [k];
        PutValid(prev, k, xs[|xs| - 1]);
      }
    }
  }

  lemma {:induction false} AccumulatedKeys(ks: seq<string>, xs: seq<int>)
    requires |ks| == |xs|
    ensures Accumulated(ks, xs).keys == KeysSeen(ks)
    ensures Valid(Accumulated(ks, xs))
  {
    if ks != [] {
      var init, k := ks[..|ks| - 1], ks[|ks| - 1];
      var prev := Accumulated(init, xs[..|xs| - 1]);
      assert Add(prev, k, xs[|xs| - 1]).keys == KeysSeen(ks) && Valid(Add(prev, k, xs[|xs| - 1])) by {
        AccumulatedKeys(init, xs[..|xs| - 1]);
        assert k in prev.vals <==> k in KeysSeen(init);
        assert KeysSeen(ks) == if k in KeysSeen(init) then KeysSeen(init) else KeysSeen(init) + [k];
        PutValid(prev, k, Lookup(prev, k) + xs[|xs| - 1]);
      }
    }
  }

  /** Nothing is dropped or counted twice: the values of all keys add up to the sum of the input. */
  lemma {:induction false} AccumulatedTotal(ks: seq<string>, xs: seq<int>)
    requires |ks| == |xs|
    ensures SumValues(Accumulated(ks, xs)) == Sum(xs)
  {
    if ks != [] {
      var init, xinit := ks[..|ks| - 1], xs[..|xs| - 1];
      assert Valid(Accumulated(init, xinit)) by { AccumulatedKeys(init, xinit); }
      AccumulatedTotalStep(ks, xs);
      AccumulatedTotal(init, xinit);
      assert Sum(xs) == Sum(xinit) + xs[|xs| - 1];
    }
  }

  lemma {:induction false} AccumulatedTotalStep(ks: seq<string>, xs: seq<int>)
    requires |ks| == |xs| && ks != []
    requires Valid(Accumulated(ks[..|ks| - 1], xs[..|xs| - 1]))
    ensures SumValues(Accumulated(ks, xs))
         == SumValues(Accumulated(ks[..|ks| - 1], xs[..|xs| - 1])) + xs[|xs| - 1]
  {
    var prev := Accumulated(ks[..|ks| - 1], xs[..|xs| - 1]);
    assert Accumulated(ks, xs) == Add(prev, ks[|ks| - 1], xs[|xs| - 1]);
    SumAfterAdd(prev, ks[|ks| - 1], xs[|xs| - 1]);
  }

  /** The deltas of the first k days add up to the cumulative count of day k. */
  lemma {:induction false} DeltasTelescope(deaths: seq<int>, k: nat)
    requires 1 <= k <= |deaths|
    ensures Sum(Deltas(deaths)[..k]) == deaths[k - 1]
  {
    var d := Deltas(deaths);
    if k == 1 {
      assert d[..1] == [deaths[0]];
      assert Sum([deaths[0]]) == Sum([]) + deaths[0];
    } else {
      DeltasTelescope(deaths, k - 1);
      assert d[..k][..k - 1] == d[..k - 1];
    }
  }

  /** The quarters add up to the last cumulative value, not to the deaths within the year:
      the first day's delta is the whole count before it. */
  lemma {:induction false} QuarterTotal(dates: seq<string>, deaths: seq<int>)
    requires |deaths| == |dates| > 0
    ensures SumValues(Accumulated(QuarterKeys(dates), Deltas(deaths))) == deaths[|deaths| - 1]
  {
    var d := Deltas(deaths);
    AccumulatedTotal(QuarterKeys(dates), d);
    DeltasTelescope(deaths, |deaths|);
    assert d[..|d|] == d;
  }

  /** A quarter's value is the sum of the deltas of its own dates. */
  lemma {:induction false} QuarterValue(dates: seq<string>, deaths: seq<int>, key: string)
    requires |deaths| == |dates|
    ensures Lookup(Accumulated(QuarterKeys(dates), Deltas(deaths)), key)
         == SumWhere(QuarterKeys(dates), Deltas(deaths), key)
    ensures key in Accumulated(QuarterKeys(dates), Deltas(deaths)).vals
        <==> exists i :: 0 <= i < |dates| && QuarterKey(dates[i]) == key
  {
    var ks := QuarterKeys(dates);
    AccumulatedByKey(ks, Deltas(deaths), key);
    assert key in ks <==> exists i :: 0 <= i < |dates| && QuarterKey(dates[i]) == key by {
      if key in ks {
        var i :| 0 <= i < |ks| && ks[i] == key;
        assert QuarterKey(dates[i]) == key;
      }
    }
  }

  /** A month holds the case count of the last date of that month. */
  lemma {:induction false} MonthValue(dates: seq<string>, cases: seq<int>, i: nat)
    requires |cases| == |dates| && i < |dates|
    requires forall j :: i < j < |dates| ==> MonthKey(dates[j]) != MonthKey(dates[i])
    ensures MonthKey(dates[i]) in Assigned(MonthKeys(dates), cases).vals
    ensures Assigned(MonthKeys(dates), cases).vals[MonthKey(dates[i])] == cases[i]
  {
    AssignedLastWins(MonthKeys(dates), cases, MonthKey(dates[i]));
  }

  /** Month and quarter keys come in first-seen order, once each, no more than there are dates. */
  lemma {:induction false} KeysInFirstSeenOrder(dates: seq<string>, cases: seq<int>, deaths: seq<int>)
    requires |cases| == |dates| && |deaths| == |dates|
    ensures Assigned(MonthKeys(dates), cases).keys == KeysSeen(MonthKeys(dates))
    ensures Accumulated(QuarterKeys(dates), Deltas(deaths)).keys == KeysSeen(QuarterKeys(dates))
    ensures |KeysSeen(MonthKeys(dates))| <= |dates| && |KeysSeen(QuarterKeys(dates))| <= |dates|
  {
    AssignedKeys(MonthKeys(dates), cases);
    AccumulatedKeys(QuarterKeys(dates), Deltas(deaths));
    KeysSeenMembers(MonthKeys(dates));
    KeysSeenMembers(QuarterKeys(dates));
  }

  /** An "M/D/YY" date falls in month "M/YY". */
  lemma {:induction false} MonthKeyOfDate(m: string, d: string, y: string)
    requires '/' !in m && '/' !in d && '/' !in y
    ensures MonthKey(Join([m, d, y], '/')) == m + "/" + y
  {
    SplitJoin([m, d, y], '/');
  }

  /** An "M/D/YY" date with month 1 to 12 falls in quarter "Q1" to "Q4" of year YY. */
  lemma {:induction false} QuarterKeyOfDate(m: string, d: string, y: string)
    requires '/' !in m && '/' !in d && '/' !in y
    requires |m| > 0 && AllDigits(m) && 1 <= DigitsValue(m) <= 12
    ensures 1 <= Quarter(DigitsValue(m)) <= 4
    ensures QuarterKey(Join([m, d, y], '/')) == "Q" + IntToString(Quarter(DigitsValue(m))) + " " + y
  {
    var parts := [m, d, y];
    SplitJoin(parts, '/');
    assert Split(Join(parts, '/'), '/') == parts;
    assert Part(parts, 0) == m && Part(parts, 2) == y;
    assert ParseInt(m) == Some(DigitsValue(m));
  }
}
