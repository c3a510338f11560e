/** The climate-normals statistics of src/WC_GenNormalsStats.py over the rows
    of a daily-summary table: averages of non-null values, extremes with every
    tying date, per-year tallies (days inside a range, precipitation totals)
    averaged over the distinct years, the reference-period filter and the
    month-by-month normals.

    Only the columns the statistics read are modelled. Python's final
    `round(...)` is not: averages are the exact quotients. */
module NormalsStats {
  import opened Wrappers
  import opened Stats

  datatype Date = Date(year: int, month: int, day: int)

  /** One row of the daily table; NULL columns are None. */
  datatype DailyRow = DailyRow(date: Date, tempAvg: Option<real>, tempHigh: Option<real>,
                               tempLow: Option<real>, precipitation: Option<real>)

  datatype Column = TempAvg | TempHigh | TempLow | Precipitation

  function Value(row: DailyRow, col: Column): Option<real>
  {
    match col
    case TempAvg => row.tempAvg
    case TempHigh => row.tempHigh
    case TempLow => row.tempLow
    case Precipitation => row.precipitation
  }

  predicate NoValues(rows: seq<DailyRow>, col: Column)
  {
    forall row :: row in rows ==> Value(row, col).None?
  }

  datatype StatsError = EmptyData | DivisionByZero

  // ---------------------------------------------------------------------
  // Non-null values, extremes and the average
  // ---------------------------------------------------------------------

  /** The non-null values of a column, in row order. */
  function Values(rows: seq<DailyRow>, col: Column): (vs: seq<real>)
    ensures |vs| <= |rows|
    ensures |vs| == 0 <==> NoValues(rows, col)
  {
    if rows == [] then []
    else
      var init := rows[..|rows| - 1];
      var last := rows[|rows| - 1];
      assert forall row :: row in rows <==> row in init || row == last;
      var vs := Values(init, col);
      match Value(last, col)
      case None => vs
      case Some(v) => vs + [v]
  }

  /** The values are exactly the non-null entries of the column. */
  lemma {:induction false} ValuesMembers(rows: seq<DailyRow>, col: Column)
    ensures forall row :: row in rows && Value(row, col).Some? ==> Value(row, col).value in Values(rows, col)
    ensures forall v :: v in Values(rows, col) ==> exists row :: row in rows && Value(row, col) == Some(v)
    decreases |rows|
  {
    if rows != [] {
      var init := rows[..|rows| - 1];
      assert forall row :: row in rows <==> row in init || row == rows[|rows| - 1];
      ValuesMembers(init, col);
    }
  }

  /** The largest value of a column, NULL ranking below every number
      (`float('-inf')`); None when the column holds no value at all. */
  function MaxKey(rows: seq<DailyRow>, col: Column): (r: Option<real>)
    ensures r.None? <==> NoValues(rows, col)
    ensures r.Some? ==> exists row :: row in rows && Value(row, col) == r
    ensures r.Some? ==> forall row :: row in rows && Value(row, col).Some? ==> Value(row, col).value <= r.value
  {
    if rows == [] then None
    else
      var init := rows[..|rows| - 1];
      var last := rows[|rows| - 1];
      assert forall row :: row in rows <==> row in init || row == last;
      var m := MaxKey(init, col);
      var v := Value(last, col);
      if v.None? then m
      else if m.None? || m.value < v.value then v
      else m
  }

  /** The smallest value of a column, NULL ranking above every number
      (`float('inf')`); None when the column holds no value at all. */
  function MinKey(rows: seq<DailyRow>, col: Column): (r: Option<real>)
    ensures r.None? <==> NoValues(rows, col)
    ensures r.Some? ==> exists row :: row in rows && Value(row, col) == r
    ensures r.Some? ==> forall row :: row in rows && Value(row, col).Some? ==> r.value <= Value(row, col).value
  {
    if rows == [] then None
    else
      var init := rows[..|rows| - 1];
      var last := rows[|rows| - 1];
      assert forall row :: row in rows <==> row in init || row == last;
      var m := MinKey(init, col);
      var v := Value(last, col);
      if v.None? then m
      else if m.None? || v.value < m.value then v
      else m
  }

  /** `calculate_average`: None iff the column has no value; otherwise the
      exact mean of the non-null values, which lies between their minimum
      and maximum. */
  function Average(rows: seq<DailyRow>, col: Column): (r: Option<real>)
    ensures r.None? <==> NoValues(rows, col)
    ensures r.Some? ==> r.value == Mean(Values(rows, col))
    ensures r.Some? ==> MinKey(rows, col).value <= r.value <= MaxKey(rows, col).value
  {
    var vs := Values(rows, col);
    if vs == [] then None
    else
      ValuesWithinKeys(rows, col);
      Some(Mean(vs))
  }

  lemma ValuesWithinKeys(rows: seq<DailyRow>, col: Column)
    requires !NoValues(rows, col)
    ensures MinKey(rows, col).value <= Min(Values(rows, col))
    ensures Max(Values(rows, col)) <= MaxKey(rows, col).value
  {
    ValuesMembers(rows, col);
    var vs := Values(rows, col);
    var hi := Max(vs);
    assert hi in vs;
    var rh :| rh in rows && Value(rh, col) == Some(hi);
    var lo := Min(vs);
    assert lo in vs;
    var rl :| rl in rows && Value(rl, col) == Some(lo);
  }

  // ---------------------------------------------------------------------
  // Extremes with their dates (find_max_with_dates, find_min_with_dates)
  // ---------------------------------------------------------------------

  /** One `{'Date': ..., 'Value': ...}` entry; the `str()` rendering is not
      modelled. */
  datatype Dated = Dated(date: Date, value: Option<real>)

  /** The rows whose column equals `x`, in row order. */
  function Ties(rows: seq<DailyRow>, col: Column, x: Option<real>): (r: seq<Dated>)
    ensures |r| <= |rows|
    ensures forall d :: d in r ==> d.value == x
  {
    if rows == [] then []
    else
      var last := rows[|rows| - 1];
      Ties(rows[..|rows| - 1], col, x) + (if Value(last, col) == x then [Dated(last.date, x)] else [])
  }

  /** Ties keeps row order: the ties of a concatenation are the ties of each
      part, one after the other. */
  lemma {:induction false} TiesAppend(a: seq<DailyRow>, b: seq<DailyRow>, col: Column, x: Option<real>)
    ensures Ties(a + b, col, x) == Ties(a, col, x) + Ties(b, col, x)
    decreases |b|
  {
    if b == [] {
      assert a + b == a;
    } else {
      assert (a + b)[..|a + b| - 1] == a + b[..|b| - 1];
      TiesAppend(a, b[..|b| - 1], col, x);
    }
  }

  /** Every row holding `x` contributes its date, and every entry comes from
      such a row. */
  lemma {:induction false} TiesMembers(rows: seq<DailyRow>, col: Column, x: Option<real>)
    ensures forall row :: row in rows && Value(row, col) == x ==> Dated(row.date, x) in Ties(rows, col, x)
    ensures forall d :: d in Ties(rows, col, x) ==>
              exists row :: row in rows && row.date == d.date && Value(row, col) == x
    decreases |rows|
  {
    if rows != [] {
      var init := rows[..|rows| - 1];
      assert forall row :: row in rows <==> row in init || row == rows[|rows| - 1];
      TiesMembers(init, col, x);
    }
  }

  /** `find_max_with_dates`: raises on empty data; an all-NULL column gives
      no entry (nothing equals minus infinity); otherwise the entries of the
      maximum, in row order. */
  function FindMaxWithDates(rows: seq<DailyRow>, col: Column): (r: Result<seq<Dated>, StatsError>)
    ensures r.Err? <==> rows == []
    ensures r.Ok? && NoValues(rows, col) ==> r.value == []
    ensures r.Ok? ==> forall d :: d in r.value ==>
              d.value.Some? && forall row :: row in rows && Value(row, col).Some? ==> Value(row, col).value <= d.value.value
  {
    if rows == [] then Err(EmptyData)
    else
      var m := MaxKey(rows, col);
      if m.None? then Ok([]) else Ok(Ties(rows, col, m))
  }

  /** `find_min_with_dates`: raises on empty data; for an all-NULL column the
      minimum row's value is None, and every row equals it; otherwise the
      entries of the minimum, in row order. */
  function FindMinWithDates(rows: seq<DailyRow>, col: Column): (r: Result<seq<Dated>, StatsError>)
    ensures r.Err? <==> rows == []
    ensures r.Ok? ==> forall d :: d in r.value ==>
              forall row :: row in rows && Value(row, col).Some? ==> d.value.Some? && d.value.value <= Value(row, col).value
  {
    if rows == [] then Err(EmptyData)
    else Ok(Ties(rows, col, MinKey(rows, col)))
  }

  /** The maximum entries are exactly the rows at the maximum. */
  lemma MaxWithDatesExact(rows: seq<DailyRow>, col: Column)
    requires !NoValues(rows, col)
    ensures FindMaxWithDates(rows, col).Ok?
    ensures forall row :: row in rows && Value(row, col) == MaxKey(rows, col) ==>
              Dated(row.date, Value(row, col)) in FindMaxWithDates(rows, col).value
    ensures forall d :: d in FindMaxWithDates(rows, col).value ==>
              exists row :: row in rows && row.date == d.date && Value(row, col) == MaxKey(rows, col)
    ensures |FindMaxWithDates(rows, col).value| > 0
  {
    TiesMembers(rows, col, MaxKey(rows, col));
  }

  /** The minimum entries are exactly the rows at the minimum. */
  lemma MinWithDatesExact(rows: seq<DailyRow>, col: Column)
    requires !NoValues(rows, col)
    ensures FindMinWithDates(rows, col).Ok?
    ensures forall row :: row in rows && Value(row, col) == MinKey(rows, col) ==>
              Dated(row.date, Value(row, col)) in FindMinWithDates(rows, col).value
    ensures forall d :: d in FindMinWithDates(rows, col).value ==>
              exists row :: row in rows && row.date == d.date && Value(row, col) == MinKey(rows, col)
    ensures |FindMinWithDates(rows, col).value| > 0
  {
    TiesMembers(rows, col, MinKey(rows, col));
  }

  /** An all-NULL column makes every row an entry of the minimum. */
  lemma MinWithDatesAllNull(rows: seq<DailyRow>, col: Column)
    requires rows != [] && NoValues(rows, col)
    ensures FindMinWithDates(rows, col) == Ok(Ties(rows, col, None))
    ensures |FindMinWithDates(rows, col).value| == |rows|
  {
    AllNullTies(rows, col);
  }

  lemma {:induction false} AllNullTies(rows: seq<DailyRow>, col: Column)
    requires NoValues(rows, col)
    ensures |Ties(rows, col, None)| == |rows|
    decreases |rows|
  {
    if rows != [] {
      var init := rows[..|rows| - 1];
      assert forall row :: row in init ==> row in rows;
      assert rows[|rows| - 1] in rows;
      AllNullTies(init, col);
    }
  }

  // ---------------------------------------------------------------------
  // Per-year tallies (calculate_average_days_*, calculate_yearly_average_precipitation)
  // ---------------------------------------------------------------------

  /** A range bound: a number or one of Python's infinities. */
  datatype Bound = NegInf | Finite(x: real) | PosInf

  predicate BoundAtMost(b: Bound, v: real)
  {
    match b
    case NegInf => true
    case Finite(x) => x <= v
    case PosInf => false
  }

  predicate BoundBelow(b: Bound, v: real)
  {
    match b
    case NegInf => true
    case Finite(x) => x < v
    case PosInf => false
  }

  predicate AtMostBound(v: real, b: Bound)
  {
    match b
    case NegInf => false
    case Finite(x) => v <= x
    case PosInf => true
  }

  predicate BelowBound(v: real, b: Bound)
  {
    match b
    case NegInf => false
    case Finite(x) => v < x
    case PosInf => true
  }

  /** The range test of each day-count helper: precipitation counts
      lo <= v < hi, mean and daily high temperature lo <= v <= hi, daily low
      temperature lo < v <= hi. */
  predicate InRange(col: Column, lo: Bound, hi: Bound, v: real)
  {
    match col
    case Precipitation => BoundAtMost(lo, v) && BelowBound(v, hi)
    case TempAvg => BoundAtMost(lo, v) && AtMostBound(v, hi)
    case TempHigh => BoundAtMost(lo, v) && AtMostBound(v, hi)
    case TempLow => BoundBelow(lo, v) && AtMostBound(v, hi)
  }

  /** What a per-year tally adds up. */
  datatype Tally = DaysInRange(col: Column, lo: Bound, hi: Bound) | PrecipitationTotal

  /** What one row adds to its year: 1 for a non-null value in range, or its
      non-null precipitation. */
  function Weight(t: Tally, row: DailyRow): real
  {
    match t
    case DaysInRange(col, lo, hi) =>
      var v := Value(row, col);
      if v.Some? && InRange(col, lo, hi, v.value) then 1.0 else 0.0
    case PrecipitationTotal =>
      if row.precipitation.Some? then row.precipitation.value else 0.0
  }

  /** The years of the rows, distinct, in order of first appearance (the
      insertion order of the per-year dict). */
  function Years(rows: seq<DailyRow>): (ys: seq<int>)
    ensures forall y :: y in ys <==> exists row :: row in rows && row.date.year == y
    ensures forall i, j :: 0 <= i < j < |ys| ==> ys[i] != ys[j]
    ensures |ys| == 0 <==> rows == []
  {
    if rows == [] then []
    else
      var init := rows[..|rows| - 1];
      var last := rows[|rows| - 1];
      assert forall row :: row in rows <==> row in init || row == last;
      var ys := Years(init);
      if last.date.year in ys then ys else ys + [last.date.year]
  }

  /** The tally of one year. */
  function YearTotal(rows: seq<DailyRow>, t: Tally, y: int): real
  {
    if rows == [] then 0.0
    else
      var last := rows[|rows| - 1];
      YearTotal(rows[..|rows| - 1], t, y) + (if last.date.year == y then Weight(t, last) else 0.0)
  }

  /** The tally of all rows. */
  function Total(rows: seq<DailyRow>, t: Tally): real
  {
    if rows == [] then 0.0 else Total(rows[..|rows| - 1], t) + Weight(t, rows[|rows| - 1])
  }

  /** `sum(by_year.values())` over the given years. */
  function SumYears(ys: seq<int>, rows: seq<DailyRow>, t: Tally): real
  {
    if ys == [] then 0.0 else SumYears(ys[..|ys| - 1], rows, t) + YearTotal(rows, t, ys[|ys| - 1])
  }

  lemma {:induction false} YearTotalAbsent(rows: seq<DailyRow>, t: Tally, y: int)
    requires forall row :: row in rows ==> row.date.year != y
    ensures YearTotal(rows, t, y) == 0.0
    decreases |rows|
  {
    if rows != [] {
      var init := rows[..|rows| - 1];
      assert forall row :: row in init ==> row in rows;
      assert rows[|rows| - 1] in rows;
      YearTotalAbsent(init, t, y);
    }
  }

  /** Adding one row to the data adds its weight to the sum over any list
      of distinct years that contains its year, and nothing otherwise. */
  lemma {:induction false} SumYearsAddRow(ys: seq<int>, rows: seq<DailyRow>, row: DailyRow, t: Tally)
    requires forall i, j :: 0 <= i < j < |ys| ==> ys[i] != ys[j]
    ensures SumYears(ys, rows + [row], t)
            == SumYears(ys, rows, t) + (if row.date.year in ys then Weight(t, row) else 0.0)
    decreases |ys|
  {
    if ys != [] {
      var init := ys[..|ys| - 1];
      var y := ys[|ys| - 1];
      assert (rows + [row])[..|rows + [row]| - 1] == rows;
      assert forall z :: z in ys <==> z in init || z == y;
      SumYearsAddRow(init, rows, row, t);
    }
  }

  /** Summing the per-year tallies over the distinct years gives the tally
      of all rows: every year present is recorded, none twice. */
  lemma {:induction false} SumOfYearTotals(rows: seq<DailyRow>, t: Tally)
    ensures SumYears(Years(rows), rows, t) == Total(rows, t)
    decreases |rows|
  {
    if rows != [] {
      var init := rows[..|rows| - 1];
      var row := rows[|rows| - 1];
      assert init + [row] == rows;
      var ys := Years(init);
      SumOfYearTotals(init, t);
      SumYearsAddRow(ys, init, row, t);
      if row.date.year !in ys {
        var y := row.date.year;
        assert ys + [y] == Years(rows);
        assert (ys + [y])[..|ys + [y]| - 1] == ys;
        YearTotalAbsent(init, t, y);
      }
    }
  }

  /** The loop of the per-year helpers: a dict from year to tally, keyed in
      order of first appearance; every year present gets an entry, even
      with a tally of 0. */
  method TallyByYear(rows: seq<DailyRow>, t: Tally) returns (years: seq<int>, totals: map<int, real>)
    ensures years == Years(rows)
    ensures forall y :: y in totals <==> y in years
    ensures forall y :: y in totals ==> totals[y] == YearTotal(rows, t, y)
  {
    years := [];
    totals := map[];
    var i := 0;
    while i < |rows|
      invariant 0 <= i <= |rows|
      invariant years == Years(rows[..i])
      invariant forall y :: y in totals <==> y in years
      invariant forall y :: y in totals ==> totals[y] == YearTotal(rows[..i], t, y)
    {
      years, totals := TallyRow(rows, i, t, years, totals);
      i := i + 1;
    }
    assert rows[..i] == rows;
  }

  /** One iteration of the per-year loop: the row's year gets an entry of 0
      if it has none yet, then the row's weight is added to it. */
  method TallyRow(rows: seq<DailyRow>, i: nat, t: Tally, years: seq<int>, totals: map<int, real>)
    returns (years': seq<int>, totals': map<int, real>)
    requires i < |rows|
    requires years == Years(rows[..i])
    requires forall y :: y in totals <==> y in years
    requires forall y :: y in totals ==> totals[y] == YearTotal(rows[..i], t, y)
    ensures years' == Years(rows[..i + 1])
    ensures forall y :: y in totals' <==> y in years'
    ensures forall y :: y in totals' ==> totals'[y] == YearTotal(rows[..i + 1], t, y)
  {
    var row := rows[i];
    var y := row.date.year;
    TallyStep(rows, i, t);
    years', totals' := years, totals;
    if y !in totals {
      YearTotalAbsent(rows[..i], t, y);
      totals' := totals'[y := 0.0];
      years' := years' + [y];
    }
    totals' := totals'[y := totals'[y] + Weight(t, row)];
  }

  /** One more row: its year joins the years if new, and its weight joins
      its year's tally. */
  lemma TallyStep(rows: seq<DailyRow>, i: nat, t: Tally)
    requires i < |rows|
    ensures Years(rows[..i + 1]) == (if rows[i].date.year in Years(rows[..i]) then Years(rows[..i])
                                     else Years(rows[..i]) + [rows[i].date.year])
    ensures forall y :: YearTotal(rows[..i + 1], t, y)
                        == YearTotal(rows[..i], t, y) + (if y == rows[i].date.year then Weight(t, rows[i]) else 0.0)
  {
    assert rows[..i + 1][..i] == rows[..i] && rows[..i + 1][i] == rows[i];
  }

  /** `sum(by_year.values())`. */
  method SumTallies(years: seq<int>, totals: map<int, real>, ghost rows: seq<DailyRow>, ghost t: Tally)
    returns (total: real)
    requires forall y :: y in years ==> y in totals
    requires forall y :: y in years && y in totals ==> totals[y] == YearTotal(rows, t, y)
    ensures total == SumYears(years, rows, t)
  {
    total := 0.0;
    var k := 0;
    while k < |years|
      invariant 0 <= k <= |years|
      invariant total == SumYears(years[..k], rows, t)
    {
      assert years[..k + 1][..k] == years[..k];
      var y := years[k];
      assert y in years;
      assert y in totals;
      total := total + totals[y];
      k := k + 1;
    }
    assert years[..k] == years;
  }

  /** `calculate_average_days_*`: the number of days whose value lies in the
      column's range, per distinct year; no rows is a division by zero. */
  method AverageDaysInRange(rows: seq<DailyRow>, col: Column, lo: Bound, hi: Bound)
    returns (r: Result<real, StatsError>)
    ensures r.Err? <==> rows == []
    ensures r.Ok? ==> r.value == Total(rows, DaysInRange(col, lo, hi)) / |Years(rows)| as real
  {
    var years, totals := TallyByYear(rows, DaysInRange(col, lo, hi));
    if |years| == 0 {
      return Err(DivisionByZero);
    }
    var total := SumTallies(years, totals, rows, DaysInRange(col, lo, hi));
    SumOfYearTotals(rows, DaysInRange(col, lo, hi));
    r := Ok(total / |years| as real);
  }

  /** `calculate_yearly_average_precipitation`: the total of all non-null
      precipitation per distinct year; None when there are no rows. */
  method YearlyAveragePrecipitation(rows: seq<DailyRow>) returns (r: Option<real>)
    ensures r.None? <==> rows == []
    ensures r.Some? ==> r.value == Sum(Values(rows, Precipitation)) / |Years(rows)| as real
  {
    var years, totals := TallyByYear(rows, PrecipitationTotal);
    if |years| == 0 {
      return None;
    }
    var total := SumTallies(years, totals, rows, PrecipitationTotal);
    SumOfYearTotals(rows, PrecipitationTotal);
    PrecipitationTotalIsSum(rows);
    r := Some(total / |years| as real);
  }

  /** The precipitation tally of all rows is the sum of the non-null
      precipitation values. */
  lemma {:induction false} PrecipitationTotalIsSum(rows: seq<DailyRow>)
    ensures Total(rows, PrecipitationTotal) == Sum(Values(rows, Precipitation))
    decreases |rows|
  {
    if rows != [] {
      var init := rows[..|rows| - 1];
      PrecipitationTotalIsSum(init);
      var last := rows[|rows| - 1];
      if last.precipitation.Some? {
        SumAppend(Values(init, Precipitation), [last.precipitation.value]);
      }
    }
  }

  /** A day-range tally counts days: it is a whole number between 0 and the
      number of rows. */
  lemma {:induction false} DaysTotalBounds(rows: seq<DailyRow>, col: Column, lo: Bound, hi: Bound)
    ensures 0.0 <= Total(rows, DaysInRange(col, lo, hi)) <= |rows| as real
    decreases |rows|
  {
    if rows != [] {
      DaysTotalBounds(rows[..|rows| - 1], col, lo, hi);
    }
  }

  /** The bounds differ per field: at the lower bound only precipitation and
      the mean and high temperatures count; at the upper bound only the
      temperatures count. */
  lemma RangeEndpoints(lo: real, hi: real)
    requires lo < hi
    ensures InRange(Precipitation, Finite(lo), Finite(hi), lo) && !InRange(Precipitation, Finite(lo), Finite(hi), hi)
    ensures InRange(TempAvg, Finite(lo), Finite(hi), lo) && InRange(TempAvg, Finite(lo), Finite(hi), hi)
    ensures InRange(TempHigh, Finite(lo), Finite(hi), lo) && InRange(TempHigh, Finite(lo), Finite(hi), hi)
    ensures !InRange(TempLow, Finite(lo), Finite(hi), lo) && InRange(TempLow, Finite(lo), Finite(hi), hi)
  {
  }

  // ---------------------------------------------------------------------
  // Reference period and months
  // ---------------------------------------------------------------------

  /** The reference-period filter of `generate_climate_stats`. */
  function FilterPeriod(rows: seq<DailyRow>, yearStart: int, yearEnd: int): (r: seq<DailyRow>)
    ensures forall row :: row in r <==> row in rows && yearStart <= row.date.year <= yearEnd
    ensures |r| <= |rows|
  {
    if rows == [] then []
    else
      var init := rows[..|rows| - 1];
      var last := rows[|rows| - 1];
      assert forall row :: row in rows <==> row in init || row == last;
      FilterPeriod(init, yearStart, yearEnd)
      + (if yearStart <= last.date.year <= yearEnd then [last] else [])
  }

  /** The filter keeps row order. */
  lemma {:induction false} FilterPeriodAppend(a: seq<DailyRow>, b: seq<DailyRow>, yearStart: int, yearEnd: int)
    ensures FilterPeriod(a + b, yearStart, yearEnd) == FilterPeriod(a, yearStart, yearEnd) + FilterPeriod(b, yearStart, yearEnd)
    decreases |b|
  {
    if b == [] {
      assert a + b == a;
    } else {
      assert (a + b)[..|a + b| - 1] == a + b[..|b| - 1];
      FilterPeriodAppend(a, b[..|b| - 1], yearStart, yearEnd);
    }
  }

  /** The rows of one calendar month, in row order. */
  function MonthRows(rows: seq<DailyRow>, month: int): (r: seq<DailyRow>)
    ensures forall row :: row in r <==> row in rows && row.date.month == month
  {
    if rows == [] then []
    else
      var init := rows[..|rows| - 1];
      var last := rows[|rows| - 1];
      assert forall row :: row in rows <==> row in init || row == last;
      MonthRows(init, month) + (if last.date.month == month then [last] else [])
  }

  /** The grouping loop of `generate_monthly_normals`: each month present
      maps to its rows in order. */
  method GroupByMonth(rows: seq<DailyRow>) returns (groups: map<int, seq<DailyRow>>)
    ensures forall m :: m in groups ==> groups[m] == MonthRows(rows, m)
    ensures forall m :: m !in groups ==> MonthRows(rows, m) == []
  {
    groups := map[];
    var i := 0;
    while i < |rows|
      invariant 0 <= i <= |rows|
      invariant forall m :: m in groups ==> groups[m] == MonthRows(rows[..i], m)
      invariant forall m :: m !in groups ==> MonthRows(rows[..i], m) == []
    {
      var row := rows[i];
      assert rows[..i + 1][..i] == rows[..i] && rows[..i + 1][i] == row;
      var m := row.date.month;
      var g := if m in groups then groups[m] else [];
      groups := groups[m := g + [row]];
      i := i + 1;
    }
    assert rows[..i] == rows;
  }

  datatype MaxMin = MaxMin(max: Option<real>, min: Option<real>)

  /** The entries of one month of `generate_monthly_normals`. */
  datatype MonthNormals = MonthNormals(
    avgTempAvg: Option<real>,
    avgTempHigh: Option<real>,
    avgTempLow: Option<real>,
    maxTempHigh: MaxMin,
    minTempLow: MaxMin,
    avgPrecipitation: real,
    avgDaysPrecipitation1: real)

  datatype NormalsError =
    | EmptyMonth(month: int)          // max() of an empty list
    | NullPrecipitation(month: int)   // None >= 1

  predicate HasNullPrecipitation(rows: seq<DailyRow>)
  {
    exists row :: row in rows && row.precipitation.None?
  }

  /** `calculate_monthly_max_min`: the largest and smallest value of the
      column, a NULL only when the column has no value. */
  function MonthlyMaxMin(rows: seq<DailyRow>, col: Column): MaxMin
  {
    MaxMin(MaxKey(rows, col), MinKey(rows, col))
  }

  /** Days with at least 1 mm of precipitation. */
  const RainyDay: Tally := DaysInRange(Precipitation, Finite(1.0), PosInf)

  /** One month of `generate_monthly_normals`, given that month's rows. */
  function MonthEntry(monthRows: seq<DailyRow>, month: int): (r: Result<MonthNormals, NormalsError>)
    ensures r.Err? <==> monthRows == [] || HasNullPrecipitation(monthRows)
    ensures r.Err? ==> r.error.month == month
    ensures r.Err? && monthRows == [] ==> r.error.EmptyMonth?
  {
    if monthRows == [] then Err(EmptyMonth(month))
    else if HasNullPrecipitation(monthRows) then Err(NullPrecipitation(month))
    else
      var years := |Years(monthRows)| as real;
      Ok(MonthNormals(
        Average(monthRows, TempAvg),
        Average(monthRows, TempHigh),
        Average(monthRows, TempLow),
        MonthlyMaxMin(monthRows, TempHigh),
        MonthlyMaxMin(monthRows, TempLow),
        Total(monthRows, PrecipitationTotal) / years,
        Total(monthRows, RainyDay) / years))
  }

  /** For a month that succeeds, each average lies between the month's
      extremes of that column, the maximum is at least the minimum, and the
      rainy-day average is at most the number of rows per year. */
  lemma MonthEntryProperties(rows: seq<DailyRow>, month: int)
    ensures MonthEntry(rows, month).Ok? ==>
              var e := MonthEntry(rows, month).value;
              && (e.maxTempHigh.max.Some? <==> e.maxTempHigh.min.Some?)
              && (e.maxTempHigh.max.Some? ==> e.maxTempHigh.min.value <= e.maxTempHigh.max.value)
              && (e.minTempLow.max.Some? ==> e.minTempLow.min.value <= e.minTempLow.max.value)
              && (e.avgTempHigh.Some? ==>
                    e.maxTempHigh.min.value <= e.avgTempHigh.value <= e.maxTempHigh.max.value)
              && 0.0 <= e.avgDaysPrecipitation1 <= |rows| as real / |Years(rows)| as real
  {
    if rows != [] && !HasNullPrecipitation(rows) {
      var hi := MaxKey(rows, TempHigh);
      if hi.Some? {
        var row :| row in rows && Value(row, TempHigh) == hi;
        assert MinKey(rows, TempHigh).value <= hi.value;
      }
      var lo := MaxKey(rows, TempLow);
      if lo.Some? {
        var row :| row in rows && Value(row, TempLow) == lo;
        assert MinKey(rows, TempLow).value <= lo.value;
      }
      DaysTotalBounds(rows, Precipitation, Finite(1.0), PosInf);
      var years := |Years(rows)| as real;
      assert years > 0.0;
      DivideBounds(Total(rows, RainyDay), |rows| as real, years);
    }
  }

  lemma DivideBounds(x: real, bound: real, d: real)
    requires 0.0 <= x <= bound && d > 0.0
    ensures 0.0 <= x / d <= bound / d
  {
  }

  /** `generate_monthly_normals`: months 1 to 12 in order; the first month
      that fails aborts the whole computation. */
  method GenerateMonthlyNormals(rows: seq<DailyRow>) returns (r: Result<seq<MonthNormals>, NormalsError>)
    ensures r.Ok? ==> |r.value| == 12
    ensures r.Ok? ==> forall m :: 1 <= m <= 12 ==>
              MonthRows(rows, m) != [] && MonthEntry(MonthRows(rows, m), m) == Ok(r.value[m - 1])
    ensures r.Err? ==> exists m :: 1 <= m <= 12 && MonthEntry(MonthRows(rows, m), m) == Err(r.error)
                                   && forall k :: 1 <= k < m ==> MonthEntry(MonthRows(rows, k), k).Ok?
  {
    var groups := GroupByMonth(rows);
    var normals: seq<MonthNormals> := [];
    var month := 1;
    while month <= 12
      invariant 1 <= month <= 13
      invariant |normals| == month - 1
      invariant forall m :: 1 <= m < month ==> MonthEntry(MonthRows(rows, m), m) == Ok(normals[m - 1])
    {
      var monthRows := if month in groups then groups[month] else [];
      var entry := MonthEntry(monthRows, month);
      if entry.Err? {
        return Err(entry.error);
      }
      normals := normals + [entry.value];
      month := month + 1;
    }
    r := Ok(normals);
    forall m | 1 <= m <= 12
      ensures MonthRows(rows, m) != []
    {
      assert MonthEntry(MonthRows(rows, m), m).Ok?;
    }
  }
}
