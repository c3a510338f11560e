/** The day bucketing of src/MV_DailyStat.py: the readings exported by the
    station are streamed in order, grouped into runs of consecutive rows
    with the same calendar date, and each run is summarised by `DayStat`
    into one line that `ConvertList` serialises with `;` separators and
    decimal commas.

    The date of a row (`DateDDMMYY` of its Time column, a library call) is
    given with the row. Averages are exact; Python's rounding is not
    modelled. */
module DailyStat {
  import opened Wrappers
  import opened Stats

  // ---------------------------------------------------------------------
  // Readings and the day accumulator
  // ---------------------------------------------------------------------

  /** One cell of the exported file: a number, or one of the two texts the
      station writes for a missing reading, "--.-" and "--". */
  datatype Cell = Num(x: real) | DashDot | Dashes

  /** The cells of one exported row that the script uses, with the row's
      calendar date. */
  datatype Reading = Reading(
    date: string,
    outdoorTemperature: Cell,
    outdoorHumidity: Cell,
    wind: Cell,
    gust: Cell,
    dewPoint: Cell,
    pressure: Cell,
    dailyRain: Cell)

  datatype Quantity = OutdoorTemperature | OutdoorHumidity | Wind | Gust | DewPoint | Pressure | DailyRain

  function CellOf(r: Reading, q: Quantity): Cell
  {
    match q
    case OutdoorTemperature => r.outdoorTemperature
    case OutdoorHumidity => r.outdoorHumidity
    case Wind => r.wind
    case Gust => r.gust
    case DewPoint => r.dewPoint
    case Pressure => r.pressure
    case DailyRain => r.dailyRain
  }

  /** `WeatherDataDay`: the eight lists the loop accumulates for the
      current day. */
  datatype DayData = DayData(
    time: seq<string>,
    outdoorTemperature: seq<real>,
    outdoorHumidity: seq<real>,
    wind: seq<real>,
    gust: seq<real>,
    dewPoint: seq<real>,
    pressure: seq<real>,
    dailyRain: seq<real>)

  const EmptyDay := DayData([], [], [], [], [], [], [], [])

  function ListOf(d: DayData, q: Quantity): seq<real>
  {
    match q
    case OutdoorTemperature => d.outdoorTemperature
    case OutdoorHumidity => d.outdoorHumidity
    case Wind => d.wind
    case Gust => d.gust
    case DewPoint => d.dewPoint
    case Pressure => d.pressure
    case DailyRain => d.dailyRain
  }

  /** What a cell adds to its list: its number, or nothing for a marker. */
  function Kept(c: Cell): seq<real>
  {
    if c.Num? then [c.x] else []
  }

  /** One row added to the day: its date always, each reading unless it is
      a missing marker. */
  function Add(d: DayData, r: Reading): DayData
  {
    DayData(
      d.time + [r.date],
      d.outdoorTemperature + Kept(r.outdoorTemperature),
      d.outdoorHumidity + Kept(r.outdoorHumidity),
      d.wind + Kept(r.wind),
      d.gust + Kept(r.gust),
      d.dewPoint + Kept(r.dewPoint),
      d.pressure + Kept(r.pressure),
      d.dailyRain + Kept(r.dailyRain))
  }

  /** The accumulator after the rows `rs`, starting from empty lists. */
  function Collect(rs: seq<Reading>): DayData
  {
    if rs == [] then EmptyDay else Add(Collect(rs[..|rs| - 1]), rs[|rs| - 1])
  }

  lemma CollectStep(s: seq<Reading>, r: Reading)
    ensures Collect(s + [r]) == Add(Collect(s), r)
  {
    assert (s + [r])[..|s|] == s;
  }

  /** Number of rows whose reading of `q` is a missing marker. */
  function MissingCount(rs: seq<Reading>, q: Quantity): nat
  {
    if rs == [] then 0
    else MissingCount(rs[..|rs| - 1], q) + (if CellOf(rs[|rs| - 1], q).Num? then 0 else 1)
  }

  /** The Time list holds the date of every row, in order. */
  lemma {:induction false} CollectTime(rs: seq<Reading>)
    ensures |Collect(rs).time| == |rs|
    ensures forall i :: 0 <= i < |rs| ==> Collect(rs).time[i] == rs[i].date
    decreases |rs|
  {
    if rs != [] {
      CollectTime(rs[..|rs| - 1]);
    }
  }

  /** Markers are never appended and every other reading is: each value in
      a list is the number of some row's cell, and the list is as long as
      the rows minus the markers. */
  lemma ListOfAdd(d: DayData, r: Reading, q: Quantity)
    ensures ListOf(Add(d, r), q) == ListOf(d, q) + Kept(CellOf(r, q))
  {
  }

  lemma {:induction false} CollectReadings(rs: seq<Reading>, q: Quantity)
    ensures |ListOf(Collect(rs), q)| + MissingCount(rs, q) == |rs|
    ensures forall x :: x in ListOf(Collect(rs), q) ==> exists i :: 0 <= i < |rs| && CellOf(rs[i], q) == Num(x)
    decreases |rs|
  {
    if rs != [] {
      var init := rs[..|rs| - 1];
      var last := rs[|rs| - 1];
      CollectReadings(init, q);
      assert Collect(rs) == Add(Collect(init), last);
      ListOfAdd(Collect(init), last, q);
      forall x | x in ListOf(Collect(rs), q)
        ensures exists i :: 0 <= i < |rs| && CellOf(rs[i], q) == Num(x)
      {
        if x in ListOf(Collect(init), q) {
          var i :| 0 <= i < |init| && CellOf(init[i], q) == Num(x);
          assert rs[i] == init[i];
        } else {
          assert CellOf(rs[|rs| - 1], q) == Num(x);
        }
      }
    }
  }

  // ---------------------------------------------------------------------
  // DayStat
  // ---------------------------------------------------------------------

  /** An element of the list `DayStat` returns: the date text or a number. */
  datatype Field = Text(s: string) | Number(x: real)

  /** Why the script stops: no readings at all (`Dates[0]` raises), or a
      list of the day that `max`, `min`, `mean` or `[0]` finds empty. */
  datatype DailyError = NoReadings | EmptyList(key: string)

  /** The first empty list in the order `DayStat` reads them. */
  function FirstEmpty(d: DayData): Option<string>
  {
    if d.outdoorTemperature == [] then Some("OutdoorTemperature")
    else if d.outdoorHumidity == [] then Some("OutdoorHumidity")
    else if d.dewPoint == [] then Some("DewPoint")
    else if d.pressure == [] then Some("Pressure")
    else if d.wind == [] then Some("Wind")
    else if d.gust == [] then Some("Gust")
    else if d.dailyRain == [] then Some("DailyRain")
    else if d.time == [] then Some("Time")
    else None
  }

  /** The values `DayStat` computes for one day, named after its local
      variables. */
  datatype DaySummary = DaySummary(
    date: string,
    maxTemp: real, avgTemp: real, minTemp: real,
    maxHumidity: real, avgHumidity: real, minHumidity: real,
    maxDewPoint: real, avgDewPoint: real, minDewPoint: real,
    maxPressure: real, minPressure: real,
    maxWind: real, avgWind: real,
    maxGust: real,
    maxRain: real)

  /** `DayStat(Data)`: the extremes and means of the day's lists, the
      cumulated rain divided by ten, and the date of the first row. */
  function DayStat(d: DayData): (r: Result<DaySummary, DailyError>)
    ensures r.Err? <==> FirstEmpty(d).Some?
    ensures r.Err? ==> r.error == EmptyList(FirstEmpty(d).value)
    ensures r.Ok? ==> r.value.date == d.time[0]
  {
    var missing := FirstEmpty(d);
    if missing.Some? then Err(EmptyList(missing.value))
    else
      var t, h, p := d.outdoorTemperature, d.outdoorHumidity, d.dewPoint;
      Ok(DaySummary(d.time[0],
        Max(t), Mean(t), Min(t),
        Max(h), Mean(h), Min(h),
        Max(p), Mean(p), Min(p),
        Max(d.pressure), Min(d.pressure),
        Max(d.wind), Mean(d.wind),
        Max(d.gust),
        Max(d.dailyRain) / 10.0))
  }

  /** Each maximum and minimum is one of the day's values and bounds all of
      them, and each average lies between them. */
  lemma DayStatBounds(d: DayData)
    requires DayStat(d).Ok?
    ensures var s := DayStat(d).value;
      (forall v :: v in d.outdoorTemperature ==> s.minTemp <= v <= s.maxTemp)
      && s.maxTemp in d.outdoorTemperature && s.minTemp in d.outdoorTemperature
      && s.minTemp <= s.avgTemp <= s.maxTemp
    ensures var s := DayStat(d).value;
      (forall v :: v in d.outdoorHumidity ==> s.minHumidity <= v <= s.maxHumidity)
      && s.maxHumidity in d.outdoorHumidity && s.minHumidity in d.outdoorHumidity
      && s.minHumidity <= s.avgHumidity <= s.maxHumidity
    ensures var s := DayStat(d).value;
      (forall v :: v in d.dewPoint ==> s.minDewPoint <= v <= s.maxDewPoint)
      && s.maxDewPoint in d.dewPoint && s.minDewPoint in d.dewPoint
      && s.minDewPoint <= s.avgDewPoint <= s.maxDewPoint
    ensures var s := DayStat(d).value;
      (forall v :: v in d.pressure ==> s.minPressure <= v <= s.maxPressure)
      && s.maxPressure in d.pressure && s.minPressure in d.pressure
    ensures var s := DayStat(d).value;
      (forall v :: v in d.wind ==> v <= s.maxWind) && s.maxWind in d.wind && s.avgWind <= s.maxWind
    ensures var s := DayStat(d).value;
      (forall v :: v in d.gust ==> v <= s.maxGust) && s.maxGust in d.gust
    ensures var s := DayStat(d).value;
      (forall v :: v in d.dailyRain ==> v <= s.maxRain * 10.0) && s.maxRain * 10.0 in d.dailyRain
  {
  }

  /** `DataList`: the order in which `DayStat` appends its values, the date
      first. */
  function DataList(s: DaySummary): (list: seq<Field>)
    ensures |list| == 16 && list[0] == Text(s.date)
    ensures forall i :: 1 <= i < |list| ==> list[i].Number?
  {
    [Text(s.date),
     Number(s.maxTemp), Number(s.avgTemp), Number(s.minTemp),
     Number(s.maxHumidity), Number(s.avgHumidity), Number(s.minHumidity),
     Number(s.maxDewPoint), Number(s.avgDewPoint), Number(s.minDewPoint),
     Number(s.maxPressure), Number(s.minPressure),
     Number(s.maxWind), Number(s.avgWind),
     Number(s.maxGust),
     Number(s.maxRain)]
  }

  // ---------------------------------------------------------------------
  // ConvertList
  // ---------------------------------------------------------------------

  /** `str(field)`; how Python prints a float is left to `str`. */
  function Render(f: Field, str: real -> string): string
  {
    match f
    case Text(s) => s
    case Number(x) => str(x)
  }

  function RenderAll(list: seq<Field>, str: real -> string): (ss: seq<string>)
    ensures |ss| == |list| && forall i :: 0 <= i < |list| ==> ss[i] == Render(list[i], str)
  {
    seq(|list|, i requires 0 <= i < |list| => Render(list[i], str))
  }

  /** `sep.join(ss)` for a one-character separator. */
  function JoinWith(ss: seq<string>, sep: char): string
  {
    if ss == [] then ""
    else if |ss| == 1 then ss[0]
    else JoinWith(ss[..|ss| - 1], sep) + [sep] + ss[|ss| - 1]
  }

  /** `s.replace(".", ",")`. */
  function ReplaceDots(s: string): (r: string)
    ensures |r| == |s|
    ensures forall i :: 0 <= i < |s| ==> r[i] == if s[i] == '.' then ',' else s[i]
  {
    if s == [] then [] else ReplaceDots(s[..|s| - 1]) + [if s[|s| - 1] == '.' then ',' else s[|s| - 1]]
  }

  /** `ConvertList(list)`: the fields as text, joined by `;`, with every `.`
      turned into `,`. */
  function ConvertList(list: seq<Field>, str: real -> string): (row: string)
    ensures '.' !in row
  {
    ReplaceDots(JoinWith(RenderAll(list, str), ';'))
  }

  /** `s.split(c)`: the pieces between the occurrences of `c`. */
  function Split(s: string, c: char): (parts: seq<string>)
    ensures |parts| > 0
  {
    if s == [] then [""]
    else
      var parts := Split(s[..|s| - 1], c);
      if s[|s| - 1] == c then parts + [""]
      else parts[..|parts| - 1] + [parts[|parts| - 1] + [s[|s| - 1]]]
  }

  /** Text without the separator only extends the last piece. */
  lemma SplitNoSep(a: string, b: string, c: char)
    requires c !in b
    ensures var pa := Split(a, c);
      Split(a + b, c) == pa[..|pa| - 1] + [pa[|pa| - 1] + b]
  {
    var s := a + b;
    assert s[..|a|] == a && s[|a|..] == b;
    SplitTail(s, |a|, c);
  }

  lemma {:induction false} SplitTail(s: string, k: nat, c: char)
    requires k <= |s| && c !in s[k..]
    ensures var p := Split(s[..k], c);
      Split(s, c) == p[..|p| - 1] + [p[|p| - 1] + s[k..]]
    decreases |s| - k
  {
    if k == |s| {
      var p := Split(s, c);
      assert s[..k] == s;
      assert p[|p| - 1] + s[k..] == p[|p| - 1];
      assert p == p[..|p| - 1] + [p[|p| - 1]];
    } else {
      var init := s[..|s| - 1];
      assert init[k..] == s[k..|s| - 1];
      SplitTail(init, k, c);
      SplitTailStep(s, k, c);
    }
  }

  lemma SplitTailStep(s: string, k: nat, c: char)
    requires k < |s| && c !in s[k..]
    requires var init := s[..|s| - 1]; var p := Split(init[..k], c);
      Split(init, c) == p[..|p| - 1] + [p[|p| - 1] + init[k..]]
    ensures var p := Split(s[..k], c);
      Split(s, c) == p[..|p| - 1] + [p[|p| - 1] + s[k..]]
  {
    var init, x := s[..|s| - 1], s[|s| - 1];
    assert x in s[k..];
    SplitOther(s, c);
    SliceLast(s, k);
    var p := Split(s[..k], c);
    ExtendLast(p[..|p| - 1], p[|p| - 1], init[k..], x);
  }

  lemma SliceLast(s: string, k: nat)
    requires k < |s|
    ensures s[..|s| - 1][..k] == s[..k]
    ensures s[..|s| - 1][k..] + [s[|s| - 1]] == s[k..]
  {
  }

  /** Splitting at a character other than the separator extends the last
      piece. */
  lemma SplitOther(s: string, c: char)
    requires s != [] && s[|s| - 1] != c
    ensures var q := Split(s[..|s| - 1], c);
      Split(s, c) == q[..|q| - 1] + [q[|q| - 1] + [s[|s| - 1]]]
  {
  }

  lemma ExtendLast(front: seq<string>, piece: string, more: string, x: char)
    ensures var q := front + [piece + more];
      q[..|q| - 1] + [q[|q| - 1] + [x]] == front + [piece + (more + [x])]
  {
    var q := front + [piece + more];
    assert q[..|q| - 1] == front;
    assert piece + more + [x] == piece + (more + [x]);
  }

  /** The separator starts a new, empty piece. */
  lemma SplitSep(a: string, c: char)
    ensures Split(a + [c], c) == Split(a, c) + [""]
  {
    assert (a + [c])[..|a|] == a;
  }

  /** Splitting undoes joining when no piece contains the separator. */
  lemma {:induction false} SplitJoin(ss: seq<string>, c: char)
    requires |ss| > 0
    requires forall i :: 0 <= i < |ss| ==> c !in ss[i]
    ensures Split(JoinWith(ss, c), c) == ss
    decreases |ss|
  {
    if |ss| == 1 {
      SplitNoSep("", ss[0], c);
      assert "" + ss[0] == ss[0];
    } else {
      var init, last := ss[..|ss| - 1], ss[|ss| - 1];
      SplitJoin(init, c);
      assert ss == init + [last];
      SplitJoinStep(init, last, c);
    }
  }

  lemma {:induction false} SplitJoinStep(init: seq<string>, last: string, c: char)
    requires |init| > 0 && c !in last
    requires Split(JoinWith(init, c), c) == init
    ensures Split(JoinWith(init + [last], c), c) == init + [last]
  {
    var ss := init + [last];
    var j := JoinWith(init, c);
    assert ss[..|ss| - 1] == init;
    assert JoinWith(ss, c) == j + [c] + last;
    SplitSep(j, c);
    SplitNoSep(j + [c], last, c);
    LastPiece(Split(j + [c], c), init, last);
  }

  lemma LastPiece(pa: seq<string>, init: seq<string>, last: string)
    requires pa == init + [""]
    ensures pa[..|pa| - 1] + [pa[|pa| - 1] + last] == init + [last]
  {
    assert pa[..|pa| - 1] == init;
    assert "" + last == last;
  }

  /** Replacing dots inside the pieces or in the joined text is the same,
      since the separator is not a dot. */
  lemma {:induction false} ReplaceDotsJoin(ss: seq<string>)
    ensures ReplaceDots(JoinWith(ss, ';')) == JoinWith(seq(|ss|, i requires 0 <= i < |ss| => ReplaceDots(ss[i])), ';')
    decreases |ss|
  {
    var rs := seq(|ss|, i requires 0 <= i < |ss| => ReplaceDots(ss[i]));
    if |ss| > 1 {
      var init := ss[..|ss| - 1];
      ReplaceDotsJoin(init);
      assert rs[..|rs| - 1] == seq(|init|, i requires 0 <= i < |init| => ReplaceDots(init[i]));
      ReplaceDotsAppend(JoinWith(init, ';') + [';'], ss[|ss| - 1]);
      ReplaceDotsAppend(JoinWith(init, ';'), [';']);
    }
  }

  lemma ReplaceDotsAppend(a: string, b: string)
    ensures ReplaceDots(a + b) == ReplaceDots(a) + ReplaceDots(b)
  {
    var l, r := ReplaceDots(a + b), ReplaceDots(a) + ReplaceDots(b);
    assert |l| == |r|;
    forall i | 0 <= i < |l|
      ensures l[i] == r[i]
    {
      if i < |a| {
        assert (a + b)[i] == a[i];
      } else {
        assert (a + b)[i] == b[i - |a|];
      }
    }
  }

  /** The serialised row splits back at `;` into the fields, each as text
      with its dots turned into commas, as long as no field's text holds a
      `;` itself. */
  lemma ConvertListFields(list: seq<Field>, str: real -> string)
    requires |list| > 0
    requires forall i :: 0 <= i < |list| ==> ';' !in Render(list[i], str)
    ensures var parts := Split(ConvertList(list, str), ';');
      |parts| == |list| && forall i :: 0 <= i < |list| ==> parts[i] == ReplaceDots(Render(list[i], str))
  {
    var ss := RenderAll(list, str);
    var rs := seq(|ss|, i requires 0 <= i < |ss| => ReplaceDots(ss[i]));
    ReplaceDotsJoin(ss);
    forall i | 0 <= i < |rs|
      ensures ';' !in rs[i]
    {
      assert forall k :: 0 <= k < |rs[i]| ==> rs[i][k] != ';';
    }
    SplitJoin(rs, ';');
  }

  // ---------------------------------------------------------------------
  // Grouping the rows by day
  // ---------------------------------------------------------------------

  /** The rows cut into maximal runs of consecutive rows with the same
      date: the days the loop summarises, in file order. */
  function Runs(rows: seq<Reading>): (runs: seq<seq<Reading>>)
    ensures rows == [] <==> runs == []
    ensures forall k :: 0 <= k < |runs| ==> runs[k] != []
  {
    if rows == [] then []
    else
      var init := rows[..|rows| - 1];
      var r := rows[|rows| - 1];
      var runs := Runs(init);
      if init != [] && init[|init| - 1].date == r.date then runs[..|runs| - 1] + [runs[|runs| - 1] + [r]]
      else runs + [[r]]
  }

  function Concat(runs: seq<seq<Reading>>): seq<Reading>
  {
    if runs == [] then [] else Concat(runs[..|runs| - 1]) + runs[|runs| - 1]
  }

  /** Number of positions where a row's date differs from the previous
      row's. */
  function DateChanges(rows: seq<Reading>): nat
  {
    if |rows| <= 1 then 0
    else DateChanges(rows[..|rows| - 1]) + (if rows[|rows| - 2].date != rows[|rows| - 1].date then 1 else 0)
  }

  /** Unfolding `Runs` at the last row. */
  lemma RunsStep(rows: seq<Reading>)
    requires rows != []
    ensures var init, r := rows[..|rows| - 1], rows[|rows| - 1];
      if init != [] && init[|init| - 1].date == r.date then
        Runs(init) != [] && Runs(rows) == Runs(init)[..|Runs(init)| - 1] + [Runs(init)[|Runs(init)| - 1] + [r]]
      else Runs(rows) == Runs(init) + [[r]]
  {
  }

  /** The runs put back together are the rows. */
  lemma {:induction false} RunsConcat(rows: seq<Reading>)
    ensures Concat(Runs(rows)) == rows
    decreases |rows|
  {
    if rows != [] {
      var init, r := rows[..|rows| - 1], rows[|rows| - 1];
      var runs := Runs(init);
      RunsConcat(init);
      RunsStep(rows);
      assert rows == init + [r];
      if init != [] && init[|init| - 1].date == r.date {
        ConcatExtendLast(runs, r);
      } else {
        ConcatSnoc(runs, [r]);
      }
    }
  }

  lemma ConcatExtendLast(runs: seq<seq<Reading>>, r: Reading)
    requires runs != []
    ensures Concat(runs[..|runs| - 1] + [runs[|runs| - 1] + [r]]) == Concat(runs) + [r]
  {
    var front, last := runs[..|runs| - 1], runs[|runs| - 1];
    assert runs == front + [last];
    ConcatExtend(front, last, r);
  }

  lemma ConcatExtend(front: seq<seq<Reading>>, last: seq<Reading>, r: Reading)
    ensures Concat(front + [last + [r]]) == Concat(front + [last]) + [r]
  {
    ConcatSnoc(front, last);
    ConcatSnoc(front, last + [r]);
    AppendAssoc(Concat(front), last, [r]);
  }

  lemma AppendAssoc(a: seq<Reading>, b: seq<Reading>, c: seq<Reading>)
    ensures a + b + c == a + (b + c)
  {
  }

  lemma ConcatSnoc(runs: seq<seq<Reading>>, run: seq<Reading>)
    ensures Concat(runs + [run]) == Concat(runs) + run
  {
    assert (runs + [run])[..|runs|] == runs;
  }

  /** Every run holds one date, and the last run that of the last row. */
  lemma {:induction false} RunsOneDate(rows: seq<Reading>)
    ensures var runs := Runs(rows);
      forall k, j :: 0 <= k < |runs| && 0 <= j < |runs[k]| ==> runs[k][j].date == runs[k][0].date
    ensures rows != [] ==> Runs(rows)[|Runs(rows)| - 1][0].date == rows[|rows| - 1].date
    decreases |rows|
  {
    if rows != [] {
      var init, r := rows[..|rows| - 1], rows[|rows| - 1];
      var runs := Runs(init);
      RunsOneDate(init);
      RunsStep(rows);
      var rs := Runs(rows);
      if init != [] && init[|init| - 1].date == r.date {
        var n := |runs|;
        var last := runs[n - 1];
        assert rs[n - 1] == last + [r];
        forall k, j | 0 <= k < |rs| && 0 <= j < |rs[k]|
          ensures rs[k][j].date == rs[k][0].date
        {
          if k < n - 1 {
            assert rs[k] == runs[k];
          } else if j < |last| {
            assert rs[k][j] == last[j];
          }
        }
      } else {
        forall k, j | 0 <= k < |rs| && 0 <= j < |rs[k]|
          ensures rs[k][j].date == rs[k][0].date
        {
          if k < |runs| {
            assert rs[k] == runs[k];
          }
        }
      }
    }
  }

  /** Neighbouring runs hold different dates. */
  lemma {:induction false} RunsNeighbours(rows: seq<Reading>)
    ensures var runs := Runs(rows);
      forall k :: 0 <= k < |runs| - 1 ==> runs[k][0].date != runs[k + 1][0].date
    decreases |rows|
  {
    if rows != [] {
      var init, r := rows[..|rows| - 1], rows[|rows| - 1];
      var runs := Runs(init);
      RunsNeighbours(init);
      RunsOneDate(init);
      RunsStep(rows);
      var rs := Runs(rows);
      if init != [] && init[|init| - 1].date == r.date {
        var n := |runs|;
        assert forall k :: 0 <= k < n - 1 ==> rs[k] == runs[k];
        assert rs[n - 1][0] == runs[n - 1][0];
      } else {
        assert forall k :: 0 <= k < |runs| ==> rs[k] == runs[k];
        assert rs[|runs|] == [r];
      }
    }
  }

  /** There is one run more than there are date changes. */
  lemma {:induction false} RunsCount(rows: seq<Reading>)
    requires rows != []
    ensures |Runs(rows)| == 1 + DateChanges(rows)
    decreases |rows|
  {
    var init, r := rows[..|rows| - 1], rows[|rows| - 1];
    RunsStep(rows);
    if init != [] {
      RunsCount(init);
      assert init[|init| - 1] == rows[|rows| - 2];
    }
  }

  /** What the script gets through for the given days: the statistics of
      the days it writes, and the error that stopped it, if any. A day whose
      statistics fail ends the run; the lines of the earlier days stay
      written. */
  function Emit(runs: seq<seq<Reading>>): (out: (seq<DaySummary>, Option<DailyError>))
    ensures |out.0| <= |runs|
    ensures out.1.None? ==> |out.0| == |runs|
  {
    if runs == [] then ([], None)
    else
      var prev := Emit(runs[..|runs| - 1]);
      var stat := DayStat(Collect(runs[|runs| - 1]));
      if prev.1.Some? then prev
      else if stat.Err? then (prev.0, Some(stat.error))
      else (prev.0 + [stat.value], None)
  }

  /** Unfolding `Emit` at the last day. */
  lemma EmitStep(runs: seq<seq<Reading>>)
    requires runs != []
    ensures var prev, stat := Emit(runs[..|runs| - 1]), DayStat(Collect(runs[|runs| - 1]));
      Emit(runs) ==
        if prev.1.Some? then prev
        else if stat.Err? then (prev.0, Some(stat.error))
        else (prev.0 + [stat.value], None)
  {
  }

  /** Day k written is the statistics of run k. */
  lemma {:induction false} EmitDay(runs: seq<seq<Reading>>, k: nat)
    requires k < |Emit(runs).0|
    ensures DayStat(Collect(runs[k])) == Ok(Emit(runs).0[k])
    decreases |runs|
  {
    var init := runs[..|runs| - 1];
    var prev := Emit(init);
    EmitStep(runs);
    if k < |prev.0| {
      EmitDay(init, k);
      assert runs[k] == init[k];
    } else {
      var stat := DayStat(Collect(runs[|runs| - 1]));
      assert prev.1.None? && stat.Ok?;
      assert Emit(runs).0 == prev.0 + [stat.value];
      assert k == |init|;
    }
  }

  /** A failure comes from the first day after the written ones. */
  lemma {:induction false} EmitFailure(runs: seq<seq<Reading>>)
    ensures var out := Emit(runs);
      out.1.Some? ==> |out.0| < |runs| && DayStat(Collect(runs[|out.0|])) == Err(out.1.value)
    decreases |runs|
  {
    if runs != [] {
      var init := runs[..|runs| - 1];
      EmitFailure(init);
      EmitStep(runs);
      var out := Emit(init);
      if out.1.Some? {
        assert runs[|out.0|] == init[|out.0|];
      }
    }
  }

  /** Once a day has failed, later days change nothing. */
  lemma {:induction false} EmitSticky(p: seq<seq<Reading>>, q: seq<seq<Reading>>)
    requires Emit(p).1.Some?
    ensures Emit(p + q) == Emit(p)
    decreases |q|
  {
    if q == [] {
      assert p + q == p;
    } else {
      var q' := q[..|q| - 1];
      EmitSticky(p, q');
      assert (p + q)[..|p + q| - 1] == p + q';
    }
  }

  /** Where the date changes, the runs so far are the first runs of the
      whole file. */
  lemma {:induction false} RunsPrefix(rows: seq<Reading>, i: nat)
    requires 0 < i < |rows| && rows[i].date != rows[i - 1].date
    ensures |Runs(rows[..i])| < |Runs(rows)|
    ensures Runs(rows)[..|Runs(rows[..i])|] == Runs(rows[..i])
    decreases |rows|
  {
    var init := rows[..|rows| - 1];
    var r := rows[|rows| - 1];
    if i == |rows| - 1 {
      assert rows[..i] == init;
      assert Runs(rows) == Runs(init) + [[r]];
    } else {
      assert init[..i] == rows[..i];
      RunsPrefix(init, i);
    }
  }

  /** The loop's state after the first `i` rows: `day` holds the rows of the
      current day, and `written` the statistics of the days before it. */
  ghost predicate Scanned(rows: seq<Reading>, i: nat, day: DayData, written: seq<DaySummary>)
    requires 0 < i <= |rows|
  {
    var runs := Runs(rows[..i]);
    day == Collect(runs[|runs| - 1]) && Emit(runs[..|runs| - 1]) == (written, None)
  }

  lemma ScanFirst(rows: seq<Reading>)
    requires rows != []
    ensures Scanned(rows, 1, Add(EmptyDay, rows[0]), [])
  {
    assert rows[..1] == [rows[0]];
    RunsStep(rows[..1]);
    CollectStep([], rows[0]);
    assert [] + [rows[0]] == [rows[0]];
  }

  lemma ScanSameDay(rows: seq<Reading>, i: nat, day: DayData, written: seq<DaySummary>)
    requires 0 < i < |rows| && rows[i].date == rows[i - 1].date
    requires Scanned(rows, i, day, written)
    ensures Scanned(rows, i + 1, Add(day, rows[i]), written)
  {
    var runs := Runs(rows[..i]);
    var prefix := rows[..i + 1];
    assert prefix[..i] == rows[..i];
    RunsStep(prefix);
    var next := Runs(prefix);
    assert next[..|next| - 1] == runs[..|runs| - 1];
    CollectStep(runs[|runs| - 1], rows[i]);
  }

  lemma {:induction false} ScanNewDay(rows: seq<Reading>, i: nat, day: DayData, written: seq<DaySummary>)
    requires 0 < i < |rows| && rows[i].date != rows[i - 1].date
    requires Scanned(rows, i, day, written)
    requires DayStat(day).Ok?
    ensures Scanned(rows, i + 1, Add(EmptyDay, rows[i]), written + [DayStat(day).value])
  {
    var runs := Runs(rows[..i]);
    var prefix := rows[..i + 1];
    assert prefix[..i] == rows[..i];
    RunsStep(prefix);
    var next := Runs(prefix);
    assert next[..|next| - 1] == runs;
    EmitStep(runs);
    CollectStep([], rows[i]);
    assert [] + [rows[i]] == [rows[i]];
  }

  lemma {:induction false} ScanFails(rows: seq<Reading>, i: nat, day: DayData, written: seq<DaySummary>)
    requires 0 < i < |rows| && rows[i].date != rows[i - 1].date
    requires Scanned(rows, i, day, written)
    requires DayStat(day).Err?
    ensures Emit(Runs(rows)) == (written, Some(DayStat(day).error))
  {
    var runs := Runs(rows[..i]);
    EmitStep(runs);
    RunsPrefix(rows, i);
    assert Runs(rows) == runs + Runs(rows)[|runs|..];
    EmitSticky(runs, Runs(rows)[|runs|..]);
  }

  lemma {:induction false} ScanEnd(rows: seq<Reading>, day: DayData, written: seq<DaySummary>)
    requires rows != [] && Scanned(rows, |rows|, day, written)
    ensures Emit(Runs(rows)) ==
      if DayStat(day).Err? then (written, Some(DayStat(day).error))
      else (written + [DayStat(day).value], None)
  {
    assert rows[..|rows|] == rows;
    EmitStep(Runs(rows));
  }

  /** The lines written for the days `days`, in order. */
  function Lines(days: seq<DaySummary>, str: real -> string): (lines: seq<string>)
    ensures |lines| == |days|
  {
    if days == [] then [] else Lines(days[..|days| - 1], str) + [ConvertList(DataList(days[|days| - 1]), str)]
  }

  /** Line k is day k serialised. */
  lemma {:induction false} LinesAt(days: seq<DaySummary>, str: real -> string, k: nat)
    requires k < |days|
    ensures Lines(days, str)[k] == ConvertList(DataList(days[k]), str)
    decreases |days|
  {
    if k < |days| - 1 {
      LinesAt(days[..|days| - 1], str, k);
    }
  }

  lemma LinesAppend(days: seq<DaySummary>, s: DaySummary, str: real -> string)
    ensures Lines(days + [s], str) == Lines(days, str) + [ConvertList(DataList(s), str)]
  {
    assert (days + [s])[..|days|] == days;
  }

  /** The appends of one loop iteration: the date to Time, and each reading
      that is not a missing marker to its list. */
  method AppendReading(day: DayData, r: Reading) returns (next: DayData)
    ensures next == Add(day, r)
  {
    var t := AppendCell(day.outdoorTemperature, r.outdoorTemperature);
    var h := AppendCell(day.outdoorHumidity, r.outdoorHumidity);
    var w := AppendCell(day.wind, r.wind);
    var g := AppendCell(day.gust, r.gust);
    var dp := AppendCell(day.dewPoint, r.dewPoint);
    var p := AppendCell(day.pressure, r.pressure);
    var rain := AppendCell(day.dailyRain, r.dailyRain);
    next := DayData(day.time + [r.date], t, h, w, g, dp, p, rain);
  }

  /** One list's append: the cell's number unless it is "--.-" or "--". */
  method AppendCell(list: seq<real>, c: Cell) returns (list': seq<real>)
    ensures c.Num? ==> list' == list + [c.x]
    ensures !c.Num? ==> list' == list
  {
    list' := list;
    if c.Num? {
      list' := list' + [c.x];
    }
  }

  /** The script's loop. `WeatherDataDay` becomes `day`, the output file the
      list `lines`; `failure` is the exception that ends the script, if
      any. */
  method ProcessReadings(rows: seq<Reading>, str: real -> string) returns (lines: seq<string>, failure: Option<DailyError>)
    ensures rows == [] ==> lines == [] && failure == Some(NoReadings)
    ensures rows != [] ==> lines == Lines(Emit(Runs(rows)).0, str) && failure == Emit(Runs(rows)).1
  {
    if |rows| == 0 {
      return [], Some(NoReadings);
    }
    // The first row always continues the (empty) current day, so its
    // iteration is taken before the loop.
    var previousDate := rows[0].date;
    var day := AppendReading(EmptyDay, rows[0]);
    ScanFirst(rows);
    lines := [];
    ghost var written: seq<DaySummary> := [];
    var i := 1;
    while i < |rows|
      invariant 0 < i <= |rows|
      invariant lines == Lines(written, str)
      invariant previousDate == rows[i - 1].date
      invariant Scanned(rows, i, day, written)
    {
      var r := rows[i];
      var dayDate := r.date;
      if dayDate != previousDate {
        var fail;
        ghost var written';
        lines, written', fail := WriteDay(day, lines, written, str);
        if fail.Some? {
          ScanFails(rows, i, day, written);
          return lines, fail;
        }
        ScanNewDay(rows, i, day, written);
        written := written';
        day := AppendReading(EmptyDay, r);
      } else {
        ScanSameDay(rows, i, day, written);
        day := AppendReading(day, r);
      }
      previousDate := dayDate;
      i := i + 1;
    }
    ScanEnd(rows, day, written);
    lines, written, failure := WriteDay(day, lines, written, str);
  }

  /** The block the script runs for each finished day: `DayStat` of the
      day's lists, then the `ConvertList` line written to the file. A
      failure of `DayStat` writes nothing. */
  method WriteDay(day: DayData, lines: seq<string>, ghost written: seq<DaySummary>, str: real -> string)
    returns (lines': seq<string>, ghost written': seq<DaySummary>, failure: Option<DailyError>)
    requires lines == Lines(written, str)
    ensures DayStat(day).Err? ==> lines' == lines && failure == Some(DayStat(day).error)
    ensures DayStat(day).Ok? ==> written' == written + [DayStat(day).value] && failure == None
    ensures lines' == Lines(written', str)
  {
    var stat := DayStat(day);
    if stat.Err? {
      return lines, written, Some(stat.error);
    }
    LinesAppend(written, stat.value, str);
    lines' := lines + [ConvertList(DataList(stat.value), str)];
    written' := written + [stat.value];
    failure := None;
  }

  /** With no failure the script writes one line per day: one more than the
      number of date changes, each day's statistics dated with that day. */
  lemma LinesPerDay(rows: seq<Reading>)
    requires rows != [] && Emit(Runs(rows)).1.None?
    ensures |Emit(Runs(rows)).0| == 1 + DateChanges(rows)
    ensures forall k :: 0 <= k < |Runs(rows)| ==> Emit(Runs(rows)).0[k].date == Runs(rows)[k][0].date
  {
    RunsCount(rows);
    forall k | 0 <= k < |Runs(rows)|
      ensures Emit(Runs(rows)).0[k].date == Runs(rows)[k][0].date
    {
      EmitDay(Runs(rows), k);
      CollectTime(Runs(rows)[k]);
    }
  }

  /** A day's statistics fail exactly when one of its quantities has only
      missing markers that day. */
  lemma DayFailsIffAllMissing(run: seq<Reading>)
    requires run != []
    ensures DayStat(Collect(run)).Err? <==> exists q :: MissingCount(run, q) == |run|
  {
    SomeListEmpty(run);
  }

  lemma SomeListEmpty(run: seq<Reading>)
    requires run != []
    ensures FirstEmpty(Collect(run)).Some? <==> exists q :: MissingCount(run, q) == |run|
  {
    var d := Collect(run);
    CollectTime(run);
    forall q
      ensures ListOf(d, q) == [] <==> MissingCount(run, q) == |run|
    {
      CollectReadings(run, q);
    }
    FirstEmptyIff(d);
    if exists q :: MissingCount(run, q) == |run| {
      var q :| MissingCount(run, q) == |run|;
      assert ListOf(d, q) == [];
    }
    if FirstEmpty(d).Some? {
      var q :| ListOf(d, q) == [];
      assert MissingCount(run, q) == |run|;
    }
  }

  lemma FirstEmptyIff(d: DayData)
    requires d.time != []
    ensures FirstEmpty(d).Some? <==> exists q :: ListOf(d, q) == []
  {
    if d.outdoorTemperature == [] {
      assert ListOf(d, OutdoorTemperature) == [];
    } else if d.outdoorHumidity == [] {
      assert ListOf(d, OutdoorHumidity) == [];
    } else if d.dewPoint == [] {
      assert ListOf(d, DewPoint) == [];
    } else if d.pressure == [] {
      assert ListOf(d, Pressure) == [];
    } else if d.wind == [] {
      assert ListOf(d, Wind) == [];
    } else if d.gust == [] {
      assert ListOf(d, Gust) == [];
    } else if d.dailyRain == [] {
      assert ListOf(d, DailyRain) == [];
    }
  }
}
