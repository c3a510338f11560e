/** The daily-statistics upsert of src/MV_UpdateDailyStatDB.py: the
    requested fields are checked against the columns of the day table, the
    day's conditions are inserted as a new row or update the existing one
    (all columns, or only the requested fields), a debug mode builds the
    statement without running it, and the main loop walks a checked date
    range one day at a time. Also the split of the daylight duration into
    hours, minutes and seconds.

    A calendar day is a day number; formatting it as "YYYY-MM-DD" and the
    SQL text are not modelled, only the columns and parameters a statement
    carries. The day's conditions (`GetDayWCFromDB`) are the parameter
    `fetch`. */
module UpdateDailyStat {
  import opened Wrappers
  import opened Dicts

  type Day = int

  /** A column value: SQL NULL, a number, or the day of the WC_Date column. */
  datatype Value = Null | Number(x: real) | Date(day: Day)

  /** `wc`: the day's conditions, a dictionary from column name to value in
      the order of the SELECT. */
  type Conditions = seq<(string, Value)>

  /** A row of the day table, by column name. */
  type Record = map<string, Value>

  const DateColumn := "WC_Date"

  // ---------------------------------------------------------------------
  // The duration split
  // ---------------------------------------------------------------------

  /** `divmod(seconds, 3600)` then `divmod(remainder, 60)`;
      `timedelta.seconds` is never negative. */
  function SplitDuration(seconds: nat): (hms: (nat, nat, nat))
    ensures hms.0 * 3600 + hms.1 * 60 + hms.2 == seconds
    ensures hms.1 < 60 && hms.2 < 60
    ensures seconds < 86400 ==> hms.0 < 24
  {
    var hours, remainder := seconds / 3600, seconds % 3600;
    (hours, remainder / 60, remainder % 60)
  }

  /** The split is unique: any hours, minutes and seconds with minutes and
      seconds below 60 are what the split of their total gives back. */
  lemma SplitDurationInverse(h: nat, m: nat, s: nat)
    requires m < 60 && s < 60
    ensures SplitDuration(h * 3600 + m * 60 + s) == (h, m, s)
  {
    var t := h * 3600 + m * 60 + s;
    var r := SplitDuration(t);
    assert m * 60 + s < 3600;
    assert r.0 == h;
  }

  // ---------------------------------------------------------------------
  // Dictionary helpers
  // ---------------------------------------------------------------------

  /** `wc[k]`, or None where Python raises KeyError. */
  function Lookup(wc: Conditions, k: string): (v: Option<Value>)
    ensures v.None? <==> k !in Keys(wc)
    ensures v.Some? ==> exists i :: 0 <= i < |wc| && wc[i] == (k, v.value)
  {
    if wc == [] then None
    else if wc[0].0 == k then Some(wc[0].1)
    else
      var v := Lookup(wc[1..], k);
      assert Keys(wc) == [wc[0].0] + Keys(wc[1..]);
      assert forall i :: 0 <= i < |wc[1..]| ==> wc[1..][i] == wc[i + 1];
      v
  }

  lemma LookupDistinct(wc: Conditions, i: nat)
    requires DistinctKeys(wc) && i < |wc|
    ensures Lookup(wc, wc[i].0) == Some(wc[i].1)
  {
    var v := Lookup(wc, wc[i].0);
    assert Keys(wc)[i] == wc[i].0;
    var j :| 0 <= j < |wc| && wc[j] == (wc[i].0, v.value);
    assert i == j;
  }

  /** The row a statement's columns and parameters describe; a column named
      twice takes its last value. */
  function RecordOf(cols: seq<string>, vals: seq<Value>): (r: Record)
    requires |cols| == |vals|
    ensures forall c :: c in r <==> c in cols
  {
    if cols == [] then map[]
    else RecordOf(cols[..|cols| - 1], vals[..|vals| - 1])[cols[|cols| - 1] := vals[|vals| - 1]]
  }

  /** A column named once holds its own value. */
  lemma {:induction false} RecordOfAt(cols: seq<string>, vals: seq<Value>, i: nat)
    requires |cols| == |vals| && i < |cols|
    requires forall j :: i < j < |cols| ==> cols[j] != cols[i]
    ensures RecordOf(cols, vals)[cols[i]] == vals[i]
    decreases |cols|
  {
    if i < |cols| - 1 {
      RecordOfAt(cols[..|cols| - 1], vals[..|vals| - 1], i);
    }
  }

  // ---------------------------------------------------------------------
  // The statement for one day
  // ---------------------------------------------------------------------

  /** The statement `InsertDayWeatherConditions` executes or, in debug mode,
      prints: its column list, one `%s` placeholder per parameter, and the
      parameters. An UPDATE's last parameter is the day of its WHERE clause. */
  datatype Statement =
    | Insert(columns: seq<string>, placeholders: seq<string>, params: seq<Value>)
    | Update(setColumns: seq<string>, params: seq<Value>)

  /** The ValueError listing invalid fields, the KeyError of a field that
      is a column but not a key of `wc`, and the two MySQL errors an
      executed statement can raise from its column list: a column the table
      does not have (error 1054), and a column an INSERT names twice (error
      1110). None of them is caught. */
  datatype UpsertError =
    | InvalidFields(names: seq<string>)
    | MissingKey(name: string)
    | UnknownColumn(name: string)
    | ColumnTwice

  /** `[field for field in fields if field not in valid_columns]`. */
  function Invalid(fields: seq<string>, columns: seq<string>): (bad: seq<string>)
    ensures forall f :: f in bad <==> f in fields && f !in columns
    ensures |bad| <= |fields|
  {
    if fields == [] then []
    else
      var init, f := fields[..|fields| - 1], fields[|fields| - 1];
      assert fields == init + [f];
      Invalid(init, columns) + (if f in columns then [] else [f])
  }

  /** `if fields:`, an empty list counts as no restriction. */
  predicate Restricted(fields: Option<seq<string>>)
  {
    fields.Some? && fields.value != []
  }

  /** `[wc[field] for field in names]`, failing on the first missing key. */
  function Project(wc: Conditions, names: seq<string>): (r: Result<seq<Value>, UpsertError>)
    ensures r.Ok? <==> forall n :: n in names ==> n in Keys(wc)
    ensures r.Ok? ==> |r.value| == |names| && forall i :: 0 <= i < |names| ==> Lookup(wc, names[i]) == Some(r.value[i])
    ensures r.Err? ==> r.error.MissingKey? && r.error.name in names && r.error.name !in Keys(wc)
  {
    if names == [] then Ok([])
    else
      var v := Lookup(wc, names[0]);
      if v.None? then Err(MissingKey(names[0]))
      else
        var rest := Project(wc, names[1..]);
        assert forall n :: n in names ==> n == names[0] || n in names[1..];
        if rest.Err? then rest
        else
          var vs := [v.value] + rest.value;
          assert forall i :: 1 <= i < |names| ==> names[i] == names[1..][i - 1] && vs[i] == rest.value[i - 1];
          Ok(vs)
  }

  /** The statement for `wc` on `day`: the field check, then the SELECT of
      the day's row, which names WC_Date and so fails on a table without
      that column (in debug mode too), then an INSERT of WC_Date and every
      key of `wc` when the table has no row for the day (the restriction to
      `fields` does not apply), or an UPDATE of the requested fields, or of
      every key, followed by the day. */
  function StatementFor(columns: seq<string>, records: map<Day, Record>, wc: Conditions, day: Day,
                        fields: Option<seq<string>>): (r: Result<Statement, UpsertError>)
    ensures r.Ok? ==> DateColumn in columns
    ensures r.Ok? && day !in records ==> r.value.Insert?
    ensures r.Ok? && day !in records ==>
      (r.value.columns == [DateColumn] + Keys(wc) && r.value.params == [Date(day)] + Values(wc)
       && |r.value.placeholders| == |r.value.params|)
    ensures r.Ok? && day in records ==> r.value.Update?
    ensures r.Ok? && day in records ==>
      (r.value.setColumns == (if Restricted(fields) then fields.value else Keys(wc))
       && |r.value.params| == |r.value.setColumns| + 1 && r.value.params[|r.value.setColumns|] == Date(day))
  {
    if Restricted(fields) && Invalid(fields.value, columns) != [] then
      Err(InvalidFields(Invalid(fields.value, columns)))
    else if DateColumn !in columns then
      Err(UnknownColumn(DateColumn))
    else if day !in records then
      var cols, vals := [DateColumn] + Keys(wc), [Date(day)] + Values(wc);
      Ok(Insert(cols, seq(|vals|, _ => "%s"), vals))
    else
      var names := if Restricted(fields) then fields.value else Keys(wc);
      var vals := Project(wc, names);
      if vals.Err? then Err(vals.error)
      else Ok(Update(names, vals.value + [Date(day)]))
  }

  /** What executing a statement for `day` does to the table: an INSERT
      adds the day's row, an UPDATE overrides the SET columns of the day's
      row, and every other day's row stays as it was. */
  function Apply(records: map<Day, Record>, day: Day, st: Statement): (r: map<Day, Record>)
    ensures forall d :: d != day ==> (d in r <==> d in records)
    ensures forall d :: d != day && d in records ==> r[d] == records[d]
    ensures day in r <==> day in records || (st.Insert? && |st.columns| == |st.params|)
  {
    match st
    case Insert(cols, _, params) =>
      if |cols| == |params| then records[day := RecordOf(cols, params)] else records
    case Update(cols, params) =>
      if day in records && |params| == |cols| + 1 then
        records[day := records[day] + RecordOf(cols, params[..|cols|])]
      else records
  }

  /** The columns a statement names: an INSERT's column list; an UPDATE's
      SET columns and WC_Date in its WHERE clause. */
  function StatementColumns(st: Statement): seq<string>
  {
    match st
    case Insert(cols, _, _) => cols
    case Update(cols, _) => cols + [DateColumn]
  }

  /** The first of `names` that is not one of `columns`: the column MySQL
      names in its "Unknown column" error. */
  function FirstUnknown(names: seq<string>, columns: seq<string>): (r: Option<string>)
    ensures r.None? <==> forall n :: n in names ==> n in columns
    ensures r.Some? ==> r.value in names && r.value !in columns
  {
    if names == [] then None
    else if names[0] !in columns then Some(names[0])
    else
      assert forall n :: n in names ==> n == names[0] || n in names[1..];
      FirstUnknown(names[1..], columns)
  }

  /** The column reported comes after only known columns. */
  lemma {:induction false} FirstUnknownIsFirst(names: seq<string>, columns: seq<string>) returns (i: nat)
    requires FirstUnknown(names, columns).Some?
    ensures i < |names| && names[i] == FirstUnknown(names, columns).value
    ensures forall j :: 0 <= j < i ==> names[j] in columns
  {
    if names[0] !in columns {
      i := 0;
    } else {
      var k := FirstUnknownIsFirst(names[1..], columns);
      i := k + 1;
    }
  }

  predicate Distinct(names: seq<string>)
  {
    forall i, j :: 0 <= i < j < |names| ==> names[i] != names[j]
  }

  /** Some name occurs twice, checked name by name as MySQL reads the
      column list. */
  predicate Repeats(names: seq<string>)
  {
    names != [] && (names[0] in names[1..] || Repeats(names[1..]))
  }

  lemma {:induction false} RepeatsIff(names: seq<string>)
    ensures Repeats(names) <==> !Distinct(names)
  {
    if names != [] {
      RepeatsIff(names[1..]);
      if names[0] in names[1..] {
        var j :| 0 <= j < |names[1..]| && names[1..][j] == names[0];
        assert names[0] == names[j + 1];
      } else if !Repeats(names[1..]) {
        forall i, j | 0 <= i < j < |names|
          ensures names[i] != names[j]
        {
          if i > 0 {
            assert names[i] == names[1..][i - 1] && names[j] == names[1..][j - 1];
          } else {
            assert names[j] == names[1..][j - 1];
          }
        }
      } else {
        var i, j :| 0 <= i < j < |names[1..]| && names[1..][i] == names[1..][j];
        assert names[i + 1] == names[j + 1];
      }
    }
  }

  /** `cursor.execute` of the statement on a table with `columns`: MySQL
      rejects a column the table lacks, then an INSERT that names a column
      twice; otherwise the statement takes effect. */
  function Execute(columns: seq<string>, records: map<Day, Record>, day: Day, st: Statement)
    : (r: Result<map<Day, Record>, UpsertError>)
    ensures r.Err? ==> r.error.UnknownColumn? || r.error.ColumnTwice?
    ensures r.Ok? ==> r.value == Apply(records, day, st)
  {
    var unknown := FirstUnknown(StatementColumns(st), columns);
    if unknown.Some? then Err(UnknownColumn(unknown.value))
    else if st.Insert? && Repeats(st.columns) then Err(ColumnTwice)
    else Ok(Apply(records, day, st))
  }

  /** Execution fails exactly on a column the table lacks, which is the
      one reported, or on an INSERT that names a column twice. */
  lemma ExecuteFails(columns: seq<string>, records: map<Day, Record>, day: Day, st: Statement)
    ensures var r := Execute(columns, records, day, st);
            r.Err? <==> (exists c :: c in StatementColumns(st) && c !in columns)
                        || (st.Insert? && !Distinct(st.columns))
    ensures var r := Execute(columns, records, day, st);
            r.Err? && r.error.UnknownColumn? ==>
              r.error.name in StatementColumns(st) && r.error.name !in columns
  {
    RepeatsIff(StatementColumns(st));
  }

  /** `InsertDayWeatherConditions` as a function: the statement and the
      table afterwards, or the exception. In debug mode the statement is
      only printed, so the table is unchanged and the only MySQL error is
      the one the SELECT of the day's row raises. */
  function Upsert(columns: seq<string>, records: map<Day, Record>, wc: Conditions, day: Day,
                  fields: Option<seq<string>>, noexecute: bool)
    : (r: Result<(Statement, map<Day, Record>), UpsertError>)
    ensures r.Ok? ==> StatementFor(columns, records, wc, day, fields) == Ok(r.value.0)
    ensures r.Ok? ==> r.value.1 == if noexecute then records else Apply(records, day, r.value.0)
    ensures r.Err? && noexecute ==> StatementFor(columns, records, wc, day, fields) == Err(r.error)
  {
    var st := StatementFor(columns, records, wc, day, fields);
    if st.Err? then Err(st.error)
    else if noexecute then Ok((st.value, records))
    else
      var e := Execute(columns, records, day, st.value);
      if e.Err? then Err(e.error) else Ok((st.value, e.value))
  }

  /** The upsert fails exactly when the statement cannot be built, or when
      it is executed and MySQL rejects its columns. */
  lemma UpsertFails(columns: seq<string>, records: map<Day, Record>, wc: Conditions, day: Day,
                    fields: Option<seq<string>>, noexecute: bool)
    ensures var st := StatementFor(columns, records, wc, day, fields);
            Upsert(columns, records, wc, day, fields, noexecute).Err?
            <==> st.Err? || (!noexecute && Execute(columns, records, day, st.value).Err?)
  {
  }

  /** A table without a WC_Date column: once the requested fields pass
      their check, the SELECT of the day's row raises the unknown-column
      error, in debug mode as well, before any statement is built. */
  lemma MissingDateColumnFails(columns: seq<string>, records: map<Day, Record>, wc: Conditions, day: Day,
                               fields: Option<seq<string>>, noexecute: bool)
    requires DateColumn !in columns
    ensures var r := Upsert(columns, records, wc, day, fields, noexecute);
            r.Err? && (r.error.InvalidFields? || r.error == UnknownColumn(DateColumn))
    ensures !Restricted(fields) ==> Upsert(columns, records, wc, day, fields, noexecute) == Err(UnknownColumn(DateColumn))
  {
  }

  /** An UPDATE restricted to requested fields never meets an unknown
      column: the fields were checked against the table's columns first. */
  lemma RestrictedUpdateExecutes(columns: seq<string>, records: map<Day, Record>, wc: Conditions, day: Day,
                                 fields: Option<seq<string>>)
    requires day in records && Restricted(fields)
    requires StatementFor(columns, records, wc, day, fields).Ok?
    ensures var st := StatementFor(columns, records, wc, day, fields).value;
            forall c :: c in StatementColumns(st) ==> c in columns
    ensures Upsert(columns, records, wc, day, fields, false).Ok?
  {
    var st := StatementFor(columns, records, wc, day, fields).value;
    assert Invalid(fields.value, columns) == [];
    assert forall c :: c in StatementColumns(st) ==> c in fields.value || c == DateColumn;
    ExecuteFails(columns, records, day, st);
  }

  /** On a new day the INSERT names every key of `wc`: one key the table
      does not have makes the executed statement fail on a column of the
      INSERT that the table lacks. */
  lemma InsertUnknownKeyFails(columns: seq<string>, records: map<Day, Record>, wc: Conditions, day: Day,
                              fields: Option<seq<string>>, k: string)
    requires day !in records && k in Keys(wc) && k !in columns
    requires StatementFor(columns, records, wc, day, fields).Ok?
    ensures var r := Upsert(columns, records, wc, day, fields, false);
            r.Err? && r.error.UnknownColumn? && r.error.name in [DateColumn] + Keys(wc) && r.error.name !in columns
  {
    var st := StatementFor(columns, records, wc, day, fields).value;
    assert k in StatementColumns(st);
    ExecuteFails(columns, records, day, st);
  }

  /** The field check fails exactly when some requested field is not a
      column, and then lists exactly those fields. */
  lemma InvalidFieldsRejected(columns: seq<string>, records: map<Day, Record>, wc: Conditions, day: Day,
                              fields: Option<seq<string>>)
    ensures var r := StatementFor(columns, records, wc, day, fields);
      r.Err? && r.error.InvalidFields? <==> Restricted(fields) && exists f :: f in fields.value && f !in columns
    ensures var r := StatementFor(columns, records, wc, day, fields);
      r.Err? && r.error.InvalidFields? ==> forall f :: f in r.error.names <==> f in fields.value && f !in columns
  {
    if Restricted(fields) {
      var bad := Invalid(fields.value, columns);
      if bad != [] {
        assert bad[0] in bad;
      }
    }
  }

  /** The row an INSERT of WC_Date and the keys of `wc` describes. */
  lemma InsertedRow(wc: Conditions, day: Day)
    requires DistinctKeys(wc) && DateColumn !in Keys(wc)
    ensures var row := RecordOf([DateColumn] + Keys(wc), [Date(day)] + Values(wc));
      (forall c :: c in row <==> c == DateColumn || c in Keys(wc)) && row[DateColumn] == Date(day)
      && forall i :: 0 <= i < |wc| ==> row[wc[i].0] == wc[i].1
  {
    var cols, vals := [DateColumn] + Keys(wc), [Date(day)] + Values(wc);
    assert forall j :: 0 < j < |cols| ==> cols[j] in Keys(wc);
    RecordOfAt(cols, vals, 0);
    forall i | 0 <= i < |wc|
      ensures RecordOf(cols, vals)[wc[i].0] == wc[i].1
    {
      InsertedValue(wc, day, i);
    }
  }

  lemma InsertedValue(wc: Conditions, day: Day, i: nat)
    requires DistinctKeys(wc) && i < |wc|
    ensures RecordOf([DateColumn] + Keys(wc), [Date(day)] + Values(wc))[wc[i].0] == wc[i].1
  {
    var cols, vals := [DateColumn] + Keys(wc), [Date(day)] + Values(wc);
    LaterKeysDiffer(wc, i);
    RecordOfAt(cols, vals, i + 1);
    assert cols[i + 1] == wc[i].0 && vals[i + 1] == wc[i].1;
  }

  lemma LaterKeysDiffer(wc: Conditions, i: nat)
    requires DistinctKeys(wc) && i < |wc|
    ensures var cols := [DateColumn] + Keys(wc);
      cols[i + 1] == wc[i].0 && forall j :: i + 1 < j < |cols| ==> cols[j] != cols[i + 1]
  {
  }

  /** On a new day the inserted row holds the day under WC_Date and every
      value of `wc` under its key, other days are untouched, and the
      requested fields make no difference. */
  lemma InsertWritesEveryKey(columns: seq<string>, records: map<Day, Record>, wc: Conditions, day: Day,
                             fields: Option<seq<string>>)
    requires DistinctKeys(wc) && DateColumn !in Keys(wc)
    requires day !in records
    requires StatementFor(columns, records, wc, day, fields).Ok?
    ensures var after := Apply(records, day, StatementFor(columns, records, wc, day, fields).value);
      after == records[day := RecordOf([DateColumn] + Keys(wc), [Date(day)] + Values(wc))]
      && (forall c :: c in after[day] <==> c == DateColumn || c in Keys(wc)) && after[day][DateColumn] == Date(day)
      && forall i :: 0 <= i < |wc| ==> after[day][wc[i].0] == wc[i].1
    ensures StatementFor(columns, records, wc, day, fields) == StatementFor(columns, records, wc, day, None)
  {
    InsertedRow(wc, day);
  }

  /** Overriding a row with the columns of an UPDATE: a SET column takes
      its last value, every other column keeps its old one. */
  lemma UpdatedRow(row: Record, names: seq<string>, vals: seq<Value>)
    requires |names| == |vals|
    ensures forall c :: c in names ==>
      (c in row + RecordOf(names, vals) && (row + RecordOf(names, vals))[c] == vals[LastIndex(names, c)])
    ensures forall c :: c !in names && c in row ==>
      (c in row + RecordOf(names, vals) && (row + RecordOf(names, vals))[c] == row[c])
  {
    forall c | c in names
      ensures (row + RecordOf(names, vals))[c] == vals[LastIndex(names, c)]
    {
      RecordOfAt(names, vals, LastIndex(names, c));
    }
  }

  /** On an existing day the update sets each SET column to its value in
      `wc`, keeps every other column of the row, and leaves other days
      alone. */
  lemma UpdateWritesSetColumns(columns: seq<string>, records: map<Day, Record>, wc: Conditions, day: Day,
                               fields: Option<seq<string>>)
    requires day in records
    requires StatementFor(columns, records, wc, day, fields).Ok?
    ensures var st := StatementFor(columns, records, wc, day, fields).value;
      var names := st.setColumns;
      Apply(records, day, st) == records[day := records[day] + RecordOf(names, st.params[..|names|])]
      && (forall c :: c in names ==>
            (Lookup(wc, c).Some? && (records[day] + RecordOf(names, st.params[..|names|]))[c] == Lookup(wc, c).value))
      && (forall c :: c !in names && c in records[day] ==>
            (records[day] + RecordOf(names, st.params[..|names|]))[c] == records[day][c])
  {
    var st := StatementFor(columns, records, wc, day, fields).value;
    var names := st.setColumns;
    var vals := st.params[..|names|];
    var p := Project(wc, names);
    assert p.Ok? && p.value == vals;
    UpdatedRow(records[day], names, vals);
  }

  /** The position of the last occurrence of `c` in `names`. */
  function LastIndex(names: seq<string>, c: string): (i: nat)
    requires c in names
    ensures i < |names| && names[i] == c
    ensures forall j :: i < j < |names| ==> names[j] != c
  {
    if names[|names| - 1] == c then |names| - 1
    else
      assert c in names[..|names| - 1];
      LastIndex(names[..|names| - 1], c)
  }

  // ---------------------------------------------------------------------
  // The day table
  // ---------------------------------------------------------------------

  /** The DayWeatherConditions table: its columns (what `DESCRIBE` lists)
      and its rows by WC_Date. */
  class DayTable {
    const columns: seq<string>
    var records: map<Day, Record>

    constructor (columns: seq<string>, records: map<Day, Record>)
      ensures this.columns == columns && this.records == records
    {
      this.columns := columns;
      this.records := records;
    }

    /** `InsertDayWeatherConditions`: returns the statement it executes, or
        only prints when `noexecute` is set; on an error nothing is
        written. */
    method InsertDayWeatherConditions(wc: Conditions, day: Day, fields: Option<seq<string>>, noexecute: bool)
      returns (r: Result<Statement, UpsertError>)
      modifies this
      ensures var u := Upsert(columns, old(records), wc, day, fields, noexecute);
              r == (if u.Ok? then Ok(u.value.0) else Err(u.error))
              && records == (if u.Ok? then u.value.1 else old(records))
    {
      if fields.Some? && fields.value != [] {
        var invalid := Invalid(fields.value, columns);
        if invalid != [] {
          return Err(InvalidFields(invalid));
        }
      }
      if DateColumn !in columns {
        return Err(UnknownColumn(DateColumn));
      }
      var st: Statement;
      if day !in records {
        var cols := [DateColumn] + Keys(wc);
        var vals := [Date(day)] + Values(wc);
        st := Insert(cols, seq(|vals|, _ => "%s"), vals);
      } else {
        var names := if fields.Some? && fields.value != [] then fields.value else Keys(wc);
        var vals := Project(wc, names);
        if vals.Err? {
          return Err(vals.error);
        }
        st := Update(names, vals.value + [Date(day)]);
      }
      if !noexecute {
        var unknown := FirstUnknown(StatementColumns(st), columns);
        if unknown.Some? {
          return Err(UnknownColumn(unknown.value));
        }
        if st.Insert? && Repeats(st.columns) {
          return Err(ColumnTwice);
        }
        records := Apply(records, day, st);
      }
      r := Ok(st);
    }
  }

  // ---------------------------------------------------------------------
  // The date range
  // ---------------------------------------------------------------------

  datatype RunError = DateAfterToday | StartAfterEnd | UpsertFailed(error: UpsertError)

  /** The two ValueErrors raised before any processing. */
  function CheckRange(start: Day, end: Day, today: Day): (r: Result<(), RunError>)
    ensures r.Ok? <==> start <= end <= today
  {
    if start > today || end > today then Err(DateAfterToday)
    else if start > end then Err(StartAfterEnd)
    else Ok(())
  }

  /** The table and the upsert error, if any, during the main loop. */
  type RunState = (map<Day, Record>, Option<UpsertError>)

  /** One iteration of the main loop on `day`: a day with conditions is
      upserted unless only displaying, and an upsert error ends the script. */
  function Step(columns: seq<string>, prev: RunState, day: Day,
                fetch: Day -> Option<Conditions>, display: bool,
                fields: Option<seq<string>>, noexecute: bool): (next: RunState)
    ensures prev.1.Some? ==> next == prev
    ensures fetch(day).None? || display ==> next == prev
    ensures noexecute ==> next.0 == prev.0
  {
    if prev.1.Some? || fetch(day).None? || display then prev
    else
      var r := Upsert(columns, prev.0, fetch(day).value, day, fields, noexecute);
      if r.Err? then (prev.0, Some(r.error))
      else (r.value.1, None)
  }

  /** A step changes at most the row of its own day. */
  lemma StepTouchesOnlyDay(columns: seq<string>, prev: RunState, day: Day,
                           fetch: Day -> Option<Conditions>, display: bool,
                           fields: Option<seq<string>>, noexecute: bool, d: Day)
    requires d != day
    ensures var next := Step(columns, prev, day, fetch, display, fields, noexecute).0;
      (d in next <==> d in prev.0) && (d in prev.0 ==> next[d] == prev.0[d])
  {
  }

  /** The main loop as a fold: `step` applied to the days `start`,
      `start + 1`, ... in turn, `n` times. */
  function Iterate(step: (RunState, Day) -> RunState, init: RunState, start: Day, n: nat): RunState
  {
    if n == 0 then init else step(Iterate(step, init, start, n - 1), start + n - 1)
  }

  lemma IterateNext(step: (RunState, Day) -> RunState, init: RunState, start: Day, n: nat)
    ensures Iterate(step, init, start, n + 1) == step(Iterate(step, init, start, n), start + n)
  {
  }

  /** A step that leaves a failed state alone keeps it to the end. */
  lemma {:induction false} IterateStop(step: (RunState, Day) -> RunState, init: RunState, start: Day, n: nat, m: nat)
    requires forall s: RunState, d: Day :: s.1.Some? ==> step(s, d) == s
    requires n <= m && Iterate(step, init, start, n).1.Some?
    ensures Iterate(step, init, start, m) == Iterate(step, init, start, n)
    decreases m - n
  {
    if n < m {
      IterateStop(step, init, start, n + 1, m);
    }
  }

  /** A step that never changes the table leaves the initial one. */
  lemma {:induction false} IterateTable(step: (RunState, Day) -> RunState, init: RunState, start: Day, n: nat)
    requires forall s: RunState, d: Day :: step(s, d).0 == s.0
    ensures Iterate(step, init, start, n).0 == init.0
  {
    if n > 0 {
      IterateTable(step, init, start, n - 1);
    }
  }

  /** A step that only touches its own day leaves `d` outside the range. */
  lemma {:induction false} IterateKeeps(step: (RunState, Day) -> RunState, init: RunState, start: Day, n: nat, d: Day)
    requires forall s: RunState, e: Day :: e != d ==> Keeps(s.0, step(s, e).0, d)
    requires d < start || d >= start + n
    ensures Keeps(init.0, Iterate(step, init, start, n).0, d)
  {
    if n > 0 {
      IterateKeeps(step, init, start, n - 1, d);
    }
  }

  /** A failure arises from a day `ok` does not rule out. */
  lemma {:induction false} IterateFailure(step: (RunState, Day) -> RunState, init: RunState, start: Day, n: nat,
                                          ok: Day -> bool) returns (k: nat)
    requires init.1.None?
    requires forall s: RunState, d: Day :: s.1.None? && step(s, d).1.Some? ==> !ok(d)
    requires Iterate(step, init, start, n).1.Some?
    ensures k < n && !ok(start + k)
  {
    if Iterate(step, init, start, n - 1).1.Some? {
      k := IterateFailure(step, init, start, n - 1, ok);
    } else {
      k := n - 1;
    }
  }

  /** Day `d` has the same row, or the same absence of one, in both tables. */
  predicate Keeps(before: map<Day, Record>, after: map<Day, Record>, d: Day)
  {
    (d in after <==> d in before) && (d in before ==> after[d] == before[d])
  }

  /** One iteration of the main loop as a step of the fold. */
  function Stepper(columns: seq<string>, fetch: Day -> Option<Conditions>, display: bool,
                   fields: Option<seq<string>>, noexecute: bool): (RunState, Day) -> RunState
  {
    (s: RunState, d: Day) => Step(columns, s, d, fetch, display, fields, noexecute)
  }

  /** The state after the first `n` days from `start`; display mode
      changes nothing, and neither display nor debug mode writes. */
  function Days(columns: seq<string>, records: map<Day, Record>, start: Day, n: nat,
                fetch: Day -> Option<Conditions>, display: bool,
                fields: Option<seq<string>>, noexecute: bool): (r: RunState)
    ensures display ==> r == (records, None)
  {
    var step := Stepper(columns, fetch, display, fields, noexecute);
    if display then
      IterateFixed(step, (records, None), start, n);
      Iterate(step, (records, None), start, n)
    else Iterate(step, (records, None), start, n)
  }

  /** A step that changes nothing leaves the initial state. */
  lemma {:induction false} IterateFixed(step: (RunState, Day) -> RunState, init: RunState, start: Day, n: nat)
    requires forall s: RunState, d: Day :: step(s, d) == s
    ensures Iterate(step, init, start, n) == init
  {
    if n > 0 {
      IterateFixed(step, init, start, n - 1);
    }
  }

  /** An error comes from one of the first `n` days that has conditions. */
  lemma DaysFailureDay(columns: seq<string>, records: map<Day, Record>, start: Day, n: nat,
                       fetch: Day -> Option<Conditions>, display: bool,
                       fields: Option<seq<string>>, noexecute: bool)
    returns (k: nat)
    requires Days(columns, records, start, n, fetch, display, fields, noexecute).1.Some?
    ensures k < n && fetch(start + k).Some?
  {
    k := IterateFailure(Stepper(columns, fetch, display, fields, noexecute), (records, None), start, n,
                        d => fetch(d).None?);
  }

  /** One more day: the state the step reaches from the state so far. */
  lemma DaysAdvance(columns: seq<string>, records: map<Day, Record>, start: Day, n: nat, day: Day,
                    fetch: Day -> Option<Conditions>, display: bool,
                    fields: Option<seq<string>>, noexecute: bool,
                    before: map<Day, Record>, after: map<Day, Record>, error: Option<UpsertError>)
    requires day == start + n
    requires Days(columns, records, start, n, fetch, display, fields, noexecute) == (before, None)
    requires (after, error) == Step(columns, (before, None), day, fetch, display, fields, noexecute)
    ensures Days(columns, records, start, n + 1, fetch, display, fields, noexecute) == (after, error)
  {
    IterateNext(Stepper(columns, fetch, display, fields, noexecute), (records, None), start, n);
  }

  /** Once a day has failed, the later days change nothing. */
  lemma DaysStop(columns: seq<string>, records: map<Day, Record>, start: Day, n: nat, m: nat,
                 fetch: Day -> Option<Conditions>, display: bool,
                 fields: Option<seq<string>>, noexecute: bool)
    requires n <= m
    requires Days(columns, records, start, n, fetch, display, fields, noexecute).1.Some?
    ensures Days(columns, records, start, m, fetch, display, fields, noexecute)
         == Days(columns, records, start, n, fetch, display, fields, noexecute)
  {
    IterateStop(Stepper(columns, fetch, display, fields, noexecute), (records, None), start, n, m);
  }

  /** In display mode, and in debug mode, the run writes nothing. */
  lemma DaysReadOnly(columns: seq<string>, records: map<Day, Record>, start: Day, n: nat,
                     fetch: Day -> Option<Conditions>, display: bool,
                     fields: Option<seq<string>>, noexecute: bool)
    requires display || noexecute
    ensures Days(columns, records, start, n, fetch, display, fields, noexecute).0 == records
  {
    IterateTable(Stepper(columns, fetch, display, fields, noexecute), (records, None), start, n);
  }

  /** A run over `n` days from `start` leaves every other day's row as it
      was. */
  lemma DaysTouchOnlyRange(columns: seq<string>, records: map<Day, Record>, start: Day, n: nat,
                           fetch: Day -> Option<Conditions>, display: bool,
                           fields: Option<seq<string>>, noexecute: bool, d: Day)
    requires d < start || d >= start + n
    ensures var out := Days(columns, records, start, n, fetch, display, fields, noexecute).0;
      (d in out <==> d in records) && (d in records ==> out[d] == records[d])
  {
    var step := Stepper(columns, fetch, display, fields, noexecute);
    forall s: RunState, e: Day | e != d
      ensures Keeps(s.0, step(s, e).0, d)
    {
      StepTouchesOnlyDay(columns, s, e, fetch, display, fields, noexecute, d);
    }
    IterateKeeps(step, (records, None), start, n, d);
  }

  /** The body of the main loop for one day: fetch the day's conditions
      and, unless only displaying them, upsert them. */
  method VisitDay(table: DayTable, day: Day, fetch: Day -> Option<Conditions>, display: bool,
                  fields: Option<seq<string>>, noexecute: bool)
    returns (error: Option<UpsertError>)
    modifies table
    ensures (table.records, error) == Step(table.columns, (old(table.records), None), day, fetch, display, fields, noexecute)
  {
    var wc := fetch(day);
    error := None;
    if wc.Some? && !display {
      var r := table.InsertDayWeatherConditions(wc.value, day, fields, noexecute);
      if r.Err? {
        error := Some(r.error);
      }
    }
  }

  /** One iteration of the main loop, as the fold sees it: the state after
      the `n` days before `date` advances to the state after `n + 1` days,
      or, on an error, to the state after all `count` days. */
  method AdvanceDay(table: DayTable, ghost initial: map<Day, Record>, start: Day, ghost n: nat, count: nat,
                    date: Day, fetch: Day -> Option<Conditions>, display: bool,
                    fields: Option<seq<string>>, noexecute: bool)
    returns (error: Option<UpsertError>)
    requires date == start + n && n < count
    requires Days(table.columns, initial, start, n, fetch, display, fields, noexecute) == (table.records, None)
    modifies table
    ensures error.None? ==>
      Days(table.columns, initial, start, n + 1, fetch, display, fields, noexecute) == (table.records, None)
    ensures error.Some? ==>
      Days(table.columns, initial, start, count, fetch, display, fields, noexecute) == (table.records, error)
  {
    ghost var before := table.records;
    error := VisitDay(table, date, fetch, display, fields, noexecute);
    DaysAdvance(table.columns, initial, start, n, date, fetch, display, fields, noexecute, before, table.records, error);
    if error.Some? {
      DaysStop(table.columns, initial, start, n + 1, count, fetch, display, fields, noexecute);
    }
  }

  /** The main loop: one iteration per day of the `count` days from
      `start`, stopping at the first upsert error. */
  method RunDays(table: DayTable, start: Day, count: nat,
                 fetch: Day -> Option<Conditions>, display: bool,
                 fields: Option<seq<string>>, noexecute: bool)
    returns (error: Option<UpsertError>)
    modifies table
    ensures (table.records, error) == Days(table.columns, old(table.records), start, count, fetch, display, fields, noexecute)
  {
    ghost var initial := table.records;
    var date := start;
    ghost var n: nat := 0;
    while date < start + count
      invariant start <= date <= start + count && date == start + n
      invariant Days(table.columns, initial, start, n, fetch, display, fields, noexecute) == (table.records, None)
    {
      error := AdvanceDay(table, initial, start, n, count, date, fetch, display, fields, noexecute);
      if error.Some? {
        return;
      }
      date := date + 1;
      n := n + 1;
    }
    assert n == count;
    error := None;
  }

  /** The main script: the date checks, then one iteration per day from
      `start` to `end`; `failure` is the exception that ends the script, if
      any. */
  method UpdateRange(table: DayTable, start: Day, end: Day, today: Day,
                     fetch: Day -> Option<Conditions>, display: bool,
                     fields: Option<seq<string>>, noexecute: bool)
    returns (failure: Option<RunError>)
    modifies table
    ensures CheckRange(start, end, today).Err? ==>
      failure == Some(CheckRange(start, end, today).error) && table.records == old(table.records)
    ensures CheckRange(start, end, today).Ok? ==>
      var out := Days(table.columns, old(table.records), start, end - start + 1, fetch, display, fields, noexecute);
      table.records == out.0 && failure == (if out.1.Some? then Some(UpsertFailed(out.1.value)) else None)
  {
    ghost var initial := table.records;
    var check := CheckRange(start, end, today);
    if check.Err? {
      return Some(check.error);
    }
    var error := RunDays(table, start, end - start + 1, fetch, display, fields, noexecute);
    ghost var out := Days(table.columns, initial, start, end - start + 1, fetch, display, fields, noexecute);
    assert (table.records, error) == out;
    failure := if error.Some? then Some(UpsertFailed(error.value)) else None;
  }
}
