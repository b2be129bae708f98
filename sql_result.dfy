/** The EnergyPlus SQLite result decoder (`SQLiteResult`). The database file is modelled
    by its contents: the ReportDataDictionary, ReportData and Time tables and the values
    of the tabular reports. What the decoder does with the rows it reads is modelled as
    the source does it: the run-period and frequency decoding, the regrouping of the flat
    value rows into one sequence per output channel, the Joule to kWh conversion, the
    header metadata, the choice of container, the location parsing and its cache. */
module SqlResult {
  import opened Common
  import opened Text
  import Seqs

  /** A row of the ReportDataDictionary table, reduced to the columns the decoder reads:
      column 0 (`index`), column 3 (`objectType`, the key kind such as `Zone`), column 5
      (`objectName`, the key value), column 6 (`name`, the output name) and the last
      column (`units`). */
  datatype DictionaryRow = DictionaryRow(
    index: int, objectType: string, objectName: string, name: string, units: string)

  /** A row of the ReportData table. */
  datatype DataRow = DataRow(dictionaryIndex: int, value: real, timeIndex: int)

  /** A row of the Time table, columns 0 to 8 in order. */
  datatype TimeRecord = TimeRecord(
    index: int, year: int, month: int, day: int, hour: int, minute: int, dst: int,
    interval: int, intervalType: int)

  /** The contents of a result database: the dictionary and data rows in table order, the
      Time table keyed by its time index, and every tabular report's values by table name. */
  datatype Database = Database(
    dictionary: seq<DictionaryRow>,
    reportData: seq<DataRow>,
    time: map<int, TimeRecord>,
    tables: map<string, seq<string>>)

  /** What the decoder raises. */
  datatype Error =
    | FileNotFound(path: string)        // the path names no file
    | NotSqlFile(path: string)          // the path does not end in .sql, .db or .sqlite
    | QueryRejected                     // SQLite refuses the generated query text
    | NoDataRows                        // `data[0]` on an empty list of data rows
    | MissingTimeRecord(timeIndex: int) // `fetchone()` found no Time row
    | ZeroInterval                      // `int(60 / 0)`
    | UnknownIntervalCode(code: int)    // `_interval_codes[code]` out of range
    | EndBeyondDay(minutes: int)        // an end offset this model does not cover
    | MissingTableRow                   // a tabular row or a token that is not there

  /* ---------------------------------------------------------------- file path */

  predicate HasSqlExtension(path: string) {
    EndsWith(path, ".sql") || EndsWith(path, ".db") || EndsWith(path, ".sqlite")
  }

  /** The two checks of the constructor: the file exists and has a database extension. */
  function CheckPath(path: string, isFile: bool): (r: Option<Error>)
    ensures r == None <==> isFile && HasSqlExtension(path)
    ensures !isFile ==> r == Some(FileNotFound(path))
    ensures isFile && !HasSqlExtension(path) ==> r == Some(NotSqlFile(path))
  {
    if !isFile then Some(FileNotFound(path))
    else if !HasSqlExtension(path) then Some(NotSqlFile(path))
    else None
  }

  /* ---------------------------------------------------------------- queries */

  /** The dictionary rows whose output name is in `names`, in table order. */
  function RowsNamed(rows: seq<DictionaryRow>, names: set<string>): (r: seq<DictionaryRow>)
    ensures |r| <= |rows|
    ensures forall x :: x in r <==> x in rows && x.name in names
  {
    if rows == [] then []
    else
      assert forall x :: x in rows <==> x == rows[0] || x in rows[1..];
      (if rows[0].name in names then [rows[0]] else []) + RowsNamed(rows[1..], names)
  }

  /** Selecting from two runs of rows selects from each in turn: the selection keeps
      table order. */
  lemma {:induction false} RowsNamedAppend(a: seq<DictionaryRow>, b: seq<DictionaryRow>,
                                           names: set<string>)
    ensures RowsNamed(a + b, names) == RowsNamed(a, names) + RowsNamed(b, names)
    decreases |a|
  {
    if a != [] {
      assert (a + b)[0] == a[0] && (a + b)[1..] == a[1..] + b;
      RowsNamedAppend(a[1..], b, names);
    } else {
      assert a + b == b;
    }
  }

  /** One row is kept exactly when its name is asked for. */
  lemma RowsNamedOne(x: DictionaryRow, names: set<string>)
    ensures RowsNamed([x], names) == if x.name in names then [x] else []
  {
    assert [x][1..] == [];
  }

  /** The dictionary query: `Name=?` for one name, `Name IN <tuple>` for several. A
      one-element tuple prints as `('x',)`, which SQLite refuses. */
  function SelectChannels(rows: seq<DictionaryRow>, outputName: OutputName)
    : (r: Result<seq<DictionaryRow>, Error>)
    ensures outputName.Single? ==> r == Ok(RowsNamed(rows, {outputName.name}))
    ensures outputName.Several? ==> (r.Err? <==> |outputName.names| == 1)
    ensures outputName.Several? && r.Ok? ==>
              r.value == RowsNamed(rows, set x | x in outputName.names)
  {
    match outputName
    case Single(name) => Ok(RowsNamed(rows, {name}))
    case Several(names) =>
      if |names| == 1 then Err(QueryRejected) else Ok(RowsNamed(rows, set x | x in names))
  }

  /** The ReportData rows that belong to one of the dictionary indices, in table order. */
  function RowsOf(data: seq<DataRow>, indices: set<int>): (r: seq<DataRow>)
    ensures |r| <= |data|
    ensures forall x :: x in r <==> x in data && x.dictionaryIndex in indices
  {
    if data == [] then []
    else
      assert forall x :: x in data <==> x == data[0] || x in data[1..];
      (if data[0].dictionaryIndex in indices then [data[0]] else []) + RowsOf(data[1..], indices)
  }

  /** Selecting from two runs of data rows selects from each in turn: the selection keeps
      table order. */
  lemma {:induction false} RowsOfAppend(a: seq<DataRow>, b: seq<DataRow>, indices: set<int>)
    ensures RowsOf(a + b, indices) == RowsOf(a, indices) + RowsOf(b, indices)
    decreases |a|
  {
    if a != [] {
      assert (a + b)[0] == a[0] && (a + b)[1..] == a[1..] + b;
      RowsOfAppend(a[1..], b, indices);
    } else {
      assert a + b == b;
    }
  }

  /** One data row is kept exactly when its dictionary index is asked for. */
  lemma RowsOfOne(x: DataRow, indices: set<int>)
    ensures RowsOf([x], indices) == if x.dictionaryIndex in indices then [x] else []
  {
    assert [x][1..] == [];
  }

  function Indices(rows: seq<DictionaryRow>): set<int> {
    set row | row in rows :: row.index
  }

  /** `tablular_data_by_name`: the values of a tabular report, none for an unknown table. */
  function TabularData(tables: map<string, seq<string>>, name: string): (r: seq<string>)
    ensures name in tables ==> r == tables[name]
    ensures name !in tables ==> r == []
  {
    if name in tables then tables[name] else []
  }

  /* ---------------------------------------------------------------- run period */

  /** The reporting frequency: a count of steps per hour, or one of the interval names. */
  datatype Frequency = Steps(perHour: int) | Named(name: string)

  /** `_interval_codes`, indexed by the Time table's interval-type code. */
  const IntervalCodes: seq<string> := ["Timestep", "Hourly", "Daily", "Monthly", "Annual"]

  /** The arguments given to `AnalysisPeriod`. */
  datatype RunPeriod = RunPeriod(
    stMonth: int, stDay: int, stHour: int, endMonth: int, endDay: int, endHour: int,
    timestep: int, isLeapYear: bool)

  /** `int(a / b)`: the true quotient rounded toward zero. */
  function TruncDiv(a: int, b: int): (q: int)
    requires b != 0
    ensures a >= 0 && b > 0 ==> q == a / b
    ensures a >= 0 && b > 0 ==> q * b <= a < q * b + b
  {
    var d := (if a < 0 then -a else a) / (if b < 0 then -b else b);
    if (a < 0) == (b < 0) then d else -d
  }

  /** The frequency, the analysis-period timestep and the minutes per step, read from the
      start record: codes up to 1 give `int(60 / interval)` steps per hour, the others
      name the interval with one step per hour and sixty minutes per step. */
  function DecodeInterval(start: TimeRecord): (r: Result<(Frequency, int, int), Error>)
    ensures r.Ok? <==> (start.intervalType <= 1 && start.interval != 0) || 2 <= start.intervalType <= 4
    ensures r.Ok? && start.intervalType <= 1 ==>
              r.value.0 == Steps(r.value.1) && r.value.1 == TruncDiv(60, start.interval)
              && r.value.2 == start.interval
    ensures r.Ok? && start.intervalType > 1 ==>
              r.value.0.Named? && r.value.1 == 1 && r.value.2 == 60
  {
    if start.intervalType <= 1 then
      if start.interval == 0 then Err(ZeroInterval)
      else
        var timestep := TruncDiv(60, start.interval);
        Ok((Steps(timestep), timestep, start.interval))
    else if start.intervalType < |IntervalCodes| then
      Ok((Named(IntervalCodes[start.intervalType]), 1, 60))
    else Err(UnknownIntervalCode(start.intervalType))
  }

  /** `_extract_run_period` after its two Time queries. */
  function DecodeRunPeriod(time: map<int, TimeRecord>, stTime: int, endTime: int)
    : (r: Result<(RunPeriod, Frequency), Error>)
  {
    if stTime !in time then Err(MissingTimeRecord(stTime))
    else
      var start := time[stTime];
      var interval :- DecodeInterval(start);
      var (frequency, timestep, minPerStep) := interval;
      var leapYear := start.year % 4 == 0;
      var stDay := if frequency == Named("Monthly") then 1 else start.day;
      if endTime !in time then Err(MissingTimeRecord(endTime))
      else
        var end := time[endTime];
        var offset := 1440 - minPerStep;
        if !(0 <= offset < 1440) then Err(EndBeyondDay(offset))
        else
          Ok((RunPeriod(start.month, stDay, 0, end.month, end.day, offset / 60,
                        timestep, leapYear), frequency))
  }

  /** Interval code 2 is Daily, 3 Monthly and 4 Annual reporting, each with one step per
      hour and sixty minutes per step; no other code gives a named frequency. */
  lemma NamedFrequencies(start: TimeRecord)
    ensures start.intervalType == 2 ==> DecodeInterval(start) == Ok((Named("Daily"), 1, 60))
    ensures start.intervalType == 3 ==> DecodeInterval(start) == Ok((Named("Monthly"), 1, 60))
    ensures start.intervalType == 4 ==> DecodeInterval(start) == Ok((Named("Annual"), 1, 60))
    ensures DecodeInterval(start).Ok? && DecodeInterval(start).value.0.Named? ==>
              2 <= start.intervalType <= 4
  {
  }

  /** Sub-hourly and hourly records with `m` minutes per step (1 <= m <= 60) decode to the
      number of whole steps that fit in an hour; hourly reporting is one step per hour. */
  lemma StepsPerHour(start: TimeRecord)
    requires start.intervalType <= 1 && 1 <= start.interval <= 60
    ensures DecodeInterval(start).Ok?
    ensures var steps := DecodeInterval(start).value.1;
            1 <= steps <= 60 && steps * start.interval <= 60 < (steps + 1) * start.interval
    ensures start.interval == 60 ==> DecodeInterval(start).value.0 == Steps(1)
  {
    var q := TruncDiv(60, start.interval);
    assert q * start.interval <= 60 < q * start.interval + start.interval;
    assert (q + 1) * start.interval == q * start.interval + start.interval;
  }

  /** The run period built from the two boundary records. */
  lemma RunPeriodFields(time: map<int, TimeRecord>, stTime: int, endTime: int)
    requires DecodeRunPeriod(time, stTime, endTime).Ok?
    ensures stTime in time && endTime in time
    ensures var (rp, frequency) := DecodeRunPeriod(time, stTime, endTime).value;
            var start, end := time[stTime], time[endTime];
            && rp.isLeapYear == (start.year % 4 == 0)
            && rp.stMonth == start.month && rp.stHour == 0
            && rp.stDay == (if frequency == Named("Monthly") then 1 else start.day)
            && rp.endMonth == end.month && rp.endDay == end.day
            && DecodeInterval(start).Ok?
            && frequency == DecodeInterval(start).value.0
            && rp.timestep == DecodeInterval(start).value.1
            && rp.endHour == (1440 - DecodeInterval(start).value.2) / 60
            && (start.intervalType > 1 || 1 <= start.interval <= 60 ==> rp.endHour == 23)
  {
  }

  /** Which failure the decoder reports, in the order the source meets them. */
  lemma RunPeriodErrors(time: map<int, TimeRecord>, stTime: int, endTime: int)
    ensures stTime !in time ==>
              DecodeRunPeriod(time, stTime, endTime) == Err(MissingTimeRecord(stTime))
    ensures stTime in time && time[stTime].intervalType <= 1 && time[stTime].interval == 0 ==>
              DecodeRunPeriod(time, stTime, endTime) == Err(ZeroInterval)
    ensures stTime in time && time[stTime].intervalType >= 5 ==>
              DecodeRunPeriod(time, stTime, endTime)
                == Err(UnknownIntervalCode(time[stTime].intervalType))
    ensures stTime in time && DecodeInterval(time[stTime]).Ok? && endTime !in time ==>
              DecodeRunPeriod(time, stTime, endTime) == Err(MissingTimeRecord(endTime))
  {
  }

  /* ---------------------------------------------------------------- small helpers */

  /** `_data_type_from_unit` over `ladybug.datatype.UNITS`, taken as its ordered list of
      (data type, units) pairs: the first data type whose units include `unit`. */
  function DataTypeFromUnit(unitTable: seq<(string, seq<string>)>, unit: string)
    : (r: Option<string>)
    ensures r.Some? <==> exists i :: 0 <= i < |unitTable| && unit in unitTable[i].1
    ensures r.Some? ==> exists i :: 0 <= i < |unitTable| && unit in unitTable[i].1
                           && r.value == unitTable[i].0
                           && forall j :: 0 <= j < i ==> unit !in unitTable[j].1
  {
    if unitTable == [] then None
    else if unit in unitTable[0].1 then Some(unitTable[0].0)
    else
      var r := DataTypeFromUnit(unitTable[1..], unit);
      assert forall i :: 1 <= i < |unitTable| ==> unitTable[i] == unitTable[1..][i - 1];
      if r.Some? then
        ghost var i :| 0 <= i < |unitTable[1..]| && unit in unitTable[1..][i].1
                       && r.value == unitTable[1..][i].0
                       && forall j :: 0 <= j < i ==> unit !in unitTable[1..][j].1;
        assert unitTable[i + 1] == unitTable[1..][i];
        r
      else r
  }

  /** `_check_desdays_in_report`: true when there is no Simulation Control report or its
      row 3 reads `No`. */
  function CheckDesignDaysInReport(tables: map<string, seq<string>>): (r: Result<bool, Error>)
    ensures TabularData(tables, "Simulation Control") == [] ==> r == Ok(true)
    ensures var rows := TabularData(tables, "Simulation Control");
            |rows| > 3 ==> r == Ok(rows[3] == "No")
    ensures var rows := TabularData(tables, "Simulation Control");
            0 < |rows| <= 3 ==> r == Err(MissingTableRow)
  {
    var rows := TabularData(tables, "Simulation Control");
    if rows == [] then Ok(true)
    else if |rows| <= 3 then Err(MissingTableRow)
    else Ok(rows[3] == "No")
  }

  /* ---------------------------------------------------------------- location */

  datatype Location = Location(
    city: string, source: string, stationId: string, latitude: string, longitude: string,
    timeZone: string, elevation: string)

  /** `_extract_location`: none without a General report; otherwise row 2 gives the city,
      the source and the station id, rows 3 to 6 the latitude, longitude, elevation and
      time zone. */
  function ExtractLocation(tables: map<string, seq<string>>): (r: Result<Option<Location>, Error>)
    ensures TabularData(tables, "General") == [] <==> r == Ok(None)
    ensures r.Ok? && r.value.Some? ==>
              var general := TabularData(tables, "General");
              |general| >= 7 && r.value.value.latitude == general[3]
              && r.value.value.longitude == general[4] && r.value.value.elevation == general[5]
              && r.value.value.timeZone == general[6]
  {
    var general := TabularData(tables, "General");
    if general == [] then Ok(None)
    else if |general| < 7 then Err(MissingTableRow)
    else
      var tokens := Split(general[2], ' ');
      if |tokens| < 2 then Err(MissingTableRow)
      else
        var idParts := Split(tokens[|tokens| - 1], '=');
        Ok(Some(Location(
          Join(tokens[..|tokens| - 2], ' '), tokens[|tokens| - 2], idParts[|idParts| - 1],
          general[3], general[4], general[6], general[5])))
  }

  /** Row 2 of the form `<city> <source> StationId=<id>` is read back into its parts. */
  lemma LocationRoundTrip(
    tables: map<string, seq<string>>, city: string, source: string, id: string)
    requires "General" in tables && |tables["General"]| >= 7
    requires tables["General"][2] == city + " " + source + " StationId=" + id
    requires ' ' !in source && ' ' !in id && '=' !in id
    ensures ExtractLocation(tables).Ok? && ExtractLocation(tables).value.Some?
    ensures var loc := ExtractLocation(tables).value.value;
            loc.city == city && loc.source == source && loc.stationId == id
  {
    var last := "StationId=" + id;
    StationIdToken(id);
    assert tables["General"][2] == city + " " + source + " " + last;
    LocationTokens(city, source, last);
    var tokens := Split(tables["General"][2], ' ');
    assert tokens == Split(city, ' ') + [source, last];
    assert tokens[..|tokens| - 2] == Split(city, ' ');
    JoinSplit(city, ' ');
  }

  /** `<city> <source> <last>` splits into the words of the city, then the source and the last token. */
  lemma LocationTokens(city: string, source: string, last: string)
    requires ' ' !in source && ' ' !in last
    ensures Split(city + " " + source + " " + last, ' ') == Split(city, ' ') + [source, last]
  {
    assert city + " " + source + " " + last == (city + [' '] + source) + [' '] + last;
    SplitAppend(city + [' '] + source, last, ' ');
    SplitAppend(city, source, ' ');
    SplitWithoutSeparator(source, ' ');
    SplitWithoutSeparator(last, ' ');
  }

  /** The station token `StationId=<id>` splits on `=` into the key and the id. */
  lemma StationIdToken(id: string)
    requires '=' !in id
    ensures Split("StationId=" + id, '=') == ["StationId", id]
  {
    var key := "StationId";
    StationIdKey(id);
    SplitAppend(key, id, '=');
    SplitWithoutSeparator(key, '=');
    SplitWithoutSeparator(id, '=');
  }

  lemma StationIdKey(id: string)
    ensures "StationId=" + id == "StationId" + ['='] + id && '=' !in "StationId"
  {
    assert "StationId=" == "StationId" + ['='];
  }

  /* ---------------------------------------------------------------- time series */

  /** The values of the data rows, in order (`val[0] for val in data`). */
  function Values(data: seq<DataRow>): (r: seq<real>)
    ensures |r| == |data| && forall k :: 0 <= k < |data| ==> r[k] == data[k].value
  {
    Seqs.Map(data, (row: DataRow) => row.value)
  }

  /** Joules to kWh: a kWh is 3,600,000 J. */
  function ToKwh(v: real): real {
    v / 3600000.0
  }

  /** One sequence per output channel: `zip(*)` of the blocks of `n` values. */
  function Reconstructed(values: seq<real>, n: nat): seq<seq<real>>
    requires n > 0
  {
    Seqs.Zip(Seqs.Chunks(values, n))
  }

  /** `_clean_timeseries_data`. */
  method CleanTimeseriesData(data: seq<DataRow>, nLists: nat) returns (allValues: seq<seq<real>>)
    requires nLists > 0
    ensures allValues == Reconstructed(Values(data), nLists)
  {
    ghost var vs := Values(data);
    var chunks: seq<seq<real>> := [];
    var i := 0;
    while i < |data|
      invariant 0 <= i <= |data|
      invariant chunks + Seqs.Chunks(vs[i..], nLists) == Seqs.Chunks(vs, nLists)
    {
      var j := Min(i + nLists, |data|);
      var chunk := seq(j - i, k requires 0 <= k < j - i => data[i + k].value);
      assert forall k :: 0 <= k < j - i ==> chunk[k] == vs[i..j][k];
      assert chunk == vs[i..j];
      NextChunk(vs, nLists, i, j, chunk);
      chunks := chunks + [chunk];
      i := j;
    }
    assert vs[|data|..] == [];
    assert chunks == Seqs.Chunks(vs, nLists);
    allValues := Seqs.Zip(chunks);
  }

  /** `_clean_and_convert_timeseries_data`: the same, with every value divided by 3600000. */
  method CleanAndConvertTimeseriesData(data: seq<DataRow>, nLists: nat)
    returns (allValues: seq<seq<real>>)
    requires nLists > 0
    ensures allValues == Reconstructed(Seqs.Map(Values(data), ToKwh), nLists)
  {
    ghost var vs := Seqs.Map(Values(data), ToKwh);
    var chunks: seq<seq<real>> := [];
    var i := 0;
    while i < |data|
      invariant 0 <= i <= |data|
      invariant chunks + Seqs.Chunks(vs[i..], nLists) == Seqs.Chunks(vs, nLists)
    {
      var j := Min(i + nLists, |data|);
      var chunk := seq(j - i, k requires 0 <= k < j - i => data[i + k].value / 3600000.0);
      assert forall k :: 0 <= k < j - i ==> chunk[k] == vs[i..j][k];
      assert chunk == vs[i..j];
      NextChunk(vs, nLists, i, j, chunk);
      chunks := chunks + [chunk];
      i := j;
    }
    assert vs[|data|..] == [];
    assert chunks == Seqs.Chunks(vs, nLists);
    allValues := Seqs.Zip(chunks);
  }

  /** One step of the slicing loop: the slice `vs[i:i + n]` is the next block. */
  lemma NextChunk(vs: seq<real>, n: nat, i: nat, j: nat, chunk: seq<real>)
    requires n > 0 && i < |vs| && j == Min(i + n, |vs|) && chunk == vs[i..j]
    ensures Seqs.Chunks(vs[i..], n) == [chunk] + Seqs.Chunks(vs[j..], n)
  {
    if |vs[i..]| > n {
      assert vs[i..][..n] == vs[i..j];
      assert vs[i..][n..] == vs[j..];
    } else {
      assert vs[i..] == vs[i..j];
      assert vs[j..] == [];
    }
  }

  /** With `k` values per channel for `n` channels, there are `n` channel sequences of `k`
      values each, and the `j`-th value of channel `i` is row `i + j*n`. */
  lemma ReconstructExact(data: seq<DataRow>, n: nat, k: nat)
    requires n > 0 && k > 0 && |data| == k * n
    ensures var all := Reconstructed(Values(data), n);
            |all| == n
            && (forall i :: 0 <= i < n ==> |all[i]| == k)
            && (forall i, j :: 0 <= i < n && 0 <= j < k ==>
                  Seqs.Position(i, j, n) < |data| && all[i][j] == data[Seqs.Position(i, j, n)].value)
  {
    var vs := Values(data);
    Seqs.ZipChunksExact(vs, n, k);
    var all := Reconstructed(vs, n);
    assert all == Seqs.Zip(Seqs.Chunks(vs, n));
    forall i, j | 0 <= i < n && 0 <= j < k
      ensures Seqs.Position(i, j, n) < |data| && all[i][j] == data[Seqs.Position(i, j, n)].value
    {
      var p := Seqs.Position(i, j, n);
      assert all[i][j] == vs[p];
    }
  }

  /** A row count that is not a multiple of the channel count does not fail: with
      `k*n + r` rows (0 < r < n), `zip` stops at the short last block, leaving `r`
      sequences of `k + 1` values. */
  lemma ReconstructRagged(data: seq<DataRow>, n: nat, k: nat, r: nat)
    requires 0 < r < n && |data| == k * n + r
    ensures var all := Reconstructed(Values(data), n);
            |all| == r
            && (forall i :: 0 <= i < r ==> |all[i]| == k + 1)
            && (forall i, j :: 0 <= i < r && 0 <= j <= k ==>
                  Seqs.Position(i, j, n) < |data| && all[i][j] == data[Seqs.Position(i, j, n)].value)
  {
    var vs := Values(data);
    Seqs.ZipChunks(vs, n, k, r);
    var all := Reconstructed(vs, n);
    assert all == Seqs.Zip(Seqs.Chunks(vs, n));
    forall i, j | 0 <= i < r && 0 <= j <= k
      ensures Seqs.Position(i, j, n) < |data| && all[i][j] == data[Seqs.Position(i, j, n)].value
    {
      assert j < |all[i]|;
      var p := Seqs.Position(i, j, n);
      assert all[i][j] == vs[p];
    }
  }

  /** Converting to kWh keeps the shape of the plain reconstruction and divides every value
      by 3600000. */
  lemma ConvertedMatchesPlain(data: seq<DataRow>, n: nat)
    requires n > 0
    ensures var plain := Reconstructed(Values(data), n);
            var conv := Reconstructed(Seqs.Map(Values(data), ToKwh), n);
            |conv| == |plain|
            && forall i :: 0 <= i < |plain| ==>
                 |conv[i]| == |plain[i]|
                 && forall j :: 0 <= j < |plain[i]| ==> conv[i][j] == plain[i][j] / 3600000.0
  {
    var vs := Values(data);
    var ws := Seqs.Map(vs, ToKwh);
    Seqs.ChunksMap(vs, n, ToKwh);
    var cv, cw := Seqs.Chunks(vs, n), Seqs.Chunks(ws, n);
    if cv != [] {
      Seqs.MinLengthSameShape(cv, cw);
    }
    var plain, conv := Seqs.Zip(cv), Seqs.Zip(cw);
    forall i, j | 0 <= i < |plain| && 0 <= j < |plain[i]|
      ensures conv[i][j] == plain[i][j] / 3600000.0
    {
      assert conv[i][j] == cw[j][i] == Seqs.Map(cv[j], ToKwh)[i];
    }
  }

  /* ---------------------------------------------------------------- collections */

  /** `Header(data_type, units, run_period, metadata)`. */
  datatype Header = Header(
    dataType: Option<string>, unit: string, runPeriod: RunPeriod,
    metadata: map<string, string>)

  datatype CollectionKind = HourlyContinuous | Daily | Monthly

  /** A data collection of the given kind; the day-of-year and month indices that ladybug
      derives from the header's analysis period are not modelled. */
  datatype Collection = Collection(kind: CollectionKind, header: Header, values: seq<real>)

  /** What `data_collections_by_output_name` returns: data collections, or for Annual (and
      any other unrecognised) frequency the bare value sequences. */
  datatype Output = Collections(colls: seq<Collection>) | RawLists(lists: seq<seq<real>>)

  /** `'Surface' in output_name`: a substring test for one name, membership for a tuple. */
  predicate SurfaceRequested(outputName: OutputName) {
    match outputName
    case Single(name) => IsSubstring("Surface", name)
    case Several(names) => "Surface" in names
  }

  /** The key under which a channel's object name is stored. */
  function ObjectKey(row: DictionaryRow, surface: bool): string {
    if surface then "Surface" else row.objectType
  }

  /** `{'type': row[6], obj_type: row[5]}`. */
  function Metadata(row: DictionaryRow, surface: bool): map<string, string> {
    map["type" := row.name][ObjectKey(row, surface) := row.objectName]
  }

  /** The metadata has the output name under `type` and the object name under the object
      key; when the object key is itself `type`, the later entry wins and one key is left. */
  lemma MetadataKeys(row: DictionaryRow, surface: bool)
    ensures var m, key := Metadata(row, surface), ObjectKey(row, surface);
            key in m && m[key] == row.objectName
            && (key != "type" ==> m.Keys == {"type", key} && m["type"] == row.name)
            && (key == "type" ==> m.Keys == {"type"})
  {
  }

  /** The unit label: `J` becomes `kWh`, any other label is kept. */
  function UnitLabel(units: string): string {
    if units != "J" then units else "kWh"
  }

  /** The container each frequency selects; none means the bare value lists. */
  function ContainerFor(frequency: Frequency): Option<CollectionKind> {
    if frequency == Named("Hourly") || frequency.Steps? then Some(HourlyContinuous)
    else if frequency == Named("Daily") then Some(Daily)
    else if frequency == Named("Monthly") then Some(Monthly)
    else None
  }

  function Headers(rows: seq<DictionaryRow>, dataType: Option<string>, units: string,
                   runPeriod: RunPeriod, surface: bool): (r: seq<Header>)
    ensures |r| == |rows|
  {
    seq(|rows|, i requires 0 <= i < |rows| =>
      Header(dataType, units, runPeriod, Metadata(rows[i], surface)))
  }

  /** `zip(headers, all_values)` wrapped into collections of one kind. */
  function Combine(kind: CollectionKind, headers: seq<Header>, values: seq<seq<real>>)
    : (r: seq<Collection>)
    ensures |r| == Min(|headers|, |values|)
  {
    var m := Min(|headers|, |values|);
    seq(m, i requires 0 <= i < m => Collection(kind, headers[i], values[i]))
  }

  /** The channel values, converted to kWh when the unit label is `kWh`. */
  function ChannelValues(data: seq<DataRow>, n: nat, units: string): seq<seq<real>>
    requires n > 0
  {
    if units == "kWh" then Reconstructed(Seqs.Map(Values(data), ToKwh), n)
    else Reconstructed(Values(data), n)
  }

  /** What `data_collections_by_output_name` does with the rows it has read. */
  function Assemble(headerRows: seq<DictionaryRow>, data: seq<DataRow>, runPeriod: RunPeriod,
                    frequency: Frequency, unitTable: seq<(string, seq<string>)>,
                    surface: bool): Output
    requires headerRows != []
  {
    var units := UnitLabel(headerRows[0].units);
    var dataType := DataTypeFromUnit(unitTable, units);
    var headers := Headers(headerRows, dataType, units, runPeriod, surface);
    var allValues := ChannelValues(data, |headerRows|, units);
    match ContainerFor(frequency)
    case None => RawLists(allValues)
    case Some(kind) => Collections(Combine(kind, headers, allValues))
  }

  /** `data_collections_by_output_name` on a database. */
  function CollectionsByOutputName(db: Database, unitTable: seq<(string, seq<string>)>,
                                   outputName: OutputName): Result<Output, Error>
  {
    var headerRows :- SelectChannels(db.dictionary, outputName);
    if headerRows == [] then Ok(Collections([]))
    else
      var data := RowsOf(db.reportData, Indices(headerRows));
      if data == [] then Err(NoDataRows)
      else
        var decoded :- DecodeRunPeriod(db.time, data[0].timeIndex, data[|data| - 1].timeIndex);
        Ok(Assemble(headerRows, data, decoded.0, decoded.1, unitTable,
                    SurfaceRequested(outputName)))
  }

  /** An output name that no dictionary row carries gives the empty list. */
  lemma NoMatchIsEmpty(db: Database, unitTable: seq<(string, seq<string>)>, name: string)
    requires forall row :: row in db.dictionary ==> row.name != name
    ensures CollectionsByOutputName(db, unitTable, Single(name)) == Ok(Collections([]))
  {
    NoRowsNamed(db.dictionary, {name});
  }

  lemma {:induction false} NoRowsNamed(rows: seq<DictionaryRow>, names: set<string>)
    requires forall row :: row in rows ==> row.name !in names
    ensures RowsNamed(rows, names) == []
  {
    if rows != [] {
      assert rows[0] in rows;
      NoRowsNamed(rows[1..], names);
    }
  }

  /** Every collection's header: the relabelled unit, the decoded run period, and the
      metadata of its own dictionary row, keyed by `Surface` when a surface output was
      asked for and by the row's object type otherwise. */
  lemma AssembledHeaders(headerRows: seq<DictionaryRow>, data: seq<DataRow>,
                         runPeriod: RunPeriod, frequency: Frequency,
                         unitTable: seq<(string, seq<string>)>, surface: bool)
    requires headerRows != []
    requires Assemble(headerRows, data, runPeriod, frequency, unitTable, surface).Collections?
    ensures var colls := Assemble(headerRows, data, runPeriod, frequency, unitTable, surface).colls;
            |colls| <= |headerRows|
            && forall i :: 0 <= i < |colls| ==>
                 var h, key := colls[i].header, ObjectKey(headerRows[i], surface);
                 && h.unit == UnitLabel(headerRows[0].units)
                 && h.dataType == DataTypeFromUnit(unitTable, h.unit)
                 && h.runPeriod == runPeriod
                 && (surface ==> key == "Surface")
                 && key in h.metadata && h.metadata[key] == headerRows[i].objectName
                 && (key != "type" ==> h.metadata.Keys == {"type", key}
                                       && h.metadata["type"] == headerRows[i].name)
  {
    var colls := Assemble(headerRows, data, runPeriod, frequency, unitTable, surface).colls;
    forall i | 0 <= i < |colls|
      ensures var h, key := colls[i].header, ObjectKey(headerRows[i], surface);
              key in h.metadata && h.metadata[key] == headerRows[i].objectName
              && (key != "type" ==> h.metadata.Keys == {"type", key}
                                    && h.metadata["type"] == headerRows[i].name)
    {
      MetadataKeys(headerRows[i], surface);
    }
  }

  /** The container follows the frequency: hourly for Hourly and for a step count, daily
      for Daily, monthly for Monthly, and the bare value lists for anything else. */
  lemma AssembledContainer(headerRows: seq<DictionaryRow>, data: seq<DataRow>,
                           runPeriod: RunPeriod, frequency: Frequency,
                           unitTable: seq<(string, seq<string>)>, surface: bool)
    requires headerRows != []
    ensures var out := Assemble(headerRows, data, runPeriod, frequency, unitTable, surface);
            var units := UnitLabel(headerRows[0].units);
            && (out.RawLists? <==> frequency !in {Named("Hourly"), Named("Daily"), Named("Monthly")}
                                    && !frequency.Steps?)
            && (out.RawLists? ==> out.lists == ChannelValues(data, |headerRows|, units))
            && (out.Collections? ==>
                  forall i :: 0 <= i < |out.colls| ==>
                    out.colls[i].values == ChannelValues(data, |headerRows|, units)[i]
                    && out.colls[i].kind == (if frequency == Named("Daily") then Daily
                                             else if frequency == Named("Monthly") then Monthly
                                             else HourlyContinuous))
  {
  }

  /** For `k` rows per channel there is one collection per dictionary row (or one bare
      list per row), and each carries its channel's values. */
  lemma AssembledValues(headerRows: seq<DictionaryRow>, data: seq<DataRow>,
                        runPeriod: RunPeriod, frequency: Frequency,
                        unitTable: seq<(string, seq<string>)>, surface: bool, k: nat)
    requires headerRows != [] && k > 0 && |data| == k * |headerRows|
    ensures var out := Assemble(headerRows, data, runPeriod, frequency, unitTable, surface);
            var cv := ChannelValues(data, |headerRows|, UnitLabel(headerRows[0].units));
            && |cv| == |headerRows|
            && (out.RawLists? ==> out.lists == cv)
            && (out.Collections? ==>
                  |out.colls| == |headerRows|
                  && forall i :: 0 <= i < |out.colls| ==> out.colls[i].values == cv[i])
  {
    ChannelValuesExact(data, |headerRows|, UnitLabel(headerRows[0].units), k);
  }

  /** With `k` rows per channel, channel `i` holds the values of rows `i`, `i + n`, ...,
      converted to kWh when the unit label is `kWh`. */
  lemma ChannelValuesExact(data: seq<DataRow>, n: nat, units: string, k: nat)
    requires n > 0 && k > 0 && |data| == k * n
    ensures var cv := ChannelValues(data, n, units);
            && |cv| == n
            && (forall i :: 0 <= i < n ==> |cv[i]| == k)
            && forall i, j :: 0 <= i < n && 0 <= j < k ==>
                 Seqs.Position(i, j, n) < |data|
                 && cv[i][j] == (if units == "kWh" then data[Seqs.Position(i, j, n)].value / 3600000.0
                                 else data[Seqs.Position(i, j, n)].value)
  {
    if units == "kWh" {
      ConvertedExact(data, n, k);
      assert ChannelValues(data, n, units) == Reconstructed(Seqs.Map(Values(data), ToKwh), n);
    } else {
      ReconstructExact(data, n, k);
      assert ChannelValues(data, n, units) == Reconstructed(Values(data), n);
    }
  }

  /** The converted reconstruction of `k * n` rows, value by value. */
  lemma ConvertedExact(data: seq<DataRow>, n: nat, k: nat)
    requires n > 0 && k > 0 && |data| == k * n
    ensures var conv := Reconstructed(Seqs.Map(Values(data), ToKwh), n);
            && |conv| == n
            && (forall i :: 0 <= i < n ==> |conv[i]| == k)
            && forall i, j :: 0 <= i < n && 0 <= j < k ==>
                 Seqs.Position(i, j, n) < |data|
                 && conv[i][j] == data[Seqs.Position(i, j, n)].value / 3600000.0
  {
    var converted := Seqs.Map(data, (row: DataRow) => row.(value := ToKwh(row.value)));
    assert Values(converted) == Seqs.Map(Values(data), ToKwh);
    ReconstructExact(converted, n, k);
    var conv := Reconstructed(Values(converted), n);
    forall i, j | 0 <= i < n && 0 <= j < k
      ensures Seqs.Position(i, j, n) < |data| && conv[i][j] == data[Seqs.Position(i, j, n)].value / 3600000.0
    {
      var p := Seqs.Position(i, j, n);
      assert conv[i][j] == converted[p].value;
    }
  }

  /** Joules are relabelled kWh and converted; any other label other than kWh itself
      passes through with its values unchanged. */
  lemma JoulesRelabelled(headerRows: seq<DictionaryRow>, data: seq<DataRow>)
    requires headerRows != []
    ensures headerRows[0].units == "J" ==>
              UnitLabel(headerRows[0].units) == "kWh"
              && ChannelValues(data, |headerRows|, UnitLabel(headerRows[0].units))
                 == Reconstructed(Seqs.Map(Values(data), ToKwh), |headerRows|)
    ensures headerRows[0].units !in {"J", "kWh"} ==>
              UnitLabel(headerRows[0].units) == headerRows[0].units
              && ChannelValues(data, |headerRows|, UnitLabel(headerRows[0].units))
                 == Reconstructed(Values(data), |headerRows|)
  {
  }

  /* ---------------------------------------------------------------- the reader object */

  /** `SQLiteResult`. The file at `filePath` is represented by its contents `db`. */
  class SQLiteResult {
    const filePath: string
    const db: Database
    /** `_location`: none until a General report has been parsed. */
    var location: Option<Location>

    constructor (filePath: string, isFile: bool, db: Database)
      requires CheckPath(filePath, isFile) == None
      ensures this.filePath == filePath && this.db == db && location == None
    {
      this.filePath := filePath;
      this.db := db;
      location := None;
    }

    /** The `location` property: parses the General report the first time it succeeds and
        serves the cached value afterwards; with no General report it stays unset and is
        looked for again on the next call. */
    method GetLocation() returns (r: Result<Option<Location>, Error>)
      modifies this
      ensures old(location).Some? ==> r == Ok(old(location)) && location == old(location)
      ensures old(location).None? ==>
                r == ExtractLocation(db.tables)
                && location == (if r.Ok? then r.value else None)
    {
      if location.Some? {
        return Ok(location);
      }
      r := ExtractLocation(db.tables);
      if r.Ok? {
        location := r.value;
      }
    }

    /** `data_collections_by_output_name`. */
    method DataCollectionsByOutputName(unitTable: seq<(string, seq<string>)>,
                                       outputName: OutputName)
      returns (r: Result<Output, Error>)
      ensures r == CollectionsByOutputName(db, unitTable, outputName)
    {
      var selected := SelectChannels(db.dictionary, outputName);
      if selected.Err? {
        return Err(selected.error);
      }
      var headerRows := selected.value;
      if |headerRows| == 0 {
        return Ok(Collections([]));
      }
      var data := RowsOf(db.reportData, Indices(headerRows));
      if |data| == 0 {
        return Err(NoDataRows);
      }
      var decoded := DecodeRunPeriod(db.time, data[0].timeIndex, data[|data| - 1].timeIndex);
      if decoded.Err? {
        return Err(decoded.error);
      }
      var (runPeriod, frequency) := decoded.value;
      var out := AssembleOutput(headerRows, data, runPeriod, frequency, unitTable,
                                SurfaceRequested(outputName));
      return Ok(out);
    }
  }

  /** The part of `data_collections_by_output_name` after the queries: the headers, the
      regrouped (and possibly converted) values and the container. */
  method AssembleOutput(headerRows: seq<DictionaryRow>, data: seq<DataRow>, runPeriod: RunPeriod,
                        frequency: Frequency, unitTable: seq<(string, seq<string>)>, surface: bool)
    returns (out: Output)
    requires headerRows != []
    ensures out == Assemble(headerRows, data, runPeriod, frequency, unitTable, surface)
  {
    var units := UnitLabel(headerRows[0].units);
    var dataType := DataTypeFromUnit(unitTable, units);
    var headers := BuildHeaders(headerRows, dataType, units, runPeriod, surface);
    assert headers == Headers(headerRows, dataType, units, runPeriod, surface);

    var n := |headerRows|;
    var allValues;
    if units == "kWh" {
      allValues := CleanAndConvertTimeseriesData(data, n);
    } else {
      allValues := CleanTimeseriesData(data, n);
    }
    assert allValues == ChannelValues(data, n, units);

    var kind := ContainerFor(frequency);
    if kind.None? {
      return RawLists(allValues);
    }
    var colls := BuildCollections(kind.value, headers, allValues);
    assert colls == Combine(kind.value, headers, allValues);
    return Collections(colls);
  }

  /** The header loop: one header per dictionary row, in order. */
  method BuildHeaders(headerRows: seq<DictionaryRow>, dataType: Option<string>, units: string,
                      runPeriod: RunPeriod, surface: bool) returns (headers: seq<Header>)
    ensures |headers| == |headerRows|
    ensures forall k :: 0 <= k < |headerRows| ==>
              headers[k] == Header(dataType, units, runPeriod, Metadata(headerRows[k], surface))
  {
    headers := [];
    for i := 0 to |headerRows|
      invariant |headers| == i
      invariant forall k :: 0 <= k < i ==>
                  headers[k] == Header(dataType, units, runPeriod, Metadata(headerRows[k], surface))
    {
      headers := headers + [Header(dataType, units, runPeriod, Metadata(headerRows[i], surface))];
    }
  }

  /** The collection loop over `zip(headers, all_values)`: pairs up to the shorter input. */
  method BuildCollections(kind: CollectionKind, headers: seq<Header>, allValues: seq<seq<real>>)
    returns (colls: seq<Collection>)
    ensures |colls| == Min(|headers|, |allValues|)
    ensures forall k :: 0 <= k < |colls| ==> colls[k] == Collection(kind, headers[k], allValues[k])
  {
    colls := [];
    var m := Min(|headers|, |allValues|);
    for j := 0 to m
      invariant |colls| == j
      invariant forall k :: 0 <= k < j ==> colls[k] == Collection(kind, headers[k], allValues[k])
    {
      colls := colls + [Collection(kind, headers[j], allValues[j])];
    }
  }

  /** Opening a result file: the constructor's two checks, then a reader with no cached
      location. */
  method Open(filePath: string, isFile: bool, db: Database) returns (r: Result<SQLiteResult, Error>)
    ensures CheckPath(filePath, isFile).Some? ==> r == Err(CheckPath(filePath, isFile).value)
    ensures CheckPath(filePath, isFile) == None ==>
              r.Ok? && fresh(r.value) && r.value.filePath == filePath && r.value.db == db
              && r.value.location == None
  {
    var failure := CheckPath(filePath, isFile);
    if failure.Some? {
      return Err(failure.value);
    }
    var reader := new SQLiteResult(filePath, isFile, db);
    return Ok(reader);
  }
}
