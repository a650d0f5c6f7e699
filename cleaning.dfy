/**
 * The cleaning script: the extracted rows, read back as a table, become the
 * numeric training table. Each step rewrites or appends whole columns of one
 * `DataFrame`, so the height and the row order never change.
 */
module Cleaning {
  import opened Wrappers
  import opened Frame
  import Calendar
  import Stats
  import Encoding
  import Workouts

  /** The header the extraction writes, in its order. */
  const HEADER: seq<Column> := [
    WorkoutType, StartTimestamp, EndTimestamp, DurationMin, SourceName, SourceVersion, DeviceModelColumn,
    CreationTimestamp, ActiveEnergyKcal, BasalEnergyKcal, DistanceMi,
    IsIndoor, AvgMets, WeatherTempF, WeatherHumidityPct, TimeZone, NumSegments]

  /** The timestamp columns the decomposition loop visits, in order. */
  const DATETIME_COLUMNS: seq<Column> := [StartTimestamp, EndTimestamp]

  /** The columns dropped once their information has been taken out. */
  const DROPPED: set<Column> := {
    WorkoutType, StartTimestamp, EndTimestamp, SourceName, SourceVersion, DeviceModelColumn,
    CreationTimestamp, NumSegments}

  /** The columns of the cleaned table, in order. */
  const CLEANED_COLUMNS: seq<Column> := [
    DurationMin, ActiveEnergyKcal, BasalEnergyKcal, DistanceMi, IsIndoor, AvgMets,
    WeatherTempF, WeatherHumidityPct, WorkoutTypeEncoded]
    + PartColumns(StartTimestamp) + PartColumns(EndTimestamp) + [HasDistance, TimeZoneEncoded]

  /** The columns once `workout_type` is encoded and the timestamps decomposed. */
  const PREPARED_COLUMNS: seq<Column> :=
    HEADER + [WorkoutTypeEncoded] + PartColumns(StartTimestamp) + PartColumns(EndTimestamp)

  /** The columns once `has_distance` is added too. */
  const WITH_FLAG: seq<Column> := PREPARED_COLUMNS + [HasDistance]

  /** The columns left by the drop of `DROPPED`. */
  const KEPT: seq<Column> := [
    DurationMin, ActiveEnergyKcal, BasalEnergyKcal, DistanceMi, IsIndoor, AvgMets,
    WeatherTempF, WeatherHumidityPct, TimeZone, WorkoutTypeEncoded]
    + PartColumns(StartTimestamp) + PartColumns(EndTimestamp) + [HasDistance]

  /** The texts `read_csv` reads as NaN by default. */
  const NA_TEXTS: set<string> := {
    "", "#N/A", "#N/A N/A", "#NA", "-1.#IND", "-1.#QNAN", "-NaN", "-nan", "1.#IND", "1.#QNAN",
    "<NA>", "N/A", "NA", "NULL", "NaN", "None", "n/a", "nan", "null"}

  // ---------------------------------------------------------------------------
  // The rows read back from CSV
  // ---------------------------------------------------------------------------

  /** A text field read back: an unset field or an NA text is NaN. */
  function TextCell(s: Option<string>): (c: Cell)
    ensures c.Missing? || c.Text?
    ensures c.Text? <==> s.Some? && s.value !in NA_TEXTS
  {
    if s.None? || s.value in NA_TEXTS then Missing else Text(s.value)
  }

  function NumberCell(x: Option<real>): (c: Cell)
    ensures c.Missing? <==> x.None?
  {
    if x.None? then Missing else Num(x.value)
  }

  /** The cell of `row` under column `c` of the header. */
  function RowCell(row: Workouts.RawRow, c: Column): Cell
  {
    match c
    case WorkoutType => TextCell(Some(row.workoutType))
    case StartTimestamp => TextCell(row.startTimestamp)
    case EndTimestamp => TextCell(row.endTimestamp)
    case DurationMin => Num(row.durationMin)
    case SourceName => TextCell(row.sourceName)
    case SourceVersion => TextCell(row.sourceVersion)
    case DeviceModelColumn => TextCell(row.deviceModel)
    case CreationTimestamp => TextCell(row.creationTimestamp)
    case ActiveEnergyKcal => NumberCell(row.activeEnergyKcal)
    case BasalEnergyKcal => NumberCell(row.basalEnergyKcal)
    case DistanceMi => NumberCell(row.distanceMi)
    case IsIndoor => if row.isIndoor.None? then Missing else Num(row.isIndoor.value as real)
    case AvgMets => NumberCell(row.avgMets)
    case WeatherTempF => NumberCell(row.weatherTempF)
    case WeatherHumidityPct => NumberCell(row.weatherHumidityPct)
    case TimeZone => TextCell(row.timeZone)
    case NumSegments => Num(row.numSegments as real)
    case _ => Missing
  }

  /** Column `c` of the rows, top to bottom. */
  function RawColumn(rows: seq<Workouts.RawRow>, c: Column): (r: seq<Cell>)
    ensures |r| == |rows| && forall i | 0 <= i < |rows| :: r[i] == RowCell(rows[i], c)
  {
    seq(|rows|, i requires 0 <= i < |rows| => RowCell(rows[i], c))
  }

  /** The text columns read back hold texts and NaN only, as the label encoder needs. */
  lemma TextColumnsAreCategorical(rows: seq<Workouts.RawRow>)
    ensures Encoding.AllCategories(RawColumn(rows, WorkoutType))
    ensures Encoding.AllCategories(RawColumn(rows, TimeZone))
  {
  }

  // ---------------------------------------------------------------------------
  // Column operations
  // ---------------------------------------------------------------------------

  /** `col.notna().astype(int)`: 1 where a value is present, 0 where it is missing. */
  function PresenceFlags(col: seq<Cell>): (r: seq<Cell>)
    ensures |r| == |col|
    ensures forall i | 0 <= i < |col| :: r[i] == Num(1.0) <==> !col[i].Missing?
    ensures forall i | 0 <= i < |col| :: r[i] == Num(0.0) <==> col[i].Missing?
  {
    seq(|col|, i requires 0 <= i < |col| => if col[i].Missing? then Num(0.0) else Num(1.0))
  }

  /** `col.fillna(v)`: missing cells become `v`, present cells stay. */
  function FillMissing(col: seq<Cell>, v: Cell): (r: seq<Cell>)
    ensures |r| == |col|
    ensures forall i | 0 <= i < |col| && !col[i].Missing? :: r[i] == col[i]
    ensures forall i | 0 <= i < |col| && col[i].Missing? :: r[i] == v
  {
    seq(|col|, i requires 0 <= i < |col| => if col[i].Missing? then v else col[i])
  }

  /** The numbers present in a column, top to bottom. */
  function PresentNumbers(col: seq<Cell>): (r: seq<real>)
    ensures |r| <= |col|
    ensures forall x :: x in r <==> Num(x) in col
  {
    if col == [] then []
    else
      var rest := PresentNumbers(col[1..]);
      assert forall c :: c in col <==> c == col[0] || c in col[1..];
      if col[0].Num? then [col[0].x] + rest else rest
  }

  /** Each number is present as often as it occurs in the column, which the median and the mode depend on. */
  lemma {:induction false} PresentNumbersCounts(col: seq<Cell>)
    ensures forall x :: multiset(PresentNumbers(col))[x] == multiset(col)[Num(x)]
  {
    if col != [] {
      PresentNumbersCounts(col[1..]);
      assert col == [col[0]] + col[1..];
    }
  }

  /** `col.fillna(col.median())`: unchanged when no number is present (the median is NaN). */
  function FillMedian(col: seq<Cell>): (r: seq<Cell>)
  {
    match Stats.Median(PresentNumbers(col))
    case None => col
    case Some(m) => FillMissing(col, Num(m))
  }

  /** `col.fillna(col.mode()[0])`: `None` when no number is present, as `[0]` raises then. */
  function FillMode(col: seq<Cell>): (r: Option<seq<Cell>>)
  {
    match Stats.Mode(PresentNumbers(col))
    case None => None
    case Some(m) => Some(FillMissing(col, Num(m)))
  }

  /** `pd.to_datetime(col, errors='coerce')`: a timestamp where the text parses, NaT elsewhere. */
  function ParseColumn(col: seq<Cell>): (r: seq<Cell>)
    ensures |r| == |col|
    ensures forall i | 0 <= i < |col| :: r[i].Time? || r[i].Missing?
  {
    seq(|col|, i requires 0 <= i < |col| => ParseCell(col[i]))
  }

  /** `pd.to_datetime` of one cell: a timestamp, or NaT. */
  function ParseCell(c: Cell): (r: Cell)
    ensures r.Time? || r.Missing?
    ensures r.Time? ==> Calendar.Valid(r.t)
  {
    match c
    case Text(s) => (match Calendar.ParseTimestamp(s) case Some(t) => Time(t) case None => Missing)
    case Time(t) => if Calendar.Valid(t) then Time(t) else Missing
    case _ => Missing
  }

  /** Every parsed timestamp of the column carries the same UTC offset. */
  predicate UniformOffset(col: seq<Cell>)
  {
    forall i, j | 0 <= i < |col| && 0 <= j < |col| && col[i].Time? && col[j].Time? ::
      col[i].t.offsetMinutes == col[j].t.offsetMinutes
  }

  function PartValue(t: Calendar.DateTime, p: DatePart): int
    requires Calendar.Valid(t)
  {
    match p
    case Year => t.year
    case Month => t.month
    case Day => t.day
    case Hour => t.hour
    case Minute => t.minute
    case WeekdayPart => Calendar.Weekday(t.year, t.month, t.day)
  }

  /** `col.dt.<part>`: the component of each timestamp, NaN where there is none. */
  function DatePartColumn(col: seq<Cell>, p: DatePart): (r: seq<Cell>)
    ensures |r| == |col|
  {
    seq(|col|, i requires 0 <= i < |col| => PartCell(col[i], p))
  }

  /** The component `p` of a timestamp cell, NaN for NaT. */
  function PartCell(c: Cell, p: DatePart): Cell
  {
    if c.Time? && Calendar.Valid(c.t) then Num(PartValue(c.t, p) as real) else Missing
  }

  /** Codes as the numbers stored in a column. */
  function CodeCells(codes: seq<nat>): (r: seq<Cell>)
    ensures |r| == |codes| && forall i | 0 <= i < |codes| :: r[i] == Num(codes[i] as real)
  {
    seq(|codes|, i requires 0 <= i < |codes| => Num(codes[i] as real))
  }

  /** `LabelEncoder().fit_transform(col)` stored as a column; empty if the column cannot be encoded. */
  function EncodedColumn(col: seq<Cell>): (r: seq<Cell>)
  {
    match Encoding.FitTransform(col)
    case Ok((_, codes)) => CodeCells(codes)
    case Err(_) => []
  }

  // ---------------------------------------------------------------------------
  // The script
  // ---------------------------------------------------------------------------

  datatype CleanError =
    | MixedOffsets(column: Column)   // `.dt` on timestamps with different offsets (an object column)
    | NoMode(column: Column)         // `mode()[0]` on a column with no value

  /** The cells of the extracted rows read back, column by column. */
  function RawData(rows: seq<Workouts.RawRow>): (raw: map<Column, seq<Cell>>)
    ensures forall c :: c in raw <==> InHeader(c)
    ensures forall c | c in raw :: raw[c] == RawColumn(rows, c) && |raw[c]| == |rows|
  {
    HeaderNames();
    map c | c in HEADER :: RawColumn(rows, c)
  }

  /** `pd.read_csv` of the extracted rows. */
  method ReadWorkouts(rows: seq<Workouts.RawRow>) returns (df: DataFrame)
    ensures fresh(df) && df.Valid()
    ensures df.columns == HEADER && df.height == |rows|
    ensures df.data == RawData(rows)
  {
    HeaderNames();
    df := new DataFrame(HEADER, RawData(rows), |rows|);
  }

  /**
   * `df[target] = LabelEncoder().fit_transform(df[source])`: the codes of a
   * categorical column are appended, and the fitted encoder is returned.
   */
  method EncodeColumn(df: DataFrame, source: Column, target: Column) returns (encoder: Encoding.Encoder)
    requires df.Valid() && source in df.columns && target !in df.columns
    requires Encoding.AllCategories(df.data[source])
    modifies df
    ensures df.Valid() && df.height == old(df.height)
    ensures df.columns == old(df.columns) + [target]
    ensures encoder == Encoding.Fit(old(df.data[source])).value
    ensures df.data == old(df.data)[target := EncodedColumn(old(df.data[source]))]
  {
    Encoding.FitTransformCodes(df.data[source]);
    var fitted := Encoding.FitTransform(df.data[source]).value;
    df.Assign(target, CodeCells(fitted.1));
    encoder := fitted.0;
  }

  /** The columns after the loop has decomposed the timestamp columns `done`. */
  function Decomposed(columns: seq<Column>, done: seq<Column>): seq<Column>
  {
    if done == [] then columns else Decomposed(columns, done[..|done| - 1]) + PartColumns(done[|done| - 1])
  }

  /** The cells after one pass of the loop over timestamp column `c`. */
  function DecomposeOne(data: map<Column, seq<Cell>>, c: Column): map<Column, seq<Cell>>
    requires c in data
  {
    var parsed := ParseColumn(data[c]);
    WithParts(data[c := parsed], c, parsed)
  }

  /** The cells after the loop has decomposed the timestamp columns `done`, in order. */
  function DecomposedCells(data: map<Column, seq<Cell>>, done: seq<Column>): (r: map<Column, seq<Cell>>)
    requires forall c | c in done :: c in data
    ensures data.Keys <= r.Keys
  {
    if done == [] then data
    else DecomposeOne(DecomposedCells(data, done[..|done| - 1]), done[|done| - 1])
  }

  /** The cells after appending the date components of the parsed column `parsed` of `c`. */
  function WithDateParts(data: map<Column, seq<Cell>>, c: Column, parsed: seq<Cell>): map<Column, seq<Cell>>
  {
    data[Part(c, Year) := DatePartColumn(parsed, Year)]
        [Part(c, Month) := DatePartColumn(parsed, Month)]
        [Part(c, Day) := DatePartColumn(parsed, Day)]
  }

  /** The cells after appending the time-of-day and weekday components. */
  function WithTimeParts(data: map<Column, seq<Cell>>, c: Column, parsed: seq<Cell>): map<Column, seq<Cell>>
  {
    data[Part(c, Hour) := DatePartColumn(parsed, Hour)]
        [Part(c, Minute) := DatePartColumn(parsed, Minute)]
        [Part(c, WeekdayPart) := DatePartColumn(parsed, WeekdayPart)]
  }

  /** The cells after appending all six components. */
  function WithParts(data: map<Column, seq<Cell>>, c: Column, parsed: seq<Cell>): map<Column, seq<Cell>>
  {
    WithTimeParts(WithDateParts(data, c, parsed), c, parsed)
  }

  /** The date parts of `c` hold the components of `parsed`; other columns are untouched. */
  lemma WithDatePartsAt(data: map<Column, seq<Cell>>, c: Column, parsed: seq<Cell>, k: Column)
    ensures k in WithDateParts(data, c, parsed) <==> k in data || k in PartColumns(c)[..3]
    ensures k in PartColumns(c)[..3] ==> WithDateParts(data, c, parsed)[k] == DatePartColumn(parsed, k.part)
    ensures k !in PartColumns(c)[..3] && k in data ==> WithDateParts(data, c, parsed)[k] == data[k]
  {
    assert PartColumns(c)[..3] == [Part(c, Year), Part(c, Month), Part(c, Day)];
  }

  /** The time parts of `c` hold the components of `parsed`; other columns are untouched. */
  lemma WithTimePartsAt(data: map<Column, seq<Cell>>, c: Column, parsed: seq<Cell>, k: Column)
    ensures k in WithTimeParts(data, c, parsed) <==> k in data || k in PartColumns(c)[3..]
    ensures k in PartColumns(c)[3..] ==> WithTimeParts(data, c, parsed)[k] == DatePartColumn(parsed, k.part)
    ensures k !in PartColumns(c)[3..] && k in data ==> WithTimeParts(data, c, parsed)[k] == data[k]
  {
    assert PartColumns(c)[3..] == [Part(c, Hour), Part(c, Minute), Part(c, WeekdayPart)];
  }

  /**
   * One pass of the loop, column by column: `c` holds its parsed timestamps, each
   * `{c}_{part}` column the part of them, and every other column is as it was.
   */
  lemma DecomposeOneAt(data: map<Column, seq<Cell>>, c: Column, k: Column)
    requires c in data && !c.Part?
    requires k in data || (k.Part? && k.source == c)
    ensures k in DecomposeOne(data, c)
    ensures DecomposeOne(data, c)[k] ==
      if k == c then ParseColumn(data[c])
      else if k.Part? && k.source == c then DatePartColumn(ParseColumn(data[c]), k.part)
      else data[k]
  {
    var parsed := ParseColumn(data[c]);
    var d := data[c := parsed];
    WithDatePartsAt(d, c, parsed, k);
    WithTimePartsAt(WithDateParts(d, c, parsed), c, parsed, k);
    if k.Part? && k.source == c {
      assert k == Part(c, k.part);
      PartColumnsCover(c, k.part);
      assert PartColumns(c) == PartColumns(c)[..3] + PartColumns(c)[3..];
    }
  }

  /** `df[f'{c}_year']`, `_month` and `_day`. */
  method AppendDateParts(df: DataFrame, c: Column, parsed: seq<Cell>)
    requires df.Valid() && |parsed| == df.height
    requires Part(c, Year) !in df.columns && Part(c, Month) !in df.columns && Part(c, Day) !in df.columns
    modifies df
    ensures df.Valid() && df.height == old(df.height)
    ensures df.columns == old(df.columns) + [Part(c, Year), Part(c, Month), Part(c, Day)]
    ensures df.data == WithDateParts(old(df.data), c, parsed)
  {
    df.Assign(Part(c, Year), DatePartColumn(parsed, Year));
    df.Assign(Part(c, Month), DatePartColumn(parsed, Month));
    df.Assign(Part(c, Day), DatePartColumn(parsed, Day));
  }

  /** `df[f'{c}_hour']`, `_minute` and `_weekday`. */
  method AppendTimeParts(df: DataFrame, c: Column, parsed: seq<Cell>)
    requires df.Valid() && |parsed| == df.height
    requires Part(c, Hour) !in df.columns && Part(c, Minute) !in df.columns && Part(c, WeekdayPart) !in df.columns
    modifies df
    ensures df.Valid() && df.height == old(df.height)
    ensures df.columns == old(df.columns) + [Part(c, Hour), Part(c, Minute), Part(c, WeekdayPart)]
    ensures df.data == WithTimeParts(old(df.data), c, parsed)
  {
    df.Assign(Part(c, Hour), DatePartColumn(parsed, Hour));
    df.Assign(Part(c, Minute), DatePartColumn(parsed, Minute));
    df.Assign(Part(c, WeekdayPart), DatePartColumn(parsed, WeekdayPart));
  }

  /** The six `df[f'{c}_{part}'] = df[c].dt.<part>` assignments of one loop pass. */
  method AppendParts(df: DataFrame, c: Column, parsed: seq<Cell>)
    requires df.Valid() && |parsed| == df.height
    requires forall p: DatePart :: Part(c, p) !in df.columns
    modifies df
    ensures df.Valid() && df.height == old(df.height)
    ensures df.columns == old(df.columns) + PartColumns(c)
    ensures df.data == WithParts(old(df.data), c, parsed)
  {
    assert Part(c, Year) !in df.columns && Part(c, Month) !in df.columns && Part(c, Day) !in df.columns;
    assert Part(c, Hour) !in df.columns && Part(c, Minute) !in df.columns && Part(c, WeekdayPart) !in df.columns;
    AppendDateParts(df, c, parsed);
    AppendTimeParts(df, c, parsed);
  }

  /**
   * One pass of the decomposition loop: column `c` is parsed in place, and,
   * when its timestamps share one offset, its six components are appended.
   */
  method DecomposeColumn(df: DataFrame, c: Column) returns (uniform: bool)
    requires df.Valid() && c in df.columns
    requires forall p: DatePart :: Part(c, p) !in df.columns
    modifies df
    ensures df.Valid() && df.height == old(df.height)
    ensures uniform == UniformOffset(ParseColumn(old(df.data[c])))
    ensures uniform ==> df.columns == old(df.columns) + PartColumns(c)
    ensures uniform ==> df.data == DecomposeOne(old(df.data), c)
  {
    var parsed := ParseColumn(df.data[c]);
    df.Assign(c, parsed);
    uniform := UniformOffset(parsed);
    if uniform {
      AppendParts(df, c, parsed);
    }
  }

  /**
   * The decomposition loop over the two timestamp columns; a column whose
   * timestamps carry different offsets fails at `.dt`.
   */
  method DecomposeTimestamps(df: DataFrame) returns (failure: Option<CleanError>)
    requires df.Valid()
    requires StartTimestamp in df.columns && EndTimestamp in df.columns
    requires forall c | c in df.columns :: !c.Part?
    modifies df
    ensures df.Valid() && df.height == old(df.height)
    ensures failure.Some? ==> (
      && failure.value.MixedOffsets?
      && failure.value.column in DATETIME_COLUMNS
      && !UniformOffset(ParseColumn(old(df.data)[failure.value.column])))
    ensures failure == Some(MixedOffsets(EndTimestamp)) ==> UniformOffset(ParseColumn(old(df.data)[StartTimestamp]))
    ensures failure.None? ==> forall c | c in DATETIME_COLUMNS :: UniformOffset(ParseColumn(old(df.data)[c]))
    ensures failure.None? ==> df.columns == old(df.columns) + PartColumns(StartTimestamp) + PartColumns(EndTimestamp)
    ensures failure.None? ==> df.data == DecomposeOne(DecomposeOne(old(df.data), StartTimestamp), EndTimestamp)
  {
    ghost var data0 := df.data;
    ghost var columns0 := df.columns;
    for i := 0 to |DATETIME_COLUMNS|
      invariant df.Valid() && df.height == old(df.height)
      invariant df.columns == Decomposed(columns0, DATETIME_COLUMNS[..i])
      invariant df.data == DecomposedCells(data0, DATETIME_COLUMNS[..i])
      invariant forall j | 0 <= j < i :: UniformOffset(ParseColumn(data0[DATETIME_COLUMNS[j]]))
    {
      var uniform := DecomposePass(df, data0, columns0, i);
      if !uniform {
        return Some(MixedOffsets(DATETIME_COLUMNS[i]));
      }
    }
    BothDecomposed(columns0);
    BothDecomposedCells(data0);
    return None;
  }

  /** Pass `i` of the decomposition loop, on the frame the earlier passes left. */
  method DecomposePass(df: DataFrame, ghost data0: map<Column, seq<Cell>>, ghost columns0: seq<Column>, i: nat)
    returns (uniform: bool)
    requires df.Valid() && i < |DATETIME_COLUMNS|
    requires StartTimestamp in columns0 && EndTimestamp in columns0
    requires forall c | c in columns0 :: !c.Part?
    requires StartTimestamp in data0 && EndTimestamp in data0
    requires df.columns == Decomposed(columns0, DATETIME_COLUMNS[..i])
    requires df.data == DecomposedCells(data0, DATETIME_COLUMNS[..i])
    modifies df
    ensures df.Valid() && df.height == old(df.height)
    ensures uniform == UniformOffset(ParseColumn(data0[DATETIME_COLUMNS[i]]))
    ensures uniform ==> df.columns == Decomposed(columns0, DATETIME_COLUMNS[..i + 1])
    ensures uniform ==> df.data == DecomposedCells(data0, DATETIME_COLUMNS[..i + 1])
  {
    var c := DATETIME_COLUMNS[i];
    assert DATETIME_COLUMNS[..i + 1] == DATETIME_COLUMNS[..i] + [c];
    ReadyToDecompose(columns0, i);
    DecomposedCellsStep(data0, i);
    uniform := DecomposeColumn(df, c);
  }

  /** Before pass `i`, its column is present and none of its components is. */
  lemma ReadyToDecompose(columns: seq<Column>, i: nat)
    requires i < |DATETIME_COLUMNS|
    requires StartTimestamp in columns && EndTimestamp in columns
    requires forall c | c in columns :: !c.Part?
    ensures DATETIME_COLUMNS[i] in Decomposed(columns, DATETIME_COLUMNS[..i])
    ensures forall p: DatePart :: Part(DATETIME_COLUMNS[i], p) !in Decomposed(columns, DATETIME_COLUMNS[..i])
  {
    if i == 0 {
      assert DATETIME_COLUMNS[..i] == [];
    } else {
      assert DATETIME_COLUMNS[..i] == [StartTimestamp];
      assert Decomposed(columns, [StartTimestamp]) == columns + PartColumns(StartTimestamp) by {
        assert [StartTimestamp][..0] == [];
      }
    }
  }

  /** After both passes, the twelve components follow the original columns. */
  lemma BothDecomposed(columns: seq<Column>)
    ensures Decomposed(columns, DATETIME_COLUMNS[..|DATETIME_COLUMNS|])
      == columns + PartColumns(StartTimestamp) + PartColumns(EndTimestamp)
  {
    var both := DATETIME_COLUMNS[..|DATETIME_COLUMNS|];
    assert both == [StartTimestamp, EndTimestamp] && both[..1] == [StartTimestamp];
    assert [StartTimestamp][..0] == [];
    assert Decomposed(columns, [StartTimestamp]) == columns + PartColumns(StartTimestamp);
  }

  /** Pass `i` of the loop decomposes one more column of the cells. */
  lemma DecomposedCellsStep(data: map<Column, seq<Cell>>, i: nat)
    requires StartTimestamp in data && EndTimestamp in data && i < |DATETIME_COLUMNS|
    ensures DATETIME_COLUMNS[i] in DecomposedCells(data, DATETIME_COLUMNS[..i])
    ensures DecomposedCells(data, DATETIME_COLUMNS[..i])[DATETIME_COLUMNS[i]] == data[DATETIME_COLUMNS[i]]
    ensures DecomposedCells(data, DATETIME_COLUMNS[..i + 1])
      == DecomposeOne(DecomposedCells(data, DATETIME_COLUMNS[..i]), DATETIME_COLUMNS[i])
  {
    assert DATETIME_COLUMNS[..i + 1][..i] == DATETIME_COLUMNS[..i];
    if i == 1 {
      assert DATETIME_COLUMNS[..1] == [StartTimestamp] && [StartTimestamp][..0] == [];
      assert DecomposedCells(data, [StartTimestamp]) == DecomposeOne(data, StartTimestamp);
      WithDatePartsAt(data[StartTimestamp := ParseColumn(data[StartTimestamp])], StartTimestamp,
        ParseColumn(data[StartTimestamp]), EndTimestamp);
      WithTimePartsAt(WithDateParts(data[StartTimestamp := ParseColumn(data[StartTimestamp])], StartTimestamp,
        ParseColumn(data[StartTimestamp])), StartTimestamp, ParseColumn(data[StartTimestamp]), EndTimestamp);
    }
  }

  /** After both passes, the start column's parts are added, then the end column's. */
  lemma BothDecomposedCells(data: map<Column, seq<Cell>>)
    requires StartTimestamp in data && EndTimestamp in data
    ensures DecomposedCells(data, DATETIME_COLUMNS[..|DATETIME_COLUMNS|])
      == DecomposeOne(DecomposeOne(data, StartTimestamp), EndTimestamp)
  {
    var both := DATETIME_COLUMNS[..|DATETIME_COLUMNS|];
    assert both == [StartTimestamp, EndTimestamp] && both[..1] == [StartTimestamp];
    assert [StartTimestamp][..0] == [];
    assert DecomposedCells(data, [StartTimestamp]) == DecomposeOne(data, StartTimestamp);
  }

  /** `has_distance`, taken before `distance_mi` is filled with 0.0. */
  method FlagAndFillDistance(df: DataFrame)
    requires df.Valid() && DistanceMi in df.columns && HasDistance !in df.columns
    modifies df
    ensures df.Valid() && df.height == old(df.height)
    ensures df.columns == old(df.columns) + [HasDistance]
    ensures df.data == old(df.data)
      [HasDistance := PresenceFlags(old(df.data[DistanceMi]))]
      [DistanceMi := FillMissing(old(df.data[DistanceMi]), Num(0.0))]
  {
    df.Assign(HasDistance, PresenceFlags(df.data[DistanceMi]));
    df.Assign(DistanceMi, FillMissing(df.data[DistanceMi], Num(0.0)));
  }

  /** The other three constant fills. */
  method FillZeros(df: DataFrame)
    requires df.Valid() && ActiveEnergyKcal in df.columns && BasalEnergyKcal in df.columns && AvgMets in df.columns
    modifies df
    ensures df.Valid() && df.height == old(df.height) && df.columns == old(df.columns)
    ensures df.data == old(df.data)
      [ActiveEnergyKcal := FillMissing(old(df.data[ActiveEnergyKcal]), Num(0.0))]
      [BasalEnergyKcal := FillMissing(old(df.data[BasalEnergyKcal]), Num(0.0))]
      [AvgMets := FillMissing(old(df.data[AvgMets]), Num(0.0))]
  {
    df.Assign(ActiveEnergyKcal, FillMissing(df.data[ActiveEnergyKcal], Num(0.0)));
    df.Assign(BasalEnergyKcal, FillMissing(df.data[BasalEnergyKcal], Num(0.0)));
    df.Assign(AvgMets, FillMissing(df.data[AvgMets], Num(0.0)));
  }

  /** The two median fills. */
  method FillWeather(df: DataFrame)
    requires df.Valid() && WeatherTempF in df.columns && WeatherHumidityPct in df.columns
    modifies df
    ensures df.Valid() && df.height == old(df.height) && df.columns == old(df.columns)
    ensures df.data == old(df.data)
      [WeatherTempF := FillMedian(old(df.data[WeatherTempF]))]
      [WeatherHumidityPct := FillMedian(old(df.data[WeatherHumidityPct]))]
  {
    df.Assign(WeatherTempF, FillMedian(df.data[WeatherTempF]));
    df.Assign(WeatherHumidityPct, FillMedian(df.data[WeatherHumidityPct]));
  }

  /** The mode fill of `is_indoor`; `false` when the column has no value to take the mode of. */
  method FillIndoor(df: DataFrame) returns (filled: bool)
    requires df.Valid() && IsIndoor in df.columns
    modifies df
    ensures df.Valid() && df.height == old(df.height) && df.columns == old(df.columns)
    ensures filled <==> FillMode(old(df.data[IsIndoor])).Some?
    ensures filled ==> df.data == old(df.data)[IsIndoor := FillMode(old(df.data[IsIndoor])).value]
  {
    var mode := FillMode(df.data[IsIndoor]);
    if mode.None? {
      return false;
    }
    df.Assign(IsIndoor, mode.value);
    return true;
  }

  /** Alternating runs of removed and kept names: what is left is the kept runs. */
  lemma DropRuns(g1: seq<Column>, k1: seq<Column>, g2: seq<Column>, k2: seq<Column>, g3: seq<Column>, k3: seq<Column>, gone: set<Column>)
    requires forall i | 0 <= i < |g1| :: g1[i] in gone
    requires forall i | 0 <= i < |g2| :: g2[i] in gone
    requires forall i | 0 <= i < |g3| :: g3[i] in gone
    requires forall i | 0 <= i < |k1| :: k1[i] !in gone
    requires forall i | 0 <= i < |k2| :: k2[i] !in gone
    requires forall i | 0 <= i < |k3| :: k3[i] !in gone
    ensures Without(g1 + k1 + g2 + k2 + g3 + k3, gone) == k1 + k2 + k3
  {
    assert [] + g1 + k1 == g1 + k1;
    DropRun([], g1, k1, gone);
    DropRun(g1 + k1, g2, k2, gone);
    DropRun(g1 + k1 + g2 + k2, g3, k3, gone);
  }

  /** One run of removed names followed by one run of kept names. */
  lemma DropRun(prefix: seq<Column>, g: seq<Column>, k: seq<Column>, gone: set<Column>)
    requires forall i | 0 <= i < |g| :: g[i] in gone
    requires forall i | 0 <= i < |k| :: k[i] !in gone
    ensures Without(prefix + g + k, gone) == Without(prefix, gone) + k
  {
    var front := prefix + g;
    WithoutConcat(front, k, gone);
    WithoutConcat(prefix, g, gone);
    WithoutDropsAll(g, gone);
    WithoutKeepsAll(k, gone);
    assert Without(front, gone) == Without(prefix, gone);
  }

  /** `WITH_FLAG` as runs of dropped and kept names. */
  lemma WithFlagRuns()
    ensures WITH_FLAG == [WorkoutType, StartTimestamp, EndTimestamp] + [DurationMin]
      + [SourceName, SourceVersion, DeviceModelColumn, CreationTimestamp]
      + [ActiveEnergyKcal, BasalEnergyKcal, DistanceMi, IsIndoor, AvgMets, WeatherTempF, WeatherHumidityPct, TimeZone]
      + [NumSegments] + ([WorkoutTypeEncoded] + PartColumns(StartTimestamp) + PartColumns(EndTimestamp) + [HasDistance])
  {
  }

  /** Removing `DROPPED` from the columns present at that point leaves `KEPT`. */
  lemma DroppedLeavesKept()
    ensures Without(WITH_FLAG, DROPPED) == KEPT
  {
    WithFlagRuns();
    DropRuns([WorkoutType, StartTimestamp, EndTimestamp], [DurationMin],
      [SourceName, SourceVersion, DeviceModelColumn, CreationTimestamp],
      [ActiveEnergyKcal, BasalEnergyKcal, DistanceMi, IsIndoor, AvgMets, WeatherTempF, WeatherHumidityPct, TimeZone],
      [NumSegments], [WorkoutTypeEncoded] + PartColumns(StartTimestamp) + PartColumns(EndTimestamp) + [HasDistance], DROPPED);
  }

  /** `KEPT` with the encoded time zone appended, as runs around `time_zone`. */
  lemma EncodedTimeZoneRuns()
    ensures KEPT + [TimeZoneEncoded] == [] + [DurationMin, ActiveEnergyKcal, BasalEnergyKcal, DistanceMi, IsIndoor, AvgMets, WeatherTempF, WeatherHumidityPct]
      + [TimeZone] + ([WorkoutTypeEncoded] + PartColumns(StartTimestamp) + PartColumns(EndTimestamp) + [HasDistance, TimeZoneEncoded])
      + [] + []
    ensures CLEANED_COLUMNS == [DurationMin, ActiveEnergyKcal, BasalEnergyKcal, DistanceMi, IsIndoor, AvgMets, WeatherTempF, WeatherHumidityPct]
      + ([WorkoutTypeEncoded] + PartColumns(StartTimestamp) + PartColumns(EndTimestamp) + [HasDistance, TimeZoneEncoded]) + []
  {
  }

  /** Removing `time_zone` once it is encoded leaves the cleaned columns. */
  lemma TimeZoneDropLeavesCleaned()
    ensures Without(KEPT + [TimeZoneEncoded], {TimeZone}) == CLEANED_COLUMNS
  {
    EncodedTimeZoneRuns();
    DropRuns([], [DurationMin, ActiveEnergyKcal, BasalEnergyKcal, DistanceMi, IsIndoor, AvgMets, WeatherTempF, WeatherHumidityPct],
      [TimeZone], [WorkoutTypeEncoded] + PartColumns(StartTimestamp) + PartColumns(EndTimestamp) + [HasDistance, TimeZoneEncoded],
      [], [], {TimeZone});
  }

  /** Step 4: the eight unneeded columns go. */
  method DropUnneeded(df: DataFrame)
    requires df.Valid() && df.columns == WITH_FLAG
    modifies df
    ensures df.Valid() && df.height == old(df.height)
    ensures df.columns == KEPT && df.data == Remove(old(df.data), DROPPED)
  {
    var absent := df.Drop(DROPPED);
    if absent.Some? {
      assert false;
    }
    DroppedLeavesKept();
  }

  /** Where `time_zone` stands among the kept columns. */
  lemma TimeZoneIsKept()
    ensures TimeZone in KEPT && TimeZoneEncoded !in KEPT
  {
    assert KEPT[8] == TimeZone;
  }

  /** `df = df.drop(columns=['time_zone'])` once its codes are appended. */
  method DropTimeZone(df: DataFrame)
    requires df.Valid() && df.columns == KEPT + [TimeZoneEncoded]
    modifies df
    ensures df.Valid() && df.height == old(df.height)
    ensures df.columns == CLEANED_COLUMNS && df.data == Remove(old(df.data), {TimeZone})
  {
    TimeZoneIsKept();
    var absent := df.Drop({TimeZone});
    if absent.Some? {
      assert false;
    }
    TimeZoneDropLeavesCleaned();
  }

  /** Step 5: `time_zone` is encoded, and the text column goes. */
  method EncodeTimeZone(df: DataFrame) returns (encoder: Encoding.Encoder)
    requires df.Valid() && df.columns == KEPT
    requires Encoding.AllCategories(df.data[TimeZone])
    modifies df
    ensures df.Valid() && df.height == old(df.height)
    ensures df.columns == CLEANED_COLUMNS
    ensures encoder == Encoding.Fit(old(df.data[TimeZone])).value
    ensures df.data == Remove(old(df.data)[TimeZoneEncoded := EncodedColumn(old(df.data[TimeZone]))], {TimeZone})
  {
    TimeZoneIsKept();
    encoder := EncodeColumn(df, TimeZone, TimeZoneEncoded);
    DropTimeZone(df);
  }

  // ---------------------------------------------------------------------------
  // The whole script, column by column
  // ---------------------------------------------------------------------------

  /** The names the extraction writes: every name but the derived and foreign ones. */
  predicate InHeader(c: Column)
  {
    !(c.Part? || c.WorkoutTypeEncoded? || c.HasDistance? || c.TimeZoneEncoded? || c.PredictedWorkoutType? || c.Other?)
  }

  /** `HEADER` lists exactly those names. */
  lemma HeaderColumns(c: Column)
    ensures c in HEADER <==> InHeader(c)
  {
    if c in HEADER {
      var i :| 0 <= i < |HEADER| && HEADER[i] == c;
    } else if InHeader(c) {
      HeaderListsAll(c);
    }
  }

  lemma HeaderNames()
    ensures forall c :: c in HEADER <==> InHeader(c)
  {
    forall c
      ensures c in HEADER <==> InHeader(c)
    {
      HeaderColumns(c);
    }
  }

  lemma HeaderListsAll(c: Column)
    requires InHeader(c)
    ensures c in HEADER
  {
    match c
    case WorkoutType => assert HEADER[0] == c;
    case StartTimestamp => assert HEADER[1] == c;
    case EndTimestamp => assert HEADER[2] == c;
    case DurationMin => assert HEADER[3] == c;
    case SourceName => assert HEADER[4] == c;
    case SourceVersion => assert HEADER[5] == c;
    case DeviceModelColumn => assert HEADER[6] == c;
    case CreationTimestamp => assert HEADER[7] == c;
    case ActiveEnergyKcal => assert HEADER[8] == c;
    case BasalEnergyKcal => assert HEADER[9] == c;
    case DistanceMi => assert HEADER[10] == c;
    case IsIndoor => assert HEADER[11] == c;
    case AvgMets => assert HEADER[12] == c;
    case WeatherTempF => assert HEADER[13] == c;
    case WeatherHumidityPct => assert HEADER[14] == c;
    case TimeZone => assert HEADER[15] == c;
    case NumSegments => assert HEADER[16] == c;
    case _ =>
  }

  /** The names present once `workout_type` is encoded and the timestamps decomposed. */
  predicate IsPrepared(c: Column)
  {
    InHeader(c) || c == WorkoutTypeEncoded || (c.Part? && (c.source == StartTimestamp || c.source == EndTimestamp))
  }

  /** `PREPARED_COLUMNS` lists exactly those names. */
  lemma PreparedColumnsAre(c: Column)
    ensures c in PREPARED_COLUMNS <==> IsPrepared(c)
  {
    HeaderColumns(c);
    assert c in PREPARED_COLUMNS <==>
      c in HEADER || c == WorkoutTypeEncoded || c in PartColumns(StartTimestamp) || c in PartColumns(EndTimestamp);
    if c.Part? && (c.source == StartTimestamp || c.source == EndTimestamp) {
      assert c == Part(c.source, c.part);
      PartColumnsCover(c.source, c.part);
    }
  }

  /** A table as `read_csv` gives it: one column per header name. */
  ghost predicate IsRead(raw: map<Column, seq<Cell>>)
  {
    forall c | InHeader(c) :: c in raw
  }

  /** Column `c` of the table as read; a name that is not in the header has no cells. */
  function Col(raw: map<Column, seq<Cell>>, c: Column): seq<Cell>
  {
    if c in raw then raw[c] else []
  }

  /** A column once `workout_type` is encoded and the timestamp columns are decomposed. */
  function PreparedColumn(raw: map<Column, seq<Cell>>, c: Column): seq<Cell>
  {
    if c == StartTimestamp || c == EndTimestamp then ParseColumn(Col(raw, c))
    else if c == WorkoutTypeEncoded then EncodedColumn(Col(raw, WorkoutType))
    else if c.Part? then DatePartColumn(ParseColumn(Col(raw, c.source)), c.part)
    else Col(raw, c)
  }

  /** A column once `has_distance` is added and the missing values are filled. */
  function ImputedColumn(raw: map<Column, seq<Cell>>, c: Column): seq<Cell>
  {
    if c == HasDistance then PresenceFlags(Col(raw, DistanceMi))
    else if c == DistanceMi || c == ActiveEnergyKcal || c == BasalEnergyKcal || c == AvgMets then FillMissing(Col(raw, c), Num(0.0))
    else if c == WeatherTempF || c == WeatherHumidityPct then FillMedian(Col(raw, c))
    else if c == IsIndoor then (match FillMode(Col(raw, c)) case Some(filled) => filled case None => Col(raw, c))
    else PreparedColumn(raw, c)
  }

  /** A column of the cleaned table. */
  function CleanedColumn(raw: map<Column, seq<Cell>>, c: Column): seq<Cell>
  {
    if c == TimeZoneEncoded then EncodedColumn(Col(raw, TimeZone)) else ImputedColumn(raw, c)
  }

  /** The cells once the codes of `workout_type` are appended. */
  function EncodedData(raw: map<Column, seq<Cell>>): map<Column, seq<Cell>>
    requires WorkoutType in raw
  {
    raw[WorkoutTypeEncoded := EncodedColumn(raw[WorkoutType])]
  }

  /** The cells after the decomposition loop. */
  function DecomposedData(raw: map<Column, seq<Cell>>): map<Column, seq<Cell>>
    requires WorkoutType in raw && StartTimestamp in raw && EndTimestamp in raw
  {
    DecomposeOne(DecomposeOne(EncodedData(raw), StartTimestamp), EndTimestamp)
  }

  /** After the decomposition loop, a component of `start_timestamp` holds the parts of its parsed timestamps. */
  lemma PreparedStartPartAt(raw: map<Column, seq<Cell>>, c: Column)
    requires WorkoutType in raw && StartTimestamp in raw && EndTimestamp in raw
    requires c.Part? && c.source == StartTimestamp
    ensures c in DecomposedData(raw) && DecomposedData(raw)[c] == PreparedColumn(raw, c)
  {
    var d1 := EncodedData(raw);
    DecomposeOneAt(d1, StartTimestamp, EndTimestamp);
    DecomposeOneAt(d1, StartTimestamp, c);
    DecomposeOneAt(DecomposeOne(d1, StartTimestamp), EndTimestamp, c);
  }

  /** After the decomposition loop, a component of `end_timestamp` holds the parts of its parsed timestamps. */
  lemma PreparedEndPartAt(raw: map<Column, seq<Cell>>, c: Column)
    requires WorkoutType in raw && StartTimestamp in raw && EndTimestamp in raw
    requires c.Part? && c.source == EndTimestamp
    ensures c in DecomposedData(raw) && DecomposedData(raw)[c] == PreparedColumn(raw, c)
  {
    var d1 := EncodedData(raw);
    DecomposeOneAt(d1, StartTimestamp, EndTimestamp);
    DecomposeOneAt(DecomposeOne(d1, StartTimestamp), EndTimestamp, c);
  }

  /** After the decomposition loop, a header column or the `workout_type` codes hold their prepared cells. */
  lemma PreparedRawAt(raw: map<Column, seq<Cell>>, c: Column)
    requires WorkoutType in raw && StartTimestamp in raw && EndTimestamp in raw
    requires c == WorkoutTypeEncoded || (c in raw && !c.Part?)
    ensures c in DecomposedData(raw) && DecomposedData(raw)[c] == PreparedColumn(raw, c)
  {
    var d1 := EncodedData(raw);
    var d2 := DecomposeOne(d1, StartTimestamp);
    DecomposeOneAt(d1, StartTimestamp, EndTimestamp);
    DecomposeOneAt(d1, StartTimestamp, c);
    DecomposeOneAt(d2, EndTimestamp, c);
  }

  /** `d` holds every prepared column of the table read as `raw`. */
  ghost predicate PreparedTable(d: map<Column, seq<Cell>>, raw: map<Column, seq<Cell>>)
  {
    forall c | IsPrepared(c) :: c in d && d[c] == PreparedColumn(raw, c)
  }

  /** After the decomposition loop, every column holds its prepared cells. */
  lemma PreparedData(raw: map<Column, seq<Cell>>)
    requires IsRead(raw)
    ensures WorkoutType in raw && StartTimestamp in raw && EndTimestamp in raw
    ensures PreparedTable(DecomposedData(raw), raw)
  {
    assert InHeader(WorkoutType) && InHeader(StartTimestamp) && InHeader(EndTimestamp);
    forall c | IsPrepared(c)
      ensures c in DecomposedData(raw) && DecomposedData(raw)[c] == PreparedColumn(raw, c)
    {
      if c.Part? {
        if c.source == StartTimestamp {
          PreparedStartPartAt(raw, c);
        } else {
          PreparedEndPartAt(raw, c);
        }
      } else {
        PreparedRawAt(raw, c);
      }
    }
  }

  /** `has_distance` taken, then `distance_mi` filled with 0.0. */
  function Flagged(d: map<Column, seq<Cell>>): map<Column, seq<Cell>>
    requires DistanceMi in d
  {
    d[HasDistance := PresenceFlags(d[DistanceMi])][DistanceMi := FillMissing(d[DistanceMi], Num(0.0))]
  }

  /** The three other columns filled with 0.0. */
  function ZeroFilled(d: map<Column, seq<Cell>>): map<Column, seq<Cell>>
    requires ActiveEnergyKcal in d && BasalEnergyKcal in d && AvgMets in d
  {
    d[ActiveEnergyKcal := FillMissing(d[ActiveEnergyKcal], Num(0.0))]
     [BasalEnergyKcal := FillMissing(d[BasalEnergyKcal], Num(0.0))]
     [AvgMets := FillMissing(d[AvgMets], Num(0.0))]
  }

  /** The two weather columns filled with their medians. */
  function MedianFilled(d: map<Column, seq<Cell>>): map<Column, seq<Cell>>
    requires WeatherTempF in d && WeatherHumidityPct in d
  {
    d[WeatherTempF := FillMedian(d[WeatherTempF])][WeatherHumidityPct := FillMedian(d[WeatherHumidityPct])]
  }

  /** The cells once `has_distance` is added and the constant and median fills have run. */
  function FilledData(d: map<Column, seq<Cell>>): map<Column, seq<Cell>>
    requires DistanceMi in d && ActiveEnergyKcal in d && BasalEnergyKcal in d && AvgMets in d
    requires WeatherTempF in d && WeatherHumidityPct in d
  {
    MedianFilled(ZeroFilled(Flagged(d)))
  }

  /** The flag, the constant fills and the median fills, in the script's order. */
  method FillNumbers(df: DataFrame)
    requires df.Valid() && HasDistance !in df.columns
    requires DistanceMi in df.columns && ActiveEnergyKcal in df.columns && BasalEnergyKcal in df.columns
    requires AvgMets in df.columns && WeatherTempF in df.columns && WeatherHumidityPct in df.columns
    modifies df
    ensures df.Valid() && df.height == old(df.height)
    ensures df.columns == old(df.columns) + [HasDistance]
    ensures df.data == FilledData(old(df.data))
  {
    FlagAndFillDistance(df);
    assert df.data == Flagged(old(df.data));
    FillZeros(df);
    FillWeather(df);
  }

  lemma FlaggedAt(d: map<Column, seq<Cell>>, k: Column)
    requires DistanceMi in d
    requires k in d || k == HasDistance
    ensures k in Flagged(d)
    ensures Flagged(d)[k] ==
      if k == HasDistance then PresenceFlags(d[DistanceMi])
      else if k == DistanceMi then FillMissing(d[k], Num(0.0))
      else d[k]
  {
  }

  lemma ZeroFilledAt(d: map<Column, seq<Cell>>, k: Column)
    requires ActiveEnergyKcal in d && BasalEnergyKcal in d && AvgMets in d
    requires k in d
    ensures k in ZeroFilled(d)
    ensures ZeroFilled(d)[k] ==
      if k == ActiveEnergyKcal || k == BasalEnergyKcal || k == AvgMets then FillMissing(d[k], Num(0.0))
      else d[k]
  {
  }

  lemma MedianFilledAt(d: map<Column, seq<Cell>>, k: Column)
    requires WeatherTempF in d && WeatherHumidityPct in d
    requires k in d
    ensures k in MedianFilled(d)
    ensures MedianFilled(d)[k] == if k == WeatherTempF || k == WeatherHumidityPct then FillMedian(d[k]) else d[k]
  {
  }

  /** After the flag and the fills, column by column. */
  lemma FilledAt(d: map<Column, seq<Cell>>, k: Column)
    requires DistanceMi in d && ActiveEnergyKcal in d && BasalEnergyKcal in d && AvgMets in d
    requires WeatherTempF in d && WeatherHumidityPct in d
    requires k in d || k == HasDistance
    ensures k in FilledData(d)
    ensures FilledData(d)[k] ==
      if k == HasDistance then PresenceFlags(d[DistanceMi])
      else if k == DistanceMi || k == ActiveEnergyKcal || k == BasalEnergyKcal || k == AvgMets then FillMissing(d[k], Num(0.0))
      else if k == WeatherTempF || k == WeatherHumidityPct then FillMedian(d[k])
      else d[k]
  {
    var d1 := Flagged(d);
    var d2 := ZeroFilled(d1);
    FlaggedAt(d, ActiveEnergyKcal);
    FlaggedAt(d, BasalEnergyKcal);
    FlaggedAt(d, AvgMets);
    FlaggedAt(d, WeatherTempF);
    FlaggedAt(d, WeatherHumidityPct);
    ZeroFilledAt(d1, WeatherTempF);
    ZeroFilledAt(d1, WeatherHumidityPct);
    FlaggedAt(d, k);
    ZeroFilledAt(d1, k);
    MedianFilledAt(d2, k);
    if k == HasDistance || k == DistanceMi {
    } else if k == ActiveEnergyKcal || k == BasalEnergyKcal || k == AvgMets {
      assert d1[k] == d[k];
    } else if k == WeatherTempF || k == WeatherHumidityPct {
      assert d2[k] == d[k];
    } else {
      assert d2[k] == d[k];
    }
  }

  /** `is_indoor` filled with its mode. */
  function IndoorFilled(d: map<Column, seq<Cell>>): map<Column, seq<Cell>>
    requires IsIndoor in d && FillMode(d[IsIndoor]).Some?
  {
    d[IsIndoor := FillMode(d[IsIndoor]).value]
  }

  /** `time_zone` encoded into `time_zone_encoded`, and the text column gone. */
  function TimeZoneEncodedData(d: map<Column, seq<Cell>>): map<Column, seq<Cell>>
    requires TimeZone in d
  {
    Remove(d[TimeZoneEncoded := EncodedColumn(d[TimeZone])], {TimeZone})
  }

  /** `d` holds every imputed column of the table read as `raw`. */
  ghost predicate ImputedTable(d: map<Column, seq<Cell>>, raw: map<Column, seq<Cell>>)
  {
    forall c | IsPrepared(c) || c == HasDistance :: c in d && d[c] == ImputedColumn(raw, c)
  }

  /** A header column other than the timestamps is still as it was read. */
  lemma PreparedUntouched(d: map<Column, seq<Cell>>, raw: map<Column, seq<Cell>>, c: Column)
    requires PreparedTable(d, raw)
    requires InHeader(c) && c != StartTimestamp && c != EndTimestamp
    ensures c in d && d[c] == Col(raw, c)
  {
  }

  /** The imputed cells: the flag and the fills, then `is_indoor` filled with its mode. */
  function Imputed(d: map<Column, seq<Cell>>): map<Column, seq<Cell>>
    requires DistanceMi in d && ActiveEnergyKcal in d && BasalEnergyKcal in d && AvgMets in d
    requires WeatherTempF in d && WeatherHumidityPct in d && IsIndoor in d
    requires FillMode(d[IsIndoor]).Some?
  {
    FilledData(d)[IsIndoor := FillMode(d[IsIndoor]).value]
  }

  /** After the imputation, a column holds its imputed cells. */
  lemma ImputedAt(d: map<Column, seq<Cell>>, raw: map<Column, seq<Cell>>, c: Column)
    requires PreparedTable(d, raw)
    requires DistanceMi in d && ActiveEnergyKcal in d && BasalEnergyKcal in d && AvgMets in d
    requires WeatherTempF in d && WeatherHumidityPct in d && IsIndoor in d
    requires FillMode(d[IsIndoor]).Some?
    requires IsPrepared(c) || c == HasDistance
    ensures c in Imputed(d) && Imputed(d)[c] == ImputedColumn(raw, c)
  {
    if c == HasDistance {
      PreparedUntouched(d, raw, DistanceMi);
      FilledAt(d, c);
    } else if c == DistanceMi || c == ActiveEnergyKcal || c == BasalEnergyKcal || c == AvgMets {
      PreparedUntouched(d, raw, c);
      FilledAt(d, c);
    } else if c == WeatherTempF || c == WeatherHumidityPct {
      PreparedUntouched(d, raw, c);
      FilledAt(d, c);
    } else if c == IsIndoor {
      PreparedUntouched(d, raw, c);
    } else {
      FilledAt(d, c);
    }
  }

  /** The flag and the fills turn the prepared columns into the imputed ones. */
  lemma Imputation(d: map<Column, seq<Cell>>, raw: map<Column, seq<Cell>>)
    requires PreparedTable(d, raw)
    requires DistanceMi in d && ActiveEnergyKcal in d && BasalEnergyKcal in d && AvgMets in d
    requires WeatherTempF in d && WeatherHumidityPct in d && IsIndoor in d
    requires FillMode(d[IsIndoor]).Some?
    ensures ImputedTable(Imputed(d), raw)
  {
    forall c | IsPrepared(c) || c == HasDistance
      ensures c in Imputed(d) && Imputed(d)[c] == ImputedColumn(raw, c)
    {
      ImputedAt(d, raw, c);
    }
  }

  /** The names of the cleaned table: the kept numeric columns, the components, the flag and the codes. */
  predicate IsCleaned(c: Column)
  {
    || c == DurationMin || c == ActiveEnergyKcal || c == BasalEnergyKcal || c == DistanceMi || c == IsIndoor
    || c == AvgMets || c == WeatherTempF || c == WeatherHumidityPct || c == WorkoutTypeEncoded
    || (c.Part? && (c.source == StartTimestamp || c.source == EndTimestamp))
    || c == HasDistance || c == TimeZoneEncoded
  }

  /** `CLEANED_COLUMNS` lists exactly those names. */
  lemma CleanedColumnsAre(c: Column)
    ensures c in CLEANED_COLUMNS <==> IsCleaned(c)
  {
    var named := [DurationMin, ActiveEnergyKcal, BasalEnergyKcal, DistanceMi, IsIndoor, AvgMets,
                  WeatherTempF, WeatherHumidityPct, WorkoutTypeEncoded];
    assert CLEANED_COLUMNS == named + PartColumns(StartTimestamp) + PartColumns(EndTimestamp) + [HasDistance, TimeZoneEncoded];
    if c in named {
      var i :| 0 <= i < |named| && named[i] == c;
    }
    if c.Part? && (c.source == StartTimestamp || c.source == EndTimestamp) {
      assert c == Part(c.source, c.part);
      PartColumnsCover(c.source, c.part);
    }
    if IsCleaned(c) && !c.Part? && c != HasDistance && c != TimeZoneEncoded {
      assert c in named;
    }
  }

  /** A cleaned column is the encoded time zone, or a kept column of the imputed table. */
  lemma CleanedColumnsOrigin(c: Column)
    requires c in CLEANED_COLUMNS
    ensures c != TimeZone
    ensures c == TimeZoneEncoded || ((IsPrepared(c) || c == HasDistance) && c !in DROPPED)
  {
    PreparedColumnsAre(c);
    TimeZoneDropLeavesCleaned();
    DroppedLeavesKept();
    WithoutMembers(KEPT + [TimeZoneEncoded], {TimeZone});
    WithoutMembers(WITH_FLAG, DROPPED);
  }

  /** The drop and the time-zone encoding turn the imputed columns into the cleaned ones. */
  lemma Finishing(d: map<Column, seq<Cell>>, raw: map<Column, seq<Cell>>)
    requires ImputedTable(d, raw)
    ensures TimeZone in Remove(d, DROPPED) && Remove(d, DROPPED)[TimeZone] == Col(raw, TimeZone)
    ensures forall c | c in CLEANED_COLUMNS ::
      c in TimeZoneEncodedData(Remove(d, DROPPED)) && TimeZoneEncodedData(Remove(d, DROPPED))[c] == CleanedColumn(raw, c)
  {
    assert IsPrepared(TimeZone) && TimeZone !in DROPPED;
    forall c | c in CLEANED_COLUMNS
      ensures c in TimeZoneEncodedData(Remove(d, DROPPED)) && TimeZoneEncodedData(Remove(d, DROPPED))[c] == CleanedColumn(raw, c)
    {
      CleanedColumnsOrigin(c);
    }
  }

  /** The table as read has a column for every header name. */
  lemma RawDataIsRead(rows: seq<Workouts.RawRow>)
    ensures IsRead(RawData(rows))
  {
    forall c | InHeader(c)
      ensures c in RawData(rows)
    {
      HeaderColumns(c);
    }
  }

  /** A header column of the table as read. */
  lemma RawDataAt(rows: seq<Workouts.RawRow>, c: Column)
    requires InHeader(c)
    ensures Col(RawData(rows), c) == RawColumn(rows, c)
  {
    HeaderColumns(c);
  }

  /** The columns the fills read are present, and `is_indoor` is as it was read. */
  lemma PreparedFillInputs(d: map<Column, seq<Cell>>, raw: map<Column, seq<Cell>>)
    requires PreparedTable(d, raw)
    ensures DistanceMi in d && ActiveEnergyKcal in d && BasalEnergyKcal in d && AvgMets in d
    ensures WeatherTempF in d && WeatherHumidityPct in d && IsIndoor in d
    ensures d[IsIndoor] == Col(raw, IsIndoor)
  {
    assert IsPrepared(DistanceMi) && IsPrepared(ActiveEnergyKcal) && IsPrepared(BasalEnergyKcal) && IsPrepared(AvgMets);
    assert IsPrepared(WeatherTempF) && IsPrepared(WeatherHumidityPct);
    PreparedUntouched(d, raw, IsIndoor);
  }

  /** Steps 1 and 2: `workout_type` is encoded, then the timestamp columns are decomposed. */
  method PrepareColumns(df: DataFrame, ghost raw: map<Column, seq<Cell>>) returns (encoder: Encoding.Encoder, failure: Option<CleanError>)
    requires df.Valid() && df.data == raw && IsRead(raw)
    requires forall c | c in df.columns :: InHeader(c)
    requires Encoding.AllCategories(Col(raw, WorkoutType))
    modifies df
    ensures df.Valid() && df.height == old(df.height)
    ensures Encoding.Fit(Col(raw, WorkoutType)) == Ok(encoder)
    ensures failure == Some(MixedOffsets(StartTimestamp)) <==> !UniformOffset(ParseColumn(Col(raw, StartTimestamp)))
    ensures failure == Some(MixedOffsets(EndTimestamp)) <==>
      UniformOffset(ParseColumn(Col(raw, StartTimestamp))) && !UniformOffset(ParseColumn(Col(raw, EndTimestamp)))
    ensures failure.Some? ==> failure == Some(MixedOffsets(StartTimestamp)) || failure == Some(MixedOffsets(EndTimestamp))
    ensures failure.None? ==> df.columns == old(df.columns) + [WorkoutTypeEncoded] + PartColumns(StartTimestamp) + PartColumns(EndTimestamp)
    ensures failure.None? ==> PreparedTable(df.data, raw)
  {
    assert InHeader(WorkoutType) && InHeader(StartTimestamp) && InHeader(EndTimestamp);
    encoder := EncodeColumn(df, WorkoutType, WorkoutTypeEncoded);
    failure := DecomposeTimestamps(df);
    if failure.None? {
      PreparedData(raw);
    }
  }

  /** Step 3: the flag and the fills. `false` when `is_indoor` has no value to take the mode of. */
  method ImputeColumns(df: DataFrame, ghost raw: map<Column, seq<Cell>>) returns (filled: bool)
    requires df.Valid() && HasDistance !in df.columns && PreparedTable(df.data, raw)
    modifies df
    ensures df.Valid() && df.height == old(df.height)
    ensures filled <==> FillMode(Col(raw, IsIndoor)).Some?
    ensures filled ==> df.columns == old(df.columns) + [HasDistance] && ImputedTable(df.data, raw)
  {
    ghost var d := df.data;
    PreparedFillInputs(d, raw);
    FillNumbers(df);
    FilledAt(d, IsIndoor);
    filled := FillIndoor(df);
    if filled {
      Imputation(d, raw);
    }
  }

  /** Steps 4 and 5: the unneeded columns go, then `time_zone` is encoded and goes. */
  method FinishColumns(df: DataFrame, ghost raw: map<Column, seq<Cell>>) returns (encoder: Encoding.Encoder)
    requires df.Valid() && df.columns == WITH_FLAG && ImputedTable(df.data, raw)
    requires Encoding.AllCategories(Col(raw, TimeZone))
    modifies df
    ensures df.Valid() && df.height == old(df.height)
    ensures Encoding.Fit(Col(raw, TimeZone)) == Ok(encoder)
    ensures df.columns == CLEANED_COLUMNS
    ensures forall c | c in CLEANED_COLUMNS :: df.data[c] == CleanedColumn(raw, c)
  {
    Finishing(df.data, raw);
    DropUnneeded(df);
    encoder := EncodeTimeZone(df);
  }

  /**
   * The whole cleaning script. It stops with the first error the script would
   * raise: mixed offsets in a timestamp column (checked in loop order), then no
   * value to take the mode of in `is_indoor`. Otherwise the frame holds the
   * cleaned columns, in order, each computed from the rows as read.
   */
  method CleanWorkouts(rows: seq<Workouts.RawRow>)
    returns (df: DataFrame, workoutEncoder: Encoding.Encoder, timeZoneEncoder: Encoding.Encoder, failure: Option<CleanError>)
    ensures fresh(df) && df.Valid() && df.height == |rows|
    ensures Encoding.Fit(RawColumn(rows, WorkoutType)) == Ok(workoutEncoder)
    ensures failure == Some(MixedOffsets(StartTimestamp)) <==> !UniformOffset(ParseColumn(RawColumn(rows, StartTimestamp)))
    ensures failure == Some(MixedOffsets(EndTimestamp)) <==>
      UniformOffset(ParseColumn(RawColumn(rows, StartTimestamp))) && !UniformOffset(ParseColumn(RawColumn(rows, EndTimestamp)))
    ensures failure == Some(NoMode(IsIndoor)) <==>
      && UniformOffset(ParseColumn(RawColumn(rows, StartTimestamp)))
      && UniformOffset(ParseColumn(RawColumn(rows, EndTimestamp)))
      && FillMode(RawColumn(rows, IsIndoor)).None?
    ensures failure.None? || failure == Some(MixedOffsets(StartTimestamp)) || failure == Some(MixedOffsets(EndTimestamp))
      || failure == Some(NoMode(IsIndoor))
    ensures failure.None? ==> Encoding.Fit(RawColumn(rows, TimeZone)) == Ok(timeZoneEncoder)
    ensures failure.None? ==> df.columns == CLEANED_COLUMNS
    ensures failure.None? ==> forall c | c in CLEANED_COLUMNS :: df.data[c] == CleanedColumn(RawData(rows), c)
  {
    timeZoneEncoder := Encoding.Encoder([]);
    df := ReadWorkouts(rows);
    ghost var raw := df.data;
    RawDataIsRead(rows);
    RawDataAt(rows, WorkoutType);
    RawDataAt(rows, StartTimestamp);
    RawDataAt(rows, EndTimestamp);
    RawDataAt(rows, IsIndoor);
    RawDataAt(rows, TimeZone);
    TextColumnsAreCategorical(rows);
    forall c | c in df.columns
      ensures InHeader(c)
    {
      HeaderColumns(c);
    }
    workoutEncoder, failure := PrepareColumns(df, raw);
    if failure.Some? {
      return;
    }
    PreparedColumnsAre(HasDistance);
    var filled := ImputeColumns(df, raw);
    if !filled {
      return df, workoutEncoder, timeZoneEncoder, Some(NoMode(IsIndoor));
    }
    timeZoneEncoder := FinishColumns(df, raw);
  }

  // ---------------------------------------------------------------------------
  // What the cleaned table holds
  // ---------------------------------------------------------------------------

  /**
   * A stored code column holds, row by row, the index of the row's value among
   * the sorted distinct values: every code lies in `0..k-1`, equal values share
   * a code, the value order is the code order, and every code is used.
   */
  lemma EncodedColumnCodes(col: seq<Cell>, i: nat, j: nat)
    requires Encoding.AllCategories(col) && i < |col| && j < |col|
    ensures Encoding.Fit(col).Ok?
    ensures var classes := Encoding.Fit(col).value.classes; var r := EncodedColumn(col);
      && |r| == |col|
      && Encoding.IndexOf(classes, col[i]).Some?
      && r[i] == Num(Encoding.IndexOf(classes, col[i]).value as real)
      && (col[i] == col[j] <==> r[i] == r[j])
      && (Encoding.Before(col[i], col[j]) <==> r[i].x < r[j].x)
  {
    Encoding.FitTransformCodes(col);
    Encoding.FitClasses(col);
    var e := Encoding.Fit(col).value;
    var codes := Encoding.Transform(e, col).value;
    assert EncodedColumn(col) == CodeCells(codes);
    Encoding.TransformOrderPreserving(e, col, i, j);
    Encoding.CodeIsUnique(e, codes[i], Encoding.IndexOf(e.classes, col[i]).value);
  }

  /** Every index of the sorted distinct values is the code of some row. */
  lemma EncodedColumnDense(col: seq<Cell>, x: real)
    requires Encoding.AllCategories(col)
    requires 0.0 <= x < |Encoding.Fit(col).value.classes| as real && x == x.Floor as real
    ensures Num(x) in EncodedColumn(col)
  {
    Encoding.FitTransformCodes(col);
    var e := Encoding.Fit(col).value;
    var codes := Encoding.Transform(e, col).value;
    assert EncodedColumn(col) == CodeCells(codes);
    var n: nat := x.Floor;
    assert Encoding.FitTransform(col) == Ok((e, codes));
    assert n in codes;
    var m :| 0 <= m < |codes| && codes[m] == n;
    assert CodeCells(codes)[m] == Num(x);
  }

  /** The bounds of each component of a valid timestamp. */
  predicate InPartRange(p: DatePart, x: real)
  {
    match p
    case Year => 1677.0 <= x <= 2262.0
    case Month => 1.0 <= x <= 12.0
    case Day => 1.0 <= x <= 31.0
    case Hour => 0.0 <= x <= 23.0
    case Minute => 0.0 <= x <= 59.0
    case WeekdayPart => 0.0 <= x <= 6.0
  }

  /** A component column holds whole numbers in the component's range, or NaN where the timestamp did not parse. */
  lemma PartCellRange(c: Cell, p: DatePart)
    ensures PartCell(ParseCell(c), p).Missing? <==> ParseCell(c).Missing?
    ensures PartCell(ParseCell(c), p).Num? || PartCell(ParseCell(c), p).Missing?
    ensures PartCell(ParseCell(c), p).Num? ==>
      var x := PartCell(ParseCell(c), p).x; x == x.Floor as real && InPartRange(p, x)
  {
    var t := ParseCell(c);
    if t.Time? {
      var v := PartValue(t.t, p);
      assert (v as real).Floor == v;
      Calendar.ValidYears(t.t);
      if p == WeekdayPart {
        assert 0 <= Calendar.Components(t.t)[5] <= 6;
      }
    }
  }

  /** Cells that hold a number or NaN, as in a numeric column read from CSV. */
  predicate Numeric(col: seq<Cell>)
  {
    forall i | 0 <= i < |col| :: col[i].Num? || col[i].Missing?
  }

  /**
   * A table as read from the extracted rows: `n` rows under every header name,
   * the two label columns hold texts and NaN, the numeric columns numbers and
   * NaN, and `duration_min`, always written, numbers only.
   */
  ghost predicate ReadTable(raw: map<Column, seq<Cell>>, n: nat)
  {
    && (forall c | InHeader(c) :: c in raw && |raw[c]| == n)
    && Encoding.AllCategories(Col(raw, WorkoutType)) && Encoding.AllCategories(Col(raw, TimeZone))
    && (forall i | 0 <= i < |Col(raw, DurationMin)| :: Col(raw, DurationMin)[i].Num?)
    && Numeric(Col(raw, ActiveEnergyKcal)) && Numeric(Col(raw, BasalEnergyKcal))
    && Numeric(Col(raw, DistanceMi)) && Numeric(Col(raw, IsIndoor)) && Numeric(Col(raw, AvgMets))
    && Numeric(Col(raw, WeatherTempF)) && Numeric(Col(raw, WeatherHumidityPct))
  }

  /** The numeric fields of the rows read back as numbers and NaN; `duration_min` as numbers. */
  lemma NumericColumns(rows: seq<Workouts.RawRow>)
    ensures forall i | 0 <= i < |rows| :: RawColumn(rows, DurationMin)[i].Num?
    ensures Numeric(RawColumn(rows, ActiveEnergyKcal)) && Numeric(RawColumn(rows, BasalEnergyKcal))
    ensures Numeric(RawColumn(rows, DistanceMi)) && Numeric(RawColumn(rows, IsIndoor))
    ensures Numeric(RawColumn(rows, AvgMets)) && Numeric(RawColumn(rows, WeatherTempF))
    ensures Numeric(RawColumn(rows, WeatherHumidityPct))
  {
  }

  /** The extracted rows read back form such a table. */
  lemma RawDataIsReadTable(rows: seq<Workouts.RawRow>)
    ensures ReadTable(RawData(rows), |rows|)
  {
    TextColumnsAreCategorical(rows);
    NumericColumns(rows);
    RawDataAt(rows, WorkoutType);
    RawDataAt(rows, TimeZone);
    RawDataAt(rows, DurationMin);
    RawDataAt(rows, ActiveEnergyKcal);
    RawDataAt(rows, BasalEnergyKcal);
    RawDataAt(rows, DistanceMi);
    RawDataAt(rows, IsIndoor);
    RawDataAt(rows, AvgMets);
    RawDataAt(rows, WeatherTempF);
    RawDataAt(rows, WeatherHumidityPct);
    ReadTableOf(RawData(rows), rows);
  }

  /** A table whose columns are those of the rows is a read table. */
  lemma ReadTableOf(raw: map<Column, seq<Cell>>, rows: seq<Workouts.RawRow>)
    requires forall c | InHeader(c) :: c in raw && |raw[c]| == |rows|
    requires Col(raw, WorkoutType) == RawColumn(rows, WorkoutType) && Col(raw, TimeZone) == RawColumn(rows, TimeZone)
    requires Col(raw, DurationMin) == RawColumn(rows, DurationMin)
    requires Col(raw, ActiveEnergyKcal) == RawColumn(rows, ActiveEnergyKcal)
    requires Col(raw, BasalEnergyKcal) == RawColumn(rows, BasalEnergyKcal)
    requires Col(raw, DistanceMi) == RawColumn(rows, DistanceMi) && Col(raw, IsIndoor) == RawColumn(rows, IsIndoor)
    requires Col(raw, AvgMets) == RawColumn(rows, AvgMets) && Col(raw, WeatherTempF) == RawColumn(rows, WeatherTempF)
    requires Col(raw, WeatherHumidityPct) == RawColumn(rows, WeatherHumidityPct)
    ensures ReadTable(raw, |rows|)
  {
    TextColumnsAreCategorical(rows);
    NumericColumns(rows);
  }

  /**
   * Every cell of the cleaned table is a number or NaN, every column has one
   * cell per row, and a cell is NaN exactly when it is a component of a
   * timestamp that did not parse (all six components together) or a weather
   * cell of a column that had no value at all.
   */
  lemma CleanedCell(raw: map<Column, seq<Cell>>, n: nat, c: Column, i: nat)
    requires ReadTable(raw, n) && IsCleaned(c) && i < n
    requires FillMode(Col(raw, IsIndoor)).Some?
    ensures var col := CleanedColumn(raw, c);
      && |col| == n
      && (col[i].Num? || col[i].Missing?)
      && (col[i].Missing? <==>
          || (c.Part? && ParseCell(Col(raw, c.source)[i]).Missing?)
          || ((c == WeatherTempF || c == WeatherHumidityPct) && PresentNumbers(Col(raw, c)) == []))
  {
    if c == TimeZoneEncoded || c == WorkoutTypeEncoded {
      CleanedCodeCell(raw, n, c, i);
    } else if c.Part? {
      CleanedPartCell(raw, n, c, i);
    } else if c == WeatherTempF || c == WeatherHumidityPct {
      CleanedWeatherCell(raw, n, c, i);
    } else {
      CleanedFilledCell(raw, n, c, i);
    }
  }

  /** A cell of the two code columns is a number. */
  lemma CleanedCodeCell(raw: map<Column, seq<Cell>>, n: nat, c: Column, i: nat)
    requires ReadTable(raw, n) && (c == TimeZoneEncoded || c == WorkoutTypeEncoded) && i < n
    ensures |CleanedColumn(raw, c)| == n && CleanedColumn(raw, c)[i].Num?
  {
    var source := if c == TimeZoneEncoded then TimeZone else WorkoutType;
    assert InHeader(source);
    if c == WorkoutTypeEncoded {
      WorkoutTypeCodes(raw);
    }
    EncodedColumnCodes(Col(raw, source), i, i);
  }

  /** The `workout_type` codes are the stored encoding of the column as read. */
  lemma WorkoutTypeCodes(raw: map<Column, seq<Cell>>)
    ensures CleanedColumn(raw, WorkoutTypeEncoded) == EncodedColumn(Col(raw, WorkoutType))
  {
  }

  /** A component cell is NaN exactly where the timestamp did not parse. */
  lemma CleanedPartCell(raw: map<Column, seq<Cell>>, n: nat, c: Column, i: nat)
    requires ReadTable(raw, n) && c.Part? && (c.source == StartTimestamp || c.source == EndTimestamp) && i < n
    ensures |CleanedColumn(raw, c)| == n
    ensures CleanedColumn(raw, c)[i].Num? || CleanedColumn(raw, c)[i].Missing?
    ensures CleanedColumn(raw, c)[i].Missing? <==> ParseCell(Col(raw, c.source)[i]).Missing?
  {
    assert InHeader(c.source);
    assert CleanedColumn(raw, c) == DatePartColumn(ParseColumn(Col(raw, c.source)), c.part) by {
      assert ImputedColumn(raw, c) == PreparedColumn(raw, c);
    }
    PartCellRange(Col(raw, c.source)[i], c.part);
  }

  /** A weather cell is NaN exactly when its column had no value at all. */
  lemma CleanedWeatherCell(raw: map<Column, seq<Cell>>, n: nat, c: Column, i: nat)
    requires ReadTable(raw, n) && (c == WeatherTempF || c == WeatherHumidityPct) && i < n
    ensures |CleanedColumn(raw, c)| == n
    ensures CleanedColumn(raw, c)[i].Num? || CleanedColumn(raw, c)[i].Missing?
    ensures CleanedColumn(raw, c)[i].Missing? <==> PresentNumbers(Col(raw, c)) == []
  {
    assert InHeader(c);
    MedianStage(raw, c);
    MedianFillCell(Col(raw, c), i);
  }

  /** A median fill of a numeric column leaves a cell missing exactly when there is no number at all. */
  lemma MedianFillCell(col: seq<Cell>, i: nat)
    requires Numeric(col) && i < |col|
    ensures |FillMedian(col)| == |col|
    ensures FillMedian(col)[i].Num? || FillMedian(col)[i].Missing?
    ensures FillMedian(col)[i].Missing? <==> PresentNumbers(col) == []
  {
    FillMedianCell(col, i);
    if col[i].Num? {
      assert col[i] in col;
      assert col[i].x in PresentNumbers(col);
    }
  }

  /** A cell of the other kept columns is a number. */
  lemma CleanedFilledCell(raw: map<Column, seq<Cell>>, n: nat, c: Column, i: nat)
    requires ReadTable(raw, n) && i < n
    requires c == DurationMin || c == ActiveEnergyKcal || c == BasalEnergyKcal || c == DistanceMi
      || c == AvgMets || c == IsIndoor || c == HasDistance
    requires FillMode(Col(raw, IsIndoor)).Some?
    ensures |CleanedColumn(raw, c)| == n && CleanedColumn(raw, c)[i].Num?
  {
    if c == HasDistance {
      assert InHeader(DistanceMi);
      assert CleanedColumn(raw, c) == PresenceFlags(Col(raw, DistanceMi));
    } else if c == IsIndoor {
      assert InHeader(c);
      assert CleanedColumn(raw, c) == FillMode(Col(raw, c)).value;
    } else if c == DurationMin {
      assert InHeader(c);
      assert CleanedColumn(raw, c) == Col(raw, c);
    } else {
      assert InHeader(c);
      assert CleanedColumn(raw, c) == FillMissing(Col(raw, c), Num(0.0));
    }
  }

  /** The components of a timestamp in the cleaned table are whole numbers in their ranges. */
  lemma CleanedPartRange(raw: map<Column, seq<Cell>>, c: Column, i: nat)
    requires c.Part? && (c.source == StartTimestamp || c.source == EndTimestamp)
    requires i < |Col(raw, c.source)|
    ensures var col := CleanedColumn(raw, c);
      |col| == |Col(raw, c.source)| && (col[i].Num? ==> col[i].x == col[i].x.Floor as real && InPartRange(c.part, col[i].x))
  {
    PartCellRange(Col(raw, c.source)[i], c.part);
  }

  /**
   * A filled column keeps every value present in the rows; a missing value
   * becomes 0.0, the median of the column's values for the weather columns, or
   * the mode of the column's values for `is_indoor`.
   */
  lemma CleanedFill(raw: map<Column, seq<Cell>>, c: Column, i: nat)
    requires c == DistanceMi || c == ActiveEnergyKcal || c == BasalEnergyKcal || c == AvgMets
      || c == WeatherTempF || c == WeatherHumidityPct || c == IsIndoor
    requires i < |Col(raw, c)|
    requires c == IsIndoor ==> FillMode(Col(raw, c)).Some?
    ensures var before := Col(raw, c); var after := CleanedColumn(raw, c);
      && |after| == |before|
      && (!before[i].Missing? ==> after[i] == before[i])
      && (before[i].Missing? ==>
            after[i] == (if c == WeatherTempF || c == WeatherHumidityPct then
               (match Stats.Median(PresentNumbers(before)) case Some(m) => Num(m) case None => Missing)
             else if c == IsIndoor then Num(Stats.Mode(PresentNumbers(before)).value)
             else Num(0.0)))
  {
    var before := Col(raw, c);
    if c == WeatherTempF || c == WeatherHumidityPct {
      MedianStage(raw, c);
      FillMedianCell(before, i);
    } else if c == IsIndoor {
      ModeStage(raw);
      FillModeCell(before, i);
    } else {
      ZeroStage(raw, c);
    }
  }

  /** The weather columns are filled with their medians. */
  lemma MedianStage(raw: map<Column, seq<Cell>>, c: Column)
    requires c == WeatherTempF || c == WeatherHumidityPct
    ensures CleanedColumn(raw, c) == FillMedian(Col(raw, c))
  {
  }

  /** `is_indoor` is filled with its mode. */
  lemma ModeStage(raw: map<Column, seq<Cell>>)
    requires FillMode(Col(raw, IsIndoor)).Some?
    ensures CleanedColumn(raw, IsIndoor) == FillMode(Col(raw, IsIndoor)).value
  {
  }

  /** Distance, energies and METs are filled with zero. */
  lemma ZeroStage(raw: map<Column, seq<Cell>>, c: Column)
    requires c == DistanceMi || c == ActiveEnergyKcal || c == BasalEnergyKcal || c == AvgMets
    ensures CleanedColumn(raw, c) == FillMissing(Col(raw, c), Num(0.0))
  {
  }

  /** One cell of a median fill. */
  lemma FillMedianCell(col: seq<Cell>, i: nat)
    requires i < |col|
    ensures |FillMedian(col)| == |col|
    ensures !col[i].Missing? ==> FillMedian(col)[i] == col[i]
    ensures col[i].Missing? ==>
      FillMedian(col)[i] == (match Stats.Median(PresentNumbers(col)) case Some(m) => Num(m) case None => Missing)
  {
  }

  /** One cell of a mode fill. */
  lemma FillModeCell(col: seq<Cell>, i: nat)
    requires i < |col| && FillMode(col).Some?
    ensures |FillMode(col).value| == |col|
    ensures !col[i].Missing? ==> FillMode(col).value[i] == col[i]
    ensures col[i].Missing? ==> FillMode(col).value[i] == Num(Stats.Mode(PresentNumbers(col)).value)
  {
  }

  /**
   * `has_distance` is 1 exactly where a distance was read and 0 elsewhere; a
   * row without distance has distance 0.0 and every other row keeps its own.
   */
  lemma CleanedDistanceFlag(raw: map<Column, seq<Cell>>, i: nat)
    requires i < |Col(raw, DistanceMi)|
    ensures var before := Col(raw, DistanceMi); var flag := CleanedColumn(raw, HasDistance); var dist := CleanedColumn(raw, DistanceMi);
      && |flag| == |before| && |dist| == |before|
      && (flag[i] == Num(1.0) <==> !before[i].Missing?)
      && (flag[i] == Num(0.0) <==> before[i].Missing?)
      && (flag[i] == Num(0.0) ==> dist[i] == Num(0.0))
      && (flag[i] == Num(1.0) ==> dist[i] == before[i])
  {
    assert CleanedColumn(raw, HasDistance) == PresenceFlags(Col(raw, DistanceMi));
    assert CleanedColumn(raw, DistanceMi) == FillMissing(Col(raw, DistanceMi), Num(0.0));
  }
}
