/**
 * The pandas `DataFrame` the cleaning and inference scripts mutate: an ordered
 * list of distinct column names, one column of cells per name, all of the same
 * height. Cells are what a CSV column can hold once read back: nothing (NaN), a
 * number, a text, or a parsed timestamp.
 */
module Frame {
  import opened Wrappers
  import Calendar

  /** The six components taken from a timestamp column, in the order they are added. */
  datatype DatePart = Year | Month | Day | Hour | Minute | WeekdayPart

  /**
   * Column names. The seventeen extracted columns, the six derived
   * `{source}_{part}` columns, the columns the scripts add, and any other header
   * an inference input may carry.
   */
  datatype Column =
    | WorkoutType | StartTimestamp | EndTimestamp | DurationMin | SourceName | SourceVersion
    | DeviceModelColumn | CreationTimestamp | ActiveEnergyKcal | BasalEnergyKcal | DistanceMi
    | IsIndoor | AvgMets | WeatherTempF | WeatherHumidityPct | TimeZone | NumSegments
    | Part(source: Column, part: DatePart)
    | WorkoutTypeEncoded | HasDistance | TimeZoneEncoded | PredictedWorkoutType
    | Other(name: string)

  datatype Cell = Missing | Num(x: real) | Text(s: string) | Time(t: Calendar.DateTime)

  /** The six derived columns of a timestamp column, in the order the cleaning loop adds them. */
  function PartColumns(source: Column): (r: seq<Column>)
    ensures |r| == 6 && forall i | 0 <= i < 6 :: r[i].Part? && r[i].source == source
  {
    [Part(source, Year), Part(source, Month), Part(source, Day),
     Part(source, Hour), Part(source, Minute), Part(source, WeekdayPart)]
  }

  /** Every part of `source` has its column among them. */
  lemma PartColumnsCover(source: Column, p: DatePart)
    ensures Part(source, p) in PartColumns(source)
  {
    var r := PartColumns(source);
    match p
    case Year => assert r[0] == Part(source, p);
    case Month => assert r[1] == Part(source, p);
    case Day => assert r[2] == Part(source, p);
    case Hour => assert r[3] == Part(source, p);
    case Minute => assert r[4] == Part(source, p);
    case WeekdayPart => assert r[5] == Part(source, p);
  }

  predicate Distinct(cs: seq<Column>)
  {
    forall i, j | 0 <= i < j < |cs| :: cs[i] != cs[j]
  }

  /** `cs` with every name in `gone` removed, the rest in their order. */
  function Without(cs: seq<Column>, gone: set<Column>): seq<Column>
  {
    if cs == [] then []
    else if cs[0] in gone then Without(cs[1..], gone)
    else [cs[0]] + Without(cs[1..], gone)
  }

  /** What is left is what was there and not removed; distinct names stay distinct. */
  lemma {:induction false} WithoutMembers(cs: seq<Column>, gone: set<Column>)
    ensures forall c :: c in Without(cs, gone) <==> c in cs && c !in gone
    ensures Distinct(cs) ==> Distinct(Without(cs, gone))
  {
    if cs != [] {
      WithoutMembers(cs[1..], gone);
      assert forall c :: c in cs <==> c == cs[0] || c in cs[1..];
      if Distinct(cs) {
        assert cs[0] !in cs[1..];
      }
    }
  }

  /** Removing names from a concatenation removes them from each part. */
  lemma {:induction false} WithoutConcat(a: seq<Column>, b: seq<Column>, gone: set<Column>)
    ensures Without(a + b, gone) == Without(a, gone) + Without(b, gone)
  {
    if a != [] {
      assert (a + b)[0] == a[0] && (a + b)[1..] == a[1..] + b;
      WithoutConcat(a[1..], b, gone);
    } else {
      assert a + b == b;
    }
  }

  /** A list none of whose names is removed stays as it is. */
  lemma {:induction false} WithoutKeepsAll(cs: seq<Column>, gone: set<Column>)
    requires forall i | 0 <= i < |cs| :: cs[i] !in gone
    ensures Without(cs, gone) == cs
  {
    if cs != [] {
      WithoutKeepsAll(cs[1..], gone);
    }
  }

  /** A list all of whose names are removed vanishes. */
  lemma WithoutDropsAll(cs: seq<Column>, gone: set<Column>)
    requires forall i | 0 <= i < |cs| :: cs[i] in gone
    ensures Without(cs, gone) == []
  {
    WithoutMembers(cs, gone);
    assert forall c :: c !in Without(cs, gone);
  }

  /** The map `m` without the keys in `gone`. */
  function Remove(m: map<Column, seq<Cell>>, gone: set<Column>): (r: map<Column, seq<Cell>>)
    ensures forall c :: c in r <==> c in m && c !in gone
    ensures forall c | c in r :: r[c] == m[c]
  {
    map c | c in m && c !in gone :: m[c]
  }

  /** A table read out of a frame: the named columns, in that order. */
  datatype Table = Table(columns: seq<Column>, cells: seq<seq<Cell>>)

  class DataFrame {
    var columns: seq<Column>
    var data: map<Column, seq<Cell>>
    var height: nat

    ghost predicate Valid()
      reads this
    {
      && Distinct(columns)
      && (forall c :: c in data <==> c in columns)
      && (forall c | c in data :: |data[c]| == height)
    }

    constructor (columns: seq<Column>, data: map<Column, seq<Cell>>, height: nat)
      requires Distinct(columns)
      requires forall c :: c in data <==> c in columns
      requires forall c | c in data :: |data[c]| == height
      ensures Valid()
      ensures this.columns == columns && this.data == data && this.height == height
    {
      this.columns := columns;
      this.data := data;
      this.height := height;
    }

    /** `df[c] = values`: an existing column is replaced where it stands, a new one is appended. */
    method Assign(c: Column, values: seq<Cell>)
      requires Valid() && |values| == height
      modifies this
      ensures Valid()
      ensures c in old(columns) ==> columns == old(columns)
      ensures c !in old(columns) ==> columns == old(columns) + [c]
      ensures data == old(data)[c := values] && height == old(height)
    {
      if c !in columns {
        columns := columns + [c];
      }
      data := data[c := values];
    }

    /**
     * `df.drop(columns=gone)`: with every name present, those columns go and the
     * rest keep their order and cells; otherwise a `KeyError` naming an absent
     * column, and the frame is left as it was.
     */
    method Drop(gone: set<Column>) returns (absent: Option<Column>)
      requires Valid()
      modifies this
      ensures Valid()
      ensures absent.Some? ==> absent.value in gone && absent.value !in old(columns) && unchanged(this)
      ensures absent.None? ==> forall c | c in gone :: c in old(columns)
      ensures absent.None? ==> columns == Without(old(columns), gone) && data == Remove(old(data), gone)
      ensures height == old(height)
    {
      if exists c :: c in gone && c !in columns {
        var c :| c in gone && c !in columns;
        return Some(c);
      }
      WithoutMembers(columns, gone);
      columns := Without(columns, gone);
      data := Remove(data, gone);
      return None;
    }

    /** `df[names]`: the named columns in the order asked for, or a `KeyError` for an absent one. */
    function Select(names: seq<Column>): (r: Result<Table, Column>)
      reads this
      requires Valid()
      ensures r.Ok? <==> forall c | c in names :: c in columns
      ensures r.Ok? ==> r.value.columns == names && |r.value.cells| == |names|
      ensures r.Ok? ==> forall i | 0 <= i < |names| :: r.value.cells[i] == data[names[i]]
      ensures r.Err? ==> r.error in names && r.error !in columns
    {
      if names == [] then Ok(Table([], []))
      else if names[0] !in columns then Err(names[0])
      else
        match Select(names[1..])
        case Err(c) => Err(c)
        case Ok(t) => Ok(Table(names, [data[names[0]]] + t.cells))
    }
  }
}
