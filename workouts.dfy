/**
 * Row extraction from a HealthKit export (preprocess/create-workouts.py): one
 * row per `Workout` element, built from the element's attributes and its direct
 * `WorkoutStatistics`, `MetadataEntry` and `WorkoutEvent` children.
 */
module Workouts {
  import opened Wrappers
  import opened Xml
  import Text

  // ---------------------------------------------------------------------------
  // Fixed vocabulary
  // ---------------------------------------------------------------------------

  const WORKOUT_TAG := "Workout"
  const STATISTICS_TAG := "WorkoutStatistics"
  const METADATA_TAG := "MetadataEntry"
  const EVENT_TAG := "WorkoutEvent"

  /** HealthKit activity type to short label (the source lists Running twice, with the same label). */
  const ACTIVITY_LABELS: map<string, string> := map[
    "HKWorkoutActivityTypeFunctionalStrengthTraining" := "Strength Training",
    "HKWorkoutActivityTypeRunning" := "Running",
    "HKWorkoutActivityTypeWalking" := "Walking",
    "HKWorkoutActivityTypeCycling" := "Cycling",
    "HKWorkoutActivityTypeYoga" := "Yoga",
    "HKWorkoutActivityTypeHighIntensityIntervalTraining" := "HIIT",
    "HKWorkoutActivityTypeElliptical" := "Elliptical",
    "HKWorkoutActivityTypeCooldown" := "Cooldown",
    "HKWorkoutActivityTypeCoreTraining" := "Core Training",
    "HKWorkoutActivityTypeRowing" := "Rowing",
    "HKWorkoutActivityTypeCardioDance" := "Cardio Dance",
    "HKWorkoutActivityTypeStairClimbing" := "Stair Climbing",
    "HKWorkoutActivityTypeHiking" := "Hiking",
    "HKWorkoutActivityTypeOther" := "Other",
    "HKWorkoutActivityTypeKickboxing" := "Kickboxing",
    "HKWorkoutActivityTypePilates" := "Pilates"
  ]

  /** Activity types whose indoor flag is forced to 1. */
  const INDOOR_TYPES: set<string> := {
    "HKWorkoutActivityTypeFunctionalStrengthTraining", "HKWorkoutActivityTypeYoga",
    "HKWorkoutActivityTypeHighIntensityIntervalTraining", "HKWorkoutActivityTypeCoreTraining",
    "HKWorkoutActivityTypeRowing", "HKWorkoutActivityTypeCardioDance",
    "HKWorkoutActivityTypeStairClimbing", "HKWorkoutActivityTypeKickboxing",
    "HKWorkoutActivityTypePilates", "HKWorkoutActivityTypeCycling"
  }

  const INDOOR_KEY := "HKIndoorWorkout"
  const TIME_ZONE_KEY := "HKTimeZone"
  const MODEL_TOKEN := "model:"

  /** The three statistics a row keeps, each under its own quantity type. */
  datatype Stat = ActiveEnergy | BasalEnergy | Distance

  function StatType(s: Stat): string
  {
    match s
    case ActiveEnergy => "HKQuantityTypeIdentifierActiveEnergyBurned"
    case BasalEnergy => "HKQuantityTypeIdentifierBasalEnergyBurned"
    case Distance => "HKQuantityTypeIdentifierDistanceWalkingRunning"
  }

  /** The three numeric metadata entries a row keeps, each under its own key. */
  datatype Measure = AverageMets | WeatherTemperature | WeatherHumidity

  function MeasureKey(m: Measure): string
  {
    match m
    case AverageMets => "HKAverageMETs"
    case WeatherTemperature => "HKWeatherTemperature"
    case WeatherHumidity => "HKWeatherHumidity"
  }

  // ---------------------------------------------------------------------------
  // Rows, errors and the number parsers
  // ---------------------------------------------------------------------------

  /**
   * Python's `float(text)` and `int(text)`, left uninterpreted: `None` where
   * Python raises ValueError.
   */
  datatype Parsers = Parsers(toFloat: string -> Option<real>, toInt: string -> Option<int>)

  /** One CSV row; `None` is a field left unset (an empty CSV cell). */
  datatype RawRow = RawRow(
    workoutType: string,
    startTimestamp: Option<string>,
    endTimestamp: Option<string>,
    durationMin: real,
    sourceName: Option<string>,
    sourceVersion: Option<string>,
    deviceModel: Option<string>,
    creationTimestamp: Option<string>,
    activeEnergyKcal: Option<real>,
    basalEnergyKcal: Option<real>,
    distanceMi: Option<real>,
    isIndoor: Option<int>,
    avgMets: Option<real>,
    weatherTempF: Option<real>,
    weatherHumidityPct: Option<real>,
    timeZone: Option<string>,
    numSegments: nat)

  /**
   * What aborts the run: a text `float`/`int` rejects (ValueError), a metadata
   * entry without a `value` that the code nevertheless uses (TypeError or
   * AttributeError on None), a value with no token to take (IndexError).
   */
  datatype ExtractError = NotANumber(text: string) | ValueMissing(key: string) | NoToken(key: string)

  function StatField(row: RawRow, s: Stat): Option<real>
  {
    match s
    case ActiveEnergy => row.activeEnergyKcal
    case BasalEnergy => row.basalEnergyKcal
    case Distance => row.distanceMi
  }

  function MeasureField(row: RawRow, m: Measure): Option<real>
  {
    match m
    case AverageMets => row.avgMets
    case WeatherTemperature => row.weatherTempF
    case WeatherHumidity => row.weatherHumidityPct
  }

  // ---------------------------------------------------------------------------
  // Pure pieces: relabelling, number fields, device model
  // ---------------------------------------------------------------------------

  /** `TYPE_MAPPING.get(t, t)`. */
  function TypeLabel(longType: string): string
  {
    if longType in ACTIVITY_LABELS then ACTIVITY_LABELS[longType] else longType
  }

  /**
   * Relabelling never fails and is idempotent: no short label is itself a
   * HealthKit type name, so a label passes through unchanged.
   */
  lemma TypeLabelIdempotent(t: string)
    ensures TypeLabel(TypeLabel(t)) == TypeLabel(t)
    ensures t !in ACTIVITY_LABELS ==> TypeLabel(t) == t
    ensures t in ACTIVITY_LABELS ==> TypeLabel(t) in ACTIVITY_LABELS.Values
  {
    if t in ACTIVITY_LABELS {
      LabelsAreNotTypes(ACTIVITY_LABELS[t]);
    }
  }

  /** Every label is shorter than the shortest type name, so it cannot be one. */
  lemma LabelsAreNotTypes(short: string)
    requires short in ACTIVITY_LABELS.Values
    ensures short !in ACTIVITY_LABELS
  {
    assert |short| <= 17;
    forall t | t in ACTIVITY_LABELS ensures |t| > 17 { }
  }

  /** `INDOOR_TYPES`, which decides the `HKIndoorWorkout` override, lists only relabelled types. */
  lemma IndoorTypesLabelled()
    ensures INDOOR_TYPES <= ACTIVITY_LABELS.Keys
  {
  }

  /** `float(text)`. */
  function ParseFloat(p: Parsers, text: string): Result<real, ExtractError>
  {
    match p.toFloat(text)
    case Some(x) => Ok(x)
    case None => Err(NotANumber(text))
  }

  /** `float(e.attrib.get(name, 0))`: 0.0 when the attribute is absent. */
  function NumberAttr(e: Element, name: string, p: Parsers): (r: Result<real, ExtractError>)
    ensures name !in e.attrib ==> r == Ok(0.0)
    ensures name in e.attrib ==> (r.Ok? <==> p.toFloat(e.attrib[name]).Some?)
    ensures name in e.attrib && r.Ok? ==> p.toFloat(e.attrib[name]) == Some(r.value)
  {
    match Attr(e, name)
    case None => Ok(0.0)
    case Some(text) => ParseFloat(p, text)
  }

  /**
   * The number a numeric metadata value stands for: the first whitespace-separated
   * token parsed (`float(v.split()[0])`), or for humidity the value with every
   * `%` removed, parsed and divided by 100.
   */
  function MeasureValue(m: Measure, v: Option<string>, p: Parsers): (r: Result<real, ExtractError>)
    ensures v.None? ==> r == Err(ValueMissing(MeasureKey(m)))
    ensures v.Some? && m != WeatherHumidity ==>
      match Text.FirstToken(v.value)
      case None => r == Err(NoToken(MeasureKey(m)))
      case Some(token) => r == ParseFloat(p, token)
    ensures v.Some? && m == WeatherHumidity ==>
      var digits := Text.RemoveAll(v.value, '%');
      '%' !in digits &&
      if p.toFloat(digits).Some? then r == Ok(p.toFloat(digits).value / 100.0) else r == Err(NotANumber(digits))
  {
    match v
    case None => Err(ValueMissing(MeasureKey(m)))
    case Some(text) =>
      if m == WeatherHumidity then
        match ParseFloat(p, Text.RemoveAll(text, '%'))
        case Ok(x) => Ok(x / 100.0)
        case Err(e) => Err(e)
      else
        match Text.FirstToken(text)
        case None => Err(NoToken(MeasureKey(m)))
        case Some(token) => ParseFloat(p, token)
  }

  /**
   * The device model as the code computes it: after the first `model:`, up to
   * `device.find(',', start)`; when no comma follows, `find` gives -1 and the
   * slice `device[start:-1]` drops the last character.
   */
  function DeviceModelAsWritten(device: string): Option<string>
  {
    match Text.IndexOf(device, MODEL_TOKEN)
    case None => None
    case Some(i) =>
      var start := i + |MODEL_TOKEN|;
      match Text.FindFrom(device, ',', start)
      case Some(j) => Some(device[start..j])
      case None => if start <= |device| - 1 then Some(device[start..|device| - 1]) else Some("")
  }

  /**
   * The device model as intended: the comma-free run that follows the first
   * `model:`, up to the next comma or the end of the string; unset without `model:`.
   */
  function DeviceModel(device: string): (r: Option<string>)
    ensures r.None? <==> forall i :: !Text.OccursAt(device, MODEL_TOKEN, i)
    ensures r.Some? ==>
      exists i ::
        && Text.OccursAt(device, MODEL_TOKEN, i)
        && (forall j :: 0 <= j < i ==> !Text.OccursAt(device, MODEL_TOKEN, j))
        && var start := i + |MODEL_TOKEN|;
        && start + |r.value| <= |device|
        && device[start..start + |r.value|] == r.value
        && ',' !in r.value
        && (start + |r.value| == |device| || device[start + |r.value|] == ',')
  {
    match Text.IndexOf(device, MODEL_TOKEN)
    case None => None
    case Some(i) =>
      var start := i + |MODEL_TOKEN|;
      match Text.FindFrom(device, ',', start)
      case Some(j) => Some(device[start..j])
      case None => Some(device[start..])
  }

  /** When no comma follows `model:`, the code as written loses the model's last character. */
  lemma DeviceModelAsWrittenDropsLastChar(device: string)
    requires DeviceModel(device).Some? && DeviceModel(device).value != []
    requires var i := Text.IndexOf(device, MODEL_TOKEN).value;
             Text.FindFrom(device, ',', i + |MODEL_TOKEN|).None?
    ensures DeviceModelAsWritten(device) == Some(DeviceModel(device).value[..|DeviceModel(device).value| - 1])
  {
    var i := Text.IndexOf(device, MODEL_TOKEN).value;
    var start := i + |MODEL_TOKEN|;
    assert DeviceModel(device).value == device[start..];
    assert device[start..][..|device| - start - 1] == device[start..|device| - 1];
  }

  /**
   * The code's slice against the intended one: both are unset exactly when
   * `model:` is absent; they agree when a comma follows `model:`; otherwise the
   * code's slice is the intended model without its last character.
   */
  lemma DeviceModelAsWrittenAgainstIntended(device: string)
    ensures DeviceModelAsWritten(device).None? <==> DeviceModel(device).None?
    ensures DeviceModel(device).Some? ==>
      var i := Text.IndexOf(device, MODEL_TOKEN).value;
      var intended := DeviceModel(device).value;
      if Text.FindFrom(device, ',', i + |MODEL_TOKEN|).Some? then DeviceModelAsWritten(device) == Some(intended)
      else if intended == [] then DeviceModelAsWritten(device) == Some([])
      else DeviceModelAsWritten(device) == Some(intended[..|intended| - 1])
  {
    if DeviceModel(device).Some? {
      var i := Text.IndexOf(device, MODEL_TOKEN).value;
      if Text.FindFrom(device, ',', i + |MODEL_TOKEN|).None? && DeviceModel(device).value != [] {
        DeviceModelAsWrittenDropsLastChar(device);
      }
    }
  }

  /** A concrete instance: `model:Watch` yields `Watc` as written, `Watch` as intended. */
  lemma DeviceModelCounterexample()
    ensures DeviceModelAsWritten("model:Watch") == Some("Watc")
    ensures DeviceModel("model:Watch") == Some("Watch")
  {
    var device := "model:Watch";
    assert Text.OccursAt(device, MODEL_TOKEN, 0);
    assert Text.IndexOf(device, MODEL_TOKEN) == Some(0);
    assert forall k :: 0 <= k < |device| ==> device[k] != ',';
    assert Text.FindFrom(device, ',', 6).None?;
    assert device[6..|device| - 1] == "Watc";
    assert device[6..] == "Watch";
  }

  // ---------------------------------------------------------------------------
  // Children: what each child does to the row
  // ---------------------------------------------------------------------------

  /** The effect of one child on the row being built. */
  datatype Update =
    | SetStat(stat: Stat, sum: real)
    | SetIndoor(flag: int)
    | SetMeasure(measure: Measure, amount: real)
    | SetTimeZone(zone: Option<string>)
    | AddSegment
    | Ignore

  /** The statistic a `type` attribute names, if it is one of the three kept. */
  function StatNamed(t: Option<string>): (r: Option<Stat>)
    ensures r.Some? ==> t == Some(StatType(r.value))
    ensures r.None? ==> forall s :: t != Some(StatType(s))
  {
    if t == Some(StatType(ActiveEnergy)) then Some(ActiveEnergy)
    else if t == Some(StatType(BasalEnergy)) then Some(BasalEnergy)
    else if t == Some(StatType(Distance)) then Some(Distance)
    else None
  }

  /** The numeric metadata entry a `key` attribute names, if it is one of the three kept. */
  function MeasureNamed(k: Option<string>): (r: Option<Measure>)
    ensures r.Some? ==> k == Some(MeasureKey(r.value))
    ensures r.None? ==> forall m :: k != Some(MeasureKey(m))
  {
    if k == Some(MeasureKey(AverageMets)) then Some(AverageMets)
    else if k == Some(MeasureKey(WeatherTemperature)) then Some(WeatherTemperature)
    else if k == Some(MeasureKey(WeatherHumidity)) then Some(WeatherHumidity)
    else None
  }

  /** The dispatch on one child of a workout whose raw activity type is `longType`. */
  function ChildUpdate(c: Element, longType: string, p: Parsers): Result<Update, ExtractError>
  {
    if c.tag == STATISTICS_TAG then
      match StatNamed(Attr(c, "type"))
      case None => Ok(Ignore)
      case Some(s) =>
        match NumberAttr(c, "sum", p)
        case Ok(x) => Ok(SetStat(s, x))
        case Err(e) => Err(e)
    else if c.tag == METADATA_TAG then
      var k := Attr(c, "key");
      var v := Attr(c, "value");
      if k == Some(INDOOR_KEY) then
        if longType in INDOOR_TYPES then Ok(SetIndoor(1))
        else if v.None? then Err(ValueMissing(INDOOR_KEY))
        else if p.toInt(v.value).None? then Err(NotANumber(v.value))
        else Ok(SetIndoor(p.toInt(v.value).value))
      else if MeasureNamed(k).Some? then
        match MeasureValue(MeasureNamed(k).value, v, p)
        case Ok(x) => Ok(SetMeasure(MeasureNamed(k).value, x))
        case Err(e) => Err(e)
      else if k == Some(TIME_ZONE_KEY) then Ok(SetTimeZone(v))
      else Ok(Ignore)
    else if c.tag == EVENT_TAG then Ok(AddSegment)
    else Ok(Ignore)
  }

  /** Writing one update into the row: the later write replaces the earlier one. */
  function Apply(row: RawRow, u: Update): (r: RawRow)
    ensures SameHeader(r, row)
    ensures r.numSegments == row.numSegments + (if u.AddSegment? then 1 else 0)
  {
    match u
    case SetStat(ActiveEnergy, x) => row.(activeEnergyKcal := Some(x))
    case SetStat(BasalEnergy, x) => row.(basalEnergyKcal := Some(x))
    case SetStat(Distance, x) => row.(distanceMi := Some(x))
    case SetIndoor(n) => row.(isIndoor := Some(n))
    case SetMeasure(AverageMets, x) => row.(avgMets := Some(x))
    case SetMeasure(WeatherTemperature, x) => row.(weatherTempF := Some(x))
    case SetMeasure(WeatherHumidity, x) => row.(weatherHumidityPct := Some(x))
    case SetTimeZone(z) => row.(timeZone := z)
    case AddSegment => row.(numSegments := row.numSegments + 1)
    case Ignore => row
  }

  /** The fields that come from the workout's own attributes. */
  predicate SameHeader(a: RawRow, b: RawRow)
  {
    && a.workoutType == b.workoutType
    && a.startTimestamp == b.startTimestamp
    && a.endTimestamp == b.endTimestamp
    && a.durationMin == b.durationMin
    && a.sourceName == b.sourceName
    && a.sourceVersion == b.sourceVersion
    && a.deviceModel == b.deviceModel
    && a.creationTimestamp == b.creationTimestamp
  }

  /** The updates applied in order; children never touch the attribute-derived fields. */
  function Fold(row: RawRow, us: seq<Update>): (r: RawRow)
    ensures SameHeader(r, row)
    ensures r.numSegments >= row.numSegments
  {
    if us == [] then row else Apply(Fold(row, us[..|us| - 1]), us[|us| - 1])
  }

  /**
   * The updates of all children, or the error of the first child that fails:
   * the child loop stops at the first exception.
   */
  function ChildUpdates(cs: seq<Element>, longType: string, p: Parsers): (r: Result<seq<Update>, ExtractError>)
    ensures r.Ok? <==> forall j :: 0 <= j < |cs| ==> ChildUpdate(cs[j], longType, p).Ok?
    ensures r.Ok? ==> |r.value| == |cs| && forall j :: 0 <= j < |cs| ==> ChildUpdate(cs[j], longType, p) == Ok(r.value[j])
  {
    if cs == [] then Ok([])
    else
      match ChildUpdate(cs[0], longType, p)
      case Err(e) => Err(e)
      case Ok(u) =>
        match ChildUpdates(cs[1..], longType, p)
        case Err(e) => Err(e)
        case Ok(us) => Ok([u] + us)
  }

  /** The failure reported is that of the first failing child. */
  lemma {:induction false} ChildUpdatesFailsAt(cs: seq<Element>, longType: string, p: Parsers, i: nat)
    requires i < |cs| && ChildUpdate(cs[i], longType, p).Err?
    requires forall j :: 0 <= j < i ==> ChildUpdate(cs[j], longType, p).Ok?
    ensures ChildUpdates(cs, longType, p) == Err(ChildUpdate(cs[i], longType, p).error)
  {
    if i > 0 {
      ChildUpdatesFailsAt(cs[1..], longType, p, i - 1);
    }
  }

  // ---------------------------------------------------------------------------
  // One workout, one row
  // ---------------------------------------------------------------------------

  /** `elem.attrib.get('workoutActivityType', '')`. */
  function LongType(w: Element): string
  {
    Attr(w, "workoutActivityType").GetOr("")
  }

  /** The row before any child is read, or the error of parsing `duration`. */
  function InitialRow(w: Element, p: Parsers): Result<RawRow, ExtractError>
  {
    match NumberAttr(w, "duration", p)
    case Err(e) => Err(e)
    case Ok(d) =>
      Ok(RawRow(TypeLabel(LongType(w)), Attr(w, "startDate"), Attr(w, "endDate"), d,
                Attr(w, "sourceName"), Attr(w, "sourceVersion"), None, Attr(w, "creationDate"),
                None, None, None, None, None, None, None, None, 0))
  }

  /**
   * The row for one workout element: its attributes, then its children in order,
   * then the device model; or the first error raised on the way.
   */
  function RowOf(w: Element, p: Parsers): Result<RawRow, ExtractError>
  {
    match InitialRow(w, p)
    case Err(e) => Err(e)
    case Ok(row) =>
      match AfterChildren(row, w.children, LongType(w), p)
      case Err(e) => Err(e)
      case Ok(filled) => Ok(filled.(deviceModel := DeviceModelAsWritten(Attr(w, "device").GetOr(""))))
  }

  /**
   * A row is produced exactly when `duration` and every child parse; its
   * attribute-derived fields are the workout's attributes, with the activity
   * type relabelled and the device model taken from `device`.
   */
  lemma RowHeader(w: Element, p: Parsers)
    ensures RowOf(w, p).Ok? <==>
      && NumberAttr(w, "duration", p).Ok?
      && forall j :: 0 <= j < |w.children| ==> ChildUpdate(w.children[j], LongType(w), p).Ok?
    ensures RowOf(w, p).Ok? ==>
      var row := RowOf(w, p).value;
      && row.workoutType == TypeLabel(LongType(w))
      && row.startTimestamp == Attr(w, "startDate")
      && row.endTimestamp == Attr(w, "endDate")
      && row.durationMin == NumberAttr(w, "duration", p).value
      && row.sourceName == Attr(w, "sourceName")
      && row.sourceVersion == Attr(w, "sourceVersion")
      && row.creationTimestamp == Attr(w, "creationDate")
      && row.deviceModel == DeviceModelAsWritten(Attr(w, "device").GetOr(""))
  {
  }

  /** The row after the child loop: all updates applied in order, or the first child's error. */
  function AfterChildren(row: RawRow, cs: seq<Element>, longType: string, p: Parsers): Result<RawRow, ExtractError>
  {
    match ChildUpdates(cs, longType, p)
    case Err(e) => Err(e)
    case Ok(us) => Ok(Fold(row, us))
  }

  /** The result of reading one child into `row`: the updated row, or the child's error. */
  function AfterChild(row: RawRow, c: Element, longType: string, p: Parsers): Result<RawRow, ExtractError>
  {
    match ChildUpdate(c, longType, p)
    case Ok(u) => Ok(Apply(row, u))
    case Err(e) => Err(e)
  }

  /** The `WorkoutStatistics` branch of the child loop. */
  method ReadStatistic(row: RawRow, child: Element, longType: string, p: Parsers) returns (r: Result<RawRow, ExtractError>)
    requires child.tag == STATISTICS_TAG
    ensures r == AfterChild(row, child, longType, p)
  {
    var t := Attr(child, "type");
    r := Ok(row);
    if t == Some(StatType(ActiveEnergy)) {
      var sum := NumberAttr(child, "sum", p);
      if sum.Err? { return Err(sum.error); }
      r := Ok(row.(activeEnergyKcal := Some(sum.value)));
    } else if t == Some(StatType(BasalEnergy)) {
      var sum := NumberAttr(child, "sum", p);
      if sum.Err? { return Err(sum.error); }
      r := Ok(row.(basalEnergyKcal := Some(sum.value)));
    } else if t == Some(StatType(Distance)) {
      var sum := NumberAttr(child, "sum", p);
      if sum.Err? { return Err(sum.error); }
      r := Ok(row.(distanceMi := Some(sum.value)));
    }
  }

  /** The `MetadataEntry` branch of the child loop. */
  method ReadMetadata(row: RawRow, child: Element, longType: string, p: Parsers) returns (r: Result<RawRow, ExtractError>)
    requires child.tag == METADATA_TAG
    ensures r == AfterChild(row, child, longType, p)
  {
    var k := Attr(child, "key");
    var v := Attr(child, "value");
    r := Ok(row);
    if k == Some(INDOOR_KEY) {
      if longType in INDOOR_TYPES {
        r := Ok(row.(isIndoor := Some(1)));
      } else if v.None? {
        r := Err(ValueMissing(INDOOR_KEY));
      } else {
        var n := p.toInt(v.value);
        if n.None? { return Err(NotANumber(v.value)); }
        r := Ok(row.(isIndoor := Some(n.value)));
      }
    } else if k == Some(MeasureKey(AverageMets)) {
      var x := MeasureValue(AverageMets, v, p);
      if x.Err? { return Err(x.error); }
      r := Ok(row.(avgMets := Some(x.value)));
    } else if k == Some(MeasureKey(WeatherTemperature)) {
      var x := MeasureValue(WeatherTemperature, v, p);
      if x.Err? { return Err(x.error); }
      r := Ok(row.(weatherTempF := Some(x.value)));
    } else if k == Some(MeasureKey(WeatherHumidity)) {
      var x := MeasureValue(WeatherHumidity, v, p);
      if x.Err? { return Err(x.error); }
      r := Ok(row.(weatherHumidityPct := Some(x.value)));
    } else if k == Some(TIME_ZONE_KEY) {
      r := Ok(row.(timeZone := v));
    }
  }

  /** The child loop: every child read into the row in order, or the first child's error. */
  method ReadChildren(row0: RawRow, cs: seq<Element>, longType: string, p: Parsers) returns (r: Result<RawRow, ExtractError>)
    ensures r == AfterChildren(row0, cs, longType, p)
  {
    var row := row0;
    ghost var us: seq<Update> := [];
    for i := 0 to |cs|
      invariant |us| == i
      invariant forall j :: 0 <= j < i ==> ChildUpdate(cs[j], longType, p) == Ok(us[j])
      invariant row == Fold(row0, us)
    {
      var child := cs[i];
      var next := ReadChild(row, child, longType, p);
      if next.Err? {
        ChildUpdatesFailsAt(cs, longType, p, i);
        return Err(next.error);
      }
      us := us + [ChildUpdate(child, longType, p).value];
      assert us[..|us| - 1] == us[..i];
      row := next.value;
    }
    assert ChildUpdates(cs, longType, p).value == us;
    r := Ok(row);
  }

  /** One pass of the child loop: dispatch on the child's tag. */
  method ReadChild(row: RawRow, child: Element, longType: string, p: Parsers) returns (next: Result<RawRow, ExtractError>)
    ensures next == AfterChild(row, child, longType, p)
  {
    next := Ok(row);
    if child.tag == STATISTICS_TAG {
      next := ReadStatistic(row, child, longType, p);
    } else if child.tag == METADATA_TAG {
      next := ReadMetadata(row, child, longType, p);
    } else if child.tag == EVENT_TAG {
      next := Ok(row.(numSegments := row.numSegments + 1));
    }
  }

  /**
   * The per-element body of the extraction loop: build the row from the
   * attributes, read the children into it, then parse the device model.
   */
  method BuildRow(w: Element, p: Parsers) returns (r: Result<RawRow, ExtractError>)
    ensures r == RowOf(w, p)
  {
    var longType := Attr(w, "workoutActivityType").GetOr("");
    var shortLabel := TypeLabel(longType);
    var duration := NumberAttr(w, "duration", p);
    if duration.Err? {
      return Err(duration.error);
    }
    var row := RawRow(shortLabel, Attr(w, "startDate"), Attr(w, "endDate"), duration.value,
                      Attr(w, "sourceName"), Attr(w, "sourceVersion"), None, Attr(w, "creationDate"),
                      None, None, None, None, None, None, None, None, 0);
    assert InitialRow(w, p) == Ok(row);
    r := ReadChildren(row, w.children, longType, p);
    if r.Ok? {
      var deviceStr := Attr(w, "device").GetOr("");
      r := Ok(r.value.(deviceModel := DeviceModelAsWritten(deviceStr)));
    }
  }

  // ---------------------------------------------------------------------------
  // What the children contribute
  // ---------------------------------------------------------------------------

  /** The index of the last child with this tag whose attribute `name` equals `value`. */
  function LastMatch(cs: seq<Element>, tag: string, name: string, value: string): (r: Option<nat>)
    ensures r.Some? ==> r.value < |cs| && cs[r.value].tag == tag && Attr(cs[r.value], name) == Some(value)
    ensures r.Some? ==> forall j :: r.value < j < |cs| ==> !(cs[j].tag == tag && Attr(cs[j], name) == Some(value))
    ensures r.None? ==> forall j :: 0 <= j < |cs| ==> !(cs[j].tag == tag && Attr(cs[j], name) == Some(value))
  {
    if cs == [] then None
    else if cs[|cs| - 1].tag == tag && Attr(cs[|cs| - 1], name) == Some(value) then Some(|cs| - 1)
    else LastMatch(cs[..|cs| - 1], tag, name, value)
  }

  /** The number of children with tag `tag`. */
  function CountTag(cs: seq<Element>, tag: string): nat
  {
    if cs == [] then 0
    else CountTag(cs[..|cs| - 1], tag) + (if cs[|cs| - 1].tag == tag then 1 else 0)
  }

  /** A child sets statistic `s` exactly when it is a statistic of that type. */
  lemma StatisticUpdate(c: Element, longType: string, p: Parsers, s: Stat, u: Update)
    requires ChildUpdate(c, longType, p) == Ok(u)
    ensures c.tag == STATISTICS_TAG && Attr(c, "type") == Some(StatType(s))
            <==> u.SetStat? && u.stat == s
    ensures u.SetStat? && u.stat == s ==> NumberAttr(c, "sum", p) == Ok(u.sum)
  {
  }

  lemma {:induction false} FoldKeepsLastStatistic(row: RawRow, cs: seq<Element>, us: seq<Update>, p: Parsers, s: Stat)
    requires |us| == |cs|
    requires forall j :: 0 <= j < |cs| ==>
      (cs[j].tag == STATISTICS_TAG && Attr(cs[j], "type") == Some(StatType(s)) <==> us[j].SetStat? && us[j].stat == s)
    requires forall j :: 0 <= j < |cs| && us[j].SetStat? && us[j].stat == s ==> NumberAttr(cs[j], "sum", p) == Ok(us[j].sum)
    ensures var k := LastMatch(cs, STATISTICS_TAG, "type", StatType(s));
      && (k.None? ==> StatField(Fold(row, us), s) == StatField(row, s))
      && (k.Some? ==> StatField(Fold(row, us), s).Some?
                      && NumberAttr(cs[k.value], "sum", p) == Ok(StatField(Fold(row, us), s).value))
  {
    if cs != [] {
      var n := |cs| - 1;
      var prev := Fold(row, us[..n]);
      FoldKeepsLastStatistic(row, cs[..n], us[..n], p, s);
      assert us[..n] == us[..|us| - 1];
      assert Fold(row, us) == Apply(prev, us[n]);
      ApplyStatistic(prev, us[n], s);
      if cs[n].tag == STATISTICS_TAG && Attr(cs[n], "type") == Some(StatType(s)) {
        assert LastMatch(cs, STATISTICS_TAG, "type", StatType(s)) == Some(n);
      } else {
        assert LastMatch(cs, STATISTICS_TAG, "type", StatType(s)) == LastMatch(cs[..n], STATISTICS_TAG, "type", StatType(s));
      }
    }
  }

  lemma ApplyStatistic(row: RawRow, u: Update, s: Stat)
    ensures StatField(Apply(row, u), s) == if u.SetStat? && u.stat == s then Some(u.sum) else StatField(row, s)
  {
    match u
    case SetStat(t, x) =>
    case _ =>
  }

  lemma EventUpdate(c: Element, longType: string, p: Parsers, u: Update)
    requires ChildUpdate(c, longType, p) == Ok(u)
    ensures c.tag == EVENT_TAG <==> u == AddSegment
  {
  }

  lemma {:induction false} FoldCountsSegments(row: RawRow, cs: seq<Element>, us: seq<Update>)
    requires |us| == |cs|
    requires forall j :: 0 <= j < |cs| ==> (cs[j].tag == EVENT_TAG <==> us[j] == AddSegment)
    ensures Fold(row, us).numSegments == row.numSegments + CountTag(cs, EVENT_TAG)
  {
    if cs != [] {
      var n := |cs| - 1;
      FoldCountsSegments(row, cs[..n], us[..n]);
      assert us[..n] == us[..|us| - 1];
      assert Fold(row, us) == Apply(Fold(row, us[..n]), us[n]);
    }
  }

  /** A child sets measure `m` exactly when it is a metadata entry with that key. */
  lemma MeasureUpdate(c: Element, longType: string, p: Parsers, m: Measure, u: Update)
    requires ChildUpdate(c, longType, p) == Ok(u)
    ensures c.tag == METADATA_TAG && Attr(c, "key") == Some(MeasureKey(m))
            <==> u.SetMeasure? && u.measure == m
    ensures u.SetMeasure? && u.measure == m ==> MeasureValue(m, Attr(c, "value"), p) == Ok(u.amount)
  {
  }

  lemma ApplyMeasure(row: RawRow, u: Update, m: Measure)
    ensures MeasureField(Apply(row, u), m) == if u.SetMeasure? && u.measure == m then Some(u.amount) else MeasureField(row, m)
  {
    match u
    case SetMeasure(t, x) =>
    case _ =>
  }

  lemma {:induction false} FoldKeepsLastMeasure(row: RawRow, cs: seq<Element>, us: seq<Update>, p: Parsers, m: Measure)
    requires |us| == |cs|
    requires forall j :: 0 <= j < |cs| ==>
      (cs[j].tag == METADATA_TAG && Attr(cs[j], "key") == Some(MeasureKey(m)) <==> us[j].SetMeasure? && us[j].measure == m)
    requires forall j :: 0 <= j < |cs| && us[j].SetMeasure? && us[j].measure == m ==>
      MeasureValue(m, Attr(cs[j], "value"), p) == Ok(us[j].amount)
    ensures var k := LastMatch(cs, METADATA_TAG, "key", MeasureKey(m));
      && (k.None? ==> MeasureField(Fold(row, us), m) == MeasureField(row, m))
      && (k.Some? ==> MeasureField(Fold(row, us), m).Some?
                      && MeasureValue(m, Attr(cs[k.value], "value"), p) == Ok(MeasureField(Fold(row, us), m).value))
  {
    if cs != [] {
      var n := |cs| - 1;
      var prev := Fold(row, us[..n]);
      FoldKeepsLastMeasure(row, cs[..n], us[..n], p, m);
      assert us[..n] == us[..|us| - 1];
      assert Fold(row, us) == Apply(prev, us[n]);
      ApplyMeasure(prev, us[n], m);
      if cs[n].tag == METADATA_TAG && Attr(cs[n], "key") == Some(MeasureKey(m)) {
        assert LastMatch(cs, METADATA_TAG, "key", MeasureKey(m)) == Some(n);
      } else {
        assert LastMatch(cs, METADATA_TAG, "key", MeasureKey(m)) == LastMatch(cs[..n], METADATA_TAG, "key", MeasureKey(m));
      }
    }
  }

  /** A child sets the indoor flag exactly when it is an `HKIndoorWorkout` entry. */
  lemma IndoorUpdate(c: Element, longType: string, p: Parsers, u: Update)
    requires ChildUpdate(c, longType, p) == Ok(u)
    ensures c.tag == METADATA_TAG && Attr(c, "key") == Some(INDOOR_KEY) <==> u.SetIndoor?
    ensures u.SetIndoor? && longType in INDOOR_TYPES ==> u.flag == 1
    ensures u.SetIndoor? && longType !in INDOOR_TYPES ==>
      Attr(c, "value").Some? && p.toInt(Attr(c, "value").value) == Some(u.flag)
  {
  }

  lemma {:induction false} FoldKeepsLastIndoorFlag(row: RawRow, cs: seq<Element>, us: seq<Update>, longType: string, p: Parsers)
    requires |us| == |cs|
    requires forall j :: 0 <= j < |cs| ==>
      (cs[j].tag == METADATA_TAG && Attr(cs[j], "key") == Some(INDOOR_KEY) <==> us[j].SetIndoor?)
    requires forall j :: 0 <= j < |cs| && us[j].SetIndoor? && longType in INDOOR_TYPES ==> us[j].flag == 1
    requires forall j :: 0 <= j < |cs| && us[j].SetIndoor? && longType !in INDOOR_TYPES ==>
      Attr(cs[j], "value").Some? && p.toInt(Attr(cs[j], "value").value) == Some(us[j].flag)
    ensures var k := LastMatch(cs, METADATA_TAG, "key", INDOOR_KEY);
      && (k.None? ==> Fold(row, us).isIndoor == row.isIndoor)
      && (k.Some? && longType in INDOOR_TYPES ==> Fold(row, us).isIndoor == Some(1))
      && (k.Some? && longType !in INDOOR_TYPES ==>
            Fold(row, us).isIndoor.Some?
            && Attr(cs[k.value], "value").Some?
            && p.toInt(Attr(cs[k.value], "value").value) == Fold(row, us).isIndoor)
  {
    if cs != [] {
      var n := |cs| - 1;
      FoldKeepsLastIndoorFlag(row, cs[..n], us[..n], longType, p);
      FoldIndoorStep(row, us);
      if cs[n].tag == METADATA_TAG && Attr(cs[n], "key") == Some(INDOOR_KEY) {
        assert LastMatch(cs, METADATA_TAG, "key", INDOOR_KEY) == Some(n);
      } else {
        assert LastMatch(cs, METADATA_TAG, "key", INDOOR_KEY) == LastMatch(cs[..n], METADATA_TAG, "key", INDOOR_KEY);
      }
    }
  }

  /** The last update decides the indoor flag if it sets it. */
  lemma FoldIndoorStep(row: RawRow, us: seq<Update>)
    requires us != []
    ensures var n := |us| - 1;
      Fold(row, us).isIndoor == if us[n].SetIndoor? then Some(us[n].flag) else Fold(row, us[..n]).isIndoor
  {
  }

  /** The last update decides the time zone if it sets it. */
  lemma FoldTimeZoneStep(row: RawRow, us: seq<Update>)
    requires us != []
    ensures var n := |us| - 1;
      Fold(row, us).timeZone == if us[n].SetTimeZone? then us[n].zone else Fold(row, us[..n]).timeZone
  {
  }

  /** A child sets the time zone exactly when it is an `HKTimeZone` entry. */
  lemma TimeZoneUpdate(c: Element, longType: string, p: Parsers, u: Update)
    requires ChildUpdate(c, longType, p) == Ok(u)
    ensures c.tag == METADATA_TAG && Attr(c, "key") == Some(TIME_ZONE_KEY) <==> u.SetTimeZone?
    ensures u.SetTimeZone? ==> u.zone == Attr(c, "value")
  {
  }

  lemma {:induction false} FoldKeepsLastTimeZone(row: RawRow, cs: seq<Element>, us: seq<Update>)
    requires |us| == |cs|
    requires forall j :: 0 <= j < |cs| ==>
      (cs[j].tag == METADATA_TAG && Attr(cs[j], "key") == Some(TIME_ZONE_KEY) <==> us[j].SetTimeZone?)
    requires forall j :: 0 <= j < |cs| && us[j].SetTimeZone? ==> us[j].zone == Attr(cs[j], "value")
    ensures var k := LastMatch(cs, METADATA_TAG, "key", TIME_ZONE_KEY);
      && (k.None? ==> Fold(row, us).timeZone == row.timeZone)
      && (k.Some? ==> Fold(row, us).timeZone == Attr(cs[k.value], "value"))
  {
    if cs != [] {
      var n := |cs| - 1;
      FoldKeepsLastTimeZone(row, cs[..n], us[..n]);
      FoldTimeZoneStep(row, us);
      if cs[n].tag == METADATA_TAG && Attr(cs[n], "key") == Some(TIME_ZONE_KEY) {
        assert LastMatch(cs, METADATA_TAG, "key", TIME_ZONE_KEY) == Some(n);
      } else {
        assert LastMatch(cs, METADATA_TAG, "key", TIME_ZONE_KEY) == LastMatch(cs[..n], METADATA_TAG, "key", TIME_ZONE_KEY);
      }
    }
  }

  /** `num_segments` is the number of direct `WorkoutEvent` children. */
  lemma SegmentsCountEvents(w: Element, p: Parsers)
    requires RowOf(w, p).Ok?
    ensures RowOf(w, p).value.numSegments == CountTag(w.children, EVENT_TAG)
  {
    var us := ChildUpdates(w.children, LongType(w), p).value;
    forall j | 0 <= j < |us| ensures (w.children[j].tag == EVENT_TAG <==> us[j] == AddSegment) {
      EventUpdate(w.children[j], LongType(w), p, us[j]);
    }
    FoldCountsSegments(InitialRow(w, p).value, w.children, us);
  }

  /**
   * Each statistic is set only by a child of its exact type, the last such child
   * wins, and a child without `sum` gives 0.0; with no such child it stays unset.
   */
  lemma StatisticLastWins(w: Element, p: Parsers, s: Stat)
    requires RowOf(w, p).Ok?
    ensures var k := LastMatch(w.children, STATISTICS_TAG, "type", StatType(s));
      var field := StatField(RowOf(w, p).value, s);
      && (k.None? ==> field.None?)
      && (k.Some? ==> field.Some? && NumberAttr(w.children[k.value], "sum", p) == Ok(field.value))
  {
    var us := ChildUpdates(w.children, LongType(w), p).value;
    forall j | 0 <= j < |us|
      ensures (w.children[j].tag == STATISTICS_TAG && Attr(w.children[j], "type") == Some(StatType(s))
               <==> us[j].SetStat? && us[j].stat == s)
      ensures us[j].SetStat? && us[j].stat == s ==> NumberAttr(w.children[j], "sum", p) == Ok(us[j].sum)
    {
      StatisticUpdate(w.children[j], LongType(w), p, s, us[j]);
    }
    FoldKeepsLastStatistic(InitialRow(w, p).value, w.children, us, p, s);
  }

  /**
   * `avg_mets`, `weather_temp_f` and `weather_humidity_pct` come from the last
   * metadata entry with their key, through `MeasureValue`; unset without one.
   */
  lemma MeasureLastWins(w: Element, p: Parsers, m: Measure)
    requires RowOf(w, p).Ok?
    ensures var k := LastMatch(w.children, METADATA_TAG, "key", MeasureKey(m));
      var field := MeasureField(RowOf(w, p).value, m);
      && (k.None? ==> field.None?)
      && (k.Some? ==> field.Some? && MeasureValue(m, Attr(w.children[k.value], "value"), p) == Ok(field.value))
  {
    var us := ChildUpdates(w.children, LongType(w), p).value;
    forall j | 0 <= j < |us|
      ensures (w.children[j].tag == METADATA_TAG && Attr(w.children[j], "key") == Some(MeasureKey(m))
               <==> us[j].SetMeasure? && us[j].measure == m)
      ensures us[j].SetMeasure? && us[j].measure == m ==> MeasureValue(m, Attr(w.children[j], "value"), p) == Ok(us[j].amount)
    {
      MeasureUpdate(w.children[j], LongType(w), p, m, us[j]);
    }
    FoldKeepsLastMeasure(InitialRow(w, p).value, w.children, us, p, m);
  }

  /**
   * `is_indoor`: unset without an `HKIndoorWorkout` entry; 1 for an indoor
   * activity type whatever the entry says; otherwise the last entry's value as
   * an integer.
   */
  lemma IndoorFlagOverride(w: Element, p: Parsers)
    requires RowOf(w, p).Ok?
    ensures var k := LastMatch(w.children, METADATA_TAG, "key", INDOOR_KEY);
      var flag := RowOf(w, p).value.isIndoor;
      && (k.None? ==> flag.None?)
      && (k.Some? && LongType(w) in INDOOR_TYPES ==> flag == Some(1))
      && (k.Some? && LongType(w) !in INDOOR_TYPES ==>
            flag.Some? && Attr(w.children[k.value], "value").Some?
            && p.toInt(Attr(w.children[k.value], "value").value) == flag)
  {
    var us := ChildUpdates(w.children, LongType(w), p).value;
    forall j | 0 <= j < |us|
      ensures (w.children[j].tag == METADATA_TAG && Attr(w.children[j], "key") == Some(INDOOR_KEY) <==> us[j].SetIndoor?)
      ensures us[j].SetIndoor? && LongType(w) in INDOOR_TYPES ==> us[j].flag == 1
      ensures us[j].SetIndoor? && LongType(w) !in INDOOR_TYPES ==>
        Attr(w.children[j], "value").Some? && p.toInt(Attr(w.children[j], "value").value) == Some(us[j].flag)
    {
      IndoorUpdate(w.children[j], LongType(w), p, us[j]);
    }
    FoldKeepsLastIndoorFlag(InitialRow(w, p).value, w.children, us, LongType(w), p);
  }

  /**
   * A workout whose `HKIndoorWorkout` entry the type overrides has `is_indoor`
   * 1 and a short label as its `workout_type`, never a HealthKit type name.
   */
  lemma ForcedIndoorIsLabelled(w: Element, p: Parsers)
    requires RowOf(w, p).Ok?
    requires LastMatch(w.children, METADATA_TAG, "key", INDOOR_KEY).Some? && LongType(w) in INDOOR_TYPES
    ensures RowOf(w, p).value.isIndoor == Some(1)
    ensures var short := RowOf(w, p).value.workoutType;
      short == ACTIVITY_LABELS[LongType(w)] && short !in ACTIVITY_LABELS
  {
    var row, t := RowOf(w, p).value, LongType(w);
    IndoorFlagOverride(w, p);
    assert row.isIndoor == Some(1);
    RowHeader(w, p);
    assert row.workoutType == TypeLabel(t);
    IndoorTypesLabelled();
    assert t in ACTIVITY_LABELS;
    TypeLabelIdempotent(t);
    LabelsAreNotTypes(row.workoutType);
  }

  /** `time_zone` is the last `HKTimeZone` entry's value, as text (unset if that entry has none). */
  lemma TimeZoneLastWins(w: Element, p: Parsers)
    requires RowOf(w, p).Ok?
    ensures var k := LastMatch(w.children, METADATA_TAG, "key", TIME_ZONE_KEY);
      && (k.None? ==> RowOf(w, p).value.timeZone.None?)
      && (k.Some? ==> RowOf(w, p).value.timeZone == Attr(w.children[k.value], "value"))
  {
    var us := ChildUpdates(w.children, LongType(w), p).value;
    forall j | 0 <= j < |us|
      ensures (w.children[j].tag == METADATA_TAG && Attr(w.children[j], "key") == Some(TIME_ZONE_KEY) <==> us[j].SetTimeZone?)
      ensures us[j].SetTimeZone? ==> us[j].zone == Attr(w.children[j], "value")
    {
      TimeZoneUpdate(w.children[j], LongType(w), p, us[j]);
    }
    FoldKeepsLastTimeZone(InitialRow(w, p).value, w.children, us);
  }

  // ---------------------------------------------------------------------------
  // The document
  // ---------------------------------------------------------------------------

  /** The `Workout` elements among `events`, in order. */
  function WorkoutElements(events: seq<Element>): (ws: seq<Element>)
    ensures |ws| <= |events|
    ensures forall j :: 0 <= j < |ws| ==> ws[j].tag == WORKOUT_TAG
  {
    if events == [] then []
    else
      WorkoutElements(events[..|events| - 1])
      + (if events[|events| - 1].tag == WORKOUT_TAG then [events[|events| - 1]] else [])
  }

  /**
   * The extraction loop: one row per `Workout` element in document order,
   * written as it is built. A failure stops the run: the rows written so far
   * stay written, and `count` has already counted the workout that failed.
   */
  method ExtractWorkouts(doc: Element, p: Parsers) returns (written: seq<RawRow>, count: nat, failure: Option<ExtractError>)
    ensures var ws := WorkoutElements(StartEvents(doc));
      && |written| <= |ws|
      && RowsAgree(ws[..|written|], written, p)
      && (failure.None? ==> |written| == |ws|)
      && (failure.Some? ==> |written| < |ws| && RowOf(ws[|written|], p) == Err(failure.value))
      && count == |written| + (if failure.Some? then 1 else 0)
  {
    var events := StartEvents(doc);
    written, count, failure := [], 0, None;
    var i := 0;
    while i < |events|
      invariant i <= |events|
      invariant |written| == count
      invariant RowsAgree(WorkoutElements(events[..i]), written, p)
    {
      var elem := events[i];
      ghost var before := WorkoutElements(events[..i]);
      WorkoutElementsStep(events, i);
      if elem.tag == WORKOUT_TAG {
        count := count + 1;
        var row := BuildRow(elem, p);
        if row.Err? {
          failure := Some(row.error);
          FailsAt(events, i, |written|);
          return;
        }
        RowsStep(before, written, elem, row.value, p);
        written := written + [row.value];
      }
      i := i + 1;
    }
    assert events[..i] == events;
    assert WorkoutElements(events)[..|written|] == WorkoutElements(events);
  }

  /** The rows written so far are the rows of the workouts read so far. */
  ghost predicate RowsAgree(ws: seq<Element>, written: seq<RawRow>, p: Parsers)
  {
    |written| == |ws| && forall j {:trigger written[j]} :: 0 <= j < |written| ==> RowOf(ws[j], p) == Ok(written[j])
  }

  /** A workout reached at event `i` is the next workout of the whole document. */
  lemma FailsAt(events: seq<Element>, i: nat, k: nat)
    requires i < |events| && events[i].tag == WORKOUT_TAG
    requires k == |WorkoutElements(events[..i])|
    ensures k < |WorkoutElements(events)| && WorkoutElements(events)[k] == events[i]
    ensures WorkoutElements(events)[..k] == WorkoutElements(events[..i])
  {
    WorkoutElementsStep(events, i);
    WorkoutElementsPrefix(events, i + 1);
    assert WorkoutElements(events[..i + 1])[k] == events[i];
  }

  /** One more workout read into one more row keeps the rows in step with the workouts. */
  lemma RowsStep(ws: seq<Element>, written: seq<RawRow>, w: Element, row: RawRow, p: Parsers)
    requires RowsAgree(ws, written, p) && RowOf(w, p) == Ok(row)
    ensures RowsAgree(ws + [w], written + [row], p)
  {
    forall j | 0 <= j < |written| + 1
      ensures RowOf((ws + [w])[j], p) == Ok((written + [row])[j])
    {
      if j < |written| {
        assert (ws + [w])[j] == ws[j] && (written + [row])[j] == written[j];
      }
    }
  }

  /** Reading one more event adds that event to the workouts when it is one. */
  lemma WorkoutElementsStep(events: seq<Element>, i: nat)
    requires i < |events|
    ensures WorkoutElements(events[..i + 1])
      == WorkoutElements(events[..i]) + (if events[i].tag == WORKOUT_TAG then [events[i]] else [])
  {
    assert events[..i + 1][..i] == events[..i];
  }

  /** The workouts of a prefix of the events are a prefix of the workouts. */
  lemma {:induction false} WorkoutElementsPrefix(events: seq<Element>, n: nat)
    requires n <= |events|
    ensures WorkoutElements(events[..n]) <= WorkoutElements(events)
    decreases |events| - n
  {
    if n < |events| {
      WorkoutElementsPrefix(events, n + 1);
      assert events[..n + 1][..n] == events[..n];
      assert events[..|events|] == events;
    } else {
      assert events[..n] == events;
    }
  }
}
