/**
 * The inference script: an input table of features with a text `time_zone`
 * column is encoded with the stored time-zone encoder, projected onto the
 * feature columns the classifier was trained on, classified, and the predicted
 * codes are decoded with the stored `workout_type` encoder into a new column.
 * The classifier itself is a parameter.
 */
module Inference {
  import opened Wrappers
  import opened Frame
  import Encoding
  import Cleaning

  /** The columns the classifier reads, in the order it was trained on. */
  const FEATURE_COLUMNS: seq<Column> := [
    DurationMin, ActiveEnergyKcal, BasalEnergyKcal, DistanceMi, IsIndoor, AvgMets,
    WeatherTempF, WeatherHumidityPct]
    + PartColumns(StartTimestamp) + PartColumns(EndTimestamp) + [HasDistance, TimeZoneEncoded]

  /** What aborts the script. */
  datatype PredictError =
    | MissingColumn(column: Column)       // KeyError: a column the script reads is absent
    | UnseenValue(value: Cell)            // ValueError in `transform`: a time zone the encoder never saw
    | UnseenCode(code: int)               // ValueError in `inverse_transform`: a code with no class
    | LengthMismatch(rows: nat, got: nat) // ValueError: one prediction per row is needed

  /** The column list after `df[c] = …`: an existing name stays where it is, a new one is appended. */
  function WithColumn(cs: seq<Column>, c: Column): (r: seq<Column>)
    ensures forall k :: k in r <==> k in cs || k == c
    ensures Distinct(cs) ==> Distinct(r)
  {
    if c in cs then cs else cs + [c]
  }

  /**
   * The classifier's features are the columns of the cleaned training table,
   * in the same order, without the label codes.
   */
  lemma FeatureColumnsAreCleaned()
    ensures FEATURE_COLUMNS == Without(Cleaning.CLEANED_COLUMNS, {WorkoutTypeEncoded})
  {
    var before := [DurationMin, ActiveEnergyKcal, BasalEnergyKcal, DistanceMi, IsIndoor, AvgMets,
                   WeatherTempF, WeatherHumidityPct];
    var after := PartColumns(StartTimestamp) + PartColumns(EndTimestamp) + [HasDistance, TimeZoneEncoded];
    assert Cleaning.CLEANED_COLUMNS == [] + before + [WorkoutTypeEncoded] + after + [] + [];
    assert FEATURE_COLUMNS == before + after + [];
    Cleaning.DropRuns([], before, [WorkoutTypeEncoded], after, [], [], {WorkoutTypeEncoded});
  }

  /**
   * `df[target] = encoder.transform(df[source])`: the stored encoder's codes are
   * stored; an absent column or a value the encoder never saw raises, and the
   * frame is left as it was.
   */
  method EncodeWith(df: DataFrame, encoder: Encoding.Encoder, source: Column, target: Column)
    returns (failure: Option<PredictError>)
    requires df.Valid()
    modifies df
    ensures df.Valid() && df.height == old(df.height)
    ensures failure.Some? ==> unchanged(df)
    ensures failure == Some(MissingColumn(source)) <==> source !in old(df.columns)
    ensures source in old(df.columns) ==>
      (failure.Some? <==> Encoding.Transform(encoder, old(df.data[source])).Err?)
    ensures source in old(df.columns) && failure.Some? ==>
      failure == Some(UnseenValue(Encoding.Transform(encoder, old(df.data[source])).error))
    ensures failure.None? ==> df.columns == WithColumn(old(df.columns), target)
    ensures failure.None? ==>
      df.data == old(df.data)[target := Cleaning.CodeCells(Encoding.Transform(encoder, old(df.data[source])).value)]
  {
    if source !in df.columns {
      return Some(MissingColumn(source));
    }
    var codes := Encoding.Transform(encoder, df.data[source]);
    if codes.Err? {
      return Some(UnseenValue(codes.error));
    }
    df.Assign(target, Cleaning.CodeCells(codes.value));
    return None;
  }

  /**
   * `df['predicted_workout_type'] = encoder.inverse_transform(codes)`: the codes
   * are decoded and stored; a code with no class or a wrong number of codes
   * raises, and the frame is left as it was.
   */
  method AddPredictions(df: DataFrame, encoder: Encoding.Encoder, codes: seq<int>)
    returns (failure: Option<PredictError>)
    requires df.Valid()
    modifies df
    ensures df.Valid() && df.height == old(df.height)
    ensures failure.Some? ==> unchanged(df)
    ensures failure.Some? <==> Encoding.Inverse(encoder, codes).Err? || |codes| != df.height
    ensures Encoding.Inverse(encoder, codes).Err? ==> failure == Some(UnseenCode(Encoding.Inverse(encoder, codes).error))
    ensures Encoding.Inverse(encoder, codes).Ok? && |codes| != df.height ==> failure == Some(LengthMismatch(df.height, |codes|))
    ensures failure.None? ==> df.columns == WithColumn(old(df.columns), PredictedWorkoutType)
    ensures failure.None? ==> df.data == old(df.data)[PredictedWorkoutType := Encoding.Inverse(encoder, codes).value]
  {
    var labels := Encoding.Inverse(encoder, codes);
    if labels.Err? {
      return Some(UnseenCode(labels.error));
    }
    if |labels.value| != df.height {
      return Some(LengthMismatch(df.height, |labels.value|));
    }
    df.Assign(PredictedWorkoutType, labels.value);
    return None;
  }

  /**
   * The whole script on the input frame `df`. It stops with the first error the
   * script would raise: no `time_zone` column, a time zone the encoder never
   * saw, an absent feature column, a predicted code with no class, a wrong
   * number of predictions. Otherwise `input` is the classifier's input (the
   * feature columns, in order) and `df` holds the encoded time zone in place of
   * the text one and the decoded predictions.
   */
  method Predict(df: DataFrame, timeZoneEncoder: Encoding.Encoder, labelEncoder: Encoding.Encoder,
                 classify: Table -> seq<int>)
    returns (input: Table, failure: Option<PredictError>)
    requires df.Valid()
    modifies df
    ensures df.Valid() && df.height == old(df.height)
    ensures failure == Some(MissingColumn(TimeZone)) <==> TimeZone !in old(df.columns)
    ensures (failure.Some? && failure.value.UnseenValue?) <==>
      TimeZone in old(df.columns) && Encoding.Transform(timeZoneEncoder, old(df.data[TimeZone])).Err?
    ensures (failure.Some? && failure.value.MissingColumn? && failure.value.column != TimeZone) <==>
      && TimeZone in old(df.columns) && Encoding.Transform(timeZoneEncoder, old(df.data[TimeZone])).Ok?
      && exists c :: c in FEATURE_COLUMNS && c != TimeZoneEncoded && c !in old(df.columns)
    ensures failure.None? || failure.value.UnseenCode? || failure.value.LengthMismatch? ==>
      && TimeZone in old(df.columns)
      && Encoding.Transform(timeZoneEncoder, old(df.data[TimeZone])).Ok?
      && input.columns == FEATURE_COLUMNS && |input.cells| == |FEATURE_COLUMNS|
      && (forall k | 0 <= k < |FEATURE_COLUMNS| && FEATURE_COLUMNS[k] != TimeZoneEncoded ::
            input.cells[k] == old(df.data[FEATURE_COLUMNS[k]]))
      && input.cells[|FEATURE_COLUMNS| - 1] ==
           Cleaning.CodeCells(Encoding.Transform(timeZoneEncoder, old(df.data[TimeZone])).value)
      && (failure.None? <==> Encoding.Inverse(labelEncoder, classify(input)).Ok? && |classify(input)| == df.height)
    ensures failure.None? ==>
      && df.columns == WithColumn(Without(WithColumn(old(df.columns), TimeZoneEncoded), {TimeZone}), PredictedWorkoutType)
      && df.data == Remove(
           old(df.data)[TimeZoneEncoded := Cleaning.CodeCells(Encoding.Transform(timeZoneEncoder, old(df.data[TimeZone])).value)],
           {TimeZone})[PredictedWorkoutType := Encoding.Inverse(labelEncoder, classify(input)).value]
  {
    input := Table([], []);
    FeatureColumnsShape();
    failure := EncodeWith(df, timeZoneEncoder, TimeZone, TimeZoneEncoded);
    if failure.Some? {
      return;
    }
    ghost var encoded := df.data;
    ghost var encodedColumns := df.columns;
    var absent := df.Drop({TimeZone});
    if absent.Some? {
      assert false;
    }
    EncodedThenDropped(old(df.columns));
    var selected := df.Select(FEATURE_COLUMNS);
    if selected.Err? {
      return input, Some(MissingColumn(selected.error));
    }
    input := selected.value;
    failure := AddPredictions(df, labelEncoder, classify(input));
  }

  /** Once `time_zone` is encoded and dropped, the other names present are those present before and the codes. */
  lemma EncodedThenDropped(cs: seq<Column>)
    ensures forall c | c != TimeZone :: c in Without(WithColumn(cs, TimeZoneEncoded), {TimeZone}) <==> c in cs || c == TimeZoneEncoded
  {
    WithoutMembers(WithColumn(cs, TimeZoneEncoded), {TimeZone});
  }

  /** The feature columns: distinct, without `time_zone`, the time-zone codes last. */
  lemma FeatureColumnsShape()
    ensures |FEATURE_COLUMNS| == 22 && FEATURE_COLUMNS[21] == TimeZoneEncoded
    ensures forall k | 0 <= k < 21 :: FEATURE_COLUMNS[k] != TimeZoneEncoded
    ensures TimeZone !in FEATURE_COLUMNS
  {
  }

  /**
   * The stored time-zone encoder gives a value seen in training the code it had
   * in the cleaned training table, and accepts every input whose values were
   * all seen in training.
   */
  lemma CodesMatchTraining(train: seq<Cell>, values: seq<Cell>, i: nat, j: nat)
    requires Encoding.AllCategories(train)
    requires forall k | 0 <= k < |values| :: values[k] in train
    requires i < |values| && j < |train| && values[i] == train[j]
    ensures Encoding.Fit(train).Ok?
    ensures Encoding.Transform(Encoding.Fit(train).value, values).Ok?
    ensures Num(Encoding.Transform(Encoding.Fit(train).value, values).value[i] as real) == Cleaning.EncodedColumn(train)[j]
  {
    Encoding.FitClasses(train);
    var e := Encoding.Fit(train).value;
    var codes := Encoding.Transform(e, values).value;
    Cleaning.EncodedColumnCodes(train, j, j);
    Encoding.CodeIsUnique(e, codes[i], Encoding.IndexOf(e.classes, train[j]).value);
  }

  /** Codes that index each label's class decode to those labels. */
  lemma DecodeIndices(e: Encoding.Encoder, labels: seq<Cell>, codes: seq<int>)
    requires |codes| == |labels|
    requires forall k | 0 <= k < |labels| :: 0 <= codes[k] < |e.classes| && e.classes[codes[k]] == labels[k]
    ensures Encoding.Inverse(e, codes) == Ok(labels)
  {
    var r := Encoding.Inverse(e, codes).value;
    assert r == labels;
  }

  /** A row's stored code, read back as an integer, is the index of its label among the classes. */
  lemma RowCode(train: seq<Cell>, codes: seq<int>, k: nat)
    requires Encoding.AllCategories(train)
    requires |codes| == |train| && k < |train|
    requires Num(codes[k] as real) == Cleaning.EncodedColumn(train)[k]
    ensures Encoding.Fit(train).Ok?
    ensures 0 <= codes[k] < |Encoding.Fit(train).value.classes|
    ensures Encoding.Fit(train).value.classes[codes[k]] == train[k]
  {
    Cleaning.EncodedColumnCodes(train, k, k);
    var classes := Encoding.Fit(train).value.classes;
    var index := Encoding.IndexOf(classes, train[k]).value;
    assert codes[k] as real == index as real;
    assert codes[k] == index;
  }

  /**
   * Decoding the stored `workout_type` codes of the training table with the
   * stored encoder gives back the training labels: a classifier that returns
   * a row's training code predicts that row's label.
   */
  lemma LabelsDecodeToTraining(train: seq<Cell>, codes: seq<int>)
    requires Encoding.AllCategories(train)
    requires |codes| == |train|
    requires forall k | 0 <= k < |train| :: Num(codes[k] as real) == Cleaning.EncodedColumn(train)[k]
    ensures Encoding.Fit(train).Ok? && Encoding.Inverse(Encoding.Fit(train).value, codes) == Ok(train)
  {
    Encoding.FitClasses(train);
    var e := Encoding.Fit(train).value;
    forall k | 0 <= k < |train|
      ensures 0 <= codes[k] < |e.classes| && e.classes[codes[k]] == train[k]
    {
      RowCode(train, codes, k);
    }
    DecodeIndices(e, train, codes);
  }
}
