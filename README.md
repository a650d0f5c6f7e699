# HealthKit workouts to a training table, in Dafny

This project models the data path of a small workout classifier in Dafny and
proves properties of it. The data path has four parts:

- **Extraction.** Walk an Apple HealthKit XML export and write one CSV row per
  `Workout` element. The row holds the relabelled activity type, the
  timestamps, the statistics and metadata read from the element's direct
  children, the number of `WorkoutEvent` children, and the device model
  parsed out of `device`.
- **Cleaning.** Read those rows back as a pandas `DataFrame`. Label-encode
  `workout_type`. Split the two timestamp columns into year, month, day,
  hour, minute and weekday. Add `has_distance`. Fill the missing values: with
  0.0, with the median, or with the mode. Drop the unneeded columns. Encode
  `time_zone`.
- **Inference.** Encode an input's `time_zone` with the stored encoder,
  project it onto the 22 feature columns, classify it, and decode the
  predicted codes with the stored `workout_type` encoder.
- **Exploration.** The helper that counts the values of one attribute over the
  elements with one tag, ordered by count.

The files:

- `xml.dfy`: the document as a tree, and the order of the parser's `start`
  events.
- `text.dfy`: the Python string operations used:
  - `split()[0]`;
  - `replace('%', '')`;
  - `find` and `index`;
  - string `<`.
- `calendar.dfy`: the HealthKit timestamp text, its parse and its
  components, including the weekday.
- `workouts.dfy`: the extraction script.
- `frame.dfy`: the `DataFrame` class. `Assign` is `df[c] = …`, `Drop` is
  `drop(columns=…)`, and `Select` is `df[names]`.
- `encoding.dfy`: `LabelEncoder`.
- `stats.dfy`: `median()` and `mode()[0]`.
- `cleaning.dfy`: the cleaning script, step by step and as a whole.
- `inference.dfy`: the prediction script.
- `explore.dfy`: `count_tag_attribute`.
- `wrappers.dfy`: `Option` and `Result`.

Python exceptions are error values of a `Result`, or a `failure` out-parameter.
Each script stops at the first error the code would raise.

The extraction row's `device_model` is the code's own slice
(`Workouts.DeviceModelAsWritten`), which drops the last character when no comma
follows `model:` (see Findings). The intended slice (`Workouts.DeviceModel`) is
modelled beside it, and `Workouts.DeviceModelAsWrittenAgainstIntended` relates
the two on every input.

The project's description says the label column comes last. The cleaning code
adds `workout_type_encoded` right after the copied columns, so it sits after
`weather_humidity_pct` and before the timestamp components. The model follows
the code (`Cleaning.CLEANED_COLUMNS`). Removing that column gives exactly the
22 feature columns of the inference script (`Inference.FeatureColumnsAreCleaned`).

## Model

| member | source | states |
|---|---|---|
| Xml.Attr | preprocess/create-workouts.py:49 | an attribute lookup is present exactly when the name is an attribute, and it then gives that attribute's value |
| Xml.StartEventsVisitEveryElement | preprocess/create-workouts.py:46-47 | there are as many `start` events as elements in the tree, and the root's comes first |
| Workouts.TypeLabelIdempotent | preprocess/create-workouts.py:8-26 | relabelling passes an unknown type through unchanged, maps a known type to a label, and is idempotent |
| Workouts.LabelsAreNotTypes | preprocess/create-workouts.py:8-26 | no short label is itself a HealthKit type name |
| Workouts.IndoorTypesLabelled | preprocess/create-workouts.py:8-32 | every indoor activity type is one of the relabelled types |
| Workouts.NumberAttr | preprocess/create-workouts.py:58 | `float(attrib.get(name, 0))` is 0.0 for an absent attribute; otherwise it succeeds exactly when the text parses, giving the parsed number |
| Workouts.MeasureValue | preprocess/create-workouts.py:93-100 | METs and temperature parse the first whitespace-separated token. Humidity parses the value with every `%` removed and divides by 100. A missing value, a value with no token, or a text that does not parse is an error |
| Workouts.StatNamed | preprocess/create-workouts.py:76-84 | a statistic is recognised exactly when `type` names one of the three kept quantity types |
| Workouts.MeasureNamed | preprocess/create-workouts.py:86-98 | a measure is recognised exactly when `key` names one of the three kept metadata keys |
| Workouts.Apply | preprocess/create-workouts.py:74-104 | a child never changes the fields that come from the workout's attributes; only a `WorkoutEvent` adds one segment |
| Workouts.Fold | preprocess/create-workouts.py:75-104 | applying the children in order keeps the attribute fields and never lowers the segment count |
| Workouts.ChildUpdates | preprocess/create-workouts.py:75-104 | the child loop succeeds exactly when every child does, and then each child's update is the one recorded at its position |
| Workouts.ChildUpdatesFailsAt | preprocess/create-workouts.py:75-104 | the error raised is that of the first failing child |
| Workouts.RowHeader | preprocess/create-workouts.py:49-72 | a row exists exactly when `duration` and every child parse. Its fields are then the attributes, with the type relabelled and the device model sliced from `device` as the code slices it |
| Workouts.ReadStatistic | preprocess/create-workouts.py:76-84 | the statistics branch updates the row as the specification of one child says |
| Workouts.ReadMetadata | preprocess/create-workouts.py:85-102 | the metadata branch updates the row as the specification of one child says |
| Workouts.ReadChild | preprocess/create-workouts.py:75-104 | one pass of the child loop computes the specified update or error |
| Workouts.ReadChildren | preprocess/create-workouts.py:75-104 | the child loop gives all updates applied in order, or the first child's error |
| Workouts.BuildRow | preprocess/create-workouts.py:49-113 | the loop body computes exactly the specified row of the workout element, or its error |
| Workouts.StatisticUpdate | preprocess/create-workouts.py:76-84 | a child sets a statistic exactly when it is a statistics child of that type, and then with its `sum` |
| Workouts.ApplyStatistic | preprocess/create-workouts.py:79-84 | an update writes a statistic only when it sets that statistic |
| Workouts.FoldKeepsLastStatistic | preprocess/create-workouts.py:75-84 | after the loop, a statistic is that of the last child of its type, or unchanged without one |
| Workouts.StatisticLastWins | preprocess/create-workouts.py:63-84 | in a row, each statistic is the `sum` of the last child of its type (0.0 without `sum`), and unset without one |
| Workouts.EventUpdate | preprocess/create-workouts.py:103-104 | a child adds a segment exactly when it is a `WorkoutEvent` |
| Workouts.FoldCountsSegments | preprocess/create-workouts.py:75-104 | the loop adds one segment per `WorkoutEvent` child |
| Workouts.SegmentsCountEvents | preprocess/create-workouts.py:71-104 | `num_segments` is the number of direct `WorkoutEvent` children |
| Workouts.MeasureUpdate | preprocess/create-workouts.py:93-100 | a child sets a measure exactly when it is a metadata entry with that key, and then with the parsed value |
| Workouts.ApplyMeasure | preprocess/create-workouts.py:93-100 | an update writes a measure only when it sets that measure |
| Workouts.FoldKeepsLastMeasure | preprocess/create-workouts.py:75-100 | after the loop, a measure is that of the last entry with its key, or unchanged without one |
| Workouts.MeasureLastWins | preprocess/create-workouts.py:67-100 | in a row, each measure comes from the last entry with its key, and is unset without one |
| Workouts.IndoorUpdate | preprocess/create-workouts.py:88-92 | a child sets the indoor flag exactly when it is an `HKIndoorWorkout` entry: 1 for an indoor type, else the value as an integer |
| Workouts.FoldIndoorStep | preprocess/create-workouts.py:88-92 | the last update decides the indoor flag when it sets it |
| Workouts.FoldKeepsLastIndoorFlag | preprocess/create-workouts.py:75-92 | after the loop, the indoor flag comes from the last `HKIndoorWorkout` entry, or is unchanged without one |
| Workouts.IndoorFlagOverride | preprocess/create-workouts.py:66-92 | `is_indoor` is unset without an entry, 1 for an indoor type whatever the entry says, and otherwise the last entry's integer value |
| Workouts.ForcedIndoorIsLabelled | preprocess/create-workouts.py:8-90 | when the workout's type is in `INDOOR_TYPES` and it has an `HKIndoorWorkout` entry, `is_indoor` is 1 and `workout_type` is the type's short label, never a HealthKit type name |
| Workouts.TimeZoneUpdate | preprocess/create-workouts.py:101-102 | a child sets the time zone exactly when it is an `HKTimeZone` entry, and then to its `value` |
| Workouts.FoldTimeZoneStep | preprocess/create-workouts.py:101-102 | the last update decides the time zone when it sets it |
| Workouts.FoldKeepsLastTimeZone | preprocess/create-workouts.py:75-102 | after the loop, the time zone is the last `HKTimeZone` entry's value, or unchanged without one |
| Workouts.TimeZoneLastWins | preprocess/create-workouts.py:70-102 | `time_zone` is the last `HKTimeZone` entry's value, and is unset without one |
| Workouts.DeviceModel | preprocess/create-workouts.py:106-113 | the model is unset exactly when `model:` does not occur. Otherwise it is the comma-free run after the first `model:`, ending at a comma or at the end of the string |
| Workouts.DeviceModelAsWrittenDropsLastChar | preprocess/create-workouts.py:111-113 | when no comma follows `model:`, the code's slice is the intended model without its last character |
| Workouts.DeviceModelAsWrittenAgainstIntended | preprocess/create-workouts.py:107-113 | the code's slice is unset exactly when the intended model is. It equals the intended model when a comma follows `model:`; otherwise it is the intended model without its last character, or empty |
| Workouts.DeviceModelCounterexample | preprocess/create-workouts.py:107-113 | `model:Watch` gives `Watc` as written and `Watch` as intended |
| Workouts.WorkoutElements | preprocess/create-workouts.py:47-48 | the workouts are the `Workout` elements among the events, in order |
| Workouts.ExtractWorkouts | preprocess/create-workouts.py:45-116 | the loop writes, in document order, the row of each workout up to the first that fails. On a failure, that workout's error is returned; otherwise there is one row per workout. `count` includes the failing workout |
| Workouts.FailsAt | preprocess/create-workouts.py:47-48 | the workout met at an event is the next workout of the document, after those already met |
| Workouts.RowsStep | preprocess/create-workouts.py:115 | writing the next workout's row keeps the written rows in step with the workouts |
| Workouts.WorkoutElementsStep | preprocess/create-workouts.py:47-48 | one more event adds itself to the workouts exactly when it is a `Workout` |
| Workouts.WorkoutElementsPrefix | preprocess/create-workouts.py:47-48 | the workouts of a prefix of the events are a prefix of all the workouts |
| Text.SkipSpaces | preprocess/create-workouts.py:95 | the index of the first non-whitespace character from a position on, with only whitespace skipped |
| Text.WordEnd | preprocess/create-workouts.py:95 | the end of the non-whitespace run starting at a position |
| Text.FirstTokenIsLeadingWord | preprocess/create-workouts.py:95-97 | `split()[0]` is the first maximal non-whitespace run, with only whitespace before it; it is absent exactly when the text is all whitespace |
| Text.RemoveAll | preprocess/create-workouts.py:100 | `replace('%', '')` leaves no `%` and keeps every other character with its multiplicity |
| Text.IndexOf | preprocess/create-workouts.py:109-111 | the first occurrence of a pattern, or none when it never occurs |
| Text.FindFrom | preprocess/create-workouts.py:112 | the first position at or after `start` holding the character, or none when there is no such position |
| Text.LessIrreflexive | preprocess/create-clean-workouts.py:13-14 | Python's string `<` is irreflexive |
| Text.LessTransitive | preprocess/create-clean-workouts.py:13-14 | Python's string `<` is transitive |
| Text.LessTotal | preprocess/create-clean-workouts.py:13-14 | two different strings are ordered one way or the other |
| Text.LessAsymmetric | preprocess/create-clean-workouts.py:13-14 | Python's string `<` is asymmetric |
| Calendar.DaysInMonth | preprocess/create-clean-workouts.py:25 | a month has 28 to 31 days |
| Calendar.NextDay | preprocess/create-clean-workouts.py:31 | the day after a valid date is a valid date |
| Calendar.YearLength | preprocess/create-clean-workouts.py:26-28 | a year has 366 days when it is a leap year and 365 otherwise |
| Calendar.NextDayOrdinal | preprocess/create-clean-workouts.py:31 | consecutive days have consecutive day numbers |
| Calendar.WeekdayAdvances | preprocess/create-clean-workouts.py:31 | the next day's weekday is the next weekday, Sunday wrapping to Monday |
| Calendar.WeekdayAnchors | preprocess/create-clean-workouts.py:31 | 1970-01-01 is a Thursday (3) and 2023-01-15 a Sunday (6) |
| Calendar.ParseTimestamp | preprocess/create-clean-workouts.py:25 | a parsed timestamp is valid, so its instant lies within what a pandas `Timestamp` holds, and only text of the HealthKit shape parses |
| Calendar.OrdinalBounds | preprocess/create-clean-workouts.py:25-26 | counting 0001-01-01 as day 1, a date before 1677 falls on or before day 612163 and a date after 2262 on or after day 826179 |
| Calendar.ValidYears | preprocess/create-clean-workouts.py:25-26 | a timestamp pandas can hold has a year from 1677 to 2262, whatever its offset |
| Calendar.ParsedFields | preprocess/create-clean-workouts.py:25 | each field of a parsed timestamp is the number written at its place in the text, and the offset's sign is the one written |
| Calendar.SamePair | preprocess/create-clean-workouts.py:25 | two digit pairs that read as the same number are the same two characters |
| Calendar.SameFields | preprocess/create-clean-workouts.py:25 | two texts of the HealthKit shape with the same fields agree at every character except the offset sign |
| Calendar.FormatParseRoundTrip | preprocess/create-clean-workouts.py:25 | a text that parses is the written form of its timestamp, except that `-0000` reads back as a zero offset, written `+0000` |
| Calendar.Format | preprocess/create-clean-workouts.py:25 | a valid timestamp is written as 25 characters |
| Calendar.FormatShaped | preprocess/create-clean-workouts.py:25 | the text form of a valid timestamp has the HealthKit shape |
| Calendar.FormatFields | preprocess/create-clean-workouts.py:25 | each field of the written form reads back as the value written |
| Calendar.ParseFormatRoundTrip | preprocess/create-clean-workouts.py:25 | parsing gives back every valid timestamp from its text form |
| Calendar.Components | preprocess/create-clean-workouts.py:26-31 | the six components of a timestamp, the weekday in 0..6 |
| Frame.PartColumnsCover | preprocess/create-clean-workouts.py:26-31 | every component of a timestamp column has its derived column |
| Frame.PartColumns | preprocess/create-clean-workouts.py:26-31 | the six derived columns of a timestamp column all come from that column |
| Frame.WithoutMembers | preprocess/create-clean-workouts.py:53 | after a drop, the names left are those present and not dropped, and stay distinct |
| Frame.WithoutConcat | preprocess/create-clean-workouts.py:53 | dropping from a concatenation drops from each part |
| Frame.WithoutKeepsAll | preprocess/create-clean-workouts.py:53 | a drop naming none of the columns leaves them as they are |
| Frame.WithoutDropsAll | preprocess/create-clean-workouts.py:53 | a drop naming every column leaves none |
| Frame.Remove | preprocess/create-clean-workouts.py:53 | the cells left are exactly those of the names not dropped |
| Frame.DataFrame.constructor | preprocess/create-clean-workouts.py:9 | a frame built from distinct names and equal-height columns is well formed |
| Frame.DataFrame.Assign | preprocess/create-clean-workouts.py:14 | `df[c] = values` replaces an existing column in place, or appends a new one; nothing else changes |
| Frame.DataFrame.Drop | preprocess/create-clean-workouts.py:53 | with every name present, those columns go and the rest keep their order and cells. Otherwise a `KeyError` names an absent column and the frame is unchanged |
| Frame.DataFrame.Select | model/predict.py:30 | `df[names]` gives the named columns in the order asked for, or a `KeyError` for an absent name |
| Encoding.BeforeTotal | preprocess/create-clean-workouts.py:13-14 | two different categories are ordered one way or the other |
| Encoding.BeforeIrreflexive | preprocess/create-clean-workouts.py:13-14 | no category sorts before itself |
| Encoding.BeforeTransitive | preprocess/create-clean-workouts.py:13-14 | the category order is transitive |
| Encoding.BeforeAsymmetric | preprocess/create-clean-workouts.py:13-14 | two categories never sort before each other |
| Encoding.Insert | preprocess/create-clean-workouts.py:13-14 | adding a value to sorted distinct classes keeps them sorted and distinct |
| Encoding.Classes | preprocess/create-clean-workouts.py:13-14 | `classes_` are the sorted distinct values. A column holding something other than text or NaN is refused |
| Encoding.IndexOf | preprocess/create-clean-workouts.py:14 | a value's position among the classes, or none when it is not a class |
| Encoding.Transform | model/predict.py:13 | `transform` succeeds exactly when every value is a class, each code then indexing its value. Otherwise it reports an unseen value |
| Encoding.Inverse | model/predict.py:36 | `inverse_transform` succeeds exactly when every code is in range, each label then being its class. Otherwise it reports a bad code |
| Encoding.FitClasses | preprocess/create-clean-workouts.py:13-14 | fitting succeeds exactly on text/NaN columns, giving sorted distinct classes that are exactly the values seen |
| Encoding.FitTransformCodes | preprocess/create-clean-workouts.py:14 | `fit_transform` of a text column succeeds and uses every code |
| Encoding.CodeIsUnique | preprocess/create-clean-workouts.py:14 | a class has one position only |
| Encoding.TransformOrderPreserving | preprocess/create-clean-workouts.py:14 | equal values share a code, and the value order is the code order |
| Encoding.SortedUnique | preprocess/create-clean-workouts.py:13-14 | two sorted distinct lists with the same values are equal |
| Encoding.FitIndependentOfOrder | preprocess/create-clean-workouts.py:13-14 | the fitted classes do not depend on the order of the rows |
| Encoding.CodesIndependentOfRowOrder | preprocess/create-clean-workouts.py:14 | a value's code does not depend on the order of the rows fitted |
| Encoding.InverseOfTransform | model/predict.py:36 | decoding inverts encoding for every value the encoder knows |
| Stats.InsertSorted | preprocess/create-clean-workouts.py:42-43 | inserting into an ascending list keeps it ascending and adds exactly that value |
| Stats.Sort | preprocess/create-clean-workouts.py:42-43 | sorting gives an ascending permutation |
| Stats.SortedUnique | preprocess/create-clean-workouts.py:42-43 | two ascending lists with the same values, counted with multiplicity, are equal |
| Stats.Median | preprocess/create-clean-workouts.py:42-43 | `median()` is absent exactly when there is no value |
| Stats.MedianIndependentOfOrder | preprocess/create-clean-workouts.py:42-43 | the median does not depend on the order of the values |
| Stats.MedianSplits | preprocess/create-clean-workouts.py:42-43 | at least half the values are no greater than the median, and at least half no smaller |
| Stats.MiddleSplits | preprocess/create-clean-workouts.py:42-43 | in an ascending list, the middle value (or mean of the two middle values) is no smaller than the first half and no greater than the second |
| Stats.MedianBySorting | preprocess/create-clean-workouts.py:42-43 | the median is the middle of any ascending arrangement of the values, or the mean of its two middle values |
| Stats.BestOf | preprocess/create-clean-workouts.py:44 | the chosen candidate is one of them and at least as good a mode as each |
| Stats.Mode | preprocess/create-clean-workouts.py:44 | `mode()[0]` is a most frequent value, the smallest on a tie, and is absent exactly when there is no value |
| Stats.ModeIsUnique | preprocess/create-clean-workouts.py:44 | any value that is most frequent and smallest among the most frequent is the mode |
| Stats.ModeIndependentOfOrder | preprocess/create-clean-workouts.py:44 | the mode does not depend on the order of the values |
| Cleaning.TextCell | preprocess/create-clean-workouts.py:9 | a text field reads back as text, or as NaN when it is unset or an NA text |
| Cleaning.NumberCell | preprocess/create-clean-workouts.py:9 | a number field reads back as NaN exactly when it is unset |
| Cleaning.RawColumn | preprocess/create-clean-workouts.py:9 | a column read back has one cell per row, the row's field |
| Cleaning.RawData | preprocess/create-clean-workouts.py:9 | the table read back has exactly the header's columns, each with one cell per row |
| Cleaning.ReadWorkouts | preprocess/create-clean-workouts.py:9 | `read_csv` gives a frame with the header's columns, in order, holding the rows' cells |
| Cleaning.TextColumnsAreCategorical | preprocess/create-clean-workouts.py:14 | the two label columns hold only texts and NaN, as the label encoder needs |
| Cleaning.NumericColumns | preprocess/create-clean-workouts.py:9 | the numeric fields read back as numbers and NaN, and `duration_min` as numbers |
| Cleaning.RawDataIsReadTable | preprocess/create-clean-workouts.py:9 | the rows read back form a table of the assumed shape |
| Cleaning.HeaderColumns | preprocess/create-workouts.py:37-41 | the header lists exactly the extracted names |
| Cleaning.EncodeColumn | preprocess/create-clean-workouts.py:13-14 | the codes of a categorical column are appended, and the fitted encoder is returned |
| Cleaning.PresenceFlags | preprocess/create-clean-workouts.py:34 | `notna().astype(int)` is 1 exactly where a value is present and 0 exactly where it is missing |
| Cleaning.FillMissing | preprocess/create-clean-workouts.py:37-41 | `fillna(v)` makes missing cells `v` and leaves present cells as they were |
| Cleaning.PresentNumbers | preprocess/create-clean-workouts.py:42-44 | the numbers a reduction sees are exactly the numbers present |
| Cleaning.PresentNumbersCounts | preprocess/create-clean-workouts.py:42-44 | a reduction sees each number as many times as the column holds it, which the median and the mode depend on |
| Cleaning.ParseColumn | preprocess/create-clean-workouts.py:25 | `to_datetime(errors='coerce')` gives a timestamp or NaT in every cell |
| Cleaning.ParseCell | preprocess/create-clean-workouts.py:25 | a parsed cell is a valid timestamp, or NaT |
| Cleaning.DatePartColumn | preprocess/create-clean-workouts.py:26-31 | a component column has one cell per row |
| Cleaning.CodeCells | preprocess/create-clean-workouts.py:14 | codes stored as a column, one number per code |
| Cleaning.DecomposeOneAt | preprocess/create-clean-workouts.py:24-31 | after one loop pass, the column holds its parsed timestamps and each component column holds that component. Every other column is as it was |
| Cleaning.AppendDateParts | preprocess/create-clean-workouts.py:26-28 | year, month and day columns are appended in that order |
| Cleaning.AppendTimeParts | preprocess/create-clean-workouts.py:29-31 | hour, minute and weekday columns are appended in that order |
| Cleaning.AppendParts | preprocess/create-clean-workouts.py:26-31 | the six component columns are appended in the loop's order |
| Cleaning.DecomposeColumn | preprocess/create-clean-workouts.py:25-31 | the column is parsed in place and, when its offsets agree, its components are appended |
| Cleaning.DecomposeTimestamps | preprocess/create-clean-workouts.py:23-31 | the loop fails at the first timestamp column with mixed offsets. Otherwise both columns are parsed and twelve component columns appended, start first |
| Cleaning.ReadyToDecompose | preprocess/create-clean-workouts.py:23-31 | before each pass, its column is present and none of its components is |
| Cleaning.BothDecomposed | preprocess/create-clean-workouts.py:23-31 | after both passes, the twelve components follow the original columns |
| Cleaning.DecomposePass | preprocess/create-clean-workouts.py:24-31 | one pass of the loop succeeds exactly when its column's parsed offsets agree, and then takes the columns and cells from those after the earlier passes to those after this one |
| Cleaning.DecomposedCellsStep | preprocess/create-clean-workouts.py:23-31 | before pass `i` its column still holds the text read from the file, and pass `i` adds that column's components to the cells after the earlier passes |
| Cleaning.BothDecomposedCells | preprocess/create-clean-workouts.py:23-31 | after both passes, the cells are those of the start column's components added, then the end column's |
| Cleaning.FlagAndFillDistance | preprocess/create-clean-workouts.py:34-37 | `has_distance` is taken from `distance_mi` before `distance_mi` is filled with 0.0 |
| Cleaning.FillZeros | preprocess/create-clean-workouts.py:39-41 | the energies and METs are filled with 0.0; nothing else changes |
| Cleaning.FillWeather | preprocess/create-clean-workouts.py:42-43 | the weather columns are filled with their medians; nothing else changes |
| Cleaning.FillIndoor | preprocess/create-clean-workouts.py:44 | `is_indoor` is filled with its mode. This fails exactly when the column has no value |
| Cleaning.FillNumbers | preprocess/create-clean-workouts.py:34-43 | the flag and the constant and median fills, in the script's order |
| Cleaning.FilledAt | preprocess/create-clean-workouts.py:34-43 | after the flag and fills, column by column: the flag, a zero fill, a median fill, or unchanged |
| Cleaning.DropRuns | preprocess/create-clean-workouts.py:48-53 | dropping from alternating runs of dropped and kept names leaves the kept runs |
| Cleaning.DropRun | preprocess/create-clean-workouts.py:48-53 | a dropped run followed by a kept run leaves the kept run |
| Cleaning.DroppedLeavesKept | preprocess/create-clean-workouts.py:48-53 | dropping the eight names from the columns present leaves the kept columns in order |
| Cleaning.DropUnneeded | preprocess/create-clean-workouts.py:48-53 | the eight unneeded columns go, the rest keeping their order and cells |
| Cleaning.TimeZoneDropLeavesCleaned | preprocess/create-clean-workouts.py:57-59 | dropping `time_zone` once encoded leaves the cleaned column list |
| Cleaning.DropTimeZone | preprocess/create-clean-workouts.py:59 | the text `time_zone` column goes, leaving the cleaned columns |
| Cleaning.EncodeTimeZone | preprocess/create-clean-workouts.py:57-59 | `time_zone` is encoded, its encoder returned, and the text column goes |
| Cleaning.PreparedColumnsAre | preprocess/create-clean-workouts.py:14-31 | the columns after encoding and decomposition are exactly the prepared names |
| Cleaning.PreparedData | preprocess/create-clean-workouts.py:13-31 | after encoding and the loop, every column holds its prepared cells |
| Cleaning.ImputedAt | preprocess/create-clean-workouts.py:34-44 | after the imputation, each column holds its imputed cells |
| Cleaning.Imputation | preprocess/create-clean-workouts.py:34-44 | the flag and the fills turn the prepared columns into the imputed ones |
| Cleaning.CleanedColumnsAre | preprocess/create-clean-workouts.py:48-59 | the cleaned column list holds exactly the cleaned names |
| Cleaning.CleanedColumnsOrigin | preprocess/create-clean-workouts.py:48-59 | a cleaned column is the time-zone codes, or an imputed column that is not dropped |
| Cleaning.Finishing | preprocess/create-clean-workouts.py:48-59 | the drop and the time-zone encoding turn the imputed columns into the cleaned ones |
| Cleaning.PrepareColumns | preprocess/create-clean-workouts.py:13-31 | steps 2 and 3: the `workout_type` encoder is fitted on the column as read. The loop fails at the first timestamp column with mixed offsets; otherwise every column holds its prepared cells |
| Cleaning.ImputeColumns | preprocess/create-clean-workouts.py:34-44 | the flag and the fills. This fails exactly when `is_indoor` has no value |
| Cleaning.FinishColumns | preprocess/create-clean-workouts.py:48-59 | steps 4 and 5: the frame ends with the cleaned columns in order, each as specified, and the time-zone encoder is fitted on the column as read |
| Cleaning.CleanWorkouts | preprocess/create-clean-workouts.py:9-59 | the whole script. Mixed offsets fail, start column first, then a valueless `is_indoor`. Otherwise the frame holds the cleaned columns in order, each computed from the rows as read, with both encoders fitted on the columns as read |
| Cleaning.EncodedColumnCodes | preprocess/create-clean-workouts.py:14 | a stored code is the row's index among the sorted classes. Equal values share codes, and value order is code order |
| Cleaning.EncodedColumnDense | preprocess/create-clean-workouts.py:14 | every class index is the code of some row |
| Cleaning.PartCellRange | preprocess/create-clean-workouts.py:25-31 | a component is NaN exactly for NaT, and is otherwise a whole number in the component's range |
| Cleaning.CleanedCell | preprocess/create-clean-workouts.py:9-59 | every cleaned cell is a number or NaN. It is NaN exactly for a component of an unparsed timestamp, or for a weather cell of a column with no value |
| Cleaning.CleanedCodeCell | preprocess/create-clean-workouts.py:14 | a code cell is a number |
| Cleaning.WorkoutTypeCodes | preprocess/create-clean-workouts.py:14 | the `workout_type` codes are the encoding of the column as read |
| Cleaning.CleanedPartCell | preprocess/create-clean-workouts.py:25-31 | a component cell is NaN exactly where the timestamp did not parse |
| Cleaning.CleanedWeatherCell | preprocess/create-clean-workouts.py:42-43 | a weather cell is NaN exactly when its column had no value at all |
| Cleaning.MedianFillCell | preprocess/create-clean-workouts.py:42-43 | a median fill leaves a numeric cell NaN exactly when the column has no number |
| Cleaning.CleanedFilledCell | preprocess/create-clean-workouts.py:34-44 | the other kept columns hold numbers only |
| Cleaning.CleanedPartRange | preprocess/create-clean-workouts.py:26-31 | the components in the cleaned table are whole numbers in their ranges |
| Cleaning.CleanedFill | preprocess/create-clean-workouts.py:37-44 | a filled column keeps every present value. A missing one becomes 0.0, the column's median (weather), or its mode (`is_indoor`) |
| Cleaning.MedianStage | preprocess/create-clean-workouts.py:42-43 | the weather columns are median-filled |
| Cleaning.ModeStage | preprocess/create-clean-workouts.py:44 | `is_indoor` is mode-filled |
| Cleaning.ZeroStage | preprocess/create-clean-workouts.py:37-41 | distance, the energies and METs are zero-filled |
| Cleaning.FillMedianCell | preprocess/create-clean-workouts.py:42-43 | one cell of a median fill |
| Cleaning.FillModeCell | preprocess/create-clean-workouts.py:44 | one cell of a mode fill |
| Cleaning.CleanedDistanceFlag | preprocess/create-clean-workouts.py:34-37 | `has_distance` is 1 exactly where a distance was read. A row without distance gets 0.0, and every other row keeps its own |
| Inference.WithColumn | model/predict.py:13 | assigning a column keeps the names present and adds the new one, all distinct |
| Inference.FeatureColumnsAreCleaned | model/predict.py:19-28 | the feature columns are the cleaned training columns in the same order, without the label codes |
| Inference.FeatureColumnsShape | model/predict.py:19-28 | there are 22 feature columns, none of them `time_zone`; the time-zone codes are the last and appear nowhere else |
| Inference.EncodeWith | model/predict.py:13 | the stored encoder's codes are stored. An absent column or an unseen value raises and leaves the frame unchanged |
| Inference.EncodedThenDropped | model/predict.py:13-16 | after encoding and dropping `time_zone`, the names present are those before plus the codes |
| Inference.AddPredictions | model/predict.py:36-39 | the decoded predictions are stored. A code with no class or a wrong count raises and leaves the frame unchanged |
| Inference.Predict | model/predict.py:13-39 | the whole script. It fails on a missing `time_zone`, then an unseen time zone, then an absent feature column, then a bad code or count. Otherwise the classifier's input is the feature columns in order, and the frame gains the codes and decoded predictions without `time_zone` |
| Inference.CodesMatchTraining | model/predict.py:13 | the stored time-zone encoder gives a value seen in training the code it had in the cleaned table |
| Inference.DecodeIndices | model/predict.py:36 | codes that index each label's class decode to those labels |
| Inference.RowCode | model/predict.py:36 | a stored training code indexes its row's label among the classes |
| Inference.LabelsDecodeToTraining | model/predict.py:36 | decoding the stored `workout_type` codes with the stored encoder gives back the training labels |
| Explore.Values | preprocess/explore-src.py:9-13 | the counted values are non-empty, at most one per event |
| Explore.FirstSeen | preprocess/explore-src.py:13 | the dictionary's keys are exactly the values, each once |
| Explore.Pairs | preprocess/explore-src.py:17 | one item per key, with the key's number of occurrences |
| Explore.InsertByCount | preprocess/explore-src.py:17 | inserting adds exactly that item |
| Explore.SortByCount | preprocess/explore-src.py:17 | sorting is a permutation of the items |
| Explore.ConsOrdered | preprocess/explore-src.py:17 | an item counting at least the head can go in front of a non-increasing list |
| Explore.TailOrdered | preprocess/explore-src.py:17 | the tail of a non-increasing list is non-increasing |
| Explore.InsertKeepsOrder | preprocess/explore-src.py:17 | inserting keeps the order non-increasing |
| Explore.SortOrders | preprocess/explore-src.py:17 | `sorted(…, key=count, reverse=True)` gives non-increasing counts |
| Explore.WithCountConcat | preprocess/explore-src.py:17 | filtering by count distributes over concatenation |
| Explore.WithCountOfSmaller | preprocess/explore-src.py:17 | no item with count `c` occurs among items counting less |
| Explore.WithCountCons | preprocess/explore-src.py:17 | filtering a list with one more item in front |
| Explore.BelowHead | preprocess/explore-src.py:17 | every item of a non-increasing list counts no more than its head |
| Explore.InsertIsStable | preprocess/explore-src.py:17 | an inserted item lands after the items of its own count |
| Explore.SortIsStable | preprocess/explore-src.py:17 | the sort keeps equal counts in their given order |
| Explore.InsertTotal | preprocess/explore-src.py:17 | inserting adds the item's count to the total |
| Explore.TotalConcat | preprocess/explore-src.py:17 | totals add over concatenation |
| Explore.SortTotal | preprocess/explore-src.py:17 | the sort keeps the total |
| Explore.OccurrencesStep | preprocess/explore-src.py:13 | one more value adds one to its own count only |
| Explore.PairsStep | preprocess/explore-src.py:13 | one more value raises the keys' total count by one when it is among the keys, and by nothing otherwise |
| Explore.PairsOfNothing | preprocess/explore-src.py:5 | no values give a zero total |
| Explore.PairsCover | preprocess/explore-src.py:9-13 | distinct keys covering the values count every value once |
| Explore.CountTagAttribute | preprocess/explore-src.py:4-17 | the loop and sort give the sorted tally. It holds one entry per distinct non-empty value, counted, keys distinct, largest count first, ties in first-seen order, and the counts add up to the number of values |
| Explore.TalliedStep | preprocess/explore-src.py:10-13 | counting one more value keeps the dictionary in step with the values |
| Explore.KeysStep | preprocess/explore-src.py:13 | a value joins the keys the first time it is seen |
| Explore.CountsStep | preprocess/explore-src.py:13 | only the counted value's count goes up, by one |
| Explore.TalliedItems | preprocess/explore-src.py:17 | the dictionary's items in insertion order are the tally |
| Explore.ValuesStep | preprocess/explore-src.py:9-13 | one more event adds its value when it has the tag and a non-empty value |
| Explore.FirstSeenStep | preprocess/explore-src.py:13 | the first-seen order after one more value |
| Explore.HistogramFacts | preprocess/explore-src.py:17 | the sorted tally is the histogram of the values |
| Explore.TallyEntries | preprocess/explore-src.py:17 | any arrangement of the tally has the values as keys, each once, with their positive counts |
| Explore.DistinctAfterSort | preprocess/explore-src.py:17 | a permutation of distinct-keyed items has distinct keys |
| Explore.ItemsOnce | preprocess/explore-src.py:17 | an item of a distinct-keyed list occurs once |

## Left out

- Streaming: the XML document is a finished tree. The export's `start` events
  are visited in document order, and a workout's children are taken to be
  fully read when its `start` event is handled. In the program, whether they
  are depends on how much of the file the parser has buffered. `elem.clear()`,
  which only releases memory, is not modelled.
- CSV writing and reading are one step (`Cleaning.RawData`). A text field
  reads back as text, or as NaN when unset or one of pandas' NA texts. A
  number reads back as a number or NaN. pandas' type inference and the text
  form of numbers are not modelled.
- Python's `float(text)` and `int(text)` are parameters (`Workouts.Parsers`),
  left uninterpreted.
- Workouts.MeasureValue, Stats.Median: Python floats are exact reals here. The
  humidity's division by 100 and the mean of the two middle values are not
  rounded to the nearest double.
- Workouts.NumberAttr, Workouts.MeasureValue: `float` of a text is a real or a
  parse error, so `float('nan')` and `float('inf')` cannot be produced. The
  `nan` value such a text gives, which the CSV reads back as missing, is not
  modelled.
- Calendar.Valid: the bounds of a pandas `Timestamp` are applied to the instant
  in whole seconds, as HealthKit writes no fractions of a second.
- `pd.to_datetime` is modelled on the one text shape HealthKit writes,
  `YYYY-MM-DD HH:MM:SS +HHMM`. Any other text becomes NaT. Timestamps with
  different offsets in one column make `.dt` fail (`MixedOffsets`).
- The classifier `model.predict` is a function parameter.
- `joblib` loading and saving, `os.makedirs`, `to_csv`, and every `print`
  (the progress line every 100 workouts included) are not modelled. The
  encoders are passed as values.
- The training script is not part of this model.
- `explore-src.py`: the surrounding script (`readline`, `ET.parse`, the root
  tag, the printing) is left out. `count_tag_attribute` returns its
  dictionary as the list of its items, in the dictionary's order.
- `Encoding.Classes`: a column holding a number is refused. scikit-learn
  would encode an all-number column, but the two encoded columns hold texts.
- Inference.Predict: the rebinding `df = df.drop(columns=['time_zone'])` is
  modelled as a drop on the same frame, as nothing else refers to the old one.
- Frame.DataFrame.Drop: on a `KeyError`, one absent name is reported, where
  pandas lists them all. Frame.DataFrame.Select likewise reports the first
  absent name.
- Inference.Predict: after a failure, the frame's contents are not stated.
- Cleaning.DecomposeTimestamps: after a failure, the frame's contents are not
  stated. In the script, the failing column has already been replaced by its
  parsed form.
- Cleaning.PrepareColumns: after a failure, the frame's contents are not stated.
- Cleaning.CleanWorkouts: after a failure, the frame's contents are not stated.
- Workouts.ExtractWorkouts: the rows are modelled as values. Their CSV text,
  and the `None` cells the writer leaves empty, are not.

## Findings

| source | as written | input that shows it | evidently intended | confidence | as-written member | corrected member |
|---|---|---|---|---|---|---|
| preprocess/create-workouts.py:111-113 | the slice ends at the result of `find(',', start)`, which is -1 when no comma follows `model:`, so the slice stops one character early | `device` = `model:Watch` gives `Watc` | the model runs to the next comma or to the end of the string: `Watch` | not executed | Workouts.DeviceModelAsWrittenDropsLastChar | Workouts.DeviceModel |
