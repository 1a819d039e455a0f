# BioPsyKit core, modelled in Dafny

This project models five parts of BioPsyKit, a Python toolkit for analysing
physiological signals and questionnaire data recorded in psychological study
protocols. It then proves properties of the model.

- **The protocol orchestrator** (`BaseProtocol`): a stateful object that holds
  the following dictionaries:
  - saliva data, sample times, heart-rate data and R-peak data, each per study
    part or saliva type;
  - three result caches.

  Its `compute_*` operations run a fixed-order pipeline of optional
  transformation steps and store one result. `_compute_hrv_dict` recurses over
  a nested dictionary of R-peak tables.
- **The questionnaire score utilities**:
  - inverting, shifting and cropping scores;
  - checking a score range;
  - replacing missing-value codes and filling missing values;
  - zero-padding column names, converting camelCase to snake_case, and finding
    columns.
- **The NilsPod corruption check and classification** of a sensor recording
  from its sample counter, and the phase names under which a folder of
  recordings is loaded.
- **The breathing-cycle selection** of the respiration processor: pairing
  consecutive maxima, keeping the cycles with exactly one minimum inside, and
  placing each trough.
- **The signal-processor base**: it normalises its input into a dictionary
  from phase to data.

How the modules are organised:

- **Shared modules:**
  - `Common`: `Option`, `Result` and the exceptions raised.
  - `Text`: ASCII string helpers, decimal rendering and an insertion sort.
  - `Entries`: a Python `dict` with string keys, as an insertion-ordered
    sequence of pairs.
  - `StudyData`: study data tables and nested dictionaries. It also holds
    `Library`, a record of functions standing for the collaborators whose code
    is not part of this model:
    - the transformers of `biopsykit.utils.data_processing`;
    - `EcgProcessor.hrv_process`;
    - the study-data and saliva validators;
    - the sample-time helper.
- **Protocol modules:**
  - `Pipelines`: the pipelines as lists of step descriptors.
  - `Hrv`: the HRV recursion.
  - `Protocol`: the `BaseProtocol` class, whose methods update its dictionary
    fields.
- **The other modules:**
  - `Questionnaires`: a table is a sequence of labelled columns, each cell
    `Some(score)` or `None` for NaN. The in-place branches update a
    `DataFrame` object, and the other branches are functions.
  - `NilsPod` and `Respiration`: pure functions.
  - `Processors`: the `Processor` class.

Behaviour of the code that the model keeps:

- `add_saliva_data` is not atomic. The saliva types, the test times and the
  extracted sample times are stored before validation can raise.
- A dictionary nested deeper than the list of level names fails with
  `IndexError` on `dict_levels[0]`. A dictionary shallower than the list is
  accepted.
- The ratio that separates "start only" from "end only" divides the position
  of the first bad step by the number of bad steps.
- `compute_hr_ensemble` does not replace `params=None` by `{}`. With its
  default keywords it raises before writing any cache.

## Model

| member | source | states |
|---|---|---|
| Protocol.BaseProtocol.constructor | src/biopsykit/protocols/base.py:137-217 | a new protocol has no saliva types, test times `[0, 0]` unless given, and every data and result dictionary empty |
| Protocol.ResolveTypes | src/biopsykit/protocols/base.py:348-352 | the saliva types are the keys of a data dictionary, else a list of types as given, else the single type wrapped in a list, else unset |
| Protocol.Broadcast | src/biopsykit/protocols/base.py:354-361 | a value given for every saliva type is stored under exactly those types, each key once |
| Protocol.ValidatedMeaning | src/biopsykit/protocols/base.py:365-388 | `_add_saliva_data` succeeds exactly when every entry has known sample times, is a raw or mean/se saliva table and matches its sample times; it then keeps every entry; a KeyError names an entry without sample times |
| Protocol.BaseProtocol.ValidateSaliva | src/biopsykit/protocols/base.py:365-388 | the entry-by-entry validation loop returns what `Validated` defines, stopping at the first failing entry |
| Protocol.PrefixFailureFails | src/biopsykit/protocols/base.py:365-388 | a failure in some prefix of the dictionary is the failure of the whole dictionary |
| Protocol.BaseProtocol.AddSalivaData | src/biopsykit/protocols/base.py:348-363 | the new saliva state and the exception raised are those of `AddSaliva` on the old state |
| Protocol.AddSalivaStoresValidated | src/biopsykit/protocols/base.py:348-388 | after success every table of a given dictionary is stored under its type, and a single given table under every saliva type; each stored table passed validation, and the other stored tables are kept |
| Protocol.ValidatedBroadcast | src/biopsykit/protocols/base.py:360-363 | a single table broadcast to every saliva type and validated is stored under each of those types, passed validation there, and under no other key |
| Protocol.AddSaliva | src/biopsykit/protocols/base.py:348-363 | the saliva types become those `ResolveTypes` gives and the test times are replaced only when given, also when the call then raises; data without saliva types raises TypeError; the extracted sample times are merged into the old ones and stay merged when validation then raises, and a failed extraction raises its error with the sample times unchanged; a call that raises stores no table; without saliva data the tables and sample times stay as they were |
| Protocol.AddSalivaTables | src/biopsykit/protocols/base.py:357-363 | the saliva types and test times are kept; a failed sample-time extraction raises its error and changes nothing; otherwise the extracted sample times are merged in, whether or not validation succeeds; on failure the stored tables are kept; on success the stored keys are the old keys together with the given ones |
| Protocol.Validated | src/biopsykit/protocols/base.py:365-388 | every validated key has sample times; a failure is ValidationError or a KeyError for a key without sample times |
| Protocol.AddSalivaWithoutData | src/biopsykit/protocols/base.py:348-357 | without saliva data only the saliva types and the test times change |
| Protocol.BaseProtocol.AddHrData | src/biopsykit/protocols/base.py:410-415 | data that is not a study data dictionary is rejected with nothing changed; otherwise it replaces the entry of the study part (default "Study"), and R-peak data is stored under the same key only when given |
| Protocol.BaseProtocol.ComputeHrResults | src/biopsykit/protocols/base.py:478-508 | only `hr_results[result_id]` changes, to the pipeline's result, and only when no step raised; a missing study part raises KeyError |
| Protocol.HrResultOf | src/biopsykit/protocols/base.py:478-507 | a study part without heart rate data raises KeyError naming it; with every step switched off the stored data comes back unchanged |
| Protocol.BaseProtocol.ComputeHrvResults | src/biopsykit/protocols/base.py:563-592 | only `hrv_results[result_id]` changes, to the result of select, split, HRV recursion, innermost-level drop and conditions, and only when none of them raised |
| Protocol.HrvResultOf | src/biopsykit/protocols/base.py:563-591 | a study part without R-peak data raises KeyError naming it; with the default level names and no conditions a result is a table whose outer index level is `subject` |
| Protocol.BaseProtocol.ComputeHrvDict | src/biopsykit/protocols/base.py:594-606 | the loop over the dictionary's entries computes the recursive definition `HrvDict` |
| Protocol.BaseProtocol.ComputeHrEnsemble | src/biopsykit/protocols/base.py:675-702 | only `hr_ensemble[ensemble_id]` changes, to the ensemble pipeline's result, and only when no step raised |
| Protocol.HrEnsembleOf | src/biopsykit/protocols/base.py:675-701 | a study part without heart rate data raises KeyError naming it; with `params=None` and normalising, selecting or adding conditions switched on, the computation raises |
| Protocol.BaseProtocol.AddHrResults | src/biopsykit/protocols/base.py:704-715 | the identifier's entry is overwritten and every other entry reads as before |
| Protocol.BaseProtocol.GetHrResults | src/biopsykit/protocols/base.py:717-734 | the stored result, or None exactly when the identifier is absent |
| Protocol.BaseProtocol.AddHrvResults | src/biopsykit/protocols/base.py:736-747 | the identifier's entry is overwritten and every other entry reads as before |
| Protocol.BaseProtocol.GetHrvResults | src/biopsykit/protocols/base.py:786-804 | the stored result, or None exactly when the identifier is absent |
| Protocol.BaseProtocol.AddHrEnsemble | src/biopsykit/protocols/base.py:806-817 | the identifier's entry is overwritten and every other entry reads as before |
| Protocol.BaseProtocol.GetHrEnsemble | src/biopsykit/protocols/base.py:819-834 | the stored ensemble, or None exactly when the identifier is absent |
| Protocol.ExportFiles | src/biopsykit/protocols/base.py:775-784 | ValueError exactly when the base path is no directory; otherwise one file `{prefix}_{key}.csv` per result, all of them different, with the default prefix when none is given |
| Protocol.BaseProtocol.ExportHrResults | src/biopsykit/protocols/base.py:749-760 | one file per heart rate result |
| Protocol.BaseProtocol.ExportHrvResults | src/biopsykit/protocols/base.py:762-773 | one file per HRV result |
| Protocol.FileName | src/biopsykit/protocols/base.py:783 | the file name is the prefix, an underscore, the key and `.csv`, in that order |
| Protocol.FileNameInjective | src/biopsykit/protocols/base.py:783 | different result keys give different file names |
| Protocol.DefaultPrefix | src/biopsykit/protocols/base.py:780-781 | the default prefix is the name lowered, with every space replaced by an underscore |
| Pipelines.IterNames | src/biopsykit/protocols/base.py:690 | iterating a list parameter yields its names; iterating `None` raises |
| Pipelines.PickPhasesOf | src/biopsykit/protocols/base.py:688-690 | data without `keys` (neither a dictionary nor a table) raises AttributeError, whether or not phases are given; without `select_phases` the selection succeeds and keeps every key; a result is a dictionary with each key once |
| Pipelines.LookupsMeaning | src/biopsykit/protocols/base.py:688-690 | the lookups succeed exactly when every requested phase is a key, pair each phase with its data in the requested order, and otherwise raise KeyError for a missing phase |
| Pipelines.PickPhasesSelects | src/biopsykit/protocols/base.py:688-690 | the inline selection keeps exactly the requested phases, each with its data, and raises on an unknown phase |
| Pipelines.PickAllPhasesIsIdentity | src/biopsykit/protocols/base.py:689-690 | without `select_phases` in `params` the selection keeps the data as it is |
| Pipelines.Apply | src/biopsykit/protocols/base.py:485-506 | a step standing for a raising parameter lookup raises its exception, and the inline phase selection is `PickPhasesOf` |
| Pipelines.Run | src/biopsykit/protocols/base.py:485-506 | no steps leave the data unchanged, and a run that succeeds contains no raising step |
| Pipelines.RunAppend | src/biopsykit/protocols/base.py:485-506 | running two step lists in turn is running their concatenation |
| Pipelines.RunStopsAtRaise | src/biopsykit/protocols/base.py:682-684 | a step that raises ends the pipeline with its exception |
| Pipelines.EnabledMembers | src/biopsykit/protocols/base.py:485-506 | a step runs exactly when it is an enabled candidate |
| Pipelines.EnabledAscending | src/biopsykit/protocols/base.py:485-506 | switching steps off keeps the fixed stage order |
| Pipelines.AllStepsOffIsIdentity | src/biopsykit/protocols/base.py:485-506 | with every step disabled the data is unchanged |
| Pipelines.HrPlan | src/biopsykit/protocols/base.py:485-506 | six candidate steps in strictly increasing stage order |
| Pipelines.HrSteps | src/biopsykit/protocols/base.py:485-506 | the steps `compute_hr_results` runs come in strictly increasing stage order, so none runs twice |
| Pipelines.HrStepsInOrder | src/biopsykit/protocols/base.py:482-506 | `compute_hr_results` runs the enabled steps once each in the order resample, normalize, select, split, mean per subject, add conditions; the mean's levels default to `["subject", "phase"]` |
| Pipelines.DefaultHrPipeline | src/biopsykit/protocols/base.py:482-506 | with the keyword defaults the pipeline resamples and then averages per subject over `["subject", "phase"]` |
| Pipelines.HrvLevels | src/biopsykit/protocols/base.py:565-568 | `dict_levels` defaults to `["subject", "phase"]`, plus `"subphase"` exactly when subphases are split |
| Pipelines.HrvTop | src/biopsykit/protocols/base.py:598-599 | a single table where the dictionary is expected raises ValidationError, any other value AttributeError; on success the outer index level is named by the first level name |
| Pipelines.HrvPipeline | src/biopsykit/protocols/base.py:570-591 | an empty list of level names fails; a result without conditions is a table whose outer index level is named by the first level name |
| Pipelines.DefaultHrvIndex | src/biopsykit/protocols/base.py:563-592 | with the default levels and a subject -> phase dictionary, the HRV result is indexed by exactly `subject` and `phase` |
| Pipelines.Lookup | src/biopsykit/protocols/base.py:682-684 | with `params=None` the lookup raises AttributeError; otherwise the step gets `params[key]`, or `None` when the key is absent |
| Pipelines.EnsemblePlan | src/biopsykit/protocols/base.py:679-700 | seven candidates with the unconditional rearrangement third; in strictly increasing stage order when `params` is given |
| Pipelines.EnsembleSteps | src/biopsykit/protocols/base.py:679-700 | the rearrangement always runs; with `params` given the steps come in strictly increasing stage order |
| Pipelines.EnsembleStepsInOrder | src/biopsykit/protocols/base.py:679-700 | the ensemble pipeline always rearranges and runs resample, normalize, rearrange, select, cut, merge, split conditions in that order; with `params=None` a step that reads it raises |
| Pipelines.DefaultEnsembleWithoutParamsRaises | src/biopsykit/protocols/base.py:682-684 | with the default keywords and `params=None` the ensemble raises right after resampling |
| Hrv.HrvDictIsOncePerLeaf | src/biopsykit/protocols/base.py:594-606 | on success the HRV engine ran exactly once per leaf table, in depth-first order, and the result holds exactly its rows, each under its leaf's key path |
| Hrv.HrvDict | src/biopsykit/protocols/base.py:594-606 | an empty dictionary or an empty list of level names fails; on success the outer index level is named by the first level name |
| Hrv.HrvParts | src/biopsykit/protocols/base.py:597-604 | on success one table per remaining entry, under the entry's key, in the dictionary's order |
| Hrv.HrvItem | src/biopsykit/protocols/base.py:599-604 | an entry that is neither a dictionary nor a table raises ValidationError; a nested dictionary succeeds only with a second level name, which names its outer level |
| Hrv.HrvPartsIsOncePerLeaf | src/biopsykit/protocols/base.py:598-604 | the loop's tables, from any entry on, hold the engine's rows for the remaining leaves |
| Hrv.RowsOfLeavesAppend | src/biopsykit/protocols/base.py:598-606 | the reference definition distributes over concatenated leaf lists |
| Hrv.RowsOfLeavesUnder | src/biopsykit/protocols/base.py:606 | nesting leaves under a key puts that key in front of every row |
| Hrv.LeafRows | src/biopsykit/protocols/base.py:604 | a table's rows are the rows the engine returned for it |
| Hrv.PrefixRowsTwice | src/biopsykit/protocols/base.py:606 | two concatenation levels put both keys in front, outer first |
| Hrv.TooDeepFails | src/biopsykit/protocols/base.py:602-606 | nesting deeper than the level names fails |
| Hrv.TooDeepPartsFail | src/biopsykit/protocols/base.py:598-606 | one entry nested too deeply makes the whole loop fail |
| Hrv.HrvDictLevels | src/biopsykit/protocols/base.py:602-606 | with every leaf at depth n, the result's index levels are the first n level names followed by the engine's own levels |
| Hrv.HrvPartsLevels | src/biopsykit/protocols/base.py:598-604 | every table of the loop has the remaining level names followed by the engine's levels |
| Hrv.ConcatLevels | src/biopsykit/protocols/base.py:606 | concatenating tables that share their levels puts the new name in front |
| Hrv.ConsensusOfEqual | src/biopsykit/protocols/base.py:606 | tables with the same level names keep them through concatenation |
| Hrv.Concat | src/biopsykit/protocols/base.py:606 | concatenation fails exactly on an empty dictionary; it holds every part's rows under its key, and its outer level is the given name |
| Hrv.Tail | src/biopsykit/protocols/base.py:602 | `dict_levels[1:]`, empty for an empty list |
| Hrv.PrefixRows | src/biopsykit/protocols/base.py:606 | each row keeps its values and gets the labels in front |
| Hrv.DropInnermost | src/biopsykit/protocols/base.py:587 | dropping the innermost level fails exactly on a single-level index; otherwise the last level name goes, the number of rows is kept, and every row keeps its values and loses the last label of its index |
| Hrv.TrimRows | src/biopsykit/protocols/base.py:587 | one row for each row, keeping its values and losing the last label of its index |
| Hrv.HrvDictDropRows | src/biopsykit/protocols/base.py:585-587 | after the drop, the stored rows are, in depth-first order, the engine's rows of every leaf under its key path, each without its last index label |
| Questionnaires.DataFrame.constructor | biopsykit/questionnaires/utils.py:131-189 | a table object holding the given columns |
| Questionnaires.PositionMask | biopsykit/questionnaires/utils.py:141-142 | positions address columns exactly when each lies in `[-n, n)` |
| Questionnaires.FirstMissing | biopsykit/questionnaires/utils.py:137-140 | the first label that names no column, none exactly when every label does |
| Questionnaires.LabelMask | biopsykit/questionnaires/utils.py:138 | labels succeed exactly when each names a column and then select exactly the columns they name; otherwise KeyError for a label that names none |
| Questionnaires.InPlaceMask | biopsykit/questionnaires/utils.py:136-142 | every column without `cols`; an empty `cols` raises IndexError; labels select the columns they name; the only errors are IndexError and KeyError |
| Questionnaires.ItemMask | biopsykit/questionnaires/utils.py:170 | positions succeed only when there are none; labels succeed exactly when each names a column; exactly the columns named are selected; the only error is KeyError |
| Questionnaires.UndoSelected | biopsykit/questionnaires/utils.py:134-146 | an operation followed by its inverse on the same columns gives back the table |
| Questionnaires.Inverted | biopsykit/questionnaires/utils.py:148 | names and shape are kept, every score v becomes `hi - v + lo` and NaN stays NaN |
| Questionnaires.InvertedTwice | biopsykit/questionnaires/utils.py:148 | `invert` is an involution and maps the score range onto itself |
| Questionnaires.InvertInPlace | biopsykit/questionnaires/utils.py:134-146 | in place, only the selected columns become `hi - v + lo`; a bad selection raises and changes nothing |
| Questionnaires.InvertInPlaceTwice | biopsykit/questionnaires/utils.py:134-146 | inverting the same columns in place twice restores the table |
| Questionnaires.ConvertScale | biopsykit/questionnaires/utils.py:167-173 | without `cols` it succeeds; with `cols` it fails exactly when the selection does, with KeyError; on success the names are kept, the columns named (every column without `cols`) are shifted by `offset` and the others are kept |
| Questionnaires.SameNamesSameMasks | biopsykit/questionnaires/utils.py:134-146 | the columns selected depend only on the column names |
| Questionnaires.ConvertScaleBack | biopsykit/questionnaires/utils.py:167-173 | shifting by `offset` and then by `-offset` gives back the table, leaving the argument untouched |
| Questionnaires.ConvertScaleInPlace | biopsykit/questionnaires/utils.py:154-166 | in place, only the selected columns are shifted by `offset`; a bad selection raises and changes nothing |
| Questionnaires.ToIdx | biopsykit/questionnaires/utils.py:127-128 | one position per column number |
| Questionnaires.ToIdxSelects | biopsykit/questionnaires/utils.py:127-128 | the positions address exactly the columns whose one-based numbers were given |
| Questionnaires.CropScale | biopsykit/questionnaires/utils.py:176-189 | the number and names of the columns are kept |
| Questionnaires.CropToNan | biopsykit/questionnaires/utils.py:178-182 | with `set_nan` a score outside the scale becomes NaN and all else is kept; the result is in range, and cropping is idempotent and the identity on in-range tables |
| Questionnaires.ClipCells | biopsykit/questionnaires/utils.py:184-189 | without `set_nan` each cell is raised to `lo`, then cut to `hi`, names and shape kept |
| Questionnaires.CropToBounds | biopsykit/questionnaires/utils.py:184-189 | clipping puts every score in a well-formed scale, is idempotent, leaves in-range tables alone and keeps which cells hold scores |
| Questionnaires.CropIdempotent | biopsykit/questionnaires/utils.py:184-189 | clipping twice is clipping once |
| Questionnaires.CropKeepsScores | biopsykit/questionnaires/utils.py:184-189 | clipping turns no score into NaN and no NaN into a score |
| Questionnaires.CropScaleInPlace | biopsykit/questionnaires/utils.py:176-189 | the default in-place call overwrites the table with the cropped one and returns nothing |
| Questionnaires.MinBound | biopsykit/questionnaires/utils.py:240 | `lo <= min` exactly when every score is at least `lo` |
| Questionnaires.MaxBound | biopsykit/questionnaires/utils.py:240 | `max <= hi` exactly when every score is at most `hi` |
| Questionnaires.PresentNonEmpty | biopsykit/questionnaires/utils.py:240 | a column has scores exactly when some cell is not NaN |
| Questionnaires.PresentInRange | biopsykit/questionnaires/utils.py:240 | a column's scores are in range exactly when every cell is |
| Questionnaires.ScoresNonEmpty | biopsykit/questionnaires/utils.py:240 | the table has scores exactly when some cell holds one |
| Questionnaires.ScoresInRange | biopsykit/questionnaires/utils.py:240 | the table's scores are in range exactly when every cell is |
| Questionnaires.CheckScoreRange | biopsykit/questionnaires/utils.py:239-240 | raises exactly on a table without cells, and then ValueError |
| Questionnaires.CheckScoreRangeMeaning | biopsykit/questionnaires/utils.py:239-240 | the check raises only on a table without cells, and holds exactly when some score is present and every score lies in the range |
| Questionnaires.CheckScoreRangeException | biopsykit/questionnaires/utils.py:243-248 | ValueError exactly when the range check does not hold |
| Questionnaires.CroppedPassesCheck | biopsykit/questionnaires/utils.py:184-189 | a clipped table with a score passes the range check |
| Questionnaires.ConvertNan | biopsykit/questionnaires/utils.py:117-124 | a cell becomes NaN exactly when it is NaN or one of the codes -99, -77, -66 as number or string; all other cells are kept |
| Questionnaires.ConvertNanIdempotent | biopsykit/questionnaires/utils.py:117-124 | replacing the codes twice is replacing them once |
| Questionnaires.ConvertNanInPlace | biopsykit/questionnaires/utils.py:121-122 | in place, the table is overwritten with the converted one |
| Questionnaires.ColumnIndex | biopsykit/questionnaires/utils.py:110 | the first column with a label, none exactly when the label is absent |
| Questionnaires.FillNa | biopsykit/questionnaires/utils.py:110 | the filled column has as many cells as the target |
| Questionnaires.Filled | biopsykit/questionnaires/utils.py:110 | KeyError exactly when the target or the source column is missing, naming the target first; on success the names are kept |
| Questionnaires.DropMissing | biopsykit/questionnaires/utils.py:111-112 | the names are kept, and the target column has no NaN left and one row per score it had |
| Questionnaires.ReplaceMissingData | biopsykit/questionnaires/utils.py:95-114 | the argument's target column is filled in place and the table is returned, without the still-missing rows under `dropna`; an unknown column raises with nothing changed |
| Questionnaires.ReplaceMissingMeaning | biopsykit/questionnaires/utils.py:110-114 | a target cell stays NaN exactly when its source cell is NaN too; other columns and present target cells are untouched; after dropping, the target has no NaN |
| Questionnaires.KeepPresent | biopsykit/questionnaires/utils.py:111-113 | keeping the rows where a column holds a value leaves it without NaN and with one row per score |
| Questionnaires.TrailingDigits | biopsykit/questionnaires/utils.py:38 | the length of the run of digits that ends a name |
| Questionnaires.PadDigits | biopsykit/questionnaires/utils.py:38 | one character longer exactly when the name ends in a single digit, the same length otherwise, and the part before the trailing digits is kept |
| Questionnaires.PadDigitsMeaning | biopsykit/questionnaires/utils.py:38 | a name changes exactly when it ends in a single digit; then it gains a zero before that digit and ends in two digits; padding is idempotent |
| Questionnaires.PadOneDigit | biopsykit/questionnaires/utils.py:38 | a single trailing digit becomes two, with the original recovered by removing the added zero |
| Questionnaires.FillColLeadingZeros | biopsykit/questionnaires/utils.py:32-41 | the same columns, in order and with their values, under padded names |
| Questionnaires.FillColLeadingZerosIdempotent | biopsykit/questionnaires/utils.py:32-41 | filling twice is filling once |
| Questionnaires.FillColLeadingZerosInPlace | biopsykit/questionnaires/utils.py:37-39 | in place, the column names are overwritten with the padded ones |
| Questionnaires.CamelToSnake | biopsykit/questionnaires/utils.py:79-92 | the snake-case name has no uppercase letter, is no shorter, and starts with the lowered first letter |
| Questionnaires.SnakeTail | biopsykit/questionnaires/utils.py:92 | the converted rest of a name has no uppercase letter |
| Questionnaires.SnakeTailOfLower | biopsykit/questionnaires/utils.py:92 | a name without uppercase letters is unchanged |
| Questionnaires.CamelToSnakeIdempotent | biopsykit/questionnaires/utils.py:79-92 | converting twice is converting once |
| Questionnaires.SnakeTailRoundTrip | biopsykit/questionnaires/utils.py:92 | without underscores, turning each `_x` back into `X` recovers the name |
| Questionnaires.CamelToSnakeRoundTrip | biopsykit/questionnaires/utils.py:79-92 | a name without underscores and not starting uppercase is recovered from its snake-case form |
| Questionnaires.KeepColumns | biopsykit/questionnaires/utils.py:12-17 | a filter keeps exactly the columns whose names match the pattern |
| Questionnaires.KeepIf | biopsykit/questionnaires/utils.py:12-17 | a filter applies only when its pattern is given |
| Questionnaires.FilteredMeaning | biopsykit/questionnaires/utils.py:12-17 | every kept column belongs to the table and matches every given pattern |
| Questionnaires.FindCols | biopsykit/questionnaires/utils.py:7-29 | raises only ValueError; the columns found are sorted by name and as many as the kept ones; the names returned are the sorted names, or the kept names with `fill_zeros` |
| Questionnaires.Reindexed | biopsykit/questionnaires/utils.py:24 | reindexing by a rearrangement of the names gives the columns in that order, and raises exactly when the order changes and names repeat |
| Questionnaires.ColumnsNamed | biopsykit/questionnaires/utils.py:24 | the columns of the table in the order of the given names |
| Questionnaires.FindColsMeaning | biopsykit/questionnaires/utils.py:7-29 | the columns found are the kept (and, with `fill_zeros`, padded) columns sorted by name; the names returned are the unpadded kept names with `fill_zeros`, else the sorted ones |
| NilsPod.Diffs | biopsykit/io/io.py:298 | the steps between consecutive counter values |
| NilsPod.BadSteps | biopsykit/io/io.py:298 | exactly the positions of the steps that are not 1, ascending |
| NilsPod.IsCorrupted | biopsykit/io/io.py:297-298 | corrupted exactly when some counter step is not 1 |
| NilsPod.SomeBadStep | biopsykit/io/io.py:298 | there is a bad position exactly when some counter step is not 1 |
| NilsPod.Percent | biopsykit/io/io.py:315 | the percentage of bad steps lies in (0, 100] and times the number of steps equals 100 times the number of bad steps |
| NilsPod.Classify | biopsykit/io/io.py:316-323 | a corrupted recording is never classed as fine |
| NilsPod.CorruptedInfo | biopsykit/io/io.py:301-328 | an intact recording reports only "fine"; a corrupted one reports its name, the percentage of bad counter steps among all steps and a condition other than "fine", and raises when the file name does not match |
| NilsPod.ClassifyByCounts | biopsykit/io/io.py:313-323 | lost above 90%, parts from 50% to 90%, and below 50% start only or end only as first bad position / number of bad steps lies below 0.3 or above 0.7, parts otherwise |
| NilsPod.ClassifyCounts | biopsykit/io/io.py:316-323 | the same decision rule in whole numbers |
| NilsPod.SingleBadStepIsEndOnly | biopsykit/io/io.py:319-323 | as written, one bad step anywhere but the first, in three or more steps, is classed as end only |
| NilsPod.DefaultPhaseNames | biopsykit/io/io.py:168-169 | the names `Part0` … `Part{n-1}` |
| NilsPod.DefaultPhaseNamesDistinct | biopsykit/io/io.py:168-169 | the default names are pairwise distinct |
| NilsPod.PhaseNames | biopsykit/io/io.py:168-172 | the given names when their number matches the files, the defaults when none are given, ValueError otherwise |
| NilsPod.LoadAll | biopsykit/io/io.py:174-175 | on success the keys are the phase names in order; a failure is the exception some file's load raised |
| NilsPod.LoadSorted | biopsykit/io/io.py:168-175 | a number of phase names different from the number of files raises ValueError; a result has each key once, and with given phase names exactly those keys |
| NilsPod.LoadFolder | biopsykit/io/io.py:167-175 | a number of phase names different from the number of files raises ValueError; a result has each key once |
| NilsPod.LoadAllMeaning | biopsykit/io/io.py:174-175 | when every load succeeds the dictionary pairs the names with the loaded files one to one |
| NilsPod.SortedLoadsOk | biopsykit/io/io.py:167 | the sorted list holds only files of the folder |
| NilsPod.LoadAllDefaults | biopsykit/io/io.py:168-175 | under the default names the dictionary has one entry per file, each key once |
| NilsPod.LoadSortedDefaults | biopsykit/io/io.py:168-175 | the i-th file is loaded under `Part{i}` |
| NilsPod.LoadFolderDefaults | biopsykit/io/io.py:167-175 | without phase names the i-th file in sorted order is loaded under `Part{i}` |
| Respiration.Candidates | src/biopsykit/signals/rsp/rsp.py:74 | the candidate cycles are the pairs of consecutive maxima, one fewer than the maxima |
| Respiration.Inside | src/biopsykit/signals/rsp/rsp.py:107 | exactly the minima strictly between the ends |
| Respiration.ContainsTrough | src/biopsykit/signals/rsp/rsp.py:90-107 | a cycle that contains a trough has a minimum strictly between its ends |
| Respiration.ContainsTroughMeaning | src/biopsykit/signals/rsp/rsp.py:90-107 | a cycle contains a trough exactly when one position of the minima lies strictly inside it; minima at the ends do not count |
| Respiration.OneInside | src/biopsykit/signals/rsp/rsp.py:106-107 | one minimum inside exactly when one position holds a value strictly inside |
| Respiration.Kept | src/biopsykit/signals/rsp/rsp.py:77-78 | the kept cycles are exactly the candidates that contain a trough |
| Respiration.CandidatesChained | src/biopsykit/signals/rsp/rsp.py:74 | the candidates of ascending maxima follow each other without overlap |
| Respiration.KeptChained | src/biopsykit/signals/rsp/rsp.py:77-78 | the filter keeps the order of the candidates |
| Respiration.HeadFirst | src/biopsykit/signals/rsp/rsp.py:77-78 | the first of chained cycles ends before any later one starts |
| Respiration.ChainedCons | src/biopsykit/signals/rsp/rsp.py:77-78 | a cycle ending before a chain starts extends it |
| Respiration.Flatten | src/biopsykit/signals/rsp/rsp.py:80 | `flatten()` lists start and end of every cycle in turn |
| Respiration.SplitFrom | src/biopsykit/signals/rsp/rsp.py:80 | `np.split` gives one more piece than split points, each the part between two consecutive points |
| Respiration.OddPieces | src/biopsykit/signals/rsp/rsp.py:80 | `[1::2]` keeps the pieces at odd positions |
| Respiration.CycleSegments | src/biopsykit/signals/rsp/rsp.py:80 | one segment per kept cycle |
| Respiration.SegmentsAreCycles | src/biopsykit/signals/rsp/rsp.py:80 | each kept piece is the signal from its cycle's start up to its end |
| Respiration.KeptInSignal | src/biopsykit/signals/rsp/rsp.py:74-78 | the kept cycles are chained and lie in the signal |
| Respiration.ArgMin | src/biopsykit/signals/rsp/rsp.py:83 | the first position of the smallest sample |
| Respiration.SelectCycles | src/biopsykit/signals/rsp/rsp.py:74-83 | as many peaks as troughs, at most one per candidate; every peak is one of the maxima and lies at or before its trough, which lies in the signal |
| Respiration.ExtremaOf | src/biopsykit/signals/rsp/rsp.py:80-83 | one peak and one trough per cycle; the peak is the cycle's start and the trough lies in the cycle |
| Respiration.SelectCyclesMeaning | src/biopsykit/signals/rsp/rsp.py:74-83 | the peaks are the starts of the kept cycles, strictly ascending; each trough lies in its cycle at the first position of its smallest sample |
| Respiration.ExtremaOfMeaning | src/biopsykit/signals/rsp/rsp.py:80-83 | the peaks are the cycle starts, ascending, and each trough is its cycle's argmin |
| Respiration.ChainedStartsAscending | src/biopsykit/signals/rsp/rsp.py:82 | chained cycles start in strictly ascending order |
| Respiration.TroughOfSegment | src/biopsykit/signals/rsp/rsp.py:83 | the argmin of a cycle's samples, shifted by its start, is its trough |
| Processors.PhaseData | src/biopsykit/signals/_base.py:18-29 | a dict is kept as given whatever the intervals; a single recording is split when intervals are given, and is the one phase `"Data"` otherwise |
| Processors.Processor.constructor | src/biopsykit/signals/_base.py:15-31 | the sampling rate is stored as given and the data as the normalised phase dictionary |
| Processors.Processor.Phases | src/biopsykit/signals/_base.py:37-47 | the phase names in the dictionary's order |

## Left out

- File I/O:
  - the CSV writing of the export operations (only the file-name rule is modelled);
  - `to_file`/`from_file`;
  - the NilsPod loaders, which are the `load` parameter of `NilsPod.LoadFolder`.
- The file-name pattern search of `get_nilspod_dataset_corrupted_info`: its captured group is a parameter. The sampling rate `load_folder_nilspod` reads from the first dataset is not modelled either, so the IndexError on a folder without recordings is missing.
- Plotting, and the floating-point signal processing of the respiration processor: peak finding, the threshold on the maxima, and the rate. The maxima and minima are parameters.
- Collaborators whose code is not part of this model are fields of `StudyData.Library` without contracts:
  - the transformers of `biopsykit.utils.data_processing`;
  - `EcgProcessor.hrv_process`;
  - the study-data and saliva validators;
  - the sample-time helper.

  `split_data` is a parameter of the processor constructor.
- `Respiration.SelectCycles`:
  - requires strictly ascending maxima inside the signal, as peak finding delivers them;
  - with fewer than two maxima, `np.apply_along_axis` raises on the empty cycle array, but the model returns no cycles.
- `NilsPod.CorruptedInfo`: uses exact real arithmetic for the percentage and the ratio, so floating-point rounding at the thresholds is not modelled.
- `Questionnaires`: the tables model only part of pandas.
  - Scores are integers, so non-integral scores are not modelled.
  - A Series is treated as a one-column table.
  - Column labels are strings, and the score range is a pair.
  - The ValueError for an argument that is no DataFrame or Series is left out, and so is the text of error messages.
- `Questionnaires.ReplaceMissingData`: returns a copy of the columns rather than the very object it filled, so the aliasing of the returned frame with the argument is not modelled.
- `Questionnaires.FindCols`: matches the patterns literally, as prefix, suffix or substring. Regular-expression syntax, `$` before a trailing newline and Unicode digits are not modelled.
- `Questionnaires.PadDigits`, `Questionnaires.CamelToSnake` and `Protocol.DefaultPrefix`: only ASCII digits and ASCII case are modelled, so letters outside ASCII are not lowered as Python's `str.lower` would.
- `Protocol.BaseProtocol.ComputeHrResults`, `Protocol.BaseProtocol.ComputeHrvResults` and `Protocol.BaseProtocol.ComputeHrEnsemble`: run the pipeline as a function over the list of enabled steps instead of reassigning `data_dict` step by step.
- `Protocol.BaseProtocol`:
  - the saliva sample-time and data dictionaries are Dafny maps, so their insertion order is not modelled;
  - nested saliva dictionaries and `DataFrame`-valued `params` are not modelled;
  - keyword arguments passed through to the transformers and the plotting wrappers are left out.
- `Pipelines.PickPhasesOf`: the rearranged data is taken to be a dictionary. For a single table the source would select its columns by label into a dictionary of series; the model does not represent columns as nodes and reports TypeError there.
- `Questionnaires.ConvertScaleInPlace`: `Selection` holds only Python ints and strings. In place, `convert_scale` dispatches on the type of the first element of `cols`, and any other type, such as the numpy integers that `to_idx` returns, leaves the table unchanged without an error. That silent no-op is not modelled: `Questionnaires.ToIdxSelects` describes selection by position, which is what `invert` does with the same argument.
- `Pipelines.HrvTop`: a single table given where the R-peak dictionary is expected raises ValidationError, as its first column fails the type check. A table without columns, for which the concatenation would raise ValueError instead, is not distinguished.
- `Hrv.Concat`: the index-level names of concatenated tables of different depths are approximated by `Hrv.Consensus`.
