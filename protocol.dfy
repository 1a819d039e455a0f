/** `BaseProtocol`: the state of a psychological protocol (saliva data, heart
    rate and R-peak data per study part, and the results computed from them)
    and the operations that add data, compute results and name export files. */
module Protocol {
  import opened Common
  import opened Text
  import opened Entries
  import opened StudyData
  import opened Hrv
  import opened Pipelines

  /** The saliva data argument: nothing, one table for every saliva type, or a
      dictionary saliva type -> table. */
  datatype SalivaInput = NoData | OneTable(table: Table) | PerType(tables: Entries<Table>)

  /** The `saliva_type` argument: one type or a list of types. */
  datatype TypeArg = OneType(name: string) | TypeList(names: seq<string>)

  /** The `sample_times` argument: nothing, one list for every saliva type, or a
      dictionary saliva type -> list. */
  datatype TimesArg = NoTimes | TimesList(times: seq<int>) | TimesPerType(perType: Entries<seq<int>>)

  /** The saliva part of a protocol's state. */
  datatype SalivaState = SalivaState(
    types: Option<seq<string>>, testTimes: seq<int>,
    sampleTimes: map<string, seq<int>>, data: map<string, Table>)

  /** The state after `add_saliva_data`, and the exception it raised, if any. */
  datatype SalivaUpdate = SalivaUpdate(state: SalivaState, error: Option<Exception>)

  /** `study_part`, defaulting to `"Study"`. */
  function PartOr(studyPart: Option<string>): string {
    if studyPart.Some? then studyPart.value else "Study"
  }

  /** `{key: v for key in keys}`. */
  function Broadcast<V>(keys: seq<string>, v: V): (r: Entries<V>)
    ensures UniqueKeys(r)
    ensures forall k :: k in Keys(r) <==> k in keys
    ensures forall k :: k in keys ==> Get(r, k) == Some(v)
  {
    var pairs := seq(|keys|, i requires 0 <= i < |keys| => (keys[i], v));
    assert Keys(pairs) == keys;
    forall k | k in keys ensures Get(FromPairs(pairs), k) == Some(v) {
      var i :| 0 <= i < |keys| && keys[i] == k;
      FromPairsGetsLast(pairs, LastIndexOf(keys, k, i));
    }
    FromPairs(pairs)
  }

  /** The saliva types after the call: the keys of a data dictionary, else the
      `saliva_type` argument with a single name wrapped in a list. */
  function ResolveTypes(data: SalivaInput, salivaType: Option<TypeArg>): (r: Option<seq<string>>)
    ensures data.PerType? ==> r == Some(Keys(data.tables))
    ensures !data.PerType? && salivaType.Some? && salivaType.value.OneType? ==> r == Some([salivaType.value.name])
    ensures !data.PerType? && salivaType.Some? && salivaType.value.TypeList? ==> r == Some(salivaType.value.names)
    ensures !data.PerType? && salivaType.None? ==> r.None?
  {
    if data.PerType? then Some(Keys(data.tables))
    else match salivaType
      case None => None
      case Some(OneType(s)) => Some([s])
      case Some(TypeList(l)) => Some(l)
  }

  /** A table passes `_add_saliva_data` under `key`: its sample times are known,
      it is a raw or a mean/standard-error saliva table, and its sample times
      match. */
  predicate Acceptable(lib: Library, key: string, t: Table, sampleTimes: map<string, seq<int>>) {
    key in sampleTimes
    && (lib.isSalivaRawDataFrame(t, key) || lib.isSalivaMeanSeDataFrame(t))
    && lib.sampleTimesMatch(t, sampleTimes[key])
  }

  /** `_add_saliva_data` on a dictionary: the validated dictionary, or the
      first entry's exception. */
  function Validated(lib: Library, data: Entries<Table>, sampleTimes: map<string, seq<int>>): (r: Result<map<string, Table>>)
    ensures r.Ok? ==> forall k :: k in r.value ==> k in sampleTimes
    ensures r.Err? ==> r.error == ValidationError || (r.error.KeyError? && r.error.key !in sampleTimes)
    decreases |data|
  {
    if data == [] then Ok(map[])
    else
      var (k, t) := data[|data| - 1];
      var m :- Validated(lib, data[..|data| - 1], sampleTimes);
      if k !in sampleTimes then Err(KeyError(k))
      else if !(lib.isSalivaRawDataFrame(t, k) || lib.isSalivaMeanSeDataFrame(t)) then Err(ValidationError)
      else if !lib.sampleTimesMatch(t, sampleTimes[k]) then Err(ValidationError)
      else Ok(m[k := t])
  }

  /** Validation succeeds exactly when every entry is acceptable, and then
      keeps every entry; it fails with `KeyError` only for an entry whose sample
      times are unknown. */
  lemma {:induction false} ValidatedMeaning(lib: Library, data: Entries<Table>, sampleTimes: map<string, seq<int>>)
    ensures var r := Validated(lib, data, sampleTimes);
      (r.Ok? <==> forall i :: 0 <= i < |data| ==> Acceptable(lib, data[i].0, data[i].1, sampleTimes)) &&
      (r.Ok? ==> forall k :: k in r.value <==> k in Keys(data)) &&
      (r.Ok? && UniqueKeys(data) ==> forall i :: 0 <= i < |data| ==> data[i].0 in r.value && r.value[data[i].0] == data[i].1) &&
      (r.Err? ==> r.error == ValidationError || exists i :: 0 <= i < |data| && r.error == KeyError(data[i].0) && data[i].0 !in sampleTimes)
    decreases |data|
  {
    if data != [] {
      var init := data[..|data| - 1];
      var (k, t) := data[|data| - 1];
      ValidatedMeaning(lib, init, sampleTimes);
      assert Keys(data) == Keys(init) + [k];
      var r := Validated(lib, data, sampleTimes);
      var ri := Validated(lib, init, sampleTimes);
      if ri.Ok? && r.Ok? && UniqueKeys(data) {
        forall i | 0 <= i < |data| ensures data[i].0 in r.value && r.value[data[i].0] == data[i].1 {
          if i < |data| - 1 {
            assert init[i] == data[i];
            assert data[i].0 != k;
          }
        }
      }
      if ri.Err? {
        if ri.error != ValidationError {
          var i :| 0 <= i < |init| && ri.error == KeyError(init[i].0) && init[i].0 !in sampleTimes;
          assert data[i] == init[i];
        }
      }
    }
  }

  /** `add_saliva_data`: the saliva types and the test times are set first;
      then the sample times are extracted and merged in, and only then is the
      data validated, so an exception leaves those earlier updates in place. */
  function AddSaliva(lib: Library, s: SalivaState, data: SalivaInput, salivaType: Option<TypeArg>,
                     sampleTimes: TimesArg, testTimes: Option<seq<int>>): (r: SalivaUpdate)
    ensures r.state.types == ResolveTypes(data, salivaType)
    ensures r.state.testTimes == if testTimes.Some? then testTimes.value else s.testTimes
    ensures data.NoData? ==> r.error.None? && r.state.data == s.data && r.state.sampleTimes == s.sampleTimes
    ensures r.error.Some? ==> r.state.data == s.data
    ensures !data.NoData? && ResolveTypes(data, salivaType).None? ==>
      r.error == Some(TypeError) && r.state.sampleTimes == s.sampleTimes
    ensures !data.NoData? && ResolveTypes(data, salivaType).Some? ==>
      var types := ResolveTypes(data, salivaType).value;
      var extracted := lib.getSampleTimes(DataDict(data, types), TimesDict(sampleTimes, types), r.state.testTimes);
      (extracted.Err? ==> r.error == Some(extracted.error) && r.state.sampleTimes == s.sampleTimes) &&
      (extracted.Ok? ==> r.state.sampleTimes == s.sampleTimes + extracted.value)
  {
    var types := ResolveTypes(data, salivaType);
    var s1 := s.(types := types, testTimes := if testTimes.Some? then testTimes.value else s.testTimes);
    if data.NoData? then SalivaUpdate(s1, None)
    else if types.None? then SalivaUpdate(s1, Some(TypeError))
    else AddSalivaTables(lib, s1, DataDict(data, types.value), TimesDict(sampleTimes, types.value))
  }

  /** The sample-time argument as a dict from saliva type to sample times. */
  function TimesDict(sampleTimes: TimesArg, types: seq<string>): Entries<Option<seq<int>>> {
    match sampleTimes
    case NoTimes => Broadcast(types, None)
    case TimesList(l) => Broadcast(types, Some(l))
    case TimesPerType(e) => seq(|e|, i requires 0 <= i < |e| => (e[i].0, Some(e[i].1)))
  }

  /** The data argument as a dict from saliva type to table. */
  function DataDict(data: SalivaInput, types: seq<string>): Entries<Table>
    requires !data.NoData?
  {
    if data.PerType? then data.tables else Broadcast(types, data.table)
  }

  /** The part of `add_saliva_data` after the types are resolved: extract the
      sample times, then validate and store every table. */
  function AddSalivaTables(lib: Library, s: SalivaState, dataDict: Entries<Table>,
                           timesDict: Entries<Option<seq<int>>>): (r: SalivaUpdate)
    ensures r.state.types == s.types && r.state.testTimes == s.testTimes
    ensures r.error.Some? ==> r.state.data == s.data
    ensures r.error.None? ==> forall k :: k in s.data || k in Keys(dataDict) <==> k in r.state.data
    ensures lib.getSampleTimes(dataDict, timesDict, s.testTimes).Err? ==>
      r == SalivaUpdate(s, Some(lib.getSampleTimes(dataDict, timesDict, s.testTimes).error))
    ensures lib.getSampleTimes(dataDict, timesDict, s.testTimes).Ok? ==>
      r.state.sampleTimes == s.sampleTimes + lib.getSampleTimes(dataDict, timesDict, s.testTimes).value
  {
    match lib.getSampleTimes(dataDict, timesDict, s.testTimes)
    case Err(e) => SalivaUpdate(s, Some(e))
    case Ok(extracted) =>
      var s2 := s.(sampleTimes := s.sampleTimes + extracted);
      match Validated(lib, dataDict, s2.sampleTimes)
      case Err(e) => SalivaUpdate(s2, Some(e))
      case Ok(m) =>
        ValidatedMeaning(lib, dataDict, s2.sampleTimes);
        SalivaUpdate(s2.(data := s.data + m), None)
  }

  /** After a successful `add_saliva_data` every saliva table given is stored
      under its saliva type and passed validation, and the other stored tables
      are kept. A dictionary of tables is stored entry by entry; a single table
      is stored under every saliva type. */
  lemma AddSalivaStoresValidated(lib: Library, s: SalivaState, data: SalivaInput, salivaType: Option<TypeArg>,
                                 sampleTimes: TimesArg, testTimes: Option<seq<int>>)
    requires data.PerType? ==> UniqueKeys(data.tables)
    requires AddSaliva(lib, s, data, salivaType, sampleTimes, testTimes).error.None?
    ensures var s' := AddSaliva(lib, s, data, salivaType, sampleTimes, testTimes).state;
      data.PerType? ==>
      s'.types == Some(Keys(data.tables)) &&
      (forall i :: 0 <= i < |data.tables| ==>
        var (k, t) := data.tables[i];
        k in s'.data && s'.data[k] == t && Acceptable(lib, k, t, s'.sampleTimes)) &&
      (forall k :: k in s.data && k !in Keys(data.tables) ==> k in s'.data && s'.data[k] == s.data[k])
    ensures var s' := AddSaliva(lib, s, data, salivaType, sampleTimes, testTimes).state;
      data.OneTable? ==>
      ResolveTypes(data, salivaType).Some? &&
      (forall k :: k in ResolveTypes(data, salivaType).value ==>
        k in s'.data && s'.data[k] == data.table && Acceptable(lib, k, data.table, s'.sampleTimes)) &&
      (forall k :: k in s.data && k !in ResolveTypes(data, salivaType).value ==> k in s'.data && s'.data[k] == s.data[k])
  {
    if !data.NoData? {
      var types := ResolveTypes(data, salivaType);
      var s1 := s.(types := types, testTimes := if testTimes.Some? then testTimes.value else s.testTimes);
      var e := DataDict(data, types.value);
      var extracted := lib.getSampleTimes(e, TimesDict(sampleTimes, types.value), s1.testTimes).value;
      var s2 := s.sampleTimes + extracted;
      var m := Validated(lib, e, s2).value;
      assert AddSaliva(lib, s, data, salivaType, sampleTimes, testTimes).state ==
        s1.(sampleTimes := s2, data := s.data + m);
      if data.PerType? {
        ValidatedMeaning(lib, e, s2);
        forall i | 0 <= i < |e| ensures e[i].0 in Keys(e) {
          assert Keys(e)[i] == e[i].0;
        }
      } else {
        ValidatedBroadcast(lib, types.value, data.table, s2);
      }
    }
  }

  /** Validating one table broadcast to several saliva types stores it under
      each of them and under no other key. */
  lemma ValidatedBroadcast(lib: Library, types: seq<string>, t: Table, sampleTimes: map<string, seq<int>>)
    requires Validated(lib, Broadcast(types, t), sampleTimes).Ok?
    ensures var m := Validated(lib, Broadcast(types, t), sampleTimes).value;
      (forall k :: k in types ==> k in m && m[k] == t && Acceptable(lib, k, t, sampleTimes)) &&
      (forall k :: k in m ==> k in types)
  {
    var e := Broadcast(types, t);
    ValidatedMeaning(lib, e, sampleTimes);
    forall k | k in types
      ensures Acceptable(lib, k, t, sampleTimes)
    {
      var i := IndexOf(e, k);
      assert Get(e, k) == Some(t);
    }
  }

  /** Without saliva data only the saliva types and the test times change. */
  lemma AddSalivaWithoutData(lib: Library, s: SalivaState, salivaType: Option<TypeArg>,
                             sampleTimes: TimesArg, testTimes: Option<seq<int>>)
    ensures AddSaliva(lib, s, NoData, salivaType, sampleTimes, testTimes) ==
      SalivaUpdate(s.(types := ResolveTypes(NoData, salivaType),
                      testTimes := if testTimes.Some? then testTimes.value else s.testTimes), None)
  {
  }

  /** `compute_hr_results` before storing: the pipeline run on the study part's
      heart rate data, or `KeyError` when the study part has none. */
  function HrResultOf(lib: Library, hrData: map<string, Node>, studyPart: Option<string>, f: HrFlags, params: Option<Params>): (r: Result<Node>)
    ensures PartOr(studyPart) !in hrData ==> r == Err(KeyError(PartOr(studyPart)))
    ensures PartOr(studyPart) in hrData && f == HrFlags(false, false, false, false, false, false) ==>
      r == Ok(hrData[PartOr(studyPart)])
  {
    var part := PartOr(studyPart);
    if part !in hrData then Err(KeyError(part))
    else
      var plan := HrPlan(f, ParamsOrEmpty(params));
      assert f == HrFlags(false, false, false, false, false, false) ==> Run(lib, Enabled(plan), hrData[part]) == Ok(hrData[part]) by {
        if f == HrFlags(false, false, false, false, false, false) {
          AllStepsOffIsIdentity(lib, plan, hrData[part]);
        }
      }
      Run(lib, HrSteps(f, ParamsOrEmpty(params)), hrData[part])
  }

  /** `compute_hrv_results` before storing. */
  function HrvResultOf(lib: Library, rpeakData: map<string, Node>, studyPart: Option<string>, f: HrvFlags,
                       dictLevels: Option<seq<string>>, hrvParams: Option<Params>, params: Option<Params>): (r: Result<Node>)
    ensures PartOr(studyPart) !in rpeakData ==> r == Err(KeyError(PartOr(studyPart)))
    ensures r.Ok? && !f.addConditions && dictLevels.None? ==>
      r.value.Leaf? && |r.value.table.levels| >= 1 && r.value.table.levels[0] == Some("subject")
  {
    var part := PartOr(studyPart);
    if part !in rpeakData then Err(KeyError(part))
    else HrvPipeline(lib, rpeakData[part], f, HrvLevels(dictLevels, f.splitIntoSubphases),
                     ParamsOrEmpty(hrvParams), ParamsOrEmpty(params))
  }

  /** `compute_hr_ensemble` before storing. */
  function HrEnsembleOf(lib: Library, hrData: map<string, Node>, studyPart: Option<string>, f: EnsembleFlags, params: Option<Params>): (r: Result<Node>)
    ensures PartOr(studyPart) !in hrData ==> r == Err(KeyError(PartOr(studyPart)))
    ensures params.None? && (f.normalizeTo || f.selectPhases || f.addConditions) ==> r.Err?
  {
    EnsembleStepsInOrder(f, params);
    var part := PartOr(studyPart);
    if part !in hrData then Err(KeyError(part))
    else Run(lib, EnsembleSteps(f, params), hrData[part])
  }

  /** The stored results after a computation: the new result under its
      identifier on success, the old results otherwise. */
  function Stored(results: map<string, Node>, id: string, r: Result<Node>): map<string, Node> {
    if r.Ok? then results[id := r.value] else results
  }

  function ErrorOf<T>(r: Result<T>): Option<Exception> {
    if r.Ok? then None else Some(r.error)
  }

  /** The name of the CSV file a result is exported to. */
  function FileName(prefix: string, key: string): (n: string)
    ensures |n| == |prefix| + |key| + 5
    ensures n[..|prefix|] == prefix && n[|prefix|] == '_' && n[|prefix| + 1..|n| - 4] == key && n[|n| - 4..] == ".csv"
  {
    prefix + "_" + key + ".csv"
  }

  /** Different results of one export go to different files. */
  lemma FileNameInjective(prefix: string, k1: string, k2: string)
    requires FileName(prefix, k1) == FileName(prefix, k2)
    ensures k1 == k2
  {
    var n1, n2 := FileName(prefix, k1), FileName(prefix, k2);
    assert |k1| == |k2|;
    assert k1 == n1[|prefix| + 1..|n1| - 4];
    assert k2 == n2[|prefix| + 1..|n2| - 4];
  }

  /** The default export prefix: the protocol name in lower case with spaces
      replaced by underscores. */
  function DefaultPrefix(name: string): (r: string)
    ensures |r| == |name|
    ensures forall i :: 0 <= i < |r| ==> r[i] != ' ' && !IsUpper(r[i])
    ensures forall i :: 0 <= i < |r| ==> name[i] == ' ' || r[i] == LowerChar(name[i])
  {
    ReplaceChar(Lower(name), ' ', '_')
  }

  /** `_export_results`: the file name each result is written to, or
      `ValueError` when the base path is not a directory. */
  function ExportFiles(name: string, isDir: bool, prefix: Option<string>, results: map<string, Node>): (r: Result<map<string, string>>)
    ensures !isDir <==> r.Err?
    ensures r.Ok? ==> r.value.Keys == results.Keys
    ensures r.Ok? ==> forall k :: k in r.value ==>
      r.value[k] == FileName(if prefix.Some? then prefix.value else DefaultPrefix(name), k)
    ensures r.Ok? ==> forall k1, k2 :: k1 in r.value && k2 in r.value && k1 != k2 ==> r.value[k1] != r.value[k2]
  {
    if !isDir then Err(ValueError("'base_path' must be a directory!"))
    else
      var p := if prefix.Some? then prefix.value else DefaultPrefix(name);
      var files := map k | k in results :: FileName(p, k);
      forall k1, k2 | k1 in files && k2 in files && files[k1] == files[k2] ensures k1 == k2 {
        FileNameInjective(p, k1, k2);
      }
      Ok(files)
  }

  class BaseProtocol {
    var name: string
    var structure: Option<Structure>
    var salivaTypes: Option<seq<string>>
    var testTimes: seq<int>
    var sampleTimes: map<string, seq<int>>
    var salivaData: map<string, Table>
    var hrData: map<string, Node>
    var rpeakData: map<string, Node>
    var hrResults: map<string, Node>
    var hrvResults: map<string, Node>
    var hrEnsemble: map<string, Node>

    /** A protocol without data: no saliva types, test times `[0, 0]` unless
        given, and every dictionary empty. */
    constructor(name: string, structure: Option<Structure>, testTimes: Option<seq<int>>)
      ensures this.name == name && this.structure == structure
      ensures salivaTypes == Some([])
      ensures this.testTimes == if testTimes.Some? then testTimes.value else [0, 0]
      ensures sampleTimes == map[] && salivaData == map[]
      ensures hrData == map[] && rpeakData == map[]
      ensures hrResults == map[] && hrvResults == map[] && hrEnsemble == map[]
    {
      this.name := name;
      this.structure := structure;
      salivaTypes := Some([]);
      this.testTimes := if testTimes.Some? then testTimes.value else [0, 0];
      sampleTimes := map[];
      salivaData := map[];
      hrData := map[];
      rpeakData := map[];
      hrResults := map[];
      hrvResults := map[];
      hrEnsemble := map[];
    }

    function Saliva(): SalivaState
      reads this
    {
      SalivaState(salivaTypes, testTimes, sampleTimes, salivaData)
    }

    /** `_add_saliva_data` on a dictionary, one entry after the other. */
    method ValidateSaliva(lib: Library, data: Entries<Table>, times: map<string, seq<int>>) returns (r: Result<map<string, Table>>)
      ensures r == Validated(lib, data, times)
    {
      var result: map<string, Table> := map[];
      var i := 0;
      while i < |data|
        invariant 0 <= i <= |data|
        invariant Validated(lib, data[..i], times) == Ok(result)
      {
        var (key, value) := data[i];
        assert data[..i + 1][..i] == data[..i] && data[..i + 1][i] == data[i];
        if key !in times {
          PrefixFailureFails(lib, data, i + 1, times);
          return Err(KeyError(key));
        }
        if !(lib.isSalivaRawDataFrame(value, key) || lib.isSalivaMeanSeDataFrame(value)) {
          PrefixFailureFails(lib, data, i + 1, times);
          return Err(ValidationError);
        }
        if !lib.sampleTimesMatch(value, times[key]) {
          PrefixFailureFails(lib, data, i + 1, times);
          return Err(ValidationError);
        }
        result := result[key := value];
        i := i + 1;
      }
      assert data[..i] == data;
      r := Ok(result);
    }

    /** `add_saliva_data`. */
    method AddSalivaData(lib: Library, data: SalivaInput, salivaType: Option<TypeArg>,
                         sampleTimesArg: TimesArg, testTimesArg: Option<seq<int>>) returns (err: Option<Exception>)
      modifies this`salivaTypes, this`testTimes, this`sampleTimes, this`salivaData
      ensures AddSaliva(lib, old(Saliva()), data, salivaType, sampleTimesArg, testTimesArg) == SalivaUpdate(Saliva(), err)
    {
      salivaTypes := ResolveTypes(data, salivaType);
      if testTimesArg.Some? {
        testTimes := testTimesArg.value;
      }
      if data.NoData? {
        return None;
      }
      if salivaTypes.None? {
        return Some(TypeError);
      }
      var timesDict := TimesDict(sampleTimesArg, salivaTypes.value);
      var dataDict := DataDict(data, salivaTypes.value);
      ghost var goal := AddSalivaTables(lib, Saliva(), dataDict, timesDict);
      assert AddSaliva(lib, old(Saliva()), data, salivaType, sampleTimesArg, testTimesArg) == goal;
      var extracted := lib.getSampleTimes(dataDict, timesDict, testTimes);
      if extracted.Err? {
        return Some(extracted.error);
      }
      sampleTimes := sampleTimes + extracted.value;
      var validated := ValidateSaliva(lib, dataDict, sampleTimes);
      if validated.Err? {
        return Some(validated.error);
      }
      salivaData := salivaData + validated.value;
      err := None;
    }

    /** `add_hr_data`: heart rate data that is not a study data dictionary is
        rejected before anything changes. */
    method AddHrData(lib: Library, hr: Node, rpeak: Option<Node>, studyPart: Option<string>) returns (err: Option<Exception>)
      modifies this`hrData, this`rpeakData
      ensures !lib.isStudyDataDict(hr) ==> err == Some(ValidationError) && hrData == old(hrData) && rpeakData == old(rpeakData)
      ensures lib.isStudyDataDict(hr) ==> err.None? && hrData == old(hrData)[PartOr(studyPart) := hr]
      ensures lib.isStudyDataDict(hr) ==>
        rpeakData == if rpeak.Some? then old(rpeakData)[PartOr(studyPart) := rpeak.value] else old(rpeakData)
    {
      if !lib.isStudyDataDict(hr) {
        return Some(ValidationError);
      }
      var part := PartOr(studyPart);
      hrData := hrData[part := hr];
      if rpeak.Some? {
        rpeakData := rpeakData[part := rpeak.value];
      }
      err := None;
    }

    /** `compute_hr_results`: the pipeline on a copy of the study part's heart
        rate data; the result is stored only when no step raised. */
    method ComputeHrResults(lib: Library, resultId: string, studyPart: Option<string>, f: HrFlags, params: Option<Params>)
      returns (err: Option<Exception>)
      modifies this`hrResults
      ensures hrResults == Stored(old(hrResults), resultId, HrResultOf(lib, hrData, studyPart, f, params))
      ensures err == ErrorOf(HrResultOf(lib, hrData, studyPart, f, params))
    {
      var part := PartOr(studyPart);
      if part !in hrData {
        return Some(KeyError(part));
      }
      var r := Run(lib, HrSteps(f, ParamsOrEmpty(params)), hrData[part]);
      if r.Err? {
        return Some(r.error);
      }
      hrResults := hrResults[resultId := r.value];
      err := None;
    }

    /** `compute_hr_ensemble`: the ensemble pipeline on a copy of the study
        part's heart rate data; the result is stored only when no step raised. */
    method ComputeHrEnsemble(lib: Library, ensembleId: string, studyPart: Option<string>, f: EnsembleFlags, params: Option<Params>)
      returns (err: Option<Exception>)
      modifies this`hrEnsemble
      ensures hrEnsemble == Stored(old(hrEnsemble), ensembleId, HrEnsembleOf(lib, hrData, studyPart, f, params))
      ensures err == ErrorOf(HrEnsembleOf(lib, hrData, studyPart, f, params))
    {
      var part := PartOr(studyPart);
      if part !in hrData {
        return Some(KeyError(part));
      }
      var r := Run(lib, EnsembleSteps(f, params), hrData[part]);
      if r.Err? {
        return Some(r.error);
      }
      hrEnsemble := hrEnsemble[ensembleId := r.value];
      err := None;
    }

    /** `_compute_hrv_dict`: the HRV table of every R-peak table of a nested
        dictionary, concatenated level by level. */
    method ComputeHrvDict(lib: Library, d: Node, hrvParams: Params, levels: seq<string>) returns (r: Result<Table>)
      requires d.Branch?
      ensures r == HrvDict(lib, d, hrvParams, levels)
      decreases d, 1
    {
      var parts: Entries<Table> := [];
      var i := 0;
      PrefixedEmpty(HrvParts(lib, d, 0, hrvParams, levels));
      while i < |d.children|
        invariant 0 <= i <= |d.children|
        invariant HrvParts(lib, d, 0, hrvParams, levels) == Prefixed(parts, HrvParts(lib, d, i, hrvParams, levels))
      {
        var (key, value) := d.children[i];
        var x: Result<Table>;
        match value {
          case Leaf(table) =>
            x := lib.hrvProcess(table, hrvParams);
          case Branch(_) =>
            x := ComputeHrvDict(lib, value, hrvParams, Tail(levels));
          case Atom =>
            x := Err(ValidationError);
        }
        assert x == HrvItem(lib, d, i, hrvParams, levels);
        if x.Err? {
          return Err(x.error);
        }
        PrefixedStep(parts, (key, x.value), HrvParts(lib, d, i + 1, hrvParams, levels));
        parts := parts + [(key, x.value)];
        i := i + 1;
      }
      assert parts + [] == parts;
      if |levels| == 0 {
        return Err(IndexError);
      }
      r := Concat(parts, levels[0]);
    }

    /** `compute_hrv_results`. */
    method ComputeHrvResults(lib: Library, resultId: string, studyPart: Option<string>, f: HrvFlags,
                             dictLevels: Option<seq<string>>, hrvParams: Option<Params>, params: Option<Params>)
      returns (err: Option<Exception>)
      modifies this`hrvResults
      ensures hrvResults == Stored(old(hrvResults), resultId, HrvResultOf(lib, rpeakData, studyPart, f, dictLevels, hrvParams, params))
      ensures err == ErrorOf(HrvResultOf(lib, rpeakData, studyPart, f, dictLevels, hrvParams, params))
    {
      var part := PartOr(studyPart);
      var levels := HrvLevels(dictLevels, f.splitIntoSubphases);
      if part !in rpeakData {
        return Some(KeyError(part));
      }
      var data := rpeakData[part];
      var hp := ParamsOrEmpty(hrvParams);
      var p := ParamsOrEmpty(params);
      ghost var goal := HrvPipeline(lib, data, f, levels, hp, p);
      assert goal == HrvResultOf(lib, rpeakData, studyPart, f, dictLevels, hrvParams, params);
      var selected := Run(lib, HrvPreSteps(f, p), data);
      if selected.Err? {
        return Some(selected.error);
      }
      data := selected.value;
      var hrv: Result<Table>;
      if data.Leaf? {
        hrv := Err(ValidationError);
      } else if data.Atom? {
        hrv := Err(AttributeError);
      } else {
        hrv := ComputeHrvDict(lib, data, hp, levels);
      }
      assert hrv == HrvTop(lib, data, hp, levels);
      if hrv.Err? {
        return Some(hrv.error);
      }
      var dropped := DropInnermost(hrv.value);
      if dropped.Err? {
        return Some(dropped.error);
      }
      var result := Leaf(dropped.value);
      if f.addConditions {
        var r := lib.addSubjectConditions(result, ParamOr(p, "add_conditions", NoParam));
        if r.Err? { return Some(r.error); }
        result := r.value;
      }
      assert goal == Ok(result);
      hrvResults := hrvResults[resultId := result];
      err := None;
    }

    /** `add_hr_results`. */
    method AddHrResults(resultId: string, results: Node)
      modifies this`hrResults
      ensures GetHrResults(resultId) == Some(results)
      ensures forall id :: id != resultId ==> GetHrResults(id) == old(GetHrResults(id))
    {
      hrResults := hrResults[resultId := results];
    }

    /** `get_hr_results`: the stored result, or `None`. */
    function GetHrResults(resultId: string): (r: Option<Node>)
      reads this
      ensures r.None? <==> resultId !in hrResults
      ensures r.Some? ==> r.value == hrResults[resultId]
    {
      if resultId in hrResults then Some(hrResults[resultId]) else None
    }

    /** `add_hrv_results`. */
    method AddHrvResults(resultId: string, results: Node)
      modifies this`hrvResults
      ensures GetHrvResults(resultId) == Some(results)
      ensures forall id :: id != resultId ==> GetHrvResults(id) == old(GetHrvResults(id))
    {
      hrvResults := hrvResults[resultId := results];
    }

    /** `get_hrv_results`: the stored result, or `None`. */
    function GetHrvResults(resultId: string): (r: Option<Node>)
      reads this
      ensures r.None? <==> resultId !in hrvResults
      ensures r.Some? ==> r.value == hrvResults[resultId]
    {
      if resultId in hrvResults then Some(hrvResults[resultId]) else None
    }

    /** `add_hr_ensemble`. */
    method AddHrEnsemble(ensembleId: string, ensemble: Node)
      modifies this`hrEnsemble
      ensures GetHrEnsemble(ensembleId) == Some(ensemble)
      ensures forall id :: id != ensembleId ==> GetHrEnsemble(id) == old(GetHrEnsemble(id))
    {
      hrEnsemble := hrEnsemble[ensembleId := ensemble];
    }

    /** `get_hr_ensemble`: the stored ensemble, or `None`. */
    function GetHrEnsemble(ensembleId: string): (r: Option<Node>)
      reads this
      ensures r.None? <==> ensembleId !in hrEnsemble
      ensures r.Some? ==> r.value == hrEnsemble[ensembleId]
    {
      if ensembleId in hrEnsemble then Some(hrEnsemble[ensembleId]) else None
    }

    /** `export_hr_results`: one file per heart rate result. */
    function ExportHrResults(isDir: bool, prefix: Option<string>): (r: Result<map<string, string>>)
      reads this
      ensures r.Ok? ==> r.value.Keys == hrResults.Keys
    {
      ExportFiles(name, isDir, prefix, hrResults)
    }

    /** `export_hrv_results`: one file per HRV result. */
    function ExportHrvResults(isDir: bool, prefix: Option<string>): (r: Result<map<string, string>>)
      reads this
      ensures r.Ok? ==> r.value.Keys == hrvResults.Keys
    {
      ExportFiles(name, isDir, prefix, hrvResults)
    }
  }

  /** If some entry of a prefix fails validation, the whole dictionary does. */
  lemma {:induction false} PrefixFailureFails(lib: Library, data: Entries<Table>, n: nat, times: map<string, seq<int>>)
    requires n <= |data|
    requires Validated(lib, data[..n], times).Err?
    ensures Validated(lib, data, times) == Validated(lib, data[..n], times)
    decreases |data| - n
  {
    if n < |data| {
      assert data[..n + 1][..n] == data[..n];
      PrefixFailureFails(lib, data, n + 1, times);
    } else {
      assert data[..n] == data;
    }
  }

  /** The entries `parts` followed by the outcome `r` of the rest of a loop. */
  function Prefixed<V>(parts: Entries<V>, r: Result<Entries<V>>): Result<Entries<V>> {
    match r
    case Err(e) => Err(e)
    case Ok(rest) => Ok(parts + rest)
  }

  lemma PrefixedEmpty<V>(r: Result<Entries<V>>)
    ensures Prefixed([], r) == r
  {
    if r.Ok? {
      assert [] + r.value == r.value;
    }
  }

  lemma PrefixedStep<V>(parts: Entries<V>, kv: (string, V), next: Result<Entries<V>>)
    ensures Prefixed(parts, match next case Err(e) => Err(e) case Ok(rest) => Ok([kv] + rest)) ==
      Prefixed(parts + [kv], next)
  {
    if next.Ok? {
      assert parts + ([kv] + next.value) == (parts + [kv]) + next.value;
    }
  }
}
