/** The fixed-order processing pipelines of the protocol's `compute_*`
    operations, written as explicit lists of step descriptors: each enabled step
    appears once, with the parameter it takes from `params`, in the pipeline's
    fixed order; a disabled step is simply absent, which makes it the identity. */
module Pipelines {
  import opened Common
  import opened Entries
  import opened StudyData
  import opened Hrv

  /** One transformation step, with the parameter it was given. */
  datatype Step =
    | Resample
    | Normalize(reference: Param)
    | SelectPhases(phases: Param)
    | SplitSubphases(subphases: Param)
    | MeanPerSubject(levels: Param)
    | AddConditions(conditions: Param)
    | Rearrange
    | PickPhases(requested: Option<Param>)   // the inline selection of compute_hr_ensemble; None: key absent
    | CutToShortest
    | Merge
    | SplitConditions(conditions: Param)
    | Raise(error: Exception)             // a parameter lookup that raises before its step runs

  /** `for phase in param`: the names a parameter yields when iterated. */
  function IterNames(p: Param): (r: Result<seq<string>>)
    ensures p.Names? ==> r == Ok(p.names)
    ensures p.NoParam? ==> r.Err?
  {
    match p
    case Names(ns) => Ok(ns)
    case Text(s) => Ok(seq(|s|, i requires 0 <= i < |s| => [s[i]]))
    case Durations(d) => Ok(Keys(d))
    case Data(Branch(c)) => Ok(Keys(c))
    case _ => Err(TypeError)
  }

  /** The pairs `(phase, data_dict[phase])` for each requested phase, raising
      `KeyError` at the first unknown one. */
  function Lookups(c: Entries<Node>, names: seq<string>): Result<Entries<Node>> {
    if names == [] then Ok([])
    else
      match Get(c, names[0])
      case None => Err(KeyError(names[0]))
      case Some(v) =>
        var rest :- Lookups(c, names[1..]);
        Ok([(names[0], v)] + rest)
  }

  /** The lookups succeed exactly when every name is a key, pair each name with
      its data in the requested order, and otherwise report a missing name. */
  lemma {:induction false} LookupsMeaning(c: Entries<Node>, names: seq<string>)
    ensures Lookups(c, names).Ok? <==> forall i :: 0 <= i < |names| ==> names[i] in Keys(c)
    ensures Lookups(c, names).Ok? ==> Keys(Lookups(c, names).value) == names
    ensures Lookups(c, names).Ok? ==>
      forall i :: 0 <= i < |names| ==> Some(Lookups(c, names).value[i].1) == Get(c, names[i])
    ensures Lookups(c, names).Err? ==>
      exists i :: 0 <= i < |names| && names[i] !in Keys(c) && Lookups(c, names).error == KeyError(names[i])
  {
    if names != [] {
      LookupsMeaning(c, names[1..]);
      var rest := Lookups(c, names[1..]);
      match Get(c, names[0])
      case None =>
        assert names[0] !in Keys(c);
      case Some(v) =>
        if rest.Err? {
          var i :| 0 <= i < |names[1..]| && names[1..][i] !in Keys(c) && rest.error == KeyError(names[1..][i]);
          assert names[i + 1] !in Keys(c);
        } else {
          var r := [(names[0], v)] + rest.value;
          assert Keys(r) == [names[0]] + Keys(rest.value);
          assert names == [names[0]] + names[1..];
          forall i | 0 <= i < |names| ensures names[i] in Keys(c) {
            if i > 0 { assert names[i] == names[1..][i - 1]; }
          }
          forall i | 0 <= i < |names| ensures Some(r[i].1) == Get(c, names[i]) {
            if i > 0 { assert r[i] == rest.value[i - 1]; }
          }
        }
    }
  }

  /** `{phase: data_dict[phase] for phase in param}`, with `data_dict.keys()` as
      the default when `select_phases` is absent from `params`. The default is
      evaluated in either case, so data without `keys` raises `AttributeError`
      even when phases are given. */
  function PickPhasesOf(data: Node, p: Option<Param>): (r: Result<Node>)
    ensures data.Atom? ==> r == Err(AttributeError)
    ensures data.Leaf? ==> r == Err(TypeError)
    ensures data.Branch? && p.None? ==> r.Ok? && r.value.Branch? && forall k :: k in Keys(r.value.children) <==> k in Keys(data.children)
    ensures r.Ok? ==> r.value.Branch? && UniqueKeys(r.value.children)
  {
    match data
    case Branch(c) =>
      var names :- if p.Some? then IterNames(p.value) else Ok(Keys(c));
      LookupsMeaning(c, names);
      var pairs :- Lookups(c, names);
      Ok(Branch(FromPairs(pairs)))
    case Leaf(_) => Err(TypeError)
    case Atom => Err(AttributeError)
  }

  /** The selection keeps exactly the requested phases (repeats collapse into
      one), each with its data, and rejects an unknown phase. */
  lemma PickPhasesSelects(c: Entries<Node>, names: seq<string>)
    ensures (forall i :: 0 <= i < |names| ==> names[i] in Keys(c)) <==> PickPhasesOf(Branch(c), Some(Names(names))).Ok?
    ensures PickPhasesOf(Branch(c), Some(Names(names))).Ok? ==>
      var r := PickPhasesOf(Branch(c), Some(Names(names))).value;
      r.Branch? && UniqueKeys(r.children) &&
      (forall k :: k in Keys(r.children) <==> k in names) &&
      (forall k :: k in names ==> Get(r.children, k) == Get(c, k))
  {
    var l := Lookups(c, names);
    LookupsMeaning(c, names);
    if l.Ok? {
      forall k | k in names ensures Get(FromPairs(l.value), k) == Get(c, k) {
        var i :| 0 <= i < |names| && names[i] == k;
        var last := LastIndexOf(names, k, i);
        FromPairsGetsLast(l.value, last);
      }
    }
  }

  /** The last position of `k` in `names`, at or after `i`. */
  function LastIndexOf(names: seq<string>, k: string, i: nat): (r: nat)
    requires i < |names| && names[i] == k
    ensures i <= r < |names| && names[r] == k
    ensures forall j :: r < j < |names| ==> names[j] != k
    decreases |names| - i
  {
    if exists j :: i < j < |names| && names[j] == k then
      var j :| i < j < |names| && names[j] == k;
      LastIndexOf(names, k, j)
    else i
  }

  /** Without `select_phases` in `params` the inline selection keeps the data as it is. */
  lemma {:induction false} PickAllPhasesIsIdentity(c: Entries<Node>)
    requires UniqueKeys(c)
    ensures PickPhasesOf(Branch(c), None) == Ok(Branch(c))
  {
    var l := Lookups(c, Keys(c));
    LookupsMeaning(c, Keys(c));
    assert l.Ok?;
    assert Keys(l.value) == Keys(c);
    forall i | 0 <= i < |c| ensures l.value[i] == c[i] {
      IndexOfIs(c, c[i].0, i);
    }
    assert l.value == c;
    FromPairsOfDict(c);
  }

  /** One step applied to the working data. */
  function Apply(lib: Library, s: Step, data: Node): (r: Result<Node>)
    ensures s.Raise? ==> r == Err(s.error)
    ensures s.PickPhases? ==> r == PickPhasesOf(data, s.requested)
  {
    match s
    case Resample => lib.resampleDictSec(data)
    case Normalize(p) => lib.normalizeToPhase(data, p)
    case SelectPhases(p) => lib.selectDictPhases(data, p)
    case SplitSubphases(p) => lib.splitDictIntoSubphases(data, p)
    case MeanPerSubject(p) => lib.meanPerSubjectDict(data, p, "Heart_Rate")
    case AddConditions(p) => lib.addSubjectConditions(data, p)
    case Rearrange => lib.rearrangeSubjectDataDict(data)
    case PickPhases(p) => PickPhasesOf(data, p)
    case CutToShortest => lib.cutPhasesToShortest(data)
    case Merge => lib.mergeStudyDataDict(data)
    case SplitConditions(p) => lib.splitSubjectConditions(data, p)
    case Raise(e) => Err(e)
  }

  /** The steps applied in order; the first one that raises ends the run. */
  function Run(lib: Library, steps: seq<Step>, data: Node): (r: Result<Node>)
    ensures steps == [] ==> r == Ok(data)
    ensures r.Ok? ==> forall i :: 0 <= i < |steps| ==> !steps[i].Raise?
  {
    if steps == [] then Ok(data)
    else
      var next :- Apply(lib, steps[0], data);
      Run(lib, steps[1..], next)
  }

  /** Running two step lists one after the other is running their concatenation. */
  lemma {:induction false} RunAppend(lib: Library, a: seq<Step>, b: seq<Step>, data: Node)
    ensures Run(lib, a + b, data) ==
      match Run(lib, a, data)
      case Err(e) => Err(e)
      case Ok(mid) => Run(lib, b, mid)
    decreases |a|
  {
    if a == [] {
      assert a + b == b;
    } else {
      assert (a + b)[0] == a[0] && (a + b)[1..] == a[1..] + b;
      var next := Apply(lib, a[0], data);
      if next.Ok? {
        RunAppend(lib, a[1..], b, next.value);
      }
    }
  }

  /** A step that raises leaves nothing for the later steps to do. */
  lemma {:induction false} RunStopsAtRaise(lib: Library, a: seq<Step>, e: Exception, b: seq<Step>, data: Node)
    requires Run(lib, a, data).Ok?
    ensures Run(lib, a + [Raise(e)] + b, data) == Err(e)
  {
    RunAppend(lib, a + [Raise(e)], b, data);
    RunAppend(lib, a, [Raise(e)], data);
  }

  // ----- compute_hr_results -----------------------------------------------

  datatype HrFlags = HrFlags(
    resampleSec: bool, normalizeTo: bool, selectPhases: bool,
    splitIntoSubphases: bool, meanPerSubject: bool, addConditions: bool)

  /** The keyword defaults of `compute_hr_results`. */
  const DefaultHrFlags := HrFlags(true, false, false, false, true, false)

  /** The stage of the analysis a step belongs to. Every pipeline below runs
      its steps in increasing stage order. */
  function Stage(s: Step): nat {
    match s
    case Resample => 0
    case Normalize(_) => 1
    case Rearrange => 2
    case SelectPhases(_) => 3
    case PickPhases(_) => 3
    case SplitSubphases(_) => 4
    case CutToShortest => 5
    case MeanPerSubject(_) => 6
    case Merge => 7
    case AddConditions(_) => 8
    case SplitConditions(_) => 9
    case Raise(_) => 10
  }

  /** The steps run in strictly increasing stage order, so no stage runs twice. */
  predicate Ascending(steps: seq<Step>) {
    forall i, j :: 0 <= i < j < |steps| ==> Stage(steps[i]) < Stage(steps[j])
  }

  /** A pipeline's candidate steps, in order, each with whether it is enabled. */
  type Plan = seq<(bool, Step)>

  /** The enabled steps of a plan, in the plan's order. */
  function Enabled(plan: Plan): seq<Step> {
    if plan == [] then []
    else (if plan[0].0 then [plan[0].1] else []) + Enabled(plan[1..])
  }

  /** The candidates of a plan come in strictly increasing stage order. */
  predicate PlanAscending(plan: Plan) {
    forall i, j :: 0 <= i < j < |plan| ==> Stage(plan[i].1) < Stage(plan[j].1)
  }

  /** A step runs exactly when it is an enabled candidate of the plan. */
  lemma {:induction false} EnabledMembers(plan: Plan)
    ensures forall x :: x in Enabled(plan) <==> exists i :: 0 <= i < |plan| && plan[i] == (true, x)
    decreases |plan|
  {
    if plan != [] {
      var rest := Enabled(plan[1..]);
      EnabledMembers(plan[1..]);
      forall x | x in Enabled(plan)
        ensures exists i :: 0 <= i < |plan| && plan[i] == (true, x)
      {
        if x in rest {
          var i :| 0 <= i < |plan[1..]| && plan[1..][i] == (true, x);
          assert plan[i + 1] == (true, x);
        } else {
          assert plan[0] == (true, x);
        }
      }
      forall x, i | 0 <= i < |plan| && plan[i] == (true, x) ensures x in Enabled(plan) {
        if i > 0 {
          assert plan[1..][i - 1] == (true, x);
        }
      }
    }
  }

  /** The enabled steps keep the plan's stage order, so no stage runs twice. */
  lemma {:induction false} EnabledAscending(plan: Plan)
    requires PlanAscending(plan)
    ensures Ascending(Enabled(plan))
    decreases |plan|
  {
    if plan != [] {
      var rest := Enabled(plan[1..]);
      EnabledAscending(plan[1..]);
      EnabledMembers(plan[1..]);
      forall k | 0 <= k < |rest| ensures Stage(plan[0].1) < Stage(rest[k]) {
        assert rest[k] in rest;
        var i :| 0 <= i < |plan[1..]| && plan[1..][i] == (true, rest[k]);
        assert plan[i + 1] == (true, rest[k]);
      }
    }
  }

  /** The candidates of `compute_hr_results`, each with its entry of `params`
      (default `None`, and `["subject", "phase"]` for the mean's index levels). */
  function HrPlan(f: HrFlags, params: Params): (r: Plan)
    ensures |r| == 6 && PlanAscending(r)
  {
    [ (f.resampleSec, Resample),
      (f.normalizeTo, Normalize(ParamOr(params, "normalize_to", NoParam))),
      (f.selectPhases, SelectPhases(ParamOr(params, "select_phases", NoParam))),
      (f.splitIntoSubphases, SplitSubphases(ParamOr(params, "split_into_subphases", NoParam))),
      (f.meanPerSubject, MeanPerSubject(ParamOr(params, "mean_per_subject", Names(["subject", "phase"])))),
      (f.addConditions, AddConditions(ParamOr(params, "add_conditions", NoParam))) ]
  }

  /** The steps `compute_hr_results` runs. */
  function HrSteps(f: HrFlags, params: Params): (r: seq<Step>)
    ensures Ascending(r)
  {
    EnabledAscending(HrPlan(f, params));
    Enabled(HrPlan(f, params))
  }

  /** `compute_hr_results` runs exactly the enabled steps, each once, in the
      order resample, normalize, select, split, mean per subject, add conditions. */
  lemma HrStepsInOrder(f: HrFlags, params: Params)
    ensures Ascending(HrSteps(f, params))
    ensures forall s :: s in HrSteps(f, params) <==> exists i :: 0 <= i < 6 && HrPlan(f, params)[i] == (true, s)
    ensures f.normalizeTo ==> Normalize(ParamOr(params, "normalize_to", NoParam)) in HrSteps(f, params)
    ensures f.meanPerSubject ==> MeanPerSubject(ParamOr(params, "mean_per_subject", Names(["subject", "phase"]))) in HrSteps(f, params)
  {
    var plan := HrPlan(f, params);
    assert PlanAscending(plan);
    EnabledAscending(plan);
    EnabledMembers(plan);
    assert f.normalizeTo ==> plan[1] == (true, Normalize(ParamOr(params, "normalize_to", NoParam)));
    assert f.meanPerSubject ==> plan[4] == (true, MeanPerSubject(ParamOr(params, "mean_per_subject", Names(["subject", "phase"]))));
  }

  /** `params=None` is replaced by `{}` before any lookup. */
  function ParamsOrEmpty(params: Option<Params>): Params {
    if params.Some? then params.value else map[]
  }

  /** A plan with every candidate switched off leaves the data unchanged. */
  lemma {:induction false} AllStepsOffIsIdentity(lib: Library, plan: Plan, data: Node)
    requires forall i :: 0 <= i < |plan| ==> !plan[i].0
    ensures Run(lib, Enabled(plan), data) == Ok(data)
    decreases |plan|
  {
    if plan != [] {
      AllStepsOffIsIdentity(lib, plan[1..], data);
      assert !plan[0].0;
      assert Enabled(plan) == [] + Enabled(plan[1..]) == Enabled(plan[1..]);
    }
  }

  /** With the keyword defaults, `compute_hr_results` resamples and then takes
      the mean per subject over the levels `["subject", "phase"]`. */
  lemma DefaultHrPipeline()
    ensures HrSteps(DefaultHrFlags, map[]) == [Resample, MeanPerSubject(Names(["subject", "phase"]))]
  {
    var plan := HrPlan(DefaultHrFlags, map[]);
    assert Enabled(plan[5..]) == [] by { assert plan[5..][1..] == []; }
    assert Enabled(plan[4..]) == [MeanPerSubject(Names(["subject", "phase"]))] by { assert plan[4..][1..] == plan[5..]; }
    assert Enabled(plan[3..]) == Enabled(plan[4..]) by { assert plan[3..][1..] == plan[4..]; }
    assert Enabled(plan[2..]) == Enabled(plan[3..]) by { assert plan[2..][1..] == plan[3..]; }
    assert Enabled(plan[1..]) == Enabled(plan[2..]) by { assert plan[1..][1..] == plan[2..]; }
  }

  // ----- compute_hrv_results ----------------------------------------------

  datatype HrvFlags = HrvFlags(selectPhases: bool, splitIntoSubphases: bool, addConditions: bool)

  /** `dict_levels`, defaulting to `["subject", "phase"]` plus `"subphase"` when
      the phases are split into subphases. */
  function HrvLevels(dictLevels: Option<seq<string>>, split: bool): (r: seq<string>)
    ensures dictLevels.Some? ==> r == dictLevels.value
    ensures dictLevels.None? ==> |r| == (if split then 3 else 2) && r[..2] == ["subject", "phase"]
    ensures dictLevels.None? && split ==> r[2] == "subphase"
  {
    if dictLevels.Some? then dictLevels.value
    else if split then ["subject", "phase", "subphase"]
    else ["subject", "phase"]
  }

  /** The steps before the HRV computation: phase selection, then subphase splitting. */
  function HrvPreSteps(f: HrvFlags, params: Params): seq<Step> {
    Enabled([
      (f.selectPhases, SelectPhases(ParamOr(params, "select_phases", NoParam))),
      (f.splitIntoSubphases, SplitSubphases(ParamOr(params, "split_into_subphases", NoParam))) ])
  }

  /** `_compute_hrv_dict` applied to the working data: its `.items()` loop needs a dictionary. */
  function HrvTop(lib: Library, data: Node, hrvParams: Params, levels: seq<string>): (r: Result<Table>)
    ensures data.Leaf? ==> r == Err(ValidationError)
    ensures data.Atom? ==> r == Err(AttributeError)
    ensures r.Ok? ==> |levels| >= 1 && |r.value.levels| >= 1 && r.value.levels[0] == Some(levels[0])
  {
    match data
    case Branch(_) => HrvDict(lib, data, hrvParams, levels)
    case Leaf(_) => Err(ValidationError)
    case Atom => Err(AttributeError)
  }

  /** The whole of `compute_hrv_results` after the R-peak data is fetched:
      select, split, HRV recursion, drop of the innermost index level, and the
      optional conditions. */
  function HrvPipeline(lib: Library, data: Node, f: HrvFlags, levels: seq<string>, hrvParams: Params, params: Params): (r: Result<Node>)
    ensures levels == [] ==> r.Err?
    ensures r.Ok? && !f.addConditions ==>
      |levels| >= 1 && r.value.Leaf? && |r.value.table.levels| >= 1 && r.value.table.levels[0] == Some(levels[0])
  {
    var selected :- Run(lib, HrvPreSteps(f, params), data);
    var table :- HrvTop(lib, selected, hrvParams, levels);
    var dropped :- DropInnermost(table);
    if f.addConditions then lib.addSubjectConditions(Leaf(dropped), ParamOr(params, "add_conditions", NoParam))
    else Ok(Leaf(dropped))
  }

  /** With the default level names, no subphases and a subject -> phase
      dictionary of R-peak tables, the HRV result is indexed by exactly
      `subject` and `phase` once the engine's own unnamed level is dropped. */
  lemma DefaultHrvIndex(lib: Library, data: Node, hrvParams: Params)
    requires Uniform(data, 2)
    requires forall t: Table :: lib.hrvProcess(t, hrvParams).Ok? ==> lib.hrvProcess(t, hrvParams).value.levels == [None]
    requires HrvPipeline(lib, data, HrvFlags(false, false, false), HrvLevels(None, false), hrvParams, map[]).Ok?
    ensures HrvPipeline(lib, data, HrvFlags(false, false, false), HrvLevels(None, false), hrvParams, map[]).value.table.levels
      == [Some("subject"), Some("phase")]
  {
    var levels := HrvLevels(None, false);
    assert HrvPreSteps(HrvFlags(false, false, false), map[]) == [];
    HrvDictLevels(lib, data, hrvParams, levels, 2, [None]);
    assert levels[..2] == ["subject", "phase"];
    assert Named(["subject", "phase"]) == [Some("subject"), Some("phase")];
  }

  // ----- compute_hr_ensemble ----------------------------------------------

  datatype EnsembleFlags = EnsembleFlags(
    resampleSec: bool, normalizeTo: bool, selectPhases: bool,
    cutPhases: bool, mergeDict: bool, addConditions: bool)

  /** The keyword defaults of `compute_hr_ensemble`. */
  const DefaultEnsembleFlags := EnsembleFlags(true, true, false, true, true, false)

  /** `params.get(key, default)` where `params` may be `None`, which has no `get`. */
  function Lookup(params: Option<Params>, key: string, make: Param -> Step): (s: Step)
    ensures params.None? ==> s == Raise(AttributeError)
    ensures params.Some? && key in params.value ==> s == make(params.value[key])
    ensures params.Some? && key !in params.value ==> s == make(NoParam)
  {
    if params.None? then Raise(AttributeError) else make(ParamOr(params.value, key, NoParam))
  }

  /** The candidates of `compute_hr_ensemble`; rearranging is unconditional.
      `params` is NOT replaced by `{}` here, so a step that reads it raises when
      it is `None`. */
  function EnsemblePlan(f: EnsembleFlags, params: Option<Params>): (r: Plan)
    ensures |r| == 7 && r[2] == (true, Rearrange)
    ensures params.Some? ==> PlanAscending(r)
  {
    [ (f.resampleSec, Resample),
      (f.normalizeTo, Lookup(params, "normalize_to", p => Normalize(p))),
      (true, Rearrange),
      (f.selectPhases, EnsemblePick(params)),
      (f.cutPhases, CutToShortest),
      (f.mergeDict, Merge),
      (f.addConditions, Lookup(params, "add_conditions", p => SplitConditions(p))) ]
  }

  /** The inline selection, whose default is every key of the data. */
  function EnsemblePick(params: Option<Params>): Step {
    if params.None? then Raise(AttributeError)
    else PickPhases(if "select_phases" in params.value then Some(params.value["select_phases"]) else None)
  }

  /** The steps `compute_hr_ensemble` runs. */
  function EnsembleSteps(f: EnsembleFlags, params: Option<Params>): (r: seq<Step>)
    ensures Rearrange in r
    ensures params.Some? ==> Ascending(r)
  {
    var plan := EnsemblePlan(f, params);
    EnabledMembers(plan);
    assert params.Some? ==> Ascending(Enabled(plan)) by {
      if params.Some? {
        EnabledAscending(plan);
      }
    }
    Enabled(plan)
  }

  /** `compute_hr_ensemble` always rearranges, runs its steps in the order
      resample, normalize, rearrange, select, cut, merge, split by condition,
      and raises when a step reads `params` that is `None`. */
  lemma EnsembleStepsInOrder(f: EnsembleFlags, params: Option<Params>)
    ensures Rearrange in EnsembleSteps(f, params)
    ensures params.Some? ==> Ascending(EnsembleSteps(f, params))
    ensures params.None? && (f.normalizeTo || f.selectPhases || f.addConditions) ==>
      Raise(AttributeError) in EnsembleSteps(f, params)
  {
    var plan := EnsemblePlan(f, params);
    EnabledMembers(plan);
    assert plan[2] == (true, Rearrange);
    if params.Some? {
      assert PlanAscending(plan);
      EnabledAscending(plan);
    } else if f.normalizeTo {
      assert plan[1] == (true, Raise(AttributeError));
    } else if f.selectPhases {
      assert plan[3] == (true, Raise(AttributeError));
    } else if f.addConditions {
      assert plan[6] == (true, Raise(AttributeError));
    }
  }

  /** With the keyword defaults and `params=None`, `compute_hr_ensemble` raises
      right after resampling, before rearranging, cutting or merging. */
  lemma DefaultEnsembleWithoutParamsRaises(lib: Library, data: Node)
    requires lib.resampleDictSec(data).Ok?
    ensures Run(lib, EnsembleSteps(DefaultEnsembleFlags, None), data) == Err(AttributeError)
  {
    var steps := EnsembleSteps(DefaultEnsembleFlags, None);
    assert steps == [Resample] + [Raise(AttributeError)] + [Rearrange, CutToShortest, Merge];
    RunStopsAtRaise(lib, [Resample], AttributeError, [Rearrange, CutToShortest, Merge], data);
  }
}
