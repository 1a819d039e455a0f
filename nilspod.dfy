/** The NilsPod helpers of the io package: the corruption check and
    classification of a recording from its sample counter, and the phase
    names under which the recordings of a folder are loaded. */
module NilsPod {
  import opened Common
  import opened Text
  import opened Entries

  /** `np.diff(counter)`: the steps between consecutive counter values. */
  function Diffs(c: seq<int>): (d: seq<int>)
    ensures |d| == if |c| < 2 then 0 else |c| - 1
    ensures forall i :: 0 <= i < |d| ==> d[i] == c[i + 1] - c[i]
  {
    if |c| < 2 then [] else seq(|c| - 1, i requires 0 <= i < |c| - 1 => c[i + 1] - c[i])
  }

  /** `np.where(d != 1)[0]` restricted to the positions from `k` on. */
  function BadFrom(d: seq<int>, k: nat): (r: seq<nat>)
    requires k <= |d|
    ensures forall i :: 0 <= i < |r| ==> k <= r[i] < |d| && d[r[i]] != 1
    ensures forall p :: k <= p < |d| && d[p] != 1 ==> p in r
    ensures forall i, j :: 0 <= i < j < |r| ==> r[i] < r[j]
    ensures |r| <= |d| - k
    decreases |d| - k
  {
    if k == |d| then []
    else (if d[k] != 1 then [k] else []) + BadFrom(d, k + 1)
  }

  /** `np.where(d != 1)[0]`: the positions of the steps that are not 1, ascending. */
  function BadSteps(d: seq<int>): (r: seq<nat>)
    ensures forall i :: 0 <= i < |r| ==> r[i] < |d| && d[r[i]] != 1
    ensures forall p :: 0 <= p < |d| && d[p] != 1 ==> p in r
    ensures forall i, j :: 0 <= i < j < |r| ==> r[i] < r[j]
    ensures |r| <= |d|
  {
    BadFrom(d, 0)
  }

  /** `check_nilspod_dataset_corrupted`: some step of the counter is not 1. */
  function IsCorrupted(c: seq<int>): (b: bool)
    ensures b <==> exists i :: 0 <= i < |c| - 1 && c[i + 1] != c[i] + 1
  {
    SomeBadStep(c);
    |BadSteps(Diffs(c))| != 0
  }

  lemma SomeBadStep(c: seq<int>)
    ensures |BadSteps(Diffs(c))| != 0 <==> exists i :: 0 <= i < |c| - 1 && c[i + 1] != c[i] + 1
  {
    var d := Diffs(c);
    if exists i :: 0 <= i < |c| - 1 && c[i + 1] != c[i] + 1 {
      var i :| 0 <= i < |c| - 1 && c[i + 1] != c[i] + 1;
      assert d[i] != 1 && i in BadSteps(d);
    }
    if |BadSteps(d)| != 0 {
      var i := BadSteps(d)[0];
      assert c[i + 1] != c[i] + 1;
    }
  }

  /** The `condition` entry of the corruption report. */
  datatype Condition = Fine | Lost | Parts | StartOnly | EndOnly

  function ConditionName(c: Condition): string {
    match c
    case Fine => "fine"
    case Lost => "lost"
    case Parts => "parts"
    case StartOnly => "start_only"
    case EndOnly => "end_only"
  }

  /** The report `get_nilspod_dataset_corrupted_info` returns; `None` where the
      report leaves an entry unset. */
  datatype Report = Report(name: Option<string>, percentCorrupt: Option<real>, condition: Condition)

  /** The decision rule for a corrupted recording, from the percentage of bad
      steps, the position of the first bad step and the number of bad steps. */
  function Classify(percent: real, first: nat, count: nat): (r: Condition)
    requires count > 0
    ensures r != Fine
  {
    if percent > 90.0 then Lost
    else if percent < 50.0 then
      var ratio := first as real / count as real;
      if ratio < 0.30 then StartOnly
      else if ratio > 0.70 then EndOnly
      else Parts
    else Parts
  }

  /** The share of bad steps in percent, `b` bad steps out of `n`. */
  function Percent(b: nat, n: nat): (p: real)
    requires 0 < b <= n
    ensures 0.0 < p <= 100.0
    ensures p * n as real == 100.0 * b as real
  {
    DivAbove(b as real, n as real, 0.0);
    DivAbove(b as real, n as real, 1.0);
    (b as real / n as real) * 100.0
  }

  /** `get_nilspod_dataset_corrupted_info(dataset, file_path)`. `nameMatch` is the
      group the NilsPod file-name pattern captures in the file name, `None` when
      the pattern does not match, which makes `.group(1)` raise AttributeError. */
  function CorruptedInfo(c: seq<int>, nameMatch: Option<string>): (r: Result<Report>)
    ensures !IsCorrupted(c) ==> r == Ok(Report(None, None, Fine))
    ensures IsCorrupted(c) ==> (r.Err? <==> nameMatch.None?)
    ensures IsCorrupted(c) && r.Ok? ==>
      r.value.name == nameMatch && r.value.condition != Fine &&
      r.value.percentCorrupt.Some? && 0.0 < r.value.percentCorrupt.value <= 100.0
    ensures IsCorrupted(c) && r.Ok? ==>
      r.value.percentCorrupt == Some(Percent(|BadSteps(Diffs(c))|, |Diffs(c)|))
  {
    if !IsCorrupted(c) then Ok(Report(None, None, Fine))
    else
      var d := Diffs(c);
      var bad := BadSteps(d);
      var percent := Percent(|bad|, |d|);
      var condition := Classify(percent, bad[0], |bad|);
      match nameMatch
      case None => Err(AttributeError)
      case Some(name) => Ok(Report(Some(name), Some(percent), condition))
  }

  lemma DivAbove(a: real, b: real, k: real)
    requires b > 0.0
    ensures a / b > k <==> a > k * b
  {
    var q := a / b;
    assert q * b == a;
    if q > k {
      assert q * b > k * b;
    }
    if a > k * b {
      assert q * b > k * b;
    }
  }

  lemma DivBelow(a: real, b: real, k: real)
    requires b > 0.0
    ensures a / b < k <==> a < k * b
  {
    var q := a / b;
    assert q * b == a;
    if q < k {
      assert q * b < k * b;
    }
    if a < k * b {
      assert q * b < k * b;
    }
  }

  /** The classification of a corrupted recording in whole numbers: with `b` of
      its `n` steps bad and the first at position `f`, it is lost above 90%,
      split into parts from 50% to 90%, and below 50% corrupted at the start,
      at the end or in parts as `f / b` lies below 0.3, above 0.7 or between. */
  lemma ClassifyByCounts(c: seq<int>, name: string)
    requires IsCorrupted(c)
    ensures var n := |Diffs(c)|;
      var b := |BadSteps(Diffs(c))|;
      var f := BadSteps(Diffs(c))[0];
      var cond := CorruptedInfo(c, Some(name)).value.condition;
      (cond == Lost <==> 10 * b > 9 * n) &&
      (cond == StartOnly <==> 2 * b < n && 10 * f < 3 * b) &&
      (cond == EndOnly <==> 2 * b < n && 10 * f > 7 * b) &&
      (cond == Parts <==> 10 * b <= 9 * n && (2 * b >= n || 3 * b <= 10 * f <= 7 * b))
  {
    var d := Diffs(c);
    var bad := BadSteps(d);
    ClassifyCounts(|bad|, |d|, bad[0]);
    assert CorruptedInfo(c, Some(name)).value.condition == Classify(Percent(|bad|, |d|), bad[0], |bad|);
  }

  /** The decision rule of `Classify` on the percentage of `b` bad steps out of
      `n`, with the first at `f`, in whole numbers. */
  lemma ClassifyCounts(b: nat, n: nat, f: nat)
    requires 0 < b <= n
    ensures var cond := Classify(Percent(b, n), f, b);
      (cond == Lost <==> 10 * b > 9 * n) &&
      (cond == StartOnly <==> 2 * b < n && 10 * f < 3 * b) &&
      (cond == EndOnly <==> 2 * b < n && 10 * f > 7 * b) &&
      (cond == Parts <==> 10 * b <= 9 * n && (2 * b >= n || 3 * b <= 10 * f <= 7 * b))
  {
    DivAbove(b as real, n as real, 0.9);
    DivBelow(b as real, n as real, 0.5);
    DivBelow(f as real, b as real, 0.30);
    DivAbove(f as real, b as real, 0.70);
  }

  /** As written, the ratio divides the first bad position by the number of bad
      steps: a recording with a single bad step anywhere but the very first step
      is classed as corrupted at the end once it has at least three steps. */
  lemma SingleBadStepIsEndOnly(c: seq<int>, name: string)
    requires |Diffs(c)| >= 3
    requires |BadSteps(Diffs(c))| == 1 && BadSteps(Diffs(c))[0] >= 1
    ensures IsCorrupted(c) && CorruptedInfo(c, Some(name)).value.condition == EndOnly
  {
    ClassifyByCounts(c, name);
  }

  // ---------------------------------------------------------------------------
  // load_folder_nilspod

  /** The default phase names `"Part0"`, ..., `"Part{n-1}"`. */
  function DefaultPhaseNames(n: nat): (r: seq<string>)
    ensures |r| == n
    ensures forall i :: 0 <= i < n ==> r[i] == "Part" + Decimal(i)
  {
    seq(n, i requires 0 <= i < n => "Part" + Decimal(i))
  }

  /** The default phase names are pairwise distinct. */
  lemma DefaultPhaseNamesDistinct(n: nat)
    ensures forall i, j :: 0 <= i < j < n ==> DefaultPhaseNames(n)[i] != DefaultPhaseNames(n)[j]
  {
    forall i, j | 0 <= i < j < n ensures DefaultPhaseNames(n)[i] != DefaultPhaseNames(n)[j] {
      if DefaultPhaseNames(n)[i] == DefaultPhaseNames(n)[j] {
        assert ("Part" + Decimal(i))[4..] == Decimal(i);
        assert ("Part" + Decimal(j))[4..] == Decimal(j);
        DecimalInjective(i, j);
      }
    }
  }

  /** The phase names for `n` recordings: the given list when its length is
      `n`, the defaults when none is given, and ValueError otherwise. */
  function PhaseNames(n: nat, given: Option<seq<string>>): (r: Result<seq<string>>)
    ensures r.Ok? <==> given.None? || |given.value| == n
    ensures r.Ok? ==> |r.value| == n
    ensures r.Ok? && given.Some? ==> r.value == given.value
    ensures r.Err? ==> r.error.ValueError?
  {
    var names := if given.Some? then given.value else DefaultPhaseNames(n);
    if |names| != n then Err(ValueError("Number of phases does not match number of datasets in the folder!"))
    else Ok(names)
  }

  /** The (phase, dataset) pairs, loading each file in turn; the first load that raises ends it. */
  function LoadAll<D>(names: seq<string>, paths: seq<string>, load: string -> Result<D>): (r: Result<Entries<D>>)
    requires |names| == |paths|
    ensures r.Ok? ==> Keys(r.value) == names
    ensures r.Err? ==> exists i :: 0 <= i < |paths| && load(paths[i]) == Err(r.error)
  {
    if names == [] then Ok([])
    else
      var first :- load(paths[0]);
      var rest :- LoadAll(names[1..], paths[1..], load);
      var all := [(names[0], first)] + rest;
      assert Keys(all) == names by {
        assert forall i :: 1 <= i < |all| ==> Keys(all)[i] == Keys(rest)[i - 1] == names[1..][i - 1];
      }
      Ok(all)
  }

  /** When every load succeeds, the pairs follow the names and the files one to one. */
  lemma {:induction false} LoadAllMeaning<D>(names: seq<string>, paths: seq<string>, load: string -> Result<D>)
    requires |names| == |paths|
    requires forall i :: 0 <= i < |paths| ==> load(paths[i]).Ok?
    ensures LoadAll(names, paths, load).Ok?
    ensures Keys(LoadAll(names, paths, load).value) == names
    ensures forall i :: 0 <= i < |names| ==> LoadAll(names, paths, load).value[i].1 == load(paths[i]).value
  {
    if names != [] {
      assert load(paths[0]).Ok?;
      assert forall i :: 0 <= i < |paths[1..]| ==> paths[1..][i] == paths[i + 1];
      LoadAllMeaning(names[1..], paths[1..], load);
      var rest := LoadAll(names[1..], paths[1..], load).value;
      var all := [(names[0], load(paths[0]).value)] + rest;
      assert forall i :: 1 <= i < |all| ==> all[i] == rest[i - 1];
    }
  }

  /** `load_folder_nilspod(folder_path, phase_names)` without the sampling rate:
      the `.bin` files of the folder in sorted order, each loaded under its
      phase name; later pairs win where phase names repeat. */
  function LoadFolder<D>(binFiles: seq<string>, phaseNames: Option<seq<string>>, load: string -> Result<D>): (r: Result<Entries<D>>)
    ensures phaseNames.Some? && |phaseNames.value| != |binFiles| ==> r.Err? && r.error.ValueError?
    ensures r.Ok? ==> UniqueKeys(r.value)
  {
    assert |Sort(binFiles)| == |binFiles| by {
      assert |multiset(Sort(binFiles))| == |multiset(binFiles)|;
    }
    LoadSorted(Sort(binFiles), phaseNames, load)
  }

  /** The loading step of `LoadFolder`, on the files once sorted. */
  function LoadSorted<D>(files: seq<string>, phaseNames: Option<seq<string>>, load: string -> Result<D>): (r: Result<Entries<D>>)
    ensures phaseNames.Some? && |phaseNames.value| != |files| ==> r.Err? && r.error.ValueError?
    ensures r.Ok? ==> UniqueKeys(r.value)
    ensures r.Ok? && phaseNames.Some? ==> forall k :: k in Keys(r.value) <==> k in phaseNames.value
  {
    var names :- PhaseNames(|files|, phaseNames);
    var pairs :- LoadAll(names, files, load);
    Ok(FromPairs(pairs))
  }

  /** Every file of the sorted list is one of the folder's files. */
  lemma SortedLoadsOk<D>(binFiles: seq<string>, load: string -> Result<D>)
    requires forall f :: f in binFiles ==> load(f).Ok?
    ensures forall i :: 0 <= i < |Sort(binFiles)| ==> load(Sort(binFiles)[i]).Ok?
  {
    var files := Sort(binFiles);
    forall i | 0 <= i < |files| ensures load(files[i]).Ok? {
      assert files[i] in multiset(files);
      assert files[i] in binFiles;
    }
  }

  /** Loading under the default names gives a dict with one entry per file. */
  lemma LoadAllDefaults<D>(files: seq<string>, load: string -> Result<D>)
    requires forall i :: 0 <= i < |files| ==> load(files[i]).Ok?
    ensures var r := LoadAll(DefaultPhaseNames(|files|), files, load);
      r.Ok? && UniqueKeys(r.value) && Keys(r.value) == DefaultPhaseNames(|files|) &&
      forall i :: 0 <= i < |files| ==> r.value[i].1 == load(files[i]).value
  {
    var names := DefaultPhaseNames(|files|);
    LoadAllMeaning(names, files, load);
    DefaultPhaseNamesDistinct(|files|);
    DistinctNamesUniqueKeys(LoadAll(names, files, load).value, names);
  }

  lemma DistinctNamesUniqueKeys<D>(e: Entries<D>, names: seq<string>)
    requires Keys(e) == names
    requires forall i, j :: 0 <= i < j < |names| ==> names[i] != names[j]
    ensures UniqueKeys(e)
  {
    forall i, j | 0 <= i < j < |e| ensures e[i].0 != e[j].0 {
      assert e[i].0 == Keys(e)[i] && e[j].0 == Keys(e)[j];
    }
  }

  /** Without phase names, the i-th of the given files is loaded under `"Part{i}"`. */
  lemma LoadSortedDefaults<D>(files: seq<string>, load: string -> Result<D>)
    requires forall i :: 0 <= i < |files| ==> load(files[i]).Ok?
    ensures var r := LoadSorted(files, None, load);
      r.Ok? && |r.value| == |files| &&
      forall i :: 0 <= i < |files| ==>
        r.value[i].0 == "Part" + Decimal(i) && load(files[i]) == Ok(r.value[i].1)
  {
    var names := DefaultPhaseNames(|files|);
    LoadAllDefaults(files, load);
    var pairs := LoadAll(names, files, load).value;
    assert LoadSorted(files, None, load) == Ok(pairs) by {
      assert PhaseNames(|files|, None) == Ok(names);
      FromPairsOfDict(pairs);
    }
    forall i | 0 <= i < |files| ensures pairs[i].0 == "Part" + Decimal(i) {
      assert pairs[i].0 == Keys(pairs)[i];
    }
  }

  /** Without phase names, the i-th file in sorted order is loaded under `"Part{i}"`. */
  lemma LoadFolderDefaults<D>(binFiles: seq<string>, load: string -> Result<D>)
    requires forall f :: f in binFiles ==> load(f).Ok?
    ensures var files := Sort(binFiles);
      LoadFolder(binFiles, None, load).Ok? &&
      |LoadFolder(binFiles, None, load).value| == |files| &&
      forall i :: 0 <= i < |files| ==>
        LoadFolder(binFiles, None, load).value[i].0 == "Part" + Decimal(i) &&
        load(files[i]) == Ok(LoadFolder(binFiles, None, load).value[i].1)
  {
    SortedLoadsOk(binFiles, load);
    LoadSortedDefaults(Sort(binFiles), load);
  }
}
