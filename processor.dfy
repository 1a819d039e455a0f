/** `_BaseProcessor`, the base of the signal processors: it keeps the sampling
    rate and the recording as a dict from phase name to data, normalising a
    single recording into such a dict. */
module Processors {
  import opened Common
  import opened Entries

  /** The `data` argument: a dict of phases, or one recording. */
  datatype Input<T> = Dict(phases: Entries<T>) | Single(table: T)

  /** The phase dict the constructor stores. A dict is taken as it is, whatever
      the time intervals; a single recording is cut into phases by `split`
      (`split_data`, not part of this model) when time intervals are given,
      and is the one phase `"Data"` otherwise. */
  function PhaseData<T, I>(data: Input<T>, timeIntervals: Option<I>, includeStart: bool,
                           split: (T, I, bool) -> Entries<T>): (r: Entries<T>)
    ensures data.Dict? ==> r == data.phases
    ensures data.Single? && timeIntervals.None? ==> Keys(r) == ["Data"] && r[0].1 == data.table
    ensures data.Single? && timeIntervals.Some? ==> r == split(data.table, timeIntervals.value, includeStart)
  {
    match data
    case Dict(phases) => phases
    case Single(table) =>
      match timeIntervals
      case Some(intervals) => split(table, intervals, includeStart)
      case None => [("Data", table)]
  }

  class Processor<T> {
    /** The sampling rate, as given. */
    var samplingRate: Option<real>
    /** The recording, split into phases. */
    var data: Entries<T>

    constructor<I>(data: Input<T>, samplingRate: Option<real>, timeIntervals: Option<I>, includeStart: bool,
                   split: (T, I, bool) -> Entries<T>)
      ensures this.samplingRate == samplingRate
      ensures this.data == PhaseData(data, timeIntervals, includeStart, split)
    {
      this.samplingRate := samplingRate;
      this.data := PhaseData(data, timeIntervals, includeStart, split);
    }

    /** `phases`: the phase names in the order of the dict. */
    function Phases(): (r: seq<string>)
      reads this
      ensures |r| == |data| && forall i :: 0 <= i < |r| ==> r[i] == data[i].0
    {
      Keys(data)
    }
  }
}
