/** The data a protocol works on: tables with (multi-)indexed rows, the nested
    study-data dictionaries whose leaves are tables, the values of the `params`
    dictionaries, and the collaborators (data-processing transformers, the HRV
    engine, saliva validators) whose code lies outside this model and which the
    protocol receives as function values. */
module StudyData {
  import opened Common
  import opened Entries

  /** One label of a row index: a string key or an integer position. */
  datatype Label = Name(name: string) | Position(pos: int)

  datatype Row = Row(index: seq<Label>, values: seq<real>)

  /** A pandas DataFrame: the names of its index levels (`None` when unnamed) and its rows. */
  datatype Table = Table(levels: seq<Option<string>>, rows: seq<Row>)

  /** A value stored in a nested study-data dictionary: a table, a nested
      dictionary, or any other Python value. */
  datatype Node =
    | Leaf(table: Table)
    | Branch(children: Entries<Node>)
    | Atom

  /** The protocol structure: study part -> phase -> subphase -> duration in
      seconds, with `None` for a level that has no finer division. */
  datatype Structure =
    | Undivided
    | Duration(seconds: int)
    | Divided(parts: Entries<Structure>)

  /** A value of a `params` dictionary. */
  datatype Param =
    | NoParam                           // Python's None
    | Text(text: string)                // a phase name
    | Names(names: seq<string>)         // a list of names
    | Durations(durations: Entries<int>) // subphase name -> seconds
    | Data(node: Node)                  // a table or a dictionary

  type Params = map<string, Param>

  /** `params.get(key, default)`. */
  function ParamOr(params: Params, key: string, default: Param): (r: Param)
    ensures key in params ==> r == params[key]
    ensures key !in params ==> r == default
  {
    if key in params then params[key] else default
  }

  /** The functions of `biopsykit.utils.data_processing`, the HRV engine and the
      saliva helpers. Each may raise, which is why each returns a `Result`. */
  datatype Library = Library(
    resampleDictSec: Node -> Result<Node>,
    normalizeToPhase: (Node, Param) -> Result<Node>,
    selectDictPhases: (Node, Param) -> Result<Node>,
    splitDictIntoSubphases: (Node, Param) -> Result<Node>,
    meanPerSubjectDict: (Node, Param, string) -> Result<Node>,
    addSubjectConditions: (Node, Param) -> Result<Node>,
    rearrangeSubjectDataDict: Node -> Result<Node>,
    cutPhasesToShortest: Node -> Result<Node>,
    mergeStudyDataDict: Node -> Result<Node>,
    splitSubjectConditions: (Node, Param) -> Result<Node>,
    hrvProcess: (Table, Params) -> Result<Table>,
    isStudyDataDict: Node -> bool,
    getSampleTimes: (Entries<Table>, Entries<Option<seq<int>>>, seq<int>) -> Result<map<string, seq<int>>>,
    isSalivaRawDataFrame: (Table, string) -> bool,
    isSalivaMeanSeDataFrame: Table -> bool,
    sampleTimesMatch: (Table, seq<int>) -> bool
  )
}
