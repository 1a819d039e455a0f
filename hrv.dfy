/** The recursive heart-rate-variability computation over a nested dictionary of
    R-peak tables: the HRV engine runs once per leaf table, sibling results are
    concatenated under a new outer index level named by the next entry of the
    level-name list, and the engine's own innermost index level is dropped at
    the end. */
module Hrv {
  import opened Common
  import opened Entries
  import opened StudyData

  /** `levels[1:]`, which is `[]` for an empty list. */
  function Tail(levels: seq<string>): (r: seq<string>)
    ensures |levels| > 0 ==> r == levels[1..]
    ensures |levels| == 0 ==> r == []
  {
    if |levels| == 0 then [] else levels[1..]
  }

  /** Row indices with `labels` put in front, as `pd.concat` with dictionary keys does. */
  function PrefixRows(labels: seq<Label>, rows: seq<Row>): (r: seq<Row>)
    ensures |r| == |rows|
    ensures forall j :: 0 <= j < |rows| ==> r[j] == Row(labels + rows[j].index, rows[j].values)
  {
    seq(|rows|, j requires 0 <= j < |rows| => Row(labels + rows[j].index, rows[j].values))
  }

  /** The rows of `pd.concat(d)`: each table's rows, in key order, under its key. */
  function ConcatRows(parts: Entries<Table>): seq<Row> {
    if parts == [] then [] else PrefixRows([Name(parts[0].0)], parts[0].1.rows) + ConcatRows(parts[1..])
  }

  predicate AnyNamed(levels: seq<Option<string>>) {
    exists i :: 0 <= i < |levels| && levels[i].Some?
  }

  function NamedOnly(tables: seq<Table>): (r: seq<Table>)
    ensures forall j :: 0 <= j < |r| ==> AnyNamed(r[j].levels)
    ensures forall j :: 0 <= j < |r| ==> r[j] in tables
  {
    if tables == [] then []
    else if AnyNamed(tables[0].levels) then [tables[0]] + NamedOnly(tables[1..])
    else NamedOnly(tables[1..])
  }

  /** The inner level names pandas keeps when it concatenates `tables`: the names
      shared by every table that has any name at all, otherwise all `None`. */
  function Consensus(tables: seq<Table>): seq<Option<string>>
    requires |tables| > 0
  {
    var named := NamedOnly(tables);
    if |named| > 0 && forall j :: 0 <= j < |named| ==> named[j].levels == named[0].levels
    then named[0].levels
    else seq(|tables[0].levels|, _ => None)
  }

  /** Tables that all have the same level names keep them through concatenation. */
  lemma ConsensusOfEqual(tables: seq<Table>, n: seq<Option<string>>)
    requires |tables| > 0
    requires forall j :: 0 <= j < |tables| ==> tables[j].levels == n
    ensures Consensus(tables) == n
  {
    var named := NamedOnly(tables);
    if !AnyNamed(n) {
      NamedOnlyNone(tables);
      assert forall i :: 0 <= i < |n| ==> n[i] == None;
    } else {
      assert AnyNamed(tables[0].levels);
      NamedOnlyKeepsNamed(tables);
      assert |named| > 0;
      assert named[0] in tables;
      assert forall j :: 0 <= j < |named| ==> named[j] in tables;
    }
  }

  lemma {:induction false} NamedOnlyNone(tables: seq<Table>)
    requires forall j :: 0 <= j < |tables| ==> !AnyNamed(tables[j].levels)
    ensures NamedOnly(tables) == []
  {
    if tables != [] {
      NamedOnlyNone(tables[1..]);
    }
  }

  lemma {:induction false} NamedOnlyKeepsNamed(tables: seq<Table>)
    requires |tables| > 0 && AnyNamed(tables[0].levels)
    ensures |NamedOnly(tables)| > 0
  {
  }

  /** `pd.concat(result_dict, names=[name])`. */
  function Concat(parts: Entries<Table>, name: string): (r: Result<Table>)
    ensures parts == [] <==> r.Err?
    ensures r.Ok? ==> r.value.rows == ConcatRows(parts)
    ensures r.Ok? ==> |r.value.levels| >= 1 && r.value.levels[0] == Some(name)
  {
    if parts == [] then Err(ValueError("No objects to concatenate"))
    else
      var tables := seq(|parts|, j requires 0 <= j < |parts| => parts[j].1);
      Ok(Table([Some(name)] + Consensus(tables), ConcatRows(parts)))
  }

  /** `_compute_hrv_dict(d, hrv_params, levels)` for a dictionary `d`. */
  function HrvDict(lib: Library, d: Node, params: Params, levels: seq<string>): (r: Result<Table>)
    requires d.Branch?
    ensures d.children == [] || levels == [] ==> r.Err?
    ensures r.Ok? ==> |r.value.levels| >= 1 && r.value.levels[0] == Some(levels[0])
    decreases d, 1
  {
    var parts :- HrvParts(lib, d, 0, params, levels);
    if |levels| == 0 then Err(IndexError) else Concat(parts, levels[0])
  }

  /** The loop of `_compute_hrv_dict` from entry `i` on: each table goes to the
      HRV engine, each nested dictionary to a recursive call with the first level
      name consumed, anything else is rejected. */
  function HrvParts(lib: Library, d: Node, i: nat, params: Params, levels: seq<string>): (r: Result<Entries<Table>>)
    requires d.Branch? && i <= |d.children|
    ensures r.Ok? ==> |r.value| == |d.children| - i
    ensures r.Ok? ==> forall k :: 0 <= k < |r.value| ==> r.value[k].0 == d.children[i + k].0
    decreases d, 0, |d.children| - i, 1
  {
    if i == |d.children| then Ok([])
    else
      var t :- HrvItem(lib, d, i, params, levels);
      var rest :- HrvParts(lib, d, i + 1, params, levels);
      Ok([(d.children[i].0, t)] + rest)
  }

  /** The HRV table of entry `i` of `d`. */
  function HrvItem(lib: Library, d: Node, i: nat, params: Params, levels: seq<string>): (r: Result<Table>)
    requires d.Branch? && i < |d.children|
    ensures d.children[i].1.Atom? ==> r == Err(ValidationError)
    ensures d.children[i].1.Branch? && r.Ok? ==>
      |levels| >= 2 && |r.value.levels| >= 1 && r.value.levels[0] == Some(levels[1])
    decreases d, 0, |d.children| - i, 0
  {
    var v := d.children[i].1;
    match v
    case Leaf(table) => lib.hrvProcess(table, params)
    case Branch(_) => HrvDict(lib, v, params, Tail(levels))
    case Atom => Err(ValidationError)
  }

  /** The leaf tables of a nested dictionary, depth first, each with its key path. */
  function LeavesOf(d: Node): seq<(seq<string>, Table)>
    decreases d, 1
  {
    match d
    case Leaf(t) => [([], t)]
    case Atom => []
    case Branch(_) => LeavesFrom(d, 0)
  }

  function LeavesFrom(d: Node, i: nat): seq<(seq<string>, Table)>
    requires d.Branch? && i <= |d.children|
    decreases d, 0, |d.children| - i
  {
    if i == |d.children| then []
    else Under(d.children[i].0, LeavesOf(d.children[i].1)) + LeavesFrom(d, i + 1)
  }

  function Under(k: string, leaves: seq<(seq<string>, Table)>): seq<(seq<string>, Table)> {
    seq(|leaves|, j requires 0 <= j < |leaves| => ([k] + leaves[j].0, leaves[j].1))
  }

  function NamesOf(path: seq<string>): (r: seq<Label>)
    ensures |r| == |path|
  {
    seq(|path|, j requires 0 <= j < |path| => Name(path[j]))
  }

  /** Reference definition: run the HRV engine once on every leaf, in depth-first
      order, and label each resulting row with its leaf's key path. */
  function RowsOfLeaves(lib: Library, params: Params, leaves: seq<(seq<string>, Table)>): Result<seq<Row>> {
    if leaves == [] then Ok([])
    else
      var t :- lib.hrvProcess(leaves[0].1, params);
      var rest :- RowsOfLeaves(lib, params, leaves[1..]);
      Ok(PrefixRows(NamesOf(leaves[0].0), t.rows) + rest)
  }

  lemma {:induction false} RowsOfLeavesAppend(lib: Library, params: Params, a: seq<(seq<string>, Table)>, b: seq<(seq<string>, Table)>)
    ensures RowsOfLeaves(lib, params, a + b) ==
      (match RowsOfLeaves(lib, params, a)
       case Err(e) => Err(e)
       case Ok(ra) => match RowsOfLeaves(lib, params, b)
         case Err(e) => Err(e)
         case Ok(rb) => Ok(ra + rb))
    decreases |a|
  {
    if a != [] {
      assert (a + b)[0] == a[0];
      assert (a + b)[1..] == a[1..] + b;
      RowsOfLeavesAppend(lib, params, a[1..], b);
      var t := lib.hrvProcess(a[0].1, params);
      if t.Ok? {
        var ra, rb := RowsOfLeaves(lib, params, a[1..]), RowsOfLeaves(lib, params, b);
        if ra.Ok? && rb.Ok? {
          assert PrefixRows(NamesOf(a[0].0), t.value.rows) + (ra.value + rb.value)
            == (PrefixRows(NamesOf(a[0].0), t.value.rows) + ra.value) + rb.value;
        }
      }
    } else {
      assert a + b == b;
      var rb := RowsOfLeaves(lib, params, b);
      if rb.Ok? {
        assert [] + rb.value == rb.value;
      }
    }
  }

  lemma PrefixRowsTwice(k: Label, labels: seq<Label>, rows: seq<Row>)
    ensures PrefixRows([k], PrefixRows(labels, rows)) == PrefixRows([k] + labels, rows)
  {
    assert forall j :: 0 <= j < |rows| ==> [k] + (labels + rows[j].index) == ([k] + labels) + rows[j].index;
  }

  lemma {:induction false} RowsOfLeavesUnder(lib: Library, params: Params, k: string, leaves: seq<(seq<string>, Table)>)
    ensures RowsOfLeaves(lib, params, Under(k, leaves)) ==
      (match RowsOfLeaves(lib, params, leaves)
       case Err(e) => Err(e)
       case Ok(rs) => Ok(PrefixRows([Name(k)], rs)))
    decreases |leaves|
  {
    if leaves != [] {
      assert Under(k, leaves)[1..] == Under(k, leaves[1..]);
      RowsOfLeavesUnder(lib, params, k, leaves[1..]);
      var t := lib.hrvProcess(leaves[0].1, params);
      if t.Ok? {
        assert NamesOf([k] + leaves[0].0) == [Name(k)] + NamesOf(leaves[0].0);
        PrefixRowsTwice(Name(k), NamesOf(leaves[0].0), t.value.rows);
        var rest := RowsOfLeaves(lib, params, leaves[1..]);
        if rest.Ok? {
          assert PrefixRows([Name(k)], PrefixRows(NamesOf(leaves[0].0), t.value.rows) + rest.value)
            == PrefixRows([Name(k)], PrefixRows(NamesOf(leaves[0].0), t.value.rows)) + PrefixRows([Name(k)], rest.value);
        }
      }
    }
  }

  /** The HRV engine ran successfully exactly once per leaf table, in depth-first
      order, and the result holds exactly its rows, each under its leaf's key path. */
  lemma {:induction false} HrvDictIsOncePerLeaf(lib: Library, d: Node, params: Params, levels: seq<string>)
    requires d.Branch?
    requires HrvDict(lib, d, params, levels).Ok?
    ensures RowsOfLeaves(lib, params, LeavesOf(d)) == Ok(HrvDict(lib, d, params, levels).value.rows)
    decreases d, 1
  {
    HrvPartsIsOncePerLeaf(lib, d, 0, params, levels);
  }

  /** A single table's rows are the rows the HRV engine returned for it. */
  lemma LeafRows(lib: Library, params: Params, table: Table, t: Table)
    requires lib.hrvProcess(table, params) == Ok(t)
    ensures RowsOfLeaves(lib, params, LeavesOf(Leaf(table))) == Ok(t.rows)
  {
    assert LeavesOf(Leaf(table)) == [([], table)];
    assert NamesOf([]) == [];
    assert forall j :: 0 <= j < |t.rows| ==> [] + t.rows[j].index == t.rows[j].index;
    assert PrefixRows([], t.rows) == t.rows;
    assert RowsOfLeaves(lib, params, [([], table)][1..]) == Ok([]);
    assert RowsOfLeaves(lib, params, LeavesOf(Leaf(table))) == Ok(t.rows + []);
    assert t.rows + [] == t.rows;
  }

  lemma {:induction false} HrvPartsIsOncePerLeaf(lib: Library, d: Node, i: nat, params: Params, levels: seq<string>)
    requires d.Branch? && i <= |d.children|
    requires HrvParts(lib, d, i, params, levels).Ok?
    ensures RowsOfLeaves(lib, params, LeavesFrom(d, i)) == Ok(ConcatRows(HrvParts(lib, d, i, params, levels).value))
    decreases d, 0, |d.children| - i
  {
    if i < |d.children| {
      var (k, v) := d.children[i];
      HrvPartsIsOncePerLeaf(lib, d, i + 1, params, levels);
      RowsOfLeavesAppend(lib, params, Under(k, LeavesOf(v)), LeavesFrom(d, i + 1));
      RowsOfLeavesUnder(lib, params, k, LeavesOf(v));
      var parts := HrvParts(lib, d, i, params, levels).value;
      var rest := HrvParts(lib, d, i + 1, params, levels).value;
      var t := parts[0].1;
      assert parts == [(k, t)] + rest;
      assert parts[1..] == rest;
      assert ConcatRows(parts) == PrefixRows([Name(k)], t.rows) + ConcatRows(rest);
      assert HrvItem(lib, d, i, params, levels) == Ok(t);
      match v
      case Leaf(table) =>
        LeafRows(lib, params, table, t);
      case Branch(_) =>
        HrvDictIsOncePerLeaf(lib, v, params, Tail(levels));
      case Atom =>
    }
  }

  /** `d` holds a chain of `n + 1` nested dictionaries. */
  predicate TooDeep(d: Node, n: nat)
    decreases d
  {
    d.Branch? && (n == 0 || exists j :: 0 <= j < |d.children| && TooDeep(d.children[j].1, n - 1))
  }

  /** Nesting deeper than the list of level names fails: the innermost
      dictionary finds no level name left for `dict_levels[0]`. */
  lemma {:induction false} TooDeepFails(lib: Library, d: Node, params: Params, levels: seq<string>)
    requires TooDeep(d, |levels|)
    ensures HrvDict(lib, d, params, levels).Err?
    decreases d, 1
  {
    if |levels| > 0 {
      var j :| 0 <= j < |d.children| && TooDeep(d.children[j].1, |levels| - 1);
      TooDeepPartsFail(lib, d, 0, j, params, levels);
    }
  }

  lemma {:induction false} TooDeepPartsFail(lib: Library, d: Node, i: nat, j: nat, params: Params, levels: seq<string>)
    requires d.Branch? && i <= j < |d.children| && |levels| > 0
    requires TooDeep(d.children[j].1, |levels| - 1)
    ensures HrvParts(lib, d, i, params, levels).Err?
    decreases d, 0, |d.children| - i
  {
    if i < j {
      TooDeepPartsFail(lib, d, i + 1, j, params, levels);
    } else {
      TooDeepFails(lib, d.children[j].1, params, Tail(levels));
    }
  }

  /** Every leaf of `d` sits under exactly `n` nested dictionaries, none of them empty. */
  predicate Uniform(d: Node, n: nat)
    decreases d
  {
    match d
    case Leaf(_) => n == 0
    case Atom => false
    case Branch(c) => n > 0 && |c| > 0 && forall j :: 0 <= j < |c| ==> Uniform(c[j].1, n - 1)
  }

  function Named(levels: seq<string>): (r: seq<Option<string>>)
    ensures |r| == |levels|
  {
    seq(|levels|, j requires 0 <= j < |levels| => Some(levels[j]))
  }

  /** With every leaf at depth `n` and every engine result indexed by the level
      names `inner`, the result's index levels are the first `n` level names
      followed by `inner`. */
  lemma {:induction false} HrvDictLevels(lib: Library, d: Node, params: Params, levels: seq<string>, n: nat, inner: seq<Option<string>>)
    requires Uniform(d, n) && d.Branch? && n <= |levels|
    requires forall t: Table :: lib.hrvProcess(t, params).Ok? ==> lib.hrvProcess(t, params).value.levels == inner
    requires HrvDict(lib, d, params, levels).Ok?
    ensures HrvDict(lib, d, params, levels).value.levels == Named(levels[..n]) + inner
    decreases d
  {
    var parts := HrvParts(lib, d, 0, params, levels).value;
    var want := if n == 1 then inner else Named(Tail(levels)[..n - 1]) + inner;
    HrvPartsLevels(lib, d, 0, params, levels, n, inner);
    ConcatLevels(parts, levels[0], want);
    NamedPrefix(levels, n);
  }

  /** Concatenating tables that share their level names puts the new name in front of them. */
  lemma ConcatLevels(parts: Entries<Table>, name: string, want: seq<Option<string>>)
    requires |parts| > 0
    requires forall j :: 0 <= j < |parts| ==> parts[j].1.levels == want
    ensures Concat(parts, name).Ok? && Concat(parts, name).value.levels == [Some(name)] + want
  {
    var tables := seq(|parts|, j requires 0 <= j < |parts| => parts[j].1);
    ConsensusOfEqual(tables, want);
  }

  lemma NamedPrefix(levels: seq<string>, n: nat)
    requires 1 <= n <= |levels|
    ensures Named(levels[..n]) == [Some(levels[0])] + (if n == 1 then [] else Named(Tail(levels)[..n - 1]))
  {
  }

  lemma {:induction false} HrvPartsLevels(lib: Library, d: Node, i: nat, params: Params, levels: seq<string>, n: nat, inner: seq<Option<string>>)
    requires Uniform(d, n) && d.Branch? && n <= |levels| && i <= |d.children|
    requires forall t: Table :: lib.hrvProcess(t, params).Ok? ==> lib.hrvProcess(t, params).value.levels == inner
    requires HrvParts(lib, d, i, params, levels).Ok?
    ensures |HrvParts(lib, d, i, params, levels).value| == |d.children| - i
    ensures forall j :: 0 <= j < |d.children| - i ==>
      HrvParts(lib, d, i, params, levels).value[j].1.levels ==
        if n == 1 then inner else Named(Tail(levels)[..n - 1]) + inner
    decreases d, |d.children| - i
  {
    if i < |d.children| {
      HrvPartsLevels(lib, d, i + 1, params, levels, n, inner);
      var v := d.children[i].1;
      if n > 1 {
        assert Uniform(v, n - 1) && v.Branch?;
        HrvDictLevels(lib, v, params, Tail(levels), n - 1, inner);
      }
    }
  }

  /** The rows with the last label of each index removed. */
  function TrimRows(rows: seq<Row>): (r: seq<Row>)
    ensures |r| == |rows|
    ensures forall j :: 0 <= j < |rows| && |rows[j].index| > 0 ==>
      r[j] == Row(rows[j].index[..|rows[j].index| - 1], rows[j].values)
  {
    seq(|rows|, j requires 0 <= j < |rows| =>
      Row(if |rows[j].index| > 0 then rows[j].index[..|rows[j].index| - 1] else [], rows[j].values))
  }

  /** `df.droplevel(level=-1)`: fails on an index with a single level; otherwise
      the innermost level name goes, and every row keeps its values and loses the
      last label of its index. */
  function DropInnermost(t: Table): (r: Result<Table>)
    ensures |t.levels| < 2 <==> r.Err?
    ensures r.Ok? ==> r.value.levels == t.levels[..|t.levels| - 1] && |r.value.rows| == |t.rows|
    ensures r.Ok? ==> forall j :: 0 <= j < |t.rows| && |t.rows[j].index| > 0 ==>
      r.value.rows[j] == Row(t.rows[j].index[..|t.rows[j].index| - 1], t.rows[j].values)
  {
    if |t.levels| < 2 then Err(ValueError("at least one level must be left"))
    else Ok(Table(t.levels[..|t.levels| - 1], TrimRows(t.rows)))
  }

  /** After the innermost level is dropped, the HRV table holds, in depth-first
      order, the engine's rows of every leaf under that leaf's key path, each
      without its last index label. */
  lemma HrvDictDropRows(lib: Library, d: Node, params: Params, levels: seq<string>)
    requires d.Branch?
    requires HrvDict(lib, d, params, levels).Ok?
    requires DropInnermost(HrvDict(lib, d, params, levels).value).Ok?
    ensures RowsOfLeaves(lib, params, LeavesOf(d)).Ok?
    ensures DropInnermost(HrvDict(lib, d, params, levels).value).value.rows ==
      TrimRows(RowsOfLeaves(lib, params, LeavesOf(d)).value)
  {
    HrvDictIsOncePerLeaf(lib, d, params, levels);
  }
}
