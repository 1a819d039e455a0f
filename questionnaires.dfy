/** The score-table utilities of the questionnaire package. A table is a
    sequence of labelled columns; a numeric cell is `Some(score)` or `None`
    for NaN, and a cell read from a file may also hold a string. The
    `inplace` branches overwrite the columns of a `DataFrame` object; the
    other branches return a new table and leave their argument alone. */
module Questionnaires {
  import opened Common
  import opened Text

  /** A numeric cell; `None` is NaN. */
  type Cell = Option<int>

  /** A cell as read from a questionnaire file: a number, a string, or NaN. */
  datatype Raw = Num(n: int) | Str(s: string) | NaN

  datatype Column<T> = Column(name: string, values: seq<T>)

  type Frame<T> = seq<Column<T>>

  /** A pandas DataFrame whose cells the in-place branches overwrite. */
  class DataFrame<T> {
    var columns: Frame<T>

    constructor (columns: Frame<T>)
      ensures this.columns == columns
    {
      this.columns := columns;
    }
  }

  /** `score_range` / `score_scale`: the lowest and the highest score. */
  datatype ScoreRange = ScoreRange(lo: int, hi: int)

  /** The `cols` argument: a list of column positions or a list of column labels. */
  datatype Selection = Positions(positions: seq<int>) | Labels(labels: seq<string>)

  function Names<T>(f: Frame<T>): seq<string> {
    seq(|f|, j requires 0 <= j < |f| => f[j].name)
  }

  /** `str(i)` for an integer. */
  function IntText(i: int): string {
    if i < 0 then "-" + Decimal(-i) else Decimal(i)
  }

  // ---------------------------------------------------------------------------
  // Column selection

  function All(n: nat): (m: seq<bool>)
    ensures |m| == n && forall j :: 0 <= j < n ==> m[j]
  {
    seq(n, _ => true)
  }

  /** The columns `data.iloc[:, positions]` addresses among `n`: a negative
      position counts from the end, one outside `[-n, n)` raises IndexError. */
  function PositionMask(n: nat, ps: seq<int>): (r: Result<seq<bool>>)
    ensures r.Ok? <==> forall i :: 0 <= i < |ps| ==> -(n as int) <= ps[i] < n
    ensures r.Ok? ==> |r.value| == n
  {
    if exists i :: 0 <= i < |ps| && !(-(n as int) <= ps[i] < n) then Err(IndexError)
    else Ok(seq(n, j => j in ps || j - n in ps))
  }

  /** The first label of `ls` that is not among `names`. */
  function FirstMissing(names: seq<string>, ls: seq<string>): (r: Option<string>)
    ensures r.None? <==> forall i :: 0 <= i < |ls| ==> ls[i] in names
    ensures r.Some? ==> r.value in ls && r.value !in names
  {
    if ls == [] then None
    else if ls[0] !in names then Some(ls[0])
    else FirstMissing(names, ls[1..])
  }

  /** The columns `data.loc[:, labels]` addresses; an unknown label raises KeyError. */
  function LabelMask<T>(f: Frame<T>, ls: seq<string>): (r: Result<seq<bool>>)
    ensures r.Ok? <==> forall i :: 0 <= i < |ls| ==> ls[i] in Names(f)
    ensures r.Ok? ==> |r.value| == |f| && forall j :: 0 <= j < |f| ==> (r.value[j] <==> f[j].name in ls)
    ensures r.Err? ==> r.error.KeyError? && r.error.key in ls && r.error.key !in Names(f)
  {
    match FirstMissing(Names(f), ls)
    case Some(l) => Err(KeyError(l))
    case None => Ok(seq(|f|, j requires 0 <= j < |f| => f[j].name in ls))
  }

  /** The columns an in-place `invert` or `convert_scale` addresses: all of them
      without `cols`; otherwise the type of `cols[0]` chooses between labels and
      positions, so an empty `cols` raises IndexError. */
  function InPlaceMask<T>(f: Frame<T>, cols: Option<Selection>): (r: Result<seq<bool>>)
    ensures r.Ok? ==> |r.value| == |f|
    ensures cols.None? ==> r.Ok? && forall j :: 0 <= j < |f| ==> r.value[j]
    ensures cols == Some(Positions([])) || cols == Some(Labels([])) ==> r == Err(IndexError)
    ensures cols.Some? && cols.value.Labels? && r.Ok? ==>
      forall j :: 0 <= j < |f| ==> (r.value[j] <==> f[j].name in cols.value.labels)
    ensures r.Err? ==> r.error.IndexError? || r.error.KeyError?
  {
    match cols
    case None => Ok(All(|f|))
    case Some(Positions(ps)) => if ps == [] then Err(IndexError) else PositionMask(|f|, ps)
    case Some(Labels(ls)) => if ls == [] then Err(IndexError) else LabelMask(f, ls)
  }

  /** The columns `data[cols]` addresses: always labels, so integer positions
      that are no column label raise KeyError. */
  function ItemMask<T>(f: Frame<T>, sel: Selection): (r: Result<seq<bool>>)
    ensures r.Ok? ==> |r.value| == |f|
    ensures sel.Positions? ==> (r.Ok? <==> sel.positions == [])
    ensures sel.Labels? ==> (r.Ok? <==> forall i :: 0 <= i < |sel.labels| ==> sel.labels[i] in Names(f))
    ensures r.Ok? ==> forall j :: 0 <= j < |f| ==> (r.value[j] <==> sel.Labels? && f[j].name in sel.labels)
    ensures r.Err? ==> r.error.KeyError?
  {
    match sel
    case Positions(ps) => if ps == [] then Ok(seq(|f|, _ => false)) else Err(KeyError(IntText(ps[0])))
    case Labels(ls) => LabelMask(f, ls)
  }

  // ---------------------------------------------------------------------------
  // Cell-wise arithmetic and masking

  /** The element-wise operations the utilities apply; NaN stays NaN under
      every one of them, since arithmetic keeps it and comparisons with it are false. */
  datatype CellOp =
    | Flip(range: ScoreRange)     // hi - v + lo
    | Shift(offset: int)          // v + offset
    | Blank(range: ScoreRange)    // NaN outside [lo, hi]
    | RaiseTo(lo: int)            // lo where v < lo
    | CapAt(hi: int)              // hi where v > hi

  function ApplyCell(op: CellOp, c: Cell): Cell {
    match c
    case None => None
    case Some(v) =>
      match op
      case Flip(r) => Some(r.hi - v + r.lo)
      case Shift(k) => Some(v + k)
      case Blank(r) => if v < r.lo || v > r.hi then None else c
      case RaiseTo(lo) => if v < lo then Some(lo) else c
      case CapAt(hi) => if v > hi then Some(hi) else c
  }

  function MapColumn(op: CellOp, col: Column<Cell>): (r: Column<Cell>)
    ensures r.name == col.name && |r.values| == |col.values|
  {
    Column(col.name, seq(|col.values|, k requires 0 <= k < |col.values| => ApplyCell(op, col.values[k])))
  }

  /** The frame with `op` applied to the columns `mask` selects. */
  function MapSelected(op: CellOp, f: Frame<Cell>, mask: seq<bool>): (r: Frame<Cell>)
    requires |mask| == |f|
    ensures |r| == |f| && Names(r) == Names(f)
  {
    var r := seq(|f|, j requires 0 <= j < |f| => if mask[j] then MapColumn(op, f[j]) else f[j]);
    assert forall j :: 0 <= j < |f| ==> Names(r)[j] == Names(f)[j];
    r
  }

  function MapAll(op: CellOp, f: Frame<Cell>): (r: Frame<Cell>)
    ensures |r| == |f|
  {
    MapSelected(op, f, All(|f|))
  }

  /** `MapAll` cell by cell. */
  lemma MapAllCells(op: CellOp, f: Frame<Cell>)
    ensures |MapAll(op, f)| == |f|
    ensures forall j :: 0 <= j < |f| ==>
      MapAll(op, f)[j].name == f[j].name && |MapAll(op, f)[j].values| == |f[j].values|
    ensures forall j, k :: 0 <= j < |f| && 0 <= k < |f[j].values| ==>
      MapAll(op, f)[j].values[k] == ApplyCell(op, f[j].values[k])
  {
    forall j | 0 <= j < |f| ensures MapAll(op, f)[j] == MapColumn(op, f[j]) {
    }
  }

  /** Two tables with the same names and the same cells are equal. */
  lemma FramesEqual(f: Frame<Cell>, g: Frame<Cell>)
    requires |f| == |g|
    requires forall j :: 0 <= j < |f| ==> f[j].name == g[j].name && |f[j].values| == |g[j].values|
    requires forall j, k :: 0 <= j < |f| && 0 <= k < |f[j].values| ==> f[j].values[k] == g[j].values[k]
    ensures f == g
  {
    forall j | 0 <= j < |f| ensures f[j] == g[j] {
      assert f[j].values == g[j].values;
    }
  }

  predicate InScore(c: Cell, r: ScoreRange) {
    c.Some? ==> r.lo <= c.value <= r.hi
  }

  /** Every present score lies in the range. */
  predicate InRange(f: Frame<Cell>, r: ScoreRange) {
    forall j, k :: 0 <= j < |f| && 0 <= k < |f[j].values| ==> InScore(f[j].values[k], r)
  }

  /** Some cell holds a score (is not NaN). */
  predicate HasScore(f: Frame<Cell>) {
    exists j, k :: 0 <= j < |f| && 0 <= k < |f[j].values| && f[j].values[k].Some?
  }

  /** An operation whose effect a second operation undoes, applied to the same
      columns twice, gives back the table. */
  lemma UndoSelected(op: CellOp, undo: CellOp, f: Frame<Cell>, mask: seq<bool>)
    requires |mask| == |f|
    requires forall c :: ApplyCell(undo, ApplyCell(op, c)) == c
    ensures MapSelected(undo, MapSelected(op, f, mask), mask) == f
  {
    var g := MapSelected(undo, MapSelected(op, f, mask), mask);
    forall j | 0 <= j < |f| ensures g[j] == f[j] {
      if mask[j] {
        var once := MapColumn(op, f[j]);
        forall k | 0 <= k < |f[j].values| ensures g[j].values[k] == f[j].values[k] {
          assert once.values[k] == ApplyCell(op, f[j].values[k]);
        }
      }
    }
  }

  // ---------------------------------------------------------------------------
  // invert, convert_scale, to_idx

  /** `invert(data, score_range)` without `inplace`: every score v becomes
      hi - v + lo; this branch ignores `cols`. */
  function Inverted(f: Frame<Cell>, r: ScoreRange): (g: Frame<Cell>)
    ensures |g| == |f| && Names(g) == Names(f)
    ensures forall j :: 0 <= j < |f| ==> |g[j].values| == |f[j].values|
    ensures forall j, k :: 0 <= j < |f| && 0 <= k < |f[j].values| ==>
      g[j].values[k] == if f[j].values[k].Some? then Some(r.hi - f[j].values[k].value + r.lo) else None
  {
    MapAllCells(Flip(r), f);
    MapAll(Flip(r), f)
  }

  /** Inverting twice gives back the table, and inversion maps scores inside the
      range onto scores inside the range and scores outside it outside it. */
  lemma InvertedTwice(f: Frame<Cell>, r: ScoreRange)
    ensures Inverted(Inverted(f, r), r) == f
    ensures InRange(Inverted(f, r), r) <==> InRange(f, r)
  {
    UndoSelected(Flip(r), Flip(r), f, All(|f|));
    var g := Inverted(f, r);
    forall j, k | 0 <= j < |f| && 0 <= k < |f[j].values|
      ensures g[j].values[k] == ApplyCell(Flip(r), f[j].values[k])
    {
    }
  }

  /** `invert(data, score_range, cols, inplace=True)` on a DataFrame. */
  method InvertInPlace(data: DataFrame<Cell>, r: ScoreRange, cols: Option<Selection>) returns (err: Option<Exception>)
    modifies data
    ensures InPlaceMask(old(data.columns), cols).Err? ==>
      err == Some(InPlaceMask(old(data.columns), cols).error) && data.columns == old(data.columns)
    ensures InPlaceMask(old(data.columns), cols).Ok? ==>
      err == None && data.columns == MapSelected(Flip(r), old(data.columns), InPlaceMask(old(data.columns), cols).value)
  {
    var mask := InPlaceMask(data.columns, cols);
    if mask.Err? {
      return Some(mask.error);
    }
    data.columns := MapSelected(Flip(r), data.columns, mask.value);
    return None;
  }

  /** Inverting the same columns in place twice restores the table. */
  lemma InvertInPlaceTwice(f: Frame<Cell>, r: ScoreRange, cols: Option<Selection>)
    requires InPlaceMask(f, cols).Ok?
    ensures var m := InPlaceMask(f, cols).value;
      InPlaceMask(MapSelected(Flip(r), f, m), cols) == InPlaceMask(f, cols) &&
      MapSelected(Flip(r), MapSelected(Flip(r), f, m), m) == f
  {
    var m := InPlaceMask(f, cols).value;
    SameNamesSameMasks(f, MapSelected(Flip(r), f, m), cols);
    UndoSelected(Flip(r), Flip(r), f, m);
  }

  /** The masks depend on the column names only. */
  lemma SameNamesSameMasks(f: Frame<Cell>, g: Frame<Cell>, cols: Option<Selection>)
    requires Names(f) == Names(g)
    ensures InPlaceMask(f, cols) == InPlaceMask(g, cols)
    ensures cols.Some? ==> ItemMask(f, cols.value) == ItemMask(g, cols.value)
  {
    assert |f| == |Names(f)| == |g|;
    assert forall j :: 0 <= j < |f| ==> f[j].name == Names(f)[j] == g[j].name;
    forall ls: seq<string> ensures LabelMask(f, ls) == LabelMask(g, ls) {
      if FirstMissing(Names(f), ls).None? {
        assert LabelMask(f, ls).value == LabelMask(g, ls).value;
      }
    }
  }

  /** `convert_scale(data, offset, cols)` without `inplace`: `offset` is added to
      the columns `data[cols]` names, or to every column without `cols`. */
  function ConvertScale(f: Frame<Cell>, offset: int, cols: Option<Selection>): (r: Result<Frame<Cell>>)
    ensures cols.None? ==> r.Ok?
    ensures cols.Some? ==> (r.Err? <==> ItemMask(f, cols.value).Err?)
    ensures r.Err? ==> r.error.KeyError?
    ensures r.Ok? ==> |r.value| == |f| && Names(r.value) == Names(f)
    ensures r.Ok? ==> forall j :: 0 <= j < |f| ==>
      r.value[j] == if cols.None? || (cols.value.Labels? && f[j].name in cols.value.labels)
                    then MapColumn(Shift(offset), f[j]) else f[j]
  {
    match cols
    case None => Ok(MapAll(Shift(offset), f))
    case Some(sel) =>
      var mask :- ItemMask(f, sel);
      Ok(MapSelected(Shift(offset), f, mask))
  }

  /** Shifting by `offset` and then by `-offset` gives back the table. */
  lemma ConvertScaleBack(f: Frame<Cell>, offset: int, cols: Option<Selection>)
    requires ConvertScale(f, offset, cols).Ok?
    ensures ConvertScale(ConvertScale(f, offset, cols).value, -offset, cols) == Ok(f)
  {
    var mask := if cols.None? then All(|f|) else ItemMask(f, cols.value).value;
    var g := MapSelected(Shift(offset), f, mask);
    SameNamesSameMasks(f, g, cols);
    UndoSelected(Shift(offset), Shift(-offset), f, mask);
  }

  /** `convert_scale(data, offset, cols, inplace=True)` on a DataFrame. */
  method ConvertScaleInPlace(data: DataFrame<Cell>, offset: int, cols: Option<Selection>) returns (err: Option<Exception>)
    modifies data
    ensures InPlaceMask(old(data.columns), cols).Err? ==>
      err == Some(InPlaceMask(old(data.columns), cols).error) && data.columns == old(data.columns)
    ensures InPlaceMask(old(data.columns), cols).Ok? ==>
      err == None && data.columns == MapSelected(Shift(offset), old(data.columns), InPlaceMask(old(data.columns), cols).value)
  {
    var mask := InPlaceMask(data.columns, cols);
    if mask.Err? {
      return Some(mask.error);
    }
    data.columns := MapSelected(Shift(offset), data.columns, mask.value);
    return None;
  }

  /** `to_idx(col_idxs)`: one-based column numbers to zero-based positions. */
  function ToIdx(ks: seq<int>): (r: seq<int>)
    ensures |r| == |ks|
  {
    seq(|ks|, i requires 0 <= i < |ks| => ks[i] - 1)
  }

  /** Positions from `to_idx` address exactly the columns whose one-based
      numbers were given. */
  lemma ToIdxSelects(n: nat, ks: seq<int>)
    requires forall i :: 0 <= i < |ks| ==> 1 <= ks[i] <= n
    ensures PositionMask(n, ToIdx(ks)) == Ok(seq(n, j => j + 1 in ks))
  {
    var ps := ToIdx(ks);
    assert forall i :: 0 <= i < |ps| ==> ps[i] == ks[i] - 1;
    forall j | 0 <= j < n ensures (j in ps || j - n in ps) <==> j + 1 in ks {
      if j + 1 in ks {
        var i :| 0 <= i < |ks| && ks[i] == j + 1;
        assert ps[i] == j;
      }
      if j in ps {
        var i :| 0 <= i < |ps| && ps[i] == j;
        assert ks[i] == j + 1;
      }
      assert j - n !in ps;
    }
    assert forall i :: 0 <= i < |ps| ==> -(n as int) <= ps[i] < n;
    var a: seq<bool> := seq(n, j => j in ps || j - n in ps);
    var b: seq<bool> := seq(n, j => j + 1 in ks);
    assert forall j :: 0 <= j < n ==> a[j] == b[j];
    assert a == b;
  }

  // ---------------------------------------------------------------------------
  // crop_scale

  /** `crop_scale(data, score_scale, set_nan=...)` without `inplace`: with
      `set_nan` the scores outside the scale become NaN; without it the scores
      below `lo` are raised to `lo` and then those above `hi` are cut to `hi`. */
  function CropScale(f: Frame<Cell>, r: ScoreRange, setNan: bool): (g: Frame<Cell>)
    ensures |g| == |f| && Names(g) == Names(f)
  {
    if setNan then MapAll(Blank(r), f) else MapAll(CapAt(r.hi), MapAll(RaiseTo(r.lo), f))
  }

  /** With `set_nan`: missing stays missing, a score inside the scale is kept, a
      score outside it becomes NaN; so the result is in range, cropping again
      changes nothing, and a table already in range is left as it is. */
  lemma {:induction false} CropToNan(f: Frame<Cell>, r: ScoreRange)
    ensures var g := CropScale(f, r, true);
      |g| == |f| && InRange(g, r) && CropScale(g, r, true) == g && (InRange(f, r) ==> g == f)
    ensures forall j, k :: 0 <= j < |f| && 0 <= k < |f[j].values| ==>
      CropScale(f, r, true)[j].values[k] == if InScore(f[j].values[k], r) then f[j].values[k] else None
  {
    var g := MapAll(Blank(r), f);
    MapAllCells(Blank(r), f);
    MapAllCells(Blank(r), g);
    FramesEqual(MapAll(Blank(r), g), g);
    if InRange(f, r) {
      FramesEqual(g, f);
    }
  }

  /** Without `set_nan`, cell by cell: a score is clipped into `[lo, hi]` when the
      scale is well formed, a score in range is kept, and NaN stays NaN. */
  lemma {:induction false} ClipCells(f: Frame<Cell>, r: ScoreRange)
    ensures var g := CropScale(f, r, false);
      |g| == |f| &&
      (forall j :: 0 <= j < |f| ==> g[j].name == f[j].name && |g[j].values| == |f[j].values|) &&
      (forall j, k :: 0 <= j < |f| && 0 <= k < |f[j].values| ==>
        g[j].values[k] == ApplyCell(CapAt(r.hi), ApplyCell(RaiseTo(r.lo), f[j].values[k])))
  {
    MapAllCells(RaiseTo(r.lo), f);
    MapAllCells(CapAt(r.hi), MapAll(RaiseTo(r.lo), f));
  }

  /** Without `set_nan`: every score ends inside a well-formed scale, clipping
      again changes nothing, a table already in range is left as it is, and the
      same cells hold scores as before. */
  lemma {:induction false} CropToBounds(f: Frame<Cell>, r: ScoreRange)
    ensures var g := CropScale(f, r, false);
      |g| == |f| && (r.lo <= r.hi ==> InRange(g, r)) && CropScale(g, r, false) == g &&
      (InRange(f, r) ==> g == f) && (HasScore(f) <==> HasScore(g))
  {
    ClipCells(f, r);
    CropIdempotent(f, r);
    if InRange(f, r) {
      FramesEqual(CropScale(f, r, false), f);
    }
    CropKeepsScores(f, r);
  }

  lemma {:induction false} CropIdempotent(f: Frame<Cell>, r: ScoreRange)
    ensures CropScale(CropScale(f, r, false), r, false) == CropScale(f, r, false)
  {
    var g := CropScale(f, r, false);
    ClipCells(f, r);
    ClipCells(g, r);
    FramesEqual(CropScale(g, r, false), g);
  }

  lemma {:induction false} CropKeepsScores(f: Frame<Cell>, r: ScoreRange)
    ensures HasScore(f) <==> HasScore(CropScale(f, r, false))
  {
    var g := CropScale(f, r, false);
    ClipCells(f, r);
    if HasScore(f) {
      var j, k :| 0 <= j < |f| && 0 <= k < |f[j].values| && f[j].values[k].Some?;
      assert g[j].values[k].Some?;
    }
    if HasScore(g) {
      var j, k :| 0 <= j < |g| && 0 <= k < |g[j].values| && g[j].values[k].Some?;
      assert f[j].values[k].Some?;
    }
  }

  /** `crop_scale(data, score_scale, inplace=True, set_nan=...)`, the default
      `inplace`: the table is overwritten and nothing is returned. */
  method CropScaleInPlace(data: DataFrame<Cell>, r: ScoreRange, setNan: bool)
    modifies data
    ensures data.columns == CropScale(old(data.columns), r, setNan)
  {
    data.columns := CropScale(data.columns, r, setNan);
  }

  // ---------------------------------------------------------------------------
  // check_score_range

  /** The scores of a column, NaN skipped, in order. */
  function Present(vs: seq<Cell>): seq<int> {
    if vs == [] then [] else (if vs[0].Some? then [vs[0].value] else []) + Present(vs[1..])
  }

  /** All scores of a table, column by column. */
  function Scores(f: Frame<Cell>): seq<int> {
    if f == [] then [] else Present(f[0].values) + Scores(f[1..])
  }

  function Min(xs: seq<int>): int
    requires |xs| > 0
  {
    if |xs| == 1 then xs[0] else var m := Min(xs[1..]); if xs[0] < m then xs[0] else m
  }

  function Max(xs: seq<int>): int
    requires |xs| > 0
  {
    if |xs| == 1 then xs[0] else var m := Max(xs[1..]); if xs[0] > m then xs[0] else m
  }

  /** The minimum is at least `lo` exactly when every element is. */
  lemma {:induction false} MinBound(xs: seq<int>, lo: int)
    requires |xs| > 0
    ensures lo <= Min(xs) <==> forall x :: x in xs ==> lo <= x
  {
    if |xs| == 1 {
      assert forall x :: x in xs <==> x == xs[0];
      assert xs[0] in xs;
    } else {
      var t := xs[1..];
      MinBound(t, lo);
      assert xs == [xs[0]] + t;
      assert forall x :: x in xs <==> x == xs[0] || x in t;
      if lo > xs[0] {
        assert xs[0] in xs;
      } else if lo > Min(t) {
        var x :| x in t && lo > x;
        assert x in xs;
      }
    }
  }

  /** The maximum is at most `hi` exactly when every element is. */
  lemma {:induction false} MaxBound(xs: seq<int>, hi: int)
    requires |xs| > 0
    ensures Max(xs) <= hi <==> forall x :: x in xs ==> x <= hi
  {
    if |xs| == 1 {
      assert forall x :: x in xs <==> x == xs[0];
      assert xs[0] in xs;
    } else {
      var t := xs[1..];
      MaxBound(t, hi);
      assert xs == [xs[0]] + t;
      assert forall x :: x in xs <==> x == xs[0] || x in t;
      if xs[0] > hi {
        assert xs[0] in xs;
      } else if Max(t) > hi {
        var x :| x in t && x > hi;
        assert x in xs;
      }
    }
  }

  lemma {:induction false} PresentNonEmpty(vs: seq<Cell>)
    ensures |Present(vs)| > 0 <==> exists k :: 0 <= k < |vs| && vs[k].Some?
  {
    if vs != [] && vs[0].None? {
      PresentNonEmpty(vs[1..]);
      if exists k :: 0 <= k < |vs| && vs[k].Some? {
        var k :| 0 <= k < |vs| && vs[k].Some?;
        assert vs[1..][k - 1].Some?;
      }
      if exists k :: 0 <= k < |vs[1..]| && vs[1..][k].Some? {
        var k :| 0 <= k < |vs[1..]| && vs[1..][k].Some?;
        assert vs[k + 1].Some?;
      }
    }
  }

  lemma {:induction false} PresentInRange(vs: seq<Cell>, r: ScoreRange)
    ensures (forall x :: x in Present(vs) ==> r.lo <= x <= r.hi) <==> forall k :: 0 <= k < |vs| ==> InScore(vs[k], r)
  {
    if vs != [] {
      PresentInRange(vs[1..], r);
      var head := if vs[0].Some? then [vs[0].value] else [];
      var tail := Present(vs[1..]);
      assert Present(vs) == head + tail;
      WithinConcat(head, tail, r);
      if vs[0].Some? {
        assert head == [vs[0].value];
        assert vs[0].value in head;
        assert Within(head, r) <==> InScore(vs[0], r);
      } else {
        assert head == [];
      }
      AllInScoreCons(vs, r);
      assert Within(Present(vs), r) <==> forall k :: 0 <= k < |vs| ==> InScore(vs[k], r);
    }
  }

  /** Every value of `xs` lies in the scale. */
  predicate Within(xs: seq<int>, r: ScoreRange) {
    forall x :: x in xs ==> r.lo <= x <= r.hi
  }

  lemma WithinConcat(a: seq<int>, b: seq<int>, r: ScoreRange)
    ensures Within(a + b, r) <==> Within(a, r) && Within(b, r)
  {
    assert forall x :: x in a + b <==> x in a || x in b;
  }

  lemma AllInScoreCons(vs: seq<Cell>, r: ScoreRange)
    requires vs != []
    ensures (forall k :: 0 <= k < |vs| ==> InScore(vs[k], r)) <==>
      InScore(vs[0], r) && forall k :: 0 <= k < |vs[1..]| ==> InScore(vs[1..][k], r)
  {
    assert forall k :: 1 <= k < |vs| ==> vs[k] == vs[1..][k - 1];
  }

  /** The flattened scores are non-empty exactly when some cell holds a score. */
  lemma {:induction false} ScoresNonEmpty(f: Frame<Cell>)
    ensures |Scores(f)| > 0 <==> HasScore(f)
  {
    if f != [] {
      ScoresNonEmpty(f[1..]);
      PresentNonEmpty(f[0].values);
      if HasScore(f[1..]) {
        var j, k :| 0 <= j < |f[1..]| && 0 <= k < |f[1..][j].values| && f[1..][j].values[k].Some?;
        assert f[j + 1].values[k].Some?;
      }
      if HasScore(f) {
        var j, k :| 0 <= j < |f| && 0 <= k < |f[j].values| && f[j].values[k].Some?;
        if j > 0 {
          assert f[1..][j - 1].values[k].Some?;
        }
      }
    }
  }

  /** The flattened scores lie in the range exactly when every cell does. */
  lemma {:induction false} ScoresInRange(f: Frame<Cell>, r: ScoreRange)
    ensures (forall x :: x in Scores(f) ==> r.lo <= x <= r.hi) <==> InRange(f, r)
  {
    if f != [] {
      ScoresInRange(f[1..], r);
      PresentInRange(f[0].values, r);
      assert forall x :: x in Scores(f) <==> x in Present(f[0].values) || x in Scores(f[1..]);
      if !InRange(f[1..], r) {
        var j, k :| 0 <= j < |f[1..]| && 0 <= k < |f[1..][j].values| && !InScore(f[1..][j].values[k], r);
        assert !InScore(f[j + 1].values[k], r);
      }
      if !InRange(f, r) {
        var j, k :| 0 <= j < |f| && 0 <= k < |f[j].values| && !InScore(f[j].values[k], r);
        if j > 0 {
          assert !InScore(f[1..][j - 1].values[k], r);
        }
      }
    }
  }

  predicate Empty(f: Frame<Cell>) {
    forall j :: 0 <= j < |f| ==> f[j].values == []
  }

  /** `check_score_range(data, score_range)`: `nanmin(data) >= lo and
      nanmax(data) <= hi`. A table without cells makes the reduction raise
      ValueError; a table of NaN only gives NaN, and comparisons with NaN are false. */
  function CheckScoreRange(f: Frame<Cell>, r: ScoreRange): (b: Result<bool>)
    ensures b.Err? <==> Empty(f)
    ensures b.Err? ==> b.error.ValueError?
  {
    if Empty(f) then Err(ValueError("zero-size array to reduction operation"))
    else
      var xs := Scores(f);
      if xs == [] then Ok(false) else Ok(r.lo <= Min(xs) && Max(xs) <= r.hi)
  }

  /** The check fails only on a table without cells, and holds exactly when
      some score is present and every score lies in the range. */
  lemma CheckScoreRangeMeaning(f: Frame<Cell>, r: ScoreRange)
    ensures CheckScoreRange(f, r).Err? <==> Empty(f)
    ensures CheckScoreRange(f, r) == Ok(true) <==> HasScore(f) && InRange(f, r)
  {
    ScoresNonEmpty(f);
    ScoresInRange(f, r);
    if Scores(f) != [] {
      MinBound(Scores(f), r.lo);
      MaxBound(Scores(f), r.hi);
    }
    if HasScore(f) {
      var j, k :| 0 <= j < |f| && 0 <= k < |f[j].values| && f[j].values[k].Some?;
      assert f[j].values != [];
    }
  }

  /** `_check_score_range_exception(data, score_range)`: ValueError unless every
      present score lies in the range and there is at least one. */
  function CheckScoreRangeException(f: Frame<Cell>, r: ScoreRange): (e: Option<Exception>)
    ensures e.None? <==> HasScore(f) && InRange(f, r)
    ensures e.Some? ==> e.value.ValueError?
  {
    CheckScoreRangeMeaning(f, r);
    match CheckScoreRange(f, r)
    case Err(x) => Some(x)
    case Ok(ok) => if ok then None else Some(ValueError("values outside the expected score range"))
  }

  /** Clipping a table that holds a score to a well-formed scale makes it pass the check. */
  lemma CroppedPassesCheck(f: Frame<Cell>, r: ScoreRange)
    requires r.lo <= r.hi && HasScore(f)
    ensures CheckScoreRange(CropScale(f, r, false), r) == Ok(true)
  {
    CropToBounds(f, r);
    CheckScoreRangeMeaning(CropScale(f, r, false), r);
  }

  // ---------------------------------------------------------------------------
  // convert_nan, replace_missing_data

  /** The missing-value codes -99, -77 and -66, as numbers or as strings. */
  predicate MissingCode(v: Raw) {
    v == Num(-99) || v == Num(-77) || v == Num(-66) || v == Str("-99") || v == Str("-77") || v == Str("-66")
  }

  /** `convert_nan(data)` without `inplace`. */
  function ConvertNan(f: Frame<Raw>): (g: Frame<Raw>)
    ensures |g| == |f|
    ensures forall j :: 0 <= j < |f| ==> g[j].name == f[j].name && |g[j].values| == |f[j].values|
    ensures forall j, k :: 0 <= j < |f| && 0 <= k < |f[j].values| ==>
      (g[j].values[k] == NaN <==> f[j].values[k] == NaN || MissingCode(f[j].values[k])) &&
      (g[j].values[k] != NaN ==> g[j].values[k] == f[j].values[k])
  {
    seq(|f|, j requires 0 <= j < |f| =>
      Column(f[j].name, seq(|f[j].values|, k requires 0 <= k < |f[j].values| =>
        if MissingCode(f[j].values[k]) then NaN else f[j].values[k])))
  }

  /** Replacing the codes twice is replacing them once. */
  lemma ConvertNanIdempotent(f: Frame<Raw>)
    ensures ConvertNan(ConvertNan(f)) == ConvertNan(f)
  {
    var g := ConvertNan(f);
    forall j | 0 <= j < |f| ensures ConvertNan(g)[j] == g[j] {
      assert ConvertNan(g)[j].values == g[j].values;
    }
  }

  /** `convert_nan(data, inplace=True)`. */
  method ConvertNanInPlace(data: DataFrame<Raw>)
    modifies data
    ensures data.columns == ConvertNan(old(data.columns))
  {
    data.columns := ConvertNan(data.columns);
  }

  /** The position of the first column labelled `name`. */
  function ColumnIndex<T>(f: Frame<T>, name: string): (r: Option<nat>)
    ensures r.None? <==> name !in Names(f)
    ensures r.Some? ==> r.value < |f| && f[r.value].name == name
  {
    if f == [] then None
    else if f[0].name == name then
      assert Names(f)[0] == name;
      Some(0)
    else
      assert name in Names(f) <==> name in Names(f[1..]) by {
        assert Names(f) == [f[0].name] + Names(f[1..]);
      }
      match ColumnIndex(f[1..], name)
      case None => None
      case Some(j) => Some(j + 1)
  }

  /** `target.fillna(source)`: a missing target cell takes the source cell of its row. */
  function FillNa(target: seq<Cell>, source: seq<Cell>): (r: seq<Cell>)
    ensures |r| == |target|
  {
    seq(|target|, k requires 0 <= k < |target| =>
      if target[k].None? && k < |source| then source[k] else target[k])
  }

  /** The table after `data[target_col] = data[target_col].fillna(data[source_col])`. */
  function Filled(f: Frame<Cell>, targetCol: string, sourceCol: string): (r: Result<Frame<Cell>>)
    ensures r.Err? <==> targetCol !in Names(f) || sourceCol !in Names(f)
    ensures r.Err? ==> r.error == KeyError(if targetCol !in Names(f) then targetCol else sourceCol)
    ensures r.Ok? ==> |r.value| == |f| && Names(r.value) == Names(f)
  {
    match ColumnIndex(f, targetCol)
    case None => Err(KeyError(targetCol))
    case Some(t) =>
      match ColumnIndex(f, sourceCol)
      case None => Err(KeyError(sourceCol))
      case Some(s) => Ok(f[t := Column(targetCol, FillNa(f[t].values, f[s].values))])
  }

  /** The rows of `vs` whose `keep` entry is true. */
  function KeepRows<T>(vs: seq<T>, keep: seq<bool>): seq<T> {
    if vs == [] || keep == [] then []
    else (if keep[0] then [vs[0]] else []) + KeepRows(vs[1..], keep[1..])
  }

  /** `data.dropna(subset=[target_col])`: the rows whose target cell is NaN are removed. */
  function DropMissing(f: Frame<Cell>, t: nat): (g: Frame<Cell>)
    requires t < |f|
    ensures |g| == |f| && Names(g) == Names(f)
    ensures forall k :: 0 <= k < |g[t].values| ==> g[t].values[k].Some?
    ensures |g[t].values| == |Present(f[t].values)|
  {
    var keep := seq(|f[t].values|, k requires 0 <= k < |f[t].values| => f[t].values[k].Some?);
    KeepPresent(f[t].values, keep);
    seq(|f|, j requires 0 <= j < |f| => Column(f[j].name, KeepRows(f[j].values, keep)))
  }

  /** Keeping the rows where a column holds a value leaves no NaN in it. */
  lemma {:induction false} KeepPresent(vs: seq<Cell>, keep: seq<bool>)
    requires |keep| == |vs| && forall k :: 0 <= k < |vs| ==> keep[k] == vs[k].Some?
    ensures forall k :: 0 <= k < |KeepRows(vs, keep)| ==> KeepRows(vs, keep)[k].Some?
    ensures |KeepRows(vs, keep)| == |Present(vs)|
  {
    if vs != [] {
      KeepPresent(vs[1..], keep[1..]);
    }
  }

  /** `replace_missing_data(data, target_col, source_col, dropna)`: the target
      column is filled in place, then the table is returned, without the rows
      whose target is still NaN when `dropna` is set. */
  method ReplaceMissingData(data: DataFrame<Cell>, targetCol: string, sourceCol: string, dropna: bool)
    returns (r: Result<Frame<Cell>>)
    modifies data
    ensures Filled(old(data.columns), targetCol, sourceCol).Err? ==>
      r == Filled(old(data.columns), targetCol, sourceCol) && data.columns == old(data.columns)
    ensures Filled(old(data.columns), targetCol, sourceCol).Ok? ==>
      data.columns == Filled(old(data.columns), targetCol, sourceCol).value &&
      targetCol in Names(data.columns) &&
      r == Ok(if dropna then DropMissing(data.columns, ColumnIndex(data.columns, targetCol).value) else data.columns)
  {
    var filled := Filled(data.columns, targetCol, sourceCol);
    if filled.Err? {
      return filled;
    }
    var t := ColumnIndex(data.columns, targetCol).value;
    data.columns := filled.value;
    assert Names(data.columns)[t] == targetCol;
    if dropna {
      r := Ok(DropMissing(data.columns, ColumnIndex(data.columns, targetCol).value));
    } else {
      r := Ok(data.columns);
    }
  }

  /** After the fill, a target cell is NaN exactly when the source cell of its
      row is NaN too; every other column is untouched; and dropping the
      remaining gaps leaves a target column without NaN. */
  lemma ReplaceMissingMeaning(f: Frame<Cell>, targetCol: string, sourceCol: string)
    requires Filled(f, targetCol, sourceCol).Ok?
    ensures var g := Filled(f, targetCol, sourceCol).value;
      var t := ColumnIndex(f, targetCol).value;
      var s := ColumnIndex(f, sourceCol).value;
      |g| == |f| && Names(g) == Names(f) &&
      (forall j :: 0 <= j < |f| && j != t ==> g[j] == f[j]) &&
      (forall k :: 0 <= k < |f[t].values| && k < |f[s].values| ==>
        (g[t].values[k].None? <==> f[t].values[k].None? && f[s].values[k].None?)) &&
      (forall k :: 0 <= k < |f[t].values| && f[t].values[k].Some? ==> g[t].values[k] == f[t].values[k])
    ensures var g := Filled(f, targetCol, sourceCol).value;
      var t := ColumnIndex(f, targetCol).value;
      forall k :: 0 <= k < |DropMissing(g, t)[t].values| ==> DropMissing(g, t)[t].values[k].Some?
  {
    var g := Filled(f, targetCol, sourceCol).value;
    var t := ColumnIndex(f, targetCol).value;
    assert forall j :: 0 <= j < |f| ==> Names(g)[j] == Names(f)[j];
    var keep := seq(|g[t].values|, k requires 0 <= k < |g[t].values| => g[t].values[k].Some?);
    KeepPresent(g[t].values, keep);
  }

  // ---------------------------------------------------------------------------
  // Column names: fill_col_leading_zeros, camel_to_snake, find_cols

  /** The length of the run of ASCII digits that ends `s`. */
  function TrailingDigits(s: string): (n: nat)
    ensures n <= |s|
    ensures forall i :: |s| - n <= i < |s| ==> IsDigit(s[i])
    ensures n < |s| ==> !IsDigit(s[|s| - n - 1])
  {
    if s == [] || !IsDigit(s[|s| - 1]) then 0 else 1 + TrailingDigits(s[..|s| - 1])
  }

  /** `re.sub(r'(\d+)$', lambda m: m.group(1).zfill(2), name)`: a single trailing
      digit gets a leading zero. */
  function PadDigits(s: string): (p: string)
    ensures |p| == if TrailingDigits(s) == 1 then |s| + 1 else |s|
    ensures p[..|s| - TrailingDigits(s)] == s[..|s| - TrailingDigits(s)]
  {
    if TrailingDigits(s) == 1 then s[..|s| - 1] + "0" + [s[|s| - 1]] else s
  }

  /** Names without trailing digits or with two or more are unchanged; a padded
      name ends in at least two digits, drops back to the original when the
      added zero is removed, and padding twice is padding once. */
  lemma {:induction false} PadDigitsMeaning(s: string)
    ensures PadDigits(s) == s <==> TrailingDigits(s) != 1
    ensures TrailingDigits(s) >= 1 ==> TrailingDigits(PadDigits(s)) >= 2
    ensures TrailingDigits(s) == 1 ==>
      |PadDigits(s)| == |s| + 1 && PadDigits(s)[..|s| - 1] + [PadDigits(s)[|s|]] == s
    ensures PadDigits(PadDigits(s)) == PadDigits(s)
  {
    if TrailingDigits(s) == 1 {
      PadOneDigit(s);
    }
  }

  lemma {:induction false} PadOneDigit(s: string)
    requires TrailingDigits(s) == 1
    ensures var p := PadDigits(s);
      |p| == |s| + 1 && TrailingDigits(p) == 2 && p[..|s| - 1] + [p[|s|]] == s
  {
    var p := PadDigits(s);
    var d := s[|s| - 1];
    assert p[|p| - 1] == d && p[|p| - 2] == '0';
    assert p[..|p| - 1] == s[..|s| - 1] + "0";
    assert p[..|p| - 1][..|p| - 2] == s[..|s| - 1];
    assert TrailingDigits(s[..|s| - 1]) == 0;
    assert TrailingDigits(p[..|p| - 1]) == 1;
    assert s == s[..|s| - 1] + [d];
  }

  /** `fill_col_leading_zeros(df)` without `inplace`: the columns, in order and
      with their values, under padded names. */
  function FillColLeadingZeros<T>(f: Frame<T>): (g: Frame<T>)
    ensures |g| == |f|
    ensures forall j :: 0 <= j < |f| ==> g[j] == Column(PadDigits(f[j].name), f[j].values)
  {
    seq(|f|, j requires 0 <= j < |f| => Column(PadDigits(f[j].name), f[j].values))
  }

  /** Filling twice is filling once. */
  lemma FillColLeadingZerosIdempotent<T>(f: Frame<T>)
    ensures FillColLeadingZeros(FillColLeadingZeros(f)) == FillColLeadingZeros(f)
  {
    forall j | 0 <= j < |f| ensures PadDigits(PadDigits(f[j].name)) == PadDigits(f[j].name) {
      PadDigitsMeaning(f[j].name);
    }
  }

  /** `fill_col_leading_zeros(df, inplace=True)`. */
  method FillColLeadingZerosInPlace<T>(data: DataFrame<T>)
    modifies data
    ensures data.columns == FillColLeadingZeros(old(data.columns))
  {
    data.columns := FillColLeadingZeros(data.columns);
  }

  function UpperChar(c: char): (r: char)
    ensures 'a' <= c <= 'z' ==> r as int == c as int - 32
  {
    if 'a' <= c <= 'z' then (c as int - 32) as char else c
  }

  /** The converted remainder of a name: `_` before every uppercase letter, all lowered. */
  function SnakeTail(s: string): (r: string)
    ensures |r| >= |s|
    ensures forall i :: 0 <= i < |r| ==> !IsUpper(r[i])
  {
    if s == [] then []
    else (if IsUpper(s[0]) then ['_', LowerChar(s[0])] else [LowerChar(s[0])]) + SnakeTail(s[1..])
  }

  /** `camel_to_snake(name)`: an underscore before each uppercase letter that is
      not the first character, then the whole name lowered. */
  function CamelToSnake(s: string): (r: string)
    ensures |r| >= |s|
    ensures forall i :: 0 <= i < |r| ==> !IsUpper(r[i])
    ensures s != [] ==> r[0] == LowerChar(s[0])
  {
    if s == [] then [] else [LowerChar(s[0])] + SnakeTail(s[1..])
  }

  /** A name without uppercase letters passes through unchanged. */
  lemma {:induction false} SnakeTailOfLower(s: string)
    requires forall i :: 0 <= i < |s| ==> !IsUpper(s[i])
    ensures SnakeTail(s) == s
  {
    if s != [] {
      SnakeTailOfLower(s[1..]);
    }
  }

  /** Converting twice is converting once. */
  lemma CamelToSnakeIdempotent(s: string)
    ensures CamelToSnake(CamelToSnake(s)) == CamelToSnake(s)
  {
    var r := CamelToSnake(s);
    if r != [] {
      SnakeTailOfLower(r[1..]);
      assert r == [r[0]] + r[1..];
    }
  }

  /** The reverse reading: `_x` becomes `X`. */
  function CamelTail(t: string): string {
    if t == [] then []
    else if |t| >= 2 && t[0] == '_' && 'a' <= t[1] <= 'z' then [UpperChar(t[1])] + CamelTail(t[2..])
    else [t[0]] + CamelTail(t[1..])
  }

  function SnakeToCamel(t: string): string {
    if t == [] then [] else [t[0]] + CamelTail(t[1..])
  }

  lemma {:induction false} SnakeTailRoundTrip(s: string)
    requires '_' !in s
    ensures CamelTail(SnakeTail(s)) == s
  {
    if s != [] {
      SnakeTailRoundTrip(s[1..]);
      assert '_' !in s[1..];
      var rest := SnakeTail(s[1..]);
      if IsUpper(s[0]) {
        assert SnakeTail(s) == ['_', LowerChar(s[0])] + rest;
        assert (['_', LowerChar(s[0])] + rest)[2..] == rest;
      } else {
        assert SnakeTail(s) == [s[0]] + rest;
        assert ([s[0]] + rest)[1..] == rest;
      }
    }
  }

  /** A name without underscores that does not start with an uppercase letter
      is recovered from its snake-case form: the conversion loses only the case
      of the first letter and the difference between `_x` and `X` in a name
      that already had underscores. */
  lemma CamelToSnakeRoundTrip(s: string)
    requires '_' !in s
    requires s != [] ==> !IsUpper(s[0])
    ensures SnakeToCamel(CamelToSnake(s)) == s
  {
    if s != [] {
      assert '_' !in s[1..];
      SnakeTailRoundTrip(s[1..]);
      assert s == [s[0]] + s[1..];
    }
  }

  /** Which end of a column name a literal filter pattern is matched at. */
  datatype Anchor = AtStart | AtEnd | Anywhere

  predicate Matches(a: Anchor, name: string, p: string) {
    match a
    case AtStart => StartsWith(name, p)
    case AtEnd => EndsWith(name, p)
    case Anywhere => Contains(name, p)
  }

  /** `df.filter(regex=...)` for a literal pattern: the matching columns, in order. */
  function KeepColumns<T>(f: Frame<T>, a: Anchor, p: string): (r: Frame<T>)
    ensures forall i :: 0 <= i < |r| ==> r[i] in f && Matches(a, r[i].name, p)
    ensures forall j :: 0 <= j < |f| && Matches(a, f[j].name, p) ==> f[j] in r
  {
    if f == [] then []
    else
      var rest := KeepColumns(f[1..], a, p);
      assert forall j :: 1 <= j < |f| ==> f[j] == f[1..][j - 1];
      (if Matches(a, f[0].name, p) then [f[0]] else []) + rest
  }

  /** A pattern argument counts only when it is a non-empty string. */
  predicate Given(p: Option<string>) {
    p.Some? && p.value != []
  }

  /** The columns `find_cols` keeps before it pads and sorts them. */
  function Filtered<T>(f: Frame<T>, startsWith: Option<string>, endsWith: Option<string>, contains: Option<string>): Frame<T> {
    KeepIf(KeepIf(KeepIf(f, AtStart, startsWith), AtEnd, endsWith), Anywhere, contains)
  }

  /** One filter of `find_cols`, applied only when its pattern is given. */
  function KeepIf<T>(f: Frame<T>, a: Anchor, p: Option<string>): (r: Frame<T>)
    ensures forall c :: c in r ==> c in f && (Given(p) ==> Matches(a, c.name, p.value))
  {
    if Given(p) then KeepColumns(f, a, p.value) else f
  }

  predicate UniqueNames<T>(f: Frame<T>) {
    forall i, j :: 0 <= i < j < |f| ==> f[i].name != f[j].name
  }

  /** `df.reindex(names, axis='columns')` for a rearrangement `names` of the
      column names: nothing to do when the order is already right, otherwise the
      columns must be unique. */
  function Reindexed<T>(f: Frame<T>, names: seq<string>): (r: Result<Frame<T>>)
    requires multiset(names) == multiset(Names(f))
    ensures r.Ok? ==> Names(r.value) == names && |r.value| == |f| && forall i :: 0 <= i < |f| ==> r.value[i] in f
    ensures r.Err? <==> names != Names(f) && !UniqueNames(f)
  {
    if names == Names(f) then Ok(f)
    else if !UniqueNames(f) then Err(ValueError("cannot reindex from a duplicate axis"))
    else
      assert |names| == |f| by {
        assert |multiset(names)| == |multiset(Names(f))|;
      }
      assert forall i :: 0 <= i < |names| ==> names[i] in Names(f) by {
        forall i | 0 <= i < |names| ensures names[i] in Names(f) {
          assert names[i] in multiset(names);
        }
      }
      Ok(ColumnsNamed(f, names))
  }

  /** The columns of `f` in the order `names` gives, each the first column of its name. */
  function ColumnsNamed<T>(f: Frame<T>, names: seq<string>): (r: Frame<T>)
    requires forall i :: 0 <= i < |names| ==> names[i] in Names(f)
    ensures Names(r) == names && forall i :: 0 <= i < |r| ==> r[i] in f
  {
    if names == [] then []
    else
      var rest := ColumnsNamed(f, names[1..]);
      var r := [f[ColumnIndex(f, names[0]).value]] + rest;
      assert forall i :: 1 <= i < |r| ==> Names(r)[i] == Names(rest)[i - 1];
      r
  }

  /** `find_cols(df, starts_with, ends_with, contains, fill_zeros)`: the kept
      columns, padded when `fill_zeros` is set, in sorted column order; and the
      kept names, unpadded and in table order with `fill_zeros`, otherwise the
      sorted names. */
  function FindCols<T>(f: Frame<T>, startsWith: Option<string>, endsWith: Option<string>, contains: Option<string>,
                       fillZeros: bool): (r: Result<(Frame<T>, seq<string>)>)
    ensures r.Err? ==> r.error.ValueError?
    ensures r.Ok? ==> Sorted(Names(r.value.0)) && |r.value.0| == |Filtered(f, startsWith, endsWith, contains)|
    ensures r.Ok? && !fillZeros ==> r.value.1 == Names(r.value.0)
    ensures r.Ok? && fillZeros ==> r.value.1 == Names(Filtered(f, startsWith, endsWith, contains))
  {
    var kept := Filtered(f, startsWith, endsWith, contains);
    var g := if fillZeros then FillColLeadingZeros(kept) else kept;
    var sorted :- Reindexed(g, Sort(Names(g)));
    Ok((sorted, if fillZeros then Names(kept) else Names(sorted)))
  }

  /** The kept columns are columns of the table that pass every given pattern. */
  lemma FilteredMeaning<T>(f: Frame<T>, startsWith: Option<string>, endsWith: Option<string>, contains: Option<string>)
    ensures forall c :: c in Filtered(f, startsWith, endsWith, contains) ==>
      c in f &&
      (Given(startsWith) ==> StartsWith(c.name, startsWith.value)) &&
      (Given(endsWith) ==> EndsWith(c.name, endsWith.value)) &&
      (Given(contains) ==> Contains(c.name, contains.value))
  {
    var f1 := KeepIf(f, AtStart, startsWith);
    var f2 := KeepIf(f1, AtEnd, endsWith);
    forall c | c in Filtered(f, startsWith, endsWith, contains)
      ensures c in f
      ensures Given(startsWith) ==> StartsWith(c.name, startsWith.value)
      ensures Given(endsWith) ==> EndsWith(c.name, endsWith.value)
    {
      assert c in f2;
      assert c in f1;
    }
  }

  /** The columns found come out sorted by name and are the kept (and, with
      `fill_zeros`, padded) columns rearranged; with `fill_zeros` the names
      returned are the kept names as they were, otherwise the sorted ones. */
  lemma FindColsMeaning<T>(f: Frame<T>, startsWith: Option<string>, endsWith: Option<string>, contains: Option<string>,
                           fillZeros: bool)
    requires FindCols(f, startsWith, endsWith, contains, fillZeros).Ok?
    ensures var found := FindCols(f, startsWith, endsWith, contains, fillZeros).value;
      var kept := Filtered(f, startsWith, endsWith, contains);
      var g := if fillZeros then FillColLeadingZeros(kept) else kept;
      Sorted(Names(found.0)) && |found.0| == |kept| &&
      (forall i :: 0 <= i < |found.0| ==> found.0[i] in g) &&
      found.1 == (if fillZeros then Names(kept) else Names(found.0))
  {
    var kept := Filtered(f, startsWith, endsWith, contains);
    var g := if fillZeros then FillColLeadingZeros(kept) else kept;
    var sorted := Reindexed(g, Sort(Names(g)));
    assert sorted.Ok?;
  }
}
