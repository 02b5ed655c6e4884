/**
 * The tabular data the lookups work on: cells, rows and tables as values,
 * a `Frame` class for a table that is copied and updated in place (a pandas
 * DataFrame), and the two scans the lookups are built from: the first
 * element that satisfies a test, and the elements that do, in order.
 */
module Frames {
  import opened Wrappers
  import opened Strings

  /** One cell: text as loaded, a number after numeric coercion, or no value (NaN). */
  datatype Cell = Str(s: string) | Num(n: int) | NaN

  /** A row maps each column name to its cell. */
  type Row = map<string, Cell>

  /** A table: its column names and its rows, in order. */
  datatype Table = Table(columns: set<string>, rows: seq<Row>)

  /** Every row has exactly the table's columns. */
  predicate WellFormed(t: Table)
  {
    forall i :: 0 <= i < |t.rows| ==> t.rows[i].Keys == t.columns
  }

  /** `pd.to_numeric(..., errors='coerce')` applied to one cell: never text afterwards. */
  function ToNumeric(c: Cell): (r: Cell)
    ensures r.Num? || r.NaN?
    ensures c.Str? ==> (r.Num? <==> ParseInt(c.s).Some?)
    ensures c.Str? && r.Num? ==> ParseInt(c.s) == Some(r.n)
  {
    match c
    case Str(s) => (match ParseInt(s) case Some(n) => Num(n) case None => NaN)
    case Num(n) => Num(n)
    case NaN => NaN
  }

  /** `Series.astype(str)` applied to one cell: NaN becomes the text "nan". */
  function AsStr(c: Cell): Cell
  {
    match c
    case Str(_) => c
    case Num(n) => Str(ShowInt(n))
    case NaN => Str("nan")
  }

  /** `f` applied to every cell of one column, in row order. */
  function MapColumn(t: Table, name: string, f: Cell -> Cell): (col: seq<Cell>)
    requires WellFormed(t) && name in t.columns
    ensures |col| == |t.rows|
  {
    seq(|t.rows|, i requires 0 <= i < |t.rows| => f(t.rows[i][name]))
  }

  /** `df[name] = values`: the table with that column overwritten (or added). */
  function WithColumn(t: Table, name: string, values: seq<Cell>): (r: Table)
    requires WellFormed(t) && |values| == |t.rows|
    ensures WellFormed(r) && r.columns == t.columns + {name} && |r.rows| == |t.rows|
    ensures forall i :: 0 <= i < |t.rows| ==>
      r.rows[i][name] == values[i] &&
      forall col :: col in t.rows[i] && col != name ==> r.rows[i][col] == t.rows[i][col]
  {
    Table(t.columns + {name}, seq(|t.rows|, i requires 0 <= i < |t.rows| => t.rows[i][name := values[i]]))
  }

  /** A pandas DataFrame: a table whose columns can be overwritten in place. */
  class Frame {
    var columns: set<string>
    var rows: seq<Row>

    ghost predicate Valid()
      reads this
    {
      WellFormed(Table(columns, rows))
    }

    /** The table this frame currently holds. */
    function Value(): Table
      reads this
    {
      Table(columns, rows)
    }

    constructor (t: Table)
      requires WellFormed(t)
      ensures Valid() && Value() == t
    {
      columns := t.columns;
      rows := t.rows;
    }

    /** `df.copy()`: a new frame with the same contents, sharing nothing with this one. */
    method Copy() returns (c: Frame)
      requires Valid()
      ensures fresh(c) && c.Valid() && c.Value() == Value()
    {
      c := new Frame(Value());
    }

    /** `df[name] = values`, in place. */
    method SetColumn(name: string, values: seq<Cell>)
      requires Valid() && |values| == |rows|
      modifies this
      ensures Valid() && Value() == WithColumn(old(Value()), name, values)
    {
      var t := WithColumn(Value(), name, values);
      columns, rows := t.columns, t.rows;
    }
  }

  /** The index of the first element of `xs` that satisfies `p`, if any. */
  function FirstIndex<T>(xs: seq<T>, p: T -> bool): (r: Option<nat>)
    ensures r.None? <==> forall j :: 0 <= j < |xs| ==> !p(xs[j])
    ensures r.Some? ==> r.value < |xs| && p(xs[r.value]) && forall j :: 0 <= j < r.value ==> !p(xs[j])
  {
    if |xs| == 0 then None
    else if p(xs[0]) then Some(0)
    else match FirstIndex(xs[1..], p)
      case None => None
      case Some(k) => Some(k + 1)
  }

  /** Two scans that test the same positions alike stop at the same place. */
  lemma FirstIndexAlike<T, U>(xs: seq<T>, p: T -> bool, ys: seq<U>, q: U -> bool)
    requires |xs| == |ys| && forall j :: 0 <= j < |xs| ==> p(xs[j]) == q(ys[j])
    ensures FirstIndex(xs, p) == FirstIndex(ys, q)
  {
    var a, b := FirstIndex(xs, p), FirstIndex(ys, q);
    if a.Some? && b.Some? {
      assert !(a.value < b.value) && !(b.value < a.value);
    }
  }

  /** A boolean-mask selection `xs[mask]`: the elements satisfying `p`, in order. */
  function Filter<T(==)>(xs: seq<T>, p: T -> bool): (ys: seq<T>)
    ensures |ys| <= |xs|
    ensures forall i :: 0 <= i < |ys| ==> ys[i] in xs && p(ys[i])
    ensures forall x :: x in xs && p(x) ==> x in ys
  {
    if |xs| == 0 then []
    else (if p(xs[0]) then [xs[0]] else []) + Filter(xs[1..], p)
  }

  /** Selecting from two parts one after the other keeps the order of the parts. */
  lemma {:induction false} FilterAppend<T>(a: seq<T>, b: seq<T>, p: T -> bool)
    ensures Filter(a + b, p) == Filter(a, p) + Filter(b, p)
    decreases |a|
  {
    if |a| > 0 {
      assert (a + b)[0] == a[0];
      assert (a + b)[1..] == a[1..] + b;
      FilterAppend(a[1..], b, p);
    } else {
      assert a + b == b;
    }
  }

  /** The selection is empty exactly when no element qualifies; otherwise it starts with the first one that does. */
  lemma {:induction false} FilterHead<T>(xs: seq<T>, p: T -> bool)
    ensures |Filter(xs, p)| == 0 <==> FirstIndex(xs, p).None?
    ensures FirstIndex(xs, p).Some? ==> Filter(xs, p)[0] == xs[FirstIndex(xs, p).value]
  {
    if |xs| > 0 && !p(xs[0]) {
      FilterHead(xs[1..], p);
    }
  }

  /** The names of a sequence of named entries, in order; the ensures only unfold the comprehension for the verifier. */
  function Names<T>(entries: seq<(string, T)>): (names: seq<string>)
    ensures |names| == |entries|
    ensures forall i :: 0 <= i < |entries| ==> names[i] == entries[i].0
  {
    seq(|entries|, i requires 0 <= i < |entries| => entries[i].0)
  }

  /** The frames among named entries. */
  function FramesOf(data: seq<(string, Frame)>): set<Frame>
  {
    set i | 0 <= i < |data| :: data[i].1
  }

  /** The tables that named frames currently hold, under the same names; the ensures only unfold the comprehension for the verifier. */
  function Snapshot(data: seq<(string, Frame)>): (cat: seq<(string, Table)>)
    reads FramesOf(data)
    ensures |cat| == |data|
    ensures forall i :: 0 <= i < |data| ==> cat[i] == (data[i].0, data[i].1.Value())
  {
    seq(|data|, i reads FramesOf(data) requires 0 <= i < |data| => (data[i].0, data[i].1.Value()))
  }

  /**
   * `for key in data: if wanted(key): df = data[key]; break`: the frame of
   * the first entry whose name qualifies, the caller's own frame, not a copy.
   */
  method SelectFrame(data: seq<(string, Frame)>, wanted: string -> bool) returns (df: Option<Frame>)
    ensures df == match FirstIndex(Names(data), wanted)
                  case None => None
                  case Some(i) => Some(data[i].1)
  {
    df := None;
    var i := 0;
    while i < |data|
      invariant 0 <= i <= |data|
      invariant forall j :: 0 <= j < i ==> !wanted(data[j].0)
    {
      if wanted(data[i].0) {
        df := Some(data[i].1);
        break;
      }
      i := i + 1;
    }
  }
}
