/**
 * The record set the cleaners work on: a data frame with named columns, an index
 * of row labels, and rows mapping column names to dynamically typed cells, together
 * with the handful of frame operations the cleaners apply (`dropna`, column
 * assignment through `.loc`, boolean selection, `drop_duplicates`, `reset_index`).
 */
module Frames {
  import opened Wrappers
  import opened Seqs
  import opened Strings

  /** One cell: an integer, a float, a string, or missing (NaN / None). */
  datatype Cell = Int(i: int) | Num(x: real) | Text(s: string) | Missing

  type Row = map<string, Cell>

  datatype Frame = Frame(columns: seq<string>, index: seq<int>, rows: seq<Row>)

  /**
   * The two library conversions whose exact grammar is not modelled: `pd.to_numeric`
   * applied to one string (None when it does not parse) and `str()` of a float.
   */
  datatype Conversions = Conversions(parseNumber: string -> Option<real>, showFloat: real -> string)

  function ColumnSet(columns: seq<string>): set<string>
  {
    set c | c in columns
  }

  /** Every row has exactly the frame's columns, and every row has a label. */
  predicate WellFormed(f: Frame)
  {
    |f.index| == |f.rows| &&
    forall k :: 0 <= k < |f.rows| ==> f.rows[k].Keys == ColumnSet(f.columns)
  }

  /** The cell of a row in a column; a column the row lacks reads as missing. */
  function Get(r: Row, col: string): Cell
  {
    if col in r then r[col] else Missing
  }

  /** Two rows with the same columns and the same cell in every column are the same row. */
  lemma SameCellsSameRow(a: Row, b: Row)
    requires a.Keys == b.Keys
    requires forall c :: Get(a, c) == Get(b, c)
    ensures a == b
  {
    forall c | c in a ensures a[c] == b[c] {
      assert Get(a, c) == Get(b, c);
    }
  }

  /** `astype(str)` of one cell. */
  function Render(c: Cell, conv: Conversions): (r: string)
    ensures c.Text? ==> r == c.s
    ensures c.Int? ==> r != [] && IsTrimmed(r)
  {
    match c
    case Int(i) => IntToText(i)
    case Num(x) => conv.showFloat(x)
    case Text(s) => s
    case Missing => "nan"
  }

  /**
   * `pd.to_numeric(errors="coerce")` of one cell: numbers keep their value, a
   * string becomes the number it parses to, and anything else becomes missing.
   */
  function ToNumeric(c: Cell, conv: Conversions): (r: Cell)
    ensures r.Num? || r.Missing?
    ensures c.Missing? ==> r.Missing?
    ensures (c.Int? || c.Num?) ==> r.Num?
    ensures c.Int? ==> r == Num(c.i as real)
    ensures c.Num? ==> r == c
    ensures c.Text? ==> (r.Num? <==> conv.parseNumber(c.s).Some?)
    ensures c.Text? && r.Num? ==> r.x == conv.parseNumber(c.s).value
  {
    match c
    case Int(i) => Num(i as real)
    case Num(_) => c
    case Text(s) => (match conv.parseNumber(s) case Some(v) => Num(v) case None => Missing)
    case Missing => Missing
  }

  predicate IsWhole(x: real)
  {
    x.Floor as real == x
  }

  /** Conversion of a float to an integer (`astype(int)`): truncation toward zero. */
  function Trunc(x: real): (n: int)
    ensures 0.0 <= x ==> n as real <= x < n as real + 1.0
    ensures x < 0.0 ==> n as real - 1.0 < x <= n as real
  {
    if x >= 0.0 then x.Floor else -((-x).Floor)
  }

  /** Truncation leaves whole numbers as they are. */
  lemma TruncWhole(x: real)
    ensures IsWhole(x) ==> Trunc(x) as real == x
  {
    if x < 0.0 && IsWhole(x) {
      assert (-x).Floor == -(x.Floor);
    }
  }

  /** `astype(int)` of one cell; it fails on missing and on strings. */
  function CastToInt(c: Cell): (r: Option<int>)
    ensures r.Some? <==> c.Int? || c.Num?
    ensures c.Int? ==> r == Some(c.i)
    ensures c.Num? && 0.0 <= c.x ==> r.value as real <= c.x < r.value as real + 1.0
    ensures c.Num? && c.x < 0.0 ==> r.value as real - 1.0 < c.x <= r.value as real
    ensures c.Num? && IsWhole(c.x) ==> r.value as real == c.x
  {
    match c
    case Int(i) => Some(i)
    case Num(x) => TruncWhole(x); Some(Trunc(x))
    case _ => None
  }

  /** The distance between two reals. */
  function Dist(a: real, b: real): real
  {
    if a < b then b - a else a - b
  }

  /** `Series.clip(lo, hi)` on one value: the point of [lo, hi] nearest to x. */
  function Clamp(x: real, lo: real, hi: real): (r: real)
    ensures lo <= hi ==> lo <= r <= hi
    ensures lo <= hi ==> forall y :: lo <= y <= hi ==> Dist(r, x) <= Dist(y, x)
  {
    if x < lo then lo else if x > hi then hi else x
  }

  /** Out-of-range values go to the nearer bound; in-range values are unchanged. */
  lemma ClampCases(x: real, lo: real, hi: real)
    requires lo <= hi
    ensures x < lo ==> Clamp(x, lo, hi) == lo
    ensures hi < x ==> Clamp(x, lo, hi) == hi
    ensures lo <= x <= hi ==> Clamp(x, lo, hi) == x
  {
    var r := Clamp(x, lo, hi);
    if lo <= x <= hi {
      assert Dist(r, x) <= Dist(x, x);
    } else if x < lo {
      assert Dist(r, x) <= Dist(lo, x);
    } else {
      assert Dist(r, x) <= Dist(hi, x);
    }
  }

  /** The column-wise conversions the cleaners assign through `df.loc[:, col] = ...`. */
  datatype ColumnOp =
    | StripText                    // astype(str).str.strip()
    | StripTitleText               // astype(str).str.strip().str.title()
    | Numeric                      // pd.to_numeric(errors="coerce")
    | AsInt                        // astype(int)
    | AsFloat                      // astype(float)
    | ClipTo(lo: real, hi: real)   // clip(lo, hi)

  function ApplyOp(op: ColumnOp, c: Cell, conv: Conversions): (d: Cell)
    ensures op == StripText ==> d.Text? && IsTrimmed(d.s)
    ensures op == StripTitleText ==> d.Text? && IsTrimmed(d.s) && IsTitleCased(d.s)
    ensures op == Numeric ==> d.Num? || d.Missing?
    ensures op == AsInt ==> ((c.Int? || c.Num?) <==> d.Int?)
    ensures op == AsFloat ==> !d.Int? && (c.Int? ==> d == Num(c.i as real))
    ensures op.ClipTo? && op.lo <= op.hi && (c.Num? || c.Int?) ==> d.Num? && op.lo <= d.x <= op.hi
    ensures op.ClipTo? && !c.Num? && !c.Int? ==> d == c
  {
    match op
    case StripText => Text(Strip(Render(c, conv)))
    case StripTitleText =>
      var t := Strip(Render(c, conv));
      TitleIsTitleCased(t);
      TitleKeepsTrimmed(t);
      Text(Title(t))
    case Numeric => ToNumeric(c, conv)
    case AsInt => (match CastToInt(c) case Some(i) => Int(i) case None => c)
    case AsFloat => (match c case Int(i) => Num(i as real) case _ => c)
    case ClipTo(lo, hi) =>
      (match c case Num(x) => Num(Clamp(x, lo, hi)) case Int(i) => Num(Clamp(i as real, lo, hi)) case _ => c)
  }

  /** One row after `col` has been overwritten with `op` of its old value. */
  function AssignCell(r: Row, col: string, op: ColumnOp, conv: Conversions): (r': Row)
    ensures r'.Keys == r.Keys + {col}
    ensures Get(r', col) == ApplyOp(op, Get(r, col), conv)
    ensures forall c :: c != col ==> Get(r', c) == Get(r, c)
  {
    r[col := ApplyOp(op, Get(r, col), conv)]
  }

  /** `op` applied to `col` of every row, in order. */
  function AssignRows(rows: seq<Row>, col: string, op: ColumnOp, conv: Conversions): (out: seq<Row>)
    ensures |out| == |rows|
  {
    if rows == [] then [] else [AssignCell(rows[0], col, op, conv)] + AssignRows(rows[1..], col, op, conv)
  }

  lemma {:induction false} AssignRowsAt(rows: seq<Row>, col: string, op: ColumnOp, conv: Conversions, k: int)
    requires 0 <= k < |rows|
    ensures AssignRows(rows, col, op, conv)[k] == AssignCell(rows[k], col, op, conv)
    decreases k
  {
    if k > 0 {
      AssignRowsAt(rows[1..], col, op, conv, k - 1);
    }
  }

  lemma AssignRowsCons(x: Row, t: seq<Row>, col: string, op: ColumnOp, conv: Conversions)
    ensures AssignRows([x] + t, col, op, conv) == [AssignCell(x, col, op, conv)] + AssignRows(t, col, op, conv)
  {
    assert ([x] + t)[1..] == t;
  }

  /** Converting an existing column keeps the frame well formed. */
  lemma AssignWellFormed(f: Frame, col: string, op: ColumnOp, conv: Conversions)
    requires WellFormed(f) && col in f.columns
    ensures WellFormed(Assign(f, col, op, conv))
  {
    forall k | 0 <= k < |f.rows| ensures Assign(f, col, op, conv).rows[k].Keys == ColumnSet(f.columns) {
      AssignRowsAt(f.rows, col, op, conv, k);
    }
  }

  /** `df.loc[:, col] = op(df[col])`: every row's `col` is converted; no row is added or removed. */
  function Assign(f: Frame, col: string, op: ColumnOp, conv: Conversions): (g: Frame)
    ensures g.columns == f.columns && g.index == f.index && |g.rows| == |f.rows|
  {
    Frame(f.columns, f.index, AssignRows(f.rows, col, op, conv))
  }

  predicate NoneMissing(r: Row, subset: seq<string>)
  {
    forall c :: c in subset ==> Get(r, c) != Missing
  }

  lemma NoneMissingPair(r: Row, a: string, b: string)
    ensures NoneMissing(r, [a, b]) <==> Get(r, a) != Missing && Get(r, b) != Missing
  {
    assert a in [a, b] && b in [a, b];
  }

  lemma NoneMissingTriple(r: Row, a: string, b: string, c: string)
    ensures NoneMissing(r, [a, b, c]) <==> Get(r, a) != Missing && Get(r, b) != Missing && Get(r, c) != Missing
  {
    assert a in [a, b, c] && b in [a, b, c] && c in [a, b, c];
  }

  /** `df[subset].notna().all(axis=1)`: the rows `dropna(subset=...)` keeps. */
  function NotNaMask(rows: seq<Row>, subset: seq<string>): (m: seq<bool>)
    ensures |m| == |rows|
    ensures forall k :: 0 <= k < |rows| ==> m[k] == NoneMissing(rows[k], subset)
  {
    if rows == [] then [] else [NoneMissing(rows[0], subset)] + NotNaMask(rows[1..], subset)
  }

  lemma NotNaMaskCons(x: Row, t: seq<Row>, subset: seq<string>)
    ensures NotNaMask([x] + t, subset) == [NoneMissing(x, subset)] + NotNaMask(t, subset)
  {
    assert ([x] + t)[1..] == t;
  }

  lemma NonBlankMaskCons(x: Row, t: seq<Row>, col: string)
    ensures NonBlankMask([x] + t, col) == [NonBlank(Get(x, col))] + NonBlankMask(t, col)
  {
    assert ([x] + t)[1..] == t;
  }

  /**
   * Truth of `df[col].str.strip().astype(bool)` for one cell: a string is true when
   * it strips to something; a non-string yields NaN there, and NaN is true.
   */
  predicate NonBlank(c: Cell)
  {
    match c
    case Text(s) => Strip(s) != []
    case _ => true
  }

  function NonBlankMask(rows: seq<Row>, col: string): (m: seq<bool>)
    ensures |m| == |rows|
    ensures forall k :: 0 <= k < |rows| ==> m[k] == NonBlank(Get(rows[k], col))
  {
    if rows == [] then []
    else
      var rest := NonBlankMask(rows[1..], col);
      NonBlankMaskStep(rows, col, rest);
      [NonBlank(Get(rows[0], col))] + rest
  }

  /** One step of the blank-title mask: the head's entry, then the tail's entries shifted by one. */
  lemma NonBlankMaskStep(rows: seq<Row>, col: string, rest: seq<bool>)
    requires rows != [] && |rest| == |rows| - 1
    requires forall k :: 0 <= k < |rest| ==> rest[k] == NonBlank(Get(rows[1..][k], col))
    ensures var m := [NonBlank(Get(rows[0], col))] + rest;
      forall k :: 0 <= k < |rows| ==> m[k] == NonBlank(Get(rows[k], col))
  {
    var m := [NonBlank(Get(rows[0], col))] + rest;
    forall k | 0 <= k < |rows| ensures m[k] == NonBlank(Get(rows[k], col)) {
      if k > 0 {
        assert m[k] == rest[k - 1];
        assert rows[1..][k - 1] == rows[k];
      }
    }
  }

  /** Truth of `(df[col] < lo) | (df[col] > hi)` for one cell; comparisons with NaN are false. */
  predicate OutOfRange(c: Cell, lo: real, hi: real)
  {
    match c
    case Num(x) => x < lo || hi < x
    case Int(i) => i as real < lo || hi < i as real
    case _ => false
  }

  function OutOfRangeMask(rows: seq<Row>, col: string, lo: real, hi: real): (m: seq<bool>)
    ensures |m| == |rows|
    ensures forall k :: 0 <= k < |rows| ==> m[k] == OutOfRange(Get(rows[k], col), lo, hi)
  {
    if rows == [] then [] else [OutOfRange(Get(rows[0], col), lo, hi)] + OutOfRangeMask(rows[1..], col, lo, hi)
  }

  lemma OutOfRangeMaskCons(x: Row, t: seq<Row>, col: string, lo: real, hi: real)
    ensures OutOfRangeMask([x] + t, col, lo, hi) == [OutOfRange(Get(x, col), lo, hi)] + OutOfRangeMask(t, col, lo, hi)
  {
    assert ([x] + t)[1..] == t;
  }

  /** `df[keep]`: the rows and their labels where the mask holds, in order. */
  function Where(f: Frame, keep: seq<bool>): (g: Frame)
    requires |f.index| == |f.rows| == |keep|
    ensures g.columns == f.columns
    ensures |g.index| == |g.rows| == CountTrue(keep) <= |f.rows|
  {
    Frame(f.columns, Select(f.index, keep), Select(f.rows, keep))
  }

  /** Selecting rows keeps every remaining row's columns those of the frame. */
  lemma WhereWellFormed(f: Frame, keep: seq<bool>)
    requires WellFormed(f) && |keep| == |f.rows|
    ensures WellFormed(Where(f, keep))
  {
    var g := Where(f, keep);
    forall k | 0 <= k < |g.rows| ensures g.rows[k].Keys == ColumnSet(f.columns) {
      SelectElements(f.rows, keep, g.rows[k]);
    }
  }

  /** `df.dropna(subset=subset)`. */
  function DropNa(f: Frame, subset: seq<string>): (g: Frame)
    requires |f.index| == |f.rows|
    ensures g.columns == f.columns && |g.index| == |g.rows| <= |f.rows|
  {
    Where(f, NotNaMask(f.rows, subset))
  }

  /** `df[df[col].str.strip().astype(bool)]`. */
  function KeepNonBlank(f: Frame, col: string): (g: Frame)
    requires |f.index| == |f.rows|
    ensures g.columns == f.columns && |g.index| == |g.rows| <= |f.rows|
  {
    Where(f, NonBlankMask(f.rows, col))
  }

  /** `df.drop_duplicates()`: drop every row equal in all columns to an earlier one. */
  function DropDuplicates(f: Frame): (g: Frame)
    requires |f.index| == |f.rows|
    ensures g.columns == f.columns && |g.index| == |g.rows| <= |f.rows|
    ensures g.rows == Distinct(f.rows)
  {
    DropDuplicatesIsDistinct(f.rows);
    Where(f, FirstOccurrences(f.rows))
  }

  /**
   * The rows `df[keep]` retains: those at kept positions and no others, in their
   * original order.
   */
  lemma WhereRows(f: Frame, keep: seq<bool>)
    requires |f.index| == |f.rows| == |keep|
    ensures IsSubsequence(Where(f, keep).rows, f.rows)
    ensures forall k :: 0 <= k < |f.rows| && keep[k] ==> f.rows[k] in Where(f, keep).rows
    ensures forall y :: y in Where(f, keep).rows ==> exists k :: 0 <= k < |f.rows| && keep[k] && f.rows[k] == y
  {
    SelectIsSubsequence(f.rows, keep);
    SelectMembers(f.rows, keep);
  }

  /**
   * `dropna(subset=...)` retains exactly the rows with a value in every column of
   * the subset, in their original order.
   */
  lemma DropNaRows(f: Frame, subset: seq<string>)
    requires |f.index| == |f.rows|
    ensures IsSubsequence(DropNa(f, subset).rows, f.rows)
    ensures forall y :: y in DropNa(f, subset).rows ==> NoneMissing(y, subset)
    ensures forall k :: 0 <= k < |f.rows| && NoneMissing(f.rows[k], subset) ==> f.rows[k] in DropNa(f, subset).rows
  {
    WhereRows(f, NotNaMask(f.rows, subset));
  }

  /**
   * The blank filter retains exactly the rows whose cell in `col` does not strip
   * to the empty string, in their original order.
   */
  lemma KeepNonBlankRows(f: Frame, col: string)
    requires |f.index| == |f.rows|
    ensures IsSubsequence(KeepNonBlank(f, col).rows, f.rows)
    ensures forall y :: y in KeepNonBlank(f, col).rows ==> NonBlank(Get(y, col))
    ensures forall k :: 0 <= k < |f.rows| && NonBlank(Get(f.rows[k], col)) ==> f.rows[k] in KeepNonBlank(f, col).rows
  {
    WhereRows(f, NonBlankMask(f.rows, col));
  }

  /** `df.reset_index(drop=True)`: relabel the rows 0, 1, … in their current order. */
  function ResetIndex(f: Frame): (g: Frame)
    ensures g.columns == f.columns && g.rows == f.rows
    ensures forall k :: 0 <= k < |g.index| ==> g.index[k] == k
    ensures |g.index| == |g.rows|
  {
    Frame(f.columns, Range(|f.rows|), f.rows)
  }
}
