/**
 * The data-quality report: per-table row counts, per-column type names, null
 * counts and null fractions, and the cross-table count of orphan ratings
 * (ratings whose `movie_id` matches no movie `id`). Everything here is a pure
 * function of the two cleaned tables.
 */
module Reporting {
  import opened Wrappers
  import opened Seqs
  import opened Frames

  /** A float that may be NaN: `Series.mean()` of an empty series is NaN. */
  datatype Ratio = Fraction(value: real) | NaN

  /** The per-table summary `dq_summary` returns. */
  datatype TableSummary = TableSummary(
    table: string,
    rows: nat,
    columns: map<string, string>,
    nullsPerColumn: map<string, nat>,
    nullPctPerColumn: map<string, Ratio>)

  /** The cross-table result `referential_issues` returns. */
  datatype Integrity = Integrity(orphanRatingsCount: nat)

  datatype Report = Report(movies: TableSummary, ratings: TableSummary, integrity: Integrity)

  /** `astype(int)` of the movie ids raised: some id is missing or not a number. */
  datatype ReportError = IdCastFailed

  /** The cells of one column, top to bottom: `df[col]`. */
  function ColumnCells(rows: seq<Row>, col: string): (cells: seq<Cell>)
    ensures |cells| == |rows|
    ensures forall k :: 0 <= k < |rows| ==> cells[k] == Get(rows[k], col)
  {
    seq(|rows|, k requires 0 <= k < |rows| => Get(rows[k], col))
  }

  /** `Series.isna()`. */
  function IsNaMask(cells: seq<Cell>): (m: seq<bool>)
    ensures |m| == |cells|
    ensures forall k :: 0 <= k < |cells| ==> m[k] == cells[k].Missing?
  {
    seq(|cells|, k requires 0 <= k < |cells| => cells[k].Missing?)
  }

  /** `int(df[col].isna().sum())`. */
  function NullCount(f: Frame, col: string): (n: nat)
    ensures n <= |f.rows|
  {
    CountTrue(IsNaMask(ColumnCells(f.rows, col)))
  }

  /** `float(df[col].isna().mean())`: the null count over the row count, NaN for no rows. */
  function NullFraction(f: Frame, col: string): (p: Ratio)
    ensures |f.rows| == 0 <==> p.NaN?
    ensures p.Fraction? ==> 0.0 <= p.value <= 1.0
  {
    if |f.rows| == 0 then NaN
    else
      FractionInUnit(NullCount(f, col), |f.rows|);
      Fraction(NullCount(f, col) as real / |f.rows| as real)
  }

  /** A count of at most `m` things over `m` lies between 0 and 1. */
  lemma FractionInUnit(n: nat, m: nat)
    requires 0 < m && n <= m
    ensures 0.0 <= n as real / m as real <= 1.0
  {
    var q := n as real / m as real;
    assert q * m as real == n as real;
  }

  /** The rows whose cell in `col` is missing. */
  function MissingPositions(rows: seq<Row>, col: string): set<nat>
  {
    set k: nat | k < |rows| && Get(rows[k], col).Missing?
  }

  /** The null count of a column is the number of rows in which that column is missing. */
  lemma NullCountIsMissingRows(f: Frame, col: string)
    ensures NullCount(f, col) == |MissingPositions(f.rows, col)|
  {
    var m := IsNaMask(ColumnCells(f.rows, col));
    CountTrueIsCardinality(m);
    assert TruePositions(m) == MissingPositions(f.rows, col);
  }

  /** A column has no nulls exactly when no row's cell in it is missing. */
  lemma NullCountZero(f: Frame, col: string)
    ensures NullCount(f, col) == 0 <==> forall k :: 0 <= k < |f.rows| ==> !Get(f.rows[k], col).Missing?
  {
    CountTrueZero(IsNaMask(ColumnCells(f.rows, col)));
  }

  /**
   * `dq_summary`: the table name, its length, and three maps keyed by exactly the
   * table's columns. The type name of a column (`str(df[col].dtype)`) is library
   * behaviour and is given as `dtypeOf`, applied to the column's cells.
   */
  function DqSummary(f: Frame, name: string, dtypeOf: seq<Cell> -> string): (s: TableSummary)
    ensures s.table == name && s.rows == |f.rows|
    ensures s.columns.Keys == ColumnSet(f.columns)
    ensures s.nullsPerColumn.Keys == ColumnSet(f.columns)
    ensures s.nullPctPerColumn.Keys == ColumnSet(f.columns)
    ensures forall c :: c in s.nullsPerColumn ==> s.nullsPerColumn[c] <= s.rows
    ensures forall c :: c in s.nullPctPerColumn && s.rows > 0 ==>
              s.nullPctPerColumn[c] == Fraction(s.nullsPerColumn[c] as real / s.rows as real)
              && 0.0 <= s.nullPctPerColumn[c].value <= 1.0
    ensures forall c :: c in s.nullPctPerColumn && s.rows == 0 ==> s.nullPctPerColumn[c].NaN?
  {
    TableSummary(
      name,
      |f.rows|,
      map c | c in f.columns :: dtypeOf(ColumnCells(f.rows, c)),
      map c | c in f.columns :: NullCount(f, c),
      map c | c in f.columns :: NullFraction(f, c))
  }

  /** The summarised null counts are the numbers of missing cells per column. */
  lemma DqSummaryCountsNulls(f: Frame, name: string, dtypeOf: seq<Cell> -> string, col: string)
    requires col in f.columns
    ensures DqSummary(f, name, dtypeOf).nullsPerColumn[col] == |MissingPositions(f.rows, col)|
  {
    NullCountIsMissingRows(f, col);
  }

  /** `DataFrame.empty`: no rows or no columns. */
  predicate IsEmpty(f: Frame)
  {
    |f.rows| == 0 || |f.columns| == 0
  }

  /** `set(movies["id"].astype(int).tolist())`, or None when some id cannot be cast. */
  function MovieIds(rows: seq<Row>): (ids: Option<set<int>>)
    ensures ids.None? <==> exists k :: 0 <= k < |rows| && CastToInt(Get(rows[k], "id")).None?
    ensures ids.Some? ==> forall i :: i in ids.value <==> exists k :: 0 <= k < |rows| && CastToInt(Get(rows[k], "id")) == Some(i)
  {
    if rows == [] then Some({})
    else
      var rest := MovieIds(rows[1..]);
      assert forall k :: 1 <= k < |rows| ==> rows[k] == rows[1..][k - 1];
      match CastToInt(Get(rows[0], "id"))
      case None => None
      case Some(i) =>
        match rest
        case None => None
        case Some(s) =>
          assert forall j :: j in s ==> exists k :: 1 <= k < |rows| && CastToInt(Get(rows[k], "id")) == Some(j) by {
            forall j | j in s ensures exists k :: 1 <= k < |rows| && CastToInt(Get(rows[k], "id")) == Some(j) {
              var k' :| 0 <= k' < |rows[1..]| && CastToInt(Get(rows[1..][k'], "id")) == Some(j);
              assert rows[k' + 1] == rows[1..][k'];
            }
          }
          Some({i} + s)
  }

  /** `Series.isin(ids)` on one cell: a number equal to one of the integer ids. */
  predicate IsIn(c: Cell, ids: set<int>)
    ensures IsIn(c, ids) <==> exists i :: i in ids && (c == Int(i) || c == Num(i as real))
  {
    match c
    case Int(i) => i in ids
    case Num(x) => IsWhole(x) && x.Floor in ids
    case _ => false
  }

  /** `~ratings["movie_id"].isin(ids)`. */
  function OrphanMask(rows: seq<Row>, ids: set<int>): (m: seq<bool>)
    ensures |m| == |rows|
    ensures forall k :: 0 <= k < |rows| ==> m[k] == !IsIn(Get(rows[k], "movie_id"), ids)
  {
    seq(|rows|, k requires 0 <= k < |rows| => !IsIn(Get(rows[k], "movie_id"), ids))
  }

  /** `referential_issues`. */
  function ReferentialIssues(movies: Frame, ratings: Frame): (r: Result<Integrity, ReportError>)
    ensures r.Ok? ==> r.value.orphanRatingsCount <= |ratings.rows|
  {
    if IsEmpty(movies) || IsEmpty(ratings) || "id" !in movies.columns || "movie_id" !in ratings.columns then
      Ok(Integrity(0))
    else
      match MovieIds(movies.rows)
      case None => Err(IdCastFailed)
      case Some(ids) => Ok(Integrity(CountTrue(OrphanMask(ratings.rows, ids))))
  }

  /** The rating rows whose `movie_id` matches no movie id. */
  function OrphanPositions(rows: seq<Row>, ids: set<int>): set<nat>
  {
    set k: nat | k < |rows| && !IsIn(Get(rows[k], "movie_id"), ids)
  }

  /** When a table is empty or lacks its key column, there is nothing to compare and the count is 0. */
  lemma NoKeysNoOrphans(movies: Frame, ratings: Frame)
    requires IsEmpty(movies) || IsEmpty(ratings) || "id" !in movies.columns || "movie_id" !in ratings.columns
    ensures ReferentialIssues(movies, ratings) == Ok(Integrity(0))
  {
  }

  /** Otherwise the cast fails exactly when some movie id is missing or not a number. */
  lemma OrphanCastFailure(movies: Frame, ratings: Frame)
    requires !IsEmpty(movies) && !IsEmpty(ratings) && "id" in movies.columns && "movie_id" in ratings.columns
    ensures ReferentialIssues(movies, ratings).Err? <==>
              exists k :: 0 <= k < |movies.rows| && CastToInt(Get(movies.rows[k], "id")).None?
  {
  }

  /** Otherwise the count is the number of rating rows whose `movie_id` is not a movie id. */
  lemma OrphanCountIsOrphanRows(movies: Frame, ratings: Frame)
    requires !IsEmpty(movies) && !IsEmpty(ratings) && "id" in movies.columns && "movie_id" in ratings.columns
    requires MovieIds(movies.rows).Some?
    ensures ReferentialIssues(movies, ratings) ==
              Ok(Integrity(|OrphanPositions(ratings.rows, MovieIds(movies.rows).value)|))
  {
    var ids := MovieIds(movies.rows).value;
    var m := OrphanMask(ratings.rows, ids);
    CountTrueIsCardinality(m);
    assert TruePositions(m) == OrphanPositions(ratings.rows, ids);
  }

  /** The count is 0 exactly when every rating's `movie_id` matches a movie id. */
  lemma NoOrphansWhenAllMatch(movies: Frame, ratings: Frame)
    requires !IsEmpty(movies) && !IsEmpty(ratings) && "id" in movies.columns && "movie_id" in ratings.columns
    requires MovieIds(movies.rows).Some?
    ensures ReferentialIssues(movies, ratings).value.orphanRatingsCount == 0 <==>
              forall k :: 0 <= k < |ratings.rows| ==> IsIn(Get(ratings.rows[k], "movie_id"), MovieIds(movies.rows).value)
  {
    CountTrueZero(OrphanMask(ratings.rows, MovieIds(movies.rows).value));
  }

  /** A rating of movie 99 when no movie has id 99 is counted as an orphan. */
  lemma OrphanExample(movies: Frame, ratings: Frame, k: int)
    requires !IsEmpty(movies) && "id" in movies.columns && "movie_id" in ratings.columns
    requires forall j :: 0 <= j < |movies.rows| ==> Get(movies.rows[j], "id").Int? && Get(movies.rows[j], "id").i != 99
    requires 0 <= k < |ratings.rows| && Get(ratings.rows[k], "movie_id") == Int(99)
    ensures ReferentialIssues(movies, ratings).Ok?
    ensures ReferentialIssues(movies, ratings).value.orphanRatingsCount >= 1
  {
    var m := OrphanMask(ratings.rows, MovieIds(movies.rows).value);
    assert m[k];
    CountTrueZero(m);
  }

  /**
   * `generate_report` without its logging and file output: the two summaries and
   * the integrity result. The cast failure of `referential_issues` propagates.
   */
  function GenerateReport(movies: Frame, ratings: Frame, dtypeOf: seq<Cell> -> string): (r: Result<Report, ReportError>)
    ensures r.Err? <==> ReferentialIssues(movies, ratings).Err?
    ensures r.Ok? ==>
      && r.value.movies.table == "movies" && r.value.movies.rows == |movies.rows|
      && r.value.ratings.table == "ratings" && r.value.ratings.rows == |ratings.rows|
      && r.value.movies.nullsPerColumn.Keys == ColumnSet(movies.columns)
      && r.value.ratings.nullsPerColumn.Keys == ColumnSet(ratings.columns)
      && r.value.integrity.orphanRatingsCount <= |ratings.rows|
    ensures r.Ok? ==>
      r.value == Report(DqSummary(movies, "movies", dtypeOf), DqSummary(ratings, "ratings", dtypeOf),
                        ReferentialIssues(movies, ratings).value)
  {
    match ReferentialIssues(movies, ratings)
    case Err(e) => Err(e)
    case Ok(integrity) =>
      Ok(Report(DqSummary(movies, "movies", dtypeOf), DqSummary(ratings, "ratings", dtypeOf), integrity))
  }
}
