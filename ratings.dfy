/** `load_clean_ratings`: the rating cleaning pipeline and its row-wise reference. */
module Ratings {
  import opened Wrappers
  import opened Seqs
  import opened Frames
  import opened Cleaning

  /** The columns `dropna` requires, before and after coercion (lines 57 and 66). */
  const RatingColumns: seq<string> := ["user_id", "movie_id", "rating"]
  /** The rating scale `clip` enforces (lines 70-71). */
  const RatingFloor: real := 0.0
  const RatingCeiling: real := 10.0

  datatype RatingCounts = RatingCounts(
    read: nat, kept: nat, missingRequired: nat, badNumeric: nat, clipped: nat, duplicates: nat)

  /** `user_id`, `movie_id` and `rating` coerced to numbers (lines 61-63, on one row). */
  function RatingNumbers(r: Row, conv: Conversions): Row
  {
    AssignCell(AssignCell(AssignCell(r, "user_id", Numeric, conv), "movie_id", Numeric, conv), "rating", Numeric, conv)
  }

  /** `rating` clamped into the scale (line 71, on one row). */
  function RatingClip(r: Row, conv: Conversions): Row
  {
    AssignCell(r, "rating", ClipTo(RatingFloor, RatingCeiling), conv)
  }

  /** The final casts: integer ids and a float rating (lines 79-81, on one row). */
  function RatingCast(r: Row, conv: Conversions): Row
  {
    AssignCell(AssignCell(AssignCell(r, "user_id", AsInt, conv), "movie_id", AsInt, conv), "rating", AsFloat, conv)
  }

  /**
   * The rating rules applied to one raw row: a required field is missing; or one
   * of the three does not parse as a number; otherwise the row is kept, coerced
   * and with its rating clamped into [0, 10].
   */
  function RatingFate(r: Row, conv: Conversions): Fate
  {
    if !NoneMissing(r, RatingColumns) then Dropped(MissingRequired)
    else if ToNumeric(Get(r, "user_id"), conv).Missing? || ToNumeric(Get(r, "movie_id"), conv).Missing?
            || ToNumeric(Get(r, "rating"), conv).Missing? then
      Dropped(BadNumeric)
    else Kept(RatingClip(RatingNumbers(r, conv), conv))
  }

  /** A kept row whose parsed rating lies outside the scale, so that clamping alters it. */
  predicate IsClipped(r: Row, conv: Conversions)
  {
    RatingFate(r, conv).Kept? && OutOfRange(ToNumeric(Get(r, "rating"), conv), RatingFloor, RatingCeiling)
  }

  /** The kept rows, in input order, before de-duplication. */
  function RatingSurvivors(rows: seq<Row>, conv: Conversions): (out: seq<Row>)
    ensures |out| <= |rows|
  {
    if rows == [] then []
    else (match RatingFate(rows[0], conv) case Kept(y) => [y] case Dropped(_) => [])
         + RatingSurvivors(rows[1..], conv)
  }

  /** The number of rows dropped for the reason `why`. */
  function RatingTally(rows: seq<Row>, conv: Conversions, why: Reason): (n: nat)
    ensures n <= |rows|
  {
    if rows == [] then 0
    else (if RatingFate(rows[0], conv) == Dropped(why) then 1 else 0) + RatingTally(rows[1..], conv, why)
  }

  /** The number of kept rows whose rating clamping alters. */
  function ClippedTally(rows: seq<Row>, conv: Conversions): (n: nat)
    ensures n <= |rows|
  {
    if rows == [] then 0
    else (if IsClipped(rows[0], conv) then 1 else 0) + ClippedTally(rows[1..], conv)
  }

  /** The cleaned rating rows: the survivors, de-duplicated, then cast. */
  function RatingsReference(rows: seq<Row>, conv: Conversions): seq<Row>
  {
    var d := Distinct(RatingSurvivors(rows, conv));
    AssignRows(AssignRows(AssignRows(d, "user_id", AsInt, conv), "movie_id", AsInt, conv), "rating", AsFloat, conv)
  }

  /** The counters the rating rules produce. */
  function RatingCountsReference(rows: seq<Row>, conv: Conversions): RatingCounts
  {
    var survivors := RatingSurvivors(rows, conv);
    RatingCounts(|rows|, |RatingsReference(rows, conv)|,
                 RatingTally(rows, conv, MissingRequired), RatingTally(rows, conv, BadNumeric),
                 ClippedTally(rows, conv), |survivors| - |Distinct(survivors)|)
  }

  predicate InScale(c: Cell)
  {
    c.Num? && RatingFloor <= c.x <= RatingCeiling
  }

  /** What the rating rules guarantee of a kept row before the final casts. */
  predicate IsNumericRating(y: Row)
  {
    Get(y, "user_id").Num? && Get(y, "movie_id").Num? && InScale(Get(y, "rating"))
  }

  /** What the rating rules guarantee of every output row. */
  predicate IsCleanRating(y: Row)
  {
    Get(y, "user_id").Int? && Get(y, "movie_id").Int? && InScale(Get(y, "rating"))
  }

  /** Coercion and clamping rewrite the three rating columns and no other. */
  lemma RatingRowCells(r: Row, conv: Conversions)
    ensures var y := RatingNumbers(r, conv);
      && Get(y, "user_id") == ToNumeric(Get(r, "user_id"), conv)
      && Get(y, "movie_id") == ToNumeric(Get(r, "movie_id"), conv)
      && Get(y, "rating") == ToNumeric(Get(r, "rating"), conv)
      && forall c :: c !in RatingColumns ==> Get(y, c) == Get(r, c)
    ensures var z := RatingClip(RatingNumbers(r, conv), conv);
      && Get(z, "user_id") == ToNumeric(Get(r, "user_id"), conv)
      && Get(z, "movie_id") == ToNumeric(Get(r, "movie_id"), conv)
      && Get(z, "rating") == ApplyOp(ClipTo(RatingFloor, RatingCeiling), ToNumeric(Get(r, "rating"), conv), conv)
      && forall c :: c !in RatingColumns ==> Get(z, c) == Get(r, c)
  {
    ColumnNamesDistinct();
  }

  /**
   * A kept rating row has numeric ids and a rating in the scale: a parsed rating
   * below 0 becomes 0, one above 10 becomes 10, and one in between is unchanged.
   */
  lemma KeptRating(r: Row, conv: Conversions)
    requires RatingFate(r, conv).Kept?
    ensures var y := RatingFate(r, conv).row;
      var x := ToNumeric(Get(r, "rating"), conv).x;
      && IsNumericRating(y)
      && (x < RatingFloor ==> Get(y, "rating") == Num(RatingFloor))
      && (RatingCeiling < x ==> Get(y, "rating") == Num(RatingCeiling))
      && (RatingFloor <= x <= RatingCeiling ==> Get(y, "rating") == Num(x))
      && forall c :: c !in RatingColumns ==> Get(y, c) == Get(r, c)
  {
    RatingRowCells(r, conv);
    ClampCases(ToNumeric(Get(r, "rating"), conv).x, RatingFloor, RatingCeiling);
  }

  /** Every row is dropped for exactly one reason or kept, and the clipped rows are among the kept. */
  lemma {:induction false} RatingAccounting(rows: seq<Row>, conv: Conversions)
    ensures |rows| == |RatingSurvivors(rows, conv)| + RatingTally(rows, conv, MissingRequired)
                      + RatingTally(rows, conv, BadNumeric)
    ensures ClippedTally(rows, conv) <= |RatingSurvivors(rows, conv)|
    ensures RatingTally(rows, conv, BlankTitle) == 0
  {
    if rows != [] {
      RatingAccounting(rows[1..], conv);
    }
  }

  /** Rows after the required-field filter (line 57). */
  function RatingStage1(rows: seq<Row>): seq<Row>
  {
    Select(rows, NotNaMask(rows, RatingColumns))
  }

  /** Rows after the numeric coercion (lines 61-63). */
  function RatingStage2(rows: seq<Row>, conv: Conversions): seq<Row>
  {
    AssignRows(AssignRows(AssignRows(rows, "user_id", Numeric, conv), "movie_id", Numeric, conv), "rating", Numeric, conv)
  }

  /** Rows after the required-numeric filter (line 66). */
  function RatingStage3(rows: seq<Row>): seq<Row>
  {
    Select(rows, NotNaMask(rows, RatingColumns))
  }

  /** Rows after clamping (line 71). */
  function RatingStage4(rows: seq<Row>, conv: Conversions): seq<Row>
  {
    AssignRows(rows, "rating", ClipTo(RatingFloor, RatingCeiling), conv)
  }

  /** The count of line 70: rows whose rating lies outside the scale. */
  function OutOfScaleCount(rows: seq<Row>): nat
  {
    CountTrue(OutOfRangeMask(rows, "rating", RatingFloor, RatingCeiling))
  }

  lemma RatingStage1Cons(x: Row, t: seq<Row>)
    ensures RatingStage1([x] + t) == (if NoneMissing(x, RatingColumns) then [x] else []) + RatingStage1(t)
  {
    NotNaMaskCons(x, t, RatingColumns);
    SelectCons(x, t, NoneMissing(x, RatingColumns), NotNaMask(t, RatingColumns));
  }

  lemma RatingStage2Cons(x: Row, t: seq<Row>, conv: Conversions)
    ensures RatingStage2([x] + t, conv) == [RatingNumbers(x, conv)] + RatingStage2(t, conv)
  {
    var x1 := AssignCell(x, "user_id", Numeric, conv);
    var x2 := AssignCell(x1, "movie_id", Numeric, conv);
    var t1 := AssignRows(t, "user_id", Numeric, conv);
    var t2 := AssignRows(t1, "movie_id", Numeric, conv);
    AssignRowsCons(x, t, "user_id", Numeric, conv);
    AssignRowsCons(x1, t1, "movie_id", Numeric, conv);
    AssignRowsCons(x2, t2, "rating", Numeric, conv);
  }

  lemma RatingStage3Cons(x: Row, t: seq<Row>)
    ensures RatingStage3([x] + t) == (if NoneMissing(x, RatingColumns) then [x] else []) + RatingStage3(t)
  {
    NotNaMaskCons(x, t, RatingColumns);
    SelectCons(x, t, NoneMissing(x, RatingColumns), NotNaMask(t, RatingColumns));
  }

  lemma RatingStage4Cons(x: Row, t: seq<Row>, conv: Conversions)
    ensures RatingStage4([x] + t, conv) == [RatingClip(x, conv)] + RatingStage4(t, conv)
  {
    AssignRowsCons(x, t, "rating", ClipTo(RatingFloor, RatingCeiling), conv);
  }

  lemma OutOfScaleCountCons(x: Row, t: seq<Row>)
    ensures OutOfScaleCount([x] + t) == (if OutOfRange(Get(x, "rating"), RatingFloor, RatingCeiling) then 1 else 0)
                                        + OutOfScaleCount(t)
  {
    OutOfRangeMaskCons(x, t, "rating", RatingFloor, RatingCeiling);
    assert ([OutOfRange(Get(x, "rating"), RatingFloor, RatingCeiling)]
            + OutOfRangeMask(t, "rating", RatingFloor, RatingCeiling))[1..]
           == OutOfRangeMask(t, "rating", RatingFloor, RatingCeiling);
  }

  /** The required-numeric filter, after coercion, keeps a row exactly when all three parsed. */
  lemma RatingNumberTest(x: Row, conv: Conversions)
    ensures NoneMissing(RatingNumbers(x, conv), RatingColumns) <==>
              && !ToNumeric(Get(x, "user_id"), conv).Missing?
              && !ToNumeric(Get(x, "movie_id"), conv).Missing?
              && !ToNumeric(Get(x, "rating"), conv).Missing?
  {
    RatingRowCells(x, conv);
    NoneMissingTriple(RatingNumbers(x, conv), "user_id", "movie_id", "rating");
  }

  /** One row pushed through the four stages lands where its fate says. */
  lemma RatingStagesCons(x: Row, t: seq<Row>, conv: Conversions)
    ensures var s1 := RatingStage1([x] + t); var s3 := RatingStage3(RatingStage2(s1, conv));
            var t1 := RatingStage1(t); var t3 := RatingStage3(RatingStage2(t1, conv));
            match RatingFate(x, conv)
            case Dropped(MissingRequired) => s1 == t1
            case Dropped(_) => |s1| == |t1| + 1 && s3 == t3
            case Kept(y) => |s1| == |t1| + 1 && s3 == [RatingNumbers(x, conv)] + t3
                            && RatingStage4(s3, conv) == [y] + RatingStage4(t3, conv)
  {
    var t1 := RatingStage1(t);
    RatingStage1Cons(x, t);
    if NoneMissing(x, RatingColumns) {
      var x2 := RatingNumbers(x, conv);
      var t2 := RatingStage2(t1, conv);
      RatingStage2Cons(x, t1, conv);
      RatingStage3Cons(x2, t2);
      RatingNumberTest(x, conv);
      if NoneMissing(x2, RatingColumns) {
        RatingStage4Cons(x2, RatingStage3(t2), conv);
      }
    }
  }

  /** Coercion puts the parsed rating in the `rating` column. */
  lemma RatingNumbersRating(x: Row, conv: Conversions)
    ensures Get(RatingNumbers(x, conv), "rating") == ToNumeric(Get(x, "rating"), conv)
  {
  }

  /** One row pushed through the first three stages adds one to the out-of-scale count exactly when it is clipped. */
  lemma RatingClippedCons(x: Row, t: seq<Row>, conv: Conversions)
    ensures var s3 := RatingStage3(RatingStage2(RatingStage1([x] + t), conv));
            var t3 := RatingStage3(RatingStage2(RatingStage1(t), conv));
            OutOfScaleCount(s3) == (if IsClipped(x, conv) then 1 else 0) + OutOfScaleCount(t3)
  {
    RatingStagesCons(x, t, conv);
    if RatingFate(x, conv).Kept? {
      var t3 := RatingStage3(RatingStage2(RatingStage1(t), conv));
      OutOfScaleCountCons(RatingNumbers(x, conv), t3);
      RatingNumbersRating(x, conv);
    }
  }

  /** The column-wise stages keep exactly the rows the row-wise rules keep, converted alike and in order. */
  lemma {:induction false} RatingStagesAgree(rows: seq<Row>, conv: Conversions)
    ensures RatingStage4(RatingStage3(RatingStage2(RatingStage1(rows), conv)), conv) == RatingSurvivors(rows, conv)
    decreases |rows|
  {
    if rows != [] {
      var x, t := rows[0], rows[1..];
      assert rows == [x] + t;
      RatingStagesCons(x, t, conv);
      RatingStagesAgree(t, conv);
    }
  }

  /** The required-field filter removes exactly the rows dropped for a missing field. */
  lemma {:induction false} RatingMissingCount(rows: seq<Row>, conv: Conversions)
    ensures |rows| - |RatingStage1(rows)| == RatingTally(rows, conv, MissingRequired)
    decreases |rows|
  {
    if rows != [] {
      var x, t := rows[0], rows[1..];
      assert rows == [x] + t;
      RatingStage1Cons(x, t);
      RatingMissingCount(t, conv);
    }
  }

  /** The required-numeric filter removes exactly the rows dropped for an unparsable number. */
  lemma {:induction false} RatingNumericCount(rows: seq<Row>, conv: Conversions)
    ensures var s1 := RatingStage1(rows);
            |s1| - |RatingStage3(RatingStage2(s1, conv))| == RatingTally(rows, conv, BadNumeric)
    decreases |rows|
  {
    if rows != [] {
      var x, t := rows[0], rows[1..];
      assert rows == [x] + t;
      RatingStagesCons(x, t, conv);
      RatingNumericCount(t, conv);
    }
  }

  /** The count taken at line 70 is the number of kept rows whose clamping alters the rating. */
  lemma {:induction false} RatingClippedCount(rows: seq<Row>, conv: Conversions)
    ensures OutOfScaleCount(RatingStage3(RatingStage2(RatingStage1(rows), conv))) == ClippedTally(rows, conv)
    decreases |rows|
  {
    if rows != [] {
      var x, t := rows[0], rows[1..];
      assert rows == [x] + t;
      RatingClippedCons(x, t, conv);
      RatingClippedCount(t, conv);
    }
  }

  /** Every survivor has numeric ids and a rating in the scale. */
  lemma {:induction false} RatingSurvivorsNumeric(rows: seq<Row>, conv: Conversions)
    ensures forall y :: y in RatingSurvivors(rows, conv) ==> IsNumericRating(y)
    decreases |rows|
  {
    if rows != [] {
      var t := rows[1..];
      RatingSurvivorsNumeric(t, conv);
      var f := RatingFate(rows[0], conv);
      if f.Kept? {
        assert IsNumericRating(f.row) by {
          KeptRating(rows[0], conv);
        }
        assert RatingSurvivors(rows, conv) == [f.row] + RatingSurvivors(t, conv);
      } else {
        assert RatingSurvivors(rows, conv) == RatingSurvivors(t, conv);
      }
    }
  }

  /** The final casts truncate both ids, keep the rating and touch no other column. */
  lemma RatingCastCells(y: Row, conv: Conversions)
    requires IsNumericRating(y)
    ensures var z := RatingCast(y, conv);
      && Get(z, "user_id") == Int(Trunc(Get(y, "user_id").x))
      && Get(z, "movie_id") == Int(Trunc(Get(y, "movie_id").x))
      && Get(z, "rating") == Get(y, "rating")
      && forall c :: c !in RatingColumns ==> Get(z, c) == Get(y, c)
  {
    ColumnNamesDistinct();
  }

  /** Row `k` of the output is the final casts applied to the `k`-th distinct survivor. */
  lemma RatingsReferenceAt(rows: seq<Row>, conv: Conversions, k: int)
    requires 0 <= k < |RatingsReference(rows, conv)|
    ensures RatingsReference(rows, conv)[k] == RatingCast(Distinct(RatingSurvivors(rows, conv))[k], conv)
  {
    var d := Distinct(RatingSurvivors(rows, conv));
    var d1 := AssignRows(d, "user_id", AsInt, conv);
    var d2 := AssignRows(d1, "movie_id", AsInt, conv);
    AssignRowsAt(d, "user_id", AsInt, conv, k);
    AssignRowsAt(d1, "movie_id", AsInt, conv, k);
    AssignRowsAt(d2, "rating", AsFloat, conv, k);
  }

  /** Every cleaned rating row has integer ids and a rating between 0 and 10. */
  lemma RatingsAreClean(rows: seq<Row>, conv: Conversions)
    ensures forall k :: 0 <= k < |RatingsReference(rows, conv)| ==> IsCleanRating(RatingsReference(rows, conv)[k])
  {
    var d := Distinct(RatingSurvivors(rows, conv));
    RatingSurvivorsNumeric(rows, conv);
    forall k | 0 <= k < |RatingsReference(rows, conv)| ensures IsCleanRating(RatingsReference(rows, conv)[k]) {
      RatingsReferenceAt(rows, conv, k);
      RatingCastCells(d[k], conv);
    }
  }

  /** Every row leaves the pipeline exactly once: kept, dropped for one reason, or a duplicate. */
  lemma RatingCountsAddUp(rows: seq<Row>, conv: Conversions)
    ensures var c := RatingCountsReference(rows, conv);
      && c.read == c.kept + c.missingRequired + c.badNumeric + c.duplicates
      && c.clipped <= c.kept + c.duplicates
  {
    RatingAccounting(rows, conv);
  }

  /** The final casts are injective on rows whose ids are whole numbers. */
  lemma RatingCastInjective(a: Row, b: Row, conv: Conversions)
    requires "user_id" in a && "movie_id" in a && "user_id" in b && "movie_id" in b
    requires IsNumericRating(a) && IsWhole(Get(a, "user_id").x) && IsWhole(Get(a, "movie_id").x)
    requires IsNumericRating(b) && IsWhole(Get(b, "user_id").x) && IsWhole(Get(b, "movie_id").x)
    requires RatingCast(a, conv) == RatingCast(b, conv)
    ensures a == b
  {
    RatingCastCells(a, conv);
    RatingCastCells(b, conv);
    TruncWhole(Get(a, "user_id").x);
    TruncWhole(Get(b, "user_id").x);
    TruncWhole(Get(a, "movie_id").x);
    TruncWhole(Get(b, "movie_id").x);
    assert a.Keys == b.Keys by {
      assert RatingCast(a, conv).Keys == a.Keys && RatingCast(b, conv).Keys == b.Keys;
    }
    forall c | c in a ensures a[c] == b[c] {
      assert Get(a, c) == Get(b, c);
    }
  }

  /** Every surviving row has whole-number ids. */
  predicate WholeRatingIds(survivors: seq<Row>)
  {
    forall y :: y in survivors ==>
      Get(y, "user_id").Num? && IsWhole(Get(y, "user_id").x) && Get(y, "movie_id").Num? && IsWhole(Get(y, "movie_id").x)
  }

  /** When every surviving id is a whole number, no two cleaned rating rows are equal. */
  lemma RatingsDistinctWhenWhole(rows: seq<Row>, conv: Conversions)
    requires WholeRatingIds(RatingSurvivors(rows, conv))
    ensures NoDuplicates(RatingsReference(rows, conv))
  {
    var d := Distinct(RatingSurvivors(rows, conv));
    var out := RatingsReference(rows, conv);
    RatingSurvivorsNumeric(rows, conv);
    forall i, j | 0 <= i < j < |out| ensures out[i] != out[j] {
      RatingsReferenceAt(rows, conv, i);
      RatingsReferenceAt(rows, conv, j);
      if out[i] == out[j] {
        RatingCastInjective(d[i], d[j], conv);
      }
    }
  }

  /** A rating of movie 2 by user 1, given as integers. */
  function SampleRating(value: int): Row
  {
    map["user_id" := Int(1), "movie_id" := Int(2), "rating" := Int(value)]
  }

  /**
   * Two kept rows that differ at most in a rating above 10 become the same row:
   * clipping loses the difference, and `drop_duplicates` sees one row twice.
   */
  lemma ClippedAboveCoincide(a: Row, b: Row, conv: Conversions)
    requires a.Keys == b.Keys
    requires forall c :: c != "rating" ==> Get(a, c) == Get(b, c)
    requires RatingFate(a, conv).Kept? && RatingFate(b, conv).Kept?
    requires ToNumeric(Get(a, "rating"), conv).x > RatingCeiling && ToNumeric(Get(b, "rating"), conv).x > RatingCeiling
    ensures RatingFate(a, conv).row == RatingFate(b, conv).row
  {
    var ya, yb := RatingFate(a, conv).row, RatingFate(b, conv).row;
    KeptRating(a, conv);
    KeptRating(b, conv);
    RatingRowCells(a, conv);
    RatingRowCells(b, conv);
    forall c ensures Get(ya, c) == Get(yb, c) {
      if c != "rating" {
        assert "rating" != "user_id" && "rating" != "movie_id" by { ColumnNamesDistinct(); }
      }
    }
    SameCellsSameRow(ya, yb);
  }

  /** The sample ratings 11 and 12 are kept, clipped, and become the same row. */
  lemma ClippedSamplesCoincide(conv: Conversions)
    ensures RatingFate(SampleRating(11), conv).Kept? && RatingFate(SampleRating(11), conv) == RatingFate(SampleRating(12), conv)
    ensures IsClipped(SampleRating(11), conv) && IsClipped(SampleRating(12), conv)
  {
    var a, b := SampleRating(11), SampleRating(12);
    ColumnNamesDistinct();
    assert a.Keys == b.Keys;
    assert Get(a, "user_id") == Int(1) && Get(a, "movie_id") == Int(2) && Get(a, "rating") == Int(11);
    assert Get(b, "user_id") == Int(1) && Get(b, "movie_id") == Int(2) && Get(b, "rating") == Int(12);
    assert NoneMissing(a, RatingColumns) && NoneMissing(b, RatingColumns) by {
      NoneMissingTriple(a, "user_id", "movie_id", "rating");
      NoneMissingTriple(b, "user_id", "movie_id", "rating");
    }
    assert RatingFate(a, conv).Kept? && RatingFate(b, conv).Kept?;
    assert forall c :: c != "rating" ==> Get(a, c) == Get(b, c) by {
      assert a.Keys == {"user_id", "movie_id", "rating"};
    }
    ClippedAboveCoincide(a, b, conv);
  }

  /** Two raw rows that are both kept and clipped into the same row: no drops, two clips. */
  lemma CoincidingPairTallies(a: Row, b: Row, conv: Conversions)
    requires RatingFate(a, conv).Kept? && RatingFate(a, conv) == RatingFate(b, conv)
    requires IsClipped(a, conv) && IsClipped(b, conv)
    ensures RatingSurvivors([a, b], conv) == [RatingFate(a, conv).row, RatingFate(a, conv).row]
    ensures RatingTally([a, b], conv, MissingRequired) == 0 && RatingTally([a, b], conv, BadNumeric) == 0
    ensures ClippedTally([a, b], conv) == 2
  {
    assert [a, b][1..] == [b] && [b][1..] == [];
  }

  /** Two raw rows that are both kept and clipped into the same row count as one kept row and one duplicate. */
  lemma CoincidingPairCounts(a: Row, b: Row, conv: Conversions)
    requires RatingFate(a, conv).Kept? && RatingFate(a, conv) == RatingFate(b, conv)
    requires IsClipped(a, conv) && IsClipped(b, conv)
    ensures RatingCountsReference([a, b], conv) == RatingCounts(2, 1, 0, 0, 2, 1)
  {
    var y := RatingFate(a, conv).row;
    CoincidingPairTallies(a, b, conv);
    assert Distinct([y, y]) == [y] by {
      assert [y, y][..1] == [y];
    }
  }

  /**
   * Two ratings of the same movie by the same user, 11 and 12, are both clipped
   * to 10; they then coincide and the second is removed as a duplicate.
   */
  lemma ClippedRatingsCollapse(conv: Conversions)
    ensures RatingCountsReference([SampleRating(11), SampleRating(12)], conv) == RatingCounts(2, 1, 0, 0, 2, 1)
  {
    ClippedSamplesCoincide(conv);
    CoincidingPairCounts(SampleRating(11), SampleRating(12), conv);
  }

  /** Lines 56-67: the required-field filter, the numeric coercion and the required-numeric filter. */
  method RatingTypeStages(raw: Frame, conv: Conversions) returns (df: Frame, nMissingRequired: nat, nBadNumeric: nat)
    requires WellFormed(raw)
    requires "user_id" in raw.columns && "movie_id" in raw.columns && "rating" in raw.columns
    ensures WellFormed(df) && df.columns == raw.columns
    ensures df.rows == RatingStage3(RatingStage2(RatingStage1(raw.rows), conv))
    ensures nMissingRequired == |raw.rows| - |RatingStage1(raw.rows)|
    ensures nBadNumeric == |RatingStage1(raw.rows)| - |df.rows|
  {
    var n0 := |raw.rows|;

    // Required fields
    WhereWellFormed(raw, NotNaMask(raw.rows, RatingColumns));
    df := DropNa(raw, RatingColumns);
    nMissingRequired := n0 - |df.rows|;

    // Type coercion
    AssignWellFormed(df, "user_id", Numeric, conv);
    df := Assign(df, "user_id", Numeric, conv);
    AssignWellFormed(df, "movie_id", Numeric, conv);
    df := Assign(df, "movie_id", Numeric, conv);
    AssignWellFormed(df, "rating", Numeric, conv);
    df := Assign(df, "rating", Numeric, conv);

    var beforeTypes := |df.rows|;
    WhereWellFormed(df, NotNaMask(df.rows, RatingColumns));
    df := DropNa(df, RatingColumns);
    nBadNumeric := beforeTypes - |df.rows|;
  }

  /** Lines 69-71: count the ratings outside the scale, then clamp every rating into it. */
  method RatingClipStage(df0: Frame, conv: Conversions) returns (df: Frame, nClipped: nat)
    requires WellFormed(df0)
    requires "rating" in df0.columns
    ensures WellFormed(df) && df.columns == df0.columns
    ensures df.rows == RatingStage4(df0.rows, conv)
    ensures nClipped == OutOfScaleCount(df0.rows)
    ensures forall k :: 0 <= k < |df.rows| && (Get(df0.rows[k], "rating").Num? || Get(df0.rows[k], "rating").Int?) ==>
              Get(df.rows[k], "rating").Num? && RatingFloor <= Get(df.rows[k], "rating").x <= RatingCeiling
  {
    nClipped := CountTrue(OutOfRangeMask(df0.rows, "rating", RatingFloor, RatingCeiling));
    AssignWellFormed(df0, "rating", ClipTo(RatingFloor, RatingCeiling), conv);
    df := Assign(df0, "rating", ClipTo(RatingFloor, RatingCeiling), conv);
    forall k | 0 <= k < |df.rows| ensures Get(df.rows[k], "rating") == ApplyOp(ClipTo(RatingFloor, RatingCeiling), Get(df0.rows[k], "rating"), conv) {
      AssignRowsAt(df0.rows, "rating", ClipTo(RatingFloor, RatingCeiling), conv, k);
    }
  }

  /** Lines 73-83: exact-duplicate removal, the casts and the renumbering. */
  method RatingFinalStages(df0: Frame, conv: Conversions) returns (df: Frame, nDuplicates: nat)
    requires WellFormed(df0)
    requires "user_id" in df0.columns && "movie_id" in df0.columns && "rating" in df0.columns
    ensures WellFormed(df) && df.columns == df0.columns
    ensures df.rows == AssignRows(AssignRows(AssignRows(Distinct(df0.rows), "user_id", AsInt, conv),
                                             "movie_id", AsInt, conv), "rating", AsFloat, conv)
    ensures df.index == Range(|df.rows|)
    ensures nDuplicates == |df0.rows| - |Distinct(df0.rows)|
  {
    // Duplicates
    var beforeDups := |df0.rows|;
    WhereWellFormed(df0, FirstOccurrences(df0.rows));
    DropDuplicatesIsDistinct(df0.rows);
    df := DropDuplicates(df0);
    nDuplicates := beforeDups - |df.rows|;

    // Final cast
    AssignWellFormed(df, "user_id", AsInt, conv);
    df := Assign(df, "user_id", AsInt, conv);
    AssignWellFormed(df, "movie_id", AsInt, conv);
    df := Assign(df, "movie_id", AsInt, conv);
    AssignWellFormed(df, "rating", AsFloat, conv);
    df := Assign(df, "rating", AsFloat, conv);

    df := ResetIndex(df);
  }

  /**
   * `load_clean_ratings` on an already-read table: the stages of lines 56-83 in
   * order, each counter taken as rows before minus rows after its filter, and the
   * clipped counter as the number of ratings outside [0, 10] just before clamping.
   * A required column the table lacks makes the first `dropna` raise.
   */
  method LoadCleanRatings(raw: Frame, conv: Conversions) returns (res: Result<Cleaned<RatingCounts>, KeyError>)
    requires WellFormed(raw)
    ensures res.Err? <==> AbsentColumns(RatingColumns, raw.columns) != []
    ensures res.Err? ==> res.error == KeyError(AbsentColumns(RatingColumns, raw.columns))
    ensures res.Ok? ==>
      var out := res.value.frame;
      && WellFormed(out)
      && out.columns == raw.columns
      && out.index == Range(|out.rows|)
      && out.rows == RatingsReference(raw.rows, conv)
      && res.value.counts == RatingCountsReference(raw.rows, conv)
  {
    var absent := AbsentColumns(RatingColumns, raw.columns);
    if absent != [] {
      return Err(KeyError(absent));
    }
    assert "user_id" in RatingColumns && "movie_id" in RatingColumns && "rating" in RatingColumns;
    var n0 := |raw.rows|;
    var df1, nMissingRequired, nBadNumeric := RatingTypeStages(raw, conv);
    var df2, nClipped := RatingClipStage(df1, conv);
    assert df2.rows == RatingSurvivors(raw.rows, conv) by {
      RatingStagesAgree(raw.rows, conv);
    }
    assert nMissingRequired == RatingTally(raw.rows, conv, MissingRequired) by {
      RatingMissingCount(raw.rows, conv);
    }
    assert nBadNumeric == RatingTally(raw.rows, conv, BadNumeric) by {
      RatingNumericCount(raw.rows, conv);
    }
    assert nClipped == ClippedTally(raw.rows, conv) by {
      RatingClippedCount(raw.rows, conv);
    }
    var df3, nDuplicates := RatingFinalStages(df2, conv);
    return Ok(Cleaned(df3, RatingCounts(n0, |df3.rows|, nMissingRequired, nBadNumeric, nClipped, nDuplicates)));
  }
}
