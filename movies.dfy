/** `load_clean_movies`: the movie cleaning pipeline and its row-wise reference. */
module Movies {
  import opened Wrappers
  import opened Seqs
  import opened Strings
  import opened Frames
  import opened Cleaning

  /** The columns `dropna` requires (line 11) and the ones that must parse as numbers (line 30). */
  const MovieRequired: seq<string> := ["id", "title", "genre", "rating"]
  const MovieNumeric: seq<string> := ["id", "rating"]

  datatype MovieCounts = MovieCounts(
    read: nat, kept: nat, missingRequired: nat, blankTitle: nat, badNumeric: nat, duplicates: nat)

  /** `title` stripped and `genre` stripped and title-cased (lines 15-16, on one row). */
  function MovieText(r: Row, conv: Conversions): Row
  {
    AssignCell(AssignCell(r, "title", StripText, conv), "genre", StripTitleText, conv)
  }

  /** `id`, `year` when the table has one, and `rating` coerced to numbers (lines 24-27, on one row). */
  function MovieNumbers(r: Row, hasYear: bool, conv: Conversions): Row
  {
    var withId := AssignCell(r, "id", Numeric, conv);
    var withYear := if hasYear then AssignCell(withId, "year", Numeric, conv) else withId;
    AssignCell(withYear, "rating", Numeric, conv)
  }

  /** The columns the movie cleaner rewrites. */
  predicate IsMovieColumn(c: string)
  {
    c == "id" || c == "title" || c == "genre" || c == "rating" || c == "year"
  }

  /** A raw movie row after the text normalisation and the numeric coercion. */
  function NormalizeMovie(r: Row, hasYear: bool, conv: Conversions): Row
  {
    MovieNumbers(MovieText(r, conv), hasYear, conv)
  }

  /**
   * The movie rules applied to one raw row: a required field is missing; or the
   * stripped title is empty; or `id` or `rating` does not parse as a number;
   * otherwise the row is kept, normalised. `year` plays no part in the decision.
   */
  function MovieFate(r: Row, hasYear: bool, conv: Conversions): Fate
  {
    if !NoneMissing(r, MovieRequired) then Dropped(MissingRequired)
    else if Strip(Render(Get(r, "title"), conv)) == [] then Dropped(BlankTitle)
    else if ToNumeric(Get(r, "id"), conv).Missing? || ToNumeric(Get(r, "rating"), conv).Missing? then
      Dropped(BadNumeric)
    else Kept(NormalizeMovie(r, hasYear, conv))
  }

  /** The kept rows, in input order, before de-duplication. */
  function MovieSurvivors(rows: seq<Row>, hasYear: bool, conv: Conversions): (out: seq<Row>)
    ensures |out| <= |rows|
  {
    if rows == [] then []
    else (match MovieFate(rows[0], hasYear, conv) case Kept(y) => [y] case Dropped(_) => [])
         + MovieSurvivors(rows[1..], hasYear, conv)
  }

  /** The number of rows dropped for the reason `why`. */
  function MovieTally(rows: seq<Row>, hasYear: bool, conv: Conversions, why: Reason): (n: nat)
    ensures n <= |rows|
  {
    if rows == [] then 0
    else (if MovieFate(rows[0], hasYear, conv) == Dropped(why) then 1 else 0)
         + MovieTally(rows[1..], hasYear, conv, why)
  }

  /** The cleaned movie rows: the survivors, de-duplicated, with `id` cast to int. */
  function MoviesReference(rows: seq<Row>, hasYear: bool, conv: Conversions): seq<Row>
  {
    AssignRows(Distinct(MovieSurvivors(rows, hasYear, conv)), "id", AsInt, conv)
  }

  /** The counters the movie rules produce: rows read and kept, the drops per reason, and the duplicates. */
  function MovieCountsReference(rows: seq<Row>, hasYear: bool, conv: Conversions): MovieCounts
  {
    var survivors := MovieSurvivors(rows, hasYear, conv);
    MovieCounts(|rows|, |MoviesReference(rows, hasYear, conv)|,
                MovieTally(rows, hasYear, conv, MissingRequired),
                MovieTally(rows, hasYear, conv, BlankTitle),
                MovieTally(rows, hasYear, conv, BadNumeric),
                |survivors| - |Distinct(survivors)|)
  }

  /** What the movie rules guarantee of a kept row before the final cast. */
  predicate IsNormalizedMovie(y: Row)
  {
    && Get(y, "id").Num? && Get(y, "rating").Num?
    && Get(y, "title").Text? && Get(y, "title").s != [] && IsTrimmed(Get(y, "title").s)
    && Get(y, "genre").Text? && IsTrimmed(Get(y, "genre").s) && IsTitleCased(Get(y, "genre").s)
  }

  /** What the movie rules guarantee of every output row. */
  predicate IsCleanMovie(y: Row)
  {
    && Get(y, "id").Int? && Get(y, "rating").Num?
    && Get(y, "title").Text? && Get(y, "title").s != [] && IsTrimmed(Get(y, "title").s)
    && Get(y, "genre").Text? && IsTrimmed(Get(y, "genre").s) && IsTitleCased(Get(y, "genre").s)
  }

  lemma MovieTallyCons(x: Row, t: seq<Row>, hasYear: bool, conv: Conversions, why: Reason)
    ensures MovieTally([x] + t, hasYear, conv, why)
            == (if MovieFate(x, hasYear, conv) == Dropped(why) then 1 else 0) + MovieTally(t, hasYear, conv, why)
  {
    assert ([x] + t)[1..] == t;
  }

  /** Every row is dropped for exactly one reason or kept: the counters add up. */
  lemma {:induction false} MovieAccounting(rows: seq<Row>, hasYear: bool, conv: Conversions)
    ensures |rows| == |MovieSurvivors(rows, hasYear, conv)|
                      + MovieTally(rows, hasYear, conv, MissingRequired)
                      + MovieTally(rows, hasYear, conv, BlankTitle)
                      + MovieTally(rows, hasYear, conv, BadNumeric)
  {
    if rows != [] {
      MovieAccounting(rows[1..], hasYear, conv);
    }
  }

  lemma MovieRequiredPresent(r: Row)
    requires NoneMissing(r, MovieRequired)
    ensures "id" in r && "title" in r && "genre" in r && "rating" in r
  {
    assert "id" in MovieRequired && "title" in MovieRequired;
    assert "genre" in MovieRequired && "rating" in MovieRequired;
    assert Get(r, "id") != Missing && Get(r, "title") != Missing;
    assert Get(r, "genre") != Missing && Get(r, "rating") != Missing;
  }

  /**
   * A kept movie row is normalised, keeps the raw row's columns, has `year`
   * coerced (missing when it does not parse) exactly when the table has a year
   * column, and leaves every other column as it was.
   */
  lemma KeptMovie(r: Row, hasYear: bool, conv: Conversions)
    requires MovieFate(r, hasYear, conv).Kept?
    ensures var y := MovieFate(r, hasYear, conv).row;
      && IsNormalizedMovie(y)
      && (hasYear ==> Get(y, "year") == ToNumeric(Get(r, "year"), conv))
      && (!hasYear ==> Get(y, "year") == Get(r, "year"))
      && forall c :: !IsMovieColumn(c) ==> Get(y, c) == Get(r, c)
  {
    MovieRequiredPresent(r);
    assert MovieFate(r, hasYear, conv) == Kept(NormalizeMovie(r, hasYear, conv));
    NormalizeMovieCells(r, hasYear, conv);
    GenreNormalized(Render(Get(r, "genre"), conv));
  }

  /** The text normalisation rewrites `title` and `genre` and no other column. */
  lemma MovieTextCells(r: Row, conv: Conversions)
    ensures var y := MovieText(r, conv);
      && Get(y, "title") == Text(Strip(Render(Get(r, "title"), conv)))
      && Get(y, "genre") == Text(Title(Strip(Render(Get(r, "genre"), conv))))
      && forall c :: c != "title" && c != "genre" ==> Get(y, c) == Get(r, c)
  {
    assert "title" != "genre" by { ColumnNamesDistinct(); }
  }

  lemma MovieTextKeeps(r: Row, conv: Conversions, c: string)
    requires c != "title" && c != "genre"
    ensures Get(MovieText(r, conv), c) == Get(r, c)
  {
  }

  /** The numeric coercion rewrites `id`, `rating` and, when present, `year`, and no other column. */
  lemma MovieNumbersCells(r: Row, hasYear: bool, conv: Conversions)
    ensures var y := MovieNumbers(r, hasYear, conv);
      && Get(y, "id") == ToNumeric(Get(r, "id"), conv)
      && Get(y, "rating") == ToNumeric(Get(r, "rating"), conv)
      && (hasYear ==> Get(y, "year") == ToNumeric(Get(r, "year"), conv))
      && forall c :: c != "id" && c != "rating" && (hasYear ==> c != "year") ==> Get(y, c) == Get(r, c)
  {
    assert "id" != "rating" && "id" != "year" && "year" != "rating" by { ColumnNamesDistinct(); }
  }

  /** Normalisation rewrites the five movie columns and no other. */
  lemma NormalizeMovieCells(r: Row, hasYear: bool, conv: Conversions)
    ensures var y := NormalizeMovie(r, hasYear, conv);
      && Get(y, "title") == Text(Strip(Render(Get(r, "title"), conv)))
      && Get(y, "genre") == Text(Title(Strip(Render(Get(r, "genre"), conv))))
      && Get(y, "id") == ToNumeric(Get(r, "id"), conv)
      && Get(y, "rating") == ToNumeric(Get(r, "rating"), conv)
      && (hasYear ==> Get(y, "year") == ToNumeric(Get(r, "year"), conv))
      && (!hasYear ==> Get(y, "year") == Get(r, "year"))
      && forall c :: !IsMovieColumn(c) ==> Get(y, c) == Get(r, c)
  {
    NormalizedTextCells(r, hasYear, conv);
    NormalizedNumberCells(r, hasYear, conv);
    NormalizedOtherCells(r, hasYear, conv);
  }

  lemma NormalizedTextCells(r: Row, hasYear: bool, conv: Conversions)
    ensures var y := NormalizeMovie(r, hasYear, conv);
      && Get(y, "title") == Text(Strip(Render(Get(r, "title"), conv)))
      && Get(y, "genre") == Text(Title(Strip(Render(Get(r, "genre"), conv))))
  {
    var x := MovieText(r, conv);
    MovieTextCells(r, conv);
    MovieNumbersCells(x, hasYear, conv);
    assert "title" != "id" && "title" != "rating" && "title" != "year" by { ColumnNamesDistinct(); }
    assert "genre" != "id" && "genre" != "rating" && "genre" != "year" by { ColumnNamesDistinct(); }
  }

  lemma NormalizedNumberCells(r: Row, hasYear: bool, conv: Conversions)
    ensures var y := NormalizeMovie(r, hasYear, conv);
      && Get(y, "id") == ToNumeric(Get(r, "id"), conv)
      && Get(y, "rating") == ToNumeric(Get(r, "rating"), conv)
      && (hasYear ==> Get(y, "year") == ToNumeric(Get(r, "year"), conv))
      && (!hasYear ==> Get(y, "year") == Get(r, "year"))
  {
    var x := MovieText(r, conv);
    assert "id" != "title" && "id" != "genre" && "rating" != "title" && "rating" != "genre" by {
      ColumnNamesDistinct();
    }
    MovieTextKeeps(r, conv, "id");
    MovieTextKeeps(r, conv, "rating");
    NormalizedYearCell(r, hasYear, conv);
    MovieNumbersCells(x, hasYear, conv);
  }

  lemma NormalizedYearCell(r: Row, hasYear: bool, conv: Conversions)
    ensures var y := NormalizeMovie(r, hasYear, conv);
      && (hasYear ==> Get(y, "year") == ToNumeric(Get(r, "year"), conv))
      && (!hasYear ==> Get(y, "year") == Get(r, "year"))
  {
    var x := MovieText(r, conv);
    assert "year" != "title" && "year" != "genre" && "year" != "id" && "year" != "rating" by {
      ColumnNamesDistinct();
    }
    MovieTextKeeps(r, conv, "year");
    MovieNumbersCells(x, hasYear, conv);
  }

  lemma NormalizedOtherCells(r: Row, hasYear: bool, conv: Conversions)
    ensures var y := NormalizeMovie(r, hasYear, conv);
      forall c :: !IsMovieColumn(c) ==> Get(y, c) == Get(r, c)
  {
    MovieTextCells(r, conv);
    MovieNumbersCells(MovieText(r, conv), hasYear, conv);
  }

  /** The genre rule yields a trimmed, title-cased string. */
  lemma GenreNormalized(s: string)
    ensures IsTrimmed(Title(Strip(s))) && IsTitleCased(Title(Strip(s)))
  {
    TitleIsTitleCased(Strip(s));
    TitleKeepsTrimmed(Strip(s));
  }

  /** Whatever the year cell holds, the row's fate is decided without it. */
  lemma YearNeverDrops(r: Row, v: Cell, hasYear: bool, conv: Conversions)
    ensures MovieFate(r["year" := v], hasYear, conv).Kept? == MovieFate(r, hasYear, conv).Kept?
    ensures MovieFate(r["year" := v], hasYear, conv).Dropped? ==>
              MovieFate(r["year" := v], hasYear, conv) == MovieFate(r, hasYear, conv)
  {
    var r' := r["year" := v];
    assert "year" != "id" && "year" != "title" && "year" != "genre" && "year" != "rating" by {
      ColumnNamesDistinct();
    }
    MovieVerdictOfRequired(r', r, hasYear, conv);
  }

  /** Whether and why a row is dropped depends on its four required cells only. */
  lemma MovieVerdictOfRequired(a: Row, b: Row, hasYear: bool, conv: Conversions)
    requires Get(a, "id") == Get(b, "id") && Get(a, "title") == Get(b, "title")
    requires Get(a, "genre") == Get(b, "genre") && Get(a, "rating") == Get(b, "rating")
    ensures MovieFate(a, hasYear, conv).Kept? == MovieFate(b, hasYear, conv).Kept?
    ensures MovieFate(a, hasYear, conv).Dropped? ==> MovieFate(a, hasYear, conv) == MovieFate(b, hasYear, conv)
  {
    MovieRequiredTest(a);
    MovieRequiredTest(b);
    var fa, fb := MovieFate(a, hasYear, conv), MovieFate(b, hasYear, conv);
    if !NoneMissing(a, MovieRequired) {
      assert !NoneMissing(b, MovieRequired);
      assert fa == Dropped(MissingRequired) == fb;
    } else if Strip(Render(Get(a, "title"), conv)) == [] {
      assert fa == Dropped(BlankTitle) == fb;
    } else if ToNumeric(Get(a, "id"), conv).Missing? || ToNumeric(Get(a, "rating"), conv).Missing? {
      assert fa == Dropped(BadNumeric) == fb;
    } else {
      assert fa.Kept? && fb.Kept?;
    }
  }

  /** The required-field filter keeps a row exactly when its four required cells are present. */
  lemma MovieRequiredTest(r: Row)
    ensures NoneMissing(r, MovieRequired) <==>
              Get(r, "id") != Missing && Get(r, "title") != Missing && Get(r, "genre") != Missing && Get(r, "rating") != Missing
  {
    assert "id" in MovieRequired && "title" in MovieRequired;
    assert "genre" in MovieRequired && "rating" in MovieRequired;
  }

  /** A row is dropped as blank exactly when its required fields are present and its title strips to nothing. */
  lemma BlankTitleRows(r: Row, hasYear: bool, conv: Conversions)
    ensures MovieFate(r, hasYear, conv) == Dropped(BlankTitle) <==>
              NoneMissing(r, MovieRequired) && AllSpace(Render(Get(r, "title"), conv))
  {
    StripBlank(Render(Get(r, "title"), conv));
  }

  /** Rows after the required-field filter (line 11). */
  function MovieStage1(rows: seq<Row>): seq<Row>
  {
    Select(rows, NotNaMask(rows, MovieRequired))
  }

  /** Rows after the text normalisation (lines 15-16). */
  function MovieStage2(rows: seq<Row>, conv: Conversions): seq<Row>
  {
    AssignRows(AssignRows(rows, "title", StripText, conv), "genre", StripTitleText, conv)
  }

  /** Rows after the blank-title filter (line 20). */
  function MovieStage3(rows: seq<Row>): seq<Row>
  {
    Select(rows, NonBlankMask(rows, "title"))
  }

  /** Rows after the numeric coercion (lines 24-27). */
  function MovieStage4(rows: seq<Row>, hasYear: bool, conv: Conversions): seq<Row>
  {
    var withId := AssignRows(rows, "id", Numeric, conv);
    var withYear := if hasYear then AssignRows(withId, "year", Numeric, conv) else withId;
    AssignRows(withYear, "rating", Numeric, conv)
  }

  /** Rows after the required-numeric filter (line 30). */
  function MovieStage5(rows: seq<Row>): seq<Row>
  {
    Select(rows, NotNaMask(rows, MovieNumeric))
  }

  lemma MovieStage1Cons(x: Row, t: seq<Row>)
    ensures MovieStage1([x] + t) == (if NoneMissing(x, MovieRequired) then [x] else []) + MovieStage1(t)
  {
    NotNaMaskCons(x, t, MovieRequired);
    SelectCons(x, t, NoneMissing(x, MovieRequired), NotNaMask(t, MovieRequired));
  }

  lemma MovieStage2Cons(x: Row, t: seq<Row>, conv: Conversions)
    ensures MovieStage2([x] + t, conv) == [MovieText(x, conv)] + MovieStage2(t, conv)
  {
    AssignRowsCons(x, t, "title", StripText, conv);
    AssignRowsCons(AssignCell(x, "title", StripText, conv), AssignRows(t, "title", StripText, conv),
                   "genre", StripTitleText, conv);
  }

  lemma MovieStage3Cons(x: Row, t: seq<Row>)
    ensures MovieStage3([x] + t) == (if NonBlank(Get(x, "title")) then [x] else []) + MovieStage3(t)
  {
    NonBlankMaskCons(x, t, "title");
    SelectCons(x, t, NonBlank(Get(x, "title")), NonBlankMask(t, "title"));
  }

  lemma MovieStage4Cons(x: Row, t: seq<Row>, hasYear: bool, conv: Conversions)
    ensures MovieStage4([x] + t, hasYear, conv) == [MovieNumbers(x, hasYear, conv)] + MovieStage4(t, hasYear, conv)
  {
    var x3 := AssignCell(x, "id", Numeric, conv);
    var x4 := if hasYear then AssignCell(x3, "year", Numeric, conv) else x3;
    var ta := AssignRows(t, "id", Numeric, conv);
    var tb := if hasYear then AssignRows(ta, "year", Numeric, conv) else ta;
    AssignRowsCons(x, t, "id", Numeric, conv);
    if hasYear {
      AssignRowsCons(x3, ta, "year", Numeric, conv);
    }
    AssignRowsCons(x4, tb, "rating", Numeric, conv);
  }

  lemma MovieStage5Cons(x: Row, t: seq<Row>)
    ensures MovieStage5([x] + t) == (if NoneMissing(x, MovieNumeric) then [x] else []) + MovieStage5(t)
  {
    NotNaMaskCons(x, t, MovieNumeric);
    SelectCons(x, t, NoneMissing(x, MovieNumeric), NotNaMask(t, MovieNumeric));
  }

  /** The blank-title filter, after stripping, keeps a row exactly when its stripped title is not empty. */
  lemma MovieTitleTest(x: Row, conv: Conversions)
    ensures NonBlank(Get(MovieText(x, conv), "title")) <==> Strip(Render(Get(x, "title"), conv)) != []
  {
    var t := Strip(Render(Get(x, "title"), conv));
    MovieTitleCell(x, conv);
    StripIdempotent(Render(Get(x, "title"), conv));
    assert NonBlank(Text(t)) <==> Strip(t) != [];
  }

  /** Text normalisation leaves the stripped title in the `title` cell. */
  lemma MovieTitleCell(r: Row, conv: Conversions)
    ensures Get(MovieText(r, conv), "title") == Text(Strip(Render(Get(r, "title"), conv)))
  {
    assert "title" != "genre" by { ColumnNamesDistinct(); }
  }

  /** The numeric filter, after coercion, keeps a row exactly when `id` and `rating` parsed. */
  lemma MovieNumberTest(x: Row, hasYear: bool, conv: Conversions)
    ensures var y := MovieNumbers(MovieText(x, conv), hasYear, conv);
      NoneMissing(y, MovieNumeric) <==>
        !ToNumeric(Get(x, "id"), conv).Missing? && !ToNumeric(Get(x, "rating"), conv).Missing?
  {
    NormalizeMovieCells(x, hasYear, conv);
    NoneMissingPair(MovieNumbers(MovieText(x, conv), hasYear, conv), "id", "rating");
  }

  /** One row pushed through the five stages lands where its fate says. */
  lemma MovieStagesCons(x: Row, t: seq<Row>, hasYear: bool, conv: Conversions)
    ensures var s1 := MovieStage1([x] + t); var s2 := MovieStage2(s1, conv); var s3 := MovieStage3(s2);
            var s4 := MovieStage4(s3, hasYear, conv); var s5 := MovieStage5(s4);
            var t1 := MovieStage1(t); var t2 := MovieStage2(t1, conv); var t3 := MovieStage3(t2);
            var t4 := MovieStage4(t3, hasYear, conv); var t5 := MovieStage5(t4);
            match MovieFate(x, hasYear, conv)
            case Dropped(MissingRequired) => s1 == t1
            case Dropped(BlankTitle) => |s1| == |t1| + 1 && s3 == t3
            case Dropped(BadNumeric) => |s1| == |t1| + 1 && |s3| == |t3| + 1 && s5 == t5
            case Kept(y) => |s1| == |t1| + 1 && |s3| == |t3| + 1 && s5 == [y] + t5
  {
    var t1 := MovieStage1(t);
    MovieStage1Cons(x, t);
    if NoneMissing(x, MovieRequired) {
      var x2 := MovieText(x, conv);
      var t2 := MovieStage2(t1, conv);
      MovieStage2Cons(x, t1, conv);
      MovieStage3Cons(x2, t2);
      MovieTitleTest(x, conv);
      if Strip(Render(Get(x, "title"), conv)) != [] {
        var t3 := MovieStage3(t2);
        var x4 := MovieNumbers(x2, hasYear, conv);
        MovieStage4Cons(x2, t3, hasYear, conv);
        MovieStage5Cons(x4, MovieStage4(t3, hasYear, conv));
        MovieNumberTest(x, hasYear, conv);
      }
    }
  }

  /** The column-wise stages keep exactly the rows the row-wise rules keep, converted alike and in order. */
  lemma {:induction false} MovieStagesAgree(rows: seq<Row>, hasYear: bool, conv: Conversions)
    ensures MovieStage5(MovieStage4(MovieStage3(MovieStage2(MovieStage1(rows), conv)), hasYear, conv))
            == MovieSurvivors(rows, hasYear, conv)
    decreases |rows|
  {
    if rows != [] {
      var x, t := rows[0], rows[1..];
      assert rows == [x] + t;
      MovieStagesCons(x, t, hasYear, conv);
      MovieStagesAgree(t, hasYear, conv);
    }
  }

  /** The required-field filter removes exactly the rows dropped for a missing field. */
  lemma {:induction false} MovieMissingCount(rows: seq<Row>, hasYear: bool, conv: Conversions)
    ensures |rows| - |MovieStage1(rows)| == MovieTally(rows, hasYear, conv, MissingRequired)
    decreases |rows|
  {
    if rows != [] {
      var x, t := rows[0], rows[1..];
      assert rows == [x] + t;
      MovieTallyCons(x, t, hasYear, conv, MissingRequired);
      MovieStage1Cons(x, t);
      MovieMissingCount(t, hasYear, conv);
    }
  }

  /** The blank-title filter removes exactly the rows dropped for a blank title. */
  lemma {:induction false} MovieBlankCount(rows: seq<Row>, hasYear: bool, conv: Conversions)
    ensures var s2 := MovieStage2(MovieStage1(rows), conv);
            |s2| - |MovieStage3(s2)| == MovieTally(rows, hasYear, conv, BlankTitle)
    decreases |rows|
  {
    if rows != [] {
      var x, t := rows[0], rows[1..];
      assert rows == [x] + t;
      MovieTallyCons(x, t, hasYear, conv, BlankTitle);
      MovieStagesCons(x, t, hasYear, conv);
      MovieBlankCount(t, hasYear, conv);
    }
  }

  /** The numeric filter removes exactly the rows dropped for an unparsable number. */
  lemma {:induction false} MovieNumericCount(rows: seq<Row>, hasYear: bool, conv: Conversions)
    ensures var s3 := MovieStage3(MovieStage2(MovieStage1(rows), conv));
            |s3| - |MovieStage5(MovieStage4(s3, hasYear, conv))| == MovieTally(rows, hasYear, conv, BadNumeric)
    decreases |rows|
  {
    if rows != [] {
      var x, t := rows[0], rows[1..];
      assert rows == [x] + t;
      MovieTallyCons(x, t, hasYear, conv, BadNumeric);
      MovieStagesCons(x, t, hasYear, conv);
      MovieNumericCount(t, hasYear, conv);
    }
  }

  /** Every survivor satisfies the movie rules. */
  lemma {:induction false} MovieSurvivorsNormalized(rows: seq<Row>, hasYear: bool, conv: Conversions)
    ensures forall y :: y in MovieSurvivors(rows, hasYear, conv) ==> IsNormalizedMovie(y)
    decreases |rows|
  {
    if rows != [] {
      var t := rows[1..];
      MovieSurvivorsNormalized(t, hasYear, conv);
      var f := MovieFate(rows[0], hasYear, conv);
      if f.Kept? {
        assert IsNormalizedMovie(f.row) by {
          KeptMovie(rows[0], hasYear, conv);
        }
        assert MovieSurvivors(rows, hasYear, conv) == [f.row] + MovieSurvivors(t, hasYear, conv);
      } else {
        assert MovieSurvivors(rows, hasYear, conv) == MovieSurvivors(t, hasYear, conv);
      }
    }
  }

  /** The final cast turns a numeric id into its truncation and touches nothing else. */
  lemma CastIdCells(y: Row, conv: Conversions)
    requires Get(y, "id").Num?
    ensures var z := AssignCell(y, "id", AsInt, conv);
      && Get(z, "id") == Int(Trunc(Get(y, "id").x))
      && forall c :: c != "id" ==> Get(z, c) == Get(y, c)
  {
  }

  lemma CastIdClean(y: Row, conv: Conversions)
    requires IsNormalizedMovie(y)
    ensures IsCleanMovie(AssignCell(y, "id", AsInt, conv))
  {
    ColumnNamesDistinct();
    CastIdCells(y, conv);
  }

  /**
   * Every cleaned movie row has an integer id, a numeric rating, a non-empty
   * trimmed title and a trimmed, title-cased genre.
   */
  lemma MoviesAreClean(rows: seq<Row>, hasYear: bool, conv: Conversions)
    ensures forall k :: 0 <= k < |MoviesReference(rows, hasYear, conv)| ==>
              IsCleanMovie(MoviesReference(rows, hasYear, conv)[k])
  {
    var d := Distinct(MovieSurvivors(rows, hasYear, conv));
    MovieSurvivorsNormalized(rows, hasYear, conv);
    forall k | 0 <= k < |d| ensures IsCleanMovie(MoviesReference(rows, hasYear, conv)[k]) {
      AssignRowsAt(d, "id", AsInt, conv, k);
      CastIdClean(d[k], conv);
    }
  }

  /** Every row leaves the pipeline exactly once: kept, dropped for one reason, or a duplicate. */
  lemma MovieCountsAddUp(rows: seq<Row>, hasYear: bool, conv: Conversions)
    ensures var survivors := MovieSurvivors(rows, hasYear, conv);
      |rows| == |MoviesReference(rows, hasYear, conv)|
                + MovieTally(rows, hasYear, conv, MissingRequired)
                + MovieTally(rows, hasYear, conv, BlankTitle)
                + MovieTally(rows, hasYear, conv, BadNumeric)
                + (|survivors| - |Distinct(survivors)|)
  {
    MovieAccounting(rows, hasYear, conv);
  }

  /** The duplicate count is the number of survivors minus the number of distinct survivors. */
  lemma MovieDuplicateCount(rows: seq<Row>, hasYear: bool, conv: Conversions)
    ensures var survivors := MovieSurvivors(rows, hasYear, conv);
      |survivors| - |Distinct(survivors)| == |survivors| - |set y | y in survivors|
  {
    DistinctLength(MovieSurvivors(rows, hasYear, conv));
  }

  /** Casting ids is injective on rows whose ids are whole numbers. */
  lemma CastIdInjective(a: Row, b: Row, conv: Conversions)
    requires "id" in a && "id" in b
    requires Get(a, "id").Num? && IsWhole(Get(a, "id").x)
    requires Get(b, "id").Num? && IsWhole(Get(b, "id").x)
    requires AssignCell(a, "id", AsInt, conv) == AssignCell(b, "id", AsInt, conv)
    ensures a == b
  {
    CastIdCells(a, conv);
    CastIdCells(b, conv);
    TruncWhole(Get(a, "id").x);
    TruncWhole(Get(b, "id").x);
    assert a.Keys == b.Keys;
    forall c | c in a ensures a[c] == b[c] {
      assert Get(a, c) == Get(b, c);
    }
  }

  /** Every surviving row has a whole-number id. */
  predicate WholeIds(survivors: seq<Row>)
  {
    forall y :: y in survivors ==> Get(y, "id").Num? && IsWhole(Get(y, "id").x)
  }

  /** When every surviving id is a whole number, no two cleaned movie rows are equal. */
  lemma MoviesDistinctWhenWhole(rows: seq<Row>, hasYear: bool, conv: Conversions)
    requires WholeIds(MovieSurvivors(rows, hasYear, conv))
    ensures NoDuplicates(MoviesReference(rows, hasYear, conv))
  {
    var d := Distinct(MovieSurvivors(rows, hasYear, conv));
    var out := MoviesReference(rows, hasYear, conv);
    MovieSurvivorsNormalized(rows, hasYear, conv);
    forall i, j | 0 <= i < j < |out| ensures out[i] != out[j] {
      AssignRowsAt(d, "id", AsInt, conv, i);
      AssignRowsAt(d, "id", AsInt, conv, j);
      if out[i] == out[j] {
        CastIdInjective(d[i], d[j], conv);
      }
    }
  }

  /**
   * Without whole ids the output can repeat a row: rows with ids 1.5 and 1.25
   * differ, so both survive de-duplication, and the later cast makes both id 1.
   */
  lemma TruncationCanMergeRows(conv: Conversions)
    ensures var a, b := map["id" := Num(1.5)], map["id" := Num(1.25)];
      && Distinct([a, b]) == [a, b]
      && !NoDuplicates(AssignRows(Distinct([a, b]), "id", AsInt, conv))
  {
    var a, b := map["id" := Num(1.5)], map["id" := Num(1.25)];
    assert a["id"] != b["id"];
    assert [a, b][..1] == [a];
    var z := AssignCell(a, "id", AsInt, conv);
    assert z == AssignCell(b, "id", AsInt, conv) by {
      assert Trunc(1.5) == 1 && Trunc(1.25) == 1;
    }
    AssignRowsAt([a, b], "id", AsInt, conv, 0);
    AssignRowsAt([a, b], "id", AsInt, conv, 1);
  }

  /** Lines 11-21: the required-field filter, the text normalisation and the blank-title filter. */
  method MovieTextStages(raw: Frame, conv: Conversions) returns (df: Frame, nMissingRequired: nat, nBlankTitle: nat)
    requires WellFormed(raw)
    requires "id" in raw.columns && "title" in raw.columns && "genre" in raw.columns && "rating" in raw.columns
    ensures WellFormed(df) && df.columns == raw.columns
    ensures df.rows == MovieStage3(MovieStage2(MovieStage1(raw.rows), conv))
    ensures nMissingRequired == MovieTally(raw.rows, "year" in raw.columns, conv, MissingRequired)
    ensures nBlankTitle == MovieTally(raw.rows, "year" in raw.columns, conv, BlankTitle)
  {
    var n0 := |raw.rows|;

    // Required fields
    WhereWellFormed(raw, NotNaMask(raw.rows, MovieRequired));
    df := DropNa(raw, MovieRequired);
    nMissingRequired := n0 - |df.rows|;

    // Normalize text
    AssignWellFormed(df, "title", StripText, conv);
    df := Assign(df, "title", StripText, conv);
    AssignWellFormed(df, "genre", StripTitleText, conv);
    df := Assign(df, "genre", StripTitleText, conv);

    // Remove blank titles
    var beforeBlank := |df.rows|;
    WhereWellFormed(df, NonBlankMask(df.rows, "title"));
    df := KeepNonBlank(df, "title");
    nBlankTitle := beforeBlank - |df.rows|;

    MovieMissingCount(raw.rows, "year" in raw.columns, conv);
    MovieBlankCount(raw.rows, "year" in raw.columns, conv);
  }

  /** Lines 24-31: numeric coercion of `id`, `year` when present, and `rating`, then the required-numeric filter. */
  method MovieTypeStages(df0: Frame, conv: Conversions) returns (df: Frame, nBadNumeric: nat)
    requires WellFormed(df0)
    requires "id" in df0.columns && "rating" in df0.columns
    ensures WellFormed(df) && df.columns == df0.columns
    ensures df.rows == MovieStage5(MovieStage4(df0.rows, "year" in df0.columns, conv))
    ensures nBadNumeric == |df0.rows| - |df.rows|
  {
    df := df0;
    AssignWellFormed(df, "id", Numeric, conv);
    df := Assign(df, "id", Numeric, conv);
    if "year" in df.columns {
      AssignWellFormed(df, "year", Numeric, conv);
      df := Assign(df, "year", Numeric, conv);
    }
    AssignWellFormed(df, "rating", Numeric, conv);
    df := Assign(df, "rating", Numeric, conv);

    var beforeTypes := |df.rows|;
    WhereWellFormed(df, NotNaMask(df.rows, MovieNumeric));
    df := DropNa(df, MovieNumeric);
    nBadNumeric := beforeTypes - |df.rows|;
  }

  /** Lines 34-42: exact-duplicate removal, the integer cast of `id` and the renumbering. */
  method MovieFinalStages(df0: Frame, conv: Conversions) returns (df: Frame, nDuplicates: nat)
    requires WellFormed(df0)
    requires "id" in df0.columns
    ensures WellFormed(df) && df.columns == df0.columns
    ensures df.rows == AssignRows(Distinct(df0.rows), "id", AsInt, conv)
    ensures df.index == Range(|df.rows|)
    ensures nDuplicates == |df0.rows| - |Distinct(df0.rows)|
  {
    var beforeDups := |df0.rows|;
    WhereWellFormed(df0, FirstOccurrences(df0.rows));
    DropDuplicatesIsDistinct(df0.rows);
    df := DropDuplicates(df0);
    nDuplicates := beforeDups - |df.rows|;

    AssignWellFormed(df, "id", AsInt, conv);
    df := Assign(df, "id", AsInt, conv);

    df := ResetIndex(df);
  }

  /**
   * `load_clean_movies` on an already-read table: the stages of lines 11-42 in
   * order, each counter taken as rows before minus rows after its filter. A
   * required column the table lacks makes the first `dropna` raise.
   */
  method LoadCleanMovies(raw: Frame, conv: Conversions) returns (res: Result<Cleaned<MovieCounts>, KeyError>)
    requires WellFormed(raw)
    ensures res.Err? <==> AbsentColumns(MovieRequired, raw.columns) != []
    ensures res.Err? ==> res.error == KeyError(AbsentColumns(MovieRequired, raw.columns))
    ensures res.Ok? ==>
      var hasYear := "year" in raw.columns;
      var out := res.value.frame;
      && WellFormed(out)
      && out.columns == raw.columns
      && out.index == Range(|out.rows|)
      && out.rows == MoviesReference(raw.rows, hasYear, conv)
      && res.value.counts == MovieCountsReference(raw.rows, hasYear, conv)
  {
    var absent := AbsentColumns(MovieRequired, raw.columns);
    if absent != [] {
      return Err(KeyError(absent));
    }
    assert "id" in MovieRequired && "title" in MovieRequired && "genre" in MovieRequired && "rating" in MovieRequired;
    var cleaned := CleanMovies(raw, conv);
    return Ok(cleaned);
  }

  /** The movie pipeline on a frame that has every required column. */
  method CleanMovies(raw: Frame, conv: Conversions) returns (cleaned: Cleaned<MovieCounts>)
    requires WellFormed(raw)
    requires "id" in raw.columns && "title" in raw.columns && "genre" in raw.columns && "rating" in raw.columns
    ensures WellFormed(cleaned.frame)
    ensures cleaned.frame.columns == raw.columns
    ensures cleaned.frame.index == Range(|cleaned.frame.rows|)
    ensures cleaned.frame.rows == MoviesReference(raw.rows, "year" in raw.columns, conv)
    ensures cleaned.counts == MovieCountsReference(raw.rows, "year" in raw.columns, conv)
  {
    var hasYear := "year" in raw.columns;
    var n0 := |raw.rows|;
    var df1, nMissingRequired, nBlankTitle := MovieTextStages(raw, conv);
    var df2, nBadNumeric := MovieTypeStages(df1, conv);
    assert df2.rows == MovieSurvivors(raw.rows, hasYear, conv) by {
      MovieStagesAgree(raw.rows, hasYear, conv);
    }
    assert nBadNumeric == MovieTally(raw.rows, hasYear, conv, BadNumeric) by {
      MovieNumericCount(raw.rows, hasYear, conv);
    }
    var df3, nDuplicates := MovieFinalStages(df2, conv);
    cleaned := Cleaned(df3, MovieCounts(n0, |df3.rows|, nMissingRequired, nBlankTitle, nBadNumeric, nDuplicates));
  }
}
