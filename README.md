# Movie and rating cleaning, and the data-quality report, in Dafny

This project models the core of a small movie-ratings pipeline. Two cleaners
take a raw table of movies and a raw table of ratings and clean them stage by
stage, counting the rows each stage removes. A reporter then summarises both
cleaned tables and counts the orphan ratings.

- **Movie cleaner** (`load_clean_movies`):
  1. Drop rows missing `id`, `title`, `genre` or `rating`.
  2. Trim `title`; trim and title-case `genre`.
  3. Drop blank titles.
  4. Coerce `id`, `year` (when present) and `rating` to numbers.
  5. Drop rows whose `id` or `rating` did not parse.
  6. Remove exact duplicates, keeping the first.
  7. Cast `id` to an integer.
  8. Renumber the rows from zero.
- **Rating cleaner** (`load_clean_ratings`) follows the same pattern. In addition it counts the ratings outside [0, 10] and clamps them, before de-duplication.
- **Reporter**:
  - `dq_summary` gives the row count, type name, null count and null fraction per column.
  - `referential_issues` counts ratings whose `movie_id` is not a movie `id`.
  - `generate_report` assembles the two summaries and the integrity result.

## How the model is organised

- `wrappers.dfy` (`Wrappers`): `Option` and `Result`. An `Err` stands for an exception the source raises.
- `seqs.dfy` (`Seqs`): sequences as a data frame sees its rows.
  - boolean masks and their sum;
  - selection by a mask (`df[mask]`);
  - `drop_duplicates(keep="first")` as a first-occurrence mask, proved equal to the reference de-duplication `Distinct`.
- `strings.dfy` (`Strings`):
  - Python's `str.strip` (with Python's whitespace set);
  - `str.title`, on ASCII letters;
  - `str()` of an integer.
- `frames.dfy` (`Frames`):
  - cells (`Int | Num(real) | Text | Missing`), rows (maps from column name to cell) and frames (columns, index labels, rows);
  - the column operations the cleaners assign through `df.loc[:, col] = ...`: strip, strip and title-case, `to_numeric(errors="coerce")`, `astype(int)` (truncation toward zero), `astype(float)` and `clip`;
  - `dropna`, boolean filtering, `drop_duplicates` and `reset_index`.
- `cleaning.dfy` (`Cleaning`): what both cleaners share.
  - the `KeyError` raised when a required column is absent;
  - the reasons a row is dropped;
  - a row's *fate*: dropped for a reason, or kept as converted.
- `movies.dfy` (`Movies`) and `ratings.dfy` (`Ratings`): the two cleaners.
  - Each is an imperative method that rebinds its frame stage by stage and takes every counter as rows-before minus rows-after, as the source does.
  - Beside each method stands a row-wise reference: the fate of one raw row, the surviving rows, and a tally per drop reason.
  - The method's `ensures` says that the cleaned rows and every counter equal the reference. The lemmas then state what the reference guarantees.
- `reporting.dfy` (`Reporting`): the reporter, as pure functions.

The library behaviour that is not visible in the source is passed in as parameters:

- `Conversions.parseNumber`: what `pd.to_numeric` makes of one string;
- `Conversions.showFloat`: `str()` of a float;
- `dtypeOf`: the type name pandas gives a column.

The raw tables are given as values in place of reading the CSV files.

## Model

| member | source | states |
|---|---|---|
| Movies.LoadCleanMovies | cleaning.py:6-49 | an absent required column is a `KeyError` listing exactly the absent columns. Otherwise the output is well formed, keeps the raw columns, is renumbered 0..n-1, and its rows and all six counters equal the row-wise reference |
| Movies.CleanMovies | cleaning.py:13-49 | on a frame holding the four required columns, the stages from text normalisation to the index reset yield a well-formed frame with the raw columns, renumbered 0..n-1, whose rows and six counters equal the row-wise reference |
| Movies.MovieTextStages | cleaning.py:11-21 | the required-field filter, text normalisation and blank-title filter give the stage rows; each counter is rows before minus rows after its filter |
| Movies.MovieTypeStages | cleaning.py:24-31 | `id`, `year` (only when the column exists) and `rating` are coerced; the required-numeric filter's counter is rows before minus rows after |
| Movies.MovieFinalStages | cleaning.py:34-42 | the rows are de-duplicated (first occurrence kept) and then have `id` cast. `duplicates` is the number of rows removed. The index is 0..n-1 |
| Movies.MovieStagesAgree | cleaning.py:11-31 | the column-wise filters and conversions keep exactly the rows the row-wise rules keep, converted alike, in input order |
| Movies.MovieMissingCount | cleaning.py:11-12 | `missing_required` is the number of rows dropped for a missing required field |
| Movies.MovieBlankCount | cleaning.py:19-21 | `blank_title` is the number of rows dropped for a blank title |
| Movies.MovieNumericCount | cleaning.py:29-31 | `bad_numeric` is the number of rows dropped because `id` or `rating` did not parse |
| Movies.MovieAccounting | cleaning.py:8-31 | every raw row is kept or dropped for exactly one reason: read = survivors + missing_required + blank_title + bad_numeric |
| Movies.MovieCountsAddUp | cleaning.py:8-36 | read = kept + missing_required + blank_title + bad_numeric + duplicates |
| Movies.MovieDuplicateCount | cleaning.py:34-36 | `duplicates` is the number of survivors minus the number of distinct survivors |
| Movies.KeptMovie | cleaning.py:11-31 | a kept row has a numeric `id` and `rating`, a non-empty trimmed title and a trimmed title-cased genre. When the table has a year column its `year` is the coerced raw year; without one the `year` cell is left as it was. Every other column is unchanged |
| Movies.NormalizeMovieCells | cleaning.py:15-16 | normalisation sets title, genre, id, rating and (when present) year to their converted raw values and touches no other column |
| Movies.GenreNormalized | cleaning.py:16 | a stripped, title-cased genre is trimmed and title-cased |
| Movies.BlankTitleRows | cleaning.py:15-21 | a row is dropped as blank exactly when its required fields are present and its title is all whitespace |
| Movies.MovieVerdictOfRequired | cleaning.py:11-30 | two rows that agree on `id`, `title`, `genre` and `rating` are either both kept or dropped for the same reason |
| Movies.YearNeverDrops | cleaning.py:25-30 | changing the `year` cell never changes whether a row is kept, and never changes why it is dropped |
| Movies.MoviesAreClean | cleaning.py:11-39 | every output movie has an integer `id`, a numeric `rating`, a non-empty trimmed title and a trimmed, title-cased genre |
| Movies.CastIdInjective | cleaning.py:39 | the integer cast of `id` maps two rows to the same row only if they were equal, when both ids are whole numbers |
| Movies.MoviesDistinctWhenWhole | cleaning.py:34-39 | when every surviving id is a whole number, no two output rows are equal |
| Movies.TruncationCanMergeRows | cleaning.py:34-39 | rows with ids 1.5 and 1.25 both survive de-duplication, and after the cast the output holds two equal rows |
| Movies.MovieFate | cleaning.py:11-31 | the fate of one raw row: dropped for a missing required field, else for a blank stripped title, else for an `id` or `rating` that does not parse, else kept normalised. Its properties are stated by Movies.KeptMovie, Movies.BlankTitleRows and Movies.MovieVerdictOfRequired |
| Movies.MoviesReference | cleaning.py:34-39 | the reference output: the kept rows de-duplicated, then `id` cast. Movies.LoadCleanMovies is proved equal to it; Movies.MoviesAreClean and Movies.MoviesDistinctWhenWhole state what it guarantees |
| Ratings.LoadCleanRatings | cleaning.py:52-90 | an absent required column is a `KeyError` listing exactly the absent columns. Otherwise the output is well formed, keeps the raw columns, is renumbered 0..n-1, and its rows and all six counters equal the row-wise reference |
| Ratings.RatingTypeStages | cleaning.py:56-67 | the required-field filter, the coercion of the three columns and the required-numeric filter give the stage rows; each counter is rows before minus rows after |
| Ratings.RatingClipStage | cleaning.py:69-71 | `clipped` is the number of rows whose rating is a number below 0 or above 10, taken before clamping. The new rows are the old ones with `rating` clamped, and every rating that was a number, integer or real, now lies in [0, 10] |
| Ratings.RatingFinalStages | cleaning.py:73-83 | the rows are de-duplicated on their clamped values with the first kept, then the ids are cast to int and the rating to float. `duplicates` is the number removed. The index is 0..n-1 |
| Ratings.RatingStagesAgree | cleaning.py:56-71 | the column-wise stages keep exactly the rows the row-wise rules keep, coerced and clamped, in input order |
| Ratings.RatingMissingCount | cleaning.py:57-58 | `missing_required` is the number of rows dropped for a missing required field |
| Ratings.RatingNumericCount | cleaning.py:65-67 | `bad_numeric` is the number of rows dropped because one of the three did not parse |
| Ratings.RatingClippedCount | cleaning.py:70 | `clipped` is the number of kept rows whose parsed rating lies outside [0, 10] |
| Ratings.RatingAccounting | cleaning.py:54-70 | every raw row is kept or dropped for exactly one reason. Clipped rows are among the kept rows. No rating row is dropped as a blank title |
| Ratings.RatingCountsAddUp | cleaning.py:54-76 | read = kept + missing_required + bad_numeric + duplicates. `clipped` counts rows that were altered, not dropped, so it is at most kept + duplicates |
| Ratings.KeptRating | cleaning.py:61-71 | a kept row has numeric ids and a rating in [0, 10]. A parsed rating below 0 becomes 0, one above 10 becomes 10, and one in range is unchanged. Every other column is unchanged |
| Ratings.RatingSurvivorsNumeric | cleaning.py:57-71 | every surviving rating row has numeric ids and a rating in [0, 10] |
| Ratings.RatingsAreClean | cleaning.py:57-81 | every output rating row has integer `user_id` and `movie_id` and a rating in [0, 10] |
| Ratings.RatingCastInjective | cleaning.py:79-81 | the final casts map two rows to the same row only if they were equal, when all ids are whole numbers |
| Ratings.RatingsDistinctWhenWhole | cleaning.py:73-81 | when every surviving id is a whole number, no two output rating rows are equal |
| Ratings.ClippedAboveCoincide | cleaning.py:70-75 | two kept rows that differ only in ratings above 10 become the same row after clamping |
| Ratings.ClippedRatingsCollapse | cleaning.py:54-76 | two raw ratings 11 and 12 of the same movie by the same user give read 2, kept 1, clipped 2 and duplicates 1 |
| Ratings.RatingFate | cleaning.py:57-71 | the fate of one raw rating row: dropped for a missing field, else for a field that does not parse, else kept coerced with its rating clamped to [0, 10]. Its properties are stated by Ratings.KeptRating and Ratings.RatingAccounting |
| Ratings.RatingsReference | cleaning.py:75-81 | the reference output: the kept rows de-duplicated, then the ids cast to int and the rating to float. Ratings.LoadCleanRatings is proved equal to it; Ratings.RatingsAreClean states what it guarantees |
| Cleaning.AbsentColumns | cleaning.py:11 | the columns reported missing are exactly the required columns the table lacks, in their order |
| Seqs.DropDuplicatesIsDistinct | cleaning.py:35 | keeping each row that equals no earlier row gives the reference de-duplication |
| Seqs.Distinct | cleaning.py:75 | the de-duplicated rows contain every input row, contain only input rows, and hold no two equal rows |
| Seqs.DistinctIsSubsequence | cleaning.py:35 | de-duplication keeps the survivors in their original relative order |
| Seqs.DistinctLength | cleaning.py:35-36 | de-duplication keeps exactly one row per distinct value |
| Seqs.SelectIsSubsequence | cleaning.py:20 | boolean filtering keeps the selected rows in their original order |
| Seqs.CountTrueIsCardinality | reporting.py:11 | the sum of a mask is the number of positions at which it holds |
| Seqs.FirstOccurrences | cleaning.py:35 | the keep-mask of `drop_duplicates`, one entry per row. Seqs.DropDuplicatesIsDistinct proves that selecting by it is the reference de-duplication |
| Seqs.SelectMembers | cleaning.py:20 | a row survives boolean filtering exactly when it stands at a position the mask keeps |
| Strings.LStrip | cleaning.py:15 | the left strip returns a suffix of its input that does not start with whitespace; Strings.LStripRemovesSpace states that what it drops is whitespace |
| Strings.RStrip | cleaning.py:15 | the right strip returns a prefix of its input that does not end with whitespace; Strings.RStripRemovesSpace states that what it drops is whitespace |
| Strings.Strip | cleaning.py:15 | the stripped string is trimmed and no longer than its input; Strings.StripIsSlice states that it is the input less whitespace on both sides |
| Strings.Title | cleaning.py:16 | title-casing keeps the length; Strings.TitleAt states the case of each character |
| Strings.StripBlank | cleaning.py:20 | a string strips to nothing exactly when it is all whitespace |
| Strings.StripIsSlice | cleaning.py:15 | `strip` returns a slice of its input, and everything cut off on either side is whitespace |
| Strings.StripIdempotent | cleaning.py:15 | stripping twice is stripping once |
| Strings.TitleAt | cleaning.py:16 | a character following a letter is lower-cased and any other is upper-cased. Letters stay letters and other characters are kept |
| Strings.TitleIsTitleCased | cleaning.py:16 | every letter of a title-cased string is upper-case at a word start and lower-case inside a word |
| Strings.TitleFixedPoints | cleaning.py:16 | the title-cased strings are exactly the fixed points of `title` |
| Strings.TitleIdempotent | cleaning.py:16 | title-casing twice is title-casing once |
| Strings.TitleKeepsTrimmed | cleaning.py:16 | title-casing a trimmed string leaves it trimmed |
| Strings.GenreExample | cleaning.py:16 | the genre `"  sci-fi  "` becomes `"Sci-Fi"` |
| Frames.Render | cleaning.py:15-16 | `astype(str)` leaves a string as it is and renders an integer as a non-empty text with no surrounding whitespace |
| Frames.CastToInt | cleaning.py:39 | `astype(int)` succeeds exactly on numbers. An integer stays itself. A real is truncated toward zero, so the result is within one of the value on the side of zero, and a whole real gives its own value |
| Frames.ApplyOp | cleaning.py:15-81 | strip yields trimmed text; strip-and-title yields trimmed, title-cased text; coercion yields a number or missing; the integer cast yields an integer exactly on numbers; the float cast never yields an integer; clipping a number, integer or real, lands in the range, and clipping a missing or text cell leaves it unchanged |
| Frames.Assign | cleaning.py:15-16 | assigning a column keeps the columns, the index labels and the number of rows |
| Frames.Where | cleaning.py:20 | boolean filtering keeps the columns and as many rows and labels as the mask has true entries |
| Frames.WhereRows | cleaning.py:20 | boolean filtering keeps the rows at kept positions and no others, in their original order |
| Frames.DropNa | cleaning.py:11 | `dropna` keeps the columns and never adds rows |
| Frames.DropNaRows | cleaning.py:11 | `dropna(subset=...)` keeps exactly the rows with a value in every column of the subset, in their original order |
| Frames.KeepNonBlank | cleaning.py:20 | the blank filter keeps the columns and never adds rows |
| Frames.KeepNonBlankRows | cleaning.py:20 | the blank filter keeps exactly the rows whose cell does not strip to the empty string, in their original order |
| Frames.DropDuplicates | cleaning.py:35 | `drop_duplicates` keeps the columns and its rows are the reference de-duplication of the input rows |
| Frames.ResetIndex | cleaning.py:42 | `reset_index(drop=True)` keeps the columns and rows and labels the rows 0, 1, … in order |
| Frames.ToNumeric | cleaning.py:24 | coercion yields a number or missing. An integer becomes the real of the same value, a real is kept as it is, and missing stays missing. A string becomes a number exactly when the parser accepts it, and then that number |
| Frames.Trunc | cleaning.py:39 | `astype(int)` truncates toward zero |
| Frames.Clamp | cleaning.py:71 | `clip(0, 10)` yields the point of [0, 10] nearest to the value |
| Frames.ClampCases | cleaning.py:71 | below the range gives the lower bound, above it the upper bound, and inside it the value itself |
| Frames.AssignCell | cleaning.py:15-16 | assigning a column rewrites that column's cell with the operation's result and leaves every other cell as it was |
| Reporting.DqSummary | reporting.py:6-13 | the summary carries the table name and its length. Its three maps are keyed by exactly the table's columns. Each null count is at most the row count. For a non-empty table each null fraction is null count / rows, in [0, 1]; for an empty one it is NaN |
| Reporting.NullCountIsMissingRows | reporting.py:11 | a column's null count is the number of rows whose cell in it is missing |
| Reporting.NullCountZero | reporting.py:11 | a column's null count is 0 exactly when no row's cell in it is missing |
| Reporting.DqSummaryCountsNulls | reporting.py:11 | the summary's null count for a column is that column's number of missing cells |
| Reporting.NullFraction | reporting.py:12 | the null fraction is NaN exactly for an empty table, and otherwise lies in [0, 1] |
| Reporting.MovieIds | reporting.py:18 | the id set fails exactly when some movie id cannot be cast, and otherwise holds exactly the cast ids |
| Reporting.NullCount | reporting.py:11 | the null count of a column is at most the row count; Reporting.NullCountIsMissingRows states what it counts |
| Reporting.IsEmpty | reporting.py:16 | `DataFrame.empty`: a table is empty when it has no rows or no columns; Reporting.NoKeysNoOrphans states that an empty table has no orphans |
| Reporting.IsIn | reporting.py:19 | a cell is among the ids exactly when it is an integer id or the real of one; missing and text cells never are |
| Reporting.OrphanMask | reporting.py:19 | the orphan mask is true exactly at the rating rows whose `movie_id` is not among the ids |
| Reporting.ReferentialIssues | reporting.py:15-20 | a successful orphan count is at most the number of rating rows |
| Reporting.NoKeysNoOrphans | reporting.py:16-17 | the count is 0 when either table is empty or lacks its key column |
| Reporting.OrphanCastFailure | reporting.py:16-18 | otherwise the report fails exactly when some movie id is missing or not a number |
| Reporting.OrphanCountIsOrphanRows | reporting.py:18-20 | otherwise the count is the number of rating rows whose `movie_id` is not among the movie ids |
| Reporting.NoOrphansWhenAllMatch | reporting.py:18-20 | the count is 0 exactly when every rating's `movie_id` matches a movie id |
| Reporting.OrphanExample | reporting.py:18-20 | a rating of movie 99, when no movie has id 99, makes the count at least 1 |
| Reporting.GenerateReport | reporting.py:22-27 | the report fails exactly when the integrity check does. Otherwise it is made of exactly three parts: `dq_summary` of the movies table named "movies", `dq_summary` of the ratings table named "ratings", and the result of `referential_issues`. Each summary has its table's row count and null-count keys, and the orphan count is at most the number of rating rows |

## Left out

- Reading the CSV files (`pd.read_csv`). Each raw table is a given value.
- The logging calls. The counters are returned instead.
- Writing the report as JSON. That is I/O only.
- `database.py`: SQLite persistence and query text.
- `utils.py`: argument parsing and logging setup.
- `cleaner.py`: orchestration and printing.
- `tempCodeRunnerFile.py`: a scratch snippet with no logic.
- The grammar by which `pd.to_numeric` parses a string, and the text of `str()` of a float. Both are the `Conversions` parameters. `str()` of an integer is modelled.
- The pandas dtype names of `dq_summary`'s `columns` map. They are the `dtypeOf` parameter.
- Floating-point arithmetic: numbers are Dafny reals, so there is no rounding, infinity or NaN value inside a column.
- Frames.CastToInt: the 64-bit width of `astype(int)` at cleaning.py:39, cleaning.py:79 and reporting.py:18 is not modelled. In the source a value at or beyond 2^63 does not fit and an infinite id (`to_numeric("inf")`) makes the cast raise, so either cleaner or `referential_issues` can fail. In the model the cast is an unbounded truncation that cannot fail on a number, and a parser that accepts "inf" must return a finite real or reject it.
- `astype(float)` at line 81 is a retag: an integer cell becomes a real of the same value.
- Assigning an integer series through `df.loc[:, col]` may leave the column's float dtype in place. The model gives the cast cells the `Int` tag. Their values, the truncated ids, are the same either way.
- `pd.to_numeric` always produces the `Num` tag here, even where pandas would keep an integer column. De-duplication compares values, as equality within one pandas column does.
- `str.title` is modelled on ASCII letters. Other Unicode letters are treated as non-letters.
- The raw index labels are carried through the filters but not stated: only the final renumbering is.
- Duplicate column names are not modelled. A table's columns are taken as distinct names.
- Reporting.MovieIds: `astype(int)` on a text id fails in the model. numpy would accept a string of digits, but the cleaned movie table holds only integer ids.
- The cleaners' idempotence is not claimed, because it does not hold. The integer cast after de-duplication can make two output rows equal (Movies.TruncationCanMergeRows), and a second run would then count and remove one of them as a duplicate.
- A four-row movie example is not stated as a lemma: rows (1, "Matrix", "action", 8.5, 1999), (2, "  ", "drama", 7, 2001), (2, "Clone", "drama", 7, 2001) and (3, "X", no genre, 9, 2000) should keep the first and third rows (the third with genre "Drama"), with one row missing a required field, one blank title and no duplicates. The rules it exercises are covered by Movies.BlankTitleRows, Movies.MovieMissingCount, Movies.KeptMovie and Strings.GenreExample.

### Where the code differs from what a reader might expect

The model follows the code in each case.

- **Null fraction of an empty table.** A reader might expect 0.0 (taking 0/0 as 0). `Series.mean()` of an empty series is NaN, so the model returns `NaN` (Reporting.NullFraction).
- **"No two output rows fully equal."** One might expect this of a de-duplicated output. The code removes duplicates *before* casting `id` to int, and the cast truncates. Two rows that differ only in ids 1.5 and 1.25 therefore both survive and then become equal (Movies.TruncationCanMergeRows). Distinctness is proved only when every surviving id is whole (Movies.MoviesDistinctWhenWhole and Ratings.RatingsDistinctWhenWhole).
- **A missing required column.** This is a fatal input error. In the code it is the `KeyError` raised by the first `dropna`, modelled as `Err`.
