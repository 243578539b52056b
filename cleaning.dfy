/**
 * What the two cleaning pipelines share. Each pipeline is a method that rebinds a
 * frame stage by stage, as the source does, and takes each counter as rows-before
 * minus rows-after of one filter. Beside each method stands a row-wise reference:
 * what the rules do to a single raw row (its fate), from which the surviving rows
 * and every counter are defined; the methods are proved to compute the reference.
 */
module Cleaning {
  import opened Wrappers
  import opened Seqs
  import opened Strings
  import opened Frames

  /** pandas' `KeyError` from `dropna(subset=...)`: the requested columns the frame lacks. */
  datatype KeyError = KeyError(missing: seq<string>)

  /** The columns of `subset` that are not among `columns`, in the order of `subset`. */
  function AbsentColumns(subset: seq<string>, columns: seq<string>): (r: seq<string>)
    ensures forall c :: c in r <==> c in subset && c !in columns
    ensures IsSubsequence(r, subset)
  {
    if subset == [] then []
    else
      var rest := AbsentColumns(subset[1..], columns);
      assert subset == [subset[0]] + subset[1..];
      if subset[0] in columns then
        SubsequenceCons(rest, subset[0], subset[1..]);
        rest
      else
        assert ([subset[0]] + rest)[1..] == rest;
        [subset[0]] + rest
  }

  /** Why a row is dropped. */
  datatype Reason = MissingRequired | BlankTitle | BadNumeric

  /** What the rules do with one raw row: drop it for a reason, or keep it as converted. */
  datatype Fate = Dropped(reason: Reason) | Kept(row: Row)

  /** A cleaned table and the counters the cleaner reports for it. */
  datatype Cleaned<C> = Cleaned(frame: Frame, counts: C)

  /** The column names the cleaners address are pairwise different. */
  lemma ColumnNamesDistinct()
    ensures "id" != "title" && "id" != "genre" && "id" != "rating" && "id" != "year"
    ensures "title" != "genre" && "title" != "rating" && "title" != "year"
    ensures "genre" != "rating" && "genre" != "year" && "rating" != "year"
    ensures "user_id" != "movie_id" && "user_id" != "rating" && "movie_id" != "rating"
  {
    assert "id"[0] != "title"[0] && "id"[0] != "genre"[0] && "id"[0] != "rating"[0] && "id"[0] != "year"[0];
    assert "title"[0] != "genre"[0] && "title"[0] != "rating"[0] && "title"[0] != "year"[0];
    assert "genre"[0] != "rating"[0] && "genre"[0] != "year"[0] && "rating"[0] != "year"[0];
    assert "user_id"[0] != "movie_id"[0] && "user_id"[0] != "rating"[0] && "movie_id"[0] != "rating"[0];
  }
}
