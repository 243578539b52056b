/**
 * Sequences seen the way a data frame sees its rows: boolean masks, selection by
 * a mask (`df[mask]`), the sum of a mask (`mask.sum()`), and first-occurrence
 * de-duplication (`df.duplicated(keep="first")`).
 */
module Seqs {

  /** The number of `true` entries of a mask. */
  function CountTrue(m: seq<bool>): (n: nat)
    ensures n <= |m|
  {
    if m == [] then 0 else (if m[0] then 1 else 0) + CountTrue(m[1..])
  }

  /** The positions at which a mask is `true`. */
  function TruePositions(m: seq<bool>): set<nat>
  {
    set k: nat | k < |m| && m[k]
  }

  lemma {:induction false} CountTrueConcat(a: seq<bool>, b: seq<bool>)
    ensures CountTrue(a + b) == CountTrue(a) + CountTrue(b)
  {
    if a == [] {
      assert a + b == b;
    } else {
      assert (a + b)[1..] == a[1..] + b;
      CountTrueConcat(a[1..], b);
    }
  }

  /** The sum of a mask is the number of positions where it holds. */
  lemma {:induction false} CountTrueIsCardinality(m: seq<bool>)
    ensures CountTrue(m) == |TruePositions(m)|
  {
    if m != [] {
      var p, b := m[..|m| - 1], m[|m| - 1];
      assert m == p + [b];
      CountTrueConcat(p, [b]);
      CountTrueIsCardinality(p);
      if b {
        assert TruePositions(m) == TruePositions(p) + {|p|};
      } else {
        assert TruePositions(m) == TruePositions(p);
      }
    }
  }

  /** A mask sums to zero exactly when no entry holds. */
  lemma {:induction false} CountTrueZero(m: seq<bool>)
    ensures CountTrue(m) == 0 <==> forall k :: 0 <= k < |m| ==> !m[k]
  {
    if m != [] {
      CountTrueZero(m[1..]);
      assert forall k :: 1 <= k < |m| ==> m[k] == m[1..][k - 1];
    }
  }

  /** The elements of `s` at which `keep` holds, in their original order: `df[keep]`. */
  function Select<T>(s: seq<T>, keep: seq<bool>): (r: seq<T>)
    requires |keep| == |s|
    ensures |r| == CountTrue(keep)
    decreases |s|
  {
    if s == [] then [] else (if keep[0] then [s[0]] else []) + Select(s[1..], keep[1..])
  }

  lemma {:induction false} SelectSnoc<T>(s: seq<T>, keep: seq<bool>, x: T, b: bool)
    requires |keep| == |s|
    ensures Select(s + [x], keep + [b]) == Select(s, keep) + (if b then [x] else [])
    decreases |s|
  {
    if s == [] {
      assert s + [x] == [x] && keep + [b] == [b];
    } else {
      var t, m := s[1..], keep[1..];
      SelectSnoc(t, m, x, b);
      assert s + [x] == [s[0]] + (t + [x]);
      assert keep + [b] == [keep[0]] + (m + [b]);
      SelectCons(s[0], t + [x], keep[0], m + [b]);
    }
  }

  lemma SelectCons<T>(x: T, t: seq<T>, b: bool, m: seq<bool>)
    requires |m| == |t|
    ensures Select([x] + t, [b] + m) == (if b then [x] else []) + Select(t, m)
  {
    assert ([x] + t)[1..] == t && ([b] + m)[1..] == m;
  }

  /** `a` is obtained from `b` by deleting elements (greedy matching from the front). */
  predicate IsSubsequence<T(==)>(a: seq<T>, b: seq<T>)
    decreases |b|
  {
    a == [] ||
    (b != [] && if a[0] == b[0] then IsSubsequence(a[1..], b[1..]) else IsSubsequence(a, b[1..]))
  }

  lemma {:induction false} SubsequenceCons<T>(a: seq<T>, x: T, t: seq<T>)
    requires IsSubsequence(a, t)
    ensures IsSubsequence(a, [x] + t)
    decreases |t|, 1
  {
    assert ([x] + t)[1..] == t;
    if a != [] && a[0] == x {
      SubsequenceDropHead(a, t);
    }
  }

  lemma {:induction false} SubsequenceDropHead<T>(a: seq<T>, t: seq<T>)
    requires a != [] && IsSubsequence(a, t)
    ensures IsSubsequence(a[1..], t)
    decreases |t|, 0
  {
    if a[0] == t[0] {
      SubsequenceCons(a[1..], t[0], t[1..]);
      assert t == [t[0]] + t[1..];
    } else {
      SubsequenceDropHead(a, t[1..]);
      SubsequenceCons(a[1..], t[0], t[1..]);
      assert t == [t[0]] + t[1..];
    }
  }

  /** Selecting by a mask keeps the survivors in their original relative order. */
  lemma {:induction false} SelectIsSubsequence<T>(s: seq<T>, keep: seq<bool>)
    requires |keep| == |s|
    ensures IsSubsequence(Select(s, keep), s)
    decreases |s|
  {
    if s != [] {
      var rest := Select(s[1..], keep[1..]);
      SelectIsSubsequence(s[1..], keep[1..]);
      if keep[0] {
        assert ([s[0]] + rest)[1..] == rest;
      } else {
        assert Select(s, keep) == rest;
        SubsequenceCons(rest, s[0], s[1..]);
        assert s == [s[0]] + s[1..];
      }
    }
  }

  /** An element survives selection exactly when it stands at a position the mask keeps. */
  lemma {:induction false} SelectMembers<T>(s: seq<T>, keep: seq<bool>)
    requires |keep| == |s|
    ensures forall k :: 0 <= k < |s| && keep[k] ==> s[k] in Select(s, keep)
    ensures forall x :: x in Select(s, keep) ==> exists k :: 0 <= k < |s| && keep[k] && s[k] == x
    decreases |s|
  {
    if s != [] {
      var t, m := s[1..], keep[1..];
      SelectMembers(t, m);
      assert Select(s, keep) == (if keep[0] then [s[0]] else []) + Select(t, m);
      forall k | 0 <= k < |s| && keep[k] ensures s[k] in Select(s, keep) {
        if k > 0 { assert s[k] == t[k - 1] && m[k - 1]; }
      }
      forall x | x in Select(s, keep) ensures exists k :: 0 <= k < |s| && keep[k] && s[k] == x {
        if !(keep[0] && x == s[0]) {
          assert x in Select(t, m);
          var j :| 0 <= j < |t| && m[j] && t[j] == x;
          assert keep[j + 1] && s[j + 1] == x;
        }
      }
    }
  }

  lemma {:induction false} SelectElements<T>(s: seq<T>, keep: seq<bool>, x: T)
    requires |keep| == |s|
    requires x in Select(s, keep)
    ensures x in s
    decreases |s|
  {
    if x != s[0] || !keep[0] {
      SelectElements(s[1..], keep[1..], x);
    }
  }

  predicate NoDuplicates<T(==)>(s: seq<T>)
  {
    forall i, j :: 0 <= i < j < |s| ==> s[i] != s[j]
  }

  /**
   * Reference de-duplication: walk the sequence and append each element not seen
   * before. The result holds every element once, in order of first appearance.
   */
  function Distinct<T(==)>(s: seq<T>): (r: seq<T>)
    ensures |r| <= |s|
    ensures forall k :: 0 <= k < |s| ==> s[k] in r
    ensures forall k :: 0 <= k < |r| ==> r[k] in s
    ensures NoDuplicates(r)
    decreases |s|
  {
    if s == [] then []
    else
      var d := Distinct(s[..|s| - 1]);
      assert s == s[..|s| - 1] + [s[|s| - 1]];
      if s[|s| - 1] in d then d else d + [s[|s| - 1]]
  }

  /** The keep-mask of `drop_duplicates(keep="first")`: an element survives iff it did not occur earlier. */
  function FirstOccurrences<T(==)>(s: seq<T>): (m: seq<bool>)
    ensures |m| == |s|
  {
    seq(|s|, k requires 0 <= k < |s| => s[k] !in s[..k])
  }

  /** Dropping every element equal to an earlier one is the reference de-duplication. */
  lemma {:induction false} DropDuplicatesIsDistinct<T>(s: seq<T>)
    ensures Select(s, FirstOccurrences(s)) == Distinct(s)
    decreases |s|
  {
    if s != [] {
      var p, x := s[..|s| - 1], s[|s| - 1];
      assert s == p + [x];
      assert FirstOccurrences(s) == FirstOccurrences(p) + [x !in p] by {
        forall k | 0 <= k < |p| ensures s[..k] == p[..k] { }
      }
      SelectSnoc(p, FirstOccurrences(p), x, x !in p);
      DropDuplicatesIsDistinct(p);
    }
  }

  /** De-duplication keeps the surviving elements in their original relative order. */
  lemma DistinctIsSubsequence<T>(s: seq<T>)
    ensures IsSubsequence(Distinct(s), s)
  {
    DropDuplicatesIsDistinct(s);
    SelectIsSubsequence(s, FirstOccurrences(s));
  }

  /** De-duplication keeps exactly one element per distinct value. */
  lemma {:induction false} DistinctLength<T>(s: seq<T>)
    ensures |Distinct(s)| == |set x | x in s|
    decreases |s|
  {
    if s != [] {
      var p, x := s[..|s| - 1], s[|s| - 1];
      assert s == p + [x];
      DistinctLength(p);
      assert (set y | y in s) == (set y | y in p) + {x};
      if x in p {
        assert (set y | y in s) == (set y | y in p);
      } else {
        assert x !in (set y | y in p);
      }
    }
  }

  /** The positions 0, 1, …, n - 1: the labels `reset_index(drop=True)` assigns. */
  function Range(n: nat): (r: seq<int>)
    ensures |r| == n
  {
    seq(n, k requires 0 <= k < n => k)
  }
}
