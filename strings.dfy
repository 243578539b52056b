/**
 * The two string operations the cleaners use: Python's `str.strip()` (remove
 * leading and trailing whitespace) and `str.title()` (upper-case a letter that
 * follows a non-letter, lower-case every other letter), and `str()` of an integer.
 * Letters are the ASCII letters; whitespace is the set Python's `str.isspace` accepts.
 */
module Strings {

  /** Python's whitespace: the ASCII separators 9-13 and 28-32 and the Unicode spaces. */
  predicate IsSpace(c: char)
  {
    var n := c as int;
    (9 <= n <= 13) || (28 <= n <= 32) || n == 0x85 || n == 0xA0 || n == 0x1680 ||
    (0x2000 <= n <= 0x200A) || n == 0x2028 || n == 0x2029 || n == 0x202F || n == 0x205F || n == 0x3000
  }

  predicate IsUpper(c: char) { 'A' <= c <= 'Z' }

  predicate IsLower(c: char) { 'a' <= c <= 'z' }

  predicate IsLetter(c: char) { IsUpper(c) || IsLower(c) }

  function ToUpper(c: char): (u: char)
    ensures IsLetter(c) ==> IsUpper(u)
    ensures !IsLetter(c) ==> u == c
    ensures IsUpper(c) ==> u == c
  {
    if IsLower(c) then (c as int - 32) as char else c
  }

  function ToLower(c: char): (l: char)
    ensures IsLetter(c) ==> IsLower(l)
    ensures !IsLetter(c) ==> l == c
    ensures IsLower(c) ==> l == c
  {
    if IsUpper(c) then (c as int + 32) as char else c
  }

  predicate AllSpace(s: string)
  {
    forall k :: 0 <= k < |s| ==> IsSpace(s[k])
  }

  /** No whitespace at either end. */
  predicate IsTrimmed(s: string)
  {
    s == [] || (!IsSpace(s[0]) && !IsSpace(s[|s| - 1]))
  }

  /** `str.lstrip()`: the suffix left after dropping the leading whitespace. */
  function LStrip(s: string): (r: string)
    ensures |r| <= |s| && r == s[|s| - |r|..]
    ensures r == [] || !IsSpace(r[0])
  {
    if s != [] && IsSpace(s[0]) then LStrip(s[1..]) else s
  }

  /** What `str.lstrip()` removes is whitespace. */
  lemma {:induction false} LStripRemovesSpace(s: string)
    ensures AllSpace(s[..|s| - |LStrip(s)|])
  {
    if s != [] && IsSpace(s[0]) {
      LStripRemovesSpace(s[1..]);
      var n := |s| - |LStrip(s)|;
      forall k | 0 <= k < n ensures IsSpace(s[k]) {
        if k > 0 { assert s[k] == s[1..][..n - 1][k - 1]; }
      }
    }
  }

  /** `str.rstrip()`: the prefix left after dropping the trailing whitespace. */
  function RStrip(s: string): (r: string)
    ensures |r| <= |s| && r == s[..|r|]
    ensures r == [] || !IsSpace(r[|r| - 1])
  {
    if s != [] && IsSpace(s[|s| - 1]) then RStrip(s[..|s| - 1]) else s
  }

  /** What `str.rstrip()` removes is whitespace. */
  lemma {:induction false} RStripRemovesSpace(s: string)
    ensures AllSpace(s[|RStrip(s)|..])
  {
    if s != [] && IsSpace(s[|s| - 1]) {
      var p := s[..|s| - 1];
      RStripRemovesSpace(p);
      var m := |RStrip(s)|;
      forall k | 0 <= k < |s| - m ensures IsSpace(s[m..][k]) {
        if m + k < |s| - 1 { assert s[m..][k] == p[m..][k]; }
      }
    }
  }

  /** `str.strip()`: the result has no whitespace at either end. */
  function Strip(s: string): (r: string)
    ensures IsTrimmed(r) && |r| <= |s|
  {
    RStrip(LStrip(s))
  }

  /** `str.strip()` yields a slice of `s`, and everything cut off on either side is whitespace. */
  lemma StripIsSlice(s: string)
    ensures var r := Strip(s);
      exists i :: 0 <= i && i + |r| <= |s| && r == s[i..i + |r|] &&
                  AllSpace(s[..i]) && AllSpace(s[i + |r|..])
  {
    var l := LStrip(s);
    var r := RStrip(l);
    var i := |s| - |l|;
    LStripRemovesSpace(s);
    RStripRemovesSpace(l);
    assert l == s[i..];
    assert r == s[i..i + |r|];
    assert s[i + |r|..] == l[|r|..];
    assert AllSpace(s[..i]) && AllSpace(s[i + |r|..]);
  }

  /** A string strips to nothing exactly when it is all whitespace. */
  lemma StripBlank(s: string)
    ensures Strip(s) == [] <==> AllSpace(s)
  {
    var l := LStrip(s);
    LStripRemovesSpace(s);
    if !AllSpace(s) {
      RStripRemovesSpace(l);
    }
  }

  /** Stripping an already trimmed string leaves it unchanged. */
  lemma StripOfTrimmed(s: string)
    requires IsTrimmed(s)
    ensures Strip(s) == s
  {
  }

  /** `str.strip()` is idempotent. */
  lemma StripIdempotent(s: string)
    ensures Strip(Strip(s)) == Strip(s)
  {
    StripOfTrimmed(Strip(s));
  }

  /** Whether the case of `s[k]` is decided by a letter before it. */
  predicate FollowsLetter(s: string, k: int, afterLetter: bool)
    requires 0 <= k < |s|
  {
    if k == 0 then afterLetter else IsLetter(s[k - 1])
  }

  /** `str.title()` continued from a position whose predecessor was (`afterLetter`) or was not a letter. */
  function TitleFrom(s: string, afterLetter: bool): (r: string)
    ensures |r| == |s|
  {
    if s == [] then []
    else
      var head := if afterLetter then ToLower(s[0]) else ToUpper(s[0]);
      [head] + TitleFrom(s[1..], IsLetter(s[0]))
  }

  /** Each character's case is set by whether a letter precedes it. */
  lemma {:induction false} TitleFromAt(s: string, afterLetter: bool, k: int)
    requires 0 <= k < |s|
    ensures TitleFrom(s, afterLetter)[k] == if FollowsLetter(s, k, afterLetter) then ToLower(s[k]) else ToUpper(s[k])
    decreases k
  {
    if k > 0 {
      TitleFromAt(s[1..], IsLetter(s[0]), k - 1);
      assert s[1..][k - 1] == s[k];
      if k > 1 { assert s[1..][k - 2] == s[k - 1]; }
    }
  }

  /** `str.title()`. */
  function Title(s: string): (r: string)
    ensures |r| == |s|
  {
    TitleFrom(s, false)
  }

  /** Every letter is upper-case at the start of a word and lower-case inside one. */
  predicate IsTitleCased(t: string)
  {
    forall k :: 0 <= k < |t| && IsLetter(t[k]) ==>
      if FollowsLetter(t, k, false) then IsLower(t[k]) else IsUpper(t[k])
  }

  /** Title-casing keeps letters letters and leaves every other character where it was. */
  lemma {:induction false} TitleAt(s: string, k: int)
    requires 0 <= k < |s|
    ensures Title(s)[k] == if FollowsLetter(s, k, false) then ToLower(s[k]) else ToUpper(s[k])
    ensures IsLetter(Title(s)[k]) <==> IsLetter(s[k])
    ensures !IsLetter(s[k]) ==> Title(s)[k] == s[k]
  {
    TitleFromAt(s, false, k);
  }

  lemma TitleIsTitleCased(s: string)
    ensures IsTitleCased(Title(s))
  {
    var t := Title(s);
    forall k | 0 <= k < |t| && IsLetter(t[k])
      ensures if FollowsLetter(t, k, false) then IsLower(t[k]) else IsUpper(t[k])
    {
      TitleAt(s, k);
      if k > 0 { TitleAt(s, k - 1); }
    }
  }

  /** The title-cased strings are exactly the fixed points of `str.title()`. */
  lemma TitleFixedPoints(t: string)
    ensures IsTitleCased(t) <==> Title(t) == t
  {
    if IsTitleCased(t) {
      forall k | 0 <= k < |t| ensures Title(t)[k] == t[k] {
        TitleAt(t, k);
      }
    } else {
      TitleIsTitleCased(t);
    }
  }

  /** `str.title()` is idempotent. */
  lemma TitleIdempotent(s: string)
    ensures Title(Title(s)) == Title(s)
  {
    TitleIsTitleCased(s);
    TitleFixedPoints(Title(s));
  }

  /** Title-casing a trimmed string leaves it trimmed: whitespace is never a letter. */
  lemma TitleKeepsTrimmed(s: string)
    requires IsTrimmed(s)
    ensures IsTrimmed(Title(s))
  {
    if s != [] {
      var t := Title(s);
      TitleAt(s, 0);
      TitleAt(s, |s| - 1);
      assert !IsLetter(s[0]) ==> t[0] == s[0];
      assert !IsLetter(s[|s| - 1]) ==> t[|s| - 1] == s[|s| - 1];
      LetterIsNotSpace(t[0]);
      LetterIsNotSpace(t[|s| - 1]);
    }
  }

  lemma LetterIsNotSpace(c: char)
    ensures IsLetter(c) ==> !IsSpace(c)
  {
  }

  /** The example of the data-cleaning rules: a padded lower-case genre. */
  lemma GenreExample()
    ensures Title(Strip("  sci-fi  ")) == "Sci-Fi"
  {
    StripExample();
    TitleExample();
  }

  lemma StripExample()
    ensures Strip("  sci-fi  ") == "sci-fi"
  {
    LStripExample();
    RStripExample();
  }

  lemma LStripExample()
    ensures LStrip("  sci-fi  ") == "sci-fi  "
  {
    var s0, s1, s2 := "  sci-fi  ", " sci-fi  ", "sci-fi  ";
    assert s0[1..] == s1 && s1[1..] == s2;
    assert IsSpace(s0[0]) && IsSpace(s1[0]) && !IsSpace(s2[0]);
    assert LStrip(s2) == s2;
    assert LStrip(s1) == s2;
  }

  lemma RStripExample()
    ensures RStrip("sci-fi  ") == "sci-fi"
  {
    var s2, r1, r2 := "sci-fi  ", "sci-fi ", "sci-fi";
    assert s2[..|s2| - 1] == r1 && r1[..|r1| - 1] == r2;
    assert IsSpace(s2[|s2| - 1]) && IsSpace(r1[|r1| - 1]) && !IsSpace(r2[|r2| - 1]);
    assert RStrip(r2) == r2;
    assert RStrip(r1) == r2;
  }

  lemma TitleExample()
    ensures Title("sci-fi") == "Sci-Fi"
  {
    var s := "sci-fi";
    var t := Title(s);
    forall k | 0 <= k < 6 ensures t[k] == "Sci-Fi"[k] {
      TitleAt(s, k);
    }
  }

  function Digit(d: nat): (c: char)
    requires d < 10
  {
    "0123456789"[d]
  }

  /** `str()` of a non-negative integer: its decimal digits, most significant first. */
  function NatToText(n: nat): (r: string)
    ensures |r| >= 1
    ensures forall k :: 0 <= k < |r| ==> '0' <= r[k] <= '9'
    decreases n
  {
    if n < 10 then [Digit(n)] else NatToText(n / 10) + [Digit(n % 10)]
  }

  /** `str()` of an integer: a minus sign for negatives, then the digits. */
  function IntToText(i: int): (r: string)
    ensures r != [] && IsTrimmed(r)
  {
    if i < 0 then "-" + NatToText(-i) else NatToText(i)
  }
}
