/**
 * Plain text operations the program borrows from Python's `str`:
 * whitespace stripping (`str.strip()` with no argument), prefix tests
 * (`str.startswith`) and literal substring search, which is what a regular
 * expression made only of literal tags reduces to.
 */
module Text {
  import opened Wrappers

  /** The characters Python's `str.isspace()` accepts. */
  predicate IsSpace(c: char)
  {
    || c == ' ' || c == '\t' || c == '\n' || c == '\r'
    || c == '\U{B}' || c == '\U{C}'
    || ('\U{1C}' <= c <= '\U{1F}')
    || c == '\U{85}' || c == '\U{A0}' || c == '\U{1680}'
    || ('\U{2000}' <= c <= '\U{200A}')
    || c == '\U{2028}' || c == '\U{2029}' || c == '\U{202F}' || c == '\U{205F}' || c == '\U{3000}'
  }

  predicate AllSpace(s: string)
  {
    forall k :: 0 <= k < |s| ==> IsSpace(s[k])
  }

  /** Neither begins nor ends with whitespace: what `strip()` leaves. */
  predicate Trimmed(s: string)
  {
    s == [] || (!IsSpace(s[0]) && !IsSpace(s[|s| - 1]))
  }

  /** `str.lstrip()`: drops the whitespace the text starts with. */
  function TrimLeft(s: string): (r: string)
    ensures |r| <= |s|
    ensures r == [] || !IsSpace(r[0])
    decreases |s|
  {
    if |s| > 0 && IsSpace(s[0]) then TrimLeft(s[1..]) else s
  }

  /** `str.rstrip()`: drops the whitespace the text ends with. */
  function TrimRight(s: string): (r: string)
    ensures |r| <= |s| && r == s[..|r|]
    ensures r == [] || !IsSpace(r[|r| - 1])
    decreases |s|
  {
    if |s| > 0 && IsSpace(s[|s| - 1]) then TrimRight(s[..|s| - 1]) else s
  }

  /**
   * `str.strip()`: the text with its leading and trailing whitespace removed.
   * The result is a piece of `s` cut out between two all-whitespace borders,
   * and it can no longer be stripped.
   */
  function Strip(s: string): (r: string)
    ensures Trimmed(r) && |r| <= |s|
  {
    TrimRight(TrimLeft(s))
  }

  /** `lstrip()` drops whitespace only, and keeps the rest of the text. */
  lemma {:induction false} TrimLeftPiece(s: string)
    ensures TrimLeft(s) == s[|s| - |TrimLeft(s)|..]
    ensures AllSpace(s[..|s| - |TrimLeft(s)|])
    decreases |s|
  {
    if |s| > 0 && IsSpace(s[0]) {
      TrimLeftPiece(s[1..]);
      var d := |s| - |TrimLeft(s)|;
      assert s[1..][d - 1..] == s[d..];
      forall m | 0 <= m < d ensures IsSpace(s[m]) {
        if m > 0 {
          assert s[1..][..d - 1][m - 1] == s[m];
        }
      }
    }
  }

  /** `rstrip()` drops whitespace only. */
  lemma {:induction false} TrimRightPiece(s: string)
    ensures AllSpace(s[|TrimRight(s)|..])
    decreases |s|
  {
    if |s| > 0 && IsSpace(s[|s| - 1]) {
      TrimRightPiece(s[..|s| - 1]);
      var n := |TrimRight(s)|;
      forall m | n <= m < |s| ensures IsSpace(s[m]) {
        if m < |s| - 1 {
          assert s[..|s| - 1][n..][m - n] == s[m];
        }
      }
    }
  }

  /** What `strip()` keeps is a piece of the text between two all-whitespace borders. */
  lemma {:induction false} StripPiece(s: string)
    ensures exists i :: 0 <= i && i + |Strip(s)| <= |s| && Strip(s) == s[i..i + |Strip(s)|]
                        && AllSpace(s[..i]) && AllSpace(s[i + |Strip(s)|..])
  {
    var l := TrimLeft(s);
    var r := TrimRight(l);
    var i := |s| - |l|;
    TrimLeftPiece(s);
    TrimRightPiece(l);
    assert r == s[i..i + |r|];
    assert s[i + |r|..] == l[|r|..];
    assert AllSpace(s[..i]) && AllSpace(s[i + |r|..]);
  }

  lemma {:induction false} TrimLeftSpaces(w: string, x: string)
    requires AllSpace(w)
    ensures TrimLeft(w + x) == TrimLeft(x)
    decreases |w|
  {
    if |w| > 0 {
      assert (w + x)[1..] == w[1..] + x;
      TrimLeftSpaces(w[1..], x);
    } else {
      assert w + x == x;
    }
  }

  lemma {:induction false} TrimRightSpaces(x: string, w: string)
    requires AllSpace(w)
    ensures TrimRight(x + w) == TrimRight(x)
    decreases |w|
  {
    if |w| > 0 {
      assert (x + w)[..|x + w| - 1] == x + w[..|w| - 1];
      TrimRightSpaces(x, w[..|w| - 1]);
    } else {
      assert x + w == x;
    }
  }

  /** Stripping undoes padding a trimmed text with whitespace on both sides. */
  lemma {:induction false} StripPadded(w1: string, u: string, w2: string)
    requires AllSpace(w1) && AllSpace(w2) && Trimmed(u)
    ensures Strip(w1 + u + w2) == u
  {
    assert w1 + u + w2 == w1 + (u + w2);
    TrimLeftSpaces(w1, u + w2);
    if u == [] {
      assert u + w2 == w2 + [];
      TrimLeftSpaces(w2, []);
    } else {
      assert TrimLeft(u + w2) == u + w2;
      TrimRightSpaces(u, w2);
    }
  }

  /** A trimmed text is left alone by `strip()`; in particular `strip()` is idempotent. */
  lemma {:induction false} StripTrimmed(u: string)
    requires Trimmed(u)
    ensures Strip(u) == u
  {
    assert [] + u + [] == u;
    StripPadded([], u, []);
  }

  lemma {:induction false} StripIdempotent(s: string)
    ensures Strip(Strip(s)) == Strip(s)
  {
    StripTrimmed(Strip(s));
  }

  /** `s.startswith(p)`. */
  predicate StartsWith(s: string, p: string)
  {
    |p| <= |s| && s[..|p|] == p
  }

  // ---------------------------------------------------------------------
  // Literal substring search
  // ---------------------------------------------------------------------

  /** `pat` occurs in `s` starting at index `k`. */
  predicate OccursAt(s: string, pat: string, k: int)
  {
    0 <= k && k + |pat| <= |s| && s[k..k + |pat|] == pat
  }

  /** No occurrence of `pat` in `s` starts at an index in `[a, b)`. */
  ghost predicate NoneIn(s: string, pat: string, a: int, b: int)
  {
    forall k :: a <= k < b ==> !OccursAt(s, pat, k)
  }

  /** `pat` occurs nowhere in `s`. */
  ghost predicate NoOcc(s: string, pat: string)
  {
    NoneIn(s, pat, 0, |s| + 1)
  }

  /** Searching `s` for `pat` from index `k` on, the first occurrence starts at `n`. */
  ghost predicate FirstFrom(s: string, pat: string, k: int, n: int)
  {
    k <= n && OccursAt(s, pat, n) && NoneIn(s, pat, k, n)
  }

  /** `s[k..]` starts with `pat`, compared character by character from the `m`-th on. */
  predicate MatchesFrom(s: string, pat: string, k: nat, m: nat)
    requires k + |pat| <= |s| && m <= |pat|
    decreases |pat| - m
  {
    m == |pat| || (s[k + m] == pat[m] && MatchesFrom(s, pat, k, m + 1))
  }

  /** The character-by-character comparison compares the slices. */
  lemma {:induction false} MatchesFromSpec(s: string, pat: string, k: nat, m: nat)
    requires k + |pat| <= |s| && m <= |pat|
    ensures MatchesFrom(s, pat, k, m) <==> s[k + m..k + |pat|] == pat[m..]
    decreases |pat| - m
  {
    if m < |pat| {
      MatchesFromSpec(s, pat, k, m + 1);
      assert s[k + m..k + |pat|] == [s[k + m]] + s[k + m + 1..k + |pat|];
      assert pat[m..] == [pat[m]] + pat[m + 1..];
    }
  }

  /** The whole comparison is an occurrence test. */
  lemma {:induction false} MatchesOccurs(s: string, pat: string, k: nat)
    requires k + |pat| <= |s|
    ensures MatchesFrom(s, pat, k, 0) <==> OccursAt(s, pat, k)
  {
    MatchesFromSpec(s, pat, k, 0);
    assert pat[0..] == pat;
  }

  /**
   * `s.find(pat, k)` as an option: the first index at or after `k` where
   * `pat` occurs in `s`, or None when there is none.
   */
  function IndexFrom(s: string, pat: string, k: nat): (r: Option<nat>)
    ensures r.Some? ==> k <= r.value && r.value + |pat| <= |s|
    decreases |s| - k
  {
    if |s| < k + |pat| then None
    else if MatchesFrom(s, pat, k, 0) then Some(k)
    else IndexFrom(s, pat, k + 1)
  }

  /** IndexFrom finds the first occurrence from `k` on, and none only when there is none. */
  lemma {:induction false} IndexFromSpec(s: string, pat: string, k: nat)
    ensures IndexFrom(s, pat, k).Some? ==> FirstFrom(s, pat, k, IndexFrom(s, pat, k).value)
    ensures IndexFrom(s, pat, k).None? <==> NoneIn(s, pat, k, |s| + 1)
    decreases |s| - k
  {
    if |s| >= k + |pat| {
      MatchesOccurs(s, pat, k);
      if !MatchesFrom(s, pat, k, 0) {
        IndexFromSpec(s, pat, k + 1);
      }
    }
  }

  /** Helper: the index IndexFrom reports is that of the first occurrence from `k` on. */
  lemma {:induction false} IndexFromFound(s: string, pat: string, k: nat, n: nat)
    requires IndexFrom(s, pat, k).Some? && n == IndexFrom(s, pat, k).value
    ensures FirstFrom(s, pat, k, n)
  {
    IndexFromSpec(s, pat, k);
  }

  /** Helper: where IndexFrom reports an index, the pattern does occur. */
  lemma {:induction false} IndexFromOccurs(s: string, pat: string, k: nat, n: nat)
    requires IndexFrom(s, pat, k) == Some(n)
    ensures OccursAt(s, pat, n)
  {
    IndexFromSpec(s, pat, k);
  }

  /** Occurrences in a suffix are occurrences in the whole text, moved. */
  lemma {:induction false} OccursInSuffix(s: string, pat: string, a: nat, k: int)
    requires a <= |s| && 0 <= k
    ensures OccursAt(s[a..], pat, k) <==> OccursAt(s, pat, a + k)
  {
    if 0 <= k && k + |pat| <= |s| - a {
      assert s[a..][k..k + |pat|] == s[a + k..a + k + |pat|];
    }
  }

  /** The first occurrence from `k` on is the one IndexFrom reports. */
  lemma {:induction false} IndexFromFirst(s: string, pat: string, k: nat, n: nat)
    requires FirstFrom(s, pat, k, n)
    ensures IndexFrom(s, pat, k) == Some(n)
  {
    IndexFromSpec(s, pat, k);
    assert !NoneIn(s, pat, k, |s| + 1) by {
      assert k <= n < |s| + 1 && OccursAt(s, pat, n);
    }
    var m := IndexFrom(s, pat, k).value;
    assert !(m < n) by { assert !OccursAt(s, pat, m) || !(k <= m < n); }
    assert !(n < m) by { assert !OccursAt(s, pat, n) || !(k <= n < m); }
  }

  /** With no occurrence from `k` on, IndexFrom reports none. */
  lemma {:induction false} IndexFromNone(s: string, pat: string, k: nat)
    requires NoneIn(s, pat, k, |s| + 1)
    ensures IndexFrom(s, pat, k) == None
  {
    IndexFromSpec(s, pat, k);
  }

  /** Skipping a stretch without occurrences does not change what IndexFrom finds. */
  lemma {:induction false} IndexFromSkip(s: string, pat: string, a: nat, b: nat)
    requires a <= b && NoneIn(s, pat, a, b)
    ensures IndexFrom(s, pat, a) == IndexFrom(s, pat, b)
  {
    IndexFromSpec(s, pat, b);
    if IndexFrom(s, pat, b).Some? {
      IndexFromFirst(s, pat, a, IndexFrom(s, pat, b).value);
    } else {
      IndexFromNone(s, pat, a);
    }
  }

  /** Searching `x + y` past `x` is searching `y`, moved by `|x|`. */
  lemma {:induction false} IndexFromShift(x: string, y: string, pat: string, k: nat)
    ensures IndexFrom(x + y, pat, |x| + k)
            == if IndexFrom(y, pat, k).None? then None else Some(|x| + IndexFrom(y, pat, k).value)
    decreases |y| - k
  {
    var s := x + y;
    if |y| >= k + |pat| {
      MatchesOccurs(s, pat, |x| + k);
      MatchesOccurs(y, pat, k);
      assert s[|x|..] == y;
      OccursInSuffix(s, pat, |x|, k);
      if !MatchesFrom(y, pat, k, 0) {
        IndexFromShift(x, y, pat, k + 1);
      }
    }
  }

  /** IndexFromShift, when searching `y` finds `pat` at `i`. */
  lemma {:induction false} IndexFromShiftSome(x: string, y: string, pat: string, k: nat, i: nat)
    requires IndexFrom(y, pat, k) == Some(i)
    ensures IndexFrom(x + y, pat, |x| + k) == Some(|x| + i)
  {
    IndexFromShift(x, y, pat, k);
  }

  /** IndexFromShift, when searching `y` finds nothing. */
  lemma {:induction false} IndexFromShiftNone(x: string, y: string, pat: string, k: nat)
    requires IndexFrom(y, pat, k).None?
    ensures IndexFrom(x + y, pat, |x| + k).None?
  {
    IndexFromShift(x, y, pat, k);
  }

  /** A text that lacks one of the characters of `pat` cannot contain `pat`. */
  lemma {:induction false} NoOccMissingChar(s: string, pat: string, c: char)
    requires c in pat && c !in s
    ensures NoOcc(s, pat)
  {
    var m :| 0 <= m < |pat| && pat[m] == c;
    forall k | 0 <= k < |s| + 1 ensures !OccursAt(s, pat, k) {
      if k + |pat| <= |s| {
        assert s[k..k + |pat|][m] == s[k + m] != c;
      }
    }
  }

  /**
   * A stretch `s[a..b]` free of a tag without newlines, followed by a newline
   * or by the end of `s`: no occurrence starts in it.
   */
  lemma {:induction false} NoneInSegment(s: string, pat: string, a: nat, b: nat)
    requires '\n' !in pat
    requires a <= b <= |s| && NoOcc(s[a..b], pat)
    requires b == |s| || s[b] == '\n'
    ensures NoneIn(s, pat, a, b)
  {
    var w := s[a..b];
    forall k | a <= k < b ensures !OccursAt(s, pat, k) {
      if k + |pat| <= b {
        SliceOfSlice(s, a, b, k - a, k - a + |pat|);
        assert !OccursAt(w, pat, k - a);
      } else if k + |pat| <= |s| {
        assert s[k..k + |pat|][b - k] == '\n' != pat[b - k];
      }
    }
  }

  /** Helper: a slice of a slice is a slice. */
  lemma {:induction false} SliceOfSlice(s: string, a: nat, b: nat, i: nat, j: nat)
    requires a <= b <= |s| && i <= j <= b - a
    ensures s[a..b][i..j] == s[a + i..a + j]
  {
    forall m | 0 <= m < j - i ensures s[a..b][i..j][m] == s[a + i..a + j][m] {
      assert s[a..b][i..j][m] == s[a..b][i + m] == s[a + i + m];
    }
  }

  /**
   * Two texts free of a tag without newlines stay free of it once joined,
   * when a newline sits at the seam.
   */
  lemma {:induction false} NoOccSeam(x: string, y: string, pat: string)
    requires '\n' !in pat && NoOcc(x, pat) && NoOcc(y, pat)
    requires (|x| > 0 && x[|x| - 1] == '\n') || (|y| > 0 && y[0] == '\n')
    ensures NoOcc(x + y, pat)
  {
    var s := x + y;
    forall k | 0 <= k < |s| + 1 ensures !OccursAt(s, pat, k) {
      if k + |pat| <= |x| {
        assert s[k..k + |pat|] == x[k..k + |pat|];
        assert !OccursAt(x, pat, k) || !(0 <= k < |x| + 1);
      } else if k >= |x| {
        if k + |pat| <= |s| {
          assert s[k..k + |pat|] == y[k - |x|..k - |x| + |pat|];
        }
        assert !OccursAt(y, pat, k - |x|) || !(0 <= k - |x| < |y| + 1);
      } else if k + |pat| <= |s| {
        if |x| > 0 && x[|x| - 1] == '\n' {
          assert s[k..k + |pat|][|x| - 1 - k] == '\n' != pat[|x| - 1 - k];
        } else {
          assert s[k..k + |pat|][|x| - k] == '\n' != pat[|x| - k];
        }
      }
    }
  }

  /**
   * In `w + z`, no occurrence of a tag without newlines starts inside `w`
   * when `w` is free of it and ends with a newline.
   */
  lemma {:induction false} NoneInFront(w: string, z: string, pat: string)
    requires '\n' !in pat && NoOcc(w, pat)
    requires w == [] || w[|w| - 1] == '\n'
    ensures NoneIn(w + z, pat, 0, |w|)
  {
    var s := w + z;
    forall k | 0 <= k < |w| ensures !OccursAt(s, pat, k) {
      if k + |pat| <= |w| {
        assert s[k..k + |pat|] == w[k..k + |pat|];
        assert !OccursAt(w, pat, k) || !(0 <= k < |w| + 1);
      } else if k + |pat| <= |s| {
        assert s[k..k + |pat|][|w| - 1 - k] == '\n' != pat[|w| - 1 - k];
      }
    }
  }

  /** Stretches without occurrences in `y` stay so in `x + y`, moved by `|x|`. */
  lemma {:induction false} NoneInShift(x: string, y: string, pat: string, a: nat, b: int)
    requires NoneIn(y, pat, a, b)
    ensures NoneIn(x + y, pat, |x| + a, |x| + b)
  {
    var s := x + y;
    assert s[|x|..] == y;
    forall k | |x| + a <= k < |x| + b ensures !OccursAt(s, pat, k) {
      OccursInSuffix(s, pat, |x|, k - |x|);
      assert !OccursAt(y, pat, k - |x|) || !(a <= k - |x| < b);
    }
  }
}
