/**
 * Scanning a text for spans `open … close` between two literal tags, as
 * Python's `re.findall` and `re.sub` do with a pattern of the form
 * `OPEN(.*?)CLOSE` compiled with `re.S`: the search begins at the leftmost
 * opening tag, the lazy `.*?` (which with `re.S` also crosses newlines) stops
 * at the first closing tag after it, and the next search resumes right after
 * that closing tag. An opening tag with no closing tag after it ends the
 * scan: no later opening tag can have one either.
 *
 * The scan works on positions only; the captured texts and the pieces
 * between matches are cut out of the text afterwards.
 */
module TagScan {
  import opened Wrappers
  import opened Text

  /**
   * One match: its inner text is `s[start..stop]`, so the opening tag ends
   * at `start` and the closing tag begins at `stop`.
   */
  datatype Match = Match(start: nat, stop: nat)

  /** The matches, from `from` on, come in order inside a text of length `n`, each with room for its tags. */
  predicate Ordered(ms: seq<Match>, from: nat, n: nat, openLen: nat, closeLen: nat)
    decreases |ms|
  {
    if ms == [] then from <= n
    else
      && from + openLen <= ms[0].start <= ms[0].stop
      && ms[0].stop + closeLen <= n
      && Ordered(ms[1..], ms[0].stop + closeLen, n, openLen, closeLen)
  }

  /** Every match cuts a well-formed slice out of a text of length `n`. */
  predicate InText(ms: seq<Match>, n: nat)
    decreases |ms|
  {
    ms == [] || (ms[0].start <= ms[0].stop <= n && InText(ms[1..], n))
  }

  /** The matches of the scan of `s` from index `from` on, left to right. */
  function Scan(s: string, open: string, close: string, from: nat): seq<Match>
    requires |open| > 0 && from <= |s|
    decreases |s| - from
  {
    match IndexFrom(s, open, from)
    case None => []
    case Some(i) =>
      match IndexFrom(s, close, i + |open|)
      case None => []
      case Some(j) => [Match(i + |open|, j)] + Scan(s, open, close, j + |close|)
  }

  /** The inner texts of the matches, in order. */
  function Captures(s: string, ms: seq<Match>): (r: seq<string>)
    requires InText(ms, |s|)
    ensures |r| == |ms|
    decreases |ms|
  {
    if ms == [] then [] else [s[ms[0].start..ms[0].stop]] + Captures(s, ms[1..])
  }

  /** `re.findall(open + "(.*?)" + close, s, re.S)` for literal tags. */
  function FindAll(s: string, open: string, close: string): seq<string>
    requires |open| > 0
  {
    ScanInText(s, open, close, 0);
    Captures(s, Scan(s, open, close, 0))
  }

  /**
   * The text from `from` on with every match, tags included, replaced by `f`
   * applied to its inner text.
   */
  function Sub(s: string, ms: seq<Match>, from: nat, openLen: nat, closeLen: nat, f: string -> string): string
    requires Ordered(ms, from, |s|, openLen, closeLen)
    decreases |ms|
  {
    if ms == [] then s[from..]
    else s[from..ms[0].start - openLen] + f(s[ms[0].start..ms[0].stop])
         + Sub(s, ms[1..], ms[0].stop + closeLen, openLen, closeLen, f)
  }

  /** The substitution of the spans of `s` from index `from` on. */
  function ReplaceFrom(s: string, open: string, close: string, from: nat, f: string -> string): string
    requires |open| > 0 && from <= |s|
  {
    ScanOrdered(s, open, close, from);
    Sub(s, Scan(s, open, close, from), from, |open|, |close|, f)
  }

  /**
   * `re.sub(open + "(.*?)" + close, lambda m: f(m.group(1)), s, flags=re.S)`
   * for literal tags: a text without a complete span comes back unchanged.
   */
  function Replace(s: string, open: string, close: string, f: string -> string): (r: string)
    requires |open| > 0
    ensures NoSpanFrom(s, open, close, 0) ==> r == s
  {
    NoSpanKept(s, open, close, f);
    ReplaceFrom(s, open, close, 0, f)
  }

  // ---------------------------------------------------------------------
  // One step of the scan
  // ---------------------------------------------------------------------

  /** A scan that finds no opening tag, or one without a closing tag, ends there. */
  lemma {:induction false} ScanUnclosed(s: string, open: string, close: string, from: nat)
    requires |open| > 0 && from <= |s|
    ensures IndexFrom(s, open, from).None? ==> Scan(s, open, close, from) == []
    ensures IndexFrom(s, open, from).Some?
            && IndexFrom(s, close, IndexFrom(s, open, from).value + |open|).None?
            ==> Scan(s, open, close, from) == []
  {
  }

  /** A scan that finds a match goes on right after its closing tag. */
  lemma {:induction false} ScanStep(s: string, open: string, close: string, from: nat, i: nat, j: nat)
    requires |open| > 0 && from <= |s|
    requires IndexFrom(s, open, from) == Some(i)
    requires IndexFrom(s, close, i + |open|) == Some(j)
    ensures j + |close| <= |s|
    ensures Scan(s, open, close, from) == [Match(i + |open|, j)] + Scan(s, open, close, j + |close|)
  {
  }

  /** ScanStep, with the end of the opening tag and the resumption point given by name. */
  lemma {:induction false} ScanStepAt(s: string, open: string, close: string, from: nat, i: nat, a: nat, j: nat, n: nat)
    requires |open| > 0 && from <= |s| && a == i + |open| && n == j + |close|
    requires IndexFrom(s, open, from) == Some(i)
    requires IndexFrom(s, close, a) == Some(j)
    ensures n <= |s|
    ensures Scan(s, open, close, from) == [Match(a, j)] + Scan(s, open, close, n)
  {
    ScanStep(s, open, close, from, i, j);
  }

  /**
   * The match the scan makes once an opening tag is first from `from` on at
   * `i`, and a closing tag first from its end on at `j`.
   */
  lemma {:induction false} ScanMatch(s: string, open: string, close: string, from: nat, i: nat, j: nat)
    requires |open| > 0 && from <= |s|
    requires FirstFrom(s, open, from, i) && FirstFrom(s, close, i + |open|, j)
    ensures j + |close| <= |s|
    ensures Scan(s, open, close, from) == [Match(i + |open|, j)] + Scan(s, open, close, j + |close|)
  {
    IndexFromFirst(s, open, from, i);
    IndexFromFirst(s, close, i + |open|, j);
    ScanStep(s, open, close, from, i, j);
  }

  /** With no opening tag from `from` on, the scan finds nothing more. */
  lemma {:induction false} ScanEnd(s: string, open: string, close: string, from: nat)
    requires |open| > 0 && from <= |s|
    requires NoneIn(s, open, from, |s| + 1)
    ensures Scan(s, open, close, from) == []
  {
    IndexFromNone(s, open, from);
    ScanUnclosed(s, open, close, from);
  }

  /** Skipping a stretch without opening tags does not change the scan. */
  lemma {:induction false} ScanSkip(s: string, open: string, close: string, a: nat, b: nat)
    requires |open| > 0 && a <= b <= |s|
    requires NoneIn(s, open, a, b)
    ensures Scan(s, open, close, a) == Scan(s, open, close, b)
  {
    IndexFromSkip(s, open, a, b);
    ScanUnclosed(s, open, close, a);
    ScanUnclosed(s, open, close, b);
    if IndexFrom(s, open, b).Some? {
      var i := IndexFrom(s, open, b).value;
      if IndexFrom(s, close, i + |open|).Some? {
        var j := IndexFrom(s, close, i + |open|).value;
        ScanStep(s, open, close, a, i, j);
        ScanStep(s, open, close, b, i, j);
      }
    }
  }

  // ---------------------------------------------------------------------
  // The matches are in order
  // ---------------------------------------------------------------------

  /** The matches of a scan come in order, with room for their tags. */
  lemma {:induction false} ScanOrdered(s: string, open: string, close: string, from: nat)
    requires |open| > 0 && from <= |s|
    ensures Ordered(Scan(s, open, close, from), from, |s|, |open|, |close|)
    decreases |s| - from
  {
    match IndexFrom(s, open, from)
    case None => ScanUnclosed(s, open, close, from);
    case Some(i) =>
      match IndexFrom(s, close, i + |open|)
      case None => ScanUnclosed(s, open, close, from);
      case Some(j) =>
        ScanOrdered(s, open, close, j + |close|);
        ScanOrderedStep(s, open, close, from, i, j);
  }

  /** Helper for ScanOrdered: one match, and the matches after it in order. */
  lemma {:induction false} ScanOrderedStep(s: string, open: string, close: string, from: nat, i: nat, j: nat)
    requires |open| > 0 && from <= |s|
    requires IndexFrom(s, open, from) == Some(i)
    requires IndexFrom(s, close, i + |open|) == Some(j)
    requires j + |close| <= |s|
    requires Ordered(Scan(s, open, close, j + |close|), j + |close|, |s|, |open|, |close|)
    ensures Ordered(Scan(s, open, close, from), from, |s|, |open|, |close|)
  {
    ScanStep(s, open, close, from, i, j);
    OrderedCons(Match(i + |open|, j), Scan(s, open, close, j + |close|), from, |s|, |open|, |close|);
  }

  /** Helper: matches in order, with one more in front. */
  lemma {:induction false} OrderedCons(m: Match, ms: seq<Match>, from: nat, n: nat, openLen: nat, closeLen: nat)
    requires from + openLen <= m.start <= m.stop && m.stop + closeLen <= n
    requires Ordered(ms, m.stop + closeLen, n, openLen, closeLen)
    ensures Ordered([m] + ms, from, n, openLen, closeLen)
  {
    assert ([m] + ms)[1..] == ms;
  }

  /** Matches in order cut well-formed slices. */
  lemma {:induction false} OrderedInText(ms: seq<Match>, from: nat, n: nat, openLen: nat, closeLen: nat)
    requires Ordered(ms, from, n, openLen, closeLen)
    ensures InText(ms, n)
    decreases |ms|
  {
    if ms != [] {
      OrderedInText(ms[1..], ms[0].stop + closeLen, n, openLen, closeLen);
    }
  }

  /** The matches of a scan cut well-formed slices. */
  lemma {:induction false} ScanInText(s: string, open: string, close: string, from: nat)
    requires |open| > 0 && from <= |s|
    ensures InText(Scan(s, open, close, from), |s|)
  {
    ScanOrdered(s, open, close, from);
    OrderedInText(Scan(s, open, close, from), from, |s|, |open|, |close|);
  }

  // ---------------------------------------------------------------------
  // The scan is the leftmost, lazy one
  // ---------------------------------------------------------------------

  /** No opening tag from `from` on has a closing tag at or after its end. */
  ghost predicate NoSpanFrom(s: string, open: string, close: string, from: int)
  {
    forall i, j :: from <= i && OccursAt(s, open, i) && i + |open| <= j ==> !OccursAt(s, close, j)
  }

  /**
   * `ms` is what a leftmost, lazy scan from `from` on finds: each match's
   * opening tag is the first one after the previous match, its closing tag
   * the first one after that, and after the last match no span is left.
   */
  ghost predicate LeftmostLazy(s: string, open: string, close: string, ms: seq<Match>, from: int)
    decreases |ms|
  {
    if ms == [] then NoSpanFrom(s, open, close, from)
    else
      && FirstFrom(s, open, from, ms[0].start - |open|)
      && FirstFrom(s, close, ms[0].start, ms[0].stop)
      && LeftmostLazy(s, open, close, ms[1..], ms[0].stop + |close|)
  }

  /** The scan is a leftmost, lazy scan. */
  lemma {:induction false} ScanLeftmostLazy(s: string, open: string, close: string, from: nat)
    requires |open| > 0 && from <= |s|
    ensures LeftmostLazy(s, open, close, Scan(s, open, close, from), from)
    decreases |s| - from
  {
    match IndexFrom(s, open, from)
    case None => ScanLazyNone(s, open, close, from);
    case Some(i) =>
      match IndexFrom(s, close, i + |open|)
      case None => ScanLazyUnclosed(s, open, close, from, i);
      case Some(j) =>
        ScanLeftmostLazy(s, open, close, j + |close|);
        ScanLazyStep(s, open, close, from, i, j);
  }

  /** Helper for ScanLeftmostLazy: no opening tag is left. */
  lemma {:induction false} ScanLazyNone(s: string, open: string, close: string, from: nat)
    requires |open| > 0 && from <= |s|
    requires IndexFrom(s, open, from).None?
    ensures LeftmostLazy(s, open, close, Scan(s, open, close, from), from)
  {
    ScanUnclosed(s, open, close, from);
    IndexFromSpec(s, open, from);
    forall i | from <= i ensures !OccursAt(s, open, i) {
      assert !OccursAt(s, open, i) || !(from <= i < |s| + 1);
    }
  }

  /** Helper for ScanLeftmostLazy: the first opening tag left is not closed. */
  lemma {:induction false} ScanLazyUnclosed(s: string, open: string, close: string, from: nat, i: nat)
    requires |open| > 0 && from <= |s|
    requires IndexFrom(s, open, from) == Some(i)
    requires IndexFrom(s, close, i + |open|).None?
    ensures LeftmostLazy(s, open, close, Scan(s, open, close, from), from)
  {
    ScanUnclosed(s, open, close, from);
    IndexFromFound(s, open, from, i);
    IndexFromSpec(s, close, i + |open|);
    forall i', j | from <= i' && OccursAt(s, open, i') && i' + |open| <= j
      ensures !OccursAt(s, close, j)
    {
      assert !OccursAt(s, open, i') || !(from <= i' < i);
      assert !OccursAt(s, close, j) || !(i + |open| <= j < |s| + 1);
    }
  }

  /** Helper for ScanLeftmostLazy: one match, and a leftmost, lazy scan after it. */
  lemma {:induction false} ScanLazyStep(s: string, open: string, close: string, from: nat, i: nat, j: nat)
    requires |open| > 0 && from <= |s|
    requires IndexFrom(s, open, from) == Some(i)
    requires IndexFrom(s, close, i + |open|) == Some(j)
    requires j + |close| <= |s|
    requires LeftmostLazy(s, open, close, Scan(s, open, close, j + |close|), j + |close|)
    ensures LeftmostLazy(s, open, close, Scan(s, open, close, from), from)
  {
    ScanStep(s, open, close, from, i, j);
    IndexFromFound(s, open, from, i);
    IndexFromFound(s, close, i + |open|, j);
    LazyCons(s, open, close, from, i, j, Scan(s, open, close, j + |close|));
  }

  /** Helper: a leftmost, lazy scan with one more match in front. */
  lemma {:induction false} LazyCons(s: string, open: string, close: string, from: int, i: nat, j: nat, ms: seq<Match>)
    requires FirstFrom(s, open, from, i) && FirstFrom(s, close, i + |open|, j)
    requires LeftmostLazy(s, open, close, ms, j + |close|)
    ensures LeftmostLazy(s, open, close, [Match(i + |open|, j)] + ms, from)
  {
    var m := Match(i + |open|, j);
    assert m.start - |open| == i;
    assert ([m] + ms)[1..] == ms;
  }

  /** A leftmost, lazy scan is the scan: there is exactly one. */
  lemma {:induction false} LeftmostLazyUnique(s: string, open: string, close: string, ms: seq<Match>, from: nat)
    requires |open| > 0 && from <= |s|
    requires LeftmostLazy(s, open, close, ms, from)
    ensures ms == Scan(s, open, close, from)
    decreases |ms|
  {
    if ms == [] {
      UniqueNone(s, open, close, from);
    } else {
      var j := ms[0].stop;
      LeftmostLazyUnique(s, open, close, ms[1..], j + |close|);
      UniqueStep(s, open, close, ms, from, ms[0].start - |open|, j);
    }
  }

  /** Helper for LeftmostLazyUnique: the first match, and the scan after it. */
  lemma {:induction false} UniqueStep(s: string, open: string, close: string, ms: seq<Match>, from: nat, i: nat, j: nat)
    requires |open| > 0 && from <= |s|
    requires ms != [] && ms[0] == Match(i + |open|, j)
    requires FirstFrom(s, open, from, i) && FirstFrom(s, close, i + |open|, j)
    requires j + |close| <= |s| && ms[1..] == Scan(s, open, close, j + |close|)
    ensures ms == Scan(s, open, close, from)
  {
    ScanMatch(s, open, close, from, i, j);
    assert ms == [ms[0]] + ms[1..];
  }

  /** Helper for LeftmostLazyUnique: with no span left, the scan finds nothing. */
  lemma {:induction false} UniqueNone(s: string, open: string, close: string, from: nat)
    requires |open| > 0 && from <= |s|
    requires NoSpanFrom(s, open, close, from)
    ensures Scan(s, open, close, from) == []
  {
    ScanUnclosed(s, open, close, from);
    if IndexFrom(s, open, from).Some? {
      var i := IndexFrom(s, open, from).value;
      IndexFromOccurs(s, open, from, i);
      forall j | i + |open| <= j < |s| + 1 ensures !OccursAt(s, close, j) {
        assert from <= i && OccursAt(s, open, i) && i + |open| <= j;
      }
      IndexFromNone(s, close, i + |open|);
    }
  }

  /** The scan is the leftmost, lazy scan, and no other list of matches is. */
  lemma {:induction false} ScanIsLeftmostLazy(s: string, open: string, close: string, ms: seq<Match>)
    requires |open| > 0
    ensures ms == Scan(s, open, close, 0) <==> LeftmostLazy(s, open, close, ms, 0)
  {
    ScanLeftmostLazy(s, open, close, 0);
    if LeftmostLazy(s, open, close, ms, 0) {
      LeftmostLazyUnique(s, open, close, ms, 0);
    }
  }

  /** In a leftmost, lazy scan, each match's inner text ends at the first closing tag after its start. */
  lemma {:induction false} LazyAt(s: string, open: string, close: string, ms: seq<Match>, from: int, k: nat)
    requires LeftmostLazy(s, open, close, ms, from) && k < |ms|
    ensures FirstFrom(s, close, ms[k].start, ms[k].stop)
    decreases k
  {
    if k > 0 {
      LazyAt(s, open, close, ms[1..], ms[0].stop + |close|, k - 1);
    }
  }

  // ---------------------------------------------------------------------
  // What re.findall returns
  // ---------------------------------------------------------------------

  /** The k-th capture is the inner text of the k-th match. */
  lemma {:induction false} CapturesAt(s: string, ms: seq<Match>, k: nat)
    requires InText(ms, |s|) && k < |ms|
    ensures ms[k].start <= ms[k].stop <= |s|
    ensures Captures(s, ms)[k] == s[ms[k].start..ms[k].stop]
    decreases k
  {
    if k > 0 {
      CapturesAt(s, ms[1..], k - 1);
    }
  }

  /** `re.findall` finds nothing exactly when the text holds no span. */
  lemma {:induction false} FindAllEmpty(s: string, open: string, close: string)
    requires |open| > 0
    ensures FindAll(s, open, close) == [] <==> NoSpanFrom(s, open, close, 0)
  {
    ScanIsLeftmostLazy(s, open, close, []);
  }

  /** The lazy `.*?` stops at the first closing tag: no capture contains one. */
  lemma {:induction false} FindAllNonGreedy(s: string, open: string, close: string, k: nat)
    requires |open| > 0 && |close| > 0 && k < |FindAll(s, open, close)|
    ensures NoOcc(FindAll(s, open, close)[k], close)
  {
    var ms := Scan(s, open, close, 0);
    ScanInText(s, open, close, 0);
    ScanLeftmostLazy(s, open, close, 0);
    LazyAt(s, open, close, ms, 0, k);
    CapturesAt(s, ms, k);
    InnerFree(s, close, ms[k].start, ms[k].stop);
  }

  /** Helper: the text before the first occurrence of `pat` does not hold `pat`. */
  lemma {:induction false} InnerFree(s: string, pat: string, a: nat, b: nat)
    requires |pat| > 0 && a <= b <= |s| && FirstFrom(s, pat, a, b)
    ensures NoOcc(s[a..b], pat)
  {
    var w := s[a..b];
    forall m | 0 <= m < |w| + 1 ensures !OccursAt(w, pat, m) {
      if m + |pat| <= |w| {
        SliceOfSlice(s, a, b, m, m + |pat|);
        assert !OccursAt(s, pat, a + m) || !(a <= a + m < b);
      }
    }
  }

  /** Helper: the captures with one more match in front. */
  lemma {:induction false} CapturesCons(s: string, m: Match, ms: seq<Match>)
    requires m.start <= m.stop <= |s| && InText(ms, |s|)
    ensures InText([m] + ms, |s|)
    ensures Captures(s, [m] + ms) == [s[m.start..m.stop]] + Captures(s, ms)
  {
    assert ([m] + ms)[1..] == ms;
  }

  // ---------------------------------------------------------------------
  // Scans of a text with something in front
  // ---------------------------------------------------------------------

  /** The matches moved `d` positions to the right. */
  function Moved(ms: seq<Match>, d: nat): (r: seq<Match>)
    ensures |r| == |ms|
    decreases |ms|
  {
    if ms == [] then [] else [Match(ms[0].start + d, ms[0].stop + d)] + Moved(ms[1..], d)
  }

  /** Helper: moving matches with one more in front. */
  lemma {:induction false} MovedCons(m: Match, ms: seq<Match>, d: nat)
    ensures Moved([m] + ms, d) == [Match(m.start + d, m.stop + d)] + Moved(ms, d)
  {
    assert ([m] + ms)[1..] == ms;
  }

  /** Scanning `x + y` past `x` finds the matches of scanning `y`, moved by `|x|`. */
  lemma {:induction false} ScanShift(x: string, y: string, open: string, close: string, k: nat)
    requires |open| > 0 && k <= |y|
    ensures Scan(x + y, open, close, |x| + k) == Moved(Scan(y, open, close, k), |x|)
    decreases |y| - k
  {
    match IndexFrom(y, open, k)
    case None => ScanShiftNone(x, y, open, close, k);
    case Some(i) =>
      match IndexFrom(y, close, i + |open|)
      case None => ScanShiftUnclosed(x, y, open, close, k, i);
      case Some(j) =>
        ScanShift(x, y, open, close, j + |close|);
        ScanShiftStep(x, y, open, close, k, i, j);
  }

  /** Helper for ScanShift: no opening tag is left. */
  lemma {:induction false} ScanShiftNone(x: string, y: string, open: string, close: string, k: nat)
    requires |open| > 0 && k <= |y|
    requires IndexFrom(y, open, k).None?
    ensures Scan(x + y, open, close, |x| + k) == Moved(Scan(y, open, close, k), |x|)
  {
    IndexFromShiftNone(x, y, open, k);
    ScanUnclosed(x + y, open, close, |x| + k);
    ScanUnclosed(y, open, close, k);
  }

  /** Helper for ScanShift: the first opening tag left is not closed. */
  lemma {:induction false} ScanShiftUnclosed(x: string, y: string, open: string, close: string, k: nat, i: nat)
    requires |open| > 0 && k <= |y|
    requires IndexFrom(y, open, k) == Some(i)
    requires IndexFrom(y, close, i + |open|).None?
    ensures Scan(x + y, open, close, |x| + k) == Moved(Scan(y, open, close, k), |x|)
  {
    IndexFromShiftSome(x, y, open, k, i);
    IndexFromShiftNone(x, y, close, i + |open|);
    assert |x| + (i + |open|) == |x| + i + |open|;
    ScanUnclosed(x + y, open, close, |x| + k);
    ScanUnclosed(y, open, close, k);
  }

  /** Helper for ScanShift: one match, moved, and the same scan after it. */
  lemma {:induction false} ScanShiftStep(x: string, y: string, open: string, close: string, k: nat, i: nat, j: nat)
    requires |open| > 0 && k <= |y|
    requires IndexFrom(y, open, k) == Some(i)
    requires IndexFrom(y, close, i + |open|) == Some(j)
    requires j + |close| <= |y|
    requires Scan(x + y, open, close, |x| + (j + |close|)) == Moved(Scan(y, open, close, j + |close|), |x|)
    ensures Scan(x + y, open, close, |x| + k) == Moved(Scan(y, open, close, k), |x|)
  {
    ScanShiftHead(x, y, open, close, k, i, j);
    ScanStep(y, open, close, k, i, j);
    MovedStep(Scan(x + y, open, close, |x| + k), Scan(x + y, open, close, |x| + (j + |close|)),
              Scan(y, open, close, k), Scan(y, open, close, j + |close|), Match(i + |open|, j), |x|);
  }

  /** Helper for ScanShiftStep: the first match of the scan of `x + y`. */
  lemma {:induction false} ScanShiftHead(x: string, y: string, open: string, close: string, k: nat, i: nat, j: nat)
    requires |open| > 0 && k <= |y|
    requires IndexFrom(y, open, k) == Some(i)
    requires IndexFrom(y, close, i + |open|) == Some(j)
    ensures |x| + (j + |close|) <= |x + y|
    ensures Scan(x + y, open, close, |x| + k)
            == [Match(|x| + (i + |open|), |x| + j)] + Scan(x + y, open, close, |x| + (j + |close|))
  {
    IndexFromShiftSome(x, y, open, k, i);
    IndexFromShiftSome(x, y, close, i + |open|, j);
    ScanStepAt(x + y, open, close, |x| + k, |x| + i, |x| + (i + |open|), |x| + j, |x| + (j + |close|));
  }

  /** Helper: a list and its moved copy, each with one more match in front. */
  lemma {:induction false} MovedStep(l: seq<Match>, l': seq<Match>, r: seq<Match>, r': seq<Match>, m: Match, d: nat)
    requires l == [Match(d + m.start, d + m.stop)] + l' && r == [m] + r' && l' == Moved(r', d)
    ensures l == Moved(r, d)
  {
    MovedCons(m, r', d);
  }

  /** The moved matches cut out of `x + y` what the matches cut out of `y`. */
  lemma {:induction false} CapturesMoved(x: string, y: string, ms: seq<Match>)
    requires InText(ms, |y|)
    ensures InText(Moved(ms, |x|), |x + y|)
    ensures Captures(x + y, Moved(ms, |x|)) == Captures(y, ms)
    decreases |ms|
  {
    if ms != [] {
      CapturesMoved(x, y, ms[1..]);
      MovedCons(ms[0], ms[1..], |x|);
      assert ms == [ms[0]] + ms[1..];
      SliceAfter(x, y, ms[0].start, ms[0].stop);
    }
  }

  /** Helper: a slice of `x + y` past `x` is a slice of `y`. */
  lemma {:induction false} SliceAfter(x: string, y: string, a: nat, b: nat)
    requires a <= b <= |y|
    ensures (x + y)[|x| + a..|x| + b] == y[a..b]
  {
  }

  /** A text without opening tags has no captures. */
  lemma {:induction false} FindAllNone(s: string, open: string, close: string)
    requires |open| > 0 && NoOcc(s, open)
    ensures FindAll(s, open, close) == []
  {
    ScanEnd(s, open, close, 0);
  }

  /**
   * A front part free of opening tags, ending with a newline, adds no
   * captures when the tags hold no newline.
   */
  lemma {:induction false} FindAllSkip(p: string, t: string, open: string, close: string)
    requires |open| > 0 && '\n' !in open && NoOcc(p, open)
    requires p == [] || p[|p| - 1] == '\n'
    ensures FindAll(p + t, open, close) == FindAll(t, open, close)
  {
    NoneInFront(p, t, open);
    ScanSkip(p + t, open, close, 0, |p|);
    ScanShift(p, t, open, close, 0);
    ScanInText(t, open, close, 0);
    CapturesMoved(p, t, Scan(t, open, close, 0));
  }

  /**
   * A text that starts with a span whose inner text `m` ends with a newline
   * and holds no closing tag captures `m` first, then what follows the span.
   */
  lemma {:induction false} FindAllHead(m: string, q: string, open: string, close: string)
    requires |open| > 0 && '\n' !in close && NoOcc(m, close)
    requires m == [] || m[|m| - 1] == '\n'
    ensures FindAll(open + m + close + q, open, close) == [m] + FindAll(q, open, close)
  {
    var x := open + m + close;
    var s := x + q;
    var j := |open| + |m|;
    NoneInFront(m, close + q, close);
    NoneInShift(open, m + (close + q), close, 0, |m|);
    assert open + (m + (close + q)) == s;
    assert s[0..|open|] == open;
    assert s[j..j + |close|] == close;
    ScanMatch(s, open, close, 0, 0, j);
    FindAllHeadRest(x, q, open, close, j);
    assert s[|open|..j] == m;
  }

  /** Helper for FindAllHead: the captures after the span. */
  lemma {:induction false} FindAllHeadRest(x: string, q: string, open: string, close: string, j: nat)
    requires |open| > 0 && |open| <= j && j + |close| == |x|
    requires Scan(x + q, open, close, 0) == [Match(|open|, j)] + Scan(x + q, open, close, j + |close|)
    ensures FindAll(x + q, open, close) == [(x + q)[|open|..j]] + FindAll(q, open, close)
  {
    var s := x + q;
    var rest := Scan(q, open, close, 0);
    ScanShift(x, q, open, close, 0);
    assert Scan(s, open, close, 0) == [Match(|open|, j)] + Moved(rest, |x|);
    ScanInText(q, open, close, 0);
    CapturesMoved(x, q, rest);
    CapturesCons(s, Match(|open|, j), Moved(rest, |x|));
  }

  // ---------------------------------------------------------------------
  // What re.sub returns
  // ---------------------------------------------------------------------

  /** With no span in the text, the substitution leaves it as it is. */
  lemma {:induction false} NoSpanKept(s: string, open: string, close: string, f: string -> string)
    requires |open| > 0
    ensures NoSpanFrom(s, open, close, 0) ==> ReplaceFrom(s, open, close, 0, f) == s
  {
    if NoSpanFrom(s, open, close, 0) {
      UniqueNone(s, open, close, 0);
    }
  }

  /**
   * The substitution resumes after each span: at the first span from `from`
   * on it keeps the text up to the opening tag, replaces the span by `f` of
   * its inner text and goes on after the closing tag.
   */
  lemma {:induction false} ReplaceFromStep(s: string, open: string, close: string, from: nat, i: nat, j: nat,
                                           f: string -> string)
    requires |open| > 0 && from <= |s|
    requires FirstFrom(s, open, from, i) && FirstFrom(s, close, i + |open|, j)
    ensures j + |close| <= |s|
    ensures ReplaceFrom(s, open, close, from, f)
            == s[from..i] + f(s[i + |open|..j]) + ReplaceFrom(s, open, close, j + |close|, f)
  {
    ScanMatch(s, open, close, from, i, j);
    ReplaceFromAt(s, open, close, from, i, i + |open|, j, j + |close|, f);
  }

  /** Helper for ReplaceFromStep: the substitution at a first match given by its cut points. */
  lemma {:induction false} ReplaceFromAt(s: string, open: string, close: string, from: nat, a: nat, b: nat, c: nat, d: nat,
                                         f: string -> string)
    requires |open| > 0 && from <= |s| && d <= |s|
    requires b == a + |open| && d == c + |close|
    requires Scan(s, open, close, from) == [Match(b, c)] + Scan(s, open, close, d)
    ensures from <= a <= b <= c <= d
    ensures ReplaceFrom(s, open, close, from, f) == s[from..a] + f(s[b..c]) + ReplaceFrom(s, open, close, d, f)
  {
    ScanOrdered(s, open, close, from);
    ScanOrdered(s, open, close, d);
    SubStepAt(s, Scan(s, open, close, from), Scan(s, open, close, d), from, a, b, c, d, |open|, |close|, f);
  }

  /** Helper for ReplaceFromStep: the substitution at its first match, with the cut points given by name. */
  lemma {:induction false} SubStepAt(s: string, ms: seq<Match>, rest: seq<Match>, from: nat, a: nat, b: nat, c: nat, d: nat,
                                     openLen: nat, closeLen: nat, f: string -> string)
    requires ms == [Match(b, c)] + rest && b == a + openLen && d == c + closeLen
    requires Ordered(ms, from, |s|, openLen, closeLen) && Ordered(rest, d, |s|, openLen, closeLen)
    ensures from <= a <= b <= c <= d <= |s|
    ensures Sub(s, ms, from, openLen, closeLen, f) == s[from..a] + f(s[b..c]) + Sub(s, rest, d, openLen, closeLen, f)
  {
    SubCons(s, Match(b, c), rest, from, openLen, closeLen, f);
  }

  /** With no span left from `from` on, the substitution keeps the rest of the text. */
  lemma {:induction false} ReplaceFromEnd(s: string, open: string, close: string, from: nat, f: string -> string)
    requires |open| > 0 && from <= |s|
    requires NoSpanFrom(s, open, close, from)
    ensures ReplaceFrom(s, open, close, from, f) == s[from..]
  {
    UniqueNone(s, open, close, from);
  }

  /** Helper: the substitution with one more match in front. */
  lemma {:induction false} SubCons(s: string, m: Match, ms: seq<Match>, from: nat, openLen: nat, closeLen: nat,
                                   f: string -> string)
    requires Ordered([m] + ms, from, |s|, openLen, closeLen)
    ensures from + openLen <= m.start <= m.stop && m.stop + closeLen <= |s|
    ensures Ordered(ms, m.stop + closeLen, |s|, openLen, closeLen)
    ensures Sub(s, [m] + ms, from, openLen, closeLen, f)
            == s[from..m.start - openLen] + f(s[m.start..m.stop]) + Sub(s, ms, m.stop + closeLen, openLen, closeLen, f)
  {
    assert ([m] + ms)[0] == m && ([m] + ms)[1..] == ms;
  }

  /** `r` is empty or ends with `a` or with `c`. */
  predicate EndsIn(r: string, a: char, c: char)
  {
    |r| == 0 || r[|r| - 1] == a || r[|r| - 1] == c
  }

  /**
   * When every replacement ends with `c`, the substitution from a point
   * inside the text ends with the text's last character or with `c`.
   */
  lemma {:induction false} SubLast(s: string, ms: seq<Match>, from: nat, openLen: nat, closeLen: nat,
                                   f: string -> string, c: char)
    requires 0 < |s| && Ordered(ms, from, |s|, openLen, closeLen)
    requires forall inner :: |f(inner)| > 0 && f(inner)[|f(inner)| - 1] == c
    ensures from < |s| ==> |Sub(s, ms, from, openLen, closeLen, f)| > 0
    ensures EndsIn(Sub(s, ms, from, openLen, closeLen, f), s[|s| - 1], c)
    decreases |ms|
  {
    if ms != [] {
      SubLast(s, ms[1..], ms[0].stop + closeLen, openLen, closeLen, f, c);
      SubLastStep(s, ms, from, openLen, closeLen, f, c);
    }
  }

  /** Helper for SubLast: one match in front of a substitution that ends well. */
  lemma {:induction false} SubLastStep(s: string, ms: seq<Match>, from: nat, openLen: nat, closeLen: nat,
                                       f: string -> string, c: char)
    requires 0 < |s| && ms != [] && Ordered(ms, from, |s|, openLen, closeLen)
    requires |f(s[ms[0].start..ms[0].stop])| > 0 && f(s[ms[0].start..ms[0].stop])[|f(s[ms[0].start..ms[0].stop])| - 1] == c
    requires EndsIn(Sub(s, ms[1..], ms[0].stop + closeLen, openLen, closeLen, f), s[|s| - 1], c)
    ensures |Sub(s, ms, from, openLen, closeLen, f)| > 0
    ensures EndsIn(Sub(s, ms, from, openLen, closeLen, f), s[|s| - 1], c)
  {
    var m := ms[0];
    LastOfJoin(Sub(s, ms, from, openLen, closeLen, f), s[from..m.start - openLen], f(s[m.start..m.stop]),
               Sub(s, ms[1..], m.stop + closeLen, openLen, closeLen, f), s[|s| - 1], c);
  }

  /** Helper for SubLast: the last character of three pieces joined. */
  lemma {:induction false} LastOfJoin(full: string, x: string, w: string, r: string, last: char, c: char)
    requires full == x + w + r && |w| > 0 && w[|w| - 1] == c && EndsIn(r, last, c)
    ensures |full| > 0 && EndsIn(full, last, c)
  {
  }

  /**
   * When every replacement starts with `c`, the substitution from a point
   * inside the text starts with the character there or with `c`.
   */
  lemma {:induction false} SubFirst(s: string, ms: seq<Match>, from: nat, openLen: nat, closeLen: nat,
                                    f: string -> string, c: char)
    requires from < |s| && Ordered(ms, from, |s|, openLen, closeLen)
    requires forall inner :: |f(inner)| > 0 && f(inner)[0] == c
    ensures |Sub(s, ms, from, openLen, closeLen, f)| > 0
    ensures Sub(s, ms, from, openLen, closeLen, f)[0] == s[from] || Sub(s, ms, from, openLen, closeLen, f)[0] == c
  {
    if ms == [] {
      assert Sub(s, ms, from, openLen, closeLen, f)[0] == s[from..][0];
    } else {
      var m := ms[0];
      FirstOfJoin(Sub(s, ms, from, openLen, closeLen, f), s[from..m.start - openLen], f(s[m.start..m.stop]),
                  Sub(s, ms[1..], m.stop + closeLen, openLen, closeLen, f), s[from], c);
    }
  }

  /** Helper for SubFirst: the first character of three pieces joined. */
  lemma {:induction false} FirstOfJoin(full: string, x: string, w: string, r: string, first: char, c: char)
    requires full == x + w + r && |w| > 0 && w[0] == c && (|x| > 0 ==> x[0] == first)
    ensures |full| > 0 && (full[0] == first || full[0] == c)
  {
    if |x| == 0 {
      assert full[0] == w[0];
    } else {
      assert full[0] == x[0];
    }
  }
}
