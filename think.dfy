/**
 * format_think_text: every `<think>…</think>` span of a reply, taken left to
 * right and lazily (re.S, so spans may hold newlines), becomes a collapsed
 * `<details>` block around the trimmed inner text.
 */
module Think {
  import opened Text
  import opened TagScan

  const ThinkOpen: string := "<think>"
  const ThinkClose: string := "</think>"
  const DetailsHead: string := "<details><summary>思考</summary>\n\n"
  const DetailsTail: string := "\n\n</details>"

  /** The replacement of one span: the inner text, stripped, inside the wrapper. */
  function Details(inner: string): string
  {
    DetailsHead + Strip(inner) + DetailsTail
  }

  /** The rendering of the spans from index `from` on. */
  function RenderFrom(text: string, from: nat): string
    requires from <= |text|
  {
    ReplaceFrom(text, ThinkOpen, ThinkClose, from, Details)
  }

  /**
   * format_think_text: the rendering from the start of the text. Text without
   * a complete `<think>…</think>` span is left exactly as it is.
   */
  function FormatThink(text: string): (r: string)
    ensures NoSpanFrom(text, ThinkOpen, ThinkClose, 0) ==> r == text
  {
    NoSpanKept(text, ThinkOpen, ThinkClose, Details);
    RenderFrom(text, 0)
  }

  /** The wrapper holds exactly the trimmed inner text between its fixed head and tail. */
  lemma {:induction false} DetailsBody(inner: string)
    ensures |Details(inner)| == |DetailsHead| + |Strip(inner)| + |DetailsTail|
    ensures Details(inner)[..|DetailsHead|] == DetailsHead
    ensures Details(inner)[|DetailsHead|..|DetailsHead| + |Strip(inner)|] == Strip(inner)
    ensures Details(inner)[|DetailsHead| + |Strip(inner)|..] == DetailsTail
    ensures Trimmed(Strip(inner)) && Details(Strip(inner)) == Details(inner)
  {
    var d := Details(inner);
    var h := |DetailsHead|;
    var n := |Strip(inner)|;
    assert d[..h] == DetailsHead;
    assert d[h..h + n] == Strip(inner);
    assert d[h + n..] == DetailsTail;
    StripIdempotent(inner);
  }

  /** Text without an opening tag, or without a closing tag, is left as it is. */
  lemma {:induction false} ThinkNoTag(text: string)
    requires NoOcc(text, ThinkOpen) || NoOcc(text, ThinkClose)
    ensures FormatThink(text) == text
  {
    assert NoSpanFrom(text, ThinkOpen, ThinkClose, 0);
  }

  /**
   * Left to right: at the first span from `from` on, the text before its
   * opening tag is kept, the span becomes the wrapper around its inner text,
   * and the rendering goes on right after its closing tag.
   */
  lemma {:induction false} ThinkStep(text: string, from: nat, i: nat, j: nat)
    requires from <= |text|
    requires FirstFrom(text, ThinkOpen, from, i) && FirstFrom(text, ThinkClose, i + |ThinkOpen|, j)
    ensures j + |ThinkClose| <= |text|
    ensures RenderFrom(text, from)
            == text[from..i] + Details(text[i + |ThinkOpen|..j]) + RenderFrom(text, j + |ThinkClose|)
  {
    ReplaceFromStep(text, ThinkOpen, ThinkClose, from, i, j, Details);
  }

  /** Once no span is left, the rest of the text is kept as it is. */
  lemma {:induction false} ThinkEnd(text: string, from: nat)
    requires from <= |text| && NoSpanFrom(text, ThinkOpen, ThinkClose, from)
    ensures RenderFrom(text, from) == text[from..]
  {
    ReplaceFromEnd(text, ThinkOpen, ThinkClose, from, Details);
  }

  /**
   * The spans rendered are the leftmost, lazy, non-overlapping ones, and the
   * rendering cuts the text at exactly those spans.
   */
  lemma {:induction false} ThinkSpans(text: string)
    ensures LeftmostLazy(text, ThinkOpen, ThinkClose, Scan(text, ThinkOpen, ThinkClose, 0), 0)
    ensures Ordered(Scan(text, ThinkOpen, ThinkClose, 0), 0, |text|, |ThinkOpen|, |ThinkClose|)
    ensures FormatThink(text) == Sub(text, Scan(text, ThinkOpen, ThinkClose, 0), 0, |ThinkOpen|, |ThinkClose|, Details)
  {
    ScanLeftmostLazy(text, ThinkOpen, ThinkClose, 0);
    ScanOrdered(text, ThinkOpen, ThinkClose, 0);
  }

  /** The wrapper starts with `<` and ends with `>`. */
  lemma {:induction false} DetailsEnds(inner: string)
    ensures |Details(inner)| > 0 && Details(inner)[0] == '<' && Details(inner)[|Details(inner)| - 1] == '>'
  {
    assert Details(inner) == DetailsHead + (Strip(inner) + DetailsTail);
    assert Details(inner)[0] == DetailsHead[0];
  }

  /** The rendering of non-empty text starts with the text's first character, or with a wrapper. */
  lemma {:induction false} ThinkFirst(text: string)
    requires |text| > 0
    ensures |FormatThink(text)| > 0
    ensures FormatThink(text)[0] == text[0] || FormatThink(text)[0] == '<'
  {
    ThinkSpans(text);
    forall inner: string
      ensures |Details(inner)| > 0 && Details(inner)[0] == '<'
    {
      DetailsEnds(inner);
    }
    SubFirst(text, Scan(text, ThinkOpen, ThinkClose, 0), 0, |ThinkOpen|, |ThinkClose|, Details, '<');
  }

  /** The rendering of non-empty text ends with the text's last character, or with a wrapper. */
  lemma {:induction false} ThinkLast(text: string)
    requires |text| > 0
    ensures |FormatThink(text)| > 0
    ensures FormatThink(text)[|FormatThink(text)| - 1] == text[|text| - 1]
            || FormatThink(text)[|FormatThink(text)| - 1] == '>'
  {
    ThinkSpans(text);
    forall inner: string
      ensures |Details(inner)| > 0 && Details(inner)[|Details(inner)| - 1] == '>'
    {
      DetailsEnds(inner);
    }
    SubLast(text, Scan(text, ThinkOpen, ThinkClose, 0), 0, |ThinkOpen|, |ThinkClose|, Details, '>');
  }

  /** Trimmed text renders to trimmed text: the wrapper neither starts nor ends with whitespace. */
  lemma {:induction false} ThinkTrimmed(text: string)
    requires Trimmed(text)
    ensures Trimmed(FormatThink(text))
  {
    if |text| > 0 {
      ThinkFirst(text);
      ThinkLast(text);
    } else {
      ThinkEnd(text, 0);
    }
  }
}
