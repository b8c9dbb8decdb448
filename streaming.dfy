/**
 * The streaming branch of send_message: the server's reply arrives as lines;
 * each line that decodes to a chunk adds its delta to the partial reply and
 * yields a snapshot of the transcript with that partial reply appended.
 * JSON decoding is an oracle `parse` from the payload text to what the loop
 * reads out of it.
 */
module Streaming {
  import opened Text
  import opened Transcript

  const DataPrefix: string := "data: "
  const DoneMarker: string := "[DONE]"

  /** What decoding one payload gives, as far as the loop looks at it. */
  datatype Chunk =
    | Malformed             // json.loads raises, or choices[0], its delta or the content is unusable
    | NoDelta               // choices[0] carries no "delta"
    | NoContent             // the delta carries no "content"
    | Content(piece: string)

  /** What the loop does with one line. */
  datatype Outcome = Blank | Done | Skipped | Delta(piece: string)

  /** One value yielded: the new transcript text, the chat view, and the cleared input box. */
  datatype Update = Update(chatText: string, chatbot: seq<Message>, userInput: string)

  /** The payload of a line: stripped, without its `data: ` prefix. */
  function Payload(line: string): string
  {
    var t := Strip(line);
    if StartsWith(t, DataPrefix) then t[|DataPrefix|..] else t
  }

  /** The payload is the stripped line, or what follows the prefix in it. */
  lemma {:induction false} PayloadShape(line: string)
    ensures StartsWith(Strip(line), DataPrefix) ==> Strip(line) == DataPrefix + Payload(line)
    ensures !StartsWith(Strip(line), DataPrefix) ==> Payload(line) == Strip(line)
  {
    var t := Strip(line);
    if StartsWith(t, DataPrefix) {
      assert t == t[..|DataPrefix|] + t[|DataPrefix|..];
    }
  }

  /** A line that ends the stream. */
  predicate IsDone(line: string)
  {
    line != "" && Payload(line) == DoneMarker
  }

  /** Blank lines, and lines whose payload does not decode. */
  predicate Ignored(line: string, parse: string -> Chunk)
  {
    line == "" || (Payload(line) != DoneMarker && parse(Payload(line)) == Malformed)
  }

  /** The loop body's decision for one line. */
  function Classify(line: string, parse: string -> Chunk): (r: Outcome)
    ensures r.Done? <==> IsDone(line)
    ensures r.Blank? || r.Skipped? <==> Ignored(line, parse)
  {
    if line == "" then Blank
    else if Payload(line) == DoneMarker then Done
    else match parse(Payload(line))
      case Malformed => Skipped
      case NoDelta => Delta("")
      case NoContent => Delta("")
      case Content(piece) => Delta(piece)
  }

  /** The decision for each line. */
  function Outcomes(lines: seq<string>, parse: string -> Chunk): (r: seq<Outcome>)
    ensures |r| == |lines|
    decreases |lines|
  {
    if lines == [] then [] else [Classify(lines[0], parse)] + Outcomes(lines[1..], parse)
  }

  /** The k-th decision is the decision for the k-th line. */
  lemma {:induction false} OutcomesAt(lines: seq<string>, parse: string -> Chunk, k: nat)
    requires k < |lines|
    ensures Outcomes(lines, parse)[k] == Classify(lines[k], parse)
    decreases |lines|
  {
    if k > 0 {
      OutcomesAt(lines[1..], parse, k - 1);
    }
  }

  /** The deltas of the parsed lines before the end marker, in order. */
  function Deltas(os: seq<Outcome>): seq<string>
    decreases |os|
  {
    if os == [] then []
    else match os[0]
      case Done => []
      case Delta(d) => [d] + Deltas(os[1..])
      case _ => Deltas(os[1..])
  }

  /** The successive values of the partial reply, starting from `partial`. */
  function Partials(os: seq<Outcome>, partial: string): seq<string>
    decreases |os|
  {
    if os == [] then []
    else match os[0]
      case Done => []
      case Delta(d) => [partial + d] + Partials(os[1..], partial + d)
      case _ => Partials(os[1..], partial)
  }

  /** The number of lines the loop takes from the stream. */
  function Consumed(os: seq<Outcome>): (r: nat)
    ensures r <= |os|
    ensures r < |os| ==> 0 < r && os[r - 1].Done?
    ensures forall k :: 0 <= k < r - 1 ==> !os[k].Done?
    decreases |os|
  {
    if os == [] then 0
    else if os[0].Done? then 1
    else 1 + Consumed(os[1..])
  }

  /** Concatenation of a sequence of strings. */
  function Concat(ds: seq<string>): string
  {
    if ds == [] then "" else ds[0] + Concat(ds[1..])
  }

  /** The value yielded for one partial reply. */
  function Snapshot(messages: seq<Message>, partial: string): Update
  {
    var ms := messages + [Message(Assistant, partial)];
    Update(Encode(ms), ToChatbot(ms), "")
  }

  /** The values yielded for a sequence of partial replies. */
  function Snapshots(messages: seq<Message>, partials: seq<string>): (r: seq<Update>)
    ensures |r| == |partials|
  {
    if partials == [] then []
    else Snapshots(messages, partials[..|partials| - 1]) + [Snapshot(messages, partials[|partials| - 1])]
  }

  /** The deltas of a stream of lines. */
  function LineDeltas(lines: seq<string>, parse: string -> Chunk): seq<string>
  {
    Deltas(Outcomes(lines, parse))
  }

  /** The successive partial replies of a stream of lines. */
  function Replies(lines: seq<string>, parse: string -> Chunk): seq<string>
  {
    Partials(Outcomes(lines, parse), "")
  }

  /** Everything the stream yields, for the turn's `messages`: one value per delta. */
  function StreamUpdates(lines: seq<string>, parse: string -> Chunk, messages: seq<Message>): (r: seq<Update>)
    ensures |r| == |LineDeltas(lines, parse)|
  {
    PartialsCount(Outcomes(lines, parse), "");
    Snapshots(messages, Replies(lines, parse))
  }

  /** The number of lines read from a stream of lines. */
  function LinesRead(lines: seq<string>, parse: string -> Chunk): nat
  {
    Consumed(Outcomes(lines, parse))
  }

  /** The streaming loop of send_message: yields are collected in order. */
  method Stream(lines: seq<string>, parse: string -> Chunk, messages: seq<Message>)
    returns (updates: seq<Update>, consumed: nat)
    ensures updates == StreamUpdates(lines, parse, messages)
    ensures consumed == LinesRead(lines, parse)
  {
    ghost var os := Outcomes(lines, parse);
    var partial := "";
    updates := [];
    ghost var seen: seq<string> := [];
    var i := 0;
    while i < |lines|
      invariant 0 <= i <= |lines|
      invariant seen + Partials(os[i..], partial) == Partials(os, "")
      invariant updates == Snapshots(messages, seen)
      invariant Consumed(os) == i + Consumed(os[i..])
      decreases |lines| - i
    {
      var outcome := Classify(lines[i], parse);
      OutcomesAt(lines, parse, i);
      PartialsStep(os, i, seen, partial);
      ConsumedStep(os, i);
      i := i + 1;
      match outcome {
        case Done =>
          break;
        case Delta(d) =>
          partial := partial + d;
          SnapshotsAppend(messages, seen, partial);
          seen := seen + [partial];
          updates := updates + [Snapshot(messages, partial)];
        case _ =>
      }
    }
    if i == |lines| {
      assert os[i..] == [];
      assert seen + [] == seen;
    }
    consumed := i;
  }

  /** Helper for Stream: one line of the loop, on the partial replies. */
  lemma {:induction false} PartialsStep(os: seq<Outcome>, i: nat, seen: seq<string>, partial: string)
    requires i < |os| && seen + Partials(os[i..], partial) == Partials(os, "")
    ensures os[i].Done? ==> seen == Partials(os, "")
    ensures os[i].Delta? ==> (seen + [partial + os[i].piece]) + Partials(os[i + 1..], partial + os[i].piece) == Partials(os, "")
    ensures os[i].Blank? || os[i].Skipped? ==> seen + Partials(os[i + 1..], partial) == Partials(os, "")
  {
    assert os[i..][0] == os[i] && os[i..][1..] == os[i + 1..];
    if os[i].Done? {
      assert seen + [] == seen;
    }
  }

  /** Helper for Stream: one line of the loop, on the count of lines read. */
  lemma {:induction false} ConsumedStep(os: seq<Outcome>, i: nat)
    requires i < |os|
    ensures Consumed(os[i..]) == if os[i].Done? then 1 else 1 + Consumed(os[i + 1..])
  {
    assert os[i..][0] == os[i] && os[i..][1..] == os[i + 1..];
  }

  /** Helper for Stream: one more value yielded. */
  lemma {:induction false} SnapshotsAppend(messages: seq<Message>, partials: seq<string>, p: string)
    ensures Snapshots(messages, partials + [p]) == Snapshots(messages, partials) + [Snapshot(messages, p)]
  {
    assert (partials + [p])[..|partials|] == partials;
  }

  /** One partial reply per parsed line. */
  lemma {:induction false} PartialsCount(os: seq<Outcome>, partial: string)
    ensures |Partials(os, partial)| == |Deltas(os)|
    decreases |os|
  {
    if os != [] {
      match os[0]
      case Delta(d) => PartialsCount(os[1..], partial + d);
      case Done =>
      case _ => PartialsCount(os[1..], partial);
    }
  }

  lemma {:induction false} ConcatPrefix(d: string, ds: seq<string>, k: nat)
    requires k <= |ds|
    ensures Concat(([d] + ds)[..k + 1]) == d + Concat(ds[..k])
  {
    assert ([d] + ds)[..k + 1] == [d] + ds[..k];
  }

  /** The k-th partial reply is the starting text followed by the first k + 1 deltas. */
  lemma {:induction false} PartialsAt(os: seq<Outcome>, partial: string, k: nat)
    requires k < |Partials(os, partial)|
    ensures k < |Deltas(os)|
    ensures Partials(os, partial)[k] == partial + Concat(Deltas(os)[..k + 1])
    decreases |os|
  {
    PartialsCount(os, partial);
    match os[0]
    case Delta(d) =>
      var rest := Deltas(os[1..]);
      ConcatPrefix(d, rest, k);
      if k == 0 {
        assert Concat(rest[..0]) == "";
      } else {
        PartialsAt(os[1..], partial + d, k - 1);
        assert rest[..k - 1 + 1] == rest[..k];
      }
    case Done =>
    case _ =>
      PartialsAt(os[1..], partial, k);
  }

  lemma {:induction false} SnapshotsAt(messages: seq<Message>, partials: seq<string>, k: nat)
    requires k < |partials|
    ensures Snapshots(messages, partials)[k] == Snapshot(messages, partials[k])
    decreases |partials|
  {
    if k < |partials| - 1 {
      SnapshotsAt(messages, partials[..|partials| - 1], k);
    }
  }

  /**
   * One value is yielded per parsed line, and the k-th one is the transcript
   * with an assistant message holding the first k + 1 deltas, encoded, and
   * its chat view.
   */
  lemma {:induction false} StreamAt(lines: seq<string>, parse: string -> Chunk, messages: seq<Message>, k: nat)
    requires k < |LineDeltas(lines, parse)|
    ensures |StreamUpdates(lines, parse, messages)| == |LineDeltas(lines, parse)|
    ensures StreamUpdates(lines, parse, messages)[k].chatText
            == Encode(messages + [Message(Assistant, Concat(LineDeltas(lines, parse)[..k + 1]))])
    ensures StreamUpdates(lines, parse, messages)[k].chatbot
            == ToChatbot(messages + [Message(Assistant, Concat(LineDeltas(lines, parse)[..k + 1]))])
    ensures StreamUpdates(lines, parse, messages)[k].userInput == ""
  {
    var os := Outcomes(lines, parse);
    PartialsCount(os, "");
    PartialsAt(os, "", k);
    SnapshotsAt(messages, Replies(lines, parse), k);
    assert "" + Concat(Deltas(os)[..k + 1]) == Concat(Deltas(os)[..k + 1]);
  }

  /**
   * The last value yielded shows the whole reply: the assistant message
   * holds every delta received before the end marker, in order.
   */
  lemma {:induction false} StreamLast(lines: seq<string>, parse: string -> Chunk, messages: seq<Message>)
    ensures var u := StreamUpdates(lines, parse, messages);
            |u| > 0 ==> u[|u| - 1] == Snapshot(messages, Concat(LineDeltas(lines, parse)))
  {
    var ds := LineDeltas(lines, parse);
    if |ds| > 0 {
      var os := Outcomes(lines, parse);
      PartialsCount(os, "");
      PartialsAt(os, "", |ds| - 1);
      SnapshotsAt(messages, Replies(lines, parse), |ds| - 1);
      assert ds[..|ds|] == ds;
      assert "" + Concat(ds) == Concat(ds);
    }
  }

  /** The decisions for two pieces of a stream, one after the other. */
  lemma {:induction false} OutcomesAppend(a: seq<string>, b: seq<string>, parse: string -> Chunk)
    ensures Outcomes(a + b, parse) == Outcomes(a, parse) + Outcomes(b, parse)
  {
    var l := Outcomes(a + b, parse);
    var r := Outcomes(a, parse) + Outcomes(b, parse);
    forall k | 0 <= k < |a + b|
      ensures l[k] == r[k]
    {
      OutcomesAt(a + b, parse, k);
      if k < |a| {
        assert (a + b)[k] == a[k];
        OutcomesAt(a, parse, k);
      } else {
        assert (a + b)[k] == b[k - |a|];
        OutcomesAt(b, parse, k - |a|);
      }
    }
  }

  /** The decisions around one line in the middle of a stream. */
  lemma {:induction false} OutcomesAround(before: seq<string>, line: string, after: seq<string>, parse: string -> Chunk)
    ensures Outcomes(before + [line] + after, parse)
            == Outcomes(before, parse) + [Classify(line, parse)] + Outcomes(after, parse)
    ensures Outcomes(before + after, parse) == Outcomes(before, parse) + Outcomes(after, parse)
  {
    OutcomesAppend(before + [line], after, parse);
    OutcomesAppend(before, [line], parse);
    OutcomesAppend(before, after, parse);
  }

  /** A chunk without a delta, or a delta without content, adds nothing to the reply but is still yielded. */
  lemma {:induction false} MissingContent(line: string, rest: seq<string>, parse: string -> Chunk, partial: string)
    requires line != "" && Payload(line) != DoneMarker
    requires parse(Payload(line)) == NoDelta || parse(Payload(line)) == NoContent
    ensures LineDeltas([line] + rest, parse) == [""] + LineDeltas(rest, parse)
    ensures Partials(Outcomes([line] + rest, parse), partial) == [partial] + Partials(Outcomes(rest, parse), partial)
  {
    OutcomesAppend([line], rest, parse);
    var os := Outcomes([line] + rest, parse);
    assert os[0] == Delta("") && os[1..] == Outcomes(rest, parse);
    assert partial + "" == partial;
  }

  /** Helper for IgnoredLine: a blank or skipped outcome anywhere changes nothing. */
  lemma {:induction false} SkipAnywhere(before: seq<Outcome>, o: Outcome, after: seq<Outcome>, partial: string)
    requires o.Blank? || o.Skipped?
    ensures Partials(before + [o] + after, partial) == Partials(before + after, partial)
    ensures Deltas(before + [o] + after) == Deltas(before + after)
    ensures Consumed(before + [o] + after) == Consumed(before + after) + (if Done in before then 0 else 1)
    decreases |before|
  {
    if before == [] {
      assert before + [o] + after == [o] + after;
      assert ([o] + after)[1..] == after;
      assert before + after == after;
    } else {
      var x := before[0];
      var b := before[1..];
      assert (before + [o] + after)[0] == x && (before + [o] + after)[1..] == b + [o] + after;
      assert (before + after)[0] == x && (before + after)[1..] == b + after;
      match x
      case Done =>
      case Delta(d) => SkipAnywhere(b, o, after, partial + d);
      case _ => SkipAnywhere(b, o, after, partial);
    }
  }

  /** Helper for DoneStops: nothing after an end outcome counts. */
  lemma {:induction false} DoneAnywhere(before: seq<Outcome>, after: seq<Outcome>, partial: string)
    ensures Partials(before + [Done] + after, partial) == Partials(before, partial)
    ensures Deltas(before + [Done] + after) == Deltas(before)
    ensures Consumed(before + [Done] + after) == Consumed(before + [Done]) <= |before| + 1
    decreases |before|
  {
    if before == [] {
      assert before + [Done] + after == [Done] + after;
      assert before + [Done] == [Done];
    } else {
      var x := before[0];
      var b := before[1..];
      assert (before + [Done] + after)[0] == x && (before + [Done] + after)[1..] == b + [Done] + after;
      assert (before + [Done])[0] == x && (before + [Done])[1..] == b + [Done];
      match x
      case Done =>
      case Delta(d) => DoneAnywhere(b, after, partial + d);
      case _ => DoneAnywhere(b, after, partial);
    }
  }

  /**
   * A blank or undecodable line anywhere changes neither the deltas nor what
   * is yielded, and the loop goes on past it.
   */
  lemma {:induction false} IgnoredLine(before: seq<string>, line: string, after: seq<string>, parse: string -> Chunk)
    requires Ignored(line, parse)
    ensures Replies(before + [line] + after, parse) == Replies(before + after, parse)
    ensures LineDeltas(before + [line] + after, parse) == LineDeltas(before + after, parse)
    ensures LinesRead(before + [line] + after, parse)
            == LinesRead(before + after, parse) + (if Done in Outcomes(before, parse) then 0 else 1)
  {
    OutcomesAround(before, line, after, parse);
    SkipAnywhere(Outcomes(before, parse), Classify(line, parse), Outcomes(after, parse), "");
  }

  /**
   * The end marker stops the loop: the lines after it are never taken from
   * the stream and do not affect what is yielded.
   */
  lemma {:induction false} DoneStops(before: seq<string>, line: string, after: seq<string>, parse: string -> Chunk)
    requires IsDone(line)
    ensures Replies(before + [line] + after, parse) == Replies(before, parse)
    ensures LineDeltas(before + [line] + after, parse) == LineDeltas(before, parse)
    ensures LinesRead(before + [line] + after, parse) == LinesRead(before + [line], parse) <= |before| + 1
  {
    OutcomesAround(before, line, after, parse);
    OutcomesAppend(before, [line], parse);
    assert [line][0] == line && [line][1..] == [];
    assert Outcomes([line], parse) == [Classify(line, parse)];
    DoneAnywhere(Outcomes(before, parse), Outcomes(after, parse), "");
  }

}
