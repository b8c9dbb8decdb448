/**
 * One chat turn (send_message, send_message_non_stream), the summary request
 * (generate_summary) and the system-prompt presets. The model's reply is a
 * parameter: the raw reply content for a non-streamed turn, the received
 * lines and their JSON reading for a streamed one.
 */
module Turns {
  import opened Text
  import opened Transcript
  import opened TagScan
  import opened Think
  import opened Streaming

  // ---------------------------------------------------------------------
  // One turn
  // ---------------------------------------------------------------------

  /** The messages sent for a turn: the decoded transcript, then the stripped user input. */
  function TurnMessages(chatText: string, userInput: string, system: string): seq<Message>
  {
    Decode(chatText, system) + [Message(User, Strip(userInput))]
  }

  /** The reply as a non-streamed turn records it: stripped, then with its think spans rendered. */
  function RenderReply(raw: string): string
  {
    FormatThink(Strip(raw))
  }

  /**
   * What a non-streamed turn returns: the transcript with one more block
   * holding the user's trimmed input and the rendered reply, the display list
   * with those two messages appended, and an empty input box.
   */
  function TurnUpdate(chatText: string, userInput: string, system: string, raw: string): (r: Update)
    ensures r.chatText == if |Decode(chatText, system)| == 1 then Block(Strip(userInput), RenderReply(raw))
                          else Encode(Decode(chatText, system)) + Separator + Block(Strip(userInput), RenderReply(raw))
    ensures r.chatbot == Decode(chatText, system)[1..] + [Message(User, Strip(userInput)), Message(Assistant, RenderReply(raw))]
    ensures r.userInput == ""
  {
    SnapshotAppendsBlock(chatText, userInput, system, RenderReply(raw));
    SnapshotChatbot(chatText, userInput, system, RenderReply(raw));
    Snapshot(TurnMessages(chatText, userInput, system), RenderReply(raw))
  }

  /** send_message_non_stream, with the reply content taken as the parameter `raw`. */
  method SendMessageNonStream(chatText: string, userInput: string, system: string, raw: string)
    returns (update: Update)
    ensures update == TurnUpdate(chatText, userInput, system, raw)
  {
    var messages := ParseChatText(chatText, system);
    messages := messages + [Message(User, Strip(userInput))];
    var reply := FormatThink(Strip(raw));
    messages := messages + [Message(Assistant, reply)];
    var text := FormatChatText(messages);
    update := Update(text, ToChatbot(messages), "");
  }

  /**
   * send_message: in stream mode, the snapshots of the streaming loop over the
   * received `lines`; otherwise the single update of a non-streamed turn.
   */
  method SendMessage(chatText: string, userInput: string, system: string, streamMode: bool,
                     lines: seq<string>, parse: string -> Chunk, raw: string)
    returns (updates: seq<Update>)
    ensures streamMode ==> updates == StreamUpdates(lines, parse, TurnMessages(chatText, userInput, system))
    ensures !streamMode ==> updates == [TurnUpdate(chatText, userInput, system, raw)]
  {
    if streamMode {
      var messages := ParseChatText(chatText, system);
      messages := messages + [Message(User, Strip(userInput))];
      var consumed;
      updates, consumed := Stream(lines, parse, messages);
    } else {
      var update := SendMessageNonStream(chatText, userInput, system, raw);
      updates := [update];
    }
  }

  /** One more message with the next role and a trimmed content keeps a list alternating and trimmed. */
  lemma {:induction false} AlternatingSnoc(ms: seq<Message>, m: Message)
    requires Alternating(ms) && ContentsTrimmed(ms)
    requires m.role == RoleAt(|ms|) && Trimmed(m.content)
    ensures Alternating(ms + [m]) && ContentsTrimmed(ms + [m])
  {
    var ms' := ms + [m];
    forall k | 0 <= k < |ms'| ensures ms'[k].role == RoleAt(k) && (k >= 1 ==> Trimmed(ms'[k].content)) {
      if k < |ms| {
        assert ms'[k] == ms[k];
      }
    }
  }

  /**
   * The messages of a turn alternate from the system message on, have even
   * length and end with the user's trimmed input.
   */
  lemma {:induction false} TurnMessagesShape(chatText: string, userInput: string, system: string)
    ensures |TurnMessages(chatText, userInput, system)| == |Decode(chatText, system)| + 1
    ensures |TurnMessages(chatText, userInput, system)| % 2 == 0
    ensures TurnMessages(chatText, userInput, system)[0] == Message(System, system)
    ensures Alternating(TurnMessages(chatText, userInput, system))
    ensures ContentsTrimmed(TurnMessages(chatText, userInput, system))
    ensures TurnMessages(chatText, userInput, system)[|Decode(chatText, system)|] == Message(User, Strip(userInput))
  {
    var d := Decode(chatText, system);
    DecodeAlternates(chatText, system);
    assert d[0] == Message(System, system);
    AlternatingSnoc(d, Message(User, Strip(userInput)));
  }

  /** The reply a non-streamed turn records is trimmed. */
  lemma {:induction false} RenderTrimmed(raw: string)
    ensures Trimmed(RenderReply(raw))
  {
    ThinkTrimmed(Strip(raw));
  }

  /** A reply without a complete think span is recorded as the stripped reply. */
  lemma {:induction false} RenderPlain(raw: string)
    requires NoSpanFrom(Strip(raw), ThinkOpen, ThinkClose, 0)
    ensures RenderReply(raw) == Strip(raw)
  {
  }

  /** A turn's two new messages after a well-formed list keep it well-formed. */
  lemma {:induction false} WellFormedSnoc(ms: seq<Message>, user: string, reply: string)
    requires WellFormed(ms)
    requires Trimmed(user) && Trimmed(reply) && TagFree(user) && TagFree(reply)
    ensures WellFormed(ms + [Message(User, user), Message(Assistant, reply)])
  {
    var ms1 := ms + [Message(User, user)];
    AlternatingSnoc(ms, Message(User, user));
    AlternatingSnoc(ms1, Message(Assistant, reply));
    var ms' := ms + [Message(User, user), Message(Assistant, reply)];
    assert ms1 + [Message(Assistant, reply)] == ms';
    forall k | 1 <= k < |ms'| ensures TagFree(ms'[k].content) {
      if k < |ms| {
        assert ms'[k] == ms[k];
      }
    }
  }

  /** The user and assistant contents of a transcript hold no tag marker. */
  ghost predicate HistoryTagFree(chatText: string, system: string)
  {
    forall k :: 1 <= k < |Decode(chatText, system)| ==> TagFree(Decode(chatText, system)[k].content)
  }

  /** The first snapshot message list of a turn, spelled as the decoded history plus two messages. */
  lemma {:induction false} TurnList(chatText: string, userInput: string, system: string, reply: string)
    ensures TurnMessages(chatText, userInput, system) + [Message(Assistant, reply)]
            == Decode(chatText, system) + [Message(User, Strip(userInput)), Message(Assistant, reply)]
  {
  }

  /**
   * A reply snapshot of a turn re-encodes the transcript with one more block,
   * holding the user's trimmed input and the reply: after a separator, unless
   * the transcript held no pair before.
   */
  lemma {:induction false} SnapshotAppendsBlock(chatText: string, userInput: string, system: string, reply: string)
    ensures Snapshot(TurnMessages(chatText, userInput, system), reply).chatText
            == if |Decode(chatText, system)| == 1 then Block(Strip(userInput), reply)
               else Encode(Decode(chatText, system)) + Separator + Block(Strip(userInput), reply)
  {
    DecodeAlternates(chatText, system);
    TurnList(chatText, userInput, system, reply);
    EncodeAppendPair(Decode(chatText, system), Message(User, Strip(userInput)), Message(Assistant, reply));
  }

  /** Helper for SnapshotChatbot: the display list of an alternating list with one more non-system message. */
  lemma {:induction false} ChatbotSnoc(ms: seq<Message>, m: Message)
    requires |ms| > 0 && Alternating(ms) && m.role != System
    ensures ToChatbot(ms + [m]) == ms[1..] + [m]
  {
    ToChatbotAppend(ms, [m]);
    ToChatbotAlternating(ms);
    ToChatbotSingle(m);
  }

  /**
   * The display list of a reply snapshot is the transcript's user and
   * assistant messages, then the new user message and the reply.
   */
  lemma {:induction false} SnapshotChatbot(chatText: string, userInput: string, system: string, reply: string)
    ensures Snapshot(TurnMessages(chatText, userInput, system), reply).chatbot
            == Decode(chatText, system)[1..] + [Message(User, Strip(userInput)), Message(Assistant, reply)]
  {
    var d := Decode(chatText, system);
    var turn := TurnMessages(chatText, userInput, system);
    var a := Message(Assistant, reply);
    TurnMessagesShape(chatText, userInput, system);
    ChatbotSnoc(turn, a);
    assert turn[1..] == d[1..] + [Message(User, Strip(userInput))];
  }

  /**
   * A reply snapshot decodes back to the turn's messages and the reply, when
   * no content holds a tag marker and the reply is trimmed.
   */
  lemma {:induction false} SnapshotRoundTrip(chatText: string, userInput: string, system: string, reply: string)
    requires HistoryTagFree(chatText, system)
    requires TagFree(Strip(userInput)) && TagFree(reply) && Trimmed(reply)
    ensures Decode(Snapshot(TurnMessages(chatText, userInput, system), reply).chatText, system)
            == TurnMessages(chatText, userInput, system) + [Message(Assistant, reply)]
  {
    var d := Decode(chatText, system);
    DecodeAlternates(chatText, system);
    assert d[0] == Message(System, system);
    WellFormedSnoc(d, Strip(userInput), reply);
    TurnList(chatText, userInput, system, reply);
    var ms := d + [Message(User, Strip(userInput)), Message(Assistant, reply)];
    assert ms[0] == d[0];
    RoundTrip(ms);
  }

  /**
   * A non-streamed turn: the new transcript decodes to the old one plus the
   * user's trimmed input and the rendered reply, when no content holds a tag
   * marker.
   */
  lemma {:induction false} TurnRoundTrip(chatText: string, userInput: string, system: string, raw: string)
    requires HistoryTagFree(chatText, system)
    requires TagFree(Strip(userInput)) && TagFree(RenderReply(raw))
    ensures Decode(TurnUpdate(chatText, userInput, system, raw).chatText, system)
            == Decode(chatText, system) + [Message(User, Strip(userInput)), Message(Assistant, RenderReply(raw))]
  {
    RenderTrimmed(raw);
    SnapshotRoundTrip(chatText, userInput, system, RenderReply(raw));
    TurnList(chatText, userInput, system, RenderReply(raw));
  }

  /**
   * The k-th update of a streamed turn decodes back to the turn's messages and
   * the k-th partial reply, when no content holds a tag marker and that
   * partial reply is trimmed (streamed replies are neither stripped nor
   * rendered).
   */
  lemma {:induction false} StreamRoundTrip(chatText: string, userInput: string, system: string,
                                           lines: seq<string>, parse: string -> Chunk, k: nat)
    requires k < |Replies(lines, parse)|
    requires HistoryTagFree(chatText, system) && TagFree(Strip(userInput))
    requires TagFree(Replies(lines, parse)[k]) && Trimmed(Replies(lines, parse)[k])
    ensures k < |StreamUpdates(lines, parse, TurnMessages(chatText, userInput, system))|
    ensures Decode(StreamUpdates(lines, parse, TurnMessages(chatText, userInput, system))[k].chatText, system)
            == TurnMessages(chatText, userInput, system) + [Message(Assistant, Replies(lines, parse)[k])]
  {
    var messages := TurnMessages(chatText, userInput, system);
    SnapshotsAt(messages, Replies(lines, parse), k);
    SnapshotRoundTrip(chatText, userInput, system, Replies(lines, parse)[k]);
  }

  // ---------------------------------------------------------------------
  // The summary request
  // ---------------------------------------------------------------------

  const PromptBreak: string := "\n\n"

  /** What generate_summary sends, and what it returns for the reply content `raw`. */
  datatype SummaryCall = SummaryCall(request: seq<Message>, summary: string)

  /** generate_summary, with the reply content taken as the parameter `raw`. */
  function GenerateSummary(chatText: string, prompt: string, system: string, raw: string): (r: SummaryCall)
    ensures |r.request| == 2 && r.request[0] == Message(System, system) && r.request[1].role == User
    ensures r.summary == Strip(raw) && Trimmed(r.summary) && |r.summary| <= |raw|
  {
    SummaryCall([Message(System, system), Message(User, Strip(prompt) + PromptBreak + Strip(chatText))],
                Strip(raw))
  }

  /**
   * The user message of the summary request holds the trimmed prompt, a blank
   * line and the trimmed transcript, in that order, and the summary is the
   * stripped reply, which stripping again leaves unchanged.
   */
  lemma {:induction false} SummaryParts(chatText: string, prompt: string, system: string, raw: string)
    ensures var c := GenerateSummary(chatText, prompt, system, raw).request[1].content;
            var p := |Strip(prompt)|;
            && |c| == p + 2 + |Strip(chatText)|
            && c[..p] == Strip(prompt)
            && c[p..p + 2] == PromptBreak
            && c[p + 2..] == Strip(chatText)
    ensures Strip(GenerateSummary(chatText, prompt, system, raw).summary) == GenerateSummary(chatText, prompt, system, raw).summary
  {
    var c := Strip(prompt) + PromptBreak + Strip(chatText);
    var p := |Strip(prompt)|;
    assert c[..p] == Strip(prompt);
    assert c[p..p + 2] == PromptBreak;
    assert c[p + 2..] == Strip(chatText);
    StripIdempotent(raw);
  }

  // ---------------------------------------------------------------------
  // System prompt presets
  // ---------------------------------------------------------------------

  const Presets: map<string, string> := map["默认提示" := "You are a helpful assistant.", "/no_think" := "/no_think"]

  /** update_system_message_from_dropdown: the preset's text, or "" for an unknown choice. */
  function SystemPreset(choice: string): (r: string)
    ensures choice == "默认提示" ==> r == "You are a helpful assistant."
    ensures choice == "/no_think" ==> r == "/no_think"
    ensures choice != "默认提示" && choice != "/no_think" ==> r == ""
  {
    if choice in Presets then Presets[choice] else ""
  }

}
