# notion_agent: a verified model of the transcript logic

`notion_agent/notion_agent.py` is a small chat front end. It keeps one conversation in three forms:

- a text blob the user can edit: `[用户]…[/用户]` and `[助手]…[/助手]` blocks joined by `\n\n---\n\n`;
- the message list sent to a chat-completion server: a system message, then alternating user and assistant messages;
- the chat view: the same list without the system message.

This project models, in Dafny, the code that moves a conversation between those forms:

- decoding a blob into messages and encoding messages back into a blob;
- the chat view projection;
- rendering `<think>…</think>` reasoning spans as collapsed `<details>` blocks;
- the streaming loop that grows a partial reply line by line;
- assembling one non-streamed turn;
- the request behind a conversation summary;
- the system-prompt presets.

Modules:

- `Wrappers` (`wrappers.dfy`): `Option`.
- `Text` (`text.dfy`): Python's `str.strip()` over the exact `str.isspace()` character set, prefix tests, and literal substring search.
- `TagScan` (`tagscan.dfy`): `re.findall` and `re.sub` for a pattern `OPEN(.*?)CLOSE` whose tags are literals, under `re.S`. The scanner `Scan` returns the index pairs of the inner texts. The code finds the leftmost opening tag, then the first closing tag at or after the end of that opening tag, then resumes after the closing tag. If an opening tag has no closing tag after it, no further match exists. The model proves this scan is the unique leftmost, lazy, non-overlapping match sequence (`LeftmostLazy`).
- `Transcript` (`transcript.dfy`): `parse_chat_text_to_messages` (`Decode`, and the loop method `ParseChatText`), `format_messages_to_chat_text` (`Encode`, and the loop method `FormatChatText`), `messages_to_chatbot` (`ToChatbot`), and the conditional round trip.
- `Think` (`think.dfy`): `format_think_text`.
- `Streaming` (`streaming.dfy`): the streaming loop of `send_message`. It is a method `Stream` with a `while` loop, proved against the functions `StreamUpdates` and `LinesRead`.
- `Turns` (`turns.dfy`): `send_message`, `send_message_non_stream`, `generate_summary`, and `update_system_message_from_dropdown`.

Where the program talks to the outside world, the model takes a parameter instead:

- The reply content of a non-streamed call is a string parameter `raw`.
- The generated summary is a string parameter `raw` as well.
- A streamed reply is a sequence of already-decoded lines, `lines`.
- `json.loads`, together with the lookups of `choices[0]`, `delta` and `content`, is an oracle `parse: string -> Chunk`. A `Chunk` says what the loop reads out of a payload:
  - `Malformed`: any exception;
  - `NoDelta`: `choices[0]` has no `delta`;
  - `NoContent`: the delta has no `content`;
  - `Content(piece)`: the content is the string `piece`.
- A yielded triple `(chat_text, chatbot, "")` is an `Update`. A generator is the sequence of everything it yields.

## Model

| member | source | states |
|---|---|---|
| Text.Strip | notion_agent/notion_agent.py:21-22 | `str.strip()`: the result neither starts nor ends with whitespace and is no longer than the input |
| Text.StripPiece | notion_agent/notion_agent.py:21-22 | the stripped text is the input with an all-whitespace prefix and an all-whitespace suffix removed |
| Text.StripTrimmed | notion_agent/notion_agent.py:21-22 | stripping text that is already trimmed leaves it unchanged |
| Text.StripIdempotent | notion_agent/notion_agent.py:21-22 | stripping twice is stripping once |
| Text.IndexFromSpec | notion_agent/notion_agent.py:16-19 | the substring search returns the first occurrence at or after the start index, or none when there is no occurrence there |
| TagScan.ScanOrdered | notion_agent/notion_agent.py:16-19 | the matches lie in order inside the text, each with room for its two tags, and never overlap |
| TagScan.ScanLeftmostLazy | notion_agent/notion_agent.py:16-19 | each match begins at the leftmost opening tag after the previous match and ends at the first closing tag after that opening tag; when no match is left, no opening tag from there on has a closing tag after it |
| TagScan.ScanIsLeftmostLazy | notion_agent/notion_agent.py:16-19 | a match sequence is the scan's result if and only if it is leftmost and lazy: the regular-expression semantics has exactly one answer and the scanner computes it |
| TagScan.FindAll | notion_agent/notion_agent.py:16-19 | `re.findall` for literal tags: the inner texts of the scan's matches, in order. `ScanIsLeftmostLazy` says which matches these are, `FindAllEmpty` when there are none, and `FindAllNonGreedy` what a capture cannot hold |
| TagScan.FindAllEmpty | notion_agent/notion_agent.py:18-19 | `findall` returns nothing if and only if no opening tag has a closing tag after it |
| TagScan.FindAllNonGreedy | notion_agent/notion_agent.py:16-19 | no capture contains the closing tag, because the scan is lazy |
| TagScan.ScanShift | notion_agent/notion_agent.py:18-19 | scanning a text behind a prefix, from a point past the prefix, gives the same matches shifted by the prefix's length |
| TagScan.FindAllHead | notion_agent/notion_agent.py:18-19 | a text that starts with a complete tagged span, whose inner text ends in a newline and holds no closing tag, yields that inner text first and then the captures of the rest |
| TagScan.Replace | notion_agent/notion_agent.py:44 | `re.sub` for literal tags returns a text without a complete span unchanged. `ReplaceFromStep` gives each replacement and `ThinkSpans` the whole result |
| TagScan.ReplaceFromStep | notion_agent/notion_agent.py:44 | at the first span from a point on, `re.sub` keeps the text before the opening tag, replaces the span with the function of its inner text, and carries on after the closing tag |
| TagScan.SubFirst | notion_agent/notion_agent.py:44 | if every replacement starts with a fixed character, the substitution starts with the text's own first character there or with that character |
| TagScan.SubLast | notion_agent/notion_agent.py:44 | if every replacement ends with a fixed character, the substitution ends with the text's last character or with that character |
| Transcript.Decode | notion_agent/notion_agent.py:14-23 | a decoded blob always holds 1 + 2·min(#user captures, #assistant captures) messages, the first being the system message. `DecodeShape` places each capture, `DecodeAlternates` fixes the roles, and `RoundTrip` makes it the inverse of `Encode` |
| Transcript.ParseChatText | notion_agent/notion_agent.py:14-23 | the loop that zips the user and assistant captures builds exactly `Decode(text, system)` |
| Transcript.AssembleShape | notion_agent/notion_agent.py:15-22 | the list always has 1 + 2·min(#user captures, #assistant captures) messages, the system message first. For every k below that minimum, positions 2k+1 and 2k+2 hold the k-th stripped user capture and the k-th stripped assistant capture. Unmatched captures are dropped |
| Transcript.DecodeShape | notion_agent/notion_agent.py:14-23 | the same for a decoded blob: its length and the system message first, always; for every k below the minimum, the k-th user and assistant captures, stripped, at positions 2k+1 and 2k+2 |
| Transcript.DecodeAlternates | notion_agent/notion_agent.py:15-22 | a decoded list has odd length, its roles go system, user, assistant, user, …, and every user or assistant content is trimmed |
| Transcript.FormatChatText | notion_agent/notion_agent.py:25-34 | the indexed loop, which stops at the first unpaired message, builds exactly `Encode(ms)` |
| Transcript.EncodeBlocks | notion_agent/notion_agent.py:26-34 | a list of n messages encodes to (n−1)/2 blocks joined by the separator, and block k holds messages 2k+1 and 2k+2 |
| Transcript.Encode | notion_agent/notion_agent.py:25-34 | the blob is empty if and only if the list has at most two messages. `EncodeBlocks` gives its blocks and `RoundTrip` makes `Decode` its inverse |
| Transcript.EncodeDropsTrailing | notion_agent/notion_agent.py:27-29 | a trailing unpaired message does not change the blob |
| Transcript.EncodeAppendPair | notion_agent/notion_agent.py:26-34 | two more messages after an odd-length list append exactly one block, after a separator unless it is the first block |
| Transcript.JoinSnoc | notion_agent/notion_agent.py:34 | `"\n\n---\n\n".join` of one more part adds the separator and the part, unless the part is the only one |
| Transcript.RoundTrip | notion_agent/notion_agent.py:14-34 | decoding the encoding of a list, with that list's system content, gives the list back, when the list has odd length, alternates from the system message, has trimmed contents, and has no tag marker in any user or assistant content |
| Transcript.UserCaptures | notion_agent/notion_agent.py:16-18 | when no content holds a tag marker, the user captures of a joined sequence of blocks are the user contents, each between two newlines |
| Transcript.BotCaptures | notion_agent/notion_agent.py:17-19 | when no content holds a tag marker, the assistant captures of a joined sequence of blocks are the assistant contents, each between two newlines |
| Transcript.ToChatbot | notion_agent/notion_agent.py:36-38 | the chat view is no longer than the list and holds no system message. `ToChatbotKeeps` says which messages it keeps and `ToChatbotAppend` that it keeps their order |
| Transcript.ToChatbotKeeps | notion_agent/notion_agent.py:36-38 | a message is in the chat view if and only if it is in the list and is not a system message |
| Transcript.ToChatbotAppend | notion_agent/notion_agent.py:38 | the chat view of a concatenation is the concatenation of the chat views, so the order of the kept messages is preserved |
| Transcript.ToChatbotNoSystem | notion_agent/notion_agent.py:38 | a list without system messages is its own chat view |
| Transcript.ToChatbotAlternating | notion_agent/notion_agent.py:38 | for an alternating list, the chat view drops exactly the leading system message |
| Think.FormatThink | notion_agent/notion_agent.py:40-44 | text without a complete `<think>…</think>` span is returned unchanged. `ThinkStep` and `ThinkSpans` give what becomes of each span, and `ThinkTrimmed` keeps trimmed text trimmed |
| Think.ThinkNoTag | notion_agent/notion_agent.py:40-44 | in particular, text without an opening tag or without a closing tag is returned unchanged |
| Think.DetailsBody | notion_agent/notion_agent.py:41-43 | the wrapper is the fixed `<details><summary>思考</summary>\n\n` head, the stripped inner text and the fixed `\n\n</details>` tail; inner texts that strip to the same text give the same wrapper |
| Think.ThinkStep | notion_agent/notion_agent.py:40-44 | left to right: at the first span, the text before it is kept, the span becomes the wrapper around its inner text, and rendering continues after the closing tag |
| Think.ThinkEnd | notion_agent/notion_agent.py:44 | once no span is left, the rest of the text is kept unchanged |
| Think.ThinkSpans | notion_agent/notion_agent.py:44 | the spans rendered are exactly the leftmost, lazy, non-overlapping ones, and the rendering is the text cut at those spans |
| Think.ThinkFirst | notion_agent/notion_agent.py:40-44 | a non-empty text renders to a non-empty text that starts with the original first character or with `<` |
| Think.ThinkLast | notion_agent/notion_agent.py:40-44 | a non-empty text renders to a text that ends with the original last character or with `>` |
| Think.ThinkTrimmed | notion_agent/notion_agent.py:40-44 | trimmed text renders to trimmed text |
| Streaming.PayloadShape | notion_agent/notion_agent.py:82-84 | the payload of a line is the stripped line, or what follows a leading `data: ` in it |
| Streaming.Classify | notion_agent/notion_agent.py:81-98 | a line ends the stream if and only if it is non-empty and its payload is `[DONE]`; it is skipped if and only if it is blank or its payload, which is not `[DONE]`, fails to decode |
| Streaming.OutcomesAt | notion_agent/notion_agent.py:80-98 | the loop's decision for line k depends only on line k |
| Streaming.Consumed | notion_agent/notion_agent.py:80-86 | the lines read are at most all of them; if fewer than all are read, the last line read is `[DONE]`; no earlier line is `[DONE]` |
| Streaming.Stream | notion_agent/notion_agent.py:79-98 | the loop yields exactly `StreamUpdates(lines, parse, messages)` and reads exactly `LinesRead(lines, parse)` lines |
| Streaming.PartialsAt | notion_agent/notion_agent.py:79-90 | the k-th partial reply is the starting text followed by the first k+1 deltas |
| Streaming.StreamUpdates | notion_agent/notion_agent.py:79-96 | the stream yields one value per delta received before `[DONE]`. `StreamAt` gives each value and `StreamLast` the final one |
| Streaming.StreamAt | notion_agent/notion_agent.py:79-96 | one value is yielded per decoded line; the k-th is the encoding of the messages plus an assistant message holding the first k+1 deltas, its chat view, and an empty input box |
| Streaming.MissingContent | notion_agent/notion_agent.py:88-90 | a chunk without `delta` or without `content` contributes the empty delta and still yields the unchanged partial reply |
| Streaming.SkipAnywhere | notion_agent/notion_agent.py:81-98 | a blank or skipped line anywhere changes neither the deltas nor the partial replies, and it costs one line read if it comes before any `[DONE]` |
| Streaming.DoneAnywhere | notion_agent/notion_agent.py:85-86 | after a `[DONE]`, nothing else is yielded and no further line is read |
| Streaming.IgnoredLine | notion_agent/notion_agent.py:81-98 | removing a blank or undecodable line from a stream changes nothing yielded, and it changes the lines read by one only if the line came before `[DONE]` |
| Streaming.DoneStops | notion_agent/notion_agent.py:85-86 | everything after a `[DONE]` line is never read and changes nothing yielded |
| Streaming.StreamLast | notion_agent/notion_agent.py:79-96 | the last value yielded holds the whole reply: the assistant message is the concatenation, in order, of every delta received before `[DONE]` |
| Turns.TurnUpdate | notion_agent/notion_agent.py:46-60 | a non-streamed turn rewrites the transcript as its re-encoding with one more block, holding the stripped user input and the rendered reply, after a separator unless it held no pair. The chat view becomes the transcript's user and assistant messages plus those two, and the input box is emptied |
| Turns.SendMessageNonStream | notion_agent/notion_agent.py:46-60 | a non-streamed turn returns the encoding and chat view of the decoded transcript, plus the stripped user input and the stripped, rendered reply, and an empty input box |
| Turns.SendMessage | notion_agent/notion_agent.py:62-103 | in stream mode, the turn yields the stream's snapshots for the decoded transcript plus the stripped user input; otherwise it yields the single non-streamed update |
| Turns.TurnMessagesShape | notion_agent/notion_agent.py:47-48 | the messages of a turn start with the system message, alternate, have trimmed contents and even length, and end with the stripped user input |
| Turns.RenderTrimmed | notion_agent/notion_agent.py:54-56 | the recorded reply of a non-streamed turn is trimmed |
| Turns.RenderPlain | notion_agent/notion_agent.py:54-56 | a reply without a complete think span is recorded as the stripped reply |
| Turns.WellFormedSnoc | notion_agent/notion_agent.py:48-57 | appending a trimmed, tag-free user message and assistant message to a list the blob carries unchanged gives such a list again |
| Turns.SnapshotAppendsBlock | notion_agent/notion_agent.py:57-58 | a turn rewrites the transcript as its own re-encoding with one more block holding the stripped user input and the reply, after a separator unless the transcript held no pair |
| Turns.SnapshotChatbot | notion_agent/notion_agent.py:58-59 | a turn's chat view is the transcript's user and assistant messages, then the new user message and the reply |
| Turns.SnapshotRoundTrip | notion_agent/notion_agent.py:46-60 | a reply snapshot decodes back to the turn's messages plus the reply, when no content holds a tag marker and the reply is trimmed |
| Turns.TurnRoundTrip | notion_agent/notion_agent.py:46-60 | after a non-streamed turn, the new transcript decodes to the old messages plus the stripped user input and the rendered reply, when no content holds a tag marker |
| Turns.StreamRoundTrip | notion_agent/notion_agent.py:79-96 | the k-th streamed snapshot decodes back to the turn's messages plus the k-th partial reply, when no content holds a tag marker and that partial reply is trimmed |
| Turns.GenerateSummary | notion_agent/notion_agent.py:134-146 | the summary request has two messages, the system message and then a user message. The summary is the reply stripped, so it is trimmed and no longer than the reply |
| Turns.SummaryParts | notion_agent/notion_agent.py:135 | the user message of the summary request is the stripped prompt, a blank line and the stripped transcript, in that order; the summary is left unchanged by stripping again |
| Turns.SystemPreset | notion_agent/notion_agent.py:105-107 | "默认提示" gives "You are a helpful assistant.", "/no_think" gives "/no_think", and any other choice gives the empty text |

## Left out

- HTTP: the model does not include `requests.post`, the headers, the payload fields `model`, `temperature`, `max_tokens` and `stream`, or `raise_for_status`. These are network I/O. The reply content is a parameter, and an HTTP error is outside the model.
- In `send_message_non_stream` and `generate_summary`, the model does not handle a server response without `choices[0].message.content`. The source raises an exception there, which the model does not represent. The model starts from the content string.
- JSON decoding, and the lookups of `choices[0]`, `delta` and `content`, are the oracle `parse`. A `null` content, a content that is not a string, or a missing `choices` makes the `+=` or the lookup raise inside the `try`, so the oracle reports all of these as `Malformed`.
- The model does not include `line.decode('utf-8')`. Lines are taken as already-decoded strings. A decoding failure, which the source raises outside the `try`, is not modelled.
- `Turns.SendMessage` does not return the number of lines read. The streaming loop reports it, and `Streaming.Stream` states it. Nothing outside the loop uses that count.
- The model does not include closing the HTTP stream when the caller stops consuming the generator early. This is runtime resource handling.
- The Gradio interface, `write_to_notion`, the other Notion API functions, `datetime.now()` timestamps, and `load_dotenv`/`os.getenv` configuration are not part of this model. They are UI, network or environment code, and no transcript logic depends on them.
- Turns.StreamRoundTrip: it requires each partial reply to be trimmed, because streamed replies are neither stripped nor rendered. Without that condition a decoded snapshot holds the stripped partial reply instead.
- TagScan: the model handles only patterns whose opening and closing tags are literals, which covers every pattern the program uses. General regular expressions are not modelled.
