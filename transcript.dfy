/**
 * The chat transcript in its three forms: the text blob kept in the text
 * box, the role-tagged message list sent to the model, and the list shown
 * in the chat window.
 *
 * The blob is a sequence of blocks
 *   [用户]\n<user>\n[/用户]\n[助手]\n<assistant>\n[/助手]
 * joined by "\n\n---\n\n". Decoding collects the user captures and the
 * assistant captures separately and pairs them up; encoding writes one
 * block per user/assistant pair after the system message.
 */
module Transcript {
  import opened Text
  import opened TagScan

  datatype Role = System | User | Assistant

  datatype Message = Message(role: Role, content: string)

  const UserOpen: string := "[用户]"
  const UserClose: string := "[/用户]"
  const BotOpen: string := "[助手]"
  const BotClose: string := "[/助手]"
  const Separator: string := "\n\n---\n\n"

  function Min(a: nat, b: nat): nat
  {
    if a <= b then a else b
  }

  // ---------------------------------------------------------------------
  // Decoding: parse_chat_text_to_messages
  // ---------------------------------------------------------------------

  /** The user and assistant messages made from the first `n` contents of each kind, in turn. */
  function Pairs(users: seq<string>, bots: seq<string>, n: nat): (r: seq<Message>)
    requires n <= |users| && n <= |bots|
    ensures |r| == 2 * n
  {
    if n == 0 then []
    else Pairs(users, bots, n - 1) + [Message(User, users[n - 1]), Message(Assistant, bots[n - 1])]
  }

  /** Every text stripped. */
  function StripAll(xs: seq<string>): (r: seq<string>)
    ensures |r| == |xs|
    decreases |xs|
  {
    if xs == [] then [] else [Strip(xs[0])] + StripAll(xs[1..])
  }

  /** The k-th stripped text is the k-th text, stripped, and it is trimmed. */
  lemma {:induction false} StripAllAt(xs: seq<string>, k: nat)
    requires k < |xs|
    ensures StripAll(xs)[k] == Strip(xs[k]) && Trimmed(StripAll(xs)[k])
    decreases k
  {
    if k > 0 {
      StripAllAt(xs[1..], k - 1);
    }
  }

  /** The user captures of a blob. */
  function UserTexts(text: string): seq<string>
  {
    FindAll(text, UserOpen, UserClose)
  }

  /** The assistant captures of a blob. */
  function BotTexts(text: string): seq<string>
  {
    FindAll(text, BotOpen, BotClose)
  }

  /**
   * The message list made from the captures: the system message, then the
   * user and assistant captures zipped, each stripped; captures left over
   * on either side are dropped.
   */
  function Assemble(system: string, users: seq<string>, bots: seq<string>): (r: seq<Message>)
    ensures |r| == 1 + 2 * Min(|users|, |bots|)
    ensures r[0] == Message(System, system)
  {
    [Message(System, system)] + Pairs(StripAll(users), StripAll(bots), Min(|users|, |bots|))
  }

  /**
   * The message list a blob decodes to: the system message, then one
   * user/assistant pair per zipped pair of captures.
   */
  function Decode(text: string, system: string): (r: seq<Message>)
    ensures |r| == 1 + 2 * Min(|UserTexts(text)|, |BotTexts(text)|)
    ensures r[0] == Message(System, system)
  {
    Assemble(system, UserTexts(text), BotTexts(text))
  }

  /** parse_chat_text_to_messages. */
  method ParseChatText(text: string, system: string) returns (messages: seq<Message>)
    ensures messages == Decode(text, system)
  {
    var users := UserTexts(text);
    var bots := BotTexts(text);
    messages := ZipCaptures(system, users, bots);
  }

  /** The loop of parse_chat_text_to_messages: appends a user and an assistant message per zipped pair. */
  method ZipCaptures(system: string, users: seq<string>, bots: seq<string>) returns (messages: seq<Message>)
    ensures messages == Assemble(system, users, bots)
  {
    messages := [Message(System, system)];
    var n := Min(|users|, |bots|);
    var k := 0;
    while k < n
      invariant k <= n
      invariant messages == [Message(System, system)] + Pairs(StripAll(users), StripAll(bots), k)
    {
      var user := Message(User, Strip(users[k]));
      var bot := Message(Assistant, Strip(bots[k]));
      StripAllAt(users, k);
      StripAllAt(bots, k);
      AppendTwo([Message(System, system)], Pairs(StripAll(users), StripAll(bots), k), user, bot);
      messages := messages + [user];
      messages := messages + [bot];
      k := k + 1;
    }
  }

  /** Helper: appending two messages one after the other. */
  lemma {:induction false} AppendTwo(head: seq<Message>, body: seq<Message>, x: Message, y: Message)
    ensures head + body + [x] + [y] == head + (body + [x, y])
  {
  }

  /** The k-th pair holds the k-th user content and the k-th assistant content. */
  lemma {:induction false} PairsAt(users: seq<string>, bots: seq<string>, n: nat, k: nat)
    requires n <= |users| && n <= |bots| && k < n
    ensures Pairs(users, bots, n)[2 * k] == Message(User, users[k])
    ensures Pairs(users, bots, n)[2 * k + 1] == Message(Assistant, bots[k])
    decreases n
  {
    if k < n - 1 {
      PairsAt(users, bots, n - 1, k);
    }
  }

  /** Helper: the role of the i-th message of the pairs. */
  lemma {:induction false} PairsRole(users: seq<string>, bots: seq<string>, n: nat, i: nat)
    requires n <= |users| && n <= |bots| && i < 2 * n
    ensures Pairs(users, bots, n)[i].role == RoleAt(i + 1)
    ensures Pairs(users, bots, n)[i].content == if i % 2 == 0 then users[i / 2] else bots[i / 2]
  {
    var k := i / 2;
    PairsAt(users, bots, n, k);
    if i % 2 == 0 {
      assert i == 2 * k;
    } else {
      assert i == 2 * k + 1;
    }
  }

  /** The role the k-th message of a well-formed list has. */
  function RoleAt(k: nat): Role
  {
    if k == 0 then System else if k % 2 == 1 then User else Assistant
  }

  /** The roles go system, user, assistant, user, assistant, … */
  predicate Alternating(ms: seq<Message>)
  {
    forall k :: 0 <= k < |ms| ==> ms[k].role == RoleAt(k)
  }

  /** Every user and assistant content is whitespace-trimmed. */
  predicate ContentsTrimmed(ms: seq<Message>)
  {
    forall k :: 1 <= k < |ms| ==> Trimmed(ms[k].content)
  }

  /**
   * An assembled list holds 1 + 2 * min(#user captures, #assistant
   * captures) messages: the system message, then the k-th user capture and
   * the k-th assistant capture, stripped, for each k below the minimum.
   */
  lemma {:induction false} AssembleShape(system: string, users: seq<string>, bots: seq<string>, k: nat)
    ensures |Assemble(system, users, bots)| == 1 + 2 * Min(|users|, |bots|)
    ensures Assemble(system, users, bots)[0] == Message(System, system)
    ensures k < Min(|users|, |bots|) ==>
              && Assemble(system, users, bots)[2 * k + 1] == Message(User, Strip(users[k]))
              && Assemble(system, users, bots)[2 * k + 2] == Message(Assistant, Strip(bots[k]))
  {
    var n := Min(|users|, |bots|);
    if k >= n {
      return;
    }
    var p := Pairs(StripAll(users), StripAll(bots), n);
    var d := Assemble(system, users, bots);
    assert d == [Message(System, system)] + p;
    assert d[2 * k + 1] == p[2 * k] && d[2 * k + 2] == p[2 * k + 1];
    PairsAt(StripAll(users), StripAll(bots), n, k);
    StripAllAt(users, k);
    StripAllAt(bots, k);
  }

  /** An assembled list alternates its roles, starting with the system message, and its contents are trimmed. */
  lemma {:induction false} AssembleAlternates(system: string, users: seq<string>, bots: seq<string>)
    ensures |Assemble(system, users, bots)| % 2 == 1
    ensures Alternating(Assemble(system, users, bots))
    ensures ContentsTrimmed(Assemble(system, users, bots))
  {
    var n := Min(|users|, |bots|);
    var d := Assemble(system, users, bots);
    var us := StripAll(users);
    var bs := StripAll(bots);
    forall i | 1 <= i < |d| ensures d[i].role == RoleAt(i) && Trimmed(d[i].content) {
      PairsRole(us, bs, n, i - 1);
      assert d[i] == Pairs(us, bs, n)[i - 1];
      StripAllAt(users, (i - 1) / 2);
      StripAllAt(bots, (i - 1) / 2);
    }
  }

  /** Decoding a blob: its shape, stated on the blob's own captures. */
  lemma {:induction false} DecodeShape(text: string, system: string, k: nat)
    ensures |Decode(text, system)| == 1 + 2 * Min(|UserTexts(text)|, |BotTexts(text)|)
    ensures Decode(text, system)[0] == Message(System, system)
    ensures k < Min(|UserTexts(text)|, |BotTexts(text)|) ==>
              && Decode(text, system)[2 * k + 1] == Message(User, Strip(UserTexts(text)[k]))
              && Decode(text, system)[2 * k + 2] == Message(Assistant, Strip(BotTexts(text)[k]))
  {
    AssembleShape(system, UserTexts(text), BotTexts(text), k);
  }

  /** A decoded list alternates its roles, starting with the system message, and its contents are trimmed. */
  lemma {:induction false} DecodeAlternates(text: string, system: string)
    ensures |Decode(text, system)| % 2 == 1
    ensures Alternating(Decode(text, system))
    ensures ContentsTrimmed(Decode(text, system))
  {
    AssembleAlternates(system, UserTexts(text), BotTexts(text));
  }

  // ---------------------------------------------------------------------
  // Encoding: format_messages_to_chat_text
  // ---------------------------------------------------------------------

  /** One user/assistant block of the blob. */
  function Block(user: string, assistant: string): string
  {
    UserOpen + "\n" + user + "\n" + UserClose + "\n" + BotOpen + "\n" + assistant + "\n" + BotClose
  }

  /**
   * How many blocks a list of `n` messages makes: one per message pair after
   * the first message; a trailing unpaired message makes none.
   */
  function BlockCount(n: nat): nat
  {
    if n == 0 then 0 else (n - 1) / 2
  }

  /** The first `n` blocks: block k holds messages 2k+1 and 2k+2. */
  function Blocks(ms: seq<Message>, n: nat): (r: seq<string>)
    requires n <= BlockCount(|ms|)
    ensures |r| == n
  {
    if n == 0 then []
    else Blocks(ms, n - 1) + [Block(ms[2 * n - 1].content, ms[2 * n].content)]
  }

  /** `sep.join(parts)`. */
  function Join(parts: seq<string>, sep: string): string
    decreases |parts|
  {
    if |parts| == 0 then ""
    else if |parts| == 1 then parts[0]
    else parts[0] + sep + Join(parts[1..], sep)
  }

  /**
   * The blob a message list encodes to. A list of at most two messages, and
   * only such a list, encodes to the empty text.
   */
  function Encode(ms: seq<Message>): (r: string)
    ensures r == "" <==> |ms| <= 2
  {
    BlocksNonEmpty(ms, BlockCount(|ms|));
    JoinEmpty(Blocks(ms, BlockCount(|ms|)), Separator);
    Join(Blocks(ms, BlockCount(|ms|)), Separator)
  }

  /** format_messages_to_chat_text: appends blocks in an indexed loop that stops at the first unpaired message. */
  method FormatChatText(ms: seq<Message>) returns (text: string)
    ensures text == Encode(ms)
  {
    var texts: seq<string> := [];
    var i := 1;
    while i < |ms|
      invariant i % 2 == 1 && i <= |ms| + 1
      invariant (i - 1) / 2 <= BlockCount(|ms|)
      invariant texts == Blocks(ms, (i - 1) / 2)
    {
      if i + 1 >= |ms| {
        break;
      }
      texts := texts + [Block(ms[i].content, ms[i + 1].content)];
      i := i + 2;
    }
    text := Join(texts, Separator);
  }

  /** The k-th block holds messages 2k+1 and 2k+2. */
  lemma {:induction false} BlocksAt(ms: seq<Message>, n: nat, k: nat)
    requires n <= BlockCount(|ms|) && k < n
    ensures Blocks(ms, n)[k] == Block(ms[2 * k + 1].content, ms[2 * k + 2].content)
    decreases n
  {
    if k < n - 1 {
      BlocksAt(ms, n - 1, k);
    }
  }

  /** No block is empty. */
  lemma {:induction false} BlocksNonEmpty(ms: seq<Message>, n: nat)
    requires n <= BlockCount(|ms|)
    ensures forall k :: 0 <= k < n ==> Blocks(ms, n)[k] != []
  {
    forall k | 0 <= k < n ensures Blocks(ms, n)[k] != [] {
      BlocksAt(ms, n, k);
    }
  }

  /**
   * A list of n messages encodes to exactly (n-1)/2 blocks joined by the
   * separator: block k holds messages 2k+1 and 2k+2.
   */
  lemma {:induction false} EncodeBlocks(ms: seq<Message>, k: nat)
    requires k < BlockCount(|ms|)
    ensures Encode(ms) == Join(Blocks(ms, BlockCount(|ms|)), Separator)
    ensures |Blocks(ms, BlockCount(|ms|))| == (|ms| - 1) / 2
    ensures Blocks(ms, BlockCount(|ms|))[k] == Block(ms[2 * k + 1].content, ms[2 * k + 2].content)
  {
    BlocksAt(ms, BlockCount(|ms|), k);
  }

  /** Joining non-empty parts gives the empty text only when there are no parts. */
  lemma {:induction false} JoinEmpty(parts: seq<string>, sep: string)
    requires forall k :: 0 <= k < |parts| ==> parts[k] != []
    ensures Join(parts, sep) == [] <==> parts == []
  {
    if |parts| > 1 {
      assert |parts[0] + sep + Join(parts[1..], sep)| >= |parts[0]| > 0;
    }
  }

  /** Joining one more part adds the separator and the part, unless it is the only one. */
  lemma {:induction false} JoinSnoc(parts: seq<string>, p: string, sep: string)
    ensures Join(parts + [p], sep) == if |parts| == 0 then p else Join(parts, sep) + sep + p
    decreases |parts|
  {
    if |parts| == 1 {
      assert parts + [p] == [parts[0], p];
      assert [parts[0], p][1..] == [p];
    } else if |parts| > 1 {
      assert (parts + [p])[1..] == parts[1..] + [p];
      JoinSnoc(parts[1..], p, sep);
    }
  }

  /**
   * A list of odd length with one more pair of messages encodes to its own
   * blob with one more block: after a separator, unless the list made no
   * block before.
   */
  lemma {:induction false} EncodeAppendPair(ms: seq<Message>, x: Message, y: Message)
    requires |ms| % 2 == 1
    ensures Encode(ms + [x, y]) == if |ms| == 1 then Block(x.content, y.content)
                                   else Encode(ms) + Separator + Block(x.content, y.content)
  {
    var ms' := ms + [x, y];
    var n := BlockCount(|ms|);
    assert BlockCount(|ms'|) == n + 1;
    assert ms'[..2 * n + 1] == ms[..2 * n + 1];
    BlocksPrefix(ms', ms, n);
    assert ms'[2 * n + 1] == x && ms'[2 * n + 2] == y;
    assert Blocks(ms', n + 1) == Blocks(ms, n) + [Block(x.content, y.content)];
    JoinSnoc(Blocks(ms, n), Block(x.content, y.content), Separator);
  }

  /** The first n blocks depend only on the first 2n+1 messages. */
  lemma {:induction false} BlocksPrefix(ms: seq<Message>, ms': seq<Message>, n: nat)
    requires n <= BlockCount(|ms|) && n <= BlockCount(|ms'|)
    requires 2 * n + 1 <= |ms| && 2 * n + 1 <= |ms'| && ms[..2 * n + 1] == ms'[..2 * n + 1]
    ensures Blocks(ms, n) == Blocks(ms', n)
    decreases n
  {
    if n > 0 {
      assert ms[..2 * n - 1] == ms'[..2 * n - 1] by {
        assert ms[..2 * n - 1] == ms[..2 * n + 1][..2 * n - 1];
        assert ms'[..2 * n - 1] == ms'[..2 * n + 1][..2 * n - 1];
      }
      BlocksPrefix(ms, ms', n - 1);
      assert ms[2 * n - 1] == ms[..2 * n + 1][2 * n - 1];
      assert ms'[2 * n - 1] == ms'[..2 * n + 1][2 * n - 1];
      assert ms[2 * n] == ms[..2 * n + 1][2 * n];
      assert ms'[2 * n] == ms'[..2 * n + 1][2 * n];
    }
  }

  /** A trailing unpaired message is dropped: it leaves the blob as it was without it. */
  lemma {:induction false} EncodeDropsTrailing(ms: seq<Message>)
    requires |ms| >= 2 && |ms| % 2 == 0
    ensures Encode(ms) == Encode(ms[..|ms| - 1])
  {
    var n := BlockCount(|ms|);
    assert BlockCount(|ms| - 1) == n;
    assert ms[..|ms| - 1][..2 * n + 1] == ms[..2 * n + 1];
    BlocksPrefix(ms, ms[..|ms| - 1], n);
  }

  // ---------------------------------------------------------------------
  // Display: messages_to_chatbot
  // ---------------------------------------------------------------------

  /** The messages shown in the chat window: all but the system messages, in order. */
  function ToChatbot(ms: seq<Message>): (r: seq<Message>)
    ensures |r| <= |ms|
    ensures forall k :: 0 <= k < |r| ==> r[k].role != System
    decreases |ms|
  {
    if ms == [] then []
    else (if ms[0].role == System then [] else [ms[0]]) + ToChatbot(ms[1..])
  }

  /** The projection of a join is the join of the projections: the order is kept. */
  lemma {:induction false} ToChatbotAppend(a: seq<Message>, b: seq<Message>)
    ensures ToChatbot(a + b) == ToChatbot(a) + ToChatbot(b)
    decreases |a|
  {
    if a == [] {
      assert a + b == b;
    } else {
      assert (a + b)[1..] == a[1..] + b;
      ToChatbotAppend(a[1..], b);
    }
  }

  /** The projection removes exactly the system messages: it keeps every other one. */
  lemma {:induction false} ToChatbotKeeps(ms: seq<Message>, m: Message)
    ensures m in ToChatbot(ms) <==> m in ms && m.role != System
    decreases |ms|
  {
    if ms != [] {
      ToChatbotKeeps(ms[1..], m);
      assert ms == [ms[0]] + ms[1..];
    }
  }

  /** The projection of a single message. */
  lemma {:induction false} ToChatbotSingle(m: Message)
    ensures ToChatbot([m]) == if m.role == System then [] else [m]
  {
    assert [m][1..] == [];
  }

  /** For an alternating list, the projection drops just the leading system message. */
  lemma {:induction false} ToChatbotAlternating(ms: seq<Message>)
    requires |ms| > 0 && Alternating(ms)
    ensures ToChatbot(ms) == ms[1..]
  {
    forall k | 0 <= k < |ms[1..]| ensures ms[1..][k].role != System {
      assert ms[1..][k] == ms[k + 1];
    }
    ToChatbotNoSystem(ms[1..]);
    assert ToChatbot(ms) == ToChatbot(ms[1..]);
  }

  /** A list without system messages is its own chat view. */
  lemma {:induction false} ToChatbotNoSystem(tail: seq<Message>)
    requires forall k :: 0 <= k < |tail| ==> tail[k].role != System
    ensures ToChatbot(tail) == tail
    decreases |tail|
  {
    if tail != [] {
      ToChatbotNoSystem(tail[1..]);
      assert tail == [tail[0]] + tail[1..];
    }
  }

  // ---------------------------------------------------------------------
  // The round trip
  // ---------------------------------------------------------------------

  /** The text holds none of the four tags. */
  ghost predicate TagFree(s: string)
  {
    NoOcc(s, UserOpen) && NoOcc(s, UserClose) && NoOcc(s, BotOpen) && NoOcc(s, BotClose)
  }

  /**
   * A list the blob can carry unchanged: odd length, alternating roles from
   * the system message on, and user and assistant contents that are
   * trimmed and hold no tag.
   */
  ghost predicate WellFormed(ms: seq<Message>)
  {
    && |ms| % 2 == 1
    && Alternating(ms)
    && ContentsTrimmed(ms)
    && forall k :: 1 <= k < |ms| ==> TagFree(ms[k].content)
  }

  /** A content as a block carries it: between two newlines. */
  function Pad(s: string): string
  {
    "\n" + s + "\n"
  }

  function PadAll(xs: seq<string>): (r: seq<string>)
    ensures |r| == |xs|
    decreases |xs|
  {
    if xs == [] then [] else [Pad(xs[0])] + PadAll(xs[1..])
  }

  /** What follows the user part of a block. */
  function UserTail(assistant: string): string
  {
    "\n" + BotOpen + "\n" + assistant + "\n" + BotClose
  }

  /** What precedes the assistant part of a block. */
  function BotHead(user: string): string
  {
    UserOpen + "\n" + user + "\n" + UserClose + "\n"
  }

  /** Helper: a block seen from its user tags. */
  lemma {:induction false} UserView(u: string, a: string, rest: string)
    ensures Block(u, a) + rest == UserOpen + Pad(u) + UserClose + (UserTail(a) + rest)
  {
  }

  /** Helper: a block seen from its assistant tags. */
  lemma {:induction false} BotView(u: string, a: string, rest: string)
    ensures Block(u, a) + rest == BotHead(u) + (BotOpen + Pad(a) + BotClose + rest)
  {
  }

  /** Helper: a padded content holds a tag only when the content does. */
  lemma {:induction false} PadFree(s: string, pat: string)
    requires |pat| > 0 && '\n' !in pat && NoOcc(s, pat)
    ensures NoOcc(Pad(s), pat)
  {
    NoOccMissingChar("\n", pat, pat[0]);
    NoOccSeam("\n", s, pat);
    NoOccSeam("\n" + s, "\n", pat);
  }

  /** Helper: the text after the user part holds no opening user tag. */
  lemma {:induction false} UserTailFree(a: string)
    requires TagFree(a)
    ensures NoOcc(UserTail(a), UserOpen)
    ensures NoOcc(UserTail(a) + Separator, UserOpen)
  {
    NoOccMissingChar(BotOpen, UserOpen, '用');
    NoOccMissingChar(BotClose, UserOpen, '用');
    NoOccMissingChar(Separator, UserOpen, '用');
    var s1 := "\n" + BotOpen;
    NoOccSeam("\n", BotOpen, UserOpen);
    NoOccSeam(s1, "\n", UserOpen);
    NoOccSeam(s1 + "\n", a, UserOpen);
    NoOccSeam(s1 + "\n" + a, "\n", UserOpen);
    NoOccSeam(s1 + "\n" + a + "\n", BotClose, UserOpen);
    NoOccSeam(UserTail(a), Separator, UserOpen);
  }

  /** Helper: the text before the assistant part holds no opening assistant tag. */
  lemma {:induction false} BotHeadFree(u: string)
    requires TagFree(u)
    ensures NoOcc(BotHead(u), BotOpen)
  {
    NoOccMissingChar(UserOpen, BotOpen, '助');
    NoOccMissingChar(UserClose, BotOpen, '助');
    NoOccSeam(UserOpen, "\n", BotOpen);
    NoOccSeam(UserOpen + "\n", u, BotOpen);
    NoOccSeam(UserOpen + "\n" + u, "\n", BotOpen);
    NoOccSeam(UserOpen + "\n" + u + "\n", UserClose, BotOpen);
    NoOccSeam(UserOpen + "\n" + u + "\n" + UserClose, "\n", BotOpen);
  }

  /** Blocks written for the given contents, in order. */
  ghost predicate BlocksOf(bs: seq<string>, us: seq<string>, rs: seq<string>)
  {
    && |bs| == |us| == |rs|
    && forall k :: 0 <= k < |bs| ==> bs[k] == Block(us[k], rs[k]) && TagFree(us[k]) && TagFree(rs[k])
  }

  /** Helper: the blocks after the first. */
  lemma {:induction false} BlocksOfTail(bs: seq<string>, us: seq<string>, rs: seq<string>)
    requires BlocksOf(bs, us, rs) && |bs| > 0
    ensures BlocksOf(bs[1..], us[1..], rs[1..])
  {
    forall k | 0 <= k < |bs| - 1
      ensures bs[1..][k] == Block(us[1..][k], rs[1..][k]) && TagFree(us[1..][k]) && TagFree(rs[1..][k])
    {
      assert bs[1..][k] == bs[k + 1] && us[1..][k] == us[k + 1] && rs[1..][k] == rs[k + 1];
    }
  }

  /** The user captures of joined blocks are the user contents, padded. */
  lemma {:induction false} UserCaptures(bs: seq<string>, us: seq<string>, rs: seq<string>)
    requires BlocksOf(bs, us, rs)
    ensures UserTexts(Join(bs, Separator)) == PadAll(us)
    decreases |bs|
  {
    if |bs| == 0 {
      FindAllNone("", UserOpen, UserClose);
    } else if |bs| == 1 {
      UserCapturesOne(bs, us, rs);
    } else {
      BlocksOfTail(bs, us, rs);
      UserCaptures(bs[1..], us[1..], rs[1..]);
      UserCapturesStep(bs, us, rs);
    }
  }

  /** Helper for UserCaptures: a single block. */
  lemma {:induction false} UserCapturesOne(bs: seq<string>, us: seq<string>, rs: seq<string>)
    requires BlocksOf(bs, us, rs) && |bs| == 1
    ensures UserTexts(Join(bs, Separator)) == PadAll(us)
  {
    var u := us[0];
    var a := rs[0];
    PadFree(u, UserClose);
    UserTailFree(a);
    UserView(u, a, "");
    assert bs[0] + "" == bs[0];
    FindAllHead(Pad(u), UserTail(a) + "", UserOpen, UserClose);
    assert UserTail(a) + "" == UserTail(a);
    FindAllNone(UserTail(a), UserOpen, UserClose);
  }

  /** Helper for UserCaptures: one block in front of the others. */
  lemma {:induction false} UserCapturesStep(bs: seq<string>, us: seq<string>, rs: seq<string>)
    requires BlocksOf(bs, us, rs) && |bs| > 1
    requires UserTexts(Join(bs[1..], Separator)) == PadAll(us[1..])
    ensures UserTexts(Join(bs, Separator)) == PadAll(us)
  {
    var u := us[0];
    var a := rs[0];
    PadFree(u, UserClose);
    UserTailFree(a);
    var rest := Join(bs[1..], Separator);
    UserView(u, a, Separator + rest);
    assert bs[0] + Separator + rest == bs[0] + (Separator + rest);
    assert UserTail(a) + (Separator + rest) == UserTail(a) + Separator + rest;
    FindAllHead(Pad(u), UserTail(a) + Separator + rest, UserOpen, UserClose);
    FindAllSkip(UserTail(a) + Separator, rest, UserOpen, UserClose);
  }

  /** The assistant captures of joined blocks are the assistant contents, padded. */
  lemma {:induction false} BotCaptures(bs: seq<string>, us: seq<string>, rs: seq<string>)
    requires BlocksOf(bs, us, rs)
    ensures BotTexts(Join(bs, Separator)) == PadAll(rs)
    decreases |bs|
  {
    if |bs| == 0 {
      FindAllNone("", BotOpen, BotClose);
    } else if |bs| == 1 {
      BotCapturesOne(bs, us, rs);
    } else {
      BlocksOfTail(bs, us, rs);
      BotCaptures(bs[1..], us[1..], rs[1..]);
      BotCapturesStep(bs, us, rs);
    }
  }

  /** Helper for BotCaptures: a single block. */
  lemma {:induction false} BotCapturesOne(bs: seq<string>, us: seq<string>, rs: seq<string>)
    requires BlocksOf(bs, us, rs) && |bs| == 1
    ensures BotTexts(Join(bs, Separator)) == PadAll(rs)
  {
    var u := us[0];
    var a := rs[0];
    PadFree(a, BotClose);
    BotHeadFree(u);
    BotView(u, a, "");
    assert bs[0] + "" == bs[0];
    FindAllSkip(BotHead(u), BotOpen + Pad(a) + BotClose + "", BotOpen, BotClose);
    FindAllHead(Pad(a), "", BotOpen, BotClose);
    FindAllNone("", BotOpen, BotClose);
  }

  /** Helper for BotCaptures: one block in front of the others. */
  lemma {:induction false} BotCapturesStep(bs: seq<string>, us: seq<string>, rs: seq<string>)
    requires BlocksOf(bs, us, rs) && |bs| > 1
    requires BotTexts(Join(bs[1..], Separator)) == PadAll(rs[1..])
    ensures BotTexts(Join(bs, Separator)) == PadAll(rs)
  {
    var u := us[0];
    var a := rs[0];
    PadFree(a, BotClose);
    BotHeadFree(u);
    var rest := Join(bs[1..], Separator);
    BotView(u, a, Separator + rest);
    assert bs[0] + Separator + rest == bs[0] + (Separator + rest);
    FindAllSkip(BotHead(u), BotOpen + Pad(a) + BotClose + (Separator + rest), BotOpen, BotClose);
    FindAllHead(Pad(a), Separator + rest, BotOpen, BotClose);
    NoOccMissingChar(Separator, BotOpen, '助');
    FindAllSkip(Separator, rest, BotOpen, BotClose);
  }

  /** Stripping undoes the padding of trimmed contents. */
  lemma {:induction false} StripPadAll(xs: seq<string>)
    requires forall k :: 0 <= k < |xs| ==> Trimmed(xs[k])
    ensures StripAll(PadAll(xs)) == xs
    decreases |xs|
  {
    if xs != [] {
      assert AllSpace("\n");
      StripPadded("\n", xs[0], "\n");
      StripPadAll(xs[1..]);
      assert xs == [xs[0]] + xs[1..];
    }
  }

  /** The contents of messages `offset`, `offset + 2`, … : `n` of them. */
  function Every2nd(ms: seq<Message>, offset: nat, n: nat): (r: seq<string>)
    requires n == 0 || 2 * (n - 1) + offset < |ms|
    ensures |r| == n
  {
    if n == 0 then [] else Every2nd(ms, offset, n - 1) + [ms[2 * (n - 1) + offset].content]
  }

  /** The k-th entry is the content of message 2k + offset. */
  lemma {:induction false} Every2ndAt(ms: seq<Message>, offset: nat, n: nat, k: nat)
    requires 2 * (n - 1) + offset < |ms| && k < n
    ensures Every2nd(ms, offset, n)[k] == ms[2 * k + offset].content
    decreases n
  {
    if k < n - 1 {
      Every2ndAt(ms, offset, n - 1, k);
    }
  }

  /** The user contents of the first BlockCount(|ms|) pairs. */
  function UserContents(ms: seq<Message>): (r: seq<string>)
    ensures |r| == BlockCount(|ms|)
  {
    Every2nd(ms, 1, BlockCount(|ms|))
  }

  /** The assistant contents of the first BlockCount(|ms|) pairs. */
  function BotContents(ms: seq<Message>): (r: seq<string>)
    ensures |r| == BlockCount(|ms|)
  {
    Every2nd(ms, 2, BlockCount(|ms|))
  }

  /** Helper: the k-th user and assistant contents. */
  lemma {:induction false} ContentsAt(ms: seq<Message>, k: nat)
    requires k < BlockCount(|ms|)
    ensures UserContents(ms)[k] == ms[2 * k + 1].content
    ensures BotContents(ms)[k] == ms[2 * k + 2].content
  {
    Every2ndAt(ms, 1, BlockCount(|ms|), k);
    Every2ndAt(ms, 2, BlockCount(|ms|), k);
  }

  /** The blob of a well-formed list captures its contents, padded. */
  lemma {:induction false} EncodeCaptures(ms: seq<Message>)
    requires WellFormed(ms)
    ensures UserTexts(Encode(ms)) == PadAll(UserContents(ms))
    ensures BotTexts(Encode(ms)) == PadAll(BotContents(ms))
  {
    var n := BlockCount(|ms|);
    var bs := Blocks(ms, n);
    var us := UserContents(ms);
    var rs := BotContents(ms);
    forall k | 0 <= k < n ensures bs[k] == Block(us[k], rs[k]) && TagFree(us[k]) && TagFree(rs[k]) {
      BlocksAt(ms, n, k);
      ContentsAt(ms, k);
    }
    UserCaptures(bs, us, rs);
    BotCaptures(bs, us, rs);
  }

  /** The padded contents of a well-formed list assemble back into it. */
  lemma {:induction false} AssembleBack(ms: seq<Message>)
    requires WellFormed(ms)
    ensures Assemble(ms[0].content, PadAll(UserContents(ms)), PadAll(BotContents(ms))) == ms
  {
    var us := UserContents(ms);
    var rs := BotContents(ms);
    ContentsTrimmedAt(ms);
    StripPadAll(us);
    StripPadAll(rs);
    AssembleStripped(ms[0].content, PadAll(us), PadAll(rs), us, rs);
    forall k | 0 <= k < BlockCount(|ms|)
      ensures us[k] == ms[2 * k + 1].content && rs[k] == ms[2 * k + 2].content
    {
      ContentsAt(ms, k);
    }
    PairsMessages(ms, us, rs, BlockCount(|ms|));
  }

  /** Helper for AssembleBack: the contents of a well-formed list are trimmed. */
  lemma {:induction false} ContentsTrimmedAt(ms: seq<Message>)
    requires WellFormed(ms)
    ensures forall k :: 0 <= k < |UserContents(ms)| ==> Trimmed(UserContents(ms)[k])
    ensures forall k :: 0 <= k < |BotContents(ms)| ==> Trimmed(BotContents(ms)[k])
  {
    var us := UserContents(ms);
    var rs := BotContents(ms);
    forall k | 0 <= k < |us| ensures Trimmed(us[k]) && Trimmed(rs[k]) {
      ContentsAt(ms, k);
    }
  }

  /** Helper for AssembleBack: assembling captures whose stripped forms are known. */
  lemma {:induction false} AssembleStripped(system: string, xs: seq<string>, ys: seq<string>, us: seq<string>, rs: seq<string>)
    requires |xs| == |ys| && StripAll(xs) == us && StripAll(ys) == rs
    ensures Assemble(system, xs, ys) == [Message(System, system)] + Pairs(us, rs, |xs|)
  {
  }

  /**
   * Encoding then decoding with the same system message gives the list
   * back, for a well-formed list.
   */
  lemma {:induction false} RoundTrip(ms: seq<Message>)
    requires WellFormed(ms)
    ensures Decode(Encode(ms), ms[0].content) == ms
  {
    EncodeCaptures(ms);
    AssembleBack(ms);
  }

  /** Helper for RoundTrip: the pairs made from the contents of a well-formed list are its messages after the first. */
  lemma {:induction false} PairsMessages(ms: seq<Message>, us: seq<string>, rs: seq<string>, n: nat)
    requires |ms| % 2 == 1 && Alternating(ms) && n == BlockCount(|ms|)
    requires |us| == n && |rs| == n
    requires forall k :: 0 <= k < n ==> us[k] == ms[2 * k + 1].content && rs[k] == ms[2 * k + 2].content
    ensures [Message(System, ms[0].content)] + Pairs(us, rs, n) == ms
  {
    var p := Pairs(us, rs, n);
    forall i | 0 <= i < 2 * n ensures p[i] == ms[i + 1] {
      PairsRole(us, rs, n, i);
      assert ms[i + 1].role == RoleAt(i + 1);
    }
    assert ms[0].role == RoleAt(0);
  }
}
