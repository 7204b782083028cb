/** The chat widget of `static/chat.js`: the module-level `conversation`
    array, the textarea and the chat box as the send step changes them, the
    escaping of what the user typed, the line breaks of the bot's reply and
    the auto-resize of the textarea. The outcome of `fetch` is a parameter. */
module Widget {
  import opened Strings
  import opened Json

  // ---------------------------------------------------------------------
  // Textarea auto-resize (static/chat.js:13-25)
  // ---------------------------------------------------------------------

  /** The largest height, in pixels, the textarea grows to. */
  const MaxHeight: nat := 200

  /** `style.height`: `"auto"` or a number of pixels. */
  datatype Height = AutoHeight | Px(px: nat)

  /** `style.overflowY`: `"auto"` (a scroll bar when needed) or `"hidden"`. */
  datatype Overflow = ScrollWhenNeeded | Hidden

  /** The two style properties of the textarea the widget sets. */
  datatype TextareaStyle = TextareaStyle(height: Height, overflowY: Overflow)

  /** The style set by the `input` listener once the content measures
      `scrollHeight` pixels: the smaller of that and `MaxHeight`, with a
      scroll bar exactly when the content is taller than `MaxHeight`. */
  function Resize(scrollHeight: nat): (r: TextareaStyle)
    ensures r.height.Px?
    ensures r.height.px <= MaxHeight && r.height.px <= scrollHeight
    ensures r.height.px == MaxHeight || r.height.px == scrollHeight
    ensures r.overflowY == ScrollWhenNeeded <==> scrollHeight > MaxHeight
  {
    if scrollHeight > MaxHeight then TextareaStyle(Px(MaxHeight), ScrollWhenNeeded)
    else TextareaStyle(Px(scrollHeight), Hidden)
  }

  /** The clamp is idempotent on the height: resizing to content as tall as
      the height just set sets that height again. */
  lemma ResizeHeightIdempotent(scrollHeight: nat)
    ensures Resize(Resize(scrollHeight).height.px).height == Resize(scrollHeight).height
  {
  }

  // ---------------------------------------------------------------------
  // Display text (static/chat.js:104, 128)
  // ---------------------------------------------------------------------

  /** `safeText`: every `<` replaced by `&lt;`, then every `>` by `&gt;`.
      The result holds neither angle bracket and is three characters longer
      per bracket replaced. */
  function EscapeAngles(text: string): (r: string)
    ensures '<' !in r && '>' !in r
    ensures |r| == |text| + 3 * (Count(text, '<') + Count(text, '>'))
  {
    var lt := ReplaceAll(text, "<", "&lt;");
    ReplaceCharRemoves(text, '<', "&lt;", '<');
    ReplaceCharLength(text, '<', "&lt;");
    ReplaceCharKeepsCount(text, '<', "&lt;", '>');
    var r := ReplaceAll(lt, ">", "&gt;");
    ReplaceCharRemoves(lt, '>', "&gt;", '<');
    ReplaceCharLength(lt, '>', "&gt;");
    r
  }

  /** How one character is shown: only the angle brackets are escaped. */
  function EscapeChar(c: char): string
  {
    if c == '<' then "&lt;" else if c == '>' then "&gt;" else [c]
  }

  /** A character-by-character reference for `EscapeAngles`. */
  function EscapeEach(s: string): string
  {
    if s == [] then [] else EscapeChar(s[0]) + EscapeEach(s[1..])
  }

  /** The two global replacements act character by character: every
      character other than `<` and `>`, `&` included, is shown unchanged. */
  lemma {:induction false} EscapeAnglesCharwise(s: string)
    ensures EscapeAngles(s) == EscapeEach(s)
    decreases |s|
  {
    if s != [] {
      var c := s[0];
      assert s == [c] + s[1..];
      ReplaceCharConcat([c], s[1..], '<', "&lt;");
      var head := ReplaceAll([c], "<", "&lt;");
      var rest := ReplaceAll(s[1..], "<", "&lt;");
      ReplaceCharConcat(head, rest, '>', "&gt;");
      assert [c][..1] == [c];
      if c == '<' {
        assert head == "&lt;";
        ReplaceAllAbsent(head, ">", "&gt;");
      } else {
        assert head == [c];
      }
      EscapeAnglesCharwise(s[1..]);
    }
  }

  /** Decodes `&lt;` and `&gt;` back to angle brackets. */
  function UnescapeAngles(h: string): string
  {
    if |h| >= 4 && h[..4] == "&lt;" then "<" + UnescapeAngles(h[4..])
    else if |h| >= 4 && h[..4] == "&gt;" then ">" + UnescapeAngles(h[4..])
    else if h == [] then []
    else [h[0]] + UnescapeAngles(h[1..])
  }

  /** For text without `&`, the shown text decodes back to what was typed. */
  lemma {:induction false} UnescapeEscapeEach(s: string)
    requires '&' !in s
    ensures UnescapeAngles(EscapeEach(s)) == s
    decreases |s|
  {
    if s != [] {
      var c := s[0];
      var h := EscapeEach(s);
      var rest := EscapeEach(s[1..]);
      assert h == EscapeChar(c) + rest;
      UnescapeEscapeEach(s[1..]);
      if c == '<' || c == '>' {
        assert h[..4] == EscapeChar(c) && h[4..] == rest;
      } else {
        assert h[0] == c;
        assert |h| >= 4 ==> h[..4][0] == c;
        assert h[1..] == rest;
      }
      assert s == [c] + s[1..];
    }
  }

  /** The escaping is undone by decoding the entities when the text holds no `&`. */
  lemma EscapeAnglesRoundTrip(s: string)
    requires '&' !in s
    ensures UnescapeAngles(EscapeAngles(s)) == s
  {
    EscapeAnglesCharwise(s);
    UnescapeEscapeEach(s);
  }

  /** `&` is not escaped, so typing `&lt;` and typing `<` show the same text. */
  lemma AmpersandIsNotEscaped()
    ensures EscapeAngles("&lt;") == EscapeAngles("<") == "&lt;"
  {
    EscapeAnglesCharwise("&lt;");
    EscapeAnglesCharwise("<");
    assert "&lt;"[1..] == "lt;" && "lt;"[1..] == "t;" && "t;"[1..] == ";";
  }

  /** `botResponse`: every line feed of the reply replaced by `<br>`. The
      result holds no line feed and is three characters longer per line. */
  function BotHtml(reply: string): (r: string)
    ensures '\n' !in r
    ensures |r| == |reply| + 3 * Count(reply, '\n')
  {
    ReplaceCharRemoves(reply, '\n', "<br>", '\n');
    ReplaceCharLength(reply, '\n', "<br>");
    ReplaceAll(reply, "\n", "<br>")
  }

  /** A reply without `<` is recovered from its display by turning every
      `<br>` back into a line feed. */
  lemma {:induction false} BotHtmlRoundTrip(reply: string)
    requires '<' !in reply
    ensures ReplaceAll(BotHtml(reply), "<br>", "\n") == reply
    decreases |reply|
  {
    if reply != [] {
      var c := reply[0];
      assert reply == [c] + reply[1..];
      ReplaceCharConcat([c], reply[1..], '\n', "<br>");
      var rest := BotHtml(reply[1..]);
      assert [c][..1] == [c];
      BotHtmlRoundTrip(reply[1..]);
      if c == '\n' {
        assert ReplaceAll([c], "\n", "<br>") == "<br>";
        var h := "<br>" + rest;
        assert h[..4] == "<br>" && h[4..] == rest;
      } else {
        assert ReplaceAll([c], "\n", "<br>") == [c];
        ReplaceAllSkips([c], rest, "<br>", "\n");
      }
    }
  }

  // ---------------------------------------------------------------------
  // The send step (static/chat.js:5, 98-137)
  // ---------------------------------------------------------------------

  /** Who said something. */
  datatype Role = UserRole | BotRole

  /** An element of `conversation`: what is stored and sent to the server. */
  datatype Entry = Entry(role: Role, content: string)

  /** A message shown in the chat box, as the HTML given to `innerHTML`. */
  datatype Bubble = Bubble(role: Role, html: string)

  /** How the request of a send step ended: `res.json()` produced `data`,
      or `fetch` or `res.json()` threw. */
  datatype FetchOutcome = Delivered(data: Json) | Failed

  /** Shown instead of a reply when the send step throws. */
  const ServerErrorText: string := "⚠️ Server error. Please try again."

  /** `data.bot_response` when it is a string; `None` when reading it or
      calling `replace` on it throws, which sends the step to its `catch`. */
  function ReplyOf(outcome: FetchOutcome): (r: Option<string>)
    ensures r.Some? <==> (outcome.Delivered? && outcome.data.JObj? &&
                          "bot_response" in outcome.data.fields && outcome.data.fields["bot_response"].JStr?)
    ensures r.Some? ==> "bot_response" in outcome.data.fields && outcome.data.fields["bot_response"] == JStr(r.value)
  {
    if outcome.Delivered? then StringField(outcome.data, "bot_response") else None
  }

  /** Number of user entries in a conversation. */
  function UserTurns(conversation: seq<Entry>): nat
  {
    if conversation == [] then 0
    else UserTurns(conversation[..|conversation| - 1]) + (if conversation[|conversation| - 1].role == UserRole then 1 else 0)
  }

  /** A stored user entry is never blank and carries no surrounding whitespace. */
  predicate IsTrimmedText(s: string)
  {
    s != [] && !JsIsSpace(s[0]) && !JsIsSpace(s[|s| - 1])
  }

  /** `userInput.value.trim()`: the typed text without the whitespace
      JavaScript trims; empty, or trimmed text. */
  function Trim(value: string): (r: string)
    ensures r == [] || IsTrimmedText(r)
    ensures r == [] <==> forall i :: 0 <= i < |value| ==> JsIsSpace(value[i])
  {
    Strip(value, JsIsSpace)
  }

  /** A bubble is safe: a user bubble holds no angle bracket, a bot bubble
      no line feed. */
  predicate SafeBubble(b: Bubble)
  {
    if b.role == UserRole then '<' !in b.html && '>' !in b.html else '\n' !in b.html
  }

  /** Every user entry of the conversation is trimmed, non-blank text. */
  ghost predicate UserEntriesTrimmed(conversation: seq<Entry>)
  {
    forall i :: 0 <= i < |conversation| && conversation[i].role == UserRole ==>
      IsTrimmedText(conversation[i].content)
  }

  /** Every bubble of the chat box is safe. */
  ghost predicate BubblesSafe(chatBox: seq<Bubble>)
  {
    forall i :: 0 <= i < |chatBox| ==> SafeBubble(chatBox[i])
  }

  /** Each posted conversation ends with a user entry and is what was stored
      up to and including it. */
  ghost predicate PostedArePrefixes(posted: seq<seq<Entry>>, conversation: seq<Entry>)
  {
    forall k :: 0 <= k < |posted| ==>
      posted[k] != [] && posted[k][|posted[k]| - 1].role == UserRole &&
      |posted[k]| <= |conversation| && posted[k] == conversation[..|posted[k]|]
  }

  /** The chat state invariant: the three above, and each send posted once,
      added one user entry and two bubbles. */
  ghost predicate ValidState(conversation: seq<Entry>, chatBox: seq<Bubble>, posted: seq<seq<Entry>>)
  {
    UserEntriesTrimmed(conversation) && BubblesSafe(chatBox) &&
    PostedArePrefixes(posted, conversation) &&
    |posted| == UserTurns(conversation) && |chatBox| == 2 * |posted|
  }

  /** The conversation after a non-blank send of `text`: the user entry,
      then the bot entry when a reply arrived. */
  function Stored(conversation: seq<Entry>, text: string, reply: Option<string>): (r: seq<Entry>)
    ensures |r| == |conversation| + (if reply.Some? then 2 else 1)
    ensures r[..|conversation|] == conversation && r[|conversation|] == Entry(UserRole, text)
    ensures reply.Some? ==> r[|conversation| + 1] == Entry(BotRole, reply.value)
  {
    conversation + [Entry(UserRole, text)] + (if reply.Some? then [Entry(BotRole, reply.value)] else [])
  }

  /** The chat box after a non-blank send of `text`: the escaped text, then
      the reply with `<br>` line breaks or the server-error text. */
  function Shown(chatBox: seq<Bubble>, text: string, reply: Option<string>): (r: seq<Bubble>)
    ensures |r| == |chatBox| + 2 && r[..|chatBox|] == chatBox
    ensures r[|chatBox|] == Bubble(UserRole, EscapeAngles(text))
    ensures r[|chatBox| + 1] == Bubble(BotRole, if reply.Some? then BotHtml(reply.value) else ServerErrorText)
  {
    chatBox + [Bubble(UserRole, EscapeAngles(text)),
               Bubble(BotRole, if reply.Some? then BotHtml(reply.value) else ServerErrorText)]
  }

  /** The conversation after a send extends the one before it. */
  lemma StoredExtends(conversation: seq<Entry>, text: string, reply: Option<string>)
    ensures var conv := Stored(conversation, text, reply);
      var withUser := conversation + [Entry(UserRole, text)];
      |withUser| <= |conv| && conv[..|withUser|] == withUser &&
      UserTurns(conv) == UserTurns(conversation) + 1
  {
    var withUser := conversation + [Entry(UserRole, text)];
    assert withUser[..|withUser| - 1] == conversation;
    if reply.Some? {
      var conv := withUser + [Entry(BotRole, reply.value)];
      assert conv[..|conv| - 1] == withUser;
    }
  }

  /** A send of trimmed text keeps every user entry trimmed. */
  lemma SendKeepsTrimmed(conversation: seq<Entry>, text: string, reply: Option<string>)
    requires UserEntriesTrimmed(conversation) && IsTrimmedText(text)
    ensures UserEntriesTrimmed(Stored(conversation, text, reply))
  {
    var conv := Stored(conversation, text, reply);
    forall i | 0 <= i < |conv| && conv[i].role == UserRole ensures IsTrimmedText(conv[i].content) {
      if i < |conversation| { assert conv[i] == conversation[i]; }
    }
  }

  /** A send keeps every bubble safe: the escaped text has no angle bracket,
      the reply and the server-error text no line feed. */
  lemma SendKeepsBubblesSafe(chatBox: seq<Bubble>, text: string, reply: Option<string>)
    requires BubblesSafe(chatBox)
    ensures BubblesSafe(Shown(chatBox, text, reply))
  {
    var user := Bubble(UserRole, EscapeAngles(text));
    var bot := Bubble(BotRole, if reply.Some? then BotHtml(reply.value) else ServerErrorText);
    ServerErrorTextIsOneLine();
    assert SafeBubble(user) && SafeBubble(bot);
    var box := Shown(chatBox, text, reply);
    forall i | 0 <= i < |box| ensures SafeBubble(box[i]) {
      if i < |chatBox| {
        assert box[i] == chatBox[i];
      } else if i == |chatBox| {
        assert box[i] == user;
      } else {
        assert box[i] == bot;
      }
    }
  }

  /** The server-error text is a single line. */
  lemma ServerErrorTextIsOneLine()
    ensures '\n' !in ServerErrorText
  {
    forall i | 0 <= i < |ServerErrorText| ensures ServerErrorText[i] != '\n' {
    }
  }

  /** A send posts exactly the conversation up to its user entry, and the
      earlier posts stay prefixes of the longer conversation. */
  lemma SendKeepsPrefixes(conversation: seq<Entry>, posted: seq<seq<Entry>>, text: string, reply: Option<string>)
    requires PostedArePrefixes(posted, conversation)
    ensures PostedArePrefixes(posted + [conversation + [Entry(UserRole, text)]], Stored(conversation, text, reply))
  {
    var withUser: seq<Entry> := conversation + [Entry(UserRole, text)];
    var conv: seq<Entry> := Stored(conversation, text, reply);
    var sent: seq<seq<Entry>> := posted + [withUser];
    StoredExtends(conversation, text, reply);
    forall k: nat | k < |sent|
      ensures sent[k] != [] && sent[k][|sent[k]| - 1].role == UserRole
      ensures |sent[k]| <= |conv| && sent[k] == conv[..|sent[k]|]
    {
      if k < |posted| {
        assert sent[k] == posted[k];
        assert conversation[..|posted[k]|] == conv[..|posted[k]|];
      } else {
        assert sent[k] == withUser;
      }
    }
  }

  /** A non-blank send keeps the chat state invariant, whatever the outcome. */
  lemma SendKeepsValid(conversation: seq<Entry>, chatBox: seq<Bubble>, posted: seq<seq<Entry>>,
                       text: string, reply: Option<string>)
    requires ValidState(conversation, chatBox, posted)
    requires IsTrimmedText(text)
    ensures ValidState(Stored(conversation, text, reply), Shown(chatBox, text, reply),
                       posted + [conversation + [Entry(UserRole, text)]])
  {
    StoredExtends(conversation, text, reply);
    SendKeepsTrimmed(conversation, text, reply);
    SendKeepsBubblesSafe(chatBox, text, reply);
    SendKeepsPrefixes(conversation, posted, text, reply);
  }

  /** The page's chat state: the `conversation` array, the textarea's value
      and style, the messages shown, and the conversations posted to `/chat`. */
  class ChatWidget {
    var conversation: seq<Entry>
    var inputValue: string
    var style: TextareaStyle
    var chatBox: seq<Bubble>
    /** The conversations posted to `/chat` so far: a record for the
        invariant, not a variable of the page. */
    ghost var posted: seq<seq<Entry>>

    /** The chat state invariant on this widget's fields. */
    ghost predicate Valid()
      reads this
    {
      ValidState(conversation, chatBox, posted)
    }

    /** The state when the page loads: nothing said, nothing typed. */
    constructor ()
      ensures Valid()
      ensures conversation == [] && chatBox == [] && posted == [] && inputValue == ""
    {
      conversation := [];
      inputValue := "";
      style := TextareaStyle(AutoHeight, Hidden);
      chatBox := [];
      posted := [];
    }

    /** The user edits the textarea to `value`; the `input` listener then
        resizes it to content measuring `scrollHeight` pixels. */
    method Edit(value: string, scrollHeight: nat)
      requires Valid()
      modifies this
      ensures Valid()
      ensures inputValue == value && style == Resize(scrollHeight)
      ensures conversation == old(conversation) && chatBox == old(chatBox) && posted == old(posted)
    {
      inputValue := value;
      style := Resize(scrollHeight);
    }

    /** The part of `sendMessage` past the blank-input guard, for trimmed
        `text` and the step's outcome `reply`: the escaped text is shown and
        the text stored, the textarea is emptied and collapsed, the
        conversation is posted, and then the reply is stored and shown with
        `<br>` line breaks, or only the server-error text is shown. */
    method Exchange(text: string, reply: Option<string>)
      requires Valid() && IsTrimmedText(text)
      modifies this
      ensures Valid()
      ensures inputValue == "" && style == TextareaStyle(AutoHeight, Hidden)
      ensures posted == old(posted) + [old(conversation) + [Entry(UserRole, text)]]
      ensures conversation == Stored(old(conversation), text, reply)
      ensures chatBox == Shown(old(chatBox), text, reply)
    {
      SendKeepsValid(conversation, chatBox, posted, text, reply);
      ghost var conversation0, chatBox0 := conversation, chatBox;
      chatBox := chatBox + [Bubble(UserRole, EscapeAngles(text))];
      conversation := conversation + [Entry(UserRole, text)];
      inputValue, style := "", TextareaStyle(AutoHeight, Hidden);
      posted := posted + [conversation];
      if reply.Some? {
        chatBox := chatBox + [Bubble(BotRole, BotHtml(reply.value))];
        conversation := conversation + [Entry(BotRole, reply.value)];
      } else {
        chatBox := chatBox + [Bubble(BotRole, ServerErrorText)];
      }
      assert conversation == Stored(conversation0, text, reply);
      assert chatBox == Shown(chatBox0, text, reply);
    }

    /** `sendMessage`: blank input changes nothing and sends nothing;
        otherwise the trimmed text goes through `Exchange` with the reply
        the step's outcome yields. */
    method SendMessage(outcome: FetchOutcome)
      requires Valid()
      modifies this
      ensures Valid()
      ensures Trim(old(inputValue)) == [] ==>
        conversation == old(conversation) && chatBox == old(chatBox) && posted == old(posted) &&
        inputValue == old(inputValue) && style == old(style)
      ensures Trim(old(inputValue)) != [] ==>
        inputValue == "" && style == TextareaStyle(AutoHeight, Hidden) &&
        posted == old(posted) + [old(conversation) + [Entry(UserRole, Trim(old(inputValue)))]] &&
        conversation == Stored(old(conversation), Trim(old(inputValue)), ReplyOf(outcome)) &&
        chatBox == Shown(old(chatBox), Trim(old(inputValue)), ReplyOf(outcome))
    {
      var text := Trim(inputValue);
      if text == [] {
        return;
      }
      Exchange(text, ReplyOf(outcome));
    }
  }
}
