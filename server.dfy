/** The request handling of `main.py`: the system prompt read once at start-up,
    the cleaning of the suggestion reply and its fallback list, and the
    translation of the client's conversation into the message list sent to
    the language model, with the fixed error reply of `/chat`.
    The language-model call and JSON parsing are parameters. */
module Server {
  import opened Strings
  import opened Json

  // ---------------------------------------------------------------------
  // System prompt (main.py:25-40)
  // ---------------------------------------------------------------------

  /** The separator after which the prompt file holds an old conversation template. */
  const Marker: string := "Conversation so far:"

  /** Used when the part of the file before `Marker` is blank. */
  const BlankPromptDefault: string := "You are a helpful medical chatbot."

  /** Used when the prompt file cannot be opened or decoded: the blank-prompt
      default followed by " Please add the medical disclaimer." */
  const MissingPromptDefault: string := BlankPromptDefault + DisclaimerRequest

  /** The sentence that `MissingPromptDefault` adds. */
  const DisclaimerRequest: string := " Please add the medical disclaimer."

  /** What reading `prompts/medical_prompt.txt` as UTF-8 produced. */
  datatype PromptFile = Read(text: string) | NotFound | Unreadable

  /** No occurrence of `Marker` can start inside another one: its first
      character does not appear again in it. */
  lemma MarkerHasNoBorder(s: string, i: nat, j: nat)
    requires i < j < i + |Marker|
    ensures !(OccursAt(Marker, s, i) && OccursAt(Marker, s, j))
  {
    if OccursAt(Marker, s, i) && j + |Marker| <= |s| {
      assert s[j] == s[i..i + |Marker|][j - i];
      assert s[j..j + |Marker|][0] == s[j];
    }
  }

  /** A text without the letter `C` cannot contain `Marker`. */
  lemma NoMarkerWithoutC(s: string)
    requires 'C' !in s
    ensures !Occurs(Marker, s)
  {
    forall i: nat ensures !OccursAt(Marker, s, i) {
      if i + |Marker| <= |s| {
        assert s[i..i + |Marker|][0] == s[i];
      }
    }
  }

  /** The text before the first marker holds no marker. */
  lemma BeforeFirstHasNoMarker(text: string)
    ensures !Occurs(Marker, BeforeFirst(text, Marker))
  {
    var head := BeforeFirst(text, Marker);
    forall i: nat ensures !OccursAt(Marker, head, i) {
      if i + |Marker| <= |head| {
        assert head[i..i + |Marker|] == text[i..i + |Marker|];
        assert !OccursAt(Marker, text, i);
      }
    }
  }

  /** The stripped text before the first marker holds no marker. */
  lemma StrippedHeadHasNoMarker(text: string)
    ensures !Occurs(Marker, Strip(BeforeFirst(text, Marker), PyIsSpace))
  {
    BeforeFirstHasNoMarker(text);
    StripKeepsAbsence(Marker, BeforeFirst(text, Marker), PyIsSpace);
  }

  /** The blank-prompt default is unpadded and free of the marker. */
  lemma BlankDefaultIsClean()
    ensures !Occurs(Marker, BlankPromptDefault)
    ensures !PyIsSpace(BlankPromptDefault[0]) && !PyIsSpace(BlankPromptDefault[|BlankPromptDefault| - 1])
  {
    assert BlankPromptDefault[0] == 'Y' && BlankPromptDefault[|BlankPromptDefault| - 1] == '.';
    NoMarkerWithoutC(BlankPromptDefault);
  }

  /** The missing-file default is unpadded and free of the marker. */
  lemma MissingDefaultIsClean()
    ensures !Occurs(Marker, MissingPromptDefault)
    ensures !PyIsSpace(MissingPromptDefault[0]) && !PyIsSpace(MissingPromptDefault[|MissingPromptDefault| - 1])
  {
    assert BlankPromptDefault[0] == 'Y' && DisclaimerRequest[|DisclaimerRequest| - 1] == '.';
    NoCInDefaults();
    NoMarkerWithoutC(MissingPromptDefault);
  }

  /** Neither part of the missing-file default holds the letter `C`. */
  lemma NoCInDefaults()
    ensures 'C' !in BlankPromptDefault + DisclaimerRequest
  {
    assert 'C' !in BlankPromptDefault;
    assert 'C' !in DisclaimerRequest;
  }

  /** `SYSTEM_PROMPT`: the stripped text before the first `Marker`, a default
      when that is blank, another default when the file cannot be read. The
      result is never blank, never padded with whitespace, and never holds
      the marker. */
  function SystemPrompt(file: PromptFile): (r: string)
    ensures r != []
    ensures !PyIsSpace(r[0]) && !PyIsSpace(r[|r| - 1])
    ensures !Occurs(Marker, r)
    ensures !file.Read? ==> r == MissingPromptDefault
  {
    match file
    case Read(text) =>
      var p := Strip(BeforeFirst(text, Marker), PyIsSpace);
      StrippedHeadHasNoMarker(text);
      if p == [] then
        BlankDefaultIsClean();
        BlankPromptDefault
      else p
    case _ =>
      MissingDefaultIsClean();
      MissingPromptDefault
  }

  /** A file `head + Marker + tail` whose `head` holds no marker yields the
      stripped `head`, or the blank-prompt default when `head` is only
      whitespace. */
  lemma SystemPromptBeforeMarker(head: string, tail: string)
    requires !Occurs(Marker, head)
    ensures SystemPrompt(Read(head + Marker + tail)) ==
      (if Strip(head, PyIsSpace) == [] then BlankPromptDefault else Strip(head, PyIsSpace))
  {
    var text := head + Marker + tail;
    assert text[|head|..|head| + |Marker|] == Marker;
    assert OccursAt(Marker, text, |head|);
    var r := BeforeFirst(text, Marker);
    if |r| < |head| {
      assert OccursAt(Marker, text, |r|);
      if |r| + |Marker| <= |head| {
        assert text[..|head|] == head;
        assert head[|r|..|r| + |Marker|] == text[|r|..|r| + |Marker|];
        assert OccursAt(Marker, head, |r|);
      } else {
        MarkerHasNoBorder(text, |r|, |head|);
      }
      assert false;
    }
    assert r == head;
  }

  /** A file without the marker yields its whole stripped text, or the
      blank-prompt default when the file is blank. */
  lemma SystemPromptWithoutMarker(text: string)
    requires !Occurs(Marker, text)
    ensures SystemPrompt(Read(text)) ==
      (if Strip(text, PyIsSpace) == [] then BlankPromptDefault else Strip(text, PyIsSpace))
  {
    var r := BeforeFirst(text, Marker);
    assert r == text;
  }

  // ---------------------------------------------------------------------
  // Suggestions (main.py:48-87)
  // ---------------------------------------------------------------------

  /** The opening of a fenced code block. */
  const Fence: string := "```"

  /** The opening of a fenced code block labelled as JSON. */
  const JsonFence: string := "```json"

  /** What the language-model call produced: the reply's text, a reply
      whose content is `None`, or an exception. */
  datatype Completion = Content(text: string) | NullContent | Raised

  /** Number of backticks at the start of `s`. */
  function LeadTicks(s: string): (n: nat)
    ensures n <= |s|
    ensures forall i :: 0 <= i < n ==> s[i] == '`'
    ensures n < |s| ==> s[n] != '`'
  {
    if s != [] && s[0] == '`' then 1 + LeadTicks(s[1..]) else 0
  }

  /** Three backticks at the start of `s` are a fence. */
  lemma FenceAtStart(s: string)
    requires LeadTicks(s) >= 3
    ensures s[..3] == Fence
  {
    assert s[1..][0] == s[1] && s[1..][1..][0] == s[2];
  }

  /** Removing fences from a run of backticks leaves the run's length modulo 3. */
  lemma {:induction false} RemoveFencesLeadTicks(s: string)
    ensures LeadTicks(ReplaceAll(s, Fence, "")) == LeadTicks(s) % 3
    decreases |s|
  {
    var k := LeadTicks(s);
    var r := ReplaceAll(s, Fence, "");
    if |s| < |Fence| {
      assert r == s;
      assert k < 3;
      assert k % 3 == k;
    } else if s[..3] == Fence {
      assert s[0] == '`' && s[1] == '`' && s[2] == '`' by {
        assert s[..3][0] == s[0] && s[..3][1] == s[1] && s[..3][2] == s[2];
      }
      LeadTicksDrop(s);
      RemoveFencesLeadTicks(s[3..]);
      assert r == ReplaceAll(s[3..], Fence, "");
      assert (k - 3) % 3 == k % 3;
      assert LeadTicks(r) == k % 3;
    } else {
      var t := ReplaceAll(s[1..], Fence, "");
      assert r == [s[0]] + t;
      LeadTicksCons(s[0], t);
      if s[0] == '`' {
        if k >= 3 { FenceAtStart(s); }
        assert LeadTicks(s[1..]) == k - 1;
        RemoveFencesLeadTicks(s[1..]);
        assert k == 1 || k == 2;
      }
    }
  }

  /** The leading run of `[c] + t` is `t`'s grown by one when `c` is a
      backtick, and empty otherwise. */
  lemma LeadTicksCons(c: char, t: string)
    ensures LeadTicks([c] + t) == if c == '`' then 1 + LeadTicks(t) else 0
  {
    assert ([c] + t)[1..] == t;
  }

  /** A fence at the start takes three backticks off the leading run. */
  lemma LeadTicksDrop(s: string)
    requires |s| >= 3 && s[0] == '`' && s[1] == '`' && s[2] == '`'
    ensures LeadTicks(s[3..]) == LeadTicks(s) - 3
  {
    assert s[1..][0] == s[1];
    assert s[1..][1..][0] == s[2];
    assert s[1..][1..][1..] == s[3..];
  }

  /** After every fence is removed, no fence is left: fences are only ever
      made of backticks, and each run keeps fewer than three. */
  lemma {:induction false} RemoveFencesLeavesNone(s: string)
    ensures !Occurs(Fence, ReplaceAll(s, Fence, ""))
    decreases |s|
  {
    var r := ReplaceAll(s, Fence, "");
    if |s| < |Fence| {
      assert r == s;
    } else if s[..3] == Fence {
      RemoveFencesLeavesNone(s[3..]);
      assert r == ReplaceAll(s[3..], Fence, "");
    } else {
      var t := ReplaceAll(s[1..], Fence, "");
      assert r == [s[0]] + t;
      RemoveFencesLeavesNone(s[1..]);
      forall i: nat ensures !OccursAt(Fence, r, i) {
        if i == 0 && |r| >= 3 {
          if s[0] == '`' {
            if LeadTicks(s) >= 3 { FenceAtStart(s); }
            RemoveFencesLeadTicks(s[1..]);
            var n := LeadTicks(t);
            assert n < 2;
            assert t[n] != '`';
            assert r[..3][n + 1] == t[n];
          } else {
            assert r[..3][0] == s[0];
          }
        } else if i > 0 {
          OccursAtCons(Fence, s[0], t, i - 1);
        }
      }
    }
  }

  /** A text without a fence has no JSON fence either. */
  lemma NoFenceNoJsonFence(r: string)
    requires !Occurs(Fence, r)
    ensures !Occurs(JsonFence, r)
  {
    forall i: nat ensures !OccursAt(JsonFence, r, i) {
      if i + |JsonFence| <= |r| {
        assert r[i..i + |JsonFence|][..3] == r[i..i + 3];
        assert !OccursAt(Fence, r, i);
      }
    }
  }

  /** `clean_text`: the reply stripped, every "```json" removed, then every
      remaining "```", then stripped again. The result holds no fence at all
      and has no whitespace at either end. */
  function CleanFences(reply: string): (r: string)
    ensures !Occurs(Fence, r) && !Occurs(JsonFence, r)
    ensures r == [] || (!PyIsSpace(r[0]) && !PyIsSpace(r[|r| - 1]))
  {
    var noJson := ReplaceAll(Strip(reply, PyIsSpace), JsonFence, "");
    var r := Strip(ReplaceAll(noJson, Fence, ""), PyIsSpace);
    StrippedRemovalHasNoFence(noJson);
    r
  }

  /** Removing every fence and then stripping leaves neither kind of fence. */
  lemma StrippedRemovalHasNoFence(s: string)
    ensures !Occurs(Fence, Strip(ReplaceAll(s, Fence, ""), PyIsSpace))
    ensures !Occurs(JsonFence, Strip(ReplaceAll(s, Fence, ""), PyIsSpace))
  {
    var noFence := ReplaceAll(s, Fence, "");
    RemoveFencesLeavesNone(s);
    StripKeepsAbsence(Fence, noFence, PyIsSpace);
    NoFenceNoJsonFence(Strip(noFence, PyIsSpace));
  }

  /** A reply without backticks is only stripped. */
  lemma CleanFencesWithoutBackticks(reply: string)
    requires '`' !in reply
    ensures CleanFences(reply) == Strip(reply, PyIsSpace)
  {
    var s := Strip(reply, PyIsSpace);
    var a := StripIsSlice(reply, PyIsSpace);
    assert '`' !in s by {
      forall i | 0 <= i < |s| ensures s[i] != '`' { assert s[i] == reply[a + i]; }
    }
    ReplaceAllAbsent(s, JsonFence, "");
    ReplaceAllAbsent(s, Fence, "");
    StripIdempotent(reply, PyIsSpace);
  }

  /** The usual wrapping of a JSON answer, a "```json" block closed by "```",
      is unwrapped to its stripped body. */
  lemma CleanFencesUnwrapsBlock(body: string)
    requires '`' !in body
    ensures CleanFences(JsonFence + body + Fence) == Strip(body, PyIsSpace)
  {
    var t := JsonFence + body + Fence;
    assert t[0] == '`' && t[|t| - 1] == '`';
    assert TrimStart(t, PyIsSpace) == t;
    assert TrimEnd(t, PyIsSpace) == t;
    assert Strip(t, PyIsSpace) == t;
    assert t[..|JsonFence|] == JsonFence;
    assert t[|JsonFence|..] == body + Fence;
    ReplaceAllSkips(body, Fence, JsonFence, "");
    assert ReplaceAll(Fence, JsonFence, "") == Fence;
    assert ReplaceAll(t, JsonFence, "") == body + Fence;
    ReplaceAllSkips(body, Fence, Fence, "");
    assert ReplaceAll(Fence, Fence, "") == "";
    assert body + "" == body;
  }

  /** The list returned whenever producing suggestions fails. */
  const FallbackSuggestions: seq<string> := [
    "What are the symptoms of the flu?",
    "How do I treat a common cold?",
    "Tell me about Type 2 diabetes.",
    "Medicines for Asthma taken by oral.",
    "What causes high blood pressure?",
    "Symptoms of a migraine headache"
  ]

  /** The JSON body of `/get-suggestions`: `parse` is given the cleaned reply
      and stands for `json.loads` followed by the rendering of the response
      inside the same `try`, so it fails where either raises (a text that is
      not JSON, or one holding `NaN` or an infinite number, which the
      response refuses to render); a failed call, a reply without content or
      a failed parse give the six fixed fallback questions. */
  function SuggestionsBody(reply: Completion, parse: string -> Option<Json>): (r: Json)
    ensures r.JObj? && r.fields.Keys == {"suggestions"}
    ensures reply.Content? && parse(CleanFences(reply.text)).Some? ==>
      r.fields["suggestions"] == parse(CleanFences(reply.text)).value
    ensures !reply.Content? || parse(CleanFences(reply.text)).None? ==>
      r.fields["suggestions"] == JArr(seq(6, i requires 0 <= i < 6 => JStr(FallbackSuggestions[i])))
  {
    var parsed := if reply.Content? then parse(CleanFences(reply.text)) else None;
    match parsed
    case Some(v) => Single("suggestions", v)
    case None => Single("suggestions", JArr(seq(|FallbackSuggestions|, i requires 0 <= i < |FallbackSuggestions| => JStr(FallbackSuggestions[i]))))
  }

  // ---------------------------------------------------------------------
  // Chat (main.py:90-123)
  // ---------------------------------------------------------------------

  /** Roles of the messages sent to the language model. */
  datatype ApiRole = System | Assistant | User

  /** One message of the list sent to the language model. */
  datatype ApiMessage = ApiMessage(role: ApiRole, content: Json)

  /** The HTTP status and JSON body of a response. */
  datatype Response = Response(status: nat, body: Json)

  /** The reply text of a failed `/chat` request. */
  const SorryText: string := "⚠️ Sorry, something went wrong. Please try again."

  /** The role a client message gets: `"bot"` becomes the assistant, any
      other value, `"system"` included, becomes the user. */
  function RoleFor(clientRole: Json): (r: ApiRole)
    ensures r != System
    ensures r == Assistant <==> clientRole == JStr("bot")
  {
    if clientRole == JStr("bot") then Assistant else User
  }

  /** One client message translated, or `None` where `msg["role"]` or
      `msg["content"]` raises (not an object, or a key missing). */
  function Translate(msg: Json): (r: Option<ApiMessage>)
    ensures r.Some? <==> msg.JObj? && "role" in msg.fields && "content" in msg.fields
    ensures r.Some? ==> r.value.content == msg.fields["content"] && r.value.role == RoleFor(msg.fields["role"])
  {
    if msg.JObj? && "role" in msg.fields && "content" in msg.fields then
      Some(ApiMessage(RoleFor(msg.fields["role"]), msg.fields["content"]))
    else None
  }

  /** The elements Python's `for msg in conversation` visits, or `None` when
      that loop raises. A non-empty object or string is visited as its keys
      or characters, and indexing a string by `"role"` raises on the first
      one, so both end as `None` here. */
  function Items(conversation: Json): (r: Option<seq<Json>>)
    ensures conversation.JArr? ==> r == Some(conversation.items)
    ensures !conversation.JArr? ==> (r.Some? <==> conversation == JObj(map[]) || conversation == JStr([]))
    ensures r.Some? && !conversation.JArr? ==> r == Some([])
  {
    match conversation
    case JArr(xs) => Some(xs)
    case JObj(m) => if m == map[] then Some([]) else None
    case JStr(s) => if s == [] then Some([]) else None
    case _ => None
  }

  /** `data.get("conversation", [])`; `None` when `data` is not an object. */
  function ConversationOf(data: Json): (r: Option<Json>)
    ensures r.Some? <==> data.JObj?
    ensures data.JObj? && "conversation" in data.fields ==> r == Some(data.fields["conversation"])
    ensures data.JObj? && "conversation" !in data.fields ==> r == Some(JArr([]))
  {
    match data
    case JObj(m) => Some(if "conversation" in m then m["conversation"] else JArr([]))
    case _ => None
  }

  /** The specification of `messages`: the system message, then each client
      message translated in order; `None` when any of them cannot be. */
  function Messages(systemPrompt: string, conversation: seq<Json>): (r: Option<seq<ApiMessage>>)
    ensures r.Some? <==> forall i :: 0 <= i < |conversation| ==> Translate(conversation[i]).Some?
    ensures r.Some? ==> |r.value| == |conversation| + 1
    ensures r.Some? ==> r.value[0] == ApiMessage(System, JStr(systemPrompt))
    ensures r.Some? ==> forall i :: 0 <= i < |conversation| ==>
      r.value[i + 1].role == RoleFor(conversation[i].fields["role"]) &&
      r.value[i + 1].content == conversation[i].fields["content"]
    ensures r.Some? ==> forall k :: 0 <= k < |r.value| ==> (r.value[k].role == System <==> k == 0)
  {
    if forall i :: 0 <= i < |conversation| ==> Translate(conversation[i]).Some? then
      Some([ApiMessage(System, JStr(systemPrompt))] +
           seq(|conversation|, i requires 0 <= i < |conversation| && Translate(conversation[i]).Some? =>
                 Translate(conversation[i]).value))
    else None
  }

  /** The loop of `chat` building `messages`: it starts from the system
      message and appends one translated message per client message; a
      message it cannot index makes the whole request fail. */
  method BuildMessages(systemPrompt: string, conversation: seq<Json>) returns (r: Option<seq<ApiMessage>>)
    ensures r == Messages(systemPrompt, conversation)
  {
    var messages := [ApiMessage(System, JStr(systemPrompt))];
    var i := 0;
    while i < |conversation|
      invariant 0 <= i <= |conversation|
      invariant |messages| == i + 1
      invariant messages[0] == ApiMessage(System, JStr(systemPrompt))
      invariant forall k :: 0 <= k < i ==> Translate(conversation[k]).Some? && messages[k + 1] == Translate(conversation[k]).value
    {
      var msg := conversation[i];
      if !(msg.JObj? && "role" in msg.fields && "content" in msg.fields) {
        assert Translate(conversation[i]).None?;
        return None;
      }
      var role := if msg.fields["role"] == JStr("bot") then Assistant else User;
      messages := messages + [ApiMessage(role, msg.fields["content"])];
      i := i + 1;
    }
    r := Some(messages);
    assert r.value == Messages(systemPrompt, conversation).value;
  }

  /** Everything `chat` does before calling the language model: the request
      body (`None` when it is not JSON), its `conversation` field, the loop
      over it and the translation of each message. */
  function Prepare(systemPrompt: string, body: Option<Json>): (r: Option<seq<ApiMessage>>)
    ensures r.Some? ==> body.Some? && ConversationOf(body.value).Some?
    ensures r.Some? ==> Items(ConversationOf(body.value).value).Some?
    ensures r.Some? ==> r == Messages(systemPrompt, Items(ConversationOf(body.value).value).value)
    ensures body.Some? && ConversationOf(body.value).Some? && Items(ConversationOf(body.value).value).Some? ==>
      r == Messages(systemPrompt, Items(ConversationOf(body.value).value).value)
  {
    if body.None? then None
    else match ConversationOf(body.value)
      case None => None
      case Some(c) =>
        match Items(c)
        case None => None
        case Some(xs) => Messages(systemPrompt, xs)
  }

  /** The response of `/chat` once `messages` is known (or has failed):
      status 500 with the fixed apology when anything raised, otherwise
      status 200 with the model's reply text, `null` when it had none. */
  function ChatResponse(prepared: Option<seq<ApiMessage>>, complete: seq<ApiMessage> -> Completion): (r: Response)
    ensures r.status == 200 || r.status == 500
    ensures r.status == 500 <==> prepared.None? || complete(prepared.value).Raised?
    ensures r.body.JObj? && r.body.fields.Keys == {"bot_response"}
    ensures r.status == 500 ==> r.body.fields["bot_response"] == JStr(SorryText)
    ensures r.status == 200 ==>
      r.body.fields["bot_response"] == (match complete(prepared.value) case Content(t) => JStr(t) case _ => JNull)
  {
    if prepared.None? then Response(500, Single("bot_response", JStr(SorryText)))
    else match complete(prepared.value)
      case Raised => Response(500, Single("bot_response", JStr(SorryText)))
      case Content(t) => Response(200, Single("bot_response", JStr(t)))
      case NullContent => Response(200, Single("bot_response", JNull))
  }

  /** The `/chat` handler: builds the messages with the loop above, asks the
      language model (`complete`) and wraps its reply. */
  method Chat(systemPrompt: string, body: Option<Json>, complete: seq<ApiMessage> -> Completion)
    returns (response: Response)
    ensures response == ChatResponse(Prepare(systemPrompt, body), complete)
  {
    var prepared: Option<seq<ApiMessage>> := None;
    if body.Some? {
      var conversation := ConversationOf(body.value);
      if conversation.Some? {
        var items := Items(conversation.value);
        if items.Some? {
          prepared := BuildMessages(systemPrompt, items.value);
        }
      }
    }
    response := ChatResponse(prepared, complete);
  }
}
