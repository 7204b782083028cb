/** The widget and the server together: the body the widget posts to `/chat`
    is always one the server can translate, and the reply the widget stores
    is exactly what the server's response carries. */
module EndToEnd {
  import opened Strings
  import opened Json
  import Server
  import Widget

  /** One stored entry as `JSON.stringify` writes it and `json.loads` reads
      it back: `{"role": "user" | "bot", "content": text}`. */
  function EntryJson(e: Widget.Entry): (r: Json)
    ensures r.JObj? && r.fields.Keys == {"role", "content"}
    ensures r.fields["role"] == JStr(if e.role == Widget.UserRole then "user" else "bot")
    ensures r.fields["content"] == JStr(e.content)
  {
    JObj(map["role" := JStr(if e.role == Widget.UserRole then "user" else "bot"),
             "content" := JStr(e.content)])
  }

  /** The request body of the send step, `{conversation}`, as the server
      parses it. */
  function RequestBody(conversation: seq<Widget.Entry>): (r: Json)
    ensures r.JObj? && r.fields.Keys == {"conversation"}
    ensures r.fields["conversation"].JArr? && |r.fields["conversation"].items| == |conversation|
    ensures forall i :: 0 <= i < |conversation| ==> r.fields["conversation"].items[i] == EntryJson(conversation[i])
  {
    Single("conversation", JArr(seq(|conversation|, i requires 0 <= i < |conversation| => EntryJson(conversation[i]))))
  }

  /** The messages the server builds from a widget conversation: the system
      prompt, then each entry with the user as `User` and the bot as
      `Assistant`, its text as a JSON string. */
  function WidgetMessages(systemPrompt: string, conversation: seq<Widget.Entry>): (r: seq<Server.ApiMessage>)
    ensures |r| == |conversation| + 1 && r[0] == Server.ApiMessage(Server.System, JStr(systemPrompt))
    ensures forall i :: 0 <= i < |conversation| ==>
      r[i + 1].content == JStr(conversation[i].content) &&
      (r[i + 1].role == Server.Assistant <==> conversation[i].role == Widget.BotRole) &&
      r[i + 1].role != Server.System
  {
    [Server.ApiMessage(Server.System, JStr(systemPrompt))] +
    seq(|conversation|, i requires 0 <= i < |conversation| =>
          Server.ApiMessage(if conversation[i].role == Widget.BotRole then Server.Assistant else Server.User,
                            JStr(conversation[i].content)))
  }

  /** Whatever the widget has stored, the server accepts the body it posts
      and translates it entry by entry. */
  lemma WidgetRequestAccepted(systemPrompt: string, conversation: seq<Widget.Entry>)
    ensures Server.Prepare(systemPrompt, Some(RequestBody(conversation))) == Some(WidgetMessages(systemPrompt, conversation))
  {
    var body := RequestBody(conversation);
    var items := body.fields["conversation"].items;
    assert Server.ConversationOf(body) == Some(JArr(items));
    assert Server.Items(JArr(items)) == Some(items);
    forall i | 0 <= i < |items| ensures Server.Translate(items[i]).Some? {
      assert items[i] == EntryJson(conversation[i]);
    }
    assert Server.Prepare(systemPrompt, Some(body)) == Server.Messages(systemPrompt, items);
    var m := Server.Messages(systemPrompt, items).value;
    var w := WidgetMessages(systemPrompt, conversation);
    assert |m| == |w|;
    forall k | 0 <= k < |m| ensures m[k] == w[k] {
      if k > 0 {
        var e := EntryJson(conversation[k - 1]);
        assert items[k - 1] == e;
        assert m[k].role == Server.RoleFor(e.fields["role"]);
      }
    }
    assert m == w;
  }

  /** What the widget makes of a `/chat` response: the reply text on a 200
      with text, the apology on a 500, and no reply (its `catch` branch)
      when the model gave no content. */
  lemma ReplyOfChatResponse(prepared: Option<seq<Server.ApiMessage>>, complete: seq<Server.ApiMessage> -> Server.Completion)
    ensures var reply := Widget.ReplyOf(Widget.Delivered(Server.ChatResponse(prepared, complete).body));
      if prepared.None? then reply == Some(Server.SorryText)
      else match complete(prepared.value)
        case Content(t) => reply == Some(t)
        case Raised => reply == Some(Server.SorryText)
        case NullContent => reply.None?
  {
  }

  /** A whole send step against the server: the reply the widget stores and
      shows is the model's text, the apology when the model call raised, and
      nothing (the server-error bubble) when the model gave no content. */
  lemma SendThroughServer(systemPrompt: string, conversation: seq<Widget.Entry>,
                          complete: seq<Server.ApiMessage> -> Server.Completion)
    ensures var response := Server.ChatResponse(Server.Prepare(systemPrompt, Some(RequestBody(conversation))), complete);
      var reply := Widget.ReplyOf(Widget.Delivered(response.body));
      match complete(WidgetMessages(systemPrompt, conversation))
      case Content(t) => response.status == 200 && reply == Some(t)
      case Raised => response.status == 500 && reply == Some(Server.SorryText)
      case NullContent => response.status == 200 && reply.None?
  {
    WidgetRequestAccepted(systemPrompt, conversation);
    ReplyOfChatResponse(Server.Prepare(systemPrompt, Some(RequestBody(conversation))), complete);
  }
}
