# Medical chatbot: server request handling and chat widget

This project models the two halves of a small medical chatbot.

- **The FastAPI server** (`main.py`) reads a system prompt once at start-up. It keeps the part of `prompts/medical_prompt.txt` before the marker `Conversation so far:`, stripped. It uses one default when that part is blank and another when the file cannot be read.
- **`/get-suggestions`** cleans the language model's reply of code fences and falls back to six fixed questions when anything fails.
- **`/chat`** turns the client's conversation into the message list for the language model. The system prompt comes first, `"bot"` becomes `assistant` and every other role becomes `user`. It answers `{"bot_response": text}`, or the fixed apology with status 500 when anything raises.
- **The browser widget** (`static/chat.js`) trims what the user typed. Blank input is ignored. It shows the typed text with `<` and `>` escaped and stores it as typed. It empties and collapses the textarea and posts the whole conversation. It then stores the raw reply and shows it with every line feed turned into `<br>`, or shows a fixed server-error text when the step throws. Its `input` listener clamps the textarea to 200 pixels.

The modules follow the program:

- `Strings`: Python's `split`/`strip`/`replace` and JavaScript's `trim`/`replace`, on `seq<char>`.
- `Json`: parsed JSON values.
- `Server`: `main.py`.
- `Widget`: `static/chat.js`. The widget is a class whose fields the send step updates in place.
- `EndToEnd`: the two halves connected through the JSON of the `/chat` request and response.

The language-model calls and `json.loads` are function parameters. The outcome of `fetch` is a method parameter.

The widget renders no Markdown and adds no disclaimer: it only escapes the user's angle brackets and turns the reply's line feeds into `<br>`. A stored bot entry keeps the raw reply, not the HTML shown.

## Model

| member | source | states |
|---|---|---|
| Strings.BeforeFirst | main.py:31 | `split(sep)[0]`: the result is a prefix of the text with no occurrence of the separator in it; it is either the whole text or is followed by the separator |
| Strings.ReplaceAll | main.py:71 | `str.replace` and a global `replace` of a literal: occurrences are replaced left to right without overlap (the body), and replacing a pattern by itself changes nothing |
| Strings.ReplaceCharConcat | static/chat.js:104 | replacing a single character acts on each part of a concatenation separately |
| Strings.ReplaceAllSkips | main.py:71 | a prefix without the pattern's first character passes through the replacement unchanged |
| Strings.ReplaceAllAbsent | main.py:71 | a text without the pattern's first character is left unchanged |
| Strings.WhitespaceSetsDiffer | main.py:31 | the whitespace of Python's `strip()` (`PyIsSpace`) and of JavaScript's `trim()` (`JsIsSpace`, static/chat.js:99) differ exactly in U+001C..U+001F and U+0085, stripped only by Python, and U+FEFF, trimmed only by JavaScript |
| Strings.Strip | main.py:31 | `strip()` with a given whitespace set: the result has no whitespace at either end, and it is empty exactly when the text is all whitespace |
| Strings.StripIsSlice | main.py:31 | stripping keeps a contiguous slice of the text and removes only whitespace around it |
| Strings.StripIdempotent | main.py:71 | stripping twice is stripping once |
| Strings.StripPadded | main.py:31 | stripping ignores any whitespace padding added at either end |
| Strings.ReplaceCharLength | static/chat.js:104 | replacing one character adds the replacement's length minus one to the length, per occurrence |
| Strings.ReplaceCharRemoves | static/chat.js:128 | after replacing every `c` by text without `c`, no `c` is left, and a character absent from both inputs stays absent |
| Server.SystemPrompt | main.py:25-40 | the system prompt is never empty, never padded with whitespace and never holds the marker; an unreadable or missing file gives the default that asks for the disclaimer |
| Server.SystemPromptBeforeMarker | main.py:31-33 | a file `head + marker + tail` gives `head` stripped, or the blank-prompt default when `head` is only whitespace |
| Server.SystemPromptWithoutMarker | main.py:31-33 | a file without the marker gives its whole stripped text, or the default when it is blank |
| Server.RemoveFencesLeadTicks | main.py:71 | removing every "```" from a run of k backticks leaves k mod 3 of them |
| Server.RemoveFencesLeavesNone | main.py:71 | after `.replace("```", "")` no "```" is left |
| Server.CleanFences | main.py:71 | the cleaned reply holds neither "```json" nor "```" and has no whitespace at either end |
| Server.CleanFencesWithoutBackticks | main.py:71 | a reply without backticks is only stripped |
| Server.CleanFencesUnwrapsBlock | main.py:71 | a reply "```json" + body + "```" is cleaned to the stripped body |
| Server.SuggestionsBody | main.py:48-87 | the body is `{"suggestions": …}`, holding the parsed cleaned reply, or the six fallback questions when the call fails, the content is null or the parse fails |
| Server.RoleFor | main.py:103 | a client role never becomes `system`; it becomes `assistant` exactly when it is `"bot"` |
| Server.Translate | main.py:101-104 | a message translates exactly when it is an object with `role` and `content`; the content passes through unchanged |
| Server.Items | main.py:94-101 | an array is iterated as its items; of the other values only `{}` and `""` iterate, as nothing, and every other one raises |
| Server.ConversationOf | main.py:93-94 | `data.get("conversation", [])` is defined exactly for objects; it is the field's value when present and `[]` otherwise |
| Server.Messages | main.py:98-104 | the message list exists exactly when every client message translates; it is one longer than the conversation, starts with the system prompt, keeps order, roles and contents, and has `system` only first |
| Server.BuildMessages | main.py:98-104 | the loop builds exactly `Messages` |
| Server.Prepare | main.py:92-104 | when the body parses to an object whose conversation iterates, the result is `Messages` of that conversation; for any other body nothing is prepared |
| Server.ChatResponse | main.py:90-123 | status 500 exactly when preparing or the model call raised, with the fixed apology; otherwise status 200 with the reply text, or `null` when the reply has no content; the body is always `{"bot_response": …}` |
| Server.Chat | main.py:90-123 | the handler answers `ChatResponse` of the prepared messages |
| Widget.Resize | static/chat.js:13-25 | the height is the smaller of the content height and 200 px; a scroll bar appears exactly when the content is taller than 200 px |
| Widget.ResizeHeightIdempotent | static/chat.js:18-24 | resizing to content as tall as the height just set sets the same height again |
| Widget.EscapeAngles | static/chat.js:104 | the shown user text holds no `<` and no `>`, and is three characters longer per bracket |
| Widget.EscapeAnglesCharwise | static/chat.js:104 | the two global replacements equal escaping each character on its own |
| Widget.EscapeAnglesRoundTrip | static/chat.js:104 | for text without `&`, decoding `&lt;`/`&gt;` gives back what was typed |
| Widget.AmpersandIsNotEscaped | static/chat.js:104 | typing `&lt;` and typing `<` show the same text |
| Widget.BotHtml | static/chat.js:128 | the shown reply holds no line feed and is three characters longer per line feed |
| Widget.BotHtmlRoundTrip | static/chat.js:128 | for a reply without `<`, turning `<br>` back into line feeds gives back the reply |
| Widget.ReplyOf | static/chat.js:124-131 | a reply is read exactly when a delivered object has a string `bot_response`, and it is that string |
| Widget.Trim | static/chat.js:99-100 | the trimmed input is empty exactly when it is all JavaScript whitespace; otherwise it has none at either end |
| Widget.Stored | static/chat.js:106-131 | after a send the conversation is the old one, then the user entry, then the raw reply when there is one |
| Widget.Shown | static/chat.js:105-134 | after a send the chat box is the old one, then the escaped text, then the reply with `<br>` or the server-error text |
| Widget.StoredExtends | static/chat.js:106-131 | a send extends the conversation and adds exactly one user turn |
| Widget.SendKeepsValid | static/chat.js:98-137 | a send of trimmed text keeps the invariants: user entries are trimmed and non-blank, user bubbles hold no angle bracket, bot bubbles no line feed, each posted conversation is a prefix of the stored one ending with a user entry, and there are two bubbles per send |
| Widget.SendKeepsPrefixes | static/chat.js:106-121 | every conversation posted so far, the new one included, is a prefix of the stored conversation |
| Widget.ChatWidget.constructor | static/chat.js:5 | the page starts with an empty conversation and chat box and nothing posted |
| Widget.ChatWidget.Edit | static/chat.js:13-25 | typing sets the value and the resized style, and changes nothing else |
| Widget.ChatWidget.Exchange | static/chat.js:104-136 | the new conversation, chat box and posted list are `Stored`, `Shown` and the old list plus the conversation up to the user entry; the textarea is empty and collapsed |
| Widget.ChatWidget.SendMessage | static/chat.js:98-137 | blank input changes nothing; otherwise the state becomes the one `Exchange` states for the trimmed text and the reply the outcome yields |
| EndToEnd.EntryJson | static/chat.js:121 | one stored entry as `JSON.stringify` writes it: an object with exactly `role` (`"user"` or `"bot"`) and `content` (the text as a string) |
| EndToEnd.RequestBody | static/chat.js:117-121 | the posted body is `{"conversation": [...]}` with one `{"role", "content"}` object per stored entry |
| EndToEnd.WidgetRequestAccepted | main.py:92-104 | whatever the widget has stored, the server translates its body: `user` becomes `User`, `bot` becomes `Assistant`, and the text is kept |
| EndToEnd.ReplyOfChatResponse | main.py:113-123 | the widget reads the reply text from a 200 with text and the apology from a 500; a `null` reply sends it to its error branch |
| EndToEnd.SendThroughServer | main.py:90-123 | for a widget conversation, the model's text is stored as the reply; a raising model call stores the apology with status 500; a reply without content stores nothing and shows the server-error text |

## Left out

- FastAPI routing, the `/` template, static-file mounting and `uvicorn` start-up: framework plumbing with no logic of its own.
- Loading `.env` and the missing-API-key error (`main.py:10-15`): environment access at import time.
- The OpenAI calls: a function parameter `complete` returns text, no content or a raise. Model names, temperatures and the suggestions prompt text are not modelled.
- `json.loads` and `request.json()`: a parse function parameter and an `Option<Json>` body. For `/get-suggestions` the parameter also stands for rendering the response inside the same `try`, so a reply holding `NaN` or an infinite number, which `json.loads` accepts and the response refuses to render, counts as a failed parse and gives the fallback questions.
- JSON numbers are integers. The server passes numbers through without arithmetic, so fractional values change nothing here. Non-finite numbers matter only in `/get-suggestions`, as the line above says.
- The warning `print`s and `console.error`: output only.
- Server.Items: a non-empty object or string given as the conversation is iterated by Python as keys or characters, and the first `msg["role"]` raises. The model goes straight to the raising outcome.
- DOM building in `appendMessage` (avatar, author line) and `scrollToBottom`: the chat box is a sequence of role-and-HTML bubbles.
- The typing indicator: `showBotTyping` adds it and `removeBotTyping` takes it away on both the success and the error path, so a completed send leaves none. The model shows only the state after the step.
- The click and Enter-key listeners: both call the send step, which is modelled. Shift+Enter inserting a line feed is an edit of the textarea value.
- Widget.ChatWidget.SendMessage: the `await` points are not interleaved. A send step runs to its end before the next event, and the outcome of `fetch`/`res.json()` is a parameter.
- Widget.ChatWidget.constructor: the textarea's initial style comes from CSS and is not modelled beyond "auto/hidden".
