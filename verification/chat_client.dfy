/** The message log shared by the client hook and the chat route. */
module Messages {

  datatype Role = User | Assistant

  /** A log entry; the timestamp the client stores is left out. */
  datatype Message = Message(role: Role, content: string)

  /** Number of entries written by the host. */
  function AssistantCount(ms: seq<Message>): (n: nat)
    ensures n <= |ms|
  {
    if ms == [] then 0
    else AssistantCount(ms[..|ms| - 1]) + (if ms[|ms| - 1].role == Assistant then 1 else 0)
  }

  lemma AssistantCountAppend(ms: seq<Message>, m: Message)
    ensures AssistantCount(ms + [m]) == AssistantCount(ms) + (if m.role == Assistant then 1 else 0)
  {
    assert (ms + [m])[..|ms|] == ms;
  }
}

/** The dialogue client hook: `sendMessage` appends the user's words to the
    log, posts the log to the chat route, and appends the host's reply.
    The request is split at its `await`: `Begin` is what runs before the
    response arrives, `Finish` what runs after. */
module ChatClient {
  import opened Wrappers
  import opened Messages
  import Json
  import Text

  datatype Chat = Chat(
    messages: seq<Message>,
    loading: bool,
    error: Option<string>,
    initialSpoken: bool,     // `initialMessageSpoken`
    userName: string)

  /** The JSON body posted to the chat route. */
  datatype Request = Request(message: string, history: seq<Message>, userName: string)

  /** How the `fetch` ended: a successful response carrying the reply, a non-2xx
      response, or an exception (with its message when it is an `Error`). */
  datatype Outcome = Replied(text: string) | NotOk | Threw(message: Option<string>)

  datatype Begun = Begun(chat: Chat, request: Option<Request>)
  datatype Finished = Finished(chat: Chat, reply: Option<string>)

  function RoleName(r: Role): string {
    if r == User then "user" else "assistant"
  }

  function MessageJson(m: Message): Json.Json {
    Json.JObj([("role", Json.JStr(RoleName(m.role))), ("content", Json.JStr(m.content))])
  }

  /** The JSON body `sendMessage` posts: the words, the log without
      timestamps, and the effective user name. */
  function RequestJson(r: Request): Json.Json {
    Json.JObj([
      ("message", Json.JStr(r.message)),
      ("conversationHistory", Json.JArr(seq(|r.history|, i requires 0 <= i < |r.history| => MessageJson(r.history[i])))),
      ("userName", Json.JStr(r.userName))])
  }

  const NotOkMessage: string := "AI応答の取得に失敗しました"
  const UnknownErrorMessage: string := "不明なエラーが発生しました"

  const Initial: Chat := Chat([], false, None, false, "")

  /** `userNameOverride || userName`. */
  function EffectiveName(c: Chat, nameOverride: Option<string>): (name: string)
    ensures nameOverride.Some? && nameOverride.value != [] ==> name == nameOverride.value
    ensures nameOverride.None? || nameOverride.value == [] ==> name == c.userName
  {
    if nameOverride.Some? && nameOverride.value != [] then nameOverride.value else c.userName
  }

  /** The user entry `sendMessage` records for `userMessage`, if any: only
      words that are not blank after trimming are recorded, untrimmed. */
  function UserEntry(userMessage: string): (e: seq<Message>)
    ensures |e| <= 1
    ensures |e| == 1 <==> !Text.IsBlank(userMessage)
    ensures |e| == 1 ==> e[0] == Message(User, userMessage)
  {
    if Text.IsBlank(userMessage) then [] else [Message(User, userMessage)]
  }

  /** The part of `sendMessage` up to the `await`. While a request is in flight
      the call is refused and nothing changes. */
  function Begin(c: Chat, userMessage: string, nameOverride: Option<string>): (b: Begun)
    ensures c.loading ==> b == Begun(c, None)
    ensures !c.loading ==>
      && b.chat.loading && b.chat.error == None
      && b.chat.messages == c.messages + UserEntry(userMessage)
      && b.request == Some(Request(userMessage, b.chat.messages, EffectiveName(c, nameOverride)))
      && b.chat.initialSpoken == c.initialSpoken && b.chat.userName == c.userName
  {
    if c.loading then Begun(c, None)
    else
      var log := c.messages + UserEntry(userMessage);
      Begun(c.(messages := log, loading := true, error := None),
            Some(Request(userMessage, log, EffectiveName(c, nameOverride))))
  }

  /** An empty message adds nothing to the log, and the request goes out under
      the override when it is non-empty, under the held name otherwise. */
  lemma BeginEmpty(c: Chat, name: string)
    requires !c.loading
    ensures Begin(c, "", Some(name)).request == Some(Request("", c.messages, if name != [] then name else c.userName))
  {
    assert UserEntry("") == [] by {
      Text.TrimEmptyIff("");
    }
    assert c.messages + [] == c.messages;
  }

  /** The part of `sendMessage` after the response: a reply is appended and
      returned; a failure records its message and returns nothing; loading is
      cleared either way (the `finally`). */
  function Finish(c: Chat, outcome: Outcome): (f: Finished)
    ensures !f.chat.loading
    ensures f.chat.initialSpoken == c.initialSpoken && f.chat.userName == c.userName
    ensures outcome.Replied? ==>
      f.chat.messages == c.messages + [Message(Assistant, outcome.text)]
      && f.reply == Some(outcome.text) && f.chat.error == c.error
    ensures !outcome.Replied? ==> f.chat.messages == c.messages && f.reply == None && f.chat.error.Some?
    ensures outcome.NotOk? ==> f.chat.error == Some(NotOkMessage)
    ensures outcome.Threw? ==> f.chat.error == Some(outcome.message.GetOr(UnknownErrorMessage))
  {
    match outcome
    case Replied(text) =>
      Finished(c.(messages := c.messages + [Message(Assistant, text)], loading := false), Some(text))
    case NotOk =>
      Finished(c.(error := Some(NotOkMessage), loading := false), None)
    case Threw(message) =>
      Finished(c.(error := Some(message.GetOr(UnknownErrorMessage)), loading := false), None)
  }

  /** A whole `sendMessage` call whose response is `outcome`. */
  function SendMessage(c: Chat, userMessage: string, nameOverride: Option<string>, outcome: Outcome): Finished {
    var b := Begin(c, userMessage, nameOverride);
    if b.request.None? then Finished(c, None) else Finish(b.chat, outcome)
  }

  /** What one `sendMessage` does to the log: refused while loading; otherwise
      the user entry (for non-blank words) and then, on success only, exactly
      one host entry, whose text is returned. Loading is off afterwards. */
  lemma SendMessageLog(c: Chat, userMessage: string, nameOverride: Option<string>, outcome: Outcome)
    ensures var f := SendMessage(c, userMessage, nameOverride, outcome);
      && (c.loading ==> f == Finished(c, None))
      && (!c.loading ==>
            && !f.chat.loading
            && (outcome.Replied? ==>
                  f.chat.messages == c.messages + UserEntry(userMessage) + [Message(Assistant, outcome.text)]
                  && f.reply == Some(outcome.text) && f.chat.error == None)
            && (!outcome.Replied? ==>
                  f.chat.messages == c.messages + UserEntry(userMessage)
                  && f.reply == None && f.chat.error.Some?))
  {
  }

  /** A failed request never records a host turn, so retrying it is safe: the
      number of host entries is unchanged. */
  lemma FailureKeepsTurnCount(c: Chat, userMessage: string, nameOverride: Option<string>, outcome: Outcome)
    requires !outcome.Replied?
    ensures AssistantCount(SendMessage(c, userMessage, nameOverride, outcome).chat.messages) == AssistantCount(c.messages)
  {
    if !c.loading {
      var e := UserEntry(userMessage);
      if |e| == 1 {
        AssistantCountAppend(c.messages, e[0]);
        assert c.messages + e == c.messages + [e[0]];
      } else {
        assert c.messages + e == c.messages;
      }
    }
  }

  /** A successful request records exactly one more host turn. */
  lemma SuccessAdvancesTurnCount(c: Chat, userMessage: string, nameOverride: Option<string>, text: string)
    requires !c.loading
    ensures AssistantCount(SendMessage(c, userMessage, nameOverride, Replied(text)).chat.messages)
      == AssistantCount(c.messages) + 1
  {
    var e := UserEntry(userMessage);
    var log := c.messages + e;
    AssistantCountAppend(log, Message(Assistant, text));
    if |e| == 1 {
      AssistantCountAppend(c.messages, e[0]);
      assert log == c.messages + [e[0]];
    } else {
      assert log == c.messages;
    }
  }

  /** `clearMessages`: empty log, no error, initial message not yet spoken. */
  function ClearMessages(c: Chat): (c': Chat)
    ensures c'.messages == [] && c'.error == None && !c'.initialSpoken
    ensures c'.loading == c.loading && c'.userName == c.userName
  {
    c.(messages := [], error := None, initialSpoken := false)
  }
}
