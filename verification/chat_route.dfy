/** The dialogue route `POST /api/chat`: validates the body, counts the host's
    previous turns, picks the scripted interview step for this turn, builds the
    Gemini request and maps what comes back, or what was thrown, to a response.
    The Gemini call itself is an input: its outcome is a parameter. */
module ChatRoute {
  import opened Wrappers
  import opened Results
  import opened Messages
  import opened Json
  import Text
  import Env
  import Decimal
  import ChatClient

  /** The body after the schema: `message`, optional `conversationHistory`
      and optional `userName`; other members are ignored. */
  datatype Body = Body(message: string, history: Option<seq<Message>>, userName: Option<string>)

  function ParseRole(j: Json): (r: Option<Role>)
    ensures r == Some(User) <==> j == JStr("user")
    ensures r == Some(Assistant) <==> j == JStr("assistant")
  {
    if j == JStr("user") then Some(User)
    else if j == JStr("assistant") then Some(Assistant)
    else None
  }

  /** One history entry: an object whose `role` is "user" or "assistant" and
      whose `content` is a string. */
  function ParseMessage(j: Json): Option<Message> {
    var role := Member(Some(j), "role");
    var content := Member(Some(j), "content");
    if role.Some? && ParseRole(role.value).Some? && content.Some? && content.value.JStr? then
      Some(Message(ParseRole(role.value).value, content.value.s))
    else None
  }

  function ParseHistory(items: seq<Json>): (r: Option<seq<Message>>)
    ensures r.Some? <==> forall i | 0 <= i < |items| :: ParseMessage(items[i]).Some?
    ensures r.Some? ==> |r.value| == |items|
    ensures r.Some? ==> forall i | 0 <= i < |items| :: r.value[i] == ParseMessage(items[i]).value
  {
    if items == [] then Some([])
    else
      var last := ParseMessage(items[|items| - 1]);
      var init := ParseHistory(items[..|items| - 1]);
      assert forall i | 0 <= i < |items| - 1 :: items[..|items| - 1][i] == items[i];
      if init.Some? && last.Some? then Some(init.value + [last.value]) else None
  }

  /** An optional member: absent is fine, present must pass `parse`. */
  function Optional<T>(v: Option<Json>, parse: Json -> Option<T>): Option<Option<T>> {
    if v.None? then Some(None)
    else if parse(v.value).Some? then Some(Some(parse(v.value).value))
    else None
  }

  function AsString(j: Json): Option<string> {
    if j.JStr? then Some(j.s) else None
  }

  function AsHistory(j: Json): Option<seq<Message>> {
    if j.JArr? then ParseHistory(j.items) else None
  }

  /** `chatRequestSchema.safeParse`: the body must be an object with a string
      `message`; `conversationHistory`, when present, an array of entries;
      `userName`, when present, a string. */
  function ParseBody(j: Json): (r: Option<Body>)
    ensures r.Some? ==> j.JObj? && Get(j, "message") == Some(JStr(r.value.message))
    ensures r.Some? ==> (r.value.history.None? <==> Get(j, "conversationHistory").None?)
    ensures r.Some? ==> (r.value.userName.None? <==> Get(j, "userName").None?)
  {
    var message := Get(j, "message");
    var history := Optional(Get(j, "conversationHistory"), AsHistory);
    var userName := Optional(Get(j, "userName"), AsString);
    if j.JObj? && message.Some? && message.value.JStr? && history.Some? && userName.Some? then
      Some(Body(message.value.s, history.value, userName.value))
    else None
  }

  /** `aiResponseCount`: the host turns so far, 0 without a history. */
  function ResponseCount(history: Option<seq<Message>>): (k: nat)
    ensures history.None? ==> k == 0
    ensures history.Some? ==> k == AssistantCount(history.value)
  {
    if history.None? then 0 else AssistantCount(history.value)
  }

  const GuestName: string := "ゲスト"

  /** `userName || "ゲスト"`. */
  function DisplayName(userName: Option<string>): (name: string)
    ensures userName.None? || userName.value == [] ==> name == GuestName
    ensures userName.Some? && userName.value != [] ==> name == userName.value
  {
    Env.OrDefault(userName, GuestName)
  }

  // --- The system prompt --------------------------------------------------

  const StepCount: nat := 13

  /** Whether step `j` (1-based) is the current one for host turn index `k`:
      steps 1..12 each belong to one turn, step 13 to every later turn. */
  predicate IsCurrentStep(k: nat, j: nat)
    requires 1 <= j <= StepCount
  {
    if j < StepCount then k == j - 1 else k >= StepCount - 1
  }

  /** The scripted instruction of a step, for the guest's display name; its
      wording is not modelled. */
  datatype Instruction = Instruction(step: nat, guest: string)

  /** One step of the flow as written into the prompt: the step number, the
      "this is the step" marker, and the step's instruction, both present
      only for the current step. */
  datatype Section = Section(step: nat, marked: bool, instruction: Option<Instruction>)

  datatype Prompt = Prompt(
    responseNumber: nat,      // "応答回数: n回目"
    userLabel: string,
    sections: seq<Section>,
    closingReminder: bool)    // the repeated instruction to end the show

  const UnsetUserLabel: string := "【ユーザー名: 未設定】"

  function UserLabel(userName: Option<string>): (tag: string)
    ensures userName.None? || userName.value == [] ==> tag == UnsetUserLabel
    ensures userName.Some? && userName.value != [] ==> tag == "【ユーザー名: " + userName.value + "】"
  {
    if userName.Some? && userName.value != [] then "【ユーザー名: " + userName.value + "】" else UnsetUserLabel
  }

  function SectionFor(k: nat, j: nat, guest: string): Section
    requires 1 <= j <= StepCount
  {
    Section(j, IsCurrentStep(k, j), if IsCurrentStep(k, j) then Some(Instruction(j, guest)) else None)
  }

  function SystemPrompt(k: nat, userName: Option<string>): Prompt {
    var guest := DisplayName(userName);
    Prompt(k + 1, UserLabel(userName),
           seq(StepCount, i requires 0 <= i < StepCount => SectionFor(k, i + 1, guest)),
           k >= StepCount - 1)
  }

  /** The step the prompt marks for host turn index `k`. */
  function CurrentStep(k: nat): (j: nat)
    ensures 1 <= j <= StepCount
  {
    if k < StepCount - 1 then k + 1 else StepCount
  }

  /** The prompt lists steps 1..13 in order, and exactly one is marked and
      carries its instruction: step k+1 for k <= 11 and step 13 from k = 12
      on. The closing reminder appears exactly on the last step. */
  lemma ExactlyOneStep(k: nat, userName: Option<string>)
    ensures var p := SystemPrompt(k, userName);
      && p.responseNumber == k + 1
      && |p.sections| == StepCount
      && (forall i | 0 <= i < StepCount :: p.sections[i].step == i + 1)
      && (forall i | 0 <= i < StepCount ::
            (p.sections[i].marked <==> p.sections[i].step == CurrentStep(k))
            && (p.sections[i].instruction.Some? <==> p.sections[i].marked))
      && (p.closingReminder <==> CurrentStep(k) == StepCount)
    ensures k <= 11 ==> CurrentStep(k) == k + 1
    ensures k >= 12 ==> CurrentStep(k) == 13
  {
  }

  /** The marked step's instruction is addressed to the display name. */
  lemma InstructionForGuest(k: nat, userName: Option<string>)
    ensures var p := SystemPrompt(k, userName);
      p.sections[CurrentStep(k) - 1].instruction == Some(Instruction(CurrentStep(k), DisplayName(userName)))
  {
  }

  /** The turn index counts host entries: it grows by one for each
      `assistant` entry appended to the history and not for a `user` entry. */
  lemma ResponseCountAppend(h: seq<Message>, m: Message)
    ensures ResponseCount(Some(h + [m])) == ResponseCount(Some(h)) + (if m.role == Assistant then 1 else 0)
    ensures ResponseCount(Some([])) == ResponseCount(None) == 0
  {
    AssistantCountAppend(h, m);
  }

  /** The name tag and the display name fall back on different conditions:
      the tag reads "unset" also for a guest literally named `未設定`, and the
      display name is `ゲスト` also for a guest named `ゲスト`, whose tag is set. */
  lemma LabelMarksFallback(userName: Option<string>)
    ensures UserLabel(userName) == UnsetUserLabel <==>
      userName.None? || userName.value == [] || userName.value == "未設定"
    ensures DisplayName(userName) == GuestName <==>
      userName.None? || userName.value == [] || userName.value == GuestName
    ensures userName == Some(GuestName) ==> UserLabel(userName) != UnsetUserLabel
  {
    if userName.Some? && userName.value != [] {
      var v := userName.value;
      var tag := "【ユーザー名: " + v + "】";
      assert |"【ユーザー名: "| == 8;
      if tag == UnsetUserLabel {
        assert |v| == 3;
        assert v == tag[8..11];
        assert UnsetUserLabel[8..11] == "未設定";
      }
      if v == "未設定" {
        assert tag == UnsetUserLabel;
      }
    }
  }

  // --- The Gemini request --------------------------------------------------

  datatype GeminiRole = ModelRole | UserRole
  datatype Content = Content(role: GeminiRole, text: string)

  datatype GeminiRequest = GeminiRequest(
    model: string, apiKey: string, system: Prompt, contents: seq<Content>, maxOutputTokens: nat)

  const MaxOutputTokens: nat := 1024

  /** The user content sent when the message is blank. */
  const OpeningRequest: string := "番組を開始してください"

  function ToContent(m: Message): Content {
    Content(if m.role == Assistant then ModelRole else UserRole, m.content)
  }

  /** The history in Gemini's terms: same entries, same order, `assistant`
      becoming `model` and `user` staying `user`. */
  function MapHistory(h: seq<Message>): (cs: seq<Content>)
    ensures |cs| == |h|
    ensures forall i | 0 <= i < |h| ::
      cs[i].text == h[i].content && (cs[i].role == ModelRole <==> h[i].role == Assistant)
  {
    seq(|h|, i requires 0 <= i < |h| => ToContent(h[i]))
  }

  /** `message?.trim() ? message.trim() : "番組を開始してください"`. */
  function UserContent(message: string): (t: string)
    ensures Text.IsBlank(message) ==> t == OpeningRequest
    ensures !Text.IsBlank(message) ==> t == Text.Trim(message)
    ensures t != []
  {
    if Text.IsBlank(message) then OpeningRequest else Text.Trim(message)
  }

  function Contents(b: Body): (cs: seq<Content>)
    ensures |cs| == |b.history.GetOr([])| + 1
    ensures cs[..|cs| - 1] == MapHistory(b.history.GetOr([]))
    ensures cs[|cs| - 1] == Content(UserRole, UserContent(b.message))
  {
    MapHistory(b.history.GetOr([])) + [Content(UserRole, UserContent(b.message))]
  }

  // --- Outcomes and responses ------------------------------------------------

  /** A value thrown inside the handler: the abort of the timed-out request,
      an `Error` with its message, or anything else. */
  datatype Thrown = AbortError | Error(message: string) | NonError

  /** How the Gemini call went: it threw (network failure, timeout, unreadable
      body), answered with a non-2xx status, or answered with a JSON body. */
  datatype GeminiOutcome = Failed(thrown: Thrown) | NotOk(status: int) | Answered(data: Json)

  datatype Response = Response(status: int, body: Json)

  /** The request made, if any, and the response sent. */
  datatype Handled = Handled(request: Option<GeminiRequest>, response: Response)

  const InvalidRequestMessage: string := "リクエストが不正です"
  const MessageRequiredMessage: string := "メッセージが必要です"
  const TimeoutMessage: string := "AI応答がタイムアウトしました"
  const GenerationFailedMessage: string := "AI応答の生成に失敗しました"
  const EmptyReplyMessage: string := "AI応答が空です"
  const ApiErrorPrefix: string := "Gemini API error: "
  const KeyName: string := "GEMINI_API_KEY"

  function ErrorResponse(status: int, message: string): Response {
    Response(status, JObj([("error", JStr(message))]))
  }

  /** The `catch` block: a timeout is 504; an `Error` mentioning the API key
      is 500 with its own message; everything else is 500 with a fixed one. */
  function Catch(t: Thrown): (r: Response)
    ensures r.status == 504 <==> t.AbortError?
    ensures r.status != 504 ==> r.status == 500
    ensures t.Error? && Text.Includes(t.message, KeyName) ==> r == ErrorResponse(500, t.message)
    ensures t.NonError? || (t.Error? && !Text.Includes(t.message, KeyName)) ==>
      r == ErrorResponse(500, GenerationFailedMessage)
    ensures t.AbortError? ==> r == ErrorResponse(504, TimeoutMessage)
  {
    if t.AbortError? then ErrorResponse(504, TimeoutMessage)
    else if t.Error? && Text.Includes(t.message, KeyName) then ErrorResponse(500, t.message)
    else ErrorResponse(500, GenerationFailedMessage)
  }

  /** `data?.candidates?.[0]?.content?.parts?.[0]?.text`. */
  function ReplyText(data: Json): Option<Json> {
    Member(First(Member(Member(First(Member(Some(data), "candidates")), "content"), "parts")), "text")
  }

  /** What the handler does once the request is sent. */
  function Answer(outcome: GeminiOutcome): (r: Response)
    ensures r.status in {200, 500, 504}
  {
    match outcome
    case Failed(t) => Catch(t)
    case NotOk(status) => Catch(Error(ApiErrorPrefix + Decimal.IntString(status)))
    case Answered(data) =>
      var text := ReplyText(data);
      if !Truthy(text) then Catch(Error(EmptyReplyMessage))
      else Response(200, JObj([("response", text.value)]))
  }

  /** `POST`. `body` is what `request.json()` gave (or threw), `vars` the
      environment, and `outcome` how the Gemini call would go if made. */
  function Post(body: Result<Json, Thrown>, vars: Env.Vars, outcome: GeminiOutcome): (h: Handled)
    ensures h.response.status in {200, 400, 500, 504}
    ensures h.response.status == 400 ==> h.request.None?
    ensures h.response.status == 200 ==> h.request.Some?
  {
    if body.Err? then Handled(None, Catch(body.error))
    else
      var parsed := ParseBody(body.value);
      if parsed.None? then Handled(None, ErrorResponse(400, InvalidRequestMessage))
      else
        var b := parsed.value;
        var env := Env.GetChatEnv(vars);
        if env.Err? then Handled(None, Catch(Error(env.error)))
        else
          var k := ResponseCount(b.history);
          if b.message == [] && k > 0 then Handled(None, ErrorResponse(400, MessageRequiredMessage))
          else
            var request := GeminiRequest(env.value.model, env.value.apiKey, SystemPrompt(k, b.userName),
                                         Contents(b), MaxOutputTokens);
            Handled(Some(request), Answer(outcome))
  }

  // --- Properties -------------------------------------------------------------

  /** A body that fails the schema is a 400, whatever the environment and
      before anything is sent. */
  lemma SchemaFailureIs400(j: Json, vars: Env.Vars, outcome: GeminiOutcome)
    requires ParseBody(j).None?
    ensures Post(Ok(j), vars, outcome) == Handled(None, ErrorResponse(400, InvalidRequestMessage))
  {
  }

  /** The missing-key error of the environment loader mentions the key, so the
      route answers 500 with the loader's own message. */
  lemma MissingKeyIs500(j: Json, vars: Env.Vars, outcome: GeminiOutcome)
    requires ParseBody(j).Some? && !Env.SchemaAccepts(vars)
    ensures Post(Ok(j), vars, outcome) == Handled(None, ErrorResponse(500, Env.MissingKeyMessage))
  {
    assert Text.OccursAt(Env.MissingKeyMessage, KeyName, 0);
  }

  /** With a valid body and configuration, the request is refused (400, nothing
      sent) exactly when the message is empty and the host has already spoken;
      an empty message on the first turn is sent as the opening request. */
  lemma EmptyMessageRule(j: Json, vars: Env.Vars, outcome: GeminiOutcome)
    requires ParseBody(j).Some? && Env.SchemaAccepts(vars)
    ensures var b := ParseBody(j).value;
      var h := Post(Ok(j), vars, outcome);
      && (h.response == ErrorResponse(400, MessageRequiredMessage)
          <==> b.message == [] && ResponseCount(b.history) > 0)
      && (h.request.None? <==> b.message == [] && ResponseCount(b.history) > 0)
  {
  }

  /** What is sent: the configured model and key, the prompt for turn index k,
      and the mapped history followed by exactly one user entry. */
  lemma RequestContents(j: Json, vars: Env.Vars, outcome: GeminiOutcome)
    ensures Post(Ok(j), vars, outcome).request.Some? ==>
      && ParseBody(j).Some? && KeyName in vars
      && var b := ParseBody(j).value;
      var r := Post(Ok(j), vars, outcome).request.value;
      && r.apiKey == vars[KeyName]
      && r.model == Env.OrDefault(Env.Get(vars, "GEMINI_CHAT_MODEL"), Env.DefaultChatModel)
      && r.system == SystemPrompt(ResponseCount(b.history), b.userName)
      && r.contents == MapHistory(b.history.GetOr([])) + [Content(UserRole, UserContent(b.message))]
      && r.maxOutputTokens == 1024
  {
  }

  /** Error statuses once the request is out: a timeout is 504, a non-2xx
      answer or a missing reply text is 500 with the fixed message, and a
      truthy reply text is returned as `response`. */
  lemma AnswerMapping(outcome: GeminiOutcome)
    ensures outcome == Failed(AbortError) ==> Answer(outcome) == ErrorResponse(504, TimeoutMessage)
    ensures outcome.NotOk? ==> Answer(outcome) == ErrorResponse(500, GenerationFailedMessage)
    ensures outcome.Answered? && !Truthy(ReplyText(outcome.data)) ==>
      Answer(outcome) == ErrorResponse(500, GenerationFailedMessage)
    ensures outcome.Answered? && Truthy(ReplyText(outcome.data)) ==>
      Answer(outcome) == Response(200, JObj([("response", ReplyText(outcome.data).value)]))
  {
    if outcome.NotOk? {
      var m := ApiErrorPrefix + Decimal.IntString(outcome.status);
      IntStringHasNoUnderscore(outcome.status);
      assert forall i | 0 <= i < |m| :: m[i] != KeyName[6] by {
        forall i | 0 <= i < |m| ensures m[i] != KeyName[6] {
          if i >= |ApiErrorPrefix| { assert m[i] == Decimal.IntString(outcome.status)[i - |ApiErrorPrefix|]; }
        }
      }
      Text.MissingCharExcludes(m, KeyName, 6);
    }
    if outcome.Answered? && !Truthy(ReplyText(outcome.data)) {
      Text.MissingCharExcludes(EmptyReplyMessage, KeyName, 6);
    }
  }

  lemma IntStringHasNoUnderscore(n: int)
    ensures forall i | 0 <= i < |Decimal.IntString(n)| :: Decimal.IntString(n)[i] != '_'
  {
    var s := Decimal.IntString(n);
    if n < 0 {
      var d := Decimal.NatString(-n);
      assert forall i | 1 <= i < |s| :: s[i] == d[i - 1];
    }
  }

  /** The reply text Gemini normally sends, under
      `candidates[0].content.parts[0].text`, is found. */
  lemma ReplyTextFound(text: string, rest: seq<Json>)
    ensures ReplyText(JObj([("candidates", JArr([JObj([("content", JObj([("parts", JArr([JObj([("text", JStr(text))])] + rest))]))])]))]))
      == Some(JStr(text))
  {
  }

  lemma MessageRoundTrip(m: Message)
    ensures ParseMessage(ChatClient.MessageJson(m)) == Some(m)
  {
    var j := ChatClient.MessageJson(m);
    assert Get(j, "role") == Some(JStr(ChatClient.RoleName(m.role)));
    assert Get(j, "content") == Some(JStr(m.content));
  }

  lemma HistoryRoundTrip(h: seq<Message>, items: seq<Json>)
    requires |items| == |h| && forall i | 0 <= i < |h| :: items[i] == ChatClient.MessageJson(h[i])
    ensures AsHistory(JArr(items)) == Some(h)
  {
    forall i | 0 <= i < |items| ensures ParseMessage(items[i]) == Some(h[i]) {
      MessageRoundTrip(h[i]);
    }
    assert ParseHistory(items).value == h;
  }

  /** What the client posts passes the schema and comes back unchanged. */
  lemma ClientBodyParses(r: ChatClient.Request)
    ensures ParseBody(ChatClient.RequestJson(r)) == Some(Body(r.message, Some(r.history), Some(r.userName)))
  {
    var j := ChatClient.RequestJson(r);
    var items := seq(|r.history|, i requires 0 <= i < |r.history| => ChatClient.MessageJson(r.history[i]));
    assert j.members[2] == ("userName", JStr(r.userName));
    assert Get(j, "userName") == Some(JStr(r.userName));
    assert Get(j, "conversationHistory") == Some(JArr(items)) by {
      assert j.members[..2][1] == ("conversationHistory", JArr(items));
      assert Lookup(j.members[..2], "conversationHistory") == Some(JArr(items));
    }
    assert Get(j, "message") == Some(JStr(r.message)) by {
      var two := j.members[..2];
      assert two[..1] == [("message", JStr(r.message))];
      assert Lookup(two, "message") == Lookup(two[..1], "message");
      assert Lookup(j.members, "message") == Lookup(two, "message");
    }
    HistoryRoundTrip(r.history, items);
  }

  /** The user's words reach Gemini twice: the client has already put them in
      the history it posts, and the route appends them again, trimmed, as the
      final user content. */
  lemma WordsSentTwice(c: ChatClient.Chat, words: string, nameOverride: Option<string>, vars: Env.Vars, outcome: GeminiOutcome)
    requires !c.loading && !Text.IsBlank(words) && Env.SchemaAccepts(vars)
    ensures var req := ChatClient.Begin(c, words, nameOverride).request.value;
      var h := Post(Ok(ChatClient.RequestJson(req)), vars, outcome);
      && h.request.Some?
      && |h.request.value.contents| == |c.messages| + 2
      && h.request.value.contents[|c.messages|] == Content(UserRole, words)
      && h.request.value.contents[|c.messages| + 1] == Content(UserRole, Text.Trim(words))
  {
    var req := ChatClient.Begin(c, words, nameOverride).request.value;
    ClientBodyParses(req);
    assert req.history == c.messages + [Message(User, words)];
    assert req.message != [] by {
      if req.message == [] { Text.TrimEmptyIff(req.message); }
    }
  }
}
