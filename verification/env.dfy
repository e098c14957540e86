/** Server configuration read from the process environment: the Gemini API
    key is required, everything else has a default. The environment is a map
    from variable names to their (string) values; an absent name is unset. */
module Env {
  import opened Wrappers
  import opened Results
  import JsNumber
  import Decimal
  import Text

  type Vars = map<string, string>

  datatype TtsEnv = TtsEnv(apiKey: string, model: string, voiceName: string, maxInputBytes: real)
  datatype ChatEnv = ChatEnv(apiKey: string, model: string)

  const MissingKeyMessage: string := "GEMINI_API_KEYが設定されていません"
  const DefaultTtsModel: string := "gemini-2.5-flash-preview-tts"
  const DefaultVoice: string := "Kore"
  const DefaultChatModel: string := "gemini-2.5-flash"
  const DefaultMaxInputBytesText: string := "4000"
  const DefaultMaxInputBytes: real := 4000.0

  function Get(vars: Vars, name: string): Option<string> {
    if name in vars then Some(vars[name]) else None
  }

  /** The schema: `GEMINI_API_KEY` must be a string of length at least 1; the
      other variables are optional strings, which environment values always are. */
  predicate SchemaAccepts(vars: Vars) {
    "GEMINI_API_KEY" in vars && vars["GEMINI_API_KEY"] != []
  }

  /** `value || fallback` for an optional string. */
  function OrDefault(value: Option<string>, fallback: string): (r: string)
    ensures value.Some? && value.value != [] ==> r == value.value
    ensures value.None? || value.value == [] ==> r == fallback
  {
    if value.Some? && value.value != [] then value.value else fallback
  }

  /** `Number(raw ?? "4000")`, kept only when finite and positive. */
  function MaxInputBytes(raw: Option<string>): (n: real)
    ensures n > 0.0
    ensures raw.None? ==> n == DefaultMaxInputBytes
    ensures raw.Some? ==> match JsNumber.ToNumber(raw.value)
      case Finite(v) => n == (if v > 0.0 then v else DefaultMaxInputBytes)
      case _ => n == DefaultMaxInputBytes
  {
    var parsed := JsNumber.ToNumber(raw.GetOr(DefaultMaxInputBytesText));
    DefaultTextConverts(raw);
    if parsed.Finite? && parsed.value > 0.0 then parsed.value else DefaultMaxInputBytes
  }

  lemma DefaultTextConverts(raw: Option<string>)
    ensures raw.None? ==> JsNumber.ToNumber(raw.GetOr(DefaultMaxInputBytesText)) == JsNumber.Finite(DefaultMaxInputBytes)
  {
    if raw.None? {
      JsNumber.FourThousandConverts(DefaultMaxInputBytesText, 4000);
    }
  }

  /** `getGeminiTtsEnv`. */
  function GetTtsEnv(vars: Vars): (r: Result<TtsEnv, string>)
    ensures r.Err? <==> !SchemaAccepts(vars)
    ensures r.Err? ==> r.error == MissingKeyMessage
    ensures r.Ok? ==>
      && r.value.apiKey == vars["GEMINI_API_KEY"]
      && r.value.model == OrDefault(Get(vars, "GEMINI_TTS_MODEL"), DefaultTtsModel)
      && r.value.voiceName == OrDefault(Get(vars, "GEMINI_TTS_VOICE_NAME"), DefaultVoice)
      && r.value.maxInputBytes == MaxInputBytes(Get(vars, "TTS_MAX_INPUT_BYTES"))
      && r.value.maxInputBytes > 0.0
  {
    if !SchemaAccepts(vars) then Err(MissingKeyMessage)
    else Ok(TtsEnv(
      vars["GEMINI_API_KEY"],
      OrDefault(Get(vars, "GEMINI_TTS_MODEL"), DefaultTtsModel),
      OrDefault(Get(vars, "GEMINI_TTS_VOICE_NAME"), DefaultVoice),
      MaxInputBytes(Get(vars, "TTS_MAX_INPUT_BYTES"))))
  }

  /** `getGeminiChatEnv`. */
  function GetChatEnv(vars: Vars): (r: Result<ChatEnv, string>)
    ensures r.Err? <==> !SchemaAccepts(vars)
    ensures r.Err? ==> r.error == MissingKeyMessage
    ensures r.Ok? ==>
      && r.value.apiKey == vars["GEMINI_API_KEY"]
      && r.value.model == OrDefault(Get(vars, "GEMINI_CHAT_MODEL"), DefaultChatModel)
  {
    if !SchemaAccepts(vars) then Err(MissingKeyMessage)
    else Ok(ChatEnv(vars["GEMINI_API_KEY"], OrDefault(Get(vars, "GEMINI_CHAT_MODEL"), DefaultChatModel)))
  }

  /** A positive whole number of bytes written in decimal is taken as given. */
  lemma DecimalLimitIsKept(vars: Vars, n: nat)
    requires SchemaAccepts(vars)
    requires 0 < n && (n as real) < JsNumber.OverflowBoundary
    requires Get(vars, "TTS_MAX_INPUT_BYTES") == Some(Decimal.NatString(n))
    ensures GetTtsEnv(vars).Ok? && GetTtsEnv(vars).value.maxInputBytes == n as real
  {
    JsNumber.DecimalStringConverts(n);
  }

  /** An optional variable set to the empty string configures the same as
      leaving it unset: `||` treats `""` as missing, and `Number("")` is 0,
      which is not a positive limit. */
  lemma EmptyVariableMeansDefault(vars: Vars, name: string)
    requires name in {"GEMINI_TTS_MODEL", "GEMINI_TTS_VOICE_NAME", "GEMINI_CHAT_MODEL", "TTS_MAX_INPUT_BYTES"}
    ensures GetTtsEnv(vars[name := ""]) == GetTtsEnv(vars - {name})
    ensures GetChatEnv(vars[name := ""]) == GetChatEnv(vars - {name})
  {
    var set', unset := vars[name := ""], vars - {name};
    EmptyLimitDefaults();
    assert Get(set', name) == Some("") && Get(unset, name) == None;
    SameOtherwise(vars, name, "GEMINI_API_KEY");
    SameOtherwise(vars, name, "GEMINI_TTS_MODEL");
    SameOtherwise(vars, name, "GEMINI_TTS_VOICE_NAME");
    SameOtherwise(vars, name, "GEMINI_CHAT_MODEL");
    SameOtherwise(vars, name, "TTS_MAX_INPUT_BYTES");
  }

  lemma SameOtherwise(vars: Vars, name: string, other: string)
    ensures other != name ==> Get(vars[name := ""], other) == Get(vars - {name}, other) == Get(vars, other)
  {
  }

  /** `Number("")` is 0, so an empty limit falls back to 4000 like an absent one. */
  lemma EmptyLimitDefaults()
    ensures MaxInputBytes(Some("")) == MaxInputBytes(None) == DefaultMaxInputBytes
  {
    assert Text.Trim("") == [];
    assert JsNumber.ToNumber("") == JsNumber.Finite(0.0);
  }

  /** Both loaders fail together, on the same condition. */
  lemma LoadersAgreeOnKey(vars: Vars)
    ensures GetTtsEnv(vars).Err? <==> GetChatEnv(vars).Err?
    ensures GetTtsEnv(vars).Ok? ==> GetTtsEnv(vars).value.apiKey == GetChatEnv(vars).value.apiKey
  {
  }
}
