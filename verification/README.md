# A verified model of the "radio interview" voice app

The application is a Next.js web page on which a guest talks with an AI radio
host. The browser listens through the Web Speech API's speech recogniser. It
posts the guest's words to a chat route, which calls Gemini under a scripted
13-step system prompt. The reply is spoken back through the speech
synthesiser, split into short chunks. A controller hook ties the pieces
together: on-air and active flags, manual or automatic turn-taking, an
auto-listen timer, and an emergency stop. A second route produces
Google Cloud speech: it builds an RS256 JSON Web Token, exchanges it for an
access token, and calls the synthesis service.

The project models that core as immutable records and pure transition
functions, one module per piece:

- `Text`: the JavaScript string rules the code relies on. `.length` counts
  UTF-16 code units, `trim()` uses the ECMAScript white-space set, and
  `includes` is modelled too.
- `Chunker` and `SpeechOutput`: the text-to-speech hook. `Chunker` splits a
  text on `。、！？` and newline and packs the pieces into chunks of fewer
  than 50 code units, unless a single delimiter-free piece is longer. `SpeechOutput` is the chunk driver, with its busy
  guard, its error handling and `stop`.
- `Capture`: the speech-recognition hook. It covers the error-message
  mapping, the event handlers, the result accumulator, and
  start/stop/reset.
- `Messages` and `ChatClient`: the chat hook. `sendMessage` updates the
  message log and the loading/error flags. `clearMessages` resets them.
- `Json`, `Decimal`, `JsNumber` and `Env`: parsed JSON values,
  `JSON.stringify`, `String(n)`, `Number(s)`, and the environment loaders.
- `ChatRoute`: the `/api/chat` handler. It covers:
  - the body schema and the count of host turns;
  - the empty-message rule and which of the 13 steps is current;
  - the Gemini request and the mapping from errors to statuses.
- `Base64` and `Jwt`: the token the speech route builds. That covers UTF-8,
  base64 per section 4 of RFC 4648, the URL-safe post-processing, and the
  compact serialization of section 7.1 of RFC 7515. `TtsRoute` is the
  handler's validation order and call sequence.
- `Radio`: the controller hook. React state updates and the
  auto-listen effect are applied after every operation. The timer is an
  `armed` flag held by the ref, plus a count of `stray` timers that nothing
  holds. Firing a timer is an operation of its own.

Inputs the code reads from outside become parameters:

- the request bodies and the environment;
- the outcome of every `fetch`;
- the clock reading and the RSA signer;
- whether the speech engine is ready;
- the recogniser's and synthesiser's events.

Effects are returned as data: start or stop capture, cancel speech, utter a
chunk, post a chat request.

## Model

| member | source | states |
|---|---|---|
| Text.Utf16LenAppend | hooks/use-text-to-speech.ts:87 | The UTF-16 length used for chunk sizes adds up under concatenation. |
| Text.TrimSpec | app/api/chat/route.ts:147 | `trim()` returns the substring between the leading and the trailing white space. The result neither starts nor ends with white space, and only white space follows it in the input. |
| Text.TrimEmptyIff | hooks/use-ai-chat.ts:41 | A string trims to empty exactly when every character is white space. |
| Text.BlankMeansAllSpace | hooks/use-radio-conversation.ts:94 | `!s.trim()` holds iff every character of `s` is ECMAScript white space. |
| Text.MissingCharExcludes | app/api/chat/route.ts:279 | A string lacking one character of the needle does not `includes` it. |
| Chunker.Split | hooks/use-text-to-speech.ts:82 | Splitting with a captured delimiter group alternates delimiter-free pieces with single delimiters, and yields an odd number of pieces. |
| Chunker.SplitRoundTrip | hooks/use-text-to-speech.ts:82 | Joining the split pieces gives back the text. |
| Chunker.FlattenAppend | hooks/use-text-to-speech.ts:86-94 | Joining distributes over concatenation of piece lists. |
| Chunker.PackFlatten | hooks/use-text-to-speech.ts:85-94 | The greedy packing loses, duplicates and reorders nothing: the chunks join to the pending chunk followed by the pieces. |
| Chunker.PackNonEmpty | hooks/use-text-to-speech.ts:90-94 | Only non-empty chunks are pushed. |
| Chunker.PackFits | hooks/use-text-to-speech.ts:87-91 | A chunk is either under the bound or is a piece that started a new chunk. |
| Chunker.PackHead | hooks/use-text-to-speech.ts:87-88 | The pending text is never shortened: the first chunk is at least as long as it. |
| Chunker.PackGreedy | hooks/use-text-to-speech.ts:87-92 | Any two neighbouring chunks together reach 50 code units, so the packing never leaves a mergeable pair. |
| Chunker.ChunksRoundTrip | hooks/use-text-to-speech.ts:82-94 | Concatenating the chunks in order gives exactly the input text. |
| Chunker.ChunksNonEmpty | hooks/use-text-to-speech.ts:90-94 | Every chunk is non-empty, and there are no chunks exactly when the text is empty. |
| Chunker.ChunksBounded | hooks/use-text-to-speech.ts:86-94 | Every chunk is under 50 UTF-16 code units, or else it is one delimiter-free split piece. |
| Chunker.ChunksGreedy | hooks/use-text-to-speech.ts:86-94 | No two neighbouring chunks could have been merged under the bound. |
| SpeechOutput.SpeakNext | hooks/use-text-to-speech.ts:97-153 | At the end of the chunks, both flags drop and nothing is uttered. Otherwise the chunk at the index goes to the engine and `speaking` is set. |
| SpeechOutput.Speak | hooks/use-text-to-speech.ts:50-154 | A call while processing, or while the engine or voice list is not ready, changes nothing: the request is dropped, not queued. Otherwise processing starts on the chunks of the text. Empty text ends at once with both flags false. The driver invariant is kept. |
| SpeechOutput.OnEvent | hooks/use-text-to-speech.ts:122-146 | The end of a chunk, or an `interrupted`/`canceled` error, advances the index by one and schedules the next `speakNext`. Any other error clears both flags and ends the utterance. Events with no live utterance change nothing. |
| SpeechOutput.Stop | hooks/use-text-to-speech.ts:161-166 | After the corrected `stop`, the player is silent, not busy and holds no live utterance. |
| SpeechOutput.ReplayWithoutRun | hooks/use-text-to-speech.ts:122-146 | With no live utterance, no sequence of engine events plays anything. |
| SpeechOutput.FatalErrorEndsUtterance | hooks/use-text-to-speech.ts:142-145 | After a non-skippable error, both flags are false and no later chunk is played, whatever the engine reports. |
| SpeechOutput.StopSilences | hooks/use-text-to-speech.ts:161-166 | After the corrected `stop`, no sequence of engine events plays anything, and the player stays idle. |
| SpeechOutput.PlaysInOrder | hooks/use-text-to-speech.ts:98-141 | Whatever the engine reports, the chunks handed to it are the contiguous run that follows the current one. None is skipped before it starts, and none is repeated. |
| SpeechOutput.Undisturbed | hooks/use-text-to-speech.ts:122-126 | An undisturbed playback of n rounds is 2n events: each chunk ends, then the pause elapses. |
| SpeechOutput.UndisturbedFrom | hooks/use-text-to-speech.ts:98-126 | From a playing chunk, undisturbed playback plays every remaining chunk in order and ends idle. |
| SpeechOutput.UndisturbedPlaysAll | hooks/use-text-to-speech.ts:50-154 | `speak(text)` followed by undisturbed playback hands the engine every chunk once, in order. Together they are exactly the text, and afterwards neither flag is set. |
| SpeechOutput.StopAsWritten | hooks/use-text-to-speech.ts:161-166 | The source's `stop` clears both flags but leaves the utterance's closure live. |
| SpeechOutput.StopAsWrittenResumes | hooks/use-text-to-speech.ts:138-141 | After the source's `stop` in the middle of a chunk that is not the last, the engine's "interrupted" report makes the next chunk play. `isSpeaking` is true again while the busy flag is false. |
| SpeechOutput.LongTextHasSeveralChunks | hooks/use-text-to-speech.ts:82-94 | A text of at least 50 code units that contains a delimiter gives two chunks or more. |
| Capture.Init | hooks/use-speech-recognition.ts:105-108 | At the start nothing is heard. An error is set exactly when the browser has no recogniser. |
| Capture.MapSpeechError | hooks/use-speech-recognition.ts:44-60 | `not-allowed` and `service-not-allowed` share one message, and each other known code has its own fixed message. Any other code gives the generic prefix followed by the code. |
| Capture.MapSpeechErrorSeparates | hooks/use-speech-recognition.ts:44-60 | Two codes get the same message exactly when they are equal or are both among the two permission codes. |
| Capture.KnownMessagesLackPrefix | hooks/use-speech-recognition.ts:48-58 | No fixed message starts with the generic prefix, so fixed messages and generic messages never coincide. |
| Capture.OnStart | hooks/use-speech-recognition.ts:75-78 | A start event sets listening and clears the error, and keeps the transcripts. |
| Capture.OnEnd | hooks/use-speech-recognition.ts:80-82 | An end event only clears listening. |
| Capture.OnError | hooks/use-speech-recognition.ts:101-104 | An error event records the mapped message and forces listening off. |
| Capture.ResultEvent | hooks/use-speech-recognition.ts:84-99 | A result event appends the final results from `resultIndex` on to the transcript. It replaces the interim text with the non-final ones, and changes nothing else. |
| Capture.OnResult | hooks/use-speech-recognition.ts:84-99 | The loop over the results computes the same update as `ResultEvent`. |
| Capture.CollectPartitions | hooks/use-speech-recognition.ts:88-95 | Every result's text lands in exactly one of the final or interim strings. |
| Capture.StartListening | hooks/use-speech-recognition.ts:117-129 | `startListening` is a no-op while listening or without a recogniser. Otherwise it clears transcript, interim text and error, then starts. A start that throws leaves listening off with the start-failure message. |
| Capture.StopListening | hooks/use-speech-recognition.ts:131-135 | `stopListening` changes no state, and asks the recogniser to stop exactly when listening. |
| Capture.ResetTranscript | hooks/use-speech-recognition.ts:137-140 | Both strings are emptied, and listening, error and support are unchanged. |
| Capture.StartStopIdempotent | hooks/use-speech-recognition.ts:80-135 | Once `onstart` has run, a start does nothing, whatever the state before. A stop followed by the recogniser's `onend` leaves it not listening, and a further stop issues no command. |
| Messages.AssistantCount | app/api/chat/route.ts:30-32 | The count of host entries is at most the log's length. |
| Messages.AssistantCountAppend | app/api/chat/route.ts:31 | Appending an entry raises the count by one exactly when the entry is the host's. |
| ChatClient.UserEntry | hooks/use-ai-chat.ts:41-49 | A user entry holding the untrimmed words is recorded exactly when they are not blank. |
| ChatClient.Begin | hooks/use-ai-chat.ts:28-65 | While loading, the call is refused and nothing changes. Otherwise loading is set and the error cleared. The log gains the user entry, and the request carries the words, the extended log and the effective name. |
| ChatClient.BeginEmpty | hooks/use-ai-chat.ts:27-33 | An empty message adds no log entry, and the request goes out under the override when it is non-empty and under the held `userName` otherwise (`userNameOverride \|\| userName`). |
| ChatClient.Finish | hooks/use-ai-chat.ts:67-89 | Loading is always cleared. A reply appends exactly one host entry and is returned. A non-2xx response or a thrown value leaves the log alone, records the matching error and returns nothing. |
| ChatClient.SendMessageLog | hooks/use-ai-chat.ts:26-92 | One call leaves the log unchanged when refused. Otherwise the new log is the old one, then the user entry if any, then the reply entry on success. |
| ChatClient.FailureKeepsTurnCount | hooks/use-ai-chat.ts:82-86 | A failed call never adds a host turn. |
| ChatClient.SuccessAdvancesTurnCount | hooks/use-ai-chat.ts:71-81 | A successful call adds exactly one host turn. |
| ChatClient.ClearMessages | hooks/use-ai-chat.ts:94-99 | The log is emptied, the error cleared and the spoken flag reset. Loading and user name are kept. |
| Json.Get | app/api/chat/route.ts:27 | A member is found exactly when the object has a member of that name. |
| Json.Lookup | app/api/chat/route.ts:27 | Lookup finds a member whenever one of that name exists, and what it finds is one of the members. A name held by the last member gives that member's value. |
| Json.First | app/api/chat/route.ts:267 | `?.[0]` yields something only on an array, an object or a string. |
| Json.Escape | hooks/use-ai-chat.ts:57-64 | `JSON.stringify` writes a character other than a quote, a backslash or a control character as itself. |
| Json.EscapePlain | app/api/tts/route.ts:111-112 | A string with nothing to escape is written verbatim. |
| Json.EscapedHasNoControl | hooks/use-ai-chat.ts:57-64 | Escaped text contains no control character. |
| Decimal.NatString | app/api/chat/route.ts:263 | `String(n)` is a non-empty digit string with no leading zero. |
| Decimal.NatStringRoundTrip | app/api/chat/route.ts:263 | Reading the printed digits back gives the number. |
| JsNumber.Round | lib/env.server.ts:29 | Rounding to a double keeps every positive value in range exactly, and never yields a positive value other than the input. |
| JsNumber.DecimalStringConverts | lib/env.server.ts:29 | `Number` of a whole number written in decimal is that number. |
| JsNumber.FourThousandConverts | lib/env.server.ts:29 | `Number("4000")` is 4000. |
| JsNumber.PlainDigitsConvert | lib/env.server.ts:29 | Every non-empty digit string converts to its decimal value, rounded, leading zeros included ("04000" is 4000): a digit never starts a base prefix. |
| Env.EmptyVariableMeansDefault | lib/env.server.ts:29-35 | In both loaders, a model or voice variable set to the empty string gives the same configuration as leaving it unset (the chat model at line 47 too), while a limit set to the empty string reads as 0 and also falls back to 4000. |
| Env.MaxInputBytes | lib/env.server.ts:29-35 | The limit is always positive. It is 4000 when the variable is absent or its value is not a finite positive number; otherwise it is the parsed value. |
| Env.DefaultTextConverts | lib/env.server.ts:29 | The default text converts to the default limit. |
| Env.GetTtsEnv | lib/env.server.ts:23-37 | The loader fails, with the missing-key message, exactly when the key is absent or empty. Otherwise the key is kept unchanged, model and voice default when absent or empty, and the limit is positive. |
| Env.GetChatEnv | lib/env.server.ts:39-49 | The loader fails, with the missing-key message, exactly when the key is absent or empty. Otherwise the key is kept unchanged and the model defaults to `gemini-2.5-flash`. |
| Env.DecimalLimitIsKept | lib/env.server.ts:29-35 | A positive whole limit written in decimal is used as given. |
| Env.LoadersAgreeOnKey | lib/env.server.ts:3-9 | Both loaders fail on the same environments and return the same key. |
| ChatRoute.ParseRole | app/api/chat/route.ts:10 | Only the strings "user" and "assistant" are roles. |
| ChatRoute.ParseHistory | app/api/chat/route.ts:7-14 | The history parses exactly when every entry does. The result then has the same length and order. |
| ChatRoute.ParseBody | app/api/chat/route.ts:5-16 | An accepted body is an object whose `message` is the parsed string. The optional members are absent in the result exactly when absent in the body. |
| ChatRoute.ResponseCountAppend | app/api/chat/route.ts:30-32 | The turn index grows by one for each `assistant` entry appended to the history and is unchanged by a `user` entry; no history and an empty one both give 0. |
| ChatRoute.LabelMarksFallback | app/api/chat/route.ts:174 | The prompt's name tag reads "unset" exactly when the name is absent, empty, or literally `未設定`, and the display name (line 38) is `ゲスト` exactly when the name is absent, empty or `ゲスト`. A guest named `ゲスト` is therefore addressed as `ゲスト` under a set name tag. |
| ChatRoute.CurrentStep | app/api/chat/route.ts:178-228 | The current step is one of the 13. |
| ChatRoute.ExactlyOneStep | app/api/chat/route.ts:172-238 | The prompt lists steps 1 to 13 in order, and exactly one is marked and carries its instruction. It is step k+1 for k ≤ 11 and step 13 for k ≥ 12, chosen by k alone. The closing reminder appears iff k ≥ 12, and the response number is k+1. |
| ChatRoute.InstructionForGuest | app/api/chat/route.ts:38-137 | The marked step's instruction is addressed to the display name. |
| ChatRoute.MapHistory | app/api/chat/route.ts:142-145 | The mapping preserves length and order, sends `assistant` to `model` and `user` to `user`, and keeps the text. |
| ChatRoute.UserContent | app/api/chat/route.ts:147 | A blank message gives the fixed opening request; any other message is trimmed. The content is never empty. |
| ChatRoute.Contents | app/api/chat/route.ts:242-248 | The contents are the mapped history followed by exactly one user entry holding the user content. |
| ChatRoute.Catch | app/api/chat/route.ts:274-284 | The status is 504 exactly for the abort. An `Error` whose message includes `GEMINI_API_KEY` is 500 with that message, and anything else is 500 with the generic message. |
| ChatRoute.Answer | app/api/chat/route.ts:260-273 | After the call the status is 200, 500 or 504. |
| ChatRoute.Post | app/api/chat/route.ts:20-285 | The status is 200, 400, 500 or 504. A 400 sends nothing, and a 200 always follows a sent request. |
| ChatRoute.SchemaFailureIs400 | app/api/chat/route.ts:22-25 | A body failing the schema is a 400 whatever the environment, and nothing is sent. |
| ChatRoute.MissingKeyIs500 | app/api/chat/route.ts:28 | A missing key is 500 with the loader's message, because that message contains the key name. |
| ChatRoute.EmptyMessageRule | app/api/chat/route.ts:34-36 | With a valid body and key, an empty message is rejected with 400 iff the turn index is above 0. Otherwise the request is sent. |
| ChatRoute.RequestContents | app/api/chat/route.ts:149-255 | A sent request carries the configured model and key, the prompt for the turn index and display name, the contents, and 1024 output tokens. |
| ChatRoute.AnswerMapping | app/api/chat/route.ts:260-283 | An abort is 504, and a non-2xx response is 500 with the generic message. A missing or empty reply text is 500 with the generic message. A present text is 200 with that text. |
| ChatRoute.IntStringHasNoUnderscore | app/api/chat/route.ts:263 | A printed status contains no `_`, so the non-2xx error never mentions the key name. |
| ChatRoute.ReplyTextFound | app/api/chat/route.ts:267 | The optional chain finds the text in Gemini's usual response shape. |
| ChatRoute.MessageRoundTrip | hooks/use-ai-chat.ts:59-62 | A log entry as the client writes it parses back to itself. |
| ChatRoute.HistoryRoundTrip | hooks/use-ai-chat.ts:59-62 | The history as the client writes it parses back to itself. |
| ChatRoute.ClientBodyParses | hooks/use-ai-chat.ts:57-64 | The body the client posts passes the route's schema and comes back unchanged. |
| ChatRoute.WordsSentTwice | app/api/chat/route.ts:242-248 | Non-blank words reach Gemini twice: untrimmed as the last history entry, then trimmed as the final user content. |
| Base64.Utf8Char | app/api/tts/route.ts:121 | One character is 1 to 4 bytes, and 1 exactly for ASCII. |
| Base64.DecodeChar | app/api/tts/route.ts:121 | A decoded character uses 1 to 4 of the available bytes. |
| Base64.DecodeCharInverts | app/api/tts/route.ts:121 | The decoder reads a character's encoding back as that character. |
| Base64.Utf8RoundTrip | app/api/tts/route.ts:121 | Decoding the UTF-8 bytes of a string gives the string. |
| Base64.Utf8Ascii | app/api/tts/route.ts:111 | ASCII text is its own UTF-8. |
| Base64.UrlValue | app/api/tts/route.ts:121 | Only characters of the URL-safe alphabet have values, and each maps back to its character. |
| Base64.UrlValueInverts | app/api/tts/route.ts:121 | Every 6-bit value is read back from its URL-safe character. |
| Base64.Sextets | app/api/tts/route.ts:121 | n bytes give ⌈4n/3⌉ alphabet characters. |
| Base64.Padding | app/api/tts/route.ts:121 | The padding is `=` only and completes the last group of four. |
| Base64.Encode | app/api/tts/route.ts:121 | Standard base64 output is a whole number of four-character groups. |
| Base64.ReplaceAll | app/api/tts/route.ts:121 | After a global replacement by text lacking the pattern, the pattern is gone. |
| Base64.ReplaceAllAppend | app/api/tts/route.ts:121 | A single-character global replacement distributes over concatenation. |
| Base64.ReplaceAllAbsent | app/api/tts/route.ts:121 | A replacement whose pattern is absent changes nothing. |
| Base64.ReplaceAllKeepsAbsent | app/api/tts/route.ts:121 | A replacement by text lacking a character adds none of it. |
| Base64.ToUrlAppend | app/api/tts/route.ts:121 | The post-processing distributes over concatenation. |
| Base64.ToUrlIsCharMap | app/api/tts/route.ts:121 | The three chained replacements act character by character: `+` becomes `-`, `/` becomes `_`, `=` is deleted, and every other character is kept in order. |
| Base64.ToUrlAlphabet | app/api/tts/route.ts:120-122 | The output contains no `+`, `/` or `=`. |
| Base64.ToUrlKeepsPlain | app/api/tts/route.ts:121 | A string without `+`, `/` or `=` passes through unchanged. |
| Base64.ToUrlOne | app/api/tts/route.ts:121 | On one character the chain is the character map. |
| Base64.ToUrlSextet | app/api/tts/route.ts:121 | Each standard alphabet character becomes the URL-safe character of the same value. |
| Base64.ToUrlOfEncode | app/api/tts/route.ts:120-122 | Post-processing standard base64 gives the unpadded URL-safe encoding of section 5 of RFC 4648. |
| Base64.ToUrlPadding | app/api/tts/route.ts:121 | The padding disappears. |
| Base64.ToUrlOfSextets | app/api/tts/route.ts:121 | The standard alphabet characters map to the URL-safe ones for the same bytes. |
| Base64.SextetsRoundTrip | app/api/tts/route.ts:121 | Decoding the URL-safe characters gives the bytes back. |
| Base64.EncodeRoundTrip | app/api/tts/route.ts:120-122 | The post-processed base64 decodes back to the bytes it encodes. |
| Base64.SextetsAlphabet | app/api/tts/route.ts:120-122 | Every output character is a letter, a digit, `-` or `_`. |
| Jwt.IssuedAt | app/api/tts/route.ts:102 | `iat` is the whole seconds of the millisecond clock, rounded down. |
| Jwt.Claims | app/api/tts/route.ts:103-109 | The payload is an object. |
| Jwt.SplitOn | app/api/tts/route.ts:117 | Splitting yields at least one part. |
| Jwt.SplitLacking | app/api/tts/route.ts:117 | A string without the separator splits into itself. |
| Jwt.SplitAt | app/api/tts/route.ts:117 | Splitting at the first separator gives the prefix and then the split of the rest. |
| Jwt.SegmentHasNoDot | app/api/tts/route.ts:120-122 | A base64url segment contains no dot. |
| Jwt.TokenShape | app/api/tts/route.ts:96-118 | A token is made exactly when the signer returns a signature over `header.claims` with the credentials' private key. The token then splits on `.` into exactly three parts: the encoded header, the encoded claims and the encoded signature, as in section 7.1 of RFC 7515. |
| Jwt.SegmentRoundTrip | app/api/tts/route.ts:111-113 | Each of the first two segments decodes to the JSON text it encodes. |
| Jwt.LaterClaims | app/api/tts/route.ts:102-109 | Whatever precedes them, the `scope`, `aud`, `exp` and `iat` members are found with the values the route writes. |
| Jwt.IssuerClaim | app/api/tts/route.ts:102-109 | The `iss` member is present exactly when the credentials had a `client_email`, and then it holds that value. |
| Jwt.SplitThree | app/api/tts/route.ts:117 | Three dot-free parts joined with dots split back into exactly those three parts. |
| Jwt.ExpiresInAnHour | app/api/tts/route.ts:102-109 | The claims carry `exp = iat + 3600`, with `iat` from the clock. They also carry the fixed audience and scope, and `iss` from the credentials' `client_email`. |
| TtsRoute.Exchange | app/api/tts/route.ts:30-83 | The assertion posted is the signed JWT. Synthesis is requested only after a token was obtained, and with the requested text. |
| TtsRoute.Post | app/api/tts/route.ts:4-94 | The status is 200, 400 or 500, and synthesis is never requested without a token assertion. |
| TtsRoute.TextCheckedFirst | app/api/tts/route.ts:10-12 | A missing or falsy `text` is a 400 before the credentials are read, and nothing is sent. |
| TtsRoute.CredentialsChecked | app/api/tts/route.ts:14-28 | Missing, unparsable or null credentials are a 500 with their own messages, and nothing is sent. |
| TtsRoute.RequestsCarryInputs | app/api/tts/route.ts:30-70 | The token request carries the JWT for the parsed credentials. The synthesis request carries the access token and the text. |
| TtsRoute.AudioNeedsBothCalls | app/api/tts/route.ts:72-83 | Audio is returned only when both calls succeeded, and it is the synthesis response's `audioContent`. |
| Radio.Derive | hooks/use-radio-conversation.ts:40-50 | The derived state is exactly one of four values, by precedence listening > processing > speaking > idle. It is listening whenever the recogniser listens. |
| Radio.Settle | hooks/use-radio-conversation.ts:64-75 | When a dependency changed, the effect's cleanup clears the held timer and re-arms it exactly when ready. Otherwise nothing happens. |
| Radio.Schedule | hooks/use-radio-conversation.ts:53-61 | The scheduler arms only when the render it closed over was in auto mode, active and fully idle. Overwriting a held timer leaves one more stray timer. |
| Radio.Halt | hooks/use-radio-conversation.ts:163-168 | Stopping clears the held timer, silences the speech output and asks the recogniser to stop. |
| Radio.InitInv | hooks/use-radio-conversation.ts:9-12 | The initial controller satisfies the invariant: no stray timer, a held timer only when ready, a request in flight exactly when someone awaits it, and a consistent chunk driver. |
| Radio.StepKeepsLoading | hooks/use-ai-chat.ts:36-89 | Every operation keeps "loading iff a caller awaits the reply" and the driver invariant. |
| Radio.StepKeepsTimers | hooks/use-radio-conversation.ts:53-75 | No operation except the re-arming `setMode` adds a stray timer or arms when unready. |
| Radio.ApplyKeepsInv | hooks/use-radio-conversation.ts:64-75 | Every operation except the re-arming `setMode`, followed by the effect, keeps the invariant: at most one timer pending, and it is held. |
| Radio.RearmLeavesTwoTimers | hooks/use-radio-conversation.ts:185-196 | `setMode("auto")` while auto, active, idle and armed overwrites the ref. Two timers are then pending, one held by nothing. |
| Radio.ArmsOnlyWhenReady | hooks/use-radio-conversation.ts:54-55 | After any other operation a held timer implies auto, active and idle, and no stray timer is added. |
| Radio.FiresOnlyWhenIdle | hooks/use-radio-conversation.ts:55-58 | The held timer, when it fires, starts listening only if the derived state is still idle then. Firing always releases the held timer. |
| Radio.StrayFiresOnlyWhenIdle | hooks/use-radio-conversation.ts:55-58 | A timer the ref no longer holds behaves the same way: it starts listening only if one is pending and the state is idle. |
| Radio.ToggleListeningCases | hooks/use-radio-conversation.ts:77-91 | While listening the toggle only stops. While neither speaking nor loading it resets the transcript and starts. Otherwise it is a no-op. |
| Radio.SendTranscriptCases | hooks/use-radio-conversation.ts:93-111 | A blank transcript is a no-op. Otherwise the transcript is cleared first and the words are posted with the extended log. While a request is in flight the words are dropped. |
| Radio.TranscriptReplySpoken | hooks/use-radio-conversation.ts:103-110 | A non-empty reply is spoken, its first chunk going to the engine. A failure or an empty reply speaks nothing, and loading ends. |
| Radio.EmergencyStopHalts | hooks/use-radio-conversation.ts:173-182 | From any state: off the air, inactive, capture stopped, speech cancelled and silent, and no timer held. |
| Radio.ReplyAfterEmergencyStop | hooks/use-radio-conversation.ts:103-107 | A reply arriving after the emergency stop is still spoken. |
| Radio.ToggleOnAirCases | hooks/use-radio-conversation.ts:155-170 | Going off the air is the emergency stop; going on the air changes nothing else. |
| Radio.ToggleConversationCases | hooks/use-radio-conversation.ts:119-135 | Stopping ends the timer and speech. Starting arms a timer exactly in auto mode while idle, through the effect. |
| Radio.SetModeCases | hooks/use-radio-conversation.ts:185-196 | Manual mode clears the held timer. Auto mode leaves a timer armed exactly when active and idle. |
| Radio.SetDelayRestarts | hooks/use-radio-conversation.ts:12 | A new delay makes the effect restart the held timer, if still ready. |
| Radio.InitialMessageOnce | hooks/use-radio-conversation.ts:137-153 | The first host message is spoken at most once, and the log is unchanged. |
| Radio.StartConversationPosts | hooks/use-radio-conversation.ts:198-204 | The name is stored and an empty message is posted with the log as it stands, under the name, or under the name held before the call when the name is empty, since `sendMessage` is the previous render's closure. |
| Radio.OpeningWaits | hooks/use-radio-conversation.ts:206-212 | The opening reply waits for its 500 ms timer instead of being spoken at once. |
| Radio.OpeningDueSpeaks | hooks/use-radio-conversation.ts:209-212 | When that timer fires, the oldest waiting opening is spoken. |

## Left out

- Network calls: Gemini, the OAuth token exchange and the synthesis
  service. Their outcomes are inputs (threw, non-2xx, or a parsed body).
  Gemini's 20-second abort timer is modelled only as its outcome.
- The RSA-SHA256 signature itself. The signer is a function parameter
  returning the raw signature bytes or nothing.
- The speech synthesiser's voice list, Japanese voice selection, rate and
  pitch, the touch-to-unlock listener, `isSupported`, and the iOS pause,
  cancel and resume calls. The engine and voice-list readiness checks are a
  single `ready` input to `speak`.
- The recogniser object's construction and the `abort()` on unmount.
  Recogniser and synthesiser events are inputs.
- Real timer delays (100/150/500 ms and the auto-listen delay) and the
  scheduling of React renders. Each operation's state updates apply
  together, followed by the effect. Timers are flags with explicit fire
  operations.
- The wording of the 13 step instructions and of the prompt's fixed
  paragraphs. They are opaque values indexed by step number, addressed to the
  display name.
- Presentational components and pages, styling, logging, timestamps on log
  entries, and the message-id fields.
- JSON numbers are integers. Fractional numbers, and `JSON.stringify` of
  magnitudes at or above 10^21, are not modelled.
- JsNumber.Round: it states only what rounding to a double does to values
  that are exact or out of range. It does not model binary rounding of
  decimals with many digits.
- TtsRoute.Post: the `details` field of the outer catch's response is not
  modelled, because the thrown value is not.
- ChatClient.Finish: it takes the reply as a string. A `response` field that
  is missing or not a string is not modelled.
- Radio.ApplyKeepsInv: it excludes the `setMode("auto")` call made while a
  timer is already held. `Radio.RearmLeavesTwoTimers` states what that case
  does instead.
- SpeechOutput.OnEvent: it assumes the engine reports exactly one end or
  error per utterance, and that the pause timer fires only after such a
  report. An end or error arriving while the pause is pending, or a pause
  elapsing while a chunk plays, is ignored. The source's handlers have no
  such guard: a second report would advance the index again and schedule a
  second `speakNext`.
- Json.First: on a string it takes the first code point, where JavaScript's
  `s[0]` takes the first UTF-16 code unit, because a Dafny `char` cannot hold
  a lone surrogate. The route applies it only where a string has no
  `content`, so the difference is not observable there.
- Radio: the controller uses the corrected `SpeechOutput.Stop` (see
  Findings). `unlockAudio`/`isUnlocked` are not modelled, because the
  speech-output hook never returns them.

## Findings

| source | as written | input that shows it | evidently intended | confidence | as-written member | corrected member |
|---|---|---|---|---|---|---|
| hooks/use-text-to-speech.ts:161-166 | `stop` cancels the engine and clears both flags, but the running utterance's closure stays live. The engine reports the cancelled chunk to `onerror` as "interrupted", and that handler (138-141) treats it as a skip and schedules the next chunk. | `speak` of a text with two chunks or more, then `stop` while the first chunk plays. After the engine's "interrupted" report and the 100 ms pause, the second chunk plays with `isSpeaking` true and the busy flag false. | After `stop`, nothing more is played and both flags stay false. | not executed | SpeechOutput.StopAsWrittenResumes | SpeechOutput.StopSilences |

Behaviour worth noting:

- `speak` drops a request made while busy; there is no queue, unlock gate
  or watchdog.
- Manual listening is not gated on the on-air or active flags.
- A malformed JSON body on `/api/chat` is a 500 from the outer catch.
- The chat route loads the environment before it applies the empty-message
  rule, so a missing key is reported even for an empty message.
