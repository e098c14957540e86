/** The speech-capture adapter: a wrapper round the browser's continuous
    speech recogniser. Its state is what the hook exposes; the recogniser
    itself is an event source (start, end, result, error) and the commands the
    hook gives it (`start()`, `stop()`) are returned as data. */
module Capture {
  import opened Wrappers

  datatype Recognizer = Recognizer(
    supported: bool,          // a recogniser object exists (`recognitionRef.current`)
    listening: bool,          // `isListening`
    transcript: string,       // finalised text, stable
    interim: string,          // live partial text, replaced on every result event
    error: Option<string>)    // user-facing error message

  /** One entry of the event's result list: `isFinal` and `result[0].transcript`. */
  datatype SpeechResult = SpeechResult(isFinal: bool, text: string)

  /** What the hook told the recogniser to do. */
  datatype Call = Quiet | StartIssued | StopIssued

  datatype Step = Step(rec: Recognizer, call: Call)

  const UnsupportedMessage: string := "このブラウザは音声認識をサポートしていません"
  const StartFailedMessage: string := "音声認識の開始に失敗しました"
  const NotAllowedMessage: string := "マイクの使用が許可されていません"
  const NoSpeechMessage: string := "音声が検出できませんでした"
  const AudioCaptureMessage: string := "マイクが見つかりません"
  const NetworkMessage: string := "音声認識のネットワークエラーが発生しました"
  const AbortedMessage: string := "音声認識が中断されました"
  const OtherErrorPrefix: string := "音声認識エラー: "

  /** The state after mounting: an unsupported browser shows an error at once. */
  function Init(supported: bool): (r: Recognizer)
    ensures !r.listening && r.transcript == [] && r.interim == []
    ensures r.supported == supported && (r.error.Some? <==> !supported)
  {
    Recognizer(supported, false, "", "", if supported then None else Some(UnsupportedMessage))
  }

  predicate IsKnownCode(code: string) {
    code in {"not-allowed", "service-not-allowed", "no-speech", "audio-capture", "network", "aborted"}
  }

  /** `mapSpeechError`: a total map from the recogniser's error codes to the
      messages shown to the user. */
  function MapSpeechError(code: string): (m: string)
    ensures code == "not-allowed" || code == "service-not-allowed" ==> m == NotAllowedMessage
    ensures code == "no-speech" ==> m == NoSpeechMessage
    ensures code == "audio-capture" ==> m == AudioCaptureMessage
    ensures code == "network" ==> m == NetworkMessage
    ensures code == "aborted" ==> m == AbortedMessage
    ensures !IsKnownCode(code) ==> m == OtherErrorPrefix + code
  {
    match code
    case "not-allowed" => NotAllowedMessage
    case "service-not-allowed" => NotAllowedMessage
    case "no-speech" => NoSpeechMessage
    case "audio-capture" => AudioCaptureMessage
    case "network" => NetworkMessage
    case "aborted" => AbortedMessage
    case _ => OtherErrorPrefix + code
  }

  /** Two codes share a message exactly when they are equal or are the two
      permission codes: the message identifies the code otherwise. */
  lemma MapSpeechErrorSeparates(a: string, b: string)
    ensures MapSpeechError(a) == MapSpeechError(b) <==>
      a == b || ({a, b} == {"not-allowed", "service-not-allowed"})
  {
    if IsKnownCode(a) && IsKnownCode(b) {
      KnownCodesSeparate(a, b);
    } else if !IsKnownCode(a) && !IsKnownCode(b) {
      var p := OtherErrorPrefix;
      if MapSpeechError(a) == MapSpeechError(b) {
        assert a == MapSpeechError(a)[|p|..] && b == MapSpeechError(b)[|p|..];
      }
    } else if IsKnownCode(a) {
      KnownDiffersFromOther(a, b);
    } else {
      KnownDiffersFromOther(b, a);
    }
  }

  lemma KnownCodesSeparate(a: string, b: string)
    requires IsKnownCode(a) && IsKnownCode(b)
    ensures MapSpeechError(a) == MapSpeechError(b) <==>
      a == b || ({a, b} == {"not-allowed", "service-not-allowed"})
  {
    if {a, b} == {"not-allowed", "service-not-allowed"} {
      assert a in {"not-allowed", "service-not-allowed"} && b in {"not-allowed", "service-not-allowed"};
    }
  }

  /** A fixed message is never a catch-all message. */
  lemma KnownDiffersFromOther(a: string, b: string)
    requires IsKnownCode(a) && !IsKnownCode(b)
    ensures a != b && MapSpeechError(a) != MapSpeechError(b)
  {
    KnownMessagesLackPrefix();
    assert MapSpeechError(b)[4] == OtherErrorPrefix[4];
  }

  /** The fixed messages all differ from the catch-all prefix at position 4. */
  lemma KnownMessagesLackPrefix()
    ensures OtherErrorPrefix[4] == '\U{30A8}'
    ensures forall m | m in {NotAllowedMessage, NoSpeechMessage, AudioCaptureMessage, NetworkMessage, AbortedMessage} ::
      |m| > 4 && m[4] != '\U{30A8}'
  {
  }

  /** `onstart`: listening, and the error cleared. */
  function OnStart(r: Recognizer): (r': Recognizer)
    ensures r'.listening && r'.error == None
    ensures r'.transcript == r.transcript && r'.interim == r.interim && r'.supported == r.supported
  {
    r.(listening := true, error := None)
  }

  /** `onend`: no longer listening, text kept. */
  function OnEnd(r: Recognizer): (r': Recognizer)
    ensures !r'.listening && r' == r.(listening := false)
  {
    r.(listening := false)
  }

  /** `onerror`: the mapped message is shown and listening is forced off. */
  function OnError(r: Recognizer, code: string): (r': Recognizer)
    ensures !r'.listening && r'.error == Some(MapSpeechError(code))
    ensures r'.transcript == r.transcript && r'.interim == r.interim && r'.supported == r.supported
  {
    r.(error := Some(MapSpeechError(code)), listening := false)
  }

  /** Concatenation, in order, of the texts of the results whose `isFinal`
      equals `final`. */
  function Collect(rs: seq<SpeechResult>, final: bool): string {
    if rs == [] then []
    else Collect(rs[..|rs| - 1], final) + (if rs[|rs| - 1].isFinal == final then rs[|rs| - 1].text else [])
  }

  /** The results an event reports from `resultIndex` on. */
  function FromIndex(results: seq<SpeechResult>, resultIndex: nat): seq<SpeechResult> {
    if resultIndex <= |results| then results[resultIndex..] else []
  }

  /** The state a result event leaves: the final texts from `resultIndex` on
      appended to the transcript, the interim text replaced by the non-final
      ones, nothing else touched. */
  function ResultEvent(r: Recognizer, resultIndex: nat, results: seq<SpeechResult>): (r': Recognizer)
    ensures r'.transcript == r.transcript + Collect(FromIndex(results, resultIndex), true)
    ensures r'.interim == Collect(FromIndex(results, resultIndex), false)
    ensures r'.listening == r.listening && r'.error == r.error && r'.supported == r.supported
  {
    var rs := FromIndex(results, resultIndex);
    r.(transcript := r.transcript + Collect(rs, true), interim := Collect(rs, false))
  }

  /** `onresult`: the loop over the results from `resultIndex`. The final texts
      are appended to the transcript; the interim text is replaced, not
      appended, by the non-final texts of this event. */
  method OnResult(r: Recognizer, resultIndex: nat, results: seq<SpeechResult>) returns (r': Recognizer)
    ensures r'.transcript == r.transcript + Collect(FromIndex(results, resultIndex), true)
    ensures r'.interim == Collect(FromIndex(results, resultIndex), false)
    ensures r'.listening == r.listening && r'.error == r.error && r'.supported == r.supported
    ensures r' == ResultEvent(r, resultIndex, results)
  {
    var finalText := "";
    var interimText := "";
    var i := resultIndex;
    while i < |results|
      invariant resultIndex <= |results| ==> resultIndex <= i <= |results|
      invariant resultIndex <= |results| ==>
        finalText == Collect(results[resultIndex..i], true) && interimText == Collect(results[resultIndex..i], false)
      invariant resultIndex > |results| ==> i == resultIndex && finalText == [] && interimText == []
    {
      assert results[resultIndex..i + 1][..i - resultIndex] == results[resultIndex..i];
      if results[i].isFinal {
        finalText := finalText + results[i].text;
      } else {
        interimText := interimText + results[i].text;
      }
      i := i + 1;
    }
    if resultIndex <= |results| {
      assert results[resultIndex..|results|] == results[resultIndex..];
    }
    r' := r.(transcript := r.transcript + finalText, interim := interimText);
  }

  /** Every result contributes its text to exactly one of the two strings. */
  lemma {:induction false} CollectPartitions(rs: seq<SpeechResult>)
    ensures |Collect(rs, true)| + |Collect(rs, false)| == TotalLength(rs)
  {
    if rs != [] {
      CollectPartitions(rs[..|rs| - 1]);
      assert TotalLength(rs) == TotalLength(rs[..|rs| - 1]) + |rs[|rs| - 1].text| by {
        TotalLengthSnoc(rs[..|rs| - 1], rs[|rs| - 1]);
        assert rs[..|rs| - 1] + [rs[|rs| - 1]] == rs;
      }
    }
  }

  function TotalLength(rs: seq<SpeechResult>): nat {
    if rs == [] then 0 else |rs[0].text| + TotalLength(rs[1..])
  }

  lemma {:induction false} TotalLengthSnoc(rs: seq<SpeechResult>, x: SpeechResult)
    ensures TotalLength(rs + [x]) == TotalLength(rs) + |x.text|
  {
    if rs != [] {
      assert (rs + [x])[1..] == rs[1..] + [x];
      TotalLengthSnoc(rs[1..], x);
    }
  }

  /** `startListening`: a no-op while listening or without a recogniser.
      Otherwise transcript, interim text and error are cleared first; a start
      that throws leaves the adapter not listening with the failure message,
      and a start that succeeds leaves `listening` to the coming `onstart`. */
  function StartListening(r: Recognizer, throws: bool): (s: Step)
    ensures !r.supported || r.listening ==> s == Step(r, Quiet)
    ensures r.supported && !r.listening ==>
      && s.rec.transcript == [] && s.rec.interim == [] && !s.rec.listening
      && s.rec.supported
      && (throws ==> s.rec.error == Some(StartFailedMessage) && s.call == Quiet)
      && (!throws ==> s.rec.error == None && s.call == StartIssued)
  {
    if !r.supported || r.listening then Step(r, Quiet)
    else
      var cleared := r.(transcript := "", interim := "", error := None);
      if throws then Step(cleared.(error := Some(StartFailedMessage), listening := false), Quiet)
      else Step(cleared, StartIssued)
  }

  /** `stopListening`: calls `stop()` only while listening; the state itself
      changes when the recogniser reports `onend`. */
  function StopListening(r: Recognizer): (s: Step)
    ensures s.rec == r
    ensures s.call == StopIssued <==> r.supported && r.listening
    ensures s.call != StartIssued
  {
    if r.supported && r.listening then Step(r, StopIssued) else Step(r, Quiet)
  }

  /** `resetTranscript`: both strings emptied, listening untouched. */
  function ResetTranscript(r: Recognizer): (r': Recognizer)
    ensures r'.transcript == [] && r'.interim == []
    ensures r'.listening == r.listening && r'.error == r.error && r'.supported == r.supported
  {
    r.(transcript := "", interim := "")
  }

  /** Starting is idempotent once listening: a second start before `onstart`
      is again allowed by the guard (listening is still false), but once
      listening a start does nothing. A stop takes effect at `onend`, after
      which a further stop issues no command. */
  lemma StartStopIdempotent(r: Recognizer, throws: bool)
    ensures StartListening(OnStart(r), throws) == Step(OnStart(r), Quiet)
    ensures var ended := OnEnd(StopListening(r).rec);
      !ended.listening && StopListening(ended) == Step(ended, Quiet)
  {
  }
}
