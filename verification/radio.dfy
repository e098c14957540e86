/** The turn-taking controller of the radio show: it owns the on-air and
    active flags, the manual/auto mode and the auto-listen delay, and drives
    the capture adapter, the dialogue client and the speech output.

    React state is modelled as taking effect at once, and the hook's one
    effect (arm the auto-listen timer, after clearing the previous one) runs
    after every operation that changed one of its dependencies. The timer is
    the flag `armed` (the timer held by `autoListenTimeoutRef` is pending) and
    the count `stray` (pending timers that the ref no longer holds, so that no
    cleanup can clear them); its firing is an operation of its own. */
module Radio {
  import opened Wrappers
  import Text
  import Messages
  import Capture
  import ChatClient
  import SpeechOutput
  import Chunker

  datatype Mode = Manual | Auto

  datatype ConversationState = Idle | Listening | Processing | Speaking

  /** The derived state, by precedence listening > processing > speaking > idle. */
  function Derive(listening: bool, loading: bool, speaking: bool): (s: ConversationState)
    ensures s == Listening <==> listening
    ensures s == Processing <==> !listening && loading
    ensures s == Speaking <==> !listening && !loading && speaking
    ensures s == Idle <==> !listening && !loading && !speaking
  {
    if listening then Listening
    else if loading then Processing
    else if speaking then Speaking
    else Idle
  }

  /** Which caller awaits the chat request in flight, if one is. */
  datatype Waiter = NoWaiter | TranscriptWaiter | OpeningWaiter

  /** What the controller asks of the platform and the server. */
  datatype Effect =
    | StartCapture                      // `recognition.start()`
    | StopCapture                       // `recognition.stop()`
    | CancelSpeech                      // `speechSynthesis.cancel()`
    | Utter(chunk: string)              // a chunk handed to the speech engine
    | PostChat(request: ChatClient.Request)

  datatype Radio = Radio(
    onAir: bool,
    active: bool,
    mode: Mode,
    delay: nat,                         // `autoListenDelay`, in milliseconds
    armed: bool,
    stray: nat,
    capture: Capture.Recognizer,
    chat: ChatClient.Chat,
    player: SpeechOutput.Player,
    waiter: Waiter,
    openings: seq<string>)              // first replies waiting out the 500 ms before `speak`

  datatype Out = Out(radio: Radio, effects: seq<Effect>)

  const DefaultDelay: nat := 2000

  function Init(supported: bool): Radio {
    Radio(false, false, Manual, DefaultDelay, false, 0, Capture.Init(supported), ChatClient.Initial,
          SpeechOutput.Idle, NoWaiter, [])
  }

  function State(r: Radio): ConversationState {
    Derive(r.capture.listening, r.chat.loading, r.player.speaking)
  }

  /** The condition under which `scheduleAutoListen` (called by the effect)
      arms a timer. */
  predicate Ready(r: Radio) {
    r.mode == Auto && r.active && !r.capture.listening && !r.chat.loading && !r.player.speaking
  }

  /** The values the effect depends on, directly or through `scheduleAutoListen`. */
  datatype Deps = Deps(speaking: bool, mode: Mode, active: bool, listening: bool, loading: bool, delay: nat)

  function DepsOf(r: Radio): Deps {
    Deps(r.player.speaking, r.mode, r.active, r.capture.listening, r.chat.loading, r.delay)
  }

  /** The effect after a render: when a dependency changed, the cleanup clears
      the held timer and the effect arms a fresh one if the controller is ready. */
  function Settle(before: Radio, after: Radio): (r: Radio)
    ensures DepsOf(before) == DepsOf(after) ==> r == after
    ensures DepsOf(before) != DepsOf(after) ==> r == after.(armed := Ready(after))
  {
    if DepsOf(before) == DepsOf(after) then after else after.(armed := Ready(after))
  }

  /** Clearing the held timer (`clearTimeout` on the ref, then null). */
  function Disarm(r: Radio): Radio {
    r.(armed := false)
  }

  /** `scheduleAutoListen` as a closure of the render `seen`: it tests the
      values of that render but writes the ref of the live controller. A timer
      already held by the ref is overwritten, and keeps running unheld. */
  function Schedule(seen: Radio, r: Radio): (o: Radio)
    ensures !Ready(seen) ==> o == r
    ensures Ready(seen) ==> o.armed && o.stray == r.stray + (if r.armed then 1 else 0)
  {
    if !Ready(seen) then r
    else r.(armed := true, stray := r.stray + (if r.armed then 1 else 0))
  }

  function CallEffects(c: Capture.Call): seq<Effect> {
    match c
    case Quiet => []
    case StartIssued => [StartCapture]
    case StopIssued => [StopCapture]
  }

  function Uttered(o: SpeechOutput.Out): seq<Effect> {
    if o.uttered.Some? then [Utter(o.uttered.value)] else []
  }

  /** `speak(text)` on the live speech output. */
  function SpeakText(r: Radio, text: string, ready: bool): Out {
    var o := SpeechOutput.Speak(r.player, text, ready);
    Out(r.(player := o.player), Uttered(o))
  }

  /** `stopListening()`, `stopSpeaking()` and the timer cleared: the shared
      tail of ending the conversation. */
  function Halt(r: Radio): (o: Out)
    ensures !o.radio.armed && !o.radio.player.speaking && !o.radio.player.processing && o.radio.player.run.None?
    ensures o.radio.stray == r.stray && o.radio.capture == r.capture
    ensures o.effects == CallEffects(Capture.StopListening(r.capture).call) + [CancelSpeech]
  {
    var s := Capture.StopListening(r.capture);
    Out(Disarm(r.(capture := s.rec, player := SpeechOutput.Stop(r.player).player)), CallEffects(s.call) + [CancelSpeech])
  }

  /** A fired auto-listen timer: start listening only if still idle. */
  function Fire(r: Radio, startThrows: bool): Out {
    if State(r) == Idle then
      var s := Capture.StartListening(r.capture, startThrows);
      Out(r.(capture := s.rec), CallEffects(s.call))
    else Out(r, [])
  }

  datatype Op =
    | ToggleListening(startThrows: bool)
    | SendTranscript
    | ClearTranscript
    | ToggleConversation
    | PlayInitialMessage(ready: bool)
    | ToggleOnAir
    | EmergencyStop
    | SetMode(mode: Mode)
    | SetDelay(delay: nat)
    | StartConversation(name: string)
    | ChatSettled(outcome: ChatClient.Outcome, ready: bool)   // the request in flight resolves
    | OpeningDue(ready: bool)                                  // a 500 ms opening timer fires
    | TimerFires(startThrows: bool)                            // the held auto-listen timer fires
    | StrayFires(startThrows: bool)                            // an unheld auto-listen timer fires
    | CaptureStarted
    | CaptureEnded
    | CaptureFailed(code: string)
    | CaptureResult(resultIndex: nat, results: seq<Capture.SpeechResult>)
    | SpeechEvent(event: SpeechOutput.Event)

  /** The operation itself, before the effect runs. */
  function Step(r: Radio, op: Op): Out {
    match op
    case ToggleListening(startThrows) =>
      if r.capture.listening then
        var s := Capture.StopListening(r.capture);
        Out(r.(capture := s.rec), CallEffects(s.call))
      else if !r.player.speaking && !r.chat.loading then
        var s := Capture.StartListening(Capture.ResetTranscript(r.capture), startThrows);
        Out(r.(capture := s.rec), CallEffects(s.call))
      else Out(r, [])
    case SendTranscript =>
      if Text.IsBlank(r.capture.transcript) then Out(r, [])
      else
        var words := r.capture.transcript;
        var cleared := r.(capture := Capture.ResetTranscript(r.capture));
        var b := ChatClient.Begin(cleared.chat, words, None);
        if b.request.None? then Out(cleared, [])
        else Out(cleared.(chat := b.chat, waiter := TranscriptWaiter), [PostChat(b.request.value)])
    case ClearTranscript =>
      Out(r.(capture := Capture.ResetTranscript(r.capture)), [])
    case ToggleConversation =>
      if r.active then Halt(r.(active := false))
      // the closure still sees `isActive == false`, so its own schedule does nothing
      else Out(Schedule(r, r.(active := true)), [])
    case PlayInitialMessage(ready) =>
      var ms := r.chat.messages;
      if |ms| > 0 && ms[0].role == Messages.Assistant && !r.chat.initialSpoken then
        var o := SpeakText(r, ms[0].content, ready);
        Out(o.radio.(chat := o.radio.chat.(initialSpoken := true)), o.effects)
      else Out(r, [])
    case ToggleOnAir =>
      if !r.onAir then Out(r.(onAir := true), [])
      else Halt(r.(onAir := false, active := false))
    case EmergencyStop =>
      Halt(r.(active := false, onAir := false))
    case SetMode(mode) =>
      var r1 := r.(mode := mode);
      if mode == Auto && r.active && State(r) == Idle then Out(Schedule(r, r1), [])
      else if mode == Manual then Out(Disarm(r1), [])
      else Out(r1, [])
    case SetDelay(delay) =>
      Out(r.(delay := delay), [])
    case StartConversation(name) =>
      // `sendMessage` is the closure of the render before `setUserName(name)`,
      // so an empty `name` falls back to the name held before the call.
      var b := ChatClient.Begin(r.chat, "", Some(name));
      var chat := b.chat.(userName := name);
      if b.request.None? then Out(r.(chat := chat), [])
      else Out(r.(chat := chat, waiter := OpeningWaiter), [PostChat(b.request.value)])
    case ChatSettled(outcome, ready) =>
      if r.waiter == NoWaiter then Out(r, [])
      else
        var f := ChatClient.Finish(r.chat, outcome);
        var r1 := r.(chat := f.chat, waiter := NoWaiter);
        if f.reply.None? || f.reply.value == [] then Out(r1, [])
        else if r.waiter == TranscriptWaiter then SpeakText(r1, f.reply.value, ready)
        else Out(r1.(openings := r1.openings + [f.reply.value]), [])
    case OpeningDue(ready) =>
      if r.openings == [] then Out(r, [])
      else SpeakText(r.(openings := r.openings[1..]), r.openings[0], ready)
    case TimerFires(startThrows) =>
      if !r.armed then Out(r, []) else Fire(r.(armed := false), startThrows)
    case StrayFires(startThrows) =>
      if r.stray == 0 then Out(r, []) else Fire(r.(stray := r.stray - 1), startThrows)
    case CaptureStarted =>
      Out(r.(capture := Capture.OnStart(r.capture)), [])
    case CaptureEnded =>
      Out(r.(capture := Capture.OnEnd(r.capture)), [])
    case CaptureFailed(code) =>
      Out(r.(capture := Capture.OnError(r.capture, code)), [])
    case CaptureResult(resultIndex, results) =>
      Out(r.(capture := Capture.ResultEvent(r.capture, resultIndex, results)), [])
    case SpeechEvent(e) =>
      var o := SpeechOutput.OnEvent(r.player, e);
      Out(r.(player := o.player), Uttered(o))
  }

  /** One operation followed by the effect. */
  function Apply(r: Radio, op: Op): Out {
    var o := Step(r, op);
    Out(Settle(r, o.radio), o.effects)
  }

  // --- The invariant ---------------------------------------------------------------

  /** At most one auto-listen timer is pending, and it is held by the ref; a
      held timer implies the controller is ready; a chat request is in flight
      exactly while the client is loading; the speech output is consistent. */
  ghost predicate Inv(r: Radio) {
    && r.stray == 0
    && (r.armed ==> Ready(r))
    && (r.chat.loading <==> r.waiter != NoWaiter)
    && SpeechOutput.Inv(r.player)
  }

  lemma InitInv(supported: bool)
    ensures Inv(Init(supported))
  {
  }

  /** `setMode("auto")` while already in auto mode with a timer held: the only
      operation that breaks the invariant (the mode selector does not issue it). */
  predicate Rearms(r: Radio, op: Op) {
    op.SetMode? && op.mode == Auto && r.armed
  }

  /** The part of the invariant about the request in flight and the speech
      output, for the result `o` of a step. */
  ghost predicate LoadingKept(o: Radio) {
    (o.chat.loading <==> o.waiter != NoWaiter) && SpeechOutput.Inv(o.player)
  }

  /** The part about timers: no new stray timer, and a held timer implies
      readiness unless the effect is about to re-arm it. */
  predicate TimersKept(r: Radio, o: Radio) {
    o.stray <= r.stray && (DepsOf(o) == DepsOf(r) ==> (o.armed ==> Ready(o)))
  }

  predicate IsEventOp(op: Op) {
    op.CaptureStarted? || op.CaptureEnded? || op.CaptureFailed? || op.CaptureResult? || op.SpeechEvent?
    || op.TimerFires? || op.StrayFires?
  }

  lemma EventOpKeeps(r: Radio, op: Op)
    requires IsEventOp(op)
    ensures Inv(r) ==> LoadingKept(Step(r, op).radio)
    ensures !Rearms(r, op) && (r.armed ==> Ready(r)) ==> TimersKept(r, Step(r, op).radio)
  {
  }

  lemma SettledKeeps(r: Radio, outcome: ChatClient.Outcome, ready: bool)
    ensures Inv(r) ==> LoadingKept(Step(r, ChatSettled(outcome, ready)).radio)
    ensures (r.armed ==> Ready(r)) ==> TimersKept(r, Step(r, ChatSettled(outcome, ready)).radio)
  {
    if r.waiter != NoWaiter {
      var f := ChatClient.Finish(r.chat, outcome);
      var r1 := r.(chat := f.chat, waiter := NoWaiter);
      assert !r1.chat.loading;
      if f.reply.Some? && f.reply.value != [] && r.waiter == TranscriptWaiter {
        assert Step(r, ChatSettled(outcome, ready)) == SpeakText(r1, f.reply.value, ready);
      }
    }
  }

  lemma SpeakingOpKeeps(r: Radio, op: Op)
    requires op.OpeningDue? || op.PlayInitialMessage?
    ensures Inv(r) ==> LoadingKept(Step(r, op).radio)
    ensures (r.armed ==> Ready(r)) ==> TimersKept(r, Step(r, op).radio)
  {
  }

  lemma SendKeeps(r: Radio)
    ensures Inv(r) ==> LoadingKept(Step(r, SendTranscript).radio)
    ensures (r.armed ==> Ready(r)) ==> TimersKept(r, Step(r, SendTranscript).radio)
  {
    if !Text.IsBlank(r.capture.transcript) {
      var cleared := r.(capture := Capture.ResetTranscript(r.capture));
      var b := ChatClient.Begin(cleared.chat, r.capture.transcript, None);
      if b.request.None? {
        assert Step(r, SendTranscript).radio == cleared;
      } else {
        assert Step(r, SendTranscript).radio == cleared.(chat := b.chat, waiter := TranscriptWaiter);
        assert b.chat.loading && !r.chat.loading;
      }
    }
  }

  lemma StartKeeps(r: Radio, name: string)
    ensures Inv(r) ==> LoadingKept(Step(r, StartConversation(name)).radio)
    ensures (r.armed ==> Ready(r)) ==> TimersKept(r, Step(r, StartConversation(name)).radio)
  {
  }

  lemma StoppingOpKeeps(r: Radio, op: Op)
    requires op.ToggleConversation? || op.ToggleOnAir? || op.EmergencyStop?
    ensures Inv(r) ==> LoadingKept(Step(r, op).radio)
    ensures (r.armed ==> Ready(r)) ==> TimersKept(r, Step(r, op).radio)
  {
  }

  lemma SettingOpKeeps(r: Radio, op: Op)
    requires op.SetMode? || op.SetDelay? || op.ToggleListening? || op.ClearTranscript?
    ensures Inv(r) ==> LoadingKept(Step(r, op).radio)
    ensures !Rearms(r, op) && (r.armed ==> Ready(r)) ==> TimersKept(r, Step(r, op).radio)
  {
  }

  lemma OpKeeps(r: Radio, op: Op)
    ensures Inv(r) ==> LoadingKept(Step(r, op).radio)
    ensures !Rearms(r, op) && (r.armed ==> Ready(r)) ==> TimersKept(r, Step(r, op).radio)
  {
    if IsEventOp(op) {
      EventOpKeeps(r, op);
    } else if op.ChatSettled? {
      SettledKeeps(r, op.outcome, op.ready);
    } else if op.OpeningDue? || op.PlayInitialMessage? {
      SpeakingOpKeeps(r, op);
    } else if op.SendTranscript? {
      SendKeeps(r);
    } else if op.StartConversation? {
      StartKeeps(r, op.name);
    } else if op.ToggleConversation? || op.ToggleOnAir? || op.EmergencyStop? {
      StoppingOpKeeps(r, op);
    } else {
      SettingOpKeeps(r, op);
    }
  }

  lemma StepKeepsLoading(r: Radio, op: Op)
    requires Inv(r)
    ensures var o := Step(r, op).radio;
      (o.chat.loading <==> o.waiter != NoWaiter) && SpeechOutput.Inv(o.player)
  {
    OpKeeps(r, op);
  }

  lemma StepKeepsTimers(r: Radio, op: Op)
    requires !Rearms(r, op) && (r.armed ==> Ready(r))
    ensures var o := Step(r, op).radio;
      o.stray <= r.stray && (DepsOf(o) == DepsOf(r) ==> (o.armed ==> Ready(o)))
  {
    OpKeeps(r, op);
  }

  /** Every operation but `Rearms` keeps the invariant. */
  lemma ApplyKeepsInv(r: Radio, op: Op)
    requires Inv(r) && !Rearms(r, op)
    ensures Inv(Apply(r, op).radio)
  {
    var o := Step(r, op).radio;
    OpKeeps(r, op);
    assert Apply(r, op).radio == Settle(r, o);
  }

  /** ... and `Rearms` leaves two timers pending, one of them held by nothing. */
  lemma RearmLeavesTwoTimers(r: Radio)
    requires Inv(r) && r.mode == Auto && r.armed
    ensures Apply(r, SetMode(Auto)).radio.armed && Apply(r, SetMode(Auto)).radio.stray == 1
  {
  }

  // --- Properties of the operations ------------------------------------------------

  /** A timer arms only when the controller is ready; a change that leaves it
      unready clears the held timer; nothing else touches the unheld ones. */
  lemma ArmsOnlyWhenReady(r: Radio, op: Op)
    requires !Rearms(r, op) && (r.armed ==> Ready(r))
    ensures var o := Apply(r, op).radio;
      && (o.armed ==> Ready(o))
      && o.stray <= r.stray
  {
    StepKeepsTimers(r, op);
  }

  /** A fired timer starts the recogniser only if the state is still idle then. */
  lemma FiresOnlyWhenIdle(r: Radio, startThrows: bool)
    ensures StartCapture in Apply(r, TimerFires(startThrows)).effects ==> r.armed && State(r) == Idle
    ensures r.armed && State(r) == Idle && r.capture.supported && !startThrows ==>
      Apply(r, TimerFires(startThrows)).effects == [StartCapture]
    ensures !Apply(r, TimerFires(startThrows)).radio.armed
  {
    if r.armed {
      FireStartsOnlyWhenIdle(r.(armed := false), startThrows);
    }
  }

  /** The same holds for a timer nobody holds. */
  lemma StrayFiresOnlyWhenIdle(r: Radio, startThrows: bool)
    ensures StartCapture in Apply(r, StrayFires(startThrows)).effects ==> r.stray > 0 && State(r) == Idle
  {
    if r.stray > 0 {
      FireStartsOnlyWhenIdle(r.(stray := r.stray - 1), startThrows);
    }
  }

  lemma FireStartsOnlyWhenIdle(r: Radio, startThrows: bool)
    ensures StartCapture in Fire(r, startThrows).effects ==> State(r) == Idle
    ensures State(r) == Idle && r.capture.supported && !r.capture.listening && !startThrows ==>
      Fire(r, startThrows).effects == [StartCapture]
    ensures Fire(r, startThrows).radio.armed == r.armed
  {
  }

  /** `toggleListening`: stops while listening; otherwise, unless speaking or
      loading, clears the transcript and starts; otherwise does nothing. */
  lemma ToggleListeningCases(r: Radio, startThrows: bool)
    ensures var o := Apply(r, ToggleListening(startThrows));
      && (r.capture.listening ==>
            o.radio.capture == r.capture
            && o.effects == (if r.capture.supported then [StopCapture] else []))
      && (!r.capture.listening && !r.player.speaking && !r.chat.loading && r.capture.supported ==>
            o.radio.capture.transcript == [] && o.radio.capture.interim == []
            && o.effects == (if startThrows then [] else [StartCapture]))
      && (!r.capture.listening && (r.player.speaking || r.chat.loading) ==> o == Out(r, []))
  {
  }

  /** `sendTranscript`: a blank transcript changes nothing. Otherwise the
      transcript is cleared before sending, and the words go out unless a
      request is already in flight, in which case they are dropped. */
  lemma SendTranscriptCases(r: Radio)
    ensures Text.IsBlank(r.capture.transcript) ==> Apply(r, SendTranscript) == Out(r, [])
    ensures var o := Apply(r, SendTranscript);
      !Text.IsBlank(r.capture.transcript) ==>
        && o.radio.capture.transcript == [] && o.radio.capture.interim == []
        && (r.chat.loading ==> o.effects == [] && o.radio.chat == r.chat)
        && (!r.chat.loading ==>
              && o.radio.waiter == TranscriptWaiter && o.radio.chat.loading
              && o.effects == [PostChat(ChatClient.Request(r.capture.transcript,
                                 r.chat.messages + [Messages.Message(Messages.User, r.capture.transcript)],
                                 r.chat.userName))])
  {
  }

  /** When the transcript's reply arrives it is spoken if it is a non-empty
      string (and the speech output is free and ready); a failure or an empty
      reply speaks nothing. */
  lemma TranscriptReplySpoken(r: Radio, outcome: ChatClient.Outcome, ready: bool)
    requires r.waiter == TranscriptWaiter
    ensures var o := Apply(r, ChatSettled(outcome, ready));
      && !o.radio.chat.loading && o.radio.waiter == NoWaiter
      && (!outcome.Replied? || outcome.text == [] ==> o.effects == [])
      && (outcome.Replied? && outcome.text != [] && !r.player.processing && ready ==>
            |Chunker.Chunks(outcome.text)| > 0
            && o.effects == [Utter(Chunker.Chunks(outcome.text)[0])] && o.radio.player.speaking)
  {
    var f := ChatClient.Finish(r.chat, outcome);
    var r1 := r.(chat := f.chat, waiter := NoWaiter);
    if f.reply.None? || f.reply.value == [] {
      assert Step(r, ChatSettled(outcome, ready)) == Out(r1, []);
    } else {
      assert outcome.Replied? && f.reply.value == outcome.text;
      assert Step(r, ChatSettled(outcome, ready)) == SpeakText(r1, outcome.text, ready);
    }
  }

  /** `emergencyStop`, from any state: off the air, inactive, the recogniser
      told to stop if it was listening, speech cancelled and silent, and no
      timer held. Timers nobody holds cannot be cleared. */
  lemma EmergencyStopHalts(r: Radio)
    ensures var o := Apply(r, EmergencyStop);
      && !o.radio.onAir && !o.radio.active && !o.radio.armed && o.radio.stray == r.stray
      && !o.radio.player.speaking && !o.radio.player.processing
      && o.effects == (if r.capture.supported && r.capture.listening then [StopCapture, CancelSpeech] else [CancelSpeech])
  {
  }

  /** Nothing cancels the chat request in flight: a reply that arrives after
      `emergencyStop` is still spoken. */
  lemma ReplyAfterEmergencyStop(r: Radio, text: string)
    requires r.waiter == TranscriptWaiter && text != []
    ensures var stopped := Apply(r, EmergencyStop).radio;
      var o := Apply(stopped, ChatSettled(ChatClient.Replied(text), true));
      !stopped.active && !stopped.onAir && |Chunker.Chunks(text)| > 0
      && o.effects == [Utter(Chunker.Chunks(text)[0])] && o.radio.player.speaking
  {
    var stopped := Apply(r, EmergencyStop).radio;
    assert stopped.player == SpeechOutput.Idle && stopped.waiter == TranscriptWaiter;
    var f := ChatClient.Finish(stopped.chat, ChatClient.Replied(text));
    assert f.reply == Some(text);
    var r1 := stopped.(chat := f.chat, waiter := NoWaiter);
    assert Step(stopped, ChatSettled(ChatClient.Replied(text), true)) == SpeakText(r1, text, true);
  }

  /** `toggleOnAir` going off the air ends the conversation like
      `emergencyStop`; going on the air changes nothing else. */
  lemma ToggleOnAirCases(r: Radio)
    ensures r.onAir ==> Apply(r, ToggleOnAir) == Apply(r, EmergencyStop)
    ensures !r.onAir ==> Apply(r, ToggleOnAir) == Out(Settle(r, r.(onAir := true)), []) && Apply(r, ToggleOnAir).radio.onAir
  {
  }

  /** `toggleConversation`: stopping ends listening, speech and the timer;
      starting in auto mode while idle arms the timer (through the effect: the
      toggle's own call still sees the conversation inactive). */
  lemma ToggleConversationCases(r: Radio)
    ensures var o := Apply(r, ToggleConversation);
      && (r.active ==> !o.radio.active && !o.radio.armed && !o.radio.player.speaking && CancelSpeech in o.effects)
      && (!r.active ==>
            o.radio.active && o.effects == [] && o.radio.stray == r.stray
            && (o.radio.armed <==> r.mode == Auto && State(r) == Idle))
  {
  }

  /** `setMode`: manual clears the held timer; auto while active and idle
      leaves a timer armed, whichever mode it came from. */
  lemma SetModeCases(r: Radio)
    requires r.armed ==> Ready(r)
    ensures !Apply(r, SetMode(Manual)).radio.armed
    ensures Apply(r, SetMode(Manual)).radio.stray == r.stray
    ensures r.active && State(r) == Idle ==> Apply(r, SetMode(Auto)).radio.armed
    ensures Apply(r, SetMode(Auto)).radio.armed ==> r.active && State(r) == Idle
  {
  }

  /** A new delay restarts a held timer's countdown: the effect clears it and
      arms a fresh one, if still ready. */
  lemma SetDelayRestarts(r: Radio, delay: nat)
    requires delay != r.delay
    ensures Apply(r, SetDelay(delay)).radio == r.(delay := delay, armed := Ready(r))
  {
  }

  /** `playInitialMessage` speaks the host's first message at most once. */
  lemma InitialMessageOnce(r: Radio, ready: bool, ready2: bool)
    ensures var o := Apply(r, PlayInitialMessage(ready));
      && o.radio.chat.messages == r.chat.messages
      && (|r.chat.messages| > 0 && r.chat.messages[0].role == Messages.Assistant ==> o.radio.chat.initialSpoken)
      && (o.radio.chat.initialSpoken ==> Apply(o.radio, PlayInitialMessage(ready2)) == Out(o.radio, []))
    ensures r.chat.initialSpoken ==> Apply(r, PlayInitialMessage(ready)) == Out(r, [])
  {
  }

  /** `startConversation(name)`: unless a request is in flight, an empty
      message is posted under `name` (under the name held before, when `name`
      is empty), with the log as it stands. */
  lemma StartConversationPosts(r: Radio, name: string)
    requires !r.chat.loading
    ensures var o := Apply(r, StartConversation(name));
      && o.effects == [PostChat(ChatClient.Request("", r.chat.messages, if name != [] then name else r.chat.userName))]
      && o.radio.chat.userName == name && o.radio.waiter == OpeningWaiter
      && o.radio.player == r.player && o.radio.openings == r.openings
  {
    ChatClient.BeginEmpty(r.chat, name);
  }

  /** The opening reply is not spoken when it arrives: it waits for its timer. */
  lemma OpeningWaits(r: Radio, text: string, ready: bool)
    requires r.waiter == OpeningWaiter && text != []
    ensures var o := Apply(r, ChatSettled(ChatClient.Replied(text), ready));
      o.effects == [] && o.radio.openings == r.openings + [text] && o.radio.player == r.player
  {
  }

  /** When its timer fires, the oldest waiting opening is spoken. */
  lemma OpeningDueSpeaks(r: Radio)
    requires r.openings != [] && r.openings[0] != [] && !r.player.processing
    ensures var o := Apply(r, OpeningDue(true));
      && o.radio.openings == r.openings[1..]
      && |Chunker.Chunks(r.openings[0])| > 0 && o.effects == [Utter(Chunker.Chunks(r.openings[0])[0])]
  {
  }
}
