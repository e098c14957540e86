/** The chunk driver of the speech-output hook: `speak` turns the text into
    chunks and plays them one after the other through the platform speech
    engine; `stop` cancels. The engine is an event source: a chunk ends, a
    chunk fails with an error code, and the short pause scheduled between two
    chunks elapses. */
module SpeechOutput {
  import opened Wrappers
  import Chunker
  import Text

  /** Where the driver stands within one utterance: a chunk has been handed to
      the engine, or the pause before the next `speakNext` is pending. */
  datatype Phase = Playing | Pausing

  /** The closure of one `speak` call: its chunks and the running index. */
  datatype Run = Run(chunks: seq<string>, index: nat, phase: Phase)

  /** `speaking` is the `isSpeaking` state, `processing` the busy flag
      `isProcessingRef`, `run` the live closure, if any. */
  datatype Player = Player(speaking: bool, processing: bool, run: Option<Run>)

  /** The new player state, and the chunk handed to the engine by this step. */
  datatype Out = Out(player: Player, uttered: Option<string>)

  datatype Event = Ended | Failed(code: string) | PauseElapsed

  const Idle: Player := Player(false, false, None)

  /** Errors that skip the chunk instead of aborting the utterance. */
  predicate Skippable(code: string) {
    code == "interrupted" || code == "canceled"
  }

  /** The driver's invariant: both flags agree, a closure is live exactly while
      busy, and the index never runs past the chunks. */
  ghost predicate Inv(p: Player) {
    && p.speaking == p.processing
    && (p.run.Some? <==> p.processing)
    && (p.run.Some? ==>
          && p.run.value.index <= |p.run.value.chunks|
          && (p.run.value.phase == Playing ==> p.run.value.index < |p.run.value.chunks|))
  }

  /** `speakNext`: finish when the index has reached the chunk count, otherwise
      hand the chunk at the index to the engine and mark the player speaking. */
  function SpeakNext(p: Player, chunks: seq<string>, index: nat): (o: Out)
    ensures index >= |chunks| ==> !o.player.speaking && !o.player.processing && o.uttered == None
    ensures index < |chunks| ==>
      o.player.speaking && o.uttered == Some(chunks[index])
      && o.player.run == Some(Run(chunks, index, Playing))
  {
    if index >= |chunks| then Out(Idle, None)
    else Out(p.(speaking := true, run := Some(Run(chunks, index, Playing))), Some(chunks[index]))
  }

  /** `speak(text)`. `ready` says whether the engine exists and has voices
      (after the one reload attempt); when it does not, nothing happens. A call
      made while busy is dropped, not queued. */
  function Speak(p: Player, text: string, ready: bool): (o: Out)
    ensures p.processing ==> o == Out(p, None)
    ensures !p.processing && !ready ==> o == Out(p, None)
    ensures !p.processing && ready && text == [] ==> o.player == Idle && o.uttered == None
    ensures !p.processing && ready && text != [] ==>
      && o.player.speaking && o.player.processing
      && o.player.run == Some(Run(Chunker.Chunks(text), 0, Playing))
      && |Chunker.Chunks(text)| > 0 && o.uttered == Some(Chunker.Chunks(text)[0])
    ensures Inv(p) ==> Inv(o.player)
  {
    if p.processing || !ready then Out(p, None)
    else
      Chunker.ChunksNonEmpty(text);
      SpeakNext(p.(processing := true), Chunker.Chunks(text), 0)
  }

  /** The engine's callbacks on the live closure. `onend` and a skippable
      `onerror` advance the index by one and schedule the next chunk; any other
      error clears both flags and schedules nothing; the pause elapsing runs
      `speakNext`. Events with no matching closure state change nothing. */
  function OnEvent(p: Player, e: Event): (o: Out)
    ensures p.run.None? ==> o == Out(p, None)
    ensures p.run.Some? && p.run.value.phase == Playing && (e.Ended? || (e.Failed? && Skippable(e.code))) ==>
      o == Out(p.(run := Some(p.run.value.(index := p.run.value.index + 1, phase := Pausing))), None)
    ensures p.run.Some? && p.run.value.phase == Playing && e.Failed? && !Skippable(e.code) ==>
      o == Out(Idle, None)
    ensures p.run.Some? && p.run.value.phase == Pausing && e.PauseElapsed? ==>
      o == SpeakNext(p, p.run.value.chunks, p.run.value.index)
    ensures Inv(p) ==> Inv(o.player)
  {
    match p.run
    case None => Out(p, None)
    case Some(run) =>
      match e
      case Ended =>
        if run.phase == Playing then Out(p.(run := Some(run.(index := run.index + 1, phase := Pausing))), None)
        else Out(p, None)
      case Failed(code) =>
        if run.phase != Playing then Out(p, None)
        else if Skippable(code) then Out(p.(run := Some(run.(index := run.index + 1, phase := Pausing))), None)
        else Out(Idle, None)
      case PauseElapsed =>
        if run.phase == Pausing then SpeakNext(p, run.chunks, run.index) else Out(p, None)
  }

  /** `stop`, with the closure discarded so that no callback of the cancelled
      utterance can resume it (see `StopAsWritten` for the source's version). */
  function Stop(p: Player): (o: Out)
    ensures !o.player.speaking && !o.player.processing && o.player.run.None?
    ensures o.uttered == None
    ensures Inv(o.player)
  {
    Out(Idle, None)
  }

  /** A sequence of engine events applied in order, with the chunks handed to
      the engine along the way. */
  datatype Trace = Trace(final: Player, said: seq<string>)

  function Replay(p: Player, evs: seq<Event>): Trace
    decreases |evs|
  {
    if evs == [] then Trace(p, [])
    else
      var o := OnEvent(p, evs[0]);
      var t := Replay(o.player, evs[1..]);
      Trace(t.final, o.uttered.ToSeq() + t.said)
  }

  /** Without a live closure no event plays anything or changes anything. */
  lemma {:induction false} ReplayWithoutRun(p: Player, evs: seq<Event>)
    requires p.run.None?
    ensures Replay(p, evs) == Trace(p, [])
    decreases |evs|
  {
    if evs != [] {
      ReplayWithoutRun(p, evs[1..]);
    }
  }

  /** After a fatal error nothing more is played, whatever the engine reports. */
  lemma FatalErrorEndsUtterance(p: Player, code: string, evs: seq<Event>)
    requires p.run.Some? && p.run.value.phase == Playing && !Skippable(code)
    ensures var o := OnEvent(p, Failed(code));
      !o.player.speaking && !o.player.processing && Replay(o.player, evs).said == []
  {
    ReplayWithoutRun(OnEvent(p, Failed(code)).player, evs);
  }

  /** After `stop`, whatever the engine reports, nothing is played and both
      flags stay false until the next `speak`. */
  lemma StopSilences(p: Player, evs: seq<Event>)
    ensures Replay(Stop(p).player, evs) == Trace(Idle, [])
  {
    ReplayWithoutRun(Stop(p).player, evs);
  }

  /** Index of the next chunk the closure will hand to the engine. */
  function NextIndex(run: Run): nat {
    if run.phase == Playing then run.index + 1 else run.index
  }

  /** `said` is the run of chunks that follows the closure's position. */
  predicate InOrder(run: Run, said: seq<string>) {
    && NextIndex(run) + |said| <= |run.chunks|
    && said == run.chunks[NextIndex(run)..NextIndex(run) + |said|]
  }

  /** Chunks are played strictly in order: whatever the engine reports, the
      chunks handed to it form the contiguous run of chunks that follows the
      current one, with none skipped before being started and none repeated. */
  lemma {:induction false} PlaysInOrder(p: Player, evs: seq<Event>)
    requires Inv(p) && p.run.Some?
    ensures InOrder(p.run.value, Replay(p, evs).said)
    decreases |evs|
  {
    if evs != [] {
      var o := OnEvent(p, evs[0]);
      StepInOrder(p, evs[0]);
      if o.player.run.None? {
        ReplayWithoutRun(o.player, evs[1..]);
      } else {
        PlaysInOrder(o.player, evs[1..]);
        ExtendsInOrder(p, evs);
      }
    }
  }

  /** The inductive step of `PlaysInOrder`: an in-order tail after an
      in-order first event makes an in-order whole. */
  lemma ExtendsInOrder(p: Player, evs: seq<Event>)
    requires Inv(p) && p.run.Some? && evs != []
    requires OnEvent(p, evs[0]).player.run.Some?
    requires InOrder(OnEvent(p, evs[0]).player.run.value, Replay(OnEvent(p, evs[0]).player, evs[1..]).said)
    ensures InOrder(p.run.value, Replay(p, evs).said)
  {
    var o := OnEvent(p, evs[0]);
    var t := Replay(o.player, evs[1..]);
    assert Replay(p, evs).said == o.uttered.ToSeq() + t.said;
    StepInOrder(p, evs[0]);
    InOrderExtends(p.run.value, o.player.run.value, o.uttered.ToSeq(), t.said);
  }

  lemma InOrderExtends(run: Run, run': Run, u: seq<string>, rest: seq<string>)
    requires run'.chunks == run.chunks && NextIndex(run') == NextIndex(run) + |u|
    requires u == [] || (|u| == 1 && NextIndex(run) < |run.chunks| && u[0] == run.chunks[NextIndex(run)])
    requires InOrder(run', rest)
    ensures InOrder(run, u + rest)
  {
    var c, n := run.chunks, NextIndex(run);
    if u != [] {
      assert c[n..n + 1 + |rest|] == [c[n]] + c[n + 1..n + 1 + |rest|];
    }
  }

  /** One event hands the engine at most the chunk at the next index, and a
      closure that survives the event has moved past exactly what was handed. */
  lemma StepInOrder(p: Player, e: Event)
    requires Inv(p) && p.run.Some?
    ensures var run := p.run.value; var o := OnEvent(p, e);
      && Inv(o.player)
      && (o.uttered.Some? ==> NextIndex(run) < |run.chunks| && o.uttered.value == run.chunks[NextIndex(run)])
      && (o.player.run.None? ==> o.uttered.None?)
      && (o.player.run.Some? ==>
            && o.player.run.value.chunks == run.chunks
            && NextIndex(o.player.run.value) == NextIndex(run) + |o.uttered.ToSeq()|)
  {
  }

  /** The events of an undisturbed playback: each chunk ends, then the pause
      elapses, `rounds` times. */
  function Undisturbed(rounds: nat): (evs: seq<Event>)
    ensures |evs| == 2 * rounds
  {
    if rounds == 0 then [] else [Ended, PauseElapsed] + Undisturbed(rounds - 1)
  }

  lemma {:induction false} UndisturbedFrom(p: Player)
    requires Inv(p) && p.run.Some? && p.run.value.phase == Playing
    ensures var run := p.run.value;
      Replay(p, Undisturbed(|run.chunks| - run.index)) == Trace(Idle, run.chunks[run.index + 1..])
    decreases |p.run.value.chunks| - p.run.value.index
  {
    var run := p.run.value;
    var rounds := |run.chunks| - run.index - 1;
    var q := RoundOf(p);
    if run.index + 1 < |run.chunks| {
      assert q.player.run.value.chunks == run.chunks && q.player.run.value.index == run.index + 1;
      UndisturbedFrom(q.player);
      assert Replay(q.player, Undisturbed(rounds)) == Trace(Idle, run.chunks[run.index + 2..]);
      ReplayRound(p, rounds, run.chunks[run.index + 2..]);
      assert q.uttered.ToSeq() == [run.chunks[run.index + 1]];
      assert run.chunks[run.index + 1..] == [run.chunks[run.index + 1]] + run.chunks[run.index + 2..];
    } else {
      ReplayWithoutRun(q.player, Undisturbed(rounds));
      ReplayRound(p, rounds, []);
    }
  }

  /** One round of an undisturbed playback: the chunk ends, then the pause
      elapses. The next chunk, if any, is handed to the engine. */
  function RoundOf(p: Player): (o: Out)
    requires Inv(p) && p.run.Some? && p.run.value.phase == Playing
    ensures var run := p.run.value;
      && (run.index + 1 < |run.chunks| ==>
            && o.uttered == Some(run.chunks[run.index + 1])
            && o.player.run == Some(run.(index := run.index + 1, phase := Playing))
            && Inv(o.player))
      && (run.index + 1 >= |run.chunks| ==> o == Out(Idle, None))
  {
    OnEvent(OnEvent(p, Ended).player, PauseElapsed)
  }

  lemma ReplayRound(p: Player, rounds: nat, tail: seq<string>)
    requires Inv(p) && p.run.Some? && p.run.value.phase == Playing
    requires Replay(RoundOf(p).player, Undisturbed(rounds)) == Trace(Idle, tail)
    ensures Replay(p, Undisturbed(rounds + 1)) == Trace(Idle, RoundOf(p).uttered.ToSeq() + tail)
  {
    var evs := Undisturbed(rounds + 1);
    var rest := Undisturbed(rounds);
    assert evs == [Ended, PauseElapsed] + rest;
    assert evs[0] == Ended && evs[1..] == [PauseElapsed] + rest;
    assert evs[1..][0] == PauseElapsed && evs[1..][1..] == rest;
    assert OnEvent(p, Ended).uttered == None;
  }

  /** End to end: `speak(text)` followed by an undisturbed playback hands every
      chunk to the engine once, in order, so the engine receives exactly the
      text; afterwards neither flag is set. */
  lemma UndisturbedPlaysAll(p: Player, text: string)
    requires Inv(p) && !p.processing && text != []
    ensures var o := Speak(p, text, true);
      var t := Replay(o.player, Undisturbed(|Chunker.Chunks(text)|));
      && o.uttered.ToSeq() + t.said == Chunker.Chunks(text)
      && Chunker.Flatten(o.uttered.ToSeq() + t.said) == text
      && t.final == Idle
  {
    var cs := Chunker.Chunks(text);
    var o := Speak(p, text, true);
    Chunker.ChunksNonEmpty(text);
    UndisturbedFrom(o.player);
    assert [cs[0]] + cs[1..] == cs;
    Chunker.ChunksRoundTrip(text);
  }

  // ----- stop as the source writes it -----

  /** `stop` as written: `cancel()` and both flags cleared, but the closure of
      the current utterance stays live. The Web Speech API reports a cancelled,
      already started utterance to its `onerror` with the code "interrupted". */
  function StopAsWritten(p: Player): (o: Out)
    ensures !o.player.speaking && !o.player.processing
    ensures o.player.run == p.run && o.uttered == None
  {
    Out(p.(speaking := false, processing := false), None)
  }

  /** The stop does not hold: stopping in the middle of a chunk that is not the
      last, the engine's "interrupted" report is taken for a skippable error and,
      after the pause, the next chunk is played and `isSpeaking` is true again,
      while the busy flag stays false so a new `speak` is also accepted. */
  lemma StopAsWrittenResumes(p: Player)
    requires Inv(p) && p.run.Some? && p.run.value.phase == Playing
    requires p.run.value.index + 1 < |p.run.value.chunks|
    ensures var t := Replay(StopAsWritten(p).player, [Failed("interrupted"), PauseElapsed]);
      && t.said == [p.run.value.chunks[p.run.value.index + 1]]
      && t.final.speaking && !t.final.processing
  {
  }

  /** Any reply of at least 50 UTF-16 code units with a delimiter in it is
      played in two chunks or more, so the scenario above is reachable from
      `speak`. */
  lemma LongTextHasSeveralChunks(text: string)
    requires Text.Utf16Len(text) >= Chunker.MaxChunkUnits && !Chunker.NoBreak(text)
    ensures |Chunker.Chunks(text)| >= 2
  {
    var cs := Chunker.Chunks(text);
    Chunker.ChunksRoundTrip(text);
    Chunker.ChunksNonEmpty(text);
    Chunker.ChunksBounded(text);
    Text.Utf16LenBounds(text);
    Chunker.FlattenSingleton(cs);
  }
}
