/**
 * The server's per-connection handler (`handle_connection`): a greeting, then
 * one pass of the receive loop per inbound frame, dispatching on its
 * `action`. Speech and model output are what `transcribe_audio` and
 * `generate_response` make of the reads and the stream each turn supplies.
 */
module WebsocketUtils {
  import opened Wrappers
  import opened Strings
  import opened Protocol
  import opened AudioUtils
  import opened LlmUtils

  const Welcome := "Connected to AI assistant server"
  const VoiceStart := "Starting voice recognition..."
  const SessionEnded := "🛑 Session ended"
  const EmptyText := "Empty text input"
  const ServerPrefix := "Server Error: "

  /** The model's stream for one generation. */
  datatype Reply = Reply(pieces: seq<string>, end: StreamEnd)

  /**
   * One pass of the receive loop: the inbound payload, and what the
   * microphone and the model produce if the pass asks for them.
   */
  datatype Turn = Turn(received: Received, speech: seq<AudioEvent>, reply: Reply)

  /** An entry of `conversation_history`. */
  datatype Entry = Entry(role: string, content: string)

  /**
   * How the handler ends: `exit`, the spoken stop command, an exception sent
   * back as "Server Error", a `TimeoutError` out of `generate_response`, which
   * the `except asyncio.TimeoutError` handler takes without sending anything,
   * the loop still waiting for a frame when the turns
   * run out (the client closes or `recv` times out, and neither sends a
   * frame), or the speech loop still reading when its reads run out.
   */
  datatype Close = Exited | Ended | ServerError(message: string) | TimedOutReply | Waiting | StillListening

  datatype Session = Session(frames: seq<ServerFrame>, history: seq<Entry>, close: Close)

  /** One pass: go on with these frames sent and this history, or end the handler. */
  datatype Step = Continue(frames: seq<ServerFrame>, history: seq<Entry>) | Stop(session: Session)

  /** The lower-cased transcript is exactly one of the stop commands. */
  predicate IsStopCommand(transcript: string) {
    Lower(transcript) in {"stop", "berhenti", "exit"}
  }

  /** The generic `except Exception` handler: one "Server Error" frame after what was already sent. */
  function Fail(sent: seq<ServerFrame>, history: seq<Entry>, message: string): Step {
    Stop(Session(sent + [ErrorMsg(ServerPrefix + message)], history, ServerError(message)))
  }

  /** An accepted input: appended to the history as a user entry, then answered. */
  function Answer(sent: seq<ServerFrame>, input: string, reply: Reply, history: seq<Entry>): Step {
    var h := history + [Entry("user", input)];
    var g := Generate(input, reply.pieces, reply.end);
    match g.outcome
    case Raised(m) => Fail(sent + g.frames, h, m)
    case TimedOut(_) => Stop(Session(sent + g.frames, h, TimedOutReply))
    case Returned(_) => Continue(sent + g.frames, h)
  }

  /** One pass of the receive loop. */
  function HandleTurn(t: Turn, history: seq<Entry>): Step {
    match t.received
    case Undecodable(reason) => Fail([], history, reason)
    case Received(None, _) => Fail([], history, "'action'")
    case Received(Some(action), text) =>
      if action == "start_listening" then
        var heard := Listen(t.speech, Start);
        var sent := [StatusMsg(VoiceStart)] + heard.frames;
        match heard.ending
        case ReadFailed(m) => Fail(sent, history, m)
        case Exhausted => Stop(Session(sent, history, StillListening))
        case _ =>
          if IsStopCommand(heard.text) then Stop(Session(sent + [StatusMsg(SessionEnded)], history, Ended))
          else Answer(sent, heard.text, t.reply, history)
      else if action == "send_text" then
        match text
        case None => Fail([], history, "'text'")
        case Some(s) =>
          if Trim(s) == [] then Continue([ErrorMsg(EmptyText)], history)
          else Answer([], Trim(s), t.reply, history)
      else if action == "exit" then Stop(Session([], history, Exited))
      else Continue([], history)
  }

  function Then(sent: seq<ServerFrame>, s: Session): Session {
    Session(sent + s.frames, s.history, s.close)
  }

  /** The receive loop over the remaining turns. */
  function Loop(turns: seq<Turn>, history: seq<Entry>): Session
    decreases |turns|
  {
    if turns == [] then Session([], history, Waiting)
    else
      match HandleTurn(turns[0], history)
      case Stop(s) => s
      case Continue(sent, h) => Then(sent, Loop(turns[1..], h))
  }

  /** One pass of the loop, as seen from the session. */
  lemma LoopUnfold(turns: seq<Turn>, history: seq<Entry>)
    requires turns != []
    ensures HandleTurn(turns[0], history).Stop? ==> Loop(turns, history) == HandleTurn(turns[0], history).session
    ensures HandleTurn(turns[0], history).Continue? ==>
      Loop(turns, history) == Then(HandleTurn(turns[0], history).frames, Loop(turns[1..], HandleTurn(turns[0], history).history))
  {
  }

  /** `handle_connection`: the greeting, then the loop with an empty history. */
  function Serve(turns: seq<Turn>): Session {
    Then([StatusMsg(Welcome)], Loop(turns, []))
  }

  /** An accepted input: the history entry, then `generate_response`. */
  method AnswerInput(sent: seq<ServerFrame>, input: string, reply: Reply, history: seq<Entry>) returns (step: Step)
    ensures step == Answer(sent, input, reply, history)
  {
    var h := history + [Entry("user", input)];
    var frames, outcome := GenerateResponse(input, reply.pieces, reply.end);
    if outcome.Raised? {
      step := Stop(Session(sent + frames + [ErrorMsg(ServerPrefix + outcome.message)], h, ServerError(outcome.message)));
    } else if outcome.TimedOut? {
      step := Stop(Session(sent + frames, h, TimedOutReply));
    } else {
      step := Continue(sent + frames, h);
    }
  }

  /** One pass of the loop body, dispatching on `data['action']`. */
  method ServeTurn(t: Turn, history: seq<Entry>) returns (step: Step)
    ensures step == HandleTurn(t, history)
  {
    match t.received {
      case Undecodable(reason) =>
        step := Fail([], history, reason);
      case Received(None, _) =>
        step := Fail([], history, "'action'");
      case Received(Some(action), text) =>
        if action == "start_listening" {
          var heard, ending, transcript := TranscribeAudio(t.speech);
          var sent := [StatusMsg(VoiceStart)] + heard;
          if ending.ReadFailed? {
            step := Fail(sent, history, ending.message);
          } else if ending.Exhausted? {
            step := Stop(Session(sent, history, StillListening));
          } else if IsStopCommand(transcript) {
            step := Stop(Session(sent + [StatusMsg(SessionEnded)], history, Ended));
          } else {
            step := AnswerInput(sent, transcript, t.reply, history);
          }
        } else if action == "send_text" {
          if text.None? {
            step := Fail([], history, "'text'");
          } else {
            var input := Trim(text.value);
            if input == [] {
              step := Continue([ErrorMsg(EmptyText)], history);
            } else {
              step := AnswerInput([], input, t.reply, history);
            }
          }
        } else if action == "exit" {
          step := Stop(Session([], history, Exited));
        } else {
          step := Continue([], history);
        }
    }
  }

  /** Pass `i` of the loop, as seen from the session of the remaining turns. */
  lemma LoopAt(turns: seq<Turn>, i: nat, history: seq<Entry>)
    requires i < |turns|
    ensures var step := HandleTurn(turns[i], history);
      && (step.Stop? ==> Loop(turns[i..], history) == step.session)
      && (step.Continue? ==> Loop(turns[i..], history) == Then(step.frames, Loop(turns[i + 1..], step.history)))
  {
    assert turns[i..][0] == turns[i];
    assert turns[i..][1..] == turns[i + 1..];
    LoopUnfold(turns[i..], history);
  }

  lemma ThenThen(a: seq<ServerFrame>, b: seq<ServerFrame>, s: Session)
    ensures Then(a, Then(b, s)) == Then(a + b, s)
  {
    assert a + (b + s.frames) == (a + b) + s.frames;
  }

  /** `handle_connection`: the greeting, then the receive loop until a pass ends it. */
  method HandleConnection(turns: seq<Turn>) returns (frames: seq<ServerFrame>, history: seq<Entry>, close: Close)
    ensures Session(frames, history, close) == Serve(turns)
    ensures frames != [] && frames[0] == StatusMsg(Welcome)
  {
    frames, history := [StatusMsg(Welcome)], [];
    var i := 0;
    while i < |turns|
      invariant 0 <= i <= |turns|
      invariant frames != [] && frames[0] == StatusMsg(Welcome)
      invariant Serve(turns) == Then(frames, Loop(turns[i..], history))
    {
      var step := ServeTurn(turns[i], history);
      LoopAt(turns, i, history);
      match step {
        case Stop(s) =>
          frames, history, close := frames + s.frames, s.history, s.close;
          return;
        case Continue(sent, h) =>
          ThenThen(frames, sent, Loop(turns[i + 1..], h));
          frames, history := frames + sent, h;
      }
      i := i + 1;
    }
    assert frames + [] == frames;
    close := Waiting;
  }

  // ---------------------------------------------------------------------------
  // The history

  /** A history entry as the handler writes it: role "user", content already stripped. */
  predicate UserEntry(e: Entry) {
    e.role == "user" && Trim(e.content) == e.content
  }

  predicate UserEntries(h: seq<Entry>) {
    forall i :: 0 <= i < |h| ==> UserEntry(h[i])
  }

  function StepHistory(step: Step): seq<Entry> {
    match step
    case Continue(_, h) => h
    case Stop(s) => s.history
  }

  function StepFrames(step: Step): seq<ServerFrame> {
    match step
    case Continue(fs, _) => fs
    case Stop(s) => s.frames
  }

  /** A frame that only a call of `generate_response` sends, and every call sends one. */
  predicate StartsGeneration(f: ServerFrame) {
    f == StatusMsg(Processing) || f == ErrorMsg(EmptyPrompt)
  }

  function Generations(frames: seq<ServerFrame>): nat
    decreases |frames|
  {
    if frames == [] then 0 else (if StartsGeneration(frames[0]) then 1 else 0) + Generations(frames[1..])
  }

  lemma {:induction false} GenerationsAppend(a: seq<ServerFrame>, b: seq<ServerFrame>)
    ensures Generations(a + b) == Generations(a) + Generations(b)
    decreases |a|
  {
    if a == [] {
      assert a + b == b;
    } else {
      assert (a + b)[1..] == a[1..] + b;
      GenerationsAppend(a[1..], b);
    }
  }

  lemma {:induction false} NoGenerations(frames: seq<ServerFrame>)
    requires forall i :: 0 <= i < |frames| ==> !StartsGeneration(frames[i])
    ensures Generations(frames) == 0
    decreases |frames|
  {
    if frames != [] {
      NoGenerations(frames[1..]);
    }
  }

  /** An `error` frame whose message starts with "Server Error: ". */
  predicate IsServerError(f: ServerFrame) {
    f.ErrorMsg? && StartsWith(f.message, ServerPrefix)
  }

  predicate NoServerError(frames: seq<ServerFrame>) {
    forall i :: 0 <= i < |frames| ==> !IsServerError(frames[i])
  }

  lemma NotServerText(m: string)
    requires m != [] && m[0] != 'S'
    ensures !StartsWith(m, ServerPrefix)
  {
    if |ServerPrefix| <= |m| {
      assert m[..|ServerPrefix|][0] == m[0];
    }
  }

  /** A reply holds exactly one generation start and no "Server Error" frame. */
  lemma GenerationFrames(input: string, reply: Reply)
    ensures var g := Generate(input, reply.pieces, reply.end);
      Generations(g.frames) == 1 && NoServerError(g.frames)
  {
    var g := Generate(input, reply.pieces, reply.end);
    NotServerText(EmptyPrompt);
    if IsBlank(input) {
      assert g.frames == [ErrorMsg(EmptyPrompt)];
      assert g.frames[1..] == [];
    } else {
      var full := Concat(reply.pieces);
      var c := Closing(full, reply.end);
      assert forall i :: 0 <= i < |c.frames| ==> !StartsGeneration(c.frames[i]) && !IsServerError(c.frames[i]) by {
        match reply.end
        case Finished(e) =>
          assert (TimingPrefix + e + "s")[0] != Processing[0];
        case Failed(ResponseError(e, m)) =>
          NotServerText("LLM Error: " + e);
          NotServerText("Generation Error: " + m);
          assert ("LLM Error: " + e)[0] != EmptyPrompt[0];
          assert ("Generation Error: " + m)[0] != EmptyPrompt[0];
        case Failed(Timeout(m)) =>
          NotServerText("Generation Error: " + m);
          assert ("Generation Error: " + m)[0] != EmptyPrompt[0];
        case Failed(OtherError(m)) =>
          NotServerText("Generation Error: " + m);
          assert ("Generation Error: " + m)[0] != EmptyPrompt[0];
      }
      NoGenerations(c.frames);
      NoGenerations(Chunks(full));
      GenerationsAppend([StatusMsg(Processing)] + Chunks(full), c.frames);
      GenerationsAppend([StatusMsg(Processing)], Chunks(full));
      assert Generations([StatusMsg(Processing)]) == 1;
    }
  }

  /** The speech frames hold no generation start and no "Server Error" frame. */
  lemma SpeechFrames(speech: seq<AudioEvent>)
    ensures var fs := [StatusMsg(VoiceStart)] + Listen(speech, Start).frames;
      Generations(fs) == 0 && NoServerError(fs)
  {
    var fs := [StatusMsg(VoiceStart)] + Listen(speech, Start).frames;
    ListenFrameKinds(speech, Start);
    assert VoiceStart[0] != Processing[0];
    assert forall i :: 0 < i < |fs| ==> fs[i] == Listen(speech, Start).frames[i - 1];
    NoGenerations(fs);
  }

  /**
   * One pass adds at most one history entry, a stripped user entry, and
   * exactly when it starts a generation; the only "Server Error" frame it can
   * send is its last one, exactly when it ends the handler with an error.
   */
  predicate StepShape(step: Step, history: seq<Entry>) {
    && (StepHistory(step) == history || (|StepHistory(step)| == |history| + 1
        && StepHistory(step)[..|history|] == history && UserEntry(StepHistory(step)[|history|])))
    && Generations(StepFrames(step)) + |history| == |StepHistory(step)|
    && (if step.Stop? && step.session.close.ServerError? then
          var fs := step.session.frames;
          fs != [] && fs[|fs| - 1] == ErrorMsg(ServerPrefix + step.session.close.message)
          && NoServerError(fs[..|fs| - 1])
        else NoServerError(StepFrames(step)))
  }

  lemma {:induction false} TurnShape(t: Turn, history: seq<Entry>)
    ensures StepShape(HandleTurn(t, history), history)
  {
    match t.received
    case Undecodable(reason) =>
      FailShape([], history, reason);
    case Received(None, _) =>
      FailShape([], history, "'action'");
    case Received(Some(action), text) =>
      if action == "start_listening" {
        VoiceShape(t, history);
      } else if action == "send_text" {
        TextShape(t, history);
      }
  }

  /** The `start_listening` pass keeps the shape. */
  lemma VoiceShape(t: Turn, history: seq<Entry>)
    requires t.received.Received? && t.received.action == Some("start_listening")
    ensures StepShape(HandleTurn(t, history), history)
  {
    var heard := Listen(t.speech, Start);
    var sent := [StatusMsg(VoiceStart)] + heard.frames;
    SpeechFrames(t.speech);
    match heard.ending
    case ReadFailed(m) =>
      FailShape(sent, history, m);
    case Exhausted =>
    case _ =>
      if IsStopCommand(heard.text) {
        assert SessionEnded[0] != Processing[0];
        GenerationsAppend(sent, [StatusMsg(SessionEnded)]);
        assert Generations([StatusMsg(SessionEnded)]) == 0;
        NoServerErrorAppend(sent, StatusMsg(SessionEnded));
      } else {
        TranscriptIsJoinedFinals(t.speech);
        TrimOfTrimmed(heard.text);
        AnswerShape(sent, heard.text, t.reply, history);
      }
  }

  /** The `send_text` pass keeps the shape. */
  lemma TextShape(t: Turn, history: seq<Entry>)
    requires t.received.Received? && t.received.action == Some("send_text")
    ensures StepShape(HandleTurn(t, history), history)
  {
    match t.received.text
    case None =>
      FailShape([], history, "'text'");
    case Some(s) =>
      if Trim(s) == [] {
        NotServerText(EmptyText);
        assert Generations([ErrorMsg(EmptyText)]) == 0;
      } else {
        TrimOfTrimmed(Trim(s));
        AnswerShape([], Trim(s), t.reply, history);
      }
  }

  lemma NoServerErrorAppend(fs: seq<ServerFrame>, f: ServerFrame)
    requires NoServerError(fs) && !IsServerError(f)
    ensures NoServerError(fs + [f])
  {
  }

  lemma FailShape(sent: seq<ServerFrame>, history: seq<Entry>, message: string)
    ensures var fs := Fail(sent, history, message).session.frames;
      && Generations(fs) == Generations(sent)
      && fs[..|fs| - 1] == sent
  {
    var fs := Fail(sent, history, message).session.frames;
    assert (ServerPrefix + message)[0] != EmptyPrompt[0];
    GenerationsAppend(sent, [ErrorMsg(ServerPrefix + message)]);
    assert Generations([ErrorMsg(ServerPrefix + message)]) == 0;
  }

  lemma AnswerShape(sent: seq<ServerFrame>, input: string, reply: Reply, history: seq<Entry>)
    requires Generations(sent) == 0 && NoServerError(sent)
    requires Trim(input) == input
    ensures var step := Answer(sent, input, reply, history);
      && StepHistory(step) == history + [Entry("user", input)]
      && Generations(StepFrames(step)) == 1
      && (step.Stop? ==> step.session.close.ServerError? || step.session.close == TimedOutReply)
      && (if step.Stop? && step.session.close.ServerError? then
            var fs := step.session.frames;
            fs != [] && fs[|fs| - 1] == ErrorMsg(ServerPrefix + step.session.close.message)
            && NoServerError(fs[..|fs| - 1])
          else NoServerError(StepFrames(step)))
  {
    var g := Generate(input, reply.pieces, reply.end);
    GenerationFrames(input, reply);
    GenerationsAppend(sent, g.frames);
    if g.outcome.Raised? {
      FailShape(sent + g.frames, history + [Entry("user", input)], g.outcome.message);
    }
  }

  /** What a session's frames say about how it closed. */
  predicate ErrorsAtClose(s: Session) {
    if s.close.ServerError? then
      s.frames != [] && s.frames[|s.frames| - 1] == ErrorMsg(ServerPrefix + s.close.message)
      && NoServerError(s.frames[..|s.frames| - 1])
    else NoServerError(s.frames)
  }

  /** The history only grows, and only by stripped user entries. */
  lemma {:induction false} LoopHistory(turns: seq<Turn>, history: seq<Entry>)
    requires UserEntries(history)
    ensures UserEntries(Loop(turns, history).history)
    decreases |turns|
  {
    if turns != [] {
      var step := HandleTurn(turns[0], history);
      TurnHistory(turns[0], history);
      LoopUnfold(turns, history);
      if step.Continue? {
        LoopHistory(turns[1..], step.history);
      }
    }
  }

  /** One pass keeps every history entry a stripped user entry. */
  lemma TurnHistory(t: Turn, history: seq<Entry>)
    requires UserEntries(history)
    ensures UserEntries(StepHistory(HandleTurn(t, history)))
  {
    TurnShape(t, history);
    var h := StepHistory(HandleTurn(t, history));
    forall i | 0 <= i < |h| ensures UserEntry(h[i]) {
      if h != history && i < |history| { assert h[i] == h[..|history|][i]; }
    }
  }

  /** One history entry per generation start. */
  lemma {:induction false} LoopGenerations(turns: seq<Turn>, history: seq<Entry>)
    ensures Generations(Loop(turns, history).frames) + |history| == |Loop(turns, history).history|
    decreases |turns|
  {
    if turns == [] {
      assert Loop(turns, history).frames == [];
    } else {
      var step := HandleTurn(turns[0], history);
      TurnShape(turns[0], history);
      LoopUnfold(turns, history);
      if step.Continue? {
        LoopGenerations(turns[1..], step.history);
        GenerationsAppend(step.frames, Loop(turns[1..], step.history).frames);
      }
    }
  }

  /** "Server Error" frames come only last, at an exception. */
  lemma {:induction false} LoopErrors(turns: seq<Turn>, history: seq<Entry>)
    ensures ErrorsAtClose(Loop(turns, history))
    decreases |turns|
  {
    if turns == [] {
      assert Loop(turns, history).frames == [];
    } else {
      var step := HandleTurn(turns[0], history);
      TurnShape(turns[0], history);
      LoopUnfold(turns, history);
      if step.Continue? {
        var sent := step.frames;
        var rest := Loop(turns[1..], step.history);
        LoopErrors(turns[1..], step.history);
        PrefixKeepsErrors(sent, rest);
      }
    }
  }

  lemma PrefixKeepsErrors(sent: seq<ServerFrame>, rest: Session)
    requires NoServerError(sent) && ErrorsAtClose(rest)
    ensures ErrorsAtClose(Then(sent, rest))
  {
    var fs := sent + rest.frames;
    if rest.close.ServerError? {
      assert fs[..|fs| - 1] == sent + rest.frames[..|rest.frames| - 1];
      assert fs[|fs| - 1] == rest.frames[|rest.frames| - 1];
      var pre := rest.frames[..|rest.frames| - 1];
      assert forall i :: |sent| <= i < |sent + pre| ==> (sent + pre)[i] == pre[i - |sent|];
    } else {
      assert forall i :: |sent| <= i < |fs| ==> fs[i] == rest.frames[i - |sent|];
    }
  }

  /**
   * Over a whole connection: every history entry is a stripped user input
   * and there are no assistant entries; there is one entry per call of
   * `generate_response`; and a "Server Error" frame is sent only as the last
   * frame, exactly when the handler ends through `except Exception`.
   */
  lemma SessionShape(turns: seq<Turn>)
    ensures var s := Serve(turns);
      && (forall i :: 0 <= i < |s.history| ==> UserEntry(s.history[i]))
      && Generations(s.frames) == |s.history|
      && ErrorsAtClose(s)
  {
    var rest := Loop(turns, []);
    LoopHistory(turns, []);
    LoopGenerations(turns, []);
    LoopErrors(turns, []);
    GenerationsAppend([StatusMsg(Welcome)], rest.frames);
    assert Welcome[0] != Processing[0];
    assert Generations([StatusMsg(Welcome)]) == 0;
    NotServerText(Welcome);
    PrefixKeepsErrors([StatusMsg(Welcome)], rest);
  }

  // ---------------------------------------------------------------------------
  // Single passes

  /** `send_text` with text that strips to nothing: one error frame, no generation, and the loop goes on. */
  lemma EmptyTextContinues(t: Turn, history: seq<Entry>, s: string)
    requires t.received == Received(Some("send_text"), Some(s)) && IsBlank(s)
    ensures HandleTurn(t, history) == Continue([ErrorMsg(EmptyText)], history)
  {
  }

  /** `exit` ends the handler without a frame; any other action is ignored. */
  lemma ExitAndUnknownActions(t: Turn, history: seq<Entry>)
    requires t.received.Received? && t.received.action.Some?
    ensures t.received.action.value == "exit" ==> HandleTurn(t, history) == Stop(Session([], history, Exited))
    ensures t.received.action.value !in {"start_listening", "send_text", "exit"} ==>
      HandleTurn(t, history) == Continue([], history)
  {
  }

  /**
   * `start_listening`: the voice status comes before every speech frame; an
   * exact stop command ends the session with "🛑 Session ended" and is kept
   * out of the history.
   */
  lemma VoiceTurn(t: Turn, history: seq<Entry>)
    requires t.received == Encode(StartListening)
    ensures var heard := Listen(t.speech, Start);
      var step := HandleTurn(t, history);
      && StepFrames(step)[..1 + |heard.frames|] == [StatusMsg(VoiceStart)] + heard.frames
      && ((heard.ending.StopWord? || heard.ending.Silence?) && IsStopCommand(heard.text) ==>
            step == Stop(Session([StatusMsg(VoiceStart)] + heard.frames + [StatusMsg(SessionEnded)], history, Ended)))
  {
    var heard := Listen(t.speech, Start);
    var sent := [StatusMsg(VoiceStart)] + heard.frames;
    var step := HandleTurn(t, history);
    if !heard.ending.ReadFailed? && !heard.ending.Exhausted? && !IsStopCommand(heard.text) {
      var g := Generate(heard.text, t.reply.pieces, t.reply.end);
      assert StepFrames(step)[..|sent|] == sent by {
        if g.outcome.Raised? {
          assert StepFrames(step) == sent + (g.frames + [ErrorMsg(ServerPrefix + g.outcome.message)]);
        } else {
          assert StepFrames(step) == sent + g.frames;
        }
      }
    } else if heard.ending.ReadFailed? {
      assert StepFrames(step) == sent + [ErrorMsg(ServerPrefix + heard.ending.message)];
    } else if !heard.ending.Exhausted? {
      assert StepFrames(step) == sent + [StatusMsg(SessionEnded)];
    }
  }

  /**
   * The model's 240-second `TimeoutError` passes through `generate_response`
   * after its "Generation Error" frame and is then taken by the handler's
   * `except asyncio.TimeoutError`, the same class: the handler ends with no
   * "Server Error" frame, and the input stays in the history.
   */
  lemma StreamTimeoutEndsQuietly(sent: seq<ServerFrame>, input: string, pieces: seq<string>, history: seq<Entry>)
    requires !IsBlank(input)
    ensures Answer(sent, input, Reply(pieces, Failed(Timeout(StreamTimeout))), history)
      == Stop(Session(
           sent + [StatusMsg(Processing)] + Chunks(Concat(pieces)) + [ErrorMsg("Generation Error: " + StreamTimeout)],
           history + [Entry("user", input)],
           TimedOutReply))
  {
  }

  /** A frame without an `action` key ends the handler with the `KeyError` text. */
  lemma MissingAction(t: Turn, history: seq<Entry>, text: Option<string>)
    requires t.received == Received(None, text)
    ensures HandleTurn(t, history) == Stop(Session([ErrorMsg(ServerPrefix + "'action'")], history, ServerError("'action'")))
  {
  }
}
