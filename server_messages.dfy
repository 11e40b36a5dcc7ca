/**
 * The client's message log and the rules by which each inbound frame changes
 * it (`handleServerMessage` and its handlers).
 *
 * Every handler hands React one or more updaters (`setMessages(prev => ...)`);
 * React runs them in the order they were queued, each on the result of the
 * one before. `Handlers` gives that queue for one frame, `Apply` runs one
 * updater, and `Reduce` runs the whole queue. Each updater builds a new list:
 * it keeps `prev`, replaces only its last element, or appends one element.
 * Ids come from a counter in the log (the source draws a fresh `uuidv4()`);
 * timestamps are not modelled.
 */
module ServerMessages {
  import opened Strings
  import opened Protocol

  /** The `type` of a message: 'user', 'ai', 'status', 'error' or 'partial'. */
  datatype Kind = User | Ai | Status | Error | Partial

  datatype Message = Message(id: nat, text: string, kind: Kind, complete: bool)

  /** The message list together with the next id the counter hands out. */
  datatype Log = Log(messages: seq<Message>, nextId: nat)

  const EmptyLog: Log := Log([], 0)

  /** The text every live-transcription placeholder starts with, and the test for it. */
  const ListeningPrefix: string := "🎤 Listening: "
  const ListeningMarker: string := "🎤 Listening:"
  /** The marker a status text is searched for before the annotation updater is queued. */
  const TimingMarker: string := "Response time"

  /** Every id in the log was handed out by the counter, and no two messages share one. */
  predicate Valid(log: Log) {
    && (forall i :: 0 <= i < |log.messages| ==> log.messages[i].id < log.nextId)
    && (forall i, j :: 0 <= i < j < |log.messages| ==> log.messages[i].id != log.messages[j].id)
  }

  function Last(s: seq<Message>): Message
    requires |s| > 0
  {
    s[|s| - 1]
  }

  function DropLast(s: seq<Message>): seq<Message>
    requires |s| > 0
  {
    s[..|s| - 1]
  }

  /** `after` keeps every element of `before` but perhaps the last, and adds at most one. */
  predicate TailEdit(before: seq<Message>, after: seq<Message>) {
    && |before| <= |after| <= |before| + 1
    && (|after| == |before| + 1 ==> after[..|before|] == before)
    && (|after| == |before| && |before| > 0 ==> after[..|before| - 1] == before[..|before| - 1])
  }

  /** The tail is an `ai` message still being streamed. */
  predicate IsOpenAi(log: Log) {
    |log.messages| > 0 && Last(log.messages).kind == Ai && !Last(log.messages).complete
  }

  /** The tail's text starts with the placeholder marker (a test on the text, not on the type). */
  predicate HasListeningTail(log: Log) {
    |log.messages| > 0 && StartsWith(Last(log.messages).text, ListeningMarker)
  }

  /** The updaters the handlers queue. */
  datatype Updater =
    | Append(text: string, kind: Kind)                           // addMessage
    | AnnotateLastAi(note: string)                               // the 'Response time' updater of handleStatusMessage
    | ReplaceListening(text: string, kind: Kind, complete: bool) // handleTranscription, handlePartialTranscription
    | MarkLastComplete                                           // markLastMessageAsComplete
    | MergeChunk(text: string)                                   // handleResponseChunk

  /** Runs one updater on `prev`. */
  function Apply(log: Log, u: Updater): (r: Log)
    ensures TailEdit(log.messages, r.messages)
    ensures log.nextId <= r.nextId <= log.nextId + 1
    ensures Valid(log) ==> Valid(r)
  {
    var msgs := log.messages;
    var next := log.nextId;
    match u
    case Append(t, k) =>
      Log(msgs + [Message(next, t, k, true)], next + 1)
    case AnnotateLastAi(note) =>
      if |msgs| > 0 && Last(msgs).kind == Ai then
        var m := Last(msgs);
        Log(DropLast(msgs) + [m.(text := m.text + " (" + note + ")", complete := true)], next)
      else log
    case ReplaceListening(t, k, c) =>
      var m := Message(next, t, k, c);
      if HasListeningTail(log) then Log(DropLast(msgs) + [m], next + 1)
      else Log(msgs + [m], next + 1)
    case MarkLastComplete =>
      if |msgs| > 0 && Last(msgs).kind == Ai then
        Log(DropLast(msgs) + [Last(msgs).(complete := true)], next)
      else log
    case MergeChunk(t) =>
      if IsOpenAi(log) then
        var m := Last(msgs);
        Log(DropLast(msgs) + [m.(text := m.text + t, id := next)], next + 1)
      else Log(msgs + [Message(next, t, Ai, false)], next + 1)
  }

  /** `addMessage(text, type)`: one complete message with a fresh id, at the end. */
  function Add(log: Log, text: string, kind: Kind): (r: Log)
    ensures r.messages == log.messages + [Message(log.nextId, text, kind, true)]
    ensures r.nextId == log.nextId + 1
    ensures Valid(log) ==> Valid(r)
  {
    Apply(log, Append(text, kind))
  }

  /** Runs queued updaters in call order. */
  function ApplyAll(log: Log, us: seq<Updater>): (r: Log)
    ensures Valid(log) ==> Valid(r)
    decreases |us|
  {
    if us == [] then log else ApplyAll(Apply(log, us[0]), us[1..])
  }

  /** The updaters `handleServerMessage` queues for one frame, switching on `data.type`. */
  function Handlers(data: Frame): seq<Updater> {
    if data.kind == "status" then
      [Append(data.message, Status)]
      + (if Contains(data.message, TimingMarker) then [AnnotateLastAi(data.message)] else [])
    else if data.kind == "transcription" then
      [ReplaceListening("You: " + data.text, User, true)]
    else if data.kind == "partial_transcription" then
      [ReplaceListening(ListeningPrefix + data.text, Partial, false)]
    else if data.kind == "response_chunk" then
      [MergeChunk(data.text)]
    else if data.kind == "response_complete" then
      [MarkLastComplete]
    else if data.kind == "error" then
      [Append("❌ Error: " + data.message, Error)]
    else
      [Append("Unknown message type: " + data.kind, Error)]
  }

  /** The frame kinds the dispatcher has a case for. */
  predicate KnownKind(kind: string) {
    kind in {"status", "transcription", "partial_transcription", "response_chunk", "response_complete", "error"}
  }

  /** One frame handled: the log after React has run every updater it queued. */
  function Reduce(log: Log, data: Frame): Log {
    ApplyAll(log, Handlers(data))
  }

  /** Frames handled one after the other. */
  function ReduceAll(log: Log, frames: seq<Frame>): Log
    decreases |frames|
  {
    if frames == [] then log else ReduceAll(Reduce(log, frames[0]), frames[1..])
  }

  /** The concatenated `text` fields of a run of frames. */
  function Texts(frames: seq<Frame>): string
    decreases |frames|
  {
    if frames == [] then [] else frames[0].text + Texts(frames[1..])
  }

  // ---------------------------------------------------------------------------
  // Properties of the handlers

  /** Every frame but `status` queues exactly one updater. */
  lemma SingleUpdater(log: Log, data: Frame)
    requires data.kind != "status"
    ensures |Handlers(data)| == 1 && Reduce(log, data) == Apply(log, Handlers(data)[0])
  {
    var u := Handlers(data)[0];
    assert Handlers(data) == [u];
    assert ApplyAll(Apply(log, u), [u][1..]) == Apply(log, u);
  }

  lemma {:induction false} ReduceAllAppend(log: Log, a: seq<Frame>, b: seq<Frame>)
    ensures ReduceAll(log, a + b) == ReduceAll(ReduceAll(log, a), b)
    decreases |a|
  {
    if a != [] {
      assert (a + b)[1..] == a[1..] + b;
      ReduceAllAppend(Reduce(log, a[0]), a[1..], b);
    } else {
      assert a + b == b;
    }
  }

  /** Handling any frame keeps ids unique. */
  lemma ReduceKeepsValid(log: Log, data: Frame)
    requires Valid(log)
    ensures Valid(Reduce(log, data))
  {
  }

  /**
   * A status frame adds exactly its own message. The annotation updater, when
   * the text holds 'Response time', runs after the append and so finds the new
   * status message at the tail, never an `ai` message: it returns `prev`.
   */
  lemma StatusRule(log: Log, data: Frame)
    requires data.kind == "status"
    ensures Reduce(log, data) == Log(log.messages + [Message(log.nextId, data.message, Status, true)], log.nextId + 1)
  {
    var first := Apply(log, Append(data.message, Status));
    assert Last(first.messages).kind == Status;
    if Contains(data.message, TimingMarker) {
      var us := [Append(data.message, Status), AnnotateLastAi(data.message)];
      assert Handlers(data) == us;
      assert us[1..][1..] == [];
      assert Apply(first, AnnotateLastAi(data.message)) == first;
      assert ApplyAll(log, us) == ApplyAll(first, us[1..]);
    } else {
      var us := [Append(data.message, Status)];
      assert Handlers(data) == us;
      assert ApplyAll(log, us) == ApplyAll(first, us[1..]);
    }
  }

  /** Every frame leaves all messages but the last untouched and adds at most one. */
  lemma ReduceEditsTail(log: Log, data: Frame)
    ensures TailEdit(log.messages, Reduce(log, data).messages)
  {
    if data.kind == "status" {
      StatusRule(log, data);
    } else {
      SingleUpdater(log, data);
    }
  }

  /**
   * A chunk that finds an open `ai` message at the tail extends its text and
   * keeps the length, giving the tail a fresh id and copying every other field;
   * otherwise it appends one new open `ai` message holding the chunk.
   */
  lemma ResponseChunkRule(log: Log, data: Frame)
    requires data.kind == "response_chunk"
    ensures var r := Reduce(log, data);
      && r.nextId == log.nextId + 1
      && if IsOpenAi(log) then
           var m := Last(log.messages);
           && |r.messages| == |log.messages|
           && DropLast(r.messages) == DropLast(log.messages)
           && Last(r.messages) == Message(log.nextId, m.text + data.text, Ai, false)
           && (Valid(log) ==> forall i :: 0 <= i < |log.messages| ==> log.messages[i].id != Last(r.messages).id)
         else
           r.messages == log.messages + [Message(log.nextId, data.text, Ai, false)]
  {
    SingleUpdater(log, data);
  }

  lemma ChunkOnOpen(log: Log, data: Frame)
    requires IsOpenAi(log) && data.kind == "response_chunk"
    ensures var r := Reduce(log, data);
      && IsOpenAi(r) && |r.messages| == |log.messages|
      && DropLast(r.messages) == DropLast(log.messages)
      && Last(r.messages).text == Last(log.messages).text + data.text
  {
    SingleUpdater(log, data);
  }

  /** Chunks arriving while the tail is open all land in it, in order. */
  lemma {:induction false} ChunksExtendOpenAi(log: Log, chunks: seq<Frame>)
    requires IsOpenAi(log)
    requires forall i :: 0 <= i < |chunks| ==> chunks[i].kind == "response_chunk"
    ensures var r := ReduceAll(log, chunks);
      && IsOpenAi(r)
      && |r.messages| == |log.messages|
      && DropLast(r.messages) == DropLast(log.messages)
      && Last(r.messages).text == Last(log.messages).text + Texts(chunks)
    decreases |chunks|
  {
    if chunks != [] {
      var next := Reduce(log, chunks[0]);
      ChunkOnOpen(log, chunks[0]);
      ChunksExtendOpenAi(next, chunks[1..]);
      assert ReduceAll(log, chunks) == ReduceAll(next, chunks[1..]);
      assert Texts(chunks) == chunks[0].text + Texts(chunks[1..]);
      assert Last(log.messages).text + Texts(chunks)
          == (Last(log.messages).text + chunks[0].text) + Texts(chunks[1..]);
    } else {
      assert Texts(chunks) == [];
    }
  }

  /**
   * `response_complete` changes only the `complete` flag of an `ai` tail and
   * nothing else; it does nothing when the log is empty or the tail is not
   * `ai`; and a second one changes nothing more.
   */
  lemma ResponseCompleteRule(log: Log, data: Frame)
    requires data.kind == "response_complete"
    ensures var r := Reduce(log, data);
      && r.nextId == log.nextId
      && (if |log.messages| > 0 && Last(log.messages).kind == Ai
          then r.messages == DropLast(log.messages) + [Last(log.messages).(complete := true)]
          else r == log)
      && Reduce(r, data) == r
  {
    SingleUpdater(log, data);
    var r := Reduce(log, data);
    SingleUpdater(r, data);
  }

  /**
   * A streamed turn: chunks c1..cn that do not find an open `ai` tail,
   * followed by `response_complete`, add exactly one message: an `ai` message
   * whose text is c1 ++ ... ++ cn, marked complete.
   */
  lemma {:induction false} StreamedTurn(log: Log, chunks: seq<Frame>, done: Frame)
    requires !IsOpenAi(log)
    requires |chunks| > 0
    requires forall i :: 0 <= i < |chunks| ==> chunks[i].kind == "response_chunk"
    requires done.kind == "response_complete"
    ensures var r := ReduceAll(log, chunks + [done]);
      && |r.messages| == |log.messages| + 1
      && r.messages[..|log.messages|] == log.messages
      && Last(r.messages).kind == Ai
      && Last(r.messages).complete
      && Last(r.messages).text == Texts(chunks)
  {
    var first := Reduce(log, chunks[0]);
    ResponseChunkRule(log, chunks[0]);
    assert first.messages == log.messages + [Message(log.nextId, chunks[0].text, Ai, false)];
    ChunksExtendOpenAi(first, chunks[1..]);
    var streamed := ReduceAll(first, chunks[1..]);
    assert ReduceAll(log, chunks) == streamed;
    ReduceAllAppend(log, chunks, [done]);
    var r := Reduce(streamed, done);
    ResponseCompleteRule(streamed, done);
    assert ReduceAll(streamed, [done]) == r;
    assert DropLast(streamed.messages) == log.messages;
    assert Texts(chunks) == chunks[0].text + Texts(chunks[1..]);
    assert r.messages[..|log.messages|] == DropLast(r.messages);
  }

  /**
   * `transcription` replaces the tail when the tail's text starts with the
   * placeholder marker and appends otherwise; the new message is always a
   * complete `user` message reading "You: " ++ text.
   */
  lemma TranscriptionRule(log: Log, data: Frame)
    requires data.kind == "transcription"
    ensures Reduce(log, data).messages
         == (if HasListeningTail(log) then DropLast(log.messages) else log.messages)
            + [Message(log.nextId, "You: " + data.text, User, true)]
  {
    SingleUpdater(log, data);
  }

  lemma ListeningPrefixIsMarked(t: string)
    ensures StartsWith(ListeningPrefix + t, ListeningMarker)
  {
    assert (ListeningPrefix + t)[..|ListeningMarker|] == ListeningPrefix[..|ListeningMarker|];
  }

  /**
   * A run of `partial_transcription` frames grows the log by at most one
   * message (none when the tail already is a placeholder), leaves everything
   * before the tail alone, and ends with one open `partial` message showing
   * the last partial text.
   */
  lemma {:induction false} PartialCollapse(log: Log, partials: seq<Frame>)
    requires |partials| > 0
    requires forall i :: 0 <= i < |partials| ==> partials[i].kind == "partial_transcription"
    ensures var r := ReduceAll(log, partials);
      && |r.messages| == |log.messages| + (if HasListeningTail(log) then 0 else 1)
      && r.messages[..|r.messages| - 1] == log.messages[..|r.messages| - 1]
      && Last(r.messages).kind == Partial
      && !Last(r.messages).complete
      && Last(r.messages).text == ListeningPrefix + partials[|partials| - 1].text
      && HasListeningTail(r)
    decreases |partials|
  {
    var next := Reduce(log, partials[0]);
    SingleUpdater(log, partials[0]);
    ListeningPrefixIsMarked(partials[0].text);
    assert Last(next.messages).text == ListeningPrefix + partials[0].text;
    assert HasListeningTail(next);
    if |partials| > 1 {
      PartialCollapse(next, partials[1..]);
    }
  }

  /**
   * Partials followed by the final transcription leave no placeholder
   * behind: the log grows by at most one and ends with the `user` message.
   */
  lemma PartialsThenFinal(log: Log, partials: seq<Frame>, final: Frame)
    requires |partials| > 0
    requires forall i :: 0 <= i < |partials| ==> partials[i].kind == "partial_transcription"
    requires final.kind == "transcription"
    ensures var r := ReduceAll(log, partials + [final]);
      && |r.messages| == |log.messages| + (if HasListeningTail(log) then 0 else 1)
      && r.messages[..|r.messages| - 1] == log.messages[..|r.messages| - 1]
      && Last(r.messages).kind == User
      && Last(r.messages).complete
      && Last(r.messages).text == "You: " + final.text
  {
    PartialCollapse(log, partials);
    var mid := ReduceAll(log, partials);
    ReduceAllAppend(log, partials, [final]);
    TranscriptionRule(mid, final);
    assert ReduceAll(mid, [final]) == Reduce(mid, final) by {
      assert [final][1..] == [];
    }
  }

  /** An `error` frame appends exactly one `error` message and touches nothing else. */
  lemma ErrorRule(log: Log, data: Frame)
    requires data.kind == "error"
    ensures Reduce(log, data) == Log(log.messages + [Message(log.nextId, "❌ Error: " + data.message, Error, true)], log.nextId + 1)
  {
    SingleUpdater(log, data);
  }

  /** A frame of any other type appends exactly one `error` message naming that type. */
  lemma UnknownRule(log: Log, data: Frame)
    requires !KnownKind(data.kind)
    ensures Reduce(log, data) == Log(log.messages + [Message(log.nextId, "Unknown message type: " + data.kind, Error, true)], log.nextId + 1)
  {
    SingleUpdater(log, data);
  }

  /**
   * The placeholder test looks at the text only: a typed `user` message that
   * happens to start with the marker is replaced by the next partial.
   */
  lemma TypedMarkerIsReplaced()
    ensures var log := Log([Message(0, "🎤 Listening: hi", User, true)], 1);
      Reduce(log, Frame("partial_transcription", "", "x", "")).messages
        == [Message(1, "🎤 Listening: x", Partial, false)]
  {
    var log := Log([Message(0, "🎤 Listening: hi", User, true)], 1);
    var data := Frame("partial_transcription", "", "x", "");
    ListeningPrefixIsMarked("hi");
    assert ListeningPrefix + "hi" == "🎤 Listening: hi";
    assert HasListeningTail(log);
    SingleUpdater(log, data);
    assert ListeningPrefix + "x" == "🎤 Listening: x";
  }

  /**
   * An open `ai` message is not always the tail: an error between two streamed
   * turns leaves the first turn's message open for good.
   */
  lemma OpenAiCanBeStranded()
    ensures var r := ReduceAll(EmptyLog, [
        Frame("response_chunk", "", "a", ""),
        Frame("error", "x", "", ""),
        Frame("response_chunk", "", "b", "")]);
      && |r.messages| == 3
      && r.messages[0].kind == Ai && !r.messages[0].complete
      && r.messages[2].kind == Ai && !r.messages[2].complete
  {
    var f0, f1, f2 := Frame("response_chunk", "", "a", ""), Frame("error", "x", "", ""), Frame("response_chunk", "", "b", "");
    var l1 := Reduce(EmptyLog, f0);
    ResponseChunkRule(EmptyLog, f0);
    var l2 := Reduce(l1, f1);
    ErrorRule(l1, f1);
    var l3 := Reduce(l2, f2);
    ResponseChunkRule(l2, f2);
    assert [f0, f1, f2][1..] == [f1, f2];
    assert [f1, f2][1..] == [f2];
    assert [f2][1..] == [];
    assert ReduceAll(EmptyLog, [f0, f1, f2]) == ReduceAll(l1, [f1, f2]) == ReduceAll(l2, [f2]) == l3;
  }
}
