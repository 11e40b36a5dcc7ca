/**
 * A reply end to end: the frames `generate_response` sends, read by the
 * client (`JSON.parse` of each frame) and folded into the message log by the
 * frame handlers.
 */
module Pipeline {
  import opened Strings
  import opened Protocol
  import opened ServerMessages
  import opened LlmUtils

  lemma ToWireAllAppend(a: seq<ServerFrame>, b: seq<ServerFrame>)
    ensures ToWireAll(a + b) == ToWireAll(a) + ToWireAll(b)
  {
  }

  /** The chunk frames of a response, as the client reads them: all `response_chunk`, texts giving back the response. */
  lemma {:induction false} ChunksOnWire(s: string)
    ensures forall i :: 0 <= i < |ToWireAll(Chunks(s))| ==> ToWireAll(Chunks(s))[i].kind == "response_chunk"
    ensures Texts(ToWireAll(Chunks(s))) == s
    decreases |s|
  {
    var w := ToWireAll(Chunks(s));
    if s != [] {
      ChunksOnWire(s[1..]);
      assert w == [ToWire(ChunkMsg([s[0]]))] + ToWireAll(Chunks(s[1..]));
      assert w[1..] == ToWireAll(Chunks(s[1..]));
      assert s == [s[0]] + s[1..];
    } else {
      assert w == [];
    }
  }

  lemma ReduceOne(log: Log, f: Frame)
    ensures ReduceAll(log, [f]) == Reduce(log, f)
  {
    assert [f][1..] == [];
  }

  /** The chunks and `response_complete`, from a tail that is not an open `ai` message. */
  lemma {:induction false} StreamPart(l1: Log, wc: seq<Frame>, wd: Frame)
    requires !IsOpenAi(l1) && |l1.messages| > 0 && Last(l1.messages).kind != Ai
    requires forall i :: 0 <= i < |wc| ==> wc[i].kind == "response_chunk"
    requires wd.kind == "response_complete"
    ensures var l2 := ReduceAll(l1, wc + [wd]);
      && |l2.messages| == |l1.messages| + (if wc == [] then 0 else 1)
      && l2.messages[..|l1.messages|] == l1.messages
      && (wc != [] ==> Last(l2.messages).kind == Ai && Last(l2.messages).text == Texts(wc) && Last(l2.messages).complete)
  {
    var l2 := ReduceAll(l1, wc + [wd]);
    if wc == [] {
      assert wc + [wd] == [wd];
      ReduceOne(l1, wd);
      ResponseCompleteRule(l1, wd);
    } else {
      StreamedTurn(l1, wc, wd);
    }
  }

  /** The client's fold over a reply: status, chunks, `response_complete`, status. */
  lemma {:induction false} FoldReply(log: Log, ws: Frame, wc: seq<Frame>, wd: Frame, wt: Frame)
    requires ws.kind == "status" && wt.kind == "status" && wd.kind == "response_complete"
    requires forall i :: 0 <= i < |wc| ==> wc[i].kind == "response_chunk"
    ensures var r := ReduceAll(log, [ws] + (wc + [wd]) + [wt]);
      var n := |log.messages|;
      && |r.messages| == n + (if wc == [] then 2 else 3)
      && r.messages[..n] == log.messages
      && r.messages[n] == Message(log.nextId, ws.message, Status, true)
      && (wc != [] ==> r.messages[n + 1].kind == Ai && r.messages[n + 1].text == Texts(wc) && r.messages[n + 1].complete)
      && Last(r.messages).kind == Status && Last(r.messages).text == wt.message
  {
    var n := |log.messages|;
    ReduceAllAppend(log, [ws] + (wc + [wd]), [wt]);
    ReduceAllAppend(log, [ws], wc + [wd]);
    ReduceOne(log, ws);
    StatusRule(log, ws);
    var l1 := Reduce(log, ws);
    StreamPart(l1, wc, wd);
    var l2 := ReduceAll(l1, wc + [wd]);
    ReduceOne(l2, wt);
    StatusRule(l2, wt);
    var r := Reduce(l2, wt);
    assert r.messages[..|l2.messages|] == l2.messages;
    assert l2.messages[..|l1.messages|] == l1.messages;
    assert r.messages[n] == l1.messages[n];
    assert r.messages[..n] == l1.messages[..n] == log.messages;
    if wc != [] {
      assert r.messages[n + 1] == l2.messages[n + 1];
    }
  }

  /**
   * A successful reply to a non-blank prompt adds, after everything already
   * in the log: the processing status; for a non-empty response, one complete
   * `ai` message holding the whole response, unannotated; and the timing
   * status. Nothing already in the log changes.
   */
  lemma ReplyReachesLog(log: Log, prompt: string, pieces: seq<string>, elapsed: string)
    requires !IsBlank(prompt)
    ensures var full := Concat(pieces);
      var r := ReduceAll(log, ToWireAll(Generate(prompt, pieces, Finished(elapsed)).frames));
      var n := |log.messages|;
      && |r.messages| == n + (if full == [] then 2 else 3)
      && r.messages[..n] == log.messages
      && r.messages[n] == Message(log.nextId, Processing, Status, true)
      && (full != [] ==>
            r.messages[n + 1].kind == Ai && r.messages[n + 1].text == full && r.messages[n + 1].complete)
      && Last(r.messages).kind == Status && Last(r.messages).text == TimingPrefix + elapsed + "s"
  {
    var full := Concat(pieces);
    ReplyOnWire(prompt, pieces, elapsed);
    ChunksOnWire(full);
    FoldText(log, full, ToWireAll(Chunks(full)), elapsed);
  }

  /** FoldReply for the frames of a successful reply whose chunks spell `full`. */
  lemma FoldText(log: Log, full: string, wc: seq<Frame>, elapsed: string)
    requires forall i :: 0 <= i < |wc| ==> wc[i].kind == "response_chunk"
    requires Texts(wc) == full && (wc == [] <==> full == [])
    ensures var r := ReduceAll(log, [ToWire(StatusMsg(Processing))] + (wc + [ToWire(CompleteMsg(full))])
                                   + [ToWire(StatusMsg(TimingPrefix + elapsed + "s"))]);
      var n := |log.messages|;
      && |r.messages| == n + (if full == [] then 2 else 3)
      && r.messages[..n] == log.messages
      && r.messages[n] == Message(log.nextId, Processing, Status, true)
      && (full != [] ==>
            r.messages[n + 1].kind == Ai && r.messages[n + 1].text == full && r.messages[n + 1].complete)
      && Last(r.messages).kind == Status && Last(r.messages).text == TimingPrefix + elapsed + "s"
  {
    FoldReply(log, ToWire(StatusMsg(Processing)), wc, ToWire(CompleteMsg(full)), ToWire(StatusMsg(TimingPrefix + elapsed + "s")));
  }

  /** A successful reply as the client reads it: status, chunks, `response_complete`, status. */
  lemma ReplyOnWire(prompt: string, pieces: seq<string>, elapsed: string)
    requires !IsBlank(prompt)
    ensures var full := Concat(pieces);
      ToWireAll(Generate(prompt, pieces, Finished(elapsed)).frames)
        == [ToWire(StatusMsg(Processing))] + (ToWireAll(Chunks(full)) + [ToWire(CompleteMsg(full))])
           + [ToWire(StatusMsg(TimingPrefix + elapsed + "s"))]
  {
    var full := Concat(pieces);
    var s, cs := StatusMsg(Processing), Chunks(full);
    var d, t := CompleteMsg(full), StatusMsg(TimingPrefix + elapsed + "s");
    assert Generate(prompt, pieces, Finished(elapsed)).frames == [s] + (cs + [d]) + [t];
    ToWireAllAppend([s] + (cs + [d]), [t]);
    ToWireAllAppend([s], cs + [d]);
    ToWireAllAppend(cs, [d]);
  }

  /** A blank prompt shows as one error message in the log. */
  lemma BlankPromptReachesLog(log: Log, prompt: string, pieces: seq<string>, end: StreamEnd)
    requires IsBlank(prompt)
    ensures ReduceAll(log, ToWireAll(Generate(prompt, pieces, end).frames))
         == Log(log.messages + [Message(log.nextId, "❌ Error: " + EmptyPrompt, Error, true)], log.nextId + 1)
  {
    var f := ToWire(ErrorMsg(EmptyPrompt));
    assert ToWireAll([ErrorMsg(EmptyPrompt)]) == [f];
    ReduceOne(log, f);
    ErrorRule(log, f);
  }
}
