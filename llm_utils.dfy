/**
 * The server's reply generator (`generate_response`). The model's stream is
 * seen as the `message.content` strings of its chunks followed by how the
 * stream ended; the elapsed time arrives already formatted.
 */
module LlmUtils {
  import opened Strings
  import opened Protocol

  const EmptyPrompt := "Empty prompt received"
  const Processing := "🤖 Processing..."
  const TimingPrefix := "⏱ Response time: "
  /** The text of the `TimeoutError` raised when the stream runs past 240 seconds. */
  const StreamTimeout := "LLM response timeout"

  /**
   * An exception out of the stream: `ollama.ResponseError` (its `error` and
   * its `str`), a builtin `TimeoutError` (the one raised after 240 seconds has
   * the text `StreamTimeout`), or any other.
   */
  datatype Failure = ResponseError(error: string, text: string) | Timeout(text: string) | OtherError(text: string)

  /** How the stream ended: all chunks read (with `f"{elapsed:.2f}"`), or an exception. */
  datatype StreamEnd = Finished(elapsed: string) | Failed(failure: Failure)

  /**
   * What the call does after its frames: returns a text, raises a
   * `TimeoutError`, or raises another exception, each with this `str`.
   */
  datatype Outcome = Returned(text: string) | TimedOut(message: string) | Raised(message: string)

  datatype Generation = Generation(frames: seq<ServerFrame>, outcome: Outcome)

  /** The content pieces one after the other: `full_response`. */
  function Concat(pieces: seq<string>): string
    decreases |pieces|
  {
    if pieces == [] then [] else Concat(pieces[..|pieces| - 1]) + pieces[|pieces| - 1]
  }

  /** One `response_chunk` frame per character, in order. */
  function Chunks(s: string): (r: seq<ServerFrame>)
    ensures |r| == |s| && forall i :: 0 <= i < |s| ==> r[i] == ChunkMsg([s[i]])
  {
    seq(|s|, i requires 0 <= i < |s| => ChunkMsg([s[i]]))
  }

  lemma ChunksAppend(a: string, b: string)
    ensures Chunks(a + b) == Chunks(a) + Chunks(b)
  {
    assert forall i :: |a| <= i < |a + b| ==> (a + b)[i] == b[i - |a|];
  }

  /** The frames the stream ends with, and the outcome. */
  function Closing(full: string, end: StreamEnd): Generation {
    match end
    case Finished(elapsed) =>
      Generation([CompleteMsg(full), StatusMsg(TimingPrefix + elapsed + "s")], Returned(full))
    case Failed(ResponseError(e, s)) =>
      Generation([ErrorMsg("LLM Error: " + e), ErrorMsg("Generation Error: " + s)], Raised(s))
    case Failed(Timeout(s)) =>
      Generation([ErrorMsg("Generation Error: " + s)], TimedOut(s))
    case Failed(OtherError(s)) =>
      Generation([ErrorMsg("Generation Error: " + s)], Raised(s))
  }

  /** `generate_response(prompt)` on the stream `pieces` ended by `end`. */
  function Generate(prompt: string, pieces: seq<string>, end: StreamEnd): Generation {
    if IsBlank(prompt) then Generation([ErrorMsg(EmptyPrompt)], Returned([]))
    else
      var full := Concat(pieces);
      var c := Closing(full, end);
      Generation([StatusMsg(Processing)] + Chunks(full) + c.frames, c.outcome)
  }

  /** The loops over the stream and over each piece's characters, sending as they go. */
  method GenerateResponse(prompt: string, pieces: seq<string>, end: StreamEnd)
    returns (frames: seq<ServerFrame>, outcome: Outcome)
    ensures Generation(frames, outcome) == Generate(prompt, pieces, end)
  {
    if IsBlank(prompt) {
      return [ErrorMsg(EmptyPrompt)], Returned([]);
    }
    frames := [StatusMsg(Processing)];
    var full := "";
    var i := 0;
    while i < |pieces|
      invariant 0 <= i <= |pieces|
      invariant full == Concat(pieces[..i])
      invariant frames == [StatusMsg(Processing)] + Chunks(full)
    {
      var content := pieces[i];
      assert pieces[..i + 1][..i] == pieces[..i];
      ghost var before := full;
      full := full + content;
      var j := 0;
      while j < |content|
        invariant 0 <= j <= |content|
        invariant frames == [StatusMsg(Processing)] + Chunks(before + content[..j])
      {
        assert content[..j + 1] == content[..j] + [content[j]];
        ChunksAppend(before + content[..j], [content[j]]);
        assert before + content[..j + 1] == (before + content[..j]) + [content[j]];
        frames := frames + [ChunkMsg([content[j]])];
        j := j + 1;
      }
      assert content[..j] == content;
      i := i + 1;
    }
    assert pieces[..i] == pieces;
    var closing := Closing(full, end);
    frames, outcome := frames + closing.frames, closing.outcome;
  }

  // ---------------------------------------------------------------------------
  // Properties

  /** The concatenated texts of the `response_chunk` frames. */
  function ChunkTexts(frames: seq<ServerFrame>): string
    decreases |frames|
  {
    if frames == [] then []
    else (if frames[0].ChunkMsg? then frames[0].text else []) + ChunkTexts(frames[1..])
  }

  lemma {:induction false} ChunkTextsAppend(a: seq<ServerFrame>, b: seq<ServerFrame>)
    ensures ChunkTexts(a + b) == ChunkTexts(a) + ChunkTexts(b)
    decreases |a|
  {
    if a == [] {
      assert a + b == b;
    } else {
      assert (a + b)[1..] == a[1..] + b;
      ChunkTextsAppend(a[1..], b);
    }
  }

  lemma {:induction false} ChunkTextsOfChunks(s: string)
    ensures ChunkTexts(Chunks(s)) == s
    decreases |s|
  {
    if s != [] {
      var c := Chunks(s);
      assert c[0] == ChunkMsg([s[0]]);
      assert c[1..] == Chunks(s[1..]);
      assert ChunkTexts(c) == [s[0]] + ChunkTexts(c[1..]);
      ChunkTextsOfChunks(s[1..]);
      assert s == [s[0]] + s[1..];
    }
  }

  /**
   * A prompt that is not blank: the first frame is the processing status, and
   * the chunk texts put back together are the whole response. On success the
   * frames are that status, one chunk per character, `response_complete` with
   * the response, and a status that carries the timing marker; the call
   * returns the response.
   */
  lemma ReplyFrames(prompt: string, pieces: seq<string>, end: StreamEnd)
    requires !IsBlank(prompt)
    ensures var g := Generate(prompt, pieces, end);
      && g.frames[0] == StatusMsg(Processing)
      && ChunkTexts(g.frames) == Concat(pieces)
      && (forall i :: 1 <= i <= |Concat(pieces)| ==> g.frames[i].ChunkMsg? && |g.frames[i].text| == 1)
      && (end.Finished? ==>
            && g.outcome == Returned(Concat(pieces))
            && |g.frames| == |Concat(pieces)| + 3
            && g.frames[|g.frames| - 2] == CompleteMsg(Concat(pieces))
            && g.frames[|g.frames| - 1].StatusMsg?
            && Contains(g.frames[|g.frames| - 1].message, "Response time"))
  {
    var full := Concat(pieces);
    var c := Closing(full, end);
    assert Generate(prompt, pieces, end).frames == [StatusMsg(Processing)] + Chunks(full) + c.frames;
    ReplyChunkTexts(full, end);
    if end.Finished? {
      TimingMarked(end.elapsed);
    }
  }

  /** The chunk texts of a reply's frames are the whole response. */
  lemma ReplyChunkTexts(full: string, end: StreamEnd)
    ensures ChunkTexts([StatusMsg(Processing)] + Chunks(full) + Closing(full, end).frames) == full
  {
    var c := Closing(full, end);
    ChunkTextsAppend([StatusMsg(Processing)] + Chunks(full), c.frames);
    ChunkTextsAppend([StatusMsg(Processing)], Chunks(full));
    ChunkTextsOfChunks(full);
    assert ChunkTexts([StatusMsg(Processing)]) == [];
    ClosingHasNoChunks(full, end);
  }

  /** The closing frames carry no chunk text. */
  lemma ClosingHasNoChunks(full: string, end: StreamEnd)
    ensures ChunkTexts(Closing(full, end).frames) == []
  {
    var c := Closing(full, end);
    match end
    case Finished(_) =>
      assert c.frames[1..][1..] == [];
      assert ChunkTexts(c.frames[1..]) == [];
    case Failed(ResponseError(_, _)) =>
      assert c.frames[1..][1..] == [];
      assert ChunkTexts(c.frames[1..]) == [];
    case Failed(Timeout(_)) =>
      assert c.frames[1..] == [];
    case Failed(OtherError(_)) =>
      assert c.frames[1..] == [];
  }

  /** The final status text holds "Response time", the marker the client looks for. */
  lemma TimingMarked(elapsed: string)
    ensures Contains(TimingPrefix + elapsed + "s", "Response time")
  {
    var m := TimingPrefix + elapsed + "s";
    assert m[2..15] == "Response time";
    ContainsAt(m, "Response time", 2);
  }

  /** A blank prompt sends one `error` frame and nothing else, and returns "". */
  lemma BlankPrompt(prompt: string, pieces: seq<string>, end: StreamEnd)
    requires IsBlank(prompt)
    ensures Generate(prompt, pieces, end) == Generation([ErrorMsg(EmptyPrompt)], Returned([]))
  {
  }

  /**
   * A `ResponseError` is reported twice: "LLM Error" by the inner handler,
   * then "Generation Error" by the outer one, which raises again.
   */
  lemma ResponseErrorTwice(prompt: string, pieces: seq<string>, e: string, s: string)
    requires !IsBlank(prompt)
    ensures var g := Generate(prompt, pieces, Failed(ResponseError(e, s)));
      && g.outcome == Raised(s)
      && g.frames[|g.frames| - 2..] == [ErrorMsg("LLM Error: " + e), ErrorMsg("Generation Error: " + s)]
  {
  }

  /**
   * A timeout or any other exception that is not a `ResponseError`: the chunks
   * sent so far, then one "Generation Error" frame; a timeout re-raises as a
   * `TimeoutError`, anything else as itself.
   */
  lemma OtherFailureOnce(prompt: string, pieces: seq<string>, f: Failure)
    requires !IsBlank(prompt) && !f.ResponseError?
    ensures var g := Generate(prompt, pieces, Failed(f));
      && g.frames == [StatusMsg(Processing)] + Chunks(Concat(pieces)) + [ErrorMsg("Generation Error: " + f.text)]
      && g.outcome == if f.Timeout? then TimedOut(f.text) else Raised(f.text)
  {
  }
}
