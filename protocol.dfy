/**
 * The frames that travel over the chat socket, in both directions.
 *
 * The server writes each frame with `json.dumps({...})`; the client reads it
 * with `JSON.parse` and looks only at `type`, `message`, `text` and
 * `full_text`. The client writes `{action, text}` objects with
 * `JSON.stringify`, and the server reads them with `json.loads`.
 */
module Protocol {
  import opened Wrappers

  /**
   * A decoded inbound frame as the client handler reads it: `data.type`,
   * `data.message`, `data.text`, `data.full_text`. A field the frame does not
   * carry is written as the empty string; the server's frames always carry the
   * fields the client reads, so this stands only for frames it never sends.
   */
  datatype Frame = Frame(kind: string, message: string, text: string, fullText: string)

  /** One frame the server sends. */
  datatype ServerFrame =
    | StatusMsg(message: string)                      // {"type": "status", "message": ...}
    | TranscriptionMsg(text: string, fullText: string) // {"type": "transcription", "text": ..., "full_text": ...}
    | PartialMsg(text: string)                        // {"type": "partial_transcription", "text": ...}
    | ChunkMsg(text: string)                          // {"type": "response_chunk", "text": ..., "complete": false}
    | CompleteMsg(text: string)                       // {"type": "response_complete", "text": ..., "complete": true}
    | ErrorMsg(message: string)                       // {"type": "error", "message": ...}

  /** The client's reading of a server frame. */
  function ToWire(f: ServerFrame): Frame {
    match f
    case StatusMsg(m) => Frame("status", m, "", "")
    case TranscriptionMsg(t, ft) => Frame("transcription", "", t, ft)
    case PartialMsg(t) => Frame("partial_transcription", "", t, "")
    case ChunkMsg(t) => Frame("response_chunk", "", t, "")
    case CompleteMsg(t) => Frame("response_complete", "", t, "")
    case ErrorMsg(m) => Frame("error", m, "", "")
  }

  function ToWireAll(fs: seq<ServerFrame>): (r: seq<Frame>)
    ensures |r| == |fs| && forall i :: 0 <= i < |fs| ==> r[i] == ToWire(fs[i])
  {
    seq(|fs|, i requires 0 <= i < |fs| => ToWire(fs[i]))
  }

  /** One frame the client sends. */
  datatype Action =
    | StartListening        // {action: 'start_listening'}
    | SendText(text: string) // {action: 'send_text', text}

  /**
   * An inbound frame as the server's `json.loads` leaves it: the `action`
   * and `text` keys, either of which may be missing, or a payload that is
   * not JSON at all (with the decoder's error text).
   */
  datatype Received =
    | Received(action: Option<string>, text: Option<string>)
    | Undecodable(reason: string)

  /** The server's reading of a client frame. */
  function Encode(a: Action): Received {
    match a
    case StartListening => Received(Some("start_listening"), None)
    case SendText(t) => Received(Some("send_text"), Some(t))
  }
}
