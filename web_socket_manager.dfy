/**
 * The connection flags of the `useWebSocket` hook and the callbacks that set
 * them. `connectWebSocket` opens a socket and installs the callbacks; the
 * callbacks only assign flags, and none of them calls `connectWebSocket`, so
 * nothing here reconnects on its own and no attempt counter exists.
 */
module WebSocketManager {
  import opened Protocol

  const ConnectingText: string := "Connecting..."
  const ConnectedText: string := "Connected"
  const DisconnectedText: string := "Disconnected"
  const ErrorText: string := "Connection error"
  const FailedText: string := "Connection failed"

  /** What the socket delivers to `onmessage`: a payload `JSON.parse` accepts, or one it rejects. */
  datatype Payload = Malformed | Parsed(frame: Frame)

  class Connection {
    var isConnected: bool
    var isConnecting: bool
    var status: string
    /** `ws.current?.readyState === WebSocket.OPEN`. */
    var socketOpen: bool
    /** How many sockets `connectWebSocket` has constructed into `ws.current`; none of them is ever closed here. */
    var sockets: nat

    /** The hook's initial state, before the first `connectWebSocket`. */
    constructor ()
      ensures !isConnected && !isConnecting && status == ConnectingText
      ensures !socketOpen && sockets == 0
    {
      isConnected, isConnecting, status := false, false, ConnectingText;
      socketOpen, sockets := false, 0;
    }

    /**
     * `connectWebSocket`: no guard of its own. A new socket replaces
     * `ws.current` (the old one is left open) and is not open yet. When the
     * constructor throws, `ws.current` keeps the old socket and the status
     * reads "Connection failed".
     */
    method Connect(constructorThrows: bool)
      modifies this
      ensures isConnected == old(isConnected)
      ensures constructorThrows ==>
        && !isConnecting && status == FailedText
        && socketOpen == old(socketOpen) && sockets == old(sockets)
      ensures !constructorThrows ==>
        && isConnecting && status == ConnectingText
        && !socketOpen && sockets == old(sockets) + 1
    {
      isConnecting := true;
      status := ConnectingText;
      if constructorThrows {
        isConnecting := false;
        status := FailedText;
      } else {
        sockets := sockets + 1;
        socketOpen := false;
      }
    }

    /** `onopen`. */
    method OnOpen()
      modifies this
      ensures isConnected && !isConnecting && status == ConnectedText
      ensures socketOpen && sockets == old(sockets)
    {
      isConnected, isConnecting, status := true, false, ConnectedText;
      socketOpen := true;
    }

    /** `onclose`. */
    method OnClose()
      modifies this
      ensures !isConnected && !isConnecting && status == DisconnectedText
      ensures !socketOpen && sockets == old(sockets)
    {
      isConnected, isConnecting, status := false, false, DisconnectedText;
      socketOpen := false;
    }

    /** `onerror`: `isConnected` keeps its value. */
    method OnError()
      modifies this
      ensures isConnected == old(isConnected) && !isConnecting && status == ErrorText
      ensures socketOpen == old(socketOpen) && sockets == old(sockets)
    {
      isConnecting, status := false, ErrorText;
    }

    /**
     * `onmessage`: the frames handed to the message handler. A payload that
     * fails to parse reaches nobody; a parsed one is handed over exactly once.
     * No flag changes.
     */
    method OnMessage(p: Payload) returns (delivered: seq<Frame>)
      ensures |delivered| <= 1
      ensures p.Parsed? ==> delivered == [p.frame]
      ensures p.Malformed? <==> delivered == []
    {
      match p
      case Malformed => delivered := [];
      case Parsed(f) => delivered := [f];
    }
  }
}
