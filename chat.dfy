/**
 * The chat page (`Chat.jsx`): the message log, the text input, the listening
 * flag, the pending voice timeout, and the frames the page has sent.
 *
 * `ws.current.send` is modelled by appending to `sent`; whether a call to it
 * throws is a parameter of the operation that makes it. The page owns its own
 * `useWebSocket` connection.
 */
module Chat {
  import opened Wrappers
  import opened Strings
  import Protocol
  import opened ServerMessages
  import opened WebSocketManager

  class ChatSession {
    const conn: Connection
    var log: Log
    var input: string
    var isListening: bool
    /** The frames passed to `ws.current.send`, oldest first. */
    var sent: seq<Protocol.Action>
    /**
     * The armed 10-second voice timeout, with the value of `isListening` its
     * callback captured when `startListening` ran; `None` once it has been
     * cleared or has fired.
     */
    var timer: Option<bool>

    ghost predicate Valid()
      reads this
    {
      ServerMessages.Valid(log)
    }

    /** Mounting the page: empty state, then `connectWebSocket()` from the mount effect. */
    constructor (constructorThrows: bool)
      ensures Valid() && fresh(conn)
      ensures log == EmptyLog && input == [] && !isListening && sent == [] && timer == None
      ensures !conn.isConnected && conn.socketOpen == false
      ensures conn.sockets == if constructorThrows then 0 else 1
      ensures conn.isConnecting == !constructorThrows
      ensures conn.status == if constructorThrows then FailedText else ConnectingText
    {
      conn := new Connection();
      log, input, isListening, sent, timer := EmptyLog, [], false, [], None;
      new;
      conn.Connect(constructorThrows);
    }

    /**
     * `startListening`. Not open: one "Not connected to server" error and
     * nothing else. Open and `send` throws: one "Failed to start voice
     * recognition" error and listening off. Open: the `start_listening` frame,
     * listening on, input cleared, one status message, timeout armed.
     */
    method StartListening(sendThrows: bool)
      requires Valid()
      modifies this
      ensures Valid()
      ensures !conn.socketOpen ==>
        && log == Add(old(log), "Not connected to server", Error)
        && sent == old(sent) && isListening == old(isListening)
        && input == old(input) && timer == old(timer)
      ensures conn.socketOpen && sendThrows ==>
        && log == Add(old(log), "Failed to start voice recognition", Error)
        && sent == old(sent) && !isListening
        && input == old(input) && timer == old(timer)
      ensures conn.socketOpen && !sendThrows ==>
        && log == Add(old(log), "Starting voice recognition...", Status)
        && sent == old(sent) + [Protocol.StartListening] && isListening
        && input == [] && timer == Some(old(isListening))
    {
      if conn.socketOpen {
        if sendThrows {
          log := Add(log, "Failed to start voice recognition", Error);
          isListening := false;
        } else {
          var captured := isListening;
          sent := sent + [Protocol.StartListening];
          isListening := true;
          input := [];
          log := Add(log, "Starting voice recognition...", Status);
          timer := Some(captured);
        }
      } else {
        log := Add(log, "Not connected to server", Error);
      }
    }

    /** `stopListening`: always listening off, the timeout cleared, one status message. */
    method StopListening()
      requires Valid()
      modifies this
      ensures Valid()
      ensures !isListening && timer == None
      ensures log == Add(old(log), "Voice recognition stopped", Status)
      ensures sent == old(sent) && input == old(input)
    {
      isListening := false;
      timer := None;
      log := Add(log, "Voice recognition stopped", Status);
    }

    /**
     * The timeout callback. It tests the captured `isListening`, not the
     * current one: only a captured `true` stops listening and reports the
     * timeout.
     */
    method TimeoutFires()
      requires Valid()
      modifies this
      ensures Valid()
      ensures timer == None && sent == old(sent) && input == old(input)
      ensures old(timer) == Some(true) ==>
        && !isListening
        && log == Add(Add(old(log), "Voice recognition stopped", Status), "Voice recognition timeout", Error)
      ensures old(timer) != Some(true) ==> isListening == old(isListening) && log == old(log)
    {
      match timer
      case None =>
      case Some(captured) =>
        timer := None;
        if captured {
          StopListening();
          log := Add(log, "Voice recognition timeout", Error);
        }
    }

    /**
     * `sendMessage`. Blank input or a socket that is not open: nothing at all.
     * Otherwise the untrimmed input as a `user` message, then either the
     * `send_text` frame and a cleared input, or, when `send` throws, a
     * "Failed to send message" error with the input kept.
     */
    method SendMessage(sendThrows: bool)
      requires Valid()
      modifies this
      ensures Valid()
      ensures isListening == old(isListening) && timer == old(timer)
      ensures IsBlank(old(input)) || !conn.socketOpen ==>
        log == old(log) && sent == old(sent) && input == old(input)
      ensures !IsBlank(old(input)) && conn.socketOpen && !sendThrows ==>
        && log == Add(old(log), old(input), User)
        && sent == old(sent) + [Protocol.SendText(old(input))]
        && input == []
      ensures !IsBlank(old(input)) && conn.socketOpen && sendThrows ==>
        && log == Add(Add(old(log), old(input), User), "Failed to send message", Error)
        && sent == old(sent) && input == old(input)
    {
      if !IsBlank(input) && conn.socketOpen {
        log := Add(log, input, User);
        if sendThrows {
          log := Add(log, "Failed to send message", Error);
        } else {
          sent := sent + [Protocol.SendText(input)];
          input := [];
        }
      }
    }

    /** The input's `onChange`: the field now holds `text`. */
    method Type(text: string)
      modifies this
      ensures input == text
      ensures log == old(log) && sent == old(sent) && isListening == old(isListening) && timer == old(timer)
    {
      input := text;
    }

    /** `reconnectWebSocket`: connects only when not connecting and the socket is not open. */
    method Reconnect(constructorThrows: bool)
      modifies conn
      ensures !old(conn.isConnecting) && !old(conn.socketOpen) ==>
        && conn.sockets == old(conn.sockets) + (if constructorThrows then 0 else 1)
        && conn.isConnecting == !constructorThrows
        && conn.isConnected == old(conn.isConnected) && !conn.socketOpen
        && conn.status == (if constructorThrows then FailedText else ConnectingText)
      ensures old(conn.isConnecting) || old(conn.socketOpen) ==>
        && conn.sockets == old(conn.sockets) && conn.isConnecting == old(conn.isConnecting)
        && conn.isConnected == old(conn.isConnected) && conn.status == old(conn.status)
        && conn.socketOpen == old(conn.socketOpen)
    {
      if !conn.isConnecting && !conn.socketOpen {
        conn.Connect(constructorThrows);
      }
    }

    /** `handleKeyPress`: Enter sends, unless the page is listening. */
    method KeyPress(key: string, sendThrows: bool)
      requires Valid()
      modifies this
      ensures Valid()
      ensures isListening == old(isListening) && timer == old(timer)
      ensures key != "Enter" || old(isListening) ==>
        log == old(log) && sent == old(sent) && input == old(input)
      ensures key == "Enter" && !old(isListening) && (IsBlank(old(input)) || !conn.socketOpen) ==>
        log == old(log) && sent == old(sent) && input == old(input)
      ensures key == "Enter" && !old(isListening) && !IsBlank(old(input)) && conn.socketOpen && !sendThrows ==>
        && log == Add(old(log), old(input), User)
        && sent == old(sent) + [Protocol.SendText(old(input))]
        && input == []
      ensures key == "Enter" && !old(isListening) && !IsBlank(old(input)) && conn.socketOpen && sendThrows ==>
        && log == Add(Add(old(log), old(input), User), "Failed to send message", Error)
        && sent == old(sent) && input == old(input)
    {
      if key == "Enter" && !isListening {
        SendMessage(sendThrows);
      }
    }

    /**
     * A payload arriving on the page's socket: a parsed frame goes through the
     * frame handlers once; a malformed one changes nothing. The handlers
     * receive only the message setter, so neither the input nor the
     * listening flag changes, not even on a final transcription.
     */
    method Receive(p: Payload)
      requires Valid()
      modifies this
      ensures Valid()
      ensures log == if p.Parsed? then Reduce(old(log), p.frame) else old(log)
      ensures input == old(input) && isListening == old(isListening)
      ensures sent == old(sent) && timer == old(timer)
    {
      var delivered := conn.OnMessage(p);
      if |delivered| == 1 {
        ReduceKeepsValid(log, delivered[0]);
        log := Reduce(log, delivered[0]);
      }
    }
  }

  /**
   * The microphone button is shown only while `isListening` is false, so the
   * timeout armed by the button captures `false`: when it fires, nothing
   * changes, and the page goes on listening.
   */
  method TimeoutFromButton(page: ChatSession)
    requires page.Valid() && !page.isListening && page.conn.socketOpen
    modifies page
    ensures page.Valid() && page.isListening && page.timer == None
    ensures page.log == Add(old(page.log), "Starting voice recognition...", Status)
  {
    page.StartListening(false);
    assert page.timer == Some(false);
    page.TimeoutFires();
  }
}
