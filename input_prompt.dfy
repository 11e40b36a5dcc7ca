/**
 * The input bar (`InputPromp.jsx`): the same voice and text intents as the
 * chat page, over its own connection, plus a text area that grows with its
 * content from one to six rows. The message log is the one it shares with the
 * page through `setMessages`; here it is a field.
 */
module InputPrompt {
  import opened Wrappers
  import opened Strings
  import Protocol
  import opened ServerMessages
  import opened WebSocketManager

  /** The tallest the text area grows. */
  const MaxRows := 6

  /**
   * One run of the resize effect: `lines` is the measured line count
   * (`Math.ceil(height / lineHeight)`), clamped at six. The rows change when
   * the clamped count is above one, and fall back to one only when the text
   * area had grown.
   */
  function NextRows(rows: int, lines: int): (r: int)
    ensures 1 <= rows <= MaxRows ==> 1 <= r <= MaxRows
    ensures r != rows ==>
      (lines > 1 && r == if lines < MaxRows then lines else MaxRows) || (lines == 1 && rows > 1 && r == 1)
    ensures lines > 1 ==> r == if lines < MaxRows then lines else MaxRows
    ensures lines == 1 ==> r == (if rows > 1 then 1 else rows)
    ensures lines <= 0 ==> r == rows
  {
    var current := if lines < MaxRows then lines else MaxRows;
    if current > 1 || (current == 1 && rows > 1) then current else rows
  }

  /**
   * The effect depends on `rows`, so it runs again after its own update; with
   * the same measurement that second run changes nothing.
   */
  lemma RowsSettle(rows: int, lines: int)
    ensures NextRows(NextRows(rows, lines), lines) == NextRows(rows, lines)
  {
  }

  class Prompt {
    const conn: Connection
    var log: Log
    var input: string
    var isListening: bool
    var rows: int
    /** The frames passed to `ws.current.send`, oldest first. */
    var sent: seq<Protocol.Action>
    /** The armed voice timeout and the `isListening` value it captured. */
    var timer: Option<bool>

    ghost predicate Valid()
      reads this
    {
      ServerMessages.Valid(log) && 1 <= rows <= MaxRows
    }

    /** Mounting the bar: one row, empty state, then `connectWebSocket()`. */
    constructor (log0: Log, constructorThrows: bool)
      requires ServerMessages.Valid(log0)
      ensures Valid() && fresh(conn)
      ensures log == log0 && input == [] && !isListening && rows == 1 && sent == [] && timer == None
      ensures conn.sockets == if constructorThrows then 0 else 1
      ensures conn.isConnecting == !constructorThrows && !conn.isConnected && !conn.socketOpen
      ensures conn.status == if constructorThrows then FailedText else ConnectingText
    {
      conn := new Connection();
      log, input, isListening, rows, sent, timer := log0, [], false, 1, [], None;
      new;
      conn.Connect(constructorThrows);
    }

    /** The unmount cleanup: the pending timeout is cleared. */
    method Unmount()
      modifies this
      ensures timer == None
      ensures log == old(log) && input == old(input) && isListening == old(isListening)
      ensures rows == old(rows) && sent == old(sent)
    {
      timer := None;
    }

    /** The text area's `onChange`. */
    method Type(text: string)
      modifies this
      ensures input == text
      ensures log == old(log) && isListening == old(isListening) && rows == old(rows)
      ensures sent == old(sent) && timer == old(timer)
    {
      input := text;
    }

    /** The resize effect, with the browser's measurement of the content as `lines`. */
    method Resize(lines: int)
      requires Valid()
      modifies this
      ensures Valid()
      ensures rows == NextRows(old(rows), lines)
      ensures log == old(log) && input == old(input) && isListening == old(isListening)
      ensures sent == old(sent) && timer == old(timer)
    {
      rows := NextRows(rows, lines);
    }

    /** `startListening`, as on the chat page. */
    method StartListening(sendThrows: bool)
      requires Valid()
      modifies this
      ensures Valid() && rows == old(rows)
      ensures !conn.socketOpen ==>
        && log == Add(old(log), "Not connected to server", Error)
        && sent == old(sent) && isListening == old(isListening)
        && input == old(input) && timer == old(timer)
      ensures conn.socketOpen && sendThrows ==>
        && log == Add(old(log), "Failed to start voice recognition", Error)
        && sent == old(sent) && !isListening
        && input == old(input) && timer == old(timer)
      ensures conn.socketOpen && !sendThrows ==>
        && log == Add(old(log), "Starting voice recognition...", Status)
        && sent == old(sent) + [Protocol.StartListening] && isListening
        && input == [] && timer == Some(old(isListening))
    {
      if conn.socketOpen {
        if sendThrows {
          log := Add(log, "Failed to start voice recognition", Error);
          isListening := false;
        } else {
          var captured := isListening;
          sent := sent + [Protocol.StartListening];
          isListening := true;
          input := [];
          log := Add(log, "Starting voice recognition...", Status);
          timer := Some(captured);
        }
      } else {
        log := Add(log, "Not connected to server", Error);
      }
    }

    /** `stopListening`. */
    method StopListening()
      requires Valid()
      modifies this
      ensures Valid() && rows == old(rows)
      ensures !isListening && timer == None
      ensures log == Add(old(log), "Voice recognition stopped", Status)
      ensures sent == old(sent) && input == old(input)
    {
      isListening := false;
      timer := None;
      log := Add(log, "Voice recognition stopped", Status);
    }

    /** The timeout callback, testing the captured flag. */
    method TimeoutFires()
      requires Valid()
      modifies this
      ensures Valid() && rows == old(rows)
      ensures timer == None && sent == old(sent) && input == old(input)
      ensures old(timer) == Some(true) ==>
        && !isListening
        && log == Add(Add(old(log), "Voice recognition stopped", Status), "Voice recognition timeout", Error)
      ensures old(timer) != Some(true) ==> isListening == old(isListening) && log == old(log)
    {
      match timer
      case None =>
      case Some(captured) =>
        timer := None;
        if captured {
          StopListening();
          log := Add(log, "Voice recognition timeout", Error);
        }
    }

    /**
     * `sendMessage`: as on the chat page, and a successful send also shrinks
     * the text area back to one row.
     */
    method SendMessage(sendThrows: bool)
      requires Valid()
      modifies this
      ensures Valid()
      ensures isListening == old(isListening) && timer == old(timer)
      ensures IsBlank(old(input)) || !conn.socketOpen ==>
        log == old(log) && sent == old(sent) && input == old(input) && rows == old(rows)
      ensures !IsBlank(old(input)) && conn.socketOpen && !sendThrows ==>
        && log == Add(old(log), old(input), User)
        && sent == old(sent) + [Protocol.SendText(old(input))]
        && input == [] && rows == 1
      ensures !IsBlank(old(input)) && conn.socketOpen && sendThrows ==>
        && log == Add(Add(old(log), old(input), User), "Failed to send message", Error)
        && sent == old(sent) && input == old(input) && rows == old(rows)
    {
      if !IsBlank(input) && conn.socketOpen {
        log := Add(log, input, User);
        if sendThrows {
          log := Add(log, "Failed to send message", Error);
        } else {
          sent := sent + [Protocol.SendText(input)];
          input := [];
          rows := 1;
        }
      }
    }

    /** `handleKeyDown`: Enter without Shift sends, unless the bar is listening. */
    method KeyDown(key: string, shift: bool, sendThrows: bool)
      requires Valid()
      modifies this
      ensures Valid()
      ensures isListening == old(isListening) && timer == old(timer)
      ensures key != "Enter" || shift || old(isListening) ==>
        log == old(log) && sent == old(sent) && input == old(input) && rows == old(rows)
      ensures key == "Enter" && !shift && !old(isListening) && (IsBlank(old(input)) || !conn.socketOpen) ==>
        log == old(log) && sent == old(sent) && input == old(input) && rows == old(rows)
      ensures key == "Enter" && !shift && !old(isListening) && !IsBlank(old(input)) && conn.socketOpen && !sendThrows ==>
        && log == Add(old(log), old(input), User)
        && sent == old(sent) + [Protocol.SendText(old(input))]
        && input == [] && rows == 1
      ensures key == "Enter" && !shift && !old(isListening) && !IsBlank(old(input)) && conn.socketOpen && sendThrows ==>
        && log == Add(Add(old(log), old(input), User), "Failed to send message", Error)
        && sent == old(sent) && input == old(input) && rows == old(rows)
    {
      if key == "Enter" && !shift && !isListening {
        SendMessage(sendThrows);
      }
    }

    /** A payload on the bar's socket, through the shared frame handlers. */
    method Receive(p: Payload)
      requires Valid()
      modifies this
      ensures Valid()
      ensures log == if p.Parsed? then Reduce(old(log), p.frame) else old(log)
      ensures input == old(input) && isListening == old(isListening) && rows == old(rows)
      ensures sent == old(sent) && timer == old(timer)
    {
      var delivered := conn.OnMessage(p);
      if |delivered| == 1 {
        ReduceKeepsValid(log, delivered[0]);
        log := Reduce(log, delivered[0]);
      }
    }
  }
}
