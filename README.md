# Voice chat protocol, modelled in Dafny

The system is a voice and text chat assistant. A React client opens a WebSocket
to a Python server. It sends `start_listening` or `send_text` frames. The server
answers with a stream of typed frames: `status`, `transcription`,
`partial_transcription`, `response_chunk`, `response_complete` and `error`. The
client folds these frames into its message log through `handleServerMessage`.

This project models both ends of that exchange and the helpers next to them:

- `Protocol`: the frames on the wire, as the server writes them (`ServerFrame`),
  as the client reads them (`Frame`), and the client's actions as the server
  decodes them (`Received`).
- `ServerMessages`: the client reducer. React's functional state updaters are a
  queue of `Updater` values, applied in call order. `uuidv4()` becomes a counter
  (`nextId`), so the rule that ids are fresh is provable.
- `WebSocketManager`: the `useWebSocket` hook, as a class with its connection
  flags and its socket callbacks.
- `Chat` and `InputPrompt`: the chat page (`Chat.jsx`) and the input bar
  (`InputPromp.jsx`). Each is a class whose methods are the event handlers,
  with the socket send, the `WebSocket` constructor and the 10 s timer made
  explicit.
- `Markdown`: `cleanContent` and the code-block renderer of `MarkdownMessage.jsx`.
- `FileProcessor`: `allowed_file` (with Python's `pathlib` suffix rule) and
  `chunk_text`.
- `AudioUtils`, `LlmUtils`, `WebsocketUtils`: the server's transcription loop,
  response generator and connection handler. Microphone reads and model stream
  pieces are input sequences. Each loop is a method proved equal to a recursive
  specification function, and the properties are proved about that function.
  `server.py` repeats these three functions.
- `Pipeline`: end-to-end lemmas. They take what `generate_response` sends,
  carry it across the wire, and show what it does to the client's log.

`Strings` (ASCII whitespace, trimming, lower-casing, Python's `str.split` and
`' '.join`) and `Wrappers` (`Option`) are helpers.

The model follows the code wherever it departs from the documented design:

- The "(Response time …)" annotation of the last AI message never applies.
  The status message is appended first, so the updater that follows always
  sees a status message last. `Pipeline.ReplyReachesLog` proves the reply
  stays unannotated.
- The 10-second listening timeout tests the `isListening` captured when the
  timer was set, which is `false` when it is set from the button.
  `Chat.TimeoutFromButton` proves the timeout then does nothing.
- `handleTranscription` is called without `setInput` and `setIsListening`, so
  the input box and the listening flag stay as they were.
- Sending while disconnected is a silent no-op.
- The stop test on a final transcript is a substring test inside the audio
  loop (`"Nonstop"` stops it), but an exact-match test in the handler.
- A typed `send_text` of "stop" is answered like any other text.
- The model's 240 s timeout is a `TimeoutError`, which the handler's
  `except asyncio.TimeoutError` takes: the client sees "Generation Error: LLM
  response timeout" and no "Server Error", and the handler ends.
  `WebsocketUtils.StreamTimeoutEndsQuietly` proves it.
- There is no reconnect counter or back-off: `reconnectWebSocket` only guards
  against a connection in progress or an open socket.

## Model

| member | source | states |
|---|---|---|
| ServerMessages.Apply | frontend/src/components/HandleServerMessage.jsx:28-161 | every state updater edits only the tail of the log (appends one message, or replaces or keeps the last), takes at most one fresh id, and keeps ids distinct and below the counter |
| ServerMessages.Add | frontend/src/components/HandleServerMessage.jsx:153-161 | `addMessage` appends exactly one complete message of the given text and type, with a fresh id |
| ServerMessages.ApplyAll | frontend/src/components/HandleServerMessage.jsx:3-26 | applying a queue of updaters in call order keeps the ids distinct |
| ServerMessages.SingleUpdater | frontend/src/components/HandleServerMessage.jsx:3-26 | every message type except `status` queues exactly one updater |
| ServerMessages.ReduceAllAppend | frontend/src/components/HandleServerMessage.jsx:3-26 | handling a stream of frames is the same as handling its parts one after another |
| ServerMessages.ReduceKeepsValid | frontend/src/components/HandleServerMessage.jsx:3-26 | every server frame keeps message ids distinct and below the counter |
| ServerMessages.ReduceEditsTail | frontend/src/components/HandleServerMessage.jsx:3-26 | no frame changes any message but the last: the earlier messages are a prefix of the new log |
| ServerMessages.StatusRule | frontend/src/components/HandleServerMessage.jsx:28-46 | a status frame appends exactly one status message; the "Response time" branch never changes anything, because the last message is then that status |
| ServerMessages.TranscriptionRule | frontend/src/components/HandleServerMessage.jsx:48-71 | a final transcription replaces a trailing "🎤 Listening:" message with a complete "You: …" user message, or appends one |
| ServerMessages.ListeningPrefixIsMarked | frontend/src/components/HandleServerMessage.jsx:78-94 | every partial message starts with the marker that the transcription and partial handlers test for |
| ServerMessages.PartialCollapse | frontend/src/components/HandleServerMessage.jsx:74-102 | a run of partial transcriptions adds at most one message (none when the tail already is a placeholder): one open partial message showing the latest text, with everything before it unchanged |
| ServerMessages.PartialsThenFinal | frontend/src/components/HandleServerMessage.jsx:48-102 | partials followed by the final transcription leave one "You: …" user message in place of the partials |
| ServerMessages.TypedMarkerIsReplaced | frontend/src/components/HandleServerMessage.jsx:74-102 | the test is on text, not type: a user message that starts with the marker is overwritten by the next partial |
| ServerMessages.ResponseChunkRule | frontend/src/components/HandleServerMessage.jsx:124-151 | a chunk extends an open AI message in place, giving it an id no other message has, or appends a new open AI message |
| ServerMessages.ChunksExtendOpenAi | frontend/src/components/HandleServerMessage.jsx:124-151 | chunks fed to an open AI message extend its text by their concatenation, and it stays open |
| ServerMessages.ResponseCompleteRule | frontend/src/components/HandleServerMessage.jsx:104-118 | `response_complete` marks a trailing AI message complete, changes nothing otherwise, and a second one changes nothing more |
| ServerMessages.StreamedTurn | frontend/src/components/HandleServerMessage.jsx:104-151 | chunks then completion, starting from no open AI message, add exactly one complete AI message holding all the chunk texts |
| ServerMessages.OpenAiCanBeStranded | frontend/src/components/HandleServerMessage.jsx:124-151 | an error between two streamed turns leaves the first AI message open for good, and the next chunk starts a second open AI message |
| ServerMessages.ErrorRule | frontend/src/components/HandleServerMessage.jsx:120-122 | an error frame appends one "❌ Error: …" error message |
| ServerMessages.UnknownRule | frontend/src/components/HandleServerMessage.jsx:23-24 | a frame of any other type appends one "Unknown message type: …" error message |
| WebSocketManager.Connection.constructor | frontend/src/components/WebSocketManager.jsx:4-7 | the hook starts disconnected, not connecting, with status "Connecting..." and no socket |
| WebSocketManager.Connection.Connect | frontend/src/components/WebSocketManager.jsx:9-51 | connecting sets the flags and makes one new socket; if the constructor throws, no socket is made and the status is "Connection failed" |
| WebSocketManager.Connection.OnOpen | frontend/src/components/WebSocketManager.jsx:16-20 | open: connected, not connecting, "Connected" |
| WebSocketManager.Connection.OnMessage | frontend/src/components/WebSocketManager.jsx:22-33 | a parsed payload is delivered to the handler exactly once; a malformed one is dropped and the flags are unchanged |
| WebSocketManager.Connection.OnClose | frontend/src/components/WebSocketManager.jsx:35-39 | close: disconnected, not connecting, "Disconnected" |
| WebSocketManager.Connection.OnError | frontend/src/components/WebSocketManager.jsx:41-45 | error: not connecting, "Connection error", and `isConnected` unchanged |
| Chat.ChatSession.constructor | frontend/src/chat/Chat.jsx:8-23 | the page mounts with an empty log, empty input, not listening, and one connection attempt, whose status is "Connecting..." or, when the constructor throws, "Connection failed" |
| Chat.ChatSession.StartListening | frontend/src/chat/Chat.jsx:35-57 | not open: one "Not connected to server" error; send throws: "Failed to start voice recognition" and not listening; otherwise the action is sent, listening, input cleared, one status message, and a timer holding the stale `isListening` |
| Chat.ChatSession.TimeoutFires | frontend/src/chat/Chat.jsx:43-48 | the timeout stops listening and adds "Voice recognition timeout" only if the captured flag was true |
| Chat.ChatSession.StopListening | frontend/src/chat/Chat.jsx:59-65 | not listening, timer cleared, one "Voice recognition stopped" status |
| Chat.ChatSession.SendMessage | frontend/src/chat/Chat.jsx:67-81 | blank input or closed socket: nothing changes; success: one user message, `send_text` with the raw input, input cleared; send throws: the user message, then "Failed to send message", and the input kept |
| Chat.ChatSession.Reconnect | frontend/src/chat/Chat.jsx:83-87 | a new connection attempt is made exactly when none is in progress and the socket is not open: it then leaves `isConnected` as it was, the socket is still not open, and it shows "Connecting..." with a new socket, or "Connection failed" with none when the constructor throws; otherwise the connection is untouched |
| Chat.ChatSession.KeyPress | frontend/src/chat/Chat.jsx:67-93 | Enter while not listening has each outcome of SendMessage in full (blank or closed: nothing; sent: the user message, the `send_text` frame, input cleared; send throws: the user message and "Failed to send message", input kept); any other key, or Enter while listening, changes nothing; the listening flag and the timer never change |
| Chat.ChatSession.Type | frontend/src/chat/Chat.jsx:238 | typing replaces the input and nothing else |
| Chat.ChatSession.Receive | frontend/src/chat/Chat.jsx:19 | a received frame updates the log by the reducer and leaves the input and listening flag alone |
| Chat.TimeoutFromButton | frontend/src/chat/Chat.jsx:255-256 | from the button (shown only when not listening), a successful start followed by the timeout leaves the session listening: the timeout never fires its branch |
| InputPrompt.NextRows | frontend/src/container/InputPromp.jsx:47-55 | the row count stays in 1..6; a clamped line count above 1 is taken; a count of 1 collapses the rows to 1 when they were above 1; a count of 0 or less changes nothing |
| InputPrompt.RowsSettle | frontend/src/container/InputPromp.jsx:53-57 | re-running the effect with the rows it just set changes nothing, so the effect settles |
| InputPrompt.Prompt.constructor | frontend/src/container/InputPromp.jsx:6-24 | the input bar mounts with one row, empty input, not listening, and one connection attempt, whose status is "Connecting..." or, when the constructor throws, "Connection failed" |
| InputPrompt.Prompt.Unmount | frontend/src/container/InputPromp.jsx:21-23 | unmounting clears the timer and nothing else |
| InputPrompt.Prompt.Type | frontend/src/container/InputPromp.jsx:129 | typing replaces the input and nothing else |
| InputPrompt.Prompt.Resize | frontend/src/container/InputPromp.jsx:26-57 | the resize effect sets rows by NextRows and keeps them in 1..6 |
| InputPrompt.Prompt.StartListening | frontend/src/container/InputPromp.jsx:69-91 | the same three outcomes as the chat page, with the rows unchanged |
| InputPrompt.Prompt.TimeoutFires | frontend/src/container/InputPromp.jsx:77-82 | the timeout acts only if the captured flag was true |
| InputPrompt.Prompt.StopListening | frontend/src/container/InputPromp.jsx:93-97 | not listening, timer cleared, one "Voice recognition stopped" status |
| InputPrompt.Prompt.SendMessage | frontend/src/container/InputPromp.jsx:99-112 | as on the chat page, and a successful send also resets the rows to 1 |
| InputPrompt.Prompt.KeyDown | frontend/src/container/InputPromp.jsx:99-119 | Enter without Shift while not listening has each outcome of SendMessage in full, the rows reset to 1 on a successful send; any other key, Shift+Enter, or Enter while listening changes nothing; the listening flag and the timer never change |
| InputPrompt.Prompt.Receive | frontend/src/container/InputPromp.jsx:17 | a received frame updates the shared log by the reducer |
| Markdown.CleanContent | frontend/src/components/MarkdownMessage.jsx:9-12 | the result has no surrounding whitespace; it is the trimmed content, or the trimmed rest after one leading "AI Response:" |
| Markdown.PrefixOnlyAtStart | frontend/src/components/MarkdownMessage.jsx:11 | the prefix is removed only at the very start: leading whitespace keeps it |
| Markdown.CleanNotIdempotent | frontend/src/components/MarkdownMessage.jsx:11 | only one prefix is removed, so cleaning twice differs from cleaning once |
| Markdown.CodeString | frontend/src/components/MarkdownMessage.jsx:32 | exactly one trailing newline is removed, if there is one |
| Markdown.WordRun | frontend/src/components/MarkdownMessage.jsx:31 | the longest prefix of word characters (`\w+` is greedy) |
| Markdown.FirstMatch | frontend/src/components/MarkdownMessage.jsx:31 | the leftmost position where "language-" is followed by a word character, or none |
| Markdown.LanguageOf | frontend/src/components/MarkdownMessage.jsx:31 | no language exactly when the class name has no match; a found language is a non-empty run of word characters |
| Markdown.LanguageOfTagged | frontend/src/components/MarkdownMessage.jsx:31 | "language-" followed by a word and a non-word character yields exactly that word |
| Markdown.RenderCode | frontend/src/components/MarkdownMessage.jsx:30-74 | inline code shows its children; a block with a language is highlighted and copied as the code string; any other block shows its children and copies the code string |
| FileProcessor.Groups | backend/rag/file_processor.py:44 | the slices of `range(0, len(words), chunk_size)`: each holds 1..size words, all but the last exactly size, and together they are the words in order; there are none exactly when there are no words |
| FileProcessor.GroupMembers | backend/rag/file_processor.py:44 | every word of a slice is one of the words |
| FileProcessor.GroupCount | backend/rag/file_processor.py:44 | the number of slices is the ceiling of words/size |
| FileProcessor.ChunkText | backend/rag/file_processor.py:42-45 | a zero size raises (`range` step 0); a negative size gives no chunks |
| FileProcessor.ChunkWords | backend/rag/file_processor.py:43-44 | each chunk splits back into exactly its group of words |
| FileProcessor.ChunkSizes | backend/rag/file_processor.py:44 | each chunk holds 1..size words, and all but the last exactly size |
| FileProcessor.ChunksRejoin | backend/rag/file_processor.py:43-44 | splitting the chunks and concatenating gives back the text's words; the chunk count is the ceiling of words/size |
| FileProcessor.BlankTextNoChunks | backend/rag/file_processor.py:43-44 | text with no words gives no chunks, for any non-zero size |
| FileProcessor.AfterSlash | backend/rag/file_processor.py:11 | the text after the last slash, which holds no slash |
| FileProcessor.Name | backend/rag/file_processor.py:11 | the name `Path` gives holds no slash |
| FileProcessor.NameIsLastComponent | backend/rag/file_processor.py:11 | `Path(s).name` is empty exactly when every component of `s` is empty or "."; otherwise it is a whole component, not ".", after which every component is empty or "." |
| FileProcessor.LastDot | backend/rag/file_processor.py:11 | the position of the last dot, or -1 |
| FileProcessor.Suffix | backend/rag/file_processor.py:11 | a suffix is a proper ending of the name that starts with its only dot and has at least one character after it; and a last dot that is neither the first nor the last character gives the suffix from that dot on |
| FileProcessor.FinalExtension | backend/rag/file_processor.py:10-11 | "stem.ext" is allowed exactly when the lower-cased ".ext" is in the allowed set |
| FileProcessor.DoubleExtension | backend/rag/file_processor.py:11 | only the last extension counts: "stem.inner.ext" is allowed exactly when the lower-cased ".ext" is |
| FileProcessor.ExtensionCaseInsensitive | backend/rag/file_processor.py:11 | extensions that differ only in case are treated alike |
| FileProcessor.DotFileHasNoSuffix | backend/rag/file_processor.py:11 | a hidden file "." + ext with no further dot, such as ".pdf", has no suffix, so it is allowed exactly when the empty extension is |
| FileProcessor.DirectoryIgnored | backend/rag/file_processor.py:11 | "dir/file" is allowed exactly when "file" is |
| FileProcessor.FinalExtensionInDirectory | backend/rag/file_processor.py:10-11 | "dir/stem.ext" is allowed exactly when the lower-cased ".ext" is in the allowed set |
| AudioUtils.ListenFrameKinds | backend/utils/audio_utils.py:33-68 | the loop sends only transcription and partial frames |
| AudioUtils.TranscribeAudio | backend/utils/audio_utils.py:24-74 | the while loop sends exactly the frames of Listen, ends the same way, and returns the same stripped text (repeated in `server.py`, lines 55-114) |
| AudioUtils.SilenceEnds | backend/utils/audio_utils.py:50-63 | 26 idle reads in a row end the loop for silence with the stripped text so far and no more frames |
| AudioUtils.SilenceNeedsIdleRun | backend/utils/audio_utils.py:37-63 | the converse of SilenceEnds: the loop ends in silence only after the reads that follow the last frame sent, leaving out overflows and empty finals, are exactly the 26 (less the starting count when nothing was sent) empty or repeated partials the counter needs |
| AudioUtils.UnproductiveReadsIgnored | backend/utils/audio_utils.py:37-68 | empty finals and overflowed reads change neither the frames nor the outcome |
| AudioUtils.PartialsAreFresh | backend/utils/audio_utils.py:51-58 | no partial frame repeats the one before it, and none is empty |
| AudioUtils.SpokenIsJoined | backend/utils/audio_utils.py:40 | the `full_text` accumulator is the finals joined by spaces, plus a trailing space |
| AudioUtils.FullTextIsJoinedFinals | backend/utils/audio_utils.py:38-45 | each transcription frame's `full_text` is every final so far, joined by spaces and stripped |
| AudioUtils.TranscriptIsJoinedFinals | backend/utils/audio_utils.py:24-74 | the returned text is the finals sent, joined by spaces and stripped |
| AudioUtils.StopWordEndsLoop | backend/utils/audio_utils.py:48-49 | the loop ends on a stop word exactly when the last frame is a final that contains one, and no earlier final does |
| AudioUtils.SubstringStopWord | backend/utils/audio_utils.py:48 | the stop test is a substring test: "Nonstop" stops the loop |
| LlmUtils.Chunks | backend/utils/llm_utils.py:48-54 | one `response_chunk` frame per character, in order |
| LlmUtils.ChunksAppend | backend/utils/llm_utils.py:41-54 | chunking piece by piece is chunking the concatenation |
| LlmUtils.ChunkTextsOfChunks | backend/utils/llm_utils.py:45-54 | the chunk frames put back together give the accumulated response |
| LlmUtils.GenerateResponse | backend/utils/llm_utils.py:19-82 | the nested loops send exactly the frames of Generate, then its closing frames, and return or raise as it does (repeated in `server.py`, lines 116-179) |
| LlmUtils.ReplyFrames | backend/utils/llm_utils.py:28-75 | a non-blank prompt: the processing status first; chunks that rebuild the response; on success, `response_complete` with the whole response, then a status holding "Response time", and the response returned |
| LlmUtils.TimingMarked | backend/utils/llm_utils.py:69-73 | the timing status contains "Response time" |
| LlmUtils.BlankPrompt | backend/utils/llm_utils.py:21-26 | a blank prompt sends one "Empty prompt received" error and returns "" |
| LlmUtils.ResponseErrorTwice | backend/utils/llm_utils.py:56-82 | a model error sends "LLM Error: …" and then "Generation Error: …", and re-raises |
| LlmUtils.OtherFailureOnce | backend/utils/llm_utils.py:76-82 | a `TimeoutError` or any other exception: the chunks sent so far, then one "Generation Error: …" frame, and the exception re-raised |
| WebsocketUtils.LoopUnfold | backend/utils/websocket_utils.py:26-67 | one pass of the receive loop, then the rest of it |
| WebsocketUtils.AnswerInput | backend/utils/websocket_utils.py:49-50 | an accepted input is appended to the history, then answered by `generate_response` |
| WebsocketUtils.ServeTurn | backend/utils/websocket_utils.py:27-67 | one pass of the receive loop equals HandleTurn: dispatch on `action`, a missing key or undecodable payload ending in "Server Error" |
| WebsocketUtils.HandleConnection | backend/utils/websocket_utils.py:13-84 | the handler sends exactly the frames of Serve, starting with the "Connected to AI assistant server" status (repeated in `server.py`, lines 181-252, with a 300 s `recv` timeout) |
| WebsocketUtils.GenerationFrames | backend/utils/llm_utils.py:19-82 | a call of `generate_response` starts exactly one generation and never sends "Server Error" |
| WebsocketUtils.SpeechFrames | backend/utils/websocket_utils.py:34-38 | the voice turn's status and speech frames start no generation and send no "Server Error" |
| WebsocketUtils.TurnShape | backend/utils/websocket_utils.py:33-67 | a pass adds at most one stripped user entry, exactly when it starts a generation, and sends "Server Error" only as its last frame, exactly when it ends the handler through `except Exception` |
| WebsocketUtils.FailShape | backend/utils/websocket_utils.py:73-78 | the generic handler appends one "Server Error" frame to what was sent |
| WebsocketUtils.AnswerShape | backend/utils/websocket_utils.py:49-64 | answering adds its user entry and one generation; it ends the handler only on an exception, a `TimeoutError` with no further frame and any other one as a last "Server Error" frame |
| WebsocketUtils.LoopHistory | backend/utils/websocket_utils.py:24-67 | the history grows only by stripped user entries |
| WebsocketUtils.LoopGenerations | backend/utils/websocket_utils.py:26-67 | the loop starts one generation per history entry it adds |
| WebsocketUtils.LoopErrors | backend/utils/websocket_utils.py:26-78 | "Server Error" appears only as the loop's last frame, exactly when it ends through `except Exception` |
| WebsocketUtils.PrefixKeepsErrors | backend/utils/websocket_utils.py:19-22 | frames sent before the loop without "Server Error" keep that rule |
| WebsocketUtils.SessionShape | backend/utils/websocket_utils.py:13-84 | over a connection: every history entry is a stripped user input, there is one per `generate_response` call, and "Server Error" comes only last, exactly when the handler ends through `except Exception` |
| WebsocketUtils.EmptyTextContinues | backend/utils/websocket_utils.py:53-60 | text that strips to nothing sends "Empty text input", adds nothing to the history, and the loop goes on |
| WebsocketUtils.ExitAndUnknownActions | backend/utils/websocket_utils.py:33-67 | `exit` ends the handler without a frame; any other unknown action is ignored |
| WebsocketUtils.VoiceTurn | backend/utils/websocket_utils.py:33-51 | the voice status comes before the speech frames; an exact stop command ends the session with "🛑 Session ended" and stays out of the history |
| WebsocketUtils.StreamTimeoutEndsQuietly | backend/utils/websocket_utils.py:49-71 | the model's 240 s `TimeoutError` (llm_utils.py:42-43) sends "Generation Error: LLM response timeout" and then ends the handler through `except asyncio.TimeoutError`, with no "Server Error" frame and the input kept in the history |
| WebsocketUtils.MissingAction | backend/utils/websocket_utils.py:33 | a frame without `action` ends the handler with the `KeyError` text as a "Server Error" |
| Pipeline.ChunksOnWire | backend/utils/llm_utils.py:48-54 | the chunk frames reach the client as `response_chunk` frames whose texts rebuild the response |
| Pipeline.StreamPart | frontend/src/components/HandleServerMessage.jsx:104-151 | chunks then completion after a status message add one complete AI message with the whole response, or nothing if there are no chunks |
| Pipeline.FoldReply | frontend/src/components/HandleServerMessage.jsx:3-151 | a reply's frames, as the client folds them: status, AI message, status |
| Pipeline.ReplyReachesLog | backend/utils/llm_utils.py:28-75 | a successful reply adds to the client log, in order: the processing status, one complete AI message with the whole response (if it is not empty) and never annotated, and the timing status; older messages are unchanged |
| Pipeline.BlankPromptReachesLog | backend/utils/llm_utils.py:21-26 | a blank prompt shows as one "❌ Error: Empty prompt received" message |

## Left out

- Timestamps (`toLocaleTimeString`) are not modelled; `uuidv4()` is a counter, so fresh ids are fresh by construction.
- JSON encoding and parsing are not modelled. A client frame is its decoded `action` and `text`. A payload that is not a JSON object, or whose `text` is not a string, is covered only by the error text it raises (`Undecodable`). A frame's fields the client does not find are written as "" in `Frame`. This stands only for frames the server never sends: every frame it sends carries the fields the client reads. In JavaScript a missing field is `undefined`, which would show as "undefined" in an error message or make `message.includes` throw inside the handler.
- Only one socket is modelled. Events from an older socket after a reconnect are not, and neither is the orphaned timer a second `startListening` leaves behind.
- The DOM measurement in the resize effect is not modelled. The measured line count is a parameter of `Resize`, and the copy-to-clipboard button is not modelled.
- Time is not modelled: sleeps, the clock behind the 240 s model timeout (the stream simply ends with a `Timeout` failure, which may come after any number of pieces) and the `recv` timeouts (300 s and 400 s). The formatted elapsed time is a string parameter.
- The server is modelled as it runs on Python 3.11 to 3.13: from 3.11 `asyncio.TimeoutError` is the builtin `TimeoutError`, so the model's timeout ends the handler silently, and before 3.14 `pathlib` gives "name." no suffix. On Python 3.10 or older, the timeout would end in a "Server Error" frame instead, which the model does not show.
- Vosk, PyAudio, Ollama and the vector database are represented only by their outputs: microphone reads are `AudioEvent`s and model output is stream pieces. Send failures (`ConnectionClosed`) are not modelled.
- Logging, prints, colour codes, GPU cache clearing and the server's startup and `main` are not modelled.
- The default `chunk_size=1000` of `chunk_text` is the constant `FileProcessor.DefaultChunkSize`; the size is always an argument of the model's function.
- `save_file` and `extract_text` are not modelled; they do only file I/O.
- The allowed extensions are a parameter of `AllowedFile`, because the configuration that should define them does not provide them.
- `FileProcessor.Suffix` follows `pathlib` on POSIX paths as it behaved before Python 3.14 (a final "name." has no suffix).
- Whitespace is the six characters space, `\t`, `\n`, `\r`, `\v` and `\f`, for both languages, and lower-casing covers ASCII letters only. JavaScript `\s` and `trim` also count Unicode spaces. Python `strip` and `split` also count Unicode spaces and the ASCII separators `\x1c` to `\x1f`. Python `lower` also changes non-ASCII letters.
- The conversation history is recorded but never sent to the model, so only its shape is modelled.
- `AudioUtils.Listen`: the `Exhausted` ending stands for a microphone that would go on being read; it is an artifact of a finite input, like `WebsocketUtils.Loop`'s `Waiting` and `StillListening` closes.
- `server.py` repeats the three server functions apart from logging and timeouts. They are modelled once, under the utility modules.
