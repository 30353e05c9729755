# Voice pipeline core, modelled in Dafny

This project models the per-connection voice pipeline of an interview-practice chat
server. The client sends microphone audio and configuration messages over one
WebSocket. The server runs the audio through four stages and sends the results back:

- **Speech to text** (`stt.dfy`, module `Stt`). The session loop takes audio chunks
  from the audio queue. It throws chunks away until one starts with the WebM/EBML
  magic number `1A 45 DF A3`. It then opens a recognition session that sends the
  configuration, that header, and every later non-empty chunk. After 240 seconds it
  asks the client to rotate its recorder and ends the request stream. Recognition
  responses become `stt_output` events. Errors return the loop to waiting for a
  header. A queue sentinel ends the loop.
- **Connection hub and buffer gate** (`gate.dfy`, module `Gate`).
  - The reader task puts non-empty binary frames on the audio queue.
  - It applies `config` messages to the shared `listen_only` flag. A switch from
    listen-only to interactive first queues a `flush_buffer` command.
  - When the reader ends, it pushes one sentinel onto each queue.
  - The gate task dequeues events. In listen-only mode it holds finished utterances
    back in a transcript buffer. On a flush it releases them as one space-joined
    transcript.
  - The writer sends synthesized audio as binary frames and agent text as text frames.
- **Agent and sentence segmentation** (`segmenter.dfy` and `agent.dfy`, modules
  `Segmenter` and `Agent`).
  - Every finished utterance is sent to the conversational agent.
  - The agent's streamed tokens go into a text buffer. Every complete sentence (a
    `.`, `!` or `?` followed by whitespace) is emitted as soon as it appears.
  - What remains is flushed when the reply ends.
  - The same file also filters a stored conversation thread for replay.
- **Speech synthesis** (`tts.dfy`, module `Tts`). Each non-blank agent sentence is
  cleaned: `**` becomes a space, then line breaks become spaces. The cleaned text is
  synthesised, and the audio is sent on in slices of at most 8192 bytes.

`events.dfy` (module `Events`) holds the event record shared by all stages. It also
holds the queue items (a value or the stop sentinel) and the whitespace predicates.

How each stage is modelled:

- Each stage that works by changing state is a class or a method with loops.
  - These are proved against a pure function that describes the whole stage:
    `Gate.Connection.RunGateLoop` (the gate task's loop, against `Gate.RunGate`),
    `Gate.WriteOut`, `Segmenter.SentenceBuffer`, `Agent.AgentStream`,
    `Agent.ConversationHistory`, `Tts.Rechunk` and `Tts.TtsStream`.
  - The other step methods of `Gate.Connection` (the reader, the producer, a single
    gate step) and of `Stt.SttLoop` are specified one step at a time. Each step's
    contract states the whole new state, in terms of `Gate.GateStep`, `Stt.Discarded`,
    `Stt.SessionRequests` and `Stt.ResponseEvent`. `Stt.RotationAtLimit` runs
    `Stt.SttLoop` through a whole session up to its rotation.
- Lemmas about those functions state what the code promises.
- Services the code calls are function parameters. These are the speech recogniser,
  the synthesiser and the agent.
- Concurrency is a chosen interleaving of the class's step methods.
- The audio queue is one queue seen from two sides. `Gate.Connection.audio` is the
  reader's side, where only non-empty chunks and the final sentinel are put.
  `Stt.SttLoop.audio` is the STT loop's side, filled through `Stt.SttLoop.Put`.
  `Stt.NonEmptyChunksAllSent` carries the reader's guarantee over: every chunk the
  session takes is sent.
- The event record's `type` field is a datatype constructor per named type, and
  `Events.OtherKind` holds any other type name.

## Model

| member | source | states |
|---|---|---|
| Gate.Connection.constructor | routes/websocketStream.py:20-30 | a connection starts interactive, with an empty transcript buffer and empty queues |
| Gate.Connection.Receive | routes/websocketStream.py:33-79 | non-empty binary frames are queued as audio and empty ones are dropped; a config message queues the flush only when the flag goes from listen-only to interactive, and sets the flag to the new value (false when the key is missing); other or unparsable text frames change nothing; on disconnect one sentinel goes on each queue |
| Gate.Connection.Publish | routes/websocketStream.py:86-87 | the recognition producer appends its event to the event queue and changes nothing else |
| Gate.Connection.PublisherFailed | routes/websocketStream.py:88-90 | a failing recognition producer appends a sentinel to the event queue |
| Gate.Connection.GateDequeue | routes/websocketStream.py:93-135 | the gate takes the head of the event queue; a sentinel stops it for good; any other event is handled by the gate policy under the flag as it stands at that moment; the buffer stays free of empty texts |
| Gate.Join | routes/websocketStream.py:103 | the buffered texts joined by single spaces in buffer order, as `" ".join` gives; no texts give "" and one text gives itself |
| Gate.GateStep | routes/websocketStream.py:99-135 | a flush releases the joined buffer as one final `stt_output` with confidence 0.0 and empties it, or does nothing when the buffer is empty, and is never passed on; in listen-only mode an utterance is buffered and echoed, other speech is dropped, and everything else is forwarded; in interactive mode everything else is forwarded; only utterances are echoed |
| Gate.RunGate | routes/websocketStream.py:93-135 | the gate loop over a queue under one mode: each event is handled by the step in dequeue order until the first sentinel or the end of the queue, and the forwarded events and echoes are collected in order |
| Gate.JoinAppend | routes/websocketStream.py:103 | a joined buffer grows by one space and the new text, so arrival order is kept |
| Gate.JoinIsEmptyOnlyForNone | routes/websocketStream.py:101-103 | joining non-empty texts gives the empty string only when there are no texts |
| Gate.JoinConcat | routes/websocketStream.py:103 | joining two non-empty runs puts exactly one space between them |
| Gate.FlushReleasesBuffer | routes/websocketStream.py:100-110 | a flush of a non-empty buffer yields exactly one final transcript, the buffer joined by single spaces; it empties the buffer and does not forward the flush command |
| Gate.FlushOfEmptyBufferIsSilent | routes/websocketStream.py:100-110 | a flush of an empty buffer yields nothing and changes nothing |
| Gate.ListenOnlyPolicy | routes/websocketStream.py:112-132 | in listen-only mode an utterance is buffered, echoed and not forwarded; any other `stt_output` is dropped; every other event is forwarded unchanged |
| Gate.InteractivePolicy | routes/websocketStream.py:112-135 | in interactive mode every event except the flush is forwarded unchanged, the buffer is untouched, and only utterances are echoed |
| Gate.NoSentinelSnoc | routes/websocketStream.py:96-97 | a queue extended by one item is sentinel-free exactly when both parts are |
| Gate.TakeOne | routes/websocketStream.py:96 | taking the head of a queue's suffix leaves the next suffix |
| Gate.RunGateHead | routes/websocketStream.py:94-135 | running the gate over a queue headed by an event is that event's step followed by the run over the rest |
| Gate.Connection.DequeueAlongRun | routes/websocketStream.py:94-135 | one pass of the gate loop takes the head; it stops the gate exactly at a sentinel; what has been sent followed by what the gate will still send for the rest is unchanged |
| Gate.Connection.RunGateLoop | routes/websocketStream.py:93-135 | the gate task's loop over the queued events leaves the buffer, forwarded events and echoes the whole-queue gate function gives; it stops exactly when a sentinel was queued and otherwise empties the queue; the flag, the audio queue and the reader are untouched |
| Gate.RunGateAppend | routes/websocketStream.py:94-135 | running the gate over two queue segments in turn equals running it over their concatenation |
| Gate.SentinelEndsGate | routes/websocketStream.py:96-97 | nothing queued behind the first sentinel is output, buffered or echoed |
| Gate.InteractiveForwardsInOrder | routes/websocketStream.py:133-135 | in interactive mode a flush-free queue is forwarded unchanged, in dequeue order, and the buffer is untouched |
| Gate.NonSpeech | routes/websocketStream.py:129-132 | the events passed on in listen-only mode contain no `stt_output` |
| Gate.ListenOnlyWithholds | routes/websocketStream.py:112-132 | in listen-only mode the buffer gains every utterance in order, only non-speech events are forwarded, and each utterance is echoed |
| Gate.ListenThenFlush | routes/websocketStream.py:99-132 | listen-only utterances followed by a flush reach downstream as one space-joined final transcript, after the forwarded non-speech events; the buffer ends empty |
| Gate.TwoBufferedFinals | routes/websocketStream.py:100-128 | two buffered utterances are released as "first second" and each was echoed once |
| Gate.ListenOnlyScenario | routes/websocketStream.py:100-128 | a concrete two-utterance listen-only session is released as one joined transcript |
| Gate.ReorderSteps | routes/websocketStream.py:100-135 | the three gate steps of the mode-switch interleaving: buffer, forward under the new flag, release |
| Gate.OwnedStep | routes/websocketStream.py:48-64 | the corrected gate's step: a switch from listen-only to interactive releases the buffer at the switch's own place in the queue, any other mode change only sets the mode, and an event is handled as by the gate step |
| Gate.OwnedGate | routes/websocketStream.py:93-135 | the corrected gate over a queue of events and mode switches, taken in queue order |
| Gate.ModeSwitchReorders | routes/websocketStream.py:48-64 | as written, switching to interactive while an utterance is still queued sends that later utterance downstream before the buffered earlier one |
| Gate.Spoken | routes/websocketStream.py:114 | the utterances delivered to the gate are non-empty texts |
| Gate.FlushKeepsReading | routes/websocketStream.py:100-109 | releasing the buffer keeps the joined text of "already sent, then buffered" |
| Gate.DeliverKeepsReading | routes/websocketStream.py:112-135 | an event delivered to the corrected gate extends "already sent, then buffered" by exactly its utterance |
| Gate.OwnedStepKeepsOrder | routes/websocketStream.py:93-135 | one step of the corrected gate keeps its buffer consistent with its mode and preserves the joined arrival order |
| Gate.OwnedGateKeepsOrder | routes/websocketStream.py:48-64 | with the mode switched through the queue, the joined text sent so far followed by the buffer is always the joined utterances in arrival order |
| Gate.OwnedSwitchKeepsOrder | routes/websocketStream.py:48-64 | the reordering interleaving, replayed on the corrected gate, delivers both utterances in order |
| Gate.FrameFor | routes/websocketStream.py:150-155 | a `tts_chunk` becomes a binary frame of its audio, an `agent_chunk` a text frame of its text, and any other event no frame |
| Gate.Outbound | routes/websocketStream.py:150-155 | the frames for the final stream, one per event that has one, in stream order |
| Gate.WriteOut | routes/websocketStream.py:150-155 | the writer loop sends the frames the dispatch function gives for the final stream |
| Gate.Responses | routes/websocketStream.py:150-155 | the events worth a frame are audio and agent text only |
| Gate.OutboundCarriesResponses | routes/websocketStream.py:150-155 | the frames sent carry exactly the audio chunks (as bytes) and agent chunks (as text) of the stream, in order, and nothing else |
| Segmenter.FindBoundary | ChatBot/invoke_agent.py:92 | the search finds the first terminal mark followed by whitespace, or reports that there is none |
| Segmenter.SpaceRunEnd | ChatBot/invoke_agent.py:93 | the whitespace run dropped after a terminal mark is maximal |
| Segmenter.Split | ChatBot/invoke_agent.py:93 | splitting yields at least one part |
| Segmenter.SplitShape | ChatBot/invoke_agent.py:92-103 | every part but the last ends in `.`, `!` or `?`; no part holds a boundary; there is more than one part exactly when the text has a boundary |
| Segmenter.SplitHeadIsPrefix | ChatBot/invoke_agent.py:93 | the first part is a prefix of the text |
| Segmenter.HeadHasNoBoundary | ChatBot/invoke_agent.py:93 | the text up to the first boundary's terminal mark holds no boundary |
| Segmenter.SplitCutsEveryBoundary | ChatBot/invoke_agent.py:93 | the text is cut at every boundary: no part holds a terminal mark followed by whitespace, and no part after the first starts with whitespace |
| Segmenter.GapsAreRuns | ChatBot/invoke_agent.py:93 | exactly one dropped run lies between each two neighbouring parts, and each is non-empty whitespace |
| Segmenter.RejoinCons | ChatBot/invoke_agent.py:93 | rejoining a part, a run and more parts puts the run between the part and the rest |
| Segmenter.SplitRebuilds | ChatBot/invoke_agent.py:93 | splitting only cuts: the parts rejoined with the dropped whitespace runs give back the text |
| Segmenter.SplitKeepsText | ChatBot/invoke_agent.py:93 | splitting drops only whitespace: the parts hold the text's non-whitespace characters in order |
| Segmenter.NonBlank | ChatBot/invoke_agent.py:96-100 | the kept parts are parts that are not blank |
| Segmenter.NonBlankKeepsText | ChatBot/invoke_agent.py:96-100 | skipping blank parts drops no non-whitespace character |
| Segmenter.Feed | ChatBot/invoke_agent.py:86-103 | the token is appended to the buffer; when the text has a terminal mark followed by whitespace, the non-blank parts of its split but the last are emitted and the last part is kept; otherwise nothing is emitted and the whole text is kept |
| Segmenter.NonBlankKeepsComplete | ChatBot/invoke_agent.py:96-100 | parts that are complete sentences are all kept |
| Segmenter.SplitWithoutBoundary | ChatBot/invoke_agent.py:92-93 | text without a boundary is not cut |
| Segmenter.DoneAndLast | ChatBot/invoke_agent.py:96-103 | emitting the non-blank parts but the last, then keeping the last, gives back the parts when all but the last are complete |
| Segmenter.FeedIsSplit | ChatBot/invoke_agent.py:87-103 | one token emits exactly the parts of the split of buffer and token but the last, and keeps the last |
| Segmenter.CutParts | ChatBot/invoke_agent.py:93-103 | split parts taken as sentences and a remainder hold no boundary in the sentences and rebuild the text with non-empty whitespace runs between them |
| Segmenter.FeedCutsOnlyAtBoundaries | ChatBot/invoke_agent.py:87-103 | each sentence a token emits holds no boundary, and the sentences followed by the kept buffer, rejoined with one non-empty whitespace run between each two, give back exactly the old buffer followed by the token |
| Segmenter.FeedLeavesNoBoundary | ChatBot/invoke_agent.py:87-103 | after a token the kept buffer holds no terminal mark followed by whitespace |
| Segmenter.FeedEmitsCompleteSentences | ChatBot/invoke_agent.py:93-100 | every sentence emitted for a token is non-empty and ends in `.`, `!` or `?` |
| Segmenter.FeedKeepsText | ChatBot/invoke_agent.py:87-103 | the emitted sentences and the kept buffer hold the non-whitespace characters of the old buffer and the token, in order |
| Segmenter.EmptyTokenKeepsBuffer | ChatBot/invoke_agent.py:85-87 | an empty token emits nothing and leaves a well-formed buffer as it is |
| Segmenter.EndOfTurn | ChatBot/invoke_agent.py:106-109 | a remainder that is not blank is emitted once and the buffer reset to ""; a blank remainder is neither emitted nor cleared |
| Segmenter.SentenceBuffer.constructor | ChatBot/invoke_agent.py:64 | the buffer starts empty |
| Segmenter.SentenceBuffer.Push | ChatBot/invoke_agent.py:86-103 | appending a token emits what the split function gives and keeps its last part; the buffer never holds a boundary between tokens |
| Segmenter.SentenceBuffer.EndTurn | ChatBot/invoke_agent.py:106-109 | the end-of-turn flush does what the end-of-turn function gives and keeps the buffer free of boundaries |
| Agent.Token | ChatBot/invoke_agent.py:85-103 | a streamed message without content changes nothing; one with content is fed to the sentence buffer |
| Agent.Stream | ChatBot/invoke_agent.py:84-103 | the reply's messages fed to the sentence buffer one after another, with the sentences emitted collected in order |
| Agent.Turn | ChatBot/invoke_agent.py:84-112 | a whole agent turn: the streamed sentences, then the end-of-turn flush of a non-blank remainder; a reply that fails part-way skips the flush and its unfinished tail stays in the buffer |
| Agent.StreamKeepsBufferOpen | ChatBot/invoke_agent.py:84-103 | whatever the agent streams, the buffer never holds a complete sentence between tokens and every sentence emitted while streaming is complete |
| Agent.StreamKeepsText | ChatBot/invoke_agent.py:84-103 | the sentences emitted while streaming, then the buffer, hold the non-whitespace characters of the old buffer and of every token in order |
| Agent.TokenKeepsText | ChatBot/invoke_agent.py:85-103 | one streamed message, with or without content, keeps the non-whitespace text |
| Agent.TurnKeepsText | ChatBot/invoke_agent.py:84-109 | a completed turn leaves only whitespace behind; from a blank buffer its sentences hold exactly the non-whitespace characters of the tokens |
| Agent.FeedCompletesSentence | ChatBot/invoke_agent.py:87-103 | a token that completes exactly one sentence followed only by whitespace emits it and leaves the empty buffer |
| Agent.NoInnerMarkNoBoundary | ChatBot/invoke_agent.py:92 | text with no terminal mark before its last character holds no boundary |
| Agent.FirstSentence | ChatBot/invoke_agent.py:84-103 | two tokens that complete one sentence emit it and leave the buffer empty |
| Agent.TwoSentenceTurn | ChatBot/invoke_agent.py:84-109 | a four-token reply emits its first sentence while streaming and its unfinished second at end of turn |
| Agent.HelloWorldTurn | ChatBot/invoke_agent.py:84-109 | tokens "Hello ", "world. ", "How are ", "you?" emit "Hello world." while streaming and "How are you?" at end of turn |
| Agent.AsChunks | ChatBot/invoke_agent.py:100-108 | each emitted sentence becomes one `agent_chunk` event, in order |
| Agent.AgentStream | ChatBot/invoke_agent.py:55-112 | the stage loop, with one sentence buffer for the connection, produces what the stage function gives |
| Agent.Respond | ChatBot/invoke_agent.py:66-112 | one upstream event is passed on first; when it is a final, non-empty `stt_output`, the agent is asked with its text and the turn's sentences follow as `agent_chunk` events, with the buffer carried to the next turn |
| Agent.AgentRun | ChatBot/invoke_agent.py:55-112 | the stage over the upstream events in order, starting from an empty buffer and no agent requests |
| Agent.AgentAskedForUtterances | ChatBot/invoke_agent.py:66-82 | the agent is asked once per final, non-empty `stt_output`, with its text, in order, and for nothing else |
| Agent.AgentRunStep | ChatBot/invoke_agent.py:66-112 | one more upstream event adds that event followed only by agent chunks |
| Agent.AgentPassesThrough | ChatBot/invoke_agent.py:66-68 | every upstream event is passed through unchanged and in order, before the agent chunks made for it; the stage adds nothing else |
| Agent.HistoryOf | ChatBot/invoke_agent.py:123-127 | the replayed entries, in thread order: each human message, and each AI message that is last or followed by a human message, with its type and text |
| Agent.KeptIndices | ChatBot/invoke_agent.py:123-127 | the replayed positions are increasing and are exactly the human messages and the AI messages that are last or followed by a human message |
| Agent.ConversationHistory | ChatBot/invoke_agent.py:113-128 | no state or no `messages` key gives an empty history; otherwise the history is the replayed messages in thread order |
| Agent.AnswersAlternate | ChatBot/invoke_agent.py:123-127 | in a replayed history an AI entry is last or followed by a human entry |
| Agent.AnswerIsFollowed | ChatBot/invoke_agent.py:126 | the next replayed message after a replayed AI message is the human message right after it |
| Tts.Replace | ChatBot/tts.py:104 | `str.replace`: every occurrence of the pattern, scanning from the left and without overlaps, is replaced |
| Tts.Clean | ChatBot/tts.py:104 | the text sent for synthesis: `**` becomes a space, then each line break becomes a space |
| Tts.ReplaceCharMaps | ChatBot/tts.py:104 | replacing a line break by a space maps the text character by character |
| Tts.ReplaceBoldLeavesNone | ChatBot/tts.py:104 | no `**` survives the bold replacement |
| Tts.CleanRemovesMarkup | ChatBot/tts.py:104 | the text sent for synthesis holds no line break and no `**` |
| Tts.ReplaceAbsent | ChatBot/tts.py:104 | a text without the pattern's first character is left as it is |
| Tts.CleanKeepsPlainText | ChatBot/tts.py:104 | plain text with no asterisk and no line break is synthesised unchanged |
| Tts.Chunks | ChatBot/tts.py:122-124 | the slices of at most 8192 bytes that `range(0, len(raw), 8192)` cuts, in order |
| Tts.ChunksConcat | ChatBot/tts.py:122-124 | the slices, concatenated, give back exactly the synthesised audio |
| Tts.ChunksSizes | ChatBot/tts.py:77 | slices are non-empty and at most 8192 bytes; all but the last are exactly 8192; their number is what `range` yields, so empty audio gives none |
| Tts.Rechunk | ChatBot/tts.py:122-124 | the slicing loop produces those slices |
| Tts.Respond | ChatBot/tts.py:94-127 | one upstream event is passed on first; when a client exists and it is an `agent_chunk` with non-whitespace text, its cleaned text is synthesised and the audio follows in slices, and a failed request adds nothing |
| Tts.TtsRun | ChatBot/tts.py:94-127 | the stage over the upstream events in order, with the synthesis requests recorded in order |
| Tts.AsAudio | ChatBot/tts.py:122-124 | each slice becomes one `tts_chunk` event, in order |
| Tts.TtsStream | ChatBot/tts.py:65-127 | the stage loop produces what the stage function gives |
| Tts.SpokenTexts | ChatBot/tts.py:99-104 | at most one synthesis text per upstream event |
| Tts.TtsRequestsSpokenTexts | ChatBot/tts.py:70-104 | one request per `agent_chunk` with non-whitespace text, with its cleaned text, in order; nothing is synthesised without a client |
| Tts.HeardSlices | ChatBot/tts.py:122-124 | the audio events of a sentence carry its slices in order |
| Tts.RespondKeepsAudio | ChatBot/tts.py:94-127 | one more upstream event keeps the audio sent equal to the audio the synthesiser returned |
| Tts.TtsAudioIsSynthesis | ChatBot/tts.py:94-127 | the audio sent is exactly the audio returned per request, in request order; a failed request adds nothing and does not stop later sentences |
| Tts.TtsPassesThrough | ChatBot/tts.py:94-96 | every upstream event is passed through unchanged and in order, before its own audio; the stage adds nothing but audio |
| Stt.AudioRequests | ChatBot/stt.py:64-65 | only non-empty chunks become audio requests |
| Stt.SessionRequests | ChatBot/stt.py:44-65 | the requests of a session opened at a header: the configuration, then the header, then one audio request per non-empty chunk taken, in queue order |
| Stt.SessionRequestsWellFormed | ChatBot/stt.py:44-65 | a session opened at a header sends the configuration, then that header, then only non-empty audio |
| Stt.AudioRequestsCarryChunks | ChatBot/stt.py:61-65 | skipping empty chunks loses no audio byte |
| Stt.SessionCarriesAudio | ChatBot/stt.py:44-65 | the recogniser receives the header followed by every chunk taken during the session, byte for byte |
| Stt.SessionRequestsAppend | ChatBot/stt.py:61-65 | taking one more chunk extends the session's requests by that chunk's request, if any |
| Stt.ResponseEvent | ChatBot/stt.py:72-88 | a response yields an event exactly when it has a result with an alternative whose transcript is not blank; that event carries the first alternative's transcript and the first result's finality |
| Stt.Discarded | ChatBot/stt.py:16-28 | the chunks thrown away are exactly the leading chunks without the magic number |
| Stt.SttLoop.Put | routes/websocketStream.py:39-43 | the reader appends a chunk or the sentinel to the audio queue and changes nothing else |
| Stt.NonEmptyChunksAllSent | routes/websocketStream.py:42-43 | when the reader queues only non-empty chunks, every chunk the session takes becomes one audio request, in order |
| Stt.SttLoop.constructor | ChatBot/stt.py:10-13 | the loop starts waiting for a header with no session |
| Stt.SttLoop.AwaitHeader | ChatBot/stt.py:13-49 | chunks before the first header are discarded and never sent; a header opens a session with the configuration and that header; the sentinel ends the loop |
| Stt.SttLoop.Poll | ChatBot/stt.py:51-67 | once more than 240 seconds have passed since the session began, the client is told to rotate and the request stream ends; otherwise the next chunk is sent if not empty, and the sentinel ends the loop |
| Stt.SttLoop.Forward | ChatBot/stt.py:64-65 | while a session is streaming, a taken chunk extends that session's requests, keeping every session well formed |
| Stt.SttLoop.Recognised | ChatBot/stt.py:72-88 | a response adds the event the response filter gives and nothing else |
| Stt.SttLoop.ResponsesEnd | ChatBot/stt.py:70-72 | when the responses end, the loop goes back to waiting for a header |
| Stt.SttLoop.Fail | ChatBot/stt.py:90-105 | an out-of-range or invalid-argument error asks the client to rotate (a failed send is ignored); every error returns the loop to waiting for a header |
| Stt.OpenSession | ChatBot/stt.py:13-49 | a fresh loop with a header at the head of the queue opens one session with the configuration and that header, leaving the rest queued |
| Stt.StreamTwoChunks | ChatBot/stt.py:51-65 | polls at the session start and at exactly 240 seconds after it each send the next chunk |
| Stt.RotationAtLimit | ChatBot/stt.py:51-65 | the first poll more than 240 seconds after the start asks for one rotation, ends the session and leaves the next chunk queued, while chunks taken up to exactly 240 seconds were sent |

## Left out

- Sockets, `asyncio` scheduling, blocking queue reads, the one-second `wait_for`
  timeout and the one-second sleeps after errors are left out. Queues are sequences.
  Concurrency is the order in which a caller invokes the step methods. The clock is
  an integer parameter of `Stt.SttLoop.Poll`, which must not go backwards.
- The Google speech and synthesis clients and the LangGraph agent are not modelled.
  They are function parameters: `synthesize`, `agent`, and the responses handed to
  `Stt.SttLoop.Recognised`. The grpc call's own consumption of the request stream is
  not modelled.
- The speech client and recognition configuration built when a session opens are left
  out. A session is recorded as opened even when the client cannot be created; the
  error then goes through `Stt.SttLoop.Fail`.
- The `rotate_audio` and `user_transcript` messages sent to the client are counted
  (`rotations`) or recorded (`echoes`), not serialised as JSON. A failed echo send is
  ignored, as in the code.
- Debug and error printing is left out.
- `confidence` is an opaque real that no stage inspects. The flush transcript's
  confidence is 0.0, the record's default.
- Whitespace is the ASCII whitespace that `str.strip` and the regular-expression class
  `\s` accept. Unicode whitespace outside ASCII is left out.
- Text frames are modelled by what `json.loads` and the `type` test see: a config
  message, any other valid JSON, or unparsable text. The last two change nothing.
- Gate.Connection.Receive: a `listen_only` value that is not a boolean is not
  modelled. Python would use its truthiness. The model takes a boolean, or false when
  the key is missing.
- Stt.SttLoop.Poll: a sentinel taken mid-session ends the loop, as the code evidently
  intends. As written, the request generator raises `StopAsyncIteration` inside an
  async generator, which Python turns into a `RuntimeError` inside the recognition
  call. What the grpc client then reports is not part of this model.
- `invoke_agent` (ChatBot/invoke_agent.py:7-13) is a single agent call with no logic
  of its own and is not part of this model.
- The commented-out ElevenLabs synthesiser and the old `agent_stream` are dead code
  and are not modelled.
- Authentication, persistence, tools and HTTP routing are not part of this model.
- `code_submission` text frames, like any other valid JSON that is not a `config`
  message, reach the reader as `Gate.OtherMessage` and change nothing. The reader in
  routes/websocketStream.py:44-62 acts only on `config` frames.
- The event record's `transcript` field is never read by the core and is not
  modelled.

## Findings

| source | as written | input that shows it | evidently intended | confidence | as-written member | corrected member |
|---|---|---|---|---|---|---|
| routes/websocketStream.py:53-60 | The reader sets `listen_only` to false at once, but the flush command waits in the event queue behind events that are already queued. The gate handles those events under the new flag and forwards a final transcript it should have buffered. | Listen-only mode with "first" already in the buffer. Final "second" is queued, then the config message `{"type": "config", "listen_only": false}` arrives before the gate dequeues "second". Downstream receives "second" and then "first". | Buffered speech is released before anything spoken after it, so the agent hears utterances in arrival order. | not executed | Gate.ModeSwitchReorders | Gate.OwnedGateKeepsOrder |
