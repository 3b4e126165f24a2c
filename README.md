# Speech Service WebSocket client and voice-command matcher, in Dafny

This project models two parts of a Unity application.

The first part is the client side of the Microsoft Speech Service WebSocket protocol, `SpeechRecognitionClient`. It covers:

- the binary and text messages the client sends: the audio header, its 2-byte big-endian length prefix, audio frames, the zero-body terminator, and the `speech.config` message;
- the file job's chunking loop;
- the 44-byte RIFF/WAVE header of the voice job;
- the line-oriented parser of the text messages the service sends back;
- the receive dispatch;
- the session's `JobState` transitions.

The second part is the voice-command matcher `SpawnController.SetRecognizedText`. It records each recognised phrase, removes punctuation and splits the phrase into words. For each word it runs the first command whose text matches, ignoring case. Only `Spawn` commands have an effect, and the model logs that effect as the instantiated prefab.

Modules:

- `Common`: `Option`, `Outcome` (returned or thrown), `Completion`, bytes, and the platform newline. Also ASCII encoding, C# `int` wrap-around and truncating division, and `BitConverter`'s little-endian layouts.
- `Text`: `Trim`, `Split`, character filtering, ASCII `ToLower`, and `StringReader.ReadLine`.
- `Framing`: the outbound message layouts, with `RequestId` and `Timestamp` typed by their fixed formats.
- `Chunking`: the file loop as a function of the file. Includes the frame count, each frame's payload, and which bytes reach the service.
- `Wav`: `BuildRiffWAVHeader`, with its checked `UInt16` conversions.
- `Parser`: `ParseWebSocketSpeechResult`. It is written twice: as the imperative loop, and as a positional reading of the lines that the loop is proved to compute.
- `Client`:
  - the socket, as a class with an open flag and a log of sent frames;
  - the file stream, as a class with a read position;
  - the session class, with its job methods and the receive loop.

  Each sender and the receive loop is proved against a specification function (`FileSend`, `VoiceSend`, `ReceiveAll`).
- `Spawn`: the `SpawnController` class and the command-matching functions that specify it.

The socket is a flag plus a log. The sending task checks whether the connection is open at fixed points, and those checks are an oracle:

- `openAt(0)` is the check before the config message;
- `openAt(k + 1)` is the check before chunk `k`;
- `openAt(n + 1)` is the socket's state when the terminator is sent.

The clock readings are indexed the same way.

Where the code and the prose description of the system differ, the model follows the code:

- **Short header lines throw.** A non-empty header line shorter than its name makes `Substring` throw. The receive loop's `catch` then ends receiving; the job does not fail.
- **Headers sit at raw line indices 0, 1 and 2.** Empty lines still take an index. They are not simply the first three non-empty lines.
- **The body is not the raw tail of the message.** It holds only the non-empty trimmed lines from the first `{` line on, each followed by the newline.
- **There is no `Unknown` path.** An unrecognised path leaves `Path` unset. `Option` models this, since the enum's default is not part of this model.
- **The voice job never sets `Error`.**
- **A failed open-check is not an error.** The sender returns normally and leaves the state in `PreparingJob` or `ProcessingAudio`.

## Model

| member | source | states |
|---|---|---|
| Common.Wrap32 | Assets/Scripts/SpeechRecognitionService.cs:440 | unchecked `int` arithmetic: the result is an int32 congruent to the exact value modulo 2^32, and equal to it when it fits |
| Common.CsDiv | Assets/Scripts/SpeechRecognitionService.cs:439 | `resolution / 8` truncates toward zero: floor division for non-negative operands, the negated quotient of the magnitude otherwise |
| Common.LE16 | Assets/Scripts/SpeechRecognitionService.cs:436-437 | `BitConverter.GetBytes(UInt16)` on a little-endian host: two bytes, low byte first, whose little-endian reading is the value |
| Common.LE32 | Assets/Scripts/SpeechRecognitionService.cs:438 | `BitConverter.GetBytes(int)`: four bytes whose little-endian reading is the value |
| Common.LE16RoundTrip | Assets/Scripts/SpeechRecognitionService.cs:436-442 | reading a written 16-bit field back gives the value |
| Common.LE32RoundTrip | Assets/Scripts/SpeechRecognitionService.cs:431-445 | reading a written 32-bit field back gives the value |
| Common.AsciiBytes | Assets/Scripts/SpeechRecognitionService.cs:402 | `Encoding.ASCII.GetBytes` writes one byte per character |
| Common.AsciiRoundTrip | Assets/Scripts/SpeechRecognitionService.cs:402 | ASCII text decodes back from its bytes unchanged |
| Text.Trim | Assets/Scripts/SpeechRecognitionService.cs:538 | `Trim()` gives the contiguous middle of the line, with no white space at either end; it is empty exactly when the line is all white space, and it is the line itself when there is none |
| Text.AsciiLower | Assets/Scripts/SpeechRecognitionService.cs:544 | `ToLower()` maps each character through AsciiLowerChar, whose contract shifts exactly `A`-`Z` up by 32 and leaves every other character alone |
| Text.Split | Assets/_Project/Scripts/Controllers/SpawnController.cs:16 | `Split` gives at least one piece, and no piece holds a separator |
| Text.SplitPieces | Assets/_Project/Scripts/Controllers/SpawnController.cs:16 | the pieces joined back give the input without its separators, and there is one piece more than there are separators (empty pieces included) |
| Text.Keep | Assets/_Project/Scripts/Controllers/SpawnController.cs:15 | the `Where` filter keeps no character the predicate rejects |
| Text.KeepLength | Assets/_Project/Scripts/Controllers/SpawnController.cs:15 | the filter drops exactly the characters the predicate accepts, no more |
| Text.ReadLine | Assets/Scripts/SpeechRecognitionService.cs:536 | `StringReader.ReadLine` returns null exactly at the end of the text; otherwise the line holds no CR or LF and the rest of the text is shorter. ReadLineBreaks says where it cuts |
| Text.ReadLineBreaks | Assets/Scripts/SpeechRecognitionService.cs:536 | the line is the text before the first CR or LF, and the rest starts after that break, a CRLF counting as one break |
| Text.BreakLength | Assets/Scripts/SpeechRecognitionService.cs:536 | the break at the end of a line is 0 characters at the end of the text, 2 exactly for CRLF, and 1 otherwise |
| Text.Lines | Assets/Scripts/SpeechRecognitionService.cs:536 | definition: the `while` loop's successive `ReadLine` results until null; LinesHaveNoBreaks, LinesOfJoined and LinesOfAnyBreaks state what it yields |
| Text.LinesHaveNoBreaks | Assets/Scripts/SpeechRecognitionService.cs:536 | no line read holds a line break, and there are no more lines than characters |
| Text.ReadLineOfAnyBreak | Assets/Scripts/SpeechRecognitionService.cs:536 | a line followed by CRLF, LF or CR is read off whole, whichever newline the host uses, unless a lone CR is directly followed by an LF |
| Text.LinesOfAnyBreaks | Assets/Scripts/SpeechRecognitionService.cs:536 | text whose lines are separated by any mix of CRLF, LF and CR reads back as exactly those lines, independent of the host newline (provided no lone CR is followed by an empty line and the last line is not empty) |
| Text.CrlfTextOnAnyHost | Assets/Scripts/SpeechRecognitionService.cs:536 | a CRLF-separated message from the service splits into its two lines with no CR left on the first, on an LF host too |
| Text.LinesOfJoined | Assets/Scripts/SpeechRecognitionService.cs:536 | lines written with the platform newline between them are read back one by one |
| Framing.ReverseBytes | Assets/Scripts/SpeechRecognitionService.cs:518-521 | the low byte of the result is the high byte of the input and vice versa |
| Framing.ReverseBytesInvolutive | Assets/Scripts/SpeechRecognitionService.cs:518-521 | reversing twice gives the value back |
| Framing.BuildAudioPacketHeaderHead | Assets/Scripts/SpeechRecognitionService.cs:405-413 | the prefix is `[(n mod 65536) / 256, (n mod 65536) mod 256]` for a header of n bytes, on little- and big-endian hosts alike |
| Framing.AudioHeaderText | Assets/Scripts/SpeechRecognitionService.cs:393-403 | the header text is 114 characters plus three newlines long |
| Framing.AudioHeaderLines | Assets/Scripts/SpeechRecognitionService.cs:397-400 | the header reads as exactly the lines `path:audio`, `x-requestid:<id>`, `x-timestamp:<ts>` and `content-type:audio/x-wav`, with no newline after the last |
| Framing.AudioHeaderAscii | Assets/Scripts/SpeechRecognitionService.cs:402 | the header is plain ASCII, so its bytes decode back to it |
| Framing.BuildAudioPacketHeader | Assets/Scripts/SpeechRecognitionService.cs:393-403 | the builder's appends give the ASCII bytes of the four-line header text, of the same length for every id and timestamp |
| Framing.AudioHeaderLength | Assets/Scripts/SpeechRecognitionService.cs:393-403 | every audio header has the same length for a given newline |
| Framing.AudioFrame | Assets/Scripts/SpeechRecognitionService.cs:359 | an audio frame is prefix, header and data, of length 2 + header + data, with each part at its offset |
| Framing.SplitAudioFrame | Assets/Scripts/SpeechRecognitionService.cs:359 | a reader of the big-endian prefix gets the header and the data of an audio frame back, on either host |
| Framing.TerminatorFrame | Assets/Scripts/SpeechRecognitionService.cs:384 | the terminator is prefix and header only, which reads back as that header with an empty body |
| Framing.ConfigMessageText | Assets/Scripts/SpeechRecognitionService.cs:304-310 | the config message starts with the `p` of `path` (there is no length prefix) and ends with the JSON payload |
| Framing.ConfigMessageLines | Assets/Scripts/SpeechRecognitionService.cs:305-310 | the config message reads as `path:speech.config`, `x-requestid`, `x-timestamp` and `content-type:application/json; charset=utf-8`, then a blank line, then the JSON's lines |
| Framing.CreateSpeechConfigMessagePayloadBuffer | Assets/Scripts/SpeechRecognitionService.cs:296-316 | the builder's appends give the encoded config message text |
| Chunking.ByteLenOfNewLine | Assets/Scripts/SpeechRecognitionService.cs:127 | `byteLen = 8192 - header - 2` is 8070 with CRLF and 8073 with LF, and positive either way |
| Chunking.FrameCount | Assets/Scripts/SpeechRecognitionService.cs:121 | definition of the as-written iteration count ((L - 1) / (byteLen + 1) + 1 for a non-empty file); FrameCountIsCeiling states its meaning |
| Chunking.FrameCountIsCeiling | Assets/Scripts/SpeechRecognitionService.cs:121-136 | the loop runs ceil(L / (byteLen + 1)) times: its count is the least n with n * (byteLen + 1) >= L |
| Chunking.CursorAfter | Assets/Scripts/SpeechRecognitionService.cs:121-136 | before each iteration the cursor k * (byteLen + 1) is below the file length |
| Chunking.ChunkPayload | Assets/Scripts/SpeechRecognitionService.cs:128-129 | each chunk's buffer is exactly byteLen bytes |
| Chunking.Payloads | Assets/Scripts/SpeechRecognitionService.cs:121-142 | n frames carry n * byteLen audio bytes |
| Chunking.PayloadsArePaddedPrefix | Assets/Scripts/SpeechRecognitionService.cs:121-142 | the first n frames carry the file's first n * byteLen bytes, then zero padding once the file runs out |
| Chunking.AsWrittenSentAudio | Assets/Scripts/SpeechRecognitionService.cs:121-142 | the audio that reaches the service is the file prefix of FrameCount * byteLen bytes, zero-padded |
| Chunking.AsWrittenDropsLastByte | Assets/Scripts/SpeechRecognitionService.cs:121-136 | for a file of byteLen + 1 bytes, one frame is sent and the last byte is not in it |
| Chunking.CorrectedFrameCount | Assets/Scripts/SpeechRecognitionService.cs:121-136 | the intended count ceil(L / byteLen): the least n with n * byteLen >= L |
| Chunking.CorrectedChunksCoverFile | Assets/Scripts/SpeechRecognitionService.cs:121-136 | with the intended count, the frames carry the whole file in order, followed only by zero padding |
| Chunking.FileFrameSize | Assets/Scripts/SpeechRecognitionService.cs:127-131 | every file frame is exactly 8192 bytes |
| Wav.ToUInt16 | Assets/Scripts/SpeechRecognitionService.cs:437-442 | `Convert.ToUInt16` returns the value exactly when it lies in 0..65535 and throws otherwise |
| Wav.Tag | Assets/Scripts/SpeechRecognitionService.cs:428-444 | a chunk tag is its four ASCII characters |
| Wav.BuildRiffWavHeader | Assets/Scripts/SpeechRecognitionService.cs:424-448 | the builder throws exactly when `channels`, the block align or `resolution` is outside 0..65535. Otherwise the header is 44 bytes: `RIFF`, `WAVE`, `fmt ` and `data` at offsets 0, 8, 12 and 36; 36 + nbsamples at 4; `resolution` at 16; format 1 at 20; channels at 22; rate at 24; the wrapped `rate * (resolution / 8) * channels` at 28; block align at 32; bit depth at 34; nbsamples at 40 |
| Wav.SixteenBitHeaderIsWellFormed | Assets/Scripts/SpeechRecognitionService.cs:434 | for 16-bit audio, a RIFF reader skipping the `fmt ` chunk by its stored size finds the `data` tag |
| Wav.EightBitHeaderIsMalformed | Assets/Scripts/SpeechRecognitionService.cs:434 | for 8-bit mono audio at 8000 Hz the stored `fmt ` size is 8, and the `data` tag is not where a reader looks for it |
| Wav.BuildCanonicalWavHeader | Assets/Scripts/SpeechRecognitionService.cs:424-448 | with 16 written at 16..19, every other field is as above, and the data chunk is always found |
| Parser.PathOf | Assets/Scripts/SpeechRecognitionService.cs:572-594 | the five path names map to their values and `turn.end` also maps to `SpeechEndDetected`; every other text leaves the path unset (both directions) |
| Parser.RequestIdField | Assets/Scripts/SpeechRecognitionService.cs:543-548 | definition of case 0: an empty line gives nothing; a line shorter than 11 throws; otherwise a case-insensitive `x-requestid` prefix gives `Substring(12)`, which throws on an 11-character line. HeaderNamesIgnoreCase and ShortHeaderLineThrows state its consequences |
| Parser.ContentTypeField | Assets/Scripts/SpeechRecognitionService.cs:550-566 | definition of case 1: the text before the first `;` is trimmed and matched against `content-type` on 12 characters, then the text after it against `charset` on 7; each `Substring` throws on a shorter piece |
| Parser.PathField | Assets/Scripts/SpeechRecognitionService.cs:568-596 | definition of case 2: `path` matched on 4 characters, then the rest after one character trimmed, lower-cased and mapped by PathOf; shorter lines throw |
| Parser.StepLine | Assets/Scripts/SpeechRecognitionService.cs:539-615 | definition of one loop iteration on a trimmed line at a raw index: empty lines change nothing, indices 0-2 go to the three header cases, later lines start or extend the body |
| Parser.FoldLines | Assets/Scripts/SpeechRecognitionService.cs:536-618 | definition of the loop over all trimmed lines, stopping at the first throw; FoldIsPositional states its meaning |
| Parser.ParseSpec | Assets/Scripts/SpeechRecognitionService.cs:523-633 | definition of the whole parse: the loop over the trimmed lines, then the deserialisation of a non-empty body; ParseIsPositional, ParseKeepsHeaders and ResultIsDeserialisedBody state its meaning |
| Parser.Trimmed | Assets/Scripts/SpeechRecognitionService.cs:538 | each line is trimmed before it is looked at: element i is Trim of line i, with Trim's contract giving what that is |
| Parser.FirstBraceFrom | Assets/Scripts/SpeechRecognitionService.cs:599-608 | the body start is the first line at or after index 3 that begins with `{`, with none before it, or the end when there is none |
| Parser.FoldIsPositional | Assets/Scripts/SpeechRecognitionService.cs:536-618 | the line loop throws exactly when one of lines 0, 1 and 2 is a malformed header. Otherwise the header fields come from those three lines alone, and the body is every non-empty line from the first brace line past the headers, each with a newline |
| Parser.ParseIsPositional | Assets/Scripts/SpeechRecognitionService.cs:523-633 | the whole parse is that positional reading followed by the body's deserialisation |
| Parser.ShortHeaderLineThrows | Assets/Scripts/SpeechRecognitionService.cs:544-569 | a non-empty line at index 0, 1 or 2 shorter than 11, 12 or 4 characters makes the parse throw |
| Parser.HeaderNamesIgnoreCase | Assets/Scripts/SpeechRecognitionService.cs:544-571 | names are matched on a fixed-length prefix regardless of ASCII case, and the value starts one character after the name, whatever that character is |
| Parser.RequestIdOnlyAtIndexZero | Assets/Scripts/SpeechRecognitionService.cs:541-548 | when raw line 0 is empty or is not a request-id header, a returned result has no RequestId, even if a later line is one (empty lines still consume an index, line 617) |
| Parser.PathFromThirdLine | Assets/Scripts/SpeechRecognitionService.cs:568-596 | when raw line 2 is a path header, a returned result's path is the mapped value of the trimmed, lower-cased text after `path:` |
| Parser.ParseKeepsHeaders | Assets/Scripts/SpeechRecognitionService.cs:541-596 | a returned result carries exactly the header fields of lines 0 to 2 |
| Parser.ResultIsDeserialisedBody | Assets/Scripts/SpeechRecognitionService.cs:598-629 | a `Result` is only ever the non-null deserialisation of a non-empty body, and there is none when no brace line follows the headers |
| Parser.ProcessLine | Assets/Scripts/SpeechRecognitionService.cs:539-615 | the `switch (linecount)` on one trimmed line is the positional step of the loop specification |
| Parser.ReadAllLines | Assets/Scripts/SpeechRecognitionService.cs:527-618 | the `while` loop over `ReadLine` computes the fold of the step over all trimmed lines |
| Parser.ParseWebSocketSpeechResult | Assets/Scripts/SpeechRecognitionService.cs:523-633 | the method returns what the parse specification says, including Thrown for every `Substring` on a short line and for a deserialiser that throws |
| Client.WebSocket.Observe | Assets/Scripts/SpeechRecognitionService.cs:101 | a socket found closed stays closed; the log is untouched |
| Client.WebSocket.Connect | Assets/Scripts/SpeechRecognitionService.cs:90 | a freshly connected socket is open and has sent nothing |
| Client.WebSocket.Abort | Assets/Scripts/SpeechRecognitionService.cs:463 | a `ReceiveAsync` failing on a connection that is gone leaves the socket not open, with nothing sent |
| Client.WebSocket.SendAsync | Assets/Scripts/SpeechRecognitionService.cs:105 | a frame is appended to the log on an open socket; on a closed one the call faults and nothing is sent |
| Client.WebSocket.CloseOutputAsync | Assets/Scripts/SpeechRecognitionService.cs:503 | closing leaves the socket closed, with nothing sent |
| Client.FileStream.Read | Assets/Scripts/SpeechRecognitionService.cs:129 | a read copies min(count, remaining) bytes from the position into the buffer at the offset, advances the position by that much, and leaves the rest of the buffer as it was |
| Client.FileStream.OpenRead | Assets/Scripts/SpeechRecognitionService.cs:114-115 | an opened stream holds the file's bytes at read position 0 |
| Client.FileByteLen | Assets/Scripts/SpeechRecognitionService.cs:127 | the payload size `8192 - header - 2` of every file frame is positive, so each pass of the loop moves the stream forward; its values, 8070 on a CRLF host and 8073 on an LF host, are those of Chunking.ByteLenOfNewLine |
| Client.ChunkFrames | Assets/Scripts/SpeechRecognitionService.cs:121-142 | exactly m frames, frame k being ChunkFrame k: the audio frame of ChunkPayload k under a header stamped with clock reading k + 1. Its sizes and contents follow from ChunkFrameSize and PayloadsArePaddedPrefix |
| Client.FirstClosedFrom | Assets/Scripts/SpeechRecognitionService.cs:135 | the first chunk whose open-check fails lies within range, and its check did fail |
| Client.ChecksBeforeFirstClosedPass | Assets/Scripts/SpeechRecognitionService.cs:135 | every check before the first failing one passed |
| Client.Dispatch | Assets/Scripts/SpeechRecognitionService.cs:472-494 | a hypothesis sets RecognizedText to `Result.Text` and a phrase sets it to `Result.DisplayText` and the state to Completed. Any other message changes neither. Every dispatched message becomes LastMessageReceived. A hypothesis or phrase without a Result throws (both directions) |
| Client.ReceiveStep | Assets/Scripts/SpeechRecognitionService.cs:463-510 | definition of one pass: a Close ends the loop as PeerClosed, a binary message changes nothing, a text message is parsed and dispatched, and a parse error or a missing Result ends it as Caught |
| Client.ReceiveAll | Assets/Scripts/SpeechRecognitionService.cs:453-517 | definition of the loop over the inbox in order, ending as Dropped when no message is left; ReceivingOnlyCompletes, CompletedIsStable, PhraseCompletes, BinaryIsIgnored and ParseErrorEndsReceiving state its meaning |
| Client.FileSend | Assets/Scripts/SpeechRecognitionService.cs:94-145 | definition of the file sender: nothing when check 0 fails; the config frame then a fault for a missing file; else the config frame, the chunk frames up to the first failing check, and the terminator when all passed. FileJobAllOpen, FileJobClosedReturnsEarly and FileJobMissingFile state its meaning |
| Client.VoiceSend | Assets/Scripts/SpeechRecognitionService.cs:192-223 | definition of the voice sender: nothing when check 0 fails; else the config frame then the WAV header message when it was built and the socket is open, faulting when the header throws |
| Client.ReceivingOnlyCompletes | Assets/Scripts/SpeechRecognitionService.cs:453-517 | the receive loop never moves the state anywhere but to Completed |
| Client.CompletedIsStable | Assets/Scripts/SpeechRecognitionService.cs:482-486 | once Completed, receiving keeps it Completed |
| Client.PhraseCompletes | Assets/Scripts/SpeechRecognitionService.cs:482-486 | a phrase message with a Result completes the job, whatever follows it |
| Client.HypothesisUpdatesText | Assets/Scripts/SpeechRecognitionService.cs:478-489 | a hypothesis with a Result changes RecognizedText and LastMessageReceived and nothing else |
| Client.BinaryIsIgnored | Assets/Scripts/SpeechRecognitionService.cs:496-498 | a binary message changes nothing and the loop goes on |
| Client.ParseErrorEndsReceiving | Assets/Scripts/SpeechRecognitionService.cs:513-516 | a message that makes the parser throw ends receiving with nothing changed, and later messages are never looked at |
| Client.AllOpenReachesEnd | Assets/Scripts/SpeechRecognitionService.cs:135 | with every check open, no chunk's check fails |
| Client.FileJobAllOpen | Assets/Scripts/SpeechRecognitionService.cs:94-145 | with the connection open throughout, the file job sends the config message, FrameCount chunk frames and exactly one terminator, and completes normally |
| Client.ChunkFrameSize | Assets/Scripts/SpeechRecognitionService.cs:127-131 | every chunk frame sent is 8192 bytes |
| Client.ClosedFileAudio | Assets/Scripts/SpeechRecognitionService.cs:135 | a failed chunk check ends the audio at that chunk, with no terminator and no fault |
| Client.FileJobClosedReturnsEarly | Assets/Scripts/SpeechRecognitionService.cs:101-135 | a failed open-check makes the sender return normally without a terminator. If check 0 failed, nothing is sent and the audio phase is never reached. Otherwise the config message and the chunks before the failing one are sent |
| Client.FileJobMissingFile | Assets/Scripts/SpeechRecognitionService.cs:114-115 | a missing file faults the sender after the config message |
| Client.SpeechRecognitionClient.constructor | Assets/Scripts/SpeechRecognitionService.cs:74-82 | a new client is Ready, with no text, message, request id or socket |
| Client.SpeechRecognitionClient.ApplyResult | Assets/Scripts/SpeechRecognitionService.cs:478-489 | the text branch updates the fields as Dispatch says, and reports the NullReferenceException case |
| Client.SpeechRecognitionClient.HandleMessage | Assets/Scripts/SpeechRecognitionService.cs:463-510 | one pass of the loop body does what the receive step specification says: a text message is parsed and dispatched, a binary one is ignored, a Close closes the socket and ends the loop |
| Client.SpeechRecognitionClient.Receiving | Assets/Scripts/SpeechRecognitionService.cs:453-517 | the receive loop leaves the fields as ReceiveAll says and sends nothing, and it never faults. The socket stays open only when the loop ended on an exception of the message handling; the peer's Close closes it, and a `ReceiveAsync` that fails because no message comes any more aborts it |
| Client.SpeechRecognitionClient.SendEmptyAudioMessageToWebSocketClient | Assets/Scripts/SpeechRecognitionService.cs:378-386 | the terminator frame is sent when the socket is open; with no open-check of its own, a closed socket faults |
| Client.SpeechRecognitionClient.SendAudioPacket | Assets/Scripts/SpeechRecognitionService.cs:350-369 | one audio frame with the given data is sent when the socket is open and skipped otherwise. Without a socket the call throws. An unawaited send never faults the caller |
| Client.SpeechRecognitionClient.SendFileChunk | Assets/Scripts/SpeechRecognitionService.cs:123-138 | one loop pass builds chunk k from a fresh zeroed buffer and the stream, advances the stream by byteLen (or to the end), and sends the chunk's frame exactly when its check passes |
| Client.SpeechRecognitionClient.StreamChunks | Assets/Scripts/SpeechRecognitionService.cs:119-142 | the `for` loop sends the chunk frames up to the first failing check, or all FrameCount of them |
| Client.SpeechRecognitionClient.StreamFile | Assets/Scripts/SpeechRecognitionService.cs:119-144 | the loop then the terminator send exactly the file job's audio frames; the sender faults only when the terminator meets a closed socket |
| Client.SpeechRecognitionClient.FileJobSender | Assets/Scripts/SpeechRecognitionService.cs:94-145 | the sending task does what FileSend says: the frames, how it ends, the socket's state, and ProcessingAudio once the file is open |
| Client.SpeechRecognitionClient.CreateSpeechRecognitionJobFromFile | Assets/Scripts/SpeechRecognitionService.cs:84-171 | a failed connection gives false and Error. Otherwise the frames are those of FileSend and the fields follow the receive loop from the sender's state; a faulted sender gives false and Error |
| Client.SpeechRecognitionClient.SendConfig | Assets/Scripts/SpeechRecognitionService.cs:99-105 | the config message is sent exactly when the check before it passes |
| Client.SpeechRecognitionClient.SendWavHeader | Assets/Scripts/SpeechRecognitionService.cs:216-222 | the WAV header is built and sent as one audio message. A header that throws faults the sender before ReadyForAudioPackets |
| Client.SpeechRecognitionClient.VoiceJobSender | Assets/Scripts/SpeechRecognitionService.cs:192-223 | the sending task sets CurrentRequestId and does what VoiceSend says: config, WAV header, then ReadyForAudioPackets |
| Client.SpeechRecognitionClient.CreateSpeechRecognitionJobFromVoice | Assets/Scripts/SpeechRecognitionService.cs:182-247 | a failed connection gives false and leaves PreparingJob. Otherwise the frames are those of VoiceSend for the WAV header BuildRiffWavHeader specifies, and the fields follow the receive loop. The state is never set to Error |
| Spawn.FirstMatch | Assets/_Project/Scripts/Controllers/SpawnController.cs:19 | the index found is that of the first command whose lowercased text equals the lowercased word: no earlier command matches |
| Spawn.Words | Assets/_Project/Scripts/Controllers/SpawnController.cs:15-16 | definition: the text without punctuation, split on white space; WordsOfPhrase states what the words are |
| Spawn.Matches | Assets/_Project/Scripts/Controllers/SpawnController.cs:19 | definition: a command matches a word when both lower-cased are equal |
| Spawn.FindCommand | Assets/_Project/Scripts/Controllers/SpawnController.cs:19-20 | a found command is in the list and matches the word; FindCommandIsFirstMatch states that it is the first such, and that none is found exactly when nothing matches |
| Spawn.FindCommandIsFirstMatch | Assets/_Project/Scripts/Controllers/SpawnController.cs:19-20 | `FirstOrDefault` gives null exactly when no command matches, and otherwise a matching command with no match before it |
| Spawn.RunsAppend | Assets/_Project/Scripts/Controllers/SpawnController.cs:17-24 | the commands run for two word lists in turn are those of the first, then those of the second, in word order |
| Spawn.SpawnsAppend | Assets/_Project/Scripts/Controllers/SpawnController.cs:17-24 | the prefabs spawned for two word lists in turn are those of each, in order |
| Spawn.RunsCount | Assets/_Project/Scripts/Controllers/SpawnController.cs:17-24 | a command runs once for each word that finds it |
| Spawn.RepeatedWordRunsRepeatedly | Assets/_Project/Scripts/Controllers/SpawnController.cs:17-24 | a word occurring k times runs its command at least k times |
| Spawn.RunsComeFromList | Assets/_Project/Scripts/Controllers/SpawnController.cs:19 | every command run is in the list, and there are no more runs than words |
| Spawn.EffectsAppend | Assets/_Project/Scripts/Controllers/SpawnController.cs:32-40 | the effects of two runs of commands in turn are those of each, in order |
| Spawn.SpawnsComeFromSpawnCommands | Assets/_Project/Scripts/Controllers/SpawnController.cs:32-40 | every prefab spawned belongs to a Spawn command that was run; Delete, Find and Change spawn nothing |
| Spawn.WordsOfPhrase | Assets/_Project/Scripts/Controllers/SpawnController.cs:15-16 | the words keep every character of the phrase except punctuation and white space, in order. There is one word more than there are white-space characters left after punctuation is removed, and no word holds either kind |
| Spawn.SplitKeepsChars | Assets/_Project/Scripts/Controllers/SpawnController.cs:16 | each character of a piece of the split occurs in the text that was split |
| Spawn.AppendEffect | Assets/_Project/Scripts/Controllers/SpawnController.cs:20-22 | running the found command, or nothing when none was found, adds exactly its effect |
| Spawn.SpawnsStep | Assets/_Project/Scripts/Controllers/SpawnController.cs:17-24 | one more word adds exactly the effect of the command it finds, or nothing, after the spawns of the words before it |
| Spawn.SpawnController.constructor | Assets/_Project/Scripts/Controllers/SpawnController.cs:9-11 | a controller starts with no phrases, no current phrase and nothing spawned |
| Spawn.SpawnController.SetRecognizedText | Assets/_Project/Scripts/Controllers/SpawnController.cs:12-25 | the phrase is appended once, at the end, with earlier entries unchanged. The prefabs spawned are those of the phrase's words, in order. The current phrase is unchanged |
| Spawn.SpawnController.SetCurrentText | Assets/_Project/Scripts/Controllers/SpawnController.cs:27-30 | the current phrase becomes the text and nothing else changes |
| Spawn.SpawnController.RunCommand | Assets/_Project/Scripts/Controllers/SpawnController.cs:32-40 | only a Spawn command spawns, its own prefab; the other types do nothing |
| Spawn.SpawnController.SpawnObject | Assets/_Project/Scripts/Controllers/SpawnController.cs:42-45 | one instantiation of the prefab is logged; nothing else changes |

## Left out

- **Socket transport.** `InitializeSpeechWebSocketClient`, the endpoint URL, the handshake headers and `ConnectAsync` are outside the model, which is not about the transport. A job method's `connects` parameter says whether the connection succeeded. `useClassicBingSpeechService` is kept as a field only, because it only selects the URL.
- **Task concurrency.** The sending task and the receive loop run concurrently in the source. The model runs the sender to completion and then the receive loop over a scripted list of inbound messages. The connection state the sender observes at each check is the `openAt` oracle, so a close at any point between two checks is covered. A close between a passing check and the send right after it (lines 101-105 for the config message, 135-138 for a chunk) is not: in the source that send throws, the sender faults and the file job ends in `Error`; in the model every passing check is followed by a send that succeeds. Interleavings that change the order of field writes are not. For example, a phrase that arrives before the sender sets `ProcessingAudio` would have its `Completed` overwritten.
- **ReceiveAsync on a finished inbox.** When the scripted inbox runs out, the model takes `ReceiveAsync` to have failed on a connection that is gone: the socket is aborted, the exception is caught and the loop ends.
- **The 512-byte receive buffer.** Messages spanning several receives are not modelled, because that is transport fragmentation. Each inbound text message is one decoded string.
- **The receive `default:` branch.** It is left out: the three message kinds are the only ones `ClientWebSocket` delivers.
- **The `OnMessageReceived` event.** Raising it is left out, because its subscribers are outside this model. So is a subscriber that throws.
- **Newtonsoft.Json.** The config payload is the constant text `SerializeObject` produces for the fixed anonymous object. `DeserializeObject` is a parameter that returns a content value, null, or throws.
- **Clock and identifiers.** `DateTime.UtcNow` and `Guid.NewGuid` are parameters: a clock indexed by the sender's steps, and a request id. Both are typed by their fixed formats: 32 lower-case hex digits, and `yyyy-MM-ddTHH:mm:ss.fffZ`. The timestamp format assumes the current culture's time separator is `:`, since `ToString` at lines 307 and 399 is called without a culture. The 24-character length, and so the header lengths and the 8070/8073 payload sizes, hold for any one-character separator.
- **Platform text.** `Environment.NewLine` is a parameter (CRLF or LF). The parser's `ToLower()` lowers ASCII letters only. Culture-dependent lowering and Unicode `IsPunctuation` are given functions in the matcher. Text sent is ASCII, where UTF-8 and ASCII agree.
- **Byte order of the WAV fields.** These are written for a little-endian host. The length prefix is modelled on both hosts.
- **Integer width of the file cursor.** The `int` cursor and the `long` file length are unbounded, because files of 2 GiB and more are not considered.
- **FileStream.** `Read` returns everything available up to the requested count, as it does for local files; short reads are not modelled. A missing file faults. Other I/O errors, and `Dispose`, are not modelled.
- **The unused pieces of the loop.** `var end`, `var dt`, the `str` in `BuildAudioPacketHeaderHead` and `Debug.Log` are logging or dead values, and are left out.
- **The receive task's fault check.** `receiving.IsFaulted` is never true, because `Receiving` catches every exception; the job model does not test it.
- **SpawnController engine code.** `Start`, `Instantiate` (logged as the prefab handle), the command colour and null entries in the command list are Unity engine or data concerns, and are left out.

## Findings

| source | as written | input that shows it | evidently intended | confidence | as-written member | corrected member |
|---|---|---|---|---|---|---|
| Assets/Scripts/SpeechRecognitionService.cs:121-136 | the loop cursor grows by `byteLen` in the body and by 1 in the step, while the stream advances by `byteLen` only | a file of 8071 bytes on a CRLF host (`byteLen` 8070): the loop runs once, and byte 8070 is never sent | advance the cursor by `byteLen` only, so that ceil(L / byteLen) frames carry the whole file | not executed | Chunking.AsWrittenDropsLastByte | Chunking.CorrectedChunksCoverFile |
| Assets/Scripts/SpeechRecognitionService.cs:434 | bytes 16..19 hold `resolution`, where the RIFF `fmt ` chunk size (16 for PCM) belongs | `BuildRiffWAVHeader(0, 8, 1, 8000)`: the stored size is 8, so a reader skipping the `fmt ` chunk lands on the byte rate instead of `data` | write the constant 16 | not executed | Wav.EightBitHeaderIsMalformed | Wav.BuildCanonicalWavHeader |

The client methods keep both loops as the source writes them, so the job model sends what the code sends. The corrected definitions stand beside them with the intended properties proved.
