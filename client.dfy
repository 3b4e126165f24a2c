/** SpeechRecognitionClient: the session object that runs a recognition job
    over one WebSocket connection. The socket is a flag and a log of the
    frames sent; the concurrency of the sending and receiving tasks is
    replaced by an oracle that says whether the connection is still open at
    each check the sender makes. */
module Client {
  import opened Common
  import opened Text
  import opened Framing
  import opened Chunking
  import opened Wav
  import opened Parser

  datatype JobState = Initializing | Ready | PreparingJob | ReadyForAudioPackets | ProcessingAudio | Completed | Error

  datatype Frame = TextFrame(payload: seq<byte>) | BinaryFrame(payload: seq<byte>)

  /** ClientWebSocket as the client code sees it: whether it is open, and
      the frames it has accepted, in order. */
  class WebSocket {
    var isOpen: bool
    var sent: seq<Frame>

    /** A connection that ConnectAsync has just opened. */
    constructor Connect()
      ensures isOpen && sent == []
    {
      isOpen := true;
      sent := [];
    }

    /** The connection state as the sender next finds it: once the peer or
        the transport has closed the socket it stays closed. */
    method Observe(stillOpen: bool)
      modifies this
      ensures isOpen == (old(isOpen) && stillOpen) && sent == old(sent)
    {
      isOpen := isOpen && stillOpen;
    }

    /** SendAsync: a frame is accepted on an open socket; on a closed one the
        call throws. */
    method SendAsync(f: Frame) returns (c: Completion)
      modifies this
      ensures isOpen == old(isOpen)
      ensures old(isOpen) ==> c == Normal && sent == old(sent) + [f]
      ensures !old(isOpen) ==> c == Faulted && sent == old(sent)
    {
      if isOpen {
        sent := sent + [f];
        c := Normal;
      } else {
        c := Faulted;
      }
    }

    method CloseOutputAsync()
      modifies this
      ensures !isOpen && sent == old(sent)
    {
      isOpen := false;
    }

    /** A ReceiveAsync that fails because the connection is gone: the socket
        is aborted and no longer open. */
    method Abort()
      modifies this
      ensures !isOpen && sent == old(sent)
    {
      isOpen := false;
    }
  }

  /** A FileStream opened for reading: the file's bytes and a read position. */
  class FileStream {
    const content: seq<byte>
    var position: nat

    ghost predicate Valid()
      reads this
    {
      position <= |content|
    }

    constructor OpenRead(content: seq<byte>)
      ensures Valid() && this.content == content && position == 0
    {
      this.content := content;
      position := 0;
    }

    /** Stream.Read: copies up to `count` bytes from the position into
        `buffer` at `offset`, and moves the position past them. */
    method Read(buffer: array<byte>, offset: nat, count: nat) returns (n: nat)
      requires Valid() && offset + count <= buffer.Length
      modifies this, buffer
      ensures Valid() && n == Min(count, |content| - old(position)) && position == old(position) + n
      ensures buffer[..] == old(buffer[..])[..offset] + content[old(position)..position] + old(buffer[..])[offset + n..]
    {
      n := Min(count, |content| - position);
      forall i | offset <= i < offset + n {
        buffer[i] := content[position + i - offset];
      }
      position := position + n;
    }
  }

  /** The audio header bytes of one message. */
  function HeaderBytes(id: RequestId, ts: Timestamp, nl: NewLine): (r: seq<byte>)
    ensures |r| == AudioHeaderLength(nl)
  {
    AsciiBytes(AudioHeaderText(id, ts, nl))
  }

  function ConfigFrame(id: RequestId, ts: Timestamp, nl: NewLine): Frame {
    TextFrame(AsciiBytes(ConfigMessageText(id, ts, nl)))
  }

  /** The audio bytes per file frame on this platform: what is left of the
      8192 once the prefix and the fixed-length header are taken out. */
  function FileByteLen(nl: NewLine): (b: nat)
    ensures b > 0
  {
    ByteLenOfNewLine(nl);
    ByteLen(AudioHeaderLength(nl))
  }

  /** The binary frame of chunk k; its header carries the (k + 1)-th clock
      reading, the config message having taken reading 0. */
  function ChunkFrame(data: seq<byte>, id: RequestId, clock: nat -> Timestamp, nl: NewLine, littleEndianHost: bool, k: nat): Frame {
    BinaryFrame(AudioFrame(HeaderBytes(id, clock(k + 1), nl), ChunkPayload(data, FileByteLen(nl), k), littleEndianHost))
  }

  function ChunkFrames(data: seq<byte>, id: RequestId, clock: nat -> Timestamp, nl: NewLine, littleEndianHost: bool, m: nat): (r: seq<Frame>)
    ensures |r| == m && forall k :: 0 <= k < m ==> r[k] == ChunkFrame(data, id, clock, nl, littleEndianHost, k)
  {
    seq(m, k requires 0 <= k < m => ChunkFrame(data, id, clock, nl, littleEndianHost, k))
  }

  function EndFrame(id: RequestId, ts: Timestamp, nl: NewLine, littleEndianHost: bool): Frame {
    BinaryFrame(TerminatorFrame(HeaderBytes(id, ts, nl), littleEndianHost))
  }

  /** The first chunk j in [k, n) whose open-check fails, or n. Check j + 1
      guards chunk j; check 0 guards the config message. */
  function FirstClosedFrom(openAt: nat -> bool, k: nat, n: nat): (m: nat)
    ensures k <= n ==> k <= m <= n
    ensures k > n ==> m == k
    ensures m < n ==> !openAt(m + 1)
    decreases n - k
  {
    if k >= n then k else if !openAt(k + 1) then k else FirstClosedFrom(openAt, k + 1, n)
  }

  /** Every check before the first failing one passed. */
  lemma {:induction false} ChecksBeforeFirstClosedPass(openAt: nat -> bool, k: nat, n: nat, j: nat)
    requires k <= j < FirstClosedFrom(openAt, k, n)
    ensures openAt(j + 1)
    decreases n - k
  {
    if j > k {
      ChecksBeforeFirstClosedPass(openAt, k + 1, n, j);
    }
  }

  /** What a sender task did: the frames it sent, how it ended, whether it
      reached its audio phase, and whether the socket is still open. */
  datatype SendResult = SendResult(frames: seq<Frame>, completion: Completion, audioStarted: bool, stillOpen: bool)

  /** The first chunk whose check fails, or the frame count. */
  function FirstClosedChunk(data: seq<byte>, openAt: nat -> bool, nl: NewLine): (m: nat)
    ensures m <= FrameCount(|data|, FileByteLen(nl))
  {
    FirstClosedFrom(openAt, 0, FrameCount(|data|, FileByteLen(nl)))
  }

  /** The terminator goes out only when every chunk's check passed and the
      socket is still open when it is sent. */
  predicate FileEnds(data: seq<byte>, openAt: nat -> bool, nl: NewLine) {
    var n := FrameCount(|data|, FileByteLen(nl));
    FirstClosedChunk(data, openAt, nl) == n && openAt(n + 1)
  }

  /** Sending the terminator to a closed socket throws. */
  predicate FileFaults(data: seq<byte>, openAt: nat -> bool, nl: NewLine) {
    var n := FrameCount(|data|, FileByteLen(nl));
    FirstClosedChunk(data, openAt, nl) == n && !openAt(n + 1)
  }

  /** The frames of the file job's audio phase. */
  function FileAudio(data: seq<byte>, id: RequestId, clock: nat -> Timestamp, openAt: nat -> bool,
                     nl: NewLine, littleEndianHost: bool): seq<Frame>
  {
    var n := FrameCount(|data|, FileByteLen(nl));
    ChunkFrames(data, id, clock, nl, littleEndianHost, FirstClosedChunk(data, openAt, nl))
      + (if FileEnds(data, openAt, nl) then [EndFrame(id, clock(n + 1), nl, littleEndianHost)] else [])
  }

  /** The sending task of the file job (the lambda passed to Task.Run). */
  function FileSend(file: Option<seq<byte>>, id: RequestId, clock: nat -> Timestamp, openAt: nat -> bool,
                    nl: NewLine, littleEndianHost: bool): SendResult
  {
    if !openAt(0) then SendResult([], Normal, false, false)
    else
      var config := [ConfigFrame(id, clock(0), nl)];
      if file.None? then SendResult(config, Faulted, false, true)
      else
        SendResult(config + FileAudio(file.value, id, clock, openAt, nl, littleEndianHost),
                   if FileFaults(file.value, openAt, nl) then Faulted else Normal,
                   true, FileEnds(file.value, openAt, nl))
  }

  /** The frames of the voice job's audio phase: the WAV header as one
      audio message, when it was built and the socket is still open. */
  function VoiceAudio(id: RequestId, ts: Timestamp, stillOpen: bool, wav: Outcome<seq<byte>>,
                      nl: NewLine, littleEndianHost: bool): seq<Frame>
  {
    if wav.Returned? && stillOpen then [BinaryFrame(AudioFrame(HeaderBytes(id, ts, nl), wav.value, littleEndianHost))] else []
  }

  /** The sending task of the voice job. The WAV header is given as the
      outcome of BuildRiffWavHeader. */
  function VoiceSend(id: RequestId, clock: nat -> Timestamp, openAt: nat -> bool, wav: Outcome<seq<byte>>,
                     nl: NewLine, littleEndianHost: bool): SendResult
  {
    if !openAt(0) then SendResult([], Normal, false, false)
    else
      SendResult([ConfigFrame(id, clock(0), nl)] + VoiceAudio(id, clock(1), openAt(1), wav, nl, littleEndianHost),
                 if wav.Thrown? then Faulted else Normal,
                 wav.Returned?, wav.Thrown? || openAt(1))
  }

  // ---------------------------------------------------------------------
  // Receiving: the dispatch of inbound messages.

  /** A message as ReceiveAsync delivers it; the text is already decoded. */
  datatype InboundMessage = Text(text: string) | Binary(data: seq<byte>) | Close

  /** The client fields the receiving task reads and writes. */
  datatype View = View(state: JobState, recognizedText: Option<string>, lastMessageReceived: Option<SpeechServiceResult>)

  /** The text-message case of Receiving on one parsed message; None when
      reading `Result` throws a NullReferenceException. */
  function Dispatch(v: View, wssr: SpeechServiceResult): (r: Option<View>)
    ensures r.None? <==> wssr.path in {Some(SpeechHypothesis), Some(SpeechPhrase)} && wssr.result.None?
    ensures r.Some? ==> r.value.lastMessageReceived == Some(wssr)
    ensures r.Some? ==> r.value.state == (if wssr.path == Some(SpeechPhrase) then Completed else v.state)
    ensures r.Some? && wssr.path == Some(SpeechHypothesis) ==> r.value.recognizedText == wssr.result.value.text
    ensures r.Some? && wssr.path == Some(SpeechPhrase) ==> r.value.recognizedText == wssr.result.value.displayText
    ensures r.Some? && wssr.path !in {Some(SpeechHypothesis), Some(SpeechPhrase)} ==> r.value.recognizedText == v.recognizedText
  {
    if wssr.path == Some(SpeechHypothesis) then
      if wssr.result.None? then None
      else Some(v.(recognizedText := wssr.result.value.text, lastMessageReceived := Some(wssr)))
    else if wssr.path == Some(SpeechPhrase) then
      if wssr.result.None? then None
      else Some(v.(recognizedText := wssr.result.value.displayText, state := Completed, lastMessageReceived := Some(wssr)))
    else Some(v.(lastMessageReceived := Some(wssr)))
  }

  /** How the receive loop ended: the peer's Close was answered; an
      exception of the message handling (a parse error, a null Result) was
      caught with the connection still up; or ReceiveAsync failed because
      no message will come any more (the connection is gone), and that
      exception was caught. */
  datatype ReceiveEnd = PeerClosed | Caught | Dropped

  datatype ReceiveResult = ReceiveResult(view: View, end: ReceiveEnd)

  /** One pass of the receive loop: go on with the updated fields, or stop. */
  datatype Step = Next(view: View) | Done(end: ReceiveEnd)

  function ReceiveStep(v: View, m: InboundMessage, nl: NewLine,
                       deserialize: string -> Outcome<Option<RecognitionContent>>): Step
  {
    match m
    case Close => Done(PeerClosed)
    case Binary(_) => Next(v)
    case Text(t) =>
      match ParseSpec(t, nl, deserialize)
      case Thrown => Done(Caught)
      case Returned(wssr) =>
        match Dispatch(v, wssr)
        case None => Done(Caught)
        case Some(v') => Next(v')
  }

  /** The receive loop over the messages in arrival order. */
  function ReceiveAll(v: View, inbox: seq<InboundMessage>, nl: NewLine,
                      deserialize: string -> Outcome<Option<RecognitionContent>>): ReceiveResult
    decreases |inbox|
  {
    if inbox == [] then ReceiveResult(v, Dropped)
    else
      match ReceiveStep(v, inbox[0], nl, deserialize)
      case Done(e) => ReceiveResult(v, e)
      case Next(v') => ReceiveAll(v', inbox[1..], nl, deserialize)
  }

  /** Receiving only ever moves the state to Completed. */
  lemma {:induction false} ReceivingOnlyCompletes(v: View, inbox: seq<InboundMessage>, nl: NewLine,
                                                  deserialize: string -> Outcome<Option<RecognitionContent>>)
    ensures var s := ReceiveAll(v, inbox, nl, deserialize).view.state; s == v.state || s == Completed
    decreases |inbox|
  {
    if inbox != [] {
      var st := ReceiveStep(v, inbox[0], nl, deserialize);
      if st.Next? {
        assert st.view.state == v.state || st.view.state == Completed;
        ReceivingOnlyCompletes(st.view, inbox[1..], nl, deserialize);
      }
    }
  }

  /** Once Completed, receiving keeps it Completed. */
  lemma {:induction false} CompletedIsStable(v: View, inbox: seq<InboundMessage>, nl: NewLine,
                                             deserialize: string -> Outcome<Option<RecognitionContent>>)
    requires v.state == Completed
    ensures ReceiveAll(v, inbox, nl, deserialize).view.state == Completed
    decreases |inbox|
  {
    ReceivingOnlyCompletes(v, inbox, nl, deserialize);
  }

  /** A final phrase with a body completes the job, whatever follows; a
      hypothesis only updates RecognizedText. */
  lemma PhraseCompletes(v: View, t: string, rest: seq<InboundMessage>, nl: NewLine,
                        deserialize: string -> Outcome<Option<RecognitionContent>>)
    requires ParseSpec(t, nl, deserialize).Returned?
    requires ParseSpec(t, nl, deserialize).value.path == Some(SpeechPhrase)
    requires ParseSpec(t, nl, deserialize).value.result.Some?
    ensures ReceiveAll(v, [Text(t)] + rest, nl, deserialize).view.state == Completed
  {
    var inbox := [Text(t)] + rest;
    assert inbox[0] == Text(t) && inbox[1..] == rest;
    var w := ParseSpec(t, nl, deserialize).value;
    CompletedIsStable(Dispatch(v, w).value, rest, nl, deserialize);
  }

  lemma HypothesisUpdatesText(v: View, t: string, nl: NewLine,
                              deserialize: string -> Outcome<Option<RecognitionContent>>)
    requires ParseSpec(t, nl, deserialize).Returned?
    requires ParseSpec(t, nl, deserialize).value.path == Some(SpeechHypothesis)
    requires ParseSpec(t, nl, deserialize).value.result.Some?
    ensures var w := ParseSpec(t, nl, deserialize).value;
      var r := ReceiveAll(v, [Text(t)], nl, deserialize).view;
      r == v.(recognizedText := w.result.value.text, lastMessageReceived := Some(w))
  {
    assert [Text(t)][1..] == [];
  }

  /** Binary messages are ignored. */
  lemma BinaryIsIgnored(v: View, d: seq<byte>, rest: seq<InboundMessage>, nl: NewLine,
                        deserialize: string -> Outcome<Option<RecognitionContent>>)
    ensures ReceiveAll(v, [Binary(d)] + rest, nl, deserialize) == ReceiveAll(v, rest, nl, deserialize)
  {
    assert ([Binary(d)] + rest)[1..] == rest;
  }

  /** A message that fails to parse ends receiving with nothing changed,
      and the messages after it are never looked at. */
  lemma ParseErrorEndsReceiving(v: View, t: string, rest: seq<InboundMessage>, nl: NewLine,
                                deserialize: string -> Outcome<Option<RecognitionContent>>)
    requires ParseSpec(t, nl, deserialize) == Thrown
    ensures ReceiveAll(v, [Text(t)] + rest, nl, deserialize) == ReceiveResult(v, Caught)
  {
    assert ([Text(t)] + rest)[0] == Text(t);
  }

  // ---------------------------------------------------------------------
  // What the file job sends.

  /** With every check open, no chunk's check fails. */
  lemma {:induction false} AllOpenReachesEnd(openAt: nat -> bool, k: nat, n: nat)
    requires forall j :: openAt(j)
    requires k <= n
    ensures FirstClosedFrom(openAt, k, n) == n
    decreases n - k
  {
    if k < n {
      AllOpenReachesEnd(openAt, k + 1, n);
    }
  }

  /** With the connection open throughout, the file job sends the config
      message, FrameCount chunk frames and one terminator, and completes. */
  lemma FileJobAllOpen(data: seq<byte>, id: RequestId, clock: nat -> Timestamp, openAt: nat -> bool,
                       nl: NewLine, littleEndianHost: bool)
    requires forall j :: openAt(j)
    ensures var r := FileSend(Some(data), id, clock, openAt, nl, littleEndianHost);
      var n := FrameCount(|data|, FileByteLen(nl));
      && r.completion == Normal && r.audioStarted && r.stillOpen
      && r.frames == [ConfigFrame(id, clock(0), nl)] + ChunkFrames(data, id, clock, nl, littleEndianHost, n)
                     + [EndFrame(id, clock(n + 1), nl, littleEndianHost)]
  {
    AllOpenReachesEnd(openAt, 0, FrameCount(|data|, FileByteLen(nl)));
  }

  /** Every chunk frame is exactly 8192 bytes long. */
  lemma ChunkFrameSize(data: seq<byte>, id: RequestId, clock: nat -> Timestamp, nl: NewLine, littleEndianHost: bool, k: nat)
    ensures |ChunkFrame(data, id, clock, nl, littleEndianHost, k).payload| == MaxFrameSize
  {
    FileFrameSize(HeaderBytes(id, clock(k + 1), nl), data, k, littleEndianHost);
  }

  /** A failed chunk check ends the audio phase at that chunk. */
  lemma ClosedFileAudio(data: seq<byte>, id: RequestId, clock: nat -> Timestamp, openAt: nat -> bool,
                        nl: NewLine, littleEndianHost: bool)
    requires FirstClosedChunk(data, openAt, nl) < FrameCount(|data|, FileByteLen(nl))
    ensures !FileEnds(data, openAt, nl) && !FileFaults(data, openAt, nl)
    ensures FileAudio(data, id, clock, openAt, nl, littleEndianHost)
      == ChunkFrames(data, id, clock, nl, littleEndianHost, FirstClosedChunk(data, openAt, nl))
  {
    var chunks := ChunkFrames(data, id, clock, nl, littleEndianHost, FirstClosedChunk(data, openAt, nl));
    assert chunks + [] == chunks;
  }

  /** When an open-check fails the sender returns normally and sends no
      terminator: before anything when check 0 fails (the job stays in
      PreparingJob), after the chunks before the failing one otherwise (the
      job stays in ProcessingAudio). */
  lemma FileJobClosedReturnsEarly(data: seq<byte>, id: RequestId, clock: nat -> Timestamp, openAt: nat -> bool,
                                  nl: NewLine, littleEndianHost: bool)
    requires !openAt(0) || FirstClosedChunk(data, openAt, nl) < FrameCount(|data|, FileByteLen(nl))
    ensures !openAt(0) ==> FileSend(Some(data), id, clock, openAt, nl, littleEndianHost) == SendResult([], Normal, false, false)
    ensures openAt(0) ==>
      var chunks := ChunkFrames(data, id, clock, nl, littleEndianHost, FirstClosedChunk(data, openAt, nl));
      FileSend(Some(data), id, clock, openAt, nl, littleEndianHost) == SendResult([ConfigFrame(id, clock(0), nl)] + chunks, Normal, true, false)
  {
    if openAt(0) {
      ClosedFileAudio(data, id, clock, openAt, nl, littleEndianHost);
    }
  }

  /** A missing file faults the sender after the config message. */
  lemma FileJobMissingFile(id: RequestId, clock: nat -> Timestamp, openAt: nat -> bool, nl: NewLine, littleEndianHost: bool)
    requires openAt(0)
    ensures FileSend(None, id, clock, openAt, nl, littleEndianHost) == SendResult([ConfigFrame(id, clock(0), nl)], Faulted, false, true)
  {
  }

  /** The session object. */
  class SpeechRecognitionClient {
    var state: JobState
    var recognizedText: Option<string>
    var lastMessageReceived: Option<SpeechServiceResult>
    var currentRequestId: Option<RequestId>
    var socket: WebSocket?
    /** Selects the endpoint URL only; the URL is not part of this model. */
    const useClassicBingSpeechService: bool
    const nl: NewLine
    const littleEndianHost: bool

    function Snapshot(): View
      reads this
    {
      View(state, recognizedText, lastMessageReceived)
    }

    constructor (usebingspeechservice: bool, nl: NewLine, littleEndianHost: bool)
      ensures state == Ready && recognizedText == None && lastMessageReceived == None
      ensures currentRequestId == None && socket == null
      ensures useClassicBingSpeechService == usebingspeechservice && this.nl == nl && this.littleEndianHost == littleEndianHost
    {
      state := Initializing;
      useClassicBingSpeechService := usebingspeechservice;
      this.nl := nl;
      this.littleEndianHost := littleEndianHost;
      recognizedText := None;
      lastMessageReceived := None;
      currentRequestId := None;
      socket := null;
      state := Ready;
    }

    /** The text branch of the receive loop once the message has been parsed:
        false when a hypothesis or phrase carries no Result. */
    method ApplyResult(w: SpeechServiceResult) returns (ok: bool)
      modifies this
      ensures var d := Dispatch(old(Snapshot()), w);
        && ok == d.Some?
        && Snapshot() == (if d.Some? then d.value else old(Snapshot()))
      ensures currentRequestId == old(currentRequestId) && socket == old(socket)
    {
      if w.path == Some(SpeechHypothesis) {
        if w.result.None? {
          return false;
        }
        recognizedText := w.result.value.text;
      } else if w.path == Some(SpeechPhrase) {
        if w.result.None? {
          return false;
        }
        recognizedText := w.result.value.displayText;
        state := Completed;
      }
      lastMessageReceived := Some(w);
      ok := true;
    }

    /** One pass of the receive loop's body on a message that has arrived;
        false when the loop ends, by the peer's Close or by an exception. */
    method HandleMessage(client: WebSocket, m: InboundMessage,
                         deserialize: string -> Outcome<Option<RecognitionContent>>)
      returns (go: bool)
      modifies this, client
      ensures var st := ReceiveStep(old(Snapshot()), m, nl, deserialize);
        && go == st.Next?
        && Snapshot() == (if st.Next? then st.view else old(Snapshot()))
        && client.isOpen == (old(client.isOpen) && st != Done(PeerClosed))
      ensures client.sent == old(client.sent)
      ensures currentRequestId == old(currentRequestId) && socket == old(socket)
    {
      match m {
        case Text(t) =>
          var wssr := ParseWebSocketSpeechResult(t, nl, deserialize);
          if wssr.Thrown? {
            return false;
          }
          go := ApplyResult(wssr.value);
        case Binary(_) =>
          go := true;
        case Close =>
          client.CloseOutputAsync();
          go := false;
      }
    }

    /** Receiving: processes inbound messages until the peer closes or an
        exception is caught; it never faults. The socket stays open only when
        the loop ended on an exception of the message handling. */
    method Receiving(client: WebSocket, inbox: seq<InboundMessage>,
                     deserialize: string -> Outcome<Option<RecognitionContent>>)
      modifies this, client
      ensures Snapshot() == ReceiveAll(old(Snapshot()), inbox, nl, deserialize).view
      ensures currentRequestId == old(currentRequestId) && socket == old(socket)
      ensures client.sent == old(client.sent)
      ensures client.isOpen == (old(client.isOpen) && ReceiveAll(old(Snapshot()), inbox, nl, deserialize).end == Caught)
    {
      ghost var goal := ReceiveAll(Snapshot(), inbox, nl, deserialize);
      var i := 0;
      var isReceiving := true;
      while isReceiving
        invariant 0 <= i <= |inbox|
        invariant isReceiving ==> ReceiveAll(Snapshot(), inbox[i..], nl, deserialize) == goal
        invariant isReceiving ==> client.isOpen == old(client.isOpen)
        invariant !isReceiving ==> Snapshot() == goal.view
        invariant !isReceiving ==> client.isOpen == (old(client.isOpen) && goal.end == Caught)
        invariant client.sent == old(client.sent)
        invariant currentRequestId == old(currentRequestId) && socket == old(socket)
        decreases |inbox| - i, isReceiving
      {
        if i == |inbox| {
          // ReceiveAsync on a connection that is gone throws; caught below.
          client.Abort();
          return;
        }
        assert inbox[i..][0] == inbox[i] && inbox[i..][1..] == inbox[i + 1..];
        isReceiving := HandleMessage(client, inbox[i], deserialize);
        i := i + 1;
      }
    }

    /** SendEmptyAudioMessageToWebSocketClient: the zero-body audio message,
        sent without an open-check of its own. */
    method SendEmptyAudioMessageToWebSocketClient(websocketClient: WebSocket, id: RequestId, ts: Timestamp, stillOpen: bool)
      returns (c: Completion)
      modifies websocketClient
      ensures websocketClient.isOpen == (old(websocketClient.isOpen) && stillOpen)
      ensures c == (if websocketClient.isOpen then Normal else Faulted)
      ensures websocketClient.sent == old(websocketClient.sent)
        + (if websocketClient.isOpen then [EndFrame(id, ts, nl, littleEndianHost)] else [])
    {
      var headerBytes := BuildAudioPacketHeader(id, ts, nl);
      var headerHead := BuildAudioPacketHeaderHead(headerBytes, littleEndianHost);
      var arrEnd := headerHead + headerBytes;
      websocketClient.Observe(stillOpen);
      c := websocketClient.SendAsync(BinaryFrame(arrEnd));
    }

    /** SendAudioPacket: one audio message with the given data, skipped when
        the socket is not open. Without a socket the property access throws.
        The send is not awaited, so its own failure is never observed. */
    method SendAudioPacket(id: RequestId, data: seq<byte>, ts: Timestamp, stillOpen: bool) returns (c: Completion)
      modifies socket
      ensures socket == null ==> c == Faulted
      ensures socket != null ==> c == Normal && socket.isOpen == (old(socket.isOpen) && stillOpen)
      ensures socket != null ==>
        socket.sent == old(socket.sent) + (if socket.isOpen then [BinaryFrame(AudioFrame(HeaderBytes(id, ts, nl), data, littleEndianHost))] else [])
    {
      var headerBytes := BuildAudioPacketHeader(id, ts, nl);
      var headerHead := BuildAudioPacketHeaderHead(headerBytes, littleEndianHost);
      var arr := headerHead + headerBytes + data;
      if socket == null {
        return Faulted;
      }
      socket.Observe(stillOpen);
      if !socket.isOpen {
        return Normal;
      }
      var _ := socket.SendAsync(BinaryFrame(arr));
      c := Normal;
    }

    /** One pass of the file loop's body: the header with the next clock
        reading, a fresh zeroed buffer filled from the stream, the open-check
        and the send. */
    method SendFileChunk(ws: WebSocket, stream: FileStream, data: seq<byte>, id: RequestId,
                         clock: nat -> Timestamp, stillOpen: bool, k: nat)
      returns (sent: bool, byteLen: nat)
      requires ws.isOpen && stream.Valid() && stream.content == data
      requires k * FileByteLen(nl) < |data| && stream.position == k * FileByteLen(nl)
      modifies ws, stream
      ensures byteLen == FileByteLen(nl)
      ensures stream.Valid() && stream.position == Min((k + 1) * FileByteLen(nl), |data|)
      ensures sent == stillOpen && ws.isOpen == stillOpen
      ensures ws.sent == old(ws.sent) + (if stillOpen then [ChunkFrame(data, id, clock, nl, littleEndianHost, k)] else [])
    {
      var headerBytes := BuildAudioPacketHeader(id, clock(k + 1), nl);
      var headerHead := BuildAudioPacketHeaderHead(headerBytes, littleEndianHost);
      byteLen := MaxFrameSize - |headerBytes| - 2;
      var fbuff := new byte[byteLen](_ => 0);
      assert fbuff[..] == Zeros(byteLen);
      var pos := stream.position;
      var _ := stream.Read(fbuff, 0, byteLen);
      ReadIsChunk(data, byteLen, k, pos, fbuff[..]);
      assert (k + 1) * byteLen == k * byteLen + byteLen;
      var arr := headerHead + headerBytes + fbuff[..];
      ws.Observe(stillOpen);
      if !ws.isOpen {
        return false, byteLen;
      }
      var _ := ws.SendAsync(BinaryFrame(arr));
      sent := true;
    }

    /** The `for` loop of the file sender: one frame per pass until the
        cursor passes the end of the file or an open-check fails. */
    method StreamChunks(ws: WebSocket, data: seq<byte>, id: RequestId, clock: nat -> Timestamp, openAt: nat -> bool)
      returns (allSent: bool, frames: nat)
      requires ws.isOpen
      modifies ws
      ensures frames == FirstClosedChunk(data, openAt, nl)
      ensures allSent == (frames == FrameCount(|data|, FileByteLen(nl))) && ws.isOpen == allSent
      ensures ws.sent == old(ws.sent) + ChunkFrames(data, id, clock, nl, littleEndianHost, frames)
    {
      var audioFileStream := new FileStream.OpenRead(data);
      ghost var b := FileByteLen(nl);
      ghost var n := FrameCount(|data|, b);
      var cursor := 0;
      var k: nat := 0;
      while cursor < |data|
        invariant cursor == k * (b + 1) && k <= n
        invariant k == 0 || (k - 1) * (b + 1) < |data|
        invariant audioFileStream.Valid() && audioFileStream.content == data
        invariant audioFileStream.position == Min(k * b, |data|)
        invariant fresh(audioFileStream)
        invariant ws.isOpen
        invariant FirstClosedFrom(openAt, 0, n) == FirstClosedFrom(openAt, k, n)
        invariant ws.sent == old(ws.sent) + ChunkFrames(data, id, clock, nl, littleEndianHost, k)
        decreases |data| - cursor
      {
        CursorBound(|data|, b, k);
        var sent, byteLen := SendFileChunk(ws, audioFileStream, data, id, clock, openAt(k + 1), k);
        if !sent {
          return false, k;
        }
        cursor := cursor + byteLen;
        ChunkFramesSnoc(data, id, clock, nl, littleEndianHost, k);
        AppendAssoc(old(ws.sent), ChunkFrames(data, id, clock, nl, littleEndianHost, k), [ChunkFrame(data, id, clock, nl, littleEndianHost, k)]);
        cursor := cursor + 1;
        k := k + 1;
      }
      FrameCountUnique(|data|, b, k);
      return true, k;
    }

    /** The audio phase of the file sender: the loop, then the terminator. */
    method StreamFile(ws: WebSocket, data: seq<byte>, id: RequestId, clock: nat -> Timestamp, openAt: nat -> bool)
      returns (c: Completion)
      requires ws.isOpen
      modifies ws
      ensures ws.sent == old(ws.sent) + FileAudio(data, id, clock, openAt, nl, littleEndianHost)
      ensures ws.isOpen == FileEnds(data, openAt, nl)
      ensures c == if FileFaults(data, openAt, nl) then Faulted else Normal
    {
      var allSent, frames := StreamChunks(ws, data, id, clock, openAt);
      ghost var chunks := ChunkFrames(data, id, clock, nl, littleEndianHost, frames);
      if !allSent {
        assert FileAudio(data, id, clock, openAt, nl, littleEndianHost) == chunks + [];
        assert chunks + [] == chunks;
        return Normal;
      }
      c := SendEmptyAudioMessageToWebSocketClient(ws, id, clock(frames + 1), openAt(frames + 1));
      AppendAssoc(old(ws.sent), chunks, if ws.isOpen then [EndFrame(id, clock(frames + 1), nl, littleEndianHost)] else []);
    }

    /** The sending task of CreateSpeechRecognitionJobFromFile. */
    method FileJobSender(file: Option<seq<byte>>, id: RequestId, clock: nat -> Timestamp, openAt: nat -> bool)
      returns (c: Completion)
      requires socket != null && socket.isOpen
      modifies this, socket
      ensures var r := FileSend(file, id, clock, openAt, nl, littleEndianHost);
        && socket == old(socket)
        && c == r.completion
        && socket.sent == old(socket.sent) + r.frames
        && socket.isOpen == r.stillOpen
        && state == (if r.audioStarted then ProcessingAudio else old(state))
        && recognizedText == old(recognizedText) && lastMessageReceived == old(lastMessageReceived)
        && currentRequestId == old(currentRequestId)
    {
      var ws := socket;
      var configSent := SendConfig(ws, id, clock(0), openAt(0));
      if !configSent {
        return Normal;
      }
      if file.None? {
        // FileInfo.OpenRead throws for a missing file.
        return Faulted;
      }
      state := ProcessingAudio;
      c := StreamFile(ws, file.value, id, clock, openAt);
      AppendAssoc(old(ws.sent), [ConfigFrame(id, clock(0), nl)], FileAudio(file.value, id, clock, openAt, nl, littleEndianHost));
    }

    /** CreateSpeechRecognitionJobFromFile, with the sending task run first
        and the receiving task after it. */
    method CreateSpeechRecognitionJobFromFile(file: Option<seq<byte>>, connects: bool, id: RequestId,
                                              clock: nat -> Timestamp, openAt: nat -> bool,
                                              inbox: seq<InboundMessage>,
                                              deserialize: string -> Outcome<Option<RecognitionContent>>)
      returns (ok: bool)
      modifies this
      ensures !connects ==> !ok && state == Error && socket == old(socket)
      ensures connects ==> socket != null && fresh(socket)
      ensures connects ==> var r := FileSend(file, id, clock, openAt, nl, littleEndianHost);
        var start := View(if r.audioStarted then ProcessingAudio else PreparingJob, old(recognizedText), old(lastMessageReceived));
        var rcv := ReceiveAll(start, inbox, nl, deserialize);
        && socket.sent == r.frames
        && socket.isOpen == (r.stillOpen && rcv.end == Caught)
        && ok == (r.completion == Normal)
        && state == (if r.completion == Faulted then Error else rcv.view.state)
        && recognizedText == rcv.view.recognizedText && lastMessageReceived == rcv.view.lastMessageReceived
      ensures currentRequestId == old(currentRequestId)
    {
      state := PreparingJob;
      if !connects {
        state := Error;
        return false;
      }
      socket := new WebSocket.Connect();
      var ws := socket;
      var sending := FileJobSender(file, id, clock, openAt);
      Receiving(ws, inbox, deserialize);
      if sending == Faulted {
        state := Error;
        return false;
      }
      return true;
    }

    /** The sending task of CreateSpeechRecognitionJobFromVoice. */
    method VoiceJobSender(id: RequestId, clock: nat -> Timestamp, openAt: nat -> bool,
                          resolution: int32, channels: int32, rate: int32)
      returns (c: Completion, ghost wav: Outcome<seq<byte>>)
      requires socket != null && socket.isOpen
      modifies this, socket
      ensures socket == old(socket) && currentRequestId == Some(id)
      ensures recognizedText == old(recognizedText) && lastMessageReceived == old(lastMessageReceived)
      ensures openAt(0) ==> (wav.Thrown? <==> !FitsUInt16Fields(resolution, channels))
      ensures openAt(0) && wav.Returned? ==> WavLayout(wav.value, resolution, 0, resolution, channels, rate)
      ensures var r := VoiceSend(id, clock, openAt, wav, nl, littleEndianHost);
        && c == r.completion
        && socket.sent == old(socket.sent) + r.frames
        && socket.isOpen == r.stillOpen
        && state == (if r.audioStarted then ReadyForAudioPackets else old(state))
    {
      currentRequestId := Some(id);
      var ws := socket;
      var configSent := SendConfig(ws, id, clock(0), openAt(0));
      if !configSent {
        return Normal, Thrown;
      }
      c, wav := SendWavHeader(id, clock(1), openAt(1), resolution, channels, rate);
      AppendAssoc(old(ws.sent), [ConfigFrame(id, clock(0), nl)], VoiceAudio(id, clock(1), openAt(1), wav, nl, littleEndianHost));
    }

    /** The first step of both senders: the speech.config message, sent when
        the socket is open. */
    method SendConfig(ws: WebSocket, id: RequestId, ts: Timestamp, stillOpen: bool) returns (sent: bool)
      requires ws.isOpen
      modifies ws
      ensures sent == stillOpen && ws.isOpen == stillOpen
      ensures ws.sent == old(ws.sent) + (if stillOpen then [ConfigFrame(id, ts, nl)] else [])
    {
      var buffer := CreateSpeechConfigMessagePayloadBuffer(id, ts, nl);
      ws.Observe(stillOpen);
      if !ws.isOpen {
        return false;
      }
      var _ := ws.SendAsync(TextFrame(buffer));
      sent := true;
    }

    /** The voice sender after the config message: the WAV header built and
        sent as the first audio message. */
    method SendWavHeader(id: RequestId, ts: Timestamp, stillOpen: bool, resolution: int32, channels: int32, rate: int32)
      returns (c: Completion, ghost wav: Outcome<seq<byte>>)
      requires socket != null && socket.isOpen
      modifies this, socket
      ensures wav.Thrown? <==> !FitsUInt16Fields(resolution, channels)
      ensures wav.Returned? ==> WavLayout(wav.value, resolution, 0, resolution, channels, rate)
      ensures c == (if wav.Thrown? then Faulted else Normal)
      ensures socket == old(socket) && socket.isOpen == (wav.Thrown? || stillOpen)
      ensures socket.sent == old(socket.sent) + VoiceAudio(id, ts, stillOpen, wav, nl, littleEndianHost)
      ensures state == (if wav.Returned? then ReadyForAudioPackets else old(state))
      ensures currentRequestId == old(currentRequestId)
      ensures recognizedText == old(recognizedText) && lastMessageReceived == old(lastMessageReceived)
    {
      var wavHeader := BuildRiffWavHeader(0, resolution, channels, rate);
      wav := wavHeader;
      if wavHeader.Thrown? {
        return Faulted, wav;
      }
      var _ := SendAudioPacket(id, wavHeader.value, ts, stillOpen);
      state := ReadyForAudioPackets;
      c := Normal;
    }

    /** CreateSpeechRecognitionJobFromVoice, with the sending task run first
        and the receiving task after it. Its failure paths return false
        without setting Error. */
    method CreateSpeechRecognitionJobFromVoice(connects: bool, id: RequestId, clock: nat -> Timestamp, openAt: nat -> bool,
                                               resolution: int32, channels: int32, rate: int32,
                                               inbox: seq<InboundMessage>,
                                               deserialize: string -> Outcome<Option<RecognitionContent>>)
      returns (ok: bool)
      modifies this
      ensures !connects ==> !ok && state == PreparingJob && socket == old(socket) && currentRequestId == old(currentRequestId)
      ensures connects ==> socket != null && fresh(socket) && currentRequestId == Some(id)
      ensures connects ==> exists wav: Outcome<seq<byte>> ::
        && (openAt(0) ==> (wav.Thrown? <==> !FitsUInt16Fields(resolution, channels)))
        && (openAt(0) && wav.Returned? ==> WavLayout(wav.value, resolution, 0, resolution, channels, rate))
        && var r := VoiceSend(id, clock, openAt, wav, nl, littleEndianHost);
        var start := View(if r.audioStarted then ReadyForAudioPackets else PreparingJob, old(recognizedText), old(lastMessageReceived));
        var rcv := ReceiveAll(start, inbox, nl, deserialize);
        && socket.sent == r.frames
        && socket.isOpen == (r.stillOpen && rcv.end == Caught)
        && ok == (r.completion == Normal)
        && Snapshot() == rcv.view
    {
      state := PreparingJob;
      if !connects {
        return false;
      }
      socket := new WebSocket.Connect();
      var ws := socket;
      var sending;
      ghost var wav;
      sending, wav := VoiceJobSender(id, clock, openAt, resolution, channels, rate);
      Receiving(ws, inbox, deserialize);
      return sending == Normal;
    }
  }

  lemma MulMonotone(a: nat, b: nat, c: nat)
    requires a <= b
    ensures a * c <= b * c
  {
  }

  lemma CursorBound(fileLength: nat, b: nat, k: nat)
    requires k * (b + 1) < fileLength
    ensures k < FrameCount(fileLength, b) && k * b < fileLength
    ensures k * (b + 1) + b + 1 == (k + 1) * (b + 1)
  {
    FrameCountIsCeiling(fileLength, b);
    var n := FrameCount(fileLength, b);
    if k >= n {
      MulMonotone(n, k, b + 1);
    }
    MulMonotone(b, b + 1, k);
  }

  lemma FrameCountUnique(fileLength: nat, b: nat, k: nat)
    requires k * (b + 1) >= fileLength
    requires k == 0 || (k - 1) * (b + 1) < fileLength
    ensures k == FrameCount(fileLength, b)
  {
    FrameCountIsCeiling(fileLength, b);
    var n := FrameCount(fileLength, b);
    if k < n {
      MulMonotone(k, n - 1, b + 1);
    }
    if k > n {
      MulMonotone(n, k - 1, b + 1);
    }
  }

  /** A read of b bytes at position min(k * b, |data|) into a zeroed buffer
      yields chunk k. */
  lemma ReadIsChunk(data: seq<byte>, b: nat, k: nat, pos: nat, buf: seq<byte>)
    requires k * b < |data| && pos == k * b
    requires buf == Zeros(b)[..0] + data[pos..pos + Min(b, |data| - pos)] + Zeros(b)[Min(b, |data| - pos)..]
    ensures buf == ChunkPayload(data, b, k)
  {
  }

  lemma ChunkFramesSnoc(data: seq<byte>, id: RequestId, clock: nat -> Timestamp, nl: NewLine, littleEndianHost: bool, k: nat)
    ensures ChunkFrames(data, id, clock, nl, littleEndianHost, k + 1)
         == ChunkFrames(data, id, clock, nl, littleEndianHost, k) + [ChunkFrame(data, id, clock, nl, littleEndianHost, k)]
  {
  }
}
