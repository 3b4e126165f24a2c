/** Outbound framing of the Speech Service WebSocket protocol: the text
    header of an audio message, its 2-byte big-endian length prefix, the audio
    and terminator frames, and the `speech.config` text message. */
module Framing {
  import opened Common
  import opened Text

  predicate IsLowerHex(c: char) { '0' <= c <= '9' || 'a' <= c <= 'f' }

  predicate IsDigit(c: char) { '0' <= c <= '9' }

  /** Guid.NewGuid().ToString("N"): 32 lower-case hex digits, no dashes. */
  type RequestId = s: string | |s| == 32 && forall i :: 0 <= i < |s| ==> IsLowerHex(s[i])
    witness "00000000000000000000000000000000"

  /** DateTime.UtcNow.ToString("yyyy-MM-ddTHH:mm:ss.fffK"); for a UTC time the
      K specifier writes "Z". */
  predicate IsTimestamp(s: string) {
    && |s| == 24
    && (forall i :: 0 <= i < 24 && i !in {4, 7, 10, 13, 16, 19, 23} ==> IsDigit(s[i]))
    && s[4] == '-' && s[7] == '-' && s[10] == 'T' && s[13] == ':' && s[16] == ':'
    && s[19] == '.' && s[23] == 'Z'
  }

  type Timestamp = s: string | IsTimestamp(s) witness "0001-01-01T00:00:00.000Z"

  lemma IdIsPlain(id: RequestId)
    ensures NoLineBreak(id) && IsAscii(id)
  {
    assert forall i :: 0 <= i < |id| ==> IsLowerHex(id[i]);
  }

  lemma TimestampIsPlain(ts: Timestamp)
    ensures NoLineBreak(ts) && IsAscii(ts)
  {
    assert forall i :: 0 <= i < 24 && i !in {4, 7, 10, 13, 16, 19, 23} ==> IsDigit(ts[i]);
  }

  /** ReverseBytes: swaps the two bytes of an unsigned 16-bit value. C#
      computes it on 32 bits and casts back; no bit above 15 is ever set. */
  function ReverseBytes(v: bv16): (r: bv16)
    ensures r & 0xFF == v >> 8 && r >> 8 == v & 0xFF
  {
    ((v & 0xFF) << 8) | ((v & 0xFF00) >> 8)
  }

  lemma ReverseBytesInvolutive(v: bv16)
    ensures ReverseBytes(ReverseBytes(v)) == v
  {
  }

  /** BitConverter.GetBytes of a UInt16 in the host's byte order. */
  function HostBytes16(v: nat, littleEndianHost: bool): (r: seq<byte>)
    requires v < TwoTo16
    ensures |r| == 2
  {
    if littleEndianHost then [v % 256, v / 256] else [v / 256, v % 256]
  }

  /** BuildAudioPacketHeaderHead: the header length, cast to UInt16, written
      so that the high byte comes first whatever the host's byte order. */
  function BuildAudioPacketHeaderHead(headerBytes: seq<byte>, littleEndianHost: bool): (r: seq<byte>)
    ensures r == [(|headerBytes| % TwoTo16) / 256, (|headerBytes| % TwoTo16) % 256]
  {
    var hb := HostBytes16(|headerBytes| % TwoTo16, littleEndianHost);
    if littleEndianHost then [hb[1], hb[0]] else [hb[0], hb[1]]
  }

  /** The text of an audio message header: four lines joined by the platform
      newline, with no newline after the last. */
  function AudioHeaderText(id: RequestId, ts: Timestamp, nl: NewLine): (t: string)
    ensures |t| == 114 + 3 * |nl.Text()|
  {
    var n := nl.Text();
    "path:audio" + n + ("x-requestid:" + id + n + ("x-timestamp:" + ts + n + "content-type:audio/x-wav"))
  }

  lemma HeaderFieldsPlain(id: RequestId, ts: Timestamp)
    ensures NoLineBreak("x-requestid:" + id) && NoLineBreak("x-timestamp:" + ts)
    ensures IsAscii("x-requestid:" + id) && IsAscii("x-timestamp:" + ts)
  {
    IdIsPlain(id);
    TimestampIsPlain(ts);
    assert NoLineBreak("x-requestid:") && IsAscii("x-requestid:");
    assert NoLineBreak("x-timestamp:") && IsAscii("x-timestamp:");
    NoLineBreakAppend("x-requestid:", id);
    NoLineBreakAppend("x-timestamp:", ts);
    AsciiAppend("x-requestid:", id);
    AsciiAppend("x-timestamp:", ts);
  }

  /** The audio header is exactly four lines, the last one
      `content-type:audio/x-wav`, with no newline after it. */
  lemma AudioHeaderLines(id: RequestId, ts: Timestamp, nl: NewLine)
    ensures var t := AudioHeaderText(id, ts, nl);
      && Lines(t) == ["path:audio", "x-requestid:" + id, "x-timestamp:" + ts, "content-type:audio/x-wav"]
      && !IsLineBreak(t[|t| - 1])
  {
    HeaderFieldsPlain(id, ts);
    assert NoLineBreak("path:audio") && NoLineBreak("content-type:audio/x-wav");
    LinesOfFour("path:audio", "x-requestid:" + id, "x-timestamp:" + ts, "content-type:audio/x-wav", nl);
  }

  /** The audio header is plain ASCII, so its bytes decode back to it. */
  lemma AudioHeaderAscii(id: RequestId, ts: Timestamp, nl: NewLine)
    ensures IsAscii(AudioHeaderText(id, ts, nl))
    ensures AsciiString(AsciiBytes(AudioHeaderText(id, ts, nl))) == AudioHeaderText(id, ts, nl)
  {
    var n := nl.Text();
    HeaderFieldsPlain(id, ts);
    var l0, l1, l2, l3 := "path:audio", "x-requestid:" + id, "x-timestamp:" + ts, "content-type:audio/x-wav";
    assert IsAscii(n) && IsAscii(l0) && IsAscii(l3);
    AsciiAppend(l2, n);
    AsciiAppend(l2 + n, l3);
    AsciiAppend(l1, n);
    AsciiAppend(l1 + n, l2 + n + l3);
    AsciiAppend(l0, n);
    AsciiAppend(l0 + n, l1 + n + (l2 + n + l3));
    AsciiRoundTrip(AudioHeaderText(id, ts, nl));
  }

  /** BuildAudioPacketHeader: the header text appended line by line and
      encoded as ASCII. */
  method BuildAudioPacketHeader(id: RequestId, ts: Timestamp, nl: NewLine) returns (r: seq<byte>)
    ensures r == AsciiBytes(AudioHeaderText(id, ts, nl))
    ensures |r| == AudioHeaderLength(nl)
  {
    var sb := "";
    sb := sb + "path:audio" + nl.Text();
    sb := sb + ("x-requestid:" + id) + nl.Text();
    sb := sb + ("x-timestamp:" + ts) + nl.Text();
    sb := sb + "content-type:audio/x-wav";
    RegroupFour("path:audio", "x-requestid:" + id, "x-timestamp:" + ts, "content-type:audio/x-wav", nl.Text());
    r := AsciiBytes(sb);
  }

  /** The length of every audio header, which fixes the chunk size. */
  function AudioHeaderLength(nl: NewLine): (n: nat)
    ensures forall id: RequestId, ts: Timestamp :: |AudioHeaderText(id, ts, nl)| == n
  {
    114 + 3 * |nl.Text()|
  }

  /** headerHead ++ headerBytes ++ data, the layout of every binary message. */
  function AudioFrame(headerBytes: seq<byte>, data: seq<byte>, littleEndianHost: bool): (r: seq<byte>)
    ensures |r| == 2 + |headerBytes| + |data|
    ensures r[..2] == BuildAudioPacketHeaderHead(headerBytes, littleEndianHost)
    ensures r[2..2 + |headerBytes|] == headerBytes && r[2 + |headerBytes|..] == data
  {
    BuildAudioPacketHeaderHead(headerBytes, littleEndianHost) + headerBytes + data
  }

  /** The frame the server reads: a big-endian header length, that many
      header bytes, and the body. */
  function SplitFrame(frame: seq<byte>): (r: Option<(seq<byte>, seq<byte>)>)
    ensures r.Some? ==> 2 + |r.value.0| + |r.value.1| == |frame|
  {
    if |frame| < 2 then None
    else
      var n := frame[0] as int * 256 + frame[1] as int;
      if 2 + n <= |frame| then Some((frame[2..2 + n], frame[2 + n..])) else None
  }

  /** Decoding an audio frame gives back its header and its body, on either
      host, for every header shorter than 65536 bytes. */
  lemma SplitAudioFrame(headerBytes: seq<byte>, data: seq<byte>, littleEndianHost: bool)
    requires |headerBytes| < TwoTo16
    ensures SplitFrame(AudioFrame(headerBytes, data, littleEndianHost)) == Some((headerBytes, data))
  {
    var f := AudioFrame(headerBytes, data, littleEndianHost);
    var n := |headerBytes|;
    assert f[0] as int * 256 + f[1] as int == (n / 256) * 256 + n % 256 == n;
  }

  /** The zero-body message that ends the audio: prefix and header only,
      which the server reads back as that header with an empty body. */
  function TerminatorFrame(headerBytes: seq<byte>, littleEndianHost: bool): (r: seq<byte>)
    ensures |r| == 2 + |headerBytes| && r[2..] == headerBytes
    ensures |headerBytes| < TwoTo16 ==> SplitFrame(r) == Some((headerBytes, []))
  {
    var r := BuildAudioPacketHeaderHead(headerBytes, littleEndianHost) + headerBytes;
    assert r == AudioFrame(headerBytes, [], littleEndianHost);
    if |headerBytes| < TwoTo16 then SplitAudioFrame(headerBytes, [], littleEndianHost); r else r
  }

  /** The speech.config payload as Newtonsoft.Json writes the fixed
      anonymous object with Formatting.None. */
  const ConfigJson: string :=
    "{\"context\":{\"system\":{\"version\":\"1.0.00000\"},"
    + "\"os\":{\"platform\":\"Speech Service WebSocket Console App\",\"name\":\"Sample\",\"version\":\"1.0.00000\"},"
    + "\"device\":{\"manufacturer\":\"Microsoft\",\"model\":\"SpeechSample\",\"version\":\"1.0.00000\"}}}"

  const ConfigContentType: string := "content-type:application/json; charset=utf-8"

  /** The text of the speech.config message: four header lines, a blank
      line, and the JSON body. */
  function ConfigMessageText(id: RequestId, ts: Timestamp, nl: NewLine): (t: string)
    ensures |t| > |ConfigJson| && t[0] == 'p' && t[|t| - |ConfigJson|..] == ConfigJson
  {
    var n := nl.Text();
    "" + ("path:speech.config" + n) + ("x-requestid:" + id + n) + ("x-timestamp:" + ts + n)
      + (ConfigContentType + n) + n + ConfigJson
  }

  /** The config message is four header lines and a blank line, then the JSON
      text; there is no length prefix (its first byte is the `p` of `path`). */
  lemma ConfigMessageLines(id: RequestId, ts: Timestamp, nl: NewLine)
    ensures Lines(ConfigMessageText(id, ts, nl))
         == ["path:speech.config", "x-requestid:" + id, "x-timestamp:" + ts, ConfigContentType, ""] + Lines(ConfigJson)
  {
    HeaderFieldsPlain(id, ts);
    assert NoLineBreak("path:speech.config") && NoLineBreak(ConfigContentType);
    RegroupHeaded("path:speech.config", "x-requestid:" + id, "x-timestamp:" + ts, ConfigContentType, ConfigJson, nl.Text());
    LinesOfHeadedBody("path:speech.config", "x-requestid:" + id, "x-timestamp:" + ts, ConfigContentType, ConfigJson, nl);
    ListOfFive(Lines(ConfigMessageText(id, ts, nl)), Lines(ConfigJson),
      "path:speech.config", "x-requestid:" + id, "x-timestamp:" + ts, ConfigContentType, "");
  }

  lemma ListOfFive<T>(ls: seq<T>, tail: seq<T>, a: T, b: T, c: T, d: T, e: T)
    requires ls == [a] + ([b] + ([c] + ([d] + ([e] + tail))))
    ensures ls == [a, b, c, d, e] + tail
  {
  }

  /** CreateSpeechConfigMessagePayloadBuffer: the config message appended
      part by part and encoded; the text is ASCII, where UTF-8 and ASCII agree. */
  method CreateSpeechConfigMessagePayloadBuffer(id: RequestId, ts: Timestamp, nl: NewLine) returns (r: seq<byte>)
    ensures r == AsciiBytes(ConfigMessageText(id, ts, nl))
  {
    var n := nl.Text();
    var sb := "";
    sb := sb + ("path:speech.config" + n);
    sb := sb + ("x-requestid:" + id + n);
    sb := sb + ("x-timestamp:" + ts + n);
    sb := sb + (ConfigContentType + n);
    sb := sb + n;
    sb := sb + ConfigJson;
    r := AsciiBytes(sb);
  }
}
