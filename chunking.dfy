/** The file job's chunking of an audio file into fixed-size binary frames:
    how many frames the `for` loop sends, what each frame carries, and which
    bytes of the file reach the service. */
module Chunking {
  import opened Common
  import opened Framing

  /** The total size of every binary audio message. */
  const MaxFrameSize: nat := 8192

  function Min(a: int, b: int): (m: int)
    ensures m <= a && m <= b && (m == a || m == b)
  {
    if a <= b then a else b
  }

  /** The number of audio bytes a frame carries once the 2-byte prefix and a
      header of `headerLength` bytes are taken out of the 8192. */
  function ByteLen(headerLength: nat): int {
    MaxFrameSize - headerLength - 2
  }

  /** With RequestId and Timestamp of fixed width the header length is a
      constant, so the payload size is too: 8070 with CRLF, 8073 with LF. */
  lemma ByteLenOfNewLine(nl: NewLine)
    ensures ByteLen(AudioHeaderLength(nl)) == if nl == CRLF then 8070 else 8073
    ensures ByteLen(AudioHeaderLength(nl)) > 0
  {
  }

  /** The number of iterations of the file loop: the cursor starts at 0, grows
      by `byteLen` inside the body and by one more in the loop step, and the
      loop runs while it is below the file length. */
  function FrameCount(fileLength: nat, byteLen: nat): (n: nat)
  {
    if fileLength == 0 then 0 else (fileLength - 1) / (byteLen + 1) + 1
  }

  /** FrameCount is the least n with n * (byteLen + 1) >= fileLength, the
      ceiling of fileLength / (byteLen + 1). */
  lemma FrameCountIsCeiling(fileLength: nat, byteLen: nat)
    ensures FrameCount(fileLength, byteLen) * (byteLen + 1) >= fileLength
    ensures FrameCount(fileLength, byteLen) > 0 ==> (FrameCount(fileLength, byteLen) - 1) * (byteLen + 1) < fileLength
  {
    var n := FrameCount(fileLength, byteLen);
    var d := byteLen + 1;
    if fileLength > 0 {
      var q := (fileLength - 1) / d;
      assert fileLength - 1 == q * d + (fileLength - 1) % d;
      assert n * d == q * d + d;
    }
  }

  /** The cursor after k iterations of the loop body and step. */
  lemma CursorAfter(fileLength: nat, byteLen: nat, k: nat)
    requires k < FrameCount(fileLength, byteLen)
    ensures k * (byteLen + 1) < fileLength
  {
    FrameCountIsCeiling(fileLength, byteLen);
    var n := FrameCount(fileLength, byteLen);
    assert k * (byteLen + 1) <= (n - 1) * (byteLen + 1);
  }

  /** The payload of frame k: what the k-th Read puts into a fresh zeroed
      buffer of `byteLen` bytes. The stream has then moved k * byteLen bytes
      into the file (or to its end), and the buffer is zero past what is left. */
  function ChunkPayload(data: seq<byte>, byteLen: nat, k: nat): (r: seq<byte>)
    ensures |r| == byteLen
  {
    var lo := Min(k * byteLen, |data|);
    var hi := Min(k * byteLen + byteLen, |data|);
    data[lo..hi] + Zeros(byteLen - (hi - lo))
  }

  /** The audio bytes of the first n frames, in order. */
  function Payloads(data: seq<byte>, byteLen: nat, n: nat): (r: seq<byte>)
    ensures |r| == n * byteLen
  {
    if n == 0 then [] else Payloads(data, byteLen, n - 1) + ChunkPayload(data, byteLen, n - 1)
  }

  lemma ZerosAppend(a: nat, b: nat)
    ensures Zeros(a) + Zeros(b) == Zeros(a + b)
  {
  }

  lemma MulSucc(k: nat, b: nat)
    ensures (k + 1) * b == k * b + b
  {
  }

  /** Appending the next chunk, starting at offset p, to the padded prefix
      of length p gives the padded prefix of length p + byteLen. */
  lemma PaddedStep(data: seq<byte>, byteLen: nat, p: nat)
    ensures var m := Min(p, |data|);
      var hi := Min(p + byteLen, |data|);
      data[..m] + Zeros(p - m) + (data[m..hi] + Zeros(byteLen - (hi - m)))
        == data[..hi] + Zeros(p + byteLen - hi)
  {
    var m := Min(p, |data|);
    var hi := Min(p + byteLen, |data|);
    if p >= |data| {
      assert m == |data| && hi == |data|;
      assert data[m..hi] == [];
      ZerosAppend(p - m, byteLen);
    } else {
      assert m == p;
      assert Zeros(p - m) == [];
      assert data[..m] + data[m..hi] == data[..hi];
    }
  }

  /** The first n frames carry the first n * byteLen bytes of the file, padded
      with zeros once the file runs out. */
  lemma {:induction false} PayloadsArePaddedPrefix(data: seq<byte>, byteLen: nat, n: nat)
    ensures var m := Min(n * byteLen, |data|);
      Payloads(data, byteLen, n) == data[..m] + Zeros(n * byteLen - m)
  {
    if n > 0 {
      var k := n - 1;
      PayloadsArePaddedPrefix(data, byteLen, k);
      var p := k * byteLen;
      MulSucc(k, byteLen);
      assert Payloads(data, byteLen, n) == Payloads(data, byteLen, k) + ChunkPayload(data, byteLen, k);
      PaddedStep(data, byteLen, p);
    }
  }

  /** The as-written loop: the audio that reaches the service is the file
      prefix of FrameCount * byteLen bytes, so every byte at or past that
      offset is dropped. */
  lemma AsWrittenSentAudio(data: seq<byte>, byteLen: nat)
    ensures var n := FrameCount(|data|, byteLen);
      var m := Min(n * byteLen, |data|);
      Payloads(data, byteLen, n) == data[..m] + Zeros(n * byteLen - m)
  {
    PayloadsArePaddedPrefix(data, byteLen, FrameCount(|data|, byteLen));
  }

  /** A file one byte longer than a frame's payload is sent as one frame, and
      its last byte never reaches the service (CRLF host: byteLen 8070). */
  lemma AsWrittenDropsLastByte(data: seq<byte>)
    requires |data| == 8071
    ensures FrameCount(|data|, 8070) == 1
    ensures Payloads(data, 8070, 1) == data[..8070]
    ensures Payloads(data, 8070, 1) != data[..8070] + [data[8070]]
  {
    PayloadsArePaddedPrefix(data, 8070, 1);
  }

  /** The loop as evidently intended: the cursor follows the stream and grows
      by `byteLen` only, so it runs ceil(fileLength / byteLen) times. */
  function CorrectedFrameCount(fileLength: nat, byteLen: nat): (n: nat)
    requires byteLen > 0
    ensures n * byteLen >= fileLength
    ensures n > 0 ==> (n - 1) * byteLen < fileLength
  {
    var n := (fileLength + byteLen - 1) / byteLen;
    assert fileLength + byteLen - 1 == n * byteLen + (fileLength + byteLen - 1) % byteLen;
    n
  }

  /** With the corrected count every byte of the file is sent, in order,
      followed only by the zero padding of the last frame. */
  lemma CorrectedChunksCoverFile(data: seq<byte>, byteLen: nat)
    requires byteLen > 0
    ensures var n := CorrectedFrameCount(|data|, byteLen);
      Payloads(data, byteLen, n) == data + Zeros(n * byteLen - |data|)
  {
    var n := CorrectedFrameCount(|data|, byteLen);
    PayloadsArePaddedPrefix(data, byteLen, n);
    assert data[..|data|] == data;
  }

  /** Every binary frame of the file loop is exactly 8192 bytes long. */
  lemma FileFrameSize(headerBytes: seq<byte>, data: seq<byte>, k: nat, littleEndianHost: bool)
    requires ByteLen(|headerBytes|) >= 0
    ensures |AudioFrame(headerBytes, ChunkPayload(data, ByteLen(|headerBytes|), k), littleEndianHost)| == MaxFrameSize
  {
  }
}
