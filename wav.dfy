/** BuildRiffWAVHeader: the 44-byte RIFF/WAVE header sent as the first audio
    packet of a voice job, with its fields written by BitConverter on a
    little-endian host. */
module Wav {
  import opened Common

  /** Convert.ToUInt16 of an int: the value when it fits, an
      OverflowException otherwise. */
  function ToUInt16(x: int): (r: Outcome<nat>)
    ensures r.Returned? <==> 0 <= x < TwoTo16
    ensures r.Returned? ==> r.value == x
  {
    if 0 <= x < TwoTo16 then Returned(x) else Thrown
  }

  /** The four ASCII characters of a chunk tag. */
  function Tag(s: string): (r: seq<byte>)
    requires |s| == 4 && IsAscii(s)
    ensures |r| == 4 && forall i :: 0 <= i < 4 ==> r[i] == s[i] as int
  {
    AsciiBytes(s)
  }

  /** The three values that go through Convert.ToUInt16, in source order. */
  predicate FitsUInt16Fields(resolution: int32, channels: int32) {
    && 0 <= channels < TwoTo16
    && 0 <= Wrap32(CsDiv(resolution, 8) * channels) < TwoTo16
    && 0 <= resolution < TwoTo16
  }

  /** The fields of a WAV header as the builder writes them. */
  predicate WavLayout(h: seq<byte>, fmtSize: int, nbsamples: int32, resolution: int32, channels: int32, rate: int32) {
      && |h| == 44
      && h[0..4] == Tag("RIFF") && h[8..12] == Tag("WAVE") && h[12..16] == Tag("fmt ") && h[36..40] == Tag("data")
      && U32At(h, 4) == (36 + nbsamples) % TwoTo32
      && U32At(h, 16) == fmtSize
      && U16At(h, 20) == 1
      && U16At(h, 22) == channels
      && U32At(h, 24) == rate % TwoTo32
      && U32At(h, 28) == (CsDiv(resolution, 8) * rate * channels) % TwoTo32
      && U16At(h, 32) == Wrap32(CsDiv(resolution, 8) * channels)
      && U16At(h, 34) == resolution
      && U32At(h, 40) == nbsamples % TwoTo32
  }

  /** BuildRiffWAVHeader, appending each field to a growing list. C# `int`
      arithmetic is unchecked, so sums and products wrap to 32 bits; the
      conversions to UInt16 are checked and throw. */
  method BuildRiffWavHeader(nbsamples: int32, resolution: int32, channels: int32, rate: int32)
    returns (r: Outcome<seq<byte>>)
    ensures r.Thrown? <==> !FitsUInt16Fields(resolution, channels)
    ensures r.Returned? ==> WavLayout(r.value, resolution, nbsamples, resolution, channels, rate)
  {
    var header: seq<byte> := [];
    var riff, size, wave, fmt := Tag("RIFF"), Int32Bytes(Wrap32(36 + nbsamples)), Tag("WAVE"), Tag("fmt ");
    header := header + riff + size + wave + fmt;
    var fmtSize := Int32Bytes(resolution);
    header := header + fmtSize;
    var audioFormat := LE16(1);
    header := header + audioFormat;
    var ch := ToUInt16(channels);
    if ch.Thrown? {
      return Thrown;
    }
    var channelField := LE16(ch.value);
    header := header + channelField;
    var rateField := Int32Bytes(rate);
    header := header + rateField;
    var bytesPerSample := CsDiv(resolution, 8);
    var byteRate := Int32Bytes(Wrap32(Wrap32(rate * bytesPerSample) * channels));
    header := header + byteRate;
    var blockAlign := ToUInt16(Wrap32(bytesPerSample * channels));
    if blockAlign.Thrown? {
      return Thrown;
    }
    var blockAlignField := LE16(blockAlign.value);
    header := header + blockAlignField;
    var bitDepth := ToUInt16(resolution);
    if bitDepth.Thrown? {
      return Thrown;
    }
    var bitDepthField := LE16(bitDepth.value);
    header := header + bitDepthField;
    var data, dataSize := Tag("data"), Int32Bytes(nbsamples);
    header := header + data + dataSize;
    WavFields(header, nbsamples, resolution, channels, rate);
    r := Returned(header);
  }

  /** How a RIFF reader finds the data chunk: it skips the `fmt ` chunk by
      the size stored in bytes 16..19 and expects the `data` tag there. */
  predicate DataChunkFound(h: seq<byte>) {
    && |h| >= 20
    && 24 + U32At(h, 16) <= |h|
    && h[20 + U32At(h, 16)..24 + U32At(h, 16)] == Tag("data")
  }

  /** For 16-bit audio the stored resolution happens to equal the `fmt `
      chunk size, so the header is well formed. */
  lemma SixteenBitHeaderIsWellFormed(h: seq<byte>, nbsamples: int32, channels: int32, rate: int32)
    requires WavLayout(h, 16, nbsamples, 16, channels, rate)
    ensures DataChunkFound(h)
  {
  }

  /** With 8-bit mono audio at 8000 Hz the header puts 8 where the `fmt `
      chunk size belongs, and a reader skipping 8 bytes lands on the byte
      rate instead of the `data` tag. */
  method EightBitHeaderIsMalformed() returns (r: Outcome<seq<byte>>)
    ensures r.Returned? && |r.value| == 44
    ensures U32At(r.value, 16) == 8 && !DataChunkFound(r.value)
  {
    r := BuildRiffWavHeader(0, 8, 1, 8000);
    assert U32At(r.value, 28) == 8000;
    assert r.value[28] == 64;
    assert r.value[28..32][0] == 64;
  }

  /** The header as evidently intended: the same fields, with the `fmt `
      chunk size 16 in bytes 16..19, so the data chunk is always found. */
  method BuildCanonicalWavHeader(nbsamples: int32, resolution: int32, channels: int32, rate: int32)
    returns (r: Outcome<seq<byte>>)
    ensures r.Thrown? <==> !FitsUInt16Fields(resolution, channels)
    ensures r.Returned? ==> WavLayout(r.value, 16, nbsamples, resolution, channels, rate) && DataChunkFound(r.value)
  {
    var w := BuildRiffWavHeader(nbsamples, resolution, channels, rate);
    if w.Thrown? {
      return Thrown;
    }
    var h := w.value[..16] + LE32(16) + w.value[20..];
    PatchKeeps(w.value, h, nbsamples, resolution, channels, rate);
    r := Returned(h);
  }

  /** Overwriting bytes 16..19 touches no other field. */
  lemma PatchKeeps(w: seq<byte>, h: seq<byte>, nbsamples: int32, resolution: int32, channels: int32, rate: int32)
    requires WavLayout(w, resolution, nbsamples, resolution, channels, rate)
    requires h == w[..16] + LE32(16) + w[20..]
    ensures WavLayout(h, 16, nbsamples, resolution, channels, rate) && DataChunkFound(h)
  {
    assert |h| == 44;
    assert forall i :: 20 <= i < 44 ==> h[i] == w[i];
    assert forall i :: 0 <= i < 16 ==> h[i] == w[i];
    assert h[16..20] == LE32(16);
    assert h[0..4] == w[0..4] && h[8..12] == w[8..12] && h[12..16] == w[12..16] && h[36..40] == w[36..40];
  }

  lemma WavFields(h: seq<byte>, nbsamples: int32, resolution: int32, channels: int32, rate: int32)
    requires FitsUInt16Fields(resolution, channels)
    requires h == [] + Tag("RIFF") + Int32Bytes(Wrap32(36 + nbsamples)) + Tag("WAVE") + Tag("fmt ")
      + Int32Bytes(resolution) + LE16(1) + LE16(channels) + Int32Bytes(rate)
      + Int32Bytes(Wrap32(Wrap32(rate * CsDiv(resolution, 8)) * channels))
      + LE16(Wrap32(CsDiv(resolution, 8) * channels)) + LE16(resolution) + Tag("data") + Int32Bytes(nbsamples)
    ensures WavLayout(h, resolution, nbsamples, resolution, channels, rate)
  {
    var bytesPerSample := CsDiv(resolution, 8);
    Layout(h, Tag("RIFF"), Int32Bytes(Wrap32(36 + nbsamples)), Tag("WAVE"), Tag("fmt "),
      Int32Bytes(resolution), LE16(1), LE16(channels), Int32Bytes(rate),
      Int32Bytes(Wrap32(Wrap32(rate * bytesPerSample) * channels)),
      LE16(Wrap32(bytesPerSample * channels)), LE16(resolution), Tag("data"), Int32Bytes(nbsamples));
    WrappedField(h, 4, 36 + nbsamples);
    Field32(h, 16, resolution);
    Field16(h, 20, 1);
    Field16(h, 22, channels);
    Field32(h, 24, rate);
    ByteRateField(h, resolution, channels, rate);
    Field16(h, 32, Wrap32(bytesPerSample * channels));
    Field16(h, 34, resolution);
    Field32(h, 40, nbsamples);
  }

  lemma WrappedField(h: seq<byte>, i: nat, x: int)
    requires i + 4 <= |h| && h[i..i + 4] == Int32Bytes(Wrap32(x))
    ensures U32At(h, i) == x % TwoTo32
  {
    Field32(h, i, Wrap32(x));
  }

  lemma ByteRateField(h: seq<byte>, resolution: int32, channels: int32, rate: int32)
    requires |h| == 44 && h[28..32] == Int32Bytes(Wrap32(Wrap32(rate * CsDiv(resolution, 8)) * channels))
    ensures U32At(h, 28) == (CsDiv(resolution, 8) * rate * channels) % TwoTo32
  {
    var bytesPerSample := CsDiv(resolution, 8);
    WrapProduct(rate, bytesPerSample, channels);
    Field32(h, 28, Wrap32(Wrap32(rate * bytesPerSample) * channels));
  }

  /** A little-endian 32-bit field holds the unsigned reading of its int. */
  lemma Field32(h: seq<byte>, i: nat, x: int32)
    requires i + 4 <= |h| && h[i..i + 4] == Int32Bytes(x)
    ensures U32At(h, i) == x % TwoTo32
    ensures x >= 0 ==> U32At(h, i) == x
  {
    assert h[i] == h[i..i + 4][0] && h[i + 1] == h[i..i + 4][1];
    assert h[i + 2] == h[i..i + 4][2] && h[i + 3] == h[i..i + 4][3];
  }

  lemma Field16(h: seq<byte>, i: nat, x: nat)
    requires i + 2 <= |h| && x < TwoTo16 && h[i..i + 2] == LE16(x)
    ensures U16At(h, i) == x
  {
    assert h[i] == h[i..i + 2][0] && h[i + 1] == h[i..i + 2][1];
  }

  /** Wrapping after each of two multiplications is wrapping once. */
  lemma WrapProduct(a: int, b: int, c: int)
    ensures Wrap32(Wrap32(a * b) * c) % TwoTo32 == (b * a * c) % TwoTo32
  {
    var w := Wrap32(a * b);
    assert w % TwoTo32 == (a * b) % TwoTo32;
    ModMul(w, a * b, c);
    assert a * b * c == b * a * c;
  }

  lemma ModMul(x: int, y: int, c: int)
    requires x % TwoTo32 == y % TwoTo32
    ensures (x * c) % TwoTo32 == (y * c) % TwoTo32
  {
    var d := x / TwoTo32 - y / TwoTo32;
    assert x == y + d * TwoTo32;
    MulShift(x, y, d, c);
    ModShift(y * c, d * c);
  }

  lemma MulShift(x: int, y: int, d: int, c: int)
    requires x == y + d * TwoTo32
    ensures x * c == y * c + (d * c) * TwoTo32
  {
    assert x * c == (y + d * TwoTo32) * c;
  }

  lemma ModShift(a: int, k: int)
    ensures (a + k * TwoTo32) % TwoTo32 == a % TwoTo32
  {
  }

  /** Where each appended field lands in the 44 bytes. */
  lemma Layout(h: seq<byte>, p0: seq<byte>, p1: seq<byte>, p2: seq<byte>, p3: seq<byte>, p4: seq<byte>, p5: seq<byte>,
      p6: seq<byte>, p7: seq<byte>, p8: seq<byte>, p9: seq<byte>, p10: seq<byte>, p11: seq<byte>, p12: seq<byte>)
    requires |p0| == 4 && |p1| == 4 && |p2| == 4 && |p3| == 4 && |p4| == 4 && |p5| == 2 && |p6| == 2
    requires |p7| == 4 && |p8| == 4 && |p9| == 2 && |p10| == 2 && |p11| == 4 && |p12| == 4
    requires h == [] + p0 + p1 + p2 + p3 + p4 + p5 + p6 + p7 + p8 + p9 + p10 + p11 + p12
    ensures |h| == 44
    ensures h[0..4] == p0 && h[4..8] == p1 && h[8..12] == p2 && h[12..16] == p3 && h[16..20] == p4
    ensures h[20..22] == p5 && h[22..24] == p6 && h[24..28] == p7 && h[28..32] == p8
    ensures h[32..34] == p9 && h[34..36] == p10 && h[36..40] == p11 && h[40..44] == p12
  {
    var a := p0 + p1 + p2 + p3 + p4 + p5 + p6;
    var b := p7 + p8 + p9 + p10 + p11 + p12;
    assert h == a + b;
    assert a[0..4] == p0 && a[4..8] == p1 && a[8..12] == p2 && a[12..16] == p3 && a[16..20] == p4;
    assert a[20..22] == p5 && a[22..24] == p6;
    assert b[0..4] == p7 && b[4..8] == p8 && b[8..10] == p9 && b[10..12] == p10 && b[12..16] == p11 && b[16..20] == p12;
    assert h[..24] == a && h[24..] == b;
  }
}
