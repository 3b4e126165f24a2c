/** Value types shared by the whole model: optional values, the outcome of a
    .NET call that may throw, bytes, the platform newline, ASCII encoding and
    the little-endian integer layouts written by BitConverter. */
module Common {

  datatype Option<+T> = None | Some(value: T)

  /** The outcome of a C# call that either returns a value or throws. */
  datatype Outcome<+T> = Returned(value: T) | Thrown

  /** The outcome of a C# method or task that returns nothing. */
  datatype Completion = Normal | Faulted

  type byte = b: int | 0 <= b < 256

  /** Environment.NewLine: CRLF on Windows hosts, LF elsewhere. */
  datatype NewLine = CRLF | LF {
    function Text(): (s: string)
      ensures 1 <= |s| <= 2 && s[|s| - 1] == '\n'
      ensures forall i :: 0 <= i < |s| ==> s[i] == '\r' || s[i] == '\n'
    {
      match this
      case CRLF => "\r\n"
      case LF => "\n"
    }
  }

  function Zeros(n: nat): (r: seq<byte>)
    ensures |r| == n && forall i :: 0 <= i < n ==> r[i] == 0
  {
    seq(n, _ => 0)
  }

  predicate IsAscii(s: string) {
    forall i :: 0 <= i < |s| ==> s[i] as int < 128
  }

  /** Encoding.ASCII.GetBytes of one character: characters outside 7-bit
      ASCII become '?'. On ASCII text this is also what UTF-8 produces. */
  function AsciiByte(c: char): (b: byte)
    ensures c as int < 128 ==> b == c as int
  {
    if c as int < 128 then c as int else '?' as int
  }

  function AsciiBytes(s: string): (r: seq<byte>)
    ensures |r| == |s|
  {
    seq(|s|, i requires 0 <= i < |s| => AsciiByte(s[i]))
  }

  /** Encoding.ASCII.GetString, the decoding partner of AsciiBytes. */
  function AsciiString(bs: seq<byte>): (s: string)
    ensures |s| == |bs| && IsAscii(s)
    ensures forall i :: 0 <= i < |bs| && bs[i] < 128 ==> s[i] as int == bs[i]
  {
    seq(|bs|, i requires 0 <= i < |bs| => if bs[i] < 128 then bs[i] as char else '?')
  }

  lemma AsciiAppend(a: string, b: string)
    requires IsAscii(a) && IsAscii(b)
    ensures IsAscii(a + b)
  {
    assert forall i :: 0 <= i < |a + b| ==> (a + b)[i] == if i < |a| then a[i] else b[i - |a|];
  }

  lemma AsciiRoundTrip(s: string)
    requires IsAscii(s)
    ensures AsciiString(AsciiBytes(s)) == s
  {
    var r := AsciiString(AsciiBytes(s));
    assert forall i :: 0 <= i < |s| ==> r[i] == s[i];
  }

  lemma AppendAssoc<T>(a: seq<T>, b: seq<T>, c: seq<T>)
    ensures a + (b + c) == (a + b) + c
  {
  }

  const TwoTo16: int := 0x1_0000
  const TwoTo31: int := 0x8000_0000
  const TwoTo32: int := 0x1_0000_0000

  /** The value range of a C# `int`. */
  type int32 = x: int | -TwoTo31 <= x < TwoTo31

  /** Unchecked C# `int` arithmetic: the mathematical value wrapped to 32 bits. */
  function Wrap32(x: int): (r: int32)
    ensures r % TwoTo32 == x % TwoTo32
    ensures -TwoTo31 <= x < TwoTo31 ==> r == x
  {
    var m := x % TwoTo32;
    if m < TwoTo31 then m else m - TwoTo32
  }

  /** C# integer division by a positive divisor truncates toward zero. */
  function CsDiv(a: int, d: int): (q: int)
    requires d > 0
    ensures a >= 0 ==> q == a / d
    ensures a < 0 ==> q == -((-a) / d)
  {
    if a >= 0 then a / d else -((-a) / d)
  }

  /** BitConverter.GetBytes of a 16-bit value on a little-endian host. */
  function LE16(v: nat): (r: seq<byte>)
    requires v < TwoTo16
    ensures |r| == 2 && r[0] as int + 256 * (r[1] as int) == v
  {
    [v % 256, v / 256]
  }

  /** BitConverter.GetBytes of a 32-bit value (its unsigned reading) on a
      little-endian host. */
  function LE32(v: nat): (r: seq<byte>)
    requires v < TwoTo32
    ensures |r| == 4
    ensures r[0] as int + 256 * (r[1] as int) + 65536 * (r[2] as int) + 16777216 * (r[3] as int) == v
  {
    var q1 := v / 256;
    var q2 := q1 / 256;
    assert v == v % 256 + 256 * q1 && q1 == q1 % 256 + 256 * q2;
    assert q2 == q2 % 256 + 256 * (q2 / 256) && q2 / 256 < 256;
    [v % 256, q1 % 256, q2 % 256, q2 / 256]
  }

  /** BitConverter.GetBytes(int): the two's complement bytes of an int32. */
  function Int32Bytes(x: int32): (r: seq<byte>)
    ensures |r| == 4
  {
    LE32(x % TwoTo32)
  }

  /** Reads an unsigned little-endian 16-bit field. */
  function U16At(s: seq<byte>, i: nat): nat
    requires i + 2 <= |s|
  {
    s[i] as int + 256 * (s[i + 1] as int)
  }

  /** Reads an unsigned little-endian 32-bit field. */
  function U32At(s: seq<byte>, i: nat): nat
    requires i + 4 <= |s|
  {
    s[i] as int + 256 * (s[i + 1] as int) + 65536 * (s[i + 2] as int) + 16777216 * (s[i + 3] as int)
  }

  lemma LE16RoundTrip(v: nat)
    requires v < TwoTo16
    ensures U16At(LE16(v), 0) == v
  {
  }

  lemma LE32RoundTrip(v: nat)
    requires v < TwoTo32
    ensures U32At(LE32(v), 0) == v
  {
  }
}
