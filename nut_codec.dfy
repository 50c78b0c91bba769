/** The primitive types of the NUT container format as the reader and the writer put
    them on the wire: `v` (variable-length unsigned value), `s` (signed value), fixed
    8-, 4- and 1-byte integers, `vb` (length-prefixed bytes, also used for strings),
    NUL-terminated strings and `t` (timestamp folded with a stream count).
    Each encoder is a function from a value to bytes; each decoder reads from a byte
    sequence at a position and gives the value and the position just after it, or
    fails with EndOfStream when the bytes run out. */
module NutCodec {
  import opened Wrappers
  import opened Text

  /** 64-bit and 32-bit two's-complement integers, Java's `long` and `int`. */
  type Long = x: int | -0x8000_0000_0000_0000 <= x < 0x8000_0000_0000_0000
  type Int32 = x: int | -0x8000_0000 <= x < 0x8000_0000

  /** The failures a reader or a writer reports: EOFException, the ArithmeticException
      of a zero stream count, and the IOException of a closed sink. */
  datatype NutError = EndOfStream | DivisionByZero | SinkClosed

  /** A decoded value together with the position just after its last byte. */
  datatype Decoded<+T> = Decoded(value: T, next: nat)

  /** A NUT timestamp: which stream it belongs to and its value in that stream's time base. */
  datatype Timestamp = Timestamp(streamIndex: nat, pts: nat)

  /** `s` holds the bytes `e` starting at position `p`. */
  predicate HoldsAt(s: seq<Byte>, p: nat, e: seq<Byte>) {
    p + |e| <= |s| && s[p..p + |e|] == e
  }

  /** Bytes holding `x + y` at `p` hold `x` at `p` and `y` right after it. */
  lemma SplitAt(s: seq<Byte>, p: nat, x: seq<Byte>, y: seq<Byte>)
    requires HoldsAt(s, p, x + y)
    ensures HoldsAt(s, p, x) && HoldsAt(s, p + |x|, y)
  {
    assert s[p..p + |x|] == s[p..p + |x + y|][..|x|];
    assert s[p + |x|..p + |x| + |y|] == s[p..p + |x + y|][|x|..];
  }

  /** Bytes holding `e` at `p` hold `e[k]` at `p + k`. */
  lemma ByteAt(s: seq<Byte>, p: nat, e: seq<Byte>, k: nat)
    requires HoldsAt(s, p, e) && k < |e|
    ensures s[p + k] == e[k]
  {
    assert s[p..p + |e|][k] == s[p + k];
  }

  // ---------------------------------------------------------------------------
  // v: 7-bit groups, most significant first, bit 7 set on every byte but the last

  /** The groups above the last one, each with its continuation bit set. */
  function ContinuationBytes(v: nat): seq<Byte> {
    if v == 0 then [] else ContinuationBytes(v / 128) + [128 + v % 128]
  }

  /** `writeValue`. */
  function EncodeValue(v: nat): seq<Byte> {
    ContinuationBytes(v / 128) + [v % 128]
  }

  lemma {:induction false} ContinuationForm(v: nat)
    ensures v == 0 <==> ContinuationBytes(v) == []
    ensures forall i :: 0 <= i < |ContinuationBytes(v)| ==> ContinuationBytes(v)[i] >= 128
    ensures ContinuationBytes(v) != [] ==> ContinuationBytes(v)[0] != 128
  {
    if v > 0 {
      ContinuationForm(v / 128);
    }
  }

  /** The encoding is canonical: bit 7 is set on every byte but the last, and no
      leading group is empty (a first byte of 0x80 would add nothing). */
  lemma EncodeValueForm(v: nat)
    ensures |EncodeValue(v)| >= 1 && EncodeValue(v)[|EncodeValue(v)| - 1] < 128
    ensures forall i :: 0 <= i < |EncodeValue(v)| - 1 ==> EncodeValue(v)[i] >= 128
    ensures |EncodeValue(v)| > 1 ==> EncodeValue(v)[0] != 128
  {
    ContinuationForm(v / 128);
  }

  function Pow128(n: nat): (p: nat)
    ensures p >= 1
  {
    if n == 0 then 1 else 128 * Pow128(n - 1)
  }

  /** The encoding of `v` has exactly as many bytes as `v` needs 7-bit groups. */
  lemma {:induction false} EncodeValueLength(v: nat)
    ensures v < Pow128(|EncodeValue(v)|)
    ensures |EncodeValue(v)| == 1 || Pow128(|EncodeValue(v)| - 1) <= v
    decreases v
  {
    if v >= 128 {
      EncodeValueLength(v / 128);
      var k := |EncodeValue(v / 128)|;
      assert |ContinuationBytes(v / 128)| == |ContinuationBytes(v / 128 / 128)| + 1;
      assert |EncodeValue(v)| == k + 1;
      assert Pow128(k + 1) == 128 * Pow128(k);
    }
  }

  /** Reads 7-bit groups into `acc` until a byte with bit 7 clear. */
  function ReadValueAt(s: seq<Byte>, pos: nat, acc: nat): (r: Result<Decoded<nat>, NutError>)
    ensures r.Ok? ==> pos < r.value.next <= |s|
    ensures r.Err? ==> r.error == EndOfStream
    decreases |s| - pos
  {
    if pos >= |s| then Err(EndOfStream)
    else if s[pos] < 128 then Ok(Decoded(acc * 128 + s[pos], pos + 1))
    else ReadValueAt(s, pos + 1, acc * 128 + s[pos] % 128)
  }

  /** `readValue`. */
  function DecodeValue(s: seq<Byte>, pos: nat): (r: Result<Decoded<nat>, NutError>)
    ensures r.Ok? ==> pos < r.value.next <= |s|
  {
    ReadValueAt(s, pos, 0)
  }

  lemma {:induction false} ReadContinuationBytes(s: seq<Byte>, pos: nat, w: nat)
    requires HoldsAt(s, pos, ContinuationBytes(w))
    ensures ReadValueAt(s, pos, 0) == ReadValueAt(s, pos + |ContinuationBytes(w)|, w)
    decreases w
  {
    if w > 0 {
      var c := ContinuationBytes(w / 128);
      SplitAt(s, pos, c, [128 + w % 128]);
      ByteAt(s, pos + |c|, [128 + w % 128], 0);
      ReadContinuationBytes(s, pos, w / 128);
    }
  }

  /** `readValue` after `writeValue` gives the value back and stops right after it. */
  lemma {:induction false} DecodeEncodeValue(s: seq<Byte>, pos: nat, v: nat)
    requires HoldsAt(s, pos, EncodeValue(v))
    ensures DecodeValue(s, pos) == Ok(Decoded(v, pos + |EncodeValue(v)|))
  {
    var c := ContinuationBytes(v / 128);
    SplitAt(s, pos, c, [v % 128]);
    ByteAt(s, pos + |c|, [v % 128], 0);
    ReadContinuationBytes(s, pos, v / 128);
  }

  /** `readValue` fails with EOF exactly when no byte with bit 7 clear is left. */
  lemma {:induction false} ReadValueAtFails(s: seq<Byte>, pos: nat, acc: nat)
    ensures ReadValueAt(s, pos, acc).Err? <==> forall i :: pos <= i < |s| ==> s[i] >= 128
    decreases |s| - pos
  {
    if pos < |s| && s[pos] >= 128 {
      ReadValueAtFails(s, pos + 1, acc * 128 + s[pos] % 128);
    }
  }

  // ---------------------------------------------------------------------------
  // s: signed values through the NUT mapping 0, 1, -1, 2, -2, ... -> 0, 1, 2, 3, 4, ...

  /** `writeSignedValue`'s mapping to an unsigned value. */
  function SignedToValue(x: int): (u: nat)
    ensures x > 0 ==> u % 2 == 1
    ensures x <= 0 ==> u % 2 == 0
  {
    if x > 0 then 2 * x - 1 else -2 * x
  }

  /** `readSignedValue`'s mapping back: odd values are positive, even ones not. */
  function ValueToSigned(u: nat): (x: int)
    ensures SignedToValue(x) == u
  {
    if u % 2 == 1 then (u + 1) / 2 else -(u / 2)
  }

  /** The mapping loses nothing: every signed value comes back. */
  lemma SignedRoundTrip(x: int)
    ensures ValueToSigned(SignedToValue(x)) == x
  {
  }

  function EncodeSignedValue(x: int): seq<Byte> {
    EncodeValue(SignedToValue(x))
  }

  function DecodeSignedValue(s: seq<Byte>, pos: nat): (r: Result<Decoded<int>, NutError>)
    ensures r.Ok? ==> pos < r.value.next <= |s|
    ensures r.Err? <==> DecodeValue(s, pos).Err?
  {
    match DecodeValue(s, pos)
    case Ok(d) => Ok(Decoded(ValueToSigned(d.value), d.next))
    case Err(e) => Err(e)
  }

  lemma DecodeEncodeSignedValue(s: seq<Byte>, pos: nat, x: int)
    requires HoldsAt(s, pos, EncodeSignedValue(x))
    ensures DecodeSignedValue(s, pos) == Ok(Decoded(x, pos + |EncodeSignedValue(x)|))
  {
    var u := SignedToValue(x);
    DecodeEncodeValue(s, pos, u);
    DecodeSignedOf(s, pos, u, pos + |EncodeValue(u)|);
    SignedRoundTrip(x);
  }

  lemma DecodeSignedOf(s: seq<Byte>, pos: nat, u: nat, next: nat)
    requires DecodeValue(s, pos) == Ok(Decoded(u, next))
    ensures DecodeSignedValue(s, pos) == Ok(Decoded(ValueToSigned(u), next))
  {
  }

  // ---------------------------------------------------------------------------
  // Fixed-width big-endian integers

  function Pow256(n: nat): (p: nat)
    ensures p >= 1
  {
    if n == 0 then 1 else 256 * Pow256(n - 1)
  }

  /** The `n` low bytes of `u`, most significant first. */
  function BigEndian(u: nat, n: nat): (r: seq<Byte>)
    ensures |r| == n
  {
    if n == 0 then [] else BigEndian(u / 256, n - 1) + [u % 256]
  }

  /** The unsigned value of bytes read most significant first. */
  function FromBigEndian(b: seq<Byte>): (u: nat)
    ensures u < Pow256(|b|)
  {
    if b == [] then 0 else FromBigEndian(b[..|b| - 1]) * 256 + b[|b| - 1]
  }

  lemma {:induction false} FromBigEndianOf(u: nat, n: nat)
    requires u < Pow256(n)
    ensures FromBigEndian(BigEndian(u, n)) == u
  {
    if n > 0 {
      FromBigEndianOf(u / 256, n - 1);
      var b := BigEndian(u, n);
      assert b[..|b| - 1] == BigEndian(u / 256, n - 1);
    }
  }

  /** `writeLong`: eight bytes of two's complement. */
  function EncodeLong(x: Long): (r: seq<Byte>)
    ensures |r| == 8
  {
    BigEndian(if x < 0 then x + 0x1_0000_0000_0000_0000 else x, 8)
  }

  /** `writeInt`: four bytes of two's complement. */
  function EncodeInt(x: Int32): (r: seq<Byte>)
    ensures |r| == 4
  {
    BigEndian(if x < 0 then x + 0x1_0000_0000 else x, 4)
  }

  /** `writeByte`: the low eight bits of an `int`. */
  function EncodeByte(x: Int32): (r: seq<Byte>)
    ensures |r| == 1 && (0 <= x < 256 ==> r[0] == x)
  {
    [x % 256]
  }

  /** Exactly `n` raw bytes, or EOF when fewer are left (`readBytes`, `skipBytes`). */
  function DecodeBytes(s: seq<Byte>, pos: nat, n: nat): (r: Result<Decoded<seq<Byte>>, NutError>)
    ensures r.Ok? <==> pos + n <= |s|
    ensures r.Ok? ==> r.value == Decoded(s[pos..pos + n], pos + n)
    ensures r.Err? ==> r.error == EndOfStream
  {
    if pos + n <= |s| then Ok(Decoded(s[pos..pos + n], pos + n)) else Err(EndOfStream)
  }

  /** `readLong`. */
  function DecodeLong(s: seq<Byte>, pos: nat): (r: Result<Decoded<Long>, NutError>)
    ensures r.Ok? <==> pos + 8 <= |s|
    ensures r.Ok? ==> r.value.next == pos + 8
  {
    match DecodeBytes(s, pos, 8)
    case Ok(d) =>
      var u := FromBigEndian(d.value);
      assert Pow256(8) == 0x1_0000_0000_0000_0000;
      var x: Long := if u >= 0x8000_0000_0000_0000 then u - 0x1_0000_0000_0000_0000 else u;
      Ok(Decoded(x, d.next))
    case Err(e) => Err(e)
  }

  /** `readInt`. */
  function DecodeInt(s: seq<Byte>, pos: nat): (r: Result<Decoded<Int32>, NutError>)
    ensures r.Ok? <==> pos + 4 <= |s|
    ensures r.Ok? ==> r.value.next == pos + 4
  {
    match DecodeBytes(s, pos, 4)
    case Ok(d) =>
      var u := FromBigEndian(d.value);
      assert Pow256(4) == 0x1_0000_0000;
      var x: Int32 := if u >= 0x8000_0000 then u - 0x1_0000_0000 else u;
      Ok(Decoded(x, d.next))
    case Err(e) => Err(e)
  }

  /** `readByte`: the next byte as an unsigned value. */
  function DecodeByte(s: seq<Byte>, pos: nat): (r: Result<Decoded<Byte>, NutError>)
    ensures r.Ok? <==> pos < |s|
    ensures r.Ok? ==> r.value == Decoded(s[pos], pos + 1)
  {
    if pos < |s| then Ok(Decoded(s[pos], pos + 1)) else Err(EndOfStream)
  }

  lemma DecodeEncodeLong(s: seq<Byte>, pos: nat, x: Long)
    requires HoldsAt(s, pos, EncodeLong(x))
    ensures DecodeLong(s, pos) == Ok(Decoded(x, pos + 8))
  {
    assert Pow256(8) == 0x1_0000_0000_0000_0000;
    FromBigEndianOf(if x < 0 then x + 0x1_0000_0000_0000_0000 else x, 8);
  }

  lemma DecodeEncodeInt(s: seq<Byte>, pos: nat, x: Int32)
    requires HoldsAt(s, pos, EncodeInt(x))
    ensures DecodeInt(s, pos) == Ok(Decoded(x, pos + 4))
  {
    assert Pow256(4) == 0x1_0000_0000;
    FromBigEndianOf(if x < 0 then x + 0x1_0000_0000 else x, 4);
  }

  // ---------------------------------------------------------------------------
  // vb: a value giving the length, then that many bytes (writeVariableBytes and
  // writeVariablesString share this form)

  function EncodeVariableBytes(b: seq<Byte>): (r: seq<Byte>)
    ensures |r| == |EncodeValue(|b|)| + |b|
  {
    EncodeValue(|b|) + b
  }

  function DecodeVariableBytes(s: seq<Byte>, pos: nat): (r: Result<Decoded<seq<Byte>>, NutError>)
    ensures r.Ok? ==> pos < r.value.next <= |s| && |r.value.value| < r.value.next - pos
    ensures r.Err? ==> r.error == EndOfStream
  {
    match DecodeValue(s, pos)
    case Ok(n) => DecodeBytes(s, n.next, n.value)
    case Err(e) => Err(e)
  }

  lemma DecodeEncodeVariableBytes(s: seq<Byte>, pos: nat, b: seq<Byte>)
    requires HoldsAt(s, pos, EncodeVariableBytes(b))
    ensures DecodeVariableBytes(s, pos) == Ok(Decoded(b, pos + |EncodeVariableBytes(b)|))
  {
    SplitAt(s, pos, EncodeValue(|b|), b);
    DecodeEncodeValue(s, pos, |b|);
  }

  // ---------------------------------------------------------------------------
  // NUL-terminated strings

  function EncodeCString(b: seq<Byte>): (r: seq<Byte>)
    ensures |r| == |b| + 1 && r[|b|] == 0
  {
    b + [0]
  }

  /** The first index at or after `pos` holding a zero byte, or -1. */
  function IndexOfZero(s: seq<Byte>, pos: nat): (r: int)
    ensures r == -1 || (pos <= r < |s| && s[r] == 0)
    ensures forall i :: pos <= i < |s| && (r == -1 || i < r) ==> s[i] != 0
    decreases |s| - pos
  {
    if pos >= |s| then -1 else if s[pos] == 0 then pos else IndexOfZero(s, pos + 1)
  }

  /** `readCString`: the bytes before the first zero; the zero is consumed too. */
  function DecodeCString(s: seq<Byte>, pos: nat): (r: Result<Decoded<seq<Byte>>, NutError>)
    ensures r.Ok? ==> pos < r.value.next <= |s| && r.value.value == s[pos..r.value.next - 1]
    ensures r.Ok? ==> s[r.value.next - 1] == 0 && 0 !in r.value.value
    ensures r.Err? <==> forall i :: pos <= i < |s| ==> s[i] != 0
    ensures r.Err? ==> r.error == EndOfStream
  {
    var z := IndexOfZero(s, pos);
    if z < 0 then Err(EndOfStream) else Ok(Decoded(s[pos..z], z + 1))
  }

  lemma DecodeEncodeCString(s: seq<Byte>, pos: nat, b: seq<Byte>)
    requires 0 !in b
    requires HoldsAt(s, pos, EncodeCString(b))
    ensures DecodeCString(s, pos) == Ok(Decoded(b, pos + |b| + 1))
  {
    SplitAt(s, pos, b, [0]);
    ByteAt(s, pos + |b|, [0], 0);
    forall i | pos <= i < pos + |b|
      ensures s[i] != 0
    {
      ByteAt(s, pos, b, i - pos);
    }
    assert IndexOfZero(s, pos) == pos + |b|;
  }

  // ---------------------------------------------------------------------------
  // t: timestamp and stream index folded into one value

  function EncodeTimestamp(streamCount: nat, t: Timestamp): seq<Byte> {
    EncodeValue(t.pts * streamCount + t.streamIndex)
  }

  /** `readTimestamp(streamCount)`: the value is read first, then split by the count. */
  function DecodeTimestamp(s: seq<Byte>, pos: nat, streamCount: nat): (r: Result<Decoded<Timestamp>, NutError>)
    ensures DecodeValue(s, pos).Err? ==> r == Err(EndOfStream)
    ensures DecodeValue(s, pos).Ok? && streamCount == 0 ==> r == Err(DivisionByZero)
    ensures r.Ok? ==> r.value.value.streamIndex < streamCount
  {
    match DecodeValue(s, pos)
    case Ok(d) =>
      if streamCount == 0 then Err(DivisionByZero)
      else Ok(Decoded(Timestamp(d.value % streamCount, d.value / streamCount), d.next))
    case Err(e) => Err(e)
  }

  lemma MultipleAtLeast(a: int, d: nat)
    requires a >= 1
    ensures a * d >= d
  {
  }

  lemma FoldSplit(pts: nat, count: nat, index: nat)
    requires index < count
    ensures (pts * count + index) / count == pts && (pts * count + index) % count == index
  {
    var x := pts * count + index;
    var q, r := x / count, x % count;
    assert (q - pts) * count == index - r;
    if q > pts {
      MultipleAtLeast(q - pts, count);
    } else if q < pts {
      MultipleAtLeast(pts - q, count);
    }
  }

  /** A timestamp read with the stream count it was written with comes back unchanged. */
  lemma DecodeEncodeTimestamp(s: seq<Byte>, pos: nat, streamCount: nat, t: Timestamp)
    requires t.streamIndex < streamCount
    requires HoldsAt(s, pos, EncodeTimestamp(streamCount, t))
    ensures DecodeTimestamp(s, pos, streamCount) == Ok(Decoded(t, pos + |EncodeTimestamp(streamCount, t)|))
  {
    DecodeEncodeValue(s, pos, t.pts * streamCount + t.streamIndex);
    FoldSplit(t.pts, streamCount, t.streamIndex);
  }

  // ---------------------------------------------------------------------------
  // Text as bytes: the test strings are ASCII, so a character is its code

  function AsciiBytes(text: string): (r: seq<Byte>)
    requires forall i :: 0 <= i < |text| ==> text[i] as int < 128
    ensures |r| == |text| && forall i :: 0 <= i < |r| ==> r[i] == text[i] as int
  {
    seq(|text|, i requires 0 <= i < |text| => text[i] as int)
  }
}
