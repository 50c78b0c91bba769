/** Writer and reader together: every primitive the writer puts into a sink is read
    back unchanged by a reader over that sink, each read advancing the position by
    exactly the bytes its write produced; a closed sink refuses every write once it
    is flushed; and peeking never consumes. */
module NutStream {
  import opened Wrappers
  import opened Text
  import opened NutCodec
  import opened NutInput
  import opened NutOutput

  /** One typed write, carrying what the matching read needs to know (the byte count
      of a raw read, the stream count of a timestamp). */
  datatype Primitive =
    | Value(v: nat)
    | Signed(x: int)
    | LongValue(l: Long)
    | IntValue(i: Int32)
    | ByteValue(b: Int32)
    | Bytes(raw: seq<Byte>)
    | VariableBytes(vb: seq<Byte>)
    | VariableString(text: seq<Byte>)
    | CString(chars: seq<Byte>)
    | TimestampValue(streamCount: nat, t: Timestamp)

  /** The writes whose read gives the same value back: a byte written as one of 0..255,
      a C string without a zero inside, a stream index below the stream count. */
  predicate ReadsBack(p: Primitive) {
    match p
    case ByteValue(b) => 0 <= b < 256
    case CString(chars) => 0 !in chars
    case TimestampValue(count, t) => t.streamIndex < count
    case _ => true
  }

  function Encode(p: Primitive): (r: seq<Byte>)
    ensures |r| >= 1 || p.Bytes?
  {
    match p
    case Value(v) => EncodeValue(v)
    case Signed(x) => EncodeSignedValue(x)
    case LongValue(l) => EncodeLong(l)
    case IntValue(i) => EncodeInt(i)
    case ByteValue(b) => EncodeByte(b)
    case Bytes(raw) => raw
    case VariableBytes(vb) => EncodeVariableBytes(vb)
    case VariableString(text) => EncodeVariableBytes(text)
    case CString(chars) => EncodeCString(chars)
    case TimestampValue(count, t) => EncodeTimestamp(count, t)
  }

  function Wrap<T>(d: Result<Decoded<T>, NutError>, f: T -> Primitive): (r: Result<Decoded<Primitive>, NutError>)
    ensures r.Ok? <==> d.Ok?
    ensures d.Ok? ==> r.value == Decoded(f(d.value.value), d.value.next)
    ensures d.Err? ==> r.error == d.error
  {
    match d
    case Ok(x) => Ok(Decoded(f(x.value), x.next))
    case Err(e) => Err(e)
  }

  /** The read matching `p`'s kind, at `pos`. */
  function DecodeLike(s: seq<Byte>, pos: nat, p: Primitive): Result<Decoded<Primitive>, NutError> {
    match p
    case Value(_) => Wrap(DecodeValue(s, pos), v => Value(v))
    case Signed(_) => Wrap(DecodeSignedValue(s, pos), x => Signed(x))
    case LongValue(_) => Wrap(DecodeLong(s, pos), l => LongValue(l))
    case IntValue(_) => Wrap(DecodeInt(s, pos), i => IntValue(i))
    case ByteValue(_) => Wrap(DecodeByte(s, pos), (b: Byte) => ByteValue(b))
    case Bytes(raw) => Wrap(DecodeBytes(s, pos, |raw|), b => Bytes(b))
    case VariableBytes(_) => Wrap(DecodeVariableBytes(s, pos), b => VariableBytes(b))
    case VariableString(_) => Wrap(DecodeVariableBytes(s, pos), b => VariableString(b))
    case CString(_) => Wrap(DecodeCString(s, pos), b => CString(b))
    case TimestampValue(count, _) => Wrap(DecodeTimestamp(s, pos, count), t => TimestampValue(count, t))
  }

  /** Reading a primitive where its encoding lies gives it back and stops right after. */
  lemma DecodeLikeEncode(s: seq<Byte>, pos: nat, p: Primitive)
    requires ReadsBack(p)
    requires HoldsAt(s, pos, Encode(p))
    ensures DecodeLike(s, pos, p) == Ok(Decoded(p, pos + |Encode(p)|))
  {
    match p
    case Value(v) => DecodeEncodeValue(s, pos, v);
    case Signed(x) => DecodeEncodeSignedValue(s, pos, x);
    case LongValue(l) => DecodeEncodeLong(s, pos, l);
    case IntValue(i) => DecodeEncodeInt(s, pos, i);
    case ByteValue(b) => ByteAt(s, pos, Encode(p), 0);
    case Bytes(raw) =>
    case VariableBytes(vb) => DecodeEncodeVariableBytes(s, pos, vb);
    case VariableString(text) => DecodeEncodeVariableBytes(s, pos, text);
    case CString(chars) => DecodeEncodeCString(s, pos, chars);
    case TimestampValue(count, t) => DecodeEncodeTimestamp(s, pos, count, t);
  }

  /** The encoding of each write of a series. */
  function Chunks(ps: seq<Primitive>): (cs: seq<seq<Byte>>)
    ensures |cs| == |ps| && forall i :: 0 <= i < |ps| ==> cs[i] == Encode(ps[i])
  {
    seq(|ps|, i requires 0 <= i < |ps| => Encode(ps[i]))
  }

  /** Byte strings one after the other. */
  function Concat(cs: seq<seq<Byte>>): seq<Byte> {
    if cs == [] then [] else cs[0] + Concat(cs[1..])
  }

  /** The bytes of a series of writes, in order. */
  function EncodeAll(ps: seq<Primitive>): seq<Byte> {
    Concat(Chunks(ps))
  }

  /** `writeX` on the writer for `p`'s kind. */
  method WritePrimitive(out: NutOutputStream, p: Primitive)
    requires out.Valid()
    modifies out
    ensures out.Valid() && out.sink == old(out.sink) && out.buffer == old(out.buffer) + Encode(p)
    ensures out.position == old(out.position) + |Encode(p)|
  {
    match p
    case Value(v) => out.WriteValue(v);
    case Signed(x) => out.WriteSignedValue(x);
    case LongValue(l) => out.WriteLong(l);
    case IntValue(i) => out.WriteInt(i);
    case ByteValue(b) => out.WriteByte(b);
    case Bytes(raw) => out.WriteBytes(raw);
    case VariableBytes(vb) => out.WriteVariableBytes(vb);
    case VariableString(text) => out.WriteVariablesString(text);
    case CString(chars) => out.WriteCString(chars);
    case TimestampValue(count, t) => out.WriteTimestamp(count, t);
  }

  /** `readX` on the reader for `p`'s kind. */
  method ReadPrimitive(input: NutInputStream, p: Primitive) returns (r: Result<Primitive, NutError>)
    requires input.Valid()
    modifies input
    ensures input.Valid()
    ensures input.Consumed(DecodeLike(input.source, old(input.position), p), r, old(input.position))
  {
    match p {
      case Value(_) =>
        var x := input.ReadValue();
        r := if x.Ok? then Ok(Value(x.value)) else Err(x.error);
      case Signed(_) =>
        var x := input.ReadSignedValue();
        r := if x.Ok? then Ok(Signed(x.value)) else Err(x.error);
      case LongValue(_) =>
        var x := input.ReadLong();
        r := if x.Ok? then Ok(LongValue(x.value)) else Err(x.error);
      case IntValue(_) =>
        var x := input.ReadInt();
        r := if x.Ok? then Ok(IntValue(x.value)) else Err(x.error);
      case ByteValue(_) =>
        var x := input.ReadByte();
        r := if x.Ok? then Ok(ByteValue(x.value)) else Err(x.error);
      case Bytes(raw) =>
        var x := input.ReadBytes(|raw|);
        r := if x.Ok? then Ok(Bytes(x.value)) else Err(x.error);
      case VariableBytes(_) =>
        var x := input.ReadVariableBytes();
        r := if x.Ok? then Ok(VariableBytes(x.value)) else Err(x.error);
      case VariableString(_) =>
        var x := input.ReadVariableString();
        r := if x.Ok? then Ok(VariableString(x.value)) else Err(x.error);
      case CString(_) =>
        var x := input.ReadCString();
        r := if x.Ok? then Ok(CString(x.value)) else Err(x.error);
      case TimestampValue(count, _) =>
        var x := input.ReadTimestamp(count);
        r := if x.Ok? then Ok(TimestampValue(count, x.value)) else Err(x.error);
    }
  }

  /** One more chunk appends its bytes. */
  lemma {:induction false} ConcatSnoc(cs: seq<seq<Byte>>, i: nat)
    requires i < |cs|
    ensures Concat(cs[..i + 1]) == Concat(cs[..i]) + cs[i]
  {
    if i > 0 {
      ConcatSnoc(cs[1..], i - 1);
      assert cs[..i + 1][1..] == cs[1..][..i];
      assert cs[..i][1..] == cs[1..][..i - 1];
    }
  }

  /** The chunks from `i` on are chunk `i` followed by those after it. */
  lemma ConcatFrom(cs: seq<seq<Byte>>, i: nat)
    requires i < |cs|
    ensures Concat(cs[i..]) == cs[i] + Concat(cs[i + 1..])
  {
    assert cs[i..][1..] == cs[i + 1..];
  }

  lemma Associative(a: seq<Byte>, b: seq<Byte>, c: seq<Byte>)
    ensures a + b + c == a + (b + c)
  {
  }

  /** One more element extends a prefix by that element. */
  lemma PrefixSnoc<T>(xs: seq<T>, i: nat)
    requires i < |xs|
    ensures xs[..i + 1] == xs[..i] + [xs[i]]
  {
  }

  /** The writes of a series, one after the other. */
  method WriteAll(out: NutOutputStream, ps: seq<Primitive>)
    requires out.Valid()
    modifies out
    ensures out.Valid() && out.sink == old(out.sink) && out.buffer == old(out.buffer) + EncodeAll(ps)
  {
    ghost var start, cs := out.buffer, Chunks(ps);
    var i := 0;
    while i < |ps|
      invariant 0 <= i <= |ps|
      invariant out.Valid() && out.sink == old(out.sink)
      invariant out.buffer == start + Concat(cs[..i])
    {
      ConcatSnoc(cs, i);
      Associative(start, Concat(cs[..i]), cs[i]);
      WritePrimitive(out, ps[i]);
      i := i + 1;
    }
    assert cs[..i] == cs;
  }

  /** The read matching `p` where `p`'s encoding lies gives `p` and consumes exactly
      that encoding. */
  method ReadBack(input: NutInputStream, p: Primitive) returns (r: Result<Primitive, NutError>)
    requires input.Valid() && ReadsBack(p) && HoldsAt(input.source, input.position, Encode(p))
    modifies input
    ensures input.Valid() && r == Ok(p) && input.position == old(input.position) + |Encode(p)|
  {
    DecodeLikeEncode(input.source, input.position, p);
    r := ReadPrimitive(input, p);
  }

  /** The read matching `p` where its encoding lies, followed by the bytes `rest`:
      it gives `p` and leaves the reader where `rest` starts. */
  method ReadNext(input: NutInputStream, p: Primitive, ghost chunk: seq<Byte>, ghost rest: seq<Byte>)
    returns (r: Primitive)
    requires input.Valid() && ReadsBack(p) && chunk == Encode(p)
    requires HoldsAt(input.source, input.position, chunk + rest)
    modifies input
    ensures input.Valid() && r == p && input.position == old(input.position) + |chunk|
    ensures HoldsAt(input.source, input.position, rest)
  {
    SplitAt(input.source, input.position, chunk, rest);
    var x := ReadBack(input, p);
    r := x.value;
  }

  /** The reads matching a series of writes, over bytes that hold their encoding at the
      reader's position: each gives the value written, and `positions` records the
      reader's position before the first read and after each one. */
  method ReadAll(input: NutInputStream, ps: seq<Primitive>) returns (read: seq<Primitive>, positions: seq<nat>)
    requires input.Valid() && forall i :: 0 <= i < |ps| ==> ReadsBack(ps[i])
    requires HoldsAt(input.source, input.position, EncodeAll(ps))
    modifies input
    ensures input.Valid() && input.position == old(input.position) + |EncodeAll(ps)|
    ensures read == ps
    ensures |positions| == |ps| + 1 && positions[0] == old(input.position)
    ensures forall i :: 0 <= i < |ps| ==> positions[i + 1] == positions[i] + |Encode(ps[i])|
  {
    ghost var cs := Chunks(ps);
    assert cs[0..] == cs;
    read, positions := [], [input.position];
    var i := 0;
    while i < |ps|
      invariant 0 <= i <= |ps|
      invariant input.Valid() && HoldsAt(input.source, input.position, Concat(cs[i..]))
      invariant read == ps[..i]
      invariant |positions| == i + 1 && positions[i] == input.position
      invariant forall k :: 0 <= k <= i ==> positions[k] == old(input.position) + |Concat(cs[..k])|
    {
      ConcatFrom(cs, i);
      ConcatSnoc(cs, i);
      var r := ReadNext(input, ps[i], cs[i], Concat(cs[i + 1..]));
      PrefixSnoc(ps, i);
      read := read + [r];
      ghost var before := positions;
      positions := positions + [input.position];
      forall k | 0 <= k <= i + 1
        ensures positions[k] == old(input.position) + |Concat(cs[..k])|
      {
        if k <= i {
          assert positions[k] == before[k];
        }
      }
      i := i + 1;
    }
    assert cs[..i] == cs;
    forall k | 0 <= k < |ps|
      ensures positions[k + 1] == positions[k] + |Encode(ps[k])|
    {
      ConcatSnoc(cs, k);
    }
  }

  /** The write-then-read round trip: the primitives are written to an open sink, the
      writer is closed, and a reader over the sink's bytes reads them back in order.
      Every read succeeds with the value written, and after the i-th read the reader's
      position is the number of bytes the first i writes produced. */
  method WriteThenRead(ps: seq<Primitive>) returns (read: seq<Primitive>, positions: seq<nat>)
    requires forall i :: 0 <= i < |ps| ==> ReadsBack(ps[i])
    ensures read == ps
    ensures |positions| == |ps| + 1 && positions[0] == 0
    ensures forall i :: 0 <= i < |ps| ==> positions[i + 1] == positions[i] + |Encode(ps[i])|
  {
    var out := new NutOutputStream(true);
    WriteAll(out, ps);
    var closed := out.Close();
    var input := new NutInputStream(out.sink);
    assert input.source[0..|EncodeAll(ps)|] == EncodeAll(ps);
    read, positions := ReadAll(input, ps);
  }

  /** A value takes `n` bytes exactly when it needs `n` 7-bit groups. */
  lemma ValueSize(v: nat, n: nat)
    requires n >= 1 && v < Pow128(n) && (n == 1 || Pow128(n - 1) <= v)
    ensures |EncodeValue(v)| == n
  {
    EncodeValueLength(v);
    var m := |EncodeValue(v)|;
    if m < n {
      PowMonotone(m, n - 1);
    } else if m > n {
      PowMonotone(n, m - 1);
    }
  }

  lemma {:induction false} PowMonotone(i: nat, j: nat)
    requires i <= j
    ensures Pow128(i) <= Pow128(j)
    decreases j
  {
    if i < j {
      PowMonotone(i, j - 1);
    }
  }

  /** The byte counts the stream test checks for values and signed values. */
  lemma ValueTestSizes()
    ensures |EncodeValue(1)| == 1 && |EncodeValue(356)| == 2
    ensures |EncodeValue(0x7ABCDEF0123456)| == 8
    ensures |EncodeSignedValue(42)| == 1 && |EncodeSignedValue(0)| == 1 && |EncodeSignedValue(-142)| == 2
  {
    assert Pow128(2) == 0x4000;
    assert Pow128(8) == 0x100_0000_0000_0000 by {
      assert Pow128(4) == 0x1000_0000;
    }
    ValueSize(1, 1);
    ValueSize(356, 2);
    ValueSize(0x7ABCDEF0123456, 8);
    ValueSize(83, 1);
    ValueSize(0, 1);
    ValueSize(284, 2);
  }

  /** The byte counts the stream test checks for byte strings, text and a timestamp. */
  lemma StringTestSizes()
    ensures |EncodeVariableBytes([5, 6, 7])| == 4
    ensures |EncodeCString(AsciiBytes(""))| == 1 && |EncodeCString(AsciiBytes("Jaffree"))| == 8
    ensures |EncodeVariableBytes(AsciiBytes(""))| == 1
    ensures |EncodeVariableBytes(AsciiBytes("Test/\\Me"))| == 9
    ensures |EncodeTimestamp(2, Timestamp(1, 1100))| == 2
  {
    ValueSize(3, 1);
    ValueSize(0, 1);
    ValueSize(8, 1);
    assert Pow128(2) == 0x4000;
    ValueSize(2201, 2);
  }

  /** A closed sink: the write is buffered, and the flush that follows fails. */
  method ClosedSinkRejects(p: Primitive) returns (position: nat, r: Result<(), NutError>)
    ensures position == |Encode(p)| && r == Err(SinkClosed)
  {
    var out := new NutOutputStream(false);
    WritePrimitive(out, p);
    position := out.position;
    r := out.Flush();
  }

  /** A closed sink: `writeCrc32` then `flush` fails. */
  method ClosedSinkRejectsCrc32(checksum: seq<Byte> -> nat) returns (position: nat, r: Result<(), NutError>)
    ensures position == 4 && r == Err(SinkClosed)
  {
    var out := new NutOutputStream(false);
    out.WriteCrc32(checksum);
    position := out.position;
    r := out.Flush();
  }

  /** A writer over a closed sink starts at position 0, and a bare `flush` fails. */
  method ClosedSinkFlush() returns (position: nat, r: Result<(), NutError>)
    ensures position == 0 && r == Err(SinkClosed)
  {
    var out := new NutOutputStream(false);
    position := out.position;
    r := out.Flush();
  }

  /** A reader over a closed source starts at position 0 and has no data. */
  method ClosedSourceStart() returns (position: nat, next: int, more: bool)
    ensures position == 0 && next == -1 && !more
  {
    var input := new NutInputStream([]);
    position := input.GetPosition();
    next := input.CheckNextByte();
    more := input.HasMoreData();
  }

  /** Peeking at a one-byte source `k` times gives the byte each time; reading it then
      gives the byte, and every later peek gives -1. */
  method PeekThenRead(b: Byte, k: nat) returns (peeks: seq<int>, read: Result<Byte, NutError>, after: seq<int>)
    ensures |peeks| == k && forall i :: 0 <= i < k ==> peeks[i] == b
    ensures read == Ok(b)
    ensures |after| == k && forall i :: 0 <= i < k ==> after[i] == -1
  {
    var input := new NutInputStream([b]);
    peeks := [];
    while |peeks| < k
      invariant input.Valid() && input.source == [b] && input.position == 0
      invariant |peeks| <= k && forall i :: 0 <= i < |peeks| ==> peeks[i] == b
    {
      var x := input.CheckNextByte();
      peeks := peeks + [x];
    }
    read := input.ReadByte();
    after := [];
    while |after| < k
      invariant input.Valid() && input.source == [b] && input.position == 1
      invariant |after| <= k && forall i :: 0 <= i < |after| ==> after[i] == -1
    {
      var x := input.CheckNextByte();
      after := after + [x];
    }
  }
}
