/** `NutInputStream`: a reader over a byte source that decodes NUT primitives, counts
    the bytes it has consumed, and can look at the next byte without consuming it.
    The source is the whole sequence of bytes the underlying stream will deliver; a
    closed stream is the empty sequence. A read that fails leaves the position where
    it was. */
module NutInput {
  import opened Wrappers
  import opened Text
  import opened NutCodec

  class NutInputStream {
    const source: seq<Byte>
    var position: nat

    ghost predicate Valid()
      reads this
    {
      position <= |source|
    }

    /** The result of a typed read and the new position agree with the decoder `d`
        applied at position `before`. */
    ghost predicate Consumed<T>(d: Result<Decoded<T>, NutError>, r: Result<T, NutError>, before: nat)
      reads this
    {
      match d
      case Ok(x) => r == Ok(x.value) && position == x.next
      case Err(e) => r == Err(e) && position == before
    }

    constructor (source: seq<Byte>)
      ensures Valid() && this.source == source && position == 0
    {
      this.source := source;
      position := 0;
    }

    /** `getPosition`. */
    method GetPosition() returns (p: nat)
      requires Valid()
      ensures p == position && p <= |source|
    {
      p := position;
    }

    /** `checkNextByte`: the next byte, or -1 at the end; nothing is consumed. */
    method CheckNextByte() returns (b: int)
      requires Valid()
      ensures -1 <= b < 256
      ensures b == -1 <==> position == |source|
      ensures b != -1 ==> b == source[position]
    {
      b := if position < |source| then source[position] else -1;
    }

    /** `hasMoreData`: whether `checkNextByte` would give a byte. */
    method HasMoreData() returns (more: bool)
      requires Valid()
      ensures more <==> position < |source|
    {
      var b := CheckNextByte();
      more := b != -1;
    }

    /** `readValue`, one 7-bit group per iteration. */
    method ReadValue() returns (r: Result<nat, NutError>)
      requires Valid()
      modifies this
      ensures Valid() && Consumed(DecodeValue(source, old(position)), r, old(position))
    {
      var p: nat, acc: nat := position, 0;
      while true
        invariant position <= p <= |source|
        invariant ReadValueAt(source, p, acc) == DecodeValue(source, position)
        decreases |source| - p
      {
        if p == |source| {
          return Err(EndOfStream);
        }
        var b: nat := source[p];
        p := p + 1;
        if b < 128 {
          position := p;
          return Ok(acc * 128 + b);
        }
        acc := acc * 128 + b % 128;
      }
    }

    /** `readSignedValue`. */
    method ReadSignedValue() returns (r: Result<int, NutError>)
      requires Valid()
      modifies this
      ensures Valid() && Consumed(DecodeSignedValue(source, old(position)), r, old(position))
    {
      var u := ReadValue();
      r := if u.Ok? then Ok(ValueToSigned(u.value)) else Err(u.error);
    }

    /** `readBytes(n)`. */
    method ReadBytes(n: nat) returns (r: Result<seq<Byte>, NutError>)
      requires Valid()
      modifies this
      ensures Valid() && Consumed(DecodeBytes(source, old(position), n), r, old(position))
    {
      if position + n <= |source| {
        r := Ok(source[position..position + n]);
        position := position + n;
      } else {
        r := Err(EndOfStream);
      }
    }

    /** `skipBytes(n)`: the same as reading `n` bytes and dropping them. */
    method SkipBytes(n: nat) returns (r: Result<(), NutError>)
      requires Valid()
      modifies this
      ensures Valid()
      ensures r.Ok? <==> old(position) + n <= |source|
      ensures position == if r.Ok? then old(position) + n else old(position)
      ensures r.Err? ==> r.error == EndOfStream
    {
      var b := ReadBytes(n);
      r := if b.Ok? then Ok(()) else Err(b.error);
    }

    /** `readLong`. */
    method ReadLong() returns (r: Result<Long, NutError>)
      requires Valid()
      modifies this
      ensures Valid() && Consumed(DecodeLong(source, old(position)), r, old(position))
    {
      var b := ReadBytes(8);
      if b.Ok? {
        var u: int := FromBigEndian(b.value);
        assert Pow256(8) == 0x1_0000_0000_0000_0000;
        var x: Long := if u >= 0x8000_0000_0000_0000 then u - 0x1_0000_0000_0000_0000 else u;
        r := Ok(x);
      } else {
        r := Err(b.error);
      }
    }

    /** `readInt`. */
    method ReadInt() returns (r: Result<Int32, NutError>)
      requires Valid()
      modifies this
      ensures Valid() && Consumed(DecodeInt(source, old(position)), r, old(position))
    {
      var b := ReadBytes(4);
      if b.Ok? {
        var u: int := FromBigEndian(b.value);
        assert Pow256(4) == 0x1_0000_0000;
        var x: Int32 := if u >= 0x8000_0000 then u - 0x1_0000_0000 else u;
        r := Ok(x);
      } else {
        r := Err(b.error);
      }
    }

    /** `readByte`. */
    method ReadByte() returns (r: Result<Byte, NutError>)
      requires Valid()
      modifies this
      ensures Valid() && Consumed(DecodeByte(source, old(position)), r, old(position))
    {
      if position < |source| {
        r := Ok(source[position]);
        position := position + 1;
      } else {
        r := Err(EndOfStream);
      }
    }

    /** `readVariableBytes`: a length, then that many bytes; both steps or neither. */
    method ReadVariableBytes() returns (r: Result<seq<Byte>, NutError>)
      requires Valid()
      modifies this
      ensures Valid() && Consumed(DecodeVariableBytes(source, old(position)), r, old(position))
    {
      var start := position;
      var n := ReadValue();
      if n.Err? {
        return Err(n.error);
      }
      r := ReadBytes(n.value);
      if r.Err? {
        position := start;
      }
    }

    /** `readVariableString`: the same wire form, the bytes being the string's encoding. */
    method ReadVariableString() returns (r: Result<seq<Byte>, NutError>)
      requires Valid()
      modifies this
      ensures Valid() && Consumed(DecodeVariableBytes(source, old(position)), r, old(position))
    {
      r := ReadVariableBytes();
    }

    /** `readCString`: bytes up to a zero byte, which is consumed and not returned. */
    method ReadCString() returns (r: Result<seq<Byte>, NutError>)
      requires Valid()
      modifies this
      ensures Valid() && Consumed(DecodeCString(source, old(position)), r, old(position))
    {
      var p := position;
      while p < |source| && source[p] != 0
        invariant position <= p <= |source|
        invariant forall i :: position <= i < p ==> source[i] != 0
        invariant IndexOfZero(source, p) == IndexOfZero(source, position)
      {
        p := p + 1;
      }
      if p == |source| {
        return Err(EndOfStream);
      }
      r := Ok(source[position..p]);
      position := p + 1;
    }

    /** `readTimestamp(streamCount)`. */
    method ReadTimestamp(streamCount: nat) returns (r: Result<Timestamp, NutError>)
      requires Valid()
      modifies this
      ensures Valid() && Consumed(DecodeTimestamp(source, old(position), streamCount), r, old(position))
    {
      var start := position;
      var v := ReadValue();
      if v.Err? {
        return Err(v.error);
      }
      if streamCount == 0 {
        position := start;
        return Err(DivisionByZero);
      }
      r := Ok(Timestamp(v.value % streamCount, v.value / streamCount));
    }
  }

  /** Every typed read at the end of the source (a closed stream, or one read to the
      end) fails with EndOfStream and not with any other error. */
  lemma ReadsAtEndFail(s: seq<Byte>, streamCount: nat)
    ensures DecodeValue(s, |s|) == Err(EndOfStream)
    ensures DecodeSignedValue(s, |s|) == Err(EndOfStream)
    ensures DecodeLong(s, |s|) == Err(EndOfStream)
    ensures DecodeInt(s, |s|) == Err(EndOfStream)
    ensures DecodeByte(s, |s|) == Err(EndOfStream)
    ensures DecodeVariableBytes(s, |s|) == Err(EndOfStream)
    ensures DecodeCString(s, |s|) == Err(EndOfStream)
    ensures DecodeTimestamp(s, |s|, streamCount) == Err(EndOfStream)
    ensures forall n: nat :: n > 0 ==> DecodeBytes(s, |s|, n) == Err(EndOfStream)
  {
  }

  /** A value whose last byte never arrives (a lone 0xFF) makes every read that starts
      with a value fail with EndOfStream. */
  lemma TruncatedValueFails(streamCount: nat)
    ensures DecodeValue([0xFF], 0) == Err(EndOfStream)
    ensures DecodeSignedValue([0xFF], 0) == Err(EndOfStream)
    ensures DecodeTimestamp([0xFF], 0, streamCount) == Err(EndOfStream)
    ensures DecodeVariableBytes([0xFF], 0) == Err(EndOfStream)
    ensures DecodeLong([0xFF], 0) == Err(EndOfStream)
    ensures DecodeInt([0xFF], 0) == Err(EndOfStream)
  {
    ReadValueAtFails([0xFF], 0, 0);
  }

  /** A length prefix of 4 followed by a single byte: the payload is short. */
  lemma TruncatedPayloadFails()
    ensures DecodeVariableBytes([4, 42], 0) == Err(EndOfStream)
    ensures DecodeBytes([4, 42], 0, 42) == Err(EndOfStream)
  {
    assert DecodeValue([4, 42], 0) == Ok(Decoded(4, 1));
  }
}
