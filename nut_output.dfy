/** `NutOutputStream`: a writer that encodes NUT primitives into a sink and counts the
    bytes written. Every write goes to an internal buffer first; `flush` and `close`
    hand the buffer to the sink. A closed sink refuses every hand-over, so a write
    followed by `flush` (or a bare `flush`) on a closed sink reports an I/O error,
    whichever of the two calls the underlying stream would have failed on. */
module NutOutput {
  import opened Wrappers
  import opened Text
  import opened NutCodec

  class NutOutputStream {
    /** Whether the sink still accepts bytes; a closed sink never reopens. */
    const sinkOpen: bool
    /** The bytes the sink has accepted so far. */
    var sink: seq<Byte>
    /** The bytes written but not yet handed to the sink. */
    var buffer: seq<Byte>
    /** `getPosition`: every byte written so far, delivered or not. */
    var position: nat
    /** Where the bytes covered by the next checksum start. */
    var crcStart: nat

    ghost predicate Valid()
      reads this
    {
      position == |sink| + |buffer| && crcStart <= position && (!sinkOpen ==> sink == [])
    }

    /** Everything written, in order: what the sink has plus what is still buffered. */
    function Written(): seq<Byte>
      reads this
    {
      sink + buffer
    }

    constructor (sinkOpen: bool)
      ensures Valid() && this.sinkOpen == sinkOpen
      ensures sink == [] && buffer == [] && position == 0 && crcStart == 0
    {
      this.sinkOpen := sinkOpen;
      sink := [];
      buffer := [];
      position := 0;
      crcStart := 0;
    }

    /** Appends encoded bytes to the buffer; shared by every typed write. */
    method Emit(bytes: seq<Byte>)
      requires Valid()
      modifies this
      ensures Valid() && Written() == old(Written()) + bytes
      ensures sink == old(sink) && buffer == old(buffer) + bytes
      ensures position == old(position) + |bytes| && crcStart == old(crcStart)
    {
      buffer := buffer + bytes;
      position := position + |bytes|;
    }

    /** `writeValue`. */
    method WriteValue(v: nat)
      requires Valid()
      modifies this
      ensures Valid() && sink == old(sink) && buffer == old(buffer) + EncodeValue(v)
      ensures position == old(position) + |EncodeValue(v)| && crcStart == old(crcStart)
    {
      Emit(EncodeValue(v));
    }

    /** `writeSignedValue`. */
    method WriteSignedValue(x: int)
      requires Valid()
      modifies this
      ensures Valid() && sink == old(sink) && buffer == old(buffer) + EncodeSignedValue(x)
      ensures position == old(position) + |EncodeSignedValue(x)| && crcStart == old(crcStart)
    {
      Emit(EncodeSignedValue(x));
    }

    /** `writeLong`: always eight bytes. */
    method WriteLong(x: Long)
      requires Valid()
      modifies this
      ensures Valid() && sink == old(sink) && buffer == old(buffer) + EncodeLong(x)
      ensures position == old(position) + 8 && crcStart == old(crcStart)
    {
      Emit(EncodeLong(x));
    }

    /** `writeInt`: always four bytes. */
    method WriteInt(x: Int32)
      requires Valid()
      modifies this
      ensures Valid() && sink == old(sink) && buffer == old(buffer) + EncodeInt(x)
      ensures position == old(position) + 4 && crcStart == old(crcStart)
    {
      Emit(EncodeInt(x));
    }

    /** `writeByte`: always one byte. */
    method WriteByte(x: Int32)
      requires Valid()
      modifies this
      ensures Valid() && sink == old(sink) && buffer == old(buffer) + EncodeByte(x)
      ensures position == old(position) + 1 && crcStart == old(crcStart)
    {
      Emit(EncodeByte(x));
    }

    /** `writeBytes`: the bytes as they are. */
    method WriteBytes(b: seq<Byte>)
      requires Valid()
      modifies this
      ensures Valid() && sink == old(sink) && buffer == old(buffer) + b
      ensures position == old(position) + |b| && crcStart == old(crcStart)
    {
      Emit(b);
    }

    /** `writeVariableBytes`. */
    method WriteVariableBytes(b: seq<Byte>)
      requires Valid()
      modifies this
      ensures Valid() && sink == old(sink) && buffer == old(buffer) + EncodeVariableBytes(b)
      ensures position == old(position) + |EncodeValue(|b|)| + |b| && crcStart == old(crcStart)
    {
      Emit(EncodeVariableBytes(b));
    }

    /** `writeVariablesString`: the string's bytes in the `vb` form. */
    method WriteVariablesString(text: seq<Byte>)
      requires Valid()
      modifies this
      ensures Valid() && sink == old(sink) && buffer == old(buffer) + EncodeVariableBytes(text)
      ensures position == old(position) + |EncodeValue(|text|)| + |text| && crcStart == old(crcStart)
    {
      WriteVariableBytes(text);
    }

    /** `writeCString`: the string's bytes and a terminating zero. */
    method WriteCString(text: seq<Byte>)
      requires Valid()
      modifies this
      ensures Valid() && sink == old(sink) && buffer == old(buffer) + EncodeCString(text)
      ensures position == old(position) + |text| + 1 && crcStart == old(crcStart)
    {
      Emit(EncodeCString(text));
    }

    /** `writeTimestamp(streamCount, timestamp)`. */
    method WriteTimestamp(streamCount: nat, t: Timestamp)
      requires Valid()
      modifies this
      ensures Valid() && sink == old(sink) && buffer == old(buffer) + EncodeTimestamp(streamCount, t)
      ensures position == old(position) + |EncodeTimestamp(streamCount, t)| && crcStart == old(crcStart)
    {
      Emit(EncodeTimestamp(streamCount, t));
    }

    /** `writeCrc32`: four bytes holding `checksum` of everything written since the last
        checksum, after which a new checksum span starts. */
    method WriteCrc32(checksum: seq<Byte> -> nat)
      requires Valid()
      modifies this
      ensures Valid() && sink == old(sink)
      ensures buffer == old(buffer) + BigEndian(checksum(old(Written())[old(crcStart)..]) % 0x1_0000_0000, 4)
      ensures position == old(position) + 4 && crcStart == position
    {
      var crc := checksum(Written()[crcStart..]) % 0x1_0000_0000;
      Emit(BigEndian(crc, 4));
      crcStart := position;
    }

    /** `flush`: the buffer goes to the sink; a closed sink refuses it and keeps
        nothing, even when the buffer is empty. */
    method Flush() returns (r: Result<(), NutError>)
      requires Valid()
      modifies this
      ensures Valid() && Written() == old(Written())
      ensures position == old(position) && crcStart == old(crcStart)
      ensures r.Ok? <==> sinkOpen
      ensures r.Ok? ==> sink == old(sink) + old(buffer) && buffer == []
      ensures r.Err? ==> r.error == SinkClosed && sink == old(sink) && buffer == old(buffer)
    {
      if !sinkOpen {
        return Err(SinkClosed);
      }
      sink := sink + buffer;
      buffer := [];
      r := Ok(());
    }

    /** `close`: flushes; the sink then holds everything written. */
    method Close() returns (r: Result<(), NutError>)
      requires Valid()
      modifies this
      ensures Valid() && Written() == old(Written()) && position == old(position)
      ensures r.Ok? <==> sinkOpen
      ensures r.Ok? ==> sink == old(Written()) && buffer == []
      ensures r.Err? ==> r.error == SinkClosed
    {
      r := Flush();
    }
  }
}
