# jaffree core in Dafny

This project models the core of jaffree, a Java/Kotlin wrapper that runs `ffmpeg` and
`ffprobe` as child processes. It covers the following parts:

- **NUT primitives.** The stream format jaffree uses to pipe raw frames. It has
  variable-length unsigned and signed values, fixed-width big-endian longs, ints and
  bytes, length-prefixed byte strings, zero-terminated strings, timestamps folded with
  the stream count, and a CRC32 trailer. The pure wire format is in `nut_codec.dfy`.
  The reader and writer classes are in `nut_input.dfy` and `nut_output.dfy`. The
  write-then-read scenario is in `nut_stream.dfy`.
- **Log levels and log lines.** The ffmpeg log levels and their order are in
  `log_level.dfy`. `parseLogMessage.kt` finds the `[level]` tag of an ffmpeg log line
  (`parse_log_message.dfy`). The unbounded level search, the `kB`/`KiB` size parser and
  the summary-line parser are in `parse_util.dfy`.
- **Process handlers.** `LinesProcessHandler` splits the child's byte stream into lines
  and gathers multi-line log messages (`lines_process_handler.dfy`). Three handlers
  build on it:
  - the ffmpeg handler (progress lines, the summary result, error log, exit);
  - the ffprobe handler (stderr log, stdout data, exit);
  - the `-version` handler (version number and configured features).
- **The argument builder.** `FFmpeg` collects inputs, outputs, filters and options,
  and `buildArguments` lays them out on the command line (`ffmpeg.dfy`).
- **Filters and durations.** `GenericFilter.getValue` escapes filter arguments and
  renders a filter with its input links (`generic_filter.dfy`).
  `BaseInOut.formatDuration` renders milliseconds as seconds with three decimals
  (`base_in_out.dfy`).

State that the source mutates is modelled as classes with `modifies` clauses. Each
method is proved against a pure function of the old state, and that function's
properties are proved as lemmas:

- the NUT streams;
- the line handler and its subclasses;
- the `FFmpeg` builder;
- `GenericFilter`.

The proved properties include:

- the NUT round trips, for each primitive and for any series of primitives;
- that the line splitter never emits a line break, and loses no other byte;
- the log-message layout, and the argument layout of `buildArguments`;
- that `Unescape(Escape(s)) == s` for filter arguments;
- that `formatDuration` can be parsed back.

The ffmpeg handler checks `isInfoOrHigher` before `isErrorOrHigher`, so its
final-error branch can never be reached. The model keeps this as written:
`FlushNeverFails` proves that a finished run never reports an error message from its
log.

## Model

| member | source | states |
|---|---|---|
| NutCodec.EncodeValueForm | src/test/java/com/github/kokorin/jaffree/nut/NutStreamTest.java:16-18 | a NUT value is a run of bytes with the top bit set followed by one byte without it, never starting with the empty continuation 0x80 |
| NutCodec.EncodeValueLength | src/test/java/com/github/kokorin/jaffree/nut/NutStreamTest.java:40-47 | a value takes the fewest 7-bit groups that hold it: below 128^n and at least 128^(n-1) |
| NutCodec.ReadValueAt | src/test/java/com/github/kokorin/jaffree/nut/NutInputStreamTest.java:27-35 | reading a value consumes at least one byte inside the input, and its only failure is end of stream |
| NutCodec.DecodeValue | src/test/java/com/github/kokorin/jaffree/nut/NutStreamTest.java:40-47 | a decoded value ends past its start and within the input |
| NutCodec.DecodeEncodeValue | src/test/java/com/github/kokorin/jaffree/nut/NutStreamTest.java:16-18 | reading back a written value gives the value and the position just past its bytes, whatever follows |
| NutCodec.ReadValueAtFails | src/test/java/com/github/kokorin/jaffree/nut/NutInputStreamTest.java:27-35 | reading a value fails exactly when every remaining byte has the continuation bit set, including when none remain |
| NutCodec.SignedToValue | src/test/java/com/github/kokorin/jaffree/nut/NutStreamTest.java:19-21 | positive numbers map to odd codes, zero and negative numbers to even codes |
| NutCodec.ValueToSigned | src/test/java/com/github/kokorin/jaffree/nut/NutStreamTest.java:49-56 | every unsigned code is the code of the signed number it decodes to |
| NutCodec.SignedRoundTrip | src/test/java/com/github/kokorin/jaffree/nut/NutStreamTest.java:19-21 | the signed mapping is a bijection between integers and codes |
| NutCodec.DecodeSignedValue | src/test/java/com/github/kokorin/jaffree/nut/NutInputStreamTest.java:37-45 | a signed read fails exactly when the unsigned read fails, and stays within the input |
| NutCodec.DecodeEncodeSignedValue | src/test/java/com/github/kokorin/jaffree/nut/NutStreamTest.java:49-56 | a written signed value (42, 0, -142, any) reads back with its exact length |
| NutCodec.DecodeSignedOf | src/test/java/com/github/kokorin/jaffree/nut/NutStreamTest.java:49-56 | a signed read is the unsigned read mapped back, with the same end position |
| NutCodec.FromBigEndianOf | src/test/java/com/github/kokorin/jaffree/nut/NutStreamTest.java:22-23 | n big-endian bytes of a number below 256^n read back as that number |
| NutCodec.EncodeLong | src/test/java/com/github/kokorin/jaffree/nut/NutStreamTest.java:22 | a long always takes 8 bytes |
| NutCodec.EncodeInt | src/test/java/com/github/kokorin/jaffree/nut/NutStreamTest.java:23 | an int always takes 4 bytes |
| NutCodec.EncodeByte | src/test/java/com/github/kokorin/jaffree/nut/NutStreamTest.java:24 | a byte write takes one byte, the value itself when it fits |
| NutCodec.DecodeBytes | src/test/java/com/github/kokorin/jaffree/nut/NutInputStreamTest.java:135-149 | reading n raw bytes succeeds exactly when n bytes remain, gives those bytes, and otherwise fails with end of stream |
| NutCodec.DecodeLong | src/test/java/com/github/kokorin/jaffree/nut/NutInputStreamTest.java:47-55 | a long read succeeds exactly when 8 bytes remain and advances by 8 |
| NutCodec.DecodeInt | src/test/java/com/github/kokorin/jaffree/nut/NutInputStreamTest.java:57-65 | an int read succeeds exactly when 4 bytes remain and advances by 4 |
| NutCodec.DecodeByte | src/test/java/com/github/kokorin/jaffree/nut/NutInputStreamTest.java:67-70 | a byte read succeeds exactly when a byte remains and returns it |
| NutCodec.DecodeEncodeLong | src/test/java/com/github/kokorin/jaffree/nut/NutStreamTest.java:58-59 | every 64-bit value, negative ones included, reads back from its 8 bytes |
| NutCodec.DecodeEncodeInt | src/test/java/com/github/kokorin/jaffree/nut/NutStreamTest.java:61-62 | every 32-bit value reads back from its 4 bytes |
| NutCodec.EncodeVariableBytes | src/test/java/com/github/kokorin/jaffree/nut/NutStreamTest.java:26 | variable bytes are a length value followed by the bytes |
| NutCodec.DecodeVariableBytes | src/test/java/com/github/kokorin/jaffree/nut/NutInputStreamTest.java:97-110 | a variable-bytes read stays within the input, its payload is shorter than what it consumed, and its only failure is end of stream |
| NutCodec.DecodeEncodeVariableBytes | src/test/java/com/github/kokorin/jaffree/nut/NutStreamTest.java:70-71 | written variable bytes read back whole |
| NutCodec.EncodeCString | src/test/java/com/github/kokorin/jaffree/nut/NutStreamTest.java:27-28 | a C string is its bytes and one terminating zero |
| NutCodec.DecodeCString | src/test/java/com/github/kokorin/jaffree/nut/NutInputStreamTest.java:87-95 | a C-string read returns the bytes before the first zero and consumes the zero; it fails with end of stream exactly when no zero remains |
| NutCodec.DecodeEncodeCString | src/test/java/com/github/kokorin/jaffree/nut/NutStreamTest.java:73-77 | a written zero-free C string ("" and "Jaffree" among them) reads back with length + 1 consumed |
| NutCodec.DecodeTimestamp | src/test/java/com/github/kokorin/jaffree/nut/NutInputStreamTest.java:112-120 | a timestamp read fails at end of stream and with a zero stream count; a decoded stream index is below the stream count |
| NutCodec.DecodeEncodeTimestamp | src/test/java/com/github/kokorin/jaffree/nut/NutStreamTest.java:85-86 | a timestamp whose index is below the stream count reads back as (index, pts) |
| NutCodec.AsciiBytes | src/test/java/com/github/kokorin/jaffree/nut/NutStreamTest.java:27-30 | an ASCII string's bytes are its character codes |
| NutStream.Encode | src/test/java/com/github/kokorin/jaffree/nut/NutStreamTest.java:16-32 | every primitive except raw bytes takes at least one byte |
| NutStream.Wrap | src/test/java/com/github/kokorin/jaffree/nut/NutStreamTest.java:40-89 | a read of any primitive kind succeeds, fails and advances exactly as the underlying decoder |
| NutStream.DecodeLikeEncode | src/test/java/com/github/kokorin/jaffree/nut/NutStreamTest.java:40-89 | each primitive of the test, written, reads back as itself with its own length |
| NutStream.Chunks | src/test/java/com/github/kokorin/jaffree/nut/NutStreamTest.java:16-32 | a series of writes is the encodings of its primitives in order |
| NutStream.WritePrimitive | src/test/java/com/github/kokorin/jaffree/nut/NutStreamTest.java:16-32 | each write appends the primitive's encoding and advances the position by its length |
| NutStream.ReadPrimitive | src/test/java/com/github/kokorin/jaffree/nut/NutStreamTest.java:40-89 | each read returns and consumes what the decoder of that kind gives, and leaves the position on failure |
| NutStream.WriteAll | src/test/java/com/github/kokorin/jaffree/nut/NutStreamTest.java:16-33 | writing a series appends the concatenated encodings and nothing reaches the sink before flush |
| NutStream.ReadBack | src/test/java/com/github/kokorin/jaffree/nut/NutStreamTest.java:40-89 | reading where a primitive was written returns it and moves by its length |
| NutStream.ReadNext | src/test/java/com/github/kokorin/jaffree/nut/NutStreamTest.java:40-89 | reading the next primitive of a series leaves the reader at the rest of the series |
| NutStream.ReadAll | src/test/java/com/github/kokorin/jaffree/nut/NutStreamTest.java:37-89 | reading a written series returns every primitive, and each getPosition is the previous one plus that primitive's length |
| NutStream.WriteThenRead | src/test/java/com/github/kokorin/jaffree/nut/NutStreamTest.java:12-90 | writing any series to a stream, closing it and reading it back gives the same series, with positions starting at 0 |
| NutStream.ValueSize | src/test/java/com/github/kokorin/jaffree/nut/NutStreamTest.java:40-56 | a value between 128^(n-1) and 128^n takes exactly n bytes |
| NutStream.ValueTestSizes | src/test/java/com/github/kokorin/jaffree/nut/NutStreamTest.java:40-56 | the position steps of the test: 1, 2 and 8 bytes for the values, 1, 1 and 2 for 42, 0 and -142 |
| NutStream.StringTestSizes | src/test/java/com/github/kokorin/jaffree/nut/NutStreamTest.java:70-86 | the position steps of the test: 4 for [5,6,7], 1 and 8 for "" and "Jaffree", 1 and 9 for the variable strings, 2 for the timestamp |
| NutStream.ClosedSinkRejects | src/test/java/com/github/kokorin/jaffree/nut/NutOutputStreamTest.java:14-92 | a write to a closed sink fails with an I/O error once flushed, after counting its bytes |
| NutStream.ClosedSinkRejectsCrc32 | src/test/java/com/github/kokorin/jaffree/nut/NutOutputStreamTest.java:94-100 | writing a CRC to a closed sink fails, after counting its 4 bytes |
| NutStream.ClosedSinkFlush | src/test/java/com/github/kokorin/jaffree/nut/NutOutputStreamTest.java:102-110 | a fresh writer on a closed sink is at position 0 and its flush fails |
| NutStream.ClosedSourceStart | src/test/java/com/github/kokorin/jaffree/nut/NutInputStreamTest.java:22-25 | an empty reader is at position 0, peeks -1 and has no more data |
| NutStream.PeekThenRead | src/test/java/com/github/kokorin/jaffree/nut/NutStreamTest.java:93-111 | any number of peeks return the next byte without consuming it; after reading it every peek gives -1 |
| NutInput.NutInputStream.constructor | src/test/java/com/github/kokorin/jaffree/nut/NutInputStreamTest.java:14-20 | a reader starts at position 0 of its source |
| NutInput.NutInputStream.GetPosition | src/test/java/com/github/kokorin/jaffree/nut/NutInputStreamTest.java:22-25 | the position is the number of bytes consumed, never past the end |
| NutInput.NutInputStream.CheckNextByte | src/test/java/com/github/kokorin/jaffree/nut/NutInputStreamTest.java:122-125 | peeking gives the next byte, or -1 exactly at the end, without moving |
| NutInput.NutInputStream.HasMoreData | src/test/java/com/github/kokorin/jaffree/nut/NutInputStreamTest.java:127-132 | there is more data exactly when bytes remain |
| NutInput.NutInputStream.ReadValue | src/test/java/com/github/kokorin/jaffree/nut/NutInputStreamTest.java:27-35 | returns and consumes what DecodeValue gives; on end of stream the position is unchanged |
| NutInput.NutInputStream.ReadSignedValue | src/test/java/com/github/kokorin/jaffree/nut/NutInputStreamTest.java:37-45 | returns and consumes what DecodeSignedValue gives |
| NutInput.NutInputStream.ReadBytes | src/test/java/com/github/kokorin/jaffree/nut/NutInputStreamTest.java:135-149 | returns and consumes n bytes, or fails when fewer remain |
| NutInput.NutInputStream.SkipBytes | src/test/java/com/github/kokorin/jaffree/nut/NutInputStreamTest.java:151-164 | skipping succeeds exactly when n bytes remain and then advances by n; otherwise end of stream |
| NutInput.NutInputStream.ReadLong | src/test/java/com/github/kokorin/jaffree/nut/NutInputStreamTest.java:47-55 | returns and consumes what DecodeLong gives |
| NutInput.NutInputStream.ReadInt | src/test/java/com/github/kokorin/jaffree/nut/NutInputStreamTest.java:57-65 | returns and consumes what DecodeInt gives |
| NutInput.NutInputStream.ReadByte | src/test/java/com/github/kokorin/jaffree/nut/NutInputStreamTest.java:67-70 | returns and consumes what DecodeByte gives |
| NutInput.NutInputStream.ReadVariableBytes | src/test/java/com/github/kokorin/jaffree/nut/NutInputStreamTest.java:97-110 | returns and consumes what DecodeVariableBytes gives |
| NutInput.NutInputStream.ReadVariableString | src/test/java/com/github/kokorin/jaffree/nut/NutInputStreamTest.java:72-85 | a variable string is read as variable bytes |
| NutInput.NutInputStream.ReadCString | src/test/java/com/github/kokorin/jaffree/nut/NutInputStreamTest.java:87-95 | returns and consumes what DecodeCString gives |
| NutInput.NutInputStream.ReadTimestamp | src/test/java/com/github/kokorin/jaffree/nut/NutInputStreamTest.java:112-120 | returns and consumes what DecodeTimestamp gives |
| NutInput.ReadsAtEndFail | src/test/java/com/github/kokorin/jaffree/nut/NutInputStreamTest.java:27-120 | on an exhausted stream every read (value, signed, long, int, byte, variable bytes, C string, timestamp, n > 0 raw bytes) fails with end of stream |
| NutInput.TruncatedValueFails | src/test/java/com/github/kokorin/jaffree/nut/NutInputStreamTest.java:15-17 | after the lone byte 0xFF every value-based read fails with end of stream |
| NutInput.TruncatedPayloadFails | src/test/java/com/github/kokorin/jaffree/nut/NutInputStreamTest.java:18-20 | [4, 42] announces 4 bytes but holds 1, so variable bytes and 42 raw bytes fail |
| NutOutput.NutOutputStream.constructor | src/test/java/com/github/kokorin/jaffree/nut/NutOutputStreamTest.java:102-105 | a writer starts empty at position 0 |
| NutOutput.NutOutputStream.Emit | src/test/java/com/github/kokorin/jaffree/nut/NutStreamTest.java:16-32 | every write appends to what was written and advances the position by its length |
| NutOutput.NutOutputStream.WriteValue | src/test/java/com/github/kokorin/jaffree/nut/NutStreamTest.java:16-18 | appends the value's encoding and advances by its length |
| NutOutput.NutOutputStream.WriteSignedValue | src/test/java/com/github/kokorin/jaffree/nut/NutStreamTest.java:19-21 | appends the signed value's encoding |
| NutOutput.NutOutputStream.WriteLong | src/test/java/com/github/kokorin/jaffree/nut/NutStreamTest.java:22 | appends 8 big-endian bytes |
| NutOutput.NutOutputStream.WriteInt | src/test/java/com/github/kokorin/jaffree/nut/NutStreamTest.java:23 | appends 4 big-endian bytes |
| NutOutput.NutOutputStream.WriteByte | src/test/java/com/github/kokorin/jaffree/nut/NutStreamTest.java:24 | appends one byte |
| NutOutput.NutOutputStream.WriteBytes | src/test/java/com/github/kokorin/jaffree/nut/NutStreamTest.java:25 | appends the bytes unchanged |
| NutOutput.NutOutputStream.WriteVariableBytes | src/test/java/com/github/kokorin/jaffree/nut/NutStreamTest.java:26 | appends the length value and the bytes |
| NutOutput.NutOutputStream.WriteVariablesString | src/test/java/com/github/kokorin/jaffree/nut/NutStreamTest.java:29-30 | a variable string is written as variable bytes |
| NutOutput.NutOutputStream.WriteCString | src/test/java/com/github/kokorin/jaffree/nut/NutStreamTest.java:27-28 | appends the bytes and a zero |
| NutOutput.NutOutputStream.WriteTimestamp | src/test/java/com/github/kokorin/jaffree/nut/NutStreamTest.java:31 | appends pts * count + index as a value |
| NutOutput.NutOutputStream.WriteCrc32 | src/test/java/com/github/kokorin/jaffree/nut/NutOutputStreamTest.java:94-100 | appends the 32-bit checksum of everything written since the last CRC and starts a new CRC range |
| NutOutput.NutOutputStream.Flush | src/test/java/com/github/kokorin/jaffree/nut/NutOutputStreamTest.java:107-110 | flushing moves the buffer to the sink when it is open; on a closed sink it fails with an I/O error and changes nothing |
| NutOutput.NutOutputStream.Close | src/test/java/com/github/kokorin/jaffree/nut/NutStreamTest.java:33 | closing an open sink leaves everything written in the sink; a closed sink fails |
| LogLevels.LowerName | src/test/java/com/github/kokorin/jaffree/util/ParseUtilTest.java:53-56 | each level's lower-case name is 1 to 7 lower-case letters |
| LogLevels.CodeInjective | src/test/java/com/github/kokorin/jaffree/LogLevelTest.java:11-15 | different levels have different codes |
| LogLevels.OrderTotal | src/test/java/com/github/kokorin/jaffree/LogLevelTest.java:11-15 | "equal or higher" is a total order on levels |
| LogLevels.LowerNameInjective | src/test/java/com/github/kokorin/jaffree/util/ParseUtilTest.java:53-56 | different levels have different names |
| LogLevels.ErrorImpliesInfo | src/main/kotlin/io/v47/jaffree/ffmpeg/FFmpegProcessHandler.kt:108-115 | every error-or-higher level is also info-or-higher |
| LogLevels.ErrorOrHigherLevels | src/main/kotlin/io/v47/jaffree/ffmpeg/FFmpegProcessHandler.kt:99-105 | error-or-higher levels are exactly QUIET, PANIC, FATAL and ERROR |
| LogLevels.LevelTestFacts | src/test/java/com/github/kokorin/jaffree/LogLevelTest.java:11-33 | the test's order, info-or-higher and error-or-higher facts |
| ParseLogMessage.LevelNamedLower | src/main/kotlin/io/v47/jaffree/utils/parseLogMessage.kt:26-38 | each lower-case level name looks up its level, and the empty tag is TRACE |
| ParseLogMessage.LevelNameTable | src/main/kotlin/io/v47/jaffree/utils/parseLogMessage.kt:26-38 | the tags that name a level are exactly "" and the nine lower-case names |
| ParseLogMessage.FindLogLevel | src/main/kotlin/io/v47/jaffree/utils/parseLogMessage.kt:48-74 | the scanning loop finds the same tag as the recursive definition LogLevelIn |
| ParseLogMessage.FoundTag | src/main/kotlin/io/v47/jaffree/utils/parseLogMessage.kt:52-67 | a found tag is a `[`..`]` pair within the first 51 characters, at most 8 apart, with no `]` inside, whose text names the returned level |
| ParseLogMessage.FoundTagPair | src/main/kotlin/io/v47/jaffree/utils/parseLogMessage.kt:22-24 | the tag is the first or the second bracket pair of the line, never a later one |
| ParseLogMessage.NoBracketNoLevel | src/main/kotlin/io/v47/jaffree/utils/parseLogMessage.kt:53-55 | a line with no `[` in the first 51 characters has no level |
| ParseLogMessage.SkipPair | src/main/kotlin/io/v47/jaffree/utils/parseLogMessage.kt:61-70 | a pair whose text names no level is skipped, using up one of the pairs checked |
| ParseLogMessage.SkipTwoPairs | src/main/kotlin/io/v47/jaffree/utils/parseLogMessage.kt:22-24 | after two pairs that name no level the search gives up |
| ParseLogMessage.SkipThenTake | src/main/kotlin/io/v47/jaffree/utils/parseLogMessage.kt:52-71 | a level tag in the second pair is found after skipping the first |
| ParseLogMessage.TakePair | src/main/kotlin/io/v47/jaffree/utils/parseLogMessage.kt:63-67 | a pair close enough that names a level is the result |
| ParseLogMessage.LeadingTag | src/main/kotlin/io/v47/jaffree/utils/parseLogMessage.kt:40-46 | a line starting with `[name]` parses as that level and the rest of the line |
| ParseLogMessage.EmptyTagIsTrace | src/main/kotlin/io/v47/jaffree/utils/parseLogMessage.kt:26-28 | a line starting with `[]` is a TRACE message |
| ParseLogMessage.MessageWithoutTag | src/main/kotlin/io/v47/jaffree/utils/parseLogMessage.kt:43 | the message is the line with exactly the tag cut out, and putting the tag back gives the line |
| ParseLogMessage.TwoOtherTags | src/main/kotlin/io/v47/jaffree/utils/parseLogMessage.kt:22-24 | a line whose first two bracket pairs name no level is not a log message, whatever follows |
| ParseLogMessage.ComponentThenLevel | src/main/kotlin/io/v47/jaffree/utils/parseLogMessage.kt:40-74 | `[component] [level] text` parses as that level with the level tag removed |
| ParseLogMessage.ThirdTagNotFound | src/test/java/com/github/kokorin/jaffree/util/ParseUtilTest.java:49-51 | the test line whose level is in its third bracket pair is no log message for the bounded search |
| ParseLogMessage.ComponentThenInfo | src/test/java/com/github/kokorin/jaffree/util/ParseUtilTest.java:12-23 | a libx264 info line of the test parses as INFO |
| ParseUtil.BoundedSearchAgrees | src/test/java/com/github/kokorin/jaffree/util/ParseUtilTest.java:10-66 | whenever the bounded search of parseLogMessage finds a level, the unbounded parseLogLevel finds the same one |
| ParseUtil.LevelFromShift | src/test/java/com/github/kokorin/jaffree/util/ParseUtilTest.java:12-51 | the level search is unaffected by a prefix before the search start |
| ParseUtil.PlainText | src/test/java/com/github/kokorin/jaffree/util/ParseUtilTest.java:12-51 | text without `[` before the tags does not change the level found |
| ParseUtil.OtherTag | src/test/java/com/github/kokorin/jaffree/util/ParseUtilTest.java:12-51 | a bracket pair naming no level is skipped |
| ParseUtil.LevelTag | src/test/java/com/github/kokorin/jaffree/util/ParseUtilTest.java:12-51 | the first bracket pair naming a level decides it, whatever follows |
| ParseUtil.Unclosed | src/test/java/com/github/kokorin/jaffree/util/ParseUtilTest.java:58-65 | a `[` never closed gives no level |
| ParseUtil.LevelNameTag | src/test/java/com/github/kokorin/jaffree/util/ParseUtilTest.java:53-56 | `[name]` gives its level for every level |
| ParseUtil.LevelNameUnclosed | src/test/java/com/github/kokorin/jaffree/util/ParseUtilTest.java:58-60 | `[name` without `]` gives no level for every level |
| ParseUtil.ThirdTagFound | src/test/java/com/github/kokorin/jaffree/util/ParseUtilTest.java:49-51 | the unbounded search finds ERROR in the third bracket pair |
| ParseUtil.TruncatedTagNotFound | src/test/java/com/github/kokorin/jaffree/util/ParseUtilTest.java:62-65 | a line ending in an unclosed `[inf` gives no level |
| ParseUtil.KibiSuffixes | src/test/java/com/github/kokorin/jaffree/util/ParseUtilTest.java:68-78 | "NkB" and "NKiB" both parse to N; "NKB" is unknown |
| ParseUtil.KibiNeedsDigits | src/test/java/com/github/kokorin/jaffree/util/ParseUtilTest.java:68-78 | only text ending in "KiB" or "kB" parses as a size |
| ParseUtil.Fields | src/test/java/com/github/kokorin/jaffree/util/ParseUtilTest.java:80-93 | the fields between n labels are n - 1 values |
| ParseUtil.FieldsOfLabelled | src/test/java/com/github/kokorin/jaffree/util/ParseUtilTest.java:80-108 | cutting a labelled line at its labels gives back exactly the values placed between them |
| ParseUtil.ParseSummaryLine | src/test/java/com/github/kokorin/jaffree/util/ParseUtilTest.java:80-108 | every summary line parses to its five sizes times 1024, whatever the overhead text |
| ParseUtil.SummaryTest | src/test/java/com/github/kokorin/jaffree/util/ParseUtilTest.java:80-93 | the test's summary line gives 1451008, 115712, 0, 0, 0 |
| ParseUtil.ZeroSummaryTest | src/test/java/com/github/kokorin/jaffree/util/ParseUtilTest.java:95-108 | the all-zero summary line gives five zero sizes |
| ParseUtil.NotASummary | src/test/java/com/github/kokorin/jaffree/util/ParseUtilTest.java:111-117 | a line not starting with "video:" is no summary |
| ParseUtil.RandomLineNotASummary | src/test/java/com/github/kokorin/jaffree/util/ParseUtilTest.java:111-117 | the test's random line is no summary |
| LinesProcess.ByteBuffer.constructor | src/main/kotlin/io/v47/jaffree/process/LinesProcessHandler.kt:52-53 | a buffer starts at its first byte |
| LinesProcess.ByteBuffer.Get | src/main/kotlin/io/v47/jaffree/process/LinesProcessHandler.kt:145-152 | get returns the byte at the position and advances by one |
| LinesProcess.ByteBuffer.GetBytes | src/main/kotlin/io/v47/jaffree/process/LinesProcessHandler.kt:132-141 | get(bytes) copies the next n bytes and advances by n |
| LinesProcess.FirstBreak | src/main/kotlin/io/v47/jaffree/process/LinesProcessHandler.kt:123-130 | the index of the first CR or LF from a position, or -1 when there is none |
| LinesProcess.SkipBreaks | src/main/kotlin/io/v47/jaffree/process/LinesProcessHandler.kt:143-154 | the end of the run of CR and LF bytes at a position |
| LinesProcess.AddToBytes | src/main/kotlin/io/v47/jaffree/process/LinesProcessHandler.kt:122-158 | appends the bytes up to the next break (or all remaining bytes) to the chunk list, skips the run of breaks, reports whether a break was found, and always makes progress |
| LinesProcess.ConcatSize | src/main/kotlin/io/v47/jaffree/process/LinesProcessHandler.kt:160-163 | the joined array's size is the sum of the chunk sizes |
| LinesProcess.ConcatAppend | src/main/kotlin/io/v47/jaffree/process/LinesProcessHandler.kt:160-170 | joining two chunk lists is joining each and concatenating |
| LinesProcess.ArrayCopy | src/main/kotlin/io/v47/jaffree/process/LinesProcessHandler.kt:165-167 | copying into the array changes exactly the target range |
| LinesProcess.Join | src/main/kotlin/io/v47/jaffree/process/LinesProcessHandler.kt:160-170 | the new array holds the chunks back to back |
| LinesProcess.Decode | src/main/kotlin/io/v47/jaffree/process/LinesProcessHandler.kt:55 | each line's bytes become its string |
| LinesProcess.LinesHaveNoBreaks | src/main/kotlin/io/v47/jaffree/process/LinesProcessHandler.kt:52-74 | no emitted line and no pending chunk contains CR or LF |
| LinesProcess.SplitKeepsBytes | src/main/kotlin/io/v47/jaffree/process/LinesProcessHandler.kt:52-74 | the lines and the pending bytes together are the input with every CR and LF removed: no other byte is lost or added |
| LinesProcess.EmptyLineAcrossBuffers | src/main/kotlin/io/v47/jaffree/process/LinesProcessHandler.kt:52-58 | a CR at the end of one buffer and the LF at the start of the next produce an extra empty line: the chunk list is non-empty, holding the new empty chunk, so the empty line is emitted |
| LinesProcess.ReadLines | src/main/kotlin/io/v47/jaffree/process/LinesProcessHandler.kt:52-62 | the loop consumes the whole buffer, emits the lines of the split (and the rest when the stream closes), and keeps the unfinished line as pending chunks |
| LinesProcess.FlushLogFinalError | src/main/kotlin/io/v47/jaffree/process/LinesProcessHandler.kt:88-119 | a pending error-or-higher message is appended to the error log and becomes the final error message; any other level leaves both unchanged |
| LinesProcess.LinesProcessHandler.constructor | src/main/kotlin/io/v47/jaffree/process/LinesProcessHandler.kt:30-50 | a handler starts with no result, no exception, an empty error log, empty chunk lists and no pending message |
| LinesProcess.LinesProcessHandler.SetException | src/main/kotlin/io/v47/jaffree/process/LinesProcessHandler.kt:34-40 | the first exception is kept; later ones are added to it as suppressed; setting the kept exception again throws (self-suppression) and changes nothing |
| LinesProcess.LinesProcessHandler.SetResult | src/main/kotlin/io/v47/jaffree/process/LinesProcessHandler.kt:30-31 | setting the result changes nothing else |
| LinesProcess.LinesProcessHandler.OnStderr | src/main/kotlin/io/v47/jaffree/process/LinesProcessHandler.kt:52-62 | stderr bytes become the lines of ReadLines, with the unfinished line kept for the next buffer |
| LinesProcess.LinesProcessHandler.OnStdout | src/main/kotlin/io/v47/jaffree/process/LinesProcessHandler.kt:64-74 | the same for stdout, with its own pending chunks |
| LinesProcess.LinesProcessHandler.StartLogMessage | src/main/kotlin/io/v47/jaffree/process/LinesProcessHandler.kt:79-82 | a new message becomes pending with its level and its trimmed text |
| LinesProcess.LinesProcessHandler.AppendOrLogLine | src/main/kotlin/io/v47/jaffree/process/LinesProcessHandler.kt:84-86 | a continuation line is appended after a newline to the pending message, and is dropped when none is pending |
| LinesProcess.LinesProcessHandler.ProcessLastLogMessage | src/main/kotlin/io/v47/jaffree/process/LinesProcessHandler.kt:88-119 | the pending message is logged at its level; an error-or-higher one is added to the error log and becomes the final error message |
| FFmpegProcess.FlushNeverFails | src/main/kotlin/io/v47/jaffree/ffmpeg/FFmpegProcessHandler.kt:108-120 | flushing a message never sets a new final error message, because an error-or-higher level is info-or-higher |
| FFmpegProcess.StepNeverFails | src/main/kotlin/io/v47/jaffree/ffmpeg/FFmpegProcessHandler.kt:49-74 | no output line makes a run fail |
| FFmpegProcess.FeedNeverFails | src/main/kotlin/io/v47/jaffree/ffmpeg/FFmpegProcessHandler.kt:49-74 | no sequence of output lines makes a run fail |
| FFmpegProcess.ExitNeverFails | src/main/kotlin/io/v47/jaffree/ffmpeg/FFmpegProcessHandler.kt:76-83 | an exit without a final error always has a result, the empty one when no summary was seen |
| FFmpegProcess.FlushLogsErrors | src/main/kotlin/io/v47/jaffree/ffmpeg/FFmpegProcessHandler.kt:99-105 | the error log only grows, and only by error-or-higher messages |
| FFmpegProcess.StepErrorLog | src/main/kotlin/io/v47/jaffree/ffmpeg/FFmpegProcessHandler.kt:49-74 | a line changes the error log only by flushing the pending message |
| FFmpegProcess.StepLogsErrors | src/main/kotlin/io/v47/jaffree/ffmpeg/FFmpegProcessHandler.kt:49-74 | after any line the error log still holds only error-or-higher messages and has only grown |
| FFmpegProcess.FeedLogsErrors | src/main/kotlin/io/v47/jaffree/ffmpeg/FFmpegProcessHandler.kt:49-74 | the same after any sequence of lines |
| FFmpegProcess.MessageAssembly | src/main/kotlin/io/v47/jaffree/ffmpeg/FFmpegProcessHandler.kt:63-74 | a log line followed by continuation lines builds one message, the lines joined by newlines |
| FFmpegProcess.LogLineStartsMessage | src/main/kotlin/io/v47/jaffree/ffmpeg/FFmpegProcessHandler.kt:49-61 | a log line on stderr flushes the pending message and starts its own |
| FFmpegProcess.ErrorLineStillSucceeds | src/main/kotlin/io/v47/jaffree/ffmpeg/FFmpegProcessHandler.kt:76-123 | a run whose only output is an `[error]` line ends with the empty result; the message is in the error log and goes to the listener |
| FFmpegProcess.NoEqualsNoProgress | src/main/kotlin/io/v47/jaffree/ffmpeg/FFmpegProcessHandler.kt:50-51 | a line without `=` is never a progress line |
| FFmpegProcess.SummaryOnStderr | src/main/kotlin/io/v47/jaffree/ffmpeg/FFmpegProcessHandler.kt:53-58 | a summary line on stderr sets the result from its sizes, clears the final error and changes nothing else |
| FFmpegProcess.FFmpegProcessHandler.constructor | src/main/kotlin/io/v47/jaffree/ffmpeg/FFmpegProcessHandler.kt:38-41 | a handler starts in the initial state |
| FFmpegProcess.FFmpegProcessHandler.ProcessLastLogMessage | src/main/kotlin/io/v47/jaffree/ffmpeg/FFmpegProcessHandler.kt:85-123 | the new state is Flush of the old one |
| FFmpegProcess.FFmpegProcessHandler.OnStdoutLine | src/main/kotlin/io/v47/jaffree/ffmpeg/FFmpegProcessHandler.kt:63-74 | the new state is StdoutLine of the old one |
| FFmpegProcess.FFmpegProcessHandler.OnStderrLine | src/main/kotlin/io/v47/jaffree/ffmpeg/FFmpegProcessHandler.kt:49-61 | the new state is StderrLine of the old one |
| FFmpegProcess.FFmpegProcessHandler.HandleLines | src/main/kotlin/io/v47/jaffree/process/LinesProcessHandler.kt:52-74 | handling lines one by one is Feed of the state |
| FFmpegProcess.FFmpegProcessHandler.OnStderr | src/main/kotlin/io/v47/jaffree/process/LinesProcessHandler.kt:52-62 | stderr bytes are split into lines and fed to the stderr line handler |
| FFmpegProcess.FFmpegProcessHandler.OnStdout | src/main/kotlin/io/v47/jaffree/process/LinesProcessHandler.kt:64-74 | stdout bytes are split into lines and fed to the stdout line handler |
| FFmpegProcess.FFmpegProcessHandler.OnExit | src/main/kotlin/io/v47/jaffree/ffmpeg/FFmpegProcessHandler.kt:76-83 | on exit a final error becomes the exception; otherwise a missing result becomes the empty one |
| FFprobeProcess.ErrorLineFailsProbe | src/main/kotlin/io/v47/jaffree/ffprobe/FFprobeProcessHandler.kt:59-68 | a probe whose stderr has an `[error]` message fails with that message, whatever stdout holds |
| FFprobeProcess.InfoLineLeavesItToParser | src/main/kotlin/io/v47/jaffree/ffprobe/FFprobeProcessHandler.kt:59-81 | with only info messages the outcome is the parsed stdout, or a parse failure |
| FFprobeProcess.ContinuedMessage | src/main/kotlin/io/v47/jaffree/ffprobe/FFprobeProcessHandler.kt:38-46 | a stderr log line and its continuation lines form one pending message |
| FFprobeProcess.FFprobeProcessHandler.constructor | src/main/kotlin/io/v47/jaffree/ffprobe/FFprobeProcessHandler.kt:31-36 | a probe handler starts with nothing written and a quiet log |
| FFprobeProcess.FFprobeProcessHandler.OnStderrLine | src/main/kotlin/io/v47/jaffree/ffprobe/FFprobeProcessHandler.kt:38-46 | a log line starts a message; any other stderr line continues the pending one |
| FFprobeProcess.FFprobeProcessHandler.OnStdoutLine | src/main/kotlin/io/v47/jaffree/ffprobe/FFprobeProcessHandler.kt:48-57 | every non-blank stdout line is kept for the parser |
| FFprobeProcess.FFprobeProcessHandler.HandleStderrLines | src/main/kotlin/io/v47/jaffree/ffprobe/FFprobeProcessHandler.kt:38-46 | stderr lines are handled in order |
| FFprobeProcess.FFprobeProcessHandler.HandleStdoutLines | src/main/kotlin/io/v47/jaffree/ffprobe/FFprobeProcessHandler.kt:48-57 | all non-blank stdout lines are kept, in order |
| FFprobeProcess.FFprobeProcessHandler.OnStderr | src/main/kotlin/io/v47/jaffree/process/LinesProcessHandler.kt:52-62 | stderr bytes are split into lines and handled |
| FFprobeProcess.FFprobeProcessHandler.OnStdout | src/main/kotlin/io/v47/jaffree/process/LinesProcessHandler.kt:64-74 | stdout bytes are split into lines and the non-blank ones kept |
| FFprobeProcess.FFprobeProcessHandler.OnExit | src/main/kotlin/io/v47/jaffree/ffprobe/FFprobeProcessHandler.kt:59-81 | on exit a final error becomes the exception; otherwise the parsed stdout is the result, or a parse failure the exception |
| VersionInfoProcess.DigitRun | src/main/kotlin/io/v47/jaffree/version/VersionInfoProcessHandler.kt:21 | `\d+` at a position: the longest run of digits |
| VersionInfoProcess.FirstDigit | src/main/kotlin/io/v47/jaffree/version/VersionInfoProcessHandler.kt:21 | where the first match can start: the first digit |
| VersionInfoProcess.OptionalGroup | src/main/kotlin/io/v47/jaffree/version/VersionInfoProcessHandler.kt:21 | `(?:\.(\d+))?` takes `.digits` when present and is empty otherwise |
| VersionInfoProcess.MatchAt | src/main/kotlin/io/v47/jaffree/version/VersionInfoProcessHandler.kt:21 | a match has a major number, a patch only after a minor, and its value is the numbers joined by dots |
| VersionInfoProcess.FindVersion | src/main/kotlin/io/v47/jaffree/version/VersionInfoProcessHandler.kt:32-33 | a line has a version match exactly when it contains a digit |
| VersionInfoProcess.ToInt | src/main/kotlin/io/v47/jaffree/version/VersionInfoProcessHandler.kt:57-59 | toInt succeeds exactly on a non-empty digit string that fits an Int, and gives its value |
| VersionInfoProcess.GroupOrZero | src/main/kotlin/io/v47/jaffree/version/VersionInfoProcessHandler.kt:58-59 | a missing group reads as 0, a present one as its number |
| VersionInfoProcess.CreateVersionInfoAgrees | src/main/kotlin/io/v47/jaffree/version/VersionInfoProcessHandler.kt:51-63 | with no version line both readings fail with "No version number found."; with three numbers they agree |
| VersionInfoProcess.FindTwoPart | src/main/kotlin/io/v47/jaffree/version/VersionInfoProcessHandler.kt:21 | a line with a two-number version matches those numbers and an empty patch group |
| VersionInfoProcess.TwoPartAt | src/main/kotlin/io/v47/jaffree/version/VersionInfoProcessHandler.kt:21 | the same for any digit strings placed in a line |
| VersionInfoProcess.TwoPartVersionFailsAsWritten | src/main/kotlin/io/v47/jaffree/version/VersionInfoProcessHandler.kt:58-59 | as written, every two-number version fails with the NumberFormatException of "" |
| VersionInfoProcess.TwoPartVersion | src/main/kotlin/io/v47/jaffree/version/VersionInfoProcessHandler.kt:51-63 | with a missing patch read as 0, a two-number version gives (major, minor, 0) |
| VersionInfoProcess.BannerVersion | src/main/kotlin/io/v47/jaffree/version/VersionInfoProcessHandler.kt:32-33 | "ffmpeg version 6.0 Copyright" matches 6.0 with an empty patch group |
| VersionInfoProcess.SixZeroBanner | src/main/kotlin/io/v47/jaffree/version/VersionInfoProcessHandler.kt:51-63 | for that banner the code as written fails, and the corrected reading gives 6.0.0 |
| VersionInfoProcess.FeaturesListed | src/main/kotlin/io/v47/jaffree/version/VersionInfoProcessHandler.kt:34-43 | a feature is listed exactly when some token is the prefix followed by it |
| VersionInfoProcess.FirstVersionKept | src/main/kotlin/io/v47/jaffree/version/VersionInfoProcessHandler.kt:32-33 | once a version is found later lines never replace it, and the feature sets only grow |
| VersionInfoProcess.ScanDigits | src/main/kotlin/io/v47/jaffree/version/VersionInfoProcessHandler.kt:31-44 | every stored match's groups are digit strings |
| VersionInfoProcess.VersionLineNotScanned | src/main/kotlin/io/v47/jaffree/version/VersionInfoProcessHandler.kt:32-34 | a line searched for the version adds no feature |
| VersionInfoProcess.ConfigLineTokens | src/main/kotlin/io/v47/jaffree/version/VersionInfoProcessHandler.kt:35 | a configuration line splits into its label and its option tokens |
| VersionInfoProcess.ConfigurationLine | src/main/kotlin/io/v47/jaffree/version/VersionInfoProcessHandler.kt:34-43 | `configuration: --enable-x --disable-y` adds x to the enabled and y to the disabled features |
| VersionInfoProcess.VersionInfoProcessHandler.constructor | src/main/kotlin/io/v47/jaffree/version/VersionInfoProcessHandler.kt:25-27 | a version handler starts with no match and no features |
| VersionInfoProcess.VersionInfoProcessHandler.OnStdoutLine | src/main/kotlin/io/v47/jaffree/version/VersionInfoProcessHandler.kt:31-44 | each stdout line updates the scan as ScanLine does |
| VersionInfoProcess.VersionInfoProcessHandler.OnStderrLine | src/main/kotlin/io/v47/jaffree/version/VersionInfoProcessHandler.kt:29 | stderr lines are handled like stdout lines |
| VersionInfoProcess.VersionInfoProcessHandler.HandleLines | src/main/kotlin/io/v47/jaffree/version/VersionInfoProcessHandler.kt:31-44 | lines are scanned in order |
| VersionInfoProcess.VersionInfoProcessHandler.OnStderr | src/main/kotlin/io/v47/jaffree/process/LinesProcessHandler.kt:52-62 | stderr bytes are split into lines and scanned |
| VersionInfoProcess.VersionInfoProcessHandler.OnStdout | src/main/kotlin/io/v47/jaffree/process/LinesProcessHandler.kt:64-74 | stdout bytes are split into lines and scanned |
| VersionInfoProcess.VersionInfoProcessHandler.GetResult | src/main/kotlin/io/v47/jaffree/version/VersionInfoProcessHandler.kt:46-63 | as written: no version line fails with "No version number found."; a version with a missing minor or patch number fails on `"".toInt()`; a result carries the matched version text and the scanned feature sets |
| VersionInfoProcess.VersionInfoProcessHandler.GetResultCorrected | src/main/kotlin/io/v47/jaffree/version/VersionInfoProcessHandler.kt:46-63 | the corrected reading of the Findings row: a missing minor or patch number is 0; no version line still fails with "No version number found." |
| FFmpegBuilder.ArgumentsSections | src/main/java/com/github/kokorin/jaffree/ffmpeg/FFmpeg.java:473-514 | the command line is the log level, the inputs, the overwrite flag, the global options and the outputs, in that order |
| FFmpegBuilder.ArgumentsLayout | src/main/java/com/github/kokorin/jaffree/ffmpeg/FFmpeg.java:473-514 | the positions of each section: `-loglevel` first, inputs from index 2, the `-y`/`-n` flag right after them, outputs last |
| FFmpegBuilder.LogLevelArgumentInjective | src/main/java/com/github/kokorin/jaffree/ffmpeg/FFmpeg.java:476-480 | different log levels (and none) give different `-loglevel` arguments |
| FFmpegBuilder.InitialArguments | src/main/java/com/github/kokorin/jaffree/ffmpeg/FFmpeg.java:59-75 | a fresh builder's command line is `-loglevel level+info -n` and the (empty) filters |
| FFmpegBuilder.AddInputArguments | src/main/java/com/github/kokorin/jaffree/ffmpeg/FFmpeg.java:101-104 | adding an input inserts its arguments just before the overwrite flag, after the earlier inputs |
| FFmpegBuilder.AddOutputArguments | src/main/java/com/github/kokorin/jaffree/ffmpeg/FFmpeg.java:119-122 | adding an output appends its arguments at the end |
| FFmpegBuilder.AddArgumentArguments | src/main/java/com/github/kokorin/jaffree/ffmpeg/FFmpeg.java:133-136 | an additional argument goes just before the outputs |
| FFmpegBuilder.OverwriteOnlyFlag | src/main/java/com/github/kokorin/jaffree/ffmpeg/FFmpeg.java:325-328 | the overwrite setting changes only the flag, `-y` or `-n` |
| FFmpegBuilder.SetProgressArguments | src/main/java/com/github/kokorin/jaffree/ffmpeg/FFmpeg.java:371-373 | setting a progress URL inserts `-progress url` right after the flag |
| FFmpegBuilder.SetComplexFilterArguments | src/main/java/com/github/kokorin/jaffree/ffmpeg/FFmpeg.java:185-188 | setting a complex filter inserts `-filter_complex f` after the progress option |
| FFmpegBuilder.SetFilterReplaces | src/main/java/com/github/kokorin/jaffree/ffmpeg/FFmpeg.java:312-315 | a second filter for the same stream specifier replaces the first; different specifiers do not interfere |
| FFmpegBuilder.SetFilterLookup | src/main/java/com/github/kokorin/jaffree/ffmpeg/FFmpeg.java:219-221 | setting a filter adds its specifier, stores the filter and keeps every other filter and setting |
| FFmpegBuilder.ExecutablePath | src/main/java/com/github/kokorin/jaffree/ffmpeg/FFmpeg.java:523-542 | without a directory the executable is `ffmpeg`; with one it is inside that directory |
| FFmpegBuilder.FFmpeg.constructor | src/main/java/com/github/kokorin/jaffree/ffmpeg/FFmpeg.java:84-86 | a new builder has the initial settings, log level INFO and no overwrite |
| FFmpegBuilder.FFmpeg.AtPath | src/main/java/com/github/kokorin/jaffree/ffmpeg/FFmpeg.java:523-542 | creates a builder for the resolved executable |
| FFmpegBuilder.FFmpeg.AddInput | src/main/java/com/github/kokorin/jaffree/ffmpeg/FFmpeg.java:101-104 | the input is appended and nothing else changes |
| FFmpegBuilder.FFmpeg.AddOutput | src/main/java/com/github/kokorin/jaffree/ffmpeg/FFmpeg.java:119-122 | the output is appended and nothing else changes |
| FFmpegBuilder.FFmpeg.AddArgument | src/main/java/com/github/kokorin/jaffree/ffmpeg/FFmpeg.java:133-136 | the argument is appended and nothing else changes |
| FFmpegBuilder.FFmpeg.AddArguments | src/main/java/com/github/kokorin/jaffree/ffmpeg/FFmpeg.java:148-151 | key and value are appended in that order |
| FFmpegBuilder.FFmpeg.SetComplexFilter | src/main/java/com/github/kokorin/jaffree/ffmpeg/FFmpeg.java:185-188 | the complex filter is set, or cleared by null, and nothing else changes |
| FFmpegBuilder.FFmpeg.SetFilterFor | src/main/java/com/github/kokorin/jaffree/ffmpeg/FFmpeg.java:219-221 | the filter is stored under its stream specifier (none for `setFilter(String)`) |
| FFmpegBuilder.FFmpeg.SetOverwriteOutput | src/main/java/com/github/kokorin/jaffree/ffmpeg/FFmpeg.java:325-328 | only the overwrite setting changes |
| FFmpegBuilder.FFmpeg.SetProgress | src/main/java/com/github/kokorin/jaffree/ffmpeg/FFmpeg.java:371-373 | only the progress URL changes |
| FFmpegBuilder.FFmpeg.SetLogLevel | src/main/java/com/github/kokorin/jaffree/ffmpeg/FFmpeg.java:384-387 | only the log level changes |
| FFmpegBuilder.FFmpeg.SetContextName | src/main/java/com/github/kokorin/jaffree/ffmpeg/FFmpeg.java:397-400 | only the context name changes |
| FFmpegBuilder.FFmpeg.AppendGlobalOptions | src/main/java/com/github/kokorin/jaffree/ffmpeg/FFmpeg.java:486-507 | appends the flag, then progress, complex filter, filters and additional arguments |
| FFmpegBuilder.FFmpeg.BuildArguments | src/main/java/com/github/kokorin/jaffree/ffmpeg/FFmpeg.java:473-514 | the built list is Arguments of the current settings |
| GenericFilters.Escape | src/test/java/com/github/kokorin/jaffree/ffmpeg/FilterTest.java:36-38 | escaping never shortens a string |
| GenericFilters.EscapePlain | src/test/java/com/github/kokorin/jaffree/ffmpeg/FilterTest.java:36-43 | a string is unchanged by escaping exactly when it has none of `\`, `'`, `:`, `,`, which is also exactly when escaping keeps its length |
| GenericFilters.EscapeAppend | src/test/java/com/github/kokorin/jaffree/ffmpeg/FilterTest.java:40-43 | escaping works piece by piece on a concatenation |
| GenericFilters.UnescapeEscape | src/test/java/com/github/kokorin/jaffree/ffmpeg/FilterTest.java:36-43 | escaping loses nothing: unescaping gives the argument back |
| GenericFilters.EscapeSingles | src/test/java/com/github/kokorin/jaffree/ffmpeg/FilterTest.java:36-38 | the escapes of `\`, `'`, `:` and `,` |
| GenericFilters.EscapeSentence | src/test/java/com/github/kokorin/jaffree/ffmpeg/FilterTest.java:40-43 | in a sentence of plain words only the quotes, colon and commas are escaped, in place |
| GenericFilters.LinksSnoc | src/test/java/com/github/kokorin/jaffree/ffmpeg/FilterTest.java:8-17 | adding a link appends `[link]` to the rendered links |
| GenericFilters.ArgumentListSnoc | src/test/java/com/github/kokorin/jaffree/ffmpeg/FilterTest.java:20-31 | adding an argument appends `=k=v` to a filter without arguments and `:k=v` otherwise |
| GenericFilters.ArgumentListSplits | src/test/java/com/github/kokorin/jaffree/ffmpeg/FilterTest.java:20-31 | the argument list starts with `=` and splits at `:` back into the `key=value` strings |
| GenericFilters.GenericFilter.constructor | src/test/java/com/github/kokorin/jaffree/ffmpeg/FilterTest.java:8-17 | a new filter has no links, no name and no arguments |
| GenericFilters.GenericFilter.AddInputLink | src/test/java/com/github/kokorin/jaffree/ffmpeg/FilterTest.java:9-12 | the value gains `[link]` after the earlier links |
| GenericFilters.GenericFilter.SetName | src/test/java/com/github/kokorin/jaffree/ffmpeg/FilterTest.java:12-13 | only the name changes |
| GenericFilters.GenericFilter.AddArgument | src/test/java/com/github/kokorin/jaffree/ffmpeg/FilterTest.java:22-26 | the value gains `=k=v` for the first argument and `:k=v` for later ones |
| GenericFilters.MergeExample | src/test/java/com/github/kokorin/jaffree/ffmpeg/FilterTest.java:8-17 | two links and `amerge` render as `[0:1][0:2]amerge` |
| GenericFilters.ColorExample | src/test/java/com/github/kokorin/jaffree/ffmpeg/FilterTest.java:20-31 | the color filter renders as `color=c=red@0.2:s=qcif:r=10` |
| BaseInOut.ThreeDecimals | src/test/java/com/github/kokorin/jaffree/ffmpeg/BaseInOutTest.java:9-19 | a duration always ends in a point and exactly three digits |
| BaseInOut.NegativeDuration | src/test/java/com/github/kokorin/jaffree/ffmpeg/BaseInOutTest.java:14-17 | a negative duration is `-` and the rendering of its magnitude |
| BaseInOut.DurationRoundTrip | src/test/java/com/github/kokorin/jaffree/ffmpeg/BaseInOutTest.java:9-19 | the rendering parses back to the same number of milliseconds |
| BaseInOut.DurationParts | src/test/java/com/github/kokorin/jaffree/ffmpeg/BaseInOutTest.java:9-12 | s seconds and m milliseconds render as the digits of s, `.`, and m padded to three digits |
| BaseInOut.PaddedDurationExample | src/test/java/com/github/kokorin/jaffree/ffmpeg/BaseInOutTest.java:9-12 | 123056 ms renders as `123.056` |

## Left out

- The source of `NutInputStream`, `NutOutputStream`, `ParseUtil`, `GenericFilter`, `BaseInOut` and `LogLevel` is not part of this model. Their models follow the behaviour their tests assert and the NUT format.
- NutCodec.SignedToValue: the signed mapping is NUT's `s` type (x > 0 to 2x - 1, otherwise to -2x). Plain zigzag would also fit the test's sizes.
- NutOutput.NutOutputStream.WriteCrc32: the checksum is a parameter, and the CRC polynomial is not modelled.
- NutOutput.NutOutputStream.Flush: a closed sink is reported when the buffer is flushed or closed, not by the write call itself. The tests only assert that the write-and-flush sequence throws.
- NutInput.NutInputStream.ReadValue: a failed read leaves the position where it was. How far the real stream had read before the end-of-file error is not modelled.
- Java's integer widths are not modelled for values, positions and sizes. `Long`/`Int` values in the NUT codec are the exceptions: they are explicit 64- and 32-bit ranges.
- BaseInOut.ThreeDecimals: `Long.MIN_VALUE` has no positive magnitude in Java; the model uses unbounded integers.
- BaseInOut.PaddedDurationExample: the other fixed examples of the duration test follow from DurationParts and NegativeDuration and are not restated one by one.
- Decoding bytes to text maps each byte to one character. UTF-8 decoding is not modelled.
- Logging through SLF4J, and the exceptions an output listener throws, are not modelled. An output listener is a flag, and the messages it would receive are a sequence.
- `processAccess`, `executeAsync`, `execute`, the process runner, the TCP progress server, `setProgressListener` and `setOutputListener` are left out. They are I/O and concurrency.
- Subclass dispatch of `onStderrLine`/`onStdoutLine` is modelled by composition: each handler holds a line handler and feeds it the split lines.
- `addErrorLogMessage` is modelled as appending to the error log. Its defining class is not part of this model.
- FFmpegProcess.FFmpegProcessHandler.OnExit: `FFmpegResult`'s muxing overhead ratio is a floating-point number and is not modelled, so the result keeps the five sizes.
- FFprobeProcess.FFprobeProcessHandler.OnExit: the ffprobe output parser is a parameter function of the stdout text.
- FFmpegBuilder.FFmpeg.BuildArguments: the argument lists of inputs and outputs, and the rendering of the filter map (`BaseInOut.toArguments`), are parameters.
- The `setFilter` overloads taking a `StreamType`, a `Filter`, a `FilterChain` or a `FilterGraph` are left out. They reduce to the string forms through code that is not part of this model.
- FFmpegBuilder.ExecutablePath: `Path.resolve` is modelled as joining with `/`.
- GenericFilters.Escape: only the four characters the test shows are escaped. Output links, and a default name other than "", are not modelled.
- GenericFilters.EscapeSentence: it is stated for any plain words in the test's places rather than for the literal sentence.
- ParseUtil.ParseResult: it is the simplest summary parser that fits the asserted tests. The original implementation is not part of this model.

## Findings

| source | as written | input that shows it | evidently intended | confidence | as-written member | corrected member |
|---|---|---|---|---|---|---|
| src/main/kotlin/io/v47/jaffree/version/VersionInfoProcessHandler.kt:58-59 | `groupValues.getOrNull(i)` is "" for an optional group that did not match, never null, so `"".toInt()` throws NumberFormatException | the banner `ffmpeg version 6.0 Copyright` | a missing minor or patch number defaults to 0, giving 6.0.0 | not executed | VersionInfoProcess.TwoPartVersionFailsAsWritten | VersionInfoProcess.TwoPartVersion |
