/** `LinesProcessHandler`: the byte buffers a process writes to stdout and stderr are
    cut into lines at every run of CR and LF bytes, a partial line being carried over
    to the next buffer; and the state every handler shares: the first exception with
    later ones suppressed into it, the error log messages, and the log message being
    gathered over several lines. */
module LinesProcess {
  import opened Wrappers
  import opened Text
  import opened LogLevels

  const CarriageReturn: Byte := 13
  const Newline: Byte := 10

  predicate IsBreak(b: Byte) {
    b == CarriageReturn || b == Newline
  }

  predicate NoBreaks(s: seq<Byte>) {
    forall i :: 0 <= i < |s| ==> !IsBreak(s[i])
  }

  predicate NoneBroken(chunks: seq<seq<Byte>>) {
    forall k :: 0 <= k < |chunks| ==> NoBreaks(chunks[k])
  }

  /** `java.nio.ByteBuffer` as the handler reads it: the bytes up to the limit, and a
      read position. */
  class ByteBuffer {
    const content: seq<Byte>
    var position: nat

    constructor (content: seq<Byte>)
      ensures this.content == content && position == 0
    {
      this.content := content;
      position := 0;
    }

    predicate HasRemaining()
      reads this
    {
      position < |content|
    }

    /** Relative `get()`: the byte at the position, which moves on by one. */
    method Get() returns (b: Byte)
      requires position < |content|
      modifies this
      ensures b == content[old(position)] && position == old(position) + 1
    {
      b := content[position];
      position := position + 1;
    }

    /** Bulk `get(bytes)`: the next `n` bytes, the position moving past them. */
    method GetBytes(n: nat) returns (bytes: seq<Byte>)
      requires position + n <= |content|
      modifies this
      ensures bytes == content[old(position)..old(position) + n] && position == old(position) + n
    {
      bytes := content[position..position + n];
      position := position + n;
    }

    method SetPosition(p: nat)
      requires p <= |content|
      modifies this
      ensures position == p
    {
      position := p;
    }
  }

  /** A `MutableList<ByteArray>`: the chunks of a line not yet complete. */
  class ChunkList {
    var items: seq<seq<Byte>>

    constructor ()
      ensures items == []
    {
      items := [];
    }

    method Add(bytes: seq<Byte>)
      modifies this
      ensures items == old(items) + [bytes]
    {
      items := items + [bytes];
    }

    method Clear()
      modifies this
      ensures items == []
    {
      items := [];
    }
  }

  /** The first CR or LF at or after `from`, or -1. */
  function FirstBreak(s: seq<Byte>, from: nat): (r: int)
    ensures r == -1 || (from <= r < |s| && IsBreak(s[r]))
    ensures forall i :: from <= i < |s| && (r == -1 || i < r) ==> !IsBreak(s[i])
    decreases |s| - from
  {
    if from >= |s| then -1
    else if IsBreak(s[from]) then from
    else FirstBreak(s, from + 1)
  }

  /** The end of the run of CR and LF bytes starting at `from`. */
  function SkipBreaks(s: seq<Byte>, from: nat): (r: nat)
    requires from <= |s|
    ensures from <= r <= |s|
    ensures forall i :: from <= i < r ==> IsBreak(s[i])
    ensures r < |s| ==> !IsBreak(s[r])
    decreases |s| - from
  {
    if from < |s| && IsBreak(s[from]) then SkipBreaks(s, from + 1) else from
  }

  /** `addToBytes`: the bytes from the position up to the first CR or LF become a new
      chunk, and the whole run of breaks after them is consumed; without a break
      everything left becomes the chunk. The result says whether a break was seen. */
  method AddToBytes(source: ByteBuffer, target: ChunkList) returns (found: bool)
    requires source.position <= |source.content|
    modifies source, target
    ensures var p := old(source.position);
      var b := FirstBreak(source.content, p);
      found == (b >= 0)
      && (found ==> target.items == old(target.items) + [source.content[p..b]]
                    && source.position == SkipBreaks(source.content, b))
      && (!found ==> target.items == old(target.items) + [source.content[p..]]
                     && source.position == |source.content|)
    ensures old(source.position) < |source.content| ==> source.position > old(source.position)
  {
    var newLinePos := -1;
    var pos := source.position;
    while pos < |source.content|
      invariant source.position <= pos <= |source.content|
      invariant FirstBreak(source.content, source.position) == FirstBreak(source.content, pos)
      decreases |source.content| - pos
    {
      if IsBreak(source.content[pos]) {
        newLinePos := pos;
        break;
      }
      pos := pos + 1;
    }
    assert newLinePos == FirstBreak(source.content, source.position);
    var bytes := source.GetBytes(if newLinePos > -1 then newLinePos - source.position
                                 else |source.content| - source.position);
    target.Add(bytes);
    assert source.content[old(source.position)..|source.content|] == source.content[old(source.position)..];
    ghost var items := target.items;
    if newLinePos > -1 {
      pos := source.position;
      while pos < |source.content|
        invariant newLinePos <= pos <= |source.content| && source.position == pos
        invariant target.items == items
        invariant SkipBreaks(source.content, newLinePos) == SkipBreaks(source.content, pos)
        decreases |source.content| - pos
      {
        var byteAtPos := source.Get();
        if !IsBreak(byteAtPos) {
          source.SetPosition(pos);
          break;
        }
        pos := pos + 1;
      }
    }
    found := newLinePos > -1;
  }

  /** The chunks one after the other. */
  function Concat(chunks: seq<seq<Byte>>): seq<Byte> {
    if chunks == [] then [] else Concat(chunks[..|chunks| - 1]) + chunks[|chunks| - 1]
  }

  /** `sumOf { it.size }`. */
  function TotalSize(chunks: seq<seq<Byte>>): nat {
    if chunks == [] then 0 else TotalSize(chunks[..|chunks| - 1]) + |chunks[|chunks| - 1]|
  }

  /** The joined chunks are as long as the chunks together. */
  lemma {:induction false} ConcatSize(chunks: seq<seq<Byte>>)
    ensures |Concat(chunks)| == TotalSize(chunks)
    decreases |chunks|
  {
    if chunks != [] {
      ConcatSize(chunks[..|chunks| - 1]);
    }
  }

  /** Joining two runs of chunks is joining each and putting the results together. */
  lemma {:induction false} ConcatAppend(a: seq<seq<Byte>>, b: seq<seq<Byte>>)
    ensures Concat(a + b) == Concat(a) + Concat(b)
    decreases |b|
  {
    if b != [] {
      var b' := b[..|b| - 1];
      assert (a + b)[..|a + b| - 1] == a + b';
      assert (a + b)[|a + b| - 1] == b[|b| - 1];
      ConcatAppend(a, b');
      assert Concat(a + b) == Concat(a) + Concat(b') + b[|b| - 1];
    } else {
      assert a + b == a;
    }
  }

  /** `System.arraycopy(src, 0, dst, at, src.size)`. */
  method ArrayCopy(src: seq<Byte>, dst: array<Byte>, at: nat)
    requires at + |src| <= dst.Length
    modifies dst
    ensures dst[..] == old(dst[..at]) + src + old(dst[at + |src|..])
  {
    forall i | 0 <= i < |src| {
      dst[at + i] := src[i];
    }
    assert dst[..] == old(dst[..at]) + src + old(dst[at + |src|..]);
  }

  /** `List<ByteArray>.join()`: an array as long as the chunks together, holding them
      in order. */
  method Join(chunks: seq<seq<Byte>>) returns (result: array<Byte>)
    ensures fresh(result) && result[..] == Concat(chunks)
  {
    ConcatSize(chunks);
    result := new Byte[TotalSize(chunks)];
    var bytesCopied := 0;
    for k := 0 to |chunks|
      invariant bytesCopied == |Concat(chunks[..k])| <= result.Length
      invariant result[..bytesCopied] == Concat(chunks[..k])
    {
      assert chunks[..k + 1][..k] == chunks[..k];
      ConcatAppend(chunks[..k], [chunks[k]]);
      assert chunks[..k] + [chunks[k]] == chunks[..k + 1];
      ConcatSize(chunks[..k + 1]);
      PrefixTotal(chunks, k + 1);
      ArrayCopy(chunks[k], result, bytesCopied);
      bytesCopied := bytesCopied + |chunks[k]|;
    }
    assert chunks[..|chunks|] == chunks;
  }

  /** A prefix of the chunks is no longer than all of them. */
  lemma {:induction false} PrefixTotal(chunks: seq<seq<Byte>>, k: nat)
    requires k <= |chunks|
    ensures TotalSize(chunks[..k]) <= TotalSize(chunks)
    decreases |chunks|
  {
    if k < |chunks| {
      assert chunks[..|chunks| - 1][..k] == chunks[..k];
      PrefixTotal(chunks[..|chunks| - 1], k);
    } else {
      assert chunks[..k] == chunks;
    }
  }

  /** The lines one buffer completes, and the chunks it leaves pending. */
  datatype Split = Split(lines: seq<seq<Byte>>, pending: seq<seq<Byte>>)

  /** What `onStderr`/`onStdout` do with the bytes from `from` on, given the pending
      chunks: each break run completes a line made of the pending chunks and the bytes
      before the break, even when these are none; bytes after the last break stay
      pending as one more chunk. */
  function SplitLines(s: seq<Byte>, from: nat, pending: seq<seq<Byte>>): Split
    requires from <= |s|
    decreases |s| - from
  {
    if from == |s| then Split([], pending)
    else
      var b := FirstBreak(s, from);
      if b < 0 then Split([], pending + [s[from..]])
      else
        var rest := SplitLines(s, SkipBreaks(s, b), []);
        Split([Concat(pending + [s[from..b]])] + rest.lines, rest.pending)
  }

  /** `String(bytes)` for each line. */
  function Decode(lines: seq<seq<Byte>>): (r: seq<string>)
    ensures |r| == |lines| && forall i :: 0 <= i < |lines| ==> r[i] == BytesToString(lines[i])
  {
    seq(|lines|, i requires 0 <= i < |lines| => BytesToString(lines[i]))
  }

  /** The bytes without their CR and LF bytes. */
  function Unbroken(s: seq<Byte>): seq<Byte> {
    if s == [] then []
    else (if IsBreak(s[0]) then [] else [s[0]]) + Unbroken(s[1..])
  }

  lemma {:induction false} UnbrokenAppend(a: seq<Byte>, b: seq<Byte>)
    ensures Unbroken(a + b) == Unbroken(a) + Unbroken(b)
    decreases |a|
  {
    if a != [] {
      assert (a + b)[1..] == a[1..] + b;
      assert (a + b)[0] == a[0];
      UnbrokenAppend(a[1..], b);
    } else {
      assert a + b == b;
    }
  }

  lemma {:induction false} UnbrokenKeeps(s: seq<Byte>)
    requires NoBreaks(s)
    ensures Unbroken(s) == s
    decreases |s|
  {
    if s != [] {
      UnbrokenKeeps(s[1..]);
    }
  }

  lemma {:induction false} UnbrokenDrops(s: seq<Byte>)
    requires forall i :: 0 <= i < |s| ==> IsBreak(s[i])
    ensures Unbroken(s) == []
    decreases |s|
  {
    if s != [] {
      UnbrokenDrops(s[1..]);
    }
  }

  lemma {:induction false} NoBreaksConcat(chunks: seq<seq<Byte>>)
    requires NoneBroken(chunks)
    ensures NoBreaks(Concat(chunks))
    decreases |chunks|
  {
    if chunks != [] {
      var init := chunks[..|chunks| - 1];
      NoBreaksConcat(init);
      var a, b := Concat(init), chunks[|chunks| - 1];
      forall i | 0 <= i < |a + b| ensures !IsBreak((a + b)[i]) {
        if i < |a| {
          assert (a + b)[i] == a[i];
        } else {
          assert (a + b)[i] == b[i - |a|];
        }
      }
    }
  }

  /** No line and no pending chunk holds a CR or LF when the pending chunks did not. */
  lemma {:induction false} LinesHaveNoBreaks(s: seq<Byte>, from: nat, pending: seq<seq<Byte>>)
    requires from <= |s|
    requires NoneBroken(pending)
    ensures NoneBroken(SplitLines(s, from, pending).lines) && NoneBroken(SplitLines(s, from, pending).pending)
    decreases |s| - from
  {
    if from < |s| {
      var b := FirstBreak(s, from);
      if b < 0 {
        assert NoBreaks(s[from..]) by {
          forall i | 0 <= i < |s[from..]| ensures !IsBreak(s[from..][i]) {
            assert s[from..][i] == s[from + i];
          }
        }
      } else {
        var piece := s[from..b];
        assert NoBreaks(piece) by {
          forall i | 0 <= i < |piece| ensures !IsBreak(piece[i]) {
            assert piece[i] == s[from + i];
          }
        }
        NoBreaksConcat(pending + [piece]);
        var next := SkipBreaks(s, b);
        LinesHaveNoBreaks(s, next, []);
        var rest := SplitLines(s, next, []);
        var lines := [Concat(pending + [piece])] + rest.lines;
        assert SplitLines(s, from, pending) == Split(lines, rest.pending);
        forall k | 0 <= k < |lines| ensures NoBreaks(lines[k]) {
          if k > 0 {
            assert lines[k] == rest.lines[k - 1];
          } else {
            assert lines[k] == Concat(pending + [piece]);
          }
        }
      }
    }
  }

  /** A single chunk joined is that chunk. */
  lemma ConcatOne(x: seq<Byte>)
    ensures Concat([x]) == x
  {
    assert [x][..0] == [];
  }

  /** The bytes from `from` on hold no break before `b`, and only breaks from `b` to
      `k`: without their breaks they are the bytes before `b` and those from `k` on. */
  lemma BreakRun(s: seq<Byte>, from: nat, b: nat, k: nat)
    requires from <= b <= k <= |s|
    requires forall i :: from <= i < b ==> !IsBreak(s[i])
    requires forall i :: b <= i < k ==> IsBreak(s[i])
    ensures Unbroken(s[from..]) == s[from..b] + Unbroken(s[k..])
  {
    assert s[from..] == s[from..b] + s[b..k] + s[k..];
    forall i | 0 <= i < |s[from..b]| ensures !IsBreak(s[from..b][i]) {
      assert s[from..b][i] == s[from + i];
    }
    UnbrokenKeeps(s[from..b]);
    forall i | 0 <= i < |s[b..k]| ensures IsBreak(s[b..k][i]) {
      assert s[b..k][i] == s[b + i];
    }
    UnbrokenDrops(s[b..k]);
    UnbrokenAppend(s[from..b] + s[b..k], s[k..]);
    UnbrokenAppend(s[from..b], s[b..k]);
  }

  lemma EmptyThen(x: seq<Byte>)
    ensures Concat([]) + x == x
  {
  }

  lemma Associative<T>(a: seq<T>, b: seq<T>, c: seq<T>)
    ensures a + (b + c) == (a + b) + c
  {
  }

  /** Decoding one more line adds its string. */
  lemma DecodeSnoc(lines: seq<seq<Byte>>, line: seq<Byte>)
    ensures Decode(lines + [line]) == Decode(lines) + [BytesToString(line)]
  {
  }

  /** Nothing but the breaks is lost or added: the pending bytes and the buffer's bytes
      without their breaks are the lines followed by what stays pending. */
  lemma {:induction false} SplitKeepsBytes(s: seq<Byte>, from: nat, pending: seq<seq<Byte>>)
    requires from <= |s| && NoBreaks(Concat(pending))
    ensures Unbroken(Concat(pending) + s[from..])
      == Concat(SplitLines(s, from, pending).lines) + Concat(SplitLines(s, from, pending).pending)
    decreases |s| - from
  {
    if from == |s| {
      UnbrokenKeeps(Concat(pending));
      assert s[from..] == [];
      assert Concat(pending) + s[from..] == Concat(pending);
    } else {
      var b := FirstBreak(s, from);
      if b < 0 {
        KeepsBytesNoBreak(s, from, pending);
      } else {
        var k := SkipBreaks(s, b);
        SplitKeepsBytes(s, k, []);
        EmptyThen(s[k..]);
        KeepsBytesAtBreak(s, from, pending, b, k);
      }
    }
  }

  /** The step of `SplitKeepsBytes` when no break is left: the bytes stay pending. */
  lemma KeepsBytesNoBreak(s: seq<Byte>, from: nat, pending: seq<seq<Byte>>)
    requires from < |s| && FirstBreak(s, from) < 0 && NoBreaks(Concat(pending))
    ensures Unbroken(Concat(pending) + s[from..])
      == Concat(SplitLines(s, from, pending).lines) + Concat(SplitLines(s, from, pending).pending)
  {
    var c := Concat(pending);
    var t := s[from..];
    assert SplitLines(s, from, pending) == Split([], pending + [t]);
    assert Unbroken(c + t) == c + t by {
      UnbrokenKeeps(c);
      UnbrokenAppend(c, t);
      BreakRun(s, from, |s|, |s|);
      assert s[|s|..] == [] && s[from..|s|] == t;
    }
    assert Concat(pending + [t]) == c + t by {
      ConcatAppend(pending, [t]);
      ConcatOne(t);
    }
  }

  /** The step of `SplitKeepsBytes` at a break at `b`, given that the bytes from `k`,
      past the breaks, are kept. */
  lemma KeepsBytesAtBreak(s: seq<Byte>, from: nat, pending: seq<seq<Byte>>, b: nat, k: nat)
    requires from <= |s| && b == FirstBreak(s, from) && k == SkipBreaks(s, b) && NoBreaks(Concat(pending))
    requires Unbroken(s[k..]) == Concat(SplitLines(s, k, []).lines) + Concat(SplitLines(s, k, []).pending)
    ensures Unbroken(Concat(pending) + s[from..])
      == Concat(SplitLines(s, from, pending).lines) + Concat(SplitLines(s, from, pending).pending)
  {
    var c := Concat(pending);
    var rest := SplitLines(s, k, []);
    UnbrokenKeeps(c);
    UnbrokenAppend(c, s[from..]);
    BreakRun(s, from, b, k);
    var line := Concat(pending + [s[from..b]]);
    ConcatAppend(pending, [s[from..b]]);
    ConcatOne(s[from..b]);
    ConcatAppend([line], rest.lines);
    ConcatOne(line);
    assert SplitLines(s, from, pending) == Split([line] + rest.lines, rest.pending);
    Associative(c, s[from..b], Unbroken(s[k..]));
    Associative(line, Concat(rest.lines), Concat(rest.pending));
  }

  /** A CR ending one buffer and an LF starting the next give an empty line: the first
      buffer completes its line and leaves nothing pending, and the second starts with
      a break. */
  lemma EmptyLineAcrossBuffers(text: seq<Byte>)
    requires NoBreaks(text)
    ensures SplitLines(text + [CarriageReturn], 0, []) == Split([text], [])
    ensures SplitLines([Newline] + text, 0, []) == Split([[]], if text == [] then [] else [text])
  {
    var s := text + [CarriageReturn];
    forall i | 0 <= i < |text| ensures !IsBreak(s[i]) {
      assert s[i] == text[i];
    }
    assert IsBreak(s[|text|]);
    assert FirstBreak(s, 0) == |text|;
    assert s[0..|text|] == text;
    assert Concat([] + [text]) == text by {
      assert ([] + [text])[..0] == [];
    }
    var t := [Newline] + text;
    assert FirstBreak(t, 0) == 0;
    assert Concat([] + [t[0..0]]) == [] by {
      assert ([] + [t[0..0]])[..0] == [];
    }
    assert SkipBreaks(t, 0) == 1;
    if text != [] {
      assert FirstBreak(t, 1) == -1;
      assert t[1..] == text;
    }
  }

  /** The lines `onStderr`/`onStdout` hand on: those the buffer completes and, once the
      stream is closed, whatever is still pending. */
  function LinesOf(s: seq<Byte>, from: nat, pending: seq<seq<Byte>>, closed: bool): seq<string>
    requires from <= |s|
  {
    var r := SplitLines(s, from, pending);
    Decode(r.lines) + if closed && r.pending != [] then [BytesToString(Concat(r.pending))] else []
  }

  /** One `addToBytes` call seen from the split: a break found completes the first
      line, with the pending chunks, and the rest is split afresh; no break found only
      adds to the pending chunks. */
  lemma ReadStep(s: seq<Byte>, p: nat, pending: seq<seq<Byte>>, q: nat, after: seq<seq<Byte>>, found: bool)
    requires p < |s| && q <= |s|
    requires found == (FirstBreak(s, p) >= 0)
    requires found ==> after == pending + [s[p..FirstBreak(s, p)]] && q == SkipBreaks(s, FirstBreak(s, p))
    requires !found ==> after == pending + [s[p..]] && q == |s|
    ensures found ==>
      SplitLines(s, p, pending) == Split([Concat(after)] + SplitLines(s, q, []).lines, SplitLines(s, q, []).pending)
    ensures !found ==> SplitLines(s, p, pending) == SplitLines(s, q, after)
  {
  }

  /** One round of the loop in `onStderr` and `onStdout`: `addToBytes`, and the line
      it completes when it finds a break, after which the pending chunks are cleared. */
  method NextLine(buffer: ByteBuffer, current: ChunkList) returns (line: Option<seq<Byte>>)
    requires buffer.position < |buffer.content|
    modifies buffer, current
    ensures old(buffer.position) < buffer.position <= |buffer.content|
    ensures var before := SplitLines(buffer.content, old(buffer.position), old(current.items));
      var after := SplitLines(buffer.content, buffer.position, current.items);
      after.pending == before.pending
      && before.lines == if line.Some? then [line.value] + after.lines else after.lines
  {
    ghost var p, pending := buffer.position, current.items;
    var found := AddToBytes(buffer, current);
    ReadStep(buffer.content, p, pending, buffer.position, current.items, found);
    line := None;
    if found && |current.items| > 0 {
      var joined := Join(current.items);
      line := Some(joined[..]);
      current.Clear();
    }
  }

  /** The body of `onStderr` and `onStdout`, for the pending chunks of the one stream:
      `addToBytes` until the buffer is used up, a line at every break, and at the close
      the rest (which stays pending). */
  method ReadLines(buffer: ByteBuffer, closed: bool, current: ChunkList) returns (lines: seq<string>)
    requires buffer.position <= |buffer.content|
    modifies buffer, current
    ensures lines == LinesOf(buffer.content, old(buffer.position), old(current.items), closed)
    ensures current.items == SplitLines(buffer.content, old(buffer.position), old(current.items)).pending
    ensures buffer.position == |buffer.content|
  {
    ghost var whole := SplitLines(buffer.content, buffer.position, current.items);
    ghost var emitted: seq<seq<Byte>> := [];
    lines := [];
    while buffer.HasRemaining()
      invariant buffer.position <= |buffer.content|
      invariant lines == Decode(emitted)
      invariant emitted + SplitLines(buffer.content, buffer.position, current.items).lines == whole.lines
      invariant SplitLines(buffer.content, buffer.position, current.items).pending == whole.pending
      decreases |buffer.content| - buffer.position
    {
      var line := NextLine(buffer, current);
      if line.Some? {
        ghost var after := SplitLines(buffer.content, buffer.position, current.items).lines;
        Associative(emitted, [line.value], after);
        DecodeSnoc(emitted, line.value);
        emitted := emitted + [line.value];
        lines := lines + [BytesToString(line.value)];
      }
    }
    if closed && |current.items| > 0 {
      var joined := Join(current.items);
      lines := lines + [BytesToString(joined[..])];
    }
  }

  /** A Java exception: its message and those added to it as suppressed. */
  class Failure {
    const message: string
    var suppressed: seq<Failure>

    constructor (message: string)
      ensures this.message == message && suppressed == []
    {
      this.message := message;
      suppressed := [];
    }

    method AddSuppressed(other: Failure)
      modifies this
      ensures suppressed == old(suppressed) + [other]
    {
      suppressed := suppressed + [other];
    }
  }

  /** The text of `"$lastLogMessageBuilder"`: Kotlin renders a missing builder as
      `null`. */
  function BuilderText(builder: Option<string>): string {
    if builder.Some? then builder.value else "null"
  }

  /** The log state a handler keeps: the error log, the final error message and the
      message being gathered. */
  datatype LogState = LogState(
    errorLogMessages: seq<LogMessage>,
    finalErrorMessage: Option<string>,
    lastLogLevel: Option<LogLevel>,
    lastLogMessageBuilder: Option<string>)

  /** What `processLastLogMessage` does to the log state. */
  function FlushLog(s: LogState): LogState {
    if s.lastLogLevel.None? then s
    else
      var m := LogMessage(s.lastLogLevel.value, BuilderText(s.lastLogMessageBuilder));
      if IsErrorOrHigher(m.logLevel) then s.(errorLogMessages := s.errorLogMessages + [m], finalErrorMessage := Some(m.message))
      else s
  }

  /** What `startLogMessage` does to the log state. */
  function StartLog(s: LogState, logMessage: LogMessage): LogState {
    s.(lastLogLevel := Some(logMessage.logLevel), lastLogMessageBuilder := Some(Trim(logMessage.message)))
  }

  /** What `appendOrLogLine` does to the log state. */
  function AppendLog(s: LogState, line: string): LogState {
    if s.lastLogMessageBuilder.Some? then s.(lastLogMessageBuilder := Some(s.lastLogMessageBuilder.value + "\n" + line))
    else s
  }

  /** A flush records a final error message exactly when the pending level is
      error-or-higher, and then it is the pending text; the error log grows by that
      message and by nothing else. */
  lemma FlushLogFinalError(s: LogState)
    requires s.lastLogLevel.Some?
    ensures IsErrorOrHigher(s.lastLogLevel.value) <==>
      FlushLog(s).errorLogMessages == s.errorLogMessages + [LogMessage(s.lastLogLevel.value, BuilderText(s.lastLogMessageBuilder))]
    ensures IsErrorOrHigher(s.lastLogLevel.value) ==> FlushLog(s).finalErrorMessage == Some(BuilderText(s.lastLogMessageBuilder))
    ensures !IsErrorOrHigher(s.lastLogLevel.value) ==> FlushLog(s) == s
  {
    if !IsErrorOrHigher(s.lastLogLevel.value) {
      assert |FlushLog(s).errorLogMessages| == |s.errorLogMessages|;
    }
  }

  /** The state every handler shares. */
  class LinesProcessHandler<R> {
    var result: Option<R>
    var exception: Failure?
    var errorLogMessages: seq<LogMessage>
    const currentStderrBytes: ChunkList
    const currentStdoutBytes: ChunkList
    var finalErrorMessage: Option<string>
    var lastLogLevel: Option<LogLevel>
    var lastLogMessageBuilder: Option<string>

    /** A pending level always comes with its message. */
    ghost predicate Valid()
      reads this
    {
      currentStderrBytes != currentStdoutBytes
      && (lastLogLevel.Some? ==> lastLogMessageBuilder.Some?)
    }

    function Log(): LogState
      reads this
    {
      LogState(errorLogMessages, finalErrorMessage, lastLogLevel, lastLogMessageBuilder)
    }

    /** The log message being gathered, if any. */
    function PendingMessage(): Option<LogMessage>
      reads this
    {
      if lastLogLevel.Some? then Some(LogMessage(lastLogLevel.value, BuilderText(lastLogMessageBuilder))) else None
    }

    constructor ()
      ensures Valid() && fresh(currentStderrBytes) && fresh(currentStdoutBytes)
      ensures result == None && exception == null && errorLogMessages == [] && finalErrorMessage == None
      ensures currentStderrBytes.items == [] && currentStdoutBytes.items == [] && PendingMessage() == None
      ensures Log() == LogState([], None, None, None)
    {
      result := None;
      exception := null;
      errorLogMessages := [];
      currentStderrBytes := new ChunkList();
      currentStdoutBytes := new ChunkList();
      finalErrorMessage := None;
      lastLogLevel := None;
      lastLogMessageBuilder := None;
    }

    /** The `exception` setter: the first exception set stays; any later one is added
        to it as suppressed. Setting the kept exception again makes `addSuppressed`
        throw ("Self-suppression not permitted"): `thrown` is true and nothing changes. */
    method SetException(value: Failure?) returns (thrown: bool)
      modifies this, exception
      ensures thrown <==> old(exception) != null && value == old(exception)
      ensures old(exception) == null ==> exception == value
      ensures old(exception) != null ==> (exception == old(exception)
        && exception.suppressed
           == old(exception.suppressed) + (if value != null && !thrown then [value] else []))
      ensures result == old(result) && errorLogMessages == old(errorLogMessages)
      ensures finalErrorMessage == old(finalErrorMessage) && PendingMessage() == old(PendingMessage())
      ensures lastLogLevel == old(lastLogLevel) && lastLogMessageBuilder == old(lastLogMessageBuilder)
    {
      thrown := false;
      if exception == null {
        exception := value;
      } else if value == exception {
        thrown := true;
      } else if value != null {
        exception.AddSuppressed(value);
      }
    }

    method SetResult(value: R)
      modifies this
      ensures result == Some(value) && exception == old(exception) && errorLogMessages == old(errorLogMessages)
      ensures finalErrorMessage == old(finalErrorMessage)
      ensures lastLogLevel == old(lastLogLevel) && lastLogMessageBuilder == old(lastLogMessageBuilder)
    {
      result := Some(value);
    }

    /** `onStderr`: the stderr lines the buffer completes, in order. */
    method OnStderr(buffer: ByteBuffer, closed: bool) returns (lines: seq<string>)
      requires buffer.position <= |buffer.content|
      modifies buffer, currentStderrBytes
      ensures lines == LinesOf(buffer.content, old(buffer.position), old(currentStderrBytes.items), closed)
      ensures currentStderrBytes.items
        == SplitLines(buffer.content, old(buffer.position), old(currentStderrBytes.items)).pending
      ensures buffer.position == |buffer.content|
    {
      lines := ReadLines(buffer, closed, currentStderrBytes);
    }

    /** `onStdout`: the stdout lines the buffer completes, in order. */
    method OnStdout(buffer: ByteBuffer, closed: bool) returns (lines: seq<string>)
      requires buffer.position <= |buffer.content|
      modifies buffer, currentStdoutBytes
      ensures lines == LinesOf(buffer.content, old(buffer.position), old(currentStdoutBytes.items), closed)
      ensures currentStdoutBytes.items
        == SplitLines(buffer.content, old(buffer.position), old(currentStdoutBytes.items)).pending
      ensures buffer.position == |buffer.content|
    {
      lines := ReadLines(buffer, closed, currentStdoutBytes);
    }

    /** `startLogMessage`: a new pending message with the trimmed text. */
    method StartLogMessage(logMessage: LogMessage)
      requires Valid()
      modifies this
      ensures Valid()
      ensures PendingMessage() == Some(LogMessage(logMessage.logLevel, Trim(logMessage.message)))
      ensures lastLogMessageBuilder == Some(Trim(logMessage.message))
      ensures Log() == StartLog(old(Log()), logMessage)
      ensures result == old(result) && exception == old(exception) && errorLogMessages == old(errorLogMessages)
      ensures finalErrorMessage == old(finalErrorMessage)
    {
      lastLogLevel := Some(logMessage.logLevel);
      lastLogMessageBuilder := Some(Trim(logMessage.message));
    }

    /** `appendOrLogLine`: a further line of the pending message; with no pending
        message the line is only logged. */
    method AppendOrLogLine(line: string)
      requires Valid()
      modifies this
      ensures Valid()
      ensures lastLogMessageBuilder
        == if old(lastLogMessageBuilder).Some? then Some(old(lastLogMessageBuilder).value + "\n" + line) else None
      ensures lastLogLevel == old(lastLogLevel) && Log() == AppendLog(old(Log()), line)
      ensures result == old(result) && exception == old(exception) && errorLogMessages == old(errorLogMessages)
      ensures finalErrorMessage == old(finalErrorMessage)
    {
      if lastLogMessageBuilder.Some? {
        lastLogMessageBuilder := Some(lastLogMessageBuilder.value + "\n" + line);
      }
    }

    /** `processLastLogMessage`: the pending message is logged; an error-or-higher one
        is recorded among the error log messages and becomes the final error message.
        The result is what the additional action, when one is given, is called with.
        The pending message stays. */
    method ProcessLastLogMessage() returns (action: Option<(LogLevel, string)>)
      requires Valid()
      modifies this
      ensures Valid()
      ensures old(PendingMessage()).None? ==> (action == None && errorLogMessages == old(errorLogMessages)
        && finalErrorMessage == old(finalErrorMessage))
      ensures old(PendingMessage()).Some? ==>
        var m := old(PendingMessage()).value;
        action == Some((m.logLevel, m.message))
        && errorLogMessages == old(errorLogMessages) + (if IsErrorOrHigher(m.logLevel) then [m] else [])
        && finalErrorMessage == (if IsErrorOrHigher(m.logLevel) then Some(m.message) else old(finalErrorMessage))
      ensures lastLogLevel == old(lastLogLevel) && lastLogMessageBuilder == old(lastLogMessageBuilder)
      ensures result == old(result) && exception == old(exception)
      ensures Log() == FlushLog(old(Log()))
    {
      action := None;
      var logLevel := lastLogLevel;
      if logLevel.Some? {
        var message := BuilderText(lastLogMessageBuilder);
        match logLevel.value {
          case TRACE | VERBOSE | DEBUG | INFO | WARNING =>
          case QUIET | PANIC | FATAL | ERROR =>
            errorLogMessages := errorLogMessages + [LogMessage(logLevel.value, message)];
        }
        if IsErrorOrHigher(logLevel.value) {
          finalErrorMessage := Some(message);
        }
        action := Some((logLevel.value, message));
      }
    }
  }
}
