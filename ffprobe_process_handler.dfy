// The handler of an ffprobe run: stdout carries the probe data, gathered line by
// line; stderr carries log messages; at exit the gathered data is handed to the
// format parser, unless an error was logged.

module FFprobeProcess {
  import opened Wrappers
  import opened Text
  import opened LogLevels
  import opened Messages = ParseLogMessage
  import opened LinesProcess

  /** `FFprobeResult`: the parsed probe data. */
  datatype FFprobeResult<P> = FFprobeResult(probeData: P)

  /** How a run ends: with an exception carrying a message, or with a result. */
  datatype Outcome<P> = Failed(message: string) | Probed(result: FFprobeResult<P>)

  /** The message of the exception a failing parser leads to. */
  const ParseFailure := "Failed to parse probe data"

  /** The non-blank lines, in order. */
  function NonBlank(lines: seq<string>): seq<string>
    decreases |lines|
  {
    if lines == [] then []
    else NonBlank(lines[..|lines| - 1]) + if IsBlank(lines[|lines| - 1]) then [] else [lines[|lines| - 1]]
  }

  /** `onStderrLine`: a log line flushes the pending message and starts a new one;
      any other line, trimmed, continues the pending message, if there is one. */
  function StderrLine(s: LogState, line: string): LogState {
    match Messages.ParseLogMessage(line)
    case Some(m) => StartLog(FlushLog(s), m)
    case None => AppendLog(s, Trim(line))
  }

  function StderrLines(s: LogState, lines: seq<string>): LogState
    decreases |lines|
  {
    if lines == [] then s else StderrLine(StderrLines(s, lines[..|lines| - 1]), lines[|lines| - 1])
  }

  /** `onExit`: after the last flush, a final error message is what the run fails
      with, and the parser is not consulted; otherwise the parser reads the gathered
      content and its failure or its data ends the run. */
  function ExitOutcome<P>(s: LogState, content: string, parser: string -> Option<P>): Outcome<P> {
    var flushed := FlushLog(s);
    if flushed.finalErrorMessage.Some? then Failed(flushed.finalErrorMessage.value)
    else
      match parser(content)
      case None => Failed(ParseFailure)
      case Some(data) => Probed(FFprobeResult(data))
  }

  /** A run without log lines on stderr. */
  function Quiet(): LogState {
    LogState([], None, None, None)
  }

  /** An `[error]` line on stderr makes the run fail with its trimmed text, whatever
      stdout carried and whatever the parser would make of it. */
  lemma ErrorLineFailsProbe<P>(text: string, content: string, parser: string -> Option<P>)
    ensures ExitOutcome(StderrLines(Quiet(), [Tag("error") + text]), content, parser) == Failed(Trim(text))
  {
    var line := Tag("error") + text;
    assert LowerName(ERROR) == "error";
    LeadingTag(ERROR, text);
    assert [line][..0] == [];
    assert StderrLines(Quiet(), [line]) == LogState([], None, Some(ERROR), Some(Trim(text)));
  }

  /** An `[info]` line does not make the run fail: the parser decides. */
  lemma InfoLineLeavesItToParser<P>(text: string, content: string, parser: string -> Option<P>)
    ensures ExitOutcome(StderrLines(Quiet(), [Tag("info") + text]), content, parser)
      == if parser(content).Some? then Probed(FFprobeResult(parser(content).value)) else Failed(ParseFailure)
  {
    var line := Tag("info") + text;
    var started := LogState([], None, Some(INFO), Some(Trim(text)));
    assert FlushLog(started) == started by {
      LevelTestFacts();
    }
    assert LowerName(INFO) == "info";
    LeadingTag(INFO, text);
    assert [line][..0] == [];
    assert StderrLines(Quiet(), [line]) == started;
  }

  /** A level line followed by lines without a level makes one pending message, its
      lines trimmed and joined by newlines. */
  lemma {:induction false} ContinuedMessage(s: LogState, first: string, rest: seq<string>)
    requires Messages.ParseLogMessage(first).Some?
    requires forall i :: 0 <= i < |rest| ==> Messages.ParseLogMessage(rest[i]).None?
    ensures StderrLines(s, [first] + rest).lastLogLevel == Some(Messages.ParseLogMessage(first).value.logLevel)
    ensures StderrLines(s, [first] + rest).lastLogMessageBuilder
      == Some(Lines(Trim(Messages.ParseLogMessage(first).value.message), rest))
    decreases |rest|
  {
    var lines := [first] + rest;
    if rest == [] {
      assert lines[..0] == [];
    } else {
      assert lines[..|lines| - 1] == [first] + rest[..|rest| - 1];
      ContinuedMessage(s, first, rest[..|rest| - 1]);
    }
  }

  /** The text of a message whose first line had `text`, continued by the trimmed
      `lines`, one per line. */
  function Lines(text: string, lines: seq<string>): string
    decreases |lines|
  {
    if lines == [] then text else Lines(text, lines[..|lines| - 1]) + "\n" + Trim(lines[|lines| - 1])
  }

  class FFprobeProcessHandler<P> {
    const base: LinesProcessHandler<FFprobeResult<P>>
    /** The format parser, as a function of the gathered text: its data, or None when
        it fails. */
    const parser: string -> Option<P>
    var contentWritten: bool
    /** What `stdOutputWriter` has been given. */
    var content: string
    /** The non-blank stdout lines so far. */
    ghost var written: seq<string>

    /** The stdout content is the non-blank lines with one newline between
        consecutive ones and none before the first or after the last. */
    ghost predicate Valid()
      reads this, base
    {
      base.Valid() && content == Text.Join(written, '\n') && contentWritten == (written != [])
    }

    constructor (parser: string -> Option<P>)
      ensures Valid() && fresh(base) && this.parser == parser
      ensures written == [] && base.result == None && base.exception == null && base.Log() == Quiet()
      ensures base.currentStderrBytes.items == [] && base.currentStdoutBytes.items == []
    {
      base := new LinesProcessHandler();
      this.parser := parser;
      contentWritten := false;
      content := "";
      written := [];
    }

    method OnStderrLine(line: string)
      requires Valid()
      modifies base
      ensures Valid() && base.Log() == StderrLine(old(base.Log()), line)
      ensures base.result == old(base.result) && base.exception == old(base.exception)
    {
      var logMessage := Messages.ParseLogMessage(line);
      if logMessage.Some? {
        var _ := base.ProcessLastLogMessage();
        base.StartLogMessage(logMessage.value);
      } else {
        base.AppendOrLogLine(Trim(line));
      }
    }

    method OnStdoutLine(line: string)
      requires Valid()
      modifies this
      ensures Valid() && written == old(written) + if IsBlank(line) then [] else [line]
    {
      if IsBlank(line) {
        return;
      }
      JoinSnoc(written, line, '\n');
      if contentWritten {
        content := content + "\n";
      }
      content := content + line;
      contentWritten := true;
      written := written + [line];
    }

    /** The lines one read of stderr completes, handled in order. */
    method HandleStderrLines(lines: seq<string>)
      requires Valid()
      modifies base
      ensures Valid() && base.Log() == StderrLines(old(base.Log()), lines)
      ensures base.result == old(base.result) && base.exception == old(base.exception)
    {
      var i := 0;
      while i < |lines|
        invariant 0 <= i <= |lines| && Valid()
        invariant base.Log() == StderrLines(old(base.Log()), lines[..i])
        invariant base.result == old(base.result) && base.exception == old(base.exception)
      {
        OnStderrLine(lines[i]);
        assert lines[..i + 1][..i] == lines[..i];
        i := i + 1;
      }
      assert lines[..|lines|] == lines;
    }

    /** The lines one read of stdout completes, handled in order. */
    method HandleStdoutLines(lines: seq<string>)
      requires Valid()
      modifies this
      ensures Valid() && written == old(written) + NonBlank(lines)
    {
      var i := 0;
      while i < |lines|
        invariant 0 <= i <= |lines| && Valid()
        invariant written == old(written) + NonBlank(lines[..i])
      {
        ghost var kept := if IsBlank(lines[i]) then [] else [lines[i]];
        OnStdoutLine(lines[i]);
        assert lines[..i + 1][..i] == lines[..i];
        assert NonBlank(lines[..i + 1]) == NonBlank(lines[..i]) + kept;
        Associative(old(written), NonBlank(lines[..i]), kept);
        i := i + 1;
      }
      assert lines[..|lines|] == lines;
    }

    /** `onStderr`: the lines the buffer completes go to `onStderrLine`. */
    method OnStderr(buffer: ByteBuffer, closed: bool)
      requires Valid() && buffer.position <= |buffer.content|
      modifies buffer, base.currentStderrBytes, base
      ensures Valid()
      ensures base.Log()
        == StderrLines(old(base.Log()), LinesOf(buffer.content, old(buffer.position), old(base.currentStderrBytes.items), closed))
      ensures base.currentStderrBytes.items
        == SplitLines(buffer.content, old(buffer.position), old(base.currentStderrBytes.items)).pending
      ensures buffer.position == |buffer.content|
      ensures base.result == old(base.result) && base.exception == old(base.exception)
    {
      var lines := base.OnStderr(buffer, closed);
      HandleStderrLines(lines);
    }

    /** `onStdout`: the lines the buffer completes go to `onStdoutLine`. */
    method OnStdout(buffer: ByteBuffer, closed: bool)
      requires Valid() && buffer.position <= |buffer.content|
      modifies buffer, base.currentStdoutBytes, this
      ensures Valid()
      ensures written
        == old(written) + NonBlank(LinesOf(buffer.content, old(buffer.position), old(base.currentStdoutBytes.items), closed))
      ensures base.currentStdoutBytes.items
        == SplitLines(buffer.content, old(buffer.position), old(base.currentStdoutBytes.items)).pending
      ensures buffer.position == |buffer.content|
    {
      var lines := base.OnStdout(buffer, closed);
      HandleStdoutLines(lines);
    }

    method OnExit()
      requires Valid()
      modifies base, base.exception
      ensures base.Log() == FlushLog(old(base.Log()))
      ensures ExitOutcome(old(base.Log()), content, parser).Probed? ==>
        base.result == Some(ExitOutcome(old(base.Log()), content, parser).result) && base.exception == old(base.exception)
      ensures ExitOutcome(old(base.Log()), content, parser).Failed? ==> base.result == old(base.result)
      ensures ExitOutcome(old(base.Log()), content, parser).Failed? && old(base.exception) == null ==>
        base.exception != null && base.exception.message == ExitOutcome(old(base.Log()), content, parser).message
    {
      var _ := base.ProcessLastLogMessage();
      if base.finalErrorMessage.Some? {
        var failure := new Failure(base.finalErrorMessage.value);
        var _ := base.SetException(failure);
        return;
      }
      var probeData := parser(content);
      if probeData.None? {
        var failure := new Failure(ParseFailure);
        var _ := base.SetException(failure);
      } else {
        base.SetResult(FFprobeResult(probeData.value));
      }
    }
  }
}
