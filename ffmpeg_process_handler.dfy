// The handler of an ffmpeg run: stderr lines are progress reports, the final summary
// or log messages, possibly spread over several lines; at exit the run yields either
// the summary's sizes or, when ffmpeg printed no summary, an empty result.

module FFmpegProcess {
  import opened Wrappers
  import opened Text
  import opened LogLevels
  import opened Messages = ParseLogMessage
  import opened ParseUtil
  import opened LinesProcess

  /** The handler's state, apart from its exception: the shared result and error log,
      its own final error message and pending message, and what it handed to the
      output listener. */
  datatype HandlerState = HandlerState(
    result: Option<FFmpegResult>,
    errorLogMessages: seq<LogMessage>,
    finalErrorMessage: Option<string>,
    lastLogLevel: Option<LogLevel>,
    lastLogMessageBuilder: Option<string>,
    outputs: seq<string>)

  /** A fresh handler. */
  function Initial(): HandlerState {
    HandlerState(None, [], None, None, None, [])
  }

  /** `FFmpegResult(null, null, null, null, null, null)`. */
  function EmptyResult(): FFmpegResult {
    FFmpegResult(None, None, None, None, None)
  }

  /** A progress report (`frame=... bitrate=... speed=...`), which the handler drops. */
  predicate IsProgressLine(line: string) {
    Contains(line, "frame=") && Contains(line, "bitrate=") && Contains(line, "speed=")
  }

  /** `processLastLogMessage`: the pending message, if any, is logged; an error-or-higher
      one goes to the error log; an info-or-higher one goes to the output listener, and
      only a message below info would become the final error message; a message that
      parses as the summary sets the result and clears the final error message. The
      pending message stays. */
  function Flush(s: HandlerState, listening: bool): HandlerState {
    if s.lastLogLevel.None? then s
    else
      var level := s.lastLogLevel.value;
      var message := BuilderText(s.lastLogMessageBuilder);
      var logged :=
        if IsErrorOrHigher(level) then s.(errorLogMessages := s.errorLogMessages + [LogMessage(level, message)])
        else s;
      var told :=
        if IsInfoOrHigher(level) then
          if listening then logged.(outputs := logged.outputs + [message]) else logged
        else if IsErrorOrHigher(level) then logged.(finalErrorMessage := Some(message))
        else logged;
      match ParseResult(message)
      case Some(r) => told.(result := Some(r), finalErrorMessage := None)
      case None => told
  }

  /** `onStdoutLine`: a log line flushes the pending message and starts a new one with
      its trimmed text; any other line continues the pending message, if there is one. */
  function StdoutLine(s: HandlerState, line: string, listening: bool): HandlerState {
    match Messages.ParseLogMessage(line)
    case Some(m) => Flush(s, listening).(lastLogLevel := Some(m.logLevel), lastLogMessageBuilder := Some(Trim(m.message)))
    case None =>
      if s.lastLogMessageBuilder.Some? then s.(lastLogMessageBuilder := Some(s.lastLogMessageBuilder.value + "\n" + Trim(line)))
      else s
  }

  /** `onStderrLine`: progress reports are dropped, the summary sets the result and
      clears the final error message, and every other line is read as on stdout. */
  function StderrLine(s: HandlerState, line: string, listening: bool): HandlerState {
    if IsProgressLine(line) then s
    else
      match ParseResult(line)
      case Some(r) => s.(result := Some(r), finalErrorMessage := None)
      case None => StdoutLine(s, line, listening)
  }

  function Step(s: HandlerState, line: string, fromStderr: bool, listening: bool): HandlerState {
    if fromStderr then StderrLine(s, line, listening) else StdoutLine(s, line, listening)
  }

  /** The lines of one stream, handled in order. */
  function Feed(s: HandlerState, lines: seq<string>, fromStderr: bool, listening: bool): HandlerState
    decreases |lines|
  {
    if lines == [] then s
    else Step(Feed(s, lines[..|lines| - 1], fromStderr, listening), lines[|lines| - 1], fromStderr, listening)
  }

  /** `onExit`: after the last flush, the final error message, if any, is what the run
      fails with; otherwise a run without a result gets the empty one. */
  function Exit(s: HandlerState, listening: bool): HandlerState {
    var f := Flush(s, listening);
    if f.finalErrorMessage.None? && f.result.None? then f.(result := Some(EmptyResult())) else f
  }

  function ExitFailure(s: HandlerState, listening: bool): Option<string> {
    Flush(s, listening).finalErrorMessage
  }

  /** The `else if` after `isInfoOrHigher` is never taken, because every error-or-higher
      level is also info-or-higher: flushing never records a final error message. */
  lemma FlushNeverFails(s: HandlerState, listening: bool)
    ensures Flush(s, listening).finalErrorMessage == None || Flush(s, listening).finalErrorMessage == s.finalErrorMessage
  {
    if s.lastLogLevel.Some? {
      ErrorImpliesInfo(s.lastLogLevel.value);
    }
  }

  lemma StepNeverFails(s: HandlerState, line: string, fromStderr: bool, listening: bool)
    requires s.finalErrorMessage == None
    ensures Step(s, line, fromStderr, listening).finalErrorMessage == None
  {
    FlushNeverFails(s, listening);
  }

  lemma {:induction false} FeedNeverFails(s: HandlerState, lines: seq<string>, fromStderr: bool, listening: bool)
    requires s.finalErrorMessage == None
    ensures Feed(s, lines, fromStderr, listening).finalErrorMessage == None
    decreases |lines|
  {
    if lines != [] {
      var before := lines[..|lines| - 1];
      FeedNeverFails(s, before, fromStderr, listening);
      StepNeverFails(Feed(s, before, fromStderr, listening), lines[|lines| - 1], fromStderr, listening);
    }
  }

  /** Hence a run whose handler never recorded a final error message ends with a
      result and without a failure, whatever ffmpeg logged. */
  lemma ExitNeverFails(s: HandlerState, listening: bool)
    requires s.finalErrorMessage == None
    ensures ExitFailure(s, listening) == None && Exit(s, listening).result.Some?
  {
    FlushNeverFails(s, listening);
  }

  /** Every entry of an error log has an error-or-higher level. */
  predicate ErrorsOnly(log: seq<LogMessage>) {
    forall i :: 0 <= i < |log| ==> IsErrorOrHigher(log[i].logLevel)
  }

  /** Flushing adds at most the pending message to the error log, and only when it
      is error-or-higher. */
  lemma FlushLogsErrors(s: HandlerState, listening: bool)
    requires ErrorsOnly(s.errorLogMessages)
    ensures ErrorsOnly(Flush(s, listening).errorLogMessages)
    ensures s.errorLogMessages <= Flush(s, listening).errorLogMessages
  {
    if s.lastLogLevel.Some? {
      var level := s.lastLogLevel.value;
      if IsErrorOrHigher(level) {
        assert Flush(s, listening).errorLogMessages
          == s.errorLogMessages + [LogMessage(level, BuilderText(s.lastLogMessageBuilder))];
      } else {
        assert Flush(s, listening).errorLogMessages == s.errorLogMessages;
      }
    }
  }

  /** A line leaves the error log as it was or as the flush left it. */
  lemma StepErrorLog(s: HandlerState, line: string, fromStderr: bool, listening: bool)
    ensures var log := Step(s, line, fromStderr, listening).errorLogMessages;
      log == s.errorLogMessages || log == Flush(s, listening).errorLogMessages
  {
  }

  /** The error log only grows, and only by error-or-higher messages. */
  lemma StepLogsErrors(s: HandlerState, line: string, fromStderr: bool, listening: bool)
    requires ErrorsOnly(s.errorLogMessages)
    ensures ErrorsOnly(Step(s, line, fromStderr, listening).errorLogMessages)
    ensures s.errorLogMessages <= Step(s, line, fromStderr, listening).errorLogMessages
  {
    FlushLogsErrors(s, listening);
    StepErrorLog(s, line, fromStderr, listening);
  }

  lemma {:induction false} FeedLogsErrors(s: HandlerState, lines: seq<string>, fromStderr: bool, listening: bool)
    requires ErrorsOnly(s.errorLogMessages)
    ensures ErrorsOnly(Feed(s, lines, fromStderr, listening).errorLogMessages)
    ensures s.errorLogMessages <= Feed(s, lines, fromStderr, listening).errorLogMessages
    decreases |lines|
  {
    if lines != [] {
      var before := lines[..|lines| - 1];
      FeedLogsErrors(s, before, fromStderr, listening);
      StepLogsErrors(Feed(s, before, fromStderr, listening), lines[|lines| - 1], fromStderr, listening);
    }
  }

  /** A stderr line that continues the pending message: neither a progress report,
      nor the summary, nor a log line. */
  predicate IsContinuation(line: string) {
    !IsProgressLine(line) && ParseResult(line).None? && Messages.ParseLogMessage(line).None?
  }

  /** The text of a message whose first line had `text`, continued by `lines`. */
  function Continued(text: string, lines: seq<string>): string
    decreases |lines|
  {
    if lines == [] then text else Continued(text, lines[..|lines| - 1]) + "\n" + Trim(lines[|lines| - 1])
  }

  /** A log line followed by continuation lines leaves one pending message: the log
      line's level, and its trimmed text joined by newlines with the trimmed further
      lines. */
  lemma {:induction false} MessageAssembly(s: HandlerState, first: string, rest: seq<string>, listening: bool)
    requires StderrLine(s, first, listening).lastLogMessageBuilder.Some?
    requires forall i :: 0 <= i < |rest| ==> IsContinuation(rest[i])
    ensures Feed(s, [first] + rest, true, listening).lastLogLevel == StderrLine(s, first, listening).lastLogLevel
    ensures Feed(s, [first] + rest, true, listening).lastLogMessageBuilder
      == Some(Continued(StderrLine(s, first, listening).lastLogMessageBuilder.value, rest))
    decreases |rest|
  {
    var lines := [first] + rest;
    if rest == [] {
      assert lines[..0] == [];
    } else {
      var before := rest[..|rest| - 1];
      assert lines[..|lines| - 1] == [first] + before;
      MessageAssembly(s, first, before, listening);
    }
  }

  /** A log line read on stderr starts a pending message with its level and trimmed
      text, after flushing the previous one. */
  lemma LogLineStartsMessage(s: HandlerState, line: string, listening: bool)
    requires !IsProgressLine(line) && ParseResult(line).None? && Messages.ParseLogMessage(line).Some?
    ensures StderrLine(s, line, listening).lastLogLevel == Some(Messages.ParseLogMessage(line).value.logLevel)
    ensures StderrLine(s, line, listening).lastLogMessageBuilder == Some(Trim(Messages.ParseLogMessage(line).value.message))
    ensures StderrLine(s, line, listening).errorLogMessages == Flush(s, listening).errorLogMessages
  {
  }

  /** An `[error]` line alone does not make the run fail: it is kept in the error log
      and handed to the listener, and the run ends with the empty result. */
  lemma ErrorLineStillSucceeds(text: string, listening: bool)
    requires !IsProgressLine(Tag("error") + text)
    requires ParseResult(Trim(text)).None?
    ensures Exit(Feed(Initial(), [Tag("error") + text], true, listening), listening).result == Some(EmptyResult())
    ensures Exit(Feed(Initial(), [Tag("error") + text], true, listening), listening).errorLogMessages
      == [LogMessage(ERROR, Trim(text))]
    ensures Exit(Feed(Initial(), [Tag("error") + text], true, listening), listening).outputs
      == if listening then [Trim(text)] else []
    ensures ExitFailure(Feed(Initial(), [Tag("error") + text], true, listening), listening) == None
  {
    var line := Tag("error") + text;
    assert LowerName(ERROR) == "error";
    LeadingTag(ERROR, text);
    NotASummary(line);
    assert [line][..0] == [];
    var started := Initial().(lastLogLevel := Some(ERROR), lastLogMessageBuilder := Some(Trim(text)));
    assert StderrLine(Initial(), line, listening) == started;
    assert Feed(Initial(), [line], true, listening) == started;
    ErrorImpliesInfo(ERROR);
  }

  /** A line without `=` is never a progress report. */
  lemma {:induction false} NoEqualsNoProgress(line: string)
    requires '=' !in line
    ensures !Contains(line, "speed=") && !IsProgressLine(line)
    decreases |line|
  {
    if |line| >= 6 {
      assert line[..6][5] == line[5];
    }
    if line != [] {
      assert forall i :: 0 <= i < |line[1..]| ==> line[1..][i] == line[i + 1];
      NoEqualsNoProgress(line[1..]);
    }
  }

  /** Labels, values and the rest of a line all without `c`: so is the line. */
  lemma {:induction false} LabelledWithout(labels: seq<string>, values: seq<string>, last: string, c: char)
    requires |labels| == |values| + 1 && c !in last
    requires forall i :: 0 <= i < |labels| ==> c !in labels[i]
    requires forall i :: 0 <= i < |values| ==> c !in values[i]
    ensures c !in Labelled(labels, values, last)
    decreases |values|
  {
    if values != [] {
      LabelledWithout(labels[1..], values[1..], last, c);
    }
  }

  lemma KilobytesNoEquals(n: nat)
    ensures '=' !in Kilobytes(n)
  {
    var digits := NatToString(n);
    assert forall k :: 0 <= k < |digits| ==> IsDigit(digits[k]);
  }

  /** The summary read on stderr sets the result to its sizes in bytes and clears the
      final error message, and changes nothing else. */
  lemma SummaryOnStderr(s: HandlerState, video: nat, audio: nat, subtitle: nat, other: nat, headers: nat,
                        overhead: string, listening: bool)
    requires '=' !in overhead
    ensures StderrLine(s, SummaryLine(video, audio, subtitle, other, headers, overhead), listening)
      == s.(result := Some(Sizes(video, audio, subtitle, other, headers)), finalErrorMessage := None)
  {
    SummaryNotProgress(video, audio, subtitle, other, headers, overhead);
    ParseSummaryLine(video, audio, subtitle, other, headers, overhead);
  }

  /** A summary line holds no `=`, so it is never taken for a progress line. */
  lemma SummaryNotProgress(video: nat, audio: nat, subtitle: nat, other: nat, headers: nat, overhead: string)
    requires '=' !in overhead
    ensures !IsProgressLine(SummaryLine(video, audio, subtitle, other, headers, overhead))
  {
    var values := [Kilobytes(video), Kilobytes(audio), Kilobytes(subtitle), Kilobytes(other), Kilobytes(headers)];
    forall i | 0 <= i < |values| ensures '=' !in values[i] {
      KilobytesNoEquals([video, audio, subtitle, other, headers][i]);
    }
    LabelledWithout(ResultLabels, values, overhead, '=');
    NoEqualsNoProgress(SummaryLine(video, audio, subtitle, other, headers, overhead));
  }

  /** The handler itself; the shared state lives in `base`. */
  class FFmpegProcessHandler {
    const base: LinesProcessHandler<FFmpegResult>
    /** Whether an output listener was given. */
    const listening: bool
    var finalErrorMessage: Option<string>
    var lastLogLevel: Option<LogLevel>
    var lastLogMessageBuilder: Option<string>
    /** The messages handed to the output listener, in order. */
    var outputs: seq<string>

    function State(): HandlerState
      reads this, base
    {
      HandlerState(base.result, base.errorLogMessages, finalErrorMessage, lastLogLevel, lastLogMessageBuilder, outputs)
    }

    constructor (listening: bool)
      ensures this.listening == listening && fresh(base) && base.exception == null
      ensures State() == Initial()
      ensures base.currentStderrBytes.items == [] && base.currentStdoutBytes.items == []
    {
      base := new LinesProcessHandler();
      this.listening := listening;
      finalErrorMessage := None;
      lastLogLevel := None;
      lastLogMessageBuilder := None;
      outputs := [];
    }

    method ProcessLastLogMessage()
      modifies this, base
      ensures State() == Flush(old(State()), listening)
      ensures base.exception == old(base.exception)
    {
      var logLevel := lastLogLevel;
      if logLevel.Some? {
        var message := BuilderText(lastLogMessageBuilder);
        match logLevel.value {
          case TRACE | VERBOSE | DEBUG | INFO | WARNING =>
          case QUIET | PANIC | FATAL | ERROR =>
            base.errorLogMessages := base.errorLogMessages + [LogMessage(logLevel.value, message)];
        }
        if IsInfoOrHigher(logLevel.value) {
          if listening {
            outputs := outputs + [message];
          }
        } else if IsErrorOrHigher(logLevel.value) {
          finalErrorMessage := Some(message);
        }
        var possibleResult := ParseResult(message);
        if possibleResult.Some? {
          base.SetResult(possibleResult.value);
          finalErrorMessage := None;
        }
      }
    }

    method OnStdoutLine(line: string)
      modifies this, base
      ensures State() == StdoutLine(old(State()), line, listening)
      ensures base.exception == old(base.exception)
    {
      var logMessage := Messages.ParseLogMessage(line);
      if logMessage.Some? {
        ProcessLastLogMessage();
        lastLogLevel := Some(logMessage.value.logLevel);
        lastLogMessageBuilder := Some(Trim(logMessage.value.message));
      } else if lastLogMessageBuilder.Some? {
        lastLogMessageBuilder := Some(lastLogMessageBuilder.value + "\n" + Trim(line));
      }
    }

    method OnStderrLine(line: string)
      modifies this, base
      ensures State() == StderrLine(old(State()), line, listening)
      ensures base.exception == old(base.exception)
    {
      if Contains(line, "frame=") && Contains(line, "bitrate=") && Contains(line, "speed=") {
        return;
      }
      var possibleResult := ParseResult(line);
      if possibleResult.Some? {
        base.SetResult(possibleResult.value);
        finalErrorMessage := None;
        return;
      }
      OnStdoutLine(line);
    }

    /** Each line one read of the stream completes, handled in order. */
    method HandleLines(lines: seq<string>, fromStderr: bool)
      modifies this, base
      ensures State() == Feed(old(State()), lines, fromStderr, listening)
      ensures base.exception == old(base.exception)
    {
      var i := 0;
      while i < |lines|
        invariant 0 <= i <= |lines|
        invariant State() == Feed(old(State()), lines[..i], fromStderr, listening)
        invariant base.exception == old(base.exception)
      {
        if fromStderr {
          OnStderrLine(lines[i]);
        } else {
          OnStdoutLine(lines[i]);
        }
        assert lines[..i + 1][..i] == lines[..i];
        i := i + 1;
      }
      assert lines[..|lines|] == lines;
    }

    /** `onStderr`: the lines the buffer completes go to `onStderrLine`. */
    method OnStderr(buffer: ByteBuffer, closed: bool)
      requires buffer.position <= |buffer.content|
      modifies buffer, base.currentStderrBytes, this, base
      ensures State() == Feed(old(State()),
        LinesOf(buffer.content, old(buffer.position), old(base.currentStderrBytes.items), closed), true, listening)
      ensures base.currentStderrBytes.items
        == SplitLines(buffer.content, old(buffer.position), old(base.currentStderrBytes.items)).pending
      ensures buffer.position == |buffer.content| && base.exception == old(base.exception)
    {
      var lines := base.OnStderr(buffer, closed);
      HandleLines(lines, true);
    }

    /** `onStdout`: the lines the buffer completes go to `onStdoutLine`. */
    method OnStdout(buffer: ByteBuffer, closed: bool)
      requires buffer.position <= |buffer.content|
      modifies buffer, base.currentStdoutBytes, this, base
      ensures State() == Feed(old(State()),
        LinesOf(buffer.content, old(buffer.position), old(base.currentStdoutBytes.items), closed), false, listening)
      ensures base.currentStdoutBytes.items
        == SplitLines(buffer.content, old(buffer.position), old(base.currentStdoutBytes.items)).pending
      ensures buffer.position == |buffer.content| && base.exception == old(base.exception)
    {
      var lines := base.OnStdout(buffer, closed);
      HandleLines(lines, false);
    }

    method OnExit()
      modifies this, base, base.exception
      ensures State() == Exit(old(State()), listening)
      ensures ExitFailure(old(State()), listening).None? ==> base.exception == old(base.exception)
      ensures ExitFailure(old(State()), listening).Some? && old(base.exception) == null ==>
        base.exception != null && base.exception.message == ExitFailure(old(State()), listening).value
    {
      ProcessLastLogMessage();
      if finalErrorMessage.Some? {
        var failure := new Failure(finalErrorMessage.value);
        var _ := base.SetException(failure);
      } else if base.result.None? {
        base.SetResult(EmptyResult());
      }
    }
  }
}
