/** `LogLevel`: ffmpeg's log levels, most severe first, each with ffmpeg's numeric
    code. A level is "equal or higher" than another when it is at least as severe,
    that is when its code is not larger. */
module LogLevels {
  import opened Wrappers

  datatype LogLevel = QUIET | PANIC | FATAL | ERROR | WARNING | INFO | VERBOSE | DEBUG | TRACE

  /** `LogMessage`: a level and the text logged with it. */
  datatype LogMessage = LogMessage(logLevel: LogLevel, message: string)

  /** The value ffmpeg's `-loglevel` option gives each level. */
  function Code(level: LogLevel): int {
    match level
    case QUIET => -8
    case PANIC => 0
    case FATAL => 8
    case ERROR => 16
    case WARNING => 24
    case INFO => 32
    case VERBOSE => 40
    case DEBUG => 48
    case TRACE => 56
  }

  /** `isEqualOrHigher(other)`: at least as severe as `other`. */
  predicate IsEqualOrHigher(level: LogLevel, other: LogLevel) {
    Code(level) <= Code(other)
  }

  predicate IsInfoOrHigher(level: LogLevel) {
    IsEqualOrHigher(level, INFO)
  }

  predicate IsErrorOrHigher(level: LogLevel) {
    IsEqualOrHigher(level, ERROR)
  }

  /** `name().toLowerCase()`. */
  function LowerName(level: LogLevel): (name: string)
    ensures 1 <= |name| <= 7
    ensures forall i :: 0 <= i < |name| ==> 'a' <= name[i] <= 'z'
  {
    match level
    case QUIET => "quiet"
    case PANIC => "panic"
    case FATAL => "fatal"
    case ERROR => "error"
    case WARNING => "warning"
    case INFO => "info"
    case VERBOSE => "verbose"
    case DEBUG => "debug"
    case TRACE => "trace"
  }

  /** Levels are told apart by their codes, so the order is a total order. */
  lemma CodeInjective(a: LogLevel, b: LogLevel)
    ensures Code(a) == Code(b) ==> a == b
  {
  }

  lemma OrderTotal(a: LogLevel, b: LogLevel, c: LogLevel)
    ensures IsEqualOrHigher(a, a)
    ensures IsEqualOrHigher(a, b) || IsEqualOrHigher(b, a)
    ensures IsEqualOrHigher(a, b) && IsEqualOrHigher(b, a) ==> a == b
    ensures IsEqualOrHigher(a, b) && IsEqualOrHigher(b, c) ==> IsEqualOrHigher(a, c)
  {
    CodeInjective(a, b);
  }

  /** The lower-cased names are distinct. */
  lemma LowerNameInjective(a: LogLevel, b: LogLevel)
    ensures LowerName(a) == LowerName(b) ==> a == b
  {
    if LowerName(a) == LowerName(b) {
      assert LowerName(a)[0] == LowerName(b)[0] && |LowerName(a)| == |LowerName(b)|;
    }
  }

  /** Every error-or-higher level is info-or-higher (not only those the test lists). */
  lemma ErrorImpliesInfo(level: LogLevel)
    ensures IsErrorOrHigher(level) ==> IsInfoOrHigher(level)
  {
  }

  /** Exactly QUIET, PANIC, FATAL and ERROR are error-or-higher. */
  lemma ErrorOrHigherLevels(level: LogLevel)
    ensures IsErrorOrHigher(level) <==> level in {QUIET, PANIC, FATAL, ERROR}
  {
  }

  /** The order facts the level test checks. */
  lemma LevelTestFacts()
    ensures IsEqualOrHigher(INFO, DEBUG) && IsEqualOrHigher(ERROR, ERROR) && !IsEqualOrHigher(DEBUG, INFO)
    ensures IsInfoOrHigher(INFO) && IsInfoOrHigher(ERROR) && IsInfoOrHigher(FATAL) && IsInfoOrHigher(PANIC)
    ensures !IsInfoOrHigher(DEBUG)
    ensures IsErrorOrHigher(ERROR) && IsErrorOrHigher(FATAL) && IsErrorOrHigher(PANIC)
    ensures !IsErrorOrHigher(INFO) && !IsErrorOrHigher(DEBUG)
  {
  }
}
