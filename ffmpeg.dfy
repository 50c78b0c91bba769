// The `FFmpeg` builder: what its setters record and the command line
// `buildArguments` makes of it. Each input and output contributes the arguments
// its own `buildArguments` gives; the filter map is rendered by a function the
// builder is given, since how `BaseInOut.toArguments` orders a hash map is not
// part of this model.

module FFmpegBuilder {
  import opened Wrappers
  import opened Text
  import opened LogLevels

  /** An input, as the arguments its `buildArguments` gives. */
  datatype Input = Input(arguments: seq<string>)

  /** An output, as the arguments its `buildArguments` gives. */
  datatype Output = Output(arguments: seq<string>)

  /** What the builder has recorded. A `None` is a Java null; a filter whose stream
      specifier is null is keyed by `None`. */
  datatype Settings = Settings(
    inputs: seq<Input>,
    outputs: seq<Output>,
    additionalArguments: seq<string>,
    overwriteOutput: bool,
    progress: Option<string>,
    complexFilter: Option<string>,
    filters: map<Option<string>, string>,
    logLevel: Option<LogLevel>,
    contextName: Option<string>)

  /** A builder as it is created: no inputs or outputs, `overwriteOutput` false and
      the log level INFO. */
  function Initial(): Settings {
    Settings([], [], [], false, None, None, map[], Some(INFO), None)
  }

  /** The value of `-loglevel`: "level", then "+" and the lower-case level name
      when a level is set. */
  function LogLevelArgument(level: Option<LogLevel>): string {
    if level.None? then "level" else "level+" + LowerName(level.value)
  }

  /** Every input's arguments, in insertion order. */
  function InputArguments(inputs: seq<Input>): seq<string>
    decreases |inputs|
  {
    if inputs == [] then [] else InputArguments(inputs[..|inputs| - 1]) + inputs[|inputs| - 1].arguments
  }

  /** Every output's arguments, in insertion order. */
  function OutputArguments(outputs: seq<Output>): seq<string>
    decreases |outputs|
  {
    if outputs == [] then [] else OutputArguments(outputs[..|outputs| - 1]) + outputs[|outputs| - 1].arguments
  }

  /** An option with its value, when the value is set. */
  function OptionPair(key: string, value: Option<string>): seq<string> {
    if value.None? then [] else [key, value.value]
  }

  function OverwriteFlag(overwriteOutput: bool): string {
    if overwriteOutput then "-y" else "-n"
  }

  /** The global options between the overwrite flag and the outputs. */
  function GlobalOptions(s: Settings, renderFilters: map<Option<string>, string> -> seq<string>): seq<string> {
    OptionPair("-progress", s.progress) + OptionPair("-filter_complex", s.complexFilter)
      + renderFilters(s.filters) + s.additionalArguments
  }

  /** `buildArguments`: the log level, the inputs, the overwrite flag, progress,
      complex filter, filters and additional arguments, then the outputs. */
  function Arguments(s: Settings, renderFilters: map<Option<string>, string> -> seq<string>): seq<string> {
    ["-loglevel", LogLevelArgument(s.logLevel)] + InputArguments(s.inputs) + [OverwriteFlag(s.overwriteOutput)]
      + OptionPair("-progress", s.progress) + OptionPair("-filter_complex", s.complexFilter)
      + renderFilters(s.filters) + s.additionalArguments + OutputArguments(s.outputs)
  }

  /** The command line in its three sections: what precedes the global options,
      the global options, the outputs. */
  lemma ArgumentsSections(s: Settings, renderFilters: map<Option<string>, string> -> seq<string>)
    ensures Arguments(s, renderFilters)
      == (["-loglevel", LogLevelArgument(s.logLevel)] + InputArguments(s.inputs) + [OverwriteFlag(s.overwriteOutput)])
        + GlobalOptions(s, renderFilters) + OutputArguments(s.outputs)
  {
  }

  /** Where the overwrite flag sits: after the log level pair and every input. */
  function FlagIndex(s: Settings): nat {
    2 + |InputArguments(s.inputs)|
  }

  /** `x` inserted into `r` at index `k`. */
  function InsertAt(r: seq<string>, k: nat, x: seq<string>): seq<string>
    requires k <= |r|
  {
    r[..k] + x + r[k..]
  }

  /** Inserting right after `head` is putting `x` between `head` and the rest. */
  lemma InsertAfter(head: seq<string>, x: seq<string>, rest: seq<string>)
    ensures InsertAt(head + rest, |head|, x) == head + (x + rest)
  {
    assert (head + rest)[..|head|] == head && (head + rest)[|head|..] == rest;
  }

  /** The log level comes first, the inputs next, then the one overwrite flag; the
      outputs come last. */
  lemma ArgumentsLayout(s: Settings, renderFilters: map<Option<string>, string> -> seq<string>)
    ensures |Arguments(s, renderFilters)|
      == FlagIndex(s) + 1 + |GlobalOptions(s, renderFilters)| + |OutputArguments(s.outputs)|
    ensures Arguments(s, renderFilters)[..2] == ["-loglevel", LogLevelArgument(s.logLevel)]
    ensures Arguments(s, renderFilters)[2..FlagIndex(s)] == InputArguments(s.inputs)
    ensures Arguments(s, renderFilters)[FlagIndex(s)] == (if s.overwriteOutput then "-y" else "-n")
    ensures Arguments(s, renderFilters)[FlagIndex(s) + 1..FlagIndex(s) + 1 + |GlobalOptions(s, renderFilters)|]
      == GlobalOptions(s, renderFilters)
    ensures Arguments(s, renderFilters)[|Arguments(s, renderFilters)| - |OutputArguments(s.outputs)|..]
      == OutputArguments(s.outputs)
  {
    var r := Arguments(s, renderFilters);
    var n := FlagIndex(s);
    var g := GlobalOptions(s, renderFilters);
    var head := ["-loglevel", LogLevelArgument(s.logLevel)] + InputArguments(s.inputs);
    ArgumentsSections(s, renderFilters);
    assert r == head + [OverwriteFlag(s.overwriteOutput)] + g + OutputArguments(s.outputs);
    assert r[..2] == head[..2];
    assert r[2..n] == head[2..];
    assert r[n + 1..n + 1 + |g|] == g;
  }

  /** The level can be read back from the `-loglevel` value. */
  lemma LogLevelArgumentInjective(a: Option<LogLevel>, b: Option<LogLevel>)
    ensures LogLevelArgument(a) == LogLevelArgument(b) ==> a == b
  {
    if LogLevelArgument(a) == LogLevelArgument(b) {
      if a.Some? && b.Some? {
        var x := LogLevelArgument(a);
        assert x[6..] == LowerName(a.value);
        assert x[6..] == LowerName(b.value);
        LowerNameInjective(a.value, b.value);
      }
    }
  }

  /** A new builder's command line: level INFO and "-n", then the rendered (empty)
      filter map. */
  lemma InitialArguments(renderFilters: map<Option<string>, string> -> seq<string>)
    ensures Arguments(Initial(), renderFilters) == ["-loglevel", "level+info", "-n"] + renderFilters(map[])
  {
    assert LogLevelArgument(Some(INFO)) == "level+info";
    assert InputArguments([]) == [] && OutputArguments([]) == [];
    assert GlobalOptions(Initial(), renderFilters) == renderFilters(map[]);
  }

  /** Regrouping a command line around the end of the inputs. */
  lemma RegroupInputs(level: seq<string>, ins: seq<string>, x: seq<string>, flag: seq<string>, p: seq<string>,
                      c: seq<string>, f: seq<string>, a: seq<string>, o: seq<string>)
    ensures level + ins + flag + p + c + f + a + o == (level + ins) + (flag + p + c + f + a + o)
    ensures level + (ins + x) + flag + p + c + f + a + o == (level + ins) + (x + (flag + p + c + f + a + o))
  {
  }

  /** An added input's arguments go right before the overwrite flag, after those
      of every earlier input. */
  lemma AddInputArguments(s: Settings, input: Input, renderFilters: map<Option<string>, string> -> seq<string>)
    ensures FlagIndex(s) <= |Arguments(s, renderFilters)|
    ensures Arguments(s.(inputs := s.inputs + [input]), renderFilters)
      == InsertAt(Arguments(s, renderFilters), FlagIndex(s), input.arguments)
  {
    var level := ["-loglevel", LogLevelArgument(s.logLevel)];
    var ins := InputArguments(s.inputs);
    assert (s.inputs + [input])[..|s.inputs|] == s.inputs;
    assert InputArguments(s.inputs + [input]) == ins + input.arguments;
    var p := OptionPair("-progress", s.progress);
    var c := OptionPair("-filter_complex", s.complexFilter);
    var f := renderFilters(s.filters);
    var o := OutputArguments(s.outputs);
    var flag := [OverwriteFlag(s.overwriteOutput)];
    RegroupInputs(level, ins, input.arguments, flag, p, c, f, s.additionalArguments, o);
    InsertAfter(level + ins, input.arguments, flag + p + c + f + s.additionalArguments + o);
  }

  /** An added output's arguments go at the very end. */
  lemma AddOutputArguments(s: Settings, output: Output, renderFilters: map<Option<string>, string> -> seq<string>)
    ensures Arguments(s.(outputs := s.outputs + [output]), renderFilters)
      == Arguments(s, renderFilters) + output.arguments
  {
    assert (s.outputs + [output])[..|s.outputs|] == s.outputs;
  }

  /** An added argument goes right before the outputs, after every earlier one. */
  lemma AddArgumentArguments(s: Settings, argument: string, renderFilters: map<Option<string>, string> -> seq<string>)
    ensures |OutputArguments(s.outputs)| <= |Arguments(s, renderFilters)|
    ensures Arguments(s.(additionalArguments := s.additionalArguments + [argument]), renderFilters)
      == InsertAt(Arguments(s, renderFilters), |Arguments(s, renderFilters)| - |OutputArguments(s.outputs)|, [argument])
  {
    var head := ["-loglevel", LogLevelArgument(s.logLevel)] + InputArguments(s.inputs) + [OverwriteFlag(s.overwriteOutput)]
      + OptionPair("-progress", s.progress) + OptionPair("-filter_complex", s.complexFilter) + renderFilters(s.filters);
    var o := OutputArguments(s.outputs);
    assert head + (s.additionalArguments + [argument]) + o == (head + s.additionalArguments) + ([argument] + o);
    InsertAfter(head + s.additionalArguments, [argument], o);
  }

  /** Switching `overwriteOutput` changes the flag and nothing else. */
  lemma OverwriteOnlyFlag(s: Settings, overwriteOutput: bool, renderFilters: map<Option<string>, string> -> seq<string>)
    ensures FlagIndex(s) < |Arguments(s, renderFilters)|
    ensures Arguments(s.(overwriteOutput := overwriteOutput), renderFilters)
      == Arguments(s, renderFilters)[FlagIndex(s) := if overwriteOutput then "-y" else "-n"]
  {
    var t := s.(overwriteOutput := overwriteOutput);
    var pre := ["-loglevel", LogLevelArgument(s.logLevel)] + InputArguments(s.inputs);
    var rest := GlobalOptions(s, renderFilters) + OutputArguments(s.outputs);
    ArgumentsSections(s, renderFilters);
    ArgumentsSections(t, renderFilters);
    Regroup3(pre, [OverwriteFlag(s.overwriteOutput)], GlobalOptions(s, renderFilters), OutputArguments(s.outputs));
    Regroup3(pre, [OverwriteFlag(overwriteOutput)], GlobalOptions(s, renderFilters), OutputArguments(s.outputs));
    ReplaceAt(pre, OverwriteFlag(s.overwriteOutput), OverwriteFlag(overwriteOutput), rest);
  }

  lemma Regroup3(a: seq<string>, b: seq<string>, c: seq<string>, d: seq<string>)
    ensures a + b + c + d == a + b + (c + d)
  {
  }

  /** Replacing the element after `pre`. */
  lemma ReplaceAt(pre: seq<string>, x: string, y: string, rest: seq<string>)
    ensures |pre| < |pre + [x] + rest| && (pre + [x] + rest)[|pre| := y] == pre + [y] + rest
  {
  }

  /** Regrouping a command line around the options after the overwrite flag. */
  lemma Regroup(head: seq<string>, p: seq<string>, c: seq<string>, f: seq<string>, a: seq<string>, o: seq<string>)
    ensures head + p + c + f + a + o == head + (p + (c + f + a + o))
  {
  }

  /** The command line with and without a progress URL, split after the flag. */
  lemma ProgressSections(s: Settings, url: string, renderFilters: map<Option<string>, string> -> seq<string>)
    requires s.progress.None?
    ensures var head := ["-loglevel", LogLevelArgument(s.logLevel)] + InputArguments(s.inputs) + [OverwriteFlag(s.overwriteOutput)];
      var rest := OptionPair("-filter_complex", s.complexFilter) + renderFilters(s.filters) + s.additionalArguments
        + OutputArguments(s.outputs);
      Arguments(s, renderFilters) == head + rest
      && Arguments(s.(progress := Some(url)), renderFilters) == head + (["-progress", url] + rest)
  {
    var head := ["-loglevel", LogLevelArgument(s.logLevel)] + InputArguments(s.inputs) + [OverwriteFlag(s.overwriteOutput)];
    var c := OptionPair("-filter_complex", s.complexFilter);
    var f := renderFilters(s.filters);
    var rest := c + f + s.additionalArguments + OutputArguments(s.outputs);
    Regroup(head, [], c, f, s.additionalArguments, OutputArguments(s.outputs));
    Regroup(head, ["-progress", url], c, f, s.additionalArguments, OutputArguments(s.outputs));
    assert [] + rest == rest;
  }

  /** Setting a progress URL where there was none puts "-progress" and the URL
      right after the overwrite flag. */
  lemma SetProgressArguments(s: Settings, url: string, renderFilters: map<Option<string>, string> -> seq<string>)
    requires s.progress.None?
    ensures FlagIndex(s) < |Arguments(s, renderFilters)|
    ensures Arguments(s.(progress := Some(url)), renderFilters)
      == InsertAt(Arguments(s, renderFilters), FlagIndex(s) + 1, ["-progress", url])
  {
    ProgressSections(s, url, renderFilters);
    var head := ["-loglevel", LogLevelArgument(s.logLevel)] + InputArguments(s.inputs) + [OverwriteFlag(s.overwriteOutput)];
    var rest := OptionPair("-filter_complex", s.complexFilter) + renderFilters(s.filters) + s.additionalArguments
      + OutputArguments(s.outputs);
    InsertAfter(head, ["-progress", url], rest);
  }

  /** Setting a complex filter where there was none puts "-filter_complex" and its
      value right after the progress pair, if any. */
  lemma SetComplexFilterArguments(s: Settings, filter: string, renderFilters: map<Option<string>, string> -> seq<string>)
    requires s.complexFilter.None?
    ensures FlagIndex(s) + 1 + |OptionPair("-progress", s.progress)| <= |Arguments(s, renderFilters)|
    ensures Arguments(s.(complexFilter := Some(filter)), renderFilters)
      == InsertAt(Arguments(s, renderFilters), FlagIndex(s) + 1 + |OptionPair("-progress", s.progress)|,
                  ["-filter_complex", filter])
  {
    var head := ["-loglevel", LogLevelArgument(s.logLevel)] + InputArguments(s.inputs) + [OverwriteFlag(s.overwriteOutput)]
      + OptionPair("-progress", s.progress);
    var f := renderFilters(s.filters);
    var o := OutputArguments(s.outputs);
    var rest := f + s.additionalArguments + o;
    assert head + [] + f + s.additionalArguments + o == head + rest;
    assert head + ["-filter_complex", filter] + f + s.additionalArguments + o == head + (["-filter_complex", filter] + rest);
    InsertAfter(head, ["-filter_complex", filter], rest);
  }

  /** `setFilter` with a stream specifier keeps one filter per specifier: the last
      one set. */
  function SetFilter(s: Settings, streamSpecifier: Option<string>, filter: string): Settings {
    s.(filters := s.filters[streamSpecifier := filter])
  }

  /** Setting the filter of a specifier twice leaves the second; setting those of two
      different specifiers, in either order, leaves both. */
  lemma SetFilterReplaces(s: Settings, spec: Option<string>, other: Option<string>, f: string, g: string)
    ensures SetFilter(SetFilter(s, spec, f), spec, g) == SetFilter(s, spec, g)
    ensures spec != other ==> SetFilter(SetFilter(s, spec, f), other, g) == SetFilter(SetFilter(s, other, g), spec, f)
  {
    assert SetFilter(SetFilter(s, spec, f), spec, g).filters == SetFilter(s, spec, g).filters;
    if spec != other {
      assert SetFilter(SetFilter(s, spec, f), other, g).filters == SetFilter(SetFilter(s, other, g), spec, f).filters;
    }
  }

  /** After `setFilter`, the specifier has the new filter and every other one keeps
      its own; nothing but the filters changes. */
  lemma SetFilterLookup(s: Settings, spec: Option<string>, f: string)
    ensures SetFilter(s, spec, f).filters.Keys == s.filters.Keys + {spec}
    ensures SetFilter(s, spec, f).filters[spec] == f
    ensures forall k :: k in s.filters && k != spec ==> SetFilter(s, spec, f).filters[k] == s.filters[k]
    ensures SetFilter(s, spec, f).(filters := s.filters) == s
  {
  }

  /** `atPath(dir)`: the `ffmpeg` executable inside `dir`, or the bare name found on
      the search path when no directory is given. */
  function ExecutablePath(pathToDir: Option<string>): (path: string)
    ensures pathToDir.None? ==> path == "ffmpeg"
    ensures pathToDir.Some? ==> StartsWith(path, pathToDir.value) && EndsWith(path, "/ffmpeg")
  {
    if pathToDir.None? then "ffmpeg"
    else
      var path := pathToDir.value + "/ffmpeg";
      assert path[..|pathToDir.value|] == pathToDir.value;
      assert path[|path| - 7..] == "/ffmpeg";
      path
  }

  class FFmpeg {
    const executable: string
    /** `BaseInOut.toArguments("-filter", ·)`. */
    const renderFilters: map<Option<string>, string> -> seq<string>
    var inputs: seq<Input>
    var outputs: seq<Output>
    var additionalArguments: seq<string>
    var overwriteOutput: bool
    var progress: Option<string>
    var complexFilter: Option<string>
    var filters: map<Option<string>, string>
    var logLevel: Option<LogLevel>
    var contextName: Option<string>

    function Current(): Settings
      reads this
    {
      Settings(inputs, outputs, additionalArguments, overwriteOutput, progress, complexFilter, filters, logLevel, contextName)
    }

    constructor (executable: string, renderFilters: map<Option<string>, string> -> seq<string>)
      ensures this.executable == executable && this.renderFilters == renderFilters
      ensures Current() == Initial()
    {
      this.executable := executable;
      this.renderFilters := renderFilters;
      inputs := [];
      outputs := [];
      additionalArguments := [];
      overwriteOutput := false;
      progress := None;
      complexFilter := None;
      filters := map[];
      logLevel := Some(INFO);
      contextName := None;
    }

    /** `atPath(pathToDir)`; `atPath()` is `atPath(None)`. */
    static method AtPath(pathToDir: Option<string>, renderFilters: map<Option<string>, string> -> seq<string>)
      returns (ffmpeg: FFmpeg)
      ensures fresh(ffmpeg) && ffmpeg.executable == ExecutablePath(pathToDir)
      ensures ffmpeg.Current() == Initial() && ffmpeg.renderFilters == renderFilters
    {
      var executable := if pathToDir.Some? then pathToDir.value + "/ffmpeg" else "ffmpeg";
      ffmpeg := new FFmpeg(executable, renderFilters);
    }

    method AddInput(input: Input)
      modifies this
      ensures Current() == old(Current()).(inputs := old(inputs) + [input])
    {
      inputs := inputs + [input];
    }

    method AddOutput(output: Output)
      modifies this
      ensures Current() == old(Current()).(outputs := old(outputs) + [output])
    {
      outputs := outputs + [output];
    }

    method AddArgument(argument: string)
      modifies this
      ensures Current() == old(Current()).(additionalArguments := old(additionalArguments) + [argument])
    {
      additionalArguments := additionalArguments + [argument];
    }

    /** `addArguments(key, value)`: the key, then the value. */
    method AddArguments(key: string, value: string)
      modifies this
      ensures Current() == old(Current()).(additionalArguments := old(additionalArguments) + [key, value])
    {
      additionalArguments := additionalArguments + [key, value];
    }

    /** `setComplexFilter`; null (None) clears the complex filter. */
    method SetComplexFilter(complexFilter: Option<string>)
      modifies this
      ensures Current() == old(Current()).(complexFilter := complexFilter)
    {
      this.complexFilter := complexFilter;
    }

    /** `setFilter(streamSpecifier, filter)`; `setFilter(filter)` passes `None`. */
    method SetFilterFor(streamSpecifier: Option<string>, filter: string)
      modifies this
      ensures Current() == SetFilter(old(Current()), streamSpecifier, filter)
    {
      filters := filters[streamSpecifier := filter];
    }

    method SetOverwriteOutput(overwriteOutput: bool)
      modifies this
      ensures Current() == old(Current()).(overwriteOutput := overwriteOutput)
    {
      this.overwriteOutput := overwriteOutput;
    }

    /** `setProgress`: the URL progress is reported to, or none. */
    method SetProgress(progress: Option<string>)
      modifies this
      ensures Current() == old(Current()).(progress := progress)
    {
      this.progress := progress;
    }

    method SetLogLevel(logLevel: Option<LogLevel>)
      modifies this
      ensures Current() == old(Current()).(logLevel := logLevel)
    {
      this.logLevel := logLevel;
    }

    method SetContextName(contextName: Option<string>)
      modifies this
      ensures Current() == old(Current()).(contextName := contextName)
    {
      this.contextName := contextName;
    }

    /** The part of `buildArguments` between the inputs and the outputs: the
        overwrite flag, then the global options. */
    method AppendGlobalOptions(front: seq<string>) returns (result: seq<string>)
      ensures result == front + [OverwriteFlag(overwriteOutput)] + OptionPair("-progress", progress)
        + OptionPair("-filter_complex", complexFilter) + renderFilters(filters) + additionalArguments
    {
      result := front;
      if overwriteOutput {
        result := result + ["-y"];
      } else {
        result := result + ["-n"];
      }
      // `if (progress != null)` and `if (complexFilter != null)`: the pair, when set.
      result := result + OptionPair("-progress", progress);
      result := result + OptionPair("-filter_complex", complexFilter);
      result := result + renderFilters(filters);
      result := result + additionalArguments;
    }

    /** The part of `buildArguments` that adds every input's arguments, in order. */
    method AppendInputArguments(front: seq<string>) returns (result: seq<string>)
      ensures result == front + InputArguments(inputs)
    {
      result := front;
      var i := 0;
      while i < |inputs|
        invariant 0 <= i <= |inputs|
        invariant result == front + InputArguments(inputs[..i])
      {
        assert inputs[..i + 1][..i] == inputs[..i];
        result := result + inputs[i].arguments;
        i := i + 1;
      }
      assert inputs[..|inputs|] == inputs;
    }

    /** The part of `buildArguments` that adds every output's arguments, in order. */
    method AppendOutputArguments(front: seq<string>) returns (result: seq<string>)
      ensures result == front + OutputArguments(outputs)
    {
      result := front;
      var j := 0;
      while j < |outputs|
        invariant 0 <= j <= |outputs|
        invariant result == front + OutputArguments(outputs[..j])
      {
        assert outputs[..j + 1][..j] == outputs[..j];
        result := result + outputs[j].arguments;
        j := j + 1;
      }
      assert outputs[..|outputs|] == outputs;
    }

    /** `buildArguments`. */
    method BuildArguments() returns (result: seq<string>)
      ensures result == Arguments(Current(), renderFilters)
    {
      var logLevelArgument := "level";
      if logLevel.Some? {
        logLevelArgument := logLevelArgument + "+" + LowerName(logLevel.value);
        assert "level" + "+" == "level+";
      }
      result := AppendInputArguments(["-loglevel", logLevelArgument]);
      result := AppendGlobalOptions(result);
      result := AppendOutputArguments(result);
    }
  }
}
