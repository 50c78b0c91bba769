/** `ParseUtil`: reading a log level out of any bracket pair of a line, a size in
    kibibytes, and ffmpeg's final size summary line. Only the behaviour the
    utility's tests pin down is modelled, by the plainest definition that has it. */
module ParseUtil {
  import opened Wrappers
  import opened Text
  import opened LogLevels
  import opened ParseLogMessage

  /** `parseLogLevel`: the level named by the first bracket pair, in order, whose
      text is a level name; no limit on how many pairs or how far into the line.
      A `[` with no `]` after it ends the search with no level. */
  function LevelFrom(line: string, from: nat): Option<LogLevel>
    decreases |line| - from
  {
    var o := IndexOf(line, '[', from);
    if o < 0 then None
    else
      var c := IndexOf(line, ']', o);
      if c < 0 then None
      else if LevelNamed(line[o + 1..c]).Some? then LevelNamed(line[o + 1..c])
      else LevelFrom(line, c)
  }

  function ParseLogLevel(line: string): Option<LogLevel> {
    LevelFrom(line, 0)
  }

  /** Whenever the bounded search of `parseLogMessage` finds a level, the unbounded
      search finds the same one: the bounds only ever lose levels, never change them. */
  lemma {:induction false} BoundedSearchAgrees(line: string, from: nat, left: nat)
    requires FindFrom(line, from, left).Some?
    ensures LevelFrom(line, from) == Some(FindFrom(line, from, left).value.0)
    decreases left
  {
    var (o, c) := BracketPair(line, from).value;
    if LevelAt(line, o, c).None? {
      if LevelNamed(line[o + 1..c]).Some? {
        LevelNameKeys(line[o + 1..c]);
      }
      BoundedSearchAgrees(line, c, left - 1);
    }
  }

  /** Searching behind a prefix is searching without it, shifted by its length. */
  lemma IndexOfShift(p: string, s: string, c: char, from: nat)
    ensures IndexOf(p + s, c, |p| + from) == if IndexOf(s, c, from) < 0 then -1 else |p| + IndexOf(s, c, from)
  {
    var r := IndexOf(s, c, from);
    IndexOfFirst(s, c, from);
    forall i | |p| + from <= i < |p + s| ensures (p + s)[i] == s[i - |p|] { }
    IndexOfIs(p + s, c, |p| + from, if r < 0 then -1 else |p| + r);
  }

  /** A slice behind a prefix is the slice without it, shifted by its length. */
  lemma SliceShift(p: string, s: string, o: nat, c: nat, to: nat, tc: nat)
    requires o < c <= |s| && to == |p| + o && tc == |p| + c
    ensures (p + s)[to + 1..tc] == s[o + 1..c]
  {
  }

  /** The search stops with no level when no `[` is left. */
  lemma LevelFromNoOpen(line: string, from: nat)
    requires IndexOf(line, '[', from) < 0
    ensures LevelFrom(line, from) == None
  {
  }

  /** One step of the search: the pair at `o` and `c`, whose contents are `text`,
      decides, or the search goes on from `c`. */
  lemma LevelFromStep(line: string, from: nat, o: nat, c: nat, text: string)
    requires o == IndexOf(line, '[', from) && c == IndexOf(line, ']', o)
    requires o < c <= |line| && text == line[o + 1..c]
    ensures LevelFrom(line, from) == if LevelNamed(text).Some? then LevelNamed(text) else LevelFrom(line, c)
  {
  }

  /** Behind a prefix, a search that finds no `[` or no `]` after it finds no level. */
  lemma ShiftUnpaired(p: string, s: string, from: nat)
    requires IndexOf(s, '[', from) < 0 || IndexOf(s, ']', IndexOf(s, '[', from)) < 0
    ensures LevelFrom(p + s, |p| + from) == None && LevelFrom(s, from) == None
  {
    IndexOfShift(p, s, '[', from);
    var o := IndexOf(s, '[', from);
    if o >= 0 {
      IndexOfShift(p, s, ']', o);
    }
  }

  /** Behind a prefix, the first pair is the same pair, shifted, with the same contents. */
  lemma ShiftPair(p: string, s: string, from: nat, o: nat, c: nat)
    requires o == IndexOf(s, '[', from) && c == IndexOf(s, ']', o)
    ensures from <= o < c <= |s|
    ensures |p| + o == IndexOf(p + s, '[', |p| + from) && |p| + c == IndexOf(p + s, ']', |p| + o)
    ensures (p + s)[|p| + o + 1..|p| + c] == s[o + 1..c]
  {
    IndexOfShift(p, s, '[', from);
    IndexOfShift(p, s, ']', o);
    SliceShift(p, s, o, c, |p| + o, |p| + c);
  }

  /** Behind a prefix, the first pair decides alike, or both searches go on from
      its `]`. */
  lemma ShiftDecides(p: string, s: string, from: nat, o: nat, c: nat)
    requires o == IndexOf(s, '[', from) && c == IndexOf(s, ']', o)
    ensures from <= o < c <= |s|
    ensures LevelFrom(s, from) == if LevelNamed(s[o + 1..c]).Some? then LevelNamed(s[o + 1..c]) else LevelFrom(s, c)
    ensures LevelFrom(p + s, |p| + from) == if LevelNamed(s[o + 1..c]).Some? then LevelNamed(s[o + 1..c]) else LevelFrom(p + s, |p| + c)
  {
    ShiftPair(p, s, from, o, c);
    var text := s[o + 1..c];
    LevelFromStep(s, from, o, c, text);
    LevelFromStep(p + s, |p| + from, |p| + o, |p| + c, text);
  }

  /** The search for the next pair, as seen behind a prefix. */
  lemma {:induction false} LevelFromShift(p: string, s: string, from: nat)
    ensures LevelFrom(p + s, |p| + from) == LevelFrom(s, from)
    decreases |s| - from
  {
    var o := IndexOf(s, '[', from);
    if o < 0 || IndexOf(s, ']', o) < 0 {
      ShiftUnpaired(p, s, from);
    } else {
      var c := IndexOf(s, ']', o);
      ShiftDecides(p, s, from, o, c);
      if LevelNamed(s[o + 1..c]).None? {
        LevelFromShift(p, s, c);
      }
    }
  }

  /** Text with no `[` in it is passed over. */
  lemma LevelFromPast(line: string, from: nat, to: nat)
    requires from <= to <= |line|
    requires forall i :: from <= i < to ==> line[i] != '['
    ensures LevelFrom(line, from) == LevelFrom(line, to)
  {
    var r := IndexOf(line, '[', to);
    IndexOfFirst(line, '[', to);
    IndexOfIs(line, '[', from, r);
  }

  /** A leading text with no `[` does not change the level found. */
  lemma PlainText(p: string, rest: string)
    requires '[' !in p
    ensures ParseLogLevel(p + rest) == ParseLogLevel(rest)
  {
    forall i | 0 <= i < |p| ensures (p + rest)[i] != '[' {
      assert (p + rest)[i] == p[i];
    }
    LevelFromPast(p + rest, 0, |p|);
    LevelFromShift(p, rest, 0);
  }

  /** A leading tag `[a]` whose text names no level is passed over. */
  lemma OtherTag(a: string, rest: string)
    requires ']' !in a && LevelNamed(a).None?
    ensures ParseLogLevel(Tag(a) + rest) == ParseLogLevel(rest)
  {
    var line := Tag(a) + rest;
    assert line == [] + Tag(a) + rest;
    PairAfter(line, 0, [], a, rest);
    LevelFromStep(line, 0, 0, |a| + 1, a);
    assert line[|a| + 1] == ']';
    LevelFromPast(line, |a| + 1, |a| + 2);
    LevelFromShift(Tag(a), rest, 0);
  }

  /** A leading tag `[a]` whose text names a level gives that level. */
  lemma LevelTag(a: string, rest: string)
    requires LevelNamed(a).Some?
    ensures ParseLogLevel(Tag(a) + rest) == LevelNamed(a)
  {
    LevelNameKeys(a);
    var line := Tag(a) + rest;
    assert line == [] + Tag(a) + rest;
    PairAfter(line, 0, [], a, rest);
    LevelFromStep(line, 0, 0, |a| + 1, a);
  }

  /** A `[` with no `]` after it gives no level. */
  lemma Unclosed(t: string)
    requires ']' !in t
    ensures ParseLogLevel("[" + t) == None
  {
    var line := "[" + t;
    forall i | 0 < i < |line| ensures line[i] != ']' {
      assert line[i] == t[i - 1];
    }
  }

  /** Every level's lower-cased name in brackets gives that level. */
  lemma LevelNameTag(level: LogLevel)
    ensures ParseLogLevel(Tag(LowerName(level))) == Some(level)
  {
    var name := LowerName(level);
    LevelNamedLower(level);
    assert Tag(name) == Tag(name) + [];
    LevelTag(name, []);
  }

  /** Without its closing bracket no level name is found. */
  lemma LevelNameUnclosed(level: LogLevel)
    ensures ParseLogLevel("[" + LowerName(level)) == None
  {
    assert ']' !in LowerName(level);
    Unclosed(LowerName(level));
  }

  /** A level tag after tags that name no level is still found, however many of them
      there are: the three-tag line gives ERROR. */
  lemma ThirdTagFound()
    ensures ParseLogLevel(Tag("loudnorm @ 0x55c3e47a6e40") + (" " + (Tag("Eval @ 0x7ffc5e716b40") + (" "
      + (Tag("error") + " Undefined constant"))))) == Some(ERROR)
  {
    var a, b, rest := "loudnorm @ 0x55c3e47a6e40", "Eval @ 0x7ffc5e716b40", " Undefined constant";
    assert ']' !in a && ']' !in b && LevelNamed(a).None? && LevelNamed(b).None?;
    assert LevelNamed("error") == Some(ERROR);
    LevelTag("error", rest);
    PlainText(" ", Tag("error") + rest);
    OtherTag(b, " " + (Tag("error") + rest));
    PlainText(" ", Tag(b) + (" " + (Tag("error") + rest)));
    OtherTag(a, " " + (Tag(b) + (" " + (Tag("error") + rest))));
  }

  /** Tags that name no level, the last one unclosed, give no level. */
  lemma TruncatedTagNotFound()
    ensures ParseLogLevel(Tag("mov,mp4,m4a,3gp,3g2,mj2 @ 0x56288d084700") + (" " + ("[" + "inf"))) == None
  {
    var a := "mov,mp4,m4a,3gp,3g2,mj2 @ 0x56288d084700";
    assert ']' !in a && LevelNamed(a).None?;
    Unclosed("inf");
    PlainText(" ", "[" + "inf");
    OtherTag(a, " " + ("[" + "inf"));
  }

  /** `parseSizeInKibiBytes`: a decimal count followed by `KiB` or `kB`; any other
      suffix gives None. */
  function ParseSizeInKibiBytes(s: string): Option<nat> {
    if EndsWith(s, "KiB") then ParseNat(s[..|s| - 3])
    else if EndsWith(s, "kB") then ParseNat(s[..|s| - 2])
    else None
  }

  /** A text ends in what was appended to it, after what it was appended to. */
  lemma Appended(d: string, suffix: string)
    ensures EndsWith(d + suffix, suffix) && (d + suffix)[..|d|] == d
  {
    assert (d + suffix)[|d|..] == suffix;
  }

  /** A text does not end in `suffix` when the `k`-th characters from the end differ. */
  lemma NotEndingIn(s: string, suffix: string, k: nat)
    requires 1 <= k <= |suffix|
    requires |suffix| <= |s| ==> s[|s| - k] != suffix[|suffix| - k]
    ensures !EndsWith(s, suffix)
  {
    if |suffix| <= |s| {
      assert s[|s| - |suffix|..][|suffix| - k] == s[|s| - k];
    }
  }

  /** Both suffixes read back the count they follow; `KB` is not a suffix. */
  lemma KibiSuffixes(n: nat)
    ensures ParseSizeInKibiBytes(NatToString(n) + "kB") == Some(n)
    ensures ParseSizeInKibiBytes(NatToString(n) + "KiB") == Some(n)
    ensures ParseSizeInKibiBytes(NatToString(n) + "KB") == None
  {
    var d := NatToString(n);
    ParseNatToString(n);
    Appended(d, "kB");
    Appended(d, "KiB");
    var s1, s3 := d + "kB", d + "KB";
    assert s1[|s1| - 2] == 'k' && s3[|s3| - 2] == 'K';
    NotEndingIn(s1, "KiB", 2);
    NotEndingIn(s3, "KiB", 2);
    NotEndingIn(s3, "kB", 2);
  }

  /** A size token is the count followed by a suffix and nothing else. */
  lemma KibiNeedsDigits(s: string)
    requires ParseSizeInKibiBytes(s).Some?
    ensures EndsWith(s, "KiB") || EndsWith(s, "kB")
    ensures |s| >= 3
  {
  }

  /** `FFmpegResult` without its muxing-overhead ratio: the sizes in bytes, each of
      which may be missing (null). */
  datatype FFmpegResult = FFmpegResult(
    videoSize: Option<nat>, audioSize: Option<nat>, subtitleSize: Option<nat>,
    otherStreamsSize: Option<nat>, globalHeadersSize: Option<nat>)

  /** The sizes of a parsed summary, given in kibibytes, as bytes. */
  function Sizes(video: nat, audio: nat, subtitle: nat, other: nat, headers: nat): FFmpegResult {
    FFmpegResult(Some(video * 1024), Some(audio * 1024), Some(subtitle * 1024), Some(other * 1024),
                 Some(headers * 1024))
  }

  /** The labels of ffmpeg's size summary, in the order it prints them. */
  const ResultLabels: seq<string> :=
    ["video:", " audio:", " subtitle:", " other streams:", " global headers:", " muxing overhead:"]

  /** The text after each label up to the next space, for every label but the last;
      after the last label (the ratio) anything may follow. */
  function Fields(line: string, labels: seq<string>): (r: Option<seq<string>>)
    requires |labels| >= 1
    ensures r.Some? ==> |r.value| == |labels| - 1
    decreases |labels|
  {
    if !StartsWith(line, labels[0]) then None
    else if |labels| == 1 then Some([])
    else
      var after := line[|labels[0]|..];
      var sp := IndexOf(after, ' ', 0);
      if sp < 0 then None
      else
        match Fields(after[sp..], labels[1..])
        case None => None
        case Some(fs) => Some([after[..sp]] + fs)
  }

  /** `parseResult`: the five sizes of a summary line, each read in kibibytes and
      given in bytes; None when the line is not a summary. */
  function ParseResult(line: string): Option<FFmpegResult> {
    match Fields(line, ResultLabels)
    case None => None
    case Some(fs) =>
      match (ParseSizeInKibiBytes(fs[0]), ParseSizeInKibiBytes(fs[1]), ParseSizeInKibiBytes(fs[2]),
             ParseSizeInKibiBytes(fs[3]), ParseSizeInKibiBytes(fs[4]))
      case (Some(video), Some(audio), Some(subtitle), Some(other), Some(headers)) =>
        Some(Sizes(video, audio, subtitle, other, headers))
      case _ => None
  }

  /** Labels each followed by its value, the last label by the rest of the line. */
  function Labelled(labels: seq<string>, values: seq<string>, last: string): string
    requires |labels| == |values| + 1
    decreases |values|
  {
    if values == [] then labels[0] + last
    else labels[0] + values[0] + Labelled(labels[1..], values[1..], last)
  }

  /** The summary line ffmpeg prints for the given sizes in kibibytes. */
  function SummaryLine(video: nat, audio: nat, subtitle: nat, other: nat, headers: nat, overhead: string): string {
    Labelled(ResultLabels, [Kilobytes(video), Kilobytes(audio), Kilobytes(subtitle), Kilobytes(other), Kilobytes(headers)],
      overhead)
  }

  /** A size as ffmpeg prints it in the summary. */
  function Kilobytes(n: nat): string {
    NatToString(n) + "kB"
  }

  /** One labelled field: `key + value + rest`, the value holding no space and the
      rest starting with a space. */
  lemma FieldStep(key: string, value: string, rest: string, keys: seq<string>)
    requires |keys| >= 2 && keys[0] == key && ' ' !in value && |rest| >= 1 && rest[0] == ' '
    ensures Fields(key + value + rest, keys)
      == match Fields(rest, keys[1..]) case None => None case Some(fs) => Some([value] + fs)
  {
    var line := key + value + rest;
    assert line[..|key|] == key;
    var after := line[|key|..];
    assert after == value + rest;
    assert after[|value|] == ' ';
    forall i | 0 <= i < |value| ensures after[i] != ' ' {
      assert after[i] == value[i];
    }
    IndexOfIs(after, ' ', 0, |value|);
    assert after[..|value|] == value && after[|value|..] == rest;
  }

  /** Reading the fields back out of labelled values gives the values, whenever no
      value holds a space and every label after the first starts with one. */
  lemma {:induction false} FieldsOfLabelled(labels: seq<string>, values: seq<string>, last: string)
    requires |labels| == |values| + 1
    requires forall i :: 1 <= i < |labels| ==> |labels[i]| >= 1 && labels[i][0] == ' '
    requires forall i :: 0 <= i < |values| ==> ' ' !in values[i]
    ensures Fields(Labelled(labels, values, last), labels) == Some(values)
    decreases |values|
  {
    if values == [] {
      var line := labels[0] + last;
      assert line[..|labels[0]|] == labels[0];
    } else {
      var rest := Labelled(labels[1..], values[1..], last);
      assert labels[1..][0] == labels[1];
      assert rest[0] == labels[1][0];
      FieldStep(labels[0], values[0], rest, labels);
      FieldsOfLabelled(labels[1..], values[1..], last);
      assert [values[0]] + values[1..] == values;
    }
  }

  /** Reading back a printed summary gives the sizes times 1024, whatever the ratio text. */
  lemma ParseSummaryLine(video: nat, audio: nat, subtitle: nat, other: nat, headers: nat, overhead: string)
    ensures ParseResult(SummaryLine(video, audio, subtitle, other, headers, overhead))
      == Some(FFmpegResult(Some(video * 1024), Some(audio * 1024), Some(subtitle * 1024), Some(other * 1024),
                           Some(headers * 1024)))
  {
    var line := SummaryLine(video, audio, subtitle, other, headers, overhead);
    SummaryFields(video, audio, subtitle, other, headers, overhead);
    KibiSuffixes(video); KibiSuffixes(audio); KibiSuffixes(subtitle); KibiSuffixes(other); KibiSuffixes(headers);
    ResultOfFields(line, [Kilobytes(video), Kilobytes(audio), Kilobytes(subtitle), Kilobytes(other), Kilobytes(headers)],
      video, audio, subtitle, other, headers);
  }

  /** The fields of a printed summary are the printed sizes. */
  lemma SummaryFields(video: nat, audio: nat, subtitle: nat, other: nat, headers: nat, overhead: string)
    ensures Fields(SummaryLine(video, audio, subtitle, other, headers, overhead), ResultLabels)
      == Some([Kilobytes(video), Kilobytes(audio), Kilobytes(subtitle), Kilobytes(other), Kilobytes(headers)])
  {
    var sizes := [video, audio, subtitle, other, headers];
    var values := [Kilobytes(video), Kilobytes(audio), Kilobytes(subtitle), Kilobytes(other), Kilobytes(headers)];
    forall i | 0 <= i < |values| ensures ' ' !in values[i] {
      assert values[i] == Kilobytes(sizes[i]);
      NoSpace(sizes[i]);
    }
    LabelsSpaced();
    FieldsOfLabelled(ResultLabels, values, overhead);
  }

  /** The result read from a summary whose five fields read as the given sizes. */
  lemma ResultOfFields(line: string, fs: seq<string>, video: nat, audio: nat, subtitle: nat, other: nat, headers: nat)
    requires Fields(line, ResultLabels) == Some(fs) && |fs| == 5
    requires ParseSizeInKibiBytes(fs[0]) == Some(video) && ParseSizeInKibiBytes(fs[1]) == Some(audio)
    requires ParseSizeInKibiBytes(fs[2]) == Some(subtitle) && ParseSizeInKibiBytes(fs[3]) == Some(other)
    requires ParseSizeInKibiBytes(fs[4]) == Some(headers)
    ensures ParseResult(line)
      == Some(FFmpegResult(Some(video * 1024), Some(audio * 1024), Some(subtitle * 1024), Some(other * 1024),
                           Some(headers * 1024)))
  {
  }

  /** Every summary label after the first starts with a space. */
  lemma LabelsSpaced()
    ensures |ResultLabels| == 6
    ensures forall i :: 1 <= i < |ResultLabels| ==> |ResultLabels[i]| >= 1 && ResultLabels[i][0] == ' '
  {
  }

  /** A printed size token holds no space. */
  lemma NoSpace(n: nat)
    ensures ' ' !in Kilobytes(n)
  {
    var t := Kilobytes(n);
    forall i | 0 <= i < |t| ensures t[i] != ' ' {
      if i < |NatToString(n)| {
        assert t[i] == NatToString(n)[i];
      }
    }
  }

  /** The summary of the parse test: 1417kB of video and 113kB of audio. */
  lemma SummaryTest()
    ensures ParseResult(SummaryLine(1417, 113, 0, 0, 0, " unknown"))
      == Some(FFmpegResult(Some(1_451_008), Some(115_712), Some(0), Some(0), Some(0)))
  {
    ParseSummaryLine(1417, 113, 0, 0, 0, " unknown");
  }

  /** The summary of the zero-result test: every size zero. */
  lemma ZeroSummaryTest()
    ensures ParseResult(SummaryLine(0, 0, 0, 0, 0, " 0.000000%")) == Some(FFmpegResult(Some(0), Some(0), Some(0), Some(0), Some(0)))
  {
    ParseSummaryLine(0, 0, 0, 0, 0, " 0.000000%");
  }

  /** A line that does not start with the video label is not a summary. */
  lemma NotASummary(line: string)
    requires |line| == 0 || line[0] != 'v'
    ensures ParseResult(line) == None
  {
    if |line| >= 6 {
      assert line[..6][0] == line[0];
    }
  }

  /** The line of the no-result test is not a summary (written in two pieces so that
      its first character is at hand). */
  lemma RandomLineNotASummary()
    ensures ParseResult("This" + "= 5Random String : doesn't contain progre==55 info") == None
  {
    var line := "This" + "= 5Random String : doesn't contain progre==55 info";
    assert line[0] == 'T';
    NotASummary(line);
  }
}
