/** `parseLogMessage`: ffmpeg prefixes each log line with bracketed tags, such as
    `[libx264 @ 0x56...] [info] text`. The level tag is looked for among the first
    two bracket pairs only, both of whose brackets must lie at index 50 or before,
    and a pair is looked up only when its brackets are at most 8 apart. The message
    is the line with the level tag cut out. */
module ParseLogMessage {
  import opened Wrappers
  import opened Text
  import opened LogLevels

  const MaxBracketPairsChecked: nat := 2
  const MaxBracketsDistance: nat := 8
  const BracketIndexLimit: nat := 50

  /** `logLevels`: each level's lower-case name, and the empty tag for TRACE. */
  const LevelTable: map<string, LogLevel> := map[
    "info" := INFO, "verbose" := VERBOSE, "debug" := DEBUG, "warning" := WARNING,
    "error" := ERROR, "trace" := TRACE, "" := TRACE, "quiet" := QUIET,
    "panic" := PANIC, "fatal" := FATAL]

  /** `logLevels[text]`: exact and case-sensitive, None for any other text. */
  function LevelNamed(text: string): Option<LogLevel> {
    if text in LevelTable then Some(LevelTable[text]) else None
  }

  /** Each level's lower-case name finds that level; the empty tag finds TRACE. */
  lemma LevelNamedLower(level: LogLevel)
    ensures LevelNamed(LowerName(level)) == Some(level)
    ensures LevelNamed("") == Some(TRACE)
  {
  }

  /** The table holds exactly the lower-case level names and the empty tag. */
  lemma LevelNameTable(text: string)
    ensures LevelNamed(text).Some? <==> text == "" || exists l :: LowerName(l) == text
  {
    if LevelNamed(text).Some? && text != "" {
      assert LowerName(LevelTable[text]) == text;
    }
    if exists l :: LowerName(l) == text {
      var l :| LowerName(l) == text;
      LevelNamedLower(l);
    }
    LevelNamedLower(TRACE);
  }

  /** The next bracket pair at or after `from`: the first `[`, then the first `]` after
      it, both at index `BracketIndexLimit` or before. */
  function BracketPair(line: string, from: nat): Option<(nat, nat)> {
    var o := IndexOf(line, '[', from);
    if o < 0 || o > BracketIndexLimit then None
    else
      var c := IndexOf(line, ']', o);
      if c < 0 || c > BracketIndexLimit then None else Some((o, c))
  }

  /** The level a pair's text names, when the pair is short enough to be looked up. */
  function LevelAt(line: string, o: nat, c: nat): Option<LogLevel>
    requires o < c <= |line|
  {
    if c - o <= MaxBracketsDistance then LevelNamed(line[o + 1..c]) else None
  }

  /** The level found among at most `left` bracket pairs from `from` on, with the
      indices of its brackets; each pair's search starts at the previous `]`. */
  function FindFrom(line: string, from: nat, left: nat): Option<(LogLevel, nat, nat)>
    decreases left
  {
    if left == 0 then None
    else
      match BracketPair(line, from)
      case None => None
      case Some((o, c)) =>
        if LevelAt(line, o, c).Some? then Some((LevelAt(line, o, c).value, o, c))
        else FindFrom(line, c, left - 1)
  }

  function LogLevelIn(line: string): Option<(LogLevel, nat, nat)> {
    FindFrom(line, 0, MaxBracketPairsChecked)
  }

  /** One round of the search: no usable bracket pair ends it; a pair naming a
      level is the answer; any other pair passes the search on to its `]`. */
  lemma FindFromStep(line: string, from: nat, left: nat, o: int, c: int)
    requires left > 0 && o == IndexOf(line, '[', from)
    requires 0 <= o <= BracketIndexLimit ==> c == IndexOf(line, ']', o)
    ensures o < 0 || o > BracketIndexLimit || c < 0 || c > BracketIndexLimit ==> FindFrom(line, from, left) == None
    ensures 0 <= o <= BracketIndexLimit && 0 <= c <= BracketIndexLimit ==>
      o < c <= |line|
      && FindFrom(line, from, left)
         == if LevelAt(line, o, c).Some? then Some((LevelAt(line, o, c).value, o as nat, c as nat))
            else FindFrom(line, c, left - 1)
  {
  }

  /** `findLogLevel`: the loop over at most two bracket pairs. */
  method FindLogLevel(line: string) returns (r: Option<(LogLevel, nat, nat)>)
    ensures r == LogLevelIn(line)
  {
    var bracketPairsChecked: nat := 0;
    var lastClosingBracketIndex: nat := 0;
    while bracketPairsChecked < MaxBracketPairsChecked
      invariant bracketPairsChecked <= MaxBracketPairsChecked
      invariant FindFrom(line, lastClosingBracketIndex, MaxBracketPairsChecked - bracketPairsChecked) == LogLevelIn(line)
    {
      var openingBracketIndex := IndexOf(line, '[', lastClosingBracketIndex);
      var closingBracketIndex := -1;
      if 0 <= openingBracketIndex <= BracketIndexLimit {
        closingBracketIndex := IndexOf(line, ']', openingBracketIndex);
      }
      FindFromStep(line, lastClosingBracketIndex, MaxBracketPairsChecked - bracketPairsChecked,
        openingBracketIndex, closingBracketIndex);
      if openingBracketIndex < 0 || openingBracketIndex > BracketIndexLimit
        || closingBracketIndex < 0 || closingBracketIndex > BracketIndexLimit {
        return None;
      }
      ghost var found := LevelAt(line, openingBracketIndex, closingBracketIndex);
      lastClosingBracketIndex := closingBracketIndex;
      if lastClosingBracketIndex - openingBracketIndex <= MaxBracketsDistance {
        var logLevel := LevelNamed(line[openingBracketIndex + 1..lastClosingBracketIndex]);
        assert logLevel == found;
        if logLevel.Some? {
          return Some((logLevel.value, openingBracketIndex, lastClosingBracketIndex));
        }
      }
      assert found.None?;
      bracketPairsChecked := bracketPairsChecked + 1;
    }
    return None;
  }

  /** `parseLogMessage`: the level and the line without the level tag, or None. */
  function ParseLogMessage(line: string): Option<LogMessage> {
    match LogLevelIn(line)
    case None => None
    case Some((level, o, c)) => Some(LogMessage(level, line[..o] + line[c + 1..]))
  }

  /** A bracket pair: a `[`, the first `]` after it, no `]` between them, both
      within the first 51 characters and no earlier than `from`. */
  lemma PairShape(line: string, from: nat)
    requires BracketPair(line, from).Some?
    ensures var (o, c) := BracketPair(line, from).value;
      from <= o < c <= BracketIndexLimit && c < |line|
      && line[o] == '[' && line[c] == ']' && ']' !in line[o + 1..c]
  {
    var o := IndexOf(line, '[', from);
    var c := IndexOf(line, ']', o);
    var t := line[o + 1..c];
    IndexOfFirst(line, ']', o);
    forall i | 0 <= i < |t| ensures t[i] != ']' {
      assert t[i] == line[o + 1 + i];
    }
  }

  /** What a found tag looks like: a `[`, then text naming the level with no `]` in
      it, then the first `]` after the `[`, at most 8 apart and within the first 51
      characters, no earlier than `from`. */
  lemma FoundTag(line: string, from: nat, left: nat)
    requires FindFrom(line, from, left).Some?
    ensures var (level, o, c) := FindFrom(line, from, left).value;
      from <= o < c <= BracketIndexLimit && c < |line| && c - o <= MaxBracketsDistance
      && line[o] == '[' && line[c] == ']' && ']' !in line[o + 1..c]
      && LevelNamed(line[o + 1..c]).Some? && LevelNamed(line[o + 1..c]).value == level
  {
    FoundPair(line, from, left);
  }

  /** `FoundTag` with the level given by `LevelAt`, proved by following the search. */
  lemma {:induction false} FoundPair(line: string, from: nat, left: nat)
    requires FindFrom(line, from, left).Some?
    ensures var (level, o, c) := FindFrom(line, from, left).value;
      from <= o < c <= BracketIndexLimit && c < |line|
      && line[o] == '[' && line[c] == ']' && ']' !in line[o + 1..c]
      && LevelAt(line, o, c) == Some(level)
    decreases left
  {
    var (o, c) := BracketPair(line, from).value;
    PairShape(line, from);
    if LevelAt(line, o, c).None? {
      assert FindFrom(line, from, left) == FindFrom(line, c, left - 1);
      FoundPair(line, c, left - 1);
    } else {
      assert FindFrom(line, from, left) == Some((LevelAt(line, o, c).value, o, c));
    }
  }

  /** The tag is the first bracket pair, or the second when the first names no level. */
  lemma FoundTagPair(line: string)
    requires LogLevelIn(line).Some?
    ensures var (_, o, c) := LogLevelIn(line).value;
      BracketPair(line, 0) == Some((o, c))
      || (BracketPair(line, 0).Some? && LevelAt(line, BracketPair(line, 0).value.0, BracketPair(line, 0).value.1).None?
          && BracketPair(line, BracketPair(line, 0).value.1) == Some((o, c)))
  {
    var (o1, c1) := BracketPair(line, 0).value;
    if LevelAt(line, o1, c1).None? {
      assert LogLevelIn(line) == FindFrom(line, c1, 1);
    }
  }

  /** A line with no `[` among its first 51 characters has no level. */
  lemma {:induction false} NoBracketNoLevel(line: string, from: nat, left: nat)
    requires forall i :: from <= i < |line| && i <= BracketIndexLimit ==> line[i] != '['
    ensures FindFrom(line, from, left) == None
  {
  }

  /** A tag whose text is not looked up as a level: too long, or not a level name. */
  predicate NamesNoLevel(a: string) {
    |a| + 1 > MaxBracketsDistance || LevelNamed(a).None?
  }

  /** The bracketed tag `[a]`. */
  function Tag(a: string): string {
    "[" + a + "]"
  }

  /** A tag `[a]` after a prefix with no `[` past `from`, and with no `]` inside it, is
      the bracket pair the search from `from` finds. */
  lemma PairAfter(line: string, from: nat, pre: string, a: string, post: string)
    requires line == pre + Tag(a) + post && from <= |pre|
    requires '[' !in pre[from..] && ']' !in a
    ensures IndexOf(line, '[', from) == |pre|
    ensures IndexOf(line, ']', |pre|) == |pre| + |a| + 1
    ensures line[|pre| + 1..|pre| + |a| + 1] == a && line[..|pre|] == pre
    ensures line[|pre| + |a| + 2..] == post
  {
    var t := Tag(a);
    assert line[|pre|] == t[0];
    assert line[|pre| + |a| + 1] == t[|a| + 1];
    assert line[|pre| + 1..|pre| + |a| + 1] == t[1..|a| + 1];
    forall i | from <= i < |pre| ensures line[i] != '[' {
      assert line[i] == pre[from..][i - from];
    }
    forall i | |pre| < i < |pre| + |a| + 1 ensures line[i] != ']' {
      assert line[i] == a[i - |pre| - 1];
    }
    IndexOfIs(line, '[', from, |pre|);
    IndexOfIs(line, ']', |pre|, |pre| + |a| + 1);
  }

  /** The level names are short and hold no bracket. */
  lemma LevelNameKeys(name: string)
    requires LevelNamed(name).Some?
    ensures |name| <= 7 && '[' !in name && ']' !in name
  {

  }

  /** A bracket pair whose text `a` names no level is passed over. */
  lemma SkipPair(line: string, from: nat, left: nat, o: nat, a: string)
    requires left > 0 && o + |a| + 1 < |line|
    requires IndexOf(line, '[', from) == o && IndexOf(line, ']', o) == o + |a| + 1
    requires line[o + 1..o + |a| + 1] == a && NamesNoLevel(a)
    ensures FindFrom(line, from, left)
      == if o + |a| + 1 <= BracketIndexLimit then FindFrom(line, o + |a| + 1, left - 1) else None
  {
  }

  /** When the first two bracket pairs, `[a]` at 0 and `[b]` at `o`, name no level,
      no level is found. */
  lemma SkipTwoPairs(line: string, a: string, o: nat, b: string)
    requires |a| + 1 <= o && o + |b| + 1 < |line|
    requires IndexOf(line, '[', 0) == 0 && IndexOf(line, ']', 0) == |a| + 1
    requires line[1..|a| + 1] == a && NamesNoLevel(a)
    requires IndexOf(line, '[', |a| + 1) == o && IndexOf(line, ']', o) == o + |b| + 1
    requires line[o + 1..o + |b| + 1] == b && NamesNoLevel(b)
    ensures LogLevelIn(line) == None
  {
    var c := o + |b| + 1;
    assert LogLevelIn(line) == if |a| + 1 <= BracketIndexLimit then FindFrom(line, |a| + 1, 1) else None by {
      SkipPair(line, 0, 2, 0, a);
    }
    assert FindFrom(line, |a| + 1, 1) == None by {
      SkipPair(line, |a| + 1, 1, o, b);
      assert FindFrom(line, c, 0) == None;
    }
  }

  /** When the first bracket pair, `[a]` at 0, names no level and the second, `[b]`
      at `o`, does, the second is found. */
  lemma SkipThenTake(line: string, a: string, o: nat, b: string)
    requires |a| + 1 <= o && o + |b| + 1 < |line| && o + |b| + 1 <= BracketIndexLimit
    requires IndexOf(line, '[', 0) == 0 && IndexOf(line, ']', 0) == |a| + 1
    requires line[1..|a| + 1] == a && NamesNoLevel(a)
    requires IndexOf(line, '[', |a| + 1) == o && IndexOf(line, ']', o) == o + |b| + 1
    requires line[o + 1..o + |b| + 1] == b && |b| + 1 <= MaxBracketsDistance && LevelNamed(b).Some?
    ensures LogLevelIn(line) == Some((LevelNamed(b).value, o, o + |b| + 1))
  {
    SkipPair(line, 0, 2, 0, a);
    TakePair(line, |a| + 1, 1, o, b);
  }

  /** A bracket pair within the limits whose text `a` names a level is the one found. */
  lemma TakePair(line: string, from: nat, left: nat, o: nat, a: string)
    requires left > 0 && o + |a| + 1 < |line| && o + |a| + 1 <= BracketIndexLimit && |a| + 1 <= MaxBracketsDistance
    requires IndexOf(line, '[', from) == o && IndexOf(line, ']', o) == o + |a| + 1
    requires line[o + 1..o + |a| + 1] == a && LevelNamed(a).Some?
    ensures FindFrom(line, from, left) == Some((LevelNamed(a).value, o, o + |a| + 1))
  {
  }

  /** A line that starts with a level's tag parses to that level and the text after
      the tag, whatever the text holds. */
  lemma LeadingTag(level: LogLevel, text: string)
    ensures ParseLogMessage(Tag(LowerName(level)) + text) == Some(LogMessage(level, text))
  {
    var name := LowerName(level);
    var line := Tag(name) + text;
    assert ']' !in name;
    LeadingPair(name, text);
    LevelNamedLower(level);
    TakePair(line, 0, 2, 0, name);
    ParseFound(line, level, 0, |name| + 1);
  }

  /** The bracket pair of `[a]text`, at the start of the line. */
  lemma LeadingPair(a: string, text: string)
    requires ']' !in a
    ensures var line := Tag(a) + text;
      IndexOf(line, '[', 0) == 0 && IndexOf(line, ']', 0) == |a| + 1 && line[1..|a| + 1] == a
      && |a| + 1 < |line| && line[..0] + line[|a| + 2..] == text
  {
    var line := Tag(a) + text;
    assert line == [] + Tag(a) + text;
    PairAfter(line, 0, [], a, text);
  }

  /** The empty tag `[]` is TRACE. */
  lemma EmptyTagIsTrace(text: string)
    ensures ParseLogMessage(Tag("") + text) == Some(LogMessage(TRACE, text))
  {
    var line := Tag("") + text;
    LeadingPair("", text);
    TakePair(line, 0, 2, 0, "");
    ParseFound(line, TRACE, 0, 1);
  }

  /** A found tag: the message is the line with the tag cut out. */
  lemma ParseFound(line: string, level: LogLevel, o: nat, c: nat)
    requires o <= c < |line| && LogLevelIn(line) == Some((level, o, c))
    ensures ParseLogMessage(line) == Some(LogMessage(level, line[..o] + line[c + 1..]))
  {
  }

  /** The message is the line with the tag, brackets included, cut out: putting the
      tag back where it was gives the line. */
  lemma MessageWithoutTag(line: string)
    requires LogLevelIn(line).Some?
    ensures var (level, o, c) := LogLevelIn(line).value;
      var m := ParseLogMessage(line).value;
      m.logLevel == level && |m.message| == |line| - (c - o + 1)
      && m.message[..o] + line[o..c + 1] + m.message[o..] == line
  {
    var (level, o, c) := LogLevelIn(line).value;
    FoundTag(line, 0, MaxBracketPairsChecked);
    CutOut(line, o, c);
  }

  /** Cutting `s[o..c + 1]` out of `s` and putting it back gives `s` again. */
  lemma CutOut(s: string, o: nat, c: nat)
    requires o <= c < |s|
    ensures var m := s[..o] + s[c + 1..];
      |m| == |s| - (c - o + 1) && m[..o] + s[o..c + 1] + m[o..] == s
  {
    var m := s[..o] + s[c + 1..];
    assert m[..o] == s[..o] && m[o..] == s[c + 1..];
    assert s[..o] + s[o..c + 1] + s[c + 1..] == s;
  }

  /** Two leading tags that name no level hide any tag after them: only two bracket
      pairs are looked at. */
  lemma TwoOtherTags(a: string, b: string, rest: string)
    requires '[' !in a && ']' !in a && ']' !in b
    requires NamesNoLevel(a) && NamesNoLevel(b)
    ensures ParseLogMessage(Tag(a) + " " + Tag(b) + rest) == None
  {
    var line := Tag(a) + " " + Tag(b) + rest;
    var pre := Tag(a) + " ";
    assert line == [] + Tag(a) + (" " + Tag(b) + rest);
    PairAfter(line, 0, [], a, " " + Tag(b) + rest);
    assert pre[|a| + 1..] == "] ";
    PairAfter(line, |a| + 1, pre, b, rest);
    SkipTwoPairs(line, a, |pre|, b);
  }

  /** A level tag after a component tag is found, and cut out of the message with the
      component tag kept. */
  lemma ComponentThenLevel(a: string, name: string, text: string)
    requires '[' !in a && ']' !in a && NamesNoLevel(a)
    requires LevelNamed(name).Some? && |a| + |name| + 4 <= BracketIndexLimit
    ensures ParseLogMessage(Tag(a) + " " + Tag(name) + text)
      == Some(LogMessage(LevelNamed(name).value, Tag(a) + " " + text))
  {
    LevelNameKeys(name);
    var line := Tag(a) + " " + Tag(name) + text;
    var pre := Tag(a) + " ";
    var c := |pre| + |name| + 1;
    ComponentPairs(a, name, text);
    SkipThenTake(line, a, |pre|, name);
    TagCut(pre, name, text);
    ParseFound(line, LevelNamed(name).value, |pre|, c);
  }

  /** The bracket pairs of `[a] [name]text`: `[a]` at 0, then `[name]` after the space. */
  lemma ComponentPairs(a: string, name: string, text: string)
    requires '[' !in a && ']' !in a && ']' !in name
    ensures var line := Tag(a) + " " + Tag(name) + text;
      IndexOf(line, '[', 0) == 0 && IndexOf(line, ']', 0) == |a| + 1 && line[1..|a| + 1] == a
      && IndexOf(line, '[', |a| + 1) == |a| + 3 && IndexOf(line, ']', |a| + 3) == |a| + |name| + 4
      && line[|a| + 4..|a| + |name| + 4] == name && |a| + |name| + 4 < |line|
  {
    var line := Tag(a) + " " + Tag(name) + text;
    var pre := Tag(a) + " ";
    assert IndexOf(line, '[', 0) == 0 && IndexOf(line, ']', 0) == |a| + 1 && line[1..|a| + 1] == a by {
      assert line == [] + Tag(a) + (" " + Tag(name) + text);
      PairAfter(line, 0, [], a, " " + Tag(name) + text);
    }
    assert |pre| == |a| + 3 && pre[|a| + 1..] == "] ";
    PairAfter(line, |a| + 1, pre, name, text);
  }

  /** Cutting the tag out of `pre + [a] + post` leaves `pre + post`. */
  lemma TagCut(pre: string, a: string, post: string)
    ensures var line := pre + Tag(a) + post;
      line[..|pre|] + line[|pre| + |a| + 2..] == pre + post
  {
    var line := pre + Tag(a) + post;
    assert line[..|pre|] == pre;
    assert line[|pre| + |a| + 2..] == post;
  }

  /** The three-tag line of the log-level test has no level here. */
  lemma ThirdTagNotFound()
    ensures ParseLogMessage(Tag("loudnorm @ 0x55c3e47a6e40") + " " + Tag("Eval @ 0x7ffc5e716b40")
      + " [error] Undefined constant") == None
  {
    TwoOtherTags("loudnorm @ 0x55c3e47a6e40", "Eval @ 0x7ffc5e716b40", " [error] Undefined constant");
  }

  /** A component tag, then `[info]`. */
  lemma ComponentThenInfo()
    ensures ParseLogMessage(Tag("libx264 @ 0x5640c7caa580") + " " + Tag("info") + " frame I:13")
      == Some(LogMessage(INFO, Tag("libx264 @ 0x5640c7caa580") + " " + " frame I:13"))
  {
    var a := "libx264 @ 0x5640c7caa580";
    assert NamesNoLevel(a) && '[' !in a && ']' !in a;
    assert LevelNamed("info").Some? && LevelNamed("info").value == INFO;
    ComponentThenLevel(a, "info", " frame I:13");
  }
}
