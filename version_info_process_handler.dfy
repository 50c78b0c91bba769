// The handler of `ffmpeg -version`: the first line mentioning "version" gives the
// version number, and the `configuration:` line lists the enabled and disabled
// features.

module VersionInfoProcess {
  import opened Wrappers
  import opened Text
  import LinesProcess

  /** `VersionInfo`. */
  datatype VersionInfo = VersionInfo(
    versionString: string,
    versionMajor: int,
    versionMinor: int,
    versionPatch: int,
    enabledFeatures: set<string>,
    disabledFeatures: set<string>)

  /** A match of `(\d+)(?:\.(\d+))?(?:\.(\d+))?`: the whole match and its three
      groups. As in Kotlin's `groupValues`, a group that took part in no match is
      the empty string, not null. */
  datatype VersionMatch = VersionMatch(value: string, major: string, minor: string, patch: string)

  /** The length of the run of digits that starts at `i`. */
  function DigitRun(s: string, i: nat): (n: nat)
    requires i <= |s|
    ensures i + n <= |s| && (i + n == |s| || !IsDigit(s[i + n]))
    ensures forall k :: i <= k < i + n ==> IsDigit(s[k])
    decreases |s| - i
  {
    if i < |s| && IsDigit(s[i]) then 1 + DigitRun(s, i + 1) else 0
  }

  /** The first index at or after `i` holding a digit, or `|s|` when there is none. */
  function FirstDigit(s: string, i: nat): (k: nat)
    requires i <= |s|
    ensures i <= k <= |s| && (k < |s| ==> IsDigit(s[k]))
    ensures forall j :: i <= j < k ==> !IsDigit(s[j])
    decreases |s| - i
  {
    if i == |s| || IsDigit(s[i]) then i else FirstDigit(s, i + 1)
  }

  /** The digits of an optional group with its dot, or nothing. */
  function Dotted(group: string): string {
    if group == "" then "" else "." + group
  }

  predicate AllDigits(s: string) {
    forall i :: 0 <= i < |s| ==> IsDigit(s[i])
  }

  /** An optional `\.(\d+)` at `i`: the digits of the group, "" when there is no dot
      followed by a digit, and where the match goes on. */
  function OptionalGroup(s: string, i: nat): (g: (string, nat))
    requires i <= |s|
    ensures i <= g.1 <= |s| && AllDigits(g.0) && s[i..g.1] == Dotted(g.0)
  {
    if i + 1 < |s| && s[i] == '.' && IsDigit(s[i + 1]) then
      var n := DigitRun(s, i + 1);
      assert s[i..i + 1 + n] == "." + s[i + 1..i + 1 + n];
      (s[i + 1..i + 1 + n], i + 1 + n)
    else ("", i)
  }

  /** `s[a..c]` is `s[a..b]` followed by `s[b..c]`. */
  lemma SliceSplit(s: string, a: nat, b: nat, c: nat)
    requires a <= b <= c <= |s|
    ensures s[a..c] == s[a..b] + s[b..c]
  {
  }

  /** The match that starts at the digit at `k`: the longest run of digits, then each
      optional group in turn. */
  function MatchAt(line: string, k: nat): (m: VersionMatch)
    requires k < |line| && IsDigit(line[k])
    ensures m.major != "" && AllDigits(m.major) && AllDigits(m.minor) && AllDigits(m.patch)
    ensures m.minor == "" ==> m.patch == ""
    ensures m.value == m.major + Dotted(m.minor) + Dotted(m.patch)
  {
    var j := k + DigitRun(line, k);
    var minor := OptionalGroup(line, j);
    var patch := OptionalGroup(line, minor.1);
    SliceSplit(line, k, j, minor.1);
    SliceSplit(line, k, minor.1, patch.1);
    VersionMatch(line[k..patch.1], line[k..j], minor.0, patch.0)
  }

  /** `VERSION_REGEX.find(line)`: the leftmost match. Every run of digits starts one,
      each quantifier is greedy, and an optional group takes part only when a dot is
      followed by a digit. */
  function FindVersion(line: string): (r: Option<VersionMatch>)
    ensures r.None? <==> forall i :: 0 <= i < |line| ==> !IsDigit(line[i])
    ensures r.Some? ==> (r.value.major != "" && AllDigits(r.value.major) && AllDigits(r.value.minor)
      && AllDigits(r.value.patch) && (r.value.minor == "" ==> r.value.patch == "")
      && r.value.value == r.value.major + Dotted(r.value.minor) + Dotted(r.value.patch))
  {
    var k := FirstDigit(line, 0);
    if k == |line| then None else Some(MatchAt(line, k))
  }

  const IntMax := 0x7FFF_FFFF

  /** The message of the exception Kotlin's `String.toInt` throws. */
  function NumberFormat(s: string): string {
    "For input string: \"" + s + "\""
  }

  /** `String.toInt` on a string of digits: its value when it fits an `Int`; an
      empty string or a larger value throws. */
  function ToInt(s: string): (r: Result<int, string>)
    requires AllDigits(s)
    ensures r.Ok? <==> s != "" && DigitsValue(s) <= IntMax
    ensures r.Ok? ==> r.value == DigitsValue(s)
  {
    match ParseNat(s)
    case Some(n) => if n <= IntMax then Ok(n) else Err(NumberFormat(s))
    case None => Err(NumberFormat(s))
  }

  const NoVersion := "No version number found."

  /** The three numbers, converted in order; the first failure is the one reported. */
  function Numbers(major: Result<int, string>, minor: Result<int, string>, patch: Result<int, string>)
    : Result<(int, int, int), string>
  {
    match (major, minor, patch)
    case (Ok(a), Ok(b), Ok(c)) => Ok((a, b, c))
    case (Err(e), _, _) => Err(e)
    case (Ok(_), Err(e), _) => Err(e)
    case (Ok(_), Ok(_), Err(e)) => Err(e)
  }

  /** `createVersionInfo` as written: `getOrNull` never gives null here, so a group
      that took part in no match reaches `toInt` as "". */
  function CreateVersionInfoAsWritten(vm: Option<VersionMatch>, enabled: set<string>, disabled: set<string>)
    : Result<VersionInfo, string>
    requires vm.Some? ==> AllDigits(vm.value.major) && AllDigits(vm.value.minor) && AllDigits(vm.value.patch)
  {
    if vm.None? then Err(NoVersion)
    else
      var m := vm.value;
      match Numbers(ToInt(m.major), ToInt(m.minor), ToInt(m.patch))
      case Ok((a, b, c)) => Ok(VersionInfo(m.value, a, b, c, enabled, disabled))
      case Err(e) => Err(e)
  }

  /** `getOrNull(i)?.toInt() ?: 0` as evidently intended: a missing group is 0. */
  function GroupOrZero(group: string): (r: Result<int, string>)
    requires AllDigits(group)
    ensures group == "" ==> r == Ok(0)
    ensures group != "" ==> r == ToInt(group)
  {
    if group == "" then Ok(0) else ToInt(group)
  }

  /** `createVersionInfo` with a missing minor or patch number read as 0. */
  function CreateVersionInfo(vm: Option<VersionMatch>, enabled: set<string>, disabled: set<string>)
    : Result<VersionInfo, string>
    requires vm.Some? ==> AllDigits(vm.value.major) && AllDigits(vm.value.minor) && AllDigits(vm.value.patch)
  {
    if vm.None? then Err(NoVersion)
    else
      var m := vm.value;
      match Numbers(ToInt(m.major), GroupOrZero(m.minor), GroupOrZero(m.patch))
      case Ok((a, b, c)) => Ok(VersionInfo(m.value, a, b, c, enabled, disabled))
      case Err(e) => Err(e)
  }

  /** Without a version line both fail with "No version number found."; with all
      three numbers present the two agree. */
  lemma CreateVersionInfoAgrees(vm: Option<VersionMatch>, enabled: set<string>, disabled: set<string>)
    requires vm.Some? ==> AllDigits(vm.value.major) && AllDigits(vm.value.minor) && AllDigits(vm.value.patch)
    requires vm.Some? ==> vm.value.minor != "" && vm.value.patch != ""
    ensures CreateVersionInfo(vm, enabled, disabled) == CreateVersionInfoAsWritten(vm, enabled, disabled)
    ensures vm.None? ==> CreateVersionInfo(vm, enabled, disabled) == Err(NoVersion)
  {
  }

  /** A line `pre + "M.m" + post` whose version has two numbers, with no digit before
      it and nothing after it that continues it. */
  predicate TwoPartLine(pre: string, post: string) {
    (forall i :: 0 <= i < |pre| ==> !IsDigit(pre[i]))
    && (post == [] || (!IsDigit(post[0]) && !(|post| >= 2 && post[0] == '.' && IsDigit(post[1]))))
  }

  /** The first digit at or after `i` is the one at `k` when none lies between. */
  lemma {:induction false} FirstDigitIs(s: string, i: nat, k: nat)
    requires i <= k < |s| && IsDigit(s[k])
    requires forall j :: i <= j < k ==> !IsDigit(s[j])
    ensures FirstDigit(s, i) == k
    decreases k - i
  {
    if i < k {
      FirstDigitIs(s, i + 1, k);
    }
  }

  /** The run of digits at `i` has length `n` when `n` digits follow and no more. */
  lemma {:induction false} DigitRunIs(s: string, i: nat, n: nat)
    requires i + n <= |s| && (i + n == |s| || !IsDigit(s[i + n]))
    requires forall k :: i <= k < i + n ==> IsDigit(s[k])
    ensures DigitRun(s, i) == n
    decreases n
  {
    if n > 0 {
      DigitRunIs(s, i + 1, n - 1);
    }
  }

  /** Where the pieces of `pre + a + "." + b + post` lie. */
  lemma Layout(line: string, pre: string, a: string, b: string, post: string)
    requires line == pre + a + "." + b + post
    ensures |line| == |pre| + |a| + 1 + |b| + |post| && line[|pre| + |a|] == '.'
    ensures forall t :: 0 <= t < |pre| ==> line[t] == pre[t]
    ensures forall t :: 0 <= t < |a| ==> line[|pre| + t] == a[t]
    ensures forall t :: 0 <= t < |b| ==> line[|pre| + |a| + 1 + t] == b[t]
    ensures forall t :: 0 <= t < |post| ==> line[|pre| + |a| + 1 + |b| + t] == post[t]
  {
  }

  /** The slices of `pre + a + "." + b + post` that the groups of a match take. */
  lemma LayoutSlices(line: string, pre: string, a: string, b: string, post: string)
    requires line == pre + a + "." + b + post
    ensures line[|pre|..|pre| + |a|] == a && line[|pre| + |a| + 1..|pre| + |a| + 1 + |b|] == b
    ensures line[|pre|..|pre| + |a| + 1 + |b|] == a + "." + b
  {
    Layout(line, pre, a, b, post);
  }

  /** Digits from `k` to `j`, a dot at `j`, digits from `j + 1` to `e`, no digit
      before `k`, and nothing at `e` that continues the match. */
  predicate TwoPartShape(line: string, k: nat, j: nat, e: nat) {
    k < j && j + 1 < e <= |line| && line[j] == '.'
    && (forall t :: 0 <= t < k ==> !IsDigit(line[t]))
    && (forall t :: k <= t < j ==> IsDigit(line[t]))
    && (forall t :: j + 1 <= t < e ==> IsDigit(line[t]))
    && (e == |line| || (!IsDigit(line[e]) && !(e + 1 < |line| && line[e] == '.' && IsDigit(line[e + 1]))))
  }

  lemma LayoutShape(line: string, pre: string, a: string, b: string, post: string)
    requires line == pre + a + "." + b + post && TwoPartLine(pre, post)
    requires a != "" && b != "" && AllDigits(a) && AllDigits(b)
    ensures TwoPartShape(line, |pre|, |pre| + |a|, |pre| + |a| + 1 + |b|)
  {
    Layout(line, pre, a, b, post);
  }

  lemma ShapeStart(line: string, k: nat, j: nat, e: nat)
    requires TwoPartShape(line, k, j, e)
    ensures FirstDigit(line, 0) == k
  {
    FirstDigitIs(line, 0, k);
  }

  lemma ShapeMajor(line: string, k: nat, j: nat, e: nat)
    requires TwoPartShape(line, k, j, e)
    ensures DigitRun(line, k) == j - k
  {
    DigitRunIs(line, k, j - k);
  }

  lemma ShapeFirstDigit(line: string, k: nat, j: nat, e: nat)
    requires TwoPartShape(line, k, j, e)
    ensures FirstDigit(line, 0) == k && IsDigit(line[k]) && DigitRun(line, k) == j - k
  {
    ShapeStart(line, k, j, e);
    ShapeMajor(line, k, j, e);
  }

  lemma ShapeMinor(line: string, k: nat, j: nat, e: nat)
    requires TwoPartShape(line, k, j, e)
    ensures OptionalGroup(line, j) == (line[j + 1..e], e)
  {
    DigitRunIs(line, j + 1, e - j - 1);
  }

  lemma ShapeNoPatch(line: string, k: nat, j: nat, e: nat)
    requires TwoPartShape(line, k, j, e)
    ensures OptionalGroup(line, e) == ("", e)
  {
  }

  /** A match whose minor group ends at `e`, with no patch group, has two groups. */
  lemma MatchTwoAt(line: string, k: nat, j: nat, e: nat)
    requires k < j && j + 1 < e <= |line| && IsDigit(line[k])
    requires DigitRun(line, k) == j - k
    requires OptionalGroup(line, j) == (line[j + 1..e], e) && OptionalGroup(line, e) == ("", e)
    ensures MatchAt(line, k) == VersionMatch(line[k..e], line[k..j], line[j + 1..e], "")
  {
    var minor := OptionalGroup(line, k + DigitRun(line, k));
    assert minor.1 == e;
    assert OptionalGroup(line, minor.1).1 == e;
  }

  /** The regex finds such a version with its patch group missing. */
  lemma FindTwoPart(pre: string, major: nat, minor: nat, post: string)
    requires TwoPartLine(pre, post)
    ensures FindVersion(pre + NatToString(major) + "." + NatToString(minor) + post)
      == Some(VersionMatch(NatToString(major) + "." + NatToString(minor), NatToString(major), NatToString(minor), ""))
  {
    var a := NatToString(major);
    var b := NatToString(minor);
    var line := pre + a + "." + b + post;
    TwoPartAt(line, pre, a, b, post);
  }

  /** The same, for any two non-empty digit strings. */
  lemma TwoPartAt(line: string, pre: string, a: string, b: string, post: string)
    requires line == pre + a + "." + b + post && TwoPartLine(pre, post)
    requires a != "" && b != "" && AllDigits(a) && AllDigits(b)
    ensures FindVersion(line) == Some(VersionMatch(a + "." + b, a, b, ""))
  {
    var k := |pre|;
    var j := k + |a|;
    var e := j + 1 + |b|;
    LayoutShape(line, pre, a, b, post);
    LayoutSlices(line, pre, a, b, post);
    ShapeFirstDigit(line, k, j, e);
    ShapeMinor(line, k, j, e);
    ShapeNoPatch(line, k, j, e);
    MatchTwoAt(line, k, j, e);
  }

  /** The bug: for every two-number version line, as written, `createVersionInfo`
      fails on `"".toInt()` instead of giving patch 0. */
  lemma TwoPartVersionFailsAsWritten(pre: string, major: nat, minor: nat, post: string,
                                     enabled: set<string>, disabled: set<string>)
    requires TwoPartLine(pre, post) && major <= IntMax && minor <= IntMax
    ensures CreateVersionInfoAsWritten(FindVersion(pre + NatToString(major) + "." + NatToString(minor) + post),
      enabled, disabled) == Err(NumberFormat(""))
  {
    FindTwoPart(pre, major, minor, post);
    ParseNatToString(major);
    ParseNatToString(minor);
  }

  /** Corrected, the same line gives major, minor and patch 0. */
  lemma TwoPartVersion(pre: string, major: nat, minor: nat, post: string, enabled: set<string>, disabled: set<string>)
    requires TwoPartLine(pre, post) && major <= IntMax && minor <= IntMax
    ensures CreateVersionInfo(FindVersion(pre + NatToString(major) + "." + NatToString(minor) + post), enabled, disabled)
      == Ok(VersionInfo(NatToString(major) + "." + NatToString(minor), major, minor, 0, enabled, disabled))
  {
    FindTwoPart(pre, major, minor, post);
    ParseNatToString(major);
    ParseNatToString(minor);
  }

  /** The regex reads the version of the ffmpeg 6.0 banner as "6.0", with groups
      "6", "0" and a missing patch group. */
  lemma BannerVersion()
    ensures FindVersion("ffmpeg version " + "6.0" + " Copyright") == Some(VersionMatch("6.0", "6", "0", ""))
  {
    var pre := "ffmpeg version ";
    var line := pre + "6.0" + " Copyright";
    assert "6.0" == "6" + "." + "0";
    assert line == pre + "6" + "." + "0" + " Copyright";
    assert TwoPartLine(pre, " Copyright");
    TwoPartAt(line, pre, "6", "0", " Copyright");
  }

  /** The banner of ffmpeg 6.0: as written, reading it fails; corrected, it is
      version 6.0.0. */
  lemma SixZeroBanner(enabled: set<string>, disabled: set<string>)
    ensures CreateVersionInfoAsWritten(FindVersion("ffmpeg version " + "6.0" + " Copyright"), enabled, disabled)
      == Err(NumberFormat(""))
    ensures CreateVersionInfo(FindVersion("ffmpeg version " + "6.0" + " Copyright"), enabled, disabled)
      == Ok(VersionInfo("6.0", 6, 0, 0, enabled, disabled))
  {
    BannerVersion();
    assert DigitsValue("6") == 6 && DigitsValue("0") == 0;
  }

  /** The feature a token names when it starts with `prefix`: what follows it. */
  function Feature(token: string, prefix: string): set<string> {
    if StartsWith(token, prefix) then {token[|prefix|..]} else {}
  }

  /** The features the tokens starting with `prefix` name. */
  function Features(tokens: seq<string>, prefix: string): set<string>
    decreases |tokens|
  {
    if tokens == [] then {}
    else Features(tokens[..|tokens| - 1], prefix) + Feature(tokens[|tokens| - 1], prefix)
  }

  /** A token names an enabled feature, a disabled one, or none. */
  lemma TokenFeature(raw: string)
    ensures StartsWith(raw, EnablePrefix) ==> Feature(raw, EnablePrefix) == {raw[9..]} && Feature(raw, DisablePrefix) == {}
    ensures !StartsWith(raw, EnablePrefix) ==> Feature(raw, EnablePrefix) == {}
    ensures !StartsWith(raw, EnablePrefix) && StartsWith(raw, DisablePrefix) ==> Feature(raw, DisablePrefix) == {raw[10..]}
    ensures !StartsWith(raw, DisablePrefix) ==> Feature(raw, DisablePrefix) == {}
  {
    if StartsWith(raw, EnablePrefix) {
      assert !StartsWith(raw, DisablePrefix) by {
        assert raw[2] == EnablePrefix[2];
      }
    }
  }

  /** The features of one more token. */
  lemma FeaturesStep(tokens: seq<string>, i: nat)
    requires i < |tokens|
    ensures Features(tokens[..i + 1], EnablePrefix) == Features(tokens[..i], EnablePrefix) + Feature(tokens[i], EnablePrefix)
    ensures Features(tokens[..i + 1], DisablePrefix) == Features(tokens[..i], DisablePrefix) + Feature(tokens[i], DisablePrefix)
  {
    assert tokens[..i + 1][..i] == tokens[..i];
  }

  /** A feature is listed exactly when some token is the prefix followed by it. */
  lemma {:induction false} FeaturesListed(tokens: seq<string>, prefix: string, x: string)
    ensures x in Features(tokens, prefix) <==>
      exists i :: 0 <= i < |tokens| && StartsWith(tokens[i], prefix) && tokens[i][|prefix|..] == x
    decreases |tokens|
  {
    if tokens != [] {
      var before := tokens[..|tokens| - 1];
      FeaturesListed(before, prefix, x);
      if x in Features(before, prefix) {
        var i :| 0 <= i < |before| && StartsWith(before[i], prefix) && before[i][|prefix|..] == x;
        assert tokens[i] == before[i];
      }
      if exists i :: 0 <= i < |tokens| && StartsWith(tokens[i], prefix) && tokens[i][|prefix|..] == x {
        var i :| 0 <= i < |tokens| && StartsWith(tokens[i], prefix) && tokens[i][|prefix|..] == x;
        if i < |before| {
          assert before[i] == tokens[i];
        }
      }
    }
  }

  const EnablePrefix := "--enable-"
  const DisablePrefix := "--disable-"

  /** What the handler has gathered. */
  datatype Scan = Scan(versionMatch: Option<VersionMatch>, enabledFeatures: set<string>, disabledFeatures: set<string>)

  predicate Digits(s: Scan) {
    s.versionMatch.Some? ==>
      AllDigits(s.versionMatch.value.major) && AllDigits(s.versionMatch.value.minor) && AllDigits(s.versionMatch.value.patch)
  }

  /** `onStdoutLine`: while no version was found, a line mentioning "version" is
      searched for one; otherwise a `configuration:` line adds its `--enable-` and
      `--disable-` features. */
  function ScanLine(s: Scan, line: string): Scan {
    if s.versionMatch.None? && Contains(line, "version") then s.(versionMatch := FindVersion(line))
    else if StartsWith(line, "configuration:") then
      var tokens := Split(line, ' ');
      s.(enabledFeatures := s.enabledFeatures + Features(tokens, EnablePrefix),
         disabledFeatures := s.disabledFeatures + Features(tokens, DisablePrefix))
    else s
  }

  function ScanLines(s: Scan, lines: seq<string>): Scan
    decreases |lines|
  {
    if lines == [] then s else ScanLine(ScanLines(s, lines[..|lines| - 1]), lines[|lines| - 1])
  }

  /** Once a version is found, later lines never change it, and features are only
      ever added. */
  lemma {:induction false} FirstVersionKept(s: Scan, lines: seq<string>)
    requires s.versionMatch.Some?
    ensures ScanLines(s, lines).versionMatch == s.versionMatch
    ensures s.enabledFeatures <= ScanLines(s, lines).enabledFeatures
    ensures s.disabledFeatures <= ScanLines(s, lines).disabledFeatures
    decreases |lines|
  {
    if lines != [] {
      FirstVersionKept(s, lines[..|lines| - 1]);
    }
  }

  /** Every version found is a regex match, with digit groups. */
  lemma {:induction false} ScanDigits(s: Scan, lines: seq<string>)
    requires Digits(s)
    ensures Digits(ScanLines(s, lines))
    decreases |lines|
  {
    if lines != [] {
      ScanDigits(s, lines[..|lines| - 1]);
    }
  }

  /** The line that gives the version is not read for features, even when it is a
      `configuration:` line. */
  lemma VersionLineNotScanned(s: Scan, line: string)
    requires s.versionMatch.None? && Contains(line, "version")
    ensures ScanLine(s, line).enabledFeatures == s.enabledFeatures
    ensures ScanLine(s, line).disabledFeatures == s.disabledFeatures
  {
  }

  /** The `configuration:` line that enables `on` and disables `off`. */
  function ConfigLine(on: string, off: string): string {
    "configuration:" + " " + EnablePrefix + on + " " + DisablePrefix + off
  }

  /** It splits at the spaces into its three tokens. */
  lemma ConfigLineTokens(on: string, off: string)
    requires ' ' !in on && ' ' !in off
    ensures Split(ConfigLine(on, off), ' ') == ["configuration:", EnablePrefix + on, DisablePrefix + off]
  {
    var tokens := ["configuration:", EnablePrefix + on, DisablePrefix + off];
    assert tokens[1..] == [EnablePrefix + on, DisablePrefix + off] && tokens[1..][1..] == [DisablePrefix + off];
    assert Text.Join(tokens[1..], ' ') == (EnablePrefix + on) + [' '] + (DisablePrefix + off);
    assert Text.Join(tokens, ' ') == "configuration:" + [' '] + ((EnablePrefix + on) + [' '] + (DisablePrefix + off));
    assert Text.Join(tokens, ' ') == ConfigLine(on, off);
    assert ' ' !in "configuration:" && ' ' !in EnablePrefix + on && ' ' !in DisablePrefix + off;
    SplitJoin(tokens, ' ');
  }

  /** Which of its tokens start with which prefix. */
  lemma ConfigLineFeatures(on: string, off: string)
    ensures Feature("configuration:", EnablePrefix) == {} && Feature("configuration:", DisablePrefix) == {}
    ensures Feature(EnablePrefix + on, EnablePrefix) == {on} && Feature(EnablePrefix + on, DisablePrefix) == {}
    ensures Feature(DisablePrefix + off, EnablePrefix) == {} && Feature(DisablePrefix + off, DisablePrefix) == {off}
  {
    assert "configuration:"[0] != EnablePrefix[0] && "configuration:"[0] != DisablePrefix[0];
    assert (EnablePrefix + on)[..|EnablePrefix|] == EnablePrefix && (EnablePrefix + on)[|EnablePrefix|..] == on;
    assert (EnablePrefix + on)[2] != DisablePrefix[2];
    assert (DisablePrefix + off)[..|DisablePrefix|] == DisablePrefix && (DisablePrefix + off)[|DisablePrefix|..] == off;
    assert (DisablePrefix + off)[2] != EnablePrefix[2];
  }

  /** Three tokens name the features each of them names. */
  lemma ThreeTokens(t0: string, t1: string, t2: string, prefix: string)
    ensures Features([t0, t1, t2], prefix) == Feature(t0, prefix) + Feature(t1, prefix) + Feature(t2, prefix)
  {
    assert [t0, t1, t2][..2] == [t0, t1] && [t0, t1][..1] == [t0] && [t0][..0] == [];
    assert Features([t0], prefix) == Feature(t0, prefix);
    assert Features([t0, t1], prefix) == Feature(t0, prefix) + Feature(t1, prefix);
  }

  /** A configuration line enabling one feature and disabling another, read after
      the version was found, adds each to its set. */
  lemma ConfigurationLine(s: Scan, on: string, off: string)
    requires s.versionMatch.Some? && ' ' !in on && ' ' !in off
    ensures ScanLine(s, ConfigLine(on, off))
      == s.(enabledFeatures := s.enabledFeatures + {on}, disabledFeatures := s.disabledFeatures + {off})
  {
    var line := ConfigLine(on, off);
    assert line[..14] == "configuration:";
    ConfigLineTokens(on, off);
    ConfigLineFeatures(on, off);
    ThreeTokens("configuration:", EnablePrefix + on, DisablePrefix + off, EnablePrefix);
    ThreeTokens("configuration:", EnablePrefix + on, DisablePrefix + off, DisablePrefix);
  }

  class VersionInfoProcessHandler {
    const base: LinesProcess.LinesProcessHandler<VersionInfo>
    var versionMatch: Option<VersionMatch>
    var enabledFeatures: set<string>
    var disabledFeatures: set<string>

    function Scanned(): Scan
      reads this
    {
      Scan(versionMatch, enabledFeatures, disabledFeatures)
    }

    /** A version, once found, is a regex match whose groups are digits. */
    ghost predicate Valid()
      reads this
    {
      Digits(Scanned())
    }

    constructor ()
      ensures Valid() && Scanned() == Scan(None, {}, {}) && fresh(base)
      ensures base.currentStderrBytes.items == [] && base.currentStdoutBytes.items == []
    {
      base := new LinesProcess.LinesProcessHandler();
      versionMatch := None;
      enabledFeatures := {};
      disabledFeatures := {};
    }

    method OnStdoutLine(line: string)
      requires Valid()
      modifies this
      ensures Valid() && Scanned() == ScanLine(old(Scanned()), line)
    {
      if versionMatch.None? && Contains(line, "version") {
        versionMatch := FindVersion(line);
      } else if StartsWith(line, "configuration:") {
        var tokens := Split(line, ' ');
        var i := 0;
        while i < |tokens|
          invariant 0 <= i <= |tokens| && versionMatch == old(versionMatch)
          invariant enabledFeatures == old(enabledFeatures) + Features(tokens[..i], EnablePrefix)
          invariant disabledFeatures == old(disabledFeatures) + Features(tokens[..i], DisablePrefix)
        {
          var raw := tokens[i];
          FeaturesStep(tokens, i);
          TokenFeature(raw);
          if StartsWith(raw, EnablePrefix) {
            enabledFeatures := enabledFeatures + {raw[9..]};
          } else if StartsWith(raw, DisablePrefix) {
            disabledFeatures := disabledFeatures + {raw[10..]};
          }
          i := i + 1;
        }
        assert tokens[..|tokens|] == tokens;
      }
    }

    /** `onStderrLine`: the same as a stdout line. */
    method OnStderrLine(line: string)
      requires Valid()
      modifies this
      ensures Valid() && Scanned() == ScanLine(old(Scanned()), line)
    {
      OnStdoutLine(line);
    }

    method HandleLines(lines: seq<string>)
      requires Valid()
      modifies this
      ensures Valid() && Scanned() == ScanLines(old(Scanned()), lines)
    {
      var i := 0;
      while i < |lines|
        invariant 0 <= i <= |lines| && Valid()
        invariant Scanned() == ScanLines(old(Scanned()), lines[..i])
      {
        OnStdoutLine(lines[i]);
        assert lines[..i + 1][..i] == lines[..i];
        i := i + 1;
      }
      assert lines[..|lines|] == lines;
    }

    method OnStderr(buffer: LinesProcess.ByteBuffer, closed: bool)
      requires Valid() && buffer.position <= |buffer.content|
      modifies buffer, base.currentStderrBytes, this
      ensures Valid()
      ensures Scanned()
        == ScanLines(old(Scanned()), LinesProcess.LinesOf(buffer.content, old(buffer.position), old(base.currentStderrBytes.items), closed))
      ensures base.currentStderrBytes.items
        == LinesProcess.SplitLines(buffer.content, old(buffer.position), old(base.currentStderrBytes.items)).pending
      ensures buffer.position == |buffer.content|
    {
      var lines := base.OnStderr(buffer, closed);
      HandleLines(lines);
    }

    method OnStdout(buffer: LinesProcess.ByteBuffer, closed: bool)
      requires Valid() && buffer.position <= |buffer.content|
      modifies buffer, base.currentStdoutBytes, this
      ensures Valid()
      ensures Scanned()
        == ScanLines(old(Scanned()), LinesProcess.LinesOf(buffer.content, old(buffer.position), old(base.currentStdoutBytes.items), closed))
      ensures base.currentStdoutBytes.items
        == LinesProcess.SplitLines(buffer.content, old(buffer.position), old(base.currentStdoutBytes.items)).pending
      ensures buffer.position == |buffer.content|
    {
      var lines := base.OnStdout(buffer, closed);
      HandleLines(lines);
    }

    /** `getResult`: the version information, or the failure creating it. As written,
        a version line with a missing minor or patch number fails on `"".toInt()`. */
    method GetResult(exitCode: int) returns (r: Result<VersionInfo, string>)
      requires Valid()
      ensures r == CreateVersionInfoAsWritten(versionMatch, enabledFeatures, disabledFeatures)
      ensures versionMatch.None? ==> r == Err(NoVersion)
      ensures versionMatch.Some? && (versionMatch.value.minor == "" || versionMatch.value.patch == "") ==> r.Err?
      ensures r.Ok? ==> (r.value.versionString == versionMatch.value.value
        && r.value.enabledFeatures == enabledFeatures && r.value.disabledFeatures == disabledFeatures)
    {
      r := CreateVersionInfoAsWritten(versionMatch, enabledFeatures, disabledFeatures);
    }

    /** `getResult` as evidently intended: a missing minor or patch number is 0. */
    method GetResultCorrected(exitCode: int) returns (r: Result<VersionInfo, string>)
      requires Valid()
      ensures r == CreateVersionInfo(versionMatch, enabledFeatures, disabledFeatures)
      ensures versionMatch.None? ==> r == Err(NoVersion)
      ensures r.Ok? && versionMatch.value.minor == "" ==> r.value.versionMinor == 0
      ensures r.Ok? && versionMatch.value.patch == "" ==> r.value.versionPatch == 0
      ensures r.Ok? ==> (r.value.versionString == versionMatch.value.value
        && r.value.enabledFeatures == enabledFeatures && r.value.disabledFeatures == disabledFeatures)
    {
      r := CreateVersionInfo(versionMatch, enabledFeatures, disabledFeatures);
    }
  }
}
