/** Character and string helpers shared by the log parsers, the argument builder and
    the version scanner: Kotlin's `trim`, `isBlank`, `contains`, `startsWith`,
    `indexOf`, `split`, and decimal rendering and parsing of non-negative numbers. */
module Text {
  import opened Wrappers

  /** A byte as the JVM stores it once masked with 0xFF. */
  type Byte = x: int | 0 <= x < 256

  /** Kotlin's `Char.isWhitespace` restricted to the characters below U+0080. */
  predicate IsWhitespace(c: char) {
    c == ' ' || c == '\t' || c == '\n' || c == '\r' || c == '\U{B}' || c == '\U{C}'
    || ('\U{1C}' <= c <= '\U{1F}')
  }

  predicate IsDigit(c: char) {
    '0' <= c <= '9'
  }

  /** Kotlin's `CharSequence.isBlank`: empty or only whitespace. */
  predicate IsBlank(s: string) {
    forall i :: 0 <= i < |s| ==> IsWhitespace(s[i])
  }

  /** The first index at or after `i` that does not hold whitespace, or `|s|`. */
  function SkipBlanks(s: string, i: nat): (k: nat)
    requires i <= |s|
    ensures i <= k <= |s|
    ensures forall j :: i <= j < k ==> IsWhitespace(s[j])
    ensures k < |s| ==> !IsWhitespace(s[k])
    decreases |s| - i
  {
    if i < |s| && IsWhitespace(s[i]) then SkipBlanks(s, i + 1) else i
  }

  /** The end of `s[lo..j]` once its trailing whitespace is cut off. */
  function SkipBlanksBack(s: string, lo: nat, j: nat): (k: nat)
    requires lo <= j <= |s|
    ensures lo <= k <= j
    ensures forall m :: k <= m < j ==> IsWhitespace(s[m])
    ensures k > lo ==> !IsWhitespace(s[k - 1])
    decreases j
  {
    if j > lo && IsWhitespace(s[j - 1]) then SkipBlanksBack(s, lo, j - 1) else j
  }

  /** Where the trimmed text starts in `s`. */
  function TrimStart(s: string): nat
    ensures TrimStart(s) <= |s|
  {
    SkipBlanks(s, 0)
  }

  /** Kotlin's `String.trim()`: a slice of `s` that neither starts nor ends with
      whitespace, everything cut off on either side being whitespace. */
  function Trim(s: string): (r: string)
    ensures TrimStart(s) + |r| <= |s| && r == s[TrimStart(s)..TrimStart(s) + |r|]
    ensures forall j :: 0 <= j < TrimStart(s) ==> IsWhitespace(s[j])
    ensures forall j :: TrimStart(s) + |r| <= j < |s| ==> IsWhitespace(s[j])
    ensures r != [] ==> !IsWhitespace(r[0]) && !IsWhitespace(r[|r| - 1])
    ensures r == [] <==> IsBlank(s)
  {
    var a := SkipBlanks(s, 0);
    var b := SkipBlanksBack(s, a, |s|);
    assert b > a ==> s[a..b][0] == s[a] && s[a..b][b - a - 1] == s[b - 1];
    assert b == a ==> a == |s|;
    s[a..b]
  }

  predicate StartsWith(s: string, prefix: string) {
    |prefix| <= |s| && s[..|prefix|] == prefix
  }

  predicate EndsWith(s: string, suffix: string) {
    |suffix| <= |s| && s[|s| - |suffix|..] == suffix
  }

  /** Kotlin's `CharSequence.contains(other)`. */
  predicate Contains(s: string, t: string)
    decreases |s|
  {
    StartsWith(s, t) || (s != [] && Contains(s[1..], t))
  }

  lemma {:induction false} ContainsAt(s: string, t: string, k: nat)
    requires k + |t| <= |s| && s[k..k + |t|] == t
    ensures Contains(s, t)
    decreases k
  {
    if k > 0 {
      assert s[1..][k - 1..k - 1 + |t|] == t;
      ContainsAt(s[1..], t, k - 1);
    }
  }

  /** Kotlin's `CharSequence.indexOf(char, startIndex)`: the first index at or after
      `from` holding `c`, or -1 when there is none. */
  function IndexOf(s: string, c: char, from: nat): (r: int)
    ensures r == -1 || (from <= r < |s| && s[r] == c)
    decreases |s| - from
  {
    if from >= |s| then -1
    else if s[from] == c then from
    else IndexOf(s, c, from + 1)
  }

  /** `IndexOf` finds the first occurrence: no index from `from` on before the result
      (or before the end, when there is none) holds `c`. */
  lemma {:induction false} IndexOfFirst(s: string, c: char, from: nat)
    ensures forall i :: from <= i < |s| && (IndexOf(s, c, from) == -1 || i < IndexOf(s, c, from)) ==> s[i] != c
    decreases |s| - from
  {
    if from < |s| && s[from] != c {
      IndexOfFirst(s, c, from + 1);
    }
  }

  /** `IndexOf` is determined by where the character occurs: any index with the
      character there and none before it, from `from` on, is the one. */
  lemma IndexOfIs(s: string, c: char, from: nat, r: int)
    requires r == -1 || (from <= r < |s| && s[r] == c)
    requires forall i :: from <= i < |s| && (r == -1 || i < r) ==> s[i] != c
    ensures IndexOf(s, c, from) == r
  {
    var q := IndexOf(s, c, from);
    IndexOfFirst(s, c, from);
    if q >= 0 {
      assert s[q] == c;
    }
    if r >= 0 {
      assert s[r] == c;
    }
  }

  /** Kotlin's `String.split(c)`: every maximal run between occurrences of `c`,
      empty runs included, so there is always one more part than there are `c`s. */
  function Split(s: string, c: char): (parts: seq<string>)
    ensures |parts| >= 1
    decreases |s|
  {
    var i := IndexOf(s, c, 0);
    if i < 0 then [s] else [s[..i]] + Split(s[i + 1..], c)
  }

  /** No part holds the separator. */
  lemma {:induction false} SplitParts(s: string, c: char)
    ensures forall k :: 0 <= k < |Split(s, c)| ==> c !in Split(s, c)[k]
    decreases |s|
  {
    var i := IndexOf(s, c, 0);
    IndexOfFirst(s, c, 0);
    if i < 0 {
      assert c !in s by {
        forall k | 0 <= k < |s| ensures s[k] != c { }
      }
    } else {
      SplitParts(s[i + 1..], c);
      assert c !in s[..i] by {
        forall k | 0 <= k < i ensures s[..i][k] != c { }
      }
      var rest := Split(s[i + 1..], c);
      assert Split(s, c) == [s[..i]] + rest;
      forall k | 0 < k < |Split(s, c)| ensures c !in Split(s, c)[k] {
        assert Split(s, c)[k] == rest[k - 1];
      }
    }
  }

  /** The parts with one `c` between consecutive ones. */
  function Join(parts: seq<string>, c: char): string {
    if |parts| <= 1 then (if parts == [] then "" else parts[0])
    else parts[0] + [c] + Join(parts[1..], c)
  }

  /** Joining one more part adds `c` and the part, unless it is the first. */
  lemma {:induction false} JoinSnoc(parts: seq<string>, part: string, c: char)
    ensures Join(parts + [part], c) == if parts == [] then part else Join(parts, c) + [c] + part
    decreases |parts|
  {
    if |parts| >= 2 {
      assert (parts + [part])[1..] == parts[1..] + [part];
      JoinSnoc(parts[1..], part, c);
    } else if |parts| == 1 {
      assert (parts + [part])[1..] == [part];
    }
  }

  lemma {:induction false} JoinSplit(s: string, c: char)
    ensures Join(Split(s, c), c) == s
    decreases |s|, 1
  {
    var i := IndexOf(s, c, 0);
    if i >= 0 {
      JoinSplitAt(s, c, i);
    }
  }

  /** The case of `JoinSplit` where the first separator is at `i`. */
  lemma {:induction false} JoinSplitAt(s: string, c: char, i: nat)
    requires i == IndexOf(s, c, 0)
    ensures Join(Split(s, c), c) == s
    decreases |s|, 0
  {
    var rest := Split(s[i + 1..], c);
    var parts := Split(s, c);
    assert parts[0] == s[..i] && parts[1..] == rest by {
      assert parts == [s[..i]] + rest;
    }
    assert Join(parts, c) == s[..i] + [c] + Join(rest, c);
    JoinSplit(s[i + 1..], c);
    assert s[i] == c;
    Around(s, i);
  }

  /** Splitting parts joined by a separator none of them holds gives the parts back. */
  lemma {:induction false} SplitJoin(parts: seq<string>, c: char)
    requires |parts| >= 1 && forall k :: 0 <= k < |parts| ==> c !in parts[k]
    ensures Split(Join(parts, c), c) == parts
    decreases |parts|
  {
    if |parts| == 1 {
      IndexOfIs(Join(parts, c), c, 0, -1);
    } else {
      SplitFirstPart(parts[0], Join(parts[1..], c), c);
      SplitJoin(parts[1..], c);
      assert [parts[0]] + parts[1..] == parts;
    }
  }

  /** A part with no `c`, then `c`: splitting takes the part off first. */
  lemma SplitFirstPart(a: string, rest: string, c: char)
    requires c !in a
    ensures Split(a + [c] + rest, c) == [a] + Split(rest, c)
  {
    var s := a + [c] + rest;
    assert s[|a|] == c;
    forall k | 0 <= k < |a| ensures s[k] != c {
      assert s[k] == a[k];
    }
    IndexOfIs(s, c, 0, |a|);
    assert s[..|a|] == a && s[|a| + 1..] == rest;
  }

  /** A string is what comes before index `i`, the character there, and the rest. */
  lemma Around(s: string, i: nat)
    requires i < |s|
    ensures s[..i] + [s[i]] + s[i + 1..] == s
  {
    assert s[i..] == [s[i]] + s[i + 1..];
  }

  /** The decimal digits of `d`, 0 to 9. */
  function DigitChar(d: nat): (c: char)
    requires d < 10
    ensures IsDigit(c) && (c as int) - ('0' as int) == d
  {
    (('0' as int) + d) as char
  }

  /** `Long.toString` for a non-negative value: no sign, no leading zero, no grouping. */
  function NatToString(n: nat): (r: string)
    ensures |r| >= 1 && forall i :: 0 <= i < |r| ==> IsDigit(r[i])
    ensures |r| > 1 ==> r[0] != '0'
  {
    if n < 10 then [DigitChar(n)] else NatToString(n / 10) + [DigitChar(n % 10)]
  }

  /** The value of a string of decimal digits, most significant first. */
  function DigitsValue(s: string): nat
    requires forall i :: 0 <= i < |s| ==> IsDigit(s[i])
  {
    if s == [] then 0
    else
      assert IsDigit(s[|s| - 1]);
      DigitsValue(s[..|s| - 1]) * 10 + ((s[|s| - 1] as int) - ('0' as int))
  }

  /** A non-empty run of decimal digits read as a number; anything else gives None. */
  function ParseNat(s: string): (r: Option<nat>)
    ensures r.Some? <==> s != [] && forall i :: 0 <= i < |s| ==> IsDigit(s[i])
  {
    if s != [] && forall i :: 0 <= i < |s| ==> IsDigit(s[i]) then Some(DigitsValue(s)) else None
  }

  lemma {:induction false} ParseNatToString(n: nat)
    ensures ParseNat(NatToString(n)) == Some(n)
  {
    if n >= 10 {
      ParseNatToString(n / 10);
      var r := NatToString(n);
      assert r[..|r| - 1] == NatToString(n / 10);
      assert DigitsValue(r) == DigitsValue(NatToString(n / 10)) * 10 + n % 10;
    }
  }

  /** `String.format("%03d", n)` for 0 <= n < 1000: exactly three digits. */
  function Pad3(n: nat): (r: string)
    requires n < 1000
    ensures |r| == 3 && forall i :: 0 <= i < 3 ==> IsDigit(r[i])
    ensures DigitsValue(r) == n
  {
    var r := [DigitChar(n / 100), DigitChar(n / 10 % 10), DigitChar(n % 10)];
    assert r[..2][..1] == [r[0]] && r[..2][..1][..0] == [];
    assert DigitsValue(r[..2][..1]) == n / 100;
    assert DigitsValue(r[..2]) == n / 100 * 10 + n / 10 % 10;
    r
  }

  /** A character of the ASCII upper-case alphabet turned lower case; others kept. */
  function LowerChar(c: char): (r: char)
    ensures ('A' <= c <= 'Z') ==> 'a' <= r <= 'z'
    ensures !('A' <= c <= 'Z') ==> r == c
  {
    if 'A' <= c <= 'Z' then ((c as int) + 32) as char else c
  }

  /** `String.toLowerCase()` restricted to ASCII letters. */
  function ToLower(s: string): (r: string)
    ensures |r| == |s| && forall i :: 0 <= i < |s| ==> r[i] == LowerChar(s[i])
  {
    seq(|s|, i requires 0 <= i < |s| => LowerChar(s[i]))
  }

  /** `String(bytes)` for bytes below 0x80: each byte is the character with that code. */
  function BytesToString(bytes: seq<Byte>): (r: string)
    ensures |r| == |bytes| && forall i :: 0 <= i < |bytes| ==> r[i] as int == bytes[i]
  {
    seq(|bytes|, i requires 0 <= i < |bytes| => bytes[i] as char)
  }
}
