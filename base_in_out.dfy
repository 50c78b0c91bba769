/** `BaseInOut.formatDuration`: a duration in milliseconds rendered as the decimal
    seconds string ffmpeg accepts for `-ss`, `-t` and `-to`. */
module BaseInOut {
  import opened Wrappers
  import opened Text

  /** The absolute value of a duration. */
  function Magnitude(ms: int): nat {
    if ms < 0 then -ms else ms
  }

  /** A sign for negative input, the whole seconds with no grouping, a point, and the
      milliseconds zero-padded to three digits. */
  function FormatDuration(ms: int): string {
    (if ms < 0 then "-" else "") + NatToString(Magnitude(ms) / 1000) + "." + Pad3(Magnitude(ms) % 1000)
  }

  /** Reads back a string of the shape `FormatDuration` writes: an optional `-`, one or
      more digits, `.`, exactly three digits. Anything else gives None. */
  function ParseDuration(s: string): Option<int> {
    var negative := |s| > 0 && s[0] == '-';
    var body := if negative then s[1..] else s;
    if |body| < 5 || body[|body| - 4] != '.' then None
    else
      match (ParseNat(body[..|body| - 4]), ParseNat(body[|body| - 3..]))
      case (Some(seconds), Some(millis)) =>
        var total: int := seconds * 1000 + millis;
        Some(if negative then -total else total)
      case _ => None
  }

  /** The unsigned part: seconds, point, three digits. */
  lemma UnsignedShape(n: nat)
    ensures var body := NatToString(n / 1000) + "." + Pad3(n % 1000);
      |body| >= 5 && body[|body| - 4] == '.'
      && body[..|body| - 4] == NatToString(n / 1000)
      && body[|body| - 3..] == Pad3(n % 1000)
      && (forall i :: |body| - 3 <= i < |body| ==> IsDigit(body[i]))
      && IsDigit(body[0])
  {
    var body := NatToString(n / 1000) + "." + Pad3(n % 1000);
    assert body[|body| - 3..] == Pad3(n % 1000);
    assert body[..|body| - 4] == NatToString(n / 1000);
  }

  /** There are always exactly three digits after the point, and the point is the
      fourth character from the end. */
  lemma ThreeDecimals(ms: int)
    ensures var r := FormatDuration(ms);
      |r| >= 5 && r[|r| - 4] == '.' && forall i :: |r| - 3 <= i < |r| ==> IsDigit(r[i])
  {
    UnsignedShape(Magnitude(ms));
    var body := NatToString(Magnitude(ms) / 1000) + "." + Pad3(Magnitude(ms) % 1000);
    assert FormatDuration(ms) == (if ms < 0 then "-" else "") + body;
  }

  /** A negative duration renders as `-` and the rendering of its magnitude. */
  lemma NegativeDuration(ms: int)
    requires ms > 0
    ensures FormatDuration(-ms) == "-" + FormatDuration(ms)
  {
  }

  /** The unsigned part reads back as its seconds and its milliseconds. */
  lemma UnsignedParts(n: nat)
    ensures var body := NatToString(n / 1000) + "." + Pad3(n % 1000);
      |body| >= 5 && body[|body| - 4] == '.' && body[0] != '-'
      && ParseNat(body[..|body| - 4]) == Some(n / 1000)
      && ParseNat(body[|body| - 3..]) == Some(n % 1000)
  {
    UnsignedShape(n);
    ParseNatToString(n / 1000);
    var body := NatToString(n / 1000) + "." + Pad3(n % 1000);
    assert ParseNat(body[|body| - 3..]) == Some(n % 1000);
  }

  /** `FormatDuration` loses nothing: parsing its output gives the duration back. */
  lemma DurationRoundTrip(ms: int)
    ensures ParseDuration(FormatDuration(ms)) == Some(ms)
  {
    var n := Magnitude(ms);
    var body := NatToString(n / 1000) + "." + Pad3(n % 1000);
    UnsignedParts(n);
    var s := FormatDuration(ms);
    if ms < 0 {
      assert s == "-" + body;
      assert s[1..] == body;
    } else {
      assert s == body;
    }
  }


  /** A non-negative duration is its seconds, a point and its three millisecond digits. */
  lemma DurationParts(seconds: nat, millis: nat)
    requires millis < 1000
    ensures FormatDuration(seconds * 1000 + millis) == NatToString(seconds) + "." + Pad3(millis)
  {
    var n := seconds * 1000 + millis;
    assert Magnitude(n) == n;
    assert n / 1000 == seconds && n % 1000 == millis;
    var digits := NatToString(seconds);
    assert FormatDuration(n) == "" + digits + "." + Pad3(millis);
    assert "" + digits == digits;
  }

  lemma SecondsDigits()
    ensures NatToString(123) == "123"
  {
    assert NatToString(12) == NatToString(1) + [DigitChar(2)] == "12";
  }

  lemma MillisDigits()
    ensures Pad3(56) == "056"
  {
    assert Pad3(56) == [DigitChar(0), DigitChar(5), DigitChar(6)];
  }

  /** The documented example of zero padding: 123 seconds and 56 milliseconds. */
  lemma PaddedDurationExample(ms: int)
    requires ms == 123_056
    ensures FormatDuration(ms) == "123.056"
  {
    DurationParts(123, 56);
    SecondsDigits();
    MillisDigits();
  }


}
