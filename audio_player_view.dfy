/**
 * The arithmetic of the player component
 * (src/components/AudioPlayer/AudioPlayer.tsx): the `m:ss` time label, the
 * progress-bar percentage and the time a click on the bar seeks to.
 */
module AudioPlayerView {
  /** `Math.trunc`: rounds toward zero. */
  function Trunc(x: real): int
  {
    if x >= 0.0 then x.Floor else -((-x).Floor)
  }

  /** `Math.trunc` drops the fraction: it never moves away from zero and moves less than 1. */
  lemma TruncTowardZero(x: real)
    ensures x >= 0.0 ==> 0 <= Trunc(x) && Trunc(x) as real <= x < Trunc(x) as real + 1.0
    ensures x < 0.0 ==> Trunc(x) <= 0 && Trunc(x) as real - 1.0 < x <= Trunc(x) as real
  {
  }

  /** JavaScript's `%` on numbers: the remainder takes the sign of `x`. */
  function JsRem(x: real, m: real): real
    requires m != 0.0
  {
    x - m * Trunc(x / m) as real
  }

  /**
   * `seconds % 60`, the only remainder the player takes: it has the sign of
   * `x` and a magnitude below 60, and `x` minus it is 60 times the
   * truncated quotient.
   */
  lemma RemainderBySixty(x: real)
    ensures x >= 0.0 ==> 0.0 <= JsRem(x, 60.0) < 60.0
    ensures x < 0.0 ==> -60.0 < JsRem(x, 60.0) <= 0.0
    ensures (x - JsRem(x, 60.0)) / 60.0 == Trunc(x / 60.0) as real
  {
    TruncTowardZero(x / 60.0);
  }

  function DigitChar(d: nat): char
    requires d < 10
  {
    ('0' as int + d) as char
  }

  predicate IsDigit(c: char) { '0' <= c <= '9' }

  function DigitValue(c: char): nat
    requires IsDigit(c)
  {
    c as int - '0' as int
  }

  /** The decimal digits of `n`, most significant first, as `toString()` prints them. */
  function NatToString(n: nat): (s: string)
    ensures |s| >= 1
    ensures forall i :: 0 <= i < |s| ==> IsDigit(s[i])
  {
    if n < 10 then [DigitChar(n)] else NatToString(n / 10) + [DigitChar(n % 10)]
  }

  /** `toString()` of an integer: a minus sign before the digits of a negative one. */
  function IntToString(i: int): string
  {
    if i < 0 then "-" + NatToString(-i) else NatToString(i)
  }

  /**
   * `toString()` of an integer: the digits of a non-negative one, and a
   * minus sign before the digits of the magnitude of a negative one.
   */
  lemma IntToStringShape(i: int)
    ensures var s := IntToString(i);
      (i >= 0 ==> (forall j :: 0 <= j < |s| ==> IsDigit(s[j])) && DecimalValue(s) == i)
      && (i < 0 ==>
            |s| >= 2 && s[0] == '-'
            && (forall j :: 1 <= j < |s| ==> IsDigit(s[j])) && DecimalValue(s[1..]) == -i)
  {
    if i >= 0 {
      DecimalRoundTrip(i);
    } else {
      DecimalRoundTrip(-i);
      assert IntToString(i)[1..] == NatToString(-i);
    }
  }

  /** The number a string of decimal digits denotes. */
  function DecimalValue(s: string): nat
    requires forall i :: 0 <= i < |s| ==> IsDigit(s[i])
  {
    if |s| == 0 then 0
    else 10 * DecimalValue(s[..|s| - 1]) + DigitValue(s[|s| - 1])
  }

  /** Reading back the digits `toString()` prints gives the number. */
  lemma {:induction false} DecimalRoundTrip(n: nat)
    ensures DecimalValue(NatToString(n)) == n
  {
    if n >= 10 {
      var s := NatToString(n);
      assert s[..|s| - 1] == NatToString(n / 10);
      DecimalRoundTrip(n / 10);
    }
  }

  /** `padStart(2, '0')`. */
  function PadStart2(s: string): string
  {
    if |s| >= 2 then s else seq(2 - |s|, _ => '0') + s
  }

  /**
   * `padStart(2, '0')`: a string of two or more characters is kept, a
   * shorter one gets zeros in front up to length 2.
   */
  lemma PadStart2Shape(s: string)
    ensures var p := PadStart2(s);
      |p| == (if |s| >= 2 then |s| else 2)
      && p[|p| - |s|..] == s
      && forall j :: 0 <= j < |p| - |s| ==> p[j] == '0'
  {
  }

  /** `formatTime`: minutes, a colon, and the seconds padded to two places. */
  function FormatTime(seconds: real): string
  {
    var mins := (seconds / 60.0).Floor;
    var secs := JsRem(seconds, 60.0).Floor;
    IntToString(mins) + ":" + PadStart2(IntToString(secs))
  }

  /** For `0 <= secs < 60` the padded field is the tens digit then the units digit. */
  lemma SecondsField(secs: nat)
    requires secs < 60
    ensures PadStart2(IntToString(secs)) == [DigitChar(secs / 10), DigitChar(secs % 10)]
  {
    if secs >= 10 {
      assert NatToString(secs / 10) == [DigitChar(secs / 10)];
    }
  }

  /** For `s >= 0`: floor(s) splits into whole minutes and a remainder below 60. */
  lemma MinutesAndSeconds(s: real)
    requires s >= 0.0
    ensures var m := (s / 60.0).Floor; var r := JsRem(s, 60.0).Floor;
      m >= 0 && 0 <= r < 60 && m * 60 + r == s.Floor
  {
    var m := (s / 60.0).Floor;
    assert m as real <= s / 60.0 < m as real + 1.0;
    assert 60.0 * (m as real) <= s < 60.0 * (m as real) + 60.0;
    var x := JsRem(s, 60.0);
    assert x == s - 60.0 * m as real;
    var r := x.Floor;
    assert r as real <= x < r as real + 1.0;
    assert (m * 60 + r) as real <= s < (m * 60 + r) as real + 1.0;
  }

  /**
   * For a non-negative time, the label is `<minutes>:<ss>`: the minutes
   * floor(s / 60) in decimal, a colon, and the two digits of a seconds
   * count below 60, where minutes * 60 + seconds == floor(s).
   */
  lemma FormatTimeFields(s: real)
    requires s >= 0.0
    ensures var m := (s / 60.0).Floor; var r := JsRem(s, 60.0).Floor;
      0 <= m && 0 <= r < 60 && m * 60 + r == s.Floor
      && FormatTime(s) == NatToString(m) + ":" + [DigitChar(r / 10), DigitChar(r % 10)]
  {
    MinutesAndSeconds(s);
    SecondsField(JsRem(s, 60.0).Floor);
  }

  /** A minute and a quarter reads `1:15`; five seconds read `0:05`. */
  lemma FormatTimeExamples()
    ensures FormatTime(75.5) == "1:15"
    ensures FormatTime(5.0) == "0:05"
  {
    FormatTimeFields(75.5);
    assert (75.5 / 60.0).Floor == 1;
    assert JsRem(75.5, 60.0).Floor == 15;
    FormatTimeFields(5.0);
    assert (5.0 / 60.0).Floor == 0;
    assert JsRem(5.0, 60.0).Floor == 5;
  }

  /** `progress`: the played share of the track in percent, 0 while the duration is unknown. */
  function Progress(currentTime: real, duration: real): real
  {
    if duration > 0.0 then currentTime / duration * 100.0 else 0.0
  }

  /** A position between 0 and the duration shows between 0 and 100 percent. */
  lemma ProgressInRange(currentTime: real, duration: real)
    requires duration > 0.0 && 0.0 <= currentTime <= duration
    ensures 0.0 <= Progress(currentTime, duration) <= 100.0
    ensures Progress(currentTime, duration) == 100.0 <==> currentTime == duration
  {
    var q := currentTime / duration;
    assert q * duration == currentTime;
    assert 0.0 <= q <= 1.0;
    assert q == 1.0 <==> currentTime == duration;
  }

  /** While the duration is not positive the bar shows 0 percent, whatever `currentTime` is. */
  lemma ProgressUnknownDuration(currentTime: real, duration: real)
    requires duration <= 0.0
    ensures Progress(currentTime, duration) == 0.0
  {
  }

  function Max(a: real, b: real): real { if a >= b then a else b }
  function Min(a: real, b: real): real { if a <= b then a else b }

  /** `Math.max(0, Math.min(1, x))`. */
  function Clamp01(x: real): (r: real)
    ensures 0.0 <= r <= 1.0
    ensures 0.0 <= x <= 1.0 ==> r == x
    ensures x < 0.0 ==> r == 0.0
    ensures x > 1.0 ==> r == 1.0
  {
    Max(0.0, Min(1.0, x))
  }

  /** What a click on the progress bar does: nothing, or `onSeek(time)`. */
  datatype SeekRequest = NoSeek | SeekTo(time: real)

  /**
   * `handleProgressClick`: nothing without a bar element or while the
   * duration is not positive; otherwise the click's share of the bar width,
   * clamped to [0, 1], times the duration.
   */
  function SeekTarget(barPresent: bool, clientX: real, barLeft: real, barWidth: real, duration: real)
    : (target: SeekRequest)
    requires barPresent && duration > 0.0 ==> barWidth > 0.0
    ensures target.SeekTo? <==> barPresent && duration > 0.0
    ensures target.SeekTo? ==> 0.0 <= target.time <= duration
  {
    if !barPresent || duration <= 0.0 then NoSeek
    else
      var percent := Clamp01(Ratio(clientX - barLeft, barWidth));
      ScaleWithin(percent, duration);
      SeekTo(percent * duration)
  }

  /** The share `offset / width` of the bar a click falls at. */
  function Ratio(offset: real, width: real): real
    requires width > 0.0
  {
    offset / width
  }

  /** An offset within the width is a share between 0 and 1. */
  lemma RatioWithin(offset: real, width: real)
    requires width > 0.0 && 0.0 <= offset <= width
    ensures 0.0 <= Ratio(offset, width) <= 1.0
  {
    var q := offset / width;
    assert q * width == offset;
    assert (q - 1.0) * width <= 0.0;
  }

  /** A fraction in [0, 1] of a positive length lies between 0 and that length. */
  lemma ScaleWithin(p: real, d: real)
    requires 0.0 <= p <= 1.0 && d > 0.0
    ensures 0.0 <= p * d <= d
  {
    assert d - p * d == (1.0 - p) * d;
  }

  /** A click inside the bar seeks proportionally, with no clamping. */
  lemma SeekInsideBar(clientX: real, barLeft: real, barWidth: real, duration: real)
    requires barWidth > 0.0 && duration > 0.0
    requires barLeft <= clientX <= barLeft + barWidth
    ensures var target := SeekTarget(true, clientX, barLeft, barWidth, duration);
      target.SeekTo? && target.time == (clientX - barLeft) / barWidth * duration
  {
    var q := Ratio(clientX - barLeft, barWidth);
    RatioWithin(clientX - barLeft, barWidth);
    assert Clamp01(q) == q;
    var target := SeekTarget(true, clientX, barLeft, barWidth, duration);
    assert target.SeekTo?;
    assert target.time == Clamp01(q) * duration == q * duration;
  }

  /** After seeking by a click, the bar shows the clicked share of its width. */
  lemma SeekThenProgress(clientX: real, barLeft: real, barWidth: real, duration: real)
    requires barWidth > 0.0 && duration > 0.0
    ensures var target := SeekTarget(true, clientX, barLeft, barWidth, duration);
      target.SeekTo?
      && Progress(target.time, duration) == Clamp01(Ratio(clientX - barLeft, barWidth)) * 100.0
  {
    var p := Clamp01(Ratio(clientX - barLeft, barWidth));
    assert p * duration / duration == p;
  }
}
