/**
 * The pure parts of the capture timer panel: the `m:ss` display of a number of
 * seconds, the duration presets, the slider bounds and the start button's guard.
 */
module CaptureTimer {
  import opened DecimalText

  /** JavaScript's `%` on integers: the remainder takes the sign of the dividend. */
  function JsRemainder(a: int, m: nat): (r: int)
    requires m > 0
    ensures a >= 0 ==> r == a % m
    ensures a < 0 ==> 0 <= -r < m && a == -((-a) / m) * m + r
  {
    if a >= 0 then a % m else -((-a) % m)
  }

  /** `s.padStart(width, fill)` with a one-character fill. */
  function PadStart(s: string, width: nat, fill: char): (r: string)
    ensures |s| >= width ==> r == s
    ensures |s| < width ==> |r| == width
    ensures |r| >= |s| && r[|r| - |s|..] == s
    ensures forall i :: 0 <= i < |r| - |s| ==> r[i] == fill
  {
    if |s| >= width then s else seq(width - |s|, _ => fill) + s
  }

  /**
   * `formatTimeDisplay`: floored minutes, ':', then the JavaScript remainder left-padded
   * to two characters with '0'. (Dafny's `/` by a positive divisor is floor division.)
   */
  function FormatTimeDisplay(seconds: int): (r: string)
    ensures seconds < 0 ==> |r| > 0 && r[0] == '-'
  {
    FromInt(seconds / 60) + ":" + PadStart(FromInt(JsRemainder(seconds, 60)), 2, '0')
  }

  /** The `m:ss` shape: some minute digits, ':', exactly two second digits. */
  predicate IsTimeDisplay(s: string) {
    |s| >= 4 && s[|s| - 3] == ':' && AllDigits(s[..|s| - 3]) && AllDigits(s[|s| - 2..])
  }

  /** The digits before the ':' of an `m:ss` string. */
  function MinutesField(s: string): (f: string)
    requires IsTimeDisplay(s)
    ensures AllDigits(f)
  {
    s[..|s| - 3]
  }

  /** The two digits after the ':' of an `m:ss` string. */
  function SecondsField(s: string): (f: string)
    requires IsTimeDisplay(s)
    ensures |f| == 2 && AllDigits(f)
  {
    s[|s| - 2..]
  }

  /** Reads an `m:ss` string back as minutes * 60 + seconds. */
  function ParseTimeDisplay(s: string): int
    requires IsTimeDisplay(s)
  {
    Value(MinutesField(s)) * 60 + Value(SecondsField(s))
  }

  /** The seconds field: a count below 60 padded to exactly two digits that denote it. */
  lemma TwoDigitSeconds(k: nat)
    requires k < 60
    ensures var p := PadStart(FromNat(k), 2, '0');
            |p| == 2 && AllDigits(p) && Value(p) == k && (p[0] == '0' <==> k < 10)
  {
    var p := PadStart(FromNat(k), 2, '0');
    if k < 10 {
      assert p == ['0', DigitChar(k)];
    } else {
      assert FromNat(k / 10) == [DigitChar(k / 10)];
      assert p == [DigitChar(k / 10), DigitChar(k % 10)];
    }
    assert p[..1] == [p[0]] && p[..1][..0] == [];
    assert Value(p[..1]) == DigitValue(p[0]);
    assert Value(p) == DigitValue(p[0]) * 10 + DigitValue(p[1]);
  }

  /** Joining a numeral and a two-digit field with ':' gives the `m:ss` shape with both fields intact. */
  lemma JoinFields(mins: string, secs: string)
    requires |mins| >= 1 && AllDigits(mins) && |secs| == 2 && AllDigits(secs)
    ensures IsTimeDisplay(mins + ":" + secs)
    ensures MinutesField(mins + ":" + secs) == mins && SecondsField(mins + ":" + secs) == secs
  {
  }

  /**
   * For a non-negative count the display is the minutes, ':', and the seconds
   * below 60 written with exactly two digits, the first being '0' exactly when
   * the seconds are below 10.
   */
  lemma FormatTimeFields(seconds: nat)
    ensures IsTimeDisplay(FormatTimeDisplay(seconds))
    ensures Value(MinutesField(FormatTimeDisplay(seconds))) == seconds / 60
    ensures MinutesField(FormatTimeDisplay(seconds)) == FromNat(seconds / 60)
    ensures Value(SecondsField(FormatTimeDisplay(seconds))) == seconds % 60
    ensures SecondsField(FormatTimeDisplay(seconds))[0] == '0' <==> seconds % 60 < 10
  {
    var r := FormatTimeDisplay(seconds);
    var m, k := seconds / 60, seconds % 60;
    var mins, secs := FromNat(m), PadStart(FromNat(k), 2, '0');
    assert r == mins + ":" + secs by {
      assert JsRemainder(seconds, 60) == k;
    }
    FromNatSound(m);
    TwoDigitSeconds(k);
    JoinFields(mins, secs);
  }

  /** Round trip: reading the display of a non-negative count gives the count back. */
  lemma FormatTimeRoundTrip(seconds: nat)
    ensures IsTimeDisplay(FormatTimeDisplay(seconds))
    ensures ParseTimeDisplay(FormatTimeDisplay(seconds)) == seconds
  {
    FormatTimeFields(seconds);
  }

  /** Worked values, including the negative inputs where JavaScript's `%` keeps the sign. */
  lemma FormatTimeExamples()
    ensures FormatTimeDisplay(5) == "0:05"
    ensures FormatTimeDisplay(300) == "5:00"
    ensures FormatTimeDisplay(1800) == "30:00"
    ensures FormatTimeDisplay(-5) == "-1:-5"
  {
  }

  /** A duration preset; `name` holds the source's `label` field, since `label` is a reserved word in Dafny. */
  datatype Preset = Preset(name: string, value: int)

  /** `timePresets`, in seconds. */
  const TimePresets: seq<Preset> :=
    [Preset("30s", 30), Preset("1m", 60), Preset("5m", 300), Preset("15m", 900), Preset("30m", 1800)]

  /** The initial `selectedTime`. */
  const DefaultSelectedTime := 30

  const SliderMin := 5
  const SliderMax := 1800
  const SliderStep := 5

  /** A value the duration slider can take. */
  predicate OnSlider(v: int) {
    SliderMin <= v <= SliderMax && (v - SliderMin) % SliderStep == 0
  }

  /** The start button's `disabled` flag. */
  predicate StartDisabled(selectedTime: int) {
    selectedTime <= 0
  }

  /** Every preset and the default are slider positions. */
  lemma PresetsOnSlider()
    ensures forall i :: 0 <= i < |TimePresets| ==> OnSlider(TimePresets[i].value)
    ensures OnSlider(DefaultSelectedTime)
  {
  }

  /** Start is enabled at every slider position. */
  lemma StartEnabledOnSlider(v: int)
    requires OnSlider(v)
    ensures !StartDisabled(v)
  {
  }
}
