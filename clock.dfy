/**
 * Wall-clock times of day. The repository stores times as `HH:MM:SS` strings and
 * compares them either as strings (as keys) or through `timeStringToSeconds`.
 * This module proves that canonical strings and seconds since midnight are in
 * bijection and order the same way, so the rest of the model works on seconds.
 * It also holds the renderings the views produce: `H:mm:ss` durations,
 * `HH:mm`, `hh:mm:ss A`, and the 12-hour to 24-hour conversion used by delete.
 */
module Clock {
  import opened Wrappers
  import opened Text

  /** Seconds since midnight. */
  type TimeOfDay = t: int | 0 <= t < 86400

  /** `timeStringToSeconds`: split on ':' and combine the first three fields;
      None stands for NaN (a missing or non-numeric field). */
  function TimeStringToSeconds(s: string): Option<int> {
    FieldsToSeconds(Split(s, ':'))
  }

  /** The arithmetic of `timeStringToSeconds` on the split fields; a missing field is
      `undefined`, which makes the sum NaN. */
  function FieldsToSeconds(parts: seq<string>): Option<int> {
    if |parts| < 3 then None
    else
      var h, m, sec := JsNumber(parts[0]), JsNumber(parts[1]), JsNumber(parts[2]);
      if h.Some? && m.Some? && sec.Some? then Some(h.value * 3600 + m.value * 60 + sec.value) else None
  }

  function Field(s: string, i: nat): nat
    requires i + 1 < |s| && IsDigit(s[i]) && IsDigit(s[i + 1])
  {
    DigitValue(s[i]) * 10 + DigitValue(s[i + 1])
  }

  /** A 24-hour `HH:MM:SS` string with every field in range. */
  predicate IsCanonicalTime(s: string) {
    && |s| == 8
    && IsDigit(s[0]) && IsDigit(s[1]) && s[2] == ':'
    && IsDigit(s[3]) && IsDigit(s[4]) && s[5] == ':'
    && IsDigit(s[6]) && IsDigit(s[7])
    && Field(s, 0) < 24 && Field(s, 3) < 60 && Field(s, 6) < 60
  }

  function CanonicalSeconds(s: string): nat
    requires IsCanonicalTime(s)
  {
    Field(s, 0) * 3600 + Field(s, 3) * 60 + Field(s, 6)
  }

  /** Three digit fields joined by ':' read as h*3600 + m*60 + s. */
  lemma TimeStringOfFields(hh: string, mm: string, ss: string)
    requires AllDigits(hh) && AllDigits(mm) && AllDigits(ss)
    ensures TimeStringToSeconds(hh + ":" + mm + ":" + ss)
         == Some(DecimalValue(hh) * 3600 + DecimalValue(mm) * 60 + DecimalValue(ss))
  {
    NoSeparatorInDigits(hh, ':');
    NoSeparatorInDigits(mm, ':');
    NoSeparatorInDigits(ss, ':');
    var text := hh + ":" + mm + ":" + ss;
    assert text == hh + [':'] + mm + [':'] + ss;
    SplitThree(hh, mm, ss, ':');
    FieldsOfDigits(hh, mm, ss);
  }

  lemma FieldsOfDigits(hh: string, mm: string, ss: string)
    requires AllDigits(hh) && AllDigits(mm) && AllDigits(ss)
    ensures FieldsToSeconds([hh, mm, ss])
         == Some(DecimalValue(hh) * 3600 + DecimalValue(mm) * 60 + DecimalValue(ss))
  {
    var parts := [hh, mm, ss];
    var a, b, c := DecimalValue(hh), DecimalValue(mm), DecimalValue(ss);
    assert JsNumber(hh) == Some(a) && JsNumber(mm) == Some(b) && JsNumber(ss) == Some(c);
    assert parts[0] == hh && parts[1] == mm && parts[2] == ss;
    assert FieldsToSeconds(parts) == Some(a * 3600 + b * 60 + c);
  }

  /** `timeStringToSeconds` of a canonical string is h*3600 + m*60 + s, within one day. */
  lemma CanonicalTimeValue(s: string)
    requires IsCanonicalTime(s)
    ensures TimeStringToSeconds(s) == Some(Field(s, 0) * 3600 + Field(s, 3) * 60 + Field(s, 6))
    ensures CanonicalSeconds(s) <= 86399
  {
    var hh, mm, ss := s[..2], s[3..5], s[6..];
    assert s == hh + ":" + mm + ":" + ss;
    assert AllDigits(hh) && AllDigits(mm) && AllDigits(ss);
    TimeStringOfFields(hh, mm, ss);
    TwoDigitValue(hh);
    TwoDigitValue(mm);
    TwoDigitValue(ss);
  }

  /** JavaScript's `a < b` on strings: code-unit lexicographic order. */
  predicate LexLess(a: string, b: string) {
    if |a| == 0 then |b| > 0
    else if |b| == 0 then false
    else if a[0] != b[0] then a[0] < b[0]
    else LexLess(a[1..], b[1..])
  }

  lemma {:induction false} LexLessIrreflexive(a: string)
    ensures !LexLess(a, a)
  {
    if |a| > 0 {
      LexLessIrreflexive(a[1..]);
    }
  }

  lemma {:induction false} LexLessAt(a: string, b: string, k: nat)
    requires |a| == |b| && k < |a| && a[..k] == b[..k] && a[k] != b[k]
    ensures LexLess(a, b) <==> a[k] < b[k]
  {
    if k > 0 {
      assert a[0] == a[..k][0] == b[..k][0] == b[0];
      assert a[1..][..k - 1] == a[1..k] == a[..k][1..];
      assert b[1..][..k - 1] == b[1..k] == b[..k][1..];
      LexLessAt(a[1..], b[1..], k - 1);
    }
  }

  /** The longest common prefix of two strings of equal length. */
  lemma CommonPrefix(a: string, b: string) returns (k: nat)
    requires |a| == |b|
    ensures k <= |a| && a[..k] == b[..k]
    ensures k < |a| ==> a[k] != b[k]
    ensures k == |a| ==> a == b
  {
    k := 0;
    while k < |a| && a[k] == b[k]
      invariant k <= |a| && a[..k] == b[..k]
    {
      assert a[..k + 1] == a[..k] + [a[k]];
      assert b[..k + 1] == b[..k] + [b[k]];
      k := k + 1;
    }
    if k == |a| {
      assert a == a[..k] && b == b[..k];
    }
  }

  /** A canonical string that is smaller at its first difference has fewer seconds. */
  lemma CanonicalLessAt(a: string, b: string, k: nat)
    requires IsCanonicalTime(a) && IsCanonicalTime(b)
    requires k < 8 && a[..k] == b[..k] && a[k] < b[k]
    ensures CanonicalSeconds(a) < CanonicalSeconds(b)
  {
    forall i | 0 <= i < k ensures a[i] == b[i] {
      assert a[i] == a[..k][i];
    }
    var a0, a1, a3, a4, a6, a7 := DigitValue(a[0]), DigitValue(a[1]), DigitValue(a[3]), DigitValue(a[4]), DigitValue(a[6]), DigitValue(a[7]);
    var b0, b1, b3, b4, b6, b7 := DigitValue(b[0]), DigitValue(b[1]), DigitValue(b[3]), DigitValue(b[4]), DigitValue(b[6]), DigitValue(b[7]);
    assert a3 <= 5 && b3 <= 5 && a6 <= 5 && b6 <= 5;
    assert CanonicalSeconds(a) == a0 * 36000 + a1 * 3600 + a3 * 600 + a4 * 60 + a6 * 10 + a7;
    assert CanonicalSeconds(b) == b0 * 36000 + b1 * 3600 + b3 * 600 + b4 * 60 + b6 * 10 + b7;
  }

  /** Canonical strings order, and are equal, exactly as their seconds do. */
  lemma CanonicalOrder(a: string, b: string)
    requires IsCanonicalTime(a) && IsCanonicalTime(b)
    ensures LexLess(a, b) <==> CanonicalSeconds(a) < CanonicalSeconds(b)
    ensures a == b <==> CanonicalSeconds(a) == CanonicalSeconds(b)
  {
    var k := CommonPrefix(a, b);
    if k == |a| {
      LexLessIrreflexive(a);
    } else {
      LexLessAt(a, b, k);
      if a[k] < b[k] {
        CanonicalLessAt(a, b, k);
      } else {
        CanonicalLessAt(b, a, k);
      }
    }
  }

  /** The canonical `HH:MM:SS` text of a time of day. */
  function FormatTime(t: TimeOfDay): string {
    PadStart2(t / 3600) + ":" + PadStart2(t / 60 % 60) + ":" + PadStart2(t % 60)
  }

  lemma FormatTimeCanonical(t: TimeOfDay)
    ensures IsCanonicalTime(FormatTime(t)) && CanonicalSeconds(FormatTime(t)) == t
  {
    var hh, mm, ss := PadStart2(t / 3600), PadStart2(t / 60 % 60), PadStart2(t % 60);
    var s := FormatTime(t);
    assert s[..2] == hh && s[3..5] == mm && s[6..] == ss;
    TwoDigitValue(hh);
    TwoDigitValue(mm);
    TwoDigitValue(ss);
    assert hh[0] == s[0] && hh[1] == s[1] && mm[0] == s[3] && mm[1] == s[4] && ss[0] == s[6] && ss[1] == s[7];
    SecondsSplit(t);
  }

  /** Hours, minutes and seconds of a number of seconds recombine to it. */
  lemma SecondsSplit(d: nat)
    ensures d == (d / 3600) * 3600 + (d / 60 % 60) * 60 + d % 60
  {
    var q := d / 60;
    assert d == q * 60 + d % 60;
    assert q == (q / 60) * 60 + q % 60;
    assert d / 3600 == q / 60;
  }

  /** Seconds and canonical strings are in bijection: formatting then parsing is the identity,
      and so is parsing then formatting. */
  lemma TimeTextRoundTrip(t: TimeOfDay, s: string)
    ensures TimeStringToSeconds(FormatTime(t)) == Some(t)
    ensures IsCanonicalTime(s) ==> FormatTime(CanonicalSeconds(s)) == s
  {
    FormatThenRead(t);
    if IsCanonicalTime(s) {
      ReadThenFormat(s);
    }
  }

  lemma FormatThenRead(t: TimeOfDay)
    ensures TimeStringToSeconds(FormatTime(t)) == Some(t)
  {
    FormatTimeCanonical(t);
    CanonicalTimeValue(FormatTime(t));
  }

  lemma ReadThenFormat(s: string)
    requires IsCanonicalTime(s)
    ensures FormatTime(CanonicalSeconds(s)) == s
  {
    var u := CanonicalSeconds(s);
    CanonicalTimeValue(s);
    FormatTimeCanonical(u);
    CanonicalOrder(FormatTime(u), s);
  }

  lemma FormatTimeInjective(t: TimeOfDay, u: TimeOfDay)
    ensures FormatTime(t) == FormatTime(u) <==> t == u
  {
    FormatTimeCanonical(t);
    FormatTimeCanonical(u);
  }

  /** `formatTime`: moment's `HH:mm` rendering of a stored time. */
  function FormatHHmm(t: TimeOfDay): string {
    FormatTime(t)[..5]
  }

  /** `HH:mm` drops the seconds: read back with ":00" it is the time truncated to the minute. */
  lemma FormatHHmmTruncates(t: TimeOfDay)
    ensures FormatHHmm(t) + ":00" == FormatTime(t - t % 60)
    ensures TimeStringToSeconds(FormatHHmm(t) + ":00") == Some(t - t % 60)
  {
    TruncatedText(t);
    TimeTextRoundTrip(t - t % 60, "");
  }

  lemma TruncatedText(t: TimeOfDay)
    ensures FormatHHmm(t) + ":00" == FormatTime(t - t % 60)
  {
    var u := t - t % 60;
    var q := t / 60;
    assert u == q * 60;
    assert u / 60 == q && u % 60 == 0;
    assert u / 3600 == q / 60 == t / 3600;
    var hh, mm := PadStart2(t / 3600), PadStart2(t / 60 % 60);
    assert FormatTime(t)[..5] == hh + ":" + mm;
    assert PadStart2(0) == "00";
    assert FormatTime(u) == hh + ":" + mm + ":" + "00";
  }

  /** The hour on a 12-hour clock face: 0 and 12 show as 12. */
  function Hour12(h: nat): (r: nat)
    ensures 1 <= r <= 12
  {
    if h % 12 == 0 then 12 else h % 12
  }

  function Meridiem(t: TimeOfDay): string {
    if t < 43200 then "AM" else "PM"
  }

  /** moment's `hh:mm:ss A` rendering, as the daily view shows start and end. */
  function Format12(t: TimeOfDay): string {
    PadStart2(Hour12(t / 3600)) + ":" + PadStart2(t / 60 % 60) + ":" + PadStart2(t % 60) + " " + Meridiem(t)
  }

  /** The hour rule of `formatTimeTo24Hour`; None is NaN. */
  function HourTo24(h: Option<nat>, period: string): Option<nat> {
    if h.None? then None
    else if period == "pm" && h.value < 12 then Some(h.value + 12)
    else if period == "am" && h.value == 12 then Some(0)
    else h
  }

  /** `formatTimeTo24Hour` (delete handler). None is the TypeError raised when the text has no
      space, so that the period is undefined; every other input yields a string, possibly with
      "NaN" or "undefined" in it, as JavaScript's template string does. */
  function To24Hour(text: string): Option<string> {
    var parts := Split(text, ' ');
    if |parts| < 2 then None
    else
      var timeParts := Split(parts[0], ':');
      var minute := if |timeParts| > 1 then timeParts[1] else "undefined";
      var second := if |timeParts| > 2 then timeParts[2] else "undefined";
      var hour := HourTo24(ParseInt(timeParts[0]), Lower(parts[1]));
      Some((if hour.Some? then PadStart2(hour.value) else "NaN") + ":" + minute + ":" + second)
  }

  /** `formatTimeTo24Hour` on a well-formed `hh:mm:ss period` text converts the hour and keeps
      the minutes and seconds as written. */
  lemma To24HourOfClockText(hh: string, mm: string, ss: string, p: string)
    requires 0 < |hh| && AllDigits(hh) && AllDigits(mm) && AllDigits(ss) && ' ' !in p
    ensures To24Hour(hh + ":" + mm + ":" + ss + " " + p)
         == Some((var h := HourTo24(Some(DecimalValue(hh)), Lower(p));
                  if h.Some? then PadStart2(h.value) else "NaN") + ":" + mm + ":" + ss)
  {
    var clock := hh + ":" + mm + ":" + ss;
    NoSeparatorInDigits(hh, ' ');
    NoSeparatorInDigits(mm, ' ');
    NoSeparatorInDigits(ss, ' ');
    NoSeparatorInDigits(hh, ':');
    NoSeparatorInDigits(mm, ':');
    NoSeparatorInDigits(ss, ':');
    assert ' ' !in clock;
    SplitAround(clock, p, ' ');
    SplitWithout(p, ' ');
    assert Split(clock + " " + p, ' ') == [clock, p];
    SplitThree(hh, mm, ss, ':');
    LeadingDigitsOfDigits(hh);
  }

  /** Converting the daily view's `hh:mm:ss A` text back to 24 hours gives the stored canonical
      text: 12 AM becomes 00, 12 PM stays 12, and the other PM hours gain 12. */
  lemma To24HourOfFormat12(t: TimeOfDay)
    ensures To24Hour(Format12(t)) == Some(FormatTime(t))
  {
    var h := t / 3600;
    var hh, mm, ss, p := PadStart2(Hour12(h)), PadStart2(t / 60 % 60), PadStart2(t % 60), Meridiem(t);
    assert Format12(t) == hh + ":" + mm + ":" + ss + " " + p;
    To24HourOfClockText(hh, mm, ss, p);
    MeridiemHour(t);
  }

  /** The period and the 12-hour clock hour together determine the 24-hour hour. */
  lemma MeridiemHour(t: TimeOfDay)
    ensures HourTo24(Some(DecimalValue(PadStart2(Hour12(t / 3600)))), Lower(Meridiem(t))) == Some(t / 3600)
  {
    assert Lower("AM") == "am" && Lower("PM") == "pm";
  }

  /** moment-duration-format's `H:mm:ss` with `trim: false`: unpadded hours, two-digit minutes
      and seconds, a leading '-' for a negative duration. */
  function FormatDuration(d: int): string
    decreases if d < 0 then 1 else 0
  {
    if d < 0 then "-" + FormatDuration(-d)
    else NatToString(d / 3600) + ":" + PadStart2(d / 60 % 60) + ":" + PadStart2(d % 60)
  }

  /** A rendered duration reads back, through `timeStringToSeconds`, as the same number of seconds. */
  lemma DurationReadsBack(d: nat)
    ensures TimeStringToSeconds(FormatDuration(d)) == Some(d)
  {
    var h, m, sec := d / 3600, d / 60 % 60, d % 60;
    var hh, mm, ss := NatToString(h), PadStart2(m), PadStart2(sec);
    assert FormatDuration(d) == hh + ":" + mm + ":" + ss;
    TimeStringOfFields(hh, mm, ss);
    NatToStringValue(h);
    assert DecimalValue(hh) == h && DecimalValue(mm) == m && DecimalValue(ss) == sec;
    SecondsSplit(d);
    assert DecimalValue(hh) * 3600 + DecimalValue(mm) * 60 + DecimalValue(ss) == d;
  }

}
