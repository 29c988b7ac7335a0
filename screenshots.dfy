/**
 * Screenshot metadata: the capture time read from an upload URL, the upload rule, and the
 * screenshot view that cuts a day's captures into ten-minute intervals, groups them into hourly
 * blocks and gives each interval the mean activity rate of the samples that overlap it.
 *
 * Capture times are read as UTC and rendered on a UTC clock in the en-US locale.
 */
module Screenshots {
  import opened Wrappers
  import opened Text
  import opened Clock
  import opened Timelog

  // ---------------------------------------------------------------------------------------------
  // The capture stamp in an upload URL

  /** `YYYY-MM-DD_HH-MM-SS_`; 'd' stands for any decimal digit. */
  const StampPattern: string := "dddd-dd-dd_dd-dd-dd_"

  predicate Fits(c: char, p: char) {
    if p == 'd' then IsDigit(c) else c == p
  }

  /** The stamp pattern matches `url` at position `i`. */
  predicate StampAt(url: string, i: nat) {
    i + 20 <= |url| && forall k :: 0 <= k < 20 ==> Fits(url[i + k], StampPattern[k])
  }

  /** The date text and the three time fields of a stamp, as the regular expression captures them. */
  datatype Stamp = Stamp(date: string, hour: nat, minute: nat, second: nat)

  /** The leftmost match at or after `from`, where a regular-expression search finds it. */
  function FirstStampFrom(url: string, from: nat): (r: Option<nat>)
    requires from <= |url|
    ensures r.Some? ==> from <= r.value && StampAt(url, r.value)
    ensures forall j: nat :: from <= j && (r.None? || j < r.value) ==> !StampAt(url, j)
    decreases |url| - from
  {
    if from + 20 > |url| then None
    else if StampAt(url, from) then Some(from)
    else FirstStampFrom(url, from + 1)
  }

  lemma StampDigits(url: string, i: nat)
    requires StampAt(url, i)
    ensures AllDigits(url[i + 11..i + 13]) && AllDigits(url[i + 14..i + 16]) && AllDigits(url[i + 17..i + 19])
  {
    assert Fits(url[i + 11], StampPattern[11]) && Fits(url[i + 12], StampPattern[12]);
    assert Fits(url[i + 14], StampPattern[14]) && Fits(url[i + 15], StampPattern[15]);
    assert Fits(url[i + 17], StampPattern[17]) && Fits(url[i + 18], StampPattern[18]);
  }

  function StampFields(url: string, i: nat): Stamp
    requires StampAt(url, i)
  {
    StampDigits(url, i);
    Stamp(url[i..i + 10], DecimalValue(url[i + 11..i + 13]), DecimalValue(url[i + 14..i + 16]),
          DecimalValue(url[i + 17..i + 19]))
  }

  /** `extractDateTimeFromUrl` up to the Date: the fields of the leftmost stamp, None when there is none. */
  function ExtractDateTime(url: string): (r: Option<Stamp>)
    ensures r.Some? <==> exists i: nat :: StampAt(url, i)
    ensures r.Some? ==> exists i: nat :: StampAt(url, i) && r.value == StampFields(url, i)
                                         && forall j: nat :: j < i ==> !StampAt(url, j)
  {
    match FirstStampFrom(url, 0)
    case None => None
    case Some(i) => Some(StampFields(url, i))
  }

  /** A date text of the stamp's shape. */
  predicate DateShape(date: string) {
    |date| == 10 && forall k :: 0 <= k < 10 ==> Fits(date[k], StampPattern[k])
  }

  /** The stamp an uploader writes for a date and a time. */
  function StampText(date: string, h: nat, m: nat, s: nat): string
    requires h < 100 && m < 100 && s < 100
  {
    date + "_" + PadStart2(h) + "-" + PadStart2(m) + "-" + PadStart2(s) + "_"
  }

  /** A URL that starts with a stamp gives back the stamp's date and fields, whatever follows it. */
  lemma ExtractStampText(date: string, h: nat, m: nat, s: nat, rest: string)
    requires DateShape(date) && h < 100 && m < 100 && s < 100
    ensures ExtractDateTime(StampText(date, h, m, s) + rest) == Some(Stamp(date, h, m, s))
  {
    var hh, mm, ss := PadStart2(h), PadStart2(m), PadStart2(s);
    var u := StampText(date, h, m, s) + rest;
    assert u == date + "_" + hh + "-" + mm + "-" + ss + "_" + rest;
    forall k | 0 <= k < 20 ensures Fits(u[0 + k], StampPattern[k]) {
      if k < 10 {
        assert u[k] == date[k];
      } else if 11 <= k < 13 {
        assert u[k] == hh[k - 11];
      } else if 14 <= k < 16 {
        assert u[k] == mm[k - 14];
      } else if 17 <= k < 19 {
        assert u[k] == ss[k - 17];
      }
    }
    assert StampAt(u, 0);
    SliceIs(u, 0, date);
    SliceIs(u, 11, hh);
    SliceIs(u, 14, mm);
    SliceIs(u, 17, ss);
  }

  lemma SliceIs(u: string, i: nat, w: string)
    requires i + |w| <= |u| && forall k :: 0 <= k < |w| ==> u[i + k] == w[k]
    ensures u[i..i + |w|] == w
  {
  }

  // ---------------------------------------------------------------------------------------------
  // Capture time and upload

  lemma SecondsOfFields(h: nat, m: nat, s: nat)
    requires h < 24 && m < 60 && s < 60
    ensures (h * 3600 + m * 60 + s) / 3600 == h
    ensures (h * 3600 + m * 60 + s) / 60 % 60 == m
    ensures (h * 3600 + m * 60 + s) % 60 == s
  {
    var t, q := h * 3600 + m * 60 + s, h * 60 + m;
    assert t == q * 60 + s;
    assert t / 60 == q && t % 60 == s;
    assert q / 60 == h && q % 60 == m;
    assert t == h * 3600 + (m * 60 + s) && m * 60 + s < 3600;
  }

  /**
   * The month and day of a `YYYY-MM-DD` date text are in the ranges the date-time string format
   * accepts: month 01 to 12, day 01 to 31.  V8 checks the day against 31 whatever the month, and
   * rolls a day past the month's end (February 30) over into the next month.
   */
  predicate DayInRange(date: string) {
    |date| == 10 && AllDigits(date[5..7]) && AllDigits(date[8..10])
    && 1 <= DecimalValue(date[5..7]) <= 12 && 1 <= DecimalValue(date[8..10]) <= 31
  }

  /**
   * `new Date("YYYY-MM-DDTHH:MM:SSZ")` reduced to its UTC time of day. ECMAScript's date-time
   * string format takes months 01 to 12, days 01 to 31 and hours 00 to 24, where 24:00:00 is the
   * end of the day (the next day's midnight); any other out-of-range field makes an Invalid
   * Date, written None.
   */
  function CaptureSeconds(st: Stamp): (t: Option<TimeOfDay>)
    ensures t.Some? <==> DayInRange(st.date)
                         && ((st.hour < 24 && st.minute < 60 && st.second < 60)
                             || (st.hour == 24 && st.minute == 0 && st.second == 0))
    ensures t.Some? && st.hour < 24 ==>
              t.value / 3600 == st.hour && t.value / 60 % 60 == st.minute && t.value % 60 == st.second
    ensures t.Some? && st.hour == 24 ==> t.value == 0
  {
    if !DayInRange(st.date) then None
    else if st.hour < 24 && st.minute < 60 && st.second < 60 then
      SecondsOfFields(st.hour, st.minute, st.second);
      Some(st.hour * 3600 + st.minute * 60 + st.second)
    else if st.hour == 24 && st.minute == 0 && st.second == 0 then Some(0)
    else None
  }

  /** Month 13 makes an Invalid Date even with a valid time of day. */
  lemma MonthThirteenInvalid()
    ensures CaptureSeconds(Stamp("2024-13-01", 10, 0, 0)).None?
  {
    var d := "2024-13-01";
    assert d[5..7] == "13";
    assert "13"[..1] == "1";
    assert DecimalValue("13") == 13;
  }

  /** A saved screenshot document: its URL and the capture time read from it. */
  datatype Capture = Capture(url: string, time: TimeOfDay)

  /**
   * `POST /upload`: 404 for an unknown user, 400 for a URL without a stamp. A stamp whose month,
   * day or time is out of range still gives a Date object (an Invalid one, which is truthy), and saving it fails,
   * so the handler answers 500.
   */
  function Upload(userExists: bool, url: string): (r: Result<Capture>)
    ensures !userExists ==> r == Err(NotFound)
    ensures userExists && ExtractDateTime(url).None? ==> r == Err(Invalid)
    ensures r.Ok? <==> userExists && ExtractDateTime(url).Some? && CaptureSeconds(ExtractDateTime(url).value).Some?
    ensures r.Ok? ==> r.value.url == url && CaptureSeconds(ExtractDateTime(url).value) == Some(r.value.time)
    ensures r.Err? && userExists && ExtractDateTime(url).Some? ==> r.error == ServerError
  {
    if !userExists then Err(NotFound)
    else
      match ExtractDateTime(url)
      case None => Err(Invalid)
      case Some(st) =>
        match CaptureSeconds(st)
        case None => Err(ServerError)
        case Some(t) => Ok(Capture(url, t))
  }

  /** A stamp of month 13 is found, but its Invalid Date fails the save: 500. */
  lemma UploadMonthThirteen()
    ensures Upload(true, "2024-13-01_10-00-00_") == Err(ServerError)
  {
    var d := "2024-13-01";
    assert DateShape(d) by {
      forall k | 0 <= k < 10 ensures Fits(d[k], StampPattern[k]) {
      }
    }
    ExtractStampText(d, 10, 0, 0, "");
    assert PadStart2(10) == "10" && PadStart2(0) == "00";
    assert StampText(d, 10, 0, 0) + "" == "2024-13-01_10-00-00_";
    MonthThirteenInvalid();
  }

  // ---------------------------------------------------------------------------------------------
  // Interval labels and hourly blocks

  /** `toLocaleTimeString([], {hour: "2-digit", minute: "2-digit", hour12: true})`: `hh:mm AM`. */
  function LocaleTime(t: TimeOfDay): string {
    PadStart2(Hour12(t / 3600)) + ":" + PadStart2(t / 60 % 60) + " " + Meridiem(t)
  }

  lemma LocaleTimeParts(t: TimeOfDay)
    ensures |LocaleTime(t)| == 8
    ensures LocaleTime(t)[..2] == PadStart2(Hour12(t / 3600))
    ensures LocaleTime(t)[3..5] == PadStart2(t / 60 % 60)
    ensures LocaleTime(t)[6..] == Meridiem(t)
  {
  }

  /** Two times have the same label start exactly when they fall in the same minute. */
  lemma LocaleTimeSameMinute(t: TimeOfDay, u: TimeOfDay)
    ensures LocaleTime(t) == LocaleTime(u) <==> t / 60 == u / 60
  {
    if LocaleTime(t) == LocaleTime(u) {
      LocaleTimeParts(t);
      LocaleTimeParts(u);
      assert Hour12(t / 3600) == Hour12(u / 3600) by {
        assert PadStart2(Hour12(t / 3600)) == PadStart2(Hour12(u / 3600));
      }
      assert t / 60 % 60 == u / 60 % 60 by {
        assert PadStart2(t / 60 % 60) == PadStart2(u / 60 % 60);
      }
      assert Meridiem(t) == Meridiem(u);
      SameHalfSameHour(t, u);
      MinuteSplit(t);
      MinuteSplit(u);
    } else if t / 60 == u / 60 {
      MinuteSplit(t);
      MinuteSplit(u);
    }
  }

  lemma MinuteSplit(t: TimeOfDay)
    ensures t / 60 == (t / 3600) * 60 + t / 60 % 60
    ensures t / 3600 == (t / 60) / 60
  {
  }

  lemma SameHalfSameHour(t: TimeOfDay, u: TimeOfDay)
    requires Hour12(t / 3600) == Hour12(u / 3600) && Meridiem(t) == Meridiem(u)
    ensures t / 3600 == u / 3600
  {
    assert t < 43200 <==> t / 3600 < 12;
    assert u < 43200 <==> u / 3600 < 12;
    assert t < 43200 <==> u < 43200 by {
      assert Meridiem(t)[0] == Meridiem(u)[0];
    }
  }

  const InvalidDate: string := "Invalid Date"

  /** The interval's `time` text: the capture and ten minutes later, "Invalid Date" for both when
      the capture time is an Invalid Date. */
  function Label(c: Option<TimeOfDay>): string {
    if c.None? then InvalidDate + " - " + InvalidDate
    else LocaleTime(c.value) + " - " + LocaleTime(TenMinutesOn(c.value))
  }

  /** Ten minutes after `t` on the clock face, past midnight into the next day. */
  function TenMinutesOn(t: TimeOfDay): TimeOfDay {
    (t + 600) % 86400
  }

  /** `s.split(" - ")[0]`: the text before the first " - ", or all of `s` when there is none. */
  function FirstPart(s: string): (r: string)
    ensures r <= s
  {
    if |s| < 3 then s
    else if s[..3] == " - " then ""
    else [s[0]] + FirstPart(s[1..])
  }

  /** Text without a '-' is the first part of itself followed by " - " and anything. */
  lemma {:induction false} FirstPartOf(a: string, b: string)
    requires '-' !in a
    ensures FirstPart(a + " - " + b) == a
  {
    var s := a + " - " + b;
    if |a| == 0 {
      assert s[..3] == " - ";
    } else {
      assert s[1] != '-' by {
        if |a| > 1 {
          assert s[1] == a[1];
        }
      }
      assert s[1..] == a[1..] + " - " + b;
      FirstPartOf(a[1..], b);
      assert [a[0]] + a[1..] == a;
    }
  }

  lemma NoDashInLocaleTime(t: TimeOfDay)
    ensures '-' !in LocaleTime(t)
    ensures ':' !in PadStart2(t / 60 % 60) + " " + Meridiem(t)
  {
    NoSeparatorInDigits(PadStart2(Hour12(t / 3600)), '-');
    NoSeparatorInDigits(PadStart2(t / 60 % 60), '-');
    NoSeparatorInDigits(PadStart2(t / 60 % 60), ':');
  }

  /** The start of a capture's label is the capture's own time. */
  lemma LabelStart(c: TimeOfDay)
    ensures FirstPart(Label(Some(c))) == LocaleTime(c)
  {
    var a, b := LocaleTime(c), LocaleTime(TenMinutesOn(c));
    NoDashInLocaleTime(c);
    FirstPartOf(a, b);
    assert Label(Some(c)) == a + " - " + b;
  }

  /** The label start of a capture, split on ':': the hour, then "mm AM" or "mm PM". */
  lemma LocaleTimeFields(t: TimeOfDay)
    ensures Split(LocaleTime(t), ':') == [PadStart2(Hour12(t / 3600)), PadStart2(t / 60 % 60) + " " + Meridiem(t)]
  {
    var h, rest := PadStart2(Hour12(t / 3600)), PadStart2(t / 60 % 60) + " " + Meridiem(t);
    assert LocaleTime(t) == h + [':'] + rest;
    NoSeparatorInDigits(h, ':');
    NoDashInLocaleTime(t);
    SplitAround(h, rest, ':');
    SplitWithout(rest, ':');
  }

  /** The hourly block of an interval: `${hour}:00 - ${parseInt(hour) + 1}:00`, where `hour` is the
      label's text before its first ':'. */
  function BlockKey(time: string): string {
    var hour := Split(FirstPart(time), ':')[0];
    var next := if ParseInt(hour).Some? then Some(ParseInt(hour).value + 1) else None;
    hour + ":00 - " + NumberText(next) + ":00"
  }

  /** A capture's block is named after its hour on the 12-hour clock face. */
  lemma BlockKeyOfCapture(c: TimeOfDay)
    ensures BlockKey(Label(Some(c))) == PadStart2(Hour12(c / 3600)) + ":00 - " + NatToString(Hour12(c / 3600) + 1) + ":00"
  {
    var h := PadStart2(Hour12(c / 3600));
    LabelStart(c);
    LocaleTimeFields(c);
    LeadingDigitsOfDigits(h);
  }

  /** Two captures share a block exactly when their hours agree on the 12-hour clock face, so a
      morning hour and the same evening hour land in one block. */
  lemma SameBlockIff(c: TimeOfDay, d: TimeOfDay)
    ensures BlockKey(Label(Some(c))) == BlockKey(Label(Some(d))) <==> Hour12(c / 3600) == Hour12(d / 3600)
  {
    BlockKeyOfCapture(c);
    BlockKeyOfCapture(d);
    HourKeyDistinct(Hour12(c / 3600), Hour12(d / 3600));
  }

  /** Block names of different hours differ already in their first two characters. */
  lemma HourKeyDistinct(x: nat, y: nat)
    requires x < 100 && y < 100
    ensures PadStart2(x) + ":00 - " + NatToString(x + 1) + ":00" == PadStart2(y) + ":00 - " + NatToString(y + 1) + ":00"
            ==> x == y
  {
    var px, py := PadStart2(x), PadStart2(y);
    var kx := px + ":00 - " + NatToString(x + 1) + ":00";
    var ky := py + ":00 - " + NatToString(y + 1) + ":00";
    if kx == ky {
      assert kx[..2] == px;
      assert ky[..2] == py;
      assert DecimalValue(px) == x && DecimalValue(py) == y;
    }
  }

  lemma TwelveHoursApartShareBlock(c: TimeOfDay)
    requires c < 43200
    ensures BlockKey(Label(Some(c))) == BlockKey(Label(Some(c + 43200)))
  {
    HalfDayHour(c);
    SameBlockIff(c, c + 43200);
  }

  lemma HalfDayHour(c: TimeOfDay)
    requires c < 43200
    ensures Hour12((c + 43200) / 3600) == Hour12(c / 3600)
  {
    var h := c / 3600;
    assert (c + 43200) / 3600 == h + 12;
    assert (h + 12) % 12 == h % 12;
  }

  /** A label whose start has no digit before its first ':' gets a block with a NaN end. */
  lemma BlockKeyWithoutHour(time: string, a: string, b: string)
    requires time == a + " - " + b && '-' !in a && ':' !in a && 0 < |a| && !IsDigit(a[0])
    ensures BlockKey(time) == a + ":00 - NaN:00"
  {
    FirstPartOf(a, b);
    SplitWithout(a, ':');
  }

  lemma InvalidDateText()
    ensures '-' !in InvalidDate && ':' !in InvalidDate && !IsDigit(InvalidDate[0])
  {
    forall i | 0 <= i < |InvalidDate| ensures InvalidDate[i] != '-' && InvalidDate[i] != ':' {
    }
  }

  /** Every Invalid Date capture lands in one block with a NaN end. */
  lemma BlockKeyOfInvalidDate()
    ensures BlockKey(Label(None)) == InvalidDate + ":00 - NaN:00"
  {
    InvalidDateText();
    BlockKeyWithoutHour(Label(None), InvalidDate, InvalidDate);
  }

  // ---------------------------------------------------------------------------------------------
  // The running total of a block

  /** `String(v).padStart(2, "0")`, NaN included. */
  function PadNumber(v: Option<nat>): string {
    if v.Some? then PadStart2(v.value) else "NaN"
  }

  /**
   * One more ten-minute capture added to a block's `H:mm:ss` total, the way the grouping loop does
   * it: split on ':', `Number` each field, add ten minutes and carry whole hours. A missing field
   * is `undefined`, so a missing minute is NaN after the addition and a missing second prints as
   * "undefined".
   */
  function AddTenMinutes(total: string): string {
    var f := Split(total, ':');
    var h := JsNumber(f[0]);
    var m := if |f| > 1 then JsNumber(f[1]) else None;
    var newM := if m.Some? then Some(m.value + 10) else None;
    var newH := if h.Some? && newM.Some? then Some(h.value + WholeHours(newM.value)) else None;
    var sText := if |f| > 2 then PadNumber(JsNumber(f[2])) else "undefined";
    NumberText(newH) + ":" + PadNumber(if newM.Some? then Some(MinuteOfHour(newM.value)) else None) + ":" + sText
  }

  /** `Math.floor(minutes / 60)`: the whole hours in a count of minutes. */
  function WholeHours(minutes: nat): nat {
    minutes / 60
  }

  /** `minutes % 60`. */
  function MinuteOfHour(minutes: nat): nat {
    minutes % 60
  }

  lemma TenMinutesLater(d: nat)
    ensures (d + 600) / 3600 == d / 3600 + WholeHours(d / 60 % 60 + 10)
    ensures (d + 600) / 60 % 60 == MinuteOfHour(d / 60 % 60 + 10)
    ensures (d + 600) % 60 == d % 60
  {
    var q, s := d / 60, d % 60;
    assert d + 600 == (q + 10) * 60 + s;
    assert (d + 600) / 60 == q + 10;
    var h, m := q / 60, q % 60;
    assert q + 10 == h * 60 + (m + 10);
    assert (q + 10) / 60 == h + (m + 10) / 60;
    assert d / 3600 == h;
    assert (d + 600) / 3600 == (q + 10) / 60;
  }

  /** Adding ten minutes to a rendered duration renders the duration ten minutes longer. */
  lemma AddTenMinutesOfFields(hh: string, mm: string, ss: string)
    requires AllDigits(hh) && AllDigits(mm) && AllDigits(ss)
    ensures AddTenMinutes(hh + ":" + mm + ":" + ss)
            == NatToString(DecimalValue(hh) + WholeHours(DecimalValue(mm) + 10)) + ":"
               + PadStart2(MinuteOfHour(DecimalValue(mm) + 10)) + ":" + PadStart2(DecimalValue(ss))
  {
    NoSeparatorInDigits(hh, ':');
    NoSeparatorInDigits(mm, ':');
    NoSeparatorInDigits(ss, ':');
    var text := hh + ":" + mm + ":" + ss;
    assert text == hh + [':'] + mm + [':'] + ss;
    SplitThree(hh, mm, ss, ':');
    var f := Split(text, ':');
    assert |f| == 3 && f[0] == hh && f[1] == mm && f[2] == ss;
    var h, m, sec := DecimalValue(hh), DecimalValue(mm), DecimalValue(ss);
    assert JsNumber(f[0]) == Some(h) && JsNumber(f[1]) == Some(m) && JsNumber(f[2]) == Some(sec);
    AddTenMinutesOfNumbers(text, h, m, sec);
  }

  /** `AddTenMinutes` on a total whose three fields read as numbers. */
  lemma AddTenMinutesOfNumbers(total: string, h: nat, m: nat, sec: nat)
    requires |Split(total, ':')| == 3
    requires JsNumber(Split(total, ':')[0]) == Some(h) && JsNumber(Split(total, ':')[1]) == Some(m)
    requires JsNumber(Split(total, ':')[2]) == Some(sec)
    ensures AddTenMinutes(total) == NatToString(h + WholeHours(m + 10)) + ":" + PadStart2(MinuteOfHour(m + 10)) + ":" + PadStart2(sec)
  {
    var f := Split(total, ':');
    var hours: nat, minute: nat := h + WholeHours(m + 10), MinuteOfHour(m + 10);
    var a, b, c := NatToString(hours), PadStart2(minute), PadStart2(sec);
    assert NumberText(Some(hours)) == a;
    assert PadNumber(Some(minute)) == b;
    assert PadNumber(JsNumber(f[2])) == c;
    assert AddTenMinutes(total) == a + ":" + b + ":" + c;
  }

  /** Adding ten minutes to a rendered duration renders the duration ten minutes longer. */
  lemma AddTenMinutesToDuration(d: nat)
    ensures AddTenMinutes(FormatDuration(d)) == FormatDuration(d + 600)
  {
    TenMinutesLater(d);
    AddTenMinutesToClock(d / 3600, d / 60 % 60, d % 60);
  }

  lemma AddTenMinutesToClock(h: nat, m: nat, sec: nat)
    ensures AddTenMinutes(NatToString(h) + ":" + PadStart2(m) + ":" + PadStart2(sec))
            == NatToString(h + WholeHours(m + 10)) + ":" + PadStart2(MinuteOfHour(m + 10)) + ":" + PadStart2(sec)
  {
    var hh, mm, ss := NatToString(h), PadStart2(m), PadStart2(sec);
    NatToStringValue(h);
    assert DecimalValue(hh) == h && DecimalValue(mm) == m && DecimalValue(ss) == sec;
    AddTenMinutesOfFields(hh, mm, ss);
  }

  // ---------------------------------------------------------------------------------------------
  // Intervals and blocks

  /** One entry of the screenshot view; `activity` is the mean of the matching samples' rates. */
  datatype CaptureInterval = CaptureInterval(time: string, department: string, activity: Mean, images: seq<string>)

  datatype HourBlock = HourBlock(timeRange: string, totalWorked: string, intervals: seq<CaptureInterval>)

  /** The block key of each interval, in order. */
  function Keys(ivs: seq<CaptureInterval>): (ks: seq<string>)
  {
    seq(|ivs|, k requires 0 <= k < |ivs| => BlockKey(ivs[k].time))
  }

  lemma KeysSnoc(p: seq<CaptureInterval>, iv: CaptureInterval)
    ensures Keys(p + [iv]) == Keys(p) + [BlockKey(iv.time)]
  {
  }

  /** The distinct strings of `ks` in order of first appearance. */
  function FirstAppearances(ks: seq<string>): (r: seq<string>)
    ensures forall i, j :: 0 <= i < j < |r| ==> r[i] != r[j]
    ensures forall x :: x in r <==> x in ks
  {
    if |ks| == 0 then []
    else
      var prior, x := FirstAppearances(ks[..|ks| - 1]), ks[|ks| - 1];
      assert ks == ks[..|ks| - 1] + [x];
      if x in prior then prior else prior + [x]
  }

  lemma FirstAppearancesSnoc(ks: seq<string>, x: string)
    ensures FirstAppearances(ks + [x]) == if x in FirstAppearances(ks) then FirstAppearances(ks) else FirstAppearances(ks) + [x]
  {
    assert (ks + [x])[..|ks|] == ks;
  }

  /** The block keys of `ivs`, each once, in order of first appearance. */
  function KeyOrder(ivs: seq<CaptureInterval>): (keys: seq<string>)
    ensures forall i, j :: 0 <= i < j < |keys| ==> keys[i] != keys[j]
    ensures forall key :: key in keys <==> exists k :: 0 <= k < |ivs| && BlockKey(ivs[k].time) == key
  {
    var ks := Keys(ivs);
    assert |ks| == |ivs| && forall k :: 0 <= k < |ivs| ==> ks[k] == BlockKey(ivs[k].time);
    assert forall key :: key in ks <==> exists k :: 0 <= k < |ivs| && ks[k] == key;
    FirstAppearances(ks)
  }

  /** The intervals of `ivs` whose key in `ks` is `key`, in order. The grouping works on the keys it
      has computed, `Keys(ivs)`; `BlockContents` says what that selects. */
  function InBlock(ivs: seq<CaptureInterval>, ks: seq<string>, key: string): (r: seq<CaptureInterval>)
    requires |ks| == |ivs|
    ensures |r| <= |ivs|
  {
    if |ivs| == 0 then []
    else
      var n := |ivs| - 1;
      InBlock(ivs[..n], ks[..n], key) + (if ks[n] == key then [ivs[n]] else [])
  }

  lemma InBlockSnoc(p: seq<CaptureInterval>, pk: seq<string>, iv: CaptureInterval, k: string, key: string)
    requires |pk| == |p|
    ensures InBlock(p + [iv], pk + [k], key) == InBlock(p, pk, key) + (if k == key then [iv] else [])
  {
    assert (p + [iv])[..|p|] == p && (pk + [k])[..|pk|] == pk;
  }

  lemma {:induction false} InBlockOfNewKey(p: seq<CaptureInterval>, pk: seq<string>, key: string)
    requires |pk| == |p| && key !in pk
    ensures InBlock(p, pk, key) == []
  {
    if |p| > 0 {
      var n := |p| - 1;
      assert pk[n] in pk;
      InBlockOfNewKey(p[..n], pk[..n], key);
    }
  }

  /** Whatever is in block `key` is an interval of `ivs` with that key, and every such interval is
      in it. */
  lemma {:induction false} InBlockMembers(ivs: seq<CaptureInterval>, ks: seq<string>, key: string)
    requires |ks| == |ivs|
    ensures forall iv :: iv in InBlock(ivs, ks, key) ==> exists i :: 0 <= i < |ivs| && ivs[i] == iv && ks[i] == key
    ensures forall i :: 0 <= i < |ivs| && ks[i] == key ==> ivs[i] in InBlock(ivs, ks, key)
  {
    if |ivs| > 0 {
      var n := |ivs| - 1;
      var p, pk := ivs[..n], ks[..n];
      InBlockMembers(p, pk, key);
      assert ivs == p + [ivs[n]] && ks == pk + [ks[n]];
      InBlockSnoc(p, pk, ivs[n], ks[n], key);
      forall iv | iv in InBlock(ivs, ks, key) ensures exists i :: 0 <= i < |ivs| && ivs[i] == iv && ks[i] == key {
        if iv in InBlock(p, pk, key) {
          var i :| 0 <= i < |p| && p[i] == iv && pk[i] == key;
          assert ivs[i] == iv && ks[i] == key;
        } else {
          assert ivs[n] == iv && ks[n] == key;
        }
      }
      forall i | 0 <= i < |ivs| && ks[i] == key ensures ivs[i] in InBlock(ivs, ks, key) {
        if i < n {
          assert p[i] == ivs[i] && pk[i] == key;
        }
      }
    }
  }

  /** A block holds exactly the intervals of the view whose label falls in that block. */
  lemma BlockContents(ivs: seq<CaptureInterval>, key: string)
    ensures forall iv :: iv in InBlock(ivs, Keys(ivs), key) <==> iv in ivs && BlockKey(iv.time) == key
  {
    var ks := Keys(ivs);
    InBlockMembers(ivs, ks, key);
    forall iv ensures iv in InBlock(ivs, ks, key) <==> iv in ivs && BlockKey(iv.time) == key {
      if iv in ivs && BlockKey(iv.time) == key {
        var i :| 0 <= i < |ivs| && ivs[i] == iv;
        assert ks[i] == key;
      }
    }
  }

  /** Block `b` is the block `key` after the intervals `ivs` with keys `ks`: its intervals in order,
      and ten minutes of work for each. */
  predicate BlockHolds(b: HourBlock, key: string, ivs: seq<CaptureInterval>, ks: seq<string>)
    requires |ks| == |ivs|
  {
    b.timeRange == key && b.intervals == InBlock(ivs, ks, key) && b.totalWorked == FormatDuration(600 * |b.intervals|)
  }

  lemma EmptyDuration()
    ensures FormatDuration(0) == "0:00:00"
  {
    assert NatToString(0) == "0";
    assert PadStart2(0) == "00";
  }

  /** A new key's block starts empty, at no time worked. */
  lemma NewBlockHolds(p: seq<CaptureInterval>, pk: seq<string>, key: string)
    requires |pk| == |p| && key !in pk
    ensures BlockHolds(HourBlock(key, "0:00:00", []), key, p, pk)
  {
    InBlockOfNewKey(p, pk, key);
    EmptyDuration();
  }

  /** An interval of block `key` joins the end of that block and adds ten minutes to its total. */
  lemma BlockGrows(b: HourBlock, key: string, p: seq<CaptureInterval>, pk: seq<string>, iv: CaptureInterval)
    requires |pk| == |p| && BlockHolds(b, key, p, pk)
    ensures BlockHolds(HourBlock(b.timeRange, AddTenMinutes(b.totalWorked), b.intervals + [iv]), key, p + [iv], pk + [key])
  {
    var n := |b.intervals|;
    InBlockSnoc(p, pk, iv, key, key);
    assert InBlock(p + [iv], pk + [key], key) == b.intervals + [iv];
    TenMoreMinutes(n);
    assert AddTenMinutes(b.totalWorked) == FormatDuration(600 * (n + 1));
  }

  lemma TenMoreMinutes(n: nat)
    ensures AddTenMinutes(FormatDuration(600 * n)) == FormatDuration(600 * (n + 1))
  {
    AddTenMinutesToDuration(600 * n);
  }

  /** An interval of another block leaves block `key` as it was. */
  lemma BlockKept(b: HourBlock, key: string, p: seq<CaptureInterval>, pk: seq<string>, iv: CaptureInterval, k: string)
    requires |pk| == |p| && BlockHolds(b, key, p, pk) && k != key
    ensures BlockHolds(b, key, p + [iv], pk + [k])
  {
    InBlockSnoc(p, pk, iv, k, key);
  }

  /** `table` maps each key of `order` to its block after the intervals `p` with keys `pk`, and
      nothing else. */
  ghost predicate TableHolds(table: map<string, HourBlock>, order: seq<string>, p: seq<CaptureInterval>, pk: seq<string>) {
    |pk| == |p| && order == FirstAppearances(pk) && SameKeys(table, order) && BlocksHold(table, p, pk)
  }

  ghost predicate SameKeys(table: map<string, HourBlock>, order: seq<string>) {
    forall key :: key in order <==> key in table
  }

  ghost predicate BlocksHold(table: map<string, HourBlock>, p: seq<CaptureInterval>, pk: seq<string>)
    requires |pk| == |p|
  {
    forall key :: key in table ==> BlockHolds(table[key], key, p, pk)
  }

  /** One pass of the grouping loop: open the interval's block when its key is new, then add the
      interval and ten minutes to it. */
  method AddInterval(table: map<string, HourBlock>, order: seq<string>, ghost p: seq<CaptureInterval>,
                     ghost pk: seq<string>, iv: CaptureInterval)
    returns (table': map<string, HourBlock>, order': seq<string>)
    requires TableHolds(table, order, p, pk)
    ensures TableHolds(table', order', p + [iv], pk + [BlockKey(iv.time)])
  {
    var key := BlockKey(iv.time);
    var b := HourBlock(key, "0:00:00", []);
    order' := order;
    if key in table {
      b := table[key];
    } else {
      NewBlockHolds(p, pk, key);
      order' := order + [key];
    }
    BlockGrows(b, key, p, pk, iv);
    var grown := HourBlock(b.timeRange, AddTenMinutes(b.totalWorked), b.intervals + [iv]);
    table' := table[key := grown];
    TableStep(table, order, p, pk, iv, key, grown);
  }

  /** Storing the grown block of the interval's key keeps every other block and adds the key to the
      order when it is new. */
  lemma TableStep(table: map<string, HourBlock>, order: seq<string>, p: seq<CaptureInterval>, pk: seq<string>,
                  iv: CaptureInterval, key: string, grown: HourBlock)
    requires TableHolds(table, order, p, pk)
    requires BlockHolds(grown, key, p + [iv], pk + [key])
    ensures TableHolds(table[key := grown], if key in table then order else order + [key], p + [iv], pk + [key])
  {
    OrderStep(table, order, pk, key, grown);
    BlocksStep(table, p, pk, iv, key, grown);
  }

  lemma OrderStep(table: map<string, HourBlock>, order: seq<string>, pk: seq<string>, key: string, grown: HourBlock)
    requires order == FirstAppearances(pk) && SameKeys(table, order)
    ensures var order' := if key in table then order else order + [key];
            order' == FirstAppearances(pk + [key]) && SameKeys(table[key := grown], order')
  {
    FirstAppearancesSnoc(pk, key);
    assert key in table <==> key in order;
  }

  lemma BlocksStep(table: map<string, HourBlock>, p: seq<CaptureInterval>, pk: seq<string>, iv: CaptureInterval,
                   key: string, grown: HourBlock)
    requires |pk| == |p| && BlocksHold(table, p, pk)
    requires BlockHolds(grown, key, p + [iv], pk + [key])
    ensures BlocksHold(table[key := grown], p + [iv], pk + [key])
  {
    OthersKept(table, p, pk, iv, key, grown);
  }

  lemma OthersKept(table: map<string, HourBlock>, p: seq<CaptureInterval>, pk: seq<string>, iv: CaptureInterval,
                   key: string, grown: HourBlock)
    requires |pk| == |p| && BlocksHold(table, p, pk)
    ensures forall other :: other in table && other != key ==> BlockHolds(table[key := grown][other], other, p + [iv], pk + [key])
  {
    forall other | other in table && other != key
      ensures BlockHolds(table[key := grown][other], other, p + [iv], pk + [key])
    {
      BlockKept(table[other], other, p, pk, iv, key);
    }
  }

  /**
   * The grouping loop: a table from block key to block, filled interval by interval, then read out
   * in the order the keys were first added, as `Object.values` lists string keys.
   */
  method GroupBlocks(ivs: seq<CaptureInterval>) returns (blocks: seq<HourBlock>)
    ensures |blocks| == |KeyOrder(ivs)|
    ensures forall i :: 0 <= i < |blocks| ==> BlockHolds(blocks[i], KeyOrder(ivs)[i], ivs, Keys(ivs))
  {
    var table: map<string, HourBlock> := map[];
    var order: seq<string> := [];
    ghost var ks := Keys(ivs);
    for k := 0 to |ivs|
      invariant TableHolds(table, order, ivs[..k], ks[..k])
    {
      assert ivs[..k + 1] == ivs[..k] + [ivs[k]];
      assert ks[..k + 1] == ks[..k] + [BlockKey(ivs[k].time)];
      table, order := AddInterval(table, order, ivs[..k], ks[..k], ivs[k]);
    }
    assert ivs[..|ivs|] == ivs && ks[..|ivs|] == ks;
    blocks := seq(|order|, i requires 0 <= i < |order| => table[order[i]]);
  }

  /** The number of intervals in the blocks `keys`. */
  function BlockSizes(ivs: seq<CaptureInterval>, ks: seq<string>, keys: seq<string>): nat
    requires |ks| == |ivs|
  {
    if |keys| == 0 then 0 else BlockSizes(ivs, ks, keys[..|keys| - 1]) + |InBlock(ivs, ks, keys[|keys| - 1])|
  }

  /** One more interval adds one to the blocks it belongs to, when its key is among them. */
  lemma {:induction false} BlockSizesSnoc(p: seq<CaptureInterval>, pk: seq<string>, iv: CaptureInterval, k: string,
                                          keys: seq<string>)
    requires |pk| == |p| && forall i, j :: 0 <= i < j < |keys| ==> keys[i] != keys[j]
    ensures BlockSizes(p + [iv], pk + [k], keys) == BlockSizes(p, pk, keys) + (if k in keys then 1 else 0)
  {
    if |keys| > 0 {
      var init, last := keys[..|keys| - 1], keys[|keys| - 1];
      BlockSizesSnoc(p, pk, iv, k, init);
      InBlockSnoc(p, pk, iv, k, last);
      assert keys == init + [last];
      assert k in keys <==> k in init || k == last;
    }
  }

  lemma {:induction false} BlockSizesAppendKey(ivs: seq<CaptureInterval>, ks: seq<string>, keys: seq<string>, key: string)
    requires |ks| == |ivs|
    ensures BlockSizes(ivs, ks, keys + [key]) == BlockSizes(ivs, ks, keys) + |InBlock(ivs, ks, key)|
  {
    assert (keys + [key])[..|keys|] == keys;
  }

  /** Every interval is in exactly one of the blocks of its keys: their sizes add up to the number
      of intervals. */
  lemma {:induction false} BlocksCoverKeys(ivs: seq<CaptureInterval>, ks: seq<string>)
    requires |ks| == |ivs|
    ensures BlockSizes(ivs, ks, FirstAppearances(ks)) == |ivs|
  {
    if |ivs| > 0 {
      var n := |ivs| - 1;
      var p, pk, iv, k := ivs[..n], ks[..n], ivs[n], ks[n];
      assert ivs == p + [iv] && ks == pk + [k];
      BlocksCoverKeys(p, pk);
      FirstAppearancesSnoc(pk, k);
      var order := FirstAppearances(pk);
      BlockSizesSnoc(p, pk, iv, k, order);
      if k !in order {
        BlockSizesAppendKey(ivs, ks, order, k);
        InBlockOfNewKey(p, pk, k);
        InBlockSnoc(p, pk, iv, k, k);
      }
    }
  }

  /** The blocks hold every capture once: their sizes add up to the number of screenshots. */
  lemma BlocksCoverEveryCapture(ivs: seq<CaptureInterval>)
    ensures BlockSizes(ivs, Keys(ivs), KeyOrder(ivs)) == |ivs|
  {
    BlocksCoverKeys(ivs, Keys(ivs));
  }

  // ---------------------------------------------------------------------------------------------
  // Activity of an interval

  /** A sample overlaps the ten minutes from `from` (both ends strict). */
  predicate Overlaps(a: ActivitySample, from: int) {
    a.start < from + 600 && a.end > from
  }

  /** The activity meant for a capture: the mean rate of the samples that overlap the ten minutes
      from the start of the capture's minute. */
  function WindowActivity(c: TimeOfDay, samples: seq<ActivitySample>): (m: Mean)
    ensures m.count <= |samples|
    ensures m.count == 0 <==> forall a :: a in samples ==> !Overlaps(a, c - c % 60)
  {
    var r := Select(samples, a => Overlaps(a, c - c % 60));
    assert |r| > 0 ==> r[0] in r;
    MeanOf(r)
  }

  lemma WindowActivityAtMost100(c: TimeOfDay, samples: seq<ActivitySample>)
    requires forall a :: a in samples ==> a.rate <= 100
    ensures WindowActivity(c, samples).Value() <= 100.0
  {
    var r := Select(samples, a => Overlaps(a, c - c % 60));
    MeanOfBound(r);
    MeanAtMost100(MeanOf(r));
  }

  /** `moment({hour, minute})` on the current day: minutes 0 to 59 and hours 0 to 23, or 24:00 for the
      next midnight; anything else is an invalid moment (None). */
  function MomentSeconds(h: nat, m: nat): (t: Option<int>)
    ensures t.Some? ==> 0 <= t.value <= 86400
  {
    if h < 24 && m < 60 then Some(h * 3600 + m * 60)
    else if h == 24 && m == 0 then Some(86400)
    else None
  }

  /**
   * The activity loop as written: it reads hour and minute back from the label with `split(":")`
   * and `Number`, so the minute field is "mm AM" and the hour is on the 12-hour face. A NaN field
   * makes an invalid moment, and comparisons with an invalid moment are false, so no sample matches.
   * A missing minute field is `undefined`, which moment takes as 0.
   */
  function ActivityAsWritten(time: string, samples: seq<ActivitySample>): Mean {
    var f := Split(FirstPart(time), ':');
    var h := JsNumber(f[0]);
    var m := if |f| > 1 then JsNumber(f[1]) else Some(0);
    var from := if h.Some? && m.Some? then MomentSeconds(h.value, m.value) else None;
    if from.Some? then MeanOf(Select(samples, a => Overlaps(a, from.value))) else Mean(0, 0)
  }

  /** As written, every interval's activity is 0, whatever the samples. */
  lemma ScreenshotActivityAlwaysZero(c: Option<TimeOfDay>, samples: seq<ActivitySample>)
    ensures ActivityAsWritten(Label(c), samples) == Mean(0, 0)
  {
    if c.Some? {
      CaptureActivityZero(c.value, samples);
    } else {
      InvalidDateActivityZero(samples);
    }
  }

  /** A capture's minute field reads "mm AM" or "mm PM", which is NaN. */
  lemma CaptureActivityZero(t: TimeOfDay, samples: seq<ActivitySample>)
    ensures ActivityAsWritten(Label(Some(t)), samples) == Mean(0, 0)
  {
    LabelStart(t);
    LocaleTimeFields(t);
    var minute := PadStart2(t / 60 % 60) + " " + Meridiem(t);
    assert !IsDigit(minute[2]);
    assert JsNumber(minute) == None;
  }

  /** An Invalid Date label's hour field is the whole text, which is NaN. */
  lemma InvalidDateActivityZero(samples: seq<ActivitySample>)
    ensures ActivityAsWritten(Label(None), samples) == Mean(0, 0)
  {
    InvalidDateText();
    FirstPartOf(InvalidDate, InvalidDate);
    SplitWithout(InvalidDate, ':');
    assert JsNumber(InvalidDate) == None;
  }

  /** A capture at 09:05 with one sample from 09:00 to 09:10 at rate 80: the intended activity is
      80, the activity as written is 0. */
  lemma ActivityLostExample()
    ensures WindowActivity(32700, [ActivitySample(32400, 33000, 80)]) == Mean(80, 1)
    ensures ActivityAsWritten(Label(Some(32700)), [ActivitySample(32400, 33000, 80)]) == Mean(0, 0)
  {
    var a := ActivitySample(32400, 33000, 80);
    assert Select([a], b => Overlaps(b, 32700 - 32700 % 60)) == [a];
    ScreenshotActivityAlwaysZero(Some(32700), [a]);
  }

  // ---------------------------------------------------------------------------------------------
  // The screenshot view

  /** The interval of one stored screenshot, with the intended activity; None when its URL has no
      stamp, where the handler fails on `getTime` of null. */
  function IntervalOf(url: string, samples: seq<ActivitySample>): (r: Option<CaptureInterval>)
    ensures r.Some? <==> ExtractDateTime(url).Some?
    ensures r.Some? ==> r.value.images == [url] && r.value.department == "No Department"
  {
    match ExtractDateTime(url)
    case None => None
    case Some(st) =>
      var c := CaptureSeconds(st);
      Some(CaptureInterval(Label(c), "No Department", if c.Some? then WindowActivity(c.value, samples) else Mean(0, 0), [url]))
  }

  /** The intervals of all screenshots, in the order the store returns them. */
  function Intervals(urls: seq<string>, samples: seq<ActivitySample>): (r: Option<seq<CaptureInterval>>)
    ensures r.Some? <==> forall i :: 0 <= i < |urls| ==> ExtractDateTime(urls[i]).Some?
    ensures r.Some? ==> |r.value| == |urls| && forall i :: 0 <= i < |urls| ==> IntervalOf(urls[i], samples) == Some(r.value[i])
  {
    if |urls| == 0 then Some([])
    else
      var p := urls[..|urls| - 1];
      var prior := Intervals(p, samples);
      var last := IntervalOf(urls[|urls| - 1], samples);
      assert urls == p + [urls[|urls| - 1]];
      if prior.Some? && last.Some? then Some(prior.value + [last.value]) else None
  }

  /**
   * `GET /get-screenshots/:userId/:date` once the day's screenshot URLs and activity samples are
   * fetched: 404 when there are none, 500 when a URL has no stamp, otherwise the hourly blocks.
   */
  method ScreenshotView(urls: seq<string>, samples: seq<ActivitySample>) returns (r: Result<seq<HourBlock>>)
    ensures |urls| == 0 ==> r == Err(NotFound)
    ensures |urls| > 0 ==> (r.Err? <==> exists i :: 0 <= i < |urls| && ExtractDateTime(urls[i]).None?)
    ensures |urls| > 0 && r.Err? ==> r.error == ServerError
    ensures r.Ok? ==> Intervals(urls, samples).Some?
    ensures r.Ok? ==> |r.value| == |KeyOrder(Intervals(urls, samples).value)|
    ensures r.Ok? ==> forall i :: 0 <= i < |r.value| ==>
              BlockHolds(r.value[i], KeyOrder(Intervals(urls, samples).value)[i], Intervals(urls, samples).value,
                         Keys(Intervals(urls, samples).value))
  {
    if |urls| == 0 {
      return Err(NotFound);
    }
    var ivs := Intervals(urls, samples);
    if ivs.None? {
      return Err(ServerError);
    }
    var blocks := GroupBlocks(ivs.value);
    r := Ok(blocks);
  }
}
