/**
 * The time field: `processTimeInput`, which trims the typed text, drops one
 * trailing UTC offset or `Z`, and re-emits a `YYYY-MM-DDTHH:MM` string, and
 * the guard at the top of `updateTimeZones`, which rejects a time string as
 * malformed, out of range or not a real date, in that order.
 *
 * luxon's `fromFormat` is written out as what it accepts for these two
 * formats: the exact digit layout, a month 1..12, a day that exists in the
 * proleptic Gregorian calendar, an hour 0..23 and minutes (and seconds)
 * 0..59; `toFormat` as its zero padding of each field.
 */
module TimeInput {
  import opened Wrappers
  import opened Text

  /** A wall-clock reading with no zone attached: the fields of a luxon DateTime, to the minute. */
  datatype Civil = Civil(year: int, month: int, day: int, hour: int, minute: int)

  predicate IsLeapYear(y: int) {
    y % 4 == 0 && (y % 100 != 0 || y % 400 == 0)
  }

  function DaysInMonth(y: int, m: int): int
    requires 1 <= m <= 12
  {
    if m == 2 then (if IsLeapYear(y) then 29 else 28)
    else if m == 4 || m == 6 || m == 9 || m == 11 then 30
    else 31
  }

  predicate IsCalendarDate(y: int, m: int, d: int) {
    1 <= m <= 12 && 1 <= d <= DaysInMonth(y, m)
  }

  /** A reading luxon accepts as valid: a real date and a time of day. */
  predicate ValidCivil(c: Civil) {
    IsCalendarDate(c.year, c.month, c.day) && 0 <= c.hour <= 23 && 0 <= c.minute <= 59
  }

  /** The bounds of the guard's second check. */
  predicate InRanges(c: Civil) {
    && 1000 <= c.year <= 9999 && 1 <= c.month <= 12 && 1 <= c.day <= 31
    && 0 <= c.hour <= 23 && 0 <= c.minute <= 59
  }

  // ---------------------------------------------------------------- format

  /** luxon's numeric token: `padStart` with zeros, a minus sign kept in front. */
  function Pad(n: int, w: nat): string {
    if n < 0 then "-" + PadStart(Decimal(-n), w, '0') else PadStart(Decimal(n), w, '0')
  }

  /** Every field is non-negative and fits its width: four digits of year, two of the rest. */
  predicate Fits(c: Civil) {
    && 0 <= c.year <= 9999 && 0 <= c.month <= 99 && 0 <= c.day <= 99
    && 0 <= c.hour <= 99 && 0 <= c.minute <= 99
  }

  /**
   * `toFormat("yyyy-MM-dd'T'HH:mm")`: a reading whose fields fit their widths
   * formats to the layout and reads back as the same reading.
   */
  function FormatMinutes(c: Civil): (r: string)
    ensures Fits(c) ==> MinuteShape(r) && Fields(r) == c
  {
    PaddedLayout(c);
    Pad(c.year, 4) + "-" + Pad(c.month, 2) + "-" + Pad(c.day, 2) + "T" + Pad(c.hour, 2) + ":" + Pad(c.minute, 2)
  }

  // ---------------------------------------------------------------- parse

  /**
   * `/^\d{4}-\d{2}-\d{2}T\d{2}:\d{2}$/`, the layout of `yyyy-MM-dd'T'HH:mm`:
   * a string in it starts and ends with a digit.
   */
  predicate MinuteShape(s: string)
    ensures MinuteShape(s) ==> |s| == 16 && IsDigit(s[0]) && IsDigit(s[15])
  {
    EndDigits(s);
    && |s| == 16
    && AllDigits(s[0..4]) && s[4] == '-' && AllDigits(s[5..7]) && s[7] == '-'
    && AllDigits(s[8..10]) && s[10] == 'T' && AllDigits(s[11..13]) && s[13] == ':'
    && AllDigits(s[14..16])
  }

  /** The first and last characters of a sixteen-character string whose first and last fields are digits. */
  lemma EndDigits(s: string)
    ensures |s| == 16 && AllDigits(s[0..4]) && AllDigits(s[14..16]) ==> IsDigit(s[0]) && IsDigit(s[15])
  {
    if |s| == 16 && AllDigits(s[0..4]) && AllDigits(s[14..16]) {
      assert s[0] == s[0..4][0] && s[15] == s[14..16][1];
    }
  }

  /** The layout of `yyyy-MM-dd'T'HH:mm:ss`. */
  predicate SecondShape(s: string) {
    |s| == 19 && MinuteShape(s[..16]) && s[16] == ':' && AllDigits(s[17..19])
  }

  /** The numbers of a `yyyy-MM-dd'T'HH:mm` layout. */
  function Fields(s: string): Civil
    requires MinuteShape(s)
  {
    Civil(Value(s[0..4]), Value(s[5..7]), Value(s[8..10]), Value(s[11..13]), Value(s[14..16]))
  }

  /**
   * `DateTime.fromFormat(s, "yyyy-MM-dd'T'HH:mm:ss")`, seconds dropped: what it
   * accepts is a valid reading that formats back to the first sixteen characters.
   */
  function FromFormatSeconds(s: string): (r: Option<Civil>)
    ensures r.Some? ==> |s| == 19 && ValidCivil(r.value) && FormatMinutes(r.value) == s[..16]
  {
    if SecondShape(s) && ValidCivil(Fields(s[..16])) && Value(s[17..19]) <= 59
    then FormatFields(s[..16]); Some(Fields(s[..16])) else None
  }

  /**
   * `DateTime.fromFormat(s, "yyyy-MM-dd'T'HH:mm")`: what it accepts is a valid
   * reading that formats back to `s`.
   */
  function FromFormatMinutes(s: string): (r: Option<Civil>)
    ensures r.Some? ==> |s| == 16 && ValidCivil(r.value) && FormatMinutes(r.value) == s
  {
    if MinuteShape(s) && ValidCivil(Fields(s)) then FormatFields(s); Some(Fields(s)) else None
  }

  /** `/[+-]\d{2}:\d{2}/` matched against a whole string. */
  predicate IsOffset(o: string) {
    |o| == 6 && (o[0] == '+' || o[0] == '-') && IsDigit(o[1]) && IsDigit(o[2]) && o[3] == ':'
    && IsDigit(o[4]) && IsDigit(o[5])
  }

  /** `s.match(/[+-]\d{2}:\d{2}$/) || s.endsWith('Z')`: a suffix ends in `Z` or a digit. */
  predicate HasZoneSuffix(s: string)
    ensures HasZoneSuffix(s) ==> s != [] && (s[|s| - 1] == 'Z' || IsDigit(s[|s| - 1]))
  {
    (|s| >= 6 && IsOffset(s[|s| - 6..])) || (|s| >= 1 && s[|s| - 1] == 'Z')
  }

  /** `s.replace(/([+-]\d{2}:\d{2}|Z)$/, '')`: one trailing offset or `Z` goes. */
  function StripZone(s: string): (r: string)
    ensures |r| <= |s| && r == s[..|r|]
    ensures !HasZoneSuffix(s) ==> r == s
    ensures HasZoneSuffix(s) ==> IsOffset(s[|r|..]) || s[|r|..] == "Z"
  {
    if |s| >= 6 && IsOffset(s[|s| - 6..]) then s[..|s| - 6]
    else if |s| >= 1 && s[|s| - 1] == 'Z' then s[..|s| - 1]
    else s
  }

  /**
   * `processTimeInput(input)`, with `DateTime.local()` passed in as `now`:
   * null (None) when neither layout parses to a valid reading.
   */
  function ProcessTimeInput(input: string, now: Civil): (r: Option<string>)
    ensures Trim(input) == "" ==> r == Some(FormatMinutes(now))
    ensures Trim(input) != "" && r.Some? ==>
      var s := StripZone(Trim(input));
      && |s| >= 16 && r.value == s[..16] && MinuteShape(r.value) && ValidCivil(Fields(r.value))
      && (|s| == 16 || (|s| == 19 && s[16] == ':' && AllDigits(s[17..19]) && Value(s[17..19]) <= 59))
  {
    var t := Trim(input);
    if t == "" then Some(FormatMinutes(now))
    else
      var s := StripZone(t);
      var parsed := if FromFormatSeconds(s).Some? then FromFormatSeconds(s) else FromFormatMinutes(s);
      match parsed
      case None => None
      case Some(c) => Some(FormatMinutes(c))
  }

  // ---------------------------------------------------------------- round trips

  /** Where each field of a concatenated `yyyy-MM-dd'T'HH:mm` string sits. */
  lemma Layout(y: string, mo: string, d: string, h: string, mi: string)
    requires |y| == 4 && |mo| == 2 && |d| == 2 && |h| == 2 && |mi| == 2
    ensures var s := y + "-" + mo + "-" + d + "T" + h + ":" + mi;
      && |s| == 16 && s[0..4] == y && s[4] == '-' && s[5..7] == mo && s[7] == '-'
      && s[8..10] == d && s[10] == 'T' && s[11..13] == h && s[13] == ':' && s[14..16] == mi
  {
  }

  /** A non-negative field below 10^w is padded to exactly w digits of the same value. */
  lemma PadField(n: int, w: nat)
    requires 1 <= w && 0 <= n < Pow10(w)
    ensures |Pad(n, w)| == w && AllDigits(Pad(n, w)) && Value(Pad(n, w)) == n
  {
    PadDecimal(n, w);
  }

  /** Formatting the fields read from a `yyyy-MM-dd'T'HH:mm` string gives back that string. */
  lemma FormatFields(s: string)
    requires MinuteShape(s)
    ensures FormatMinutes(Fields(s)) == s
  {
    FieldsPadded(s);
    Layout(s[0..4], s[5..7], s[8..10], s[11..13], s[14..16]);
    assert s[0..4] + "-" + s[5..7] + "-" + s[8..10] + "T" + s[11..13] + ":" + s[14..16] == s;
  }

  /** Each field of a minute-layout string re-pads to its own digits. */
  lemma FieldsPadded(s: string)
    requires MinuteShape(s)
    ensures var c := Fields(s);
      && Pad(c.year, 4) == s[0..4] && Pad(c.month, 2) == s[5..7] && Pad(c.day, 2) == s[8..10]
      && Pad(c.hour, 2) == s[11..13] && Pad(c.minute, 2) == s[14..16]
  {
    PadValue(s[0..4]);
    PadValue(s[5..7]);
    PadValue(s[8..10]);
    PadValue(s[11..13]);
    PadValue(s[14..16]);
  }

  /** Where the padded fields of a reading that fits its widths land in the layout. */
  lemma PaddedLayout(c: Civil)
    ensures Fits(c) ==>
      var s := Pad(c.year, 4) + "-" + Pad(c.month, 2) + "-" + Pad(c.day, 2) + "T" + Pad(c.hour, 2) + ":" + Pad(c.minute, 2);
      MinuteShape(s) && Fields(s) == c
  {
    if Fits(c) {
      PadField(c.year, 4);
      PadField(c.month, 2);
      PadField(c.day, 2);
      PadField(c.hour, 2);
      PadField(c.minute, 2);
      Layout(Pad(c.year, 4), Pad(c.month, 2), Pad(c.day, 2), Pad(c.hour, 2), Pad(c.minute, 2));
    }
  }

  // ---------------------------------------------------------------- properties

  /** Whitespace-only input gives "now" to the minute. */
  lemma BlankGivesNow(input: string, now: Civil)
    requires AllSpace(input)
    ensures ProcessTimeInput(input, now) == Some(FormatMinutes(now))
  {
    TrimStartEdge(input);
  }

  /** Whitespace around the input changes nothing. */
  lemma SurroundingSpace(w1: string, x: string, w2: string, now: Civil)
    requires AllSpace(w1) && AllSpace(w2)
    ensures ProcessTimeInput(w1 + x + w2, now) == ProcessTimeInput(x, now)
  {
    TrimSurrounded(w1, x, w2);
  }

  /** A string in the output layout is already trimmed and has no zone suffix. */
  lemma OutputInert(r: string)
    requires MinuteShape(r)
    ensures Trim(r) == r && StripZone(r) == r
  {
    assert IsDigit(r[0]) by { assert r[0] == r[0..4][0]; }
    assert IsDigit(r[15]) by { assert r[15] == r[14..16][1]; }
    assert r[10..16][0] == 'T';
  }

  /** Running the normaliser on its own output changes nothing. */
  lemma Idempotent(input: string, now: Civil)
    requires Trim(input) != "" || (ValidCivil(now) && 0 <= now.year <= 9999)
    requires ProcessTimeInput(input, now).Some?
    ensures var r := ProcessTimeInput(input, now).value; ProcessTimeInput(r, now) == Some(r)
  {
    var r := ProcessTimeInput(input, now).value;
    assert MinuteShape(r) && ValidCivil(Fields(r));
    OutputInert(r);
    FormatFields(r);
    assert !SecondShape(r);
  }

  /**
   * A real date in the minute layout is a fixed point of the normaliser, and
   * the guard accepts it exactly when its year is at least 1000.
   */
  lemma NormalFixedPoint(t: string, now: Civil)
    requires MinuteShape(t) && ValidCivil(Fields(t))
    ensures ProcessTimeInput(t, now) == Some(t)
    ensures ValidateTime(t).Accepted? <==> Fields(t).year >= 1000
  {
    OutputInert(t);
    FormatFields(t);
    assert !SecondShape(t);
    ValidationOrder(t);
    ValueBound(t[0..4]);
  }

  /**
   * Seconds are read and dropped: a real date in the minute layout followed by
   * `:ss` with ss at most 59 normalises to the date without them.
   */
  lemma SecondsDropped(t: string, ss: string, now: Civil)
    requires MinuteShape(t) && ValidCivil(Fields(t))
    requires |ss| == 2 && AllDigits(ss) && Value(ss) <= 59
    ensures ProcessTimeInput(t + ":" + ss, now) == Some(t)
  {
    SecondsLayout(t, ss);
    FormatFields(t);
  }

  /** `t:ss` is trimmed, carries no suffix and reads as the fields of `t`. */
  lemma SecondsLayout(t: string, ss: string)
    requires MinuteShape(t) && ValidCivil(Fields(t))
    requires |ss| == 2 && AllDigits(ss) && Value(ss) <= 59
    ensures var s := t + ":" + ss;
      Trim(s) == s && StripZone(s) == s && FromFormatSeconds(s) == Some(Fields(t))
  {
    var s := t + ":" + ss;
    SecondsParts(t, ss);
    assert SecondShape(s);
    SecondsBare(s);
  }

  /** Where the pieces of `t:ss` sit. */
  lemma SecondsParts(t: string, ss: string)
    requires |t| == 16 && |ss| == 2
    ensures var s := t + ":" + ss; |s| == 19 && s[..16] == t && s[16] == ':' && s[17..19] == ss
  {
  }

  /** A string in the seconds layout is trimmed and carries no suffix. */
  lemma SecondsBare(s: string)
    requires SecondShape(s)
    ensures Trim(s) == s && StripZone(s) == s
  {
    ShapeFacts(s);
    assert !HasZoneSuffix(s) by { assert s[|s| - 6..][0] == s[13]; }
    assert s[0] == s[..16][0];
    TrimUnchanged(s);
  }

  /** No whitespace at either end, nothing at all, or a zone suffix already present. */
  predicate Bare(x: string) {
    x != "" && !IsJsSpace(x[0]) && !IsJsSpace(x[|x| - 1]) && !HasZoneSuffix(x)
  }

  /** An offset or a `Z` after a bare time is ignored: `X+09:00`, `XZ` and `X` agree. */
  lemma SuffixIgnored(x: string, o: string, now: Civil)
    requires Bare(x) && IsOffset(o)
    ensures ProcessTimeInput(x + o, now) == ProcessTimeInput(x, now)
    ensures ProcessTimeInput(x + "Z", now) == ProcessTimeInput(x, now)
  {
    assert (x + o)[|x + o| - 6..] == o;
    assert (x + o)[..|x + o| - 6] == x;
    assert IsDigit(o[5]);
    TrimUnchanged(x + o);
    TrimUnchanged(x);
    var xz := x + "Z";
    assert xz[..|xz| - 1] == x;
    assert !(|xz| >= 6 && IsOffset(xz[|xz| - 6..])) by {
      if |xz| >= 6 { assert xz[|xz| - 6..][5] == 'Z'; }
    }
    TrimUnchanged(xz);
  }

  /** Both layouts end in a digit and put their separators at fixed places. */
  lemma ShapeFacts(s: string)
    ensures MinuteShape(s) ==> IsDigit(s[15]) && s[10] == 'T'
    ensures SecondShape(s) ==> IsDigit(s[18]) && s[13] == ':'
  {
    if MinuteShape(s) { assert s[15] == s[14..16][1]; }
    if SecondShape(s) {
      assert s[18] == s[17..19][1];
      assert s[13] == s[..16][13];
    }
  }

  /** Neither layout ends in anything but a digit. */
  lemma ParseNeedsDigitLast(s: string)
    requires s == [] || !IsDigit(s[|s| - 1])
    ensures FromFormatSeconds(s).None? && FromFormatMinutes(s).None?
  {
    ShapeFacts(s);
  }

  /** A string in the minute layout carries no zone suffix: it ends in a digit and has `T` where an offset's sign would be. */
  lemma ShapeHasNoSuffix(s: string)
    requires MinuteShape(s)
    ensures !HasZoneSuffix(s)
  {
    ShapeFacts(s);
  }

  /** Only one suffix is stripped: `XZZ` and `X+09:00Z` are rejected. */
  lemma OneSuffixOnly(x: string, o: string, now: Civil)
    requires x != "" && !IsJsSpace(x[0]) && IsOffset(o)
    ensures ProcessTimeInput(x + "ZZ", now) == None
    ensures ProcessTimeInput(x + o + "Z", now) == None
  {
    var a := x + "ZZ";
    TrimUnchanged(a);
    assert !(|a| >= 6 && IsOffset(a[|a| - 6..])) by { if |a| >= 6 { assert a[|a| - 6..][5] == 'Z'; } }
    assert StripZone(a) == x + "Z";
    ParseNeedsDigitLast(x + "Z");
    var b := x + o + "Z";
    TrimUnchanged(b);
    assert !IsOffset(b[|b| - 6..]) by { assert b[|b| - 6..][5] == 'Z'; }
    assert StripZone(b) == x + o;
    OffsetNeverParses(x, o);
  }

  /** A time with an offset still attached fits neither layout. */
  lemma OffsetNeverParses(x: string, o: string)
    requires IsOffset(o)
    ensures FromFormatSeconds(x + o).None? && FromFormatMinutes(x + o).None?
  {
    var s := x + o;
    ShapeFacts(s);
    assert |s| == 16 ==> s[10] == o[0];
    assert |s| == 19 ==> s[13] == o[0];
  }

  // ---------------------------------------------------------------- the guard

  datatype TimeError = Malformed | OutOfRange | Nonexistent

  datatype Checked = Accepted(time: Civil) | Rejected(error: TimeError)

  /**
   * The three checks at the top of `updateTimeZones`: the layout, then the
   * numeric ranges, then `fromFormat`'s validity, which by then can fail only
   * for a day the month does not have.
   */
  function ValidateTime(time: string): (r: Checked)
    ensures r.Accepted? ==>
      && ValidCivil(r.time) && InRanges(r.time) && FormatMinutes(r.time) == time
  {
    if !MinuteShape(time) then Rejected(Malformed)
    else
      var c := Fields(time);
      if c.year < 1000 || c.year > 9999 || c.month < 1 || c.month > 12 || c.day < 1 || c.day > 31
         || c.hour < 0 || c.hour > 23 || c.minute < 0 || c.minute > 59
      then Rejected(OutOfRange)
      else if FromFormatMinutes(time).None? then Rejected(Nonexistent)
      else
        FormatFields(time);
        Accepted(c)
  }

  /** The checks run in order: layout first, then ranges, then the calendar. */
  lemma ValidationOrder(time: string)
    ensures ValidateTime(time) == Rejected(Malformed) <==> !MinuteShape(time)
    ensures ValidateTime(time) == Rejected(OutOfRange) <==> MinuteShape(time) && !InRanges(Fields(time))
    ensures ValidateTime(time) == Rejected(Nonexistent) <==>
      MinuteShape(time) && InRanges(Fields(time)) &&
      !IsCalendarDate(Fields(time).year, Fields(time).month, Fields(time).day)
    ensures ValidateTime(time).Accepted? <==> MinuteShape(time) && ValidCivil(Fields(time)) && InRanges(Fields(time))
  {
  }

  /** Every valid reading from year 1000 to 9999 is accepted as exactly itself. */
  lemma ValidateFormatted(c: Civil)
    requires ValidCivil(c) && InRanges(c)
    ensures ValidateTime(FormatMinutes(c)) == Accepted(c)
  {
  }

  /**
   * What the normaliser returns always passes the layout check; the guard
   * accepts it exactly when its year is at least 1000 (the normaliser lets
   * years 0000 to 0999 through, the guard does not).
   */
  lemma NormalisedPassesGuard(input: string, now: Civil)
    requires Trim(input) != ""
    requires ProcessTimeInput(input, now).Some?
    ensures var r := ProcessTimeInput(input, now).value;
      && ValidateTime(r) != Rejected(Malformed)
      && (ValidateTime(r).Accepted? <==> Fields(r).year >= 1000)
  {
    var r := ProcessTimeInput(input, now).value;
    ValueBound(r[0..4]);
  }

  /** 30 February does not exist: the guard names the calendar, not the ranges. */
  lemma NoThirtiethOfFebruary()
    ensures ValidateTime(FormatMinutes(Civil(2025, 2, 30, 10, 0))) == Rejected(Nonexistent)
  {
    assert Fits(Civil(2025, 2, 30, 10, 0));
  }

  /** The five fields of 14 March 2025, 09:05 as `toFormat` pads them. */
  lemma PlainFields()
    ensures Pad(2025, 4) == "2025" && Pad(3, 2) == "03" && Pad(14, 2) == "14"
    ensures Pad(9, 2) == "09" && Pad(5, 2) == "05"
  {
    assert Decimal(2025) == Decimal(202) + [DigitChar(5)];
    assert Decimal(202) == Decimal(20) + [DigitChar(2)];
    assert Decimal(20) == Decimal(2) + [DigitChar(0)];
    assert Decimal(14) == Decimal(1) + [DigitChar(4)];
  }

  /** `2025-03-14T09:05` is accepted as 14 March 2025, 09:05, and normalises to itself. */
  lemma PlainExample(now: Civil)
    ensures FormatMinutes(Civil(2025, 3, 14, 9, 5)) == "2025-03-14T09:05"
    ensures ProcessTimeInput("2025-03-14T09:05", now) == Some("2025-03-14T09:05")
    ensures ValidateTime("2025-03-14T09:05") == Accepted(Civil(2025, 3, 14, 9, 5))
  {
    var c := Civil(2025, 3, 14, 9, 5);
    PlainFields();
    var t := FormatMinutes(c);
    ValidateFormatted(c);
    OutputInert(t);
    FormatFields(t);
    assert !SecondShape(t);
  }
}
