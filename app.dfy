/**
 * The page logic: the zone list `updateTimeZones` builds from the form (the
 * source zone first, then the non-empty target selects in order), the
 * share-link parameters it writes, and `init`, which reads those parameters
 * back into the form before the first redraw.
 *
 * luxon's zone conversion and its `yyyy MMM d, ccc, h:mm a` formatting come in
 * as the functions of a `Luxon` value; `decodeURIComponent`, `DateTime.fromISO`,
 * the wall clock and the system zone as the fields of a `Browser` value.
 */
module App {
  import opened Wrappers
  import opened Text
  import opened Timezones
  import opened ClockUtils
  import opened TimeInput

  const DefaultSourceTz := "Asia/Tokyo"

  /** A DateTime after `setZone`: its hour and minute (NaN for an invalid zone) and its formatted text. */
  datatype Zoned = Zoned(hour: Num, minute: Num, formatted: string)

  /**
   * What luxon contributes: `setZone(c, from, to)` is
   * `DateTime.fromObject(c, {zone: from}).setZone(to)` read back, and
   * `format(c, zone)` is `DateTime.fromObject(c, {zone}).toFormat(...)`.
   */
  datatype Luxon = Luxon(setZone: (Civil, string, string) -> Zoned, format: (Civil, string) -> string)

  // ---------------------------------------------------------------- the form

  /** `sourceTz.value || DEFAULT_SOURCE_TZ`. */
  function SourceZone(value: string): (tz: string)
    ensures tz != ""
    ensures value != "" ==> tz == value
    ensures value == "" ==> tz == DefaultSourceTz
  {
    if value == "" then DefaultSourceTz else value
  }

  /** No id in the list is empty. */
  predicate Filled(ts: seq<string>) {
    forall k :: 0 <= k < |ts| ==> ts[k] != ""
  }

  /** The values of the target selects with the empty ones dropped, in document order. */
  function NonEmpty(slots: seq<string>): (ts: seq<string>)
    ensures |ts| <= |slots| && Filled(ts)
    ensures forall t :: t in ts <==> t in slots && t != ""
  {
    if slots == [] then []
    else if slots[0] != "" then [slots[0]] + NonEmpty(slots[1..])
    else NonEmpty(slots[1..])
  }

  /** The filter keeps order: filtering a concatenation filters each part. */
  lemma {:induction false} NonEmptyAppend(a: seq<string>, b: seq<string>)
    ensures NonEmpty(a + b) == NonEmpty(a) + NonEmpty(b)
  {
    if a == [] {
      assert a + b == b;
    } else {
      assert (a + b)[0] == a[0];
      assert (a + b)[1..] == a[1..] + b;
      NonEmptyAppend(a[1..], b);
    }
  }

  /** Slots that are all filled pass through unchanged. */
  lemma {:induction false} NonEmptyAllFilled(slots: seq<string>)
    requires forall k :: 0 <= k < |slots| ==> slots[k] != ""
    ensures NonEmpty(slots) == slots
  {
    if slots != [] {
      NonEmptyAllFilled(slots[1..]);
    }
  }

  /** Slots that are all empty give no targets. */
  lemma {:induction false} NonEmptyAllEmpty(slots: seq<string>)
    requires forall k :: 0 <= k < |slots| ==> slots[k] == ""
    ensures NonEmpty(slots) == []
  {
    if slots != [] {
      NonEmptyAllEmpty(slots[1..]);
    }
  }

  // ---------------------------------------------------------------- the zone list

  /**
   * The `map` callback of `updateTimeZones`: null for an empty id; for the
   * source zone the entered hour and minute unchanged; for any other zone the
   * converted reading. The night flag always follows the entry's own hour.
   */
  function ZoneEntry(lx: Luxon, c: Civil, sourceTz: string, tz: string): (e: Option<ZoneInfo>)
    ensures e.None? <==> tz == ""
    ensures e.Some? ==> e.value.zoneName == ReadableName(tz) && e.value.isNightTime == IsNightTime(e.value.hour)
    ensures e.Some? && tz == sourceTz ==>
      e.value.hour == Int(c.hour) && e.value.minute == Int(c.minute) && e.value.formattedTime == lx.format(c, sourceTz)
    ensures e.Some? && tz != sourceTz ==>
      var z := lx.setZone(c, sourceTz, tz);
      e.value.hour == z.hour && e.value.minute == z.minute && e.value.formattedTime == z.formatted
  {
    if tz == "" then None
    else if tz == sourceTz then
      Some(ZoneInfo(ReadableName(tz), Int(c.hour), Int(c.minute), lx.format(c, sourceTz), IsNightTime(Int(c.hour))))
    else
      var z := lx.setZone(c, sourceTz, tz);
      Some(ZoneInfo(ReadableName(tz), z.hour, z.minute, z.formatted, IsNightTime(z.hour)))
  }

  /** `.filter(info => info !== null)`. */
  function Present(xs: seq<Option<ZoneInfo>>): (r: seq<ZoneInfo>)
    ensures |r| <= |xs|
    ensures forall v :: v in r <==> Some(v) in xs
    ensures (forall k :: 0 <= k < |xs| ==> xs[k].Some?) ==>
      |r| == |xs| && forall k :: 0 <= k < |xs| ==> r[k] == xs[k].value
  {
    if xs == [] then []
    else if xs[0].Some? then [xs[0].value] + Present(xs[1..])
    else Present(xs[1..])
  }

  /** `[sourceTz, ...targetTzs].map(...).filter(...)`. */
  function Entries(lx: Luxon, c: Civil, sourceTz: string, targets: seq<string>): (infos: seq<ZoneInfo>)
    ensures (sourceTz != "" && Filled(targets)) ==>
      && |infos| == 1 + |targets|
      && forall k :: 0 <= k < |infos| ==> Some(infos[k]) == ZoneEntry(lx, c, sourceTz, ([sourceTz] + targets)[k])
  {
    var tzs := [sourceTz] + targets;
    var xs := seq(|tzs|, i requires 0 <= i < |tzs| => ZoneEntry(lx, c, sourceTz, tzs[i]));
    assert forall k :: 1 <= k < |tzs| ==> tzs[k] == targets[k - 1];
    assert (sourceTz != "" && Filled(targets)) ==> forall k :: 0 <= k < |xs| ==> xs[k].Some?;
    Present(xs)
  }

  /** With every id non-empty, every entry gets a non-empty label and so is drawn. */
  lemma EntriesDrawn(lx: Luxon, c: Civil, sourceTz: string, targets: seq<string>)
    requires sourceTz != "" && Filled(targets)
    ensures var infos := Entries(lx, c, sourceTz, targets);
      forall k :: 0 <= k < |infos| ==> infos[k].zoneName != ""
    ensures var infos := Entries(lx, c, sourceTz, targets);
      Kept(infos) == infos && |CreateMultiClock(infos).clocks| == |infos|
  {
    var infos := Entries(lx, c, sourceTz, targets);
    var tzs := [sourceTz] + targets;
    forall k | 0 <= k < |infos|
      ensures infos[k].zoneName != ""
    {
      assert tzs[k] != "" by {
        if k > 0 { assert tzs[k] == targets[k - 1]; }
      }
      ReadableNameNonEmpty(tzs[k]);
    }
    KeptAll(infos);
  }

  // ---------------------------------------------------------------- updateTimeZones

  /** The `time`, `sourceTz` and `targetTz` query parameters written to the page URL; None deletes `targetTz`. */
  datatype UrlParams = UrlParams(time: string, sourceTz: string, targetTz: Option<string>)

  /** What a redraw ends in: a guard message, the generic error, or the new clocks and URL. */
  datatype Outcome =
    | Refused(error: TimeError)
    | Failed
    | Shown(infos: seq<ZoneInfo>, params: UrlParams, picture: Composite)

  /** `targetTz` is the comma-join of the targets, and absent when there are none. */
  function EncodeTargets(targets: seq<string>): (p: Option<string>)
    ensures p.None? <==> targets == []
  {
    if |targets| > 0 then Some(Join(targets, ',')) else None
  }

  /** `s.includes('NaN')`. */
  predicate HasNaN(s: string) {
    exists i :: 0 <= i && i + 2 < |s| && s[i] == 'N' && s[i + 1] == 'a' && s[i + 2] == 'N'
  }

  /**
   * `multiClockSvg.includes('NaN')`: the only text of the composite that is
   * not fixed markup or a finite number is its captions.
   */
  predicate ShowsNaN(picture: Composite) {
    exists k :: 0 <= k < |picture.clocks| && (HasNaN(picture.clocks[k].name.text) || HasNaN(picture.clocks[k].time.text))
  }

  /**
   * `updateTimeZones` over the form's values: the time field, the source
   * select and the target selects in document order.
   */
  function UpdateTimeZones(lx: Luxon, time: string, sourceValue: string, slots: seq<string>): (o: Outcome)
    ensures o.Refused? <==> ValidateTime(time).Rejected?
    ensures o.Refused? ==> o.error == ValidateTime(time).error
    ensures o.Shown? ==>
      && o.infos == Entries(lx, ValidateTime(time).time, SourceZone(sourceValue), NonEmpty(slots))
      && |o.infos| == 1 + |NonEmpty(slots)|
      && o.params == UrlParams(time, SourceZone(sourceValue), EncodeTargets(NonEmpty(slots)))
      && o.picture == CreateMultiClock(o.infos) && |o.picture.clocks| == |o.infos|
  {
    match ValidateTime(time)
    case Rejected(e) => Refused(e)
    case Accepted(c) =>
      var src := SourceZone(sourceValue);
      var targets := NonEmpty(slots);
      var infos := Entries(lx, c, src, targets);
      var picture := CreateMultiClock(infos);
      if ShowsNaN(picture) then Failed
      else
        EntriesDrawn(lx, c, src, targets);
        Shown(infos, UrlParams(time, src, EncodeTargets(targets)), picture)
  }

  /**
   * The list built from a source zone and targets: entry k is labelled after
   * the k-th id; an entry for the source zone (first, or any target equal to
   * it) shows the entered hour and minute; every other entry shows luxon's
   * conversion; and each entry's palette follows its own hour.
   */
  lemma EntriesList(lx: Luxon, c: Civil, src: string, targets: seq<string>)
    requires src != "" && Filled(targets)
    ensures var infos := Entries(lx, c, src, targets); var tzs := [src] + targets;
      && |infos| == |tzs|
      && (forall k :: 0 <= k < |tzs| ==>
            infos[k].zoneName == ReadableName(tzs[k]) && infos[k].isNightTime == IsNightTime(infos[k].hour))
      && (forall k :: 0 <= k < |tzs| && tzs[k] == src ==>
            infos[k].hour == Int(c.hour) && infos[k].minute == Int(c.minute))
      && (forall k :: 0 <= k < |tzs| && tzs[k] != src ==>
            infos[k].hour == lx.setZone(c, src, tzs[k]).hour && infos[k].minute == lx.setZone(c, src, tzs[k]).minute)
  {
    var infos := Entries(lx, c, src, targets);
    var tzs := [src] + targets;
    forall k | 0 <= k < |tzs|
      ensures Some(infos[k]) == ZoneEntry(lx, c, src, tzs[k])
    {
    }
  }

  /**
   * The NaN check is the only other way out: an accepted time ends in the
   * generic error exactly when a caption of the picture contains `NaN`.
   */
  lemma FailsOnlyOnNaN(lx: Luxon, time: string, sourceValue: string, slots: seq<string>)
    requires ValidateTime(time).Accepted?
    ensures var picture := CreateMultiClock(Entries(lx, ValidateTime(time).time, SourceZone(sourceValue), NonEmpty(slots)));
      UpdateTimeZones(lx, time, sourceValue, slots).Failed? <==> ShowsNaN(picture)
  {
  }

  /** Clock k of a drawn outcome carries entry k's label, time and face. */
  predicate DrawnAsListed(o: Outcome)
    requires o.Shown?
  {
    && |o.picture.clocks| == |o.infos|
    && forall k :: 0 <= k < |o.infos| ==>
         && o.picture.clocks[k].name.text == o.infos[k].zoneName
         && o.picture.clocks[k].time.text == o.infos[k].formattedTime
         && o.picture.clocks[k].face == CreateAnalogClock(o.infos[k].hour, o.infos[k].minute, o.infos[k].isNightTime)
  }

  /**
   * What `updateTimeZones` draws is the list `EntriesList` describes: the
   * source zone, then the filled target selects in order; and clock k of the
   * picture carries entry k's label, its time and its face.
   */
  lemma ZoneList(lx: Luxon, time: string, sourceValue: string, slots: seq<string>)
    requires UpdateTimeZones(lx, time, sourceValue, slots).Shown?
    ensures var o := UpdateTimeZones(lx, time, sourceValue, slots);
      && o.infos == Entries(lx, ValidateTime(time).time, SourceZone(sourceValue), NonEmpty(slots))
      && |o.infos| == 1 + |NonEmpty(slots)|
      && DrawnAsListed(o)
  {
    var o := UpdateTimeZones(lx, time, sourceValue, slots);
    var infos := Entries(lx, ValidateTime(time).time, SourceZone(sourceValue), NonEmpty(slots));
    EntriesDrawn(lx, ValidateTime(time).time, SourceZone(sourceValue), NonEmpty(slots));
    PictureOfList(o, infos);
  }

  lemma PictureOfList(o: Outcome, infos: seq<ZoneInfo>)
    requires o.Shown? && o.infos == infos && o.picture == CreateMultiClock(infos)
    requires forall k :: 0 <= k < |infos| ==> infos[k].zoneName != ""
    ensures DrawnAsListed(o)
  {
    DrawnInOrder(infos);
  }

  /** A source in the target list is drawn twice with the same hands: conversion plays no part for it. */
  lemma SourceRepeated(lx: Luxon, time: string, sourceValue: string, slots: seq<string>, k: int)
    requires UpdateTimeZones(lx, time, sourceValue, slots).Shown?
    requires 0 <= k < |NonEmpty(slots)| && NonEmpty(slots)[k] == SourceZone(sourceValue)
    ensures var o := UpdateTimeZones(lx, time, sourceValue, slots);
      o.infos[k + 1] == o.infos[0]
  {
    var o := UpdateTimeZones(lx, time, sourceValue, slots);
    var src := SourceZone(sourceValue);
    var tzs := [src] + NonEmpty(slots);
    assert tzs[k + 1] == src;
    assert Some(o.infos[0]) == ZoneEntry(lx, ValidateTime(time).time, src, tzs[0]);
    assert Some(o.infos[k + 1]) == ZoneEntry(lx, ValidateTime(time).time, src, tzs[k + 1]);
  }

  /** A rejected time draws nothing and writes no URL; the first failing check names the error. */
  lemma NothingAfterRejection(lx: Luxon, time: string, sourceValue: string, slots: seq<string>)
    requires !MinuteShape(time) || !InRanges(Fields(time)) || !ValidCivil(Fields(time))
    ensures UpdateTimeZones(lx, time, sourceValue, slots).Refused?
    ensures !MinuteShape(time) ==> UpdateTimeZones(lx, time, sourceValue, slots) == Refused(Malformed)
  {
    ValidationOrder(time);
  }

  // ---------------------------------------------------------------- the share link read back

  /**
   * `decodeURIComponent(targetTz).split(',')` handed to the `forEach` that
   * sets select i to entry i while a select i exists.
   */
  function Fill(slots: seq<string>, list: seq<string>): (r: seq<string>)
    ensures |r| == |slots|
  {
    seq(|slots|, i requires 0 <= i < |slots| => if i < |list| then list[i] else slots[i])
  }

  /** Entries past the last select are ignored; selects past the last entry keep their value. */
  lemma FillExtras(slots: seq<string>, list: seq<string>)
    ensures |list| >= |slots| ==> Fill(slots, list) == list[..|slots|]
    ensures |list| <= |slots| ==> Fill(slots, list) == list + slots[|list|..]
  {
  }

  /**
   * Reading the share link back into selects that start empty restores the
   * non-empty targets in order, whenever no id holds a comma; with no
   * targets the parameter is absent and the selects stay empty.
   */
  lemma TargetsRoundTrip(slots: seq<string>, blank: seq<string>)
    requires |blank| == |slots| && forall k :: 0 <= k < |blank| ==> blank[k] == ""
    requires forall k :: 0 <= k < |slots| ==> ',' !in slots[k]
    ensures var p := EncodeTargets(NonEmpty(slots));
      NonEmpty(if p.Some? then Fill(blank, Split(p.value, ',')) else blank) == NonEmpty(slots)
  {
    var ts := NonEmpty(slots);
    if ts == [] {
      NonEmptyAllEmpty(blank);
    } else {
      forall k | 0 <= k < |ts|
        ensures ',' !in ts[k]
      {
        assert ts[k] in slots;
      }
      forall k | 0 <= k < |ts|
        ensures ts[k] != ""
      {
        assert ts[k] in ts;
      }
      SplitJoin(ts, ',');
      FillExtras(blank, ts);
      var rest := blank[|ts|..];
      NonEmptyAppend(ts, rest);
      NonEmptyAllFilled(ts);
      NonEmptyAllEmpty(rest);
    }
  }

  // ---------------------------------------------------------------- init

  /** `urlParams.get(...)` for `time`, `sourceTz` and `targetTz`: None when the parameter is absent. */
  datatype Query = Query(time: Option<string>, sourceTz: Option<string>, targetTz: Option<string>)

  /** A valid `DateTime.fromISO` result: its wall-clock reading and its zone name. */
  datatype IsoTime = IsoTime(civil: Civil, zoneName: string)

  /**
   * The browser around `init`: `DateTime.local()`, the `Intl` time zone,
   * `decodeURIComponent` (None where it throws) and `DateTime.fromISO`
   * (None where the result is invalid).
   */
  datatype Browser = Browser(
    now: Civil, systemTz: string,
    decode: string -> Option<string>, fromIso: string -> Option<IsoTime>)

  /** What `init` writes into the time field and the source select. */
  datatype Start = Start(time: string, sourceTz: string)

  /** A query parameter is acted on when present and non-empty. */
  predicate Given(p: Option<string>) {
    p.Some? && p.value != ""
  }

  /**
   * The decision tree of `init` for `time` and `sourceTz`. None is the outer
   * `catch`: `decodeURIComponent` threw on one of the two parameters and
   * nothing was written.
   */
  function StartValues(q: Query, env: Browser): (r: Option<Start>)
    ensures r.None? <==>
      (Given(q.time) && env.decode(q.time.value).None?) ||
      (Given(q.sourceTz) && env.decode(q.sourceTz.value).None?)
    ensures r.Some? && Given(q.sourceTz) ==> r.value.sourceTz == env.decode(q.sourceTz.value).value
  {
    var system := SourceZone(env.systemTz);
    var fallback := Start(FormatMinutes(env.now), system);
    var derived :=
      if !Given(q.time) then Some(fallback)
      else match env.decode(q.time.value)
        case None => None
        case Some(t) =>
          if HasZoneSuffix(t) then
            match env.fromIso(t)
            case None => Some(fallback)
            case Some(iso) => Some(Start(FormatMinutes(iso.civil), iso.zoneName))
          else if FromFormatMinutes(t).Some? then Some(Start(t, system))
          else Some(fallback);
    if derived.None? || !Given(q.sourceTz) then derived
    else match env.decode(q.sourceTz.value)
      case None => None
      case Some(s) => Some(derived.value.(sourceTz := s))
  }

  /** The list `init` hands to the select loop: None when `targetTz` is absent, empty or undecodable. */
  function TargetList(q: Query, env: Browser): (r: Option<seq<string>>)
    ensures r.Some? ==>
      Given(q.targetTz) && env.decode(q.targetTz.value).Some? &&
      |r.value| >= 1 && Join(r.value, ',') == env.decode(q.targetTz.value).value
  {
    if !Given(q.targetTz) then None
    else match env.decode(q.targetTz.value)
      case None => None
      case Some(s) =>
        JoinSplit(s, ',');
        Some(Split(s, ','))
  }

  /** With no parameters the page opens on "now" in the system zone, or Tokyo when the browser names none. */
  lemma BareAddress(env: Browser)
    ensures StartValues(Query(None, None, None), env) ==
      Some(Start(FormatMinutes(env.now), if env.systemTz == "" then "Asia/Tokyo" else env.systemTz))
    ensures TargetList(Query(None, None, None), env).None?
  {
  }

  /** A readable `DateTime.fromISO`: every valid result is a real date with a four-digit year. */
  ghost predicate IsoReadable(env: Browser) {
    forall t :: env.fromIso(t).Some? ==>
      ValidCivil(env.fromIso(t).value.civil) && 0 <= env.fromIso(t).value.civil.year <= 9999
  }

  /**
   * Whatever branch `init` takes, the time it writes is in the output layout
   * of the normaliser, is a fixed point of it, and passes the guard exactly
   * when its year is at least 1000.
   */
  lemma StartTimeNormal(q: Query, env: Browser, now: Civil)
    requires ValidCivil(env.now) && 0 <= env.now.year <= 9999 && IsoReadable(env)
    requires StartValues(q, env).Some?
    ensures var t := StartValues(q, env).value.time;
      && MinuteShape(t) && ValidCivil(Fields(t))
      && ProcessTimeInput(t, now) == Some(t)
      && (ValidateTime(t).Accepted? <==> Fields(t).year >= 1000)
  {
    StartTimeShape(q, env);
    NormalFixedPoint(StartValues(q, env).value.time, now);
  }

  /** Each branch of `init` writes a time in the minute layout that is a real date. */
  lemma StartTimeShape(q: Query, env: Browser)
    requires ValidCivil(env.now) && 0 <= env.now.year <= 9999 && IsoReadable(env)
    requires StartValues(q, env).Some?
    ensures MinuteShape(StartValues(q, env).value.time) && ValidCivil(Fields(StartValues(q, env).value.time))
  {
    var t := StartValues(q, env).value.time;
    assert Fits(env.now);
    if Given(q.time) {
      var d := env.decode(q.time.value).value;
      if HasZoneSuffix(d) && env.fromIso(d).Some? {
        assert Fits(env.fromIso(d).value.civil);
      }
    }
  }

  /** The redraw depends on the target selects only through their non-empty values, and on the source only through `SourceZone`. */
  lemma RedrawDependsOnTargets(lx: Luxon, time: string, v1: string, v2: string, s1: seq<string>, s2: seq<string>)
    requires SourceZone(v1) == SourceZone(v2) && NonEmpty(s1) == NonEmpty(s2)
    ensures UpdateTimeZones(lx, time, v1, s1) == UpdateTimeZones(lx, time, v2, s2)
  {
  }

  /** A link whose time is a real date in the minute layout opens on that time and the linked source zone. */
  lemma LinkStart(q: Query, env: Browser)
    requires q.time.Some? && q.sourceTz.Some? && q.sourceTz.value != ""
    requires MinuteShape(q.time.value) && ValidCivil(Fields(q.time.value))
    requires env.decode(q.time.value) == q.time && env.decode(q.sourceTz.value) == q.sourceTz
    ensures StartValues(q, env) == Some(Start(q.time.value, q.sourceTz.value))
  {
    ShapeHasNoSuffix(q.time.value);
  }

  /** A link's `targetTz`, decoded unchanged into empty selects, restores the non-empty targets. */
  lemma LinkTargets(q: Query, env: Browser, slots: seq<string>, blank: seq<string>)
    requires q.targetTz == EncodeTargets(NonEmpty(slots))
    requires q.targetTz.Some? ==> env.decode(q.targetTz.value) == q.targetTz
    requires forall k :: 0 <= k < |slots| ==> ',' !in slots[k]
    requires |blank| == |slots| && forall k :: 0 <= k < |blank| ==> blank[k] == ""
    ensures NonEmpty(if TargetList(q, env).Some? then Fill(blank, TargetList(q, env).value) else blank) == NonEmpty(slots)
  {
    TargetsRoundTrip(slots, blank);
    if q.targetTz.Some? {
      var ts := NonEmpty(slots);
      JoinNonEmpty(ts, ',');
    }
  }

  /**
   * Opening the share link of a drawn page, in a browser whose decoder
   * returns the written parameters unchanged and with all target selects
   * empty, draws the same clocks and writes the same URL again.
   */
  lemma ShareLinkReproduces(lx: Luxon, time: string, sourceValue: string, slots: seq<string>,
                            env: Browser, blank: seq<string>)
    requires UpdateTimeZones(lx, time, sourceValue, slots).Shown?
    requires forall k :: 0 <= k < |slots| ==> ',' !in slots[k]
    requires |blank| == |slots| && forall k :: 0 <= k < |blank| ==> blank[k] == ""
    requires var p := UpdateTimeZones(lx, time, sourceValue, slots).params;
      && env.decode(p.time) == Some(p.time) && env.decode(p.sourceTz) == Some(p.sourceTz)
      && (p.targetTz.Some? ==> env.decode(p.targetTz.value) == p.targetTz)
    ensures var o := UpdateTimeZones(lx, time, sourceValue, slots);
      var q := Query(Some(o.params.time), Some(o.params.sourceTz), o.params.targetTz);
      var filled := if TargetList(q, env).Some? then Fill(blank, TargetList(q, env).value) else blank;
      && StartValues(q, env) == Some(Start(time, SourceZone(sourceValue)))
      && UpdateTimeZones(lx, time, SourceZone(sourceValue), filled) == o
  {
    var o := UpdateTimeZones(lx, time, sourceValue, slots);
    var q := Query(Some(o.params.time), Some(o.params.sourceTz), o.params.targetTz);
    ValidationOrder(time);
    LinkStart(q, env);
    LinkTargets(q, env, slots, blank);
    var filled := if TargetList(q, env).Some? then Fill(blank, TargetList(q, env).value) else blank;
    RedrawDependsOnTargets(lx, time, SourceZone(sourceValue), sourceValue, filled, slots);
  }

  /** A join whose first part is non-empty is non-empty. */
  lemma JoinNonEmpty(parts: seq<string>, sep: char)
    requires |parts| >= 1 && parts[0] != ""
    ensures Join(parts, sep) != ""
  {
    if |parts| > 1 {
      assert |Join(parts, sep)| >= |parts[0]|;
    }
  }

  // ---------------------------------------------------------------- the page

  /** The form: the time field, the source select, the target selects in document order. */
  class Page {
    var time: string
    var sourceTz: string
    /** `sourceSelect.dataset.prevValue`. */
    var previousSource: string
    /** Whether the time field carries the `error` class and a custom validity message. */
    var flagged: bool
    const targets: array<string>

    constructor (time0: string, source0: string, slots: seq<string>)
      ensures time == time0 && sourceTz == source0 && previousSource == source0 && !flagged
      ensures fresh(targets) && targets[..] == slots
    {
      time := time0;
      sourceTz := source0;
      previousSource := source0;
      flagged := false;
      targets := new string[|slots|](i requires 0 <= i < |slots| => slots[i]);
    }

    /**
     * `init` from the URL parameters on: decide the time and source zone,
     * write them, fill the target selects from `targetTz`, and redraw. None
     * is the outer `catch`, which leaves the form as it was.
     */
    method Init(q: Query, env: Browser, lx: Luxon) returns (o: Option<Outcome>)
      modifies this, targets
      ensures flagged == old(flagged)
      ensures StartValues(q, env).None? ==>
        o.None? && time == old(time) && sourceTz == old(sourceTz) && previousSource == old(previousSource)
        && targets[..] == old(targets[..])
      ensures StartValues(q, env).Some? ==>
        && time == StartValues(q, env).value.time
        && sourceTz == StartValues(q, env).value.sourceTz && previousSource == sourceTz
        && targets[..] == (if TargetList(q, env).Some? then Fill(old(targets[..]), TargetList(q, env).value)
                           else old(targets[..]))
        && o == Some(UpdateTimeZones(lx, time, sourceTz, targets[..]))
    {
      var system := if env.systemTz == "" then DefaultSourceTz else env.systemTz;
      var processedTime: string;
      var processedSource: string;
      if !Given(q.time) {
        processedTime, processedSource := FormatMinutes(env.now), system;
      } else {
        var decoded := env.decode(q.time.value);
        if decoded.None? {
          return None;
        }
        var t := decoded.value;
        if HasZoneSuffix(t) {
          var parsed := env.fromIso(t);
          if parsed.Some? {
            processedTime, processedSource := FormatMinutes(parsed.value.civil), parsed.value.zoneName;
          } else {
            processedTime, processedSource := FormatMinutes(env.now), system;
          }
        } else if FromFormatMinutes(t).Some? {
          processedTime, processedSource := t, system;
        } else {
          processedTime, processedSource := FormatMinutes(env.now), system;
        }
      }
      if Given(q.sourceTz) {
        var decoded := env.decode(q.sourceTz.value);
        if decoded.None? {
          return None;
        }
        processedSource := decoded.value;
      }
      time := processedTime;
      sourceTz := processedSource;
      previousSource := processedSource;
      if Given(q.targetTz) {
        var decoded := env.decode(q.targetTz.value);
        if decoded.Some? {
          var list := Split(decoded.value, ',');
          var i := 0;
          while i < |list|
            modifies targets
            invariant 0 <= i <= |list|
            invariant targets[..] == Fill(old(targets[..]), list[..i])
          {
            if i < targets.Length {
              targets[i] := list[i];
            }
            i := i + 1;
          }
          assert list[..|list|] == list;
        }
      }
      o := Some(UpdateTimeZones(lx, time, sourceTz, targets[..]));
    }

    /**
     * The `change` listener of the time field: text the normaliser rejects
     * leaves the field alone and shows the layout message; anything else is
     * written back normalised and redrawn.
     */
    method OnTimeChange(now: Civil, lx: Luxon) returns (o: Outcome)
      modifies this
      ensures sourceTz == old(sourceTz) && previousSource == old(previousSource) && flagged == old(flagged)
      ensures ProcessTimeInput(old(time), now).None? ==> o == Refused(Malformed) && time == old(time)
      ensures ProcessTimeInput(old(time), now).Some? ==>
        time == ProcessTimeInput(old(time), now).value && o == UpdateTimeZones(lx, time, sourceTz, targets[..])
    {
      var processed := ProcessTimeInput(time, now);
      if processed.None? {
        return Refused(Malformed);
      }
      time := processed.value;
      o := UpdateTimeZones(lx, time, sourceTz, targets[..]);
    }

    /**
     * The `input` listener: blank text is never flagged, other text is
     * flagged exactly when the `change` listener would refuse it.
     */
    method OnTimeInput(now: Civil)
      modifies this
      ensures time == old(time) && sourceTz == old(sourceTz) && previousSource == old(previousSource)
      ensures flagged <==> Trim(time) != "" && ProcessTimeInput(time, now).None?
    {
      var value := Trim(time);
      if value == "" {
        flagged := false;
        return;
      }
      TrimUnchanged(value);
      flagged := ProcessTimeInput(value, now).None?;
    }

    /**
     * The `blur` listener: a blank field is filled with "now" and redrawn,
     * and that redraw always passes the guard when "now" is a real date in
     * years 1000 to 9999.
     */
    method OnTimeBlur(now: Civil, lx: Luxon) returns (o: Option<Outcome>)
      modifies this
      ensures sourceTz == old(sourceTz) && previousSource == old(previousSource) && flagged == old(flagged)
      ensures Trim(old(time)) != "" ==> o.None? && time == old(time)
      ensures Trim(old(time)) == "" ==>
        time == FormatMinutes(now) && o == Some(UpdateTimeZones(lx, time, sourceTz, targets[..]))
      ensures Trim(old(time)) == "" && ValidCivil(now) && InRanges(now) ==> !o.value.Refused?
    {
      if Trim(time) != "" {
        return None;
      }
      var current := ProcessTimeInput("", now);
      time := current.value;
      if ValidCivil(now) && InRanges(now) {
        ValidateFormatted(now);
      }
      o := Some(UpdateTimeZones(lx, time, sourceTz, targets[..]));
    }
  }
}
