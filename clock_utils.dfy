/**
 * The clock drawing: one analog face per zone (hand angles, palette, hour
 * markers, or the error face when an angle is NaN) and the composite that
 * lays the faces out left to right with their two captions. Faces and the
 * composite are values here; the markup text and the trigonometry that turns
 * an angle into a pixel position are not modelled.
 */
module ClockUtils {
  import opened Text

  /** A JavaScript number as the clock code meets it: an integer or NaN. */
  datatype Num = Int(v: int) | NaN

  /**
   * `isNightTime`: every comparison with NaN is false, so a NaN hour is day;
   * a numeric hour is day exactly from 6 up to 17.
   */
  function IsNightTime(hour: Num): (r: bool)
    ensures r ==> hour.Int?
    ensures hour.Int? ==> (r <==> !(6 <= hour.v < 18))
  {
    match hour
    case NaN => false
    case Int(h) => h >= 18 || h < 6
  }

  /** Night runs from 18:00 up to 06:00: 17 is day, 18 night, 5 night, 6 day. */
  lemma NightBoundaries()
    ensures !IsNightTime(Int(17)) && IsNightTime(Int(18))
    ensures IsNightTime(Int(5)) && !IsNightTime(Int(6))
    ensures !IsNightTime(NaN)
  {
  }

  /** For a clock hour, night is exactly outside 06:00..17:59, and twelve hours apart is day against night. */
  lemma NightHalves(h: int)
    requires 0 <= h < 12
    ensures IsNightTime(Int(h)) <==> h < 6
    ensures IsNightTime(Int(h)) != IsNightTime(Int(h + 12))
  {
  }

  // ---------------------------------------------------------------- one face

  /** JavaScript's `hour % 12`: the remainder takes the sign of the dividend. */
  function JsRem12(a: int): (r: int)
    ensures a >= 0 ==> 0 <= r < 12
    ensures a < 0 ==> -12 < r <= 0
    ensures (a - r) % 12 == 0
  {
    if a >= 0 then a % 12 else -((-a) % 12)
  }

  /**
   * `(hour % 12 + minute / 60) * 30`, in degrees clockwise from 12: half a
   * degree per minute on top of 30 per hour, within a turn for a reading.
   */
  function HourAngle(hour: int, minute: int): (r: real)
    ensures 2.0 * r == 60.0 * JsRem12(hour) as real + minute as real
    ensures 0 <= hour && 0 <= minute < 60 ==> 0.0 <= r < 360.0
  {
    (JsRem12(hour) as real + minute as real / 60.0) * 30.0
  }

  /** `minute * 6`, in degrees clockwise from 12: within [0, 354] for a reading. */
  function MinuteAngle(minute: int): (r: real)
    ensures r == 6.0 * minute as real
    ensures 0 <= minute < 60 ==> 0.0 <= r <= 354.0
  {
    (minute * 6) as real
  }

  /** A numeral on the dial: its angle in degrees from 3 o'clock, its radius and its text. */
  datatype Marker = Marker(angle: int, radius: int, numeral: string)

  /**
   * The twelve numerals, 30 degrees apart from 12 o'clock (90 degrees behind
   * 3 o'clock) on radius 70; marker i reads i, and marker 0 reads 12.
   */
  function HourMarkers(): (r: seq<Marker>)
    ensures |r| == 12
    ensures forall i :: 0 <= i < 12 ==>
      r[i].angle + 90 == 30 * i && r[i].radius == 70 && r[i].numeral == Decimal(if i == 0 then 12 else i)
  {
    assert Decimal(12) == Decimal(1) + [DigitChar(2)];
    seq(12, i requires 0 <= i < 12 => Marker(i * 30 - 90, 70, if i == 0 then "12" else Decimal(i)))
  }

  datatype Face =
    | ErrorFace(fill: string, stroke: string, caption: string)
    | Face(isNight: bool, background: string, ink: string, markers: seq<Marker>,
           hourAngle: real, minuteAngle: real)

  function Background(isNight: bool): string {
    if isNight then "#1a2b3c" else "#e6f2ff"
  }

  function Ink(isNight: bool): string {
    if isNight then "#c0c0c0" else "#333"
  }

  /**
   * `createAnalogClock`: a NaN angle is caught and answered with the light-red
   * error face; otherwise a face in the night or day palette with both hands.
   */
  function CreateAnalogClock(hour: Num, minute: Num, isNight: bool): (f: Face)
    ensures f.ErrorFace? <==> hour.NaN? || minute.NaN?
    ensures f.ErrorFace? ==> f == ErrorFace("#f8d7da", "#721c24", "Error")
    ensures f.Face? ==> f.isNight == isNight && f.markers == HourMarkers()
    ensures f.Face? ==> f.hourAngle == HourAngle(hour.v, minute.v) && f.minuteAngle == MinuteAngle(minute.v)
    ensures f.Face? && isNight ==> f.background == "#1a2b3c" && f.ink == "#c0c0c0"
    ensures f.Face? && !isNight ==> f.background == "#e6f2ff" && f.ink == "#333"
  {
    if hour.NaN? || minute.NaN? then
      ErrorFace("#f8d7da", "#721c24", "Error")
    else
      Face(isNight, Background(isNight), Ink(isNight), HourMarkers(),
           HourAngle(hour.v, minute.v), MinuteAngle(minute.v))
  }

  /**
   * For a wall-clock reading the minute hand is at 6m degrees, within
   * [0, 354], and the hour hand at 30(h mod 12) + m/2, within [0, 359.5].
   */
  lemma HandAngles(h: int, m: int, isNight: bool)
    requires 0 <= h <= 23 && 0 <= m <= 59
    ensures var f := CreateAnalogClock(Int(h), Int(m), isNight);
      && f.Face?
      && f.minuteAngle == 6.0 * m as real && 0.0 <= f.minuteAngle <= 354.0
      && 2.0 * f.hourAngle == 60.0 * (h % 12) as real + m as real
      && 0.0 <= f.hourAngle <= 359.5
  {
  }

  /** h and h + 12 draw the same hands. */
  lemma HalfDayHands(h: int, m: int, isNight: bool)
    requires 0 <= h < 12
    ensures CreateAnalogClock(Int(h), Int(m), isNight) == CreateAnalogClock(Int(h + 12), Int(m), isNight)
  {
    assert JsRem12(h + 12) == h;
  }

  /**
   * On the hour the hour hand points at the numeral of the 12-hour reading:
   * marker `h mod 12` lies 90 degrees behind the hand (markers count from 3
   * o'clock, hands from 12) and reads `h mod 12`, or `12` at 0 and 12.
   */
  lemma HandPointsAtNumeral(h: int)
    requires 0 <= h <= 23
    ensures var k := h % 12; var mk := HourMarkers()[k];
      && mk.angle as real == HourAngle(h, 0) - 90.0
      && mk.radius == 70
      && mk.numeral == Decimal(if k == 0 then 12 else k)
  {
  }

  // ---------------------------------------------------------------- composite

  /** One element of the list handed to `createMultiClockSvg`. */
  datatype ZoneInfo = ZoneInfo(zoneName: string, hour: Num, minute: Num, formattedTime: string, isNightTime: bool)

  const ClockSize := 200
  const HorizontalPadding := 50
  const VerticalPadding := 40
  const LabelHeight := 75
  const TextSpacing := 30

  /** A caption centred at (x, y) of its clock's frame. */
  datatype Caption = Caption(x: int, y: int, text: string)

  /** A face translated to (x, y), with the zone-name and time captions beneath it. */
  datatype PlacedClock = PlacedClock(x: int, y: int, face: Face, name: Caption, time: Caption)

  datatype Composite = Composite(width: int, height: int, clocks: seq<PlacedClock>)

  /** `timeZoneInfos.filter(info => info && info.zoneName)`: the entries with a non-empty name, in order. */
  function Kept(infos: seq<ZoneInfo>): (kept: seq<ZoneInfo>)
    ensures |kept| <= |infos|
    ensures forall x :: x in kept <==> x in infos && x.zoneName != ""
  {
    if infos == [] then []
    else if infos[0].zoneName != "" then [infos[0]] + Kept(infos[1..])
    else Kept(infos[1..])
  }

  /** A list whose names are all non-empty loses nothing to the filter. */
  lemma {:induction false} KeptAll(infos: seq<ZoneInfo>)
    requires forall k :: 0 <= k < |infos| ==> infos[k].zoneName != ""
    ensures Kept(infos) == infos
  {
    if infos != [] {
      KeptAll(infos[1..]);
    }
  }

  /** Filtering a concatenation filters each part: the kept entries stay in their order. */
  lemma {:induction false} KeptAppend(a: seq<ZoneInfo>, b: seq<ZoneInfo>)
    ensures Kept(a + b) == Kept(a) + Kept(b)
  {
    if a == [] {
      assert a + b == b;
    } else {
      assert (a + b)[0] == a[0] && (a + b)[1..] == a[1..] + b;
      KeptAppend(a[1..], b);
    }
  }

  /**
   * The i-th clock of the composite: i clocks and i + 1 paddings from the
   * left edge, one padding down, the name 25 below the face and the time a
   * line below that, both centred under it.
   */
  function Place(info: ZoneInfo, i: int): (p: PlacedClock)
    ensures p.x == 50 + 250 * i && p.y == 40
    ensures p.face == CreateAnalogClock(info.hour, info.minute, info.isNightTime)
    ensures p.name == Caption(100, 225, info.zoneName) && p.time == Caption(100, 255, info.formattedTime)
  {
    PlacedClock(
      HorizontalPadding + i * (ClockSize + HorizontalPadding), VerticalPadding,
      CreateAnalogClock(info.hour, info.minute, info.isNightTime),
      Caption(ClockSize / 2, ClockSize + 25, info.zoneName),
      Caption(ClockSize / 2, ClockSize + 25 + TextSpacing, info.formattedTime))
  }

  /** `createMultiClockSvg`: the canvas size follows from the number of kept entries alone. */
  function CreateMultiClock(infos: seq<ZoneInfo>): (c: Composite)
    ensures |c.clocks| == |Kept(infos)|
    ensures c.width == |c.clocks| * 250 + 50 && c.height == 355
  {
    var kept := Kept(infos);
    Composite(
      |kept| * (ClockSize + HorizontalPadding) + HorizontalPadding,
      ClockSize + VerticalPadding * 2 + LabelHeight,
      seq(|kept|, i requires 0 <= i < |kept| => Place(kept[i], i)))
  }

  /** No entries: a 50 by 355 canvas with no faces. */
  lemma EmptyComposite()
    ensures CreateMultiClock([]) == Composite(50, 355, [])
  {
  }

  /**
   * Clock i sits at (50 + 250 i, 40) and shows the i-th kept entry: its face,
   * its zone name at (100, 225) and its time at (100, 255). Neighbours are 250
   * apart and the last clock's right edge plus the padding is the width.
   */
  lemma Layout(infos: seq<ZoneInfo>)
    ensures var c := CreateMultiClock(infos); var kept := Kept(infos);
      && (forall i :: 0 <= i < |c.clocks| ==>
            && c.clocks[i].x == 50 + 250 * i && c.clocks[i].y == 40
            && c.clocks[i].face == CreateAnalogClock(kept[i].hour, kept[i].minute, kept[i].isNightTime)
            && c.clocks[i].name == Caption(100, 225, kept[i].zoneName)
            && c.clocks[i].time == Caption(100, 255, kept[i].formattedTime))
      && (forall i :: 0 <= i < |c.clocks| - 1 ==> c.clocks[i + 1].x - c.clocks[i].x == 250)
      && (|c.clocks| > 0 ==> c.clocks[|c.clocks| - 1].x + ClockSize + HorizontalPadding == c.width)
  {
  }

  /** With every name non-empty, clock k shows entry k: its face and both captions. */
  lemma DrawnInOrder(infos: seq<ZoneInfo>)
    requires forall k :: 0 <= k < |infos| ==> infos[k].zoneName != ""
    ensures var c := CreateMultiClock(infos);
      && |c.clocks| == |infos|
      && forall k :: 0 <= k < |infos| ==>
           && c.clocks[k].name.text == infos[k].zoneName
           && c.clocks[k].time.text == infos[k].formattedTime
           && c.clocks[k].face == CreateAnalogClock(infos[k].hour, infos[k].minute, infos[k].isNightTime)
  {
    KeptAll(infos);
  }

  /** A NaN in one entry spoils only that entry's face; every other clock is drawn as usual. */
  lemma FaultContained(infos: seq<ZoneInfo>, i: int)
    requires 0 <= i < |infos| && infos[i].zoneName != "" && infos[i].hour.NaN?
    requires forall k :: 0 <= k < |infos| ==> infos[k].zoneName != ""
    ensures var c := CreateMultiClock(infos);
      |c.clocks| == |infos| && c.clocks[i].face.ErrorFace? &&
      forall k :: 0 <= k < |infos| && infos[k].hour.Int? && infos[k].minute.Int? ==> c.clocks[k].face.Face?
  {
    KeptAll(infos);
  }
}
