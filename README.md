# timezone-clocks, modelled in Dafny

timezone-clocks is a browser page. It draws one analog clock per time zone
for a time entered in a source zone, and it keeps the form in a shareable URL.
This project models the logic underneath the page and proves properties of it:

- **Time field** (`time_input.dfy`, module `TimeInput`).
  - `processTimeInput` trims the text, drops one trailing `±HH:MM` or `Z`, and accepts `YYYY-MM-DDTHH:MM[:SS]`. It re-emits `YYYY-MM-DDTHH:MM` or returns null.
  - The guard of `updateTimeZones` rejects a time for one of three reasons: malformed, out of range, or a date that does not exist.
  - luxon's `fromFormat` is written out as what it accepts for these two layouts: exact digits, and a real proleptic Gregorian date and time of day. `toFormat` is written out as zero padding.
- **Page** (`app.dfy`, module `App`).
  - The zone list of `updateTimeZones`: the source zone, then the non-empty target selects in order.
  - The share-link parameters `time`, `sourceTz` and `targetTz` it writes, and its `NaN` check.
  - `init`'s decision tree for the parameters, and its slot-by-slot filling of the target selects.
  - The listeners of the time field.
  - The form is a class `Page` whose target selects are an array.
  - luxon's zone conversion and formatting are function parameters (`Luxon`). So are `decodeURIComponent`, `DateTime.fromISO`, the wall clock and the system zone (`Browser`).
- **Clocks** (`clock_utils.dfy`, module `ClockUtils`).
  - `isNightTime`.
  - The face of `createAnalogClock` as a value: hand angles in `real`, palette, twelve numerals, or the error face for a NaN reading.
  - The composite of `createMultiClockSvg`: filtering, canvas size, clock positions and captions.
- **Catalogue** (`timezones.dfy`, module `Timezones`).
  - `TIMEZONE_GROUPS`, `getReadableName` and `getAllTimezones`.
  - The in-place sort of every group by label that `populateTimezoneSelects` runs once per selector. The mutable groups object is a class `Catalogue`.
  - `Array.prototype.sort` is modelled as an insertion sort under an abstract comparator standing in for `localeCompare`. The proved facts are that each group comes out ordered by label, as a permutation of itself, and that sorting again changes nothing. That the insertion sort keeps equal labels in their original order is not proved.
- **JavaScript primitives** (`text.dfy`, module `Text`): `trim` with ECMAScript's whitespace set, `split`/`join` on one character, `indexOf`, `padStart`, and decimal digits. `wrappers.dfy` holds `Option`, which stands for `null`.

Two facts of the code that are easy to misread:

- `getReadableName` (src/js/timezones.js:65-66) labels a zone with its *second* `/`-segment, and `replace('_', ' ')` changes only the *first* `_`. For example, `A/B_C_D/E` is labelled `B C_D`.
- `createMultiClockSvg` (src/js/clock-utils.js:91) makes the composite 200 + 2·40 + 75 = 355 pixels high.

## Model

| member | source | states |
|---|---|---|
| Text.Trim | src/js/app.js:4 | the result has no ECMAScript whitespace at either end and is no longer than the input |
| Text.TrimSurrounded | src/js/app.js:4 | whitespace added around a string does not change its trimmed form |
| Text.IndexOf | src/js/timezones.js:66 | the result is the first position of the character, or None exactly when the character does not occur |
| Text.Split | src/js/timezones.js:65 | `split` on one character always yields at least one part |
| Text.SplitPieces | src/js/timezones.js:65 | no part of a split holds the separator |
| Text.JoinSplit | src/js/app.js:377 | joining the parts of a split with the same separator gives back the string |
| Text.SplitJoin | src/js/app.js:377 | splitting a join of at least one separator-free part gives back the parts |
| Text.PadStart | src/js/app.js:30 | `padStart` output has the target width, or the input's length when that is longer |
| Text.PadDecimal | src/js/app.js:30 | a number below 10^k, padded to k digits, is k digits whose value is the number |
| Text.PadValue | src/js/app.js:30 | re-padding the value of a digit string gives that string back |
| TimeInput.MinuteShape | src/js/app.js:91 | a string in the `YYYY-MM-DDTHH:MM` layout is 16 characters long and starts and ends with a digit |
| TimeInput.HasZoneSuffix | src/js/app.js:12 | a string counted as carrying a zone suffix ends in `Z` or in a digit |
| TimeInput.StripZone | src/js/app.js:12-16 | the result is a prefix of the input; without a suffix it is the input itself; with one, what was removed is exactly one `±HH:MM` offset or one `Z` |
| TimeInput.FormatMinutes | src/js/app.js:30 | a reading whose fields fit their widths formats to the minute layout and reads back as the same reading |
| TimeInput.FromFormatSeconds | src/js/app.js:19 | an accepted 19-character string gives a real date that formats back to the string's first 16 characters |
| TimeInput.FromFormatMinutes | src/js/app.js:21 | an accepted 16-character string gives a real date that formats back to the string |
| TimeInput.ProcessTimeInput | src/js/app.js:2-31 | blank input gives "now" formatted; otherwise the result is None, or a real date in the exact `YYYY-MM-DDTHH:MM` layout equal to the first 16 characters of the trimmed, suffix-stripped input, which is either exactly those 16 characters or those followed by `:ss` with ss from 00 to 59 |
| TimeInput.SecondsDropped | src/js/app.js:19-30 | a real date in the minute layout followed by `:ss`, ss at most 59, normalises to the date without the seconds |
| TimeInput.BlankGivesNow | src/js/app.js:4-9 | whitespace-only input gives the supplied "now", formatted to the minute |
| TimeInput.SurroundingSpace | src/js/app.js:4 | whitespace around the input never changes the result |
| TimeInput.OutputInert | src/js/app.js:4-16 | a string in the output layout is already trimmed and has no zone suffix to strip |
| TimeInput.Idempotent | src/js/app.js:19-30 | normalising a normalised time gives it back unchanged |
| TimeInput.NormalFixedPoint | src/js/app.js:19-30 | every real date in the minute layout is a fixed point of the normaliser, and the guard accepts it exactly when its year is at least 1000 |
| TimeInput.SuffixIgnored | src/js/app.js:12-16 | for a bare time X, `X+HH:MM`, `XZ` and `X` normalise to the same result |
| TimeInput.OneSuffixOnly | src/js/app.js:12-16 | only one suffix is stripped: `XZZ` and `X+HH:MM` followed by `Z` are both rejected |
| TimeInput.OffsetNeverParses | src/js/app.js:15-22 | a string still ending in an offset fits neither layout |
| TimeInput.ParseNeedsDigitLast | src/js/app.js:19-27 | a string that is empty or does not end in a digit fits neither layout |
| TimeInput.ShapeHasNoSuffix | src/js/app.js:12 | a string in the minute layout never counts as carrying a zone suffix |
| TimeInput.FormatFields | src/js/app.js:29-30 | formatting the fields read from a minute-layout string gives back that string |
| TimeInput.PadField | src/js/app.js:30 | a field below 10^w is padded to exactly w digits of the same value |
| TimeInput.ValidateTime | src/js/app.js:90-118 | an accepted time is a real date within years 1000..9999 and formats back to the given string |
| TimeInput.ValidationOrder | src/js/app.js:90-118 | Malformed exactly when the layout fails; OutOfRange exactly when the layout holds and a range fails; Nonexistent exactly when both hold and the date does not exist; accepted exactly when all three hold |
| TimeInput.ValidateFormatted | src/js/app.js:102-118 | every real date in years 1000..9999 is accepted as exactly itself |
| TimeInput.NormalisedPassesGuard | src/js/app.js:393-400 | a normalised time never fails the layout check, and passes the guard exactly when its year is at least 1000 |
| TimeInput.NoThirtiethOfFebruary | src/js/app.js:114-117 | 2025-02-30 passes the range check and is rejected as nonexistent |
| TimeInput.PlainExample | src/js/app.js:19-30 | `2025-03-14T09:05` normalises to itself and is accepted as 14 March 2025, 09:05 |
| App.SourceZone | src/js/app.js:82 | the source zone is never empty: the select's value, or `Asia/Tokyo` when that is empty |
| App.NonEmpty | src/js/app.js:83-85 | the targets are exactly the non-empty select values, none of them empty, no more of them than selects |
| App.NonEmptyAppend | src/js/app.js:83-85 | the filter keeps document order: filtering a concatenation filters each part |
| App.NonEmptyAllFilled | src/js/app.js:85 | all-filled selects pass through unchanged |
| App.NonEmptyAllEmpty | src/js/app.js:85 | all-empty selects give no targets |
| App.ZoneEntry | src/js/app.js:121-155 | null exactly for an empty id; a non-null entry is labelled by `getReadableName`, and its night flag follows its own hour; the source zone keeps the entered hour and minute; any other zone shows luxon's converted reading |
| App.Present | src/js/app.js:156 | the non-null entries, none lost when none is null, in the same order |
| App.Entries | src/js/app.js:121-156 | with a non-empty source zone and non-empty targets, one entry per zone, entry k built from the k-th id of source then targets |
| App.EntriesList | src/js/app.js:121-156 | entry k is labelled after the k-th id and its palette follows its own hour; entries for the source zone keep the entered hour and minute; all others take luxon's conversion |
| App.EntriesDrawn | src/js/app.js:121-169 | every entry has a non-empty label, so the clock filter drops none of them |
| App.UpdateTimeZones | src/js/app.js:76-190 | refused exactly when the guard rejects, with the guard's error; when drawn: 1 + (number of filled targets) entries, URL parameters (time, source zone, joined targets or none), and a picture with one clock per entry |
| App.ZoneList | src/js/app.js:121-169 | a drawn outcome lists the source zone then the targets, and clock k carries entry k's label, time and face |
| App.FailsOnlyOnNaN | src/js/app.js:171-174 | an accepted time ends in the generic error exactly when a caption of the picture contains `NaN` |
| App.SourceRepeated | src/js/app.js:124-138 | a target equal to the source zone is drawn with exactly the source entry |
| App.NothingAfterRejection | src/js/app.js:90-118 | a time failing any check is refused and nothing is drawn; a layout failure is reported as such |
| App.RedrawDependsOnTargets | src/js/app.js:82-85 | the redraw depends on the selects only through the source zone and the filled target values |
| App.EncodeTargets | src/js/app.js:162-166 | `targetTz` is absent exactly when there are no targets |
| App.Fill | src/js/app.js:377-383 | filling the selects keeps their number |
| App.FillExtras | src/js/app.js:379-383 | list entries past the last select are ignored; selects past the last entry keep their value |
| App.TargetsRoundTrip | src/js/app.js:377-383 | decoding the encoded targets into empty selects restores the filled targets in order, when no id holds a comma |
| App.StartValues | src/js/app.js:319-366 | init aborts exactly when decoding the time or source parameter throws; a given `sourceTz` always overrides the derived source zone |
| App.TargetList | src/js/app.js:374-377 | a target list exists only for a given, decodable parameter, has at least one entry, and joins back to the decoded text |
| App.BareAddress | src/js/app.js:326-333 | with no parameters the page opens on "now" in the system zone, or in `Asia/Tokyo` when there is none |
| App.StartTimeNormal | src/js/app.js:329-361 | when "now" is a real date in years 0..9999 and `fromISO` only yields such dates: every branch writes a real date in the minute layout, a fixed point of the normaliser, that the guard accepts exactly when its year is at least 1000 |
| App.StartTimeShape | src/js/app.js:329-361 | when "now" is a real date in years 0..9999 and `fromISO` only yields such dates: each branch of init writes a real date in the minute layout |
| App.LinkStart | src/js/app.js:336-366 | a link whose time is a real date opens on that time and the linked source zone |
| App.LinkTargets | src/js/app.js:374-383 | a link's `targetTz` restores the filled targets into empty selects |
| App.ShareLinkReproduces | src/js/app.js:159-166 | opening the URL a redraw wrote, with empty selects and a faithful decoder, opens on the same time and source and draws the same outcome again |
| App.Page.Init | src/js/app.js:319-390 | an aborted init leaves the form alone; otherwise the field, source select and its previous value get the decided values, the selects are filled from `targetTz`, and the redraw is of the new form |
| App.Page.OnTimeChange | src/js/app.js:393-401 | a rejected text leaves the field and reports the layout message; any other is written back normalised and redrawn |
| App.Page.OnTimeInput | src/js/app.js:404-421 | the field is flagged exactly when it is not blank and the normaliser rejects it |
| App.Page.OnTimeBlur | src/js/app.js:424-430 | a blank field gets "now" and a redraw, which passes the guard whenever "now" is a real date in years 1000..9999; other text is left alone |
| ClockUtils.IsNightTime | src/js/clock-utils.js:145-147 | a NaN hour is never night; a numeric hour is day exactly from 6 up to 17 |
| ClockUtils.NightBoundaries | src/js/clock-utils.js:145-147 | 17 is day, 18 night, 5 night, 6 day, NaN day |
| ClockUtils.NightHalves | src/js/clock-utils.js:145-147 | for h in 0..11, night exactly when h < 6, and h and h + 12 differ |
| ClockUtils.JsRem12 | src/js/clock-utils.js:6 | JavaScript's `% 12`: the remainder has the dividend's sign and differs from it by a multiple of 12 |
| ClockUtils.HourAngle | src/js/clock-utils.js:6 | twice the hour angle is 60 times the JavaScript remainder of the hour by 12, plus the minutes; within [0, 360) for a non-negative hour and minutes 0..59 |
| ClockUtils.MinuteAngle | src/js/clock-utils.js:7 | six degrees per minute, within [0, 354] for minutes 0..59 |
| ClockUtils.HourMarkers | src/js/clock-utils.js:19-34 | twelve markers on radius 70; marker i sits 30i degrees round from 12 o'clock and reads i, and marker 0 reads 12 |
| ClockUtils.CreateAnalogClock | src/js/clock-utils.js:4-78 | the error face (`#f8d7da`, `#721c24`, "Error") exactly when hour or minute is NaN; otherwise the twelve hour markers, both hand angles of the reading, and the night (`#1a2b3c`/`#c0c0c0`) or day (`#e6f2ff`/`#333`) palette |
| ClockUtils.HandAngles | src/js/clock-utils.js:6-7 | for h in 0..23 and m in 0..59: minute hand 6m in [0, 354]; twice the hour angle is 60(h mod 12) + m, in [0, 359.5] |
| ClockUtils.HalfDayHands | src/js/clock-utils.js:6 | h and h + 12 draw the same face |
| ClockUtils.HandPointsAtNumeral | src/js/clock-utils.js:6-33 | on the hour, marker h mod 12 lies 90 degrees behind the hour hand on radius 70 and reads the 12-hour reading, `12` at 0 and 12 |
| ClockUtils.Kept | src/js/clock-utils.js:88 | an entry is kept exactly when its name is non-empty |
| ClockUtils.KeptAll | src/js/clock-utils.js:88 | a list with all names non-empty loses nothing |
| ClockUtils.KeptAppend | src/js/clock-utils.js:88 | the filter keeps order: filtering a concatenation filters each part |
| ClockUtils.Place | src/js/clock-utils.js:93-117 | clock i is at (50 + 250i, 40) with the face of its reading, its name at (100, 225) and its time at (100, 255) |
| ClockUtils.CreateMultiClock | src/js/clock-utils.js:81-142 | one clock per kept entry; width 250 per clock plus 50, height 355 |
| ClockUtils.EmptyComposite | src/js/clock-utils.js:88-91 | no entries give a 50 by 355 canvas with no clocks |
| ClockUtils.Layout | src/js/clock-utils.js:90-117 | clock i is at (50 + 250i, 40) with the i-th kept entry's face and captions at (100, 225) and (100, 255); neighbours are 250 apart; the last clock's right edge plus 50 is the width |
| ClockUtils.DrawnInOrder | src/js/clock-utils.js:93-117 | with all names non-empty, clock k shows entry k's face, name and time |
| ClockUtils.FaultContained | src/js/clock-utils.js:93-98 | a NaN entry gets the error face while every entry with a numeric reading still gets a normal face |
| Timezones.ReplaceFirst | src/js/timezones.js:66 | `replace('_', ' ')` keeps the length |
| Timezones.ReplaceFirstSpec | src/js/timezones.js:66 | only the first occurrence changes |
| Timezones.ReplaceFirstAbsent | src/js/timezones.js:66 | a string without the character is unchanged |
| Timezones.ReadableName | src/js/timezones.js:64-67 | the label is the id itself, or a non-empty text without `/` |
| Timezones.ReadableNameNoSlash | src/js/timezones.js:64-66 | an id without `/` is its own label |
| Timezones.ReadableNameSecondSegment | src/js/timezones.js:65-66 | for `a/b` followed by anything starting with `/`, with b non-empty, the label is b with its first `_` made a space |
| Timezones.ReadableNameEmptySegment | src/js/timezones.js:66 | an empty second segment (`Asia/`) gives the id itself |
| Timezones.ReadableNameNonEmpty | src/js/timezones.js:64-66 | a non-empty id never gets an empty label |
| Timezones.LabelNewYork | src/js/timezones.js:64-66 | `America/New_York` is labelled `New York` |
| Timezones.InitialGroups | src/js/timezones.js:2-59 | five groups in key order, Asia, Americas, Europe, Oceania, Africa, with 12, 14, 11, 5 and 4 ids |
| Timezones.Flatten | src/js/timezones.js:71 | every id of every group is in the flattened list |
| Timezones.FlattenMember | src/js/timezones.js:71 | an id is in the flattened list exactly when some group holds it |
| Timezones.FlattenAppend | src/js/timezones.js:71 | flattening a concatenation of group lists concatenates their flattenings |
| Timezones.AllTimezonesCount | src/js/timezones.js:70-72 | the flattened catalogue is Asia, Americas, Europe, Oceania, Africa in order: 12 + 14 + 11 + 5 + 4 = 46 ids |
| Timezones.InitialGroupsPlain | src/js/timezones.js:2-59 | every catalogued id is exactly one non-empty area, `/`, and one non-empty city |
| Timezones.CatalogueLabels | src/js/timezones.js:2-59 | every catalogued id is labelled by its city with the first `_` made a space |
| Timezones.Insert | src/js/timezones.js:95-99 | inserting adds exactly the one id |
| Timezones.Sort | src/js/timezones.js:95-99 | the sorted group is a permutation of the group |
| Timezones.InsertSorted | src/js/timezones.js:95-99 | inserting into a sorted group keeps it sorted |
| Timezones.SortSorted | src/js/timezones.js:95-99 | the sorted group is ordered by label under the comparator |
| Timezones.InsertLast | src/js/timezones.js:95-99 | an id no smaller than every member goes last, so equal labels keep their order |
| Timezones.SortOfSorted | src/js/timezones.js:95-99 | sorting an already sorted group leaves it unchanged |
| Timezones.SortIdempotent | src/js/timezones.js:95-99 | sorting twice equals sorting once |
| Timezones.SortEach | src/js/timezones.js:90-99 | one result group per group |
| Timezones.SortEachKeepsIds | src/js/timezones.js:90-99 | every group keeps its region and its ids as a multiset |
| Timezones.SortEachSorted | src/js/timezones.js:90-99 | every group ends sorted by label |
| Timezones.SortEachIdempotent | src/js/timezones.js:90-99 | sorting all groups again changes nothing |
| Timezones.Catalogue.constructor | src/js/timezones.js:2-59 | the groups start as `TIMEZONE_GROUPS` |
| Timezones.Catalogue.AllTimezones | src/js/timezones.js:70-72 | the current groups' ids, group after group in key order |
| Timezones.Catalogue.SortGroups | src/js/timezones.js:90-99 | each group is replaced by its sorted form |
| Timezones.Catalogue.PopulateSelects | src/js/timezones.js:75-119 | after one sort per selector the groups are sorted exactly once over, and `getAllTimezones` keeps the same multiset |

## Left out

- luxon internals. `fromFormat` is modelled as exact ASCII digits with Gregorian validity. Not modelled: its case-insensitive `T` literal, its acceptance of `24:00`, and the way it moves a local time that falls in a daylight-saving gap.
- luxon conversions. `fromObject(...).setZone` and `toFormat('yyyy MMM d, ccc, h:mm a')` are the uninterpreted `Luxon` functions. `DateTime.local`, `fromISO` (and the zone name it reports), `decodeURIComponent` and the `Intl` system zone are fields of `Browser`.
- App.Page.Init: does not model the dark-mode preference, the device-dependent button text, or the attaching of the listeners themselves (their bodies are the `On…` methods). An exception from `Intl` is not modelled either.
- App.FailsOnlyOnNaN: the `includes('NaN')` scan is modelled over the captions only. The rest of the markup is fixed text or finite numbers, and the hand and marker coordinates come from trigonometry, which is not modelled.
- ClockUtils.CreateAnalogClock: the face is a value. The SVG text, fonts, and the `Math.sin`/`Math.cos` coordinates of hands and numerals are presentation and floating point. Angles are kept exact in `real`.
- ClockUtils.Kept: the input list holds records, so the filter's `info &&` test for a missing entry has nothing to reject.
- App.StartTimeNormal: assumes `fromISO` yields only real dates in years 0..9999, and that "now" is one. luxon accepts years up to ±275760 and six-digit signed years (`+010000-01-01T00:00Z`), and a conversion can cross into year 10000. Such a date formats to more than four year digits, and the written time then fails the minute layout.
- App.StartTimeShape: the same assumption on `fromISO` and "now", for the same reason.
- App.ShareLinkReproduces: assumes the target selects start empty. On the page, `populateTimezoneSelects` also runs on page load (src/js/timezones.js:137-139) and sets target 1 to `America/New_York` (src/js/timezones.js:123). When it runs before `init`, a link written with no targets reopens with New York as a target. Which of the two runs first depends on the order of the script tags, which is not part of this model.
- Timezones.Sort: `localeCompare` is an abstract comparator assumed to be a total preorder. Collation is not modelled.
- Timezones.Catalogue.PopulateSelects: the option and optgroup elements, the `(None)` option and the default select values are DOM state and are not modelled.
- A select given a value that none of its options carries reads back as empty in the browser. The model keeps the value as written.
- `showToast`, `showError`'s markup, `copyUrl`, `copyImage` (clipboard, canvas, Web Share, download) and `toggleDarkMode` are browser glue.
- `history.replaceState`, the `URL` object, `btoa` and the display writes are browser glue. Only the three parameters are modelled.
- `convertToLocalTime` is a one-line luxon call and is not modelled.
- JavaScript numbers are modelled as integers or NaN, which is all the clock code receives from the guard and from luxon. Infinities and fractions are not modelled.
