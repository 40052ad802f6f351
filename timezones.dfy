/**
 * The zone catalogue: the region groups of `TIMEZONE_GROUPS`, the readable
 * label of a zone id, the flattened list of all ids, and the in-place sort of
 * every group by label that runs each time a zone selector is populated.
 */
module Timezones {
  import opened Wrappers
  import opened Text

  /** One entry of `TIMEZONE_GROUPS`: a region name and its array of zone ids. */
  datatype Group = Group(region: string, ids: seq<string>)

  /** The id `area/city`. */
  function Zone(area: string, city: string): string {
    area + "/" + city
  }

  /** The ids of one area, in the listed order. */
  function Zones(area: string, cities: seq<string>): (ids: seq<string>)
    ensures |ids| == |cities| && forall i :: 0 <= i < |cities| ==> ids[i] == Zone(area, cities[i])
  {
    seq(|cities|, i requires 0 <= i < |cities| => Zone(area, cities[i]))
  }

  /**
   * `TIMEZONE_GROUPS` as the page loads it, in key order; every id is written
   * as its area and its city, so `Zone("Asia", "Tokyo")` is `"Asia/Tokyo"`.
   */
  function InitialGroups(): (r: seq<Group>)
    ensures |r| == 5
    ensures r[0].region == "Asia" && r[1].region == "Americas" && r[2].region == "Europe"
    ensures r[3].region == "Oceania" && r[4].region == "Africa"
    ensures |r[0].ids| == 12 && |r[1].ids| == 14 && |r[2].ids| == 11 && |r[3].ids| == 5 && |r[4].ids| == 4
  {
    [ Group("Asia", Zones("Asia", [
        "Tokyo", "Shanghai", "Singapore", "Seoul", "Taipei", "Manila",
        "Bangkok", "Jakarta", "Kuala_Lumpur", "Dubai", "Kolkata", "Jerusalem"])),
      Group("Americas", Zones("America", [
        "New_York", "Los_Angeles", "Chicago", "Denver", "Toronto", "Vancouver",
        "Phoenix", "Anchorage", "Halifax", "Mexico_City", "Sao_Paulo",
        "Buenos_Aires", "Lima", "Bogota"])),
      Group("Europe", Zones("Europe", [
        "London", "Paris", "Berlin", "Moscow", "Madrid", "Rome", "Amsterdam",
        "Istanbul", "Dublin", "Copenhagen", "Warsaw"])),
      Group("Oceania", Zones("Australia", ["Sydney", "Perth"]) +
        Zones("Pacific", ["Auckland", "Honolulu", "Guam"])),
      Group("Africa", Zones("Africa", ["Cairo", "Johannesburg", "Lagos", "Nairobi"]))
    ]
  }

  // ---------------------------------------------------------------- labels

  /** `s.replace(from, to)` with a one-character string pattern: only the first match changes. */
  function ReplaceFirst(s: string, from: char, to: char): (r: string)
    ensures |r| == |s|
  {
    match IndexOf(s, from)
    case None => s
    case Some(k) => s[..k] + [to] + s[k + 1..]
  }

  /**
   * `getReadableName`: the second `/`-segment with its first `_` made a space,
   * or the id itself; a label other than the id is non-empty and has no `/`.
   */
  function ReadableName(id: string): (r: string)
    ensures r == id || (r != "" && '/' !in r)
  {
    var parts := Split(id, '/');
    if |parts| > 1 && parts[1] != "" then
      SplitPieces(id, '/');
      ReplaceFirstKeepsOut(parts[1], '_', ' ', '/');
      ReplaceFirst(parts[1], '_', ' ')
    else id
  }

  /** Exactly one position changes, the first `from`, and it becomes `to`. */
  lemma ReplaceFirstSpec(s: string, from: char, to: char)
    requires from in s
    ensures exists k :: (0 <= k < |s| && s[k] == from && from !in s[..k] &&
      ReplaceFirst(s, from, to) == s[..k] + [to] + s[k + 1..])
  {
    var k := IndexOf(s, from).value;
    assert s[k] == from;
  }

  lemma ReplaceFirstAbsent(s: string, from: char, to: char)
    requires from !in s
    ensures ReplaceFirst(s, from, to) == s
  {
  }

  /** Replacing a character other than `c` with a character other than `c` introduces no `c`. */
  lemma ReplaceFirstKeepsOut(s: string, from: char, to: char, c: char)
    requires c !in s && to != c
    ensures c !in ReplaceFirst(s, from, to)
  {
    match IndexOf(s, from)
    case None =>
    case Some(k) =>
      var r := s[..k] + [to] + s[k + 1..];
      forall i | 0 <= i < |r| ensures r[i] != c {
        if i < k { assert r[i] == s[i]; }
        else if i > k { assert r[i] == s[i]; }
      }
  }

  lemma SplitWithout(s: string, sep: char)
    requires sep !in s
    ensures Split(s, sep) == [s]
  {
  }

  /** The pieces of `a + "/" + b + tail`, when `tail` is empty or starts a further segment. */
  lemma SplitSegments(a: string, b: string, tail: string)
    requires '/' !in a && '/' !in b
    requires tail == [] || tail[0] == '/'
    ensures var parts := Split(a + "/" + b + tail, '/'); |parts| >= 2 && parts[0] == a && parts[1] == b
  {
    var id := a + "/" + b + tail;
    assert id == a + ['/'] + (b + tail);
    IndexOfAfter(a, '/', b + tail);
    assert id[..|a|] == a && id[|a| + 1..] == b + tail;
    if tail == [] {
      assert b + tail == b;
      SplitWithout(b, '/');
    } else {
      assert b + tail == b + ['/'] + tail[1..];
      IndexOfAfter(b, '/', tail[1..]);
      assert (b + tail)[..|b|] == b;
    }
  }

  /** An id with no `/` is its own label. */
  lemma ReadableNameNoSlash(id: string)
    requires '/' !in id
    ensures ReadableName(id) == id
  {
    SplitWithout(id, '/');
  }

  /**
   * With a non-empty second segment `b` the label is `b` with its first `_`
   * made a space, whatever follows: for `A/B/C` it is `B`, not `C`. It is as
   * long as `b` and holds no `/`.
   */
  lemma ReadableNameSecondSegment(a: string, b: string, tail: string)
    requires '/' !in a && '/' !in b && b != ""
    requires tail == [] || tail[0] == '/'
    ensures ReadableName(a + "/" + b + tail) == ReplaceFirst(b, '_', ' ')
    ensures |ReadableName(a + "/" + b + tail)| == |b|
    ensures '/' !in ReadableName(a + "/" + b + tail)
  {
    SplitSegments(a, b, tail);
    ReplaceFirstKeepsOut(b, '_', ' ', '/');
  }

  /** With an empty second segment (`Asia/`, `a//b`) the whole id comes back. */
  lemma ReadableNameEmptySegment(a: string, tail: string)
    requires '/' !in a
    requires tail == [] || tail[0] == '/'
    ensures ReadableName(a + "/" + tail) == a + "/" + tail
  {
    SplitSegments(a, "", tail);
    assert a + "/" + "" + tail == a + "/" + tail;
  }

  /** A non-empty id never gets an empty label, so no clock loses its caption. */
  lemma ReadableNameNonEmpty(id: string)
    requires id != ""
    ensures ReadableName(id) != ""
  {
  }

  // ---------------------------------------------------------------- catalogue

  /** `Object.values(groups).flat()`: every id of every group is in it. */
  function Flatten(groups: seq<Group>): (r: seq<string>)
    ensures forall g, id :: g in groups && id in g.ids ==> id in r
  {
    if groups == [] then [] else groups[0].ids + Flatten(groups[1..])
  }

  /** Flattening distributes over concatenation of group lists. */
  lemma {:induction false} FlattenAppend(a: seq<Group>, b: seq<Group>)
    ensures Flatten(a + b) == Flatten(a) + Flatten(b)
  {
    if a == [] {
      assert a + b == b;
    } else {
      assert (a + b)[0] == a[0] && (a + b)[1..] == a[1..] + b;
      calc {
        Flatten(a + b);
        a[0].ids + Flatten(a[1..] + b);
        { FlattenAppend(a[1..], b); }
        a[0].ids + (Flatten(a[1..]) + Flatten(b));
      }
    }
  }

  /** `getAllTimezones` on the groups as loaded: Asia, Americas, Europe, Oceania, Africa, 46 ids in all. */
  lemma AllTimezonesCount()
    ensures |Flatten(InitialGroups())| == 12 + 14 + 11 + 5 + 4 == 46
    ensures Flatten(InitialGroups()) ==
      InitialGroups()[0].ids + InitialGroups()[1].ids + InitialGroups()[2].ids +
      InitialGroups()[3].ids + InitialGroups()[4].ids
  {
    var g := InitialGroups();
    assert Flatten(g[4..]) == g[4].ids + Flatten(g[5..]);
    assert Flatten(g[3..]) == g[3].ids + Flatten(g[4..]);
    assert Flatten(g[2..]) == g[2].ids + Flatten(g[3..]);
    assert Flatten(g[1..]) == g[1].ids + Flatten(g[2..]);
  }


  /** A path segment with something in it and no `/`. */
  predicate Plain(s: string) {
    s != "" && '/' !in s
  }

  /** Every area and city written into the catalogue is a plain segment. */
  ghost predicate PlainZones(ids: seq<string>) {
    forall id <- ids :: exists area, city :: Plain(area) && Plain(city) && id == Zone(area, city)
  }

  lemma ZonesPlain(area: string, cities: seq<string>)
    requires Plain(area) && forall c <- cities :: Plain(c)
    ensures PlainZones(Zones(area, cities))
  {
    var ids := Zones(area, cities);
    forall id <- ids ensures exists a, c :: Plain(a) && Plain(c) && id == Zone(a, c) {
      var i :| 0 <= i < |ids| && ids[i] == id;
      assert cities[i] in cities;
      assert Plain(area) && Plain(cities[i]) && id == Zone(area, cities[i]);
    }
  }

  /** An id is in the flattened list exactly when some group holds it. */
  lemma {:induction false} FlattenMember(groups: seq<Group>, id: string)
    ensures id in Flatten(groups) <==> exists g <- groups :: id in g.ids
  {
    if groups != [] && id !in groups[0].ids && id in Flatten(groups) {
      FlattenMember(groups[1..], id);
      var g :| g in groups[1..] && id in g.ids;
      assert g in groups;
    }
  }

  /** Every group of the catalogue as loaded holds only `area/city` ids. */
  lemma InitialGroupsPlain()
    ensures forall g <- InitialGroups() :: PlainZones(g.ids)
  {
    AsiaPlain();
    AmericasPlain();
    EuropePlain();
    OceaniaPlain();
    AfricaPlain();
  }

  lemma AsiaPlain()
    ensures PlainZones(InitialGroups()[0].ids)
  {
    ZonesPlain("Asia", ["Tokyo", "Shanghai", "Singapore", "Seoul", "Taipei", "Manila",
      "Bangkok", "Jakarta", "Kuala_Lumpur", "Dubai", "Kolkata", "Jerusalem"]);
  }

  lemma AmericasPlain()
    ensures PlainZones(InitialGroups()[1].ids)
  {
    ZonesPlain("America", ["New_York", "Los_Angeles", "Chicago", "Denver", "Toronto", "Vancouver",
      "Phoenix", "Anchorage", "Halifax", "Mexico_City", "Sao_Paulo",
      "Buenos_Aires", "Lima", "Bogota"]);
  }

  lemma EuropePlain()
    ensures PlainZones(InitialGroups()[2].ids)
  {
    ZonesPlain("Europe", ["London", "Paris", "Berlin", "Moscow", "Madrid", "Rome", "Amsterdam",
      "Istanbul", "Dublin", "Copenhagen", "Warsaw"]);
  }

  lemma OceaniaPlain()
    ensures PlainZones(InitialGroups()[3].ids)
  {
    ZonesPlain("Australia", ["Sydney", "Perth"]);
    ZonesPlain("Pacific", ["Auckland", "Honolulu", "Guam"]);
  }

  lemma AfricaPlain()
    ensures PlainZones(InitialGroups()[4].ids)
  {
    ZonesPlain("Africa", ["Cairo", "Johannesburg", "Lagos", "Nairobi"]);
  }

  /**
   * Every catalogued id is `area/city` with one `/`, so its label is the city
   * with its first `_` made a space (`America/New_York` gives `New York`).
   */
  lemma CatalogueLabels(id: string)
    requires id in Flatten(InitialGroups())
    ensures exists area, city :: (Plain(area) && Plain(city) && id == Zone(area, city) &&
      ReadableName(id) == ReplaceFirst(city, '_', ' '))
  {
    InitialGroupsPlain();
    FlattenMember(InitialGroups(), id);
    var g :| g in InitialGroups() && id in g.ids;
    var area, city :| Plain(area) && Plain(city) && id == Zone(area, city);
    assert area + "/" + city + "" == id;
    ReadableNameSecondSegment(area, city, "");
  }

  lemma LabelNewYork()
    ensures ReadableName("America/New_York") == "New York"
  {
    var a, b := "America", "New_York";
    assert '/' !in a && '/' !in b;
    ReadableNameSecondSegment(a, b, "");
    assert a + "/" + b + "" == "America/New_York";
    assert ReplaceFirst(b, '_', ' ') == "New York";
  }

  // ---------------------------------------------------------------- sorting

  /**
   * The comparator handed to `sort`:
   * `getReadableName(a).localeCompare(getReadableName(b))`, read as "a may
   * stay in front of b" when it is not positive.
   */
  predicate NameLeq(cmp: (string, string) -> int, a: string, b: string) {
    cmp(ReadableName(a), ReadableName(b)) <= 0
  }

  /** What is assumed of `localeCompare`: a total preorder on labels. */
  ghost predicate TotalPreorder(cmp: (string, string) -> int) {
    && (forall x, y :: cmp(x, y) <= 0 || cmp(y, x) <= 0)
    && (forall x, y, z :: cmp(x, y) <= 0 && cmp(y, z) <= 0 ==> cmp(x, z) <= 0)
  }

  predicate Sorted(cmp: (string, string) -> int, s: seq<string>) {
    forall i, j :: 0 <= i < j < |s| ==> NameLeq(cmp, s[i], s[j])
  }

  /** Place x after every element that may stay in front of it. */
  function Insert(cmp: (string, string) -> int, x: string, s: seq<string>): (r: seq<string>)
    ensures multiset(r) == multiset(s) + multiset{x}
  {
    if s == [] then [x]
    else
      assert s == [s[0]] + s[1..];
      if NameLeq(cmp, s[0], x) then [s[0]] + Insert(cmp, x, s[1..]) else [x] + s
  }

  /**
   * `ids.sort(cmp)`: the stable sort the language guarantees, as an insertion
   * sort. Under a total preorder a sequence has one stable sorted
   * permutation, so any stable sort gives this result.
   */
  function Sort(cmp: (string, string) -> int, s: seq<string>): (r: seq<string>)
    ensures multiset(r) == multiset(s)
  {
    if s == [] then []
    else
      assert s == s[..|s| - 1] + [s[|s| - 1]];
      Insert(cmp, s[|s| - 1], Sort(cmp, s[..|s| - 1]))
  }

  lemma {:induction false} InsertSorted(cmp: (string, string) -> int, x: string, s: seq<string>)
    requires TotalPreorder(cmp) && Sorted(cmp, s)
    ensures Sorted(cmp, Insert(cmp, x, s))
  {
    if s != [] {
      if NameLeq(cmp, s[0], x) {
        var t := Insert(cmp, x, s[1..]);
        InsertSorted(cmp, x, s[1..]);
        forall k | 0 <= k < |t| ensures NameLeq(cmp, s[0], t[k]) {
          assert t[k] in multiset(t);
          if t[k] != x {
            assert t[k] in multiset(s[1..]);
            var j :| 0 <= j < |s[1..]| && s[1..][j] == t[k];
            assert s[j + 1] == t[k];
          }
        }
      } else {
        forall k | 0 <= k < |s| ensures NameLeq(cmp, x, s[k]) {
          if k > 0 { assert NameLeq(cmp, s[0], s[k]); }
        }
      }
    }
  }

  /** Sorting yields a sequence ordered by label. */
  lemma {:induction false} SortSorted(cmp: (string, string) -> int, s: seq<string>)
    requires TotalPreorder(cmp)
    ensures Sorted(cmp, Sort(cmp, s))
  {
    if s != [] {
      SortSorted(cmp, s[..|s| - 1]);
      InsertSorted(cmp, s[|s| - 1], Sort(cmp, s[..|s| - 1]));
    }
  }

  lemma {:induction false} InsertLast(cmp: (string, string) -> int, x: string, s: seq<string>)
    requires forall k :: 0 <= k < |s| ==> NameLeq(cmp, s[k], x)
    ensures Insert(cmp, x, s) == s + [x]
  {
    if s != [] {
      InsertLast(cmp, x, s[1..]);
      assert [s[0]] + (s[1..] + [x]) == s + [x];
    }
  }

  /** A group already in label order is left exactly as it is (the sort is stable). */
  lemma {:induction false} SortOfSorted(cmp: (string, string) -> int, s: seq<string>)
    requires Sorted(cmp, s)
    ensures Sort(cmp, s) == s
  {
    if s != [] {
      var init := s[..|s| - 1];
      assert Sorted(cmp, init);
      SortOfSorted(cmp, init);
      InsertLast(cmp, s[|s| - 1], init);
      assert init + [s[|s| - 1]] == s;
    }
  }

  /** Sorting twice with the same comparator is sorting once. */
  lemma SortIdempotent(cmp: (string, string) -> int, s: seq<string>)
    requires TotalPreorder(cmp)
    ensures Sort(cmp, Sort(cmp, s)) == Sort(cmp, s)
  {
    SortSorted(cmp, s);
    SortOfSorted(cmp, Sort(cmp, s));
  }

  /** One pass of the `for…of` loop of `populateSelect` over every group. */
  function SortEach(cmp: (string, string) -> int, groups: seq<Group>): (r: seq<Group>)
    ensures |r| == |groups|
  {
    seq(|groups|, i requires 0 <= i < |groups| => groups[i].(ids := Sort(cmp, groups[i].ids)))
  }

  /**
   * Sorting the groups keeps every region and every group's ids as a multiset,
   * so `getAllTimezones` lists the same ids, each as often, afterwards.
   */
  lemma {:induction false} SortEachKeepsIds(cmp: (string, string) -> int, groups: seq<Group>)
    ensures forall i :: 0 <= i < |groups| ==>
      SortEach(cmp, groups)[i].region == groups[i].region &&
      multiset(SortEach(cmp, groups)[i].ids) == multiset(groups[i].ids)
    ensures multiset(Flatten(SortEach(cmp, groups))) == multiset(Flatten(groups))
  {
    if groups != [] {
      var r := SortEach(cmp, groups);
      assert r[1..] == SortEach(cmp, groups[1..]);
      SortEachKeepsIds(cmp, groups[1..]);
    }
  }

  /** After a pass every group is in label order. */
  lemma SortEachSorted(cmp: (string, string) -> int, groups: seq<Group>)
    requires TotalPreorder(cmp)
    ensures forall g <- SortEach(cmp, groups) :: Sorted(cmp, g.ids)
  {
    forall i | 0 <= i < |groups| ensures Sorted(cmp, SortEach(cmp, groups)[i].ids) {
      SortSorted(cmp, groups[i].ids);
    }
  }

  /** A second pass changes nothing. */
  lemma SortEachIdempotent(cmp: (string, string) -> int, groups: seq<Group>)
    requires TotalPreorder(cmp)
    ensures SortEach(cmp, SortEach(cmp, groups)) == SortEach(cmp, groups)
  {
    forall i | 0 <= i < |groups|
      ensures SortEach(cmp, SortEach(cmp, groups))[i] == SortEach(cmp, groups)[i]
    {
      SortIdempotent(cmp, groups[i].ids);
    }
  }

  /** The mutable `TIMEZONE_GROUPS` object: each group's array is sorted in place. */
  class Catalogue {
    var groups: seq<Group>

    constructor ()
      ensures groups == InitialGroups()
    {
      groups := InitialGroups();
    }

    /** `getAllTimezones`: the ids of every group, groups in key order. */
    function AllTimezones(): (ids: seq<string>)
      reads this
      ensures ids == Flatten(groups)
    {
      Flatten(groups)
    }

    /** The `for…of` loop of `populateSelect`: `timezones.sort(...)` on each group in turn. */
    method SortGroups(cmp: (string, string) -> int)
      modifies this
      ensures groups == SortEach(cmp, old(groups))
    {
      for i := 0 to |groups|
        invariant |groups| == |old(groups)|
        invariant forall k :: 0 <= k < i ==> groups[k] == old(groups)[k].(ids := Sort(cmp, old(groups)[k].ids))
        invariant forall k :: i <= k < |groups| ==> groups[k] == old(groups)[k]
      {
        groups := groups[i := groups[i].(ids := Sort(cmp, groups[i].ids))];
      }
    }

    /**
     * `populateTimezoneSelects`: `populateSelect` runs for the source selector
     * and then for each of the target selectors, sorting every group each
     * time; the groups end up sorted exactly once over.
     */
    method PopulateSelects(cmp: (string, string) -> int, targetCount: nat)
      requires TotalPreorder(cmp)
      modifies this
      ensures groups == SortEach(cmp, old(groups))
      ensures multiset(AllTimezones()) == multiset(old(AllTimezones()))
    {
      SortGroups(cmp);
      for t := 0 to targetCount
        invariant groups == SortEach(cmp, old(groups))
      {
        SortEachIdempotent(cmp, old(groups));
        SortGroups(cmp);
      }
      SortEachKeepsIds(cmp, old(groups));
    }
  }
}
