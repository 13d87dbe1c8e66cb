/** The release check over the update feed: every entry's build number against the floors of
    its version. The feed is given by the three texts the check takes from each entry. */
module Appcast {
  import opened Wrappers
  import opened Decimal
  import opened SparkleBuild

  const LANE_BUILD_MIN: nat := 1_000_000_000
  const LANE_FLOOR_ADOPTION_DATE_KEY: nat := 20260227

  datatype Item = Item(title: string, shortVersion: Option<string>, sparkleVersion: Option<string>)

  datatype Error =
    | NoItems
    | MissingVersion(title: string)
    | NonNumericVersion(title: string, version: string)
    | BelowFloor(title: string, build: nat, floor: nat, isLaneFloor: bool)

  /** An item with a calendar version and a numeric build. */
  datatype CalverItem = CalverItem(title: string, build: nat, floors: Floors)

  function TextOf(t: Option<string>): string {
    if t.Some? then t.value else ""
  }

  predicate IsNumeric(v: string) {
    v != "" && AllDigits(v)
  }

  function VersionError(item: Item): Option<Error> {
    var v := TextOf(item.sparkleVersion);
    if v == "" then Some(MissingVersion(item.title))
    else if !IsNumeric(v) then Some(NonNumericVersion(item.title, v)) else None
  }

  function AsCalver(item: Item): Option<CalverItem> {
    if VersionError(item).Some? || TextOf(item.shortVersion) == "" then None
    else
      var floors :- FloorsFromShortVersion(TextOf(item.shortVersion));
      Some(CalverItem(item.title, ParseNat(TextOf(item.sparkleVersion)), floors))
  }

  function VersionErrors(items: seq<Item>): seq<Error> {
    if items == [] then []
    else (if VersionError(items[0]).Some? then [VersionError(items[0]).value] else []) + VersionErrors(items[1..])
  }

  function CalverItems(items: seq<Item>): seq<CalverItem> {
    if items == [] then []
    else (if AsCalver(items[0]).Some? then [AsCalver(items[0]).value] else []) + CalverItems(items[1..])
  }

  /** The adoption date of the lane numbers: the earliest date of an item that uses them, but
      no later than the fixed date. */
  function AdoptionDate(items: seq<CalverItem>): (date: nat)
    ensures date <= LANE_FLOOR_ADOPTION_DATE_KEY
    ensures forall i :: 0 <= i < |items| && items[i].build >= LANE_BUILD_MIN ==> date <= items[i].floors.dateKey
    ensures date == LANE_FLOOR_ADOPTION_DATE_KEY
            || exists i :: 0 <= i < |items| && items[i].build >= LANE_BUILD_MIN && items[i].floors.dateKey == date
  {
    if items == [] then LANE_FLOOR_ADOPTION_DATE_KEY
    else
      var rest := AdoptionDate(items[1..]);
      assert forall i :: 1 <= i < |items| ==> items[i] == items[1..][i - 1];
      if items[0].build >= LANE_BUILD_MIN && items[0].floors.dateKey < rest then items[0].floors.dateKey else rest
  }

  predicate ExpectsLane(item: CalverItem, adoption: nat) {
    item.build >= LANE_BUILD_MIN || item.floors.dateKey >= adoption
  }

  function Floor(item: CalverItem, adoption: nat): nat {
    if ExpectsLane(item, adoption) then item.floors.laneFloor else item.floors.legacyFloor
  }

  function FloorErrors(items: seq<CalverItem>, adoption: nat): seq<Error> {
    if items == [] then []
    else
      var i := items[0];
      (if i.build < Floor(i, adoption)
       then [BelowFloor(i.title, i.build, Floor(i, adoption), ExpectsLane(i, adoption))] else [])
         + FloorErrors(items[1..], adoption)
  }

  function AllErrors(items: seq<Item>): seq<Error> {
    (if items == [] then [NoItems] else []) + VersionErrors(items)
      + FloorErrors(CalverItems(items), AdoptionDate(CalverItems(items)))
  }

  method CollectErrors(items: seq<Item>) returns (errors: seq<Error>)
    ensures errors == AllErrors(items)
  {
    hide FloorsFromShortVersion, ParseNat, TextOf;
    errors := [];
    var calverItems: seq<CalverItem> := [];
    if |items| == 0 {
      errors := errors + [NoItems];
    }
    ghost var first := errors;
    for i := 0 to |items|
      invariant errors + VersionErrors(items[i..]) == first + VersionErrors(items)
      invariant calverItems + CalverItems(items[i..]) == CalverItems(items)
    {
      assert items[i..][0] == items[i] && items[i..][1..] == items[i + 1..];
      var sparkleVersion := TextOf(items[i].sparkleVersion);
      if sparkleVersion == "" {
        errors := errors + [MissingVersion(items[i].title)];
        continue;
      }
      if !IsNumeric(sparkleVersion) {
        errors := errors + [NonNumericVersion(items[i].title, sparkleVersion)];
        continue;
      }
      var shortVersion := TextOf(items[i].shortVersion);
      if shortVersion == "" {
        continue;
      }
      var floors := FloorsFromShortVersion(shortVersion);
      if floors.None? {
        continue;
      }
      calverItems := calverItems + [CalverItem(items[i].title, ParseNat(sparkleVersion), floors.value)];
    }
    assert calverItems == CalverItems(items) && errors == first + VersionErrors(items);
    var more := CollectFloorErrors(calverItems);
    errors := errors + more;
  }

  lemma NoItemsNoFloorErrors(adoption: nat)
    ensures FloorErrors([], adoption) == []
  {
  }

  lemma FloorErrorsFrom(items: seq<CalverItem>, i: nat, adoption: nat)
    requires i < |items|
    ensures var c := items[i];
            var head := if c.build < Floor(c, adoption)
                        then [BelowFloor(c.title, c.build, Floor(c, adoption), ExpectsLane(c, adoption))] else [];
            FloorErrors(items[i..], adoption) == head + FloorErrors(items[i + 1..], adoption)
  {
    assert items[i..][0] == items[i] && items[i..][1..] == items[i + 1..];
    hide Floor, ExpectsLane;
  }

  method CollectFloorErrors(items: seq<CalverItem>) returns (errors: seq<Error>)
    ensures errors == FloorErrors(items, AdoptionDate(items))
  {
    var adoption := AdoptionDate(items);
    errors := [];
    NoItemsNoFloorErrors(adoption);
    hide AdoptionDate, FloorErrors;
    assert items[0..] == items;
    for i := 0 to |items|
      invariant errors + FloorErrors(items[i..], adoption) == FloorErrors(items, adoption)
    {
      FloorErrorsFrom(items, i, adoption);
      var expectLaneFloor := ExpectsLane(items[i], adoption);
      var floor := if expectLaneFloor then items[i].floors.laneFloor else items[i].floors.legacyFloor;
      if items[i].build < floor {
        errors := errors + [BelowFloor(items[i].title, items[i].build, floor, expectLaneFloor)];
      }
    }
    assert items[|items|..] == [];
  }

  // ---------------------------------------------------------------- what an error-free feed is

  lemma {:induction false} NoVersionErrors(items: seq<Item>)
    ensures VersionErrors(items) == [] <==> forall i :: 0 <= i < |items| ==> VersionError(items[i]).None?
  {
    if items != [] {
      NoVersionErrors(items[1..]);
      assert forall i :: 1 <= i < |items| ==> items[i] == items[1..][i - 1];
      assert forall i :: 0 <= i < |items| - 1 ==> items[1..][i] == items[i + 1];
    }
  }

  lemma {:induction false} NoFloorErrors(items: seq<CalverItem>, adoption: nat)
    ensures FloorErrors(items, adoption) == [] <==>
            forall i :: 0 <= i < |items| ==> items[i].build >= Floor(items[i], adoption)
  {
    if items != [] {
      NoFloorErrors(items[1..], adoption);
      assert forall i :: 1 <= i < |items| ==> items[i] == items[1..][i - 1];
      assert forall i :: 0 <= i < |items| - 1 ==> items[1..][i] == items[i + 1];
    }
  }

  predicate AllNumeric(items: seq<Item>) {
    forall i :: 0 <= i < |items| ==> IsNumeric(TextOf(items[i].sparkleVersion))
  }

  predicate AllAtFloor(calver: seq<CalverItem>, adoption: nat) {
    forall i :: 0 <= i < |calver| ==> calver[i].build >= Floor(calver[i], adoption)
  }

  /** A feed passes exactly when it has items, all with numeric builds, and every calendar
      version is numbered at or above the floor that applies to it. */
  lemma PassesExactly(items: seq<Item>)
    ensures AllErrors(items) == [] <==>
              items != [] && AllNumeric(items) && AllAtFloor(CalverItems(items), AdoptionDate(CalverItems(items)))
  {
    var calver := CalverItems(items);
    var noItems := if items == [] then [NoItems] else [];
    var versionErrors, floorErrors := VersionErrors(items), FloorErrors(calver, AdoptionDate(calver));
    assert AllErrors(items) == noItems + versionErrors + floorErrors;
    assert |AllErrors(items)| == |noItems| + |versionErrors| + |floorErrors|;
    NoVersionErrors(items);
    NoFloorErrors(calver, AdoptionDate(calver));
    NumericExactly(items);
    hide *;
  }

  lemma NumericExactly(items: seq<Item>)
    ensures AllNumeric(items) <==> forall i :: 0 <= i < |items| ==> VersionError(items[i]).None?
  {
    hide TextOf, IsNumeric;
    assert forall i :: 0 <= i < |items| ==>
      (VersionError(items[i]).None? <==>
       TextOf(items[i].sparkleVersion) != "" && IsNumeric(TextOf(items[i].sparkleVersion)));
    EmptyIsNotNumeric();
  }

  lemma EmptyIsNotNumeric()
    ensures !IsNumeric("")
  {
  }

  lemma {:induction false} CalverComesFromItem(items: seq<Item>, i: nat) returns (k: nat)
    requires i < |CalverItems(items)|
    ensures k < |items| && AsCalver(items[k]) == Some(CalverItems(items)[i])
  {
    hide AsCalver;
    var head: seq<CalverItem> := if AsCalver(items[0]).Some? then [AsCalver(items[0]).value] else [];
    if i < |head| {
      k := 0;
    } else {
      k := CalverComesFromItem(items[1..], i - |head|);
      k := k + 1;
    }
  }

  /** In a feed without errors, whatever the order of its items: a calendar version from the
      year 1000 on that is numbered in the old way is dated before every one that is numbered
      in the new way, and before the fixed adoption date. */
  lemma RegimesDoNotMix(items: seq<Item>, i: nat)
    requires AllErrors(items) == [] && i < |CalverItems(items)|
    requires CalverItems(items)[i].build < LANE_BUILD_MIN && CalverItems(items)[i].floors.dateKey >= 1000 * 10000
    ensures var calver := CalverItems(items);
            && calver[i].floors.dateKey < LANE_FLOOR_ADOPTION_DATE_KEY
            && calver[i].build >= calver[i].floors.legacyFloor
            && forall j :: 0 <= j < |calver| && calver[j].build >= LANE_BUILD_MIN ==>
                 calver[i].floors.dateKey < calver[j].floors.dateKey && calver[j].build >= calver[j].floors.laneFloor
  {
    var calver := CalverItems(items);
    PassesExactly(items);
    var k := CalverComesFromItem(items, i);
    FloorsAreArithmetic(TextOf(items[k].shortVersion));
    assert calver[i].floors.laneFloor >= LANE_BUILD_MIN;
    assert calver[i].build >= Floor(calver[i], AdoptionDate(calver));
  }

  // ---------------------------------------------------------------- which errors are reported

  /** The item has a numeric build and a calendar version with these floors. */
  predicate IsDated(item: Item, build: nat, f: Floors) {
    && item.sparkleVersion.Some? && IsNumeric(item.sparkleVersion.value)
    && ParseNat(item.sparkleVersion.value) == build
    && item.shortVersion.Some? && item.shortVersion.value != ""
    && FloorsFromShortVersion(item.shortVersion.value) == Some(f)
  }

  /** Numbered in the new way, or dated on the fixed date or later, or no earlier than some
      item that is numbered in the new way. */
  ghost predicate WantsLane(items: seq<Item>, build: nat, f: Floors) {
    || build >= 1_000_000_000
    || f.dateKey >= 20260227
    || exists j, b, g :: 0 <= j < |items| && IsDated(items[j], b, g) && b >= 1_000_000_000 && g.dateKey <= f.dateKey
  }

  ghost predicate IsReported(items: seq<Item>, item: Item, e: Error) {
    match e
    case NoItems => false
    case MissingVersion(title) =>
      item.title == title && (item.sparkleVersion == None || item.sparkleVersion == Some(""))
    case NonNumericVersion(title, version) =>
      item.title == title && item.sparkleVersion == Some(version) && version != ""
      && exists k :: 0 <= k < |version| && !IsDigit(version[k])
    case BelowFloor(title, build, floor, isLane) =>
      item.title == title && exists f ::
        && IsDated(item, build, f) && (isLane <==> WantsLane(items, build, f))
        && floor == (if isLane then f.laneFloor else f.legacyFloor) && build < floor
  }

  lemma DatedExactly(item: Item, build: nat, f: Floors)
    ensures AsCalver(item) == Some(CalverItem(item.title, build, f)) <==> IsDated(item, build, f)
  {
    hide FloorsFromShortVersion, ParseNat;
  }

  lemma {:induction false} CalverMembers(items: seq<Item>, c: CalverItem)
    ensures c in CalverItems(items) <==> exists i :: 0 <= i < |items| && AsCalver(items[i]) == Some(c)
  {
    if items != [] {
      CalverMembers(items[1..], c);
      hide AsCalver;
      assert forall i :: 1 <= i < |items| ==> items[i] == items[1..][i - 1];
      assert forall i :: 0 <= i < |items[1..]| ==> items[1..][i] == items[i + 1];
    }
  }

  lemma {:induction false} VersionErrorMembers(items: seq<Item>, e: Error)
    ensures e in VersionErrors(items) <==> exists i :: 0 <= i < |items| && VersionError(items[i]) == Some(e)
  {
    if items != [] {
      VersionErrorMembers(items[1..], e);
      hide VersionError;
      assert forall i :: 1 <= i < |items| ==> items[i] == items[1..][i - 1];
      assert forall i :: 0 <= i < |items[1..]| ==> items[1..][i] == items[i + 1];
    }
  }

  predicate IsFloorError(c: CalverItem, adoption: nat, e: Error) {
    c.build < Floor(c, adoption) && e == BelowFloor(c.title, c.build, Floor(c, adoption), ExpectsLane(c, adoption))
  }

  lemma {:induction false} FloorErrorMembers(items: seq<CalverItem>, adoption: nat, e: Error)
    ensures e in FloorErrors(items, adoption) <==>
            exists i :: 0 <= i < |items| && IsFloorError(items[i], adoption, e)
  {
    if items != [] {
      FloorErrorMembers(items[1..], adoption, e);
      FloorErrorsFrom(items, 0, adoption);
      hide Floor, ExpectsLane;
      assert forall i :: 1 <= i < |items| ==> items[i] == items[1..][i - 1];
      assert forall i :: 0 <= i < |items[1..]| ==> items[1..][i] == items[i + 1];
    }
  }

  lemma WantsLaneExactly(items: seq<Item>, c: CalverItem)
    ensures ExpectsLane(c, AdoptionDate(CalverItems(items))) <==> WantsLane(items, c.build, c.floors)
  {
    hide IsDated, AsCalver, CalverItems;
    var calver := CalverItems(items);
    var date := AdoptionDate(calver);
    if j, b, g :| 0 <= j < |items| && IsDated(items[j], b, g) && b >= 1_000_000_000 && g.dateKey <= c.floors.dateKey {
      DatedExactly(items[j], b, g);
      CalverMembers(items, CalverItem(items[j].title, b, g));
      assert date <= g.dateKey;
    }
    if date != LANE_FLOOR_ADOPTION_DATE_KEY {
      var i :| 0 <= i < |calver| && calver[i].build >= LANE_BUILD_MIN && calver[i].floors.dateKey == date;
      CalverMembers(items, calver[i]);
      var j :| 0 <= j < |items| && AsCalver(items[j]) == Some(calver[i]);
      TitleKept(items[j]);
      DatedExactly(items[j], calver[i].build, calver[i].floors);
    }
  }

  lemma TitleKept(item: Item)
    ensures AsCalver(item).Some? ==> AsCalver(item).value.title == item.title
  {
    hide FloorsFromShortVersion, ParseNat;
  }

  lemma VersionErrorExactly(items: seq<Item>, item: Item, e: Error)
    requires e.MissingVersion? || e.NonNumericVersion?
    ensures VersionError(item) == Some(e) <==> IsReported(items, item, e)
  {
  }

  lemma FloorErrorsExactly(items: seq<Item>, e: Error)
    requires e.BelowFloor?
    ensures e in FloorErrors(CalverItems(items), AdoptionDate(CalverItems(items))) <==>
            exists i :: 0 <= i < |items| && IsReported(items, items[i], e)
  {
    var calver := CalverItems(items);
    var date := AdoptionDate(calver);
    FloorErrorMembers(calver, date, e);
    hide AdoptionDate, CalverItems, FloorErrors, AsCalver, IsDated, WantsLane, ExpectsLane;
    if k :| 0 <= k < |calver| && IsFloorError(calver[k], date, e) {
      CalverMembers(items, calver[k]);
      var i :| 0 <= i < |items| && AsCalver(items[i]) == Some(calver[k]);
      TitleKept(items[i]);
      DatedExactly(items[i], calver[k].build, calver[k].floors);
      WantsLaneExactly(items, calver[k]);
      assert IsReported(items, items[i], e);
    }
    if i :| 0 <= i < |items| && IsReported(items, items[i], e) {
      var f :| IsDated(items[i], e.build, f) && (e.isLaneFloor <==> WantsLane(items, e.build, f))
        && e.floor == (if e.isLaneFloor then f.laneFloor else f.legacyFloor) && e.build < e.floor;
      var c := CalverItem(items[i].title, e.build, f);
      DatedExactly(items[i], e.build, f);
      CalverMembers(items, c);
      WantsLaneExactly(items, c);
      assert IsFloorError(c, date, e);
    }
  }

  lemma VersionErrorsExactly(items: seq<Item>, e: Error)
    ensures e in VersionErrors(items) <==>
            (e.MissingVersion? || e.NonNumericVersion?)
            && exists i :: 0 <= i < |items| && IsReported(items, items[i], e)
  {
    VersionErrorMembers(items, e);
    hide VersionErrors, IsDated, WantsLane;
    if e.MissingVersion? || e.NonNumericVersion? {
      forall i | 0 <= i < |items|
        ensures VersionError(items[i]) == Some(e) <==> IsReported(items, items[i], e)
      {
        VersionErrorExactly(items, items[i], e);
      }
      hide IsReported, VersionError;
    }
  }

  /** The errors that are reported for a feed: none but these, and all of these. */
  lemma ErrorsExactly(items: seq<Item>, e: Error)
    ensures e in AllErrors(items) <==>
            (e == NoItems && items == []) || exists i :: 0 <= i < |items| && IsReported(items, items[i], e)
  {
    var calver := CalverItems(items);
    var noItems := if items == [] then [NoItems] else [];
    var versionErrors, floorErrors := VersionErrors(items), FloorErrors(calver, AdoptionDate(calver));
    assert AllErrors(items) == noItems + versionErrors + floorErrors;
    VersionErrorsExactly(items, e);
    if e.BelowFloor? {
      FloorErrorsExactly(items, e);
    } else {
      NoOtherFloorError(calver, AdoptionDate(calver), e);
    }
    hide CalverItems, VersionErrors, FloorErrors, AdoptionDate, IsDated, WantsLane;
  }

  lemma NoOtherFloorError(items: seq<CalverItem>, adoption: nat, e: Error)
    requires !e.BelowFloor?
    ensures e !in FloorErrors(items, adoption)
  {
    FloorErrorMembers(items, adoption, e);
  }
}
