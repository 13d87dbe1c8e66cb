/** Build numbers from calendar versions. */
module SparkleBuild {
  import opened Wrappers
  import opened Decimal
  import opened JsText

  datatype Calver = Calver(year: nat, month: nat, day: nat, suffix: string)

  datatype Floors = Floors(dateKey: nat, legacyFloor: nat, laneFloor: nat, lane: nat)

  predicate IsLineTerminator(c: char) {
    c == '\n' || c == '\r' || c == '\U{2028}' || c == '\U{2029}'
  }

  /** A suffix begins with a dot or a dash and holds no line end. */
  predicate IsSuffix(s: string) {
    s == "" || ((s[0] == '.' || s[0] == '-') && forall i :: 1 <= i < |s| ==> !IsLineTerminator(s[i]))
  }

  /** Four digits, a dot, one or two digits, a dot, one or two digits and a suffix. */
  function MatchCalver(v: string): (r: Option<Calver>)
    ensures r.Some? ==> r.value.year < 10000 && r.value.month < 100 && r.value.day < 100
  {
    var y := LeadingDigits(v);
    if |y| != 4 || |v| < 5 || v[4] != '.' then None
    else
      var m := LeadingDigits(v[5..]);
      if m == "" || |m| > 2 || |v| < 6 + |m| || v[5 + |m|] != '.' then None
      else
        var d := LeadingDigits(v[6 + |m|..]);
        if d == "" || |d| > 2 || !IsSuffix(v[6 + |m| + |d|..]) then None
        else
          FewDigits(y);
          FewDigits(m);
          FewDigits(d);
          Some(Calver(ParseNat(y), ParseNat(m), ParseNat(d), v[6 + |m| + |d|..]))
  }

  lemma FewDigits(s: string)
    requires AllDigits(s) && |s| <= 4
    ensures ParseNat(s) < 10000 && (|s| <= 2 ==> ParseNat(s) < 100)
  {
    if s != "" {
      var a := s[..|s| - 1];
      if a != "" {
        var b := a[..|a| - 1];
        if b != "" {
          assert |b[..|b| - 1]| <= 1;
        }
      }
    }
  }

  function TrailingDigits(s: string): (d: string)
    ensures AllDigits(d) && |d| <= |s| && d == s[|s| - |d|..]
    ensures |d| < |s| ==> !IsDigit(s[|s| - |d| - 1])
  {
    if s != "" && IsDigit(s[|s| - 1]) then TrailingDigits(s[..|s| - 1]) + [s[|s| - 1]] else ""
  }

  /** The last two digits of the build number: final versions come last. */
  function Lane(suffix: string): (lane: nat)
    ensures lane <= 90
    ensures lane == 90 <==> suffix == ""
  {
    if suffix == "" then 90
    else
      var d := TrailingDigits(suffix);
      if d == "" then 1 else if ParseNat(d) < 89 then ParseNat(d) else 89
  }

  function DateKeyText(c: Calver): (s: string)
    requires c.month < 100 && c.day < 100
    ensures AllDigits(s) && ParseNat(s) == c.year * 10000 + c.month * 100 + c.day
  {
    ParseItoa(c.year);
    ParsePad2(Itoa(c.year), c.month);
    ParsePad2(Itoa(c.year) + Pad2(c.month), c.day);
    Itoa(c.year) + Pad2(c.month) + Pad2(c.day)
  }

  function FloorsOf(dateKey: nat, lane: nat): (f: Floors)
    requires lane < 100
    ensures f == Floors(dateKey, dateKey * 10, dateKey * 100 + lane, lane)
  {
    ParseItoa(dateKey);
    ParseSnoc(Itoa(dateKey), '0');
    ParsePad2(Itoa(dateKey), lane);
    Floors(dateKey, ParseNat(Itoa(dateKey) + "0"), ParseNat(Itoa(dateKey) + Pad2(lane)), lane)
  }

  /** The floors are read off strings of digits, as the script does. */
  function FloorsFromShortVersion(shortVersion: string): Option<Floors> {
    var c :- MatchCalver(JsTrim(shortVersion));
    if c.month < 1 || c.month > 12 || c.day < 1 || c.day > 31 then None
    else Some(FloorsOf(ParseNat(DateKeyText(c)), Lane(c.suffix)))
  }

  function CanonicalBuild(shortVersion: string): Option<nat> {
    var f :- FloorsFromShortVersion(shortVersion);
    Some(f.laneFloor)
  }

  /** The digit strings amount to plain arithmetic, and the two floors lie on both sides of
      a thousand million from the year 1000 on. */
  lemma FloorsAreArithmetic(shortVersion: string)
    requires FloorsFromShortVersion(shortVersion).Some?
    ensures var f := FloorsFromShortVersion(shortVersion).value;
            var c := MatchCalver(JsTrim(shortVersion)).value;
            && f.dateKey == c.year * 10000 + c.month * 100 + c.day
            && f.legacyFloor == f.dateKey * 10 && f.laneFloor == f.dateKey * 100 + f.lane && f.lane <= 90
            && f.legacyFloor < 1_000_000_000
            && (f.laneFloor >= 1_000_000_000 <==> c.year >= 1000)
  {
    var c := MatchCalver(JsTrim(shortVersion)).value;
    assert c.month <= 12 && c.day <= 31 && c.year <= 9999;
    var f := FloorsOf(ParseNat(DateKeyText(c)), Lane(c.suffix));
    assert FloorsFromShortVersion(shortVersion) == Some(f);
  }

  /** Canonical build numbers are ordered as dates, and within a date as lanes. */
  lemma LaneFloorsAreOrdered(a: string, b: string)
    requires FloorsFromShortVersion(a).Some? && FloorsFromShortVersion(b).Some?
    ensures CanonicalBuild(a).Some? && CanonicalBuild(b).Some?
    ensures var f, g := FloorsFromShortVersion(a).value, FloorsFromShortVersion(b).value;
            CanonicalBuild(a).value < CanonicalBuild(b).value <==>
            f.dateKey < g.dateKey || (f.dateKey == g.dateKey && f.lane < g.lane)
  {
    FloorsAreArithmetic(a);
    FloorsAreArithmetic(b);
    hide FloorsFromShortVersion;
  }

  lemma Parts(v: string, y: string, m: string, d: string, suffix: string)
    requires |y| == 4 && 1 <= |m| <= 2 && 1 <= |d| <= 2 && IsSuffix(suffix)
    requires |v| >= 6 + |m| + |d| && v[4] == '.' && v[5 + |m|] == '.' && v[6 + |m| + |d|..] == suffix
    requires LeadingDigits(v) == y && LeadingDigits(v[5..]) == m && LeadingDigits(v[6 + |m|..]) == d
    ensures MatchCalver(v) == Some(Calver(ParseNat(y), ParseNat(m), ParseNat(d), suffix))
  {
  }

  /** Four digits, a dot, one or two digits, a dot, one or two digits, and a suffix. */
  predicate IsVersion(y: string, m: string, d: string, suffix: string) {
    && AllDigits(y) && |y| == 4 && AllDigits(m) && 1 <= |m| <= 2 && AllDigits(d) && 1 <= |d| <= 2 && IsSuffix(suffix)
  }

  function VersionText(y: string, m: string, d: string, suffix: string): string {
    y + "." + (m + "." + (d + suffix))
  }

  lemma MatchesWhatPrints(y: string, m: string, d: string, suffix: string)
    requires IsVersion(y, m, d, suffix)
    ensures MatchCalver(VersionText(y, m, d, suffix)) == Some(Calver(ParseNat(y), ParseNat(m), ParseNat(d), suffix))
  {
    var afterMonth := d + suffix;
    var afterYear := m + "." + afterMonth;
    var v := y + "." + afterYear;
    DigitsBefore(y, '.', afterYear);
    DigitsBefore(m, '.', afterMonth);
    DigitsAtEnd(d, suffix);
    assert v[5..] == afterYear;
    assert afterYear[|m| + 1..] == afterMonth;
    assert v[5..][|m| + 1..] == v[6 + |m|..];
    assert afterMonth[|d|..] == suffix;
    assert v[6 + |m|..][|d|..] == v[6 + |m| + |d|..];
    assert v[5 + |m|] == v[5..][|m|];
    Parts(v, y, m, d, suffix);
  }

  lemma CutAtDot(t: string, part: string, rest: string)
    requires part <= t && |part| < |t| && t[|part|] == '.' && rest == t[|part| + 1..]
    ensures t == part + "." + rest
  {
  }

  /** The parts that a version was read in. */
  lemma MatchedParts(v: string) returns (y: string, m: string, d: string, suffix: string)
    requires MatchCalver(v).Some?
    ensures IsVersion(y, m, d, suffix) && v == VersionText(y, m, d, suffix)
  {
    hide IsSuffix, AllDigits, LeadingDigits, ParseNat;
    y := LeadingDigits(v);
    var afterYear := v[5..];
    m := LeadingDigits(afterYear);
    var afterMonth := v[6 + |m|..];
    d := LeadingDigits(afterMonth);
    suffix := v[6 + |m| + |d|..];
    hide MatchCalver;
    CutAtDot(v, y, afterYear);
    CutAtDot(afterYear, m, afterMonth);
    assert afterMonth == d + suffix;
  }

  /** The versions that are matched are exactly the texts of this form, and each is read back
      in its four parts. */
  lemma MatchesExactly(v: string, c: Calver)
    ensures MatchCalver(v) == Some(c) <==>
            exists y, m, d :: IsVersion(y, m, d, c.suffix) && v == VersionText(y, m, d, c.suffix)
                              && c == Calver(ParseNat(y), ParseNat(m), ParseNat(d), c.suffix)
  {
    forall y, m, d | IsVersion(y, m, d, c.suffix) && v == VersionText(y, m, d, c.suffix)
      ensures MatchCalver(v) == Some(Calver(ParseNat(y), ParseNat(m), ParseNat(d), c.suffix))
    {
      MatchesWhatPrints(y, m, d, c.suffix);
    }
    if MatchCalver(v) == Some(c) {
      var y, m, d, suffix := MatchedParts(v);
      MatchesWhatPrints(y, m, d, suffix);
    }
  }

  lemma TrailingDigitsAre(head: string, d: string)
    requires AllDigits(d) && (head == "" || !IsDigit(head[|head| - 1]))
    ensures TrailingDigits(head + d) == d
  {
    var s := head + d;
    var t := TrailingDigits(s);
    hide TrailingDigits, IsDigit;
    assert forall j :: |head| <= j < |s| ==> s[j] == d[j - |head|];
    assert forall j :: |s| - |t| <= j < |s| ==> s[j] == t[j - (|s| - |t|)];
    assert head != "" ==> s[|head| - 1] == head[|head| - 1];
    assert |t| == |d|;
  }

  /** Within a date, a version without a suffix comes last, one whose suffix ends in a number
      at that number, though not past 89, and any other one first. */
  lemma LaneOf(suffix: string, head: string, d: string)
    requires suffix == head + d && AllDigits(d) && (head == "" || !IsDigit(head[|head| - 1]))
    ensures suffix == "" ==> Lane(suffix) == 90
    ensures suffix != "" && d == "" ==> Lane(suffix) == 1
    ensures d != "" && ParseNat(d) <= 89 ==> Lane(suffix) == ParseNat(d)
    ensures d != "" && ParseNat(d) > 89 ==> Lane(suffix) == 89
  {
    TrailingDigitsAre(head, d);
  }

  lemma LaneFloorIs(year: nat, month: nat, day: nat, lane: nat, dateKey: nat, laneFloor: nat)
    requires dateKey == year * 10000 + month * 100 + day && laneFloor == dateKey * 100 + lane
    ensures laneFloor == ((year * 100 + month) * 100 + day) * 100 + lane
  {
  }

  /** Floors are given for dates with a month up to 12 and a day up to 31. */
  lemma FloorsOfDate(v: string, c: Calver)
    requires MatchCalver(JsTrim(v)) == Some(c)
    ensures FloorsFromShortVersion(v).Some? <==> 1 <= c.month <= 12 && 1 <= c.day <= 31
    ensures FloorsFromShortVersion(v).Some? ==> FloorsFromShortVersion(v).value.lane == Lane(c.suffix)
  {
    hide MatchCalver, Lane, JsTrim;
  }

  /** The build number of every valid date and suffix, and none for other dates. */
  lemma BuildOfVersion(v: string, y: string, m: string, d: string, suffix: string)
    requires IsVersion(y, m, d, suffix) && JsTrim(v) == VersionText(y, m, d, suffix)
    ensures var month, day := ParseNat(m), ParseNat(d);
            CanonicalBuild(v) == if 1 <= month <= 12 && 1 <= day <= 31
                                 then Some(((ParseNat(y) * 100 + month) * 100 + day) * 100 + Lane(suffix)) else None
  {
    hide MatchCalver, VersionText, FloorsFromShortVersion, Lane, JsTrim, ParseNat;
    MatchesWhatPrints(y, m, d, suffix);
    var c := Calver(ParseNat(y), ParseNat(m), ParseNat(d), suffix);
    FloorsOfDate(v, c);
    if FloorsFromShortVersion(v).Some? {
      FloorsAreArithmetic(v);
      var f := FloorsFromShortVersion(v).value;
      LaneFloorIs(c.year, c.month, c.day, f.lane, f.dateKey, f.laneFloor);
    }
  }
}
