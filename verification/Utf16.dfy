/** Slicing strings of UTF-16 code units without cutting a surrogate pair (section 3.9 of
    The Unicode Standard, UTF-16 encoding form). */
module Utf16 {

  type Unit = u: int | 0 <= u < 0x1_0000

  type Units = seq<Unit>

  predicate IsHigh(u: Unit) { 0xD800 <= u <= 0xDBFF }

  predicate IsLow(u: Unit) { 0xDC00 <= u <= 0xDFFF }

  /** Place i is between the two halves of a surrogate pair. */
  predicate InsidePair(s: Units, i: int) {
    0 < i < |s| && IsHigh(s[i - 1]) && IsLow(s[i])
  }

  /** Every surrogate is half of a pair. */
  predicate WellFormed(s: Units) {
    && (forall i :: 0 <= i < |s| && IsHigh(s[i]) ==> InsidePair(s, i + 1))
    && (forall i :: 0 <= i < |s| && IsLow(s[i]) ==> InsidePair(s, i))
  }

  /** An index as the plain slice reads it: negative ones count from the end. */
  function Clamp(i: int, len: nat): (r: nat)
    ensures r <= len
  {
    if i < 0 then (if len + i > 0 then len + i else 0) else if i < len then i else len
  }

  datatype End = Absent | At(i: int)

  /** The bounds after clamping and, where needed, swapping. */
  function Bounds(len: nat, start: int, end: End): (r: (nat, nat))
    ensures r.0 <= r.1 <= len
  {
    var from := Clamp(start, len);
    var to := if end.Absent? then len else Clamp(end.i, len);
    if to < from then (to, from) else (from, to)
  }

  /** The plain slice shortened by the half pairs at its ends. */
  function SafeSlice(s: Units, start: int, end: End): Units {
    var (from, to) := Bounds(|s|, start, end);
    var from' := if InsidePair(s, from) then from + 1 else from;
    var to' := if InsidePair(s, to) then to - 1 else to;
    if from' <= to' then s[from'..to'] else []
  }

  method SliceUtf16Safe(input: Units, start: int, end: End) returns (r: Units)
    ensures r == SafeSlice(input, start, end)
  {
    var len := |input|;
    var from: int := Clamp(start, len);
    var to: int := if end.Absent? then len else Clamp(end.i, len);
    if to < from {
      var tmp := from;
      from := to;
      to := tmp;
    }
    var swappedFrom, swappedTo := from, to;
    if from > 0 && from < len {
      var codeUnit := input[from];
      if IsLow(codeUnit) && IsHigh(input[from - 1]) {
        from := from + 1;
      }
    }
    if to > 0 && to < len {
      var codeUnit := input[to - 1];
      if IsHigh(codeUnit) && IsLow(input[to]) {
        to := to - 1;
      }
    }
    assert Bounds(len, start, end) == (swappedFrom, swappedTo);
    assert from == (if InsidePair(input, swappedFrom) then swappedFrom + 1 else swappedFrom);
    assert to == (if InsidePair(input, swappedTo) then swappedTo - 1 else swappedTo);
    r := if from <= to then input[from..to] else [];
  }

  /** For all bounds, also negative and swapped ones: a non-empty result is a part of the
      plain slice, at most one unit shorter at each end, whose ends are not inside a pair. */
  lemma SliceCutsNoPair(s: Units, start: int, end: End)
    ensures var (from, to) := Bounds(|s|, start, end);
            var r := SafeSlice(s, start, end);
            if to - from <= 1 && r == [] then true
            else exists a, b :: from <= a <= from + 1 && to - 1 <= b <= to && a <= b && r == s[a..b]
                                && !InsidePair(s, a) && !InsidePair(s, b)
  {
    var (from, to) := Bounds(|s|, start, end);
    var a := if InsidePair(s, from) then from + 1 else from;
    var b := if InsidePair(s, to) then to - 1 else to;
    if a <= b {
      assert SafeSlice(s, start, end) == s[a..b];
      assert !InsidePair(s, a) && !InsidePair(s, b);
    }
  }

  /** A slice of a well-formed string is well-formed. */
  lemma SliceKeepsWellFormed(s: Units, start: int, end: End)
    requires WellFormed(s)
    ensures WellFormed(SafeSlice(s, start, end))
  {
    var (from, to) := Bounds(|s|, start, end);
    var a := if InsidePair(s, from) then from + 1 else from;
    var b := if InsidePair(s, to) then to - 1 else to;
    if a <= b {
      PartIsWellFormed(s, a, b);
    }
  }

  /** A part of a well-formed string that does not begin or end inside a pair is well-formed. */
  lemma PartIsWellFormed(s: Units, a: nat, b: nat)
    requires WellFormed(s) && a <= b <= |s| && !InsidePair(s, a) && !InsidePair(s, b)
    ensures WellFormed(s[a..b])
  {
    var r := s[a..b];
    forall i | 0 <= i < |r| && IsHigh(r[i])
      ensures InsidePair(r, i + 1)
    {
      assert r[i] == s[a + i];
      assert InsidePair(s, a + i + 1);
    }
    forall i | 0 <= i < |r| && IsLow(r[i])
      ensures InsidePair(r, i)
    {
      assert r[i] == s[a + i];
      assert InsidePair(s, a + i);
    }
  }

  /** When no bound is inside a pair the result is the plain slice, and only then. */
  lemma PlainSliceExactly(s: Units, start: int, end: End)
    ensures var (from, to) := Bounds(|s|, start, end);
            SafeSlice(s, start, end) == s[from..to] <==> from == to || (!InsidePair(s, from) && !InsidePair(s, to))
  {
    var (from, to) := Bounds(|s|, start, end);
    var r := SafeSlice(s, start, end);
    if from < to && (InsidePair(s, from) || InsidePair(s, to)) {
      assert |r| < to - from;
    }
  }

  function Limit(maxLen: real): (n: nat)
    ensures maxLen >= 0.0 ==> n as real <= maxLen < n as real + 1.0
    ensures maxLen < 0.0 ==> n == 0
  {
    if maxLen.Floor < 0 then 0 else maxLen.Floor
  }

  function Truncate(s: Units, maxLen: real): Units {
    if |s| <= Limit(maxLen) then s else SafeSlice(s, 0, At(Limit(maxLen)))
  }

  /** Truncating a string that is too long gives its longest prefix within the limit that
      does not end inside a pair. */
  lemma TruncateIsLongestPrefix(s: Units, maxLen: real)
    ensures var r, limit := Truncate(s, maxLen), Limit(maxLen);
            && r <= s && (WellFormed(s) ==> WellFormed(r)) && !InsidePair(s, |r|)
            && (if |s| <= limit then r == s else limit - 1 <= |r| <= limit)
            && forall n :: |r| < n <= limit && n <= |s| ==> InsidePair(s, n)
  {
    var limit := Limit(maxLen);
    if |s| > limit {
      assert Bounds(|s|, 0, At(limit)) == (0, limit);
      if WellFormed(s) {
        SliceKeepsWellFormed(s, 0, At(limit));
      }
    }
  }

  /** An index from the end, as negative ones are. */
  function FromEnd(i: int, len: nat): int {
    if i < 0 then i + len else i
  }

  /** An index counts as long as it lies within the string; one before it is its beginning, and
      one behind it its end. */
  lemma IndexIsWithin(i: int, len: nat)
    ensures 0 <= FromEnd(i, len) <= len ==> Clamp(i, len) == FromEnd(i, len)
    ensures FromEnd(i, len) < 0 ==> Clamp(i, len) == 0
    ensures FromEnd(i, len) > len ==> Clamp(i, len) == len
  {
  }

  lemma SameBounds(s: Units, start: int, end: End, start': int, end': End)
    requires Bounds(|s|, start, end) == Bounds(|s|, start', end')
    ensures SafeSlice(s, start, end) == SafeSlice(s, start', end')
  {
    hide Bounds, InsidePair;
  }

  lemma NegativeBounds(len: nat, start: int, end: int)
    requires -(len as int) <= start < len && -(len as int) <= end < len
    ensures Bounds(len, start, At(end)) == Bounds(len, FromEnd(start, len), At(FromEnd(end, len)))
    ensures Bounds(len, start, Absent) == Bounds(len, FromEnd(start, len), At(len))
  {
  }

  /** A negative index gives the slice that its place counted from the front gives. */
  lemma NegativeCountsFromTheEnd(s: Units, start: int, end: int)
    requires -|s| <= start < |s| && -|s| <= end < |s|
    ensures SafeSlice(s, start, At(end)) == SafeSlice(s, FromEnd(start, |s|), At(FromEnd(end, |s|)))
    ensures SafeSlice(s, start, Absent) == SafeSlice(s, FromEnd(start, |s|), At(|s|))
  {
    NegativeBounds(|s|, start, end);
    SameBounds(s, start, At(end), FromEnd(start, |s|), At(FromEnd(end, |s|)));
    SameBounds(s, start, Absent, FromEnd(start, |s|), At(|s|));
    hide SafeSlice;
  }

  /** The order of the two bounds does not matter. */
  lemma BoundsCanBeSwapped(s: Units, start: int, end: int)
    ensures SafeSlice(s, start, At(end)) == SafeSlice(s, end, At(start))
  {
    SameBounds(s, start, At(end), end, At(start));
    hide SafeSlice;
  }

  /** Bounds within the string that are in order and in no pair give that part of it. */
  lemma PlainBoundsGiveThePart(s: Units, start: int, end: int)
    requires 0 <= start <= end <= |s| && !InsidePair(s, start) && !InsidePair(s, end)
    ensures SafeSlice(s, start, At(end)) == s[start..end]
  {
  }
}
