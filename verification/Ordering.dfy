/** The lexicographic order of strings, and sorted lists without duplicates. */
module Ordering {

  predicate Less(a: string, b: string) {
    b != "" && (a == "" || a[0] < b[0] || (a[0] == b[0] && Less(a[1..], b[1..])))
  }

  /** The two strings agree up to place k, where the first one ends or has the lesser character. */
  predicate DiffersAt(a: string, b: string, k: nat) {
    k <= |a| && k < |b| && a[..k] == b[..k] && (k == |a| || a[k] < b[k])
  }

  /** The order is that of the first difference. */
  lemma {:induction false} LessExactly(a: string, b: string)
    ensures Less(a, b) <==> exists k: nat :: DiffersAt(a, b, k)
  {
    if a == "" || b == "" || a[0] != b[0] {
      assert DiffersAt(a, b, 0) <==> b != "" && (a == "" || a[0] < b[0]);
    } else {
      LessExactly(a[1..], b[1..]);
      if k: nat :| DiffersAt(a[1..], b[1..], k) {
        DiffersFurther(a, b, k);
      } else if k: nat :| DiffersAt(a, b, k) {
        DiffersFurther(a, b, k - 1);
      }
    }
  }

  lemma DiffersFurther(a: string, b: string, k: nat)
    requires a != "" && b != "" && a[0] == b[0]
    ensures DiffersAt(a, b, k + 1) <==> DiffersAt(a[1..], b[1..], k)
  {
    if k + 1 <= |a| && k + 1 <= |b| {
      assert a[..k + 1] == [a[0]] + a[1..][..k] && b[..k + 1] == [b[0]] + b[1..][..k];
      assert a[1..][..k] == a[..k + 1][1..] && b[1..][..k] == b[..k + 1][1..];
    }
  }

  lemma {:induction false} LessTransitive(a: string, b: string, c: string)
    requires Less(a, b) && Less(b, c)
    ensures Less(a, c)
  {
    if a != "" && a[0] == b[0] && b[0] == c[0] {
      LessTransitive(a[1..], b[1..], c[1..]);
    }
  }

  lemma {:induction false} LessIrreflexive(a: string)
    ensures !Less(a, a)
  {
    if a != "" {
      LessIrreflexive(a[1..]);
    }
  }

  lemma {:induction false} LessTotal(a: string, b: string)
    ensures Less(a, b) || a == b || Less(b, a)
  {
    if a != "" && b != "" && a[0] == b[0] {
      LessTotal(a[1..], b[1..]);
      assert a == [a[0]] + a[1..] && b == [b[0]] + b[1..];
    }
  }

  predicate Sorted(s: seq<string>) {
    forall i, j :: 0 <= i < j < |s| ==> Less(s[i], s[j])
  }

  function Members(s: seq<string>): set<string> {
    set x | x in s
  }

  /** The sorted list with x in it. */
  function Insert(x: string, s: seq<string>): seq<string> {
    if s == [] || Less(x, s[0]) then [x] + s
    else if x == s[0] then s
    else [s[0]] + Insert(x, s[1..])
  }

  lemma {:induction false} InsertMembers(x: string, s: seq<string>)
    ensures forall y :: y in Insert(x, s) <==> y == x || y in s
  {
    if s != [] && !Less(x, s[0]) && x != s[0] {
      InsertMembers(x, s[1..]);
      assert s == [s[0]] + s[1..];
    }
  }

  lemma SortedCons(x: string, s: seq<string>)
    requires Sorted(s) && forall y :: y in s ==> Less(x, y)
    ensures Sorted([x] + s)
  {
  }

  lemma BelowAll(x: string, s: seq<string>)
    requires Sorted(s) && s != [] && Less(x, s[0])
    ensures forall y :: y in s ==> Less(x, y)
  {
    forall y | y in s
      ensures Less(x, y)
    {
      var j :| 0 <= j < |s| && s[j] == y;
      if j > 0 {
        LessTransitive(x, s[0], y);
      }
    }
  }

  lemma {:induction false} InsertSorted(x: string, s: seq<string>)
    requires Sorted(s)
    ensures Sorted(Insert(x, s))
  {
    if s == [] || Less(x, s[0]) {
      if s != [] {
        BelowAll(x, s);
      }
      SortedCons(x, s);
    } else if x != s[0] {
      InsertSorted(x, s[1..]);
      InsertMembers(x, s[1..]);
      LessTotal(x, s[0]);
      assert forall y :: y in s[1..] ==> Less(s[0], y);
      SortedCons(s[0], Insert(x, s[1..]));
    }
  }

  /** The values sorted, each once. */
  function SortUnique(values: seq<string>): seq<string> {
    if values == [] then [] else Insert(values[0], SortUnique(values[1..]))
  }

  lemma {:induction false} SortUniqueIsSorted(values: seq<string>)
    ensures Sorted(SortUnique(values)) && forall y :: y in SortUnique(values) <==> y in values
  {
    if values != [] {
      SortUniqueIsSorted(values[1..]);
      InsertSorted(values[0], SortUnique(values[1..]));
      InsertMembers(values[0], SortUnique(values[1..]));
      assert values == [values[0]] + values[1..];
    }
  }

  lemma SameLeast(a: seq<string>, b: seq<string>)
    requires Sorted(a) && Sorted(b) && a != [] && forall y :: y in a <==> y in b
    ensures b != [] && a[0] == b[0]
  {
    assert a[0] in b && b[0] in a;
    if a[0] != b[0] {
      var i :| 0 <= i < |b| && b[i] == a[0];
      var j :| 0 <= j < |a| && a[j] == b[0];
      LessTransitive(a[0], b[0], a[0]);
      LessIrreflexive(a[0]);
      assert false;
    }
  }

  lemma TailMembers(a: seq<string>)
    requires Sorted(a) && a != []
    ensures Sorted(a[1..]) && forall y :: y in a[1..] <==> y in a && y != a[0]
  {
    assert a == [a[0]] + a[1..];
    LessIrreflexive(a[0]);
    assert forall j :: 1 <= j < |a| ==> Less(a[0], a[j]);
  }

  lemma HasMember(b: seq<string>)
    requires b != []
    ensures exists y :: y in b
  {
    assert b[0] in b;
  }

  /** Two sorted lists with the same members are equal. */
  lemma {:induction false} SortedUnique(a: seq<string>, b: seq<string>)
    requires Sorted(a) && Sorted(b) && forall y :: y in a <==> y in b
    ensures a == b
  {
    if a == [] {
      if b != [] {
        HasMember(b);
        assert false;
      }
    } else {
      SameLeast(a, b);
      TailMembers(a);
      TailMembers(b);
      SortedUnique(a[1..], b[1..]);
      assert a == [a[0]] + a[1..] && b == [b[0]] + b[1..];
    }
  }

  /** The members of a set in order. */
  ghost function InOrder(xs: set<string>): (s: seq<string>)
    ensures Sorted(s) && forall y :: y in s <==> y in xs
  {
    if xs == {} then []
    else
      var x :| x in xs;
      var rest := InOrder(xs - {x});
      InsertSorted(x, rest);
      InsertMembers(x, rest);
      Insert(x, rest)
  }
}
