/** Putting replacements into a text, after sorting them where they are not sorted. */
module Splice {

  datatype Replacement = Replacement(start: nat, stop: nat, value: string)

  predicate InBounds(body: string, reps: seq<Replacement>) {
    forall i :: 0 <= i < |reps| ==> reps[i].start <= reps[i].stop <= |body|
  }

  /** The text from last on with the replacements put in; one that starts before the end of
      the one put in before it is passed over. */
  function SpliceFrom(body: string, last: nat, reps: seq<Replacement>): string
    requires last <= |body| && InBounds(body, reps)
    decreases |reps|
  {
    if reps == [] then body[last..]
    else if reps[0].start < last then SpliceFrom(body, last, reps[1..])
    else body[last..reps[0].start] + reps[0].value + SpliceFrom(body, reps[0].stop, reps[1..])
  }

  method ApplyReplacements(body: string, reps: seq<Replacement>) returns (r: string)
    requires InBounds(body, reps)
    ensures r == SpliceFrom(body, 0, reps)
  {
    if reps == [] {
      return body;
    }
    var out, last: nat := "", 0;
    for k := 0 to |reps|
      invariant last <= |body|
      invariant out + SpliceFrom(body, last, reps[k..]) == SpliceFrom(body, 0, reps)
    {
      var rep := reps[k];
      assert reps[k..][0] == rep && reps[k..][1..] == reps[k + 1..];
      if rep.start < last {
        continue;
      }
      ghost var rest := SpliceFrom(body, rep.stop, reps[k + 1..]);
      out := out + body[last..rep.start];
      out := out + rep.value;
      last := rep.stop;
      assert out + rest == SpliceFrom(body, 0, reps);
    }
    r := out + body[last..];
  }

  /** Putting back what was there gives back the text, in whatever order and even if the
      replacements overlap. */
  lemma {:induction false} SpliceOwnText(body: string, last: nat, reps: seq<Replacement>)
    requires last <= |body| && InBounds(body, reps)
    requires forall i :: 0 <= i < |reps| ==> reps[i].value == body[reps[i].start..reps[i].stop]
    ensures SpliceFrom(body, last, reps) == body[last..]
    decreases |reps|
  {
    if reps != [] {
      var rep := reps[0];
      assert rep.value == body[rep.start..rep.stop];
      if rep.start < last {
        SpliceOwnText(body, last, reps[1..]);
      } else {
        SpliceOwnText(body, rep.stop, reps[1..]);
        assert body[last..] == body[last..rep.start] + body[rep.start..rep.stop] + body[rep.stop..];
      }
    }
  }

  /** The replacements follow one another from last on. */
  ghost predicate Disjoint(body: string, last: nat, reps: seq<Replacement>)
    decreases |reps|
  {
    if reps == [] then last <= |body|
    else last <= reps[0].start <= reps[0].stop <= |body| && Disjoint(body, reps[0].stop, reps[1..])
  }

  lemma {:induction false} DisjointInBounds(body: string, last: nat, reps: seq<Replacement>)
    requires Disjoint(body, last, reps)
    ensures last <= |body| && InBounds(body, reps)
    ensures forall i :: 0 <= i < |reps| ==> last <= reps[i].start
    ensures forall i, j :: 0 <= i < j < |reps| ==> reps[i].stop <= reps[j].start
    decreases |reps|
  {
    if reps != [] {
      DisjointInBounds(body, reps[0].stop, reps[1..]);
      assert forall i :: 1 <= i < |reps| ==> reps[i] == reps[1..][i - 1];
    }
  }

  /** The replacements that undo the given ones: each stands where its value went, and
      carries what was there. The place at of the result is the place last of the text. */
  ghost function Inverse(body: string, last: nat, reps: seq<Replacement>, at: nat): seq<Replacement>
    requires Disjoint(body, last, reps)
    decreases |reps|
  {
    if reps == [] then []
    else
      var start, n := at + (reps[0].start - last), |reps[0].value|;
      [Replacement(start, start + n, body[reps[0].start..reps[0].stop])]
        + Inverse(body, reps[0].stop, reps[1..], start + n)
  }

  /** The result can be taken apart by the replacements inv from the place at on. */
  ghost predicate Undoes(out: string, at: nat, inv: seq<Replacement>, original: string) {
    at <= |out| && InBounds(out, inv) && SpliceFrom(out, at, inv) == original
  }

  /** Whatever was put in, taking it out again recovers the text: nothing outside the
      replaced parts is lost or moved. */
  lemma {:induction false} SpliceInverse(body: string, last: nat, reps: seq<Replacement>, before: string)
    requires Disjoint(body, last, reps)
    ensures last <= |body| && InBounds(body, reps)
    ensures Undoes(before + SpliceFrom(body, last, reps), |before|, Inverse(body, last, reps, |before|), body[last..])
    decreases |reps|
  {
    DisjointInBounds(body, last, reps);
    if reps == [] {
      assert (before + body[last..])[|before|..] == body[last..];
    } else {
      var rep := reps[0];
      var gap, rest := body[last..rep.start], SpliceFrom(body, rep.stop, reps[1..]);
      var inv := Inverse(body, rep.stop, reps[1..], |before| + |gap| + |rep.value|);
      assert SpliceFrom(body, last, reps) == gap + rep.value + rest;
      assert Inverse(body, last, reps, |before|)
          == [Replacement(|before| + |gap|, |before| + |gap| + |rep.value|, body[rep.start..rep.stop])] + inv;
      hide Undoes, SpliceFrom, Inverse, InBounds;
      SpliceInverse(body, rep.stop, reps[1..], before + gap + rep.value);
      UndoesOneMore(body, last, rep, before, rest, inv);
    }
  }

  lemma ThreeParts(s: string, a: nat, b: nat, c: nat)
    requires a <= b <= c <= |s|
    ensures s[a..] == s[a..b] + s[b..c] + s[c..]
  {
  }

  lemma Layout(before: string, gap: string, value: string, rest: string)
    ensures var out := before + (gap + value + rest);
            out == before + gap + value + rest && out[|before|..|before| + |gap|] == gap
  {
  }

  lemma UndoesStep(out: string, at: nat, gap: string, n: nat, own: string, inv: seq<Replacement>, rest: string)
    requires at + |gap| + n <= |out| && out[at..at + |gap|] == gap
    requires Undoes(out, at + |gap| + n, inv, rest)
    ensures Undoes(out, at, [Replacement(at + |gap|, at + |gap| + n, own)] + inv, gap + own + rest)
  {
    var all := [Replacement(at + |gap|, at + |gap| + n, own)] + inv;
    assert all[1..] == inv;
  }

  lemma UndoesOneMore(body: string, last: nat, rep: Replacement, before: string, rest: string, inv: seq<Replacement>)
    requires last <= rep.start <= rep.stop <= |body|
    requires var head := before + body[last..rep.start] + rep.value;
             Undoes(head + rest, |head|, inv, body[rep.stop..])
    ensures var at := |before| + (rep.start - last);
            Undoes(before + (body[last..rep.start] + rep.value + rest), |before|,
                   [Replacement(at, at + |rep.value|, body[rep.start..rep.stop])] + inv, body[last..])
  {
    hide Undoes;
    var gap := body[last..rep.start];
    Layout(before, gap, rep.value, rest);
    UndoesStep(before + gap + rep.value + rest, |before|, gap, |rep.value|, body[rep.start..rep.stop], inv,
      body[rep.stop..]);
    ThreeParts(body, last, rep.start, rep.stop);
  }

  // ---------------------------------------------------------------- sorting first

  predicate Sorted(reps: seq<Replacement>) {
    forall i, j :: 0 <= i < j < |reps| ==> reps[i].start <= reps[j].start
  }

  predicate DistinctStarts(reps: seq<Replacement>) {
    forall i, j :: 0 <= i < j < |reps| ==> reps[i].start != reps[j].start
  }

  function InsertSorted(rep: Replacement, reps: seq<Replacement>): seq<Replacement> {
    if reps == [] || rep.start < reps[0].start then [rep] + reps
    else [reps[0]] + InsertSorted(rep, reps[1..])
  }

  /** Sorting by start; the order of equal starts, which the library leaves open, is that of
      the input. */
  function SortReplacements(reps: seq<Replacement>): seq<Replacement> {
    if reps == [] then []
    else InsertSorted(reps[|reps| - 1], SortReplacements(reps[..|reps| - 1]))
  }

  lemma {:induction false} InsertMultiset(rep: Replacement, reps: seq<Replacement>)
    ensures multiset(InsertSorted(rep, reps)) == multiset(reps) + multiset{rep}
  {
    if reps == [] || rep.start < reps[0].start {
      assert multiset([rep] + reps) == multiset([rep]) + multiset(reps);
    } else {
      var rest := InsertSorted(rep, reps[1..]);
      InsertMultiset(rep, reps[1..]);
      assert reps == [reps[0]] + reps[1..];
      assert multiset([reps[0]] + rest) == multiset([reps[0]]) + multiset(rest);
      assert multiset([reps[0]] + reps[1..]) == multiset([reps[0]]) + multiset(reps[1..]);
    }
  }

  /** Inserting keeps a list sorted, and strictly so when the start is new. */
  lemma {:induction false} InsertKeepsSorted(rep: Replacement, reps: seq<Replacement>)
    requires Sorted(reps)
    ensures var r := InsertSorted(rep, reps);
            && |r| == |reps| + 1 && Sorted(r)
               && r[0].start == (if reps != [] && reps[0].start <= rep.start then reps[0].start else rep.start)
            && (DistinctStarts(reps) && (forall i :: 0 <= i < |reps| ==> reps[i].start != rep.start) ==>
                  DistinctStarts(r))
  {
    if reps != [] && rep.start >= reps[0].start {
      var r := InsertSorted(rep, reps[1..]);
      InsertKeepsSorted(rep, reps[1..]);
      SortedCons(reps[0], r);
    }
  }

  lemma SortedCons(x: Replacement, r: seq<Replacement>)
    requires Sorted(r) && r != [] && x.start <= r[0].start
    ensures Sorted([x] + r)
    ensures DistinctStarts(r) && x.start < r[0].start ==> DistinctStarts([x] + r)
  {
    var s := [x] + r;
    forall i, j | 0 <= i < j < |s|
      ensures s[i].start <= s[j].start
      ensures DistinctStarts(r) && x.start < r[0].start ==> s[i].start != s[j].start
    {
      assert s[j] == r[j - 1] && r[0].start <= r[j - 1].start;
    }
  }

  lemma DistinctBeforeLast(init: seq<Replacement>, x: Replacement)
    requires DistinctStarts(init + [x])
    ensures DistinctStarts(init) && forall r :: r in init ==> r.start != x.start
  {
    var all := init + [x];
    assert all[|init|] == x;
    assert forall i :: 0 <= i < |init| ==> init[i] == all[i];
    forall i, j | 0 <= i < j < |init|
      ensures init[i].start != init[j].start
    {
      assert all[i].start != all[j].start;
    }
  }

  lemma {:induction false} SortedByStart(reps: seq<Replacement>)
    ensures Sorted(SortReplacements(reps)) && multiset(SortReplacements(reps)) == multiset(reps)
    ensures DistinctStarts(reps) ==> DistinctStarts(SortReplacements(reps))
  {
    if reps != [] {
      var init, x := reps[..|reps| - 1], reps[|reps| - 1];
      assert reps == init + [x];
      hide DistinctStarts, Sorted, InsertSorted;
      SortedByStart(init);
      InsertMultiset(x, SortReplacements(init));
      InsertKeepsSorted(x, SortReplacements(init));
      if DistinctStarts(reps) {
        DistinctBeforeLast(init, x);
        MultisetMembers(SortReplacements(init), init);
        forall i | 0 <= i < |SortReplacements(init)|
          ensures SortReplacements(init)[i].start != x.start
        {
          assert SortReplacements(init)[i] in init;
        }
      }
    }
  }

  lemma MultisetMembers(a: seq<Replacement>, b: seq<Replacement>)
    requires multiset(a) == multiset(b)
    ensures forall x :: x in a <==> x in b
    ensures |a| == |b|
  {
    assert |a| == |multiset(a)| && |b| == |multiset(b)|;
    forall x
      ensures x in a <==> x in b
    {
      assert x in a <==> x in multiset(a);
      assert x in b <==> x in multiset(b);
    }
  }

  lemma SameHead(a: seq<Replacement>, b: seq<Replacement>)
    requires Sorted(a) && Sorted(b) && DistinctStarts(a) && DistinctStarts(b) && multiset(a) == multiset(b) && a != []
    ensures b != [] && a[0] == b[0]
  {
    MultisetMembers(a, b);
    assert a[0] in b && b[0] in a;
    var i :| 0 <= i < |b| && b[i] == a[0];
    var j :| 0 <= j < |a| && a[j] == b[0];
    if i > 0 {
      assert false;
    }
  }

  lemma TailMultiset(a: seq<Replacement>)
    requires a != []
    ensures multiset(a[1..]) == multiset(a) - multiset{a[0]}
  {
    assert a == [a[0]] + a[1..];
  }

  /** With distinct starts there is only one way to sort. */
  lemma {:induction false} SortUnique(a: seq<Replacement>, b: seq<Replacement>)
    requires Sorted(a) && Sorted(b) && DistinctStarts(a) && DistinctStarts(b) && multiset(a) == multiset(b)
    ensures a == b
  {
    MultisetMembers(a, b);
    if a != [] {
      SameHead(a, b);
      TailMultiset(a);
      TailMultiset(b);
      SortUnique(a[1..], b[1..]);
      assert a == [a[0]] + a[1..] && b == [b[0]] + b[1..];
    }
  }

  method ApplyHTMLReplacements(body: string, reps: seq<Replacement>) returns (r: string)
    requires InBounds(body, reps)
    ensures InBounds(body, SortReplacements(reps))
    ensures r == SpliceFrom(body, 0, SortReplacements(reps))
  {
    SortInBounds(body, reps);
    if reps == [] {
      return body;
    }
    r := ApplyReplacements(body, SortReplacements(reps));
  }

  lemma SortInBounds(body: string, reps: seq<Replacement>)
    requires InBounds(body, reps)
    ensures InBounds(body, SortReplacements(reps))
  {
    var s := SortReplacements(reps);
    SortedByStart(reps);
    MultisetMembers(s, reps);
    forall i | 0 <= i < |s|
      ensures s[i].start <= s[i].stop <= |body|
    {
      assert s[i] in reps;
    }
  }

  /** The order in which replacements with distinct starts were collected does not matter. */
  lemma CollectionOrderIsIrrelevant(body: string, a: seq<Replacement>, b: seq<Replacement>)
    requires InBounds(body, a) && InBounds(body, b) && DistinctStarts(a) && DistinctStarts(b)
             && multiset(a) == multiset(b)
    ensures InBounds(body, SortReplacements(a)) && InBounds(body, SortReplacements(b))
    ensures SpliceFrom(body, 0, SortReplacements(a)) == SpliceFrom(body, 0, SortReplacements(b))
  {
    SortInBounds(body, a);
    SortInBounds(body, b);
    SortedByStart(a);
    SortedByStart(b);
    SortUnique(SortReplacements(a), SortReplacements(b));
  }
}
