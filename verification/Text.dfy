/** String operations of the two standard libraries in use: search, replace, trim, split, join. */
module Text {
  import opened Wrappers

  predicate OccursAt(s: string, sub: string, i: nat) {
    i <= |s| && sub <= s[i..]
  }

  ghost predicate Contains(s: string, sub: string) {
    exists i: nat :: OccursAt(s, sub, i)
  }

  lemma CharAt(s: string, m: string, i: nat, k: nat)
    requires OccursAt(s, m, i) && k < |m|
    ensures i + k < |s| && s[i + k] == m[k] && m[k] in m
  {
    assert s[i..][k] == m[k];
  }

  lemma NotWithoutItsHead(s: string, sub: string)
    requires sub != "" && sub[0] !in s
    ensures !Contains(s, sub)
  {
    if Contains(s, sub) {
      var i: nat :| OccursAt(s, sub, i);
      CharAt(s, sub, i, 0);
      assert false;
    }
  }

  /** The position of the first occurrence of sub in s at or after i. */
  function IndexFrom(s: string, sub: string, i: nat): (r: Option<nat>)
    requires i <= |s|
    ensures r.None? ==> forall j: nat :: j >= i ==> !OccursAt(s, sub, j)
    ensures r.Some? ==> i <= r.value && OccursAt(s, sub, r.value) && r.value + |sub| <= |s|
    ensures r.Some? ==> forall j: nat :: i <= j < r.value ==> !OccursAt(s, sub, j)
    decreases |s| - i
  {
    if OccursAt(s, sub, i) then Some(i) else if i == |s| then None else IndexFrom(s, sub, i + 1)
  }

  /** The position of the first occurrence of sub in s. */
  function Index(s: string, sub: string): (r: Option<nat>)
    ensures r.None? <==> !Contains(s, sub)
    ensures r.Some? ==> OccursAt(s, sub, r.value) && r.value + |sub| <= |s|
    ensures r.Some? ==> forall j: nat :: j < r.value ==> !OccursAt(s, sub, j)
  {
    IndexFrom(s, sub, 0)
  }

  /** Index is determined by the place of the first occurrence. */
  lemma IndexIs(s: string, sub: string, i: nat)
    requires OccursAt(s, sub, i)
    requires forall j: nat :: j < i ==> !OccursAt(s, sub, j)
    ensures Index(s, sub) == Some(i)
  {
  }

  lemma OccursBetween(s: string, before: string, sub: string, after: string)
    requires s == before + (sub + after)
    ensures OccursAt(s, sub, |before|) && |before| + |sub| <= |s| && s[|before| + |sub|..] == after
  {
    assert s[|before|..] == sub + after;
  }

  /** All non-overlapping occurrences of old, from the left, replaced by new. */
  function ReplaceAll(s: string, old_: string, new_: string): string
    requires old_ != ""
  {
    if s == "" then ""
    else if old_ <= s then new_ + ReplaceAll(s[|old_|..], old_, new_)
    else [s[0]] + ReplaceAll(s[1..], old_, new_)
  }

  lemma {:induction false} ReplaceSkips(s: string, old_: string, new_: string, n: nat)
    requires old_ != "" && n <= |s|
    requires forall i: nat :: i < n ==> !OccursAt(s, old_, i)
    ensures ReplaceAll(s, old_, new_) == s[..n] + ReplaceAll(s[n..], old_, new_)
  {
    if n == 0 {
      assert s[0..] == s;
    } else {
      assert !OccursAt(s, old_, 0);
      assert s[0..] == s;
      forall i: nat | i < n - 1
        ensures !OccursAt(s[1..], old_, i)
      {
        assert !OccursAt(s, old_, i + 1);
        assert s[i + 1..] == s[1..][i..];
      }
      ReplaceSkips(s[1..], old_, new_, n - 1);
      assert s[1..][n - 1..] == s[n..];
      assert s[..n] == [s[0]] + s[1..][..n - 1];
    }
  }

  lemma ReplaceAbsent(s: string, old_: string, new_: string)
    requires old_ != "" && !Contains(s, old_)
    ensures ReplaceAll(s, old_, new_) == s
  {
    ReplaceSkips(s, old_, new_, |s|);
    assert s[..|s|] == s && s[|s|..] == "";
  }

  /** What is in front of the first occurrence stays, and the occurrence is replaced. */
  lemma ReplaceFirst(s: string, old_: string, new_: string, p: nat)
    requires old_ != "" && Index(s, old_) == Some(p)
    ensures ReplaceAll(s, old_, new_) == s[..p] + (new_ + ReplaceAll(s[p + |old_|..], old_, new_))
  {
    ReplaceSkips(s, old_, new_, p);
    assert s[p..][|old_|..] == s[p + |old_|..];
  }

  lemma ReplaceBetween(x: string, old_: string, y: string, new_: string)
    requires old_ != "" && Index(x + (old_ + y), old_) == Some(|x|)
    ensures ReplaceAll(x + (old_ + y), old_, new_) == x + (new_ + ReplaceAll(y, old_, new_))
  {
    var s := x + (old_ + y);
    hide ReplaceAll, Index, OccursAt;
    assert |x| + |old_| <= |s| && s[..|x|] == x && s[|x| + |old_|..] == y;
    ReplaceFirst(s, old_, new_, |x|);
  }

  /** White space as Unicode defines it and Go's TrimSpace uses it. */
  predicate IsSpace(c: char) {
    '\t' <= c <= '\r' || c == ' ' || c == '\U{85}' || c == '\U{A0}' || c == '\U{1680}'
    || '\U{2000}' <= c <= '\U{200A}' || c == '\U{2028}' || c == '\U{2029}' || c == '\U{202F}'
    || c == '\U{205F}' || c == '\U{3000}'
  }

  function TrimLeft(s: string): (r: string)
    ensures |r| <= |s| && r == s[|s| - |r|..]
    ensures r != "" ==> !IsSpace(r[0])
    ensures forall i :: 0 <= i < |s| - |r| ==> IsSpace(s[i])
  {
    if s != "" && IsSpace(s[0]) then TrimLeft(s[1..]) else s
  }

  function TrimRight(s: string): (r: string)
    ensures r <= s
    ensures r != "" ==> !IsSpace(r[|r| - 1])
    ensures forall i :: |r| <= i < |s| ==> IsSpace(s[i])
  {
    if s != "" && IsSpace(s[|s| - 1]) then TrimRight(s[..|s| - 1]) else s
  }

  function TrimSpace(s: string): (r: string)
    ensures |r| <= |s|
    ensures r != "" ==> !IsSpace(r[0]) && !IsSpace(r[|r| - 1])
    ensures (s == "" || (!IsSpace(s[0]) && !IsSpace(s[|s| - 1]))) ==> r == s
  {
    var l := TrimLeft(s);
    var r := TrimRight(l);
    assert r != "" ==> r[0] == l[0];
    r
  }

  /** Nothing is left after trimming. */
  predicate IsBlank(s: string) {
    forall i :: 0 <= i < |s| ==> IsSpace(s[i])
  }

  lemma TrimSpaceParts(s: string) returns (a: string, b: string)
    ensures IsBlank(a) && IsBlank(b) && s == a + TrimSpace(s) + b
  {
    hide IsSpace, TrimLeft, TrimRight;
    var l := TrimLeft(s);
    var r := TrimRight(l);
    a := s[..|s| - |l|];
    b := l[|r|..];
    assert IsBlank(a) && IsBlank(b) && TrimSpace(s) == r;
    hide TrimSpace, IsBlank;
    assert s == a + l && l == r + b;
    assert a + r + b == a + (r + b);
  }

  /** What is trimmed is determined by its edges and the white space around it. */
  lemma TrimSpaceIs(a: string, t: string, b: string)
    requires IsBlank(a) && IsBlank(b) && t != "" && !IsSpace(t[0]) && !IsSpace(t[|t| - 1])
    ensures TrimSpace(a + t + b) == t
  {
    var s := a + t + b;
    TrimLeftIs(a, t, b);
    TrimRightIs(t, b);
  }

  lemma InBlank(a: string, rest: string, k: int)
    requires IsBlank(a) && 0 <= k < |a|
    ensures IsSpace((a + rest)[k])
  {
    assert (a + rest)[k] == a[k];
  }

  lemma AfterBlank(t: string, b: string, k: int)
    requires IsBlank(b) && |t| <= k < |t + b|
    ensures IsSpace((t + b)[k])
  {
    assert (t + b)[k] == b[k - |t|];
  }

  lemma TrimLeftIs(a: string, t: string, b: string)
    requires IsBlank(a) && t != "" && !IsSpace(t[0])
    ensures TrimLeft(a + t + b) == t + b
  {
    hide IsSpace;
    var s := a + t + b;
    var k := |s| - |TrimLeft(s)|;
    assert s == a + (t + b) && s[|a|] == t[0] && s[|a|..] == t + b;
    if k < |a| {
      InBlank(a, t + b, k);
      assert false;
    }
  }

  lemma TrimRightIs(t: string, b: string)
    requires IsBlank(b) && t != "" && !IsSpace(t[|t| - 1])
    ensures TrimRight(t + b) == t
  {
    hide IsSpace;
    var s := t + b;
    var n := |TrimRight(s)|;
    assert s[|t| - 1] == t[|t| - 1] && s[..|t|] == t;
    if n > |t| {
      AfterBlank(t, b, n - 1);
      assert false;
    }
  }

  lemma TrimLeavesText(s: string)
    requires TrimSpace(s) != ""
    ensures !IsBlank(s)
  {
    hide IsSpace;
    var a, b := TrimSpaceParts(s);
    assert s[|a|] == TrimSpace(s)[0];
  }

  /** Trimming leaves nothing of white space alone, and nothing else is left without it. */
  lemma TrimSpaceBlank(s: string)
    ensures TrimSpace(s) == "" <==> IsBlank(s)
  {
    var a, b := TrimSpaceParts(s);
    hide TrimSpace, IsSpace;
    if TrimSpace(s) != "" {
      TrimLeavesText(s);
    }
  }

  /** Trimming leaves everything exactly when there is no white space at the ends. */
  lemma TrimSpaceEdges(s: string)
    requires TrimSpace(s) != ""
    ensures TrimSpace(s) == s <==> !IsSpace(s[0]) && !IsSpace(s[|s| - 1])
  {
  }

  /** A string without white space. */
  predicate IsWord(s: string) {
    s != "" && forall i :: 0 <= i < |s| ==> !IsSpace(s[i])
  }

  lemma OccursHead(s: string, sub: string, i: nat)
    requires OccursAt(s, sub, i) && sub != ""
    ensures i < |s| && s[i] == sub[0]
  {
    assert s[i..][0] == s[i];
  }

  lemma ReplaceAfterBlank(a: string, t: string, old_: string, new_: string)
    requires IsWord(old_) && IsBlank(a)
    ensures ReplaceAll(a + t, old_, new_) == a + ReplaceAll(t, old_, new_)
  {
    hide IsSpace, ReplaceAll;
    var s := a + t;
    forall i: nat | i < |a|
      ensures !OccursAt(s, old_, i)
    {
      assert s[i] == a[i];
      if OccursAt(s, old_, i) {
        OccursHead(s, old_, i);
        assert false;
      }
    }
    ReplaceSkips(s, old_, new_, |a|);
    assert s[..|a|] == a && s[|a|..] == t;
  }

  lemma PrefixReaches(t: string, b: string, word: string)
    requires word <= t + b && |word| > |t|
    ensures b != "" && word[|t|] == b[0] && (t != "" ==> word[|t| - 1] == t[|t| - 1])
  {
    assert word[|t|] == (t + b)[|t|];
    assert t != "" ==> word[|t| - 1] == (t + b)[|t| - 1];
  }

  /** No occurrence of word runs across the place between a and b. */
  predicate IsCut(a: string, b: string, word: string) {
    a == "" || b == "" || a[|a| - 1] !in word || b[0] !in word
  }

  lemma PrefixWithin(a: string, b: string, word: string)
    requires IsCut(a, b, word) && a != "" && word <= a + b
    ensures word <= a
  {
    if |word| > |a| {
      PrefixReaches(a, b, word);
      assert false;
    }
    assert word == (a + b)[..|word|] == a[..|word|];
  }

  /** On the two sides of a cut the replacing is done apart. */
  lemma {:induction false} ReplaceAtCut(a: string, b: string, old_: string, new_: string)
    requires old_ != "" && IsCut(a, b, old_)
    ensures ReplaceAll(a + b, old_, new_) == ReplaceAll(a, old_, new_) + ReplaceAll(b, old_, new_)
    decreases |a|
  {
    if a == "" {
      assert a + b == b;
    } else if old_ <= a {
      assert (a + b)[|old_|..] == a[|old_|..] + b;
      ReplaceAtCut(a[|old_|..], b, old_, new_);
    } else {
      if old_ <= a + b {
        PrefixWithin(a, b, old_);
        assert false;
      }
      assert (a + b)[1..] == a[1..] + b;
      ReplaceAtCut(a[1..], b, old_, new_);
    }
  }

  lemma SpaceIsCut(a: string, b: string, word: string)
    requires IsWord(word) && (b == "" || IsSpace(b[0]))
    ensures IsCut(a, b, word)
  {
    hide IsSpace;
  }

  lemma ReplaceBeforeBlank(t: string, b: string, old_: string, new_: string)
    requires IsWord(old_) && IsBlank(b)
    ensures ReplaceAll(t + b, old_, new_) == ReplaceAll(t, old_, new_) + b
  {
    SpaceIsCut(t, b, old_);
    ReplaceAtCut(t, b, old_, new_);
    ReplaceAfterBlank(b, "", old_, new_);
    assert b + "" == b;
  }

  lemma ReplaceKeepsEnds(a: string, t: string, b: string, old_: string, new_: string)
    requires IsWord(old_) && IsBlank(a) && IsBlank(b)
    ensures ReplaceAll(a + t + b, old_, new_) == a + ReplaceAll(t, old_, new_) + b
  {
    hide IsWord, IsBlank, ReplaceAll;
    assert a + t + b == a + (t + b);
    ReplaceAfterBlank(a, t + b, old_, new_);
    ReplaceBeforeBlank(t, b, old_, new_);
  }

  lemma ContainsBetweenBlanks(a: string, t: string, b: string, sub: string)
    requires IsWord(sub) && IsBlank(a) && IsBlank(b)
    ensures Contains(a + t + b, sub) <==> Contains(t, sub)
  {
    hide IsSpace;
    var s := a + t + b;
    if Contains(s, sub) {
      var i: nat :| OccursAt(s, sub, i);
      OccursHead(s, sub, i);
      assert |a| <= i < |a| + |t|;
      assert s[i..] == t[i - |a|..] + b;
      assert b == "" || IsSpace(b[0]);
      SpaceIsCut(t[i - |a|..], b, sub);
      PrefixWithin(t[i - |a|..], b, sub);
      assert OccursAt(t, sub, i - |a|);
    }
    if Contains(t, sub) {
      var i: nat :| OccursAt(t, sub, i);
      assert s[|a| + i..] == t[i..] + b;
      assert OccursAt(s, sub, |a| + i);
    }
  }

  function Join(lines: seq<string>): string {
    if lines == [] then "" else if |lines| == 1 then lines[0] else lines[0] + "\n" + Join(lines[1..])
  }

  /** Where the first line of s ends. */
  function LineEnd(s: string): (n: nat)
    ensures n <= |s| && '\n' !in s[..n] && (n < |s| ==> s[n] == '\n')
  {
    if s == "" || s[0] == '\n' then 0 else 1 + LineEnd(s[1..])
  }

  /** The lines of s; a final newline makes a last, empty line. */
  function Split(s: string): (lines: seq<string>)
    ensures lines != [] && forall i :: 0 <= i < |lines| ==> '\n' !in lines[i]
    decreases |s|
  {
    var n := LineEnd(s);
    if n == |s| then [s] else [s[..n]] + Split(s[n + 1..])
  }

  lemma {:induction false} JoinSplit(s: string)
    ensures Join(Split(s)) == s
    decreases |s|
  {
    hide LineEnd;
    var n := LineEnd(s);
    if n < |s| {
      JoinSplit(s[n + 1..]);
      assert Split(s)[1..] == Split(s[n + 1..]);
      assert s == s[..n] + "\n" + s[n + 1..];
    }
  }

  lemma {:induction false} LineEndIs(a: string, b: string)
    requires '\n' !in a
    ensures LineEnd(a + "\n" + b) == |a|
  {
    if a != "" {
      assert (a + "\n" + b)[1..] == a[1..] + "\n" + b;
      LineEndIs(a[1..], b);
    }
  }

  lemma SplitCons(a: string, b: string)
    requires '\n' !in a
    ensures Split(a + "\n" + b) == [a] + Split(b)
  {
    LineEndIs(a, b);
    assert (a + "\n" + b)[..|a|] == a;
    assert (a + "\n" + b)[|a| + 1..] == b;
  }

  lemma AssocLines(a: string, b: string, c: string)
    ensures a + "\n" + b + "\n" + c == a + "\n" + (b + "\n" + c)
  {
  }

  /** The text a, its first line taken apart. */
  lemma FirstLine(a: string) returns (head: string, tail: string)
    requires '\n' in a
    ensures a == head + "\n" + tail && '\n' !in head && |tail| < |a|
  {
    var n := LineEnd(a);
    if n == |a| {
      assert false;
    }
    head, tail := a[..n], a[n + 1..];
  }

  lemma {:induction false} SplitAppend(a: string, b: string)
    ensures Split(a + "\n" + b) == Split(a) + Split(b)
    decreases |a|
  {
    if '\n' !in a {
      SplitCons(a, b);
    } else {
      var head, tail := FirstLine(a);
      SplitAppend(tail, b);
      SplitAppendLine(head, tail, b, Split(tail), Split(b));
    }
  }

  lemma SplitAppendLine(head: string, tail: string, b: string, ts: seq<string>, bs: seq<string>)
    requires '\n' !in head && Split(tail) == ts && Split(tail + "\n" + b) == ts + bs
    ensures Split(head + "\n" + tail + "\n" + b) == Split(head + "\n" + tail) + bs
  {
    hide Split;
    SplitCons(head, tail);
    var rest := tail + "\n" + b;
    assert Split(head + "\n" + rest) == [head] + (ts + bs) by {
      SplitCons(head, rest);
    }
    AssocLines(head, tail, b);
    assert [head] + ts + bs == [head] + (ts + bs);
  }

  lemma {:induction false} JoinAppend(a: seq<string>, b: seq<string>)
    requires a != [] && b != []
    ensures Join(a + b) == Join(a) + "\n" + Join(b)
  {
    if |a| == 1 {
      assert (a + b)[1..] == b;
    } else {
      JoinAppend(a[1..], b);
      assert (a + b)[1..] == a[1..] + b;
      assert Join(a + b) == a[0] + "\n" + (Join(a[1..]) + "\n" + Join(b));
    }
  }
}
