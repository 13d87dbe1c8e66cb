/** Texts as sequences of characters and of tokens. A token is written as its name between
    two fixed strings. */
module TokenText {

  datatype Item = Chr(c: char) | Tok(name: string)

  type Doc = seq<Item>

  /** What is written before and after the name of a token. */
  datatype Brackets = Brackets(open: string, close: string)

  function Show(b: Brackets, item: Item): string {
    if item.Chr? then [item.c] else b.open + item.name + b.close
  }

  function Render(b: Brackets, doc: Doc): string {
    if doc == [] then "" else Show(b, doc[0]) + Render(b, doc[1..])
  }

  lemma {:induction false} RenderAppend(b: Brackets, x: Doc, y: Doc)
    ensures Render(b, x + y) == Render(b, x) + Render(b, y)
  {
    hide Show;
    if x == [] {
      assert x + y == y;
    } else {
      assert (x + y)[1..] == x[1..] + y;
      RenderAppend(b, x[1..], y);
      assert Render(b, x + y) == Show(b, x[0]) + (Render(b, x[1..]) + Render(b, y));
    }
  }

  lemma RenderCut(b: Brackets, doc: Doc, a: nat)
    requires a <= |doc|
    ensures Render(b, doc) == Render(b, doc[..a]) + Render(b, doc[a..])
  {
    hide Render;
    assert doc == doc[..a] + doc[a..];
    RenderAppend(b, doc[..a], doc[a..]);
  }

  function Chars(s: string): (doc: Doc)
    ensures |doc| == |s| && forall i :: 0 <= i < |s| ==> doc[i] == Chr(s[i])
  {
    seq(|s|, i requires 0 <= i < |s| => Chr(s[i]))
  }

  lemma {:induction false} RenderChars(b: Brackets, s: string)
    ensures Render(b, Chars(s)) == s
  {
    if s != "" {
      assert Chars(s)[1..] == Chars(s[1..]);
      RenderChars(b, s[1..]);
    }
  }

  // ---------------------------------------------------------------- texts without a run of characters

  predicate RunAt(doc: Doc, run: string, i: nat)
    requires i + |run| <= |doc|
  {
    doc[i..i + |run|] == Chars(run)
  }

  /** The characters of run nowhere stand in a row in the text. */
  ghost predicate Lacks(doc: Doc, run: string) {
    forall i: nat :: i + |run| <= |doc| ==> !RunAt(doc, run, i)
  }

  lemma RunOfChars(doc: Doc, run: string)
    requires |run| <= |doc| && forall k :: 0 <= k < |run| ==> doc[k] == Chr(run[k])
    ensures RunAt(doc, run, 0)
  {
  }

  lemma SlicePart<T>(s: seq<T>, a: nat, b: nat, i: nat, j: nat)
    requires a <= b <= |s| && i <= j <= b - a
    ensures s[a..b][i..j] == s[a + i..a + j]
  {
    forall k | 0 <= k < j - i
      ensures s[a..b][i..j][k] == s[a + i..a + j][k]
    {
      assert s[a..b][i..j][k] == s[a..b][i + k];
    }
  }

  lemma LacksPart(doc: Doc, run: string, a: nat, b: nat)
    requires a <= b <= |doc| && Lacks(doc, run)
    ensures Lacks(doc[a..b], run)
  {
    forall i: nat | i + |run| <= |doc[a..b]|
      ensures !RunAt(doc[a..b], run, i)
    {
      assert !RunAt(doc, run, a + i);
      SlicePart(doc, a, b, i, i + |run|);
    }
  }

  lemma LacksTail(doc: Doc, run: string)
    requires Lacks(doc, run) && doc != []
    ensures Lacks(doc[1..], run)
  {
    LacksPart(doc, run, 1, |doc|);
    assert doc[1..|doc|] == doc[1..];
  }

  lemma RunBegins(doc: Doc, run: string, longer: string, i: nat)
    requires run <= longer && i + |longer| <= |doc| && RunAt(doc, longer, i)
    ensures RunAt(doc, run, i)
  {
    assert doc[i..i + |longer|][..|run|] == doc[i..i + |run|];
  }

  /** A text that lacks the beginning of a run lacks the run. */
  lemma LacksLonger(doc: Doc, run: string, longer: string)
    requires Lacks(doc, run) && run <= longer
    ensures Lacks(doc, longer)
  {
    forall i: nat | i + |longer| <= |doc|
      ensures !RunAt(doc, longer, i)
    {
      if RunAt(doc, longer, i) {
        RunBegins(doc, run, longer, i);
        assert false;
      }
    }
  }
}
