/** Finding the translatable segments of a parsed Markdown body. The parser's tree is
    arbitrary; its text nodes carry their place in the body. */
module Segments {
  import opened Wrappers
  import opened Text
  import opened Splice

  /** Code and raw HTML is skipped; paragraphs, headings and list items are translatable
      blocks; everything else is neither. */
  datatype Kind = SkippedNode | Block | Plain

  datatype Node = TextNode(start: nat, stop: nat) | Element(kind: Kind, children: seq<Node>)

  /** A node is identified by the child positions that lead to it from the root. */
  type Path = seq<nat>

  // ---------------------------------------------------------------- what ought to be found

  /** A non-blank text node, and the nearest translatable block around it. */
  datatype Piece = Piece(start: nat, stop: nat, block: Path)

  /** The text nodes to be translated below a node, in document order. */
  function Pieces(source: string, n: Node, path: Path, block: Option<Path>): seq<Piece>
    decreases n, 1
  {
    match n
    case TextNode(start, stop) =>
      if block.Some? && start <= stop <= |source| && !IsBlank(source[start..stop])
      then [Piece(start, stop, block.value)] else []
    case Element(SkippedNode, _) => []
    case Element(kind, children) =>
      PiecesBelow(source, children, path, 0, if kind.Block? then Some(path) else block)
  }

  function PiecesBelow(source: string, children: seq<Node>, path: Path, i: nat, block: Option<Path>): seq<Piece>
    decreases children, 0
  {
    if children == [] then []
    else Pieces(source, children[0], path + [i], block) + PiecesBelow(source, children[1..], path, i + 1, block)
  }

  predicate InSource(source: string, n: Node)
    decreases n, 1
  {
    match n
    case TextNode(start, stop) => start <= stop <= |source|
    case Element(_, children) => AllInSource(source, children)
  }

  predicate AllInSource(source: string, children: seq<Node>)
    decreases children, 0
  {
    children == [] || (InSource(source, children[0]) && AllInSource(source, children[1..]))
  }

  /** The pieces follow one another between two places of the body. */
  predicate Ordered(ps: seq<Piece>, from: nat, to: nat) {
    if ps == [] then from <= to
    else from <= ps[0].start <= ps[0].stop <= to && Ordered(ps[1..], ps[0].stop, to)
  }

  function End(ps: seq<Piece>, from: nat): nat {
    if ps == [] then from else ps[|ps| - 1].stop
  }

  lemma {:induction false} OrderedAppend(a: seq<Piece>, b: seq<Piece>, from: nat, to: nat)
    ensures Ordered(a + b, from, to) <==> Ordered(a, from, to) && Ordered(b, End(a, from), to)
    decreases |a|
  {
    if a == [] {
      assert a + b == b;
    } else {
      assert (a + b)[1..] == a[1..] + b;
      OrderedAppend(a[1..], b, a[0].stop, to);
    }
  }

  // ---------------------------------------------------------------- the walk

  datatype Seg = Seg(start: nat, stop: nat)

  datatype Acc = Acc(segments: seq<Seg>, lastBlock: Option<Path>)

  function Reach(acc: Acc): nat {
    if acc.segments == [] then 0 else acc.segments[|acc.segments| - 1].stop
  }

  /** One piece more: it extends the last segment when it is in the same block and only
      white space lies between, and otherwise begins a segment. */
  function Add(source: string, acc: Acc, p: Piece): Acc
    requires Reach(acc) <= p.start <= |source|
  {
    var n := |acc.segments|;
    if n > 0 && acc.lastBlock == Some(p.block) && IsBlank(source[acc.segments[n - 1].stop..p.start])
    then acc.(segments := acc.segments[n - 1 := Seg(acc.segments[n - 1].start, p.stop)])
    else Acc(acc.segments + [Seg(p.start, p.stop)], Some(p.block))
  }

  function AddAll(source: string, acc: Acc, ps: seq<Piece>): (r: Acc)
    requires Ordered(ps, Reach(acc), |source|)
    ensures Reach(r) == End(ps, Reach(acc))
    decreases |ps|
  {
    if ps == [] then acc else AddAll(source, Add(source, acc, ps[0]), ps[1..])
  }

  lemma {:induction false} AddAllAppend(source: string, acc: Acc, a: seq<Piece>, b: seq<Piece>)
    requires Ordered(a + b, Reach(acc), |source|)
    ensures Ordered(a, Reach(acc), |source|) && Ordered(b, Reach(AddAll(source, acc, a)), |source|)
    ensures AddAll(source, acc, a + b) == AddAll(source, AddAll(source, acc, a), b)
    decreases |a|
  {
    OrderedAppend(a, b, Reach(acc), |source|);
    if a == [] {
      assert a + b == b;
    } else {
      assert (a + b)[1..] == a[1..] + b;
      AddAllAppend(source, Add(source, acc, a[0]), a[1..], b);
    }
  }

  /** The nearest ancestor that is a translatable block; ancestor d of the node at a path
      has the first d positions of the path and the kind kinds[d]. */
  function NearestBlock(path: Path, kinds: seq<Kind>): Option<Path>
    requires |kinds| <= |path|
  {
    if kinds == [] then None
    else if kinds[|kinds| - 1].Block? then Some(path[..|kinds| - 1])
    else NearestBlock(path, kinds[..|kinds| - 1])
  }

  lemma {:induction false} NearestBlockBelow(path: Path, i: nat, kinds: seq<Kind>)
    requires |kinds| <= |path|
    ensures NearestBlock(path + [i], kinds) == NearestBlock(path, kinds)
  {
    if kinds != [] {
      assert (path + [i])[..|kinds| - 1] == path[..|kinds| - 1];
      NearestBlockBelow(path, i, kinds[..|kinds| - 1]);
    }
  }

  lemma NearestBlockOfChild(path: Path, i: nat, kinds: seq<Kind>, kind: Kind)
    requires |kinds| == |path|
    ensures NearestBlock(path + [i], kinds + [kind]) == if kind.Block? then Some(path) else NearestBlock(path, kinds)
  {
    assert (kinds + [kind])[..|kinds|] == kinds;
    assert (path + [i])[..|path|] == path;
    NearestBlockBelow(path, i, kinds);
  }

  class Extractor {
    const source: string
    var skipDepth: int
    var lastBlock: Option<Path>
    var segments: seq<Seg>

    constructor (source: string)
      ensures this.source == source && skipDepth == 0 && State() == Acc([], None)
    {
      this.source := source;
      skipDepth, lastBlock, segments := 0, None, [];
    }

    ghost function State(): Acc
      reads this
    {
      Acc(segments, lastBlock)
    }

    method BlockParent(path: Path, kinds: seq<Kind>) returns (block: Option<Path>)
      requires |kinds| == |path|
      ensures block == NearestBlock(path, kinds)
    {
      var d: nat := |kinds|;
      assert kinds[..d] == kinds;
      while d > 0
        invariant d <= |kinds|
        invariant NearestBlock(path, kinds[..d]) == NearestBlock(path, kinds)
      {
        assert kinds[..d][..d - 1] == kinds[..d - 1];
        d := d - 1;
        if kinds[d].Block? {
          return Some(path[..d]);
        }
      }
      return None;
    }

    /** What the walk does on entering a text node. */
    method VisitText(n: Node, path: Path, kinds: seq<Kind>)
      requires n.TextNode? && n.start <= n.stop <= |source| && |kinds| == |path| && skipDepth >= 0
      requires skipDepth == 0 ==> Ordered(Pieces(source, n, path, NearestBlock(path, kinds)), Reach(State()), |source|)
      modifies this
      ensures skipDepth == old(skipDepth)
      ensures State() == if skipDepth > 0 then old(State())
                         else AddAll(source, old(State()), Pieces(source, n, path, NearestBlock(path, kinds)))
    {
      if skipDepth > 0 {
        return;
      }
      var block := BlockParent(path, kinds);
      if block.None? {
        return;
      }
      var textValue := source[n.start..n.stop];
      if IsBlank(textValue) {
        return;
      }
      assert Pieces(source, n, path, NearestBlock(path, kinds)) == [Piece(n.start, n.stop, block.value)];
      if |segments| > 0 && lastBlock == block {
        var gap := source[segments[|segments| - 1].stop..n.start];
        if IsBlank(gap) {
          segments := segments[|segments| - 1 := Seg(segments[|segments| - 1].start, n.stop)];
          return;
        }
      }
      segments := segments + [Seg(n.start, n.stop)];
      lastBlock := block;
    }

    /** The walk over a node and everything below it. */
    method Walk(n: Node, path: Path, kinds: seq<Kind>)
      requires InSource(source, n) && |kinds| == |path| && skipDepth >= 0
      requires skipDepth == 0 ==> Ordered(Pieces(source, n, path, NearestBlock(path, kinds)), Reach(State()), |source|)
      modifies this
      ensures skipDepth == old(skipDepth)
      ensures State() == if skipDepth > 0 then old(State())
                         else AddAll(source, old(State()), Pieces(source, n, path, NearestBlock(path, kinds)))
      decreases n, 1
    {
      match n
      case TextNode(_, _) =>
        VisitText(n, path, kinds);
      case Element(kind, children) =>
        if kind.SkippedNode? {
          skipDepth := skipDepth + 1;
          WalkChildren(children, path, 0, kinds + [kind]);
          skipDepth := skipDepth - 1;
        } else {
          NearestBlockOfChild(path, 0, kinds, kind);
          WalkChildren(children, path, 0, kinds + [kind]);
        }
    }

    method WalkChildren(children: seq<Node>, path: Path, i: nat, kinds: seq<Kind>)
      requires AllInSource(source, children) && |kinds| == |path| + 1 && skipDepth >= 0
      requires skipDepth == 0 ==>
                 Ordered(PiecesBelow(source, children, path, i, NearestBlock(path + [i], kinds)), Reach(State()),
                   |source|)
      modifies this
      ensures skipDepth == old(skipDepth)
      ensures State() == if skipDepth > 0 then old(State())
                         else AddAll(source, old(State()),
                                     PiecesBelow(source, children, path, i, NearestBlock(path + [i], kinds)))
      decreases children, 0
    {
      if children != [] {
        assert |kinds| >= 1 && kinds == kinds[..|kinds| - 1] + [kinds[|kinds| - 1]];
        NearestBlockOfChild(path, i, kinds[..|kinds| - 1], kinds[|kinds| - 1]);
        NearestBlockOfChild(path, i + 1, kinds[..|kinds| - 1], kinds[|kinds| - 1]);
        ghost var block := NearestBlock(path + [i], kinds);
        if skipDepth == 0 {
          AddAllAppend(source, State(), Pieces(source, children[0], path + [i], block),
            PiecesBelow(source, children[1..], path, i + 1, block));
        }
        Walk(children[0], path + [i], kinds);
        WalkChildren(children[1..], path, i + 1, kinds);
      }
    }
  }

  // ---------------------------------------------------------------- what the segments are

  /** Two neighbouring pieces belong to one segment. */
  predicate Joins(source: string, a: Piece, b: Piece) {
    a.block == b.block && a.stop <= b.start <= |source| && IsBlank(source[a.stop..b.start])
  }

  function Flatten(groups: seq<seq<Piece>>): seq<Piece> {
    if groups == [] then [] else groups[0] + Flatten(groups[1..])
  }

  function Last<T>(s: seq<T>): T
    requires s != []
  {
    s[|s| - 1]
  }

  /** The segments are the maximal runs of joining pieces, each from the start of its first
      piece to the stop of its last one. */
  ghost predicate IsGrouping(source: string, ps: seq<Piece>, groups: seq<seq<Piece>>, segs: seq<Seg>) {
    && Flatten(groups) == ps
    && |groups| == |segs|
    && (forall i :: 0 <= i < |groups| ==> groups[i] != [] && segs[i] == Seg(groups[i][0].start, Last(groups[i]).stop))
    && (forall i, k :: 0 <= i < |groups| && 0 <= k < |groups[i]| - 1 ==> Joins(source, groups[i][k], groups[i][k + 1]))
    && (forall i :: 0 <= i < |groups| - 1 ==> Apart(source, groups, i))
  }

  /** Group i ends in a piece that does not join the next group. */
  predicate Apart(source: string, groups: seq<seq<Piece>>, i: nat) {
    i + 1 < |groups| && groups[i] != [] && groups[i + 1] != [] && !Joins(source, Last(groups[i]), groups[i + 1][0])
  }

  lemma {:induction false} FlattenSnoc(groups: seq<seq<Piece>>, g: seq<Piece>)
    ensures Flatten(groups + [g]) == Flatten(groups) + g
  {
    if groups == [] {
      assert groups + [g] == [g];
      assert Flatten([g]) == g + Flatten([]);
    } else {
      assert (groups + [g])[1..] == groups[1..] + [g];
      FlattenSnoc(groups[1..], g);
    }
  }

  /** The state after some pieces: the segments group them, and the last block is theirs. */
  ghost predicate Groups(source: string, acc: Acc, ps: seq<Piece>, groups: seq<seq<Piece>>) {
    && IsGrouping(source, ps, groups, acc.segments)
    && (groups != [] ==> groups[|groups| - 1] != [] && acc.lastBlock == Some(Last(Last(groups)).block))
  }

  lemma FlattenExtended(groups: seq<seq<Piece>>, p: Piece)
    requires groups != []
    ensures Flatten(groups[|groups| - 1 := Last(groups) + [p]]) == Flatten(groups) + [p]
  {
    var init, g := groups[..|groups| - 1], Last(groups);
    assert groups == init + [g];
    assert groups[|groups| - 1 := g + [p]] == init + [g + [p]];
    FlattenSnoc(init, g);
    FlattenSnoc(init, g + [p]);
  }

  lemma ExtendLastGroup(source: string, ps: seq<Piece>, groups: seq<seq<Piece>>, segs: seq<Seg>, p: Piece)
    requires IsGrouping(source, ps, groups, segs) && groups != [] && Last(groups) != []
             && Joins(source, Last(Last(groups)), p)
    ensures IsGrouping(source, ps + [p], groups[|groups| - 1 := Last(groups) + [p]],
                       segs[|segs| - 1 := Seg(Last(segs).start, p.stop)])
  {
    var n, g := |groups|, Last(groups);
    var groups' := groups[n - 1 := g + [p]];
    FlattenExtended(groups, p);
    forall i | 0 <= i < n - 1
      ensures Apart(source, groups', i)
    {
      assert Apart(source, groups, i);
    }
    forall i, k | 0 <= i < n && 0 <= k < |groups'[i]| - 1
      ensures Joins(source, groups'[i][k], groups'[i][k + 1])
    {
      if i == n - 1 && k == |g| - 1 {
        assert groups'[i][k] == Last(g) && groups'[i][k + 1] == p;
      } else {
        assert Joins(source, groups[i][k], groups[i][k + 1]);
      }
    }
  }

  lemma BeginGroup(source: string, ps: seq<Piece>, groups: seq<seq<Piece>>, segs: seq<Seg>, p: Piece)
    requires IsGrouping(source, ps, groups, segs)
    requires groups != [] ==> Last(groups) != [] && !Joins(source, Last(Last(groups)), p)
    ensures IsGrouping(source, ps + [p], groups + [[p]], segs + [Seg(p.start, p.stop)])
  {
    FlattenSnoc(groups, [p]);
    forall i | 0 <= i < |groups|
      ensures Apart(source, groups + [[p]], i)
    {
      if i + 1 < |groups| {
        assert Apart(source, groups, i);
      }
    }
  }

  lemma AddGroups(source: string, acc: Acc, ps: seq<Piece>, groups: seq<seq<Piece>>, p: Piece)
          returns (groups': seq<seq<Piece>>)
    requires Groups(source, acc, ps, groups) && Reach(acc) <= p.start <= |source|
    ensures Groups(source, Add(source, acc, p), ps + [p], groups')
  {
    if groups != [] && Joins(source, Last(Last(groups)), p) {
      groups' := groups[|groups| - 1 := Last(groups) + [p]];
      ExtendLastGroup(source, ps, groups, acc.segments, p);
    } else {
      groups' := groups + [[p]];
      BeginGroup(source, ps, groups, acc.segments, p);
    }
  }

  lemma {:induction false} AddAllGroups(source: string, acc: Acc, done: seq<Piece>, groups: seq<seq<Piece>>,
          ps: seq<Piece>)
    returns (groups': seq<seq<Piece>>)
    requires Groups(source, acc, done, groups) && Ordered(ps, Reach(acc), |source|)
    ensures Groups(source, AddAll(source, acc, ps), done + ps, groups')
    decreases |ps|
  {
    if ps == [] {
      groups' := groups;
      assert done + ps == done;
    } else {
      var groups1 := AddGroups(source, acc, done, groups, ps[0]);
      groups' := AddAllGroups(source, Add(source, acc, ps[0]), done + [ps[0]], groups1, ps[1..]);
      assert done + [ps[0]] + ps[1..] == done + ps;
    }
  }

  /** The segments are sorted, disjoint and not blank. */
  predicate Sound(source: string, segs: seq<Seg>) {
    && (forall i :: 0 <= i < |segs| ==>
          segs[i].start < segs[i].stop <= |source| && !IsBlank(source[segs[i].start..segs[i].stop]))
    && (forall i, j :: 0 <= i < j < |segs| ==> segs[i].stop <= segs[j].start)
  }

  predicate AllCovered(ps: seq<Piece>, segs: seq<Seg>) {
    forall k :: 0 <= k < |ps| ==> Covered(ps[k], segs)
  }

  /** Apart from the pieces the segments hold white space only. */
  predicate NothingElse(source: string, ps: seq<Piece>, segs: seq<Seg>) {
    forall i, x :: 0 <= i < |segs| && segs[i].start <= x < segs[i].stop && x < |source| && !IsSpace(source[x]) ==>
      InSomePiece(ps, x)
  }

  predicate Covered(p: Piece, segs: seq<Seg>) {
    exists i :: 0 <= i < |segs| && segs[i].start <= p.start && p.stop <= segs[i].stop
  }

  predicate InSomePiece(ps: seq<Piece>, x: nat) {
    exists k :: 0 <= k < |ps| && ps[k].start <= x < ps[k].stop
  }

  predicate NonBlank(source: string, ps: seq<Piece>) {
    forall k :: 0 <= k < |ps| ==> ps[k].start < ps[k].stop <= |source| && !IsBlank(source[ps[k].start..ps[k].stop])
  }

  lemma CoveredByMore(ps: seq<Piece>, p: Piece, segs: seq<Seg>, segs': seq<Seg>)
    requires AllCovered(ps, segs)
    requires |segs'| >= |segs| && segs' != []
    requires forall i :: 0 <= i < |segs| ==> segs'[i].start <= segs[i].start && segs[i].stop <= segs'[i].stop
    requires Last(segs').start <= p.start && p.stop <= Last(segs').stop
    ensures AllCovered(ps + [p], segs')
  {
    forall k | 0 <= k < |ps + [p]|
      ensures Covered((ps + [p])[k], segs')
    {
      if k < |ps| {
        assert Covered(ps[k], segs);
        var i :| 0 <= i < |segs| && segs[i].start <= ps[k].start && ps[k].stop <= segs[i].stop;
        assert segs'[i].start <= ps[k].start && ps[k].stop <= segs'[i].stop;
      }
    }
  }

  lemma InMorePieces(ps: seq<Piece>, p: Piece, x: nat)
    requires InSomePiece(ps, x) || p.start <= x < p.stop
    ensures InSomePiece(ps + [p], x)
  {
    if InSomePiece(ps, x) {
      var k :| 0 <= k < |ps| && ps[k].start <= x < ps[k].stop;
      assert (ps + [p])[k] == ps[k];
    } else {
      assert (ps + [p])[|ps|] == p;
    }
  }

  lemma AddLastNotBlank(source: string, acc: Acc, p: Piece)
    requires Sound(source, acc.segments) && Reach(acc) <= p.start < p.stop <= |source|
             && !IsBlank(source[p.start..p.stop])
    ensures var last := Last(Add(source, acc, p).segments);
            && last.start <= p.start && last.stop == p.stop && !IsBlank(source[last.start..last.stop])
  {
    var last := Last(Add(source, acc, p).segments);
    assert source[last.start..last.stop][p.start - last.start..] == source[p.start..p.stop];
  }

  lemma AddSound(source: string, acc: Acc, p: Piece)
    requires Sound(source, acc.segments) && Reach(acc) <= p.start < p.stop <= |source|
             && !IsBlank(source[p.start..p.stop])
    ensures Sound(source, Add(source, acc, p).segments)
  {
    AddLastNotBlank(source, acc, p);
    hide IsBlank;
    var segs, segs' := acc.segments, Add(source, acc, p).segments;
    forall i, j | 0 <= i < j < |segs'|
      ensures segs'[i].stop <= segs'[j].start
    {
      assert i < |segs| - 1 ==> segs[i].stop <= segs[|segs| - 1].start;
    }
  }

  lemma AddNothingElse(source: string, ps: seq<Piece>, acc: Acc, p: Piece)
    requires NothingElse(source, ps, acc.segments) && Reach(acc) <= p.start < p.stop <= |source|
    ensures NothingElse(source, ps + [p], Add(source, acc, p).segments)
  {
    var segs, segs' := acc.segments, Add(source, acc, p).segments;
    forall i, x | 0 <= i < |segs'| && segs'[i].start <= x < segs'[i].stop && x < |source| && !IsSpace(source[x])
      ensures InSomePiece(ps + [p], x)
    {
      if i < |segs| && Reach(acc) <= x < p.start {
        assert source[x] == source[Reach(acc)..p.start][x - Reach(acc)];
      }
      InMorePieces(ps, p, x);
    }
  }

  predicate CoversAll(source: string, ps: seq<Piece>, segs: seq<Seg>) {
    Sound(source, segs) && AllCovered(ps, segs) && NothingElse(source, ps, segs)
  }

  lemma AddCovers(source: string, ps: seq<Piece>, acc: Acc, p: Piece)
    requires CoversAll(source, ps, acc.segments)
    requires Reach(acc) <= p.start < p.stop <= |source| && !IsBlank(source[p.start..p.stop])
    ensures CoversAll(source, ps + [p], Add(source, acc, p).segments)
  {
    AddSound(source, acc, p);
    AddNothingElse(source, ps, acc, p);
    CoveredByMore(ps, p, acc.segments, Add(source, acc, p).segments);
  }

  lemma {:induction false} AddAllCovers(source: string, done: seq<Piece>, acc: Acc, ps: seq<Piece>)
    requires CoversAll(source, done, acc.segments)
    requires Ordered(ps, Reach(acc), |source|) && NonBlank(source, ps)
    ensures CoversAll(source, done + ps, AddAll(source, acc, ps).segments)
    decreases |ps|
  {
    if ps == [] {
      assert done + ps == done;
    } else {
      var done', acc', rest := done + [ps[0]], Add(source, acc, ps[0]), ps[1..];
      assert CoversAll(source, done', acc'.segments) by {
        assert ps[0].start < ps[0].stop <= |source| && !IsBlank(source[ps[0].start..ps[0].stop]);
        AddCovers(source, done, acc, ps[0]);
      }
      assert NonBlank(source, rest) by {
      }
      assert done' + rest == done + ps;
      AddAllCovers(source, done', acc', rest);
    }
  }

  lemma {:induction false} PiecesNonBlank(source: string, n: Node, path: Path, block: Option<Path>)
    ensures NonBlank(source, Pieces(source, n, path, block))
    decreases n, 1
  {
    match n
    case TextNode(start, stop) =>
    case Element(kind, children) =>
      PiecesBelowNonBlank(source, children, path, 0, if kind.Block? then Some(path) else block);
  }

  lemma {:induction false} PiecesBelowNonBlank(source: string, children: seq<Node>, path: Path, i: nat,
          block: Option<Path>)
    ensures NonBlank(source, PiecesBelow(source, children, path, i, block))
    decreases children, 0
  {
    if children != [] {
      PiecesNonBlank(source, children[0], path + [i], block);
      PiecesBelowNonBlank(source, children[1..], path, i + 1, block);
    }
  }

  // ---------------------------------------------------------------- the whole extraction

  function Spans(reps: seq<Replacement>): (r: seq<Seg>)
    ensures |r| == |reps| && forall i :: 0 <= i < |reps| ==> r[i] == Seg(reps[i].start, reps[i].stop)
  {
    seq(|reps|, i requires 0 <= i < |reps| => Seg(reps[i].start, reps[i].stop))
  }

  ghost predicate OwnText(source: string, segs: seq<Replacement>) {
    forall i :: 0 <= i < |segs| ==>
      segs[i].start <= segs[i].stop <= |source| && segs[i].value == source[segs[i].start..segs[i].stop]
  }

  /** The segments with their text, the blank ones left out. */
  method FilterSegments(source: string, found: seq<Seg>) returns (filtered: seq<Replacement>)
    requires Sound(source, found)
    ensures Spans(filtered) == found && OwnText(source, filtered)
  {
    filtered := [];
    for k := 0 to |found|
      invariant Spans(filtered) == found[..k] && OwnText(source, filtered)
    {
      var seg := found[k];
      var textValue := source[seg.start..seg.stop];
      if IsBlank(textValue) {
        continue;
      }
      filtered := filtered + [Replacement(seg.start, seg.stop, textValue)];
    }
  }

  lemma SortedAlready(source: string, reps: seq<Replacement>)
    requires Sound(source, Spans(reps))
    ensures SortReplacements(reps) == reps
  {
    forall i, j | 0 <= i < j < |reps|
      ensures reps[i].start < reps[j].start
    {
      assert Spans(reps)[i].stop <= Spans(reps)[j].start && Spans(reps)[i].start < Spans(reps)[i].stop;
    }
    SortedByStart(reps);
    SortUnique(SortReplacements(reps), reps);
  }

  lemma {:induction false} SpansDisjoint(source: string, last: nat, reps: seq<Replacement>)
    requires last <= |source| && forall i :: 0 <= i < |reps| ==> last <= reps[i].start <= reps[i].stop <= |source|
    requires forall i, j :: 0 <= i < j < |reps| ==> reps[i].stop <= reps[j].start
    ensures Disjoint(source, last, reps)
    decreases |reps|
  {
    if reps != [] {
      SpansDisjoint(source, reps[0].stop, reps[1..]);
    }
  }

  lemma SoundDisjoint(source: string, reps: seq<Replacement>)
    requires Sound(source, Spans(reps))
    ensures Disjoint(source, 0, reps)
  {
    forall i | 0 <= i < |reps|
      ensures reps[i].start <= reps[i].stop <= |source|
      ensures forall j :: i < j < |reps| ==> reps[i].stop <= reps[j].start
    {
      assert Spans(reps)[i].stop <= |source|;
      assert forall j :: i < j < |reps| ==> Spans(reps)[i].stop <= Spans(reps)[j].start;
    }
    SpansDisjoint(source, 0, reps);
  }

  // ---------------------------------------------------------------- which text nodes are found

  /** The node that a path leads to. */
  function NodeAt(n: Node, q: Path): Option<Node> {
    if q == [] then Some(n)
    else if n.TextNode? || q[0] >= |n.children| then None
    else NodeAt(n.children[q[0]], q[1..])
  }

  predicate IsOfKind(n: Node, q: Path, kind: Kind) {
    var at := NodeAt(n, q);
    at.Some? && at.value.Element? && at.value.kind == kind
  }

  /** The path leads to the text of the piece, which is not blank, and through no skipped node. */
  ghost predicate LeadsTo(source: string, n: Node, q: Path, p: Piece) {
    && NodeAt(n, q) == Some(TextNode(p.start, p.stop))
    && p.start <= p.stop <= |source| && !IsBlank(source[p.start..p.stop])
    && forall k :: 0 <= k < |q| ==> !IsOfKind(n, q[..k], SkippedNode)
  }

  /** The first d positions of the path lead to its innermost block. */
  ghost predicate InnermostBlock(n: Node, q: Path, d: nat) {
    && d < |q| && IsOfKind(n, q[..d], Block)
    && forall k :: d < k < |q| ==> !IsOfKind(n, q[..k], Block)
  }

  ghost predicate NoBlock(n: Node, q: Path) {
    forall k :: 0 <= k < |q| ==> !IsOfKind(n, q[..k], Block)
  }

  /** The block of the piece is the innermost one on the path, or the one around the node. */
  ghost predicate BlockOfPath(n: Node, path: Path, block: Option<Path>, q: Path, b: Path) {
    (exists d: nat :: d < |q| && InnermostBlock(n, q, d) && b == path + q[..d]) || (NoBlock(n, q) && block == Some(b))
  }

  ghost predicate IsFoundAt(source: string, n: Node, path: Path, block: Option<Path>, q: Path, p: Piece) {
    LeadsTo(source, n, q, p) && BlockOfPath(n, path, block, q, p.block)
  }

  ghost predicate IsFound(source: string, n: Node, path: Path, block: Option<Path>, p: Piece) {
    exists q: Path :: IsFoundAt(source, n, path, block, q, p)
  }

  lemma KindBelow(n: Node, i: nat, q: Path, k: nat, kind: Kind)
    requires n.Element? && i < |n.children| && k <= |q|
    ensures IsOfKind(n, ([i] + q)[..k + 1], kind) <==> IsOfKind(n.children[i], q[..k], kind)
    ensures IsOfKind(n, ([i] + q)[..0], kind) <==> n.kind == kind
  {
    assert ([i] + q)[..k + 1] == [i] + q[..k];
    assert ([i] + q[..k])[1..] == q[..k];
  }

  lemma LeadsToBelow(source: string, n: Node, i: nat, q: Path, p: Piece)
    requires n.Element? && i < |n.children|
    ensures LeadsTo(source, n, [i] + q, p) <==> !n.kind.SkippedNode? && LeadsTo(source, n.children[i], q, p)
  {
    var whole := [i] + q;
    assert whole[1..] == q;
    KindBelow(n, i, q, 0, SkippedNode);
    forall k | 0 <= k < |q|
      ensures IsOfKind(n, whole[..k + 1], SkippedNode) <==> IsOfKind(n.children[i], q[..k], SkippedNode)
    {
      KindBelow(n, i, q, k, SkippedNode);
    }
    assert forall k :: 1 <= k < |whole| ==>
        (IsOfKind(n, whole[..k], SkippedNode) <==> IsOfKind(n.children[i], q[..k - 1], SkippedNode));
  }

  function BlockBelow(n: Node, path: Path, block: Option<Path>): Option<Path>
    requires n.Element?
  {
    if n.kind.Block? then Some(path) else block
  }

  lemma InnermostBelow(n: Node, i: nat, q: Path, d: nat)
    requires n.Element? && i < |n.children|
    ensures InnermostBlock(n, [i] + q, d + 1) <==> InnermostBlock(n.children[i], q, d)
    ensures InnermostBlock(n, [i] + q, 0) <==> n.kind.Block? && NoBlock(n.children[i], q)
    ensures NoBlock(n, [i] + q) <==> !n.kind.Block? && NoBlock(n.children[i], q)
  {
    var whole := [i] + q;
    KindBelow(n, i, q, 0, Block);
    if d <= |q| {
      KindBelow(n, i, q, d, Block);
    }
    forall k | 0 <= k < |q|
      ensures IsOfKind(n, whole[..k + 1], Block) <==> IsOfKind(n.children[i], q[..k], Block)
    {
      KindBelow(n, i, q, k, Block);
    }
    hide IsOfKind;
    assert forall k :: 1 <= k < |whole| ==>
        (IsOfKind(n, whole[..k], Block) <==> IsOfKind(n.children[i], q[..k - 1], Block));
  }

  lemma BlockOfPathBelow(n: Node, path: Path, block: Option<Path>, i: nat, q: Path, b: Path)
    requires n.Element? && i < |n.children|
    ensures BlockOfPath(n, path, block, [i] + q, b) <==>
            BlockOfPath(n.children[i], path + [i], BlockBelow(n, path, block), q, b)
  {
    hide InnermostBlock, NoBlock;
    var whole := [i] + q;
    forall d: nat | d <= |q|
      ensures InnermostBlock(n, whole, d + 1) <==> InnermostBlock(n.children[i], q, d)
      ensures path + whole[..d + 1] == path + [i] + q[..d]
    {
      InnermostBelow(n, i, q, d);
      assert whole[..d + 1] == [i] + q[..d];
    }
    InnermostBelow(n, i, q, 0);
    assert path + whole[..0] == path;
    if BlockOfPath(n, path, block, whole, b) {
      if d: nat :| d < |whole| && InnermostBlock(n, whole, d) && b == path + whole[..d] {
        if d > 0 {
          assert InnermostBlock(n.children[i], q, d - 1) && b == path + [i] + q[..d - 1];
        }
      }
    }
    if BlockOfPath(n.children[i], path + [i], BlockBelow(n, path, block), q, b) {
      if d: nat :| d < |q| && InnermostBlock(n.children[i], q, d) && b == path + [i] + q[..d] {
        assert InnermostBlock(n, whole, d + 1) && b == path + whole[..d + 1];
      }
    }
  }

  lemma FoundBelow(source: string, n: Node, path: Path, block: Option<Path>, i: nat, q: Path, p: Piece)
    requires n.Element? && i < |n.children|
    ensures IsFoundAt(source, n, path, block, [i] + q, p) <==>
            !n.kind.SkippedNode? && IsFoundAt(source, n.children[i], path + [i], BlockBelow(n, path, block), q, p)
  {
    hide LeadsTo, BlockOfPath;
    LeadsToBelow(source, n, i, q, p);
    BlockOfPathBelow(n, path, block, i, q, p.block);
  }

  /** The piece is found in one of the nodes, of which the first is child i of its parent. */
  ghost predicate FoundAmong(source: string, nodes: seq<Node>, path: Path, i: nat, block: Option<Path>, p: Piece) {
    exists j :: 0 <= j < |nodes| && IsFound(source, nodes[j], path + [i + j], block, p)
  }

  lemma FoundInElement(source: string, n: Node, path: Path, block: Option<Path>, p: Piece)
    requires n.Element?
    ensures IsFound(source, n, path, block, p) <==>
            !n.kind.SkippedNode? && FoundAmong(source, n.children, path, 0, BlockBelow(n, path, block), p)
  {
    hide IsFoundAt;
    if IsFound(source, n, path, block, p) {
      var q: Path :| IsFoundAt(source, n, path, block, q, p);
      FirstOnPath(source, n, path, block, q, p);
      var i := q[0];
      assert q == [i] + q[1..];
      FoundBelow(source, n, path, block, i, q[1..], p);
      if !n.kind.SkippedNode? {
        assert IsFound(source, n.children[i], path + [0 + i], BlockBelow(n, path, block), p);
      }
    }
    var inner := BlockBelow(n, path, block);
    if !n.kind.SkippedNode? && FoundAmong(source, n.children, path, 0, inner, p) {
      var i :| 0 <= i < |n.children| && IsFound(source, n.children[i], path + [0 + i], inner, p);
      assert path + [0 + i] == path + [i];
      var q: Path :| IsFoundAt(source, n.children[i], path + [i], inner, q, p);
      FoundBelow(source, n, path, block, i, q, p);
      assert IsFoundAt(source, n, path, block, [i] + q, p);
    }
  }

  lemma FirstOnPath(source: string, n: Node, path: Path, block: Option<Path>, q: Path, p: Piece)
    requires n.Element? && IsFoundAt(source, n, path, block, q, p)
    ensures q != [] && q[0] < |n.children|
  {
  }

  lemma FoundInText(source: string, n: Node, path: Path, block: Option<Path>, p: Piece)
    requires n.TextNode?
    ensures IsFound(source, n, path, block, p) <==> p in Pieces(source, n, path, block)
  {
    if IsFound(source, n, path, block, p) {
      var q: Path :| IsFoundAt(source, n, path, block, q, p);
      assert q == [];
    }
    if p in Pieces(source, n, path, block) {
      assert NodeAt(n, []) == Some(n);
      assert IsFoundAt(source, n, path, block, [], p);
    }
  }

  /** The pieces are exactly the text nodes that are not blank, not below a skipped node and
      in a translatable block, each with the innermost block around it. */
  lemma {:induction false} PiecesAre(source: string, n: Node, path: Path, block: Option<Path>, p: Piece)
    ensures p in Pieces(source, n, path, block) <==> IsFound(source, n, path, block, p)
    decreases n, 1
  {
    hide IsFound, FoundAmong, Pieces, PiecesBelow, BlockBelow;
    if n.TextNode? {
      FoundInText(source, n, path, block, p);
    } else {
      FoundInElement(source, n, path, block, p);
      PiecesOfElement(source, n, path, block);
      if !n.kind.SkippedNode? {
        PiecesBelowAre(source, n.children, path, 0, BlockBelow(n, path, block), p);
      }
    }
  }

  lemma PiecesOfElement(source: string, n: Node, path: Path, block: Option<Path>)
    requires n.Element?
    ensures Pieces(source, n, path, block) ==
            if n.kind.SkippedNode? then [] else PiecesBelow(source, n.children, path, 0, BlockBelow(n, path, block))
  {
  }

  lemma {:induction false} PiecesBelowAre(source: string, children: seq<Node>, path: Path, i: nat,
          block: Option<Path>, p: Piece)
    ensures p in PiecesBelow(source, children, path, i, block) <==> FoundAmong(source, children, path, i, block, p)
    decreases children, 0
  {
    hide IsFound, Pieces, FoundAmong;
    if children == [] {
      NoneAmong(source, path, i, block, p);
    } else {
      var rest := children[1..];
      PiecesAre(source, children[0], path + [i], block, p);
      PiecesBelowAre(source, rest, path, i + 1, block, p);
      FoundAmongCons(source, children, path, i, block, p);
    }
  }

  lemma NoneAmong(source: string, path: Path, i: nat, block: Option<Path>, p: Piece)
    ensures !FoundAmong(source, [], path, i, block, p)
  {
  }

  lemma FoundAmongCons(source: string, nodes: seq<Node>, path: Path, i: nat, block: Option<Path>, p: Piece)
    requires nodes != []
    ensures FoundAmong(source, nodes, path, i, block, p) <==>
            IsFound(source, nodes[0], path + [i], block, p) || FoundAmong(source, nodes[1..], path, i + 1, block, p)
  {
    hide IsFound;
    var rest := nodes[1..];
    if j :| 0 <= j < |rest| && IsFound(source, rest[j], path + [i + 1 + j], block, p) {
      assert IsFound(source, nodes[j + 1], path + [i + (j + 1)], block, p);
    }
    if IsFound(source, nodes[0], path + [i], block, p) {
      assert IsFound(source, nodes[0], path + [i + 0], block, p);
    }
    if j :| 0 <= j < |nodes| && IsFound(source, nodes[j], path + [i + j], block, p) {
      if j > 0 {
        assert IsFound(source, rest[j - 1], path + [i + 1 + (j - 1)], block, p);
      }
    }
  }

  /** Every text node to be translated is within a segment, and all else in the segments is
      white space. */
  ghost predicate HoldsWhatIsFound(source: string, doc: Node, segs: seq<Seg>) {
    && (forall p :: IsFound(source, doc, [], None, p) ==> Covered(p, segs))
    && (forall i, x :: 0 <= i < |segs| && segs[i].start <= x < segs[i].stop && x < |source| && !IsSpace(source[x]) ==>
          exists p :: IsFound(source, doc, [], None, p) && p.start <= x < p.stop)
  }

  lemma CoverWhatIsFound(source: string, doc: Node, segs: seq<Seg>)
    requires AllCovered(Pieces(source, doc, [], None), segs)
    requires NothingElse(source, Pieces(source, doc, [], None), segs)
    ensures HoldsWhatIsFound(source, doc, segs)
  {
    hide IsFound, Pieces;
    var ps := Pieces(source, doc, [], None);
    forall p
      ensures p in ps <==> IsFound(source, doc, [], None, p)
    {
      PiecesAre(source, doc, [], None, p);
    }
    forall i, x | 0 <= i < |segs| && segs[i].start <= x < segs[i].stop && x < |source| && !IsSpace(source[x])
      ensures exists p :: IsFound(source, doc, [], None, p) && p.start <= x < p.stop
    {
      assert InSomePiece(ps, x);
      var k :| 0 <= k < |ps| && ps[k].start <= x < ps[k].stop;
      assert ps[k] in ps;
    }
  }

  /** The segments of a body: the walk, then the blank ones left out, then sorted by start.
      They are the maximal runs of the pieces that ought to be found. */
  method ExtractSegments(source: string, doc: Node) returns (segs: seq<Replacement>, ghost groups: seq<seq<Piece>>)
    requires InSource(source, doc) && Ordered(Pieces(source, doc, [], None), 0, |source|)
    ensures IsGrouping(source, Pieces(source, doc, [], None), groups, Spans(segs))
    ensures Sound(source, Spans(segs)) && OwnText(source, segs)
    ensures AllCovered(Pieces(source, doc, [], None), Spans(segs))
    ensures NothingElse(source, Pieces(source, doc, [], None), Spans(segs))
    ensures HoldsWhatIsFound(source, doc, Spans(segs))
  {
    var x := new Extractor(source);
    ghost var ps := Pieces(source, doc, [], None);
    x.Walk(doc, [], []);
    PiecesNonBlank(source, doc, [], None);
    assert [] + ps == ps;
    AddAllCovers(source, [], Acc([], None), ps);
    groups := AddAllGroups(source, Acc([], None), [], [], ps);
    var filtered := FilterSegments(source, x.segments);
    SortedAlready(source, filtered);
    segs := SortReplacements(filtered);
    CoverWhatIsFound(source, doc, Spans(segs));
  }

  /** The segments with their translations. */
  method TranslateSegments(found: seq<Replacement>, translate: string -> string) returns (segs: seq<Replacement>)
    ensures Spans(segs) == Spans(found)
    ensures forall i :: 0 <= i < |segs| ==> segs[i].value == translate(found[i].value)
  {
    segs := found;
    for k := 0 to |found|
      invariant |segs| == |found|
      invariant forall i :: 0 <= i < |found| ==> segs[i].start == found[i].start && segs[i].stop == found[i].stop
      invariant forall i :: k <= i < |found| ==> segs[i].value == found[i].value
      invariant forall i :: 0 <= i < k ==> segs[i].value == translate(found[i].value)
    {
      segs := segs[k := segs[k].(value := translate(segs[k].value))];
    }
  }

  /** Extracting, translating and putting back: with the identity for a translation the body
      comes back, and with any other one the result can be taken apart into the body again. */
  method TranslateBody(source: string, doc: Node, translate: string -> string)
          returns (out: string, segs: seq<Replacement>)
    requires InSource(source, doc) && Ordered(Pieces(source, doc, [], None), 0, |source|)
    ensures Disjoint(source, 0, segs) && AllCovered(Pieces(source, doc, [], None), Spans(segs))
    ensures InBounds(source, segs) && out == SpliceFrom(source, 0, segs)
    ensures forall i :: 0 <= i < |segs| ==> segs[i].value == translate(source[segs[i].start..segs[i].stop])
    ensures (forall t :: translate(t) == t) ==> out == source
    ensures Undoes(out, 0, Inverse(source, 0, segs, 0), source)
  {
    var found, _ := ExtractSegments(source, doc);
    segs := TranslateSegments(found, translate);
    SoundDisjoint(source, segs);
    DisjointInBounds(source, 0, segs);
    forall i | 0 <= i < |segs|
      ensures segs[i].value == translate(source[segs[i].start..segs[i].stop])
    {
      assert Spans(segs)[i] == Spans(found)[i];
    }
    out := ApplyReplacements(source, segs);
    if forall t :: translate(t) == t {
      SpliceOwnText(source, 0, segs);
    }
    SpliceInverse(source, 0, segs, "");
    assert "" + SpliceFrom(source, 0, segs) == out && source[0..] == source;
  }
}
