/** The tree of lines: leaves hold lines, branches hold chunks, everything has a parent link, and
    every chunk caches its number of lines and its height.

    Chunks and lines are records in a store, addressed by references, so that sharing, parent links
    and in-place updates are explicit. */
module LineTree {

  type Ref = nat

  datatype MaybeRef = Null | To(ref: Ref)

  datatype Line = Line(height: int, parent: MaybeRef)

  datatype Node =
    | Leaf(lines: seq<Ref>, height: int, parent: MaybeRef)
    | Branch(children: seq<Ref>, size: int, height: int, parent: MaybeRef)

  type Content = map<Ref, seq<Ref>>

  /** The store, the chunks reachable from the root, and, for each of them, the lines below it and
      a rank that falls from parent to child. */
  datatype View = View(
    nodes: map<Ref, Node>,
    lines: map<Ref, Line>,
    root: Ref,
    live: set<Ref>,
    content: Content,
    rank: map<Ref, nat>)

  predicate NoRepeats(s: seq<Ref>) {
    forall i, j :: 0 <= i < j < |s| ==> s[i] != s[j]
  }

  function At(content: Content, r: Ref): seq<Ref> {
    if r in content then content[r] else []
  }

  /** The lines below a list of chunks. */
  function Flatten(content: Content, cs: seq<Ref>): seq<Ref> {
    if cs == [] then [] else At(content, cs[0]) + Flatten(content, cs[1..])
  }

  function LineHeight(lines: map<Ref, Line>, l: Ref): int {
    if l in lines then lines[l].height else 0
  }

  /** The total height of a list of lines. */
  function Heights(lines: map<Ref, Line>, ls: seq<Ref>): int {
    if ls == [] then 0 else LineHeight(lines, ls[0]) + Heights(lines, ls[1..])
  }

  // ----- lists -----

  lemma {:induction false} FlattenConcat(content: Content, xs: seq<Ref>, ys: seq<Ref>)
    ensures Flatten(content, xs + ys) == Flatten(content, xs) + Flatten(content, ys)
  {
    if xs == [] {
      assert xs + ys == ys;
    } else {
      FlattenConcat(content, xs[1..], ys);
      assert (xs + ys)[1..] == xs[1..] + ys;
    }
  }

  lemma FlattenOne(content: Content, c: Ref)
    ensures Flatten(content, [c]) == At(content, c)
  {
    assert [c][1..] == [];
    assert At(content, c) + [] == At(content, c);
  }

  /** Before, at and behind the `i`-th chunk. */
  lemma FlattenAt(content: Content, cs: seq<Ref>, i: nat)
    requires i < |cs|
    ensures Flatten(content, cs) == Flatten(content, cs[..i]) + At(content, cs[i]) + Flatten(content, cs[i + 1..])
    ensures Flatten(content, cs[..i + 1]) == Flatten(content, cs[..i]) + At(content, cs[i])
  {
    assert cs == cs[..i] + [cs[i]] + cs[i + 1..] && cs[..i + 1] == cs[..i] + [cs[i]];
    FlattenConcat(content, cs[..i] + [cs[i]], cs[i + 1..]);
    FlattenConcat(content, cs[..i], [cs[i]]);
    FlattenOne(content, cs[i]);
  }

  lemma {:induction false} FlattenSame(c1: Content, c2: Content, cs: seq<Ref>)
    requires forall r :: r in cs ==> At(c1, r) == At(c2, r)
    ensures Flatten(c1, cs) == Flatten(c2, cs)
  {
    if cs != [] {
      FlattenSame(c1, c2, cs[1..]);
    }
  }

  lemma {:induction false} HeightsConcat(lines: map<Ref, Line>, xs: seq<Ref>, ys: seq<Ref>)
    ensures Heights(lines, xs + ys) == Heights(lines, xs) + Heights(lines, ys)
  {
    if xs == [] {
      assert xs + ys == ys;
    } else {
      HeightsConcat(lines, xs[1..], ys);
      assert (xs + ys)[1..] == xs[1..] + ys;
    }
  }

  lemma {:induction false} HeightsSame(l1: map<Ref, Line>, l2: map<Ref, Line>, ls: seq<Ref>)
    requires forall l :: l in ls ==> LineHeight(l1, l) == LineHeight(l2, l)
    ensures Heights(l1, ls) == Heights(l2, ls)
  {
    if ls != [] {
      HeightsSame(l1, l2, ls[1..]);
    }
  }

  // ----- the invariant -----

  /** Parent and child links agree. */
  ghost predicate Linked(v: View, r: Ref)
    requires r in v.nodes
  {
    var n := v.nodes[r];
    && (if r == v.root then n.parent == Null
        else n.parent.To? && n.parent.ref in v.live && n.parent.ref in v.nodes
             && v.nodes[n.parent.ref].Branch? && r in v.nodes[n.parent.ref].children)
    && (n.Branch? ==> NoRepeats(n.children) && forall c :: c in n.children ==> ChildOf(v, c, r))
    && (n.Leaf? ==> NoRepeats(n.lines) && forall l :: l in n.lines ==> l in v.lines && v.lines[l].parent == To(r))
  }

  ghost predicate ChildOf(v: View, c: Ref, r: Ref) {
    && c in v.live && c in v.nodes && v.nodes[c].parent == To(r)
    && c in v.rank && r in v.rank && v.rank[c] < v.rank[r]
  }

  /** The cached size and height are those of the lines below, where `expected` tells what each
      child holds. */
  ghost predicate Summed(v: View, expected: Content, r: Ref)
    requires r in v.nodes && r in v.content
  {
    var n, ls := v.nodes[r], v.content[r];
    && n.height == Heights(v.lines, ls)
    && (n.Leaf? ==> ls == n.lines)
    && (n.Branch? ==> ls == Flatten(expected, n.children) && n.size == |ls|)
  }

  ghost predicate Shaped(v: View) {
    v.live <= v.nodes.Keys && v.live <= v.content.Keys && v.live <= v.rank.Keys
    && v.root in v.live && v.nodes[v.root].Branch?
  }

  ghost predicate Consistent(v: View, expected: Content) {
    && Shaped(v)
    && (forall r :: r in v.live ==> Linked(v, r))
    && (forall r :: r in v.live ==> Summed(v, expected, r))
    && NoRepeats(At(expected, v.root))
  }

  /** At most ten children and fifty lines, except in the chunks of `loose`. */
  ghost predicate Bounded(v: View, loose: set<Ref>)
    requires v.live <= v.nodes.Keys
  {
    forall r :: r in v.live && r !in loose ==>
      match v.nodes[r]
      case Leaf(lines, _, _) => |lines| <= 50
      case Branch(children, _, _, _) => 1 <= |children| <= 10
  }

  ghost predicate Inv(v: View) {
    Consistent(v, v.content) && Bounded(v, {})
  }

  function Size(n: Node): int {
    match n
    case Leaf(lines, _, _) => |lines|
    case Branch(_, size, _, _) => size
  }

  lemma SizeIsContent(v: View, expected: Content, r: Ref)
    requires Consistent(v, expected) && r in v.live
    ensures Size(v.nodes[r]) == |v.content[r]| && v.nodes[r].height == Heights(v.lines, v.content[r])
  {
    assert Summed(v, expected, r);
  }

  lemma ChildIsLive(v: View, expected: Content, r: Ref, i: nat)
    requires Consistent(v, expected) && r in v.live && v.nodes[r].Branch? && i < |v.nodes[r].children|
    ensures var c := v.nodes[r].children[i];
            c in v.live && v.nodes[c].parent == To(r) && v.rank[c] < v.rank[r]
  {
    assert Linked(v, r);
    assert ChildOf(v, v.nodes[r].children[i], r);
  }

  /** A line below a chunk sits in a leaf, and its parent link says which. */
  lemma {:induction false} LineInLeaf(v: View, r: Ref, l: Ref)
    requires Consistent(v, v.content) && r in v.live && l in v.content[r]
    ensures l in v.lines && v.lines[l].parent.To?
    ensures var p := v.lines[l].parent.ref; p in v.live && v.nodes[p].Leaf? && l in v.nodes[p].lines
    decreases v.rank[r]
  {
    assert Summed(v, v.content, r) && Linked(v, r);
    if v.nodes[r].Branch? {
      var i := InSomeChild(v.content, v.nodes[r].children, l);
      ChildIsLive(v, v.content, r, i);
      LineInLeaf(v, v.nodes[r].children[i], l);
    }
  }

  lemma {:induction false} InSomeChild(content: Content, cs: seq<Ref>, l: Ref) returns (i: nat)
    requires l in Flatten(content, cs)
    ensures i < |cs| && cs[i] in content && l in content[cs[i]]
  {
    if l in At(content, cs[0]) {
      i := 0;
    } else {
      i := InSomeChild(content, cs[1..], l);
      i := i + 1;
    }
  }
}
