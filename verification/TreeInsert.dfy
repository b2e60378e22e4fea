/** Inserting lines: caches on the way down, lines into a leaf, and cutting up a leaf that has
    grown beyond fifty lines. */
module TreeInsert {
  import opened LineTree
  import opened TreeSpill

  function Splice(s: seq<Ref>, at: int, ls: seq<Ref>): seq<Ref>
    requires 0 <= at <= |s|
  {
    s[..at] + ls + s[at..]
  }

  /** Lines that are in no chunk yet. */
  ghost predicate Fresh(v: View, ls: seq<Ref>) {
    NoRepeats(ls) && forall l :: l in ls ==> l in v.lines && v.lines[l].parent == Null
  }

  lemma HeightsSplice(lines: map<Ref, Line>, s: seq<Ref>, at: int, ls: seq<Ref>)
    requires 0 <= at <= |s|
    ensures Heights(lines, Splice(s, at, ls)) == Heights(lines, s) + Heights(lines, ls)
  {
    assert s == s[..at] + s[at..];
    HeightsConcat(lines, s[..at], s[at..]);
    HeightsConcat(lines, s[..at] + ls, s[at..]);
    HeightsConcat(lines, s[..at], ls);
  }

  // ----- chunks that differ only in what they cache -----

  predicate SameLinks(n: Node, m: Node) {
    n.parent == m.parent && n.Leaf? == m.Leaf?
    && (n.Leaf? ==> n.lines == m.lines) && (n.Branch? ==> n.children == m.children)
  }

  lemma LinkedStays(v: View, v': View, r: Ref)
    requires v'.live == v.live && v'.rank == v.rank && v'.root == v.root && v'.lines == v.lines
    requires v.live <= v.nodes.Keys && v'.nodes.Keys == v.nodes.Keys
    requires forall x :: x in v.nodes ==> SameLinks(v.nodes[x], v'.nodes[x])
    requires r in v.live && Linked(v, r)
    ensures Linked(v', r)
  {
    var n := v.nodes[r];
    if n.Branch? {
      forall c | c in n.children
        ensures ChildOf(v', c, r)
      {
        assert ChildOf(v, c, r);
      }
    }
  }

  // ----- one branch on the way down -----

  ghost function Grow(v: View, r: Ref, at: int, ls: seq<Ref>): View
    requires r in v.nodes && v.nodes[r].Branch? && r in v.content && 0 <= at <= |v.content[r]|
  {
    var n := v.nodes[r];
    v.(nodes := v.nodes[r := Branch(n.children, n.size + |ls|, n.height + Heights(v.lines, ls), n.parent)],
       content := v.content[r := Splice(v.content[r], at, ls)])
  }

  /** `r` expects to hold the new lines at `at`. */
  ghost predicate Expects(v: View, r: Ref, at: int, ls: seq<Ref>) {
    r in v.live && r in v.content && 0 <= at <= |v.content[r]|
    && Consistent(v, v.content[r := Splice(v.content[r], at, ls)])
  }

  /** After its caches are updated, a branch expects the lines in the child that covers `at`. */
  lemma GrowKeeps(v: View, r: Ref, at: int, ls: seq<Ref>, i: nat, at': int)
    requires Expects(v, r, at, ls) && v.nodes[r].Branch? && i < |v.nodes[r].children|
    requires at == |Flatten(v.content, v.nodes[r].children[..i])| + at'
    requires 0 <= at' <= |At(v.content, v.nodes[r].children[i])|
    ensures var v', c := Grow(v, r, at, ls), v.nodes[r].children[i];
            Expects(v', c, at', ls) && v'.content[c] == v.content[c] && c != r
  {
    hide Heights, Flatten;
    var v', c := Grow(v, r, at, ls), v.nodes[r].children[i];
    var e := v.content[r := Splice(v.content[r], at, ls)];
    ChildIsLive(v, e, r, i);
    var e' := v'.content[c := Splice(v.content[c], at', ls)];
    GrowContent(v, r, at, ls, i, at');
    forall x | x in v'.live
      ensures Linked(v', x) && Summed(v', e', x)
    {
      assert Linked(v, x) && Summed(v, e, x);
      LinkedStays(v, v', x);
      if x == r {
        HeightsSplice(v.lines, v.content[r], at, ls);
      } else if v.nodes[x].Branch? {
        NotAChild(v, e, x, c, r);
        FlattenSame(e, e', v.nodes[x].children);
      }
    }
    assert c != v.root by { assert Linked(v, v.root); }
  }

  lemma NotAChild(v: View, e: Content, x: Ref, c: Ref, r: Ref)
    requires Consistent(v, e) && x in v.live && v.nodes[x].Branch? && x != r
    requires c in v.live && v.nodes[c].parent == To(r)
    ensures c !in v.nodes[x].children
  {
    assert Linked(v, x);
    assert c in v.nodes[x].children ==> ChildOf(v, c, x);
  }

  /** The new content of a branch is what its children hold when one of them has the new lines. */
  lemma GrowContent(v: View, r: Ref, at: int, ls: seq<Ref>, i: nat, at': int)
    requires Expects(v, r, at, ls) && v.nodes[r].Branch? && i < |v.nodes[r].children|
    requires at == |Flatten(v.content, v.nodes[r].children[..i])| + at'
    requires 0 <= at' <= |At(v.content, v.nodes[r].children[i])|
    ensures var cs := v.nodes[r].children;
            var e' := v.content[r := Splice(v.content[r], at, ls)][cs[i] := Splice(At(v.content, cs[i]), at', ls)];
            Splice(v.content[r], at, ls) == Flatten(e', cs)
  {
    hide Flatten, Heights;
    var cs := v.nodes[r].children;
    var e := v.content[r := Splice(v.content[r], at, ls)];
    var e' := e[cs[i] := Splice(At(v.content, cs[i]), at', ls)];
    assert Linked(v, r) && Summed(v, e, r);
    NotItsOwnChild(v, e, r);
    FlattenSame(e, v.content, cs);
    FlattenGrown(v.content, e', cs, i, at', ls);
  }

  lemma NotItsOwnChild(v: View, e: Content, r: Ref)
    requires Consistent(v, e) && r in v.live && v.nodes[r].Branch?
    ensures r !in v.nodes[r].children
  {
    assert Linked(v, r);
    assert r in v.nodes[r].children ==> ChildOf(v, r, r);
  }

  lemma FlattenGrown(c1: Content, c2: Content, cs: seq<Ref>, i: nat, at: int, ls: seq<Ref>)
    requires i < |cs| && NoRepeats(cs) && 0 <= at <= |At(c1, cs[i])|
    requires forall r :: r in cs && r != cs[i] ==> At(c2, r) == At(c1, r)
    requires At(c2, cs[i]) == Splice(At(c1, cs[i]), at, ls)
    ensures |Flatten(c1, cs[..i])| + at <= |Flatten(c1, cs)|
    ensures Flatten(c2, cs) == Splice(Flatten(c1, cs), |Flatten(c1, cs[..i])| + at, ls)
  {
    hide Flatten;
    OthersInList(cs, i);
    FlattenSame(c2, c1, cs[..i]);
    FlattenSame(c2, c1, cs[i + 1..]);
    FlattenAt(c1, cs, i);
    FlattenAt(c2, cs, i);
    SpliceInside(Flatten(c1, cs[..i]), At(c1, cs[i]), Flatten(c1, cs[i + 1..]), at, ls);
  }

  lemma SpliceInside(a: seq<Ref>, b: seq<Ref>, c: seq<Ref>, at: int, ls: seq<Ref>)
    requires 0 <= at <= |b|
    ensures Splice(a + b + c, |a| + at, ls) == a + Splice(b, at, ls) + c
  {
    assert b == b[..at] + b[at..];
    var s := a + b + c;
    assert s[..|a| + at] == a + b[..at];
    assert s[|a| + at..] == b[at..] + c;
  }

  // ----- the leaf -----

  function SetParents(lines: map<Ref, Line>, ls: seq<Ref>, p: MaybeRef): map<Ref, Line> {
    map l | l in lines :: if l in ls then lines[l].(parent := p) else lines[l]
  }

  ghost function LeafInsert(v: View, r: Ref, at: int, ls: seq<Ref>): View
    requires r in v.nodes && v.nodes[r].Leaf? && 0 <= at <= |v.nodes[r].lines|
  {
    var n := v.nodes[r];
    v.(nodes := v.nodes[r := Leaf(Splice(n.lines, at, ls), n.height + Heights(v.lines, ls), n.parent)],
       lines := SetParents(v.lines, ls, To(r)),
       content := v.content[r := Splice(n.lines, at, ls)])
  }

  lemma LeafInsertKeeps(v: View, r: Ref, at: int, ls: seq<Ref>)
    requires Expects(v, r, at, ls) && v.nodes[r].Leaf? && Fresh(v, ls)
    ensures v.content[r] == v.nodes[r].lines
    ensures var v' := LeafInsert(v, r, at, ls); Consistent(v', v'.content) && v'.content[v.root] == v.content[v.root]
  {
    hide Flatten, Heights;
    var e := v.content[r := Splice(v.content[r], at, ls)];
    assert Summed(v, e, r) && Linked(v, r) && Linked(v, v.root);
    var v' := LeafInsert(v, r, at, ls);
    assert e == v'.content;
    forall x | x in v'.live
      ensures Linked(v', x) && Summed(v', e, x)
    {
      assert Linked(v, x) && Summed(v, e, x);
      LeafInsertLinked(v, r, at, ls, x);
      forall l
        ensures LineHeight(v'.lines, l) == LineHeight(v.lines, l)
      {
      }
      HeightsSame(v.lines, v'.lines, v.content[x]);
      if x == r {
        HeightsSplice(v.lines, v.content[r], at, ls);
        HeightsSame(v.lines, v'.lines, v'.content[r]);
      }
    }
  }

  lemma LeafInsertLinked(v: View, r: Ref, at: int, ls: seq<Ref>, x: Ref)
    requires Expects(v, r, at, ls) && v.nodes[r].Leaf? && Fresh(v, ls) && x in v.live
    requires v.content[r] == v.nodes[r].lines
    ensures Linked(LeafInsert(v, r, at, ls), x)
  {
    hide Flatten, Heights, Summed;
    var v' := LeafInsert(v, r, at, ls);
    assert Linked(v, x);
    if x == r {
      NewLinesNoRepeats(v, r, at, ls);
    } else if v.nodes[x].Branch? {
      forall c | c in v.nodes[x].children
        ensures ChildOf(v', c, x)
      {
        assert ChildOf(v, c, x);
      }
    } else {
      forall l | l in v.nodes[x].lines
        ensures l in v'.lines && v'.lines[l].parent == To(x)
      {
        assert v.lines[l].parent == To(x);
        assert l !in ls;
      }
    }
  }

  lemma NewLinesNoRepeats(v: View, r: Ref, at: int, ls: seq<Ref>)
    requires r in v.nodes && v.nodes[r].Leaf? && Linked(v, r) && Fresh(v, ls) && 0 <= at <= |v.nodes[r].lines|
    ensures NoRepeats(Splice(v.nodes[r].lines, at, ls))
  {
    var old0 := v.nodes[r].lines;
    forall l | l in old0
      ensures l !in ls
    {
      assert v.lines[l].parent == To(r);
    }
    SpliceNoRepeats(old0, at, ls);
  }

  lemma SpliceNoRepeats(s: seq<Ref>, at: int, ls: seq<Ref>)
    requires NoRepeats(s) && NoRepeats(ls) && 0 <= at <= |s| && forall l :: l in s ==> l !in ls
    ensures NoRepeats(Splice(s, at, ls))
  {
    var t := Splice(s, at, ls);
    forall i, j | 0 <= i < j < |t|
      ensures t[i] != t[j]
    {
      var a := if i < at then s[i] else if i < at + |ls| then ls[i - at] else s[i - |ls|];
      var b := if j < at then s[j] else if j < at + |ls| then ls[j - at] else s[j - |ls|];
      assert t[i] == a && t[j] == b;
      assert i < at || i >= at + |ls| ==> a in s;
      assert j < at || j >= at + |ls| ==> b in s;
    }
  }

  /** Before the first insertion: the root may expect fresh lines. */
  lemma RootExpects(v: View, at: int, ls: seq<Ref>)
    requires Consistent(v, v.content) && Fresh(v, ls) && 0 <= at <= |v.content[v.root]|
    ensures Expects(v, v.root, at, ls)
  {
    var e := v.content[v.root := Splice(v.content[v.root], at, ls)];
    forall l | l in v.content[v.root]
      ensures l !in ls
    {
      LineInLeaf(v, v.root, l);
    }
    SpliceNoRepeats(v.content[v.root], at, ls);
    forall x | x in v.live
      ensures Summed(v, e, x)
    {
      assert Summed(v, v.content, x) && Linked(v, x) && Linked(v, v.root);
      if v.nodes[x].Branch? {
        assert v.root in v.nodes[x].children ==> ChildOf(v, v.root, x);
        FlattenSame(v.content, e, v.nodes[x].children);
      }
    }
  }

  // ----- cutting up a leaf -----

  const SLICE := 25

  /** The `k`-th slice of the lines behind the first `keep`. */
  function Slice(ls: seq<Ref>, keep: nat, k: nat): seq<Ref>
    requires keep + SLICE * (k + 1) <= |ls|
  {
    ls[keep + SLICE * k..keep + SLICE * (k + 1)]
  }

  /** The store after the slices have become the leaves `made`. */
  function NodesWith(nodes: map<Ref, Node>, lines: map<Ref, Line>, ls: seq<Ref>, keep: nat, made: seq<Ref>, parent: Ref)
    : map<Ref, Node>
    requires keep + SLICE * |made| <= |ls|
  {
    if made == [] then nodes
    else
      var k := |made| - 1;
      NodesWith(nodes, lines, ls, keep, made[..k], parent)
        [made[k] := Leaf(Slice(ls, keep, k), Heights(lines, Slice(ls, keep, k)), To(parent))]
  }

  function LinesWith(lines: map<Ref, Line>, ls: seq<Ref>, keep: nat, made: seq<Ref>): map<Ref, Line>
    requires keep + SLICE * |made| <= |ls|
  {
    if made == [] then lines
    else
      var k := |made| - 1;
      SetParents(LinesWith(lines, ls, keep, made[..k]), Slice(ls, keep, k), To(made[k]))
  }

  function ContentWith(content: Content, ls: seq<Ref>, keep: nat, made: seq<Ref>): Content
    requires keep + SLICE * |made| <= |ls|
  {
    if made == [] then content
    else
      var k := |made| - 1;
      ContentWith(content, ls, keep, made[..k])[made[k] := Slice(ls, keep, k)]
  }

  function RankWith(rank: map<Ref, nat>, made: seq<Ref>, x: nat): map<Ref, nat> {
    if made == [] then rank else RankWith(rank, made[..|made| - 1], x)[made[|made| - 1] := x]
  }

  /** The new chunks, one by one. */
  lemma {:induction false} MadeNodes(v: View, ls: seq<Ref>, keep: nat, made: seq<Ref>, parent: Ref)
    requires keep + SLICE * |made| <= |ls| && NoRepeats(made) && forall r :: r in made ==> r !in v.nodes
    ensures var nodes := NodesWith(v.nodes, v.lines, ls, keep, made, parent);
            && nodes.Keys == v.nodes.Keys + (set r | r in made)
            && (forall r :: r in v.nodes ==> nodes[r] == v.nodes[r])
            && (forall k :: 0 <= k < |made| ==>
                  nodes[made[k]] == Leaf(Slice(ls, keep, k), Heights(v.lines, Slice(ls, keep, k)), To(parent)))
    decreases |made|
  {
    hide Heights, Slice;
    if made != [] {
      var k := |made| - 1;
      MadeNodes(v, ls, keep, made[..k], parent);
      assert forall r :: r in made <==> r in made[..k] || r == made[k];
    }
  }

  lemma {:induction false} MadeEntries(v: View, ls: seq<Ref>, keep: nat, made: seq<Ref>)
    requires keep + SLICE * |made| <= |ls| && NoRepeats(made)
    ensures var content := ContentWith(v.content, ls, keep, made);
            && content.Keys == v.content.Keys + (set r | r in made)
            && (forall r :: r !in made ==> At(content, r) == At(v.content, r))
            && (forall k :: 0 <= k < |made| ==> content[made[k]] == Slice(ls, keep, k))
    decreases |made|
  {
    hide Slice;
    if made != [] {
      var k := |made| - 1;
      MadeEntries(v, ls, keep, made[..k]);
      assert forall r :: r in made <==> r in made[..k] || r == made[k];
    }
  }

  lemma {:induction false} MadeRanks(rank: map<Ref, nat>, made: seq<Ref>, x: nat)
    ensures var rank' := RankWith(rank, made, x);
            && rank'.Keys == rank.Keys + (set r | r in made)
            && (forall r :: r in rank && r !in made ==> rank'[r] == rank[r])
            && (forall r :: r in made ==> rank'[r] == x)
    decreases |made|
  {
    if made != [] {
      MadeRanks(rank, made[..|made| - 1], x);
      assert forall r :: r in made <==> r in made[..|made| - 1] || r == made[|made| - 1];
    }
  }

  lemma {:induction false} MadeLines(v: View, ls: seq<Ref>, keep: nat, made: seq<Ref>)
    requires keep + SLICE * |made| <= |ls| && NoRepeats(ls)
    ensures var lines := LinesWith(v.lines, ls, keep, made);
            && lines.Keys == v.lines.Keys
            && (forall l :: LineHeight(lines, l) == LineHeight(v.lines, l))
            && (forall l :: l in v.lines && l !in ls[keep..keep + SLICE * |made|] ==> lines[l] == v.lines[l])
            && (forall k, l :: 0 <= k < |made| && l in Slice(ls, keep, k) && l in v.lines ==>
              lines[l].parent == To(made[k]))
    decreases |made|
  {
    if made != [] {
      var k := |made| - 1;
      MadeLines(v, ls, keep, made[..k]);
      SlicesApart(ls, keep, k);
      LongerSlice(ls, keep, k);
      OneSlice(v.lines, LinesWith(v.lines, ls, keep, made[..k]), ls, keep, made, k);
    }
  }

  lemma OneSlice(lines0: map<Ref, Line>, before: map<Ref, Line>, ls: seq<Ref>, keep: nat, made: seq<Ref>, k: nat)
    requires k + 1 == |made| && keep + SLICE * |made| <= |ls| && before.Keys == lines0.Keys
    requires forall l :: LineHeight(before, l) == LineHeight(lines0, l)
    requires forall l :: l in lines0 && l !in ls[keep..keep + SLICE * k] ==> before[l] == lines0[l]
    requires forall j, l :: 0 <= j < k && l in Slice(ls, keep, j) && l in lines0 ==> before[l].parent == To(made[j])
    requires forall j, l :: 0 <= j < k && l in Slice(ls, keep, j) ==> l !in Slice(ls, keep, k)
    requires forall l :: l in ls[keep..keep + SLICE * (k + 1)] <==>
               l in ls[keep..keep + SLICE * k] || l in Slice(ls, keep, k)
    ensures var lines := SetParents(before, Slice(ls, keep, k), To(made[k]));
            && lines.Keys == lines0.Keys
            && (forall l :: LineHeight(lines, l) == LineHeight(lines0, l))
            && (forall l :: l in lines0 && l !in ls[keep..keep + SLICE * |made|] ==> lines[l] == lines0[l])
            && (forall j, l :: 0 <= j < |made| && l in Slice(ls, keep, j) && l in lines0 ==>
              lines[l].parent == To(made[j]))
  {
    hide Slice;
  }

  lemma LongerSlice(ls: seq<Ref>, keep: nat, k: nat)
    requires keep + SLICE * (k + 1) <= |ls|
    ensures forall l :: l in ls[keep..keep + SLICE * (k + 1)] <==>
              l in ls[keep..keep + SLICE * k] || l in Slice(ls, keep, k)
  {
    assert ls[keep..keep + SLICE * (k + 1)] == ls[keep..keep + SLICE * k] + Slice(ls, keep, k);
  }

  lemma SlicesApart(ls: seq<Ref>, keep: nat, k: nat)
    requires keep + SLICE * (k + 1) <= |ls| && NoRepeats(ls)
    ensures forall j, l :: 0 <= j < k && l in Slice(ls, keep, j) ==> l !in Slice(ls, keep, k)
    ensures forall l :: l in ls[..keep] ==> l !in Slice(ls, keep, k)
  {
    forall j, l | 0 <= j < k && l in Slice(ls, keep, j)
      ensures l !in Slice(ls, keep, k)
    {
      var a :| 0 <= a < SLICE && Slice(ls, keep, j)[a] == l;
      assert ls[keep + SLICE * j + a] == l;
    }
  }

  lemma {:induction false} MadeContent(content: Content, content': Content, ls: seq<Ref>, keep: nat, made: seq<Ref>)
    requires keep + SLICE * |made| <= |ls|
    requires forall k :: 0 <= k < |made| ==> At(content', made[k]) == Slice(ls, keep, k)
    ensures Flatten(content', made) == ls[keep..keep + SLICE * |made|]
    decreases |made|
  {
    if made != [] {
      hide At, Flatten;
      var k := |made| - 1;
      MadeContent(content, content', ls, keep, made[..k]);
      FlattenAt(content', made, k);
      assert made[..k + 1] == made;
      SliceBehind(ls, keep, k);
    } else {
      assert ls[keep..keep] == [];
    }
  }

  lemma SliceBehind(ls: seq<Ref>, keep: nat, k: nat)
    requires keep + SLICE * (k + 1) <= |ls|
    ensures ls[keep..keep + SLICE * (k + 1)] == ls[keep..keep + SLICE * k] + Slice(ls, keep, k)
  {
  }

  ghost predicate CanCut(v: View, r: Ref, i: nat, keep: nat, made: seq<Ref>) {
    && Consistent(v, v.content) && r in v.live && v.nodes[r].Branch? && i < |v.nodes[r].children|
    && v.nodes[r].children[i] in v.live && v.nodes[v.nodes[r].children[i]].Leaf?
    && NoRepeats(made) && (forall x :: x in made ==> x !in v.nodes)
    && keep + SLICE * |made| == |v.nodes[v.nodes[r].children[i]].lines|
  }

  /** The `i`-th child of `r`, a leaf, keeps its first `keep` lines; the others go to new leaves
      behind it. */
  ghost function Cut(v: View, r: Ref, i: nat, keep: nat, made: seq<Ref>): View
    requires CanCut(v, r, i, keep, made)
  {
    var n := v.nodes[r];
    var c := n.children[i];
    var ls := v.nodes[c].lines;
    View(NodesWith(v.nodes, v.lines, ls, keep, made, r)
           [c := Leaf(ls[..keep], v.nodes[c].height - Heights(v.lines, ls[keep..]), v.nodes[c].parent)]
           [r := n.(children := n.children[..i + 1] + made + n.children[i + 1..])],
         LinesWith(v.lines, ls, keep, made), v.root, v.live + (set x | x in made),
         ContentWith(v.content, ls, keep, made)[c := ls[..keep]],
         RankWith(v.rank, made, v.rank[c]))
  }

  lemma CutNodes(v: View, r: Ref, i: nat, keep: nat, made: seq<Ref>)
    requires CanCut(v, r, i, keep, made)
    ensures var v', n := Cut(v, r, i, keep, made), v.nodes[r];
            var c := n.children[i];
            var ls := v.nodes[c].lines;
            && c != r && c in v.live && v.nodes[c].parent == To(r)
            && v'.nodes.Keys == v.nodes.Keys + (set x | x in made)
            && v'.nodes[c] == Leaf(ls[..keep], v.nodes[c].height - Heights(v.lines, ls[keep..]), To(r))
            && v'.nodes[r] == n.(children := n.children[..i + 1] + made + n.children[i + 1..])
            && (forall x :: x in v.nodes && x != c && x != r ==> v'.nodes[x] == v.nodes[x])
            && (forall k :: 0 <= k < |made| ==>
                  v'.nodes[made[k]] == Leaf(Slice(ls, keep, k), Heights(v.lines, Slice(ls, keep, k)), To(r)))
  {
    hide Slice, Heights;
    ChildIsLive(v, v.content, r, i);
    var n := v.nodes[r];
    MadeNodes(v, v.nodes[n.children[i]].lines, keep, made, r);
  }

  lemma CutRest(v: View, r: Ref, i: nat, keep: nat, made: seq<Ref>)
    requires CanCut(v, r, i, keep, made)
    ensures var v', c := Cut(v, r, i, keep, made), v.nodes[r].children[i];
            var ls := v.nodes[c].lines;
            && NoRepeats(ls) && c in v.live && v.content[c] == ls
            && v'.live == v.live + (set x | x in made) && v'.root == v.root
            && v'.content.Keys == v.content.Keys + (set x | x in made) && v'.content[c] == ls[..keep]
            && (forall x :: x !in made && x != c ==> At(v'.content, x) == At(v.content, x))
            && (forall k :: 0 <= k < |made| ==> v'.content[made[k]] == Slice(ls, keep, k))
            && v'.rank.Keys == v.rank.Keys + (set x | x in made)
            && (forall x :: x in v.rank && x !in made ==> v'.rank[x] == v.rank[x])
            && (forall x :: x in made ==> v'.rank[x] == v.rank[c])
  {
    hide Slice, Heights;
    ChildIsLive(v, v.content, r, i);
    var c := v.nodes[r].children[i];
    assert Linked(v, c) && Summed(v, v.content, c);
    MadeEntries(v, v.nodes[c].lines, keep, made);
    MadeRanks(v.rank, made, v.rank[c]);
    assert forall x :: x in made ==> x != c;
  }

  lemma CutLines(v: View, r: Ref, i: nat, keep: nat, made: seq<Ref>)
    requires CanCut(v, r, i, keep, made)
    ensures var v', ls := Cut(v, r, i, keep, made), v.nodes[v.nodes[r].children[i]].lines;
            && v'.lines.Keys == v.lines.Keys
            && (forall l :: LineHeight(v'.lines, l) == LineHeight(v.lines, l))
            && (forall l :: l in v.lines && l !in ls[keep..] ==> v'.lines[l] == v.lines[l])
            && (forall k, l :: 0 <= k < |made| && l in Slice(ls, keep, k) ==>
                  l in v.lines && v'.lines[l].parent == To(made[k]))
  {
    hide Flatten, Heights, NodesWith, ContentWith, RankWith, LinesWith, Summed;
    var c := v.nodes[r].children[i];
    var ls := v.nodes[c].lines;
    CutRest(v, r, i, keep, made);
    MadeLines(v, ls, keep, made);
    assert ls[keep..keep + SLICE * |made|] == ls[keep..];
    assert Linked(v, c);
    forall k, l | 0 <= k < |made| && l in Slice(ls, keep, k)
      ensures l in v.lines
    {
      assert l in ls;
    }
  }

  lemma CutLinked(v: View, r: Ref, i: nat, keep: nat, made: seq<Ref>, x: Ref)
    requires CanCut(v, r, i, keep, made) && x in Cut(v, r, i, keep, made).live
    ensures var v' := Cut(v, r, i, keep, made); x in v'.nodes && Linked(v', x)
  {
    hide Cut, Heights, Summed, Slice;
    CutNodes(v, r, i, keep, made);
    CutRest(v, r, i, keep, made);
    var v', c := Cut(v, r, i, keep, made), v.nodes[r].children[i];
    if x == r {
      CutParentLinked(v, r, i, keep, made);
    } else if x == c || x in made {
      CutLeafLinked(v, r, i, keep, made, x);
    } else {
      CutOtherLinked(v, r, i, keep, made, x);
    }
  }

  lemma CutParentLinked(v: View, r: Ref, i: nat, keep: nat, made: seq<Ref>)
    requires CanCut(v, r, i, keep, made)
    ensures var v' := Cut(v, r, i, keep, made); r in v'.nodes && Linked(v', r)
  {
    hide Cut, Heights, Summed, Slice;
    CutNodes(v, r, i, keep, made);
    CutRest(v, r, i, keep, made);
    var v', n := Cut(v, r, i, keep, made), v.nodes[r];
    assert Linked(v, r);
    forall c | c in v'.nodes[r].children
      ensures ChildOf(v', c, r)
    {
      if c in made {
        var k :| 0 <= k < |made| && made[k] == c;
        assert ChildOf(v, n.children[i], r);
      } else {
        assert c in n.children;
        assert ChildOf(v, c, r);
      }
    }
    forall c | c in n.children
      ensures c !in made
    {
      assert ChildOf(v, c, r);
    }
    assert n.children[..i + 1] + made + n.children[i + 1..] == Splice(n.children, i + 1, made);
    SpliceNoRepeats(n.children, i + 1, made);
    if r != v.root {
      assert v'.nodes[n.parent.ref].children == v.nodes[n.parent.ref].children;
    }
  }

  lemma CutLeafLinked(v: View, r: Ref, i: nat, keep: nat, made: seq<Ref>, x: Ref)
    requires CanCut(v, r, i, keep, made) && (x == v.nodes[r].children[i] || x in made)
    ensures var v' := Cut(v, r, i, keep, made); x in v'.nodes && Linked(v', x)
  {
    hide Cut, Heights, Summed, NoRepeats;
    CutNodes(v, r, i, keep, made);
    CutRest(v, r, i, keep, made);
    CutLines(v, r, i, keep, made);
    var v', c := Cut(v, r, i, keep, made), v.nodes[r].children[i];
    var ls := v.nodes[c].lines;
    assert Linked(v, c) && Linked(v, r);
    assert x in v'.nodes[r].children;
    assert x != v.root;
    if x == c {
      SliceParts(ls, keep);
    } else {
      var k :| 0 <= k < |made| && made[k] == x;
      SliceLines(ls, keep, k);
      hide Slice;
    }
  }

  lemma SliceParts(ls: seq<Ref>, keep: nat)
    requires NoRepeats(ls) && keep <= |ls|
    ensures NoRepeats(ls[..keep]) && forall l :: l in ls[..keep] ==> l in ls && l !in ls[keep..]
  {
  }

  lemma SliceLines(ls: seq<Ref>, keep: nat, k: nat)
    requires NoRepeats(ls) && keep + SLICE * (k + 1) <= |ls|
    ensures NoRepeats(Slice(ls, keep, k)) && forall l :: l in Slice(ls, keep, k) ==> l in ls
  {
  }

  lemma CutOtherLinked(v: View, r: Ref, i: nat, keep: nat, made: seq<Ref>, x: Ref)
    requires CanCut(v, r, i, keep, made) && x in v.live && x != r && x != v.nodes[r].children[i]
    ensures var v' := Cut(v, r, i, keep, made); x in v'.nodes && Linked(v', x)
  {
    hide Cut, Heights, Summed, Slice;
    CutNodes(v, r, i, keep, made);
    CutRest(v, r, i, keep, made);
    CutLines(v, r, i, keep, made);
    var v', c := Cut(v, r, i, keep, made), v.nodes[r].children[i];
    var ls := v.nodes[c].lines;
    assert Linked(v, x) && Linked(v, c);
    assert x !in made;
    if v.nodes[x].Branch? {
      forall y | y in v.nodes[x].children
        ensures ChildOf(v', y, x)
      {
        assert ChildOf(v, y, x);
      }
    } else {
      forall l | l in v.nodes[x].lines
        ensures l in v'.lines && v'.lines[l].parent == To(x)
      {
        assert v.lines[l].parent == To(x);
        assert forall y :: y in ls ==> v.lines[y].parent == To(c);
        assert l in ls[keep..] ==> l in ls;
      }
    }
    if x != v.root {
      var q := v.nodes[x].parent.ref;
      assert x in v'.nodes[q].children;
    }
  }

  lemma CutSummed(v: View, r: Ref, i: nat, keep: nat, made: seq<Ref>, x: Ref)
    requires CanCut(v, r, i, keep, made) && x in Cut(v, r, i, keep, made).live
    ensures var v' := Cut(v, r, i, keep, made); x in v'.nodes && x in v'.content && Summed(v', v'.content, x)
  {
    hide Cut, Heights, Flatten, Slice, Linked;
    CutNodes(v, r, i, keep, made);
    CutRest(v, r, i, keep, made);
    CutLines(v, r, i, keep, made);
    var v', c := Cut(v, r, i, keep, made), v.nodes[r].children[i];
    var ls := v.nodes[c].lines;
    assert Summed(v, v.content, c) && Summed(v, v.content, r);
    HeightsSame(v.lines, v'.lines, v'.content[x]);
    if x == c {
      assert ls == ls[..keep] + ls[keep..];
      HeightsConcat(v.lines, ls[..keep], ls[keep..]);
    } else if x in made {
      var k :| 0 <= k < |made| && made[k] == x;
    } else if x == r {
      CutParentContent(v, r, i, keep, made);
    } else {
      assert Summed(v, v.content, x);
      if v.nodes[x].Branch? {
        CutOthersChildren(v, r, i, keep, made, x);
        FlattenSame(v'.content, v.content, v.nodes[x].children);
      }
    }
  }

  lemma CutOthersChildren(v: View, r: Ref, i: nat, keep: nat, made: seq<Ref>, x: Ref)
    requires CanCut(v, r, i, keep, made) && x in v.live && x != r && v.nodes[x].Branch?
    ensures forall y :: y in v.nodes[x].children ==> y !in made && y != v.nodes[r].children[i]
  {
    ChildIsLive(v, v.content, r, i);
    assert Linked(v, x);
    forall y | y in v.nodes[x].children
      ensures y !in made && y != v.nodes[r].children[i]
    {
      assert ChildOf(v, y, x);
    }
  }

  lemma CutParentContent(v: View, r: Ref, i: nat, keep: nat, made: seq<Ref>)
    requires CanCut(v, r, i, keep, made)
    ensures var v', n := Cut(v, r, i, keep, made), v.nodes[r];
            Flatten(v'.content, n.children[..i + 1] + made + n.children[i + 1..]) == Flatten(v.content, n.children)
  {
    hide Cut, Heights, Flatten, Slice;
    CutRest(v, r, i, keep, made);
    var v', cs := Cut(v, r, i, keep, made), v.nodes[r].children;
    var c := cs[i];
    var ls := v.nodes[c].lines;
    assert Linked(v, r);
    forall y | y in cs
      ensures y !in made
    {
      assert ChildOf(v, y, r);
    }
    OthersInList(cs, i);
    FlattenSame(v'.content, v.content, cs[..i]);
    FlattenSame(v'.content, v.content, cs[i + 1..]);
    FlattenAt(v.content, cs, i);
    FlattenAt(v'.content, cs, i);
    MadeContent(v.content, v'.content, ls, keep, made);
    FlattenConcat(v'.content, cs[..i + 1] + made, cs[i + 1..]);
    FlattenConcat(v'.content, cs[..i + 1], made);
    assert ls[keep..keep + SLICE * |made|] == ls[keep..];
    assert ls == ls[..keep] + ls[keep..];
    Regroup(Flatten(v.content, cs[..i]), ls[..keep], ls[keep..], Flatten(v.content, cs[i + 1..]));
  }

  /** Cutting up a leaf keeps the tree consistent and changes neither the lines nor their order. */
  lemma CutKeeps(v: View, r: Ref, i: nat, keep: nat, made: seq<Ref>)
    requires CanCut(v, r, i, keep, made)
    ensures var v' := Cut(v, r, i, keep, made);
            Consistent(v', v'.content) && v'.content[v.root] == v.content[v.root]
  {
    hide Cut, Linked, Summed;
    CutNodes(v, r, i, keep, made);
    CutRest(v, r, i, keep, made);
    var v' := Cut(v, r, i, keep, made);
    forall x | x in v'.live
      ensures x in v'.nodes && x in v'.content && Linked(v', x) && Summed(v', v'.content, x)
    {
      CutLinked(v, r, i, keep, made, x);
      CutSummed(v, r, i, keep, made, x);
    }
    assert v.root !in made;
  }
}
