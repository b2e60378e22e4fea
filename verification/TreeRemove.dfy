/** Removing lines: chunks whose sums are suspended while their children change, chunks that leave
    the tree, and small branches that collapse into one leaf. */
module TreeRemove {
  import opened LineTree
  import opened TreeInsert

  function Removed(s: seq<Ref>, at: int, n: int): seq<Ref>
    requires 0 <= at && 0 <= n && at + n <= |s|
  {
    s[..at] + s[at + n..]
  }

  /** A consistent tree, except that nothing is known about the sums of the chunks in `busy`. */
  ghost predicate Partial(v: View, busy: set<Ref>) {
    && Shaped(v)
    && (forall r :: r in v.live ==> Linked(v, r))
    && (forall r :: r in v.live && r !in busy ==> Summed(v, v.content, r))
  }

  lemma PartialIsConsistent(v: View)
    requires Shaped(v)
    ensures Consistent(v, v.content) <==> Partial(v, {}) && NoRepeats(v.content[v.root])
  {
    hide Linked, Summed, NoRepeats;
    assert forall r :: r in v.live ==> r !in {};
    if Partial(v, {}) {
      forall r | r in v.live
        ensures Summed(v, v.content, r)
      {
        assert r !in {};
      }
    }
  }

  // ----- what lies below a chunk -----

  ghost predicate IsBelow(v: View, x: Ref, r: Ref)
    requires r in v.rank
    decreases v.rank[r]
  {
    x == r
    || (r in v.nodes && v.nodes[r].Branch?
        && exists c :: c in v.nodes[r].children && c in v.rank && v.rank[c] < v.rank[r] && IsBelow(v, x, c))
  }

  ghost predicate AllLinked(v: View) {
    Shaped(v) && forall r :: r in v.live ==> Linked(v, r)
  }

  lemma {:induction false} ChildIsBelow(v: View, x: Ref, y: Ref, r: Ref)
    requires AllLinked(v) && r in v.live && x in v.live && IsBelow(v, x, r) && v.nodes[x].Branch?
             && y in v.nodes[x].children
    ensures IsBelow(v, y, r)
    decreases v.rank[r]
  {
    if x == r {
      assert Linked(v, r);
      assert ChildOf(v, y, r);
      assert IsBelow(v, y, y);
    } else {
      var c :| c in v.nodes[r].children && c in v.rank && v.rank[c] < v.rank[r] && IsBelow(v, x, c);
      assert Linked(v, r);
      assert ChildOf(v, c, r);
      ChildIsBelow(v, x, y, c);
    }
  }

  lemma {:induction false} ParentIsBelow(v: View, x: Ref, r: Ref)
    requires AllLinked(v) && r in v.live && IsBelow(v, x, r) && x != r
    ensures x in v.live && v.rank[x] < v.rank[r] && v.nodes[x].parent.To?
    ensures IsBelow(v, v.nodes[x].parent.ref, r)
    decreases v.rank[r]
  {
    var c :| c in v.nodes[r].children && c in v.rank && v.rank[c] < v.rank[r] && IsBelow(v, x, c);
    assert Linked(v, r);
    assert ChildOf(v, c, r);
    if x == c {
      assert IsBelow(v, r, r);
    } else {
      ParentIsBelow(v, x, c);
    }
  }

  lemma {:induction false} BelowIsLive(v: View, x: Ref, r: Ref)
    requires AllLinked(v) && r in v.live && IsBelow(v, x, r)
    ensures x in v.live && v.rank[x] <= v.rank[r] && (x == r || x != v.root)
  {
    if x != r {
      ParentIsBelow(v, x, r);
      assert Linked(v, v.root);
    }
  }

  /** Chunks of which every ancestor is one too. */
  ghost predicate Kept(v: View, keep: set<Ref>) {
    && keep <= v.live <= v.nodes.Keys
    && forall x :: x in keep && x != v.root ==> v.nodes[x].parent.To? && v.nodes[x].parent.ref in keep
  }

  lemma {:induction false} KeptIsNotBelow(v: View, keep: set<Ref>, x: Ref, r: Ref)
    requires AllLinked(v) && Kept(v, keep) && r in v.live && r !in keep && IsBelow(v, x, r)
    ensures x !in keep
    decreases v.rank[r]
  {
    if x != r {
      var c :| c in v.nodes[r].children && c in v.rank && v.rank[c] < v.rank[r] && IsBelow(v, x, c);
      assert Linked(v, r) && Linked(v, v.root);
      assert ChildOf(v, c, r);
      KeptIsNotBelow(v, keep, x, c);
    }
  }

  /** The leaf that holds a line below `c` is below `c`. */
  lemma {:induction false} LineIsBelow(v: View, busy: set<Ref>, keep: set<Ref>, c: Ref, l: Ref)
    requires Partial(v, busy) && Kept(v, keep) && busy <= keep && c in v.live && c !in keep && l in v.content[c]
    ensures l in v.lines && v.lines[l].parent.To?
    ensures var p := v.lines[l].parent.ref; IsBelow(v, p, c) && p in v.live && v.nodes[p].Leaf? && l in v.nodes[p].lines
    decreases v.rank[c]
  {
    assert Linked(v, c) && Summed(v, v.content, c);
    if v.nodes[c].Branch? {
      var i := InSomeChild(v.content, v.nodes[c].children, l);
      var d := v.nodes[c].children[i];
      assert ChildOf(v, d, c) && Linked(v, v.root);
      LineIsBelow(v, busy, keep, d, l);
    }
  }

  // ----- a busy branch changes its caches, or lets children go -----

  ghost predicate Rehung(v: View, v': View, r: Ref, gone: set<Ref>) {
    && r in v.nodes && r in v'.nodes && v.live <= v.nodes.Keys && v.live <= v.content.Keys
    && v'.live == v.live - gone && v'.live <= v'.nodes.Keys && v'.live <= v'.content.Keys
    && v'.lines == v.lines && v'.root == v.root && v'.rank == v.rank
    && (forall x :: x in v'.live && x != r ==> v'.nodes[x] == v.nodes[x] && v'.content[x] == v.content[x])
    && v.nodes[r].Branch? && v'.nodes[r].Branch? && v'.nodes[r].parent == v.nodes[r].parent
    && NoRepeats(v'.nodes[r].children)
    && (forall c :: c in v'.nodes[r].children <==> c in v.nodes[r].children && c !in gone)
  }

  /** A set of chunks that is cut off from the rest when `r` lets go of them. */
  ghost predicate Severed(v: View, r: Ref, gone: set<Ref>) {
    && gone <= v.live <= v.nodes.Keys && r !in gone && v.root !in gone
    && (forall x :: x in gone && v.nodes[x].Branch? ==> forall c :: c in v.nodes[x].children ==> c in gone)
    && (forall x :: x in v.live && x !in gone && x != r && v.nodes[x].Branch? ==>
          forall c :: c in v.nodes[x].children ==> c !in gone)
  }

  lemma RehungLinked(v: View, v': View, r: Ref, gone: set<Ref>, x: Ref)
    requires AllLinked(v) && r in v.live && Severed(v, r, gone) && Rehung(v, v', r, gone) && x in v'.live
    ensures Linked(v', x)
  {
    assert Linked(v, x) && Linked(v, r);
    if x != v.root {
      var q := v.nodes[x].parent.ref;
      assert q !in gone;
      assert x in v'.nodes[q].children;
    }
    if v'.nodes[x].Branch? {
      forall c | c in v'.nodes[x].children
        ensures ChildOf(v', c, x)
      {
        assert c in v.nodes[x].children && c !in gone;
        assert ChildOf(v, c, x);
        NotItself(v, r);
      }
    }
  }

  lemma NotItself(v: View, r: Ref)
    requires AllLinked(v) && r in v.live && v.nodes[r].Branch?
    ensures r !in v.nodes[r].children
  {
    assert Linked(v, r);
    assert r in v.nodes[r].children ==> ChildOf(v, r, r);
  }

  lemma RehungKeeps(v: View, v': View, busy: set<Ref>, r: Ref, gone: set<Ref>)
    requires Partial(v, busy) && r in v.live && r in busy && Severed(v, r, gone) && Rehung(v, v', r, gone)
    requires r == v.root || (v.nodes[r].parent.To? && v.nodes[r].parent.ref in busy)
    ensures Partial(v', busy)
  {
    hide Flatten, Heights, Linked;
    forall x | x in v'.live
      ensures Linked(v', x)
    {
      RehungLinked(v, v', r, gone, x);
    }
    forall x | x in v'.live && x !in busy
      ensures Summed(v', v'.content, x)
    {
      assert Summed(v, v.content, x);
      if v.nodes[x].Branch? {
        OtherChildren(v, r, x);
        forall c | c in v.nodes[x].children
          ensures At(v'.content, c) == At(v.content, c)
        {
          assert c !in gone;
        }
        FlattenSame(v'.content, v.content, v.nodes[x].children);
      }
    }
  }

  lemma OtherChildren(v: View, r: Ref, x: Ref)
    requires AllLinked(v) && r in v.live && x in v.live && v.nodes[x].Branch?
    requires r == v.root || v.nodes[r].parent != To(x)
    ensures forall c :: c in v.nodes[x].children ==> c != r && c in v.live
  {
    assert Linked(v, x) && Linked(v, r);
    forall c | c in v.nodes[x].children
      ensures c != r && c in v.live
    {
      assert ChildOf(v, c, x);
    }
  }

  /** Everything strictly below `r`. */
  ghost function Under(v: View, r: Ref): set<Ref>
    requires r in v.rank
  {
    set x | x in v.live && x != r && IsBelow(v, x, r)
  }

  lemma UnderIsSevered(v: View, r: Ref)
    requires AllLinked(v) && r in v.live
    ensures Severed(v, r, Under(v, r))
  {
    var gone := Under(v, r);
    assert v.root !in gone by {
      if v.root in gone {
        BelowIsLive(v, v.root, r);
      }
    }
    forall x, c | x in gone && v.nodes[x].Branch? && c in v.nodes[x].children
      ensures c in gone
    {
      ChildUnder(v, r, x, c);
    }
    forall x, c | x in v.live && x !in gone && x != r && v.nodes[x].Branch? && c in v.nodes[x].children
      ensures c !in gone
    {
      NotUnder(v, r, x, c);
    }
  }

  lemma ChildUnder(v: View, r: Ref, x: Ref, c: Ref)
    requires AllLinked(v) && r in v.live && x in Under(v, r) && v.nodes[x].Branch? && c in v.nodes[x].children
    ensures c in Under(v, r)
  {
    ChildIsBelow(v, x, c, r);
    BelowIsLive(v, c, r);
    ParentIsBelow(v, x, r);
    assert Linked(v, x);
    assert ChildOf(v, c, x);
  }

  lemma NotUnder(v: View, r: Ref, x: Ref, c: Ref)
    requires AllLinked(v) && r in v.live && x in v.live && x !in Under(v, r) && x != r
    requires v.nodes[x].Branch? && c in v.nodes[x].children
    ensures c !in Under(v, r)
  {
    assert Linked(v, x);
    assert ChildOf(v, c, x);
    if IsBelow(v, c, r) && c != r {
      ParentIsBelow(v, c, r);
    }
  }

  /** Everything below a child `c` of `r`, and `c`. */
  ghost function Branching(v: View, c: Ref): set<Ref>
    requires c in v.rank
  {
    set x | x in v.live && IsBelow(v, x, c)
  }

  lemma BranchingIsSevered(v: View, r: Ref, c: Ref)
    requires AllLinked(v) && r in v.live && v.nodes[r].Branch? && c in v.nodes[r].children
    ensures c in v.rank && c in v.live && Severed(v, r, Branching(v, c))
    ensures forall d :: d in v.nodes[r].children && d in Branching(v, c) ==> d == c
  {
    assert Linked(v, r) && Linked(v, v.root);
    assert ChildOf(v, c, r);
    var gone := Branching(v, c);
    UnderIsSevered(v, c);
    assert gone == Under(v, c) + {c} by { assert IsBelow(v, c, c); }
    forall d | v.nodes[c].Branch? && d in v.nodes[c].children
      ensures d in gone
    {
      ChildIsBelow(v, c, d, c);
      BelowIsLive(v, d, c);
    }
    forall x | x in v.live && v.nodes[x].Branch? && c in v.nodes[x].children
      ensures x == r
    {
      assert Linked(v, x);
      assert ChildOf(v, c, x);
    }
    forall d | d in v.nodes[r].children && d in gone
      ensures d == c
    {
      assert ChildOf(v, d, r);
      if d != c {
        ParentIsBelow(v, d, c);
        BelowIsLive(v, r, c);
      }
    }
    forall x | x in gone
      ensures x != r && x != v.root
    {
      BelowIsLive(v, x, c);
    }
  }

  // ----- a leaf loses lines -----

  ghost function LeafCut(v: View, c: Ref, at: int, n: int): View
    requires c in v.nodes && v.nodes[c].Leaf? && 0 <= at && 0 <= n && at + n <= |v.nodes[c].lines|
  {
    var cn := v.nodes[c];
    v.(nodes := v.nodes[c := Leaf(Removed(cn.lines, at, n), cn.height - Heights(v.lines, cn.lines[at..at + n]),
      cn.parent)],
       lines := SetParents(v.lines, cn.lines[at..at + n], Null),
       content := v.content[c := Removed(cn.lines, at, n)])
  }

  lemma RemovedHeights(lines: map<Ref, Line>, s: seq<Ref>, at: int, n: int)
    requires 0 <= at && 0 <= n && at + n <= |s|
    ensures Heights(lines, Removed(s, at, n)) == Heights(lines, s) - Heights(lines, s[at..at + n])
  {
    assert s == s[..at] + s[at..at + n] + s[at + n..];
    HeightsConcat(lines, s[..at] + s[at..at + n], s[at + n..]);
    HeightsConcat(lines, s[..at], s[at..at + n]);
    HeightsConcat(lines, s[..at], s[at + n..]);
  }

  lemma RemovedNoRepeats(s: seq<Ref>, at: int, n: int)
    requires 0 <= at && 0 <= n && at + n <= |s| && NoRepeats(s)
    ensures NoRepeats(Removed(s, at, n)) && NoRepeats(s[at..at + n])
    ensures forall l :: l in Removed(s, at, n) ==> l in s && l !in s[at..at + n]
  {
    var t := Removed(s, at, n);
    assert forall k :: 0 <= k < |t| ==> t[k] == if k < at then s[k] else s[k + n];
  }

  lemma LeafCutLinked(v: View, busy: set<Ref>, c: Ref, at: int, n: int, x: Ref)
    requires Partial(v, busy) && c in v.live && v.nodes[c].Leaf? && x in v.live
    requires 0 <= at && 0 <= n && at + n <= |v.nodes[c].lines|
    ensures Linked(LeafCut(v, c, at, n), x)
  {
    hide Flatten, Heights, Summed;
    var v', ls := LeafCut(v, c, at, n), v.nodes[c].lines;
    assert Linked(v, x) && Linked(v, c);
    RemovedNoRepeats(ls, at, n);
    if v.nodes[x].Branch? {
      forall y | y in v.nodes[x].children
        ensures ChildOf(v', y, x)
      {
        assert ChildOf(v, y, x);
      }
    } else {
      forall l | l in v'.nodes[x].lines
        ensures l in v'.lines && v'.lines[l].parent == To(x)
      {
        assert l in v.nodes[x].lines;
        assert forall y :: y in ls ==> v.lines[y].parent == To(c);
        assert l in ls[at..at + n] ==> l in ls;
      }
    }
  }

  lemma LeafCutKeeps(v: View, busy: set<Ref>, c: Ref, at: int, n: int)
    requires Partial(v, busy) && c in v.live && v.nodes[c].Leaf? && c !in busy
    requires v.nodes[c].parent.To? && v.nodes[c].parent.ref in busy
    requires 0 <= at && 0 <= n && at + n <= |v.nodes[c].lines|
    ensures Partial(LeafCut(v, c, at, n), busy)
  {
    hide Flatten, Heights, Linked;
    var v', cn := LeafCut(v, c, at, n), v.nodes[c];
    forall x | x in v'.live
      ensures Linked(v', x)
    {
      LeafCutLinked(v, busy, c, at, n, x);
    }
    forall l
      ensures LineHeight(v'.lines, l) == LineHeight(v.lines, l)
    {
    }
    forall x | x in v'.live && x !in busy
      ensures Summed(v', v'.content, x)
    {
      assert Summed(v, v.content, x);
      HeightsSame(v.lines, v'.lines, v'.content[x]);
      if x == c {
        RemovedHeights(v.lines, cn.lines, at, n);
      } else if v.nodes[x].Branch? {
        OtherChildren(v, c, x);
        FlattenSame(v'.content, v.content, v.nodes[x].children);
      }
    }
  }

  // ----- a branch without children gets one leaf -----

  ghost predicate Orphans(v: View, ls: seq<Ref>) {
    NoRepeats(ls) && forall l :: l in ls ==>
      l in v.lines && (v.lines[l].parent.To? ==> v.lines[l].parent.ref !in v.live)
  }

  ghost function OneLeaf(v: View, r: Ref, leaf: Ref, ls: seq<Ref>): View
    requires r in v.nodes && v.nodes[r].Branch?
  {
    var n := v.nodes[r];
    View(v.nodes[leaf := Leaf(ls, Heights(v.lines, ls), To(r))][r := Branch([leaf], n.size, n.height, n.parent)],
         SetParents(v.lines, ls, To(leaf)), v.root, v.live + {leaf}, v.content[leaf := ls], v.rank[leaf := 0])
  }

  lemma OneLeafLinked(v: View, r: Ref, leaf: Ref, ls: seq<Ref>, x: Ref)
    requires AllLinked(v) && r in v.live && v.nodes[r].Branch? && v.nodes[r].children == [] && v.rank[r] > 0
    requires leaf !in v.nodes && Orphans(v, ls) && x in v.live + {leaf}
    ensures Linked(OneLeaf(v, r, leaf, ls), x)
  {
    hide Heights;
    var v' := OneLeaf(v, r, leaf, ls);
    assert Linked(v, r);
    assert leaf !in v.live;
    if x == r {
      assert ChildOf(v', leaf, r);
    } else if x != leaf {
      assert Linked(v, x);
      if v.nodes[x].Branch? {
        forall y | y in v.nodes[x].children
          ensures ChildOf(v', y, x)
        {
          assert ChildOf(v, y, x);
        }
      } else {
        forall l | l in v.nodes[x].lines
          ensures l in v'.lines && v'.lines[l].parent == To(x)
        {
          assert v.lines[l].parent == To(x);
        }
      }
      if x != v.root {
        assert x in v'.nodes[v.nodes[x].parent.ref].children;
      }
    } else {
      assert leaf in v'.nodes[r].children;
    }
  }

  lemma OneLeafKeeps(v: View, busy: set<Ref>, r: Ref, leaf: Ref, ls: seq<Ref>)
    requires Partial(v, busy) && r in v.live && r in busy && v.nodes[r].Branch? && v.nodes[r].children == []
             && v.rank[r] > 0
    requires leaf !in v.nodes && Orphans(v, ls)
    ensures Partial(OneLeaf(v, r, leaf, ls), busy)
  {
    hide Flatten, Heights, Linked;
    var v' := OneLeaf(v, r, leaf, ls);
    forall x | x in v'.live
      ensures Linked(v', x)
    {
      OneLeafLinked(v, r, leaf, ls, x);
    }
    forall l
      ensures LineHeight(v'.lines, l) == LineHeight(v.lines, l)
    {
    }
    forall x | x in v'.live && x !in busy
      ensures Summed(v', v'.content, x)
    {
      HeightsSame(v.lines, v'.lines, v'.content[x]);
      if x != leaf {
        assert Summed(v, v.content, x);
        if v.nodes[x].Branch? {
          LiveChildren(v, x);
          FlattenSame(v'.content, v.content, v.nodes[x].children);
        }
      }
    }
  }

  lemma LiveChildren(v: View, x: Ref)
    requires AllLinked(v) && x in v.live && v.nodes[x].Branch?
    ensures forall c :: c in v.nodes[x].children ==> c in v.live
  {
    assert Linked(v, x);
    forall c | c in v.nodes[x].children
      ensures c in v.live
    {
      assert ChildOf(v, c, x);
    }
  }
}
