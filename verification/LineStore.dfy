/** The line tree as the document updates it: chunks and lines in a store, changed in place. */
module LineStore {
  import opened LineTree
  import opened TreeSpill
  import opened TreeInsert
  import opened TreeRemove
  import opened TreeRemoval
  import opened TreeLookup

  ghost function Above(v: View, r: Ref): set<Ref> {
    set x | x in v.live && x in v.rank && r in v.rank && v.rank[x] > v.rank[r]
  }

  lemma AboveShrinks(v: View, r: Ref, v': View, p: Ref)
    requires r in v.rank && p in v.rank && p in v.live && v.rank[p] > v.rank[r]
    requires p in v'.rank && v'.rank[p] == v.rank[p]
    requires forall x :: x in v'.live && x in v'.rank && v'.rank[x] > v'.rank[p] ==>
               x in v.live && x in v.rank && v.rank[x] == v'.rank[x]
    ensures |Above(v', p)| < |Above(v, r)|
  {
    assert p in Above(v, r) && p !in Above(v', p);
    SubsetSize(Above(v', p) + {p}, Above(v, r));
  }

  lemma {:induction false} SubsetSize(a: set<Ref>, b: set<Ref>)
    requires a <= b
    ensures |a| <= |b|
  {
    if a != {} {
      var x :| x in a;
      SubsetSize(a - {x}, b - {x});
    }
  }

  /** What one turn of the spill loop does. */
  ghost function Spilt(v: View, me: Ref, copy: Ref, sib: Ref): View
    requires if me == v.root then CanDeepen(v, copy) && Deepened(v, copy, sib) else CanSpill(v, me, sib)
  {
    if me == v.root then SpillOff(Deepen(v, copy), copy, sib) else SpillOff(v, me, sib)
  }

  ghost predicate Deepened(v: View, copy: Ref, sib: Ref)
    requires CanDeepen(v, copy)
  {
    CanSpill(Deepen(v, copy), copy, sib)
  }

  ghost predicate Summarised(nodes: map<Ref, Node>, lines: map<Ref, Line>, content: Content, c: Ref) {
    c in nodes && c in content && Size(nodes[c]) == |content[c]| && nodes[c].height == Heights(lines, content[c])
  }

  lemma ChildrenSummarised(v: View, me: Ref)
    requires Consistent(v, v.content) && me in v.live && v.nodes[me].Branch?
    ensures NoRepeats(v.nodes[me].children) && me !in v.nodes[me].children
    ensures forall c :: c in v.nodes[me].children ==> Summarised(v.nodes, v.lines, v.content, c)
  {
    assert Linked(v, me);
    forall c | c in v.nodes[me].children
      ensures Summarised(v.nodes, v.lines, v.content, c) && c != me
    {
      assert ChildOf(v, c, me);
      SizeIsContent(v, v.content, c);
    }
  }

  function RootStore(v: View, me: Ref, copy: Ref, sib: Ref): map<Ref, Node>
    requires me in v.nodes && v.nodes[me].Branch? && |v.nodes[me].children| > 5
  {
    var n := v.nodes[me];
    Adopt(Adopt(v.nodes, Spilled(n), sib)[sib := NewBranch(v, Spilled(n), Null)], Stay(n), copy)
      [copy := NewBranch(v, Stay(n), To(me))]
      [me := n.(children := [copy, sib])]
      [sib := NewBranch(v, Spilled(n), To(me))]
  }

  lemma DeepenThenSpillSums(v: View, copy: Ref, cs: seq<Ref>)
    requires CanDeepen(v, copy) && forall c :: c in cs ==> c in v.nodes[v.root].children
    ensures forall p :: NewBranch(Deepen(v, copy), cs, p) == NewBranch(v, cs, p)
  {
    assert Linked(v, v.root);
    assert copy in cs ==> ChildOf(v, copy, v.root);
    FlattenSame(Deepen(v, copy).content, v.content, cs);
  }

  lemma StayAndSpill(v: View, n: Node)
    requires n.Branch? && |n.children| > 5
    ensures var all, s := NewBranch(v, n.children, Null), NewBranch(v, Spilled(n), Null);
            var t := NewBranch(v, Stay(n), Null);
            all.size - s.size == t.size && all.height - s.height == t.height && n.children == Stay(n) + Spilled(n)
  {
    assert n.children == Stay(n) + Spilled(n);
    FlattenConcat(v.content, Stay(n), Spilled(n));
    HeightsConcat(v.lines, Flatten(v.content, Stay(n)), Flatten(v.content, Spilled(n)));
  }

  lemma PartsApart(xs: seq<Ref>, ys: seq<Ref>)
    requires NoRepeats(xs + ys)
    ensures NoRepeats(xs) && NoRepeats(ys) && forall x :: x in xs ==> x !in ys
  {
    var s := xs + ys;
    forall i, j | 0 <= i < |xs| && 0 <= j < |ys|
      ensures xs[i] != ys[j]
    {
      assert s[i] == xs[i] && s[|xs| + j] == ys[j];
    }
    assert forall i, j :: 0 <= i < j < |xs| ==> xs[i] == s[i] && xs[j] == s[j];
    assert forall i, j :: 0 <= i < j < |ys| ==> ys[i] == s[|xs| + i] && ys[j] == s[|xs| + j];
  }

  lemma StoresAgree(nodes: map<Ref, Node>, ch: seq<Ref>, st: seq<Ref>, sp: seq<Ref>, root: Ref, copy: Ref, sib: Ref,
                    c0: Node, r0: Node, s0: Node, c: Node, r: Node, s: Node)
    requires ch == st + sp && NoRepeats(ch) && root in nodes && root !in ch && copy !in ch && sib !in ch
    requires copy !in nodes && sib !in nodes && copy != sib
    ensures Adopt(Adopt(nodes, ch, copy)[copy := c0][root := r0], sp, sib)[sib := s][copy := c][root := r]
         == Adopt(Adopt(nodes, sp, sib)[sib := s0], st, copy)[copy := c][root := r][sib := s]
  {
    PartsApart(st, sp);
  }

  /** The root with one child, which is ready to be split. */
  lemma DeepenReady(v: View, copy: Ref, sib: Ref)
    requires CanDeepen(v, copy) && sib !in v.nodes && sib != copy && |v.nodes[v.root].children| > 5
    ensures Deepened(v, copy, sib)
    ensures var d, n := Deepen(v, copy), v.nodes[v.root];
            && n.parent == Null && v.root in v.nodes && v.root in d.nodes && copy in d.nodes
            && d.nodes[copy] == NewBranch(v, n.children, To(v.root))
            && d.nodes[v.root] == Branch([copy], n.size, n.height, Null)
            && NoRepeats(n.children) && v.root !in n.children && copy !in n.children && sib !in n.children
  {
    var n := v.nodes[v.root];
    assert n.parent == Null by { assert Linked(v, v.root); }
    DeepenKeeps(v, copy);
    DeepenNodes(v, copy);
    ChildrenSummarised(v, v.root);
    hide Deepen, Flatten, Heights, Linked, Summed, Shaped;
  }

  /** Splitting the root in one go leaves the same store as giving it one child and splitting that. */
  lemma DeepenThenSpill(v: View, copy: Ref, sib: Ref)
    requires CanDeepen(v, copy) && sib !in v.nodes && sib != copy && |v.nodes[v.root].children| > 5
    ensures Deepened(v, copy, sib)
    ensures SpillOff(Deepen(v, copy), copy, sib).nodes == RootStore(v, v.root, copy, sib)
  {
    var d, n := Deepen(v, copy), v.nodes[v.root];
    DeepenReady(v, copy, sib);
    StayAndSpill(v, n);
    DeepenThenSpillSums(v, copy, Spilled(n));
    DeepenStore(v, copy);
    SpillStore(d, copy, sib);
    hide Deepen, Flatten, Heights, Consistent, SpillOff;
    assert Spilled(d.nodes[copy]) == Spilled(n) && Stay(d.nodes[copy]) == Stay(n);
    hide Stay, Spilled;
    assert IndexIn([copy], copy) == 0;
    assert [copy][..1] + [sib] + [copy][1..] == [copy, sib];
    var c0, s := NewBranch(v, n.children, To(v.root)), NewBranch(v, Spilled(n), To(v.root));
    StoresAgree(v.nodes, n.children, Stay(n), Spilled(n), v.root, copy, sib,
                c0, Branch([copy], n.size, n.height, Null), NewBranch(v, Spilled(n), Null),
                NewBranch(v, Stay(n), To(v.root)), n.(children := [copy, sib]), s);
  }

  lemma DeepenStore(v: View, copy: Ref)
    requires CanDeepen(v, copy)
    ensures var n := v.nodes[v.root];
            Deepen(v, copy).nodes == Adopt(v.nodes, n.children, copy)
                                     [copy := NewBranch(v, n.children, To(v.root))]
                                     [v.root := Branch([copy], n.size, n.height, Null)]
  {
  }

  lemma SpillStore(v: View, me: Ref, sib: Ref)
    requires CanSpill(v, me, sib)
    ensures var n, p := v.nodes[me], v.nodes[me].parent.ref;
            && n.parent.To? && p in v.nodes && v.nodes[p].Branch? && me in v.nodes[p].children
            && SpillOff(v, me, sib).nodes == SpilledStore(v, me, n, p, v.nodes[p], sib)
  {
    hide SpilledStore;
    SpillPlace(v, me, sib);
  }

  lemma KeptSummarised(v: View, n: Node, sib: Ref, nodes: map<Ref, Node>)
    requires n.Branch? && |n.children| > 5 && NoRepeats(n.children) && sib !in v.nodes
    requires forall c :: c in n.children ==> Summarised(v.nodes, v.lines, v.content, c)
    requires nodes == Adopt(v.nodes, Spilled(n), sib)[sib := NewBranch(v, Spilled(n), Null)]
    ensures forall c :: c in Stay(n) ==> Summarised(nodes, v.lines, v.content, c)
  {
    hide Flatten, Heights;
    assert n.children == Stay(n) + Spilled(n);
    PartsApart(Stay(n), Spilled(n));
    forall c | c in Stay(n)
      ensures Summarised(nodes, v.lines, v.content, c)
    {
      assert c in n.children && c !in Spilled(n);
      assert Summarised(v.nodes, v.lines, v.content, c);
      assert nodes[c] == v.nodes[c];
    }
  }

  /** The parent of the sibling is set last. */
  lemma LateParent(m: map<Ref, Node>, sib: Ref, s0: Node, s: Node, me: Ref, n: Node, p: Ref, pn: Node)
    requires sib != me && sib != p
    ensures m[sib := s0][me := n][p := pn][sib := s] == m[sib := s][me := n][p := pn]
  {
  }

  lemma LateParentStore(v: View, me: Ref, sib: Ref, n: Node, p: Ref, pn: Node)
    requires n.Branch? && |n.children| > 5 && pn.Branch? && me in pn.children && sib != me && sib != p
    ensures var s, i := NewBranch(v, Spilled(n), Null), IndexIn(pn.children, me);
            SpilledStore(v, me, n, p, pn, sib)
              == Adopt(v.nodes, Spilled(n), sib)[sib := s]
                      [me := Branch(Stay(n), n.size - s.size, n.height - s.height, n.parent)]
                      [p := pn.(children := pn.children[..i + 1] + [sib] + pn.children[i + 1..])]
                      [sib := SetParent(s, To(p))]
  {
    hide Flatten, Heights, Adopt, Stay, Spilled;
    var s, i := NewBranch(v, Spilled(n), Null), IndexIn(pn.children, me);
    LateParent(Adopt(v.nodes, Spilled(n), sib), sib, s, SetParent(s, To(p)), me,
               Branch(Stay(n), n.size - s.size, n.height - s.height, n.parent),
               p, pn.(children := pn.children[..i + 1] + [sib] + pn.children[i + 1..]));
  }

  /** The sibling goes right behind `me`, which keeps the rest. */
  function PlaceSibling(nodes: map<Ref, Node>, me: Ref, n: Node, sib: Ref): (placed: map<Ref, Node>)
    requires n.Branch? && |n.children| > 5 && n.parent.To? && n.parent.ref in nodes && sib in nodes
    requires var p := nodes[n.parent.ref]; p.Branch? && me in p.children
    requires nodes[sib].Branch? && me in nodes
    ensures placed.Keys == nodes.Keys
  {
    var p, s := nodes[n.parent.ref], nodes[sib];
    var i := IndexIn(p.children, me);
    nodes[me := Branch(Stay(n), n.size - s.size, n.height - s.height, n.parent)]
      [n.parent.ref := p.(children := p.children[..i + 1] + [sib] + p.children[i + 1..])]
      [sib := SetParent(s, n.parent)]
  }

  /** The root keeps two children, a copy of itself and the sibling. */
  function PlaceBoth(nodes: map<Ref, Node>, me: Ref, n: Node, copy: Ref, sib: Ref): (placed: map<Ref, Node>)
    requires n.Branch? && copy in nodes && sib in nodes && me in nodes
    ensures placed.Keys == nodes.Keys
  {
    nodes[copy := SetParent(nodes[copy], To(me))]
         [me := n.(children := [copy, sib])][sib := SetParent(nodes[sib], To(me))]
  }

  lemma PlacedBoth(v: View, copy: Ref, sib: Ref, nodes: map<Ref, Node>, n: Node)
    requires CanDeepen(v, copy) && sib !in v.nodes && sib != copy && n == v.nodes[v.root] && |n.children| > 5
    requires nodes == Adopt(Adopt(v.nodes, Spilled(n), sib)[sib := NewBranch(v, Spilled(n), Null)], Stay(n), copy)
                      [copy := NewBranch(v, Stay(n), Null)]
    ensures Deepened(v, copy, sib) && n.Branch? && copy in nodes && sib in nodes && v.root in nodes
    ensures PlaceBoth(nodes, v.root, n, copy, sib) == Spilt(v, v.root, copy, sib).nodes
  {
    DeepenThenSpill(v, copy, sib);
    ChildrenSummarised(v, v.root);
    assert forall c :: c in Stay(n) ==> c in n.children;
    assert v.root in v.nodes && n.Branch?;
    hide SpillOff, Deepen, CanDeepen, Deepened, Flatten, Heights;
    BothPlaced(v, v.root, copy, sib, nodes, n);
  }

  lemma BothPlaced(v: View, me: Ref, copy: Ref, sib: Ref, nodes: map<Ref, Node>, n: Node)
    requires me in v.nodes && n == v.nodes[me] && n.Branch? && |n.children| > 5 && sib !in v.nodes && sib != copy
             && sib !in Stay(n)
    requires nodes == Adopt(Adopt(v.nodes, Spilled(n), sib)[sib := NewBranch(v, Spilled(n), Null)], Stay(n), copy)
                      [copy := NewBranch(v, Stay(n), Null)]
    ensures copy in nodes && sib in nodes && me in nodes
            && PlaceBoth(nodes, me, n, copy, sib) == RootStore(v, me, copy, sib)
  {
    hide Flatten, Heights, Stay, Spilled;
    assert sib in nodes && nodes[sib] == NewBranch(v, Spilled(n), Null) && me in nodes;
    hide Adopt;
  }

  lemma PlacedStore(v: View, me: Ref, sib: Ref, n: Node, p: Ref, pn: Node, nodes: map<Ref, Node>)
    requires n.Branch? && |n.children| > 5 && n.parent == To(p)
    requires nodes == Adopt(v.nodes, Spilled(n), sib)[sib := NewBranch(v, Spilled(n), Null)]
    requires p in nodes && nodes[p] == pn && pn.Branch? && me in pn.children && sib != me && sib != p && me in nodes
    ensures PlaceSibling(nodes, me, n, sib) == SpilledStore(v, me, n, p, pn, sib)
  {
    hide SpilledStore, Adopt, Flatten, Heights, Stay, Spilled;
    LateParentStore(v, me, sib, n, p, pn);
  }

  lemma PlacedSibling(v: View, me: Ref, sib: Ref, n: Node, nodes: map<Ref, Node>)
    requires CanSpill(v, me, sib) && n == v.nodes[me]
    requires nodes == Adopt(v.nodes, Spilled(n), sib)[sib := NewBranch(v, Spilled(n), Null)]
    requires n.parent.To? && n.parent.ref in v.nodes && n.parent.ref in nodes
    requires nodes[n.parent.ref] == v.nodes[n.parent.ref] && nodes[n.parent.ref].Branch?
    requires me in nodes[n.parent.ref].children && sib != me && sib != n.parent.ref && n.parent.ref != me && me in nodes
    ensures PlaceSibling(nodes, me, n, sib) == SpillOff(v, me, sib).nodes
  {
    SpillStore(v, me, sib);
    assert |n.children| > 5 && n.Branch?;
    hide SpillOff, CanSpill, SpilledStore, PlaceSibling;
    PlacedStore(v, me, sib, n, n.parent.ref, nodes[n.parent.ref], nodes);
  }

  lemma RootReady(v: View, n: Node, sib: Ref, nodes: map<Ref, Node>)
    requires Consistent(v, v.content) && n == v.nodes[v.root] && |n.children| > 5 && sib !in v.nodes
    requires nodes == Adopt(v.nodes, Spilled(n), sib)[sib := NewBranch(v, Spilled(n), Null)]
    ensures n.Branch? && NoRepeats(Stay(n)) && forall c :: c in Stay(n) ==> Summarised(nodes, v.lines, v.content, c)
    ensures v.root in v.nodes && v.root in nodes
    ensures forall r :: r !in nodes ==> r !in v.nodes
    ensures sib in nodes
  {
    ChildrenSummarised(v, v.root);
    StayAndSpill(v, n);
    PartsApart(Stay(n), Spilled(n));
    KeptSummarised(v, n, sib, nodes);
  }

  lemma SplitPlace(v: View, me: Ref, sib: Ref, n: Node, nodes: map<Ref, Node>)
    requires CanSpill(v, me, sib) && n == v.nodes[me]
    requires nodes == Adopt(v.nodes, Spilled(n), sib)[sib := NewBranch(v, Spilled(n), Null)]
    ensures n.parent.To? && n.parent.ref in v.nodes && n.parent.ref in nodes
    ensures nodes[n.parent.ref] == v.nodes[n.parent.ref] && nodes[n.parent.ref].Branch?
    ensures me in nodes[n.parent.ref].children && sib != me && sib != n.parent.ref && n.parent.ref != me && me in nodes
  {
    SpillPlace(v, me, sib);
    SpillNodes(v, me, sib);
  }

  lemma SpiltRest(v: View, me: Ref, copy: Ref, sib: Ref)
    requires if me == v.root then CanDeepen(v, copy) && Deepened(v, copy, sib) else CanSpill(v, me, sib)
    ensures Spilt(v, me, copy, sib).lines == v.lines && Spilt(v, me, copy, sib).root == v.root
  {
  }

  /** Between two turns: `me` has been split off `p`, and only these two may be too wide. */
  ghost predicate Spilling(v: View, me: Ref, p: Ref) {
    && Consistent(v, v.content) && me in v.live && v.nodes[me].Branch? && v.nodes[me].parent == To(p)
    && p in v.live && v.nodes[p].Branch? && |v.nodes[p].children| >= 1 && Bounded(v, {me, p})
    && v.rank[me] < v.rank[p]
  }

  lemma SpillOffWidth(v: View, me: Ref, p: Ref, sib: Ref)
    requires Spilling(v, me, p) && |v.nodes[me].children| > 5 && CanSpill(v, me, sib)
    ensures var v' := SpillOff(v, me, sib);
            && Spilling(v', me, p) && v'.content[v.root] == v.content[v.root]
            && |v'.nodes[me].children| == |v.nodes[me].children| - 5
            && |v'.nodes[p].children| == |v.nodes[p].children| + 1
            && v'.live == v.live + {sib} && v'.rank == v.rank[sib := v.rank[me]]
            && v'.lines == v.lines && v'.root == v.root
  {
    hide SpillOff, Consistent, Flatten, Heights, Bounded, Adopt, IndexIn, NewBranch;
    SpillKeeps(v, me, sib);
    SpillNodes(v, me, sib);
    SpillRest(v, me, sib);
    SpillPlace(v, me, sib);
    SpillBounded(v, me, p, sib);
  }

  lemma SpillBounded(v: View, me: Ref, p: Ref, sib: Ref)
    requires CanSpill(v, me, sib) && v.nodes[me].parent == To(p) && Bounded(v, {me, p})
    ensures var v' := SpillOff(v, me, sib); v'.live <= v'.nodes.Keys && Bounded(v', {me, p})
  {
    hide SpillOff, Consistent, Flatten, Heights, IndexIn;
    SpillNodes(v, me, sib);
    SpillRest(v, me, sib);
    var v' := SpillOff(v, me, sib);
    forall r | r in v'.live && r !in {me, p}
      ensures match v'.nodes[r]
              case Leaf(lines, _, _) => |lines| <= 50
              case Branch(children, _, _, _) => 1 <= |children| <= 10
    {
      if r != sib {
        assert r in v.live;
      }
    }
  }

  /** While `r` is split, only chunks no higher than it appear, and a split root rises by one. */
  ghost predicate Ranked(v: View, r: Ref, v': View, me: Ref)
    requires r in v.rank
  {
    && v'.root == v.root && v'.lines == v.lines && v.root in v.live && v.root in v.rank && v.root in v'.rank
    && v.live <= v'.live <= v'.rank.Keys && me in v'.live && v'.rank[me] == v.rank[r]
    && (forall x :: x in v'.live && x != v.root ==>
          (x in v.live && x in v.rank && v'.rank[x] == v.rank[x]) || v'.rank[x] <= v.rank[r])
    && v'.rank[v.root] == v.rank[v.root] + (if r == v.root then 1 else 0)
  }

  lemma FirstTurnWidth(v: View, r: Ref, copy: Ref, sib: Ref)
    requires Consistent(v, v.content) && r in v.live && v.nodes[r].Branch? && |v.nodes[r].children| > 10
             && Bounded(v, {r})
    requires if r == v.root then CanDeepen(v, copy) && Deepened(v, copy, sib) else CanSpill(v, r, sib)
    ensures var v', me := Spilt(v, r, copy, sib), if r == v.root then copy else r;
            && Ranked(v, r, v', me) && me in v'.nodes && v'.nodes[me].Branch? && v'.nodes[me].parent.To?
            && Spilling(v', me, v'.nodes[me].parent.ref) && v'.content[v.root] == v.content[v.root]
            && |v'.nodes[me].children| == |v.nodes[r].children| - 5
            && (r != v.root ==> v'.nodes[me].parent == v.nodes[r].parent)
            && (r == v.root ==> v'.nodes[me].parent == To(v.root) && |v'.nodes[v.root].children| == 2)
  {
    if r == v.root {
      RootTurn(v, copy, sib);
    } else {
      BelowTurn(v, r, sib);
    }
    hide Deepen, SpillOff, Consistent, Bounded, Ranked, Spilling;
  }

  lemma RootTurn(v: View, copy: Ref, sib: Ref)
    requires CanDeepen(v, copy) && Bounded(v, {v.root}) && |v.nodes[v.root].children| > 10 && Deepened(v, copy, sib)
    ensures var v' := SpillOff(Deepen(v, copy), copy, sib);
            && Ranked(v, v.root, v', copy) && Spilling(v', copy, v.root) && v'.content[v.root] == v.content[v.root]
            && |v'.nodes[copy].children| == |v.nodes[v.root].children| - 5 && |v'.nodes[v.root].children| == 2
  {
    DeepenWidth(v, copy);
    assert sib !in v.live && copy !in v.live by { DeepenNodes(v, copy); }
    SpillOffWidth(Deepen(v, copy), copy, v.root, sib);
    assert v.live <= v.rank.Keys && v.root in v.live;
    hide Deepen, SpillOff, Consistent, Bounded, Spilling;
    RootRanked(v, SpillOff(Deepen(v, copy), copy, sib), copy, sib);
    hide Ranked;
  }

  lemma RootRanked(v: View, v': View, copy: Ref, sib: Ref)
    requires v.live <= v.rank.Keys && v.root in v.live && sib !in v.live && copy !in v.live && sib != copy
    requires v'.root == v.root && v'.lines == v.lines && v'.live == v.live + {copy} + {sib}
    requires v'.rank == v.rank[copy := v.rank[v.root]][v.root := v.rank[v.root] + 1][sib := v.rank[v.root]]
    ensures Ranked(v, v.root, v', copy)
  {
  }

  lemma BelowTurn(v: View, r: Ref, sib: Ref)
    requires CanSpill(v, r, sib) && Bounded(v, {r}) && |v.nodes[r].children| > 10
    ensures var v' := SpillOff(v, r, sib);
            && v.nodes[r].parent.To? && Ranked(v, r, v', r) && Spilling(v', r, v.nodes[r].parent.ref)
            && v'.content[v.root] == v.content[v.root]
            && |v'.nodes[r].children| == |v.nodes[r].children| - 5
  {
    SpillPlace(v, r, sib);
    var p := v.nodes[r].parent.ref;
    assert Bounded(v, {r, p});
    assert v.live <= v.nodes.Keys && v.live <= v.rank.Keys;
    assert Spilling(v, r, p);
    SpillOffWidth(v, r, p, sib);
    hide SpillOff, Consistent, Bounded, Linked, Summed;
  }

  /** Where the spill loop that began at `r` in `v` stands. */
  ghost predicate Turning(v: View, r: Ref, v': View, me: Ref, p: Ref) {
    && r in v.rank && r in v.nodes && v.nodes[r].Branch? && v.root in v.content
    && Spilling(v', me, p) && Ranked(v, r, v', me) && v'.content[v.root] == v.content[v.root]
    && 5 < |v'.nodes[me].children|
    && (r != v.root ==> v.nodes[r].parent == To(p))
    && (r == v.root ==> p == v.root && |v'.nodes[p].children| + |v'.nodes[me].children| < |v.nodes[r].children|)
  }

  lemma TurnsOn(v: View, r: Ref, u: View, me: Ref, p: Ref, sib: Ref)
    requires Turning(v, r, u, me, p) && |u.nodes[me].children| > 10 && CanSpill(u, me, sib)
    ensures Turning(v, r, SpillOff(u, me, sib), me, p)
    ensures var v' := SpillOff(u, me, sib); |v'.nodes[me].children| < |u.nodes[me].children|
  {
    SpillOffWidth(u, me, p, sib);
    hide SpillOff, Consistent, Bounded;
  }

  lemma SpillEnds(v: View, r: Ref, v': View, me: Ref, p: Ref)
    requires Consistent(v, v.content) && r in v.live
    requires Turning(v, r, v', me, p) && |v'.nodes[me].children| <= 10
    ensures p in v'.live && v'.nodes[me].parent == To(p) && v'.nodes[p].Branch? && |v'.nodes[p].children| >= 1
    ensures Consistent(v', v'.content) && Bounded(v', {p}) && v'.content[v.root] == v.content[v.root]
            && v'.root == v.root
    ensures |Above(v', p)| < |Above(v, r)|
         || (|Above(v', p)| == |Above(v, r)| && |v'.nodes[p].children| < |v.nodes[r].children|)
  {
    EndBounded(v', me, p);
    if r == v.root {
      RootEnds(v, v', me, p);
    } else {
      ParentAbove(v, r, p);
      hide Consistent, Bounded;
      AboveShrinks(v, r, v', p);
    }
  }

  lemma EndBounded(v: View, me: Ref, p: Ref)
    requires Spilling(v, me, p) && 1 <= |v.nodes[me].children| <= 10
    ensures Bounded(v, {p})
  {
    hide Consistent;
  }

  lemma RootEnds(v: View, v': View, me: Ref, p: Ref)
    requires v.root in v.rank && Ranked(v, v.root, v', me) && p == v.root
    ensures |Above(v', p)| <= |Above(v, v.root)|
  {
    SubsetSize(Above(v', p), Above(v, v.root));
  }

  lemma NotRoot(v: View, me: Ref, p: Ref)
    requires Spilling(v, me, p)
    ensures me != v.root
  {
    assert Linked(v, v.root);
  }

  lemma ParentAbove(v: View, r: Ref, p: Ref)
    requires Consistent(v, v.content) && r in v.live && r != v.root && v.nodes[r].parent == To(p)
    ensures p in v.live && p in v.rank && v.rank[p] > v.rank[r]
  {
    assert Linked(v, r) && Linked(v, p);
    assert ChildOf(v, r, p);
  }

  lemma DeepenWidth(v: View, copy: Ref)
    requires CanDeepen(v, copy) && Bounded(v, {v.root})
    ensures var v' := Deepen(v, copy);
            && Spilling(v', copy, v.root) && v'.content[v.root] == v.content[v.root]
            && |v'.nodes[copy].children| == |v.nodes[v.root].children| && |v'.nodes[v.root].children| == 1
            && v'.live == v.live + {copy} && v'.rank == v.rank[copy := v.rank[v.root]][v.root := v.rank[v.root] + 1]
            && v'.lines == v.lines && v'.root == v.root
  {
    hide Deepen, Consistent, Flatten, Heights;
    DeepenKeeps(v, copy);
    DeepenNodes(v, copy);
    var v' := Deepen(v, copy);
    forall r | r in v'.live && r !in {copy, v.root}
      ensures match v'.nodes[r]
              case Leaf(lines, _, _) => |lines| <= 50
              case Branch(children, _, _, _) => 1 <= |children| <= 10
    {
      assert r in v.live;
    }
  }

  // ----- cutting up a leaf, slice by slice -----

  /** A slice of `c` becomes the child of `r` at `j`. */
  function HangLeaf(nodes: map<Ref, Node>, r: Ref, j: nat, c: Ref, leaf: Ref): (hung: map<Ref, Node>)
    requires r in nodes && c in nodes && leaf in nodes && nodes[r].Branch? && nodes[c].Leaf? && nodes[leaf].Leaf?
    requires j <= |nodes[r].children|
    ensures hung.Keys == nodes.Keys
  {
    var n, cn, ln := nodes[r], nodes[c], nodes[leaf];
    nodes[c := Leaf(cn.lines, cn.height - ln.height, cn.parent)]
      [r := Branch(n.children[..j] + [leaf] + n.children[j..], n.size, n.height, n.parent)]
      [leaf := Leaf(ln.lines, ln.height, To(r))]
  }

  function WithSlices(n: Node, i: nat, made: seq<Ref>): Node
    requires n.Branch? && i < |n.children|
  {
    Branch(n.children[..i + 1] + made + n.children[i + 1..], n.size, n.height, n.parent)
  }

  function Shorter(lines: map<Ref, Line>, cn: Node, keep: nat, pos: nat): Node
    requires cn.Leaf? && keep <= pos <= |cn.lines|
  {
    Leaf(cn.lines, cn.height - Heights(lines, cn.lines[keep..pos]), cn.parent)
  }

  function SliceLeaf(lines: map<Ref, Line>, cn: Node, keep: nat, k: nat, parent: MaybeRef): Node
    requires cn.Leaf? && keep + SLICE * (k + 1) <= |cn.lines|
  {
    Leaf(Slice(cn.lines, keep, k), Heights(lines, Slice(cn.lines, keep, k)), parent)
  }

  /** The store when the slices `made` have been taken off `c`, whose record was `cn`. */
  function CutStore(nodes: map<Ref, Node>, lines: map<Ref, Line>, r: Ref, n: Node, i: nat, c: Ref, cn: Node, keep: nat,
                    made: seq<Ref>)
    : map<Ref, Node>
    requires n.Branch? && i < |n.children| && cn.Leaf? && keep + SLICE * |made| <= |cn.lines|
  {
    NodesWith(nodes, lines, cn.lines, keep, made, r)
      [c := Shorter(lines, cn, keep, keep + SLICE * |made|)]
      [r := WithSlices(n, i, made)]
  }

  lemma CutGoesOn(nodes: map<Ref, Node>, lines: map<Ref, Line>, r: Ref, n: Node, i: nat, c: Ref, cn: Node, keep: nat,
                  made: seq<Ref>, leaf: Ref)
    requires n.Branch? && i < |n.children| && cn.Leaf? && keep + SLICE * (|made| + 1) <= |cn.lines|
    requires c != r && leaf != c && leaf != r
    ensures var cut := CutStore(nodes, lines, r, n, i, c, cn, keep, made);
            var store := cut[leaf := SliceLeaf(lines, cn, keep, |made|, Null)];
            && r in store && c in store && leaf in store && store[r] == WithSlices(n, i, made) && store[c].Leaf?
            && HangLeaf(store, r, i + 1 + |made|, c, leaf)
              == CutStore(nodes, lines, r, n, i, c, cn, keep, made + [leaf])
  {
    hide Heights, Slice, NodesWith, Shorter, SliceLeaf, WithSlices;
    ShorterStill(lines, cn, keep, |made|, r);
    SlicesHung(n, i, made, leaf);
    NodesWithOne(nodes, lines, cn, keep, made, r, leaf);
    var made' := made + [leaf];
    var c0, c1 := Shorter(lines, cn, keep, keep + SLICE * |made|), Shorter(lines, cn, keep, keep + SLICE * |made'|);
    var l0, l1 := SliceLeaf(lines, cn, keep, |made|, Null), SliceLeaf(lines, cn, keep, |made|, To(r));
    var r0, r1 := WithSlices(n, i, made), WithSlices(n, i, made');
    CutStoresAgree(NodesWith(nodes, lines, cn.lines, keep, made, r), c, r, leaf, c0, r0, l0, c1, r1, l1);
  }

  lemma ShorterStill(lines: map<Ref, Line>, cn: Node, keep: nat, k: nat, r: Ref)
    requires cn.Leaf? && keep + SLICE * (k + 1) <= |cn.lines|
    ensures var c0, c1 := Shorter(lines, cn, keep, keep + SLICE * k), Shorter(lines, cn, keep, keep + SLICE * (k + 1));
            var l0, l1 := SliceLeaf(lines, cn, keep, k, Null), SliceLeaf(lines, cn, keep, k, To(r));
            && c0.Leaf? && l0.Leaf? && c1 == Leaf(c0.lines, c0.height - l0.height, c0.parent)
            && l1 == Leaf(l0.lines, l0.height, To(r))
  {
    hide Heights, Slice;
    SliceHeights(lines, cn.lines, keep, k);
  }

  lemma SlicesHung(n: Node, i: nat, made: seq<Ref>, leaf: Ref)
    requires n.Branch? && i < |n.children|
    ensures var w, j := WithSlices(n, i, made), i + 1 + |made|;
            && w.Branch? && j <= |w.children|
            && WithSlices(n, i, made + [leaf])
              == Branch(w.children[..j] + [leaf] + w.children[j..], w.size, w.height, w.parent)
  {
    var cs, j := WithSlices(n, i, made).children, i + 1 + |made|;
    assert cs[..j] == n.children[..i + 1] + made && cs[j..] == n.children[i + 1..];
  }

  lemma NodesWithOne(nodes: map<Ref, Node>, lines: map<Ref, Line>, cn: Node, keep: nat, made: seq<Ref>, r: Ref,
                     leaf: Ref)
    requires cn.Leaf? && keep + SLICE * (|made| + 1) <= |cn.lines|
    ensures NodesWith(nodes, lines, cn.lines, keep, made + [leaf], r)
         == NodesWith(nodes, lines, cn.lines, keep, made, r)[leaf := SliceLeaf(lines, cn, keep, |made|, To(r))]
  {
    hide Heights, Slice;
    assert (made + [leaf])[..|made|] == made;
  }

  lemma SliceHeights(lines: map<Ref, Line>, ls: seq<Ref>, keep: nat, k: nat)
    requires keep + SLICE * (k + 1) <= |ls|
    ensures Heights(lines, ls[keep..keep + SLICE * (k + 1)])
         == Heights(lines, ls[keep..keep + SLICE * k]) + Heights(lines, Slice(ls, keep, k))
  {
    assert ls[keep..keep + SLICE * (k + 1)] == ls[keep..keep + SLICE * k] + Slice(ls, keep, k);
    HeightsConcat(lines, ls[keep..keep + SLICE * k], Slice(ls, keep, k));
  }

  lemma CutStoresAgree(m: map<Ref, Node>, c: Ref, r: Ref, leaf: Ref, c0: Node, r0: Node, l0: Node, c1: Node, r1: Node,
                       l1: Node)
    requires c != r && leaf != c && leaf != r
    ensures m[c := c0][r := r0][leaf := l0][c := c1][r := r1][leaf := l1] == m[leaf := l1][c := c1][r := r1]
  {
  }

  lemma CutKeys(nodes: map<Ref, Node>, lines: map<Ref, Line>, r: Ref, n: Node, i: nat, c: Ref, cn: Node, keep: nat,
                made: seq<Ref>)
    requires n.Branch? && i < |n.children| && cn.Leaf? && keep + SLICE * |made| <= |cn.lines|
    requires r in nodes && c in nodes
    ensures CutStore(nodes, lines, r, n, i, c, cn, keep, made).Keys == nodes.Keys + (set x | x in made)
  {
    hide Heights, NodesWith;
    NodesWithKeys(nodes, lines, cn.lines, keep, made, r);
  }

  lemma {:induction false} NodesWithKeys(nodes: map<Ref, Node>, lines: map<Ref, Line>, ls: seq<Ref>, keep: nat,
                                         made: seq<Ref>, r: Ref)
    requires keep + SLICE * |made| <= |ls|
    ensures NodesWith(nodes, lines, ls, keep, made, r).Keys == nodes.Keys + (set x | x in made)
    decreases |made|
  {
    hide Heights, Slice;
    if made != [] {
      var k := |made| - 1;
      NodesWithKeys(nodes, lines, ls, keep, made[..k], r);
      assert forall x :: x in made <==> x in made[..k] || x == made[k];
    }
  }

  lemma CutStarts(v: View, r: Ref, i: nat, c: Ref, cn: Node, keep: nat)
    requires Consistent(v, v.content) && r in v.live && v.nodes[r].Branch? && i < |v.nodes[r].children|
    requires c == v.nodes[r].children[i] && c in v.live && v.nodes[c] == cn && cn.Leaf? && keep <= |cn.lines|
    ensures CutStore(v.nodes, v.lines, r, v.nodes[r], i, c, cn, keep, []) == v.nodes
    ensures c != r && NoRepeats(cn.lines) && forall l :: l in cn.lines ==> l in v.lines
  {
    assert Linked(v, c);
    ChildIsLive(v, v.content, r, i);
    hide Consistent;
    NothingCut(v.nodes, v.lines, r, v.nodes[r], i, c, cn, keep);
  }

  lemma NothingCut(nodes: map<Ref, Node>, lines: map<Ref, Line>, r: Ref, n: Node, i: nat, c: Ref, cn: Node, keep: nat)
    requires n.Branch? && i < |n.children| && cn.Leaf? && keep <= |cn.lines|
    requires r in nodes && nodes[r] == n && c in nodes && nodes[c] == cn
    ensures CutStore(nodes, lines, r, n, i, c, cn, keep, []) == nodes
  {
    assert WithSlices(n, i, []) == n by { assert n.children[..i + 1] + [] + n.children[i + 1..] == n.children; }
    assert Shorter(lines, cn, keep, keep) == cn by { assert cn.lines[keep..keep] == []; }
    hide WithSlices, Shorter;
  }

  lemma SliceReady(v: View, cn: Node, keep: nat, made: seq<Ref>)
    requires cn.Leaf? && keep + SLICE * (|made| + 1) <= |cn.lines| && NoRepeats(cn.lines)
    requires forall l :: l in cn.lines ==> l in v.lines
    ensures var lines, s := LinesWith(v.lines, cn.lines, keep, made), Slice(cn.lines, keep, |made|);
            Heights(lines, s) == Heights(v.lines, s) && forall l :: l in s ==> l in lines
  {
    MadeLines(v, cn.lines, keep, made);
    var lines, s := LinesWith(v.lines, cn.lines, keep, made), Slice(cn.lines, keep, |made|);
    assert forall l :: l in s ==> l in cn.lines;
    HeightsSame(lines, v.lines, s);
  }

  lemma SliceIs(ls: seq<Ref>, keep: nat, k: nat)
    requires keep + SLICE * (k + 1) <= |ls|
    ensures ls[keep + SLICE * k..keep + SLICE * k + SLICE] == Slice(ls, keep, k)
  {
  }

  lemma WideEnough(n: Node, i: nat, made: seq<Ref>)
    requires n.Branch? && i < |n.children|
    ensures WithSlices(n, i, made).Branch? && i + 1 + |made| <= |WithSlices(n, i, made).children|
  {
  }

  lemma AddedNoRepeats(s: seq<Ref>, x: Ref)
    requires NoRepeats(s) && x !in s
    ensures NoRepeats(s + [x])
  {
  }

  lemma LinesWithNone(lines: map<Ref, Line>, ls: seq<Ref>, keep: nat)
    requires keep <= |ls|
    ensures LinesWith(lines, ls, keep, []) == lines
  {
  }

  lemma LinesWithOne(lines: map<Ref, Line>, cn: Node, keep: nat, made: seq<Ref>, leaf: Ref)
    requires cn.Leaf? && keep + SLICE * (|made| + 1) <= |cn.lines|
    ensures LinesWith(lines, cn.lines, keep, made + [leaf])
         == SetParents(LinesWith(lines, cn.lines, keep, made), Slice(cn.lines, keep, |made|), To(leaf))
  {
    hide SetParents, Slice;
    assert (made + [leaf])[..|made|] == made;
  }

  lemma CutEnds(v: View, r: Ref, i: nat, c: Ref, cn: Node, keep: nat, made: seq<Ref>)
    requires CanCut(v, r, i, keep, made) && c == v.nodes[r].children[i] && cn == v.nodes[c] && c != r
    ensures var v', store := Cut(v, r, i, keep, made), CutStore(v.nodes, v.lines, r, v.nodes[r], i, c, cn, keep, made);
            && c in store && store[c] == Shorter(v.lines, cn, keep, |cn.lines|)
            && v'.nodes == store[c := Leaf(cn.lines[..keep], store[c].height, store[c].parent)]
            && v'.lines == LinesWith(v.lines, cn.lines, keep, made) && v'.root == v.root
  {
    assert r in v.nodes && c in v.nodes;
    hide Consistent, NodesWith, LinesWith, ContentWith, RankWith, Heights, NoRepeats;
    LastCut(NodesWith(v.nodes, v.lines, cn.lines, keep, made, r), v.lines, r, v.nodes[r], i, c, cn, keep, made);
  }

  lemma LastCut(m: map<Ref, Node>, lines: map<Ref, Line>, r: Ref, n: Node, i: nat, c: Ref, cn: Node, keep: nat,
                made: seq<Ref>)
    requires n.Branch? && i < |n.children| && cn.Leaf? && keep + SLICE * |made| == |cn.lines| && c != r
    ensures var ls, last := cn.lines, Shorter(lines, cn, keep, keep + SLICE * |made|);
            && last == Shorter(lines, cn, keep, |ls|) && last.height == cn.height - Heights(lines, ls[keep..])
            && m[c := last][r := WithSlices(n, i, made)][c := Leaf(ls[..keep], last.height, last.parent)]
               == m[c := Leaf(ls[..keep], cn.height - Heights(lines, ls[keep..]), cn.parent)]
                   [r := n.(children := n.children[..i + 1] + made + n.children[i + 1..])]
  {
    hide Heights;
    assert cn.lines[keep..|cn.lines|] == cn.lines[keep..];
  }

  lemma CutWidth(v: View, r: Ref, i: nat, keep: nat, made: seq<Ref>)
    requires CanCut(v, r, i, keep, made) && keep <= 50 && Bounded(v, {v.nodes[r].children[i]})
    ensures var v' := Cut(v, r, i, keep, made);
            && Consistent(v', v'.content) && v'.content[v.root] == v.content[v.root] && v'.root == v.root
            && r in v'.live && v'.nodes[r].Branch? && |v'.nodes[r].children| >= 1 && Bounded(v', {r})
            && SameHeights(v.lines, v'.lines)
  {
    hide Cut, Consistent, Bounded;
    CutKeeps(v, r, i, keep, made);
    CutBounded(v, r, i, keep, made);
    CutLines(v, r, i, keep, made);
  }

  lemma CutBounded(v: View, r: Ref, i: nat, keep: nat, made: seq<Ref>)
    requires CanCut(v, r, i, keep, made) && keep <= 50 && Bounded(v, {v.nodes[r].children[i]})
    ensures var v' := Cut(v, r, i, keep, made);
            && v'.root == v.root && v'.live <= v'.nodes.Keys && r in v'.live
            && v'.nodes[r].Branch? && |v'.nodes[r].children| >= 1 && Bounded(v', {r})
  {
    CutNodes(v, r, i, keep, made);
    CutRest(v, r, i, keep, made);
    var v', c := Cut(v, r, i, keep, made), v.nodes[r].children[i];
    hide Cut, Consistent, Heights, Flatten, NoRepeats, Slice;
    forall x | x in v'.live && x !in {r}
      ensures x in v'.nodes && Fits(v'.nodes[x])
    {
      if x in made {
        var k :| 0 <= k < |made| && made[k] == x;
        SliceSize(v.nodes[c].lines, keep, k);
      } else {
        assert x in v.live;
        assert x != c ==> Fits(v.nodes[x]);
      }
    }
  }

  predicate Fits(n: Node) {
    match n
    case Leaf(lines, _, _) => |lines| <= 50
    case Branch(children, _, _, _) => 1 <= |children| <= 10
  }

  lemma SliceSize(ls: seq<Ref>, keep: nat, k: nat)
    requires keep + SLICE * (k + 1) <= |ls|
    ensures |Slice(ls, keep, k)| == SLICE
  {
  }

  // ----- inserting -----

  /** What `r` finds in its children before it looks for the one to insert into. */
  lemma ChildrenOf(v: View, e: Content, r: Ref)
    requires Consistent(v, e) && r in v.live && v.nodes[r].Branch?
    ensures r !in v.nodes[r].children && NoRepeats(v.nodes[r].children)
    ensures forall c :: c in v.nodes[r].children ==>
              c in v.live && c in v.nodes && c in v.content && Size(v.nodes[c]) == |v.content[c]|
  {
    assert Linked(v, r);
    NotItsOwnChild(v, e, r);
    forall c | c in v.nodes[r].children
      ensures c in v.live && Size(v.nodes[c]) == |v.content[c]|
    {
      assert ChildOf(v, c, r);
      SizeIsContent(v, e, c);
    }
  }

  lemma ExpectedChildren(v: View, r: Ref, at: int, ls: seq<Ref>)
    requires Expects(v, r, at, ls) && v.nodes[r].Branch?
    ensures r !in v.nodes[r].children && at <= |Flatten(v.content, v.nodes[r].children)|
    ensures forall c :: c in v.nodes[r].children ==>
              c in v.live && c in v.nodes && c in v.content && Size(v.nodes[c]) == |v.content[c]|
  {
    var e := v.content[r := Splice(v.content[r], at, ls)];
    ChildrenOf(v, e, r);
    assert Summed(v, e, r);
    FlattenSame(e, v.content, v.nodes[r].children);
  }

  lemma GrowWidth(v: View, r: Ref, at: int, ls: seq<Ref>)
    requires Expects(v, r, at, ls) && v.nodes[r].Branch? && Bounded(v, {})
    ensures Bounded(Grow(v, r, at, ls), {})
  {
  }

  lemma GrowFresh(v: View, r: Ref, at: int, ls: seq<Ref>, i: nat)
    requires Expects(v, r, at, ls) && v.nodes[r].Branch? && i < |v.nodes[r].children| && Fresh(v, ls)
    ensures Fresh(Grow(v, r, at, ls), ls)
    ensures var c := v.nodes[r].children[i]; c in v.rank && r in v.rank && v.rank[c] < v.rank[r] && c != v.root
  {
    ChildIsLive(v, v.content[r := Splice(v.content[r], at, ls)], r, i);
    assert Linked(v, v.root);
  }

  lemma ReadyToGrow(v: View, r: Ref, at: int, ls: seq<Ref>)
    requires Expects(v, r, at, ls) && v.nodes[r].Branch? && Bounded(v, {})
    ensures r in v.nodes && r in v.content && 0 <= at <= |v.content[r]| && r in v.rank
    ensures r !in v.nodes[r].children && at <= |Flatten(v.content, v.nodes[r].children)| && |v.nodes[r].children| >= 1
    ensures forall c :: c in v.nodes[r].children ==>
              c in v.nodes && c in v.content && Size(v.nodes[c]) == |v.content[c]|
  {
    ExpectedChildren(v, r, at, ls);
  }

  lemma Descends(v: View, r: Ref, at: int, ls: seq<Ref>, i: nat, at': int)
    requires Expects(v, r, at, ls) && v.nodes[r].Branch? && Bounded(v, {}) && Fresh(v, ls) && i < |v.nodes[r].children|
    requires at == |Flatten(v.content, v.nodes[r].children[..i])| + at'
    requires 0 <= at' <= |At(v.content, v.nodes[r].children[i])|
    ensures var v', c := Grow(v, r, at, ls), v.nodes[r].children[i];
            && Expects(v', c, at', ls) && Fresh(v', ls) && Bounded(v', {})
            && r in v'.live && c != v.root && c in v'.rank && r in v'.rank && v'.rank[c] < v'.rank[r]
            && v'.rank == v.rank && v'.lines == v.lines && v'.root == v.root && v.root in v.content
            && v'.content[v.root] == if r == v.root then Splice(v.content[v.root], at, ls) else v.content[v.root]
  {
    hide Fresh, Bounded, Flatten, Heights;
    GrowKeeps(v, r, at, ls, i, at');
    GrowFresh(v, r, at, ls, i);
    GrowWidth(v, r, at, ls);
  }

  lemma LeafInsertWidth(v: View, c: Ref, at: int, ls: seq<Ref>)
    requires c in v.nodes && v.nodes[c].Leaf? && 0 <= at <= |v.nodes[c].lines| && v.live <= v.nodes.Keys
             && Bounded(v, {})
    ensures var v' := LeafInsert(v, c, at, ls);
            && Bounded(v', {c}) && (|v'.nodes[c].lines| <= 50 ==> Bounded(v', {})) && SameHeights(v.lines, v'.lines)
  {
  }

  // ----- the whole document -----

  lemma FirstLine(v: View)
    requires exists h ::
               v.lines == map[0 := Line(h, To(1))]
               && v.nodes == map[1 := Leaf([0], h, To(2)), 2 := Branch([1], 1, h, Null)]
    requires v.root == 2 && v.live == {1, 2} && v.content == map[1 := [0], 2 := [0]] && v.rank == map[1 := 0, 2 := 1]
    ensures Inv(v)
  {
    FlattenOne(v.content, 1);
    assert Heights(v.lines, [0]) == v.lines[0].height by { assert [0][1..] == []; }
    assert ChildOf(v, 1, 2);
    assert Linked(v, 1) && Linked(v, 2);
    assert Summed(v, v.content, 1) && Summed(v, v.content, 2);
  }

  lemma LineAdded(v: View, v': View, l: Ref)
    requires Inv(v) && l !in v.lines && exists h :: v' == v.(lines := v.lines[l := Line(h, Null)])
    ensures Inv(v')
  {
    hide Flatten, Heights;
    forall x | x in v.live
      ensures Linked(v', x) && Summed(v', v'.content, x)
    {
      assert Linked(v, x) && Summed(v, v.content, x);
      if v.nodes[x].Branch? {
        forall c | c in v.nodes[x].children
          ensures ChildOf(v', c, x)
        {
          assert ChildOf(v, c, x);
        }
      }
      forall k | k in v.content[x]
        ensures LineHeight(v.lines, k) == LineHeight(v'.lines, k)
      {
        LineInLeaf(v, x, k);
      }
      HeightsSame(v.lines, v'.lines, v.content[x]);
    }
  }

  /** What a branch holds is what its children hold, one after the other. */
  lemma Holds(v: View, r: Ref)
    requires Consistent(v, v.content) && r in v.live && v.nodes[r].Branch?
    ensures r in v.nodes && r in v.content && r in v.rank && v.content[r] == Flatten(v.content, v.nodes[r].children)
    ensures forall c :: c in v.nodes[r].children ==>
              c in v.live && c in v.nodes && c in v.content && c in v.rank && v.rank[c] < v.rank[r]
              && Size(v.nodes[c]) == |v.content[c]| && v.nodes[c].height == Heights(v.lines, v.content[c])
  {
    hide Flatten, Heights;
    assert Summed(v, v.content, r) && Linked(v, r);
    forall c | c in v.nodes[r].children
      ensures c in v.live && c in v.rank && v.rank[c] < v.rank[r]
           && Size(v.nodes[c]) == |v.content[c]| && v.nodes[c].height == Heights(v.lines, v.content[c])
    {
      assert ChildOf(v, c, r);
      SizeIsContent(v, v.content, c);
    }
  }

  lemma FlattenRest(content: Content, cs: seq<Ref>, i: int)
    requires 0 <= i <= |cs|
    ensures |Flatten(content, cs[..i])| <= |Flatten(content, cs)|
    ensures Flatten(content, cs) == Flatten(content, cs[..i]) + Flatten(content, cs[i..])
    ensures i == |cs| ==> Flatten(content, cs[..i]) == Flatten(content, cs)
  {
    assert cs == cs[..i] + cs[i..];
    FlattenConcat(content, cs[..i], cs[i..]);
    assert i == |cs| ==> cs[..i] == cs;
  }

  lemma Rises(v: View, c: Ref)
    requires Consistent(v, v.content) && c in v.live && v.nodes[c].parent.To?
    ensures c in v.nodes
    ensures var p := v.nodes[c].parent.ref;
            && p in v.live && p in v.nodes && p in v.content && v.nodes[p].Branch? && c in v.nodes[p].children
            && c in v.content && |Above(v, p)| < |Above(v, c)|
  {
    assert Linked(v, c);
    var p := v.nodes[c].parent.ref;
    assert Linked(v, p);
    assert ChildOf(v, c, p);
    AboveShrinks(v, c, v, p);
  }

  lemma OnlyRoot(v: View, c: Ref)
    requires Consistent(v, v.content) && c in v.live && v.nodes[c].parent == Null
    ensures c == v.root && NoRepeats(v.content[c])
  {
    assert Linked(v, c);
  }

  /** A line of the document sits in a leaf; a line with a parent is in the document. */
  lemma Homed(v: View, l: Ref)
    requires Inv(v) && l in v.lines && (l in v.content[v.root] || v.lines[l].parent == Null)
    ensures v.lines[l].parent == Null <==> l !in v.content[v.root]
    ensures l in v.content[v.root] ==>
              var c := v.lines[l].parent.ref;
              && c in v.live && c in v.nodes && c in v.content && v.nodes[c].Leaf? && l in v.nodes[c].lines
              && v.content[c] == v.nodes[c].lines && forall x :: x in v.nodes[c].lines ==> x in v.lines
  {
    if l in v.content[v.root] {
      LineInLeaf(v, v.root, l);
      var c := v.lines[l].parent.ref;
      assert Summed(v, v.content, c) && Linked(v, c);
    }
  }

  lemma InDocument(v: View, l: Ref)
    requires Inv(v) && l in v.content[v.root]
    ensures l in v.lines
  {
    LineInLeaf(v, v.root, l);
  }

  /** `t` stands in `s` at `n`. */
  ghost predicate PlaceOf(s: seq<Ref>, t: seq<Ref>, n: int) {
    0 <= n && n + |t| <= |s| && s[n..n + |t|] == t
  }

  lemma SliceAt(s: seq<Ref>, k: int, t: seq<Ref>, no: int)
    requires PlaceOf(s, t, k) && 0 <= no < |t|
    ensures 0 <= k + no < |s| && s[k + no] == t[no]
  {
    assert s[k + no] == s[k..k + |t|][no];
  }

  /** The number of lines, and their height, in the children before the `i`-th. */
  ghost function SizeUpTo(content: Content, cs: seq<Ref>, i: int): int
    requires 0 <= i <= |cs|
  {
    |Flatten(content, cs[..i])|
  }

  ghost function HeightUpTo(lines: map<Ref, Line>, content: Content, cs: seq<Ref>, i: int): int
    requires 0 <= i <= |cs|
  {
    Heights(lines, Flatten(content, cs[..i]))
  }

  lemma NextChild(lines: map<Ref, Line>, content: Content, cs: seq<Ref>, i: int)
    requires 0 <= i < |cs|
    ensures SizeUpTo(content, cs, i + 1) == SizeUpTo(content, cs, i) + |At(content, cs[i])|
    ensures HeightUpTo(lines, content, cs, i + 1)
            == HeightUpTo(lines, content, cs, i) + Heights(lines, At(content, cs[i]))
  {
    FlattenAt(content, cs, i);
    HeightsConcat(lines, Flatten(content, cs[..i]), At(content, cs[i]));
  }

  lemma NoChildren(lines: map<Ref, Line>, content: Content, cs: seq<Ref>)
    ensures SizeUpTo(content, cs, 0) == 0 && HeightUpTo(lines, content, cs, 0) == 0
  {
    assert cs[..0] == [];
  }

  lemma AllChildren(lines: map<Ref, Line>, content: Content, cs: seq<Ref>)
    ensures SizeUpTo(content, cs, |cs|) == |Flatten(content, cs)|
    ensures HeightUpTo(lines, content, cs, |cs|) == Heights(lines, Flatten(content, cs))
  {
    assert cs[..|cs|] == cs;
  }

  lemma ChildPlace(content: Content, cs: seq<Ref>, i: int)
    requires 0 <= i < |cs|
    ensures PlaceOf(Flatten(content, cs), At(content, cs[i]), SizeUpTo(content, cs, i))
  {
    FlattenAt(content, cs, i);
    ThreeParts(Flatten(content, cs), Flatten(content, cs[..i]), At(content, cs[i]), Flatten(content, cs[i + 1..]));
  }

  lemma HeightsPlace(lines: map<Ref, Line>, content: Content, cs: seq<Ref>, i: int)
    requires 0 <= i < |cs|
    ensures HeightBeforeIs(lines, Flatten(content, cs), SizeUpTo(content, cs, i), HeightUpTo(lines, content, cs, i))
  {
    FlattenAt(content, cs, i);
    ThreeParts(Flatten(content, cs), Flatten(content, cs[..i]), At(content, cs[i]), Flatten(content, cs[i + 1..]));
  }

  ghost predicate HeightBeforeIs(lines: map<Ref, Line>, s: seq<Ref>, n: int, h: int) {
    0 <= n <= |s| && h == Heights(lines, s[..n])
  }

  lemma ThreeParts(s: seq<Ref>, a: seq<Ref>, b: seq<Ref>, c: seq<Ref>)
    requires s == a + b + c
    ensures s[..|a|] == a && s[|a|..|a| + |b|] == b
  {
  }

  lemma RootIsBranch(v: View)
    requires Consistent(v, v.content)
    ensures v.root in v.live && v.root in v.nodes && v.root in v.content && v.root in v.rank && v.nodes[v.root].Branch?
  {
  }

  lemma FlattenFrom(content: Content, cs: seq<Ref>, i: int)
    requires 0 <= i < |cs|
    ensures Flatten(content, cs[i..]) == At(content, cs[i]) + Flatten(content, cs[i + 1..])
  {
    assert cs[i..] == [cs[i]] + cs[i + 1..];
    FlattenConcat(content, [cs[i]], cs[i + 1..]);
    FlattenOne(content, cs[i]);
  }

  lemma SkipsByHeight(lines: map<Ref, Line>, content: Content, cs: seq<Ref>, i: int, h: int)
    requires 0 <= i < |cs| && NonNegative(lines, Flatten(content, cs[i..]))
    ensures NonNegative(lines, Flatten(content, cs[i + 1..])) && NonNegative(lines, At(content, cs[i]))
    ensures var y := At(content, cs[i]);
            FirstAbove(lines, Flatten(content, cs[i..]), h)
              == if h < Heights(lines, y) then FirstAbove(lines, y, h)
                 else |y| + FirstAbove(lines, Flatten(content, cs[i + 1..]), h - Heights(lines, y))
  {
    hide Flatten;
    FlattenFrom(content, cs, i);
    var y, rest := At(content, cs[i]), Flatten(content, cs[i + 1..]);
    assert forall l :: l in y + rest <==> l in y || l in rest;
    FirstAboveSkips(lines, y, rest, h);
  }

  lemma NoneAbove(lines: map<Ref, Line>, content: Content, cs: seq<Ref>, h: int)
    ensures FirstAbove(lines, Flatten(content, cs[|cs|..]), h) == 0
  {
  }

  lemma VisitOne(a: seq<Ref>, l: Ref, b: seq<Ref>, stop: Ref -> bool)
    requires !Stops(a, stop)
    ensures stop(l) ==> Visit((a + [l]) + b, stop) == a + [l] && Stops((a + [l]) + b, stop)
    ensures !stop(l) ==> !Stops(a + [l], stop)
  {
    VisitConcat(a + [l], b, stop);
    VisitConcat(a, [l], stop);
    StopsConcat(a + [l], b, stop);
    StopsConcat(a, [l], stop);
    assert stop(l) ==> l in [l];
  }

  /** `rest` is still to be visited. */
  ghost predicate Rest(s: seq<Ref>, seen: seq<Ref>, seen': seq<Ref>, rest: seq<Ref>, stop: Ref -> bool) {
    seen + Visit(s, stop) == seen' + Visit(rest, stop) && (Stops(s, stop) <==> Stops(rest, stop))
  }

  lemma VisitStarts(s: seq<Ref>, stop: Ref -> bool, seen: seq<Ref>)
    ensures Rest(s, seen, seen, s, stop)
  {
  }

  lemma RestGoesOn(s: seq<Ref>, seen: seq<Ref>, seen': seq<Ref>, a: seq<Ref>, b: seq<Ref>, stop: Ref -> bool)
    requires Rest(s, seen, seen', a + b, stop)
    ensures Stops(a, stop) ==> Stops(s, stop) && seen + Visit(s, stop) == seen' + Visit(a, stop)
    ensures !Stops(a, stop) ==> Rest(s, seen, seen' + Visit(a, stop), b, stop)
  {
    VisitConcat(a, b, stop);
    StopsConcat(a, b, stop);
    if !Stops(a, stop) {
      VisitAll(a, stop);
      Appended(seen', a, Visit(b, stop));
    }
  }

  lemma RestEnds(s: seq<Ref>, seen: seq<Ref>, seen': seq<Ref>, rest: seq<Ref>, stop: Ref -> bool)
    requires Rest(s, seen, seen', rest, stop) && rest == []
    ensures !Stops(s, stop) && seen + Visit(s, stop) == seen'
  {
    assert seen' + [] == seen';
  }

  /** `m` lines at `k` in the children from `i` on are still to be visited. */
  ghost predicate Going(content: Content, cs: seq<Ref>, i: int, k: int, m: int, s: seq<Ref>, seen: seq<Ref>,
                        seen': seq<Ref>, stop: Ref -> bool) {
    && 0 <= i <= |cs| && 0 <= k && 0 <= m && k + m <= |Flatten(content, cs[i..])|
    && Rest(s, seen, seen', Flatten(content, cs[i..])[k..k + m], stop)
  }

  lemma GoesPast(content: Content, cs: seq<Ref>, i: int, k: int, m: int, s: seq<Ref>, seen: seq<Ref>, seen': seq<Ref>,
                 stop: Ref -> bool)
    requires Going(content, cs, i, k, m, s, seen, seen', stop) && i < |cs| && k >= |At(content, cs[i])|
    ensures Going(content, cs, i + 1, k - |At(content, cs[i])|, m, s, seen, seen', stop)
  {
    hide Flatten, Rest, At;
    FlattenFrom(content, cs, i);
    var all, y, rest := Flatten(content, cs[i..]), At(content, cs[i]), Flatten(content, cs[i + 1..]);
    SkipsPart(all, y, rest, k, m);
    assert all[k..k + m] == rest[k - |y|..k - |y| + m];
  }

  lemma NoneLeft(s: seq<Ref>, seen: seq<Ref>, seen': seq<Ref>, content: Content, cs: seq<Ref>, k: int, m: int,
                 stop: Ref -> bool)
    requires Going(content, cs, |cs|, k, m, s, seen, seen', stop)
    ensures !Stops(s, stop) && seen + Visit(s, stop) == seen'
  {
    assert Flatten(content, cs[|cs|..]) == [];
    RestEnds(s, seen, seen', Flatten(content, cs[|cs|..])[k..k + m], stop);
  }

  lemma TakesPart(y: seq<Ref>, rest: seq<Ref>, k: int, m: int, used: int)
    requires 0 <= k < |y| && 0 <= m && k + m <= |y| + |rest| && used == if m < |y| - k then m else |y| - k
    ensures 0 <= m - used <= |rest| && (y + rest)[k..k + m] == y[k..k + used] + rest[0..m - used]
  {
  }

  lemma SkipsPart(all: seq<Ref>, y: seq<Ref>, rest: seq<Ref>, k: int, m: int)
    requires all == y + rest && |y| <= k && 0 <= m && k + m <= |all|
    ensures all[k..k + m] == rest[k - |y|..k - |y| + m]
  {
  }

  // ----- one line changes its height -----

  function Raise(n: Node, diff: int): Node {
    match n
    case Leaf(lines, height, parent) => Leaf(lines, height + diff, parent)
    case Branch(children, size, height, parent) => Branch(children, size, height + diff, parent)
  }

  /** The chunks in `done` have the height of `l` raised by `diff`; the others that hold `l` are at or
      above `cur`. */
  ghost predicate Lifting(v: View, v': View, l: Ref, diff: int, done: set<Ref>, cur: MaybeRef) {
    && Inv(v) && l in v.lines && done <= v.live
    && v'.lines == v.lines[l := v.lines[l].(height := v.lines[l].height + diff)]
    && v' == v.(nodes := v'.nodes, lines := v'.lines) && v'.nodes.Keys == v.nodes.Keys
    && (forall x :: x in v.nodes ==> v'.nodes[x] == if x in done then Raise(v.nodes[x], diff) else v.nodes[x])
    && (forall x :: x in done ==> l in v.content[x])
    && (forall x :: x in v.live && l in v.content[x] && x !in done ==>
          cur.To? && cur.ref in v.live && IsBelow(v, cur.ref, x))
    && (cur.To? ==> cur.ref in v.live && l in v.content[cur.ref] && forall x :: x in done ==>
      v.rank[x] < v.rank[cur.ref])
  }

  lemma LiftStarts(v: View, l: Ref, diff: int, v': View)
    requires Inv(v) && l in v.lines && (l in v.content[v.root] || v.lines[l].parent == Null)
    requires v' == v.(lines := v.lines[l := v.lines[l].(height := v.lines[l].height + diff)])
    ensures Lifting(v, v', l, diff, {}, v.lines[l].parent)
  {
    hide Consistent, Bounded, IsBelow;
    Homed(v, l);
    LeafIsBelow(v, l);
  }

  lemma LeafIsBelow(v: View, l: Ref)
    requires Inv(v) && l in v.lines
    ensures forall x :: x in v.live && l in v.content[x] ==>
              v.lines[l].parent.To? && v.lines[l].parent.ref in v.live && x in v.rank
                && IsBelow(v, v.lines[l].parent.ref, x)
  {
    hide Bounded, Linked, Summed;
    PartialIsConsistent(v);
    forall x | x in v.live && l in v.content[x]
      ensures v.lines[l].parent.To? && v.lines[l].parent.ref in v.live && IsBelow(v, v.lines[l].parent.ref, x)
    {
      LineIsBelow(v, {}, {}, x, l);
    }
  }

  lemma Lifts(v: View, u: View, l: Ref, diff: int, done: set<Ref>, c: Ref)
    requires Lifting(v, u, l, diff, done, To(c))
    ensures c in u.nodes && c in v.rank && c in v.nodes && u.nodes[c].parent == v.nodes[c].parent
    ensures var n := u.nodes[c];
            && Lifting(v, u.(nodes := u.nodes[c := Raise(n, diff)]), l, diff, done + {c}, n.parent)
            && (n.parent.To? ==>
                  n.parent.ref in v.rank && n.parent.ref in v.nodes && |Above(v, n.parent.ref)| < |Above(v, c)|)
  {
    hide Bounded, Linked, Summed;
    assert c !in done && u.nodes[c] == v.nodes[c];
    LiftsAbove(v, l, done, c);
    hide Consistent, IsBelow, Above;
  }

  lemma LiftKeys(v: View, u: View, l: Ref, diff: int, done: set<Ref>, cur: MaybeRef)
    requires Lifting(v, u, l, diff, done, cur)
    ensures u.nodes.Keys == v.nodes.Keys && (cur.To? ==> cur.ref in v.rank && cur.ref in v.nodes)
  {
    assert v.live <= v.nodes.Keys && v.live <= v.rank.Keys;
  }

  lemma SameLine(lines: map<Ref, Line>, l: Ref, height: int)
    requires l in lines
    ensures lines[l].height == height ==> lines == lines[l := lines[l].(height := height)]
  {
  }

  lemma LiftsAbove(v: View, l: Ref, done: set<Ref>, c: Ref)
    requires Inv(v) && c in v.live && l in v.content[c] && done <= v.live
    requires forall x :: x in v.live && l in v.content[x] && x !in done ==> IsBelow(v, c, x)
    ensures v.nodes[c].parent.To? ==> v.nodes[c].parent.ref in v.live
    ensures forall x :: x in v.live && l in v.content[x] && x !in done + {c} ==>
              v.nodes[c].parent.To? && IsBelow(v, v.nodes[c].parent.ref, x)
    ensures v.nodes[c].parent.To? ==>
              var p := v.nodes[c].parent.ref;
              p in v.rank && p in v.nodes && l in v.content[p] && v.rank[c] < v.rank[p] && |Above(v, p)| < |Above(v, c)|
  {
    hide Bounded, Linked, Summed;
    if v.nodes[c].parent.To? {
      Rises(v, c);
      ParentHolds(v, c, l);
    }
    forall x | x in v.live && l in v.content[x] && x !in done + {c}
      ensures v.nodes[c].parent.To? && IsBelow(v, v.nodes[c].parent.ref, x)
    {
      ParentIsBelow(v, c, x);
    }
  }

  lemma ParentHolds(v: View, c: Ref, l: Ref)
    requires Consistent(v, v.content) && c in v.live && v.nodes[c].parent.To? && l in v.content[c]
    ensures var p := v.nodes[c].parent.ref; p in v.live && l in v.content[p] && v.rank[c] < v.rank[p]
  {
    Rises(v, c);
    var p := v.nodes[c].parent.ref;
    Holds(v, p);
    var i :| 0 <= i < |v.nodes[p].children| && v.nodes[p].children[i] == c;
    FlattenAt(v.content, v.nodes[p].children, i);
  }

  lemma {:induction false} NoneRepeated(v: View, x: Ref)
    requires Consistent(v, v.content) && x in v.live
    ensures NoRepeats(v.content[x])
    decreases |Above(v, x)|
  {
    assert Linked(v, x);
    if x != v.root {
      Rises(v, x);
      var p := v.nodes[x].parent.ref;
      NoneRepeated(v, p);
      Holds(v, p);
      var i :| 0 <= i < |v.nodes[p].children| && v.nodes[p].children[i] == x;
      hide Consistent, Flatten, NoRepeats, PlaceOf, Linked;
      ChildPlace(v.content, v.nodes[p].children, i);
      PlacedNoRepeats(v.content[p], v.content[x], SizeUpTo(v.content, v.nodes[p].children, i));
    }
  }

  lemma PlacedNoRepeats(s: seq<Ref>, t: seq<Ref>, n: int)
    requires PlaceOf(s, t, n) && NoRepeats(s)
    ensures NoRepeats(t)
  {
    SliceNoRepeats(s, n, n + |t|);
  }

  lemma LiftEnds(v: View, v': View, l: Ref, diff: int, done: set<Ref>)
    requires Lifting(v, v', l, diff, done, Null)
    ensures Inv(v')
  {
    hide Flatten, Heights;
    forall x | x in v.live
      ensures Linked(v', x) && Summed(v', v'.content, x)
    {
      LiftedLinked(v, v', l, diff, done, x);
      assert Summed(v, v.content, x);
      NoneRepeated(v, x);
      HeightsChange(v.lines, v'.lines, v.content[x], l);
    }
    LiftedBounded(v, v', l, diff, done);
  }

  lemma LiftedLinked(v: View, v': View, l: Ref, diff: int, done: set<Ref>, x: Ref)
    requires Lifting(v, v', l, diff, done, Null) && x in v.live
    ensures x in v'.nodes && Linked(v', x)
  {
    hide Flatten, Heights, Summed, Bounded;
    assert Linked(v, x);
    if v.nodes[x].Branch? {
      forall c | c in v.nodes[x].children
        ensures ChildOf(v', c, x)
      {
        assert ChildOf(v, c, x);
      }
    }
  }

  lemma LiftedBounded(v: View, v': View, l: Ref, diff: int, done: set<Ref>)
    requires Lifting(v, v', l, diff, done, Null)
    ensures v'.live <= v'.nodes.Keys && Bounded(v', {})
  {
    assert v.live <= v.nodes.Keys;
    hide Consistent;
  }

  lemma UnusedKeys(v: View, nodes: map<Ref, Node>, next: Ref)
    requires nodes.Keys == v.nodes.Keys && forall r :: r in v.nodes ==> r < next
    ensures forall r :: r in nodes ==> r < next
  {
    assert forall r :: r in nodes ==> r in nodes.Keys;
  }

  lemma OneMoreChild(nodes: map<Ref, Node>, cs: seq<Ref>, i: int, r: Ref)
    requires 0 <= i < |cs| && NoRepeats(cs) && cs[i] in nodes
    ensures var before := Adopt(nodes, cs[..i], r);
            && cs[i] in before && before[cs[i]] == nodes[cs[i]]
            && Adopt(nodes, cs[..i + 1], r) == before[cs[i] := SetParent(nodes[cs[i]], To(r))]
  {
    assert cs[..i + 1] == cs[..i] + [cs[i]];
  }

  lemma FirstAboveStep(lines: map<Ref, Line>, ls: seq<Ref>, i: int, h: int)
    requires 0 <= i <= |ls|
    ensures i == |ls| ==> FirstAbove(lines, ls[i..], h) == 0
    ensures i < |ls| ==>
              FirstAbove(lines, ls[i..], h)
                == if h < LineHeight(lines, ls[i]) then 0
                  else 1 + FirstAbove(lines, ls[i + 1..], h - LineHeight(lines, ls[i]))
  {
    if i < |ls| {
      assert ls[i..][0] == ls[i] && ls[i..][1..] == ls[i + 1..];
    }
  }

  lemma FirstIndex(s: seq<Ref>, i: int, x: Ref)
    requires 0 <= i <= |s| && x !in s[..i] && x in s && (i < |s| ==> s[i] == x)
    ensures i == IndexIn(s, x)
  {
    forall k | 0 <= k < i
      ensures s[k] != x
    {
      assert s[..i][k] == s[k];
    }
    var j := IndexIn(s, x);
    forall k | 0 <= k < j
      ensures s[k] != x
    {
      assert s[..j][k] == s[k];
    }
  }

  lemma PrefixHeights(lines: map<Ref, Line>, s: seq<Ref>, k: int, t: seq<Ref>, no: int, above: int, h: int)
    requires PlaceOf(s, t, k) && 0 <= no < |t| && HeightBeforeIs(lines, s, k, above) && HeightBeforeIs(lines, t, no, h)
    ensures 0 <= k + no < |s| && s[k + no] == t[no] && HeightBeforeIs(lines, s, k + no, above + h)
  {
    SliceAt(s, k, t, no);
    assert s[..k + no] == s[..k] + t[..no] by { assert t[..no] == s[k..k + no]; }
    HeightsConcat(lines, s[..k], t[..no]);
  }

  // ----- removing -----

  lemma Appended(a: seq<Ref>, b: seq<Ref>, c: seq<Ref>)
    ensures a + b + c == a + (b + c)
  {
  }

  lemma OneMoreLine(lines: map<Ref, Line>, ls: seq<Ref>, a: int, i: int, p: MaybeRef)
    requires 0 <= a <= i < |ls| && ls[i] in lines
    ensures var before := SetParents(lines, ls[a..i], p);
            && ls[i] in before && before[ls[i]].height == lines[ls[i]].height
            && SetParents(lines, ls[a..i + 1], p) == before[ls[i] := before[ls[i]].(parent := p)]
    ensures Heights(lines, ls[a..i + 1]) == Heights(lines, ls[a..i]) + lines[ls[i]].height
  {
    assert ls[a..i + 1] == ls[a..i] + [ls[i]];
    HeightsConcat(lines, ls[a..i], [ls[i]]);
    assert [ls[i]][1..] == [];
  }

  lemma FlattenNone(content: Content, cs: seq<Ref>)
    ensures Flatten(content, cs[..0]) == []
  {
  }

  lemma LeafHasLines(v: View, busy: set<Ref>, c: Ref)
    requires Partial(v, busy) && c in v.live && v.nodes[c].Leaf?
    ensures forall l :: l in v.nodes[c].lines ==> l in v.lines
  {
    assert Linked(v, c);
  }

  lemma CollapseStep(v: View, busy: set<Ref>, keep: set<Ref>, c: Ref)
    requires Partial(v, busy) && Kept(v, keep) && busy <= keep && c in v.live && c !in keep
    ensures v.nodes[c].Leaf? ==> v.content[c] == v.nodes[c].lines
    ensures v.nodes[c].Branch? ==> v.content[c] == Flatten(v.content, v.nodes[c].children)
    ensures v.nodes[c].Branch? ==> forall d :: d in v.nodes[c].children ==>
              d in v.live && d !in keep && d in v.content && d in v.rank && v.rank[d] < v.rank[c]
  {
    assert Summed(v, v.content, c) && Linked(v, c) && Linked(v, v.root);
    if v.nodes[c].Branch? {
      forall d | d in v.nodes[c].children
        ensures d in v.live && d !in keep && d in v.rank && v.rank[d] < v.rank[c]
      {
        assert ChildOf(v, d, c);
      }
    }
  }

  lemma DoneChildren(v0: View, v: View, keep: set<Ref>, busy: set<Ref>, r: Ref, at0: int, n0: int)
    requires Ready(v0, keep, busy, r, at0, n0) && Done(v0, v, keep, busy, r, at0, n0)
    ensures forall c :: c in v.nodes[r].children ==> c in v.nodes
  {
    LiveChildren(v, r);
  }

  lemma BetweenHas(v0: View, v: View, keep: set<Ref>, busy: set<Ref>, r: Ref, at0: int, n0: int, i: int, at: int,
                   n: int)
    requires Ready(v0, keep, busy, r, at0, n0) && Between(v0, v, keep, busy, r, at0, n0, i, at, n)
    ensures r in v.nodes && v.nodes[r].Branch? && r in v.rank && 0 <= i <= |v.nodes[r].children|
  {
  }

  lemma ChildIsThere(v0: View, v: View, keep: set<Ref>, busy: set<Ref>, r: Ref, at0: int, n0: int, i: int, at: int,
                     n: int)
    requires Ready(v0, keep, busy, r, at0, n0) && Between(v0, v, keep, busy, r, at0, n0, i, at, n)
    requires r in v.nodes && v.nodes[r].Branch? && i < |v.nodes[r].children|
    ensures 0 <= i && v.nodes[r].children[i] in v.nodes && r in v.rank
  {
    hide Flatten, Heights, Summed;
    LiveChildren(v, r);
  }

  lemma GonePlaces(v0: View, v: View, v3: View, keep: set<Ref>, busy: set<Ref>, r: Ref, at0: int, n0: int, i: int,
                   at: int, n: int, rm: int)
    requires Ready(v0, keep, busy, r, at0, n0) && ChildGone(v0, v, v3, keep, busy, r, at0, n0, i, at, n, rm)
    ensures r in v3.rank && v3.nodes[r].children == v.nodes[r].children
    ensures var c := v3.nodes[r].children[i]; c in v3.live && c in v3.nodes && c in v3.rank && c != r
  {
    hide Flatten, Heights, Summed;
    LiveChildren(v3, r);
    NotItself(v3, r);
  }

  /** The child at `i` has lost `rm` of its `sz` lines, and `r` has adjusted its height. */
  ghost predicate Halfway(v0: View, v: View, v3: View, keep: set<Ref>, busy: set<Ref>, r: Ref, at0: int, n0: int,
                          i: int, at: int, n: int, sz: int, rm: int)
    requires Ready(v0, keep, busy, r, at0, n0)
  {
    && r in v0.content && ChildGone(v0, v, v3, keep, busy, r, at0, n0, i, at, n, rm)
    && var cs := v.nodes[r].children;
    && Part(v0.content[r], at0, n0, at, n, Flatten(v.content, cs[..i]),
      v.content[cs[i]] + Flatten(v.content, cs[i + 1..]))
    && sz == |v.content[cs[i]]| && at < sz && rm == (if n < sz - at then n else sz - at)
    && cs[i] in v3.nodes && cs[i] in v3.rank && cs[i] != r && r in v3.rank
  }

  lemma StaysOn(v0: View, v: View, v3: View, keep: set<Ref>, busy: set<Ref>, r: Ref, at0: int, n0: int,
                i: int, at: int, n: int, sz: int, rm: int)
    requires Ready(v0, keep, busy, r, at0, n0) && Halfway(v0, v, v3, keep, busy, r, at0, n0, i, at, n, sz, rm)
    ensures n > rm ==> Between(v0, v3, keep, busy, r, at0, n0, i + 1, 0, n - rm)
    ensures n == rm ==> Done(v0, v3, keep, busy, r, at0, n0)
  {
    hide Working, Flatten, Ready, Seen, Removed;
    var cs := v.nodes[r].children;
    assert Cuts(v0.content[r], at0, n0, at, n, Flatten(v.content, cs[..i]), v.content[cs[i]],
           Flatten(v.content, cs[i + 1..]), rm);
    hide Part, Cuts;
    assert v3.content[cs[i]] == Removed(v.content[cs[i]], at, rm);
    SeenGoesOn(v0, v3, keep, busy, r, at0, n0, at, n, i + 1, Flatten(v.content, cs[..i]), v.content[cs[i]],
               Flatten(v.content, cs[i + 1..]), rm);
  }

  lemma GoesOff(v0: View, v: View, v3: View, keep: set<Ref>, busy: set<Ref>, r: Ref, at0: int, n0: int,
                i: int, at: int, n: int, sz: int, rm: int)
    requires Ready(v0, keep, busy, r, at0, n0) && Halfway(v0, v, v3, keep, busy, r, at0, n0, i, at, n, sz, rm)
    requires sz == rm
    ensures n > rm ==> Between(v0, Dropped(v3, r, i), keep, busy, r, at0, n0, i, 0, n - rm)
    ensures n == rm ==> Done(v0, Dropped(v3, r, i), keep, busy, r, at0, n0)
  {
    hide Working, Flatten, Ready, Seen;
    var cs := v.nodes[r].children;
    var before, y, after := Flatten(v.content, cs[..i]), v.content[cs[i]], Flatten(v.content, cs[i + 1..]);
    assert Cuts(v0.content[r], at0, n0, at, n, before, y, after, rm);
    hide Part, Cuts;
    assert v3.content[cs[i]] == Removed(y, at, rm) == [];
    hide Removed;
    DropSeen(v0, v3, keep, busy, r, at0, n0, i, before + Removed(y, at, rm), after, n0 - n + rm);
    hide Dropped;
    SeenGoesOn(v0, Dropped(v3, r, i), keep, busy, r, at0, n0, at, n, i, before, y, after, rm);
  }

  lemma DropCount(v: View, r: Ref, i: int)
    requires r in v.nodes && v.nodes[r].Branch? && 0 <= i < |v.nodes[r].children|
    requires v.nodes[r].children[i] in v.nodes && v.nodes[r].children[i] in v.rank && v.nodes[r].children[i] != r
    ensures var v' := Dropped(v, r, i);
            r in v'.nodes && v'.nodes[r].Branch? && |v'.nodes[r].children| == |v.nodes[r].children| - 1
              && v'.rank == v.rank
  {
    hide Branching;
  }

  lemma GoesThrough(v0: View, v: View, v2: View, keep: set<Ref>, busy: set<Ref>, r: Ref, at0: int, n0: int,
                    i: int, at: int, n: int, sz: int, rm: int)
    requires Ready(v0, keep, busy, r, at0, n0) && ChildStarts(v0, v, keep, busy, r, at0, n0, i, at, n, sz, rm)
    requires Finished(v, v2, KeepOthers(v, keep, r, v.nodes[r].children[i]), busy + {r}, v.nodes[r].children[i], at, rm)
    ensures r in v2.nodes && v2.nodes[r].Branch? && v.nodes[r].children[i] in v2.nodes
            && v.nodes[r].children[i] in v.nodes
    ensures r in v.rank && r in v2.rank && v2.rank[r] == v.rank[r]
    ensures v2.nodes[r] == v.nodes[r]
    ensures Halfway(v0, v, After(v, v2, r, v.nodes[r].children[i]), keep, busy, r, at0, n0, i, at, n, sz, rm)
  {
    hide Partial, Flatten, Heights, Working, Bounded, Outside, Framed, NoRepeats, Seen, After, Ready, Finished;
    ReadyHas(v0, keep, busy, r, at0, n0);
    ChildSeen(v0, v, v2, keep, busy, r, at0, n0, i, at, n, rm);
    GonePlaces(v0, v, After(v, v2, r, v.nodes[r].children[i]), keep, busy, r, at0, n0, i, at, n, rm);
  }

  /** The child at `i`, with `sz` lines, is about to lose `rm` of them. */
  ghost predicate ChildStarts(v0: View, v: View, keep: set<Ref>, busy: set<Ref>, r: Ref, at0: int, n0: int,
                              i: int, at: int, n: int, sz: int, rm: int)
    requires Ready(v0, keep, busy, r, at0, n0)
  {
    && r in v.nodes && v.nodes[r].Branch?
    && Between(v0, v, keep, busy, r, at0, n0, i, at, n) && i < |v.nodes[r].children|
    && var cs := v.nodes[r].children;
    && cs[i] in v.nodes && Ready(v, KeepOthers(v, keep, r, cs[i]), busy + {r}, cs[i], at, rm)
    && v.rank[cs[i]] < v.rank[r] && (forall l :: l in v.content[cs[i]] ==> l in v0.content[r])
    && sz == |v.content[cs[i]]| && at < sz && rm == (if n < sz - at then n else sz - at)
    && Part(v0.content[r], at0, n0, at, n, Flatten(v.content, cs[..i]),
      v.content[cs[i]] + Flatten(v.content, cs[i + 1..]))
  }

  lemma ChildBegins(v0: View, v: View, keep: set<Ref>, busy: set<Ref>, r: Ref, at0: int, n0: int, i: int, at: int,
                    n: int, rm: int)
    requires Ready(v0, keep, busy, r, at0, n0) && Between(v0, v, keep, busy, r, at0, n0, i, at, n)
             && i < |v.nodes[r].children|
    requires v.nodes[r].children[i] in v.nodes
    requires var y := Size(v.nodes[v.nodes[r].children[i]]) - at; 0 < y && rm == if n < y then n else y
    ensures ChildStarts(v0, v, keep, busy, r, at0, n0, i, at, n, Size(v.nodes[v.nodes[r].children[i]]), rm)
  {
    AtChild(v0, v, keep, busy, r, at0, n0, i, at, n);
    ChildReady(v0, v, keep, busy, r, at0, n0, i, at, n, rm);
    hide Partial, Flatten, Heights, Bounded, Outside, Framed, NoRepeats;
  }

  lemma CollapseReady(v0: View, v: View, keep: set<Ref>, busy: set<Ref>, r: Ref, at0: int, n0: int)
    requires Ready(v0, keep, busy, r, at0, n0) && Done(v0, v, keep, busy, r, at0, n0) && v.nodes[r].size <= 50
    ensures r in v.nodes && r in v.rank && r in v.content && v.nodes[r].Branch? && |v.content[r]| <= 50
    ensures Partial(v, busy + {r}) && Kept(v, keep + {r}) && busy <= keep
    ensures forall d :: d in v.nodes[r].children ==>
              d in v.live && d !in keep + {r} && d in v.content && d in v.rank && v.rank[d] < v.rank[r]
    ensures v.content[r] == Flatten(v.content, v.nodes[r].children)
    ensures forall l :: l in v.content[r] ==> l in v.lines
  {
    hide Heights, Flatten;
    assert Linked(v, r) && Linked(v, v.root);
    forall d | d in v.nodes[r].children
      ensures d in v.live && d !in keep + {r} && d in v.content && d in v.rank && v.rank[d] < v.rank[r]
    {
      assert ChildOf(v, d, r);
    }
    assert NoRepeats(v.content[r]) by { RemovedNoRepeats(v0.content[r], at0, n0); }
    EmptiedOrphans(v, keep, busy, r, v.content[r]);
  }

  class Tree {
    var nodes: map<Ref, Node>
    var lines: map<Ref, Line>
    var root: Ref
    var next: Ref
    ghost var live: set<Ref>
    ghost var content: Content
    ghost var rank: map<Ref, nat>

    ghost function V(): View
      reads this
    {
      View(nodes, lines, root, live, content, rank)
    }

    ghost predicate Unused()
      reads this
    {
      forall r :: r in nodes ==> r < next
    }

    ghost predicate Valid()
      reads this
    {
      Inv(V()) && Unused()
    }

    /** A leaf over `ls`; its parent is for the caller to set. */
    method NewLeaf(ls: seq<Ref>) returns (r: Ref)
      requires Unused() && forall l :: l in ls ==> l in lines
      modifies this`nodes, this`lines, this`next
      ensures Unused() && r !in old(nodes)
      ensures nodes == old(nodes)[r := Leaf(ls, Heights(old(lines), ls), Null)]
      ensures lines == SetParents(old(lines), ls, To(r))
    {
      r := next;
      next := next + 1;
      var height := 0;
      assert SetParents(lines, ls[..0], To(r)) == lines;
      for i := 0 to |ls|
        invariant nodes == old(nodes) && next == r + 1
        invariant lines == SetParents(old(lines), ls[..i], To(r))
        invariant height == Heights(old(lines), ls[..i])
      {
        HeightsConcat(old(lines), ls[..i], [ls[i]]);
        assert ls[..i + 1] == ls[..i] + [ls[i]];
        assert ls[i] in lines;
        lines := lines[ls[i] := lines[ls[i]].(parent := To(r))];
        height := height + lines[ls[i]].height;
      }
      assert ls[..|ls|] == ls;
      nodes := nodes[r := Leaf(ls, height, Null)];
    }

    /** A branch over `cs`; its parent is for the caller to set. */
    method NewBranchOver(cs: seq<Ref>) returns (r: Ref)
      requires Unused() && NoRepeats(cs) && forall c :: c in cs ==> Summarised(nodes, lines, content, c)
      modifies this`nodes, this`next
      ensures Unused() && r !in old(nodes)
      ensures nodes == Adopt(old(nodes), cs, r)[r := NewBranch(old(V()), cs, Null)]
    {
      r := next;
      next := next + 1;
      var size, height := 0, 0;
      assert Adopt(nodes, cs[..0], r) == nodes;
      NoChildren(lines, content, cs);
      hide Adopt, Flatten, Heights, NoRepeats, SizeUpTo, HeightUpTo;
      for i := 0 to |cs|
        invariant nodes == Adopt(old(nodes), cs[..i], r) && next == r + 1
        invariant size == SizeUpTo(content, cs, i) && height == HeightUpTo(lines, content, cs, i)
      {
        var c := cs[i];
        assert Summarised(old(nodes), lines, content, c);
        NextChild(lines, content, cs, i);
        OneMoreChild(old(nodes), cs, i, r);
        size, height := size + Size(nodes[c]), height + nodes[c].height;
        nodes := nodes[c := SetParent(nodes[c], To(r))];
      }
      assert cs[..|cs|] == cs;
      AllChildren(lines, content, cs);
      nodes := nodes[r := Branch(cs, size, height, Null)];
    }

    /** One turn of the spill loop. */
    method SpillOnce(me: Ref) returns (me': Ref, ghost copy: Ref, ghost sib: Ref)
      requires Consistent(V(), content) && Unused() && me in live && nodes[me].Branch? && |nodes[me].children| > 5
      modifies this`nodes, this`next, this`live, this`content, this`rank
      ensures Unused()
      ensures if me == root then CanDeepen(old(V()), copy)
              && Deepened(old(V()), copy, sib) else CanSpill(old(V()), me, sib)
      ensures V() == Spilt(old(V()), me, copy, sib)
      ensures me' == if me == root then copy else me
    {
      hide Flatten, Heights, Summed, Adopt;
      ghost var v := V();
      assert Linked(v, me);
      var n := nodes[me];
      ChildrenSummarised(v, me);
      var sibling := NewBranchOver(Spilled(n));
      sib, copy := sibling, me;
      if n.parent == Null {
        me' := SplitRoot(v, n, sibling);
        copy := me';
      } else {
        SplitBelow(v, me, n, sibling);
        me' := me;
      }
    }

    /** The child to insert into: the first one that reaches as far as `at`. */
    method FindChild(r: Ref, at: int, ghost cont: Content) returns (i: nat, at': int)
      requires r in nodes && nodes[r].Branch? && |nodes[r].children| >= 1
      requires forall c :: c in nodes[r].children ==> c in nodes && c in cont && Size(nodes[c]) == |cont[c]|
      requires 0 <= at <= |Flatten(cont, nodes[r].children)|
      ensures i < |nodes[r].children| && at == |Flatten(cont, nodes[r].children[..i])| + at'
      ensures 0 <= at' <= |At(cont, nodes[r].children[i])|
    {
      var cs := nodes[r].children;
      i, at' := 0, at;
      while at' > Size(nodes[cs[i]])
        invariant i < |cs| && 0 <= at' && at == |Flatten(cont, cs[..i])| + at'
        decreases |cs| - i
      {
        FlattenAt(cont, cs, i);
        ghost var rest := cs[i + 1..];
        assert i + 1 == |cs| ==> rest == [];
        at' := at' - Size(nodes[cs[i]]);
        i := i + 1;
      }
    }

    method LeafInsertInner(c: Ref, at: int, ls: seq<Ref>, height: int)
      requires c in nodes && nodes[c].Leaf? && 0 <= at <= |nodes[c].lines| && height == Heights(lines, ls)
      requires forall l :: l in ls ==> l in lines
      modifies this`nodes, this`lines, this`content
      ensures V() == LeafInsert(old(V()), c, at, ls)
    {
      var n := nodes[c];
      nodes := nodes[c := Leaf(n.lines[..at] + ls + n.lines[at..], n.height + height, n.parent)];
      content := content[c := Splice(n.lines, at, ls)];
      assert SetParents(lines, ls[..0], To(c)) == lines;
      for i := 0 to |ls|
        invariant lines == SetParents(old(lines), ls[..i], To(c))
        invariant V() == old(V()).(nodes := nodes, lines := lines, content := content)
        invariant nodes == old(nodes)[c := Leaf(Splice(n.lines, at, ls), n.height + height, n.parent)]
        invariant content == old(content)[c := Splice(n.lines, at, ls)]
      {
        assert ls[..i + 1] == ls[..i] + [ls[i]];
        assert ls[i] in lines;
        lines := lines[ls[i] := lines[ls[i]].(parent := To(c))];
      }
      assert ls[..|ls|] == ls;
    }

    /** Inserts lines below the branch `r`, whose ancestors already count them. */
    method InsertInner(r: Ref, at: int, ls: seq<Ref>, height: int)
      requires Expects(V(), r, at, ls) && Fresh(V(), ls) && Bounded(V(), {}) && Unused()
      requires nodes[r].Branch? && height == Heights(lines, ls)
      modifies this`nodes, this`lines, this`next, this`live, this`content, this`rank
      ensures Valid() && SameHeights(old(lines), lines)
      ensures content[root] == if r == root then Splice(old(content[root]), at, ls) else old(content[root])
      decreases rank[r], 1
    {
      hide Consistent, Bounded, Flatten, Heights, Splice, Fresh, Expects, Grow;
      ghost var v := V();
      ReadyToGrow(v, r, at, ls);
      CountLines(r, at, ls, height);
      var i, at' := FindChild(r, at, v.content);
      Descends(v, r, at, ls, i, at');
      InsertBelow(r, i, at', ls, height);
    }

    /** The caches of `r` count the new lines. */
    method CountLines(r: Ref, at: int, ls: seq<Ref>, height: int)
      requires r in nodes && nodes[r].Branch? && r in content && 0 <= at <= |content[r]| && height == Heights(lines, ls)
      modifies this`nodes, this`content
      ensures V() == Grow(old(V()), r, at, ls) && nodes.Keys == old(nodes.Keys)
      ensures forall c :: c in nodes && c != r ==> nodes[c] == old(nodes)[c]
      ensures nodes[r].Branch? && nodes[r].children == old(nodes[r].children)
    {
      var n := nodes[r];
      nodes := nodes[r := Branch(n.children, n.size + |ls|, n.height + height, n.parent)];
      content := content[r := Splice(content[r], at, ls)];
    }

    method InsertBelow(r: Ref, i: nat, at: int, ls: seq<Ref>, height: int)
      requires r in live && r in nodes && nodes[r].Branch? && i < |nodes[r].children|
      requires Expects(V(), nodes[r].children[i], at, ls) && Fresh(V(), ls) && Bounded(V(), {}) && Unused()
      requires height == Heights(lines, ls)
      requires r in rank && rank[nodes[r].children[i]] < rank[r] && nodes[r].children[i] != root
      modifies this`nodes, this`lines, this`next, this`live, this`content, this`rank
      ensures Valid() && content[root] == old(content[root]) && SameHeights(old(lines), lines)
      decreases rank[r], 0
    {
      var c := nodes[r].children[i];
      hide Consistent, Bounded, Flatten, Heights, Splice, Fresh;
      if nodes[c].Leaf? {
        InsertIntoLeaf(r, i, at, ls, height);
      } else {
        InsertInner(c, at, ls, height);
      }
    }

    method InsertIntoLeaf(r: Ref, i: nat, at: int, ls: seq<Ref>, height: int)
      requires r in live && r in nodes && nodes[r].Branch? && i < |nodes[r].children|
      requires Expects(V(), nodes[r].children[i], at, ls) && Fresh(V(), ls) && Bounded(V(), {}) && Unused()
      requires nodes[nodes[r].children[i]].Leaf? && height == Heights(lines, ls)
      modifies this`nodes, this`lines, this`next, this`live, this`content, this`rank
      ensures Valid() && content[root] == old(content[root]) && SameHeights(old(lines), lines)
    {
      ghost var v := V();
      var c := nodes[r].children[i];
      LeafInsertKeeps(v, c, at, ls);
      LeafInsertWidth(v, c, at, ls);
      LeafInsertInner(c, at, ls, height);
      ghost var u := V();
      assert u == LeafInsert(v, c, at, ls);
      hide Consistent, Bounded, Flatten, Heights, Splice, Fresh, SameHeights;
      if |nodes[c].lines| > 50 {
        hide Expects, LeafInsert;
        SplitLeaf(r, i);
      }
    }

    method SplitLeaf(r: Ref, i: nat)
      requires Consistent(V(), content) && Unused() && r in live && nodes[r].Branch? && i < |nodes[r].children|
      requires var c := nodes[r].children[i]; c in live && nodes[c].Leaf? && |nodes[c].lines| > 50 && Bounded(V(), {c})
      modifies this`nodes, this`lines, this`next, this`live, this`content, this`rank
      ensures Valid() && content[root] == old(content[root]) && SameHeights(old(lines), lines)
    {
      hide Bounded, Flatten, Heights, Splice, Cut, CanCut, Consistent, SameHeights;
      ghost var u := V();
      ghost var keep, made := CutLeaf(r, i);
      CutWidth(u, r, i, keep, made);
      MaybeSpill(r);
    }

    /** Takes slices of 25 lines off a leaf, in order, until between 25 and 49 lines remain. */
    method CutLeaf(r: Ref, i: nat) returns (ghost keep: nat, ghost made: seq<Ref>)
      requires Consistent(V(), content) && Unused() && r in live && nodes[r].Branch? && i < |nodes[r].children|
      requires var c := nodes[r].children[i]; c in live && nodes[c].Leaf? && |nodes[c].lines| > 50
      modifies this`nodes, this`lines, this`next, this`live, this`content, this`rank
      ensures Unused() && 25 <= keep < 50 && CanCut(old(V()), r, i, keep, made)
              && V() == Cut(old(V()), r, i, keep, made)
    {
      ghost var v, n := V(), nodes[r];
      var c := nodes[r].children[i];
      var cn := nodes[c];
      var remaining := |cn.lines| % SLICE + SLICE;
      keep := remaining;
      CutStarts(v, r, i, c, cn, keep);
      hide Heights, Flatten, LinesWith, NodesWith, CutStore, Consistent, NoRepeats;
      made := TakeSlices(v, n, r, i, c, cn, remaining);
      CutEnds(v, r, i, c, cn, keep, made);
      hide Cut, Shorter;
      KeepRest(v, r, c, cn, remaining, Cut(v, r, i, keep, made));
    }

    method KeepRest(ghost v: View, ghost r: Ref, c: Ref, cn: Node, remaining: nat, ghost v': View)
      requires c in nodes && cn.Leaf? && remaining <= |cn.lines| && nodes[c].Leaf? && Unused()
      requires v'.nodes == nodes[c := Leaf(cn.lines[..remaining], nodes[c].height, nodes[c].parent)]
      requires v'.lines == lines && v'.root == root
      modifies this`nodes, this`live, this`content, this`rank
      ensures V() == v' && Unused()
    {
      nodes := nodes[c := Leaf(cn.lines[..remaining], nodes[c].height, nodes[c].parent)];
      live, content, rank := v'.live, v'.content, v'.rank;
    }

    method TakeSlices(ghost v: View, ghost n: Node, r: Ref, i: nat, c: Ref, cn: Node, remaining: nat)
      returns (ghost made: seq<Ref>)
      requires n.Branch? && i < |n.children| && cn.Leaf? && c != r && r in v.nodes && c in v.nodes
      requires |cn.lines| > 50 && remaining == |cn.lines| % SLICE + SLICE && Unused()
      requires nodes == v.nodes == CutStore(v.nodes, v.lines, r, n, i, c, cn, remaining, []) && lines == v.lines
      requires NoRepeats(cn.lines) && forall l :: l in cn.lines ==> l in v.lines
      modifies this`nodes, this`lines, this`next
      ensures Unused() && remaining + SLICE * |made| == |cn.lines|
      ensures NoRepeats(made) && forall x :: x in made ==> x !in v.nodes
      ensures nodes == CutStore(v.nodes, v.lines, r, n, i, c, cn, remaining, made)
      ensures lines == LinesWith(v.lines, cn.lines, remaining, made)
    {
      hide Heights, Flatten, LinesWith, NodesWith, CutStore;
      var pos, j := remaining, i;
      made := [];
      ghost var total := |cn.lines| / SLICE - 1;
      LinesWithNone(lines, cn.lines, remaining);
      while pos < |cn.lines|
        invariant pos == remaining + SLICE * |made| && |made| <= total && j == i + |made| && Unused()
        invariant NoRepeats(made) && forall x :: x in made ==> x !in v.nodes
        invariant nodes == CutStore(v.nodes, v.lines, r, n, i, c, cn, remaining, made)
        invariant lines == LinesWith(v.lines, cn.lines, remaining, made)
      {
        made := TakeSlice(v, n, r, i, c, cn, pos, j + 1, remaining, made);
        pos, j := pos + SLICE, j + 1;
      }
    }

    method TakeSlice(ghost v: View, ghost n: Node, r: Ref, ghost i: nat, c: Ref, cn: Node, pos: nat, j: nat,
                     ghost keep: nat, ghost made: seq<Ref>)
      returns (ghost made': seq<Ref>)
      requires n.Branch? && i < |n.children| && cn.Leaf? && c != r && r in v.nodes && c in v.nodes
      requires pos == keep + SLICE * |made| && pos + SLICE <= |cn.lines| && j == i + 1 + |made| && Unused()
      requires nodes == CutStore(v.nodes, v.lines, r, n, i, c, cn, keep, made)
      requires lines == LinesWith(v.lines, cn.lines, keep, made)
      requires NoRepeats(cn.lines) && forall l :: l in cn.lines ==> l in v.lines
      requires NoRepeats(made) && forall x :: x in made ==> x !in v.nodes
      modifies this`nodes, this`lines, this`next
      ensures |made'| == |made| + 1 && Unused()
      ensures NoRepeats(made') && forall x :: x in made' ==> x !in v.nodes
      ensures nodes == CutStore(v.nodes, v.lines, r, n, i, c, cn, keep, made')
      ensures lines == LinesWith(v.lines, cn.lines, keep, made')
    {
      hide Heights, Slice, CutStore, LinesWith, Flatten, NoRepeats, HangLeaf, SetParents, WithSlices;
      SliceReady(v, cn, keep, made);
      CutKeys(v.nodes, v.lines, r, n, i, c, cn, keep, made);
      assert cn.lines[pos..pos + SLICE] == Slice(cn.lines, keep, |made|) by { SliceIs(cn.lines, keep, |made|); }
      var leaf := NewLeaf(cn.lines[pos..pos + SLICE]);
      made' := made + [leaf];
      CutGoesOn(v.nodes, v.lines, r, n, i, c, cn, keep, made, leaf);
      AddedNoRepeats(made, leaf);
      LinesWithOne(v.lines, cn, keep, made, leaf);
      WideEnough(n, i, made);
      Hang(r, j, c, leaf);
    }

    method Hang(r: Ref, j: nat, c: Ref, leaf: Ref)
      requires r in nodes && c in nodes && leaf in nodes && nodes[r].Branch? && nodes[c].Leaf? && nodes[leaf].Leaf?
      requires j <= |nodes[r].children| && Unused()
      modifies this`nodes
      ensures Unused() && nodes == HangLeaf(old(nodes), r, j, c, leaf)
    {
      hide HangLeaf;
      ghost var keys := nodes.Keys;
      nodes := HangLeaf(nodes, r, j, c, leaf);
      assert nodes.Keys == keys;
    }

    /** A branch that has grown too wide is split, and then its parent if need be, up to the root. */
    method MaybeSpill(r: Ref)
      requires Consistent(V(), content) && Unused() && r in live && nodes[r].Branch? && |nodes[r].children| >= 1
      requires Bounded(V(), {r})
      modifies this`nodes, this`next, this`live, this`content, this`rank
      ensures Valid() && content[root] == old(content[root])
      decreases |Above(V(), r)|, if r in nodes && nodes[r].Branch? then |nodes[r].children| else 0
    {
      if |nodes[r].children| <= 10 {
        return;
      }
      ghost var v := V();
      var me := FirstTurn(r);
      ghost var p := nodes[me].parent.ref;
      hide Consistent, Bounded, Ranked, Spilling;
      while |nodes[me].children| > 10
        invariant me in nodes && nodes[me].Branch? && Unused() && Turning(v, r, V(), me, p)
        decreases |nodes[me].children|
      {
        NextTurn(v, r, me, p);
      }
      SpillEnds(v, r, V(), me, p);
      var parent := nodes[me].parent.ref;
      MaybeSpill(parent);
    }

    method NextTurn(ghost v: View, ghost r: Ref, me: Ref, ghost p: Ref)
      requires Turning(v, r, V(), me, p) && Unused() && |nodes[me].children| > 10
      modifies this`nodes, this`next, this`live, this`content, this`rank
      ensures Turning(v, r, V(), me, p) && Unused()
      ensures |nodes[me].children| < old(|nodes[me].children|)
    {
      hide Bounded, Consistent, Ranked, SpillOff;
      NotRoot(V(), me, p);
      ghost var u := V();
      ghost var copy, sib;
      var me';
      me', copy, sib := SpillOnce(me);
      TurnsOn(v, r, u, me, p, sib);
    }

    method FirstTurn(r: Ref) returns (me: Ref)
      requires Consistent(V(), content) && Unused() && r in live && nodes[r].Branch? && |nodes[r].children| > 10
      requires Bounded(V(), {r})
      modifies this`nodes, this`next, this`live, this`content, this`rank
      ensures Unused() && me in nodes && nodes[me].Branch? && nodes[me].parent.To?
      ensures Turning(old(V()), r, V(), me, nodes[me].parent.ref)
    {
      ghost var v := V();
      ghost var copy, sib;
      me, copy, sib := SpillOnce(r);
      FirstTurnWidth(v, r, copy, sib);
    }

    /** The root keeps two children: a copy of itself and the new sibling. */
    method SplitRoot(ghost v: View, n: Node, sib: Ref) returns (copy: Ref)
      requires Consistent(v, v.content) && v == V().(nodes := v.nodes) && Unused()
      requires n == v.nodes[root] && |n.children| > 5 && sib !in v.nodes
      requires nodes == Adopt(v.nodes, Spilled(n), sib)[sib := NewBranch(v, Spilled(n), Null)]
      modifies this`nodes, this`next, this`live, this`content, this`rank
      ensures Unused() && CanDeepen(v, copy) && Deepened(v, copy, sib) && V() == Spilt(v, root, copy, sib)
    {
      RootReady(v, n, sib, nodes);
      hide Consistent, Stay, Spilled, Adopt, Deepened, Flatten, Heights, Summarised;
      copy := NewBranchOver(Stay(n));
      assert nodes == Adopt(old(nodes), Stay(n), copy)[copy := NewBranch(v, Stay(n), Null)];
      hide NewBranch;
      Settle(v, n, copy, sib);
    }

    method Settle(ghost v: View, n: Node, copy: Ref, sib: Ref)
      requires v == V().(nodes := v.nodes) && Unused()
      requires CanDeepen(v, copy) && sib !in v.nodes && sib != copy && n == v.nodes[root] && |n.children| > 5
      requires nodes == Adopt(Adopt(v.nodes, Spilled(n), sib)[sib := NewBranch(v, Spilled(n), Null)], Stay(n), copy)
                        [copy := NewBranch(v, Stay(n), Null)]
      modifies this`nodes, this`live, this`content, this`rank
      ensures Unused() && Deepened(v, copy, sib) && V() == Spilt(v, root, copy, sib)
    {
      hide Spilt, PlaceBoth, Consistent, Stay, Spilled, Adopt, Deepened, Flatten, Heights, NewBranch;
      assert v.root == root && v.lines == lines && v.live == live;
      PlacedBoth(v, copy, sib, nodes, n);
      SpiltRest(v, root, copy, sib);
      ghost var v', keys := Spilt(v, root, copy, sib), nodes.Keys;
      nodes := PlaceBoth(nodes, root, n, copy, sib);
      assert nodes.Keys == keys;
      live, content, rank := v'.live, v'.content, v'.rank;
    }

    /** The new sibling goes right behind `me`. */
    method SplitBelow(ghost v: View, me: Ref, n: Node, sib: Ref)
      requires CanSpill(v, me, sib) && v == V().(nodes := v.nodes) && Unused() && n == v.nodes[me]
      requires nodes == Adopt(v.nodes, Spilled(n), sib)[sib := NewBranch(v, Spilled(n), Null)]
      modifies this`nodes, this`live, this`content, this`rank
      ensures Unused() && V() == SpillOff(v, me, sib)
    {
      hide SpillOff, Consistent, PlaceSibling, Adopt;
      SplitPlace(v, me, sib, n, nodes);
      PlacedSibling(v, me, sib, n, nodes);
      SpillRest(v, me, sib);
      ghost var v' := SpillOff(v, me, sib);
      nodes := PlaceSibling(nodes, me, n, sib);
      assert nodes.Keys == old(nodes.Keys);
      live, content, rank := v'.live, v'.content, v'.rank;
    }

    // ----- removing -----

    method LeafRemoveInner(c: Ref, at: int, n: int)
      requires c in nodes && nodes[c].Leaf? && 0 <= at && 0 <= n && at + n <= |nodes[c].lines|
      requires forall l :: l in nodes[c].lines ==> l in lines
      modifies this`nodes, this`lines, this`content
      ensures V() == LeafCut(old(V()), c, at, n)
    {
      var cn := nodes[c];
      var height := Detach(cn.lines, cn.height, at, n);
      nodes := nodes[c := Leaf(cn.lines[..at] + cn.lines[at + n..], height, cn.parent)];
      content := content[c := Removed(cn.lines, at, n)];
    }

    /** The lines lose their parent, and their leaf the height. */
    method Detach(ls: seq<Ref>, height0: int, at: int, n: int) returns (height: int)
      requires 0 <= at && 0 <= n && at + n <= |ls| && forall l :: l in ls ==> l in lines
      modifies this`lines
      ensures height == height0 - Heights(old(lines), ls[at..at + n])
              && lines == SetParents(old(lines), ls[at..at + n], Null)
    {
      height := height0;
      assert SetParents(lines, ls[at..at], Null) == lines;
      assert Heights(lines, ls[at..at]) == 0;
      hide Heights, SetParents;
      for i := at to at + n
        invariant height == height0 - Heights(old(lines), ls[at..i])
        invariant lines == SetParents(old(lines), ls[at..i], Null)
      {
        OneMoreLine(old(lines), ls, at, i, Null);
        height := height - lines[ls[i]].height;
        lines := lines[ls[i] := lines[ls[i]].(parent := Null)];
      }
    }

    /** Removes `n` lines at `at` below the chunk `r`. The chunks of `keep` stay as they are. */
    method RemoveInner(r: Ref, at: int, n: int, ghost keep: set<Ref>, ghost busy: set<Ref>)
      requires Ready(V(), keep, busy, r, at, n) && Unused()
      modifies this`nodes, this`lines, this`next, this`live, this`content, this`rank
      ensures Unused() && Finished(old(V()), V(), keep, busy, r, at, n)
      decreases rank[r], 3
    {
      if nodes[r].Leaf? {
        LeafFinished(V(), keep, busy, r, at, n);
        LeafHasLines(V(), busy, r);
        hide Ready, Finished;
        LeafRemoveInner(r, at, n);
      } else {
        BranchRemoveInner(r, at, n, keep, busy);
      }
    }

    method BranchRemoveInner(r: Ref, at: int, n: int, ghost keep: set<Ref>, ghost busy: set<Ref>)
      requires Ready(V(), keep, busy, r, at, n) && Unused() && nodes[r].Branch?
      modifies this`nodes, this`lines, this`next, this`live, this`content, this`rank
      ensures Unused() && Finished(old(V()), V(), keep, busy, r, at, n)
      decreases rank[r], 2
    {
      ghost var v0 := V();
      Starts(v0, keep, busy, r, at, n);
      assert r in nodes && r in content && at + n <= |content[r]| && 0 <= at && 0 <= n;
      hide Ready, Finished, Between, Partial;
      var m := nodes[r];
      nodes := nodes[r := Branch(m.children, m.size - n, m.height, m.parent)];
      content := content[r := Removed(content[r], at, n)];
      assert V() == Told(v0, r, at, n);
      var left := RemoveFromChildren(v0, r, at, n, keep, busy);
      DoneChildren(v0, V(), keep, busy, r, at, n);
      var cs := nodes[r].children;
      if nodes[r].size - left < 25 && (|cs| != 1 || !nodes[cs[0]].Leaf?) {
        CollapseChildren(v0, r, at, n, keep, busy);
      }
      Finishes(v0, V(), keep, busy, r, at, n);
    }

    /** Goes through the children until the lines are out. */
    method RemoveFromChildren(ghost v0: View, r: Ref, at0: int, n0: int, ghost keep: set<Ref>, ghost busy: set<Ref>)
      returns (n: int)
      requires Ready(v0, keep, busy, r, at0, n0) && Unused()
      requires Between(v0, V(), keep, busy, r, at0, n0, 0, at0, n0)
      modifies this`nodes, this`lines, this`next, this`live, this`content, this`rank
      ensures Unused() && n == 0 && Done(v0, V(), keep, busy, r, at0, n0)
      decreases rank[r], 1
    {
      hide Ready, Between, Done;
      var i, at := 0, at0;
      n := n0;
      BetweenHas(v0, V(), keep, busy, r, at0, n0, i, at, n);
      ghost var top := rank[r];
      while i < |nodes[r].children|
        invariant r in nodes && nodes[r].Branch? && r in rank && rank[r] == top && Unused()
        invariant 0 <= i <= |nodes[r].children|
        invariant Between(v0, V(), keep, busy, r, at0, n0, i, at, n)
        decreases |nodes[r].children| - i
      {
        ChildIsThere(v0, V(), keep, busy, r, at0, n0, i, at, n);
        var c := nodes[r].children[i];
        var sz := Size(nodes[c]);
        if at < sz {
          var rm := if n < sz - at then n else sz - at;
          var dropped := RemoveFromChild(v0, r, at0, n0, i, at, n, rm, keep, busy);
          n := n - rm;
          if n == 0 {
            return;
          }
          i, at := if dropped then i else i + 1, 0;
        } else {
          SkipsChild(v0, V(), keep, busy, r, at0, n0, i, at, n);
          i, at := i + 1, at - sz;
        }
      }
      AllSeen(v0, V(), keep, busy, r, at0, n0, at, n);
    }

    /** Removes `rm` lines from the child at `i`, which goes when nothing is left of it. */
    method RemoveFromChild(ghost v0: View, r: Ref, ghost at0: int, ghost n0: int, i: nat, at: int, ghost n: int,
                           rm: int,
                           ghost keep: set<Ref>, ghost busy: set<Ref>) returns (dropped: bool)
      requires Ready(v0, keep, busy, r, at0, n0) && Unused()
      requires Between(v0, V(), keep, busy, r, at0, n0, i, at, n) && i < |nodes[r].children|
               && nodes[r].children[i] in nodes
      requires var y := Size(nodes[nodes[r].children[i]]) - at; 0 < y && rm == if n < y then n else y
      modifies this`nodes, this`lines, this`next, this`live, this`content, this`rank
      ensures Unused() && r in nodes && nodes[r].Branch? && r in rank && rank[r] == old(rank[r])
      ensures |nodes[r].children| == old(|nodes[r].children|) - if dropped then 1 else 0
      ensures n > rm ==> Between(v0, V(), keep, busy, r, at0, n0, if dropped then i else i + 1, 0, n - rm)
      ensures n == rm ==> Done(v0, V(), keep, busy, r, at0, n0)
      decreases rank[r], 0
    {
      hide Between, Done;
      ghost var v := V();
      ChildBegins(v0, v, keep, busy, r, at0, n0, i, at, n, rm);
      var c := nodes[r].children[i];
      var sz, oldHeight := Size(nodes[c]), nodes[c].height;
      assert r in rank && c in rank;
      dropped := LoseLines(v0, r, c, at0, n0, i, at, n, sz, oldHeight, rm, keep, busy);
    }

    method LoseLines(ghost v0: View, r: Ref, c: Ref, ghost at0: int, ghost n0: int, i: nat, at: int, ghost n: int,
                     sz: int, oldHeight: int, rm: int, ghost keep: set<Ref>, ghost busy: set<Ref>)
                       returns (dropped: bool)
      requires Ready(v0, keep, busy, r, at0, n0) && Unused()
      requires ChildStarts(v0, V(), keep, busy, r, at0, n0, i, at, n, sz, rm) && c == nodes[r].children[i]
               && oldHeight == nodes[c].height
      modifies this`nodes, this`lines, this`next, this`live, this`content, this`rank
      ensures Unused() && r in nodes && nodes[r].Branch? && r in rank && rank[r] == old(rank[r])
      ensures |nodes[r].children| == old(|nodes[r].children|) - if dropped then 1 else 0
      ensures n > rm ==> Between(v0, V(), keep, busy, r, at0, n0, if dropped then i else i + 1, 0, n - rm)
      ensures n == rm ==> Done(v0, V(), keep, busy, r, at0, n0)
      decreases rank[c], 4
    {
      ghost var v := V();
      hide Ready, Finished, Halfway, Done, Part, Flatten, Working;
      RemoveInner(c, at, rm, KeepOthers(v, keep, r, c), busy + {r});
      hide KeepOthers;
      ghost var v2 := V();
      GoesThrough(v0, v, v2, keep, busy, r, at0, n0, i, at, n, sz, rm);
      hide ChildStarts, Between;
      var m := nodes[r];
      nodes := nodes[r := Branch(m.children, m.size, m.height - (oldHeight - nodes[c].height), m.parent)];
      assert V() == After(v, v2, r, c);
      hide After;
      dropped := LetGo(v, v0, r, at0, n0, i, at, n, sz, rm, keep, busy);
    }

    /** The child at `i` goes when nothing is left of it. */
    method LetGo(ghost v: View, ghost v0: View, r: Ref, ghost at0: int, ghost n0: int, i: nat, ghost at: int,
                 ghost n: int,
                 sz: int, rm: int, ghost keep: set<Ref>, ghost busy: set<Ref>) returns (dropped: bool)
      requires Ready(v0, keep, busy, r, at0, n0) && Unused()
               && Halfway(v0, v, V(), keep, busy, r, at0, n0, i, at, n, sz, rm)
      modifies this`nodes, this`live
      ensures Unused() && r in nodes && nodes[r].Branch? && r in rank && r in v.nodes && v.nodes[r].Branch?
      ensures |nodes[r].children| == |v.nodes[r].children| - if dropped then 1 else 0
      ensures n > rm ==> Between(v0, V(), keep, busy, r, at0, n0, if dropped then i else i + 1, 0, n - rm)
      ensures n == rm ==> Done(v0, V(), keep, busy, r, at0, n0)
    {
      StaysOn(v0, v, V(), keep, busy, r, at0, n0, i, at, n, sz, rm);
      dropped := sz == rm;
      if dropped {
        GoesOff(v0, v, V(), keep, busy, r, at0, n0, i, at, n, sz, rm);
        hide Ready, Done, Between;
        DropCount(V(), r, i);
        hide Halfway, Dropped;
        DropChild(r, i);
      }
    }

    method DropChild(r: Ref, i: nat)
      requires r in nodes && nodes[r].Branch? && i < |nodes[r].children|
      requires nodes[r].children[i] in nodes && nodes[r].children[i] in rank && nodes[r].children[i] != r && Unused()
      modifies this`nodes, this`live
      ensures V() == Dropped(old(V()), r, i) && Unused()
    {
      ghost var v := V();
      var m := nodes[r];
      var c := m.children[i];
      nodes := nodes[r := Branch(m.children[..i] + m.children[i + 1..], m.size, m.height, m.parent)];
      nodes := nodes[c := SetParent(nodes[c], Null)];
      live := live - Branching(v, c);
    }

    /** The lines below `c`, in order, are appended to `ls`. */
    method Collapse(c: Ref, ls: seq<Ref>, ghost keep: set<Ref>, ghost busy: set<Ref>) returns (ls': seq<Ref>)
      requires Partial(V(), busy) && Kept(V(), keep) && busy <= keep && c in live && c !in keep
      ensures ls' == ls + content[c]
      decreases rank[c], 1
    {
      CollapseStep(V(), busy, keep, c);
      hide Partial, Kept, Flatten;
      if nodes[c].Leaf? {
        ls' := ls + nodes[c].lines;
      } else {
        ls' := GatherLines(nodes[c].children, ls, keep, busy, rank[c]);
      }
    }

    method GatherLines(cs: seq<Ref>, ls: seq<Ref>, ghost keep: set<Ref>, ghost busy: set<Ref>, ghost top: nat)
      returns (ls': seq<Ref>)
      requires Partial(V(), busy) && Kept(V(), keep) && busy <= keep
      requires forall d :: d in cs ==> d in live && d !in keep && d in content && d in rank && rank[d] < top
      ensures ls' == ls + Flatten(content, cs)
      decreases top, 0
    {
      ls' := ls;
      FlattenNone(content, cs);
      assert live <= rank.Keys;
      hide Partial, Kept, Flatten;
      for i := 0 to |cs|
        invariant ls' == ls + Flatten(content, cs[..i])
      {
        FlattenAt(content, cs, i);
        ls' := Collapse(cs[i], ls', keep, busy);
        Appended(ls, Flatten(content, cs[..i]), content[cs[i]]);
      }
      assert cs[..|cs|] == cs;
    }

    method CollapseChildren(ghost v0: View, r: Ref, ghost at0: int, ghost n0: int, ghost keep: set<Ref>,
                            ghost busy: set<Ref>)
      requires Ready(v0, keep, busy, r, at0, n0) && Unused() && Done(v0, V(), keep, busy, r, at0, n0)
               && nodes[r].size <= 50
      modifies this`nodes, this`lines, this`next, this`live, this`content, this`rank
      ensures Unused() && Done(v0, V(), keep, busy, r, at0, n0) && |nodes[r].children| == 1
    {
      hide Ready, Done, Flatten, Heights, Partial, Kept;
      ghost var v := V();
      CollapseReady(v0, v, keep, busy, r, at0, n0);
      var ls := GatherLines(nodes[r].children, [], keep + {r}, busy + {r}, rank[r]);
      assert ls == content[r];
      var leaf := NewLeaf(ls);
      CollapseDone(v0, v, keep, busy, r, at0, n0, leaf);
      HangOnly(v, r, leaf, ls);
    }

    method HangOnly(ghost v: View, r: Ref, leaf: Ref, ls: seq<Ref>)
      requires r in v.nodes && v.nodes[r].Branch? && r in v.rank && leaf !in v.nodes && Unused()
      requires nodes == v.nodes[leaf := Leaf(ls, Heights(v.lines, ls), Null)]
               && lines == SetParents(v.lines, ls, To(leaf))
      requires V() == v.(nodes := nodes, lines := lines)
      modifies this`nodes, this`live, this`content, this`rank
      ensures V() == Collapsed(v, r, leaf, ls) && Unused()
    {
      var m := nodes[r];
      nodes := nodes[r := Branch([leaf], m.size, m.height, m.parent)];
      nodes := nodes[leaf := SetParent(nodes[leaf], To(r))];
      ghost var v' := Collapsed(v, r, leaf, ls);
      live, content, rank := v'.live, v'.content, v'.rank;
      assert nodes == v'.nodes;
    }

    // ----- the document -----

    /** A document of one line. */
    constructor (height: int)
      ensures Valid() && content[root] == [0] && lines == map[0 := Line(height, To(1))]
    {
      lines := map[0 := Line(height, To(1))];
      nodes := map[1 := Leaf([0], height, To(2)), 2 := Branch([1], 1, height, Null)];
      root, next := 2, 3;
      live, content, rank := {1, 2}, map[1 := [0], 2 := [0]], map[1 := 0, 2 := 1];
      new;
      FirstLine(V());
    }

    /** A line object that is in no document yet. */
    method NewLine(l: Ref, height: int)
      requires Valid() && l !in lines
      modifies this`lines
      ensures Valid() && lines == old(lines)[l := Line(height, Null)] && content == old(content)
    {
      ghost var v := V();
      lines := lines[l := Line(height, Null)];
      LineAdded(v, V(), l);
    }

    /** Inserts `ls` before line `at`: the document is the old one with the lines spliced in. */
    method Insert(at: int, ls: seq<Ref>)
      requires Valid() && Fresh(V(), ls) && 0 <= at <= |content[root]|
      modifies this`nodes, this`lines, this`next, this`live, this`content, this`rank
      ensures Valid() && content[root] == Splice(old(content[root]), at, ls) && SameHeights(old(lines), lines)
    {
      var height := TotalHeight(ls);
      RootExpects(V(), at, ls);
      InsertInner(root, at, ls, height);
    }

    method TotalHeight(ls: seq<Ref>) returns (height: int)
      requires forall l :: l in ls ==> l in lines
      ensures height == Heights(lines, ls)
    {
      height := 0;
      for i := 0 to |ls|
        invariant height == Heights(lines, ls[..i])
      {
        assert ls[..i + 1] == ls[..i] + [ls[i]];
        HeightsConcat(lines, ls[..i], [ls[i]]);
        height := height + lines[ls[i]].height;
      }
      assert ls[..|ls|] == ls;
    }

    /** Removes `n` lines at `at`: the document is the old one without them, and they have no parent. */
    method Remove(at: int, n: int)
      requires Valid() && 0 <= at && 0 <= n && at + n <= |content[root]|
      modifies this`nodes, this`lines, this`next, this`live, this`content, this`rank
      ensures Valid() && content[root] == Removed(old(content[root]), at, n) && SameHeights(old(lines), lines)
      ensures Detached(V(), old(content[root])[at..at + n])
      ensures forall l :: l in old(lines) && l !in old(content[root]) ==> lines[l] == old(lines)[l]
    {
      ghost var v := V();
      PartialIsConsistent(v);
      assert Ready(v, {}, {}, root, at, n);
      RemoveInner(root, at, n, {}, {});
      RemovedNoRepeats(v.content[root], at, n);
      PartialIsConsistent(V());
    }

    /** The line object at position `n`, if there is one. */
    method GetLine(n: int) returns (l: MaybeRef)
      requires Valid()
      ensures l == if 0 <= n < |content[root]| then To(content[root][n]) else Null
    {
      hide Bounded;
      SizeIsContent(V(), content, root);
      if n < 0 || n >= nodes[root].size {
        return Null;
      }
      var chunk, k := root, n;
      while nodes[chunk].Branch?
        invariant chunk in live && chunk in nodes && chunk in content && chunk in rank
        invariant 0 <= k < |content[chunk]| && content[chunk][k] == content[root][n]
        decreases rank[chunk]
      {
        chunk, k := ChildHolding(chunk, k);
      }
      assert Summed(V(), content, chunk);
      l := To(nodes[chunk].lines[k]);
    }

    /** The child of `r` with line `n`, and the place of the line in it. */
    method ChildHolding(r: Ref, n: int) returns (c: Ref, k: int)
      requires Consistent(V(), content) && r in live && nodes[r].Branch? && 0 <= n < |content[r]|
      ensures c in live && c in nodes && c in content && c in rank && rank[c] < rank[r]
      ensures 0 <= k < |content[c]| && content[c][k] == content[r][n]
    {
      var cs, i := nodes[r].children, 0;
      k := n;
      Holds(V(), r);
      hide Consistent, Flatten;
      FlattenNone(content, cs);
      while k >= Size(nodes[cs[i]])
        invariant 0 <= i < |cs| && 0 <= k && n == |Flatten(content, cs[..i])| + k
        decreases |cs| - i
      {
        FlattenAt(content, cs, i);
        FlattenRest(content, cs, i + 1);
        k := k - Size(nodes[cs[i]]);
        i := i + 1;
      }
      FlattenAt(content, cs, i);
      c := cs[i];
    }

    /** The position of a line object, found through the parent links. */
    method LineNo(l: Ref) returns (no: int)
      requires Valid() && l in lines && (l in content[root] || lines[l].parent == Null)
      ensures no == -1 <==> lines[l].parent == Null
      ensures no != -1 ==> 0 <= no < |content[root]| && content[root][no] == l
      ensures forall n :: 0 <= n < |content[root]| && content[root][n] == l ==> no == n
    {
      hide Bounded, Consistent;
      Homed(V(), l);
      if lines[l].parent == Null {
        return -1;
      }
      var cur := lines[l].parent.ref;
      no := IndexIn(nodes[cur].lines, l);
      while nodes[cur].parent.To?
        invariant cur in live && cur in nodes && cur in content && 0 <= no < |content[cur]| && content[cur][no] == l
        decreases |Above(V(), cur)|
      {
        cur, no := UpNo(cur, no);
      }
      OnlyRoot(V(), cur);
    }

    /** From a place in a chunk to the same place in its parent. */
    method UpNo(c: Ref, no: int) returns (p: Ref, no': int)
      requires Consistent(V(), content) && c in live && nodes[c].parent.To? && 0 <= no < |content[c]|
      ensures p in live && p in nodes && p in content && 0 <= no' < |content[p]| && content[p][no'] == content[c][no]
      ensures |Above(V(), p)| < |Above(V(), c)|
    {
      hide Consistent, PlaceOf, Above;
      Rises(V(), c);
      p := nodes[c].parent.ref;
      var skipped := LinesBefore(p, c);
      SliceAt(content[p], skipped, content[c], no);
      no' := no + skipped;
    }

    /** The number of lines in the children of `p` that come before `c`. */
    method LinesBefore(p: Ref, c: Ref) returns (n: int)
      requires Consistent(V(), content) && p in live && nodes[p].Branch? && c in nodes[p].children && c in content
      ensures p in content && PlaceOf(content[p], content[c], n)
    {
      hide Consistent, Flatten, Heights, PlaceOf, SizeUpTo, HeightUpTo;
      Holds(V(), p);
      var cs, i := nodes[p].children, 0;
      n := 0;
      NoChildren(lines, content, cs);
      ghost var k :| 0 <= k < |cs| && cs[k] == c;
      while cs[i] != c
        invariant 0 <= i <= k && n == SizeUpTo(content, cs, i)
        decreases |cs| - i
      {
        NextChild(lines, content, cs, i);
        n := n + Size(nodes[cs[i]]);
        i := i + 1;
      }
      ChildPlace(content, cs, i);
    }

    /** The height above a line, found through the parent links. */
    method HeightAtLine(l: Ref) returns (h: int)
      requires Valid() && l in content[root]
      ensures forall n :: 0 <= n < |content[root]| && content[root][n] == l ==> h == Heights(lines, content[root][..n])
    {
      hide Bounded, Consistent, Heights;
      InDocument(V(), l);
      Homed(V(), l);
      var chunk := lines[l].parent.ref;
      h := HeightBefore(chunk, l);
      ghost var no: int := IndexIn(content[chunk], l);
      while nodes[chunk].parent.To?
        invariant chunk in live && chunk in nodes && chunk in content && 0 <= no < |content[chunk]|
                  && content[chunk][no] == l
        invariant HeightBeforeIs(lines, content[chunk], no, h)
        decreases |Above(V(), chunk)|
      {
        chunk, h, no := UpHeight(chunk, h, no);
      }
      OnlyRoot(V(), chunk);
    }

    method UpHeight(c: Ref, h: int, ghost no: int) returns (p: Ref, h': int, ghost no': int)
      requires Consistent(V(), content) && c in live && nodes[c].parent.To? && 0 <= no < |content[c]|
      requires HeightBeforeIs(lines, content[c], no, h)
      ensures p in live && p in nodes && p in content && 0 <= no' < |content[p]| && content[p][no'] == content[c][no]
      ensures HeightBeforeIs(lines, content[p], no', h') && |Above(V(), p)| < |Above(V(), c)|
    {
      hide Heights, Consistent, PlaceOf, HeightBeforeIs, Above;
      Rises(V(), c);
      p := nodes[c].parent.ref;
      var above;
      ghost var k;
      above, k := HeightsBefore(p, c);
      PrefixHeights(lines, content[p], k, content[c], no, above, h);
      h', no' := h + above, no + k;
    }

    method HeightBefore(c: Ref, l: Ref) returns (h: int)
      requires c in nodes && nodes[c].Leaf? && l in nodes[c].lines && forall x :: x in nodes[c].lines ==> x in lines
      ensures h == Heights(lines, nodes[c].lines[..IndexIn(nodes[c].lines, l)])
    {
      var ls, i := nodes[c].lines, 0;
      h := 0;
      while i < |ls| && ls[i] != l
        invariant 0 <= i <= |ls| && l !in ls[..i] && h == Heights(lines, ls[..i])
      {
        assert ls[..i + 1] == ls[..i] + [ls[i]];
        HeightsConcat(lines, ls[..i], [ls[i]]);
        h := h + lines[ls[i]].height;
        i := i + 1;
      }
      FirstIndex(ls, i, l);
    }

    method HeightsBefore(p: Ref, c: Ref) returns (h: int, ghost n: int)
      requires Consistent(V(), content) && p in live && nodes[p].Branch? && c in nodes[p].children && c in content
      ensures p in content && PlaceOf(content[p], content[c], n) && HeightBeforeIs(lines, content[p], n, h)
    {
      var cs, i := nodes[p].children, 0;
      h, n := 0, 0;
      Holds(V(), p);
      NoChildren(lines, content, cs);
      assert p in content;
      hide Consistent, Flatten, Heights, PlaceOf, HeightBeforeIs, SizeUpTo, HeightUpTo;
      ghost var k :| 0 <= k < |cs| && cs[k] == c;
      while cs[i] != c
        invariant 0 <= i <= k && n == SizeUpTo(content, cs, i) && h == HeightUpTo(lines, content, cs, i)
        decreases |cs| - i
      {
        NextChild(lines, content, cs, i);
        h, n := h + nodes[cs[i]].height, n + |content[cs[i]]|;
        i := i + 1;
      }
      HeightsPlace(lines, content, cs, i);
      ChildPlace(content, cs, i);
    }

    /** The first line that reaches below `h`, or the number of lines. */
    method LineAtHeight(h: int) returns (n: int)
      requires Valid() && NonNegative(lines, content[root])
      ensures SpansHeight(lines, content[root], h, n)
    {
      var chunk, left, found := root, h, true;
      n := 0;
      FirstAboveSpans(lines, content[root], h);
      hide Bounded, Consistent, NonNegative, SpansHeight, FirstAbove;
      RootIsBranch(V());
      while found && nodes[chunk].Branch?
        invariant chunk in live && chunk in nodes && chunk in content && chunk in rank
        invariant NonNegative(lines, content[chunk])
        invariant found ==> n + FirstAbove(lines, content[chunk], left) == FirstAbove(lines, content[root], h)
        invariant !found ==> n == FirstAbove(lines, content[root], h)
        decreases found, rank[chunk]
      {
        var skipped;
        found, chunk, skipped, left := ChildAtHeight(chunk, left);
        n := n + skipped;
      }
      if found {
        var i := LineInLeafAtHeight(chunk, left);
        n := n + i;
      }
    }

    method ChildAtHeight(r: Ref, h: int) returns (found: bool, c: Ref, skipped: int, left: int)
      requires Consistent(V(), content) && r in live && nodes[r].Branch? && NonNegative(lines, content[r])
      ensures c in live && c in nodes && c in content && c in rank && NonNegative(lines, content[c])
      ensures found ==>
                rank[c] < rank[r] && skipped + FirstAbove(lines, content[c], left) == FirstAbove(lines, content[r], h)
      ensures !found ==> c == r && skipped == FirstAbove(lines, content[r], h)
    {
      var cs := nodes[r].children;
      skipped, left, c := 0, h, r;
      Holds(V(), r);
      FlattenRest(content, cs, 0);
      assert r in rank && FirstAbove(lines, [], left) == 0;
      hide Consistent, Flatten, Heights, NonNegative, FirstAbove;
      assert cs[0..] == cs;
      for i := 0 to |cs|
        invariant NonNegative(lines, Flatten(content, cs[i..])) && c == r
        invariant skipped + FirstAbove(lines, Flatten(content, cs[i..]), left) == FirstAbove(lines, content[r], h)
      {
        SkipsByHeight(lines, content, cs, i, left);
        if left < nodes[cs[i]].height {
          return true, cs[i], skipped, left;
        }
        left, skipped := left - nodes[cs[i]].height, skipped + Size(nodes[cs[i]]);
      }
      NoneAbove(lines, content, cs, left);
      found := false;
    }

    method LineInLeafAtHeight(c: Ref, h: int) returns (i: int)
      requires Consistent(V(), content) && c in live && nodes[c].Leaf?
      ensures i == FirstAbove(lines, content[c], h)
    {
      var ls, left := nodes[c].lines, h;
      assert Summed(V(), content, c) && Linked(V(), c);
      i := 0;
      assert ls[0..] == ls;
      hide FirstAbove, Consistent;
      while i < |ls| && left >= lines[ls[i]].height
        invariant 0 <= i <= |ls| && i + FirstAbove(lines, ls[i..], left) == FirstAbove(lines, ls, h)
      {
        FirstAboveStep(lines, ls, i, left);
        left, i := left - lines[ls[i]].height, i + 1;
      }
      FirstAboveStep(lines, ls, i, left);
    }

    /** Visits `n` lines at `at` below `r`, in order, until `stop` says to. */
    method IterN(r: Ref, at: int, n: int, stop: Ref -> bool, seen: seq<Ref>) returns (seen': seq<Ref>, stopped: bool)
      requires Consistent(V(), content) && r in live && 0 <= at && 0 <= n && at + n <= |content[r]|
      ensures seen' == seen + Visit(content[r][at..at + n], stop) && stopped == Stops(content[r][at..at + n], stop)
      decreases rank[r], 1
    {
      if nodes[r].Leaf? {
        assert Summed(V(), content, r);
        seen', stopped := IterLeaf(nodes[r].lines, at, n, stop, seen);
      } else {
        seen', stopped := IterBranch(r, at, n, stop, seen);
      }
    }

    method IterLeaf(ls: seq<Ref>, at: int, n: int, stop: Ref -> bool, seen: seq<Ref>)
      returns (seen': seq<Ref>, stopped: bool)
      requires 0 <= at && 0 <= n && at + n <= |ls|
      ensures seen' == seen + Visit(ls[at..at + n], stop) && stopped == Stops(ls[at..at + n], stop)
    {
      seen' := seen;
      ghost var s := ls[at..at + n];
      for i := at to at + n
        invariant !Stops(s[..i - at], stop) && seen' == seen + s[..i - at]
      {
        ghost var a, b := s[..i - at], s[i - at + 1..];
        assert s[..i - at + 1] == a + [ls[i]] && s == (a + [ls[i]]) + b;
        seen' := seen' + [ls[i]];
        VisitOne(a, ls[i], b, stop);
        if stop(ls[i]) {
          Appended(seen, a, [ls[i]]);
          return seen', true;
        }
        Appended(seen, a, [ls[i]]);
      }
      assert s[..n] == s;
      VisitAll(s, stop);
      stopped := false;
    }

    method IterBranch(r: Ref, at: int, n: int, stop: Ref -> bool, seen: seq<Ref>)
      returns (seen': seq<Ref>, stopped: bool)
      requires Consistent(V(), content) && r in live && nodes[r].Branch? && 0 <= at && 0 <= n && at + n <= |content[r]|
      ensures seen' == seen + Visit(content[r][at..at + n], stop) && stopped == Stops(content[r][at..at + n], stop)
      decreases rank[r], 0, 1
    {
      var cs, i, k, m := nodes[r].children, 0, at, n;
      ghost var s := content[r][at..at + n];
      seen' := seen;
      Holds(V(), r);
      assert r in rank;
      VisitStarts(s, stop, seen);
      assert cs[0..] == cs;
      assert Going(content, cs, i, k, m, s, seen, seen', stop);
      hide Consistent, Flatten, Visit, Stops, Going;
      while i < |cs|
        invariant 0 <= i <= |cs| && 0 <= k && 0 <= m && Going(content, cs, i, k, m, s, seen, seen', stop)
      {
        var sz := Size(nodes[cs[i]]);
        if k < sz {
          var used := if m < sz - k then m else sz - k;
          seen', stopped := IterChild(r, i, k, m, used, stop, s, seen, seen');
          m := m - used;
          if stopped || m == 0 {
            return;
          }
          k := 0;
        } else {
          GoesPast(content, cs, i, k, m, s, seen, seen', stop);
          k := k - sz;
        }
        i := i + 1;
      }
      NoneLeft(s, seen, seen', content, cs, k, m, stop);
      stopped := false;
    }

    method IterChild(r: Ref, i: nat, k: int, ghost m: int, used: int, stop: Ref -> bool, ghost s: seq<Ref>,
                     ghost seen: seq<Ref>, seen0: seq<Ref>)
      returns (seen': seq<Ref>, stopped: bool)
      requires Consistent(V(), content) && r in live && nodes[r].Branch? && i < |nodes[r].children|
               && nodes[r].children[i] in nodes
      requires var cs := nodes[r].children;
               && 0 <= k < Size(nodes[cs[i]]) && 0 <= m
               && used == (if m < Size(nodes[cs[i]]) - k then m else Size(nodes[cs[i]]) - k)
               && Going(content, cs, i, k, m, s, seen, seen0, stop)
      ensures stopped || m == used ==> seen' == seen + Visit(s, stop) && stopped == Stops(s, stop)
      ensures !stopped ==> used <= m && Going(content, nodes[r].children, i + 1, 0, m - used, s, seen, seen', stop)
      decreases rank[r], 0, 0
    {
      var c := nodes[r].children[i];
      Holds(V(), r);
      FlattenFrom(content, nodes[r].children, i);
      assert r in rank;
      hide Consistent, Flatten, Visit, Stops, Rest;
      seen', stopped := IterN(c, k, used, stop, seen0);
      ghost var y, rest := content[c], Flatten(content, nodes[r].children[i + 1..]);
      TakesPart(y, rest, k, m, used);
      RestGoesOn(s, seen, seen0, y[k..k + used], rest[0..m - used], stop);
      if !stopped && m == used {
        RestEnds(s, seen, seen', rest[0..m - used], stop);
      }
    }

    /** The position of the line at a position. */
    method LineNoOfGetLine(n: int) returns (k: int)
      requires Valid() && 0 <= n < |content[root]|
      ensures k == n
    {
      var l := GetLine(n);
      assert content[root][n] in content[root];
      InDocument(V(), l.ref);
      k := LineNo(l.ref);
    }

    /** The line at the height above a line of positive height is that line. */
    method LineAtTopOf(n: int) returns (k: int)
      requires Valid() && 0 <= n < |content[root]| && NonNegative(lines, content[root])
      requires LineHeight(lines, content[root][n]) > 0
      ensures k == n
    {
      var l := GetLine(n);
      assert content[root][n] in content[root];
      var h := HeightAtLine(l.ref);
      k := LineAtHeight(h);
      TopOfLineIsInLine(lines, content[root], n, k);
    }

    /** A line gets a new height, and so does everything above it in the tree. */
    method UpdateLineHeight(l: Ref, height: int)
      requires Valid() && l in lines && (l in content[root] || lines[l].parent == Null)
      modifies this`nodes, this`lines
      ensures Valid() && lines == old(lines)[l := old(lines)[l].(height := height)]
      ensures nodes.Keys == old(nodes).Keys
    {
      hide Consistent, Bounded, Lifting, Inv;
      ghost var v := V();
      var diff := height - lines[l].height;
      SameLine(lines, l, height);
      if diff == 0 {
        return;
      }
      lines := lines[l := lines[l].(height := lines[l].height + diff)];
      LiftStarts(v, l, diff, V());
      LiftParents(v, l, diff, lines[l].parent);
    }

    method LiftParents(ghost v: View, ghost l: Ref, diff: int, from: MaybeRef)
      requires Lifting(v, V(), l, diff, {}, from) && Unused()
      modifies this`nodes
      ensures Valid() && nodes.Keys == old(nodes.Keys)
    {
      hide Inv, Consistent, Bounded, Lifting;
      var cur := from;
      ghost var done: set<Ref> := {};
      LiftKeys(v, V(), l, diff, done, cur);
      while cur.To?
        invariant Lifting(v, V(), l, diff, done, cur) && nodes.Keys == v.nodes.Keys
        invariant cur.To? ==> cur.ref in v.rank && cur.ref in v.nodes
        decreases if cur.To? then |Above(v, cur.ref)| + 1 else 0
      {
        var n := nodes[cur.ref];
        Lifts(v, V(), l, diff, done, cur.ref);
        nodes := nodes[cur.ref := Raise(n, diff)];
        done := done + {cur.ref};
        cur := n.parent;
      }
      LiftEnds(v, V(), l, diff, done);
      UnusedKeys(v, nodes, next);
    }
  }
}
