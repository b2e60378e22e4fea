/** Splitting a branch that has grown beyond ten children. */
module TreeSpill {
  import opened LineTree

  function SetParent(n: Node, p: MaybeRef): Node {
    match n
    case Leaf(lines, height, _) => Leaf(lines, height, p)
    case Branch(children, size, height, _) => Branch(children, size, height, p)
  }

  /** The chunks `cs` get `p` as their parent. */
  function Adopt(nodes: map<Ref, Node>, cs: seq<Ref>, p: Ref): map<Ref, Node> {
    map r | r in nodes :: if r in cs then SetParent(nodes[r], To(p)) else nodes[r]
  }

  function IndexIn(s: seq<Ref>, x: Ref): (i: int)
    ensures x in s ==> 0 <= i < |s| && s[i] == x && x !in s[..i]
    ensures x !in s ==> i == -1
  {
    if s == [] then -1
    else if s[0] == x then 0
    else
      var j := IndexIn(s[1..], x);
      if j == -1 then -1 else assert s[..j + 1] == [s[0]] + s[1..][..j]; j + 1
  }

  /** A branch over `cs`, with the size and height of what they hold. */
  function NewBranch(v: View, cs: seq<Ref>, parent: MaybeRef): Node {
    Branch(cs, |Flatten(v.content, cs)|, Heights(v.lines, Flatten(v.content, cs)), parent)
  }

  // ----- a branch below the root gives five children to a new sibling -----

  function Stay(n: Node): seq<Ref>
    requires n.Branch? && |n.children| > 5
  {
    n.children[..|n.children| - 5]
  }

  function Spilled(n: Node): seq<Ref>
    requires n.Branch? && |n.children| > 5
  {
    n.children[|n.children| - 5..]
  }

  ghost predicate CanSpill(v: View, me: Ref, sib: Ref) {
    && Consistent(v, v.content) && me in v.live && me != v.root && sib !in v.nodes
    && v.nodes[me].Branch? && |v.nodes[me].children| > 5
  }

  lemma SpillPlace(v: View, me: Ref, sib: Ref)
    requires CanSpill(v, me, sib)
    ensures var n := v.nodes[me];
            && n.parent.To? && n.parent.ref in v.live && v.nodes[n.parent.ref].Branch? && n.parent.ref != me
            && me in v.nodes[n.parent.ref].children && v.rank[me] < v.rank[n.parent.ref]
            && sib !in v.live && n.children == Stay(n) + Spilled(n)
            && Flatten(v.content, n.children) == Flatten(v.content, Stay(n)) + Flatten(v.content, Spilled(n))
  {
    assert Linked(v, me) && Linked(v, v.nodes[me].parent.ref);
    assert ChildOf(v, me, v.nodes[me].parent.ref);
    var n := v.nodes[me];
    FlattenConcat(v.content, Stay(n), Spilled(n));
  }

  /** The store after `me`, below `p`, has given its last five children to `sib`. */
  function SpilledStore(v: View, me: Ref, n: Node, p: Ref, pn: Node, sib: Ref): map<Ref, Node>
    requires n.Branch? && |n.children| > 5 && pn.Branch? && me in pn.children
  {
    var s, i := NewBranch(v, Spilled(n), To(p)), IndexIn(pn.children, me);
    Adopt(v.nodes, Spilled(n), sib)
      [sib := s]
      [me := Branch(Stay(n), n.size - s.size, n.height - s.height, n.parent)]
      [p := pn.(children := pn.children[..i + 1] + [sib] + pn.children[i + 1..])]
  }

  ghost function SpillOff(v: View, me: Ref, sib: Ref): View
    requires CanSpill(v, me, sib)
  {
    SpillPlace(v, me, sib);
    var n, p := v.nodes[me], v.nodes[me].parent.ref;
    v.(nodes := SpilledStore(v, me, n, p, v.nodes[p], sib),
       live := v.live + {sib},
       content := v.content[sib := Flatten(v.content, Spilled(n))][me := Flatten(v.content, Stay(n))],
       rank := v.rank[sib := v.rank[me]])
  }

  /** What `SpillOff` leaves in the store. */
  lemma SpillNodes(v: View, me: Ref, sib: Ref)
    requires CanSpill(v, me, sib)
    ensures var v', n, p := SpillOff(v, me, sib), v.nodes[me], v.nodes[me].parent.ref;
            var i := IndexIn(v.nodes[p].children, me);
            && p in v.live && 0 <= i < |v.nodes[p].children| && v.nodes[p].children[i] == me
            && v'.nodes[sib] == NewBranch(v, Spilled(n), To(p))
            && v'.nodes[me] == Branch(Stay(n), n.size - v'.nodes[sib].size, n.height - v'.nodes[sib].height, n.parent)
            && v'.nodes[p] == v.nodes[p].(children := v.nodes[p].children[..i + 1] + [sib]
              + v.nodes[p].children[i + 1..])
            && (forall r :: r in v.live && r != me && r != p ==>
                  v'.nodes[r] == if r in Spilled(n) then SetParent(v.nodes[r], To(sib)) else v.nodes[r])
            && v.live <= v'.nodes.Keys && sib in v'.nodes && p !in Spilled(n) && me !in Spilled(n)
  {
    SpillPlace(v, me, sib);
    var n, p := v.nodes[me], v.nodes[me].parent.ref;
    forall c | c in Spilled(n)
      ensures c != p && c != me
    {
      assert Linked(v, me);
      assert c in n.children;
      assert ChildOf(v, c, me);
    }
  }

  lemma SpillLinked(v: View, me: Ref, sib: Ref, r: Ref)
    requires CanSpill(v, me, sib) && r in SpillOff(v, me, sib).live
    ensures r in SpillOff(v, me, sib).nodes && Linked(SpillOff(v, me, sib), r)
  {
    hide SpillOff, Flatten, Heights, Summed;
    SpillPlace(v, me, sib);
    SpillNodes(v, me, sib);
    SpillRest(v, me, sib);
    var v', n, p := SpillOff(v, me, sib), v.nodes[me], v.nodes[me].parent.ref;
    assert Linked(v, me) && Linked(v, p);
    if r == sib {
      SpilledAreChildren(v, me, sib, sib);
    } else if r == me {
      SpilledAreChildren(v, me, sib, me);
    } else if r == p {
      ParentOfSpilled(v, me, sib);
    } else {
      assert Linked(v, r);
      OtherLinked(v, me, sib, r);
    }
  }

  lemma SpillRest(v: View, me: Ref, sib: Ref)
    requires CanSpill(v, me, sib)
    ensures var v' := SpillOff(v, me, sib);
            && v'.live == v.live + {sib} && v'.rank == v.rank[sib := v.rank[me]]
            && v'.lines == v.lines && v'.root == v.root
  {
  }

  lemma SpilledAreChildren(v: View, me: Ref, sib: Ref, r: Ref)
    requires CanSpill(v, me, sib) && (r == sib || r == me)
    ensures r in SpillOff(v, me, sib).nodes && Linked(SpillOff(v, me, sib), r)
  {
    hide SpillOff, Flatten, Heights, Summed;
    SpillPlace(v, me, sib);
    SpillNodes(v, me, sib);
    SpillRest(v, me, sib);
    var v', n, p := SpillOff(v, me, sib), v.nodes[me], v.nodes[me].parent.ref;
    assert Linked(v, me);
    var cs := v'.nodes[r].children;
    assert cs == if r == sib then Spilled(n) else Stay(n);
    forall c | c in cs
      ensures ChildOf(v', c, r)
    {
      assert c in n.children;
      assert ChildOf(v, c, me);
      assert c != p;
      if r == me {
        assert c !in Spilled(n);
      }
    }
    assert me in v'.nodes[p].children && sib in v'.nodes[p].children;
  }

  lemma ParentOfSpilled(v: View, me: Ref, sib: Ref)
    requires CanSpill(v, me, sib)
    ensures var p := v.nodes[me].parent.ref; p in SpillOff(v, me, sib).nodes && Linked(SpillOff(v, me, sib), p)
  {
    hide SpillOff, Flatten, Heights, Summed;
    SpillPlace(v, me, sib);
    SpillNodes(v, me, sib);
    SpillRest(v, me, sib);
    var v', n, p := SpillOff(v, me, sib), v.nodes[me], v.nodes[me].parent.ref;
    assert Linked(v, p);
    var cs := v'.nodes[p].children;
    forall c | c in cs
      ensures ChildOf(v', c, p)
    {
      if c != sib {
        assert c in v.nodes[p].children;
        assert ChildOf(v, c, p);
        NotSpilled(v, me, c, p);
      }
    }
    assert sib in v.nodes[p].children ==> ChildOf(v, sib, p);
    InsertedNoRepeats(v.nodes[p].children, IndexIn(v.nodes[p].children, me) + 1, sib);
    if p != v.root {
      var q := v.nodes[p].parent.ref;
      assert Linked(v, q);
      assert ChildOf(v, p, q);
    }
  }

  lemma NotSpilled(v: View, me: Ref, c: Ref, q: Ref)
    requires Consistent(v, v.content) && me in v.live && v.nodes[me].Branch? && |v.nodes[me].children| > 5
    requires c in v.live && v.nodes[c].parent == To(q) && q != me
    ensures c !in Spilled(v.nodes[me])
  {
    assert Linked(v, me);
    assert c in v.nodes[me].children ==> ChildOf(v, c, me);
  }

  lemma InsertedNoRepeats(s: seq<Ref>, i: nat, x: Ref)
    requires NoRepeats(s) && i <= |s| && x !in s
    ensures NoRepeats(s[..i] + [x] + s[i..])
  {
  }

  lemma OtherLinked(v: View, me: Ref, sib: Ref, r: Ref)
    requires CanSpill(v, me, sib) && r in v.live && r != me && v.nodes[me].parent != To(r)
    ensures r in SpillOff(v, me, sib).nodes && Linked(SpillOff(v, me, sib), r)
  {
    hide SpillOff, Flatten, Heights, Summed;
    SpillPlace(v, me, sib);
    SpillNodes(v, me, sib);
    SpillRest(v, me, sib);
    var v', n, p := SpillOff(v, me, sib), v.nodes[me], v.nodes[me].parent.ref;
    assert Linked(v, r) && Linked(v, me);
    if v.nodes[r].Branch? {
      forall c | c in v.nodes[r].children
        ensures ChildOf(v', c, r)
      {
        assert ChildOf(v, c, r);
        NotSpilled(v, me, c, r);
      }
    }
    if r in Spilled(n) {
      assert r in n.children;
      assert ChildOf(v, r, me);
    } else if r != v.root {
      var q := v.nodes[r].parent.ref;
      if q == me {
        assert r in Stay(n);
      } else {
        assert r in v'.nodes[q].children;
      }
    }
  }

  // ----- sums -----

  lemma SpillSummed(v: View, me: Ref, sib: Ref, r: Ref)
    requires CanSpill(v, me, sib) && r in SpillOff(v, me, sib).live
    ensures var v' := SpillOff(v, me, sib);
            r in v'.nodes && r in v'.content && Summed(v', v'.content, r)
  {
    hide SpillOff;
    SpillPlace(v, me, sib);
    SpillNodes(v, me, sib);
    SpillContent(v, me, sib);
    SpillRest(v, me, sib);
    var v', n, p := SpillOff(v, me, sib), v.nodes[me], v.nodes[me].parent.ref;
    assert Summed(v, v.content, me) && Summed(v, v.content, p);
    HeightsConcat(v.lines, Flatten(v.content, Stay(n)), Flatten(v.content, Spilled(n)));
    if r == sib || r == me {
      SpillFlattensSame(v, me, sib, Stay(n));
      SpillFlattensSame(v, me, sib, Spilled(n));
    } else if r == p {
      SpillParentContent(v, me, sib);
    } else {
      assert Summed(v, v.content, r);
      if v.nodes[r].Branch? {
        OthersChildren(v, me, sib, r);
        SpillFlattensSame(v, me, sib, v.nodes[r].children);
      }
    }
  }

  lemma SpillContent(v: View, me: Ref, sib: Ref)
    requires CanSpill(v, me, sib)
    ensures SpillOff(v, me, sib).content
         == v.content[sib := Flatten(v.content, Spilled(v.nodes[me]))][me := Flatten(v.content, Stay(v.nodes[me]))]
  {
  }

  lemma OthersChildren(v: View, me: Ref, sib: Ref, r: Ref)
    requires CanSpill(v, me, sib) && r in v.live && v.nodes[r].Branch? && v.nodes[me].parent != To(r)
    ensures me !in v.nodes[r].children && sib !in v.nodes[r].children
  {
    assert Linked(v, r);
    assert me in v.nodes[r].children ==> ChildOf(v, me, r);
    assert sib in v.nodes[r].children ==> ChildOf(v, sib, r);
  }

  lemma SpillFlattensSame(v: View, me: Ref, sib: Ref, cs: seq<Ref>)
    requires CanSpill(v, me, sib)
    requires (me !in cs && sib !in cs) || (forall c :: c in cs ==> c in v.nodes[me].children)
    ensures Flatten(SpillOff(v, me, sib).content, cs) == Flatten(v.content, cs)
  {
    hide SpillOff;
    SpillContent(v, me, sib);
    forall c | c in cs
      ensures At(SpillOff(v, me, sib).content, c) == At(v.content, c)
    {
      if c in v.nodes[me].children {
        assert Linked(v, me);
        assert ChildOf(v, c, me);
      }
    }
    FlattenSame(SpillOff(v, me, sib).content, v.content, cs);
  }

  lemma SpillParentContent(v: View, me: Ref, sib: Ref)
    requires CanSpill(v, me, sib)
    ensures var v', p := SpillOff(v, me, sib), v.nodes[me].parent.ref;
            p in v'.nodes && v'.nodes[p].Branch? && p in v.nodes && v.nodes[p].Branch?
            && Flatten(v'.content, v'.nodes[p].children) == Flatten(v.content, v.nodes[p].children)
  {
    hide SpillOff, Heights, NewBranch;
    SpillPlace(v, me, sib);
    SpillNodes(v, me, sib);
    SpillContent(v, me, sib);
    var v', n, p := SpillOff(v, me, sib), v.nodes[me], v.nodes[me].parent.ref;
    var cs := v.nodes[p].children;
    var i := IndexIn(cs, me);
    assert Linked(v, p) && Summed(v, v.content, me);
    assert sib in cs ==> ChildOf(v, sib, p);
    FlattenAt(v.content, cs, i);
    FlattenWidened(v.content, v'.content, cs, i, sib);
  }

  /** One chunk of a list replaced by two that hold the same together. */
  lemma FlattenWidened(c1: Content, c2: Content, cs: seq<Ref>, i: nat, sib: Ref)
    requires i < |cs| && NoRepeats(cs) && forall r :: r in cs && r != cs[i] ==> At(c2, r) == At(c1, r)
    requires At(c2, cs[i]) + At(c2, sib) == At(c1, cs[i])
    ensures Flatten(c2, cs[..i + 1] + [sib] + cs[i + 1..]) == Flatten(c1, cs)
  {
    hide Flatten;
    var before, after := cs[..i], cs[i + 1..];
    OthersInList(cs, i);
    FlattenSame(c2, c1, before);
    FlattenSame(c2, c1, after);
    FlattenAt(c1, cs, i);
    FlattenAt(c2, cs, i);
    FlattenTwo(c2, cs[..i + 1], sib, after);
    Regroup(Flatten(c1, before), At(c2, cs[i]), At(c2, sib), Flatten(c1, after));
  }

  lemma OthersInList(cs: seq<Ref>, i: nat)
    requires i < |cs| && NoRepeats(cs)
    ensures forall r :: r in cs[..i] ==> r in cs && r != cs[i]
    ensures forall r :: r in cs[i + 1..] ==> r in cs && r != cs[i]
  {
  }

  lemma FlattenTwo(c: Content, xs: seq<Ref>, s: Ref, ys: seq<Ref>)
    ensures Flatten(c, xs + [s] + ys) == Flatten(c, xs) + At(c, s) + Flatten(c, ys)
  {
    FlattenConcat(c, xs + [s], ys);
    FlattenConcat(c, xs, [s]);
    FlattenOne(c, s);
  }

  lemma Regroup(a: seq<Ref>, b: seq<Ref>, c: seq<Ref>, d: seq<Ref>)
    ensures a + b + c + d == a + (b + c) + d
  {
  }

  /** Splitting a branch below the root keeps the tree consistent and changes no line. */
  lemma SpillKeeps(v: View, me: Ref, sib: Ref)
    requires CanSpill(v, me, sib)
    ensures var v' := SpillOff(v, me, sib);
            && Consistent(v', v'.content) && v'.content[v.root] == v.content[v.root]
            && v'.live == v.live + {sib} && v'.lines == v.lines && v'.root == v.root
  {
    hide Linked, Summed, SpillOff;
    var v' := SpillOff(v, me, sib);
    SpillContent(v, me, sib);
    SpillRest(v, me, sib);
    SpillShaped(v, me, sib);
    forall r | r in v'.live
      ensures r in v'.nodes && r in v'.content && Linked(v', r) && Summed(v', v'.content, r)
    {
      SpillLinked(v, me, sib, r);
      SpillSummed(v, me, sib, r);
    }
  }

  lemma SpillShaped(v: View, me: Ref, sib: Ref)
    requires CanSpill(v, me, sib)
    ensures Shaped(SpillOff(v, me, sib))
  {
    hide SpillOff;
    SpillNodes(v, me, sib);
    SpillPlace(v, me, sib);
    SpillContent(v, me, sib);
    SpillRest(v, me, sib);
  }

  // ----- the root gets a new child that takes over all its children -----

  ghost predicate CanDeepen(v: View, copy: Ref) {
    Consistent(v, v.content) && copy !in v.nodes
  }

  ghost function Deepen(v: View, copy: Ref): View
    requires CanDeepen(v, copy)
  {
    var n := v.nodes[v.root];
    v.(nodes := Adopt(v.nodes, n.children, copy)
                [copy := NewBranch(v, n.children, To(v.root))]
                [v.root := Branch([copy], n.size, n.height, Null)],
       live := v.live + {copy},
       content := v.content[copy := v.content[v.root]],
       rank := v.rank[copy := v.rank[v.root]][v.root := v.rank[v.root] + 1])
  }

  lemma DeepenNodes(v: View, copy: Ref)
    requires CanDeepen(v, copy)
    ensures var v', n := Deepen(v, copy), v.nodes[v.root];
            && v.root !in n.children && copy !in v.live && copy != v.root
            && v'.nodes[copy] == NewBranch(v, n.children, To(v.root))
            && v'.nodes[v.root] == Branch([copy], n.size, n.height, Null)
            && (forall r :: r in v.live && r != v.root ==>
                  v'.nodes[r] == if r in n.children then SetParent(v.nodes[r], To(copy)) else v.nodes[r])
            && Shaped(v')
            && v'.live == v.live + {copy} && v'.lines == v.lines && v'.root == v.root
            && v'.rank == v.rank[copy := v.rank[v.root]][v.root := v.rank[v.root] + 1]
            && v'.content == v.content[copy := v.content[v.root]]
  {
    assert Linked(v, v.root);
    assert v.root in v.nodes[v.root].children ==> ChildOf(v, v.root, v.root);
  }

  lemma DeepenLinked(v: View, copy: Ref, r: Ref)
    requires CanDeepen(v, copy) && r in Deepen(v, copy).live
    ensures r in Deepen(v, copy).nodes && Linked(Deepen(v, copy), r)
  {
    hide Deepen, Flatten, Heights, Summed;
    DeepenNodes(v, copy);
    var v', n := Deepen(v, copy), v.nodes[v.root];
    assert Linked(v, v.root);
    if r == v.root {
      assert ChildOf(v', copy, v.root);
    } else if r == copy {
      assert copy in v'.nodes[v.root].children;
      forall c | c in n.children
        ensures ChildOf(v', c, copy)
      {
        assert ChildOf(v, c, v.root);
      }
    } else {
      assert Linked(v, r);
      if v.nodes[r].Branch? {
        forall c | c in v.nodes[r].children
          ensures ChildOf(v', c, r)
        {
          assert ChildOf(v, c, r);
          assert c in n.children ==> ChildOf(v, c, v.root);
        }
      }
      var q := v.nodes[r].parent.ref;
      if r in n.children {
        assert ChildOf(v, r, v.root);
      } else {
        assert q != v.root;
        assert r in v'.nodes[q].children;
      }
    }
  }

  lemma DeepenSummed(v: View, copy: Ref, r: Ref)
    requires CanDeepen(v, copy) && r in Deepen(v, copy).live
    ensures var v' := Deepen(v, copy); r in v'.nodes && r in v'.content && Summed(v', v'.content, r)
  {
    hide Deepen, Heights;
    DeepenNodes(v, copy);
    var v', n := Deepen(v, copy), v.nodes[v.root];
    assert Summed(v, v.content, v.root);
    if r == v.root {
      FlattenOne(v'.content, copy);
    } else {
      var b := if r == copy then v.root else r;
      assert Summed(v, v.content, b) && Linked(v, b);
      if v.nodes[b].Branch? {
        assert copy in v.nodes[b].children ==> ChildOf(v, copy, b);
        FlattenSame(v'.content, v.content, v.nodes[b].children);
      }
    }
  }

  lemma DeepenKeeps(v: View, copy: Ref)
    requires CanDeepen(v, copy)
    ensures var v' := Deepen(v, copy);
            && Consistent(v', v'.content) && v'.content[v.root] == v.content[v.root]
            && v'.live == v.live + {copy} && v'.lines == v.lines && v'.root == v.root
  {
    hide Linked, Summed, Deepen;
    var v' := Deepen(v, copy);
    DeepenNodes(v, copy);
    forall r | r in v'.live
      ensures r in v'.nodes && r in v'.content && Linked(v', r) && Summed(v', v'.content, r)
    {
      DeepenLinked(v, copy, r);
      DeepenSummed(v, copy, r);
    }
  }
}
