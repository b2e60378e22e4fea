/** The stages of a removal below one branch. */
module TreeRemoval {
  import opened LineTree
  import opened TreeSpill
  import opened TreeInsert
  import opened TreeRemove

  /** The same lines, with the same heights. */
  ghost predicate SameHeights(l1: map<Ref, Line>, l2: map<Ref, Line>) {
    l1.Keys == l2.Keys && forall l :: LineHeight(l1, l) == LineHeight(l2, l)
  }

  /** `r` is not among the kept chunks, but its ancestors are, and they are busy. */
  ghost predicate Outside(v: View, keep: set<Ref>, busy: set<Ref>, r: Ref) {
    && Kept(v, keep) && busy <= keep && r in v.live && r !in keep
    && (r == v.root || (v.nodes[r].parent.To? && v.nodes[r].parent.ref in busy))
  }

  /** What a removal below `r` leaves alone; `x` are the lines that were below `r`. */
  ghost predicate Framed(v0: View, v: View, keep: set<Ref>, r: Ref, x: seq<Ref>) {
    && v.root == v0.root && keep <= v.live && r in v.live && r in v0.live
    && v.live <= v.nodes.Keys && v.live <= v.content.Keys && v.live <= v.rank.Keys
    && v0.live <= v0.nodes.Keys && v0.live <= v0.content.Keys && v0.live <= v0.rank.Keys && keep <= v0.live
    && (forall k :: k in keep ==> v.nodes[k] == v0.nodes[k] && v.content[k] == v0.content[k] && v.rank[k] == v0.rank[k])
    && v.nodes[r].parent == v0.nodes[r].parent && v.nodes[r].Leaf? == v0.nodes[r].Leaf? && v.rank[r] == v0.rank[r]
    && SameHeights(v0.lines, v.lines)
    && (forall l :: l in v0.lines && l !in x ==> v.lines[l] == v0.lines[l])
  }

  ghost predicate Detached(v: View, ls: seq<Ref>) {
    forall l :: l in ls ==> l in v.lines && v.lines[l].parent == Null
  }

  ghost predicate Ready(v: View, keep: set<Ref>, busy: set<Ref>, r: Ref, at: int, n: int) {
    && Partial(v, busy) && Bounded(v, busy) && Outside(v, keep, busy, r)
    && 0 <= at && 0 <= n && at + n <= |v.content[r]| && NoRepeats(v.content[r])
  }

  /** The lines are out of the chunk and out of the tree; the kept chunks are as they were. */
  ghost predicate Finished(v0: View, v: View, keep: set<Ref>, busy: set<Ref>, r: Ref, at: int, n: int)
    requires Ready(v0, keep, busy, r, at, n)
  {
    var x := v0.content[r];
    && Partial(v, busy) && Bounded(v, busy) && Outside(v, keep, busy, r) && Framed(v0, v, keep, r, x)
    && v.content[r] == Removed(x, at, n) && Detached(v, x[at..at + n])
  }

  // ----- a leaf -----

  lemma LeafFinished(v: View, keep: set<Ref>, busy: set<Ref>, c: Ref, at: int, n: int)
    requires Ready(v, keep, busy, c, at, n) && v.nodes[c].Leaf?
    ensures v.content[c] == v.nodes[c].lines && Finished(v, LeafCut(v, c, at, n), keep, busy, c, at, n)
  {
    assert Summed(v, v.content, c) && Linked(v, c);
    assert forall l :: l in v.nodes[c].lines ==> l in v.lines;
    LeafCutKeeps(v, busy, c, at, n);
    assert Shaped(v) && c in v.live;
    hide Heights, Flatten, Partial, NoRepeats;
    LeafCutFrame(v, keep, busy, c, at, n);
  }

  lemma LeafCutFrame(v: View, keep: set<Ref>, busy: set<Ref>, c: Ref, at: int, n: int)
    requires Shaped(v) && Bounded(v, busy) && Outside(v, keep, busy, c) && v.nodes[c].Leaf?
    requires 0 <= at && 0 <= n && at + n <= |v.nodes[c].lines| && forall l :: l in v.nodes[c].lines ==> l in v.lines
    ensures var v', ls := LeafCut(v, c, at, n), v.nodes[c].lines;
            Outside(v', keep, busy, c) && Framed(v, v', keep, c, ls) && Detached(v', ls[at..at + n])
              && Bounded(v', busy)
  {
    hide Heights;
    var ls := v.nodes[c].lines;
    assert forall l :: l in ls[at..at + n] ==> l in ls;
    assert |Removed(ls, at, n)| <= |ls|;
    hide Removed;
  }

  // ----- a branch: before and between its children -----

  /** `r` has told its cache and goes through its children. */
  ghost predicate Working(v0: View, v: View, keep: set<Ref>, busy: set<Ref>, r: Ref, at: int, n: int)
    requires Ready(v0, keep, busy, r, at, n)
  {
    var x := v0.content[r];
    && Partial(v, busy + {r}) && Bounded(v, busy + {r}) && Outside(v, keep, busy, r) && Framed(v0, v, keep, r, x)
    && v.nodes[r].Branch? && |v.nodes[r].children| <= 10 && v.rank[r] > 0
    && v.content[r] == Removed(x, at, n) && v.nodes[r].size == |x| - n
    && v.nodes[r].height == Heights(v.lines, Flatten(v.content, v.nodes[r].children))
  }

  /** Of the `n0` lines at `at0` in `x`, the ones before the rest are out: `before` is what is left
      of the children seen, `after` what the others hold; `n` lines at `at` are still to go. */
  ghost predicate Part(x: seq<Ref>, at0: int, n0: int, at: int, n: int, before: seq<Ref>, after: seq<Ref>) {
    && 0 <= at <= at0 && 0 <= n <= n0 && at0 + n0 <= |x| && (at > 0 ==> n == n0)
    && before == x[..at0 - at] && after == x[at0 - at + n0 - n..]
  }

  ghost predicate Between(v0: View, v: View, keep: set<Ref>, busy: set<Ref>, r: Ref, at0: int, n0: int, i: int,
                          at: int, n: int)
    requires Ready(v0, keep, busy, r, at0, n0)
  {
    && Working(v0, v, keep, busy, r, at0, n0)
    && var x, cs := v0.content[r], v.nodes[r].children;
    && 0 <= i <= |cs| && Part(x, at0, n0, at, n, Flatten(v.content, cs[..i]), Flatten(v.content, cs[i..]))
    && Detached(v, x[at0..at0 + n0 - n])
  }

  ghost predicate Done(v0: View, v: View, keep: set<Ref>, busy: set<Ref>, r: Ref, at0: int, n0: int)
    requires Ready(v0, keep, busy, r, at0, n0)
  {
    && Working(v0, v, keep, busy, r, at0, n0)
    && Flatten(v.content, v.nodes[r].children) == v.content[r]
    && Detached(v, v0.content[r][at0..at0 + n0])
  }

  lemma NothingGone(v: View, r: Ref)
    requires Shaped(v)
    ensures Severed(v, r, {})
  {
  }

  ghost function Told(v: View, r: Ref, at: int, n: int): View
    requires r in v.nodes && v.nodes[r].Branch? && r in v.content && 0 <= at && 0 <= n && at + n <= |v.content[r]|
  {
    var m := v.nodes[r];
    v.(nodes := v.nodes[r := Branch(m.children, m.size - n, m.height, m.parent)],
       content := v.content[r := Removed(v.content[r], at, n)])
  }

  lemma Starts(v: View, keep: set<Ref>, busy: set<Ref>, r: Ref, at: int, n: int)
    requires Ready(v, keep, busy, r, at, n) && v.nodes[r].Branch?
    ensures Between(v, Told(v, r, at, n), keep, busy, r, at, n, 0, at, n)
  {
    StartSums(v, keep, busy, r, at, n);
    ToldKeeps(v, keep, busy, r, at, n);
    assert v.content[r][at..at] == [];
    hide Heights, Flatten, Partial, NoRepeats;
    ToldFrame(v, keep, busy, r, at, n);
    hide Bounded, Outside, Framed;
  }

  lemma StartSums(v: View, keep: set<Ref>, busy: set<Ref>, r: Ref, at: int, n: int)
    requires Ready(v, keep, busy, r, at, n) && v.nodes[r].Branch?
    ensures var v', cs := Told(v, r, at, n), v.nodes[r].children;
            && Flatten(v'.content, cs[..0]) == [] && Flatten(v'.content, cs[0..]) == v.content[r] && 1 <= |cs| <= 10
            && v.nodes[r].height == Heights(v'.lines, Flatten(v'.content, cs)) && v.nodes[r].size == |v.content[r]|
              && v.rank[r] > 0
  {
    var v', cs := Told(v, r, at, n), v.nodes[r].children;
    assert Summed(v, v.content, r) && Linked(v, r);
    NotItself(v, r);
    FlattenSame(v'.content, v.content, cs);
    assert cs[..0] == [] && cs[0..] == cs;
    assert v.rank[r] > 0 by { assert ChildOf(v, cs[0], r); }
  }

  lemma ToldFrame(v: View, keep: set<Ref>, busy: set<Ref>, r: Ref, at: int, n: int)
    requires Ready(v, keep, busy, r, at, n) && v.nodes[r].Branch?
    ensures var v' := Told(v, r, at, n);
            && v'.live <= v'.nodes.Keys && Bounded(v', busy + {r}) && Outside(v', keep, busy, r)
              && Framed(v, v', keep, r, v.content[r])
  {
    hide Linked, Summed, NoRepeats;
    ToldBounded(v, keep, busy, r, at, n);
    ToldOutside(v, keep, busy, r, at, n);
    hide Bounded, Outside, Removed;
  }

  lemma ToldBounded(v: View, keep: set<Ref>, busy: set<Ref>, r: Ref, at: int, n: int)
    requires Ready(v, keep, busy, r, at, n) && v.nodes[r].Branch?
    ensures Bounded(Told(v, r, at, n), busy + {r})
  {
    hide Linked, Summed, NoRepeats, Removed;
  }

  lemma ToldOutside(v: View, keep: set<Ref>, busy: set<Ref>, r: Ref, at: int, n: int)
    requires Ready(v, keep, busy, r, at, n) && v.nodes[r].Branch?
    ensures Outside(Told(v, r, at, n), keep, busy, r)
  {
    hide Linked, Summed, NoRepeats, Removed, Bounded;
  }

  lemma ToldKeeps(v: View, keep: set<Ref>, busy: set<Ref>, r: Ref, at: int, n: int)
    requires Ready(v, keep, busy, r, at, n) && v.nodes[r].Branch?
    ensures Partial(Told(v, r, at, n), busy + {r})
  {
    hide Heights, Flatten, Summed;
    assert Linked(v, r);
    assert Partial(v, busy + {r});
    NothingGone(v, r);
    hide Linked;
    assert Rehung(v, Told(v, r, at, n), r, {});
    RehungKeeps(v, Told(v, r, at, n), busy + {r}, r, {});
  }

  // ----- sequences -----

  lemma PartSkips(x: seq<Ref>, at0: int, n0: int, at: int, n: int, before: seq<Ref>, y: seq<Ref>, after: seq<Ref>)
    requires Part(x, at0, n0, at, n, before, y + after) && at >= |y|
    ensures Part(x, at0, n0, at - |y|, n, before + y, after)
  {
    var q := at0 - at + n0 - n;
    assert y == x[q..q + |y|] && after == x[q + |y|..] by {
      assert x[q..][..|y|] == y && x[q..][|y|..] == after;
    }
    if y != [] {
      assert x[..at0 - at] + x[at0 - at..at0 - at + |y|] == x[..at0 - at + |y|];
    }
  }

  /** `n` lines at `at` are to go, of which `rm` are in `y`. */
  ghost predicate Cuts(x: seq<Ref>, at0: int, n0: int, at: int, n: int, before: seq<Ref>, y: seq<Ref>, after: seq<Ref>,
                       rm: int) {
    Part(x, at0, n0, at, n, before, y + after) && at < |y| && rm == if n < |y| - at then n else |y| - at
  }

  lemma PartCuts(x: seq<Ref>, at0: int, n0: int, at: int, n: int, before: seq<Ref>, y: seq<Ref>, after: seq<Ref>,
                 rm: int)
    requires Cuts(x, at0, n0, at, n, before, y, after, rm)
    ensures n > rm ==> Part(x, at0, n0, 0, n - rm, before + Removed(y, at, rm), after)
    ensures n == rm ==> before + Removed(y, at, rm) + after == Removed(x, at0, n0)
  {
    if n == rm {
      PartCutsLast(x, at0, n0, at, n, before, y, after, rm);
    } else {
      PartCutsOn(x, at0, n0, at, n, before, y, after, rm);
    }
  }

  lemma PartPlaces(x: seq<Ref>, at0: int, n0: int, at: int, n: int, before: seq<Ref>, y: seq<Ref>, after: seq<Ref>,
                   rm: int)
    requires Cuts(x, at0, n0, at, n, before, y, after, rm)
    ensures var q := at0 - at + n0 - n;
            && 0 <= q && q + |y| <= |x| && y[at..at + rm] == x[q + at..q + at + rm] && y == x[q..q + |y|]
            && y[at + rm..] + after == x[q + at + rm..] && after == x[q + |y|..]
    ensures before + y[..at] == x[..at0]
  {
    var q := at0 - at + n0 - n;
    PartSlices(x, q, y, after);
    CutSlices(x, at0, q, at, rm, y, after);
    JoinSlices(x, at0 - at, before, y[..at]);
  }

  lemma PartCutsLast(x: seq<Ref>, at0: int, n0: int, at: int, n: int, before: seq<Ref>, y: seq<Ref>, after: seq<Ref>,
                     rm: int)
    requires Cuts(x, at0, n0, at, n, before, y, after, rm) && n == rm
    ensures before + Removed(y, at, rm) + after == Removed(x, at0, n0)
  {
    PartPlaces(x, at0, n0, at, n, before, y, after, rm);
    FourParts(before, y[..at], y[at + rm..], after);
  }

  lemma PartCutsOn(x: seq<Ref>, at0: int, n0: int, at: int, n: int, before: seq<Ref>, y: seq<Ref>, after: seq<Ref>,
                   rm: int)
    requires Cuts(x, at0, n0, at, n, before, y, after, rm) && n > rm
    ensures Part(x, at0, n0, 0, n - rm, before + Removed(y, at, rm), after)
  {
    PartPlaces(x, at0, n0, at, n, before, y, after, rm);
    assert y[at + rm..] == [] && y[..at] + [] == y[..at];
  }

  /** The lines that go now follow those that went before. */
  lemma PartOut(x: seq<Ref>, at0: int, n0: int, at: int, n: int, before: seq<Ref>, y: seq<Ref>, after: seq<Ref>,
                rm: int)
    requires Cuts(x, at0, n0, at, n, before, y, after, rm)
    ensures x[at0..at0 + n0 - n] + y[at..at + rm] == x[at0..at0 + n0 - n + rm]
  {
    PartPlaces(x, at0, n0, at, n, before, y, after, rm);
    var q := at0 - at + n0 - n;
    if at > 0 {
      assert n == n0 && q + at == at0 && x[at0..at0] == [];
    } else {
      assert q == at0 + n0 - n;
    }
  }

  lemma PartSlices(x: seq<Ref>, q: int, y: seq<Ref>, after: seq<Ref>)
    requires 0 <= q <= |x| && x[q..] == y + after
    ensures q + |y| <= |x| && y == x[q..q + |y|] && after == x[q + |y|..]
  {
    assert |x| - q == |y| + |after|;
    assert x[q..][..|y|] == y && x[q..][|y|..] == after;
  }

  lemma CutSlices(x: seq<Ref>, at0: int, q: int, at: int, rm: int, y: seq<Ref>, after: seq<Ref>)
    requires 0 <= q && q + |y| <= |x| && y == x[q..q + |y|] && after == x[q + |y|..] && 0 <= at && 0 <= rm
             && at + rm <= |y|
    ensures y[at..at + rm] == x[q + at..q + at + rm] && y[..at] == x[q..q + at]
            && y[at + rm..] + after == x[q + at + rm..]
  {
    SliceOfSlice(x, q, y, at, at + rm);
    SliceOfSlice(x, q, y, 0, at);
    SliceOfSlice(x, q, y, at + rm, |y|);
    assert y[..at] == y[0..at] && y[at + rm..] == y[at + rm..|y|];
    TailJoins(x, q + at + rm, q + |y|);
  }

  lemma SliceOfSlice(x: seq<Ref>, q: int, y: seq<Ref>, a: int, b: int)
    requires 0 <= q && q + |y| <= |x| && y == x[q..q + |y|] && 0 <= a <= b <= |y|
    ensures y[a..b] == x[q + a..q + b]
  {
    var s, t := y[a..b], x[q + a..q + b];
    forall k | 0 <= k < b - a
      ensures s[k] == t[k]
    {
      assert s[k] == y[a + k] && t[k] == x[q + a + k];
    }
  }

  lemma TailJoins(x: seq<Ref>, a: int, b: int)
    requires 0 <= a <= b <= |x|
    ensures x[a..b] + x[b..] == x[a..]
  {
  }

  lemma JoinSlices(x: seq<Ref>, a: int, s: seq<Ref>, t: seq<Ref>)
    requires 0 <= a && a + |t| <= |x| && s == x[..a] && t == x[a..a + |t|]
    ensures s + t == x[..a + |t|]
  {
  }

  lemma FourParts(a: seq<Ref>, b: seq<Ref>, c: seq<Ref>, d: seq<Ref>)
    ensures a + (b + c) + d == (a + b) + (c + d)
  {
  }

  lemma PartEnds(x: seq<Ref>, at0: int, n0: int, at: int, n: int, before: seq<Ref>)
    requires Part(x, at0, n0, at, n, before, [])
    ensures n == 0 && at == 0 && before == Removed(x, at0, n0)
  {
    assert |x[at0 - at + n0 - n..]| == 0;
  }

  // ----- one child -----

  /** What the removal below the child `c` of `r` must leave alone. */
  ghost function KeepOthers(v: View, keep: set<Ref>, r: Ref, c: Ref): set<Ref>
    requires r in v.nodes && v.nodes[r].Branch?
  {
    keep + {r} + (set d | d in v.nodes[r].children && d != c)
  }

  lemma OthersKept(v: View, keep: set<Ref>, busy: set<Ref>, r: Ref, c: Ref)
    requires AllLinked(v) && Outside(v, keep, busy, r) && v.nodes[r].Branch? && c in v.nodes[r].children
    ensures Outside(v, KeepOthers(v, keep, r, c), busy + {r}, c) && v.rank[c] < v.rank[r]
  {
    assert Linked(v, r) && Linked(v, v.root);
    assert ChildOf(v, c, r);
    var k := KeepOthers(v, keep, r, c);
    forall x | x in k
      ensures x in v.live && (x != v.root ==> v.nodes[x].parent.To? && v.nodes[x].parent.ref in k)
    {
      if x in v.nodes[r].children {
        assert ChildOf(v, x, r);
      }
    }
  }

  lemma SliceNoRepeats(s: seq<Ref>, a: int, b: int)
    requires NoRepeats(s) && 0 <= a <= b <= |s|
    ensures NoRepeats(s[a..b]) && forall l :: l in s[a..b] ==> l in s
  {
  }

  /** The children before, at and behind `i`. */
  lemma AtChild(v0: View, v: View, keep: set<Ref>, busy: set<Ref>, r: Ref, at0: int, n0: int, i: int, at: int, n: int)
    requires Ready(v0, keep, busy, r, at0, n0) && Between(v0, v, keep, busy, r, at0, n0, i, at, n)
             && i < |v.nodes[r].children|
    ensures var cs := v.nodes[r].children;
            && cs[i] in v.live && Size(v.nodes[cs[i]]) == |v.content[cs[i]]|
            && v.nodes[cs[i]].height == Heights(v.lines, v.content[cs[i]])
            && Part(v0.content[r], at0, n0, at, n, Flatten(v.content, cs[..i]),
              v.content[cs[i]] + Flatten(v.content, cs[i + 1..]))
            && Flatten(v.content, cs[..i + 1]) == Flatten(v.content, cs[..i]) + v.content[cs[i]]
  {
    hide Part, Flatten, Heights, Bounded, Framed, NoRepeats, Detached, Partial, Outside, Summed;
    WorkingHas(v0, v, keep, busy, r, at0, n0);
    var cs := v.nodes[r].children;
    ChildIsExact(v, keep, busy, r, i);
    FlattenAround(v.content, cs, i);
  }

  lemma ChildIsExact(v: View, keep: set<Ref>, busy: set<Ref>, r: Ref, i: int)
    requires Partial(v, busy + {r}) && Outside(v, keep, busy, r) && v.nodes[r].Branch?
             && 0 <= i < |v.nodes[r].children|
    ensures var c := v.nodes[r].children[i];
            && c in v.live && c in v.nodes && c in v.content
            && Size(v.nodes[c]) == |v.content[c]| && v.nodes[c].height == Heights(v.lines, v.content[c])
  {
    hide Flatten, Heights;
    var c := v.nodes[r].children[i];
    OthersKept(v, keep, busy, r, c);
    assert c !in busy + {r};
    assert Summed(v, v.content, c);
  }

  lemma FlattenAround(content: Content, cs: seq<Ref>, i: nat)
    requires i < |cs| && cs[i] in content
    ensures Flatten(content, cs[i..]) == content[cs[i]] + Flatten(content, cs[i + 1..])
    ensures Flatten(content, cs[..i + 1]) == Flatten(content, cs[..i]) + content[cs[i]]
  {
    FlattenAt(content, cs, i);
    assert cs[i..] == [cs[i]] + cs[i + 1..];
    FlattenConcat(content, [cs[i]], cs[i + 1..]);
    FlattenOne(content, cs[i]);
  }

  lemma SkipsChild(v0: View, v: View, keep: set<Ref>, busy: set<Ref>, r: Ref, at0: int, n0: int, i: int, at: int,
                   n: int)
    requires Ready(v0, keep, busy, r, at0, n0) && Between(v0, v, keep, busy, r, at0, n0, i, at, n)
             && i < |v.nodes[r].children|
    requires v.nodes[r].children[i] in v.nodes && at >= Size(v.nodes[v.nodes[r].children[i]])
    ensures Between(v0, v, keep, busy, r, at0, n0, i + 1, at - Size(v.nodes[v.nodes[r].children[i]]), n)
  {
    AtChild(v0, v, keep, busy, r, at0, n0, i, at, n);
    var cs := v.nodes[r].children;
    PartSkips(v0.content[r], at0, n0, at, n, Flatten(v.content, cs[..i]), v.content[cs[i]],
      Flatten(v.content, cs[i + 1..]));
  }

  lemma ChildLines(v0: View, v: View, keep: set<Ref>, busy: set<Ref>, r: Ref, at0: int, n0: int, i: int, at: int,
                   n: int, rm: int)
    requires Ready(v0, keep, busy, r, at0, n0) && Between(v0, v, keep, busy, r, at0, n0, i, at, n)
             && i < |v.nodes[r].children|
    requires v.nodes[r].children[i] in v.nodes
    requires var y := Size(v.nodes[v.nodes[r].children[i]]) - at; 0 < y && rm == if n < y then n else y
    ensures var c := v.nodes[r].children[i];
            c in v.content && NoRepeats(v.content[c]) && 0 <= rm && at + rm <= |v.content[c]|
            && forall l :: l in v.content[c] ==> l in v0.content[r]
  {
    hide Heights, Partial, Flatten, Bounded, Outside, Framed, NoRepeats, Part, Detached;
    WorkingHas(v0, v, keep, busy, r, at0, n0);
    AtChild(v0, v, keep, busy, r, at0, n0, i, at, n);
    ChildIsExact(v, keep, busy, r, i);
    var cs := v.nodes[r].children;
    PartOfChild(v0.content[r], at0, n0, at, n, Flatten(v.content, cs[..i]), v.content[cs[i]],
                Flatten(v.content, cs[i + 1..]), rm);
  }

  lemma PartOfChild(x: seq<Ref>, at0: int, n0: int, at: int, n: int, before: seq<Ref>, y: seq<Ref>, after: seq<Ref>,
                    rm: int)
    requires Part(x, at0, n0, at, n, before, y + after) && NoRepeats(x) && at < |y|
    requires rm == if n < |y| - at then n else |y| - at
    ensures NoRepeats(y) && 0 <= rm && at + rm <= |y| && forall l :: l in y ==> l in x
  {
    PartPlaces(x, at0, n0, at, n, before, y, after, rm);
    SliceNoRepeats(x, at0 - at + n0 - n, at0 - at + n0 - n + |y|);
  }

  lemma ChildReady(v0: View, v: View, keep: set<Ref>, busy: set<Ref>, r: Ref, at0: int, n0: int, i: int, at: int,
                   n: int, rm: int)
    requires Ready(v0, keep, busy, r, at0, n0) && Between(v0, v, keep, busy, r, at0, n0, i, at, n)
             && i < |v.nodes[r].children|
    requires v.nodes[r].children[i] in v.nodes
    requires var y := Size(v.nodes[v.nodes[r].children[i]]) - at; 0 < y && rm == if n < y then n else y
    ensures var c := v.nodes[r].children[i];
            && Ready(v, KeepOthers(v, keep, r, c), busy + {r}, c, at, rm) && v.rank[c] < v.rank[r]
            && forall l :: l in v.content[c] ==> l in v0.content[r]
  {
    ChildLines(v0, v, keep, busy, r, at0, n0, i, at, n, rm);
    OthersKept(v, keep, busy, r, v.nodes[r].children[i]);
    hide Heights, Partial, Flatten, Bounded, Outside, Framed, NoRepeats;
  }

  /** Between two children: `before` has been seen, `after` has not, the first `k` lines are out. */
  ghost predicate Seen(v0: View, v: View, keep: set<Ref>, busy: set<Ref>, r: Ref, at0: int, n0: int,
                       j: int, before: seq<Ref>, after: seq<Ref>, k: int)
    requires Ready(v0, keep, busy, r, at0, n0)
  {
    && Working(v0, v, keep, busy, r, at0, n0) && 0 <= j <= |v.nodes[r].children| && 0 <= k <= n0
    && Flatten(v.content, v.nodes[r].children[..j]) == before && Flatten(v.content, v.nodes[r].children[j..]) == after
    && Detached(v, v0.content[r][at0..at0 + k])
  }

  lemma SeenGoesOn(v0: View, v: View, keep: set<Ref>, busy: set<Ref>, r: Ref, at0: int, n0: int, at: int, n: int,
                   j: int, before: seq<Ref>, y: seq<Ref>, after: seq<Ref>, rm: int)
    requires Ready(v0, keep, busy, r, at0, n0) && Cuts(v0.content[r], at0, n0, at, n, before, y, after, rm) && 0 <= at
             && 0 <= rm
    requires Seen(v0, v, keep, busy, r, at0, n0, j, before + Removed(y, at, rm), after, n0 - n + rm)
    ensures n > rm ==> Between(v0, v, keep, busy, r, at0, n0, j, 0, n - rm)
    ensures n == rm ==> Done(v0, v, keep, busy, r, at0, n0)
  {
    hide Ready, Seen, Between, Done, Part, Removed, Cuts;
    ReadyHas(v0, keep, busy, r, at0, n0);
    var x := v0.content[r];
    CutsLess(x, at0, n0, at, n, before, y, after, rm);
    var seen := before + Removed(y, at, rm);
    PartCuts(x, at0, n0, at, n, before, y, after, rm);
    assert n0 - n + rm == n0 - (n - rm);
    if n == rm {
      SeenLast(v0, v, keep, busy, r, at0, n0, j, seen, after);
    } else {
      SeenOn(v0, v, keep, busy, r, at0, n0, j, seen, after, n - rm);
    }
  }

  lemma CutsLess(x: seq<Ref>, at0: int, n0: int, at: int, n: int, before: seq<Ref>, y: seq<Ref>, after: seq<Ref>,
                 rm: int)
    requires Cuts(x, at0, n0, at, n, before, y, after, rm)
    ensures rm <= n && at + rm <= |y|
  {
  }

  lemma SeenOn(v0: View, v: View, keep: set<Ref>, busy: set<Ref>, r: Ref, at0: int, n0: int,
               j: int, seen: seq<Ref>, after: seq<Ref>, n: int)
    requires Ready(v0, keep, busy, r, at0, n0) && Seen(v0, v, keep, busy, r, at0, n0, j, seen, after, n0 - n)
    requires Part(v0.content[r], at0, n0, 0, n, seen, after)
    ensures Between(v0, v, keep, busy, r, at0, n0, j, 0, n)
  {
    hide Ready, Working, Flatten, Part;
  }

  lemma SeenLast(v0: View, v: View, keep: set<Ref>, busy: set<Ref>, r: Ref, at0: int, n0: int, j: int, seen: seq<Ref>,
                 after: seq<Ref>)
    requires Ready(v0, keep, busy, r, at0, n0) && Seen(v0, v, keep, busy, r, at0, n0, j, seen, after, n0)
    requires seen + after == Removed(v0.content[r], at0, n0)
    ensures Done(v0, v, keep, busy, r, at0, n0)
  {
    hide Ready, Working, Flatten, Removed;
    WorkingHas(v0, v, keep, busy, r, at0, n0);
    FlattenHalves(v.content, v.nodes[r].children, j);
  }

  lemma ReadyHas(v: View, keep: set<Ref>, busy: set<Ref>, r: Ref, at: int, n: int)
    requires Ready(v, keep, busy, r, at, n)
    ensures r in v.content && r in v.nodes && 0 <= at && 0 <= n && at + n <= |v.content[r]|
  {
  }

  lemma WorkingHas(v0: View, v: View, keep: set<Ref>, busy: set<Ref>, r: Ref, at: int, n: int)
    requires Ready(v0, keep, busy, r, at, n) && Working(v0, v, keep, busy, r, at, n)
    ensures r in v.content && r in v.nodes && v.nodes[r].Branch? && r in v0.content
            && v.content[r] == Removed(v0.content[r], at, n)
  {
  }

  lemma FlattenHalves(content: Content, cs: seq<Ref>, j: int)
    requires 0 <= j <= |cs|
    ensures Flatten(content, cs) == Flatten(content, cs[..j]) + Flatten(content, cs[j..])
  {
    assert cs == cs[..j] + cs[j..];
    FlattenConcat(content, cs[..j], cs[j..]);
  }

  lemma AllSeen(v0: View, v: View, keep: set<Ref>, busy: set<Ref>, r: Ref, at0: int, n0: int, at: int, n: int)
    requires Ready(v0, keep, busy, r, at0, n0) && r in v.nodes && v.nodes[r].Branch?
    requires Between(v0, v, keep, busy, r, at0, n0, |v.nodes[r].children|, at, n)
    ensures n == 0 && Done(v0, v, keep, busy, r, at0, n0)
  {
    var cs := v.nodes[r].children;
    assert cs[..|cs|] == cs && cs[|cs|..] == [];
    PartEnds(v0.content[r], at0, n0, at, n, Flatten(v.content, cs));
  }

  ghost function WithHeight(v: View, r: Ref, h: int): View
    requires r in v.nodes && v.nodes[r].Branch?
  {
    v.(nodes := v.nodes[r := Branch(v.nodes[r].children, v.nodes[r].size, h, v.nodes[r].parent)])
  }

  lemma FramedThrough(v0: View, v: View, v2: View, keep: set<Ref>, r: Ref, keep': set<Ref>, c: Ref, x: seq<Ref>,
                      y: seq<Ref>)
    requires Framed(v0, v, keep, r, x) && Framed(v, v2, keep', c, y) && keep <= keep' && r in keep'
    requires forall l :: l in y ==> l in x
    ensures Framed(v0, v2, keep, r, x)
  {
  }

  /** The lines taken out earlier are not below `c`, and stay out. */
  lemma StayDetached(v: View, v2: View, keep: set<Ref>, busy: set<Ref>, c: Ref, at: int, rm: int, ls: seq<Ref>)
    requires Ready(v, keep, busy, c, at, rm) && Finished(v, v2, keep, busy, c, at, rm) && Detached(v, ls)
    ensures Detached(v2, ls + v.content[c][at..at + rm])
  {
    hide Flatten, Heights;
    forall l | l in ls
      ensures l in v2.lines && v2.lines[l].parent == Null
    {
      NotBelow(v, keep, busy, c, l);
    }
  }

  lemma NotBelow(v: View, keep: set<Ref>, busy: set<Ref>, c: Ref, l: Ref)
    requires Partial(v, busy) && Outside(v, keep, busy, c) && l in v.lines && v.lines[l].parent == Null
    ensures l !in v.content[c]
  {
    if l in v.content[c] {
      LineIsBelow(v, busy, keep, c, l);
    }
  }

  lemma ChildContent(v: View, v2: View, keep: set<Ref>, cs: seq<Ref>, i: int, y': seq<Ref>)
    requires 0 <= i < |cs| && NoRepeats(cs) && forall d :: d in cs && d != cs[i] ==>
             At(v2.content, d) == At(v.content, d)
    requires At(v2.content, cs[i]) == y' && SameHeights(v.lines, v2.lines)
    ensures Flatten(v2.content, cs[..i + 1]) == Flatten(v.content, cs[..i]) + y'
    ensures Flatten(v2.content, cs[i + 1..]) == Flatten(v.content, cs[i + 1..])
    ensures Heights(v2.lines, Flatten(v2.content, cs))
         == Heights(v.lines, Flatten(v.content, cs)) - Heights(v.lines, At(v.content, cs[i])) + Heights(v2.lines, y')
  {
    hide Flatten, Heights;
    OthersApart(cs, i);
    FlattenSame(v2.content, v.content, cs[..i]);
    FlattenSame(v2.content, v.content, cs[i + 1..]);
    FlattenAt(v2.content, cs, i);
    FlattenAt(v.content, cs, i);
    var before, after := Flatten(v.content, cs[..i]), Flatten(v.content, cs[i + 1..]);
    HeightsOfThree(v.lines, before, At(v.content, cs[i]), after);
    HeightsOfThree(v2.lines, before, y', after);
    HeightsSame(v.lines, v2.lines, before);
    HeightsSame(v.lines, v2.lines, after);
  }

  lemma OthersApart(cs: seq<Ref>, i: int)
    requires 0 <= i < |cs| && NoRepeats(cs)
    ensures forall d :: d in cs[..i] ==> d in cs && d != cs[i]
    ensures forall d :: d in cs[i + 1..] ==> d in cs && d != cs[i]
  {
  }

  lemma HeightsOfThree(lines: map<Ref, Line>, a: seq<Ref>, b: seq<Ref>, c: seq<Ref>)
    ensures Heights(lines, a + b + c) == Heights(lines, a) + Heights(lines, b) + Heights(lines, c)
  {
    HeightsConcat(lines, a + b, c);
    HeightsConcat(lines, a, b);
  }

  ghost function After(v: View, v2: View, r: Ref, c: Ref): View
    requires r in v2.nodes && v2.nodes[r].Branch? && c in v.nodes && c in v2.nodes
  {
    WithHeight(v2, r, v2.nodes[r].height - (v.nodes[c].height - v2.nodes[c].height))
  }

  /** The child at `i` has lost its lines. */
  ghost predicate ChildGoes(v0: View, v: View, v2: View, keep: set<Ref>, busy: set<Ref>, r: Ref, at0: int, n0: int,
                            i: int, at: int, n: int, rm: int)
    requires Ready(v0, keep, busy, r, at0, n0)
  {
    && Between(v0, v, keep, busy, r, at0, n0, i, at, n) && i < |v.nodes[r].children|
    && var c := v.nodes[r].children[i];
    && Ready(v, KeepOthers(v, keep, r, c), busy + {r}, c, at, rm)
    && Finished(v, v2, KeepOthers(v, keep, r, c), busy + {r}, c, at, rm)
    && (forall l :: l in v.content[c] ==> l in v0.content[r])
    && at < |v.content[c]| && rm == if n < |v.content[c]| - at then n else |v.content[c]| - at
  }

  /** `r` has adjusted its height. */
  ghost predicate ChildGone(v0: View, v: View, v3: View, keep: set<Ref>, busy: set<Ref>, r: Ref, at0: int, n0: int,
                            i: int, at: int, n: int, rm: int)
    requires Ready(v0, keep, busy, r, at0, n0)
  {
    && r in v.nodes && v.nodes[r].Branch? && 0 <= i < |v.nodes[r].children|
    && r in v3.nodes && v3.nodes[r].Branch? && v3.nodes[r].children == v.nodes[r].children
    && var cs := v.nodes[r].children;
    && cs[i] in v.content && cs[i] in v3.content && 0 <= at && 0 <= rm && at + rm <= |v.content[cs[i]]|
    && v3.content[cs[i]] == Removed(v.content[cs[i]], at, rm)
    && Seen(v0, v3, keep, busy, r, at0, n0, i + 1, Flatten(v.content, cs[..i]) + v3.content[cs[i]],
            Flatten(v.content, cs[i + 1..]), n0 - n + rm)
  }

  lemma ChildFramed(v0: View, v: View, v2: View, keep: set<Ref>, busy: set<Ref>, r: Ref, at0: int, n0: int, i: int,
                    at: int, n: int, rm: int)
    requires Ready(v0, keep, busy, r, at0, n0) && ChildGoes(v0, v, v2, keep, busy, r, at0, n0, i, at, n, rm)
    ensures r in v2.nodes && v2.nodes[r] == v.nodes[r] && v2.content[r] == v.content[r] && v2.rank[r] == v.rank[r]
    ensures var c := v.nodes[r].children[i]; c in v.nodes && c in v2.nodes
    ensures var v3 := After(v, v2, r, v.nodes[r].children[i]);
            && Partial(v3, busy + {r}) && Bounded(v3, busy + {r}) && Outside(v3, keep, busy, r)
            && Framed(v0, v3, keep, r, v0.content[r])
  {
    ChildThere(v0, v, v2, keep, busy, r, at0, n0, i, at, n, rm);
    hide Flatten, Heights, Partial, Bounded, Framed, Detached, NoRepeats, Part;
    var c := v.nodes[r].children[i];
    AfterKeeps(v0, v, v2, keep, KeepOthers(v, keep, r, c), busy, r, c, v0.content[r], v.content[c]);
  }

  lemma ChildWorks(v0: View, v: View, v2: View, keep: set<Ref>, busy: set<Ref>, r: Ref, at0: int, n0: int, i: int,
                   at: int, n: int, rm: int)
    requires Ready(v0, keep, busy, r, at0, n0) && ChildGoes(v0, v, v2, keep, busy, r, at0, n0, i, at, n, rm)
    ensures r in v2.nodes && v2.nodes[r] == v.nodes[r] && v.nodes[r].children[i] in v2.nodes
    ensures r in v2.rank && r in v.rank && v2.rank[r] == v.rank[r]
    ensures Working(v0, After(v, v2, r, v.nodes[r].children[i]), keep, busy, r, at0, n0)
  {
    hide Flatten, Heights, Partial, Bounded, Framed, Detached, NoRepeats, Part, Outside, Ready, Finished, KeepOthers,
      Removed;
    ChildThere(v0, v, v2, keep, busy, r, at0, n0, i, at, n, rm);
    ChildFramed(v0, v, v2, keep, busy, r, at0, n0, i, at, n, rm);
    ChildSums(v, v2, keep, busy, r, i, at, rm);
  }

  lemma ChildThere(v0: View, v: View, v2: View, keep: set<Ref>, busy: set<Ref>, r: Ref, at0: int, n0: int, i: int,
                   at: int, n: int, rm: int)
    requires Ready(v0, keep, busy, r, at0, n0) && ChildGoes(v0, v, v2, keep, busy, r, at0, n0, i, at, n, rm)
    ensures r in v.nodes && v.nodes[r].Branch? && 0 <= i < |v.nodes[r].children|
    ensures r in v.rank && r in v2.rank && v2.live <= v2.nodes.Keys
    ensures var c := v.nodes[r].children[i]; c in v.nodes && c in v.content && c in v2.content
  {
    hide Flatten, Heights, NoRepeats, Linked, Summed;
  }

  lemma ChildSeen(v0: View, v: View, v2: View, keep: set<Ref>, busy: set<Ref>, r: Ref, at0: int, n0: int, i: int,
                  at: int, n: int, rm: int)
    requires Ready(v0, keep, busy, r, at0, n0) && ChildGoes(v0, v, v2, keep, busy, r, at0, n0, i, at, n, rm)
    ensures r in v2.nodes && v2.nodes[r] == v.nodes[r] && v.nodes[r].children[i] in v2.nodes
    ensures r in v2.rank && r in v.rank && v2.rank[r] == v.rank[r]
    ensures ChildGone(v0, v, After(v, v2, r, v.nodes[r].children[i]), keep, busy, r, at0, n0, i, at, n, rm)
  {
    hide Flatten, Heights, Partial, Bounded, Outside, Framed, NoRepeats;
    ChildThere(v0, v, v2, keep, busy, r, at0, n0, i, at, n, rm);
    ChildWorks(v0, v, v2, keep, busy, r, at0, n0, i, at, n, rm);
    ChildSums(v, v2, keep, busy, r, i, at, rm);
    ChildOut(v0, v, v2, keep, busy, r, at0, n0, i, at, n, rm);
    assert After(v, v2, r, v.nodes[r].children[i]).lines == v2.lines;
    assert 0 <= n0 - n + rm <= n0;
    hide Working;
  }

  lemma ChildOut(v0: View, v: View, v2: View, keep: set<Ref>, busy: set<Ref>, r: Ref, at0: int, n0: int, i: int,
                 at: int, n: int, rm: int)
    requires Ready(v0, keep, busy, r, at0, n0) && ChildGoes(v0, v, v2, keep, busy, r, at0, n0, i, at, n, rm)
    ensures Detached(v2, v0.content[r][at0..at0 + n0 - n + rm])
  {
    ChildThere(v0, v, v2, keep, busy, r, at0, n0, i, at, n, rm);
    ReadyHas(v0, keep, busy, r, at0, n0);
    hide Flatten, Heights, Partial, Bounded, Outside, Framed, Working, NoRepeats, Ready;
    AtChild(v0, v, keep, busy, r, at0, n0, i, at, n);
    var cs, x := v.nodes[r].children, v0.content[r];
    var c, before, after := cs[i], Flatten(v.content, cs[..i]), Flatten(v.content, cs[i + 1..]);
    StayDetached(v, v2, KeepOthers(v, keep, r, c), busy + {r}, c, at, rm, x[at0..at0 + n0 - n]);
    hide Finished, KeepOthers;
    assert Cuts(x, at0, n0, at, n, before, v.content[c], after, rm);
    hide Cuts, Part;
    PartOut(x, at0, n0, at, n, before, v.content[c], after, rm);
  }

  lemma ChildSums(v: View, v2: View, keep: set<Ref>, busy: set<Ref>, r: Ref, i: int, at: int, rm: int)
    requires Partial(v, busy + {r}) && Outside(v, keep, busy, r) && v.nodes[r].Branch? && 0 <= i < |v.nodes[r].children|
    requires var c := v.nodes[r].children[i];
             && Ready(v, KeepOthers(v, keep, r, c), busy + {r}, c, at, rm)
             && Finished(v, v2, KeepOthers(v, keep, r, c), busy + {r}, c, at, rm)
    ensures var cs := v.nodes[r].children;
            var c := cs[i];
            var y' := Removed(v.content[c], at, rm);
            && c in v2.nodes && Flatten(v2.content, cs[..i + 1]) == Flatten(v.content, cs[..i]) + y'
            && Flatten(v2.content, cs[i + 1..]) == Flatten(v.content, cs[i + 1..])
            && Heights(v2.lines, Flatten(v2.content, cs))
               == Heights(v.lines, Flatten(v.content, cs)) - v.nodes[c].height + v2.nodes[c].height
  {
    hide Flatten, Heights;
    var cs := v.nodes[r].children;
    var c, keep' := cs[i], KeepOthers(v, keep, r, cs[i]);
    assert Linked(v, r) && c !in busy + {r};
    assert Summed(v, v.content, c) && Summed(v2, v2.content, c);
    forall d | d in cs && d != c
      ensures At(v2.content, d) == At(v.content, d)
    {
      assert d in keep';
    }
    hide Partial, Outside;
    ChildContent(v, v2, keep, cs, i, v2.content[c]);
  }

  lemma AfterKeeps(v0: View, v: View, v2: View, keep: set<Ref>, keep': set<Ref>, busy: set<Ref>, r: Ref, c: Ref,
                   x: seq<Ref>, y: seq<Ref>)
    requires Outside(v, keep, busy, r) && v.nodes[r].Branch? && keep <= keep' && r in keep'
    requires Framed(v0, v, keep, r, x) && Framed(v, v2, keep', c, y) && forall l :: l in y ==> l in x
    requires Partial(v2, busy + {r}) && v2.live <= v2.nodes.Keys && Bounded(v2, busy + {r})
    ensures r in v2.nodes && v2.nodes[r] == v.nodes[r] && v2.content[r] == v.content[r] && v2.rank[r] == v.rank[r]
    ensures c in v.nodes && c in v2.nodes
    ensures var v3 := After(v, v2, r, c);
            Partial(v3, busy + {r}) && Bounded(v3, busy + {r}) && Outside(v3, keep, busy, r)
              && Framed(v0, v3, keep, r, x)
  {
    hide Flatten, Heights, Partial, Bounded, NoRepeats, Outside, Framed, WithHeight;
    KeptStill(v, v2, keep, keep', busy, r, c, y);
    AfterPartial(v2, keep', busy, r, c, v.nodes[c].height);
    FramedThrough(v0, v, v2, keep, r, keep', c, x, y);
    AfterFrame(v0, v2, keep, busy, r, v2.nodes[r].height - (v.nodes[c].height - v2.nodes[c].height), x);
  }

  lemma KeptStill(v: View, v2: View, keep: set<Ref>, keep': set<Ref>, busy: set<Ref>, r: Ref, c: Ref, y: seq<Ref>)
    requires Outside(v, keep, busy, r) && Framed(v, v2, keep', c, y) && keep <= keep' && r in keep'
    ensures Outside(v2, keep, busy, r)
    ensures v2.nodes[r] == v.nodes[r] && v2.content[r] == v.content[r] && v2.rank[r] == v.rank[r] && c in v2.nodes
            && c in v.nodes
  {
  }

  lemma AfterPartial(v: View, keep: set<Ref>, busy: set<Ref>, r: Ref, c: Ref, h: int)
    requires Partial(v, busy + {r}) && Bounded(v, busy + {r}) && r in v.live && v.nodes[r].Branch? && c in v.nodes
    requires r == v.root || (v.nodes[r].parent.To? && v.nodes[r].parent.ref in busy)
    ensures var v3 := WithHeight(v, r, v.nodes[r].height - (h - v.nodes[c].height));
            Partial(v3, busy + {r}) && Bounded(v3, busy + {r})
  {
    hide Flatten, Heights, Summed;
    NothingGone(v, r);
    assert NoRepeats(v.nodes[r].children) by { assert Linked(v, r); }
    hide Linked;
    var v3 := WithHeight(v, r, v.nodes[r].height - (h - v.nodes[c].height));
    assert Rehung(v, v3, r, {});
    RehungKeeps(v, v3, busy + {r}, r, {});
    hide Partial;
  }

  lemma AfterFrame(v0: View, v: View, keep: set<Ref>, busy: set<Ref>, r: Ref, h: int, x: seq<Ref>)
    requires Framed(v0, v, keep, r, x) && r in v.nodes && v.nodes[r].Branch? && Outside(v, keep, busy, r)
    ensures Framed(v0, WithHeight(v, r, h), keep, r, x) && Outside(v, keep, busy, r)
    ensures Outside(WithHeight(v, r, h), keep, busy, r)
  {
  }

  // ----- an empty child goes -----

  ghost function Dropped(v: View, r: Ref, i: int): View
    requires r in v.nodes && v.nodes[r].Branch? && 0 <= i < |v.nodes[r].children|
    requires v.nodes[r].children[i] in v.nodes && v.nodes[r].children[i] in v.rank
  {
    var n := v.nodes[r];
    var c := n.children[i];
    v.(nodes := v.nodes[r := Branch(n.children[..i] + n.children[i + 1..], n.size, n.height, n.parent)]
                       [c := SetParent(v.nodes[c], Null)],
       live := v.live - Branching(v, c))
  }

  lemma ShorterNoRepeats(s: seq<Ref>, i: int)
    requires NoRepeats(s) && 0 <= i < |s|
    ensures NoRepeats(s[..i] + s[i + 1..]) && forall x :: x in s[..i] + s[i + 1..] <==> x in s && x != s[i]
  {
    var t := s[..i] + s[i + 1..];
    assert forall k :: 0 <= k < |t| ==> t[k] == if k < i then s[k] else s[k + 1];
    forall x | x in s && x != s[i]
      ensures x in t
    {
      var k :| 0 <= k < |s| && s[k] == x;
      assert t[if k < i then k else k - 1] == x;
    }
  }

  lemma DropRehangs(v: View, r: Ref, i: int)
    requires AllLinked(v) && r in v.live && v.nodes[r].Branch? && 0 <= i < |v.nodes[r].children|
    ensures v.nodes[r].children[i] in v.live && v.nodes[r].children[i] != r
    ensures Severed(v, r, Branching(v, v.nodes[r].children[i]))
            && Rehung(v, Dropped(v, r, i), r, Branching(v, v.nodes[r].children[i]))
  {
    var cs := v.nodes[r].children;
    BranchingIsSevered(v, r, cs[i]);
    NotItself(v, r);
    assert Linked(v, r);
    ShorterNoRepeats(cs, i);
    assert cs[i] in Branching(v, cs[i]) by { assert IsBelow(v, cs[i], cs[i]); }
  }

  lemma DropPartial(v: View, keep: set<Ref>, busy: set<Ref>, r: Ref, i: int)
    requires Partial(v, busy + {r}) && Outside(v, keep, busy, r) && v.nodes[r].Branch? && 0 <= i < |v.nodes[r].children|
    ensures var c := v.nodes[r].children[i];
            && c in v.live && c != r && c !in keep && keep !! Branching(v, c) && r !in Branching(v, c)
    ensures Partial(Dropped(v, r, i), busy + {r})
  {
    hide Flatten, Heights, Summed;
    var c := v.nodes[r].children[i];
    DropRehangs(v, r, i);
    OthersKept(v, keep, busy, r, c);
    RehungKeeps(v, Dropped(v, r, i), busy + {r}, r, Branching(v, c));
    forall x | x in keep
      ensures x !in Branching(v, c)
    {
      var others := KeepOthers(v, keep, r, c);
      assert x in others;
      if IsBelow(v, x, c) {
        KeptIsNotBelow(v, others, x, c);
      }
    }
  }

  lemma DropFrame(v0: View, v: View, keep: set<Ref>, busy: set<Ref>, r: Ref, i: int, x: seq<Ref>)
    requires Shaped(v) && Bounded(v, busy + {r}) && Outside(v, keep, busy, r) && Framed(v0, v, keep, r, x)
    requires v.nodes[r].Branch? && 0 <= i < |v.nodes[r].children|
    requires var c := v.nodes[r].children[i];
             && c in v.live && c != r && c !in keep && keep !! Branching(v, c) && r !in Branching(v, c)
    requires v.nodes[r].children[i] in Branching(v, v.nodes[r].children[i])
    ensures var v' := Dropped(v, r, i);
            Bounded(v', busy + {r}) && Outside(v', keep, busy, r) && Framed(v0, v', keep, r, x)
  {
    hide Branching, Dropped, Bounded, Framed;
    DropBounded(v, busy, r, i);
    DropFramed(v, keep, r, i, x);
    FrameStays(v0, v, Dropped(v, r, i), keep, busy, r, x);
  }

  lemma DropFramed(v: View, keep: set<Ref>, r: Ref, i: int, x: seq<Ref>)
    requires Shaped(v) && keep <= v.live && r in v.live && r !in keep && v.nodes[r].Branch?
             && 0 <= i < |v.nodes[r].children|
    requires var c := v.nodes[r].children[i];
             && c in v.live && c != r && c !in keep && keep !! Branching(v, c) && r !in Branching(v, c)
    ensures Framed(v, Dropped(v, r, i), keep, r, x)
  {
    hide Dropped, Branching;
    DropNodes(v, r, i);
    var v', c := Dropped(v, r, i), v.nodes[r].children[i];
    assert forall k :: k in keep ==> k in v.live && k != r && k != c && k !in Branching(v, c);
  }

  lemma FrameStays(v0: View, v: View, v': View, keep: set<Ref>, busy: set<Ref>, r: Ref, x: seq<Ref>)
    requires Outside(v, keep, busy, r) && Framed(v0, v, keep, r, x) && Framed(v, v', keep, r, x)
    ensures Outside(v', keep, busy, r) && Framed(v0, v', keep, r, x)
  {
  }

  lemma DropNodes(v: View, r: Ref, i: int)
    requires Shaped(v) && r in v.nodes && v.nodes[r].Branch? && 0 <= i < |v.nodes[r].children|
    requires v.nodes[r].children[i] in v.live && v.nodes[r].children[i] != r
    ensures var v', c := Dropped(v, r, i), v.nodes[r].children[i];
            && v'.live == v.live - Branching(v, c) && v'.live <= v'.nodes.Keys && v'.root == v.root
              && v'.lines == v.lines
            && v'.content == v.content && v'.rank == v.rank && v'.nodes[r].Branch?
              && v'.nodes[r].parent == v.nodes[r].parent
            && (forall x :: x in v.live && x != r && x != c ==> v'.nodes[x] == v.nodes[x])
  {
    hide Branching;
  }

  lemma DropBounded(v: View, busy: set<Ref>, r: Ref, i: int)
    requires Shaped(v) && Bounded(v, busy + {r}) && r in v.nodes && v.nodes[r].Branch? && 0 <= i < |v.nodes[r].children|
    requires var c := v.nodes[r].children[i]; c in v.live && c != r && c in Branching(v, c)
    ensures var v' := Dropped(v, r, i); v'.live <= v'.nodes.Keys && Bounded(v', busy + {r})
  {
    hide Branching;
  }

  lemma DropKeeps(v0: View, v: View, keep: set<Ref>, busy: set<Ref>, r: Ref, at0: int, n0: int, i: int)
    requires Ready(v0, keep, busy, r, at0, n0) && Working(v0, v, keep, busy, r, at0, n0)
             && 0 <= i < |v.nodes[r].children|
    ensures v.nodes[r].children[i] in v.live && v.nodes[r].children[i] != r
    ensures var v' := Dropped(v, r, i);
            && Partial(v', busy + {r}) && Bounded(v', busy + {r}) && Outside(v', keep, busy, r)
            && Framed(v0, v', keep, r, v0.content[r])
  {
    DropPartial(v, keep, busy, r, i);
    var c := v.nodes[r].children[i];
    assert c in Branching(v, c) by { assert IsBelow(v, c, c); }
    DropFrame(v0, v, keep, busy, r, i, v0.content[r]);
    hide Partial, Bounded, Outside, Framed, Dropped;
  }

  lemma DropContent(v: View, r: Ref, i: int)
    requires r in v.nodes && v.nodes[r].Branch? && 0 <= i < |v.nodes[r].children|
    requires v.nodes[r].children[i] in v.nodes && v.nodes[r].children[i] in v.rank && v.nodes[r].children[i] != r
    requires At(v.content, v.nodes[r].children[i]) == []
    ensures var v', cs := Dropped(v, r, i), v.nodes[r].children;
            && v'.content == v.content && v'.lines == v.lines && v'.rank == v.rank
            && v'.nodes[r] == v.nodes[r].(children := cs[..i] + cs[i + 1..])
            && Flatten(v.content, v'.nodes[r].children[..i]) == Flatten(v.content, cs[..i + 1])
            && Flatten(v.content, v'.nodes[r].children[i..]) == Flatten(v.content, cs[i + 1..])
            && Flatten(v.content, v'.nodes[r].children) == Flatten(v.content, cs)
  {
    hide Branching;
    var cs := v.nodes[r].children;
    var cs' := cs[..i] + cs[i + 1..];
    FlattenAt(v.content, cs, i);
    FlattenConcat(v.content, cs[..i], cs[i + 1..]);
    assert cs'[..i] == cs[..i] && cs'[i..] == cs[i + 1..];
    assert Flatten(v.content, cs[..i]) + [] == Flatten(v.content, cs[..i]);
  }

  lemma DropSeen(v0: View, v: View, keep: set<Ref>, busy: set<Ref>, r: Ref, at0: int, n0: int,
                 i: int, before: seq<Ref>, after: seq<Ref>, k: int)
    requires Ready(v0, keep, busy, r, at0, n0) && Seen(v0, v, keep, busy, r, at0, n0, i + 1, before, after, k) && i >= 0
    requires v.nodes[r].children[i] in v.content && v.content[v.nodes[r].children[i]] == []
    ensures v.nodes[r].children[i] in v.live
    ensures Seen(v0, Dropped(v, r, i), keep, busy, r, at0, n0, i, before, after, k)
  {
    hide Flatten, Heights, Bounded, Framed, NoRepeats, Ready;
    DropKeeps(v0, v, keep, busy, r, at0, n0, i);
    DropContent(v, r, i);
    hide Partial, Outside, Dropped;
  }

  // ----- a small branch collapses -----

  ghost function Emptied(v: View, r: Ref): View
    requires r in v.nodes && v.nodes[r].Branch? && r in v.rank
  {
    v.(nodes := v.nodes[r := Branch([], v.nodes[r].size, v.nodes[r].height, v.nodes[r].parent)],
       live := v.live - Under(v, r))
  }

  ghost function Collapsed(v: View, r: Ref, leaf: Ref, ls: seq<Ref>): View
    requires r in v.nodes && v.nodes[r].Branch? && r in v.rank
  {
    OneLeaf(Emptied(v, r), r, leaf, ls)
  }

  lemma EmptiedKeeps(v: View, keep: set<Ref>, busy: set<Ref>, r: Ref)
    requires Partial(v, busy + {r}) && Outside(v, keep, busy, r) && v.nodes[r].Branch?
    ensures Partial(Emptied(v, r), busy + {r}) && keep <= Emptied(v, r).live && r in Emptied(v, r).live
  {
    hide Flatten, Heights, Summed;
    UnderIsSevered(v, r);
    var u := Emptied(v, r);
    forall c | c in v.nodes[r].children
      ensures c in Under(v, r)
    {
      assert Linked(v, r);
      assert ChildOf(v, c, r);
      assert IsBelow(v, r, r);
      ChildIsBelow(v, r, c, r);
    }
    assert Rehung(v, u, r, Under(v, r));
    RehungKeeps(v, u, busy + {r}, r, Under(v, r));
    forall x | x in keep
      ensures x !in Under(v, r)
    {
      if IsBelow(v, x, r) {
        KeptIsNotBelow(v, keep, x, r);
      }
    }
  }

  lemma EmptiedOrphans(v: View, keep: set<Ref>, busy: set<Ref>, r: Ref, ls: seq<Ref>)
    requires Partial(v, busy + {r}) && Outside(v, keep, busy, r) && v.nodes[r].Branch?
    requires ls == Flatten(v.content, v.nodes[r].children) && NoRepeats(ls)
    ensures Orphans(Emptied(v, r), ls)
  {
    hide Flatten, Heights, Summed;
    forall l | l in ls
      ensures l in v.lines && v.lines[l].parent.To? && v.lines[l].parent.ref in Under(v, r)
    {
      var i := InSomeChild(v.content, v.nodes[r].children, l);
      var c := v.nodes[r].children[i];
      assert Linked(v, r) && Linked(v, v.root);
      assert ChildOf(v, c, r);
      assert Kept(v, keep + {r});
      LineIsBelow(v, busy + {r}, keep + {r}, c, l);
    }
  }

  lemma CollapsePartial(v: View, keep: set<Ref>, busy: set<Ref>, r: Ref, leaf: Ref, ls: seq<Ref>)
    requires Partial(v, busy + {r}) && Outside(v, keep, busy, r) && v.nodes[r].Branch? && v.rank[r] > 0
             && leaf !in v.nodes
    requires ls == Flatten(v.content, v.nodes[r].children) && NoRepeats(ls)
    ensures Partial(Collapsed(v, r, leaf, ls), busy + {r})
    ensures keep !! Under(v, r) && r !in Under(v, r) && leaf !in v.live
    ensures forall l :: l in ls ==> l in v.lines
  {
    hide Flatten, Heights, Summed, Linked;
    EmptiedKeeps(v, keep, busy, r);
    EmptiedOrphans(v, keep, busy, r, ls);
    OneLeafKeeps(Emptied(v, r), busy + {r}, r, leaf, ls);
  }

  lemma CollapseFrame(v0: View, v: View, keep: set<Ref>, busy: set<Ref>, r: Ref, leaf: Ref, ls: seq<Ref>, x: seq<Ref>)
    requires Shaped(v) && Bounded(v, busy + {r}) && Outside(v, keep, busy, r) && Framed(v0, v, keep, r, x)
    requires v.nodes[r].Branch? && keep !! Under(v, r) && r !in Under(v, r) && leaf !in v.live && leaf !in v.nodes
    requires |ls| <= 50 && forall l :: l in ls ==> l in x
    ensures var v' := Collapsed(v, r, leaf, ls);
            && Bounded(v', busy + {r}) && Outside(v', keep, busy, r) && Framed(v0, v', keep, r, x)
            && SameHeights(v.lines, v'.lines)
  {
    CollapseLines(v, r, leaf, ls);
    CollapseNodes(v, r, leaf, ls);
    CollapseBounded(v, busy, r, leaf, ls);
    var v' := Collapsed(v, r, leaf, ls);
    hide Under, Heights, Collapsed, Bounded;
    assert r in v.live && v.live <= v.content.Keys && v.live <= v.rank.Keys && keep <= v.live && r !in keep;
    assert Framed(v, v', keep, r, x);
    FrameStays(v0, v, v', keep, busy, r, x);
    hide Outside, Framed;
  }

  lemma CollapseLines(v: View, r: Ref, leaf: Ref, ls: seq<Ref>)
    requires r in v.nodes && v.nodes[r].Branch? && r in v.rank
    ensures var v' := Collapsed(v, r, leaf, ls);
            SameHeights(v.lines, v'.lines) && forall l :: l in v.lines && l !in ls ==> v'.lines[l] == v.lines[l]
  {
    hide Under, Heights;
  }

  lemma CollapseNodes(v: View, r: Ref, leaf: Ref, ls: seq<Ref>)
    requires r in v.nodes && v.nodes[r].Branch? && r in v.rank && leaf !in v.nodes && v.live <= v.nodes.Keys
             && v.live <= v.rank.Keys
    requires v.live <= v.content.Keys
    ensures var v' := Collapsed(v, r, leaf, ls);
            && v'.live == v.live - Under(v, r) + {leaf} && v'.live <= v'.nodes.Keys && v'.live <= v'.content.Keys
            && v'.live <= v'.rank.Keys && v'.root == v.root
            && v'.nodes[r] == v.nodes[r].(children := [leaf])
            && (forall y :: y in v.live && y != r ==> v'.nodes[y] == v.nodes[y])
            && (forall y :: y in v.live ==> v'.content[y] == v.content[y] && v'.rank[y] == v.rank[y])
  {
    hide Under, Heights;
  }

  lemma CollapseBounded(v: View, busy: set<Ref>, r: Ref, leaf: Ref, ls: seq<Ref>)
    requires Shaped(v) && Bounded(v, busy + {r}) && r in v.live && v.nodes[r].Branch? && leaf !in v.nodes && |ls| <= 50
    requires Collapsed(v, r, leaf, ls).live <= Collapsed(v, r, leaf, ls).nodes.Keys
    ensures Bounded(Collapsed(v, r, leaf, ls), busy + {r})
  {
    hide Under, Heights;
  }

  /** A branch with few lines left collapses into one leaf, which holds them in order. */
  lemma CollapseDone(v0: View, v: View, keep: set<Ref>, busy: set<Ref>, r: Ref, at0: int, n0: int, leaf: Ref)
    requires Ready(v0, keep, busy, r, at0, n0) && Done(v0, v, keep, busy, r, at0, n0) && leaf !in v.nodes
             && |v.content[r]| <= 50
    ensures Done(v0, Collapsed(v, r, leaf, v.content[r]), keep, busy, r, at0, n0)
    ensures |Collapsed(v, r, leaf, v.content[r]).nodes[r].children| == 1
  {
    var x, ls := v0.content[r], v.content[r];
    RemovedNoRepeats(x, at0, n0);
    hide Flatten, Heights, Bounded, Framed, NoRepeats;
    CollapsePartial(v, keep, busy, r, leaf, ls);
    CollapseFrame(v0, v, keep, busy, r, leaf, ls, x);
    CollapseSums(v, r, leaf, ls);
    StillDetached(v, r, leaf, ls, x[at0..at0 + n0]);
    hide Partial, Outside, Collapsed, Detached;
  }

  lemma StillDetached(v: View, r: Ref, leaf: Ref, ls: seq<Ref>, out: seq<Ref>)
    requires r in v.nodes && v.nodes[r].Branch? && r in v.rank && Detached(v, out) && forall l :: l in ls ==> l !in out
    ensures Detached(Collapsed(v, r, leaf, ls), out)
  {
    hide Under, Heights;
  }

  lemma CollapseSums(v: View, r: Ref, leaf: Ref, ls: seq<Ref>)
    requires r in v.nodes && v.nodes[r].Branch? && r in v.rank && leaf !in v.nodes
    requires r in v.content && v.nodes[r].height == Heights(v.lines, ls)
    ensures var v' := Collapsed(v, r, leaf, ls);
            && v'.nodes[r] == v.nodes[r].(children := [leaf]) && v'.content[r] == v.content[r]
              && v'.rank[r] == v.rank[r]
            && Flatten(v'.content, [leaf]) == ls && v'.nodes[r].height == Heights(v'.lines, ls)
  {
    hide Under;
    var v' := Collapsed(v, r, leaf, ls);
    FlattenOne(v'.content, leaf);
    HeightsSame(v.lines, v'.lines, ls);
  }

  lemma Finishes(v0: View, v: View, keep: set<Ref>, busy: set<Ref>, r: Ref, at0: int, n0: int)
    requires Ready(v0, keep, busy, r, at0, n0) && Done(v0, v, keep, busy, r, at0, n0)
    requires v.nodes[r].size > 0 || v.nodes[r].children != []
    ensures Finished(v0, v, keep, busy, r, at0, n0)
  {
    assert Flatten(v.content, []) == [];
    hide Flatten, Heights, Linked, NoRepeats;
    assert Summed(v, v.content, r);
    forall x | x in v.live && x !in busy
      ensures Summed(v, v.content, x)
    {
      assert x != r ==> x !in busy + {r};
    }
    hide Outside, Framed, Detached;
  }
}
