/** Selections: normalising them, carrying them over a change, and replacing what they select. */
module SelectionModel {
  import opened Text
  import opened Changes
  import opened HistoryModel

  function MinPos(a: Pos, b: Pos): Pos {
    if Cmp(a, b) < 0 then a else b
  }

  function MaxPos(a: Pos, b: Pos): Pos {
    if Cmp(a, b) < 0 then b else a
  }

  function From(r: Range): Pos {
    MinPos(r.anchor, r.head)
  }

  function To(r: Range): Pos {
    MaxPos(r.anchor, r.head)
  }

  predicate Empty(r: Range) {
    r.head == r.anchor
  }

  /** The head of the range is where it starts, as `from() == head` finds it on position objects. */
  predicate Inverted(r: Range) {
    Cmp(r.anchor, r.head) >= 0
  }

  predicate Holds(r: Range, p: Pos) {
    Leq(From(r), p) && Leq(p, To(r))
  }

  predicate Covered(rs: seq<Range>, p: Pos) {
    exists i :: 0 <= i < |rs| && Holds(rs[i], p)
  }

  predicate Sorted(rs: seq<Range>) {
    forall i, j :: 0 <= i < j < |rs| ==> Leq(From(rs[i]), From(rs[j]))
  }

  /** Each range ends before the next one begins. */
  predicate Separated(rs: seq<Range>) {
    forall i, j :: 0 <= i < j < |rs| ==> Cmp(To(rs[i]), From(rs[j])) < 0
  }

  /** `order` lists the places of `rs`, so that the ranges come sorted by where they start. */
  predicate IsOrder(rs: seq<Range>, order: seq<nat>) {
    && |order| == |rs| && (forall i :: 0 <= i < |order| ==> order[i] < |rs|)
    && (forall i, j :: 0 <= i < j < |order| ==> order[i] != order[j])
    && (forall i, j :: 0 <= i < j < |order| ==> Leq(From(rs[order[i]]), From(rs[order[j]])))
    && (forall k :: 0 <= k < |rs| ==> k in order)
  }

  function Arranged(rs: seq<Range>, order: seq<nat>): (r: seq<Range>)
    requires forall i :: 0 <= i < |order| ==> order[i] < |rs|
    ensures |r| == |order| && forall i :: 0 <= i < |order| ==> r[i] == rs[order[i]]
  {
    seq(|order|, i requires 0 <= i < |order| => rs[order[i]])
  }

  /** The range that two touching ranges become. */
  function Merged(prev: Range, cur: Range): Range {
    var from, to := MinPos(From(prev), From(cur)), MaxPos(To(prev), To(cur));
    if (if Empty(prev) then Inverted(cur) else Inverted(prev)) then Range(to, from) else Range(from, to)
  }

  lemma MergedHolds(prev: Range, cur: Range)
    requires Leq(From(prev), From(cur)) && Cmp(To(prev), From(cur)) >= 0
    ensures From(Merged(prev, cur)) == From(prev) && To(Merged(prev, cur)) == MaxPos(To(prev), To(cur))
    ensures forall p :: Holds(Merged(prev, cur), p) <==> Holds(prev, p) || Holds(cur, p)
  {
  }

  /** The head comes before the anchor. */
  predicate Backwards(r: Range) {
    Cmp(r.head, r.anchor) < 0
  }

  /** A merged range runs in the direction of the first of its ranges that is not empty. */
  lemma MergedDirection(prev: Range, cur: Range)
    requires Leq(From(prev), From(cur)) && Cmp(To(prev), From(cur)) >= 0
    ensures !Empty(prev) ==> (Backwards(Merged(prev, cur)) <==> Backwards(prev))
    ensures Empty(prev) ==> (Backwards(Merged(prev, cur)) <==> Backwards(cur))
    ensures Empty(Merged(prev, cur)) <==> Empty(prev) && Empty(cur)
  {
  }

  function MergeAt(rs: seq<Range>, i: nat): seq<Range>
    requires 0 < i < |rs|
  {
    rs[..i - 1] + [Merged(rs[i - 1], rs[i])] + rs[i + 1..]
  }

  /** What the loop of `NormalizeSelection` keeps. */
  ghost predicate Normalizing(rs0: seq<Range>, primary: Range, sorted: seq<Range>, rs: seq<Range>, i: nat, prim: nat) {
    && 0 < i <= |rs| <= |sorted| && prim < |rs| && Sorted(rs) && Separated(rs[..i])
    && (forall p :: Covered(rs, p) <==> Covered(rs0, p))
    && Leq(From(rs[prim]), From(primary)) && Leq(To(primary), To(rs[prim]))
    && (|rs| == |sorted| ==> rs == sorted)
  }

  lemma MergeCovers(rs: seq<Range>, i: nat, p: Pos)
    requires 0 < i < |rs| && Leq(From(rs[i - 1]), From(rs[i])) && Cmp(To(rs[i - 1]), From(rs[i])) >= 0
    ensures Covered(MergeAt(rs, i), p) <==> Covered(rs, p)
  {
    var m := MergeAt(rs, i);
    MergedHolds(rs[i - 1], rs[i]);
    if Covered(rs, p) {
      var k :| 0 <= k < |rs| && Holds(rs[k], p);
      assert m[if k < i then k else k - 1] == if k < i - 1 then rs[k] else if k <= i then Merged(rs[i - 1], rs[i])
             else rs[k];
      assert Holds(m[if k < i then k else k - 1], p);
    }
    if Covered(m, p) {
      var k :| 0 <= k < |m| && Holds(m[k], p);
      if k == i - 1 {
        assert Holds(rs[i - 1], p) || Holds(rs[i], p);
      } else {
        assert m[k] == rs[if k < i then k else k + 1];
        assert Holds(rs[if k < i then k else k + 1], p);
      }
    }
  }

  lemma MergeKeeps(rs0: seq<Range>, primary: Range, sorted: seq<Range>, rs: seq<Range>, i: nat, prim: nat)
    requires Normalizing(rs0, primary, sorted, rs, i, prim) && i < |rs| && Cmp(To(rs[i - 1]), From(rs[i])) >= 0
    ensures Normalizing(rs0, primary, sorted, MergeAt(rs, i), i, if i <= prim then prim - 1 else prim)
  {
    var m := MergeAt(rs, i);
    MergedHolds(rs[i - 1], rs[i]);
    assert forall k :: 0 <= k < |m| && k != i - 1 ==> m[k] == rs[if k < i then k else k + 1];
    assert m[i - 1] == Merged(rs[i - 1], rs[i]);
    forall p
      ensures Covered(m, p) <==> Covered(rs0, p)
    {
      MergeCovers(rs, i, p);
    }
    var s, t := rs[..i], m[..i];
    forall j, k | 0 <= j < k < i
      ensures Cmp(To(t[j]), From(t[k])) < 0
    {
      assert Cmp(To(s[j]), From(s[k])) < 0;
    }
  }

  lemma StepKeeps(rs0: seq<Range>, primary: Range, sorted: seq<Range>, rs: seq<Range>, i: nat, prim: nat)
    requires Normalizing(rs0, primary, sorted, rs, i, prim) && i < |rs| && Cmp(To(rs[i - 1]), From(rs[i])) < 0
    ensures Normalizing(rs0, primary, sorted, rs, i + 1, prim)
  {
    var s, t := rs[..i], rs[..i + 1];
    forall j, k | 0 <= j < k < i + 1
      ensures Cmp(To(t[j]), From(t[k])) < 0
    {
      assert k < i ==> t[k] == s[k] && t[j] == s[j];
      assert j < i - 1 ==> t[j] == s[j] && Cmp(To(s[j]), From(s[i - 1])) < 0;
    }
  }

  lemma SortedCovers(rs: seq<Range>, order: seq<nat>, p: Pos)
    requires IsOrder(rs, order)
    ensures Covered(Arranged(rs, order), p) <==> Covered(rs, p)
  {
    var s := Arranged(rs, order);
    if Covered(rs, p) {
      var k :| 0 <= k < |rs| && Holds(rs[k], p);
      assert k in order;
      var i :| 0 <= i < |order| && order[i] == k;
      assert Holds(s[i], p);
    }
    if Covered(s, p) {
      var i :| 0 <= i < |s| && Holds(s[i], p);
      assert Holds(rs[order[i]], p);
    }
  }

  /** Sorts and merges ranges. `order` is the order the sort puts them in.

      The result is sorted and its ranges do not touch; it covers the positions the ranges covered;
      its primary range contains the old one; and when nothing was merged it is the sorted ranges. */
  method NormalizeSelection(ranges: seq<Range>, primIndex: nat, order: seq<nat>) returns (sel: Selection)
    requires primIndex < |ranges| && IsOrder(ranges, order)
    ensures Sorted(sel.ranges) && Separated(sel.ranges) && 0 < |sel.ranges| <= |ranges| && sel.primIndex < |sel.ranges|
    ensures forall p :: Covered(sel.ranges, p) <==> Covered(ranges, p)
    ensures Leq(From(sel.ranges[sel.primIndex]), From(ranges[primIndex]))
    ensures Leq(To(ranges[primIndex]), To(sel.ranges[sel.primIndex]))
    ensures |sel.ranges| == |ranges| ==> sel.ranges == Arranged(ranges, order)
  {
    var rs := Arranged(ranges, order);
    ghost var sorted := rs;
    var prim := IndexOf(order, primIndex);
    var i := 1;
    forall p
      ensures Covered(rs, p) <==> Covered(ranges, p)
    {
      SortedCovers(ranges, order, p);
    }
    while i < |rs|
      invariant Normalizing(ranges, ranges[primIndex], sorted, rs, i, prim)
      decreases |rs| - i
    {
      var cur, prev := rs[i], rs[i - 1];
      if Cmp(To(prev), From(cur)) >= 0 {
        MergeKeeps(ranges, ranges[primIndex], sorted, rs, i, prim);
        if i <= prim {
          prim := prim - 1;
        }
        rs := rs[..i - 1] + [Merged(prev, cur)] + rs[i + 1..];
      } else {
        StepKeeps(ranges, ranges[primIndex], sorted, rs, i, prim);
        i := i + 1;
      }
    }
    assert rs[..i] == rs;
    sel := Selection(rs, prim);
  }

  method IndexOf(s: seq<nat>, x: nat) returns (i: nat)
    requires x in s
    ensures i < |s| && s[i] == x
  {
    i := 0;
    while s[i] != x
      invariant i < |s| && x !in s[..i]
      decreases |s| - i
    {
      ghost var seen := s[..i + 1];
      assert seen == s[..i] + [s[i]];
      assert i + 1 == |s| ==> seen == s;
      i := i + 1;
    }
  }

  // ----- positions over a change -----

  function AdjustForChange(p: Pos, c: Change): Pos {
    if Cmp(p, c.from) < 0 then p
    else if Cmp(p, c.to) <= 0 then ChangeEnd(c)
    else
      Pos(p.line + |c.text| - (c.to.line - c.from.line) - 1,
          p.ch + if p.line == c.to.line then ChangeEnd(c).ch - c.to.ch else 0)
  }

  /** Adjusting keeps the order of positions. */
  lemma AdjustIsMonotone(p: Pos, q: Pos, c: Change)
    requires Leq(c.from, c.to) && Leq(p, q)
    ensures Leq(AdjustForChange(p, c), AdjustForChange(q, c))
  {
  }

  /** An adjusted position has the same text before it, or after it, as in the old document; inside
      the change it is the end of the change. */
  lemma AdjustKeepsText(d: Lines, c: Change, p: Pos)
    requires ValidChange(d, c) && ValidPos(d, p)
    ensures var r, q := Apply(d, c), AdjustForChange(p, c);
            && ValidPos(r, q)
            && (Cmp(p, c.from) < 0 ==> Before(r, q) == Before(d, p))
            && (Cmp(p, c.to) > 0 ==> After(r, q) == After(d, p))
            && (Leq(c.from, p) && Leq(p, c.to) ==>
                  Before(r, q) == Glue(Before(d, c.from), c.text) && After(r, q) == After(d, c.to))
  {
    hide Glue, Before, After, Between;
    ApplyReadsBack(d, c);
    ChangeEndIsEndOfInsertion(d, c);
    var head := Glue(Before(d, c.from), c.text);
    if Cmp(p, c.from) < 0 {
      CutInThree(d, p, c.from);
      var m := Between(d, p, c.from);
      CutThenGlue(d, p);
      GlueAssociative(Before(d, p), m, c.text);
      GlueAssociative(Before(d, p), Glue(m, c.text), After(d, c.to));
      GlueThenCut(Before(d, p), Glue(Glue(m, c.text), After(d, c.to)));
    } else if Cmp(p, c.to) > 0 {
      AfterInThree(d, c.to, p);
      var m := Between(d, c.to, p);
      GlueAssociative(head, m, After(d, p));
      GlueThenCut(Glue(head, m), After(d, p));
      OffsetEnd(d, c.to, p, head);
    } else {
      GlueThenCut(head, After(d, c.to));
    }
  }

  lemma AfterInThree(d: Lines, p: Pos, q: Pos)
    requires ValidPos(d, p) && ValidPos(d, q) && Leq(p, q)
    ensures After(d, p) == Glue(Between(d, p, q), After(d, q))
  {
    CutInThree(d, p, q);
    CutThenGlue(d, p);
    GlueAssociative(Before(d, p), Between(d, p, q), After(d, q));
    GlueThenCut(Before(d, p), Glue(Between(d, p, q), After(d, q)));
  }

  function OffsetPos(p: Pos, old0: Pos, nw: Pos): Pos {
    if p.line == old0.line then Pos(nw.line, p.ch - old0.ch + nw.ch) else Pos(nw.line + (p.line - old0.line), p.ch)
  }

  /** Text that stood between `p` and `q`, put behind `a`, ends where `OffsetPos` says. */
  lemma OffsetEnd(d: Lines, p: Pos, q: Pos, a: Lines)
    requires ValidPos(d, p) && ValidPos(d, q) && Leq(p, q)
    ensures EndOf(Glue(a, Between(d, p, q))) == OffsetPos(q, p, EndOf(a))
  {
  }

  // ----- replacing a selection -----

  /** Changes that follow each other in the document. */
  ghost predicate InOrder(d: Lines, cs: seq<Change>) {
    && (forall i :: 0 <= i < |cs| ==> ValidChange(d, cs[i]))
    && (forall i, j :: 0 <= i < j < |cs| ==> Leq(cs[i].to, cs[j].from))
  }

  /** Where the change before the `i`-th ends in the old document. */
  function PrevTo(cs: seq<Change>, i: nat): Pos
    requires i <= |cs|
  {
    if i == 0 then Pos(0, 0) else cs[i - 1].to
  }

  lemma PrevFits(d: Lines, cs: seq<Change>, i: nat)
    requires InOrder(d, cs) && i <= |cs|
    ensures ValidPos(d, PrevTo(cs, i)) && (i < |cs| ==> Leq(PrevTo(cs, i), cs[i].from))
  {
  }

  /** The old text between the change before the `i`-th and the `i`-th. */
  ghost function Gap(d: Lines, cs: seq<Change>, i: nat): Lines
    requires InOrder(d, cs) && i < |cs|
  {
    PrevFits(d, cs, i);
    Between(d, PrevTo(cs, i), cs[i].from)
  }

  /** The new text up to the end of the first `i` insertions: old text and insertions in turn. */
  ghost function Upto(d: Lines, cs: seq<Change>, i: nat): Lines
    requires InOrder(d, cs) && i <= |cs|
  {
    if i == 0 then [""] else Glue(Glue(Upto(d, cs, i - 1), Gap(d, cs, i - 1)), cs[i - 1].text)
  }

  /** All changes at once: every change refers to the old document. */
  ghost function Substituted(d: Lines, cs: seq<Change>): Lines
    requires InOrder(d, cs)
  {
    PrevFits(d, cs, |cs|);
    Glue(Upto(d, cs, |cs|), After(d, PrevTo(cs, |cs|)))
  }

  /** The new text from the end of the change before the `i`-th on. */
  ghost function Rest(d: Lines, cs: seq<Change>, i: nat): Lines
    requires InOrder(d, cs) && i <= |cs|
    decreases |cs| - i
  {
    PrevFits(d, cs, i);
    if i == |cs| then After(d, PrevTo(cs, i)) else Glue(Gap(d, cs, i), Glue(cs[i].text, Rest(d, cs, i + 1)))
  }

  lemma {:induction false} SubstitutedAt(d: Lines, cs: seq<Change>, i: nat)
    requires InOrder(d, cs) && i <= |cs|
    ensures Glue(Upto(d, cs, i), Rest(d, cs, i)) == Substituted(d, cs)
    decreases |cs| - i
  {
    if i < |cs| {
      var a, g, t, r := Upto(d, cs, i), Gap(d, cs, i), cs[i].text, Rest(d, cs, i + 1);
      SubstitutedAt(d, cs, i + 1);
      GlueAssociative(a, g, Glue(t, r));
      GlueAssociative(Glue(a, g), t, r);
    }
  }

  /** Before the `i`-th change the document is old up to the change before it, and new from there. */
  ghost function Halfway(d: Lines, cs: seq<Change>, i: nat): Lines
    requires InOrder(d, cs) && i <= |cs|
  {
    PrevFits(d, cs, i);
    Glue(Before(d, PrevTo(cs, i)), Rest(d, cs, i))
  }

  lemma LaterTextDoesNotMatter(d: Lines, p: Pos, q: Pos, t: Lines)
    requires ValidPos(d, p) && ValidPos(d, q) && Leq(p, q)
    ensures var r := Glue(Before(d, q), t); ValidPos(r, p) && Before(r, p) == Before(d, p)
  {
    CutInThree(d, p, q);
    CutThenGlue(d, p);
    GlueAssociative(Before(d, p), Between(d, p, q), t);
    GlueThenCut(Before(d, p), Glue(Between(d, p, q), t));
  }

  lemma OneChange(d: Lines, cs: seq<Change>, i: nat)
    requires InOrder(d, cs) && i < |cs|
    ensures ValidChange(Halfway(d, cs, i + 1), cs[i])
    ensures Apply(Halfway(d, cs, i + 1), cs[i]) == Halfway(d, cs, i)
  {
    PrevFits(d, cs, i);
    var c, rest, cur := cs[i], Rest(d, cs, i + 1), Halfway(d, cs, i + 1);
    LaterTextDoesNotMatter(d, c.from, c.to, rest);
    CutThenGlue(d, c.to);
    GlueThenCut(Before(d, c.to), rest);
    CutInThree(d, PrevTo(cs, i), c.from);
    var a, g := Before(d, PrevTo(cs, i)), Gap(d, cs, i);
    GlueAssociative(Glue(a, g), c.text, rest);
    GlueAssociative(a, g, Glue(c.text, rest));
  }

  lemma Ends(d: Lines, cs: seq<Change>)
    requires InOrder(d, cs)
    ensures Halfway(d, cs, |cs|) == d && Halfway(d, cs, 0) == Substituted(d, cs)
  {
    PrevFits(d, cs, |cs|);
    CutThenGlue(d, PrevTo(cs, |cs|));
    SubstitutedAt(d, cs, 0);
    assert Before(d, Pos(0, 0)) == [""] by { assert d[0][..0] == ""; }
  }

  /** Replaces the ranges from last to first; this is the same as replacing all of them at once. */
  method ReplaceRanges(d: Lines, cs: seq<Change>) returns (r: Lines)
    requires InOrder(d, cs)
    ensures r == Substituted(d, cs)
  {
    r := d;
    Ends(d, cs);
    var i := |cs|;
    while i > 0
      invariant 0 <= i <= |cs| && r == Halfway(d, cs, i)
    {
      i := i - 1;
      OneChange(d, cs, i);
      r := Apply(r, cs[i]);
    }
  }

  /** The `i`-th insertion in the new document. */
  ghost function InsertionStart(d: Lines, cs: seq<Change>, i: nat): Pos
    requires InOrder(d, cs) && i < |cs|
  {
    EndOf(Glue(Upto(d, cs, i), Gap(d, cs, i)))
  }

  ghost function InsertionEnd(d: Lines, cs: seq<Change>, i: nat): Pos
    requires InOrder(d, cs) && i < |cs|
  {
    EndOf(Upto(d, cs, i + 1))
  }

  /** In the new document, the insertion stands between its start and its end. */
  lemma InsertionIsThere(d: Lines, cs: seq<Change>, i: nat)
    requires InOrder(d, cs) && i < |cs|
    ensures var r, p, q := Substituted(d, cs), InsertionStart(d, cs, i), InsertionEnd(d, cs, i);
            ValidPos(r, p) && ValidPos(r, q) && Leq(p, q) && Between(r, p, q) == cs[i].text
  {
    SubstitutedAt(d, cs, i + 1);
    BetweenOfThree(Glue(Upto(d, cs, i), Gap(d, cs, i)), cs[i].text, Rest(d, cs, i + 1));
  }

  lemma EndMoves(a: Lines, from: Pos, prev: Pos, g: Lines, c: Change)
    requires c.from == from && EndOf(Glue(a, g)) == OffsetPos(from, prev, EndOf(a)) && Leq(prev, from)
    ensures EndOf(Glue(Glue(a, g), c.text)) == OffsetPos(ChangeEnd(c), prev, EndOf(a))
  {
  }

  /** Where the loop over the changes puts the `i`-th insertion. */
  lemma InsertionMoves(d: Lines, cs: seq<Change>, i: nat)
    requires InOrder(d, cs) && i < |cs|
    ensures var prev, moved := PrevTo(cs, i), EndOf(Upto(d, cs, i));
            && OffsetPos(cs[i].from, prev, moved) == InsertionStart(d, cs, i)
            && OffsetPos(ChangeEnd(cs[i]), prev, moved) == InsertionEnd(d, cs, i)
  {
    PrevFits(d, cs, i);
    OffsetEnd(d, PrevTo(cs, i), cs[i].from, Upto(d, cs, i));
    EndMoves(Upto(d, cs, i), cs[i].from, PrevTo(cs, i), Gap(d, cs, i), cs[i]);
  }

  /** The range around an insertion, in the direction of the old range, or at its start. */
  function NewRange(r: Range, p: Pos, q: Pos, around: bool): Range {
    if !around then Range(p, p) else if Cmp(r.head, r.anchor) < 0 then Range(q, p) else Range(p, q)
  }

  /** Each of the ranges `out` stands at its insertion in the new document. */
  ghost predicate Placed(d: Lines, rs: seq<Range>, cs: seq<Change>, around: bool, out: seq<Range>)
    requires InOrder(d, cs)
  {
    && |out| <= |cs| == |rs|
    && forall k :: 0 <= k < |out| ==>
         out[k] == NewRange(rs[k], InsertionStart(d, cs, k), InsertionEnd(d, cs, k), around)
  }

  lemma PlacedStep(d: Lines, rs: seq<Range>, cs: seq<Change>, around: bool, out: seq<Range>, r: Range)
    requires InOrder(d, cs) && Placed(d, rs, cs, around, out) && |out| < |cs|
    requires r == NewRange(rs[|out|], InsertionStart(d, cs, |out|), InsertionEnd(d, cs, |out|), around)
    ensures Placed(d, rs, cs, around, out + [r])
  {
    hide InOrder, NewRange, InsertionStart, InsertionEnd;
    var more := out + [r];
    assert forall k :: 0 <= k < |more| ==> more[k] == if k < |out| then out[k] else r;
  }

  lemma NothingPlaced(d: Lines, rs: seq<Range>, cs: seq<Change>, around: bool)
    requires InOrder(d, cs) && |rs| == |cs|
    ensures EndOf(Upto(d, cs, 0)) == Pos(0, 0) == PrevTo(cs, 0) && Placed(d, rs, cs, around, [])
  {
  }

  /** The selection after a replacement: around each insertion, or at the start of each. */
  method ComputeReplacedSel(ghost d: Lines, sel: Selection, cs: seq<Change>, around: bool) returns (r: Selection)
    requires InOrder(d, cs) && |sel.ranges| == |cs|
    ensures |r.ranges| == |cs| && r.primIndex == sel.primIndex
    ensures Placed(d, sel.ranges, cs, around, r.ranges)
  {
    var out: seq<Range> := [];
    var oldPrev, newPrev := Pos(0, 0), Pos(0, 0);
    hide Upto, InsertionStart, EndOf, InOrder, OffsetPos, ChangeEnd, NewRange, Placed;
    NothingPlaced(d, sel.ranges, cs, around);
    for i := 0 to |cs|
      invariant |out| == i && oldPrev == PrevTo(cs, i) && newPrev == EndOf(Upto(d, cs, i))
      invariant Placed(d, sel.ranges, cs, around, out)
    {
      var change := cs[i];
      InsertionMoves(d, cs, i);
      var from := OffsetPos(change.from, oldPrev, newPrev);
      var to := OffsetPos(ChangeEnd(change), oldPrev, newPrev);
      oldPrev, newPrev := change.to, to;
      PlacedStep(d, sel.ranges, cs, around, out, NewRange(sel.ranges[i], from, to, around));
      out := out + [NewRange(sel.ranges[i], from, to, around)];
    }
    r := Selection(out, sel.primIndex);
  }

  /** The changes of a replacement, one for each range of the selection. */
  function ReplacingChanges(rs: seq<Range>, texts: seq<Lines>): (cs: seq<Change>)
    requires |texts| == |rs|
    ensures |cs| == |rs| && forall i :: 0 <= i < |rs| ==> cs[i] == Change(From(rs[i]), To(rs[i]), texts[i])
  {
    seq(|rs|, i requires 0 <= i < |rs| => Change(From(rs[i]), To(rs[i]), texts[i]))
  }

  /** Replaces what is selected. The new text is that of replacing all ranges at once, and with
      `around` each range of the new selection selects exactly its replacement. */
  method ReplaceSelections(d: Lines, sel: Selection, texts: seq<Lines>, around: bool)
    returns (r: Lines, newSel: Selection)
    requires |texts| == |sel.ranges| && Separated(sel.ranges)
    requires forall i :: 0 <= i < |sel.ranges| ==> ValidPos(d, sel.ranges[i].anchor) && ValidPos(d, sel.ranges[i].head)
    ensures var cs := ReplacingChanges(sel.ranges, texts); InOrder(d, cs) && r == Substituted(d, cs)
    ensures |newSel.ranges| == |sel.ranges| && newSel.primIndex == sel.primIndex
    ensures around ==> forall i :: 0 <= i < |texts| ==>
              && Selects(r, newSel.ranges[i], texts[i])
              && (Backwards(newSel.ranges[i]) <==> Backwards(sel.ranges[i]) && texts[i] != [""])
    ensures !around ==> forall i :: 0 <= i < |texts| ==> StandsBefore(r, newSel.ranges[i], texts[i])
  {
    hide InOrder, Substituted, InsertionStart, InsertionEnd, Separated;
    var cs := ReplacingChanges(sel.ranges, texts);
    ReplacingInOrder(d, sel.ranges, texts);
    newSel := ComputeReplacedSel(d, sel, cs, around);
    r := ReplaceRanges(d, cs);
    forall i | 0 <= i < |texts|
      ensures around ==> Selects(r, newSel.ranges[i], texts[i])
      ensures around ==> (Backwards(newSel.ranges[i]) <==> Backwards(sel.ranges[i]) && texts[i] != [""])
      ensures !around ==> StandsBefore(r, newSel.ranges[i], texts[i])
    {
      InsertionIsThere(d, cs, i);
      RangeSelects(r, sel.ranges[i], InsertionStart(d, cs, i), InsertionEnd(d, cs, i), texts[i]);
    }
  }

  lemma ReplacingInOrder(d: Lines, rs: seq<Range>, texts: seq<Lines>)
    requires |texts| == |rs| && Separated(rs)
    requires forall i :: 0 <= i < |rs| ==> ValidPos(d, rs[i].anchor) && ValidPos(d, rs[i].head)
    ensures InOrder(d, ReplacingChanges(rs, texts))
  {
  }

  lemma RangeSelects(d: Lines, r: Range, p: Pos, q: Pos, text: Lines)
    requires ValidPos(d, p) && ValidPos(d, q) && Leq(p, q) && Between(d, p, q) == text
    ensures Selects(d, NewRange(r, p, q, true), text)
    ensures Backwards(NewRange(r, p, q, true)) <==> Backwards(r) && text != [""]
    ensures StandsBefore(d, NewRange(r, p, q, false), text)
  {
    assert |text| == q.line - p.line + 1;
    assert p.line == q.line ==> |text[0]| == q.ch - p.ch;
  }

  /** An empty range with the text right behind it. */
  ghost predicate StandsBefore(d: Lines, r: Range, text: Lines) {
    r.anchor == r.head && ValidPos(d, r.head)
    && exists q :: ValidPos(d, q) && Leq(r.head, q) && Between(d, r.head, q) == text
  }

  ghost predicate Selects(d: Lines, r: Range, text: Lines) {
    ValidPos(d, From(r)) && ValidPos(d, To(r)) && Leq(From(r), To(r)) && Between(d, From(r), To(r)) == text
  }
}
