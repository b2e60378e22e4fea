/** `diff_cleanupSemantic` and `diff_cleanupSemanticLossless`. */
module DiffSemantic {
  import opened DiffText
  import opened DiffSearch
  import opened DiffMerge

  /** No empty edit stands between an equality and an empty equality.  On such a script the
      sliding loop of the lossless pass would compare "" with "" for ever. */
  predicate Slidable(a: seq<Diff>) {
    forall i :: 0 < i < |a| - 1 && a[i - 1].op == Equal && a[i + 1].op == Equal ==>
      a[i].text != [] || a[i + 1].text != []
  }

  lemma TightIsSlidable(a: seq<Diff>)
    requires Tight(a)
    ensures Slidable(a)
  {
    forall i | 0 < i < |a| - 1 && a[i - 1].op == Equal && a[i + 1].op == Equal
      ensures a[i].text != [] || a[i + 1].text != []
    {
      assert TightAt(a, i);
    }
  }

  // ----- lossless sliding -----

  /** An edit `e` with text `d` before and `f` behind it: what the two sides of the script read. */
  predicate SameSlide(d: Str, e: Str, f: Str, d': Str, e': Str, f': Str) {
    d' + e' + f' == d + e + f && d' + f' == d + f && |e'| == |e|
  }

  function PlaceScore(d: Str, e: Str, f: Str, score: (Str, Str) -> int): int {
    score(d, e) + score(e, f)
  }

  /** Of the places for the edit with `lo` to `hi` units before it, none has a better score than the one
      given, and none behind it has the same. */
  ghost predicate BestPlace(d0: Str, e0: Str, f0: Str, g: Str, h: Str, j: Str, lo: int, hi: int,
                            score: (Str, Str) -> int) {
    forall x, y, z :: SameSlide(d0, e0, f0, x, y, z) && lo <= |x| <= hi ==>
      && PlaceScore(x, y, z, score) <= PlaceScore(g, h, j, score)
      && (|x| > |g| ==> PlaceScore(x, y, z, score) < PlaceScore(g, h, j, score))
  }

  /** None of the places with at least `lo` units before it is better, and none behind it as good. */
  ghost predicate BestFrom(d0: Str, e0: Str, f0: Str, g: Str, h: Str, j: Str, lo: int, score: (Str, Str) -> int) {
    forall x, y, z :: SameSlide(d0, e0, f0, x, y, z) && lo <= |x| ==>
      && PlaceScore(x, y, z, score) <= PlaceScore(g, h, j, score)
      && (|x| > |g| ==> PlaceScore(x, y, z, score) < PlaceScore(g, h, j, score))
  }

  /** There is at most one place with a given number of units before it. */
  lemma OnePlace(d0: Str, e0: Str, f0: Str, x: Str, y: Str, z: Str, x': Str, y': Str, z': Str)
    requires SameSlide(d0, e0, f0, x, y, z) && SameSlide(d0, e0, f0, x', y', z') && |x| == |x'|
    ensures x == x' && y == y' && z == z'
  {
    var t := d0 + e0 + f0;
    CutThree(x, y, z);
    CutThree(x', y', z');
    assert t == x + y + z && t == x' + y' + z';
  }

  lemma CutThree(x: Str, y: Str, z: Str)
    ensures var t := x + y + z;
            t[..|x|] == x && t[|x|..|x| + |y|] == y && t[|x| + |y|..] == z
  {
  }

  /** If there is a place further behind, the edit can slide on by one unit. */
  lemma MorePlaces(d0: Str, e0: Str, f0: Str, d: Str, e: Str, f: Str, x: Str, y: Str, z: Str)
    requires SameSlide(d0, e0, f0, d, e, f) && SameSlide(d0, e0, f0, x, y, z) && |x| > |d| && e != []
    ensures f != [] && e[0] == f[0]
  {
    var t, u, p := d0 + e0 + f0, d0 + f0, |d|;
    assert |u| == |d| + |f| && |u| == |x| + |z|;
    assert t == d + e + f && t == x + y + z && u == d + f && u == x + z;
    assert t[p] == e[0] && t[p] == x[p] && u[p] == x[p] && u[p] == f[0];
  }

  lemma FirstPlace(d0: Str, e0: Str, f0: Str, d: Str, e: Str, f: Str, score: (Str, Str) -> int)
    requires SameSlide(d0, e0, f0, d, e, f)
    ensures BestPlace(d0, e0, f0, d, e, f, |d|, |d|, score)
  {
    hide SameSlide;
    forall x, y, z | SameSlide(d0, e0, f0, x, y, z) && |x| == |d|
      ensures x == d && y == e && z == f
    {
      OnePlace(d0, e0, f0, x, y, z, d, e, f);
    }
  }

  /** One place more to choose from: the later one wins a tie. */
  lemma NextPlace(d0: Str, e0: Str, f0: Str, g: Str, h: Str, j: Str, d: Str, e: Str, f: Str, lo: int,
                  score: (Str, Str) -> int)
    requires SameSlide(d0, e0, f0, d, e, f) && |g| < |d| && BestPlace(d0, e0, f0, g, h, j, lo, |d| - 1, score)
    ensures if PlaceScore(d, e, f, score) >= PlaceScore(g, h, j, score)
            then BestPlace(d0, e0, f0, d, e, f, lo, |d|, score) else BestPlace(d0, e0, f0, g, h, j, lo, |d|, score)
  {
    hide SameSlide, PlaceScore;
    forall x, y, z | SameSlide(d0, e0, f0, x, y, z) && |x| == |d|
      ensures x == d && y == e && z == f
    {
      OnePlace(d0, e0, f0, x, y, z, d, e, f);
    }
  }

  /** No place is left out behind the last one. */
  lemma LastPlace(d0: Str, e0: Str, f0: Str, g: Str, h: Str, j: Str, d: Str, e: Str, f: Str, lo: int,
                  score: (Str, Str) -> int)
    requires SameSlide(d0, e0, f0, d, e, f) && e != [] && !(f != [] && e[0] == f[0])
    requires BestPlace(d0, e0, f0, g, h, j, lo, |d|, score)
    ensures BestFrom(d0, e0, f0, g, h, j, lo, score)
  {
    hide SameSlide, PlaceScore;
    forall x, y, z | SameSlide(d0, e0, f0, x, y, z)
      ensures |x| <= |d|
    {
      if |x| > |d| {
        MorePlaces(d0, e0, f0, d, e, f, x, y, z);
      }
    }
  }

  /** The best place for an edit between two equalities, by a score of the boundaries: of all places
      from the longest common suffix before the edit on, and the last of the best. */
  method BestSlide(d0: Str, e0: Str, f0: Str, score: (Str, Str) -> int)
    returns (g: Str, h: Str, j: Str)
    requires e0 != [] || f0 != []
    ensures SameSlide(d0, e0, f0, g, h, j)
    ensures e0 == [] ==> g == d0
    ensures forall n: nat :: e0 != [] && LongestSuffix(d0, e0, n) ==>
              BestFrom(d0, e0, f0, g, h, j, |d0| - n, score)
  {
    hide BestPlace, BestFrom, PlaceScore, LongestSuffix, SameSlide;
    var d, e, f := d0, e0, f0;
    var n := CommonSuffix(d, e);
    SuffixesFit(d0, e0, n);
    if n != 0 {
      var common := e[|e| - n..];
      d := d[..|d| - n];
      e := common + e[..|e| - n];
      f := common + f;
    }
    SlideBack(d0, e0, f0, n);
    NoSlide(d0, e0, f0);
    g, h, j := d, e, f;
    var best := score(d, e) + score(e, f);
    FirstPlace(d0, e0, f0, d, e, f, score);
    ScoreOf(d, e, f, score);
    while f != [] && e != [] && e[0] == f[0]
      invariant SameSlide(d0, e0, f0, d, e, f) && SameSlide(d0, e0, f0, g, h, j) && |e| == |e0|
      invariant e0 == [] ==> g == d0
      invariant |g| <= |d| && best == PlaceScore(g, h, j, score)
      invariant BestPlace(d0, e0, f0, g, h, j, |d0| - n, |d|, score)
      decreases |f|
    {
      SlideOne(d0, e0, f0, d, e, f);
      d, e, f := d + [e[0]], e[1..] + [f[0]], f[1..];
      var s := score(d, e) + score(e, f);
      ScoreOf(d, e, f, score);
      NextPlace(d0, e0, f0, g, h, j, d, e, f, |d0| - n, score);
      if s >= best {
        best := s;
        g, h, j := d, e, f;
      }
    }
    if e0 != [] {
      LastPlace(d0, e0, f0, g, h, j, d, e, f, |d0| - n, score);
      forall m: nat | LongestSuffix(d0, e0, m)
        ensures m == n
      {
        SuffixIsUnique(d0, e0, m, n);
      }
    }
  }

  lemma ScoreOf(d: Str, e: Str, f: Str, score: (Str, Str) -> int)
    ensures PlaceScore(d, e, f, score) == score(d, e) + score(e, f)
  {
  }

  lemma SuffixesFit(d: Str, e: Str, n: int)
    requires LongestSuffix(d, e, n)
    ensures 0 <= n <= |d| && n <= |e| && (n == 0 ==> d[..|d| - n] == d && e[|e| - n..] + e[..|e| - n] == e)
  {
  }

  lemma NoSlide(d: Str, e: Str, f: Str)
    ensures SameSlide(d, e, f, d, e, f) && [] + f == f
  {
  }

  lemma SlideBack(d: Str, e: Str, f: Str, n: nat)
    requires LongestSuffix(d, e, n)
    ensures var c := e[|e| - n..]; SameSlide(d, e, f, d[..|d| - n], c + e[..|e| - n], c + f)
  {
    var c, d', e' := e[|e| - n..], d[..|d| - n], e[..|e| - n];
    assert d == d' + c && e == e' + c;
    Around(d', c, e', f);
  }

  lemma Around(d: Str, c: Str, e: Str, f: Str)
    ensures d + (c + e) + (c + f) == (d + c) + (e + c) + f && d + (c + f) == (d + c) + f
  {
    var x, y := d + (c + e) + (c + f), (d + c) + (e + c) + f;
    assert forall i :: 0 <= i < |x| ==> x[i] == y[i];
  }

  lemma SlideOne(d0: Str, e0: Str, f0: Str, d: Str, e: Str, f: Str)
    requires SameSlide(d0, e0, f0, d, e, f) && e != [] && f != [] && e[0] == f[0]
    ensures SameSlide(d0, e0, f0, d + [e[0]], e[1..] + [f[0]], f[1..])
  {
    assert e == [e[0]] + e[1..] && f == [f[0]] + f[1..];
    assert (d + [e[0]]) + (e[1..] + [f[0]]) + f[1..] == d + ([e[0]] + e[1..]) + ([f[0]] + f[1..]);
    assert (d + [e[0]]) + f[1..] == d + ([f[0]] + f[1..]);
  }

  /** A slid edit, with an emptied equality left out. */
  lemma SlidSides(x: Diff, e: Diff, y: Diff, g: Str, h: Str, j: Str, skip: Op)
    requires x.op == Equal && y.op == Equal && SameSlide(x.text, e.text, y.text, g, h, j) && skip != Equal
    ensures var x', e', y' := Diff(Equal, g), Diff(e.op, h), Diff(Equal, j);
            && Side([x', e', y'], skip) == Side([x, e, y], skip)
            && (g == [] ==> Side([e', y'], skip) == Side([x, e, y], skip))
            && (j == [] ==> Side([x', e'], skip) == Side([x, e, y], skip))
  {
    hide Side;
    var x', e', y' := Diff(Equal, g), Diff(e.op, h), Diff(Equal, j);
    SideOfThree(x', e', y', skip);
    SideOfThree(x, e, y, skip);
    SideOfTwo(e', y', skip);
    SideOfTwo(x', e', skip);
    assert [] + h + j == h + j && g + h + [] == g + h;
    assert g + [] + j == g + j && x.text + [] + y.text == x.text + y.text;
    assert [] + j == j && g + [] == g;
  }

  lemma SlidParts(pre: seq<Diff>, x: Diff, e: Diff, y: Diff, post: seq<Diff>, g: Str, h: Str, j: Str)
    requires x.op == Equal && y.op == Equal && SameSlide(x.text, e.text, y.text, g, h, j)
    ensures Same(pre + [Diff(Equal, g), Diff(e.op, h), Diff(Equal, j)] + post, pre + [x, e, y] + post)
    ensures g == [] ==> Same(pre + [Diff(e.op, h), Diff(Equal, j)] + post, pre + [x, e, y] + post)
    ensures j == [] ==> Same(pre + [Diff(Equal, g), Diff(e.op, h)] + post, pre + [x, e, y] + post)
  {
    hide Side;
    var x', e', y' := Diff(Equal, g), Diff(e.op, h), Diff(Equal, j);
    SlidSides(x, e, y, g, h, j, Insert);
    SlidSides(x, e, y, g, h, j, Delete);
    Exchange(pre, [x, e, y], [x', e', y'], post);
    if g == [] {
      Exchange(pre, [x, e, y], [e', y'], post);
    }
    if j == [] {
      Exchange(pre, [x, e, y], [x', e'], post);
    }
  }

  /** Parts with text in place of three keep a script slidable. */
  lemma MiddleReplaced(a: seq<Diff>, r: seq<Diff>, p: nat, m: nat)
    requires Slidable(a) && p + 3 <= |a| && a[p + 2].op == Equal && 0 < m
    requires |r| == |a| - 3 + m && r[..p] == a[..p] && r[p + m..] == a[p + 3..]
    requires forall i :: p <= i < p + m ==> r[i].text != []
    ensures Slidable(r)
  {
    forall i | 0 < i < |r| - 1 && r[i - 1].op == Equal && r[i + 1].op == Equal
      ensures r[i].text != [] || r[i + 1].text != []
    {
      if i + 1 < p {
        assert r[i - 1] == r[..p][i - 1] && r[i] == r[..p][i] && r[i + 1] == r[..p][i + 1];
      } else if p + m <= i {
        var k := i - p - m;
        assert r[i] == r[p + m..][k] && r[i + 1] == r[p + m..][k + 1];
        assert r[i] == a[p + 3 + k] && r[i + 1] == a[p + 4 + k];
        if k > 0 {
          assert r[i - 1] == r[p + m..][k - 1] == a[p + 2 + k];
        }
      }
    }
  }

  /** Put a slid edit in place, leaving out an equality it emptied. */
  method PlaceSlide(a0: seq<Diff>, c0: nat, g: Str, h: Str, j: Str) returns (a: seq<Diff>, c: nat)
    requires 0 < c0 < |a0| - 1 && a0[c0 - 1].op == Equal && a0[c0 + 1].op == Equal && Slidable(a0)
    requires SameSlide(a0[c0 - 1].text, a0[c0].text, a0[c0 + 1].text, g, h, j)
    requires h != [] && g != a0[c0 - 1].text
    ensures Same(a, a0) && Slidable(a)
    ensures |a| - c == |a0| - c0 && c0 - 1 <= c
  {
    hide Side, Slidable;
    a, c := a0, c0;
    var x, e, y := a[c - 1], a[c], a[c + 1];
    ghost var pre, post := a[..c - 1], a[c + 2..];
    assert a == pre + [x, e, y] + post;
    assert |g| + |j| == |x.text| + |y.text| by {
      assert |g + j| == |x.text + y.text|;
    }
    SlidParts(pre, x, e, y, post, g, h, j);
    ghost var n := |a0|;
    if g != [] {
      a := a[c - 1 := Diff(Equal, g)];
    } else {
      a := a[..c - 1] + a[c..];
      c := c - 1;
    }
    a := a[c := Diff(e.op, h)];
    if j != [] {
      a := a[c + 1 := Diff(Equal, j)];
    } else {
      a := a[..c + 1] + a[c + 2..];
      c := c - 1;
    }
    ghost var m: nat;
    if g != [] && j != [] {
      assert a == pre + [Diff(Equal, g), Diff(e.op, h), Diff(Equal, j)] + post;
      m := 3;
    } else if g == [] {
      assert a == pre + [Diff(e.op, h), Diff(Equal, j)] + post;
      m := 2;
    } else {
      assert a == pre + [Diff(Equal, g), Diff(e.op, h)] + post;
      m := 2;
    }
    MiddleReplaced(a0, a, c0 - 1, m);
  }

  method CleanupSemanticLossless(a0: seq<Diff>, score: (Str, Str) -> int) returns (a: seq<Diff>)
    requires Slidable(a0)
    ensures Same(a, a0)
  {
    hide Side;
    a := a0;
    var c := 1;
    while c < |a| - 1
      invariant c >= 1 && Same(a, a0) && Slidable(a)
      decreases |a| - c
    {
      if a[c - 1].op == Equal && a[c + 1].op == Equal {
        var g, h, j := BestSlide(a[c - 1].text, a[c].text, a[c + 1].text, score);
        if a[c - 1].text != g {
          a, c := PlaceSlide(a, c, g, h, j);
        }
      }
      c := c + 1;
    }
  }

  // ----- trivial equalities -----

  function Equalities(a: seq<Diff>): nat {
    if a == [] then 0 else (if a[0].op == Equal then 1 else 0) + Equalities(a[1..])
  }

  lemma {:induction false} EqualitiesConcat(a: seq<Diff>, b: seq<Diff>)
    ensures Equalities(a + b) == Equalities(a) + Equalities(b)
  {
    if a == [] {
      assert a + b == b;
    } else {
      EqualitiesConcat(a[1..], b);
      assert (a + b)[1..] == a[1..] + b;
    }
  }

  /** Turn the equality at `t` into a deletion and an insertion of its text. */
  method SplitEquality(a: seq<Diff>, t: nat) returns (r: seq<Diff>)
    requires t < |a| && a[t].op == Equal
    ensures Same(r, a) && Equalities(r) == Equalities(a) - 1 && |r| == |a| + 1
  {
    hide Side;
    var e := a[t].text;
    r := a[..t] + [Diff(Delete, e)] + a[t..];
    r := r[t + 1 := Diff(Insert, e)];
    ghost var pre, post := a[..t], a[t + 1..];
    ghost var two := [Diff(Delete, e), Diff(Insert, e)];
    assert a == pre + [a[t]] + post && r == pre + two + post;
    SideOfOne(a[t], Insert);
    SideOfOne(a[t], Delete);
    SideOfTwo(Diff(Delete, e), Diff(Insert, e), Insert);
    SideOfTwo(Diff(Delete, e), Diff(Insert, e), Delete);
    Exchange(pre, [a[t]], two, post);
    EqualitiesConcat(pre + [a[t]], post);
    EqualitiesConcat(pre, [a[t]]);
    EqualitiesConcat(pre + two, post);
    EqualitiesConcat(pre, two);
    assert [a[t]][1..] == [] && two[1..] == [Diff(Insert, e)] && two[1..][1..] == [];
  }

  datatype MaybeText = NoText | SomeText(text: Str)

  function Max(a: int, b: int): int {
    if a > b then a else b
  }

  predicate OnlyEdits(a: seq<Diff>) {
    forall i :: 0 <= i < |a| ==> a[i].op != Equal
  }

  /** The longer of the insertions and the deletions of a stretch. */
  function EditSize(a: seq<Diff>): int {
    Max(OpLength(a, Insert), OpLength(a, Delete))
  }

  /** The equality at `t` is no longer than the edits from `s` on before it, which begin at the start or
      behind an equality, nor than the edits up to `e` behind it. */
  ghost predicate TrivialAt(a: seq<Diff>, s: int, t: int, e: int) {
    && 0 <= s <= t < e <= |a| && a[t].op == Equal && a[t].text != []
    && OnlyEdits(a[s..t]) && (s == 0 || a[s - 1].op == Equal) && OnlyEdits(a[t + 1..e])
    && |a[t].text| <= EditSize(a[s..t]) && |a[t].text| <= EditSize(a[t + 1..e])
  }

  ghost predicate HasTrivial(a: seq<Diff>, f: int) {
    exists s, t, e :: TrivialAt(a, s, t, e) && e <= f
  }

  /** Where the unchanged scan stands: the last equality is at `t`, and its edits before it begin at `s`. */
  ghost predicate ScanAt(a: seq<Diff>, f: int, s: int, t: int, last: MaybeText, ins1: int, del1: int, ins2: int,
                         del2: int) {
    && 0 <= s <= t + 1 <= f <= |a| && OnlyEdits(a[t + 1..f])
    && ins2 == OpLength(a[t + 1..f], Insert) && del2 == OpLength(a[t + 1..f], Delete)
    && (s == 0 || a[s - 1].op == Equal)
    && (if t < 0 then last == NoText && s == 0
        else && s <= t && last.SomeText? && a[t] == Diff(Equal, last.text) && OnlyEdits(a[s..t])
             && ins1 == OpLength(a[s..t], Insert) && del1 == OpLength(a[s..t], Delete))
    && !HasTrivial(a, f)
  }

  lemma ScanStarts(a: seq<Diff>)
    ensures ScanAt(a, 0, 0, -1, NoText, 0, 0, 0, 0)
  {
    assert a[0..0] == [];
    hide OpLength, EditSize;
  }

  lemma OnePart(a: seq<Diff>, i: int, f: int, op: Op)
    requires 0 <= i <= f < |a|
    ensures OpLength(a[i..f + 1], op) == OpLength(a[i..f], op) + if a[f].op == op then |a[f].text| else 0
    ensures a[f].op != Equal && OnlyEdits(a[i..f]) ==> OnlyEdits(a[i..f + 1])
  {
    hide OpLength;
    assert a[i..f + 1] == a[i..f] + [a[f]];
    OpLengthConcat(a[i..f], [a[f]], op);
    OpLengthOfOne(a[f], op);
  }

  /** A trivial equality whose edits reach `f` is the last equality before `f`. */
  lemma TrivialIsLast(a: seq<Diff>, f: int, s: int, t: int, s': int, t': int)
    requires 0 <= s <= t + 1 <= f < |a| && OnlyEdits(a[t + 1..f]) && a[f].op != Equal
    requires (s == 0 || a[s - 1].op == Equal) && (t < 0 ==> s == 0)
    requires t >= 0 ==> s <= t && a[t].op == Equal && OnlyEdits(a[s..t])
    requires TrivialAt(a, s', t', f + 1)
    ensures t' == t && s' == s
  {
    hide EditSize, OnlyEdits;
    NoEqualityIn(a, t + 1, f, t');
    NoEqualityIn(a, t' + 1, f + 1, t);
    if t' == t {
      NoEqualityIn(a, s, t, s' - 1);
      NoEqualityIn(a, s', t, s - 1);
    }
  }

  lemma NoEqualityIn(a: seq<Diff>, i: int, j: int, k: int)
    requires 0 <= i <= j <= |a| && OnlyEdits(a[i..j])
    ensures i <= k < j ==> a[k].op != Equal
  {
    assert i <= k < j ==> a[i..j][k - i] == a[k];
  }

  lemma NextTrivial(a: seq<Diff>, f: int) returns (s: int, t: int)
    requires 0 <= f < |a| && !HasTrivial(a, f) && HasTrivial(a, f + 1)
    ensures TrivialAt(a, s, t, f + 1)
  {
    hide TrivialAt;
    var e;
    s, t, e :| TrivialAt(a, s, t, e) && e <= f + 1;
    assert e == f + 1;
  }

  /** The scan goes on over an edit that makes no equality trivial. */
  lemma ScanEdit(a: seq<Diff>, f: int, s: int, t: int, last: MaybeText, ins1: int, del1: int, ins2: int, del2: int)
    requires ScanAt(a, f, s, t, last, ins1, del1, ins2, del2) && f < |a| && a[f].op != Equal
    ensures var i2 := if a[f].op == Insert then ins2 + |a[f].text| else ins2;
            var d2 := if a[f].op == Delete then del2 + |a[f].text| else del2;
            if last.SomeText? && last.text != [] && |last.text| <= Max(ins1, del1) && |last.text| <= Max(i2, d2)
            then HasTrivial(a, |a|) else ScanAt(a, f + 1, s, t, last, ins1, del1, i2, d2)
  {
    hide OpLength, OnlyEdits, TrivialAt;
    OnePart(a, t + 1, f, Insert);
    OnePart(a, t + 1, f, Delete);
    var i2 := if a[f].op == Insert then ins2 + |a[f].text| else ins2;
    var d2 := if a[f].op == Delete then del2 + |a[f].text| else del2;
    var small := last.SomeText? && last.text != [] && |last.text| <= Max(ins1, del1) && |last.text| <= Max(i2, d2);
    TrivialMeans(a, s, t, f + 1);
    if small {
      assert TrivialAt(a, s, t, f + 1);
    } else if HasTrivial(a, f + 1) {
      var s', t' := NextTrivial(a, f);
      TrivialIsLast(a, f, s, t, s', t');
    }
  }

  lemma TrivialMeans(a: seq<Diff>, s: int, t: int, e: int)
    ensures TrivialAt(a, s, t, e) <==>
              && 0 <= s <= t < e <= |a| && a[t].op == Equal && a[t].text != []
              && OnlyEdits(a[s..t]) && (s == 0 || a[s - 1].op == Equal) && OnlyEdits(a[t + 1..e])
              && |a[t].text| <= Max(OpLength(a[s..t], Insert), OpLength(a[s..t], Delete))
              && |a[t].text| <= Max(OpLength(a[t + 1..e], Insert), OpLength(a[t + 1..e], Delete))
  {
    hide OpLength, OnlyEdits, Max;
  }

  /** The scan goes on over an equality. */
  lemma ScanEquality(a: seq<Diff>, f: int, s: int, t: int, last: MaybeText, ins1: int, del1: int, ins2: int, del2: int)
    requires ScanAt(a, f, s, t, last, ins1, del1, ins2, del2) && f < |a| && a[f].op == Equal
    ensures ScanAt(a, f + 1, t + 1, f, SomeText(a[f].text), ins2, del2, 0, 0)
  {
    hide OpLength, OnlyEdits, TrivialAt;
    NothingLeft(a, f);
    if HasTrivial(a, f + 1) {
      var s', t' := NextTrivial(a, f);
      TrivialMeans(a, s', t', f + 1);
      EqualityIsNoEdit(a, t', f);
    }
  }

  lemma NothingLeft(a: seq<Diff>, f: int)
    requires 0 <= f < |a|
    ensures OnlyEdits(a[f + 1..f + 1]) && OpLength(a[f + 1..f + 1], Insert) == OpLength(a[f + 1..f + 1], Delete) == 0
  {
    assert a[f + 1..f + 1] == [];
  }

  lemma EqualityIsNoEdit(a: seq<Diff>, t: int, f: int)
    requires 0 <= t <= f < |a| && a[f].op == Equal
    ensures OnlyEdits(a[t + 1..f + 1]) ==> t == f
  {
    assert t < f ==> a[t + 1..f + 1][f - t - 1] == a[f];
  }

  /** The first loop: equalities no longer than the edits on both sides of them become edits.
      `stack` holds indices of equalities under integer keys; its height `d` may drop below zero,
      in which case the scan restarts at the beginning.  Something changes iff there is such an equality. */
  method SplitTrivialEqualities(a0: seq<Diff>) returns (a: seq<Diff>, changed: bool)
    ensures Same(a, a0)
    ensures !changed ==> a == a0
    ensures changed <==> HasTrivial(a0, |a0|)
    ensures changed ==> Equalities(a) < Equalities(a0)
  {
    hide Same, Equalities, ScanAt, HasTrivial, Max;
    a, changed := a0, false;
    SameIsTransitive(a, a, a);
    var stack: map<int, int>, d := map[], 0;
    var last := NoText;
    var f, ins1, del1, ins2, del2 := 0, 0, 0, 0, 0;
    ghost var low := 0;
    ghost var s, t := 0, -1;
    ScanStarts(a);
    while f < |a|
      invariant 0 <= f <= |a| && Same(a, a0) && (!changed ==> a == a0)
      invariant low <= 0 && low <= d && forall k :: low <= k < d ==> k in stack
      invariant forall k :: k in stack ==> 0 <= stack[k] < |a|
      invariant last.SomeText? ==> d - 1 in stack && stack[d - 1] < f
                                   && a[stack[d - 1]] == Diff(Equal, last.text)
      invariant if changed then HasTrivial(a0, |a0|) && Equalities(a) < Equalities(a0)
                else ScanAt(a, f, s, t, last, ins1, del1, ins2, del2)
      decreases Equalities(a), |a| - f
    {
      if a[f].op == Equal {
        if !changed {
          ScanEquality(a, f, s, t, last, ins1, del1, ins2, del2);
          s, t := t + 1, f;
        }
        stack := stack[d := f];
        d := d + 1;
        ins1, del1 := ins2, del2;
        ins2, del2 := 0, 0;
        last := SomeText(a[f].text);
      } else {
        if !changed {
          ScanEdit(a, f, s, t, last, ins1, del1, ins2, del2);
        }
        if a[f].op == Insert {
          ins2 := ins2 + |a[f].text|;
        } else {
          del2 := del2 + |a[f].text|;
        }
        if last.SomeText? && last.text != [] && |last.text| <= Max(ins1, del1)
           && |last.text| <= Max(ins2, del2) {
          ghost var before := a;
          a := SplitEquality(a, stack[d - 1]);
          SameIsTransitive(a, before, a0);
          d := d - 2;
          if d < low {
            low := d;
          }
          f := if 0 < d then stack[d - 1] else -1;
          ins1, del1, ins2, del2 := 0, 0, 0, 0;
          last := NoText;
          changed := true;
        }
      }
      f := f + 1;
    }
    if !changed {
      ScanFinds(a, s, t, last, ins1, del1, ins2, del2);
    }
  }

  lemma ScanFinds(a: seq<Diff>, s: int, t: int, last: MaybeText, ins1: int, del1: int, ins2: int, del2: int)
    requires ScanAt(a, |a|, s, t, last, ins1, del1, ins2, del2)
    ensures !HasTrivial(a, |a|)
  {
  }

  // ----- overlaps between a deletion and an insertion -----

  /** An overlap of the deletion's end with the insertion's start becomes an equality. */
  lemma OverlapSplit(pre: seq<Diff>, del: Str, ins: Str, post: seq<Diff>, k: nat)
    requires Overlaps(del, ins, k)
    ensures Same(pre + [Diff(Delete, del[..|del| - k]), Diff(Equal, ins[..k]), Diff(Insert, ins[k..])] + post,
                 pre + [Diff(Delete, del), Diff(Insert, ins)] + post)
  {
    hide Side;
    var old0 := [Diff(Delete, del), Diff(Insert, ins)];
    SideOfTwo(old0[0], old0[1], Insert);
    SideOfTwo(old0[0], old0[1], Delete);
    var d', q, i' := Diff(Delete, del[..|del| - k]), Diff(Equal, ins[..k]), Diff(Insert, ins[k..]);
    SideOfThree(d', q, i', Insert);
    SideOfThree(d', q, i', Delete);
    OverlapCut(del, ins, k);
    Exchange(pre, old0, [d', q, i'], post);
  }

  lemma OverlapCut(x: Str, y: Str, k: nat)
    requires Overlaps(x, y, k)
    ensures x == x[..|x| - k] + y[..k] + [] && y == [] + y[..k] + y[k..]
    ensures x + [] == x && [] + y == y
  {
  }

  /** An overlap of the insertion's end with the deletion's start does too, with the edits swapped. */
  lemma ReverseOverlapSplit(pre: seq<Diff>, del: Str, ins: Str, post: seq<Diff>, k: nat)
    requires Overlaps(ins, del, k)
    ensures Same(pre + [Diff(Insert, ins[..|ins| - k]), Diff(Equal, del[..k]), Diff(Delete, del[k..])] + post,
                 pre + [Diff(Delete, del), Diff(Insert, ins)] + post)
  {
    hide Side;
    var old0 := [Diff(Delete, del), Diff(Insert, ins)];
    SideOfTwo(old0[0], old0[1], Insert);
    SideOfTwo(old0[0], old0[1], Delete);
    var i', q, d' := Diff(Insert, ins[..|ins| - k]), Diff(Equal, del[..k]), Diff(Delete, del[k..]);
    SideOfThree(i', q, d', Insert);
    SideOfThree(i', q, d', Delete);
    OverlapCut(ins, del, k);
    Exchange(pre, old0, [i', q, d'], post);
  }

  /** Neither text shares half of itself, at its end or its start, with the other. */
  ghost predicate FewShared(del: Str, ins: Str) {
    forall k :: Overlaps(del, ins, k) || Overlaps(ins, del, k) ==> 2 * k < |del| && 2 * k < |ins|
  }

  /** The pair at `i`, if it is a deletion and an insertion, shares little. */
  ghost predicate PairDone(a: seq<Diff>, i: int)
    requires 0 < i < |a|
  {
    a[i - 1].op == Delete && a[i].op == Insert ==> FewShared(a[i - 1].text, a[i].text)
  }

  /** All pairs before `f` share little, and the script from `f - 2` on is still normal. */
  ghost predicate PairsDone(a: seq<Diff>, f: int) {
    && (forall i :: 0 < i < f && i < |a| ==> PairDone(a, i))
    && (forall i :: 0 <= i < |a| - 1 && f - 2 <= i ==> Adjacent(a[i].op, a[i + 1].op))
  }

  lemma PairsStart(a: seq<Diff>)
    requires Normal(a)
    ensures PairsDone(a, 1)
  {
  }

  lemma NoPair(a: seq<Diff>, f: int)
    requires PairsDone(a, f) && 0 < f < |a| && PairDone(a, f)
    ensures PairsDone(a, f + 1)
    ensures a[f].op == Insert ==> PairsDone(a, f + 2)
  {
    hide FewShared;
  }

  /** A pair that was split is followed by an equality. */
  lemma PairSplit(a: seq<Diff>, r: seq<Diff>, f: int, x: Diff, y: Diff, z: Diff)
    requires PairsDone(a, f) && 0 < f < |a| && a[f - 1].op == Delete && a[f].op == Insert
    requires r == a[..f - 1] + [x, y, z] + a[f + 1..] && y.op == Equal
    requires (x.op == Delete && z.op == Insert) || (x.op == Insert && z.op == Delete)
    ensures PairsDone(r, f + 3)
  {
    hide FewShared;
    assert f > 1 ==> Adjacent(a[f - 2].op, a[f - 2 + 1].op);
    assert f + 1 < |a| ==> Adjacent(a[f].op, a[f + 1].op);
    forall i | 0 < i < f + 3 && i < |r|
      ensures PairDone(r, i)
    {
      if i < f - 1 {
        assert PairDone(a, i);
      }
    }
    forall i | 0 <= i < |r| - 1 && f + 1 <= i
      ensures Adjacent(r[i].op, r[i + 1].op)
    {
      if i > f + 1 {
        assert Adjacent(a[i - 1].op, a[i - 1 + 1].op);
      }
    }
  }

  /** Turns a deletion and an insertion with a large overlap into three parts.  A normal script has no
      such pair afterwards. */
  method SplitOverlaps(a0: seq<Diff>) returns (a: seq<Diff>)
    ensures Same(a, a0)
    ensures Normal(a0) ==> forall i :: 0 < i < |a| ==> PairDone(a, i)
  {
    hide Same, FewShared, PairsDone, Normal;
    a := a0;
    SameIsTransitive(a, a, a);
    if Normal(a0) {
      PairsStart(a0);
    }
    var f := 1;
    while f < |a|
      invariant f >= 1 && Same(a, a0) && (Normal(a0) ==> PairsDone(a, f))
      decreases |a| - f
    {
      if a[f - 1].op == Delete && a[f].op == Insert {
        ghost var before := a;
        var deletion, insertion := a[f - 1].text, a[f].text;
        ghost var pre, post := a[..f - 1], a[f + 1..];
        assert a == pre + [Diff(Delete, deletion), Diff(Insert, insertion)] + post;
        var d := CommonOverlap(deletion, insertion);
        var e := CommonOverlap(insertion, deletion);
        OverlapSplit(pre, deletion, insertion, post, d);
        ReverseOverlapSplit(pre, deletion, insertion, post, e);
        LongestOverlaps(deletion, insertion, d, e);
        if Normal(a0) && FewShared(deletion, insertion) {
          NoPair(a, f);
        }
        if d >= e {
          if 2 * d >= |deletion| || 2 * d >= |insertion| {
            a := a[..f] + [Diff(Equal, insertion[..d])] + a[f..];
            a := a[f - 1 := Diff(Delete, deletion[..|deletion| - d])];
            a := a[f + 1 := Diff(Insert, insertion[d..])];
            assert a == pre + [Diff(Delete, deletion[..|deletion| - d]), Diff(Equal, insertion[..d]),
                               Diff(Insert, insertion[d..])] + post;
            if Normal(a0) {
              PairSplit(before, a, f, a[f - 1], a[f], a[f + 1]);
            }
            f := f + 1;
          }
        } else if 2 * e >= |deletion| || 2 * e >= |insertion| {
          a := a[..f] + [Diff(Equal, deletion[..e])] + a[f..];
          a := a[f - 1 := Diff(Insert, insertion[..|insertion| - e])];
          a := a[f + 1 := Diff(Delete, deletion[e..])];
          assert a == pre + [Diff(Insert, insertion[..|insertion| - e]), Diff(Equal, deletion[..e]),
                             Diff(Delete, deletion[e..])] + post;
          if Normal(a0) {
            PairSplit(before, a, f, a[f - 1], a[f], a[f + 1]);
          }
          f := f + 1;
        }
        SameIsTransitive(a, before, a0);
        f := f + 1;
      } else if Normal(a0) {
        NoPair(a, f);
      }
      f := f + 1;
    }
    if Normal(a0) {
      AllPairsDone(a, f);
    }
  }

  lemma AllPairsDone(a: seq<Diff>, f: int)
    requires PairsDone(a, f) && f >= |a|
    ensures forall i :: 0 < i < |a| ==> PairDone(a, i)
  {
    hide FewShared;
  }

  lemma LongestOverlaps(del: Str, ins: Str, d: nat, e: nat)
    requires Overlaps(del, ins, d) && forall k :: k > d ==> !Overlaps(del, ins, k)
    requires Overlaps(ins, del, e) && forall k :: k > e ==> !Overlaps(ins, del, k)
    ensures var m := if d >= e then d else e;
            FewShared(del, ins) <==> 2 * m < |del| && 2 * m < |ins|
  {
    hide Overlaps;
  }

  method CleanupSemantic(a0: seq<Diff>, score: (Str, Str) -> int) returns (a: seq<Diff>)
    requires Slidable(a0)
    ensures Same(a, a0)
  {
    var changed;
    a, changed := SplitTrivialEqualities(a0);
    if changed {
      a := CleanupMerge(a);
      TightIsSlidable(a);
    }
    a := CleanupSemanticLossless(a, score);
    a := SplitOverlaps(a);
  }
}
