/** `diff_cleanupMerge`: joins neighbouring parts of the same kind, factors out what deletions and
    insertions share, and slides single edits over to an equality they can absorb. */
module DiffMerge {
  import opened DiffText
  import opened DiffSearch

  /** Which kinds may stand next to each other in a merged script. */
  predicate Adjacent(x: Op, y: Op) {
    (x == Equal) != (y == Equal) || (x == Delete && y == Insert)
  }

  /** No adjacent equalities; an edit run is at most one deletion, then at most one insertion. */
  predicate Normal(a: seq<Diff>) {
    forall i :: 0 <= i < |a| - 1 ==> Adjacent(a[i].op, a[i + 1].op)
  }

  predicate EndsWith(s: Str, t: Str) {
    |t| <= |s| && s[|s| - |t|..] == t
  }

  predicate StartsWith(s: Str, t: Str) {
    |t| <= |s| && s[..|t|] == t
  }

  /** No single edit between two equalities can be slid over one of them. */
  predicate Tight(a: seq<Diff>) {
    forall i :: 0 < i < |a| - 1 ==> TightAt(a, i)
  }

  predicate TightAt(a: seq<Diff>, i: int)
    requires 0 < i < |a| - 1
  {
    a[i - 1].op == Equal && a[i + 1].op == Equal ==>
      !EndsWith(a[i].text, a[i - 1].text) && !StartsWith(a[i].text, a[i + 1].text)
  }

  /** The scan stands at `b` behind a run of `c` deletions and `d` insertions with texts `e` and
      `f`; everything before the run is merged. */
  predicate InRun(a: seq<Diff>, b: int, c: nat, d: nat, e: Str, f: Str) {
    && c + d <= b <= |a|
    && Normal(a[..b - c - d])
    && (b - c - d == 0 || a[b - c - d - 1].op == Equal)
    && (forall i :: b - c - d <= i < b ==> a[i].op != Equal)
    && Side(a[b - c - d..b], Insert) == e && Side(a[b - c - d..b], Delete) == f
    && EditLength(a[b - c - d..b]) == |e| + |f|
    && (c == 0 ==> e == []) && (d == 0 ==> f == [])
  }

  lemma EnterRun(a: seq<Diff>, b: int, c: nat, d: nat, e: Str, f: Str)
    requires InRun(a, b, c, d, e, f) && b < |a| && a[b].op != Equal
    ensures a[b].op == Insert ==> InRun(a, b + 1, c, d + 1, e, f + a[b].text)
    ensures a[b].op == Delete ==> InRun(a, b + 1, c + 1, d, e + a[b].text, f)
  {
    hide Normal, Side, EditLength;
    var s := b - c - d;
    LongerRun(a[s..b], a[b]);
    assert a[s..b + 1] == a[s..b] + [a[b]];
  }

  lemma LongerRun(run: seq<Diff>, x: Diff)
    requires x.op != Equal
    ensures Side(run + [x], Insert) == if x.op == Insert then Side(run, Insert) else Side(run, Insert) + x.text
    ensures Side(run + [x], Delete) == if x.op == Delete then Side(run, Delete) else Side(run, Delete) + x.text
    ensures EditLength(run + [x]) == EditLength(run) + |x.text|
  {
    hide Side, EditLength;
    SideConcat(run, [x], Insert);
    SideConcat(run, [x], Delete);
    EditLengthConcat(run, [x]);
    SideOfOne(x, Insert);
    SideOfOne(x, Delete);
    assert Side(run, Insert) + [] == Side(run, Insert) && Side(run, Delete) + [] == Side(run, Delete);
  }

  lemma EmptyRun(a: seq<Diff>, b: nat)
    requires b <= |a| && Normal(a[..b]) && (b == 0 || a[b - 1].op == Equal)
    ensures InRun(a, b, 0, 0, [], [])
  {
    assert a[b..b] == [];
  }

  /** A prefix `p` of both edits moves into the equality before the run, a suffix `q` into the one
      behind it. */
  lemma FactoredRun(pre: seq<Diff>, run: seq<Diff>, eq: Diff, post: seq<Diff>,
                    pre': seq<Diff>, edits: seq<Diff>, p: Str, q: Str, e: Str, f: Str)
    requires eq.op == Equal
    requires Side(run, Insert) == p + e + q && Side(run, Delete) == p + f + q
    requires Side(pre', Insert) == Side(pre, Insert) + p && Side(pre', Delete) == Side(pre, Delete) + p
    requires Side(edits, Insert) == e && Side(edits, Delete) == f
    ensures var eq' := Diff(Equal, q + eq.text);
            Same(pre' + edits + [eq'] + post, pre + run + [eq] + post)
  {
    FactoredSide(pre, run, eq, post, pre', edits, p, q, e, Insert);
    FactoredSide(pre, run, eq, post, pre', edits, p, q, f, Delete);
  }

  lemma FactoredSide(pre: seq<Diff>, run: seq<Diff>, eq: Diff, post: seq<Diff>,
                     pre': seq<Diff>, edits: seq<Diff>, p: Str, q: Str, x: Str, skip: Op)
    requires eq.op == Equal != skip
    requires Side(run, skip) == p + x + q && Side(edits, skip) == x
    requires Side(pre', skip) == Side(pre, skip) + p
    ensures var eq' := Diff(Equal, q + eq.text);
            Side(pre' + edits + [eq'] + post, skip) == Side(pre + run + [eq] + post, skip)
  {
    hide Side;
    var eq' := Diff(Equal, q + eq.text);
    SideConcat(pre' + edits + [eq'], post, skip);
    SideConcat(pre' + edits, [eq'], skip);
    SideConcat(pre', edits, skip);
    SideConcat(pre + run + [eq], post, skip);
    SideConcat(pre + run, [eq], skip);
    SideConcat(pre, run, skip);
    SideOfOne(eq, skip);
    SideOfOne(eq', skip);
    Regroup(Side(pre, skip), p, x, q, eq.text);
  }

  lemma Regroup(s: Str, p: Str, x: Str, q: Str, t: Str)
    ensures (s + p) + x + (q + t) == s + (p + x + q) + t
  {
  }

  /** The equality before a run, extended by `p`; a new first part if there is none. */
  function Prepend(pre: seq<Diff>, p: Str): seq<Diff> {
    if p == [] then pre
    else if pre == [] then [Diff(Equal, p)]
    else pre[..|pre| - 1] + [Diff(Equal, pre[|pre| - 1].text + p)]
  }

  lemma PrependSides(pre: seq<Diff>, p: Str, skip: Op)
    requires skip != Equal && (pre == [] || pre[|pre| - 1].op == Equal)
    ensures Side(Prepend(pre, p), skip) == Side(pre, skip) + p
    ensures EditLength(Prepend(pre, p)) == EditLength(pre)
  {
    hide Side, EditLength;
    if p == [] {
    } else if pre == [] {
      SideOfOne(Diff(Equal, p), skip);
      SideOfNone(skip);
    } else {
      var body, last := pre[..|pre| - 1], pre[|pre| - 1];
      var new0 := Diff(Equal, last.text + p);
      assert pre == body + [last];
      SideConcat(body, [last], skip);
      SideConcat(body, [new0], skip);
      EditLengthConcat(body, [last]);
      EditLengthConcat(body, [new0]);
      SideOfOne(last, skip);
      SideOfOne(new0, skip);
      ConcatThree(Side(body, skip), last.text, p);
    }
  }

  lemma SideOfNone(skip: Op)
    ensures Side([], skip) == [] && EditLength([]) == 0
  {
  }

  lemma PrependNormal(pre: seq<Diff>, p: Str)
    requires Normal(pre) && (pre == [] || pre[|pre| - 1].op == Equal)
    ensures var r := Prepend(pre, p); Normal(r) && (r == [] || r[|r| - 1].op == Equal)
  {
    var r := Prepend(pre, p);
    if pre != [] {
      assert |r| == |pre| && forall i :: 0 <= i < |pre| ==> r[i].op == pre[i].op;
    }
  }

  /** The one or two parts a run is replaced by. */
  function Edits(c: nat, d: nat, e: Str, f: Str): seq<Diff> {
    if c == 0 then [Diff(Insert, f)]
    else if d == 0 then [Diff(Delete, e)]
    else [Diff(Delete, e), Diff(Insert, f)]
  }

  lemma EditsSides(c: nat, d: nat, e: Str, f: Str)
    requires (c == 0 ==> e == []) && (d == 0 ==> f == [])
    ensures Side(Edits(c, d, e, f), Insert) == e && Side(Edits(c, d, e, f), Delete) == f
    ensures EditLength(Edits(c, d, e, f)) == |e| + |f|
  {
    SideOfOne(Diff(Insert, f), Insert);
    SideOfOne(Diff(Insert, f), Delete);
    SideOfOne(Diff(Delete, e), Insert);
    SideOfOne(Diff(Delete, e), Delete);
    SideOfTwo(Diff(Delete, e), Diff(Insert, f), Insert);
    SideOfTwo(Diff(Delete, e), Diff(Insert, f), Delete);
  }

  lemma NormalAround(pre: seq<Diff>, c: nat, d: nat, e: Str, f: Str, eq: Diff)
    requires Normal(pre) && (pre == [] || pre[|pre| - 1].op == Equal) && eq.op == Equal
    ensures Normal(pre + Edits(c, d, e, f) + [eq])
  {
  }

  /** Move the common prefix of the two edits of a run into the equality before it. */
  method FactorPrefix(a0: seq<Diff>, b0: nat, s0: nat, e0: Str, f0: Str)
    returns (a: seq<Diff>, b: nat, e: Str, f: Str, ghost p: Str)
    requires s0 <= b0 < |a0| && (s0 == 0 || a0[s0 - 1].op == Equal)
    ensures e0 == p + e && f0 == p + f
    ensures a == Prepend(a0[..s0], p) + a0[s0..] && b == |Prepend(a0[..s0], p)| + b0 - s0
  {
    a, b, e, f := a0, b0, e0, f0;
    var g := CommonPrefix(f, e);
    p := f[..g];
    if g != 0 {
      if 0 < s0 && a[s0 - 1].op == Equal {
        a := a[s0 - 1 := Diff(Equal, a[s0 - 1].text + f[..g])];
      } else {
        a := [Diff(Equal, f[..g])] + a;
        b := b + 1;
      }
      f := f[g..];
      e := e[g..];
    } else {
      assert a0 == a0[..s0] + a0[s0..];
    }
  }

  /** Move the common suffix of the two edits of a run into the equality behind it. */
  method FactorSuffix(a0: seq<Diff>, b: nat, e0: Str, f0: Str)
    returns (a: seq<Diff>, e: Str, f: Str, ghost q: Str)
    requires b < |a0| && a0[b].op == Equal
    ensures e0 == e + q && f0 == f + q && a == a0[b := Diff(Equal, q + a0[b].text)]
  {
    a, e, f := a0, e0, f0;
    var g := CommonSuffix(f, e);
    q := f[|f| - g..];
    if g != 0 {
      a := a[b := Diff(Equal, f[|f| - g..] + a[b].text)];
      f := f[..|f| - g];
      e := e[..|e| - g];
    } else {
      assert q + a0[b].text == a0[b].text;
    }
  }

  /** Put the merged edits in place of a run and step past the equality behind it. */
  method ReplaceRun(a0: seq<Diff>, b0: nat, c: nat, d: nat, e: Str, f: Str)
    returns (a: seq<Diff>, b: nat)
    requires c + d <= b0 < |a0| && c + d > 0
    ensures a == a0[..b0 - c - d] + Edits(c, d, e, f) + a0[b0..]
    ensures b == b0 - c - d + |Edits(c, d, e, f)| + 1
  {
    if c == 0 {
      a := a0[..b0 - d] + [Diff(Insert, f)] + a0[b0..];
    } else if d == 0 {
      a := a0[..b0 - c] + [Diff(Delete, e)] + a0[b0..];
    } else {
      a := a0[..b0 - c - d] + [Diff(Delete, e), Diff(Insert, f)] + a0[b0..];
    }
    b := b0 - c - d + (if c > 0 then 1 else 0) + (if d > 0 then 1 else 0) + 1;
  }

  /** What the deletions and the insertions of a run share goes to the equalities around it. */
  method FactorRun(a0: seq<Diff>, b0: nat, c: nat, d: nat, e0: Str, f0: Str)
    returns (a: seq<Diff>, b: nat, e: Str, f: Str, ghost p: Str, ghost q: Str)
    requires c + d <= b0 < |a0| && a0[b0].op == Equal && (c + d == b0 || a0[b0 - c - d - 1].op == Equal)
    ensures e0 == p + e + q && f0 == p + f + q && (c == 0 || d == 0 ==> e == e0 && f == f0)
    ensures var s := b0 - c - d;
            var pre' := Prepend(a0[..s], p);
            && a == pre' + a0[s..b0] + [Diff(Equal, q + a0[b0].text)] + a0[b0 + 1..]
            && b == |pre'| + c + d
  {
    hide Prepend;
    a, b, e, f, p, q := a0, b0, e0, f0, [], [];
    ghost var s := b0 - c - d;
    ghost var pre, run, eq, post := a0[..s], a0[s..b0], a0[b0], a0[b0 + 1..];
    PrependNothing(pre);
    NothingAround(e, f, eq.text);
    Cut(a0, s, b0);
    if c != 0 && d != 0 {
      a, b, e, f, p := FactorPrefix(a, b, b - c - d, e, f);
      CutPrepended(Prepend(pre, p), a0, s, b0);
      a, e, f, q := FactorSuffix(a, b, e, f);
      Regroup3(p, e, q);
      Regroup3(p, f, q);
      Swap(Prepend(pre, p), run, eq, Diff(Equal, q + eq.text), post);
    }
  }

  /** Replace a run of at least two edits before the equality at `b`. */
  method MergeRun(a0: seq<Diff>, b0: nat, c: nat, d: nat, e0: Str, f0: Str)
    returns (a: seq<Diff>, b: nat)
    requires InRun(a0, b0, c, d, e0, f0) && b0 < |a0| && a0[b0].op == Equal && c + d > 1
    ensures Same(a, a0) && 0 < b <= |a| && a[b..] == a0[b0 + 1..]
    ensures Normal(a[..b]) && a[b - 1].op == Equal
    ensures EditLength(a) <= EditLength(a0)
    ensures EditLength(a) == EditLength(a0) ==> |a| <= |a0| && a[b - 1].text == a0[b0].text
    ensures KeepsWhat(a, a0)
  {
    hide Side, EditLength, Normal, Prepend, Edits, KeepsWhat;
    ghost var s := b0 - c - d;
    ghost var pre, run, eq, post := a0[..s], a0[s..b0], a0[b0], a0[b0 + 1..];
    var e, f;
    ghost var p, q;
    Cut(a0, s, b0);
    a, b, e, f, p, q := FactorRun(a0, b0, c, d, e0, f0);
    ghost var pre', eq' := Prepend(pre, p), Diff(Equal, q + eq.text);
    a, b := ReplaceRun(a, b, c, d, e, f);
    Swapped(pre', run, Edits(c, d, e, f), eq', post);
    PrependKeeps(pre, p);
    MergedKeeps(pre, run, eq, post, pre', Edits(c, d, e, f), q);
    MergedParts(pre, run, eq, post, c, d, p, q, e, f);
  }

  lemma NothingAround(e: Str, f: Str, t: Str)
    ensures [] + e + [] == e && [] + f + [] == f && [] + t == t
  {
  }

  lemma Regroup3(p: Str, e: Str, q: Str)
    ensures p + (e + q) == p + e + q
  {
  }

  lemma Cut(a: seq<Diff>, s: nat, b: nat)
    requires s <= b < |a|
    ensures a == a[..s] + a[s..b] + [a[b]] + a[b + 1..]
  {
  }

  lemma CutPrepended(pre: seq<Diff>, a: seq<Diff>, s: nat, b: nat)
    requires s <= b < |a|
    ensures pre + a[s..] == pre + a[s..b] + [a[b]] + a[b + 1..]
    ensures (pre + a[s..])[|pre| + b - s] == a[b]
  {
  }

  lemma Swap(pre: seq<Diff>, run: seq<Diff>, eq: Diff, eq': Diff, post: seq<Diff>)
    ensures (pre + run + [eq] + post)[|pre| + |run| := eq'] == pre + run + [eq'] + post
  {
  }

  lemma Swapped(pre: seq<Diff>, run: seq<Diff>, edits: seq<Diff>, eq: Diff, post: seq<Diff>)
    ensures var a := pre + run + [eq] + post;
            var r := a[..|pre|] + edits + a[|pre| + |run|..];
            var b := |pre| + |edits| + 1;
            r == pre + edits + [eq] + post && r[..b] == pre + edits + [eq] && r[b..] == post && r[b - 1] == eq
  {
    var a := pre + run + [eq] + post;
    assert a[..|pre|] == pre && a[|pre| + |run|..] == [eq] + post;
    var r := a[..|pre|] + edits + a[|pre| + |run|..];
    assert r == pre + edits + [eq] + post;
  }

  lemma PrependNothing(pre: seq<Diff>)
    ensures Prepend(pre, []) == pre
  {
  }

  lemma MergedParts(pre: seq<Diff>, run: seq<Diff>, eq: Diff, post: seq<Diff>,
                    c: nat, d: nat, p: Str, q: Str, e: Str, f: Str)
    requires eq.op == Equal && Normal(pre) && (pre == [] || pre[|pre| - 1].op == Equal)
    requires Side(run, Insert) == p + e + q && Side(run, Delete) == p + f + q
    requires EditLength(run) == |p + e + q| + |p + f + q| && |run| > 1
    requires (c == 0 ==> e == []) && (d == 0 ==> f == [])
    ensures var edits, eq' := Edits(c, d, e, f), Diff(Equal, q + eq.text);
            var r, a0 := Prepend(pre, p) + edits + [eq'] + post, pre + run + [eq] + post;
            && Same(r, a0) && Normal(Prepend(pre, p) + edits + [eq'])
            && EditLength(r) <= EditLength(a0)
            && (EditLength(r) == EditLength(a0) ==> |r| <= |a0| && eq'.text == eq.text)
  {
    var pre', edits, eq' := Prepend(pre, p), Edits(c, d, e, f), Diff(Equal, q + eq.text);
    PrependSides(pre, p, Insert);
    PrependSides(pre, p, Delete);
    PrependNormal(pre, p);
    EditsSides(c, d, e, f);
    FactoredRun(pre, run, eq, post, pre', edits, p, q, e, f);
    NormalAround(pre', c, d, e, f, eq');
    Sides3(pre' + edits, [eq'], post);
    EditLengthConcat(pre', edits);
    Sides3(pre + run, [eq], post);
    EditLengthConcat(pre, run);
    SideOfOne(eq, Insert);
    SideOfOne(eq', Insert);
    if EditLength(pre' + edits + [eq'] + post) == EditLength(pre + run + [eq] + post) {
      assert p == [] && q == [];
    }
  }

  // ----- what is kept stays kept -----

  /** The script keeps `m`: it is part of one of its equalities. */
  ghost predicate Keeps(a: seq<Diff>, m: Str) {
    m == [] || exists i :: 0 <= i < |a| && a[i].op == Equal && Piece(m, a[i].text)
  }

  /** Script `r` keeps what script `a` keeps. */
  ghost predicate KeepsWhat(r: seq<Diff>, a: seq<Diff>) {
    forall m :: Keeps(a, m) ==> Keeps(r, m)
  }

  lemma KeepsConcat(a: seq<Diff>, b: seq<Diff>, m: Str)
    ensures Keeps(a + b, m) <==> Keeps(a, m) || Keeps(b, m)
  {
    hide Piece;
    var s := a + b;
    if m != [] && Keeps(b, m) {
      var i :| 0 <= i < |b| && b[i].op == Equal && Piece(m, b[i].text);
      assert s[|a| + i] == b[i];
    }
    if m != [] && Keeps(a, m) {
      var i :| 0 <= i < |a| && a[i].op == Equal && Piece(m, a[i].text);
      assert s[i] == a[i];
    }
  }

  lemma KeepsAround(pre: seq<Diff>, old0: seq<Diff>, new0: seq<Diff>, post: seq<Diff>)
    requires KeepsWhat(new0, old0)
    ensures KeepsWhat(pre + new0 + post, pre + old0 + post)
  {
    hide Keeps;
    forall m | Keeps(pre + old0 + post, m)
      ensures Keeps(pre + new0 + post, m)
    {
      KeepsConcat(pre + old0, post, m);
      KeepsConcat(pre, old0, m);
      KeepsConcat(pre + new0, post, m);
      KeepsConcat(pre, new0, m);
    }
  }

  lemma KeepsOfOne(d: Diff, m: Str)
    ensures Keeps([d], m) <==> m == [] || (d.op == Equal && Piece(m, d.text))
  {
    hide Piece;
    if d.op == Equal && Piece(m, d.text) {
      assert [d][0] == d;
    }
  }

  /** An equality may grow at either end. */
  lemma GrownKeeps(x: Diff, p: Str, q: Str)
    requires x.op == Equal
    ensures KeepsWhat([Diff(Equal, p + x.text + q)], [x])
    ensures KeepsWhat([Diff(Equal, p + x.text)], [x]) && KeepsWhat([Diff(Equal, x.text + q)], [x])
  {
    hide Piece, Keeps;
    PartsArePieces(p, x.text);
    PartsArePieces(x.text, q);
    PartsArePieces(p + x.text, q);
    PieceOfPiece(x.text, p + x.text, p + x.text + q);
    forall m | Keeps([x], m)
      ensures Keeps([Diff(Equal, p + x.text + q)], m)
      ensures Keeps([Diff(Equal, p + x.text)], m)
      ensures Keeps([Diff(Equal, x.text + q)], m)
    {
      KeepsOfOne(x, m);
      KeepsOfOne(Diff(Equal, p + x.text + q), m);
      KeepsOfOne(Diff(Equal, p + x.text), m);
      KeepsOfOne(Diff(Equal, x.text + q), m);
      if m != [] {
        PieceOfPiece(m, x.text, p + x.text + q);
        PieceOfPiece(m, x.text, p + x.text);
        PieceOfPiece(m, x.text, x.text + q);
      }
    }
  }

  /** Two equalities that become one, whatever stood between them. */
  lemma JoinedKeeps(x: Diff, y: Diff)
    requires x.op == Equal && y.op == Equal
    ensures KeepsWhat([Diff(Equal, x.text + y.text)], [x, y])
  {
    hide Piece, Keeps;
    GrownKeeps(x, [], y.text);
    GrownKeeps(y, x.text, []);
    forall m | Keeps([x, y], m)
      ensures Keeps([Diff(Equal, x.text + y.text)], m)
    {
      assert [x, y] == [x] + [y];
      KeepsConcat([x], [y], m);
    }
  }

  lemma EditsKeepNothing(run: seq<Diff>, m: Str)
    requires forall i :: 0 <= i < |run| ==> run[i].op != Equal
    ensures Keeps(run, m) ==> m == []
  {
  }

  lemma MoreIsKept(a: seq<Diff>, r: seq<Diff>, m: Str)
    requires Keeps(a, m) && exists i, j :: 0 <= i <= j <= |r| && r[i..j] == a
    ensures Keeps(r, m)
  {
    hide Keeps;
    var i, j :| 0 <= i <= j <= |r| && r[i..j] == a;
    assert r == r[..i] + a + r[j..];
    KeepsConcat(r[..i] + a, r[j..], m);
    KeepsConcat(r[..i], a, m);
  }

  lemma PrependKeeps(pre: seq<Diff>, p: Str)
    requires pre == [] || pre[|pre| - 1].op == Equal
    ensures KeepsWhat(Prepend(pre, p), pre)
  {
    hide Piece, Keeps;
    if pre == [] {
      forall m | Keeps(pre, m)
        ensures Keeps(Prepend(pre, p), m)
      {
        NothingKept(m);
        KeepsNothing(Prepend(pre, p));
      }
    } else if p != [] {
      var body, last := pre[..|pre| - 1], pre[|pre| - 1];
      assert pre == body + [last] + [];
      GrownKeeps(last, [], p);
      KeepsAround(body, [last], [Diff(Equal, last.text + p)], []);
      assert Prepend(pre, p) == body + [Diff(Equal, last.text + p)] + [];
    }
  }

  lemma NothingKept(m: Str)
    ensures Keeps([], m) ==> m == []
  {
  }

  lemma KeepsNothing(a: seq<Diff>)
    ensures Keeps(a, [])
  {
  }

  /** A merged run keeps what was kept around it. */
  lemma MergedKeeps(pre: seq<Diff>, run: seq<Diff>, eq: Diff, post: seq<Diff>, pre': seq<Diff>, edits: seq<Diff>,
                    q: Str)
    requires eq.op == Equal && KeepsWhat(pre', pre) && forall i :: 0 <= i < |run| ==> run[i].op != Equal
    ensures KeepsWhat(pre' + edits + [Diff(Equal, q + eq.text)] + post, pre + run + [eq] + post)
  {
    hide Piece, Keeps;
    var eq' := Diff(Equal, q + eq.text);
    GrownKeeps(eq, q, []);
    forall m | Keeps(pre + run + [eq] + post, m)
      ensures Keeps(pre' + edits + [eq'] + post, m)
    {
      KeepsConcat(pre + run + [eq], post, m);
      KeepsConcat(pre + run, [eq], m);
      KeepsConcat(pre, run, m);
      EditsKeepNothing(run, m);
      KeepsConcat(pre' + edits + [eq'], post, m);
      KeepsConcat(pre' + edits, [eq'], m);
      KeepsConcat(pre', edits, m);
      KeepsNothing(pre' + edits + [eq'] + post);
    }
  }

  lemma SentinelKept(a: seq<Diff>)
    ensures KeepsWhat(a + [Diff(Equal, [])], a) && KeepsWhat(a, a + [Diff(Equal, [])])
  {
    hide Piece, Keeps;
    var e := Diff(Equal, []);
    forall m
      ensures Keeps(a + [e], m) <==> Keeps(a, m)
    {
      KeepsConcat(a, [e], m);
      KeepsOfOne(e, m);
      PieceOfNothing(m);
      KeepsNothing(a);
    }
  }

  lemma PieceOfNothing(m: Str)
    ensures Piece(m, []) ==> m == []
  {
  }

  lemma KeepsTransitive(a: seq<Diff>, b: seq<Diff>, c: seq<Diff>)
    ensures KeepsWhat(a, b) && KeepsWhat(b, c) ==> KeepsWhat(a, c)
    ensures KeepsWhat(a, a)
  {
    hide Keeps;
  }

  /** The first pass. */
  method MergePass(a0: seq<Diff>) returns (a: seq<Diff>)
    ensures Same(a, a0) && Normal(a)
    ensures EditLength(a) < EditLength(a0) || (EditLength(a) == EditLength(a0) && |a| <= |a0|)
    ensures KeepsWhat(a, a0)
  {
    hide Normal, Side, EditLength, InRun, KeepsWhat;
    a := a0 + [Diff(Equal, [])];
    SentinelKeeps(a0);
    SentinelKept(a0);
    var b, c, d := 0, 0, 0;
    var e: Str, f: Str := [], [];
    NothingIsNormal(a);
    EmptyRun(a, 0);
    while b < |a|
      invariant b <= |a| && InRun(a, b, c, d, e, f)
      invariant Same(a, a0) && EditLength(a) <= EditLength(a0) && KeepsWhat(a, a0)
      invariant |a| > 0 && a[|a| - 1].op == Equal
      invariant b == |a| ==> c + d == 0 && Normal(a)
      invariant EditLength(a) == EditLength(a0) ==>
                  |a| <= |a0| + 1 && (|a| == |a0| + 1 ==> a[|a| - 1].text == [])
      decreases |a| - b
    {
      if a[b].op == Insert {
        EnterRun(a, b, c, d, e, f);
        d := d + 1;
        f := f + a[b].text;
        b := b + 1;
      } else if a[b].op == Delete {
        EnterRun(a, b, c, d, e, f);
        c := c + 1;
        e := e + a[b].text;
        b := b + 1;
      } else {
        ghost var last, was := a[|a| - 1], a;
        RunIsInside(a, b, c, d, e, f);
        if 1 < c + d {
          ghost var before, at := a, b;
          a, b := MergeRun(a, b, c, d, e, f);
          assert at + 1 < |before| ==> a[|a| - 1] == before[|before| - 1];
          assert |a| - b == |before| - at - 1;
        } else if b != 0 && a[b - 1].op == Equal {
          JoinEqualities(a, b);
          EqualitiesKept(a, b);
          a := a[..b - 1] + [Diff(Equal, a[b - 1].text + a[b].text)] + a[b + 1..];
        } else {
          ShortRunIsNormal(a, b, c, d, e, f);
          b := b + 1;
        }
        assert a[..|a|] == a;
        KeepsTransitive(a, was, a0);
        EmptyRun(a, b);
        c, d := 0, 0;
        e, f := [], [];
      }
    }
    if a[|a| - 1].text == [] {
      DropEmptyLast(a);
      ghost var was := a;
      SentinelKept(a[..|a| - 1]);
      assert a == a[..|a| - 1] + [Diff(Equal, [])];
      a := a[..|a| - 1];
      KeepsTransitive(a, was, a0);
    }
  }

  lemma NothingIsNormal(a: seq<Diff>)
    ensures Normal(a[..0])
  {
  }

  lemma SentinelKeeps(a: seq<Diff>)
    ensures Same(a + [Diff(Equal, [])], a) && EditLength(a + [Diff(Equal, [])]) == EditLength(a)
  {
    var e := Diff(Equal, []);
    SideConcat(a, [e], Insert);
    SideConcat(a, [e], Delete);
    EditLengthConcat(a, [e]);
    SideOfOne(e, Insert);
    SideOfOne(e, Delete);
  }

  lemma DropEmptyLast(a: seq<Diff>)
    requires |a| > 0 && a[|a| - 1] == Diff(Equal, []) && Normal(a)
    ensures Same(a[..|a| - 1], a) && EditLength(a[..|a| - 1]) == EditLength(a)
    ensures Normal(a[..|a| - 1])
  {
    SentinelKeeps(a[..|a| - 1]);
    assert a == a[..|a| - 1] + [Diff(Equal, [])];
  }

  lemma RunIsInside(a: seq<Diff>, b: nat, c: nat, d: nat, e: Str, f: Str)
    requires InRun(a, b, c, d, e, f)
    ensures c + d <= b <= |a|
    ensures c + d == 0 ==> Normal(a[..b]) && (b == 0 || a[b - 1].op == Equal)
    ensures c + d > 0 ==> b > 0 && a[b - 1].op != Equal
  {
  }

  /** Joining two equalities. */
  lemma JoinEqualities(a: seq<Diff>, b: nat)
    requires 0 < b < |a| && a[b - 1].op == Equal && a[b].op == Equal && Normal(a[..b])
    ensures var r := a[..b - 1] + [Diff(Equal, a[b - 1].text + a[b].text)] + a[b + 1..];
            && Same(r, a) && EditLength(r) == EditLength(a) && |r| == |a| - 1
            && Normal(r[..b]) && r[b - 1].op == Equal
  {
    var pre, x, y, post := a[..b - 1], a[b - 1], a[b], a[b + 1..];
    var j := Diff(Equal, x.text + y.text);
    assert a == pre + [x, y] + post;
    SideOfTwo(x, y, Insert);
    SideOfTwo(x, y, Delete);
    SideOfOne(j, Insert);
    SideOfOne(j, Delete);
    Sides3(pre, [x, y], post);
    Sides3(pre, [j], post);
    var r := pre + [j] + post;
    assert forall i :: 0 <= i < b ==> r[i].op == a[i].op;
    forall i | 0 <= i < b - 1
      ensures Adjacent(r[..b][i].op, r[..b][i + 1].op)
    {
      assert Adjacent(a[..b][i].op, a[..b][i + 1].op);
    }
  }

  lemma EqualitiesKept(a: seq<Diff>, b: nat)
    requires 0 < b < |a| && a[b - 1].op == Equal && a[b].op == Equal
    ensures KeepsWhat(a[..b - 1] + [Diff(Equal, a[b - 1].text + a[b].text)] + a[b + 1..], a)
  {
    hide KeepsWhat;
    assert a == a[..b - 1] + [a[b - 1], a[b]] + a[b + 1..];
    JoinedKeeps(a[b - 1], a[b]);
    KeepsAround(a[..b - 1], [a[b - 1], a[b]], [Diff(Equal, a[b - 1].text + a[b].text)], a[b + 1..]);
  }

  lemma ShortRunIsNormal(a: seq<Diff>, b: nat, c: nat, d: nat, e: Str, f: Str)
    requires InRun(a, b, c, d, e, f) && b < |a| && a[b].op == Equal && c + d <= 1
    requires b == 0 || a[b - 1].op != Equal
    ensures Normal(a[..b + 1])
  {
    var s := b - c - d;
    var r := a[..b + 1];
    forall i | 0 <= i < |r| - 1
      ensures Adjacent(r[i].op, r[i + 1].op)
    {
      if i + 1 < s {
        assert Adjacent(a[..s][i].op, a[..s][i + 1].op);
      }
    }
  }

  /** A single edit between two equalities goes to one side of both. */
  lemma SlidKeeps(x: Diff, e: Diff, y: Diff, r: seq<Diff>, k: nat)
    requires x.op == Equal && y.op == Equal && e.op != Equal
    requires k < |r| && r[k] == Diff(Equal, x.text + y.text)
    ensures KeepsWhat(r, [x, e, y])
  {
    hide Piece, Keeps;
    var j := r[k];
    JoinedKeeps(x, y);
    forall m | Keeps([x, e, y], m)
      ensures Keeps(r, m)
    {
      assert [x, e, y] == [x] + [e] + [y] && [x, y] == [x] + [y];
      KeepsConcat([x] + [e], [y], m);
      KeepsConcat([x], [e], m);
      KeepsConcat([x], [y], m);
      KeepsOfOne(e, m);
      KeepsNothing([j]);
      assert r == r[..k] + [j] + r[k + 1..];
      KeepsConcat(r[..k] + [j], r[k + 1..], m);
      KeepsConcat(r[..k], [j], m);
    }
  }

  /** No two equalities stand next to each other. */
  predicate NoTwins(a: seq<Diff>) {
    forall i :: 0 <= i < |a| - 1 ==> a[i].op != Equal || a[i + 1].op != Equal
  }

  lemma NormalHasNoTwins(a: seq<Diff>)
    requires Normal(a)
    ensures NoTwins(a)
  {
    assert forall i :: 0 <= i < |a| - 1 ==> Adjacent(a[i].op, a[i + 1].op);
  }

  lemma SlidHasNoTwins(pre: seq<Diff>, x: Diff, e: Diff, y: Diff, post: seq<Diff>, j: Diff, e': Diff)
    requires NoTwins(pre + [x, e, y] + post) && x.op == Equal == y.op && e'.op == e.op && j.op == Equal
    ensures e.op != Equal && NoTwins(pre + [e', j] + post) && NoTwins(pre + [j, e'] + post)
  {
    hide NoTwins;
    FewTwins(x, e, y);
    FewTwins(e', j, e');
    TwinsConcat(pre + [x, e, y], post);
    TwinsConcat(pre, [x, e, y]);
    TwinsConcat(pre + [e', j], post);
    TwinsConcat(pre, [e', j]);
    TwinsConcat(pre + [j, e'], post);
    TwinsConcat(pre, [j, e']);
  }

  lemma FewTwins(x: Diff, e: Diff, y: Diff)
    ensures NoTwins([x, e, y]) <==> (x.op != Equal || e.op != Equal) && (e.op != Equal || y.op != Equal)
    ensures NoTwins([x, e]) <==> x.op != Equal || e.op != Equal
    ensures NoTwins([e, y]) <==> e.op != Equal || y.op != Equal
  {
    var s := [x, e, y];
    if NoTwins(s) {
      assert (s[0].op != Equal || s[0 + 1].op != Equal) && (s[1].op != Equal || s[1 + 1].op != Equal);
    }
    var t, u := [x, e], [e, y];
    if NoTwins(t) {
      assert t[0].op != Equal || t[0 + 1].op != Equal;
    }
    if NoTwins(u) {
      assert u[0].op != Equal || u[0 + 1].op != Equal;
    }
  }

  lemma TwinsConcat(a: seq<Diff>, b: seq<Diff>)
    ensures NoTwins(a + b) <==>
              && NoTwins(a) && NoTwins(b)
              && (a != [] && b != [] ==> a[|a| - 1].op != Equal || b[0].op != Equal)
  {
    var s := a + b;
    if NoTwins(s) {
      forall i | 0 <= i < |b| - 1
        ensures b[i].op != Equal || b[i + 1].op != Equal
      {
        assert s[|a| + i].op != Equal || s[|a| + i + 1].op != Equal;
      }
      forall i | 0 <= i < |a| - 1
        ensures a[i].op != Equal || a[i + 1].op != Equal
      {
        assert s[i].op != Equal || s[i + 1].op != Equal;
      }
      if a != [] && b != [] {
        assert s[|a| - 1].op != Equal || s[|a| - 1 + 1].op != Equal;
      }
    }
  }

  /** Sliding an edit over the equality before it. */
  lemma SlideLeft(pre: seq<Diff>, x: Diff, e: Diff, y: Diff, post: seq<Diff>)
    requires x.op == Equal && y.op == Equal && EndsWith(e.text, x.text)
    ensures var e' := Diff(e.op, x.text + e.text[..|e.text| - |x.text|]);
            var y' := Diff(Equal, x.text + y.text);
            var r, a := pre + [e', y'] + post, pre + [x, e, y] + post;
            Same(r, a) && EditLength(r) == EditLength(a)
            && (NoTwins(a) ==> NoTwins(r) && KeepsWhat(r, a))
  {
    hide Side, EditLength, KeepsWhat, NoTwins;
    var body := e.text[..|e.text| - |x.text|];
    var e', y' := Diff(e.op, x.text + body), Diff(Equal, x.text + y.text);
    assert e.text == body + x.text;
    forall skip | skip == Insert || skip == Delete
      ensures Side([e', y'], skip) == Side([x, e, y], skip)
    {
      SideOfTwo(e', y', skip);
      SideOfThree(x, e, y, skip);
      assert x.text + (body + x.text) + y.text == (x.text + body) + (x.text + y.text);
      assert x.text + [] + y.text == [] + (x.text + y.text);
    }
    SideOfTwo(e', y', Insert);
    SideOfThree(x, e, y, Insert);
    Sides3(pre, [e', y'], post);
    Sides3(pre, [x, e, y], post);
    if NoTwins(pre + [x, e, y] + post) {
      SlidHasNoTwins(pre, x, e, y, post, y', e');
      SlidKeeps(x, e, y, [e', y'], 1);
      KeepsAround(pre, [x, e, y], [e', y'], post);
    }
  }

  /** Sliding an edit over the equality behind it. */
  lemma SlideRight(pre: seq<Diff>, x: Diff, e: Diff, y: Diff, post: seq<Diff>)
    requires x.op == Equal && y.op == Equal && StartsWith(e.text, y.text)
    ensures var x' := Diff(Equal, x.text + y.text);
            var e' := Diff(e.op, e.text[|y.text|..] + y.text);
            var r, a := pre + [x', e'] + post, pre + [x, e, y] + post;
            Same(r, a) && EditLength(r) == EditLength(a)
            && (NoTwins(a) ==> NoTwins(r) && KeepsWhat(r, a))
  {
    hide Side, EditLength, KeepsWhat, NoTwins;
    var body := e.text[|y.text|..];
    var x', e' := Diff(Equal, x.text + y.text), Diff(e.op, body + y.text);
    assert e.text == y.text + body;
    forall skip | skip == Insert || skip == Delete
      ensures Side([x', e'], skip) == Side([x, e, y], skip)
    {
      SideOfTwo(x', e', skip);
      SideOfThree(x, e, y, skip);
      assert x.text + (y.text + body) + y.text == (x.text + y.text) + (body + y.text);
      assert x.text + [] + y.text == (x.text + y.text) + [];
    }
    SideOfTwo(x', e', Insert);
    SideOfThree(x, e, y, Insert);
    Sides3(pre, [x', e'], post);
    Sides3(pre, [x, e, y], post);
    if NoTwins(pre + [x, e, y] + post) {
      SlidHasNoTwins(pre, x, e, y, post, x', e');
      SlidKeeps(x, e, y, [x', e'], 0);
      KeepsAround(pre, [x, e, y], [x', e'], post);
    }
  }

  method SlideLeftAt(a: seq<Diff>, b: nat) returns (r: seq<Diff>)
    requires 0 < b < |a| - 1 && a[b - 1].op == Equal && a[b + 1].op == Equal
    requires EndsWith(a[b].text, a[b - 1].text)
    ensures Same(r, a) && EditLength(r) == EditLength(a) && |r| == |a| - 1
    ensures NoTwins(a) ==> NoTwins(r) && KeepsWhat(r, a)
  {
    hide Side, EditLength, KeepsWhat, NoTwins;
    var x, e, y := a[b - 1], a[b], a[b + 1];
    ghost var pre, post := a[..b - 1], a[b + 2..];
    assert a == pre + [x, e, y] + post;
    SlideLeft(pre, x, e, y, post);
    var e' := Diff(e.op, x.text + e.text[..|e.text| - |x.text|]);
    r := a[b := e'][b + 1 := Diff(Equal, x.text + y.text)];
    r := r[..b - 1] + r[b..];
    assert r == pre + [e', Diff(Equal, x.text + y.text)] + post;
  }

  method SlideRightAt(a: seq<Diff>, b: nat) returns (r: seq<Diff>)
    requires 0 < b < |a| - 1 && a[b - 1].op == Equal && a[b + 1].op == Equal
    requires StartsWith(a[b].text, a[b + 1].text)
    ensures Same(r, a) && EditLength(r) == EditLength(a) && |r| == |a| - 1
    ensures NoTwins(a) ==> NoTwins(r) && KeepsWhat(r, a)
  {
    hide Side, EditLength, KeepsWhat, NoTwins;
    var x, e, y := a[b - 1], a[b], a[b + 1];
    ghost var pre, post := a[..b - 1], a[b + 2..];
    assert a == pre + [x, e, y] + post;
    SlideRight(pre, x, e, y, post);
    var e' := Diff(e.op, e.text[|y.text|..] + y.text);
    r := a[b - 1 := Diff(Equal, x.text + y.text)][b := e'];
    r := r[..b + 1] + r[b + 2..];
    assert r == pre + [Diff(Equal, x.text + y.text), e'] + post;
  }

  lemma SameIsReflexive(a: seq<Diff>)
    ensures Same(a, a)
  {
  }

  lemma SameIsTransitive(a: seq<Diff>, b: seq<Diff>, c: seq<Diff>)
    ensures Same(a, b) && Same(b, c) ==> Same(a, c)
    ensures Same(a, a)
  {
  }

  /** The clamped comparisons of the source are exactly the two tests. */
  lemma ClampedTests(s: Str, t: Str)
    ensures Substring(s, |s| - |t|, |s|) == t <==> EndsWith(s, t)
    ensures Substring(s, 0, |t|) == t <==> StartsWith(s, t)
  {
  }

  /** The second pass: slide single edits sideways to swallow an equality. */
  method SlidePass(a0: seq<Diff>) returns (a: seq<Diff>, changed: bool)
    ensures Same(a, a0) && EditLength(a) == EditLength(a0) && (NoTwins(a0) ==> KeepsWhat(a, a0))
    ensures changed ==> |a| < |a0|
    ensures !changed ==> a == a0 && Tight(a)
  {
    hide Same, EditLength, EndsWith, StartsWith, Substring, KeepsWhat, NoTwins;
    a, changed := a0, false;
    KeepsTransitive(a, a, a);
    assert Same(a, a0) by { SameIsReflexive(a); }
    var b := 1;
    while b < |a| - 1
      invariant b >= 1
      invariant Same(a, a0) && EditLength(a) == EditLength(a0) && (NoTwins(a0) ==> NoTwins(a) && KeepsWhat(a, a0))
      invariant if changed then |a| < |a0| else a == a0
      invariant !changed ==> forall i :: 0 < i < b && i < |a| - 1 ==> TightAt(a, i)
      decreases |a| - b
    {
      ghost var before := a;
      if a[b - 1].op == Equal && a[b + 1].op == Equal {
        var prev, edit, next := a[b - 1].text, a[b].text, a[b + 1].text;
        ClampedTests(edit, prev);
        ClampedTests(edit, next);
        if Substring(edit, |edit| - |prev|, |edit|) == prev {
          a := SlideLeftAt(a, b);
          changed := true;
        } else if Substring(edit, 0, |next|) == next {
          a := SlideRightAt(a, b);
          changed := true;
        }
      }
      SameIsTransitive(a, before, a0);
      KeepsTransitive(a, before, a0);
      b := b + 1;
    }
  }

  /** `diff_cleanupMerge`.  It ends because each round that changes something shortens the edits
      or, at equal edit length, the script. */
  method CleanupMerge(a0: seq<Diff>) returns (a: seq<Diff>)
    ensures Same(a, a0) && Normal(a) && Tight(a)
    ensures EditLength(a) <= EditLength(a0) && KeepsWhat(a, a0)
    decreases EditLength(a0), |a0|
  {
    hide KeepsWhat;
    a := MergePass(a0);
    NormalHasNoTwins(a);
    var changed;
    ghost var merged := a;
    a, changed := SlidePass(a);
    KeepsTransitive(a, merged, a0);
    if changed {
      ghost var slid := a;
      a := CleanupMerge(a);
      KeepsTransitive(a, slid, a0);
    }
  }
}
