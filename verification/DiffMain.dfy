/** `diff_main` and the strategies it recurses through. */
module DiffMain {
  import opened DiffText
  import opened DiffSearch
  import opened DiffMerge
  import opened DiffSemantic
  import opened DiffLines

  /** Two texts cut around a common middle. */
  datatype HalfMatch = NoMatch | Match(prefix1: Str, suffix1: Str, prefix2: Str, suffix2: Str, middle: Str)

  predicate IsMatch(m: HalfMatch, a: Str, b: Str)
    requires m.Match?
  {
    a == m.prefix1 + m.middle + m.suffix1 && b == m.prefix2 + m.middle + m.suffix2
  }

  lemma MatchAround(a: Str, b: Str, c: nat, e: nat, before: nat, after: nat)
    requires c <= |a| && e <= |b|
    requires LongestPrefix(a[c..], b[e..], after) && LongestSuffix(a[..c], b[..e], before)
    ensures before <= c && before <= e && c + after <= |a| && e + after <= |b|
    ensures IsMatch(Match(a[..c - before], a[c + after..], b[..e - before], b[e + after..],
                          b[e - before..e] + b[e..e + after]), a, b)
  {
    Pieces(a, c, before, after);
    Pieces(b, e, before, after);
  }

  lemma Pieces(a: Str, c: nat, before: nat, after: nat)
    requires before <= c <= |a| && after <= |a| - c
    ensures a == a[..c - before] + (a[c - before..c] + a[c..c + after]) + a[c + after..]
    ensures a[c..][..after] == a[c..c + after]
    ensures a[..c][|a[..c]| - before..] == a[c - before..c]
  {
  }

  /** A common piece `s` of `a` and `b`, at `i` and `k`, that contains the quarter of `a` from `c` on. */
  predicate Through(a: Str, b: Str, s: Str, c: nat, i: int, k: int) {
    OccursAt(a, s, i) && OccursAt(b, s, k) && i <= c && c + |a| / 4 <= i + |s|
  }

  /** Where a piece through the quarter lies in `b`, the quarter does. */
  lemma SeedThrough(a: Str, b: Str, s: Str, c: nat, i: int, k: int)
    requires Through(a, b, s, c, i, k)
    ensures OccursAt(b, a[c..c + |a| / 4], k + (c - i))
  {
    var n := |a| / 4;
    var x, y := a[c..c + n], b[k + (c - i)..k + (c - i) + n];
    forall j | 0 <= j < n
      ensures x[j] == y[j]
    {
      UnitOfPiece(a, s, i, c - i + j);
      UnitOfPiece(b, s, k, c - i + j);
    }
  }

  lemma UnitOfPiece(a: Str, s: Str, i: int, j: int)
    requires OccursAt(a, s, i) && 0 <= j < |s|
    ensures i + j < |a| && a[i + j] == s[j]
  {
    assert a[i..i + |s|][j] == a[i + j];
  }

  /** A piece through the quarter is no longer than what extending the quarter both ways finds. */
  lemma ThroughIsExtended(a: Str, b: Str, s: Str, c: nat, i: int, k: int, before: nat, after: nat)
    requires Through(a, b, s, c, i, k) && c <= |a| && k + (c - i) <= |b|
    requires LongestSuffix(a[..c], b[..k + (c - i)], before)
    requires LongestPrefix(a[c..], b[k + (c - i)..], after)
    ensures |s| <= before + after
  {
    var e := k + (c - i);
    SuffixStops(a, b, c, e, before);
    PrefixStops(a, b, c, e, after);
    UnitAgrees(a, b, s, i, k, c - i - before - 1);
    UnitAgrees(a, b, s, i, k, c - i + after);
  }

  lemma SuffixStops(a: Str, b: Str, c: nat, e: nat, n: nat)
    requires c <= |a| && e <= |b| && LongestSuffix(a[..c], b[..e], n)
    ensures n <= c && n <= e && (n < c && n < e ==> a[c - n - 1] != b[e - n - 1])
  {
    var x, y := a[..c], b[..e];
    assert n < c && n < e ==> x[c - n - 1] == a[c - n - 1] && y[e - n - 1] == b[e - n - 1];
  }

  lemma PrefixStops(a: Str, b: Str, c: nat, e: nat, n: nat)
    requires c <= |a| && e <= |b| && LongestPrefix(a[c..], b[e..], n)
    ensures c + n <= |a| && e + n <= |b| && (c + n < |a| && e + n < |b| ==> a[c + n] != b[e + n])
  {
    var x, y := a[c..], b[e..];
    assert c + n < |a| && e + n < |b| ==> x[n] == a[c + n] && y[n] == b[e + n];
  }

  lemma UnitAgrees(a: Str, b: Str, s: Str, i: int, k: int, j: int)
    requires OccursAt(a, s, i) && OccursAt(b, s, k)
    ensures 0 <= j < |s| ==> i + j < |a| && k + j < |b| && a[i + j] == b[k + j]
  {
    if 0 <= j < |s| {
      UnitOfPiece(a, s, i, j);
      UnitOfPiece(b, s, k, j);
    }
  }

  /** No piece through the quarter, met in `b` before `e`, is longer than `n`. */
  ghost predicate NoneLonger(a: Str, b: Str, c: nat, e: int, n: nat) {
    forall s, i, k :: Through(a, b, s, c, i, k) && (e == -1 || k + (c - i) < e) ==> |s| <= n
  }

  lemma NoneBeforeFirst(a: Str, b: Str, c: nat)
    requires c <= |a| - |a| / 4
    ensures NoneLonger(a, b, c, IndexOf(b, a[c..c + |a| / 4], 0), 0)
  {
    hide IndexOf, Through, OccursAt;
    var seed := a[c..c + |a| / 4];
    var e := IndexOf(b, seed, 0);
    forall s, i, k | Through(a, b, s, c, i, k)
      ensures e != -1 && k + (c - i) >= e
    {
      SeedThrough(a, b, s, c, i, k);
      SeedIsInside(a, b, s, c, i, k);
    }
  }

  lemma SeedIsInside(a: Str, b: Str, s: Str, c: nat, i: int, k: int)
    requires Through(a, b, s, c, i, k)
    ensures 0 <= k + (c - i) <= |b|
  {
  }

  lemma NoneUpToNext(a: Str, b: Str, c: nat, e: nat, n: nat, before: nat, after: nat)
    requires c <= |a| - |a| / 4 && e <= |b| && NoneLonger(a, b, c, e, n)
    requires LongestSuffix(a[..c], b[..e], before) && LongestPrefix(a[c..], b[e..], after)
    ensures NoneLonger(a, b, c, IndexOf(b, a[c..c + |a| / 4], e + 1), if n < before + after then before + after else n)
  {
    hide IndexOf, Through, OccursAt, LongestPrefix, LongestSuffix;
    var seed := a[c..c + |a| / 4];
    var next := IndexOf(b, seed, e + 1);
    forall s, i, k | Through(a, b, s, c, i, k)
      ensures k + (c - i) < e || |s| <= before + after || (next != -1 && k + (c - i) >= next)
    {
      SeedThrough(a, b, s, c, i, k);
      if k + (c - i) == e {
        ThroughIsExtended(a, b, s, c, i, k, before, after);
      }
    }
  }

  function Longest(m: HalfMatch): nat {
    if m.Match? then |m.middle| else 0
  }

  lemma OccursInside(b: Str, seed: Str, e: int)
    requires OccursAt(b, seed, e)
    ensures 0 <= e && e + |seed| <= |b|
  {
  }

  /** Extends the quarter, which lies at `e` in `b`, both ways; a longer match than `m0` replaces it. */
  method Extend(a: Str, b: Str, c: nat, e: nat, m0: HalfMatch) returns (m: HalfMatch)
    requires c <= |a| - |a| / 4 && e <= |b| && NoneLonger(a, b, c, e, Longest(m0))
    requires m0.Match? ==> IsMatch(m0, a, b)
    ensures m.Match? ==> IsMatch(m, a, b)
    ensures NoneLonger(a, b, c, IndexOf(b, a[c..c + |a| / 4], e + 1), Longest(m))
  {
    hide NoneLonger, LongestPrefix, LongestSuffix, IsMatch, OccursAt, IndexOf;
    m := m0;
    var after := CommonPrefix(a[c..], b[e..]);
    var before := CommonSuffix(a[..c], b[..e]);
    MatchAround(a, b, c, e, before, after);
    NoneUpToNext(a, b, c, e, Longest(m0), before, after);
    if Longest(m) < before + after {
      m := Match(a[..c - before], a[c + after..], b[..e - before], b[e + after..],
                 b[e - before..e] + b[e..e + after]);
    }
  }

  /** No common piece through the quarter is longer than the match, or half as long as `a` if there is
      no match. */
  ghost predicate BestThrough(a: Str, b: Str, c: nat, m: HalfMatch) {
    forall s, i, k :: Through(a, b, s, c, i, k) ==> if m.Match? then |s| <= |m.middle| else 2 * |s| < |a|
  }

  /** The longest match that contains the quarter of `a` starting at `c`, if it is at least half
      as long as `a`. */
  method HalfMatchAt(a: Str, b: Str, c: nat) returns (m: HalfMatch)
    requires |a| >= 4 && c <= |a| - |a| / 4
    ensures m.Match? ==> IsMatch(m, a, b) && 2 * |m.middle| >= |a|
    ensures BestThrough(a, b, c, m)
  {
    hide NoneLonger, IsMatch, BestThrough, OccursAt, IndexOf;
    var seed := a[c..c + |a| / 4];
    var e := IndexOf(b, seed, 0);
    NoneBeforeFirst(a, b, c);
    m := NoMatch;
    while e != -1
      invariant e == -1 || OccursAt(b, seed, e)
      invariant m.Match? ==> IsMatch(m, a, b)
      invariant NoneLonger(a, b, c, e, Longest(m))
      decreases |b| - e, e != -1
    {
      OccursInside(b, seed, e);
      m := Extend(a, b, c, e, m);
      e := IndexOf(b, seed, e + 1);
      if e == -1 {
        break;
      }
    }
    ghost var best := m;
    if m.Match? && 2 * |m.middle| < |a| {
      m := NoMatch;
    }
    NoneAtAll(a, b, c, best, m);
  }

  lemma NoneAtAll(a: Str, b: Str, c: nat, best: HalfMatch, m: HalfMatch)
    requires NoneLonger(a, b, c, -1, Longest(best)) && |a| > 0
    requires m == if best.Match? && 2 * |best.middle| < |a| then NoMatch else best
    ensures BestThrough(a, b, c, m)
  {
    hide Through;
  }

  function Longer(a: Str, b: Str): nat {
    if |a| > |b| then |a| else |b|
  }

  /** No common piece of the texts is half as long as the longer one. */
  ghost predicate NoMiddle(a: Str, b: Str) {
    forall s :: Piece(s, a) && Piece(s, b) ==> 2 * |s| < Longer(a, b)
  }

  /** No half-match is looked for, or none is found. */
  ghost predicate NoHalfMatch(a: Str, b: Str, timeoutSet: bool) {
    timeoutSet && Longer(a, b) >= 4 ==> NoMiddle(a, b)
  }

  /** `s` is a longest piece of both texts. */
  ghost predicate LongestCommon(s: Str, a: Str, b: Str) {
    Piece(s, a) && Piece(s, b) && forall t :: Piece(t, a) && Piece(t, b) ==> |t| <= |s|
  }

  lemma MatchIsMiddle(a: Str, b: Str, m: HalfMatch)
    requires m.Match? && IsMatch(m, a, b)
    ensures Piece(m.middle, a) && Piece(m.middle, b)
    ensures 2 * |m.middle| >= Longer(a, b) ==> !NoMiddle(a, b)
  {
    assert OccursAt(a, m.middle, |m.prefix1|) && OccursAt(b, m.middle, |m.prefix2|);
  }

  /** A piece of half the length contains the second quarter or the third. */
  lemma HalfIsThrough(a: Str, b: Str, s: Str, i: int, k: int)
    requires OccursAt(a, s, i) && OccursAt(b, s, k) && 2 * |s| >= |a|
    ensures Through(a, b, s, (|a| + 3) / 4, i, k) || Through(a, b, s, (|a| + 1) / 2, i, k)
  {
  }

  lemma ShortHasNoMiddle(a: Str, b: Str)
    requires 2 * |a| < Longer(a, b) || 2 * |b| < Longer(a, b)
    ensures NoMiddle(a, b)
  {
    forall s | Piece(s, a) && Piece(s, b)
      ensures |s| <= |a| && |s| <= |b|
    {
    }
  }

  /** Texts that differ at both ends, on which line mode is reached and throws. */
  ghost predicate LineModeThrows(a: Str, b: Str) {
    100 < |a| && 100 < |b| && !Piece(a, b) && !Piece(b, a) && LastLineIs(a, HasOwn())
  }

  /** `x` and `y` are what is left of `a` and `b` without what they share at both ends. */
  ghost predicate IsTrimmed(a: Str, b: Str, prefix: Str, x: Str, y: Str, suffix: Str) {
    && a == prefix + x + suffix && b == prefix + y + suffix
    && LongestPrefix(a, b, |prefix|) && LongestSuffix(x + suffix, y + suffix, |suffix|)
  }

  /** There is only one way to trim two texts. */
  lemma TrimmedIsUnique(a: Str, b: Str, p: Str, x: Str, y: Str, s: Str, p': Str, x': Str, y': Str, s': Str)
    requires IsTrimmed(a, b, p, x, y, s) && IsTrimmed(a, b, p', x', y', s')
    ensures p == p' && x == x' && y == y' && s == s'
  {
    hide LongestPrefix, LongestSuffix;
    PrefixIsUnique(a, b, |p|, |p'|);
    SameParts(a, p, x, s, p', x', s');
    SameParts(b, p, y, s, p', y', s');
    SuffixIsUnique(x + s, y + s, |s|, |s'|);
    SameHeads(x, s, x', s');
    SameHeads(y, s, y', s');
  }

  lemma PrefixAgrees(a: Str, b: Str, k: nat)
    requires LongestPrefix(a, b, k)
    ensures k <= |a| && k <= |b| && forall i :: 0 <= i < k ==> a[i] == b[i]
    ensures k < |a| && k < |b| ==> a[k] != b[k]
  {
    var x, y := a[..k], b[..k];
    assert forall i :: 0 <= i < k ==> x[i] == a[i] && y[i] == b[i];
  }

  lemma PrefixIsUnique(a: Str, b: Str, j: nat, k: nat)
    requires LongestPrefix(a, b, j) && LongestPrefix(a, b, k)
    ensures j == k
  {
    hide LongestPrefix;
    PrefixAgrees(a, b, j);
    PrefixAgrees(a, b, k);
  }

  lemma SameParts(a: Str, p: Str, x: Str, s: Str, p': Str, x': Str, s': Str)
    requires |p| == |p'| && a == p + x + s && a == p' + x' + s'
    ensures p == p' && x + s == x' + s'
  {
    assert a[|p|..] == x + s && a[|p|..] == x' + s' && a[..|p|] == p && a[..|p|] == p';
  }

  lemma SameHeads(x: Str, s: Str, x': Str, s': Str)
    requires x + s == x' + s' && |s| == |s'|
    ensures x == x' && s == s'
  {
    var t := x + s;
    assert t[..|x|] == x && t[..|x'|] == x' && t[|x|..] == s && t[|x'|..] == s';
  }

  /** A longest common piece of the texts, if there is one at least half as long as the longer text;
      `timeoutSet` says whether the engine may trade a minimal script for speed. */
  method FindHalfMatch(a: Str, b: Str, timeoutSet: bool) returns (m: HalfMatch)
    ensures m.Match? <==> timeoutSet && Longer(a, b) >= 4 && !NoMiddle(a, b)
    ensures m.Match? ==> IsMatch(m, a, b) && LongestCommon(m.middle, a, b) && 2 * |m.middle| >= Longer(a, b)
  {
    hide NoMiddle, LongestCommon;
    if !timeoutSet {
      return NoMatch;
    }
    var long, short := if |a| > |b| then a else b, if |a| > |b| then b else a;
    if 4 > |long| || 2 * |short| < |long| {
      if |long| >= 4 {
        ShortHasNoMiddle(a, b);
      }
      return NoMatch;
    }
    var m1 := HalfMatchAt(long, short, (|long| + 3) / 4);
    var m2 := HalfMatchAt(long, short, (|long| + 1) / 2);
    if m1.NoMatch? && m2.NoMatch? {
      NoHalfPiece(long, short);
      Symmetric(a, b);
      return NoMatch;
    }
    m := if m2.NoMatch? then m1
         else if m1.NoMatch? then m2
         else if |m1.middle| > |m2.middle| then m1 else m2;
    BestIsLongest(long, short, m1, m2, m);
    Symmetric(a, b);
    MatchIsMiddle(long, short, m);
    if |a| <= |b| {
      m := Match(m.prefix2, m.suffix2, m.prefix1, m.suffix1, m.middle);
    }
  }

  lemma Symmetric(a: Str, b: Str)
    ensures NoMiddle(a, b) <==> NoMiddle(b, a)
    ensures forall s :: LongestCommon(s, a, b) <==> LongestCommon(s, b, a)
  {
  }

  lemma NoHalfPiece(a: Str, b: Str)
    requires |a| >= |b|
    requires BestThrough(a, b, (|a| + 3) / 4, NoMatch) && BestThrough(a, b, (|a| + 1) / 2, NoMatch)
    ensures NoMiddle(a, b)
  {
    hide Through;
    forall s | Piece(s, a) && Piece(s, b)
      ensures 2 * |s| < |a|
    {
      var i :| OccursAt(a, s, i);
      var k :| OccursAt(b, s, k);
      if 2 * |s| >= |a| {
        HalfIsThrough(a, b, s, i, k);
      }
    }
  }

  /** Of the two matches, the longer is a longest common piece. */
  lemma BestIsLongest(a: Str, b: Str, m1: HalfMatch, m2: HalfMatch, m: HalfMatch)
    requires m.Match? && IsMatch(m, a, b) && 2 * |m.middle| >= |a|
    requires m1.Match? ==> |m1.middle| <= |m.middle|
    requires m2.Match? ==> |m2.middle| <= |m.middle|
    requires BestThrough(a, b, (|a| + 3) / 4, m1) && BestThrough(a, b, (|a| + 1) / 2, m2)
    ensures LongestCommon(m.middle, a, b)
  {
    hide Through, IsMatch;
    MatchIsMiddle(a, b, m);
    forall s | Piece(s, a) && Piece(s, b)
      ensures |s| <= |m.middle|
    {
      var i :| OccursAt(a, s, i);
      var k :| OccursAt(b, s, k);
      if 2 * |s| >= |a| {
        HalfIsThrough(a, b, s, i, k);
      }
    }
  }

  // ----- scripts put together -----

  lemma TextsOfConcat(x: seq<Diff>, y: seq<Diff>)
    ensures Text1(x + y) == Text1(x) + Text1(y) && Text2(x + y) == Text2(x) + Text2(y)
  {
    SideConcat(x, y, Insert);
    SideConcat(x, y, Delete);
  }

  lemma TextsOfOne(d: Diff)
    ensures Text1([d]) == (if d.op == Insert then [] else d.text)
    ensures Text2([d]) == (if d.op == Delete then [] else d.text)
  {
    SideOfOne(d, Insert);
    SideOfOne(d, Delete);
  }

  /** A script with an equality in front, unless it would be empty. */
  function WithPrefix(p: Str, d: seq<Diff>): seq<Diff> {
    if p == [] then d else [Diff(Equal, p)] + d
  }

  function WithSuffix(d: seq<Diff>, s: Str): seq<Diff> {
    if s == [] then d else d + [Diff(Equal, s)]
  }

  lemma Wrapped(p: Str, d: seq<Diff>, s: Str)
    ensures Text1(WithSuffix(WithPrefix(p, d), s)) == p + Text1(d) + s
    ensures Text2(WithSuffix(WithPrefix(p, d), s)) == p + Text2(d) + s
  {
    hide Side;
    TextsOfOne(Diff(Equal, p));
    TextsOfOne(Diff(Equal, s));
    TextsOfConcat([Diff(Equal, p)], d);
    TextsOfConcat(WithPrefix(p, d), [Diff(Equal, s)]);
    assert [] + Text1(d) + [] == Text1(d) && [] + Text2(d) + [] == Text2(d);
    assert p + Text1(d) + [] == p + Text1(d) && p + Text2(d) + [] == p + Text2(d);
    assert [] + Text1(d) + s == Text1(d) + s && [] + Text2(d) + s == Text2(d) + s;
  }

  lemma Embedded(long: Str, short: Str, k: nat, op: Op)
    requires OccursAt(long, short, k) && op != Equal
    ensures var d := [Diff(op, long[..k]), Diff(Equal, short), Diff(op, long[k + |short|..])];
            Side(d, op) == short
            && (forall skip :: skip != op && skip != Equal ==> Side(d, skip) == long)
  {
    var d := [Diff(op, long[..k]), Diff(Equal, short), Diff(op, long[k + |short|..])];
    SideOfThree(d[0], d[1], d[2], op);
    assert [] + short + [] == short;
    forall skip | skip != op && skip != Equal
      ensures Side(d, skip) == long
    {
      SideOfThree(d[0], d[1], d[2], skip);
      assert long == long[..k] + short + long[k + |short|..];
    }
  }

  // ----- what a script keeps -----

  /** The script keeps what its two texts `x` and `y` are found to share: a text that is a piece of the
      other one, and a longest common piece of at least half the longer text. */
  ghost predicate SharedKept(r: seq<Diff>, x: Str, y: Str, more: nat, timeoutSet: bool) {
    && (Piece(x, y) ==> Keeps(r, x) && OpLength(r, Equal) >= |x| + more)
    && (Piece(y, x) ==> Keeps(r, y) && OpLength(r, Equal) >= |y| + more)
    && (timeoutSet && Longer(x, y) >= 4 && !NoMiddle(x, y) ==>
          exists m :: LongestCommon(m, x, y) && Keeps(r, m) && OpLength(r, Equal) >= |m| + more)
  }

  /** And it keeps what they share at both ends. */
  ghost predicate AllKept(r: seq<Diff>, p: Str, x: Str, y: Str, s: Str, timeoutSet: bool) {
    && Keeps(r, p) && Keeps(r, s) && OpLength(r, Equal) >= |p| + |s|
    && SharedKept(r, x, y, |p| + |s|, timeoutSet)
  }

  lemma KeepsPart(pre: seq<Diff>, d: Diff, post: seq<Diff>)
    requires d.op == Equal
    ensures Keeps(pre + [d] + post, d.text)
    ensures OpLength(pre + [d] + post, Equal) == OpLength(pre, Equal) + |d.text| + OpLength(post, Equal)
  {
    hide Keeps;
    WholeIsPiece(d.text);
    KeepsOfOne(d, d.text);
    KeepsConcat(pre + [d], post, d.text);
    KeepsConcat(pre, [d], d.text);
    OpLengthConcat(pre + [d], post, Equal);
    OpLengthConcat(pre, [d], Equal);
    OpLengthOfOne(d, Equal);
  }

  /** An empty text, or one that is embedded in the other, is kept whole. */
  lemma EmbeddedIsKept(r: seq<Diff>, x: Str, y: Str, timeoutSet: bool)
    requires Piece(x, y) && |x| <= |y| && Keeps(r, x) && OpLength(r, Equal) >= |x|
    ensures SharedKept(r, x, y, 0, timeoutSet) && SharedKept(r, y, x, 0, timeoutSet)
  {
    hide Keeps;
    WholeIsPiece(x);
    if Piece(y, x) {
      PieceFits(y, x);
      SameLengthPiece(x, y);
    }
    forall t | Piece(t, x) && Piece(t, y)
      ensures |t| <= |x|
    {
      PieceFits(t, x);
    }
    assert LongestCommon(x, x, y) && LongestCommon(x, y, x);
    hide LongestCommon, NoMiddle, Piece;
  }

  lemma PieceFits(s: Str, t: Str)
    requires Piece(s, t)
    ensures |s| <= |t|
  {
  }

  lemma SameLengthPiece(s: Str, t: Str)
    requires Piece(s, t) && |t| <= |s|
    ensures s == t
  {
  }

  lemma NothingIsPiece(y: Str)
    ensures Piece([], y)
  {
    assert OccursAt(y, [], 0);
  }

  /** Texts that share nothing long enough. */
  lemma NothingToKeep(r: seq<Diff>, x: Str, y: Str, timeoutSet: bool)
    requires !Piece(x, y) && !Piece(y, x) && (timeoutSet && Longer(x, y) >= 4 ==> NoMiddle(x, y))
    ensures SharedKept(r, x, y, 0, timeoutSet)
  {
  }

  /** A text of one unit is a piece of the other or shares nothing with it. */
  lemma OneUnitHasNoMiddle(x: Str, y: Str)
    requires |x| <= 1 || |y| <= 1
    ensures Longer(x, y) >= 4 ==> NoMiddle(x, y)
  {
    if Longer(x, y) >= 4 {
      ShortHasNoMiddle(x, y);
    }
  }

  /** With the common ends around it. */
  lemma WrappedKeeps(p: Str, r: seq<Diff>, s: Str, x: Str, y: Str, timeoutSet: bool)
    requires SharedKept(r, x, y, 0, timeoutSet)
    ensures AllKept(WithSuffix(WithPrefix(p, r), s), p, x, y, s, timeoutSet)
  {
    hide Keeps, Piece, LongestCommon, NoMiddle;
    var w := [Diff(Equal, p)] + r + [Diff(Equal, s)];
    var v := WithSuffix(WithPrefix(p, r), s);
    KeepsPart([], Diff(Equal, p), r + [Diff(Equal, s)]);
    KeepsPart([Diff(Equal, p)] + r, Diff(Equal, s), []);
    assert [] + [Diff(Equal, p)] + (r + [Diff(Equal, s)]) == w && w + [] == w;
    OpLengthConcat(r, [Diff(Equal, s)], Equal);
    OpLengthOfOne(Diff(Equal, s), Equal);
    assert OpLength([], Equal) == 0;
    forall m | Keeps(w, m)
      ensures Keeps(v, m)
    {
      EmptyEndsKeep(p, r, s, m);
    }
    forall m | Keeps(r, m)
      ensures Keeps(w, m)
    {
      KeepsConcat([Diff(Equal, p)] + r, [Diff(Equal, s)], m);
      KeepsConcat([Diff(Equal, p)], r, m);
    }
    EmptyEndsLength(p, r, s);
  }

  lemma EmptyEndsKeep(p: Str, r: seq<Diff>, s: Str, m: Str)
    ensures Keeps([Diff(Equal, p)] + r + [Diff(Equal, s)], m) ==> Keeps(WithSuffix(WithPrefix(p, r), s), m)
  {
    hide Keeps, Piece;
    var a, b := [Diff(Equal, p)], [Diff(Equal, s)];
    KeepsConcat(a + r, b, m);
    KeepsConcat(a, r, m);
    KeepsConcat(WithPrefix(p, r), b, m);
    KeepsOfOne(a[0], m);
    KeepsOfOne(b[0], m);
    PieceOfNothing(m);
    KeepsNothing(WithSuffix(WithPrefix(p, r), s));
  }

  lemma EmptyEndsLength(p: Str, r: seq<Diff>, s: Str)
    ensures OpLength(WithSuffix(WithPrefix(p, r), s), Equal) == |p| + OpLength(r, Equal) + |s|
  {
    var a, b := [Diff(Equal, p)], [Diff(Equal, s)];
    OpLengthConcat(a, r, Equal);
    OpLengthConcat(WithPrefix(p, r), b, Equal);
    OpLengthOfOne(a[0], Equal);
    OpLengthOfOne(b[0], Equal);
  }

  /** The final clean-up loses nothing that is kept. */
  lemma CleanedKeeps(r: seq<Diff>, w: seq<Diff>, p: Str, x: Str, y: Str, s: Str, timeoutSet: bool)
    requires AllKept(w, p, x, y, s, timeoutSet)
    requires Same(r, w) && EditLength(r) <= EditLength(w) && KeepsWhat(r, w)
    ensures AllKept(r, p, x, y, s, timeoutSet)
  {
    hide Keeps, Piece, LongestCommon, NoMiddle, Side;
    LengthsAdd(r);
    LengthsAdd(w);
  }

  // ----- back from characters to lines -----

  /** The lines that a string of line numbers stands for. */
  method DecodeChars(chars: Str, table: seq<Str>) returns (text: Str)
    ensures text == Decode(chars, table)
  {
    hide Decode, LineAt;
    text := [];
    DecodeEnds(chars, table);
    for f := 0 to |chars|
      invariant text + Decode(chars[f..], table) == Decode(chars, table)
    {
      DecodeNext(chars, f, table);
      ConcatThree(text, LineAt(table, chars[f]), Decode(chars[f + 1..], table));
      text := text + LineAt(table, chars[f]);
    }
  }

  lemma DecodeEnds(chars: Str, table: seq<Str>)
    ensures [] + Decode(chars[0..], table) == Decode(chars, table)
    ensures forall text: Str :: text + Decode(chars[|chars|..], table) == text
  {
    assert chars[0..] == chars && chars[|chars|..] == [];
  }

  lemma DecodeNext(chars: Str, f: nat, table: seq<Str>)
    requires f < |chars|
    ensures Decode(chars[f..], table) == LineAt(table, chars[f]) + Decode(chars[f + 1..], table)
  {
    assert chars[f..][1..] == chars[f + 1..];
  }

  /** Replace the text of every part by the lines its characters stand for. */
  method CharsToLines(a0: seq<Diff>, table: seq<Str>) returns (a: seq<Diff>)
    ensures |a| == |a0|
    ensures forall i :: 0 <= i < |a| ==> a[i] == Diff(a0[i].op, Decode(a0[i].text, table))
  {
    a := a0;
    var c := 0;
    while c < |a|
      invariant 0 <= c <= |a| == |a0|
      invariant forall i :: 0 <= i < c ==> a[i] == Diff(a0[i].op, Decode(a0[i].text, table))
      invariant forall i :: c <= i < |a| ==> a[i] == a0[i]
    {
      var text := DecodeChars(a[c].text, table);
      a := a[c := Diff(a[c].op, text)];
      c := c + 1;
    }
  }

  lemma {:induction false} DecodedSides(a: seq<Diff>, d: seq<Diff>, table: seq<Str>, skip: Op)
    requires |a| == |d|
    requires forall i :: 0 <= i < |a| ==> d[i] == Diff(a[i].op, Decode(a[i].text, table))
    ensures Side(d, skip) == Decode(Side(a, skip), table)
    decreases |a|
  {
    if a != [] {
      DecodedSides(a[1..], d[1..], table, skip);
      DecodeConcat(if a[0].op == skip then [] else a[0].text, Side(a[1..], skip), table);
    }
  }

  lemma {:induction false} PartsOfSide(a: seq<Diff>, skip: Op, i: nat, c: Code)
    requires i < |a| && a[i].op != skip && c in a[i].text
    ensures c in Side(a, skip)
    decreases |a|
  {
    if i > 0 {
      PartsOfSide(a[1..], skip, i - 1, c);
    }
  }

  /** Decoding meaningful characters empties no part. */
  lemma DecodedIsSlidable(a: seq<Diff>, d: seq<Diff>, table: seq<Str>)
    requires |a| == |d| && Slidable(a)
    requires forall i :: 0 <= i < |a| ==> d[i] == Diff(a[i].op, Decode(a[i].text, table))
    requires Meaningful(Text1(a), table) && Meaningful(Text2(a), table)
    ensures Slidable(d)
  {
    forall i | 0 <= i < |a| && a[i].text != []
      ensures d[i].text != []
    {
      PartsOfSide(a, if a[i].op == Insert then Delete else Insert, i, a[i].text[0]);
    }
  }

  // ----- the recursion -----

  /** The point where the search for a shortest path splits the two texts, or none when the
      deadline passes first.  Any proper split will do. */
  method Bisect(a: Str, b: Str) returns (found: bool, x: nat, y: nat)
    requires a != [] && b != []
    ensures found ==> x <= |a| && y <= |b| && 0 < x + y < |a| + |b|
  {
    found := *;
    assert 1 <= |a| && 0 <= |b| && 0 < 1 + 0 < |a| + |b|;
    x, y :| x <= |a| && y <= |b| && 0 < x + y < |a| + |b|;
  }

  /** What `checklines` asks of the caller: both texts are pieces of texts with few enough
      distinct lines for 16-bit characters. */
  ghost predicate LineBudget(a: Str, b: Str, a0: Str, b0: Str) {
    Piece(a, a0) && Piece(b, b0) && Distinct(a0, b0) <= 65531
  }

  lemma BudgetOfPieces(a: Str, b: Str, i: nat, j: nat, k: nat, l: nat, a0: Str, b0: Str)
    requires LineBudget(a, b, a0, b0) && i <= j <= |a| && k <= l <= |b|
    ensures LineBudget(a[i..j], b[k..l], a0, b0)
  {
    SliceIsPiece(a, i, j);
    SliceIsPiece(b, k, l);
    PieceOfPiece(a[i..j], a, a0);
    PieceOfPiece(b[k..l], b, b0);
  }

  /** Take off what the two texts share at both ends. */
  method TrimCommon(a: Str, b: Str) returns (prefix: Str, x: Str, y: Str, suffix: Str)
    ensures a == prefix + x + suffix && b == prefix + y + suffix
    ensures x == a[|prefix|..|prefix| + |x|] && y == b[|prefix|..|prefix| + |y|]
    ensures IsTrimmed(a, b, prefix, x, y, suffix)
  {
    hide LongestPrefix, LongestSuffix, DropUnits;
    var f := CommonPrefix(a, b);
    PrefixShared(a, b, f);
    var x1, y1 := DropUnits(a, f), DropUnits(b, f);
    var g := CommonSuffix(x1, y1);
    SuffixShared(x1, y1, g);
    prefix, suffix := a[..f], x1[|x1| - g..];
    x, y := x1[..|x1| - g], y1[..|y1| - g];
    Trimmed(a, prefix, x1, x, suffix);
    Trimmed(b, prefix, y1, y, suffix);
    assert x1 == x + suffix && y1 == y + suffix && |prefix| == f && |suffix| == g;
  }

  function DropUnits(a: Str, f: nat): Str {
    Substring(a, f, |a|)
  }

  lemma PrefixShared(a: Str, b: Str, f: nat)
    requires LongestPrefix(a, b, f)
    ensures f <= |a| && f <= |b| && a == a[..f] + DropUnits(a, f) && b == a[..f] + DropUnits(b, f)
  {
    TailAfter(a, f);
    TailAfter(b, f);
    assert a[..f] == b[..f];
  }

  lemma TailAfter(a: Str, f: nat)
    requires f <= |a|
    ensures a == a[..f] + DropUnits(a, f)
  {
    assert DropUnits(a, f) == a[f..];
  }

  lemma SuffixShared(x: Str, y: Str, g: nat)
    requires LongestSuffix(x, y, g)
    ensures g <= |x| && g <= |y|
    ensures x == x[..|x| - g] + x[|x| - g..] && y == y[..|y| - g] + x[|x| - g..]
  {
    HeadAndTail(x, |x| - g);
    HeadAndTail(y, |y| - g);
  }

  lemma HeadAndTail(x: Str, n: nat)
    requires n <= |x|
    ensures x == x[..n] + x[n..]
  {
  }

  lemma Trimmed(a: Str, prefix: Str, x1: Str, x: Str, suffix: Str)
    requires a == prefix + x1 && x1 == x + suffix
    ensures a == prefix + x + suffix && x == a[|prefix|..|prefix| + |x|]
  {
  }

  /** `diff_main`.  `a0` and `b0` are the texts of the outermost call.  The result is a script
      from `a` to `b`, whatever the deadline does; `ok` is false when line mode throws, which it
      does only if `a0` contains the text "hasOwnProperty". */
  method DiffTexts(a: Str, b: Str, checklines: bool, timeoutSet: bool, score: (Str, Str) -> int,
               ghost a0: Str, ghost b0: Str)
    returns (ok: bool, r: seq<Diff>)
    requires checklines ==> LineBudget(a, b, a0, b0)
    ensures ok ==> Text1(r) == a && Text2(r) == b && Normal(r) && Tight(r)
    ensures !ok ==> checklines && Piece(HasOwn(), a0)
    ensures forall p, x, y, s :: checklines && IsTrimmed(a, b, p, x, y, s) && NoHalfMatch(x, y, timeoutSet) ==>
              (!ok <==> LineModeThrows(x, y))
    ensures forall p, x, y, s :: ok && IsTrimmed(a, b, p, x, y, s) ==> AllKept(r, p, x, y, s, timeoutSet)
    ensures a == b ==> ok && r == if a == [] then [] else [Diff(Equal, a)]
    decreases if checklines then 1 else 0, |a| + |b|, 2
  {
    hide Side, LineBudget, Piece, HasOwn, IsTrimmed, NoMiddle, LineModeThrows, AllKept, SharedKept, KeepsWhat, Keeps;
    if a == b {
      EqualTextsDoNotThrow(a);
      EqualTextsAreKept(a, timeoutSet);
      if a != [] {
        TextsOfOne(Diff(Equal, a));
        return true, [Diff(Equal, a)];
      }
      TextsOfNone();
      return true, [];
    }
    var prefix, x, y, suffix := TrimCommon(a, b);
    if checklines {
      BudgetOfPieces(a, b, |prefix|, |prefix| + |x|, |prefix|, |prefix| + |y|, a0, b0);
    }
    EndsDiffer(a, b, prefix, x, y, suffix);
    ok, r := Compute(x, y, checklines, timeoutSet, score, a0, b0);
    forall p', x', y', s' | IsTrimmed(a, b, p', x', y', s')
      ensures x' == x && y' == y && p' == prefix && s' == suffix
    {
      TrimmedIsUnique(a, b, prefix, x, y, suffix, p', x', y', s');
    }
    if !ok {
      return;
    }
    Wrapped(prefix, r, suffix);
    WrappedKeeps(prefix, r, suffix, x, y, timeoutSet);
    if prefix != [] {
      r := [Diff(Equal, prefix)] + r;
    }
    if suffix != [] {
      r := r + [Diff(Equal, suffix)];
    }
    ghost var wrapped := r;
    r := CleanupMerge(r);
    SameTexts(r, wrapped);
    CleanedKeeps(r, wrapped, prefix, x, y, suffix, timeoutSet);
  }

  lemma EndsDiffer(a: Str, b: Str, p: Str, x: Str, y: Str, s: Str)
    requires IsTrimmed(a, b, p, x, y, s)
    ensures x == [] || y == [] || x[|x| - 1] != y[|y| - 1]
  {
    SuffixAgrees(x + s, y + s, |s|, 0);
  }

  lemma SameTexts(r: seq<Diff>, w: seq<Diff>)
    ensures Same(r, w) <==> Text1(r) == Text1(w) && Text2(r) == Text2(w)
  {
  }

  lemma EqualTextsAreKept(a: Str, timeoutSet: bool)
    ensures var r := if a == [] then [] else [Diff(Equal, a)];
            forall p, x, y, s :: IsTrimmed(a, a, p, x, y, s) ==> AllKept(r, p, x, y, s, timeoutSet)
  {
    hide AllKept, IsTrimmed;
    var r := if a == [] then [] else [Diff(Equal, a)];
    WholeIsKept(r, a, timeoutSet);
    forall p, x, y, s | IsTrimmed(a, a, p, x, y, s)
      ensures AllKept(r, p, x, y, s, timeoutSet)
    {
      EqualTextsTrim(a, p, x, y, s);
    }
  }

  lemma EqualTextsTrim(a: Str, p: Str, x: Str, y: Str, s: Str)
    requires IsTrimmed(a, a, p, x, y, s)
    ensures p == a && x == [] && y == [] && s == []
  {
    assert |p| == |a|;
  }

  lemma WholeIsKept(r: seq<Diff>, a: Str, timeoutSet: bool)
    requires r == if a == [] then [] else [Diff(Equal, a)]
    ensures AllKept(r, a, [], [], [], timeoutSet)
  {
    hide Keeps, SharedKept;
    KeepsNothing(r);
    NothingIsPiece([]);
    if a != [] {
      KeepsPart([], r[0], []);
      assert [] + [r[0]] + [] == r;
    }
    EmptyKept(r, |a|, timeoutSet);
  }

  lemma EmptyKept(r: seq<Diff>, more: nat, timeoutSet: bool)
    requires OpLength(r, Equal) >= more
    ensures SharedKept(r, [], [], more, timeoutSet)
  {
    KeepsNothing(r);
  }

  lemma EqualTextsDoNotThrow(a: Str)
    ensures forall p, x, y, s :: IsTrimmed(a, a, p, x, y, s) ==> !LineModeThrows(x, y)
  {
    forall p, x, y, s | IsTrimmed(a, a, p, x, y, s)
      ensures x == []
    {
      assert |p| == |a|;
    }
  }

  lemma TextsOfNone()
    ensures Text1([]) == [] && Text2([]) == []
  {
  }

  method Compute(a: Str, b: Str, checklines: bool, timeoutSet: bool, score: (Str, Str) -> int,
                 ghost a0: Str, ghost b0: Str)
    returns (ok: bool, r: seq<Diff>)
    requires checklines ==> LineBudget(a, b, a0, b0)
    requires a == [] || b == [] || a[|a| - 1] != b[|b| - 1]
    ensures ok ==> Text1(r) == a && Text2(r) == b
    ensures !ok ==> checklines && Piece(HasOwn(), a0)
    ensures checklines && NoHalfMatch(a, b, timeoutSet) ==> (!ok <==> LineModeThrows(a, b))
    ensures ok ==> SharedKept(r, a, b, 0, timeoutSet)
    decreases if checklines then 1 else 0, |a| + |b|, 1
  {
    hide Side, LineBudget, Piece, HasOwn, NoMiddle, LineModeThrows, SharedKept, LongestCommon;
    WhenItThrows(a, b);
    if a == [] {
      TextsOfOne(Diff(Insert, b));
      NothingIsPiece(b);
      r := [Diff(Insert, b)];
      KeepsNothing(r);
      EmbeddedIsKept(r, a, b, timeoutSet);
      return true, r;
    }
    if b == [] {
      TextsOfOne(Diff(Delete, a));
      NothingIsPiece(a);
      r := [Diff(Delete, a)];
      KeepsNothing(r);
      EmbeddedIsKept(r, b, a, timeoutSet);
      return true, r;
    }
    var long, short := if |a| > |b| then a else b, if |a| > |b| then b else a;
    var op := if |a| > |b| then Delete else Insert;
    var g := IndexOf(long, short, 0);
    if g != -1 {
      Embedded(long, short, g, op);
      EmbeddedKept(long, short, g, op, timeoutSet);
      return true, [Diff(op, long[..g]), Diff(Equal, short), Diff(op, long[g + |short|..])];
    }
    NotEmbedded(a, b);
    DeleteThenInsert(a, b);
    if |short| == 1 {
      r := [Diff(Delete, a), Diff(Insert, b)];
      OneUnitHasNoMiddle(a, b);
      NothingToKeep(r, a, b, timeoutSet);
      return true, r;
    }
    var m := FindHalfMatch(a, b, timeoutSet);
    if m.Match? {
      MatchIsMiddle(a, b, m);
      ok, r := ComputeHalves(a, b, m, checklines, timeoutSet, score, a0, b0);
      if ok {
        MiddleIsKept(r, a, b, m.middle, timeoutSet);
      }
      return;
    }
    AnyScriptWillDo(a, b, timeoutSet);
    if checklines && 100 < |a| && 100 < |b| {
      ok, r := LineMode(a, b, timeoutSet, score, a0, b0);
      return;
    }
    var found, x, y := Bisect(a, b);
    if found {
      ok, r := BisectSplit(a, b, x, y, timeoutSet, score);
    } else {
      ok, r := true, [Diff(Delete, a), Diff(Insert, b)];
    }
  }

  lemma NotEmbedded(a: Str, b: Str)
    requires var long, short := if |a| > |b| then a else b, if |a| > |b| then b else a; IndexOf(long, short, 0) == -1
    ensures !Piece(a, b) && !Piece(b, a)
  {
    var long, short := if |a| > |b| then a else b, if |a| > |b| then b else a;
    if Piece(long, short) {
      PieceFits(long, short);
      SameLengthPiece(long, short);
      WholeIsPiece(long);
    }
  }

  lemma WhenItThrows(a: Str, b: Str)
    ensures var long, short := if |a| > |b| then a else b, if |a| > |b| then b else a;
            LineModeThrows(a, b) <==> 100 < |a| && 100 < |b| && IndexOf(long, short, 0) == -1 && LastLineIs(a, HasOwn())
  {
    hide LastLineIs, HasOwn, Piece;
    var long, short := if |a| > |b| then a else b, if |a| > |b| then b else a;
    if IndexOf(long, short, 0) == -1 {
      NotEmbedded(a, b);
    } else {
      FoundIsPiece(long, short, IndexOf(long, short, 0));
    }
  }

  lemma FoundIsPiece(long: Str, short: Str, g: int)
    requires OccursAt(long, short, g)
    ensures Piece(short, long)
  {
  }

  lemma EmbeddedKept(long: Str, short: Str, g: nat, op: Op, timeoutSet: bool)
    requires OccursAt(long, short, g) && op != Equal
    ensures var r := [Diff(op, long[..g]), Diff(Equal, short), Diff(op, long[g + |short|..])];
            SharedKept(r, short, long, 0, timeoutSet) && SharedKept(r, long, short, 0, timeoutSet)
  {
    hide SharedKept, Keeps;
    var r := [Diff(op, long[..g]), Diff(Equal, short), Diff(op, long[g + |short|..])];
    FoundIsPiece(long, short, g);
    KeepsPart([r[0]], r[1], [r[2]]);
    assert r == [r[0]] + [r[1]] + [r[2]];
    EmbeddedIsKept(r, short, long, timeoutSet);
  }

  lemma MiddleIsKept(r: seq<Diff>, a: Str, b: Str, m: Str, timeoutSet: bool)
    requires !Piece(a, b) && !Piece(b, a) && LongestCommon(m, a, b) && Keeps(r, m) && OpLength(r, Equal) >= |m|
    ensures SharedKept(r, a, b, 0, timeoutSet)
  {
    hide Keeps, LongestCommon, NoMiddle, Piece;
  }

  lemma AnyScriptWillDo(a: Str, b: Str, timeoutSet: bool)
    requires !Piece(a, b) && !Piece(b, a) && !(timeoutSet && Longer(a, b) >= 4 && !NoMiddle(a, b))
    ensures forall r :: SharedKept(r, a, b, 0, timeoutSet)
  {
    hide NoMiddle, Piece;
    forall r
      ensures SharedKept(r, a, b, 0, timeoutSet)
    {
      NothingToKeep(r, a, b, timeoutSet);
    }
  }

  lemma DeleteThenInsert(a: Str, b: Str)
    ensures Text1([Diff(Delete, a), Diff(Insert, b)]) == a
    ensures Text2([Diff(Delete, a), Diff(Insert, b)]) == b
  {
    SideOfTwo(Diff(Delete, a), Diff(Insert, b), Insert);
    SideOfTwo(Diff(Delete, a), Diff(Insert, b), Delete);
    assert a + [] == a && [] + b == b;
  }

  /** The texts before and behind the common middle are diffed on their own. */
  method ComputeHalves(a: Str, b: Str, m: HalfMatch, checklines: bool, timeoutSet: bool,
                       score: (Str, Str) -> int, ghost a0: Str, ghost b0: Str)
    returns (ok: bool, r: seq<Diff>)
    requires checklines ==> LineBudget(a, b, a0, b0)
    requires m.Match? && IsMatch(m, a, b) && m.middle != []
    ensures ok ==> Text1(r) == a && Text2(r) == b && Keeps(r, m.middle) && OpLength(r, Equal) >= |m.middle|
    ensures !ok ==> checklines && Piece(HasOwn(), a0)
    decreases if checklines then 1 else 0, |a| + |b|, 0
  {
    hide Side, LineBudget, Piece, HasOwn, Keeps, AllKept;
    if checklines {
      assert m.prefix1 == a[0..|m.prefix1|] && m.prefix2 == b[0..|m.prefix2|];
      BudgetOfPieces(a, b, 0, |m.prefix1|, 0, |m.prefix2|, a0, b0);
      assert m.suffix1 == a[|a| - |m.suffix1|..|a|] && m.suffix2 == b[|b| - |m.suffix2|..|b|];
      BudgetOfPieces(a, b, |a| - |m.suffix1|, |a|, |b| - |m.suffix2|, |b|, a0, b0);
    }
    var before, after;
    ok, before := DiffTexts(m.prefix1, m.prefix2, checklines, timeoutSet, score, a0, b0);
    if !ok {
      return false, [];
    }
    ok, after := DiffTexts(m.suffix1, m.suffix2, checklines, timeoutSet, score, a0, b0);
    if !ok {
      return false, [];
    }
    r := before + [Diff(Equal, m.middle)] + after;
    TextsOfOne(Diff(Equal, m.middle));
    TextsOfConcat(before, [Diff(Equal, m.middle)]);
    TextsOfConcat(before + [Diff(Equal, m.middle)], after);
    KeepsPart(before, Diff(Equal, m.middle), after);
  }

  method BisectSplit(a: Str, b: Str, x: nat, y: nat, timeoutSet: bool, score: (Str, Str) -> int)
    returns (ok: bool, r: seq<Diff>)
    requires x <= |a| && y <= |b| && 0 < x + y < |a| + |b|
    ensures ok && Text1(r) == a && Text2(r) == b
    decreases 0, |a| + |b|, 0
  {
    hide Side;
    var before, after;
    ok, before := DiffTexts(a[..x], b[..y], false, timeoutSet, score, [], []);
    ok, after := DiffTexts(a[x..], b[y..], false, timeoutSet, score, [], []);
    r := before + after;
    TextsOfConcat(before, after);
    assert a == a[..x] + a[x..] && b == b[..y] + b[y..];
  }

  /** Diff the texts line by line, then diff the replaced stretches character by character. */
  method LineMode(a: Str, b: Str, timeoutSet: bool, score: (Str, Str) -> int, ghost a0: Str, ghost b0: Str)
    returns (ok: bool, r: seq<Diff>)
    requires LineBudget(a, b, a0, b0)
    requires a == [] || b == [] || a[|a| - 1] != b[|b| - 1]
    ensures ok ==> Text1(r) == a && Text2(r) == b
    ensures !ok ==> Piece(HasOwn(), a0)
    ensures ok <==> b == [] || !LastLineIs(a, HasOwn())
    decreases 1, |a| + |b|, 0
  {
    hide Side, HasOwn, LastLineIs;
    var chars1, chars2, table;
    ok, chars1, chars2, table := LinesToChars(a, b);
    DistinctOfPieces(a, b, a0, b0);
    if !ok {
      LastLineIsPiece(a, HasOwn());
      PieceOfPiece(HasOwn(), a, a0);
      return false, [];
    }
    var d;
    ok, d := DiffTexts(chars1, chars2, false, timeoutSet, score, [], []);
    TightIsSlidable(d);
    r := CharsToLines(d, table);
    DecodedSides(d, r, table, Insert);
    DecodedSides(d, r, table, Delete);
    DecodedIsSlidable(d, r, table);
    r := CleanupSemantic(r, score);
    r := Rediff(r, timeoutSet, score);
  }

  lemma {:induction false} LastLineIsPiece(s: Str, l: Str)
    requires LastLineIs(s, l)
    ensures Piece(l, s)
    decreases |s|
  {
    var n := FirstLine(s);
    if Lines(s[n..]) == [] {
      SliceIsPiece(s, 0, n);
      assert s[0..n] == l;
    } else {
      LastLineIsPiece(s[n..], l);
      SliceIsPiece(s, n, |s|);
      assert s[n..|s|] == s[n..];
      PieceOfPiece(l, s[n..], s);
    }
  }

  /** The scan stands at `b` behind a run of edits with texts `del` and `ins`. */
  predicate Run(a: seq<Diff>, b: int, n: nat, del: Str, ins: Str) {
    n <= b <= |a| && Side(a[b - n..b], Insert) == del && Side(a[b - n..b], Delete) == ins
  }

  lemma RunGrows(a: seq<Diff>, b: int, n: nat, del: Str, ins: Str)
    requires Run(a, b, n, del, ins) && b < |a|
    ensures a[b].op == Insert ==> Run(a, b + 1, n + 1, del, ins + a[b].text)
    ensures a[b].op == Delete ==> Run(a, b + 1, n + 1, del + a[b].text, ins)
  {
    assert a[b - n..b + 1] == a[b - n..b] + [a[b]];
    SideConcat(a[b - n..b], [a[b]], Insert);
    SideConcat(a[b - n..b], [a[b]], Delete);
    SideOfOne(a[b], Insert);
    SideOfOne(a[b], Delete);
  }

  lemma RunEmpty(a: seq<Diff>, b: nat)
    requires b <= |a|
    ensures Run(a, b, 0, [], [])
  {
    assert a[b..b] == [];
  }

  /** Replace every run that has both deletions and insertions by a diff of its two texts. */
  method Rediff(a0: seq<Diff>, timeoutSet: bool, score: (Str, Str) -> int) returns (a: seq<Diff>)
    ensures Same(a, a0)
    decreases 0, |Text1(a0)| + |Text2(a0)|, 4
  {
    hide Same, Side, Run, AllKept, IsTrimmed, LineModeThrows, NoMiddle, Piece, HasOwn, Normal, Tight;
    a := a0 + [Diff(Equal, [])];
    SentinelKeeps(a0);
    var b, deletes, inserts := 0, 0, 0;
    var del: Str, ins: Str := [], [];
    RunEmpty(a, 0);
    while b < |a|
      invariant 0 <= deletes && 0 <= inserts && Run(a, b, deletes + inserts, del, ins)
      invariant deletes + inserts <= b <= |a|
      invariant Same(a, a0) && |a| > 0 && a[|a| - 1] == Diff(Equal, [])
      decreases |a| - b
    {
      if a[b].op == Insert {
        RunGrows(a, b, deletes + inserts, del, ins);
        inserts := inserts + 1;
        ins := ins + a[b].text;
      } else if a[b].op == Delete {
        RunGrows(a, b, deletes + inserts, del, ins);
        deletes := deletes + 1;
        del := del + a[b].text;
      } else {
        if 1 <= deletes && 1 <= inserts {
          ghost var before := a;
          RunTexts(a, b, deletes + inserts, del, ins, a0);
          a, b := RediffRun(a, b, deletes + inserts, del, ins, timeoutSet, score);
          SameIsTransitive(a, before, a0);
        }
        deletes, inserts := 0, 0;
        del, ins := [], [];
        RunEmpty(a, b + 1);
      }
      b := b + 1;
    }
    SentinelKeeps(a[..|a| - 1]);
    assert a == a[..|a| - 1] + [Diff(Equal, [])];
    ghost var before := a;
    a := a[..|a| - 1];
    SameIsTransitive(a, before, a0);
    SameIsSymmetric(a, before);
    SameIsTransitive(a, before, a0);
  }

  /** Replace one run, which ends at `b0`. */
  method RediffRun(a0: seq<Diff>, b0: nat, n: nat, del: Str, ins: Str, timeoutSet: bool, score: (Str, Str) -> int)
    returns (a: seq<Diff>, b: nat)
    requires Run(a0, b0, n, del, ins) && n <= b0 < |a0|
    ensures Same(a, a0) && b < |a| && a[b..] == a0[b0..]
    decreases 0, |del| + |ins|, 3
  {
    hide Same, Side, Run, AllKept, IsTrimmed, LineModeThrows, NoMiddle, Piece, HasOwn, Normal, Tight;
    a, b := a0[..b0 - n] + a0[b0..], b0 - n;
    var ok, d := DiffTexts(del, ins, false, timeoutSet, score, [], []);
    PlacedAt(a0, b, b0, d);
    a := a[..b] + d + a[b..];
    RunReplaced(a0, b0, n, del, ins, d);
    b := b + |d|;
  }

  lemma PlacedAt(a: seq<Diff>, b: nat, b0: nat, d: seq<Diff>)
    requires b <= b0 < |a|
    ensures var c := a[..b] + a[b0..];
            var r := c[..b] + d + c[b..];
            r == a[..b] + d + a[b0..] && b + |d| < |r| && r[b + |d|..] == a[b0..]
  {
    var c := a[..b] + a[b0..];
    assert c[..b] == a[..b] && c[b..] == a[b0..];
  }

  lemma SameIsSymmetric(a: seq<Diff>, b: seq<Diff>)
    ensures Same(a, b) <==> Same(b, a)
  {
  }

  lemma RunTexts(a: seq<Diff>, b: nat, n: nat, del: Str, ins: Str, a0: seq<Diff>)
    requires Run(a, b, n, del, ins) && Same(a, a0)
    ensures |del| + |ins| <= |Text1(a0)| + |Text2(a0)|
  {
    hide Side;
    assert a == a[..b - n] + a[b - n..b] + a[b..];
    Sides3(a[..b - n], a[b - n..b], a[b..]);
  }

  lemma RunReplaced(a: seq<Diff>, b: nat, n: nat, del: Str, ins: Str, d: seq<Diff>)
    requires Run(a, b, n, del, ins) && Text1(d) == del && Text2(d) == ins
    ensures Same(a[..b - n] + d + a[b..], a)
  {
    hide Side;
    assert a == a[..b - n] + a[b - n..b] + a[b..];
    Exchange(a[..b - n], a[b - n..b], d, a[b..]);
  }

  /** A diff of two texts, as a caller asks for it: it is a script from `a` to `b` for all texts
      with at most 65531 distinct lines, unless it throws. It can only throw if `a` contains
      "hasOwnProperty"; and when no deadline is set, or the differing middles `x` and `y` of the texts
      have no common piece half as long as the longer of them, it throws iff both are longer than 100
      units, neither is a piece of the other, and the last line of `x` is "hasOwnProperty".

      The script keeps what the texts share at both ends. A middle that is a piece of the other one is
      kept whole, and then nothing is deleted or nothing inserted; with a deadline, a longest common
      piece of the middles is kept if it is half as long as the longer one. */
  method DiffMain(a: Str, b: Str, checklines: bool, timeoutSet: bool, score: (Str, Str) -> int)
    returns (ok: bool, r: seq<Diff>)
    requires checklines ==> Distinct(a, b) <= 65531
    ensures ok ==> Text1(r) == a && Text2(r) == b && Normal(r) && Tight(r)
    ensures !checklines || !Piece(HasOwn(), a) ==> ok
    ensures forall p, x, y, s :: checklines && IsTrimmed(a, b, p, x, y, s) && NoHalfMatch(x, y, timeoutSet) ==>
              (!ok <==> LineModeThrows(x, y))
    ensures forall p, x, y, s :: ok && IsTrimmed(a, b, p, x, y, s) ==>
              && AllKept(r, p, x, y, s, timeoutSet)
              && (Piece(x, y) ==> NoText(r, Delete)) && (Piece(y, x) ==> NoText(r, Insert))
    ensures a == b ==> ok && r == if a == [] then [] else [Diff(Equal, a)]
  {
    hide IsTrimmed, NoMiddle, LineModeThrows, AllKept, NoText, Piece, HasOwn, Distinct, Side;
    if checklines {
      SliceIsPiece(a, 0, |a|);
      SliceIsPiece(b, 0, |b|);
      assert a[0..|a|] == a && b[0..|b|] == b;
    }
    ok, r := DiffTexts(a, b, checklines, timeoutSet, score, a, b);
    forall p, x, y, s | ok && IsTrimmed(a, b, p, x, y, s)
      ensures Piece(x, y) ==> NoText(r, Delete)
      ensures Piece(y, x) ==> NoText(r, Insert)
    {
      KeptWhole(a, b, r, p, x, y, s, timeoutSet);
    }
  }

  /** No part of the kind has any text. */
  predicate NoText(r: seq<Diff>, op: Op) {
    forall i :: 0 <= i < |r| && r[i].op == op ==> r[i].text == []
  }

  lemma KeptWhole(a: Str, b: Str, r: seq<Diff>, p: Str, x: Str, y: Str, s: Str, timeoutSet: bool)
    requires IsTrimmed(a, b, p, x, y, s) && Text1(r) == a && Text2(r) == b && AllKept(r, p, x, y, s, timeoutSet)
    ensures Piece(x, y) ==> NoText(r, Delete)
    ensures Piece(y, x) ==> NoText(r, Insert)
  {
    hide Side, Piece, Keeps, LongestCommon, NoMiddle;
    LengthsAdd(r);
    if Piece(x, y) {
      NoneOfKind(r, Delete);
    }
    if Piece(y, x) {
      NoneOfKind(r, Insert);
    }
  }

  // ----- texts on which it throws -----

  /** Texts without a common unit share nothing that could keep line mode away. */
  lemma NothingShared(a: Str, b: Str)
    requires a != [] && b != [] && forall c :: c in a ==> c !in b
    ensures IsTrimmed(a, b, [], a, b, []) && NoMiddle(a, b) && !Piece(a, b) && !Piece(b, a)
  {
    forall s | Piece(s, a) && Piece(s, b)
      ensures s == []
    {
      OnlyNothing(s, a, b);
    }
    assert [] + a + [] == a && [] + b + [] == b && a + [] == a && b + [] == b;
    assert a[0] in a && a[|a| - 1] in a && b[0] in b && b[|b| - 1] in b;
    WholeIsPiece(a);
    WholeIsPiece(b);
  }

  lemma OnlyNothing(s: Str, a: Str, b: Str)
    requires Piece(s, a) && Piece(s, b) && forall c :: c in a ==> c !in b
    ensures s == []
  {
    hide Piece;
    HeadOfPiece(s, a);
    HeadOfPiece(s, b);
  }

  lemma HeadOfPiece(s: Str, a: Str)
    requires Piece(s, a)
    ensures s != [] ==> s[0] in a
  {
    var i :| OccursAt(a, s, i);
    assert s != [] ==> a[i] == a[i..i + |s|][0];
  }

  /** One line is the only line of its text. */
  lemma OneLine(s: Str)
    requires s != [] && NEWLINE !in s
    ensures Lines(s) == [s]
  {
    var n := FirstLine(s);
    assert s[n - 1] in s;
    assert s[..n] == s && s[n..] == [];
  }

  lemma TwoLines(s: Str, t: Str)
    requires NEWLINE !in s && t != [] && NEWLINE !in t
    ensures Lines(s + [NEWLINE] + t) == [s + [NEWLINE], t]
  {
    hide Lines;
    LineThenRest(s + [NEWLINE], t);
    OneLine(t);
  }

  function Times(c: Code, n: nat): Str {
    seq(n, _ => c)
  }

  lemma HasOwnIsPlain()
    ensures |HasOwn()| == 14 && NEWLINE !in HasOwn() && 66 !in HasOwn()
  {
  }

  lemma FewLines(a: Str, b: Str)
    requires |Lines(a)| == 2 && |Lines(b)| == 1
    ensures Distinct(a, b) <= 3
  {
    var x, y, z := Lines(a)[0], Lines(a)[1], Lines(b)[0];
    SmallerSet(LineSet(a) + LineSet(b), {} + {x} + {y} + {z});
    OneMore({}, x);
    OneMore({} + {x}, y);
    OneMore({} + {x} + {y}, z);
  }

  /** Two such texts: 100 times "A", a newline and "hasOwnProperty"; and 101 times "B". */
  method ThrowsOnHasOwnProperty(timeoutSet: bool, score: (Str, Str) -> int) returns (a: Str, b: Str, ok: bool)
    ensures a == Times(65, 100) + [NEWLINE] + HasOwn() && b == Times(66, 101) && !ok
  {
    hide HasOwn, IsTrimmed, NoMiddle, LineModeThrows, Times, Distinct;
    a, b := Times(65, 100) + [NEWLINE] + HasOwn(), Times(66, 101);
    TheTextsThrow(a, b);
    var r;
    ok, r := DiffMain(a, b, true, timeoutSet, score);
  }

  lemma TheTextsThrow(a: Str, b: Str)
    requires a == Times(65, 100) + [NEWLINE] + HasOwn() && b == Times(66, 101)
    ensures Distinct(a, b) <= 3 && IsTrimmed(a, b, [], a, b, []) && NoMiddle(a, b) && LineModeThrows(a, b)
  {
    hide HasOwn, IsTrimmed, NoMiddle, Distinct;
    HasOwnIsPlain();
    TwoLines(Times(65, 100), HasOwn());
    OneLine(b);
    FewLines(a, b);
    NothingShared(a, b);
  }
}
