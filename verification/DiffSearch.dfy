/** The string searches of the diff engine. */
module DiffSearch {
  import opened DiffText

  function Min(a: int, b: int): int {
    if a < b then a else b
  }

  /** `a.substring(from, to)` of the source language, which clamps its arguments. */
  function Substring(a: Str, from: int, to: int): Str {
    var i := if from < 0 then 0 else Min(from, |a|);
    var j := if to < 0 then 0 else Min(to, |a|);
    if i <= j then a[i..j] else a[j..i]
  }

  predicate OccursAt(s: Str, p: Str, i: int) {
    0 <= i && i + |p| <= |s| && s[i..i + |p|] == p
  }

  /** The first occurrence of `p` in `s` at or after `from`, or -1. */
  function IndexOf(s: Str, p: Str, from: nat): (r: int)
    ensures r == -1 ==> forall i :: from <= i ==> !OccursAt(s, p, i)
    ensures r != -1 ==> from <= r && OccursAt(s, p, r) && forall i :: from <= i < r ==> !OccursAt(s, p, i)
    decreases |s| - from
  {
    if from + |p| > |s| then -1
    else if s[from..from + |p|] == p then from
    else IndexOf(s, p, from + 1)
  }

  /** `k` is the length of the longest common prefix. */
  predicate LongestPrefix(a: Str, b: Str, k: int) {
    && 0 <= k <= |a| && k <= |b|
    && a[..k] == b[..k]
    && (k < |a| && k < |b| ==> a[k] != b[k])
  }

  predicate LongestSuffix(a: Str, b: Str, k: int) {
    && 0 <= k <= |a| && k <= |b|
    && a[|a| - k..] == b[|b| - k..]
    && (k < |a| && k < |b| ==> a[|a| - k - 1] != b[|b| - k - 1])
  }

  /** The last `k` units of `a` are the first `k` of `b`. */
  predicate Overlaps(a: Str, b: Str, k: int) {
    0 <= k <= |a| && k <= |b| && a[|a| - k..] == b[..k]
  }

  /** Binary search for the common prefix. */
  method CommonPrefix(a: Str, b: Str) returns (mid: nat)
    ensures LongestPrefix(a, b, mid)
  {
    if |a| == 0 || |b| == 0 || a[0] != b[0] {
      return 0;
    }
    var min, max, start := 0, Min(|a|, |b|), 0;
    mid := max;
    while min < mid
      invariant 0 <= min <= mid <= max <= |a| && max <= |b|
      invariant start == min && a[..min] == b[..min]
      invariant (min == 0 < mid == max == Min(|a|, |b|))
             || (mid == (max - min) / 2 + min
                 && (if min == max then max == Min(|a|, |b|) else a[..max] != b[..max]))
      decreases max - min, mid - min
    {
      if a[start..mid] == b[start..mid] {
        assert a[..mid] == a[..start] + a[start..mid];
        assert b[..mid] == b[..start] + b[start..mid];
        min := mid;
        start := min;
      } else {
        assert a[start..mid] == a[..mid][start..];
        assert b[start..mid] == b[..mid][start..];
        max := mid;
      }
      mid := (max - min) / 2 + min;
    }
    assert min < max ==> a[..max] == a[..min] + [a[min]] && b[..max] == b[..min] + [b[min]];
  }

  predicate SameSuffix(a: Str, b: Str, k: int) {
    0 <= k <= |a| && k <= |b| && a[|a| - k..] == b[|b| - k..]
  }

  lemma SuffixExtends(a: Str, b: Str, mid: nat, end: nat)
    requires end <= mid <= |a| && mid <= |b| && SameSuffix(a, b, end)
    ensures a[|a| - mid..|a| - end] == b[|b| - mid..|b| - end] <==> SameSuffix(a, b, mid)
  {
    var x, y := a[|a| - mid..], b[|b| - mid..];
    assert x == x[..mid - end] + a[|a| - end..];
    assert y == y[..mid - end] + b[|b| - end..];
    assert x[..mid - end] == a[|a| - mid..|a| - end];
    assert y[..mid - end] == b[|b| - mid..|b| - end];
  }

  lemma SuffixStops(a: Str, b: Str, k: nat)
    requires SameSuffix(a, b, k)
    requires k == Min(|a|, |b|) || (k < |a| && k < |b| && !SameSuffix(a, b, k + 1))
    ensures LongestSuffix(a, b, k)
  {
    if k < |a| && k < |b| {
      SuffixExtends(a, b, k + 1, k);
    }
  }

  /** Binary search for the common suffix. */
  method CommonSuffix(a: Str, b: Str) returns (mid: nat)
    ensures LongestSuffix(a, b, mid)
  {
    hide SameSuffix, LongestSuffix;
    if |a| == 0 || |b| == 0 || a[|a| - 1] != b[|b| - 1] {
      NoCommonSuffix(a, b);
      return 0;
    }
    var min, max, end := 0, Min(|a|, |b|), 0;
    mid := max;
    assert SameSuffix(a, b, 0) by { EmptySuffix(a, b); }
    while min < mid
      invariant 0 <= min <= mid <= max <= |a| && max <= |b|
      invariant end == min && SameSuffix(a, b, min)
      invariant (min == 0 < mid == max == Min(|a|, |b|))
             || (mid == (max - min) / 2 + min
                 && (if min == max then max == Min(|a|, |b|) else !SameSuffix(a, b, max)))
      decreases max - min, mid - min
    {
      SuffixExtends(a, b, mid, end);
      if a[|a| - mid..|a| - end] == b[|b| - mid..|b| - end] {
        min := mid;
        end := min;
      } else {
        max := mid;
      }
      mid := (max - min) / 2 + min;
    }
    SuffixStops(a, b, mid);
  }

  lemma EmptySuffix(a: Str, b: Str)
    ensures SameSuffix(a, b, 0)
  {
  }

  lemma NoCommonSuffix(a: Str, b: Str)
    requires |a| == 0 || |b| == 0 || a[|a| - 1] != b[|b| - 1]
    ensures LongestSuffix(a, b, 0)
  {
  }

  /** An overlap of length `e` holds every shorter suffix of `a` where it must be. */
  lemma OverlapHoldsSuffix(a: Str, b: Str, e: nat, k: nat)
    requires Overlaps(a, b, k) && e <= k
    ensures OccursAt(b, a[|a| - e..], k - e)
  {
    assert a[|a| - e..] == a[|a| - k..][k - e..];
    assert b[k - e..k] == b[..k][k - e..];
  }

  /** Cutting two texts to the length of the shorter one keeps their overlaps. */
  lemma CutKeepsOverlaps(a: Str, b: Str, k: int)
    ensures var n := Min(|a|, |b|); Overlaps(a, b, k) <==> Overlaps(a[|a| - n..], b[..n], k)
  {
    var n := Min(|a|, |b|);
    if 0 <= k <= n {
      TailOfTail(a, n, k);
      HeadOfHead(b, n, k);
      SameOverlap(a, b, a[|a| - n..], b[..n], k);
    }
  }

  lemma SameOverlap(a: Str, b: Str, x: Str, y: Str, k: nat)
    requires k <= |a| && k <= |b| && k <= |x| && k <= |y|
    requires a[|a| - k..] == x[|x| - k..] && b[..k] == y[..k]
    ensures Overlaps(a, b, k) <==> Overlaps(x, y, k)
  {
  }

  lemma HeadOfHead(b: Str, n: nat, k: nat)
    requires k <= n <= |b|
    ensures b[..n][..k] == b[..k]
  {
  }

  lemma TailOfTail(a: Str, n: nat, k: nat)
    requires k <= n <= |a|
    ensures a[|a| - n..][n - k..] == a[|a| - k..]
  {
  }

  /** The longest overlap of the end of `a` with the start of `b`. */
  method CommonOverlap(a: Str, b: Str) returns (best: nat)
    ensures Overlaps(a, b, best)
    ensures forall k :: best < k ==> !Overlaps(a, b, k)
  {
    hide Overlaps;
    var n := Min(|a|, |b|);
    forall k
      ensures Overlaps(a, b, k) <==> Overlaps(a[|a| - n..], b[..n], k)
    {
      CutKeepsOverlaps(a, b, k);
    }
    if n == 0 {
      EmptyOverlap(a, b);
      return 0;
    }
    var x := if |a| > |b| then a[|a| - n..] else a;
    var y := if |a| < |b| then b[..n] else b;
    assert x == a[|a| - n..] && y == b[..n];
    if x == y {
      WholeOverlap(x);
      return n;
    }
    best := OverlapOfDistinct(x, y);
  }

  lemma EmptyOverlap(a: Str, b: Str)
    ensures Overlaps(a, b, 0)
    ensures forall k :: k > Min(|a|, |b|) ==> !Overlaps(a, b, k)
  {
  }

  lemma WholeOverlap(a: Str)
    ensures Overlaps(a, a, |a|)
    ensures forall k :: k > |a| ==> !Overlaps(a, a, k)
  {
  }

  lemma NoOverlapBefore(a: Str, b: Str, length: nat, found: int)
    requires 0 < length <= |a| == |b|
    requires found == IndexOf(b, a[|a| - length..], 0)
    ensures found == -1 ==> forall k :: length <= k ==> !Overlaps(a, b, k)
    ensures forall k :: length <= k < length + found ==> !Overlaps(a, b, k)
    ensures found == 0 ==> Overlaps(a, b, length)
    ensures found != -1 ==> length + found <= |b|
  {
    forall k | length <= k && (found == -1 || k < length + found)
      ensures !Overlaps(a, b, k)
    {
      if Overlaps(a, b, k) {
        OverlapHoldsSuffix(a, b, length, k);
      }
    }
  }

  /** The search proper, for two different texts of the same length: look for the last `length`
      units of `a` in `b`; wherever they first occur, no shorter extension can overlap. */
  method OverlapOfDistinct(a: Str, b: Str) returns (best: nat)
    requires |a| == |b| > 0 && a != b
    ensures Overlaps(a, b, best)
    ensures forall k :: best < k ==> !Overlaps(a, b, k)
  {
    hide OccursAt;
    var n := |a|;
    best := 0;
    var length := 1;
    while true
      invariant 0 <= best < length <= n + 1
      invariant Overlaps(a, b, best)
      invariant forall k :: best < k < length ==> !Overlaps(a, b, k)
      decreases n + 1 - length
    {
      var pattern := Substring(a, n - length, n);
      var found := IndexOf(b, pattern, 0);
      if length == n + 1 {
        assert pattern == a;
        WholeIsNotFound(a, b);
      } else {
        assert pattern == a[n - length..];
        NoOverlapBefore(a, b, length, found);
      }
      if found == -1 {
        return;
      }
      length := length + found;
      if found == 0 || a[n - length..] == b[..length] {
        best := length;
        length := length + 1;
      }
    }
  }

  lemma WholeIsNotFound(a: Str, b: Str)
    requires |a| == |b| && a != b
    ensures IndexOf(b, a, 0) == -1
  {
    assert b[0..|a|] == b;
  }

  // ----- pieces of a text -----

  /** `s` is a piece of `t`. */
  ghost predicate Piece(s: Str, t: Str) {
    exists k :: OccursAt(t, s, k)
  }

  lemma PieceOfPiece(a: Str, b: Str, c: Str)
    requires Piece(a, b) && Piece(b, c)
    ensures Piece(a, c)
  {
    var i :| OccursAt(b, a, i);
    var j :| OccursAt(c, b, j);
    SliceOfSlice(c, j, |b|, i, |a|);
    assert OccursAt(c, a, j + i);
  }

  lemma SliceOfSlice(c: Str, j: nat, n: nat, i: nat, m: nat)
    requires j + n <= |c| && i + m <= n
    ensures c[j..j + n][i..i + m] == c[j + i..j + i + m]
  {
    var x, y := c[j..j + n][i..i + m], c[j + i..j + i + m];
    assert forall k :: 0 <= k < m ==> x[k] == y[k];
  }

  lemma SliceIsPiece(s: Str, i: nat, j: nat)
    requires i <= j <= |s|
    ensures Piece(s[i..j], s)
  {
    assert OccursAt(s, s[i..j], i);
  }

  lemma WholeIsPiece(a: Str)
    ensures Piece(a, a)
  {
    assert OccursAt(a, a, 0);
  }

  lemma PartsArePieces(x: Str, y: Str)
    ensures Piece(x, x + y) && Piece(y, x + y)
  {
    SliceIsPiece(x + y, 0, |x|);
    SliceIsPiece(x + y, |x|, |x| + |y|);
    assert (x + y)[0..|x|] == x && (x + y)[|x|..|x| + |y|] == y;
  }

  lemma SuffixAgrees(a: Str, b: Str, k: nat, i: nat)
    requires LongestSuffix(a, b, k)
    ensures k <= |a| && k <= |b| && (i < k ==> a[|a| - i - 1] == b[|b| - i - 1])
    ensures k < |a| && k < |b| ==> a[|a| - k - 1] != b[|b| - k - 1]
  {
    var x, y := a[|a| - k..], b[|b| - k..];
    assert i < k ==> x[k - i - 1] == a[|a| - i - 1] && y[k - i - 1] == b[|b| - i - 1];
  }

  lemma SuffixIsUnique(a: Str, b: Str, j: nat, k: nat)
    requires LongestSuffix(a, b, j) && LongestSuffix(a, b, k)
    ensures j == k
  {
    hide LongestSuffix;
    SuffixAgrees(a, b, j, k);
    SuffixAgrees(a, b, k, j);
  }
}
