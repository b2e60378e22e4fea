/** Positions and line lists of an editor document.

    A document is a non-empty list of lines.  Such lists form a monoid under `Glue`, which
    joins the last line of one list to the first line of the next: gluing is exactly
    concatenation of the texts the lists stand for.  Cutting a list at a position and reading
    the part between two positions are the two other operations the editor needs. */
module Text {

  /** A position: line number and offset in the line. */
  datatype Pos = Pos(line: int, ch: int)

  type Lines = ls: seq<string> | |ls| > 0 witness [""]

  function Last<T>(s: seq<T>): T
    requires |s| > 0
  {
    s[|s| - 1]
  }

  /** Negative, zero or positive as `a` is before, at or after `b`. */
  function Cmp(a: Pos, b: Pos): int {
    if a.line != b.line then a.line - b.line else a.ch - b.ch
  }

  predicate Leq(a: Pos, b: Pos) {
    Cmp(a, b) <= 0
  }

  predicate ValidPos(d: Lines, p: Pos) {
    0 <= p.line < |d| && 0 <= p.ch <= |d[p.line]|
  }

  function Glue(a: Lines, b: Lines): (r: Lines)
    ensures |r| == |a| + |b| - 1
  {
    a[..|a| - 1] + [Last(a) + b[0]] + b[1..]
  }

  /** The position just after all of `a`. */
  function EndOf(a: Lines): Pos {
    Pos(|a| - 1, |Last(a)|)
  }

  /** The text before `p`. */
  function Before(d: Lines, p: Pos): Lines
    requires ValidPos(d, p)
  {
    d[..p.line] + [d[p.line][..p.ch]]
  }

  /** The text after `p`. */
  function After(d: Lines, p: Pos): Lines
    requires ValidPos(d, p)
  {
    [d[p.line][p.ch..]] + d[p.line + 1..]
  }

  /** The text between `p` and `q`, as the lines between them with the two outer ones cut. */
  function Between(d: Lines, p: Pos, q: Pos): (r: Lines)
    requires ValidPos(d, p) && ValidPos(d, q) && Leq(p, q)
    ensures |r| == q.line - p.line + 1
  {
    if p.line == q.line then [d[p.line][p.ch..q.ch]]
    else [d[p.line][p.ch..]] + d[p.line + 1..q.line] + [d[q.line][..q.ch]]
  }

  // ----- the monoid -----

  lemma GlueAssociative(a: Lines, b: Lines, c: Lines)
    ensures Glue(Glue(a, b), c) == Glue(a, Glue(b, c))
  {
    var l, r := Glue(Glue(a, b), c), Glue(a, Glue(b, c));
    if |b| == 1 {
      assert Glue(a, b) == a[..|a| - 1] + [Last(a) + b[0]];
      assert Glue(b, c) == [b[0] + c[0]] + c[1..];
      assert (Last(a) + b[0]) + c[0] == Last(a) + (b[0] + c[0]);
    }
    assert l == r;
  }

  lemma GlueUnit(a: Lines)
    ensures Glue(a, [""]) == a
    ensures Glue([""], a) == a
  {
    assert Last(a) + "" == Last(a);
    assert "" + a[0] == a[0];
  }

  /** Cutting and gluing are inverse, in both directions. */
  lemma CutThenGlue(d: Lines, p: Pos)
    requires ValidPos(d, p)
    ensures Glue(Before(d, p), After(d, p)) == d
    ensures EndOf(Before(d, p)) == p
  {
    assert d[p.line][..p.ch] + d[p.line][p.ch..] == d[p.line];
  }

  lemma GlueThenCut(a: Lines, b: Lines)
    ensures ValidPos(Glue(a, b), EndOf(a))
    ensures Before(Glue(a, b), EndOf(a)) == a
    ensures After(Glue(a, b), EndOf(a)) == b
  {
    var d, p := Glue(a, b), EndOf(a);
    assert d[p.line] == Last(a) + b[0];
    assert d[p.line][..p.ch] == Last(a);
    assert d[p.line][p.ch..] == b[0];
  }

  lemma BetweenOfThree(a: Lines, b: Lines, c: Lines)
    ensures var d, p, q := Glue(Glue(a, b), c), EndOf(a), EndOf(Glue(a, b));
            && ValidPos(d, p) && ValidPos(d, q) && Leq(p, q)
            && Before(d, p) == a && Between(d, p, q) == b && After(d, q) == c
  {
    var d, p, q := Glue(Glue(a, b), c), EndOf(a), EndOf(Glue(a, b));
    GlueAssociative(a, b, c);
    GlueThenCut(a, Glue(b, c));
    GlueThenCut(Glue(a, b), c);
    if |b| == 1 {
      assert d[p.line] == Last(a) + b[0] + c[0];
      assert Between(d, p, q)[0] == b[0];
    } else {
      assert d[p.line] == Last(a) + b[0];
      assert d[q.line] == Last(b) + c[0];
      var m := Between(d, p, q);
      assert m[0] == b[0];
      assert Last(m) == Last(b);
      assert forall i :: 0 < i < |b| - 1 ==> m[i] == b[i];
    }
    assert Between(d, p, q) == b;
  }

  /** Any two ordered positions cut a document in three. */
  lemma CutInThree(d: Lines, p: Pos, q: Pos)
    requires ValidPos(d, p) && ValidPos(d, q) && Leq(p, q)
    ensures Glue(Before(d, p), Between(d, p, q)) == Before(d, q)
    ensures Glue(Glue(Before(d, p), Between(d, p, q)), After(d, q)) == d
  {
    if p.line == q.line {
      assert d[p.line][..p.ch] + d[p.line][p.ch..q.ch] == d[p.line][..q.ch];
    } else {
      assert d[p.line][..p.ch] + d[p.line][p.ch..] == d[p.line];
      assert d[..q.line] == d[..p.line] + [d[p.line]] + d[p.line + 1..q.line];
    }
    CutThenGlue(d, q);
  }
}
