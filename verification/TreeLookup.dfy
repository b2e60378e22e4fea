/** What the searches in the line tree mean for the flat list of lines. */
module TreeLookup {
  import opened LineTree

  // ----- heights -----

  ghost predicate NonNegative(lines: map<Ref, Line>, ls: seq<Ref>) {
    forall l :: l in ls ==> LineHeight(lines, l) >= 0
  }

  /** The first line that reaches below `h`. */
  function FirstAbove(lines: map<Ref, Line>, ls: seq<Ref>, h: int): nat {
    if ls == [] then 0
    else if h < LineHeight(lines, ls[0]) then 0
    else 1 + FirstAbove(lines, ls[1..], h - LineHeight(lines, ls[0]))
  }

  lemma {:induction false} HeightsNonNegative(lines: map<Ref, Line>, ls: seq<Ref>)
    requires NonNegative(lines, ls)
    ensures Heights(lines, ls) >= 0
  {
    if ls != [] {
      HeightsNonNegative(lines, ls[1..]);
    }
  }

  /** The search may skip a block of lines by its total height. */
  lemma {:induction false} FirstAboveSkips(lines: map<Ref, Line>, a: seq<Ref>, b: seq<Ref>, h: int)
    requires NonNegative(lines, a + b)
    ensures FirstAbove(lines, a + b, h)
         == if h < Heights(lines, a) then FirstAbove(lines, a, h) else |a| + FirstAbove(lines, b, h - Heights(lines, a))
  {
    if a == [] {
      assert a + b == b;
      assert b != [] ==> b[0] in a + b;
    } else {
      assert (a + b)[1..] == a[1..] + b;
      assert a[0] in a + b;
      var h' := h - LineHeight(lines, a[0]);
      FirstAboveSkips(lines, a[1..], b, h');
      assert NonNegative(lines, a[1..]) by { assert forall l :: l in a[1..] ==> l in a + b; }
      HeightsNonNegative(lines, a[1..]);
    }
  }

  /** The line whose span of heights contains `h`: the lines up to `k` do not reach below `h`, and
      those up to `k + 1` do. */
  ghost predicate SpansHeight(lines: map<Ref, Line>, ls: seq<Ref>, h: int, k: int) {
    && 0 <= k <= |ls|
    && (forall j :: 0 < j <= k ==> Heights(lines, ls[..j]) <= h)
    && (k < |ls| ==> h < Heights(lines, ls[..k + 1]))
  }

  lemma {:induction false} FirstAboveSpans(lines: map<Ref, Line>, ls: seq<Ref>, h: int)
    ensures SpansHeight(lines, ls, h, FirstAbove(lines, ls, h))
  {
    if ls != [] {
      var lh, k := LineHeight(lines, ls[0]), FirstAbove(lines, ls, h);
      assert ls[..1] == [ls[0]] && [ls[0]][1..] == [];
      assert Heights(lines, ls[..1]) == lh;
      if h >= lh {
        FirstAboveSpans(lines, ls[1..], h - lh);
        var rest := ls[1..];
        forall j | 0 < j <= |ls|
          ensures Heights(lines, ls[..j]) == lh + Heights(lines, rest[..j - 1])
        {
          assert ls[..j][1..] == rest[..j - 1];
        }
      }
    }
  }

  lemma SpanIsUnique(lines: map<Ref, Line>, ls: seq<Ref>, h: int, j: int, k: int)
    requires SpansHeight(lines, ls, h, j) && SpansHeight(lines, ls, h, k)
    ensures j == k
  {
  }

  lemma {:induction false} PrefixesGrow(lines: map<Ref, Line>, ls: seq<Ref>, i: int, j: int)
    requires NonNegative(lines, ls) && 0 <= i <= j <= |ls|
    ensures Heights(lines, ls[..i]) <= Heights(lines, ls[..j])
  {
    assert ls[..j] == ls[..i] + ls[i..j];
    HeightsConcat(lines, ls[..i], ls[i..j]);
    HeightsNonNegative(lines, ls[i..j]);
  }

  /** The height above a line of positive height is found in that line. */
  lemma TopOfLineIsInLine(lines: map<Ref, Line>, ls: seq<Ref>, n: int, k: int)
    requires NonNegative(lines, ls) && 0 <= n < |ls| && LineHeight(lines, ls[n]) > 0
    requires SpansHeight(lines, ls, Heights(lines, ls[..n]), k)
    ensures k == n
  {
    var h := Heights(lines, ls[..n]);
    assert ls[..n + 1] == ls[..n] + [ls[n]];
    HeightsConcat(lines, ls[..n], [ls[n]]);
    assert [ls[n]][1..] == [];
    forall j | 0 < j <= n
      ensures Heights(lines, ls[..j]) <= h
    {
      PrefixesGrow(lines, ls, j, n);
    }
    SpanIsUnique(lines, ls, h, n, k);
  }

  // ----- visiting lines in order -----

  /** The lines an iteration visits: all of them, or up to the first one at which it stops. */
  function Visit(ls: seq<Ref>, stop: Ref -> bool): seq<Ref> {
    if ls == [] then [] else if stop(ls[0]) then [ls[0]] else [ls[0]] + Visit(ls[1..], stop)
  }

  ghost predicate Stops(ls: seq<Ref>, stop: Ref -> bool) {
    exists l :: l in ls && stop(l)
  }

  lemma {:induction false} VisitConcat(a: seq<Ref>, b: seq<Ref>, stop: Ref -> bool)
    ensures Visit(a + b, stop) == if Stops(a, stop) then Visit(a, stop) else a + Visit(b, stop)
  {
    if a == [] {
      assert a + b == b;
    } else {
      assert (a + b)[1..] == a[1..] + b;
      VisitConcat(a[1..], b, stop);
      assert forall l :: l in a <==> l == a[0] || l in a[1..];
      if !stop(a[0]) && !Stops(a, stop) {
        assert [a[0]] + (a[1..] + Visit(b, stop)) == a + Visit(b, stop);
      }
    }
  }

  /** An iteration that is never stopped visits every line, once and in order. */
  lemma {:induction false} VisitAll(ls: seq<Ref>, stop: Ref -> bool)
    requires !Stops(ls, stop)
    ensures Visit(ls, stop) == ls
  {
    VisitConcat(ls, [], stop);
    assert ls + [] == ls;
  }

  lemma StopsConcat(a: seq<Ref>, b: seq<Ref>, stop: Ref -> bool)
    ensures Stops(a + b, stop) <==> Stops(a, stop) || Stops(b, stop)
  {
    assert forall l :: l in a + b <==> l in a || l in b;
  }

  // ----- one line changes its height -----

  lemma {:induction false} HeightsChange(l1: map<Ref, Line>, l2: map<Ref, Line>, ls: seq<Ref>, l: Ref)
    requires NoRepeats(ls) && forall x :: x != l ==> LineHeight(l2, x) == LineHeight(l1, x)
    ensures Heights(l2, ls) == Heights(l1, ls) + if l in ls then LineHeight(l2, l) - LineHeight(l1, l) else 0
  {
    if ls != [] {
      HeightsChange(l1, l2, ls[1..], l);
      assert ls == [ls[0]] + ls[1..];
      assert forall x :: x in ls <==> x == ls[0] || x in ls[1..];
    }
  }
}
