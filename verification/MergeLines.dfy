/** Texts cut into lines at newlines, and what a common stretch of two texts says about lines. */
module MergeLines {
  import opened DiffText

  /** The lines of a text, without their newlines. */
  function Split(s: Str): (r: seq<Str>)
    ensures |r| > 0
  {
    if s == [] then [[]]
    else if s[0] == NEWLINE then [[]] + Split(s[1..])
    else [[s[0]] + Split(s[1..])[0]] + Split(s[1..])[1..]
  }

  function Newlines(s: Str): nat {
    |Split(s)| - 1
  }

  /** Two lists of lines with the last line of one joined to the first of the other. */
  function Joined(x: seq<Str>, y: seq<Str>): seq<Str>
    requires |x| > 0 && |y| > 0
  {
    x[..|x| - 1] + [x[|x| - 1] + y[0]] + y[1..]
  }

  lemma JoinedAfterNewline(x: seq<Str>, y: seq<Str>)
    requires |x| > 0 && |y| > 0
    ensures [[]] + Joined(x, y) == Joined([[]] + x, y)
  {
  }

  lemma JoinedAfterUnit(c: Code, x: seq<Str>, y: seq<Str>)
    requires |x| > 0 && |y| > 0
    ensures [[c] + Joined(x, y)[0]] + Joined(x, y)[1..] == Joined([[c] + x[0]] + x[1..], y)
  {
    if |x| == 1 {
      assert [c] + (x[0] + y[0]) == ([c] + x[0]) + y[0];
    }
  }

  lemma {:induction false} SplitConcat(a: Str, b: Str)
    ensures Split(a + b) == Joined(Split(a), Split(b))
    ensures Newlines(a + b) == Newlines(a) + Newlines(b)
  {
    if a == [] {
      assert a + b == b;
      assert [] + Split(b)[0] == Split(b)[0];
    } else {
      SplitConcat(a[1..], b);
      assert (a + b)[1..] == a[1..] + b;
      assert (a + b)[0] == a[0];
      hide Joined;
      if a[0] == NEWLINE {
        JoinedAfterNewline(Split(a[1..]), Split(b));
      } else {
        JoinedAfterUnit(a[0], Split(a[1..]), Split(b));
      }
    }
  }

  predicate AtLineStart(s: Str) {
    s == [] || s[|s| - 1] == NEWLINE
  }

  predicate AtLineEnd(s: Str) {
    s == [] || s[0] == NEWLINE
  }

  lemma {:induction false} LastLineEmpty(s: Str)
    requires AtLineStart(s)
    ensures Split(s)[|Split(s)| - 1] == []
    decreases |s|
  {
    if |s| > 1 {
      LastLineEmpty(s[1..]);
      assert Split(s[1..]) != [[]] by {
        LongerThanOne(s[1..]);
      }
    }
  }

  lemma {:induction false} LongerThanOne(s: Str)
    requires s != [] && s[|s| - 1] == NEWLINE
    ensures |Split(s)| > 1
    decreases |s|
  {
    if |s| > 1 {
      LongerThanOne(s[1..]);
    }
  }

  /** Line `j` of the stretch `s` inside `e + s + x`. */
  lemma LineInside(e: Str, s: Str, x: Str, j: nat)
    requires j <= Newlines(s)
    ensures var all := Split(e + s + x);
            Newlines(e) + j < |all| &&
            all[Newlines(e) + j] == (if j == 0 then Split(e)[Newlines(e)] else []) + Split(s)[j]
                                    + (if j == Newlines(s) then Split(x)[0] else [])
  {
    SplitConcat(e + s, x);
    SplitConcat(e, s);
    var es := Split(e + s);
    var l := es[Newlines(e) + j];
    assert l == (if j == 0 then Split(e)[Newlines(e)] else []) + Split(s)[j] by {
      assert [] + Split(s)[j] == Split(s)[j];
    }
    assert l + [] == l;
  }

  /** A stretch common to two texts gives equal lines, except a first line that does not start in
      it and a last line that does not end in it. */
  lemma CleanStretch(e: Str, o: Str, s: Str, x: Str, y: Str, startOff: nat, endOff: nat, j: nat)
    requires startOff <= 1 && endOff <= 1 && startOff <= j < Newlines(s) + endOff
    requires startOff == 0 ==> AtLineStart(e) && AtLineStart(o)
    requires endOff == 1 ==> AtLineEnd(x) && AtLineEnd(y)
    ensures Newlines(e) + j < |Split(e + s + x)| && Newlines(o) + j < |Split(o + s + y)|
    ensures Split(e + s + x)[Newlines(e) + j] == Split(o + s + y)[Newlines(o) + j]
  {
    LineInside(e, s, x, j);
    LineInside(o, s, y, j);
    if j == 0 {
      LastLineEmpty(e);
      LastLineEmpty(o);
    }
  }
}
