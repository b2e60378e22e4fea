/** How many distinct lines a diff by lines can tell apart: what `DiffMain` asks of its caller cannot
    be relaxed by a single line. */
module DiffBound {
  import opened DiffText
  import opened DiffSearch
  import opened DiffLines
  import opened DiffMain

  /** A line with its newline. */
  predicate Ended(l: Str) {
    IsLine(l) && EndsInNewline(l)
  }

  function Joined(ls: seq<Str>): Str {
    if ls == [] then [] else ls[0] + Joined(ls[1..])
  }

  lemma {:induction false} LinesOfJoined(ls: seq<Str>, s: Str)
    requires forall i :: 0 <= i < |ls| ==> Ended(ls[i])
    ensures Lines(Joined(ls) + s) == ls + Lines(s)
    decreases |ls|
  {
    hide Lines;
    if ls == [] {
      assert Joined(ls) + s == s && ls + Lines(s) == Lines(s);
    } else {
      LinesOfJoined(ls[1..], s);
      LineThenRest(ls[0], Joined(ls[1..]) + s);
      assert Joined(ls) + s == ls[0] + (Joined(ls[1..]) + s);
      assert [ls[0]] + (ls[1..] + Lines(s)) == ls + Lines(s);
    }
  }

  /** Lines between a first line and a last one. */
  function Framed(first: Str, ls: seq<Str>, last: Str): Str {
    first + (Joined(ls) + last)
  }

  lemma LinesOfFramed(first: Str, ls: seq<Str>, last: Str)
    requires Ended(first) && (forall i :: 0 <= i < |ls| ==> Ended(ls[i])) && last != [] && IsLine(last)
    ensures LineSet(Framed(first, ls, last)) == {first} + Members(ls) + {last}
  {
    LineThenRest(first, Joined(ls) + last);
    LinesOfJoined(ls, last);
    WholeLine(last);
    hide Ended;
    assert Lines(Framed(first, ls, last)) == [first] + (ls + [last]);
  }

  function Members(ls: seq<Str>): set<Str> {
    set l | l in ls
  }

  /** Texts framed by lines that are also inside have no more than the lines inside. */
  lemma FramedByMembers(ls: seq<Str>, x: Str, u: Str, y: Str, v: Str)
    requires forall i :: 0 <= i < |ls| ==> Ended(ls[i])
    requires x in ls && u in ls && y in ls && v in ls
    ensures Distinct(Framed(x, ls, u), Framed(y, ls, v)) == |Members(ls)|
  {
    LinesOfFramed(x, ls, u);
    LinesOfFramed(y, ls, v);
    hide Framed, LineSet, Ended;
    assert ({x} + Members(ls) + {u}) + ({y} + Members(ls) + {v}) == Members(ls);
  }

  /** Texts framed by four other lines have four more. */
  lemma FramedByOthers(ls: seq<Str>, x: Str, u: Str, y: Str, v: Str)
    requires forall i :: 0 <= i < |ls| ==> Ended(ls[i])
    requires Ended(x) && Ended(y) && u != [] && IsLine(u) && v != [] && IsLine(v)
    requires x !in ls && u !in ls && y !in ls && v !in ls && x !in {u, y, v} && u !in {y, v} && y != v
    ensures Distinct(Framed(x, ls, u), Framed(y, ls, v)) == |Members(ls)| + 4
  {
    hide Framed, LineSet, Ended;
    LinesOfFramed(x, ls, u);
    LinesOfFramed(y, ls, v);
    FourMore(Members(ls), x, u, y, v);
  }

  lemma FourMore(s: set<Str>, x: Str, u: Str, y: Str, v: Str)
    requires x !in s && u !in s && y !in s && v !in s && x !in {u, y, v} && u !in {y, v} && y != v
    ensures |({x} + s + {u}) + ({y} + s + {v})| == |s| + 4
  {
    var s1 := s + {x};
    var s2 := s1 + {u};
    var s3 := s2 + {y};
    assert ({x} + s + {u}) + ({y} + s + {v}) == s3 + {v};
    assert u !in s1 && y !in s2 && v !in s3;
  }

  lemma WholeLine(l: Str)
    requires l != [] && IsLine(l)
    ensures Lines(l) == [l]
  {
    assert FirstLine(l) == |l| && l[..|l|] == l && l[|l|..] == [];
  }

  // ----- as many lines as wanted -----

  /** The `i`-th unit other than a newline. */
  function Unit(i: nat): Code
    requires i < 65535
  {
    if i < NEWLINE then i else i + 1
  }

  function Short(i: nat): Str
    requires i < 65535
  {
    [Unit(i), NEWLINE]
  }

  function Long(i: nat, j: nat): Str
    requires i < 65535 && j < 65535
  {
    [Unit(i), Unit(j), NEWLINE]
  }

  /** `n` short lines, and four long ones. */
  function Body(n: nat): seq<Str>
    requires n <= 65535
  {
    seq(n, i requires 0 <= i < n => Short(i)) + [Long(0, 65533), Long(0, 65534), Long(1, 0), Long(2, 0)]
  }

  lemma BodyLines(n: nat)
    requires n <= 65535
    ensures |Body(n)| == n + 4
    ensures forall i :: 0 <= i < n ==> Body(n)[i] == Short(i)
    ensures Body(n)[n] == Long(0, 65533) && Body(n)[n + 1] == Long(0, 65534)
    ensures Body(n)[n + 2] == Long(1, 0) && Body(n)[n + 3] == Long(2, 0)
  {
  }

  lemma BodyIsDistinct(n: nat)
    requires n <= 65535
    ensures forall i, j :: 0 <= i < j < |Body(n)| ==> Body(n)[i] != Body(n)[j]
    ensures forall i :: 0 <= i < |Body(n)| ==> Ended(Body(n)[i])
  {
    hide Body;
    BodyLines(n);
    forall i, j | 0 <= i < j < n + 4
      ensures Body(n)[i] != Body(n)[j]
    {
      if j < n {
        assert Short(i)[0] != Short(j)[0];
      } else if n <= i {
        assert Long(0, 65533)[1] != Long(0, 65534)[1] && Long(1, 0)[0] != Long(2, 0)[0];
        assert Long(0, 65533)[0] != Long(1, 0)[0] && Long(0, 65533)[0] != Long(2, 0)[0];
        assert Long(0, 65534)[0] != Long(1, 0)[0] && Long(0, 65534)[0] != Long(2, 0)[0];
      } else {
        assert |Body(n)[i]| == 2 && |Body(n)[j]| == 3;
      }
    }
  }

  lemma {:induction false} SizeOfDistinct(ls: seq<Str>)
    requires forall i, j :: 0 <= i < j < |ls| ==> ls[i] != ls[j]
    ensures |Members(ls)| == |ls|
    decreases |ls|
  {
    if ls != [] {
      var n := |ls| - 1;
      SizeOfDistinct(ls[..n]);
      assert Members(ls) == Members(ls[..n]) + {ls[n]};
    }
  }

  lemma {:induction false} JoinedLength(ls: seq<Str>)
    requires forall i :: 0 <= i < |ls| ==> Ended(ls[i])
    ensures |Joined(ls)| >= |ls|
    decreases |ls|
  {
    if ls != [] {
      JoinedLength(ls[1..]);
    }
  }

  // ----- one line too many -----

  /** Two texts that share the first unit of their first line and the last two of their last line. */
  function Whole(k: nat, n: nat): Str
    requires 1 <= k <= 2 && n <= 65533
  {
    Framed(Long(0, 65532 + k), Body(n), Long(k, 0))
  }

  /** What is left of them between these. */
  function Middle(k: nat, n: nat): Str
    requires 1 <= k <= 2 && n <= 65533
  {
    Framed(Short(65532 + k), Body(n), [Unit(k)])
  }

  lemma MiddleIsTrimmed(n: nat)
    requires n <= 65533
    ensures IsTrimmed(Whole(1, n), Whole(2, n), [Unit(0)], Middle(1, n), Middle(2, n), [Unit(0), NEWLINE])
  {
    WholeParts(1, n);
    WholeParts(2, n);
    var x, y, s := Middle(1, n), Middle(2, n), [Unit(0), NEWLINE];
    Ends(x, s, y);
    assert x[0] == Unit(65533) && y[0] == Unit(65534) && x[|x| - 1] == Unit(1) && y[|y| - 1] == Unit(2);
    hide Whole, Middle;
    Starts(Unit(0), x + s, y + s);
  }

  lemma WholeParts(k: nat, n: nat)
    requires 1 <= k <= 2 && n <= 65533
    ensures Whole(k, n) == [Unit(0)] + Middle(k, n) + [Unit(0), NEWLINE]
    ensures Whole(k, n) == [Unit(0)] + (Middle(k, n) + [Unit(0), NEWLINE])
  {
    hide Joined, Body;
  }

  lemma Starts(p: Code, x: Str, y: Str)
    requires x != [] && y != [] && x[0] != y[0]
    ensures LongestPrefix([p] + x, [p] + y, 1)
  {
  }

  lemma Ends(x: Str, s: Str, y: Str)
    requires x != [] && y != [] && x[|x| - 1] != y[|y| - 1]
    ensures LongestSuffix(x + s, y + s, |s|)
  {
  }

  lemma WholeLines(n: nat)
    requires n <= 65533
    ensures Distinct(Whole(1, n), Whole(2, n)) == n + 4
  {
    hide Body, Long, Short, Framed, Distinct, Members, Ended;
    BodyLines(n);
    BodyIsDistinct(n);
    SizeOfDistinct(Body(n));
    FramedByMembers(Body(n), Long(0, 65533), Long(1, 0), Long(0, 65534), Long(2, 0));
  }

  lemma MiddleLines(n: nat)
    requires n <= 65533
    ensures Distinct(Middle(1, n), Middle(2, n)) == n + 8
  {
    hide Body, Short, Framed, Distinct, Members, Ended, Unit, IsLine;
    BodyLines(n);
    BodyIsDistinct(n);
    NotInBody(n);
    FourLines();
    SizeOfDistinct(Body(n));
    FramedByOthers(Body(n), Short(65533), [Unit(1)], Short(65534), [Unit(2)]);
  }

  lemma FourLines()
    ensures var x, u, y, v := Short(65533), [Unit(1)], Short(65534), [Unit(2)];
            Ended(x) && Ended(y) && IsLine(u) && IsLine(v) && x !in {u, y, v} && u !in {y, v} && y != v
  {
    var x, u, y, v := Short(65533), [Unit(1)], Short(65534), [Unit(2)];
    assert x[0] != y[0] && u[0] != v[0] && |x| == |y| == 2 && |u| == |v| == 1;
  }

  lemma NotInBody(n: nat)
    requires n <= 65533
    ensures Short(65533) !in Body(n) && Short(65534) !in Body(n) && [Unit(1)] !in Body(n) && [Unit(2)] !in Body(n)
  {
    hide Body;
    BodyLines(n);
    forall i | 0 <= i < |Body(n)|
      ensures Body(n)[i] != Short(65533) && Body(n)[i] != Short(65534) && |Body(n)[i]| > 1
    {
      if i < n {
        assert Short(i)[0] < Short(65533)[0] < Short(65534)[0];
      } else {
        assert |Body(n)[i]| == 3;
      }
    }
  }

  lemma MiddleReachesLineMode(n: nat)
    requires 100 < n <= 65533
    ensures var x, y := Middle(1, n), Middle(2, n);
            && 100 < |x| && 100 < |y| && !Piece(x, y) && !Piece(y, x) && !LastLineIs(x, HasOwn())
  {
    hide Body, Joined, LastLineIs;
    BodyLines(n);
    BodyIsDistinct(n);
    JoinedLength(Body(n));
    LastOfMiddle(n);
    var x, y := Middle(1, n), Middle(2, n);
    assert |x| == |y| && x[0] != y[0];
    NoPiece(x, y);
    NoPiece(y, x);
  }

  lemma LastOfMiddle(n: nat)
    requires n <= 65533
    ensures !LastLineIs(Middle(1, n), HasOwn())
  {
    hide Body, Joined, Lines;
    BodyIsDistinct(n);
    LineThenRest(Short(65533), Joined(Body(n)) + [Unit(1)]);
    LinesOfJoined(Body(n), [Unit(1)]);
    WholeLine([Unit(1)]);
    var ls := Lines(Middle(1, n));
    assert ls[|ls| - 1] == [Unit(1)];
  }

  lemma NoPiece(x: Str, y: Str)
    requires |x| == |y| && x != y
    ensures !Piece(x, y)
  {
    assert y[0..|x|] == y;
    assert forall k :: OccursAt(y, x, k) ==> k == 0;
  }

  /** Texts with 65532 distinct lines whose middles, on which line mode is reached, have 65536: encoded
      as characters, they do not decode to themselves. */
  method OneLineTooMany() returns (a: Str, b: Str, x: Str, y: Str, chars1: Str, chars2: Str, table: seq<Str>)
    ensures Distinct(a, b) == 65532 && IsTrimmed(a, b, [Unit(0)], x, y, [Unit(0), NEWLINE])
    ensures 100 < |x| && 100 < |y| && !Piece(x, y) && !Piece(y, x)
    ensures !(Decode(chars1, table) == x && Decode(chars2, table) == y)
  {
    hide Whole, Middle, IsTrimmed, Distinct, Piece, LastLineIs, HasOwn, Decode;
    var n := 65528;
    WholeLines(n);
    MiddleLines(n);
    MiddleIsTrimmed(n);
    MiddleReachesLineMode(n);
    a, b, x, y := Whole(1, n), Whole(2, n), Middle(1, n), Middle(2, n);
    var ok;
    ok, chars1, chars2, table := LinesToChars(x, y);
  }
}
