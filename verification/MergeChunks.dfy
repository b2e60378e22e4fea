/** The line chunks of a merge view: which lines of the edited text replace which original lines. */
module MergeChunks {
  import opened DiffText
  import opened DiffSearch
  import opened DiffMerge
  import opened DiffMain
  import opened MergeLines
  import DiffLines

  datatype Chunk = Chunk(origFrom: int, origTo: int, editFrom: int, editTo: int)
  datatype MaybeLine = NoLine | Line(n: int)

  /** No empty parts and no two neighbours of the same kind. */
  predicate Clean(d: seq<Diff>) {
    && (forall i :: 0 <= i < |d| ==> d[i].text != [])
    && forall i :: 0 <= i < |d| - 1 ==> d[i].op != d[i + 1].op
  }

  // ----- getDiff -----

  lemma DropEmpty(pre: seq<Diff>, d: Diff, post: seq<Diff>)
    requires d.text == []
    ensures Same(pre + post, pre + [d] + post)
  {
    hide Side;
    SideOfOne(d, Insert);
    SideOfOne(d, Delete);
    Sides3(pre, [d], post);
    SideConcat(pre, post, Insert);
    SideConcat(pre, post, Delete);
    assert Text1(pre) + [] == Text1(pre) && Text2(pre) + [] == Text2(pre);
  }

  lemma JoinSame(pre: seq<Diff>, x: Diff, y: Diff, post: seq<Diff>)
    requires x.op == y.op
    ensures Same(pre + [Diff(x.op, x.text + y.text)] + post, pre + [x, y] + post)
  {
    hide Side;
    var j := Diff(x.op, x.text + y.text);
    SideOfOne(j, Insert);
    SideOfOne(j, Delete);
    SideOfTwo(x, y, Insert);
    SideOfTwo(x, y, Delete);
    Exchange(pre, [x, y], [j], post);
  }

  /** Remove empty parts and join neighbours of the same kind. */
  method Tidy(d0: seq<Diff>) returns (d: seq<Diff>)
    ensures Same(d, d0) && Clean(d) && (Clean(d0) ==> d == d0)
  {
    hide Same, Clean;
    d := d0;
    SameIsReflexive(d);
    NothingIsClean(d);
    var i := 0;
    while i < |d|
      invariant 0 <= i <= |d| && Same(d, d0) && Clean(d[..i]) && (Clean(d0) ==> d == d0)
      decreases |d| - i
    {
      ghost var before := d;
      var part := d[i];
      CleanAt(d, i);
      if part.text == [] {
        DropEmpty(d[..i], part, d[i + 1..]);
        WithoutPart(d, i);
        d := d[..i] + d[i + 1..];
        i := i - 1;
      } else if i > 0 && d[i - 1].op == part.op {
        JoinSame(d[..i - 1], d[i - 1], part, d[i + 1..]);
        WithoutPart(d, i);
        JoinedPart(d, i, Diff(d[i - 1].op, d[i - 1].text + part.text));
        d := d[..i] + d[i + 1..];
        i := i - 1;
        d := d[i := Diff(d[i].op, d[i].text + part.text)];
        CleanExtends(before[..i + 1], d[..i + 1]);
      } else {
        CleanGrows(d, i);
      }
      SameIsTransitive(d, before, d0);
      i := i + 1;
    }
    assert d[..i] == d;
  }

  lemma WithoutPart(d: seq<Diff>, i: nat)
    requires i < |d|
    ensures d == d[..i] + [d[i]] + d[i + 1..] && (d[..i] + d[i + 1..])[..i] == d[..i]
  {
  }

  lemma JoinedPart(d: seq<Diff>, i: nat, x: Diff)
    requires 0 < i < |d|
    ensures d == d[..i - 1] + [d[i - 1], d[i]] + d[i + 1..]
    ensures (d[..i] + d[i + 1..])[i - 1] == d[i - 1]
    ensures (d[..i] + d[i + 1..])[i - 1 := x] == d[..i - 1] + [x] + d[i + 1..]
  {
  }

  lemma NothingIsClean(d: seq<Diff>)
    ensures Clean(d[..0])
  {
  }

  lemma CleanAt(d: seq<Diff>, i: nat)
    requires i < |d|
    ensures Clean(d) ==> d[i].text != [] && (i > 0 ==> d[i - 1].op != d[i].op)
  {
    assert i > 0 && Clean(d) ==> d[i - 1].op != d[i - 1 + 1].op;
  }

  lemma CleanGrows(d: seq<Diff>, i: nat)
    requires i < |d| && Clean(d[..i]) && d[i].text != [] && (i > 0 ==> d[i - 1].op != d[i].op)
    ensures Clean(d[..i + 1])
  {
    var s, t := d[..i], d[..i + 1];
    forall k | 0 <= k < |t| - 1
      ensures t[k].op != t[k + 1].op
    {
      if k + 1 < i {
        assert s[k].op != s[k + 1].op;
      }
    }
    assert forall k :: 0 <= k < i ==> t[k] == s[k];
  }

  lemma CleanExtends(s: seq<Diff>, t: seq<Diff>)
    requires Clean(s) && |s| == |t|
    requires forall k :: 0 <= k < |s| ==> t[k].op == s[k].op && |t[k].text| >= |s[k].text|
    ensures Clean(t)
  {
  }

  /** The diff behind a merge view (`ignoreWhitespace` off): a clean script from `a` to `b`. */
  method GetDiff(a: Str, b: Str, timeoutSet: bool, score: (Str, Str) -> int) returns (ok: bool, d: seq<Diff>)
    requires DiffLines.Distinct(a, b) <= 65531
    ensures ok ==> Text1(d) == a && Text2(d) == b && Clean(d)
    ensures !Piece(DiffLines.HasOwn(), a) ==> ok
    ensures a == b ==> ok && d == if a == [] then [] else [Diff(Equal, a)]
  {
    hide DiffLines.Distinct, Piece;
    ok, d := DiffMain.DiffMain(a, b, true, timeoutSet, score);
    if ok {
      d := Tidy(d);
    }
  }

  // ----- clean line boundaries -----

  predicate StartOfLineClean(d: seq<Diff>, i: int)
    requires 0 <= i < |d| && Clean(d)
  {
    i == 0 ||
    (var last := d[i - 1].text;
     last[|last| - 1] == NEWLINE &&
     (i == 1 || (var before := d[i - 2].text; before[|before| - 1] == NEWLINE)))
  }

  predicate EndOfLineClean(d: seq<Diff>, i: int)
    requires 0 <= i < |d| && Clean(d)
  {
    i == |d| - 1 ||
    (var next := d[i + 1].text;
     !(|next| == 1 && i < |d| - 2) && next[0] == NEWLINE &&
     (i == |d| - 2 ||
      (var after := d[i + 2].text; (|after| > 1 || i == |d| - 3) && after[0] == NEWLINE)))
  }

  lemma SideEndsWith(d: seq<Diff>, part: Diff, skip: Op)
    requires part.op != skip && part.text != []
    ensures Side(d + [part], skip) != []
    ensures Side(d + [part], skip)[|Side(d + [part], skip)| - 1] == part.text[|part.text| - 1]
  {
    SideConcat(d, [part], skip);
    SideOfOne(part, skip);
  }

  lemma SideSkips(d: seq<Diff>, part: Diff, skip: Op)
    requires part.op == skip
    ensures Side(d + [part], skip) == Side(d, skip) && Side([part] + d, skip) == Side(d, skip)
  {
    SideConcat(d, [part], skip);
    SideConcat([part], d, skip);
    SideOfOne(part, skip);
  }

  lemma SideStartsWith(d: seq<Diff>, part: Diff, skip: Op)
    requires part.op != skip && part.text != []
    ensures Side([part] + d, skip) != [] && Side([part] + d, skip)[0] == part.text[0]
  {
    SideConcat([part], d, skip);
    SideOfOne(part, skip);
  }

  /** The two texts before part `i` end where a line ends. */
  ghost predicate StartsBoth(d: seq<Diff>, i: nat)
    requires i <= |d|
  {
    AtLineStart(Side(d[..i], Delete)) && AtLineStart(Side(d[..i], Insert))
  }

  /** The two texts behind part `i` begin where a line ends. */
  ghost predicate EndsBoth(d: seq<Diff>, i: nat)
    requires i < |d|
  {
    AtLineEnd(Side(d[i + 1..], Delete)) && AtLineEnd(Side(d[i + 1..], Insert))
  }

  /** One of the two parts behind part `i` is a single newline, and something follows it. */
  predicate LoneNewline(d: seq<Diff>, i: nat) {
    (i + 2 < |d| && |d[i + 1].text| == 1) || (i + 3 < |d| && |d[i + 2].text| == 1)
  }

  lemma EndOfSide(d: seq<Diff>, skip: Op)
    requires d != [] && Clean(d)
    ensures d[|d| - 1].op != skip ==>
              (AtLineStart(Side(d, skip)) <==> d[|d| - 1].text[|d[|d| - 1].text| - 1] == NEWLINE)
    ensures d[|d| - 1].op == skip ==> Side(d, skip) == Side(d[..|d| - 1], skip)
  {
    hide Side;
    var last, rest := d[|d| - 1], d[..|d| - 1];
    assert d == rest + [last];
    if last.op != skip {
      SideEndsWith(rest, last, skip);
    } else {
      SideSkips(rest, last, skip);
    }
  }

  lemma CleanHead(d: seq<Diff>, i: nat)
    requires Clean(d) && i <= |d|
    ensures Clean(d[..i]) && Clean(d[i..])
  {
    forall k | 0 <= k < |d| - i - 1
      ensures d[i..][k].op != d[i..][k + 1].op
    {
      assert d[i + k].op != d[i + k + 1].op;
    }
  }

  /** An equality has a clean start iff it starts a line in both texts. */
  lemma CleanStartMeans(d: seq<Diff>, i: nat)
    requires i < |d| && Clean(d) && d[i].op == Equal
    ensures StartOfLineClean(d, i) <==> StartsBoth(d, i)
  {
    hide Side;
    SideOfNone(Insert);
    SideOfNone(Delete);
    assert d[..0] == [];
    if i > 0 {
      var last := d[i - 1];
      var other := if last.op == Insert then Delete else Insert;
      assert last.op != Equal && (i > 1 ==> d[i - 2].op != last.op);
      CleanHead(d, i);
      CleanHead(d, i - 1);
      EndOfSide(d[..i], last.op);
      EndOfSide(d[..i], other);
      assert d[..i][..i - 1] == d[..i - 1];
      if i > 1 {
        EndOfSide(d[..i - 1], last.op);
      }
    }
  }

  lemma StartOfSide(d: seq<Diff>, skip: Op)
    requires d != [] && Clean(d)
    ensures d[0].op != skip ==> (AtLineEnd(Side(d, skip)) <==> d[0].text[0] == NEWLINE)
    ensures d[0].op == skip ==> Side(d, skip) == Side(d[1..], skip)
  {
    hide Side;
    assert d == [d[0]] + d[1..];
    if d[0].op != skip {
      SideStartsWith(d[1..], d[0], skip);
    } else {
      SideSkips(d[1..], d[0], skip);
    }
  }

  /** An equality has a clean end iff it ends a line in both texts, unless a part of a single newline
      stands behind it. */
  lemma CleanEndMeans(d: seq<Diff>, i: nat)
    requires i < |d| && Clean(d) && d[i].op == Equal
    ensures EndOfLineClean(d, i) <==> EndsBoth(d, i) && !LoneNewline(d, i)
  {
    hide Side;
    SideOfNone(Insert);
    SideOfNone(Delete);
    var n := |d|;
    assert d[n..] == [];
    if i + 1 < n {
      var next := d[i + 1];
      var other := if next.op == Insert then Delete else Insert;
      assert next.op != Equal && (i + 2 < n ==> d[i + 2].op != next.op);
      CleanHead(d, i + 1);
      CleanHead(d, i + 2);
      StartOfSide(d[i + 1..], next.op);
      StartOfSide(d[i + 1..], other);
      assert d[i + 1..][1..] == d[i + 2..];
      if i + 2 < n {
        StartOfSide(d[i + 2..], next.op);
      }
    }
  }

  // ----- chunks against two lists of lines -----

  /** The chunks, in order and apart, cover everything in which `edit[..e]` and `orig[..o]` differ:
      the lines between two chunks, before the first and behind the last are equal one to one. */
  predicate Covers(cs: seq<Chunk>, edit: seq<Str>, orig: seq<Str>, e: int, o: int)
    decreases |cs|
  {
    && 0 <= e <= |edit| && 0 <= o <= |orig|
    && if cs == [] then e == o && edit[..e] == orig[..o]
       else
         var c := cs[|cs| - 1];
         && 0 <= c.editFrom <= c.editTo <= e && 0 <= c.origFrom <= c.origTo <= o
         && Covers(cs[..|cs| - 1], edit, orig, c.editFrom, c.origFrom)
         && edit[c.editTo..e] == orig[c.origTo..o]
  }

  lemma CoversPush(cs: seq<Chunk>, edit: seq<Str>, orig: seq<Str>, c: Chunk, e: int, o: int)
    requires 0 <= c.editFrom <= c.editTo <= e <= |edit| && 0 <= c.origFrom <= c.origTo <= o <= |orig|
    requires Covers(cs, edit, orig, c.editFrom, c.origFrom) && edit[c.editTo..e] == orig[c.origTo..o]
    ensures Covers(cs + [c], edit, orig, e, o)
  {
    assert (cs + [c])[..|cs + [c]| - 1] == cs;
  }

  lemma CoversFirst(edit: seq<Str>, orig: seq<Str>, n: int)
    requires 0 <= n <= |edit| && n <= |orig| && edit[0..n] == orig[0..n]
    ensures Covers([], edit, orig, n, n)
  {
    assert edit[..n] == edit[0..n] && orig[..n] == orig[0..n];
  }

  /** Count the newlines of `str` from a line number on. */
  method MoveOver(line0: nat, str: Str) returns (line: nat)
    ensures line == line0 + Newlines(str)
  {
    line := line0;
    var at := 0;
    assert str[0..] == str;
    while true
      invariant 0 <= at <= |str| && line + Newlines(str[at..]) == line0 + Newlines(str)
      decreases |str| - at
    {
      var nl := IndexOf(str, [NEWLINE], at);
      NextLineBreak(str, at);
      if nl == -1 {
        break;
      }
      line := line + 1;
      at := nl + 1;
    }
  }

  lemma NextLineBreak(s: Str, at: nat)
    requires at <= |s|
    ensures var nl := IndexOf(s, [NEWLINE], at);
            if nl == -1 then Newlines(s[at..]) == 0
            else nl < |s| && Newlines(s[at..]) == 1 + Newlines(s[nl + 1..])
    decreases |s| - at
  {
    if at < |s| {
      var t := s[at..];
      assert t[1..] == s[at + 1..] && s[at..at + 1] == [t[0]];
      if t[0] != NEWLINE {
        NextLineBreak(s, at + 1);
      }
    }
  }

  lemma SplitAt(d: seq<Diff>, i: nat, skip: Op)
    requires i < |d| && d[i].op != skip
    ensures Side(d, skip) == Side(d[..i], skip) + d[i].text + Side(d[i + 1..], skip)
    ensures Side(d[..i + 1], skip) == Side(d[..i], skip) + d[i].text
    ensures Newlines(Side(d[..i + 1], skip)) <= Newlines(Side(d, skip))
  {
    assert d == d[..i] + [d[i]] + d[i + 1..] && d[..i + 1] == d[..i] + [d[i]];
    SideConcat(d[..i] + [d[i]], d[i + 1..], skip);
    SideConcat(d[..i], [d[i]], skip);
    SideOfOne(d[i], skip);
    SplitConcat(Side(d[..i + 1], skip), Side(d[i + 1..], skip));
  }

  /** The clean lines of the equality at `i` are the same in both texts. */
  lemma CleanLinesAgree(d: seq<Diff>, i: nat, startOff: nat, endOff: nat)
    requires i < |d| && Clean(d) && d[i].op == Equal && startOff <= 1 && endOff <= 1
    requires startOff == 0 ==> StartOfLineClean(d, i)
    requires endOff == 1 ==> EndOfLineClean(d, i)
    ensures var e, o, n := Newlines(Side(d[..i], Delete)), Newlines(Side(d[..i], Insert)), Newlines(d[i].text);
            var edit, orig := Split(Text2(d)), Split(Text1(d));
            && e + n + endOff <= |edit| && o + n + endOff <= |orig|
            && (startOff <= n + endOff ==>
                  edit[e + startOff..e + n + endOff] == orig[o + startOff..o + n + endOff])
  {
    hide Side, Split, Clean, StartOfLineClean, EndOfLineClean;
    var pe, po, s := Side(d[..i], Delete), Side(d[..i], Insert), d[i].text;
    var xe, xo := Side(d[i + 1..], Delete), Side(d[i + 1..], Insert);
    var edit, orig := Split(Text2(d)), Split(Text1(d));
    SplitAt(d, i, Delete);
    SplitAt(d, i, Insert);
    CleanStartMeans(d, i);
    CleanEndMeans(d, i);
    var e, o, n := Newlines(pe), Newlines(po), Newlines(s);
    SplitConcat(pe + s, xe);
    SplitConcat(pe, s);
    SplitConcat(po + s, xo);
    SplitConcat(po, s);
    if startOff <= n + endOff {
      var x, y := edit[e + startOff..e + n + endOff], orig[o + startOff..o + n + endOff];
      forall k: int | 0 <= k < |x|
        ensures x[k] == y[k]
      {
        CleanStretch(pe, po, s, xe, xo, startOff, endOff, k + startOff);
      }
    }
  }

  // ----- which lines are in no chunk -----

  /** The number of newlines before part `i`: with `skip` deletions, in the edited text; with `skip`
      insertions, in the original. */
  function Before(d: seq<Diff>, i: nat, skip: Op): nat
    requires i <= |d|
  {
    Newlines(Side(d[..i], skip))
  }

  /** Line `j` of equality `i` is a whole line of both texts, none of the two is paired with an earlier
      line, and no lone newline stands behind it. */
  ghost predicate Paired(d: seq<Diff>, i: nat, j: nat)
    decreases i, 2
  {
    && i < |d| && d[i].op == Equal && j <= Newlines(d[i].text)
    && (j == 0 ==> StartsBoth(d, i) && !Taken(d, i))
    && (j == Newlines(d[i].text) ==> EndsBoth(d, i) && !LoneNewline(d, i))
  }

  /** One of the lines in which equality `i` starts is paired by an earlier equality that ends in it. */
  ghost predicate Taken(d: seq<Diff>, i: nat)
    requires i < |d|
    decreases i, 1
  {
    exists p: nat :: p < i && PairedAtEnd(d, p)
      && (Before(d, p + 1, Delete) == Before(d, i, Delete) || Before(d, p + 1, Insert) == Before(d, i, Insert))
  }

  ghost predicate PairedAtEnd(d: seq<Diff>, p: nat)
    decreases p, 3
  {
    p < |d| && Paired(d, p, Newlines(d[p].text))
  }
  /** Line `n` of one of the texts belongs to a pair of the first `i` parts. */
  ghost predicate PairedLine(d: seq<Diff>, i: nat, skip: Op, n: int)
    requires i <= |d|
  {
    exists p: nat, j: nat :: p < i && Paired(d, p, j) && Before(d, p, skip) + j == n
  }

  function From(c: Chunk, skip: Op): int {
    if skip == Delete then c.editFrom else c.origFrom
  }

  function To(c: Chunk, skip: Op): int {
    if skip == Delete then c.editTo else c.origTo
  }

  /** Line `n` of one of the texts lies in a chunk. */
  predicate Inside(cs: seq<Chunk>, skip: Op, n: int) {
    exists k :: 0 <= k < |cs| && From(cs[k], skip) <= n < To(cs[k], skip)
  }

  /** The scan of the first `i` parts has decided about the lines before `start`: those in no chunk
      are the paired ones. */
  ghost predicate Decided(d: seq<Diff>, i: nat, cs: seq<Chunk>, skip: Op, start: int)
    requires i <= |d|
  {
    && (forall n :: 0 <= n < start ==> (Inside(cs, skip, n) <==> !PairedLine(d, i, skip, n)))
    && (forall k :: 0 <= k < |cs| ==> To(cs[k], skip) <= start)
    && (forall n :: PairedLine(d, i, skip, n) ==> 0 <= n < start)
  }

  /** The last pair found lies just before both starts. */
  ghost predicate LastPair(d: seq<Diff>, i: nat, startEdit: int, startOrig: int)
    requires i <= |d|
  {
    (startEdit == 0 && startOrig == 0) ||
    exists p: nat, j: nat :: p < i && Paired(d, p, j)
      && Before(d, p, Delete) + j == startEdit - 1 && Before(d, p, Insert) + j == startOrig - 1
  }

  lemma NewlinesGrow(d: seq<Diff>, p: nat, i: nat, skip: Op)
    requires p <= i <= |d|
    ensures Before(d, p, skip) <= Before(d, i, skip)
    decreases i - p
  {
    hide Side, Split;
    assert d[..i] == d[..p] + d[p..i];
    SideConcat(d[..p], d[p..i], skip);
    SplitConcat(Side(d[..p], skip), Side(d[p..i], skip));
  }

  lemma EqualBefore(d: seq<Diff>, p: nat, skip: Op)
    requires p < |d| && d[p].op == Equal && skip != Equal
    ensures Before(d, p + 1, skip) == Before(d, p, skip) + Newlines(d[p].text)
  {
    hide Side, Split;
    EqualMoves(d, p);
  }

  /** A first line is taken iff the scan has already passed it in one of the texts. */
  lemma TakenMeans(d: seq<Diff>, i: nat, cs: seq<Chunk>, startEdit: int, startOrig: int)
    requires i < |d| && LastPair(d, i, startEdit, startOrig)
    requires Decided(d, i, cs, Delete, startEdit) && Decided(d, i, cs, Insert, startOrig)
    requires startEdit <= Before(d, i, Delete) + 1 && startOrig <= Before(d, i, Insert) + 1
    ensures Taken(d, i) <==> Before(d, i, Delete) < startEdit || Before(d, i, Insert) < startOrig
  {
    hide Paired, Newlines, Before, Taken, PairedLine, LastPair, Decided;
    if Taken(d, i) {
      var p := TakenBy(d, i);
      PairEndsAt(d, i, p, cs, startEdit, startOrig);
    }
    if Before(d, i, Delete) < startEdit || Before(d, i, Insert) < startOrig {
      TakenByLast(d, i, startEdit, startOrig);
    }
  }

  /** A pair at the end of an earlier equality lies before both starts. */
  lemma PairEndsAt(d: seq<Diff>, i: nat, p: nat, cs: seq<Chunk>, startEdit: int, startOrig: int)
    requires p < i < |d| && Paired(d, p, Newlines(d[p].text))
    requires Decided(d, i, cs, Delete, startEdit) && Decided(d, i, cs, Insert, startOrig)
    ensures Before(d, p + 1, Delete) < startEdit && Before(d, p + 1, Insert) < startOrig
  {
    hide Paired, Newlines, Before, Inside, To;
    var j := Newlines(d[p].text);
    PairedIsEqual(d, p, j);
    EqualBefore(d, p, Delete);
    EqualBefore(d, p, Insert);
    assert PairedLine(d, i, Delete, Before(d, p, Delete) + j) && PairedLine(d, i, Insert, Before(d, p, Insert) + j);
  }

  lemma TakenByLast(d: seq<Diff>, i: nat, startEdit: int, startOrig: int)
    requires i < |d| && LastPair(d, i, startEdit, startOrig)
    requires startEdit <= Before(d, i, Delete) + 1 && startOrig <= Before(d, i, Insert) + 1
    requires Before(d, i, Delete) < startEdit || Before(d, i, Insert) < startOrig
    ensures Taken(d, i)
  {
    hide Paired, Newlines, Before;
    NothingNegative(d, i);
    var p: nat, j: nat :| p < i && Paired(d, p, j)
      && Before(d, p, Delete) + j == startEdit - 1 && Before(d, p, Insert) + j == startOrig - 1;
    PairedIsEqual(d, p, j);
    EqualBefore(d, p, Delete);
    EqualBefore(d, p, Insert);
    NewlinesGrow(d, p + 1, i, Delete);
    NewlinesGrow(d, p + 1, i, Insert);
    assert PairedAtEnd(d, p);
  }

  lemma TakenBy(d: seq<Diff>, i: nat) returns (p: nat)
    requires i < |d| && Taken(d, i)
    ensures p < i && Paired(d, p, Newlines(d[p].text))
    ensures Before(d, p + 1, Delete) == Before(d, i, Delete) || Before(d, p + 1, Insert) == Before(d, i, Insert)
  {
    hide Paired, Before, Newlines;
    p :| p < i && PairedAtEnd(d, p)
      && (Before(d, p + 1, Delete) == Before(d, i, Delete) || Before(d, p + 1, Insert) == Before(d, i, Insert));
  }

  lemma PairedIsEqual(d: seq<Diff>, p: nat, j: nat)
    requires Paired(d, p, j)
    ensures p < |d| && d[p].op == Equal && j <= Newlines(d[p].text)
  {
  }

  lemma NothingNegative(d: seq<Diff>, i: nat)
    requires i <= |d|
    ensures Before(d, i, Delete) >= 0 && Before(d, i, Insert) >= 0
  {
  }

  /** The lines of an equality that are paired are those from its clean start to its clean end. */
  lemma PairsOfPart(d: seq<Diff>, i: nat, cs: seq<Chunk>, startEdit: int, startOrig: int, startOff: nat, endOff: nat,
                    j: nat)
    requires i < |d| && Clean(d) && d[i].op == Equal && LastPair(d, i, startEdit, startOrig)
    requires Decided(d, i, cs, Delete, startEdit) && Decided(d, i, cs, Insert, startOrig)
    requires startEdit <= Before(d, i, Delete) + 1 && startOrig <= Before(d, i, Insert) + 1
    requires var passed := Before(d, i, Delete) < startEdit || Before(d, i, Insert) < startOrig;
             startOff == if !StartOfLineClean(d, i) || passed then 1 else 0
    requires endOff == if EndOfLineClean(d, i) then 1 else 0
    ensures Paired(d, i, j) <==> startOff <= j < Newlines(d[i].text) + endOff
  {
    hide Newlines, StartOfLineClean, EndOfLineClean, Before, Clean, StartsBoth, EndsBoth, LoneNewline, Taken, Decided;
    CleanStartMeans(d, i);
    CleanEndMeans(d, i);
    TakenMeans(d, i, cs, startEdit, startOrig);
  }

  /** Line `n` of one of the texts belongs to a pair of part `i`. */
  ghost predicate PairedIn(d: seq<Diff>, i: nat, skip: Op, n: int)
    requires i <= |d|
  {
    exists j: nat :: Paired(d, i, j) && Before(d, i, skip) + j == n
  }

  lemma PairedLineNext(d: seq<Diff>, i: nat, skip: Op, n: int)
    requires i < |d|
    ensures PairedLine(d, i + 1, skip, n) <==> PairedLine(d, i, skip, n) || PairedIn(d, i, skip, n)
  {
    hide Paired, Before;
    if PairedLine(d, i + 1, skip, n) {
      var p: nat, j: nat :| p < i + 1 && Paired(d, p, j) && Before(d, p, skip) + j == n;
      assert p < i || p == i;
    }
    if PairedLine(d, i, skip, n) {
      var p: nat, j: nat :| p < i && Paired(d, p, j) && Before(d, p, skip) + j == n;
      assert p < i + 1;
    }
    if PairedIn(d, i, skip, n) {
      var j: nat :| Paired(d, i, j) && Before(d, i, skip) + j == n;
      assert i < i + 1;
    }
  }

  lemma InsideMore(cs: seq<Chunk>, c: Chunk, skip: Op, n: int)
    ensures Inside(cs + [c], skip, n) <==> Inside(cs, skip, n) || From(c, skip) <= n < To(c, skip)
  {
    hide From, To;
    var more := cs + [c];
    if Inside(cs, skip, n) {
      var k :| 0 <= k < |cs| && From(cs[k], skip) <= n < To(cs[k], skip);
      assert more[k] == cs[k];
    }
    if From(c, skip) <= n < To(c, skip) {
      assert more[|cs|] == c;
    }
  }

  lemma EditsPairNothing(d: seq<Diff>, i: nat, skip: Op, n: int)
    requires i < |d| && d[i].op != Equal
    ensures !PairedIn(d, i, skip, n)
  {
    forall j: nat
      ensures !Paired(d, i, j)
    {
      if Paired(d, i, j) {
        PairedIsEqual(d, i, j);
      }
    }
    hide Paired, Before;
  }

  lemma PairedFrom(d: seq<Diff>, i: nat, skip: Op, lo: nat, hi: int, n: int)
    requires i <= |d| && forall j: nat :: Paired(d, i, j) <==> lo <= j < hi
    ensures PairedIn(d, i, skip, n) <==> Before(d, i, skip) + lo <= n < Before(d, i, skip) + hi
  {
    hide Paired, Before;
    var b := Before(d, i, skip);
    if b + lo <= n < b + hi {
      var j: nat := n - b;
      assert Paired(d, i, j);
    }
    if PairedIn(d, i, skip, n) {
      var j: nat :| Paired(d, i, j) && b + j == n;
    }
  }

  lemma DecidedEdit(d: seq<Diff>, i: nat, cs: seq<Chunk>, skip: Op, start: int)
    requires i < |d| && d[i].op != Equal && Decided(d, i, cs, skip, start)
    ensures Decided(d, i + 1, cs, skip, start)
  {
    hide PairedLine, PairedIn, Inside, From, To;
    var next := i + 1;
    forall n
      ensures PairedLine(d, next, skip, n) <==> PairedLine(d, i, skip, n)
    {
      PairedLineNext(d, i, skip, n);
      EditsPairNothing(d, i, skip, n);
    }
  }

  /** What an equality decides, when its paired lines are those from `startOff` on. */
  lemma DecidedEqual(d: seq<Diff>, i: nat, cs: seq<Chunk>, skip: Op, start: int, startOff: nat, endOff: nat)
    requires i < |d| && Decided(d, i, cs, skip, start) && start <= Before(d, i, skip) + startOff
    requires forall j: nat :: Paired(d, i, j) <==> startOff <= j < Newlines(d[i].text) + endOff
    ensures var b, n := Before(d, i, skip), Newlines(d[i].text) + endOff;
            if n > startOff then
              && (forall c :: From(c, skip) == start && To(c, skip) == b + startOff ==>
                    Decided(d, i + 1, cs + [c], skip, b + n))
              && (start == b + startOff ==> Decided(d, i + 1, cs, skip, b + n))
            else Decided(d, i + 1, cs, skip, start)
  {
    hide Paired, Before, Newlines, PairedLine, PairedIn, Inside, From, To;
    var next, b, m := i + 1, Before(d, i, skip), Newlines(d[i].text) + endOff;
    forall n
      ensures PairedLine(d, next, skip, n) <==> PairedLine(d, i, skip, n) || b + startOff <= n < b + m
    {
      PairedLineNext(d, i, skip, n);
      PairedFrom(d, i, skip, startOff, m, n);
    }
    forall n
      ensures Inside(cs, skip, n) ==> n < start
    {
      InsideBounded(cs, skip, n, start);
    }
    if m > startOff {
      forall c | From(c, skip) == start && To(c, skip) == b + startOff
        ensures Decided(d, i + 1, cs + [c], skip, b + m)
      {
        forall n
          ensures Inside(cs + [c], skip, n) <==> Inside(cs, skip, n) || start <= n < b + startOff
        {
          InsideMore(cs, c, skip, n);
        }
      }
    }
  }

  lemma InsideBounded(cs: seq<Chunk>, skip: Op, n: int, start: int)
    requires forall k :: 0 <= k < |cs| ==> To(cs[k], skip) <= start
    ensures Inside(cs, skip, n) ==> n < start
  {
    hide From, To;
  }

  /** The chunks so far leave out the paired lines, and only these. */
  ghost predicate Snug(d: seq<Diff>, i: nat, cs: seq<Chunk>, startEdit: int, startOrig: int)
    requires i <= |d|
  {
    && Decided(d, i, cs, Delete, startEdit) && Decided(d, i, cs, Insert, startOrig)
    && LastPair(d, i, startEdit, startOrig)
  }

  lemma SnugStarts(d: seq<Diff>)
    ensures Snug(d, 0, [], 0, 0)
  {
    hide Paired, Before;
  }

  lemma SnugEdit(d: seq<Diff>, i: nat, cs: seq<Chunk>, startEdit: int, startOrig: int)
    requires i < |d| && d[i].op != Equal && Snug(d, i, cs, startEdit, startOrig)
    ensures Snug(d, i + 1, cs, startEdit, startOrig)
  {
    hide Decided, Paired, Before;
    DecidedEdit(d, i, cs, Delete, startEdit);
    DecidedEdit(d, i, cs, Insert, startOrig);
  }

  lemma SnugEqual(d: seq<Diff>, i: nat, cs: seq<Chunk>, startEdit: int, startOrig: int, startOff: nat, endOff: nat)
    requires i < |d| && Clean(d) && d[i].op == Equal && Snug(d, i, cs, startEdit, startOrig)
    requires startEdit <= Before(d, i, Delete) + 1 && startOrig <= Before(d, i, Insert) + 1
    requires i == 0 ==> startEdit == startOrig == 0
    requires var passed := Before(d, i, Delete) < startEdit || Before(d, i, Insert) < startOrig;
             startOff == if !StartOfLineClean(d, i) || passed then 1 else 0
    requires endOff == if EndOfLineClean(d, i) then 1 else 0
    ensures var e, o, n := Before(d, i, Delete), Before(d, i, Insert), Newlines(d[i].text) + endOff;
            if n > startOff then
              var cs' := if i > 0 then cs + [Chunk(startOrig, o + startOff, startEdit, e + startOff)] else cs;
              Snug(d, i + 1, cs', e + n, o + n)
            else Snug(d, i + 1, cs, startEdit, startOrig)
    ensures i > 0 ==> startEdit < Before(d, i, Delete) + startOff || startOrig < Before(d, i, Insert) + startOff
  {
    hide Decided, Before, Newlines, LastPair, StartOfLineClean, EndOfLineClean, Clean, Paired;
    forall j: nat
      ensures Paired(d, i, j) <==> startOff <= j < Newlines(d[i].text) + endOff
    {
      PairsOfPart(d, i, cs, startEdit, startOrig, startOff, endOff, j);
    }
    if i == 0 {
      NothingBefore(d);
      FirstStarts(d);
    }
    DecidedEqual(d, i, cs, Delete, startEdit, startOff, endOff);
    DecidedEqual(d, i, cs, Insert, startOrig, startOff, endOff);
    LastPairNext(d, i, startEdit, startOrig, startOff, endOff);
    if i > 0 {
      ChunkIsNotEmpty(d, i, startEdit, startOrig, startOff);
    }
  }

  lemma FirstStarts(d: seq<Diff>)
    requires d != [] && Clean(d)
    ensures StartOfLineClean(d, 0) && Before(d, 0, Delete) == 0 && Before(d, 0, Insert) == 0
  {
    hide Newlines, Side;
    NothingBefore(d);
  }

  lemma LastPairNext(d: seq<Diff>, i: nat, startEdit: int, startOrig: int, startOff: nat, endOff: nat)
    requires i < |d| && LastPair(d, i, startEdit, startOrig)
    requires forall j: nat :: Paired(d, i, j) <==> startOff <= j < Newlines(d[i].text) + endOff
    ensures LastPair(d, i + 1, startEdit, startOrig)
    ensures var n := Newlines(d[i].text) + endOff;
            n > startOff ==> LastPair(d, i + 1, Before(d, i, Delete) + n, Before(d, i, Insert) + n)
  {
    hide Paired, Before, Newlines;
    var n := Newlines(d[i].text) + endOff;
    if n > startOff {
      var j: nat := n - 1;
      assert Paired(d, i, j);
    }
  }

  // ----- no chunk is empty -----

  /** The `skip` with which an edit moves its text on. */
  function Other(op: Op): Op {
    if op == Insert then Delete else Insert
  }

  predicate StartsWithNewline(s: Str) {
    s != [] && s[0] == NEWLINE
  }

  predicate EndsWithNewline(s: Str) {
    s != [] && s[|s| - 1] == NEWLINE
  }

  lemma SomeNewlines(s: Str)
    ensures StartsWithNewline(s) || EndsWithNewline(s) ==> Newlines(s) >= 1
    ensures StartsWithNewline(s) && EndsWithNewline(s) && |s| > 1 ==> Newlines(s) >= 2
  {
    if EndsWithNewline(s) {
      LongerThanOne(s);
      if |s| > 1 {
        LongerThanOne(s[1..]);
      }
    }
  }

  lemma EditBefore(d: seq<Diff>, k: nat)
    requires k < |d| && d[k].op != Equal
    ensures Before(d, k + 1, Other(d[k].op)) == Before(d, k, Other(d[k].op)) + Newlines(d[k].text)
  {
    hide Side, Split;
    SplitAt(d, k, Other(d[k].op));
    SplitConcat(Side(d[..k], Other(d[k].op)), d[k].text);
  }

  /** The newlines of an edit between two places are counted between them. */
  lemma EditCounts(d: seq<Diff>, lo: nat, k: nat, hi: nat)
    requires lo <= k < hi <= |d| && d[k].op != Equal
    ensures Before(d, lo, Other(d[k].op)) + Newlines(d[k].text) <= Before(d, hi, Other(d[k].op))
  {
    hide Before, Newlines;
    NewlinesGrow(d, lo, k, Other(d[k].op));
    EditBefore(d, k);
    NewlinesGrow(d, k + 1, hi, Other(d[k].op));
  }

  /** The newlines of two edits of one kind are both counted. */
  lemma EditsCount(d: seq<Diff>, lo: nat, k: nat, l: nat, hi: nat)
    requires lo <= k < l < hi <= |d| && d[k].op == d[l].op != Equal
    ensures Before(d, lo, Other(d[k].op)) + Newlines(d[k].text) + Newlines(d[l].text) <= Before(d, hi, Other(d[k].op))
  {
    hide Before, Newlines;
    EditCounts(d, lo, k, l);
    EditCounts(d, l, l, hi);
  }

  /** What a clean start at `i` and a paired end at `p` say about the newlines between them: some are
      counted in one of the texts, and two when the start is clean. */
  lemma NewlinesBetween(d: seq<Diff>, p: nat, i: nat)
    requires Clean(d) && p < i < |d| && d[p].op == d[i].op == Equal && EndOfLineClean(d, p)
    ensures Before(d, p + 1, Delete) < Before(d, i, Delete) || Before(d, p + 1, Insert) < Before(d, i, Insert)
    ensures StartOfLineClean(d, i) ==>
              || Before(d, p + 1, Delete) == Before(d, i, Delete) || Before(d, p + 1, Insert) == Before(d, i, Insert)
              || Before(d, p + 1, Delete) + 2 <= Before(d, i, Delete)
              || Before(d, p + 1, Insert) + 2 <= Before(d, i, Insert)
  {
    hide Before, Newlines;
    assert d[p].op != d[p + 1].op && d[i - 1].op != d[i - 1 + 1].op;
    SomeNewlines(d[p + 1].text);
    SomeNewlines(d[i - 1].text);
    EditCounts(d, p + 1, p + 1, i);
    if StartOfLineClean(d, i) && p + 2 < i {
      SomeNewlines(d[i - 2].text);
      if p + 3 == i {
        assert d[p + 1].op != d[p + 1 + 1].op;
        EditCounts(d, p + 1, i - 1, i);
      } else {
        BothEndBehind(d, p, i);
      }
    } else if p + 2 == i {
      OneEditBetween(d, p);
    }
  }

  lemma OneEditBetween(d: seq<Diff>, p: nat)
    requires p + 2 < |d| && d[p + 1].op != Equal
    ensures Before(d, p + 1, Delete) == Before(d, p + 2, Delete) || Before(d, p + 1, Insert) == Before(d, p + 2, Insert)
  {
    hide Side, Newlines;
    var e := d[p + 1];
    assert d[..p + 2] == d[..p + 1] + [e];
    SideSkips(d[..p + 1], e, e.op);
  }

  /** A newline right behind `p` and one right before `i` count twice in one text. */
  lemma BothEndBehind(d: seq<Diff>, p: nat, i: nat)
    requires Clean(d) && p + 3 < i < |d| && d[i].op == Equal && d[p + 1].op != Equal
    requires StartsWithNewline(d[p + 1].text) && EndsWithNewline(d[i - 1].text) && EndsWithNewline(d[i - 2].text)
    ensures Before(d, p + 1, Delete) + 2 <= Before(d, i, Delete) || Before(d, p + 1, Insert) + 2 <= Before(d, i, Insert)
  {
    hide Before, Newlines;
    assert d[i - 1].op != d[i - 1 + 1].op && d[i - 2].op != d[i - 2 + 1].op;
    SomeNewlines(d[p + 1].text);
    SomeNewlines(d[i - 1].text);
    SomeNewlines(d[i - 2].text);
    if d[i - 1].op == d[p + 1].op {
      EditsCount(d, p + 1, p + 1, i - 1, i);
    } else if d[i - 2].op == d[p + 1].op {
      EditsCount(d, p + 1, p + 1, i - 2, i);
    } else {
      EditCounts(d, p + 1, p + 1, i - 2);
      EqualBefore(d, i - 2, Other(d[p + 1].op));
      NewlinesGrow(d, i - 1, i, Other(d[p + 1].op));
    }
  }

  /** The chunk that ends before equality `i` has lines of one of the texts. This rests on the exception
      for a lone newline. */
  lemma ChunkIsNotEmpty(d: seq<Diff>, i: nat, startEdit: int, startOrig: int, startOff: nat)
    requires 0 < i < |d| && Clean(d) && d[i].op == Equal && LastPair(d, i, startEdit, startOrig)
    requires var passed := Before(d, i, Delete) < startEdit || Before(d, i, Insert) < startOrig;
             startOff == if !StartOfLineClean(d, i) || passed then 1 else 0
    ensures startEdit < Before(d, i, Delete) + startOff || startOrig < Before(d, i, Insert) + startOff
  {
    hide Before, Newlines, Paired, EndOfLineClean;
    NothingNegative(d, i);
    assert d[i - 1].op != d[i - 1 + 1].op;
    SomeNewlines(d[i - 1].text);
    if startEdit == 0 && startOrig == 0 {
      EditCounts(d, 0, i - 1, i);
    } else {
      var p: nat, j: nat :| p < i && Paired(d, p, j)
        && Before(d, p, Delete) + j == startEdit - 1 && Before(d, p, Insert) + j == startOrig - 1;
      PairedIsEqual(d, p, j);
      EqualBefore(d, p, Delete);
      EqualBefore(d, p, Insert);
      NewlinesGrow(d, p + 1, i, Delete);
      NewlinesGrow(d, p + 1, i, Insert);
      if j == Newlines(d[p].text) {
        PairedEndsClean(d, p);
        NewlinesBetween(d, p, i);
      } else {
        EditCounts(d, p + 1, i - 1, i);
      }
    }
  }

  lemma PairedEndsClean(d: seq<Diff>, p: nat)
    requires p < |d| && Clean(d) && Paired(d, p, Newlines(d[p].text))
    ensures EndOfLineClean(d, p)
  {
    CleanEndMeans(d, p);
  }

  predicate NotEmpty(c: Chunk) {
    c.editFrom < c.editTo || c.origFrom < c.origTo
  }

  /** When every line is paired there is no chunk. */
  lemma NoChunkIsLeft(d: seq<Diff>, cs: seq<Chunk>)
    requires LeavesOutPairs(d, cs) && forall k :: 0 <= k < |cs| ==> NotEmpty(cs[k])
    requires forall k :: 0 <= k < |cs| ==> 0 <= cs[k].editFrom && cs[k].editTo <= Before(d, |d|, Delete) + 1
                                           && 0 <= cs[k].origFrom && cs[k].origTo <= Before(d, |d|, Insert) + 1
    requires forall n :: 0 <= n <= Before(d, |d|, Delete) ==> PairedLine(d, |d|, Delete, n)
    requires forall n :: 0 <= n <= Before(d, |d|, Insert) ==> PairedLine(d, |d|, Insert, n)
    ensures cs == []
  {
    hide PairedLine, Before;
    if cs != [] {
      FirstHasLine(cs);
    }
  }

  lemma FirstHasLine(cs: seq<Chunk>)
    requires cs != [] && NotEmpty(cs[0])
    ensures (cs[0].editFrom < cs[0].editTo && Inside(cs, Delete, cs[0].editFrom))
            || (cs[0].origFrom < cs[0].origTo && Inside(cs, Insert, cs[0].origFrom))
  {
    var c := cs[0];
    assert From(cs[0], Delete) == c.editFrom && From(cs[0], Insert) == c.origFrom;
  }

  /** All lines of a script of one equality are paired. */
  lemma OneEqualityPairs(a: Str, skip: Op, n: int)
    requires skip != Equal && 0 <= n <= Before([Diff(Equal, a)], 1, skip)
    ensures PairedLine([Diff(Equal, a)], 1, skip, n)
  {
    hide Newlines;
    var d := [Diff(Equal, a)];
    assert d[..0] == [] && d[1..] == [] && d[..1] == d;
    SideOfNone(Delete);
    SideOfNone(Insert);
    NothingBefore(d);
    EqualBefore(d, 0, skip);
    var j: nat := n;
    assert Paired(d, 0, j) && Before(d, 0, skip) + j == n;
  }

  /** The last chunk takes in the lines that are left. */
  lemma SnugEnds(d: seq<Diff>, cs: seq<Chunk>, startEdit: int, startOrig: int)
    requires Snug(d, |d|, cs, startEdit, startOrig)
    requires startEdit <= Before(d, |d|, Delete) + 1 && startOrig <= Before(d, |d|, Insert) + 1
    ensures var e, o := Before(d, |d|, Delete), Before(d, |d|, Insert);
            var c := Chunk(startOrig, o + 1, startEdit, e + 1);
            LeavesOutPairs(d, if startEdit <= e || startOrig <= o then cs + [c] else cs)
  {
    hide Paired, Before, PairedLine, Inside;
    var e, o := Before(d, |d|, Delete), Before(d, |d|, Insert);
    var c := Chunk(startOrig, o + 1, startEdit, e + 1);
    forall n
      ensures Inside(cs + [c], Delete, n) <==> Inside(cs, Delete, n) || startEdit <= n < e + 1
      ensures Inside(cs + [c], Insert, n) <==> Inside(cs, Insert, n) || startOrig <= n < o + 1
    {
      InsideMore(cs, c, Delete, n);
      InsideMore(cs, c, Insert, n);
    }
  }

  /** A line of either text is in no chunk iff it is paired. */
  ghost predicate LeavesOutPairs(d: seq<Diff>, cs: seq<Chunk>) {
    && (forall n :: 0 <= n <= Before(d, |d|, Delete) ==> (Inside(cs, Delete, n) <==> !PairedLine(d, |d|, Delete, n)))
    && (forall n :: 0 <= n <= Before(d, |d|, Insert) ==> (Inside(cs, Insert, n) <==> !PairedLine(d, |d|, Insert, n)))
  }

  /** Where the scan stands before part `i`. */
  predicate Scan(d: seq<Diff>, i: int, cs: seq<Chunk>, startEdit: int, startOrig: int, edit: int, orig: int) {
    && 0 <= i <= |d|
    && edit == Newlines(Side(d[..i], Delete)) && orig == Newlines(Side(d[..i], Insert))
    && edit < |Split(Text2(d))| && orig < |Split(Text1(d))|
    && startEdit <= edit + 1 && startOrig <= orig + 1
    && Covers(cs, Split(Text2(d)), Split(Text1(d)), startEdit, startOrig)
    && (i == 0 ==> cs == [] && startEdit == startOrig == 0)
  }

  lemma ScanStarts(d: seq<Diff>)
    ensures Scan(d, 0, [], 0, 0, 0, 0)
  {
    assert d[..0] == [];
  }

  lemma ScanBefore(d: seq<Diff>, i: nat, cs: seq<Chunk>, startEdit: int, startOrig: int, edit: int, orig: int)
    requires Scan(d, i, cs, startEdit, startOrig, edit, orig)
    ensures i <= |d| && edit == Before(d, i, Delete) && orig == Before(d, i, Insert)
    ensures startEdit <= edit + 1 && startOrig <= orig + 1 && (i == 0 ==> startEdit == startOrig == 0)
  {
  }

  /** An edit moves the scan in one of the two texts. */
  lemma ScanEdit(d: seq<Diff>, i: int, cs: seq<Chunk>, startEdit: int, startOrig: int, edit: int, orig: int)
    requires Scan(d, i, cs, startEdit, startOrig, edit, orig) && i < |d| && d[i].op != Equal
    ensures d[i].op == Insert ==> Scan(d, i + 1, cs, startEdit, startOrig, edit + Newlines(d[i].text), orig)
    ensures d[i].op == Delete ==> Scan(d, i + 1, cs, startEdit, startOrig, edit, orig + Newlines(d[i].text))
  {
    hide Side, Split, Covers;
    var other := if d[i].op == Insert then Delete else Insert;
    SplitAt(d, i, other);
    SplitConcat(Side(d[..i], other), d[i].text);
    assert d[..i + 1] == d[..i] + [d[i]];
    SideSkips(d[..i], d[i], d[i].op);
  }

  /** An equality moves the scan in both texts, and its clean lines, if any, end a chunk. */
  lemma ScanEqual(d: seq<Diff>, i: int, cs: seq<Chunk>, startEdit: int, startOrig: int, edit: int, orig: int,
                  startOff: nat, endOff: nat)
    requires Scan(d, i, cs, startEdit, startOrig, edit, orig) && i < |d| && Clean(d) && d[i].op == Equal
    requires startOff == if !StartOfLineClean(d, i) || edit < startEdit || orig < startOrig then 1 else 0
    requires endOff == if EndOfLineClean(d, i) then 1 else 0
    ensures var n := Newlines(d[i].text);
            var edit', orig' := edit + n, orig + n;
            if edit' + endOff > edit + startOff then
              var cs' := if i > 0 then cs + [Chunk(startOrig, orig + startOff, startEdit, edit + startOff)] else cs;
              Scan(d, i + 1, cs', edit' + endOff, orig' + endOff, edit', orig')
            else Scan(d, i + 1, cs, startEdit, startOrig, edit', orig')
  {
    hide Side, Split, Clean, StartOfLineClean, EndOfLineClean, Covers, Newlines;
    EqualMoves(d, i);
    CleanLinesAgree(d, i, startOff, endOff);
    if i == 0 {
      FirstIsClean(d);
      NothingBefore(d);
    }
    if Newlines(d[i].text) + endOff > startOff {
      CoversOn(cs, Split(Text2(d)), Split(Text1(d)), i, startEdit, startOrig, edit, orig, Newlines(d[i].text),
               startOff, endOff);
    }
  }

  /** A clean stretch of `n` line ends closes the chunk before it. */
  lemma CoversOn(cs: seq<Chunk>, le: seq<Str>, lo: seq<Str>, i: nat, startEdit: int, startOrig: int, edit: int,
                 orig: int, n: nat, startOff: nat, endOff: nat)
    requires Covers(cs, le, lo, startEdit, startOrig)
    requires startEdit <= edit + startOff && startOrig <= orig + startOff && startOff < n + endOff
    requires 0 <= edit && 0 <= orig && edit + n + endOff <= |le| && orig + n + endOff <= |lo|
    requires le[edit + startOff..edit + n + endOff] == lo[orig + startOff..orig + n + endOff]
    requires i == 0 ==> cs == [] && startEdit == startOrig == edit == orig == startOff == 0
    ensures var cs' := if i > 0 then cs + [Chunk(startOrig, orig + startOff, startEdit, edit + startOff)] else cs;
            Covers(cs', le, lo, edit + n + endOff, orig + n + endOff)
  {
    assert 0 <= startEdit && 0 <= startOrig;
    hide Covers;
    if i > 0 {
      CoversPush(cs, le, lo, Chunk(startOrig, orig + startOff, startEdit, edit + startOff),
                 edit + n + endOff, orig + n + endOff);
    } else {
      CoversFirst(le, lo, n + endOff);
    }
  }

  /** An equality moves the scan alike in both texts. */
  lemma EqualMoves(d: seq<Diff>, i: nat)
    requires i < |d| && d[i].op == Equal
    ensures Newlines(Side(d[..i + 1], Delete)) == Newlines(Side(d[..i], Delete)) + Newlines(d[i].text)
    ensures Newlines(Side(d[..i + 1], Insert)) == Newlines(Side(d[..i], Insert)) + Newlines(d[i].text)
    ensures Newlines(Side(d[..i + 1], Delete)) < |Split(Text2(d))|
    ensures Newlines(Side(d[..i + 1], Insert)) < |Split(Text1(d))|
  {
    hide Side, Split;
    SplitAt(d, i, Delete);
    SplitConcat(Side(d[..i], Delete), d[i].text);
    SplitAt(d, i, Insert);
    SplitConcat(Side(d[..i], Insert), d[i].text);
  }

  lemma NothingBefore(d: seq<Diff>)
    ensures Newlines(Side(d[..0], Delete)) == 0 && Newlines(Side(d[..0], Insert)) == 0
  {
    assert d[..0] == [];
    SideOfNone(Insert);
    SideOfNone(Delete);
    SplitNothing();
  }

  lemma FirstIsClean(d: seq<Diff>)
    requires d != [] && Clean(d)
    ensures StartOfLineClean(d, 0)
  {
  }

  lemma SplitNothing()
    ensures Split([]) == [[]]
  {
  }

  /** The chunks of a clean script cover exactly its differences, line by line. */
  method GetChunks(d: seq<Diff>) returns (chunks: seq<Chunk>)
    requires Clean(d)
    ensures Covers(chunks, Split(Text2(d)), Split(Text1(d)), |Split(Text2(d))|, |Split(Text1(d))|)
    ensures LeavesOutPairs(d, chunks) && forall k :: 0 <= k < |chunks| ==> NotEmpty(chunks[k])
  {
    hide Scan, Covers, Side, Split, StartOfLineClean, EndOfLineClean, Snug, LeavesOutPairs, Before, Newlines, Clean;
    chunks := [];
    var startEdit, startOrig, edit, orig := 0, 0, 0, 0;
    ScanStarts(d);
    SnugStarts(d);
    var i := 0;
    while i < |d|
      invariant 0 <= i <= |d| && edit >= 0 && orig >= 0
      invariant Scan(d, i, chunks, startEdit, startOrig, edit, orig)
      invariant Snug(d, i, chunks, startEdit, startOrig) && forall k :: 0 <= k < |chunks| ==> NotEmpty(chunks[k])
    {
      var part := d[i];
      ScanBefore(d, i, chunks, startEdit, startOrig, edit, orig);
      if part.op == Equal {
        var startOff := if !StartOfLineClean(d, i) || edit < startEdit || orig < startOrig then 1 else 0;
        var endOff := if EndOfLineClean(d, i) then 1 else 0;
        ScanEqual(d, i, chunks, startEdit, startOrig, edit, orig, startOff, endOff);
        SnugEqual(d, i, chunks, startEdit, startOrig, startOff, endOff);
        var cleanFromEdit, cleanFromOrig := edit + startOff, orig + startOff;
        edit := MoveOver(edit, part.text);
        orig := MoveOver(orig, part.text);
        var cleanToEdit, cleanToOrig := edit + endOff, orig + endOff;
        if cleanToEdit > cleanFromEdit {
          if i > 0 {
            chunks := chunks + [Chunk(startOrig, cleanFromOrig, startEdit, cleanFromEdit)];
          }
          startEdit, startOrig := cleanToEdit, cleanToOrig;
        }
      } else {
        ScanEdit(d, i, chunks, startEdit, startOrig, edit, orig);
        SnugEdit(d, i, chunks, startEdit, startOrig);
        if part.op == Insert {
          edit := MoveOver(edit, part.text);
        } else {
          orig := MoveOver(orig, part.text);
        }
      }
      i := i + 1;
    }
    ScanBefore(d, |d|, chunks, startEdit, startOrig, edit, orig);
    ScanEnds(d, chunks, startEdit, startOrig, edit, orig);
    SnugEnds(d, chunks, startEdit, startOrig);
    if startEdit <= edit || startOrig <= orig {
      chunks := chunks + [Chunk(startOrig, orig + 1, startEdit, edit + 1)];
    }
  }

  lemma ScanEnds(d: seq<Diff>, cs: seq<Chunk>, startEdit: int, startOrig: int, edit: int, orig: int)
    requires Scan(d, |d|, cs, startEdit, startOrig, edit, orig)
    ensures var le, lo := Split(Text2(d)), Split(Text1(d));
            if startEdit <= edit || startOrig <= orig
            then Covers(cs + [Chunk(startOrig, orig + 1, startEdit, edit + 1)], le, lo, |le|, |lo|)
            else Covers(cs, le, lo, |le|, |lo|)
  {
    var le, lo := Split(Text2(d)), Split(Text1(d));
    assert d[..|d|] == d;
    assert |le| == edit + 1 && |lo| == orig + 1;
    hide Split, Side, Covers, Newlines;
    if startEdit <= edit || startOrig <= orig {
      assert le[|le|..] == [] && lo[|lo|..] == [];
      CoversPush(cs, le, lo, Chunk(startOrig, orig + 1, startEdit, edit + 1), |le|, |lo|);
    }
  }

  // ----- what the chunks are good for -----

  /** In a covering list each chunk starts no earlier than the one before it ends. */
  lemma {:induction false} ChunksAreOrdered(cs: seq<Chunk>, edit: seq<Str>, orig: seq<Str>, e: int, o: int, i: nat)
    requires Covers(cs, edit, orig, e, o) && i < |cs|
    ensures 0 <= cs[i].editFrom <= cs[i].editTo <= e && 0 <= cs[i].origFrom <= cs[i].origTo <= o
    ensures i + 1 < |cs| ==> cs[i].editTo <= cs[i + 1].editFrom && cs[i].origTo <= cs[i + 1].origFrom
    ensures Covers(cs[..i], edit, orig, cs[i].editFrom, cs[i].origFrom)
    decreases |cs|
  {
    if i + 1 < |cs| {
      var c := cs[|cs| - 1];
      var rest := cs[..|cs| - 1];
      ChunksAreOrdered(rest, edit, orig, c.editFrom, c.origFrom, i);
      assert rest[..i] == cs[..i];
      if i + 2 == |cs| {
        assert rest[|rest| - 1] == cs[i];
      }
    }
  }

  /** The edited lines with each chunk's lines replaced by its original lines. */
  function Reverted(cs: seq<Chunk>, edit: seq<Str>, orig: seq<Str>, e: int, o: int): seq<Str>
    requires Covers(cs, edit, orig, e, o)
    decreases |cs|
  {
    if cs == [] then edit[..e]
    else
      var c := cs[|cs| - 1];
      Reverted(cs[..|cs| - 1], edit, orig, c.editFrom, c.origFrom)
      + orig[c.origFrom..c.origTo] + edit[c.editTo..e]
  }

  /** Reverting every chunk rebuilds the original text. */
  lemma {:induction false} RevertingRebuildsOriginal(cs: seq<Chunk>, edit: seq<Str>, orig: seq<Str>, e: int, o: int)
    requires Covers(cs, edit, orig, e, o)
    ensures Reverted(cs, edit, orig, e, o) == orig[..o]
    decreases |cs|
  {
    if cs != [] {
      var c := cs[|cs| - 1];
      RevertingRebuildsOriginal(cs[..|cs| - 1], edit, orig, c.editFrom, c.origFrom);
      assert orig[..o] == orig[..c.origFrom] + orig[c.origFrom..c.origTo] + orig[c.origTo..o];
    }
  }

  predicate InChunk(cs: seq<Chunk>, line: int) {
    exists i :: 0 <= i < |cs| && cs[i].editFrom <= line < cs[i].editTo
  }

  /** The original line that stands beside an edited line: none inside a chunk, and otherwise one
      with the same text. */
  method GetMatchingOrigLine(line: nat, chunks: seq<Chunk>, ghost edit: seq<Str>, ghost orig: seq<Str>)
    returns (r: MaybeLine)
    requires line < |edit| && Covers(chunks, edit, orig, |edit|, |orig|)
    ensures r.NoLine? <==> InChunk(chunks, line)
    ensures r.Line? ==> 0 <= r.n < |orig| && orig[r.n] == edit[line]
  {
    hide Covers;
    var editStart, origStart := 0, 0;
    var i := 0;
    while i < |chunks|
      invariant 0 <= i <= |chunks|
      invariant forall k :: 0 <= k < i ==> chunks[k].editTo <= line
      invariant i == 0 ==> editStart == origStart == 0
      invariant i > 0 ==> editStart == chunks[i - 1].editTo && origStart == chunks[i - 1].origTo
    {
      var chunk := chunks[i];
      if chunk.editTo > line && chunk.editFrom <= line {
        return NoLine;
      }
      if chunk.editFrom > line {
        break;
      }
      editStart, origStart := chunk.editTo, chunk.origTo;
      i := i + 1;
    }
    GapMatches(chunks, edit, orig, i, line);
    r := Line(origStart + (line - editStart));
  }

  /** A line before chunk `i` and behind the chunks below it lies in a gap of equal lines. */
  lemma GapMatches(cs: seq<Chunk>, edit: seq<Str>, orig: seq<Str>, i: nat, line: nat)
    requires Covers(cs, edit, orig, |edit|, |orig|) && i <= |cs| && line < |edit|
    requires i < |cs| ==> line < cs[i].editFrom
    requires forall k :: 0 <= k < i ==> cs[k].editTo <= line
    ensures !InChunk(cs, line)
    ensures var e, o := if i == 0 then 0 else cs[i - 1].editTo, if i == 0 then 0 else cs[i - 1].origTo;
            0 <= o + (line - e) < |orig| && orig[o + (line - e)] == edit[line]
  {
    hide Covers, InChunk;
    var e, o := if i < |cs| then cs[i].editFrom else |edit|, if i < |cs| then cs[i].origFrom else |orig|;
    var before := cs[..i];
    assert i == |cs| ==> before == cs;
    assert i > 0 ==> before[|before| - 1] == cs[i - 1];
    OutsideChunks(cs, edit, orig, i, line);
    if i < |cs| {
      ChunksAreOrdered(cs, edit, orig, |edit|, |orig|, i);
    }
    LastGapMatches(before, edit, orig, e, o, line);
  }

  lemma OutsideChunks(cs: seq<Chunk>, edit: seq<Str>, orig: seq<Str>, i: nat, line: nat)
    requires Covers(cs, edit, orig, |edit|, |orig|) && i <= |cs|
    requires i < |cs| ==> line < cs[i].editFrom
    requires forall k :: 0 <= k < i ==> cs[k].editTo <= line
    ensures !InChunk(cs, line)
  {
    hide Covers;
    forall k | i <= k < |cs|
      ensures line < cs[k].editFrom
    {
      LaterChunks(cs, edit, orig, i, k);
    }
  }

  lemma LastGapMatches(cs: seq<Chunk>, edit: seq<Str>, orig: seq<Str>, e: int, o: int, line: nat)
    requires Covers(cs, edit, orig, e, o) && line < e
    requires cs != [] ==> cs[|cs| - 1].editTo <= line
    ensures var e', o' := if cs == [] then 0 else cs[|cs| - 1].editTo, if cs == [] then 0 else cs[|cs| - 1].origTo;
            0 <= o' + (line - e') < |orig| && orig[o' + (line - e')] == edit[line]
  {
    if cs == [] {
      assert edit[..e][line] == orig[..o][line];
    } else {
      var c := cs[|cs| - 1];
      assert edit[c.editTo..e][line - c.editTo] == orig[c.origTo..o][line - c.editTo];
    }
  }

  lemma {:induction false} LaterChunks(cs: seq<Chunk>, edit: seq<Str>, orig: seq<Str>, i: nat, k: nat)
    requires Covers(cs, edit, orig, |edit|, |orig|) && i <= k < |cs|
    ensures cs[i].editFrom <= cs[k].editFrom
    decreases k - i
  {
    if i < k {
      ChunksAreOrdered(cs, edit, orig, |edit|, |orig|, i);
      LaterChunks(cs, edit, orig, i + 1, k);
    }
  }

  /** The diff and its chunks, from the two texts. Reverting every chunk gives the original lines. */
  method UpdateDiff(orig: Str, edit: Str, timeoutSet: bool, score: (Str, Str) -> int)
    returns (ok: bool, chunks: seq<Chunk>)
    requires DiffLines.Distinct(orig, edit) <= 65531
    ensures ok ==> Covers(chunks, Split(edit), Split(orig), |Split(edit)|, |Split(orig)|)
    ensures ok ==> Reverted(chunks, Split(edit), Split(orig), |Split(edit)|, |Split(orig)|) == Split(orig)
    ensures !Piece(DiffLines.HasOwn(), orig) ==> ok
    ensures orig == edit ==> ok && (chunks == [] <==> orig != [])
    ensures ok ==> exists d :: Clean(d) && Text1(d) == orig && Text2(d) == edit && LeavesOutPairs(d, chunks)
  {
    hide Covers, Reverted, Split, Clean, LeavesOutPairs, Piece, DiffLines.Distinct;
    var d;
    chunks := [];
    ok, d := GetDiff(orig, edit, timeoutSet, score);
    if ok {
      chunks := GetChunks(d);
      RevertingRebuildsOriginal(chunks, Split(edit), Split(orig), |Split(edit)|, |Split(orig)|);
      assert Split(orig)[..|Split(orig)|] == Split(orig);
      if orig == edit {
        EqualTextsHaveNoChunk(orig, d, chunks);
      }
    }
  }

  /** Equal texts have no chunk, unless they are empty: then the script is, too, and the one line is
      taken for changed. */
  lemma EqualTextsHaveNoChunk(a: Str, d: seq<Diff>, cs: seq<Chunk>)
    requires d == if a == [] then [] else [Diff(Equal, a)]
    requires LeavesOutPairs(d, cs) && (forall k :: 0 <= k < |cs| ==> NotEmpty(cs[k]))
    requires Covers(cs, Split(a), Split(a), |Split(a)|, |Split(a)|)
    ensures cs == [] <==> a != []
  {
    if a == [] {
      NoLineIsPaired();
      hide Covers, PairedLine, Before;
      assert Inside(cs, Delete, 0);
    } else {
      hide Covers, LeavesOutPairs, PairedLine, Before;
      LastLineOf(a);
      forall n | 0 <= n <= Before(d, 1, Delete)
        ensures PairedLine(d, 1, Delete, n)
      {
        OneEqualityPairs(a, Delete, n);
      }
      forall n | 0 <= n <= Before(d, 1, Insert)
        ensures PairedLine(d, 1, Insert, n)
      {
        OneEqualityPairs(a, Insert, n);
      }
      forall k | 0 <= k < |cs|
        ensures 0 <= cs[k].editFrom && cs[k].editTo <= |Split(a)| && 0 <= cs[k].origFrom && cs[k].origTo <= |Split(a)|
      {
        ChunksAreOrdered(cs, Split(a), Split(a), |Split(a)|, |Split(a)|, k);
      }
      NoChunkIsLeft(d, cs);
    }
  }

  lemma NoLineIsPaired()
    ensures Before([], 0, Delete) == 0 && !PairedLine([], 0, Delete, 0)
  {
    hide Paired;
    var d: seq<Diff> := [];
    NothingBefore(d);
  }

  lemma LastLineOf(a: Str)
    ensures var d := [Diff(Equal, a)];
            Before(d, 1, Delete) == |Split(a)| - 1 && Before(d, 1, Insert) == |Split(a)| - 1
  {
    var d := [Diff(Equal, a)];
    assert d[..1] == d;
    SideOfOne(d[0], Delete);
    SideOfOne(d[0], Insert);
  }

  /** What the exception for a lone newline costs: "b" is put on a new line, and the line "a" before
      it, which is in both texts, is marked as changed. */
  method MarksUnchangedLine() returns (chunks: seq<Chunk>)
    ensures Inside(chunks, Delete, 0) && Inside(chunks, Insert, 0)
    ensures Split([97, NEWLINE, NEWLINE, 98])[0] == Split([97, NEWLINE, 98])[0] == [97]
  {
    var d := [Diff(Equal, [97]), Diff(Insert, [NEWLINE]), Diff(Equal, [NEWLINE, 98])];
    chunks := GetChunks(d);
    FirstLineIsNotPaired(d);
    hide PairedLine, Before;
  }

  lemma FirstLineIsNotPaired(d: seq<Diff>)
    requires d == [Diff(Equal, [97]), Diff(Insert, [NEWLINE]), Diff(Equal, [NEWLINE, 98])]
    ensures !PairedLine(d, |d|, Delete, 0) && !PairedLine(d, |d|, Insert, 0)
    ensures Split([97, NEWLINE, NEWLINE, 98])[0] == Split([97, NEWLINE, 98])[0] == [97]
  {
    ThreePartTexts(d);
    FirstLines();
    forall p: nat, j: nat | p < |d| && Paired(d, p, j)
      ensures p == 2 && j > 0
    {
      PairedIsEqual(d, p, j);
      NoNewlineInA();
    }
    NothingNegative(d, 2);
    hide Paired, Before;
  }

  lemma NoNewlineInA()
    ensures Newlines([97]) == 0
  {
    assert [97][1..] == [];
  }

  lemma FirstLines()
    ensures Split([97, NEWLINE, NEWLINE, 98])[0] == [97] && Split([97, NEWLINE, 98])[0] == [97]
  {
    var s, t := [97, NEWLINE, NEWLINE, 98], [97, NEWLINE, 98];
    assert s[1..][0] == NEWLINE && t[1..][0] == NEWLINE;
  }

  lemma ThreePartTexts(d: seq<Diff>)
    requires d == [Diff(Equal, [97]), Diff(Insert, [NEWLINE]), Diff(Equal, [NEWLINE, 98])]
    ensures !StartsBoth(d, 2)
  {
    assert d[..2] == [d[0], d[1]];
    SideOfTwo(d[0], d[1], Insert);
    assert [97] + [] == [97];
  }
}
