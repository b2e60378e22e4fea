/** Diffing by lines: every distinct line becomes one character, and back. */
module DiffLines {
  import opened DiffText
  import opened DiffSearch

  /** Two names that are special as keys of a plain object of the source language: assigning
      `__proto__` adds no key, and a key `hasOwnProperty` hides the function of that name. */
  function Proto(): Str {
    [95, 95, 112, 114, 111, 116, 111, 95, 95]
  }

  function HasOwn(): Str {
    [104, 97, 115, 79, 119, 110, 80, 114, 111, 112, 101, 114, 116, 121]
  }

  /** The length of the first line of `s`, with its newline if it has one. */
  function FirstLine(s: Str): (n: nat)
    requires s != []
    ensures 0 < n <= |s|
    ensures forall i :: 0 <= i < n - 1 ==> s[i] != NEWLINE
    ensures n < |s| ==> s[n - 1] == NEWLINE
  {
    if s[0] == NEWLINE || |s| == 1 then 1 else 1 + FirstLine(s[1..])
  }

  /** The lines of a text, each with its newline. */
  function Lines(s: Str): seq<Str> {
    if s == [] then [] else [s[..FirstLine(s)]] + Lines(s[FirstLine(s)..])
  }

  function LineSet(s: Str): set<Str> {
    set l | l in Lines(s)
  }

  function Distinct(a: Str, b: Str): nat {
    |LineSet(a) + LineSet(b)|
  }

  /** The last line of `s`, if it has no newline, is `l`. */
  predicate LastLineIs(s: Str, l: Str) {
    Lines(s) != [] && Lines(s)[|Lines(s)| - 1] == l
  }

  // ----- lines of a piece -----

  lemma FirstLineOfHead(s: Str, j: nat)
    requires 0 < j <= |s|
    ensures FirstLine(s[..j]) == if j < FirstLine(s) then j else FirstLine(s)
  {
    if s[0] != NEWLINE && j > 1 {
      assert s[..j][1..] == s[1..][..j - 1];
      FirstLineOfHead(s[1..], j - 1);
    }
  }

  lemma LineSetSplit(s: Str)
    requires s != []
    ensures LineSet(s) == {s[..FirstLine(s)]} + LineSet(s[FirstLine(s)..])
  {
    var n := FirstLine(s);
    assert Lines(s) == [s[..n]] + Lines(s[n..]);
    assert forall l :: l in Lines(s) <==> l == s[..n] || l in Lines(s[n..]);
  }

  lemma {:induction false} LinesOfTail(s: Str, i: nat) returns (frag: Str)
    requires i <= |s|
    ensures LineSet(s[i..]) <= LineSet(s) + {frag}
    decreases |s|
  {
    hide LineSet;
    frag := [];
    if i < |s| {
      LineSetSplit(s);
      LineSetSplit(s[i..]);
      var n := FirstLine(s);
      if i < n {
        frag := s[i..n];
        var t := s[i..];
        FirstLineOfDrop(s, i);
        assert t[..n - i] == frag && t[n - i..] == s[n..];
      } else {
        assert s[n..][i - n..] == s[i..];
        frag := LinesOfTail(s[n..], i - n);
      }
    } else {
      NoLines(s[i..]);
    }
  }

  lemma NoLines(s: Str)
    requires s == []
    ensures LineSet(s) == {}
  {
  }

  lemma {:induction false} FirstLineOfDrop(s: Str, i: nat)
    requires s != [] && i < FirstLine(s)
    ensures FirstLine(s[i..]) == FirstLine(s) - i
    decreases i
  {
    if i > 0 {
      assert s[1..][i - 1..] == s[i..];
      FirstLineOfDrop(s[1..], i - 1);
    } else {
      assert s[0..] == s;
    }
  }

  lemma {:induction false} LinesOfHead(s: Str, j: nat) returns (frag: Str)
    requires j <= |s|
    ensures LineSet(s[..j]) <= LineSet(s) + {frag}
    decreases |s|
  {
    hide LineSet;
    frag := [];
    if j > 0 {
      LineSetSplit(s);
      LineSetSplit(s[..j]);
      var n, t := FirstLine(s), s[..j];
      FirstLineOfHead(s, j);
      if j <= n {
        frag := t;
        assert t[..j] == t;
        NoLines(t[j..]);
      } else {
        assert t[..n] == s[..n] && t[n..] == s[n..][..j - n];
        frag := LinesOfHead(s[n..], j - n);
      }
    } else {
      NoLines(s[..0]);
    }
  }

  /** A piece of a text has at most two lines that are not lines of the text. */
  lemma LinesOfPiece(s: Str, t: Str) returns (x: Str, y: Str)
    requires Piece(s, t)
    ensures LineSet(s) <= LineSet(t) + {x, y}
  {
    var k :| OccursAt(t, s, k);
    x := LinesOfTail(t, k);
    assert t[k..][..|s|] == s;
    y := LinesOfHead(t[k..], |s|);
  }

  lemma DistinctOfPieces(a: Str, b: Str, a0: Str, b0: Str)
    requires Piece(a, a0) && Piece(b, b0)
    ensures Distinct(a, b) <= Distinct(a0, b0) + 4
  {
    var x, y := LinesOfPiece(a, a0);
    var u, v := LinesOfPiece(b, b0);
    var whole := LineSet(a0) + LineSet(b0);
    SmallerSet(LineSet(a) + LineSet(b), whole + {x} + {y} + {u} + {v});
    OneMore(whole, x);
    OneMore(whole + {x}, y);
    OneMore(whole + {x} + {y}, u);
    OneMore(whole + {x} + {y} + {u}, v);
  }

  lemma OneMore(s: set<Str>, x: Str)
    ensures |s + {x}| <= |s| + 1
  {
    if x in s {
      assert s + {x} == s;
    }
  }

  lemma {:induction false} SmallerSet(s: set<Str>, t: set<Str>)
    requires s <= t
    ensures |s| <= |t|
  {
    if s != {} {
      var x :| x in s;
      SmallerSet(s - {x}, t - {x});
    }
  }

  // ----- encoding -----

  /** What one character stands for; a code outside the table stands for nothing. */
  function LineAt(table: seq<Str>, code: Code): Str {
    if code < |table| then table[code] else []
  }

  function Decode(chars: Str, table: seq<Str>): Str {
    if chars == [] then [] else LineAt(table, chars[0]) + Decode(chars[1..], table)
  }

  lemma {:induction false} DecodeConcat(x: Str, y: Str, table: seq<Str>)
    ensures Decode(x + y, table) == Decode(x, table) + Decode(y, table)
  {
    if x == [] {
      assert x + y == y;
    } else {
      hide LineAt;
      DecodeConcat(x[1..], y, table);
      assert (x + y)[1..] == x[1..] + y && (x + y)[0] == x[0];
      ConcatThree(LineAt(table, x[0]), Decode(x[1..], table), Decode(y, table));
    }
  }

  /** Every character of `chars` stands for a line with some text. */
  predicate Meaningful(chars: Str, table: seq<Str>) {
    forall c :: c in chars ==> LineAt(table, c) != []
  }

  lemma {:induction false} DecodeGrown(chars: Str, table: seq<Str>, more: seq<Str>)
    requires Meaningful(chars, table)
    ensures Decode(chars, table + more) == Decode(chars, table) && Meaningful(chars, table + more)
  {
    if chars != [] {
      assert chars[0] in chars;
      assert forall c :: c in chars[1..] ==> c in chars;
      DecodeGrown(chars[1..], table, more);
      forall c | c in chars
        ensures LineAt(table + more, c) != []
      {
        assert LineAt(table, c) != [];
      }
    }
  }

  /** A newline can only be the last unit. */
  predicate IsLine(l: Str) {
    forall i :: 0 <= i < |l| - 1 ==> l[i] != NEWLINE
  }

  predicate AllLines(table: seq<Str>) {
    forall i :: 0 <= i < |table| ==> IsLine(table[i])
  }

  /** The table of lines and the object that finds a line's number. */
  predicate GoodTable(table: seq<Str>, index: map<Str, nat>) {
    && |table| > 0 && table[0] == [] && AllLines(table) && Proto() !in index
    && (forall i :: 0 < i < |table| ==> table[i] != [])
    && forall l :: l in index ==> 0 < index[l] < |table| && table[index[l]] == l
  }

  predicate EndsInNewline(l: Str) {
    l != [] && l[|l| - 1] == NEWLINE
  }

  lemma SpecialsHaveNoNewline()
    ensures !EndsInNewline(Proto()) && !EndsInNewline(HasOwn()) && HasOwn() != Proto()
  {
    assert |HasOwn()| != |Proto()|;
  }

  /** A line not seen before goes to the end of the table. */
  lemma TableGrows(table: seq<Str>, index: map<Str, nat>, line: Str)
    requires GoodTable(table, index) && line != [] && line !in index && IsLine(line)
    ensures GoodTable(table + [line], index)
    ensures line != Proto() ==> GoodTable(table + [line], index[line := |table|])
    ensures index[line := |table|].Keys == index.Keys + {line}
  {
    hide Proto, IsLine;
    var t := table + [line];
    assert forall i :: 0 < i < |t| ==> t[i] != [];
    assert forall l :: l in index ==> t[index[l]] == table[index[l]];
  }

  lemma TableFinds(table: seq<Str>, index: map<Str, nat>, line: Str)
    requires GoodTable(table, index) && line in index
    ensures 0 < index[line] < |table| && table[index[line]] == line && line != Proto()
  {
    hide Proto;
  }

  lemma CodeStandsFor(table: seq<Str>, i: nat)
    requires i < |table| <= 65536
    ensures LineAt(table, i % 65536) == table[i]
  {
  }

  /** Number one line; `ok` is false when the lookup throws. */
  method NumberLine(line: Str, table0: seq<Str>, index0: map<Str, nat>)
    returns (ok: bool, code: Code, table: seq<Str>, index: map<Str, nat>)
    requires GoodTable(table0, index0) && line != [] && IsLine(line)
    ensures ok == (HasOwn() !in index0)
    ensures !ok ==> table == table0 && index == index0
    ensures GoodTable(table, index) && table0 <= table
    ensures |table| <= 65536 && ok ==> LineAt(table, code) == line
    ensures |table| <= |table0| + 1 && (|table0| <= 65536 < |table| ==> code == 0)
    ensures index0.Keys <= index.Keys <= index0.Keys + {line}
    ensures ok && line != Proto() ==> line in index
    ensures |table| - |table0| == |index.Keys| - |index0.Keys| + (if ok && line == Proto() then 1 else 0)
  {
    hide HasOwn, Proto, GoodTable, LineAt, IsLine;
    table, index, code := table0, index0, 0;
    ok := HasOwn() !in index;
    if !ok {
      return;
    }
    if line in index {
      TableFinds(table, index, line);
      code := index[line] % 65536;
      if |table| <= 65536 {
        CodeStandsFor(table, index[line]);
      }
    } else {
      code := |table| % 65536;
      TableGrows(table, index, line);
      if line != Proto() {
        index := index[line := |table|];
      }
      table := table + [line];
      if |table| <= 65536 {
        CodeStandsFor(table, |table0|);
      }
    }
  }

  /** The lines `seen`, which make up `a[..at]`, have been encoded as `chars`. */
  ghost predicate Encoding(a: Str, at: int, seen: seq<Str>, chars: Str, table0: seq<Str>,
                           index0: map<Str, nat>, table: seq<Str>, index: map<Str, nat>)
  {
    && 0 <= at <= |a|
    && GoodTable(table, index) && table0 <= table
    && seen + Lines(a[at..]) == Lines(a)
    && (seen == [] <==> at == 0) && |chars| == |seen|
    && (|table0| <= 65536 < |table| ==> 0 in chars)
    && (forall l :: l in seen && l != Proto() ==> l in index)
    && (at < |a| && seen != [] ==> EndsInNewline(seen[|seen| - 1]))
    && (HasOwn() in index <==> HasOwn() in index0 || (seen != [] && seen[|seen| - 1] == HasOwn()))
    && (seen != [] ==> HasOwn() !in index0)
    && (|table| <= 65536 ==> Decode(chars, table) == a[..at] && Meaningful(chars, table))
    && index0.Keys <= index.Keys && (forall l :: l in index.Keys ==> l in index0.Keys || l in seen)
    && |table| - |table0| == |index.Keys| - |index0.Keys|
                             + (if seen != [] && seen[|seen| - 1] == Proto() then 1 else 0)
  }

  lemma EncodingStarts(a: Str, table: seq<Str>, index: map<Str, nat>)
    requires GoodTable(table, index)
    ensures Encoding(a, 0, [], [], table, index, table, index)
  {
    assert a[0..] == a && a[..0] == [];
  }

  lemma NextLine(a: Str, at: nat)
    requires at < |a|
    ensures var end := at + FirstLine(a[at..]);
            && end <= |a| && Lines(a[at..]) == [a[at..end]] + Lines(a[end..])
            && (end < |a| ==> EndsInNewline(a[at..end])) && IsLine(a[at..end])
  {
    var rest := a[at..];
    var end := at + FirstLine(rest);
    assert a[at..end] == rest[..FirstLine(rest)] && a[end..] == rest[FirstLine(rest)..];
  }

  lemma EncodingStep(a: Str, at: int, seen: seq<Str>, chars: Str, table0: seq<Str>, index0: map<Str, nat>,
                     table: seq<Str>, index: map<Str, nat>,
                     end: int, code: Code, table': seq<Str>, index': map<Str, nat>)
    requires Encoding(a, at, seen, chars, table0, index0, table, index)
    requires at < |a| && end == at + FirstLine(a[at..]) && HasOwn() !in index
    requires GoodTable(table', index') && table <= table'
    requires |table'| <= 65536 ==> LineAt(table', code) == a[at..end]
    requires index.Keys <= index'.Keys <= index.Keys + {a[at..end]}
    requires a[at..end] != Proto() ==> a[at..end] in index'
    requires |table'| - |table| == |index'.Keys| - |index.Keys| + (if a[at..end] == Proto() then 1 else 0)
    requires |table'| <= |table| + 1 && (|table| <= 65536 < |table'| ==> code == 0)
    ensures Encoding(a, end, seen + [a[at..end]], chars + [code], table0, index0, table', index')
  {
    hide GoodTable, LineAt, Decode, Meaningful, HasOwn, Proto, FirstLine, Lines;
    SpecialsHaveNoNewline();
    var line := a[at..end];
    NextLine(a, at);
    Grow(chars, code, line, table, table', a, at, end);
    assert (seen + [line]) + Lines(a[end..]) == seen + ([line] + Lines(a[end..]));
    assert (seen + [line])[|seen + [line]| - 1] == line;
  }

  /** Number the line of `a` from `at` to `end`. */
  method EncodeLine(a: Str, at: nat, end: nat, ghost seen0: seq<Str>, chars0: Str, ghost table00: seq<Str>,
                    ghost index00: map<Str, nat>,
                    table0: seq<Str>, index0: map<Str, nat>)
    returns (ok: bool, ghost seen: seq<Str>, chars: Str, table: seq<Str>, index: map<Str, nat>)
    requires Encoding(a, at, seen0, chars0, table00, index00, table0, index0)
    requires at < |a| && end == at + FirstLine(a[at..]) <= |a| && GoodTable(table0, index0)
    ensures GoodTable(table, index) && Encoding(a, if ok then end else at, seen, chars, table00, index00, table, index)
    ensures !ok ==> HasOwn() in index
  {
    hide Encoding, HasOwn, Proto, GoodTable, LineAt, FirstLine, Decode, IsLine, Lines;
    NextLine(a, at);
    var line := a[at..end];
    var code;
    ok, code, table, index := NumberLine(line, table0, index0);
    seen, chars := seen0, chars0;
    if ok {
      EncodingStep(a, at, seen, chars, table00, index00, table0, index0, end, code, table, index);
      seen, chars := seen + [line], chars + [code];
    }
  }

  /** Encode a text, adding its new lines to the table. */
  method EncodeText(a: Str, table0: seq<Str>, index0: map<Str, nat>)
    returns (ok: bool, chars: Str, table: seq<Str>, index: map<Str, nat>)
    requires GoodTable(table0, index0)
    ensures GoodTable(table, index) && table0 <= table
    ensures ok <==> a == [] || HasOwn() !in index0
    ensures ok ==> (HasOwn() in index <==> HasOwn() in index0 || LastLineIs(a, HasOwn()))
    ensures ok && |table| <= 65536 ==> Decode(chars, table) == a && Meaningful(chars, table)
    ensures index0.Keys <= index.Keys <= index0.Keys + LineSet(a)
    ensures |table| - |table0| == |index.Keys| - |index0.Keys| + (if ok && LastLineIs(a, Proto()) then 1 else 0)
    ensures ok ==> |chars| == |Lines(a)| && (|table0| <= 65536 < |table| ==> 0 in chars)
    ensures ok ==> forall l :: l in LineSet(a) && l != Proto() ==> l in index
  {
    hide Encoding, HasOwn, Proto, GoodTable, LineAt, FirstLine, Lines, LineSet, Meaningful, Decode;
    ok, chars, table, index := true, [], table0, index0;
    var lineStart, lineEnd := 0, -1;
    ghost var seen: seq<Str> := [];
    EncodingStarts(a, table, index);
    while lineEnd < |a| - 1
      invariant lineStart == lineEnd + 1 && 0 <= lineStart <= |a| && ok
      invariant GoodTable(table, index)
      invariant Encoding(a, lineStart, seen, chars, table0, index0, table, index)
      decreases |a| - lineStart
    {
      NextNewline(a, lineStart);
      lineEnd := IndexOf(a, [NEWLINE], lineStart);
      if lineEnd == -1 {
        lineEnd := |a| - 1;
      }
      ok, seen, chars, table, index := EncodeLine(a, lineStart, lineEnd + 1, seen, chars, table0, index0, table, index);
      if !ok {
        EncodingThrows(a, lineStart, seen, chars, table0, index0, table, index);
        return;
      }
      lineStart := lineEnd + 1;
    }
    EncodingEnds(a, seen, chars, table0, index0, table, index);
  }

  /** A lookup throws only on the first line, when the key was there before. */
  lemma EncodingThrows(a: Str, at: int, seen: seq<Str>, chars: Str, table0: seq<Str>, index0: map<Str, nat>,
                       table: seq<Str>, index: map<Str, nat>)
    requires Encoding(a, at, seen, chars, table0, index0, table, index)
    requires at < |a| && HasOwn() in index
    ensures HasOwn() in index0 && GoodTable(table, index) && table0 <= table
    ensures index0.Keys <= index.Keys <= index0.Keys + LineSet(a)
    ensures |table| - |table0| == |index.Keys| - |index0.Keys|
  {
    SpecialsHaveNoNewline();
  }

  lemma EncodingEnds(a: Str, seen: seq<Str>, chars: Str, table0: seq<Str>, index0: map<Str, nat>,
                     table: seq<Str>, index: map<Str, nat>)
    requires Encoding(a, |a|, seen, chars, table0, index0, table, index)
    ensures GoodTable(table, index) && table0 <= table
    ensures a == [] || HasOwn() !in index0
    ensures HasOwn() in index <==> HasOwn() in index0 || LastLineIs(a, HasOwn())
    ensures |table| <= 65536 ==> Decode(chars, table) == a && Meaningful(chars, table)
    ensures index0.Keys <= index.Keys <= index0.Keys + LineSet(a)
    ensures |table| - |table0| == |index.Keys| - |index0.Keys| + (if LastLineIs(a, Proto()) then 1 else 0)
    ensures |chars| == |Lines(a)| && (|table0| <= 65536 < |table| ==> 0 in chars)
    ensures forall l :: l in LineSet(a) && l != Proto() ==> l in index
  {
    hide GoodTable, Decode, Meaningful, HasOwn, Proto;
    assert a[|a|..] == [] && a[..|a|] == a;
    assert seen == Lines(a);
  }

  lemma NextNewline(a: Str, start: nat)
    requires start < |a|
    ensures var f := IndexOf(a, [NEWLINE], start);
            start + FirstLine(a[start..]) == (if f == -1 then |a| else f + 1)
            && (f != -1 ==> a[f] == NEWLINE)
  {
    hide OccursAt, IndexOf;
    var t := a[start..];
    var f, n := IndexOf(a, [NEWLINE], start), FirstLine(t);
    UnitOccurs(a, start + n - 1);
    if f != -1 {
      OccursUnit(a, f);
      assert t[f - start] == NEWLINE;
    }
  }

  lemma UnitOccurs(a: Str, i: nat)
    requires i < |a|
    ensures OccursAt(a, [NEWLINE], i) <==> a[i] == NEWLINE
  {
    assert a[i..i + 1] == [a[i]];
  }

  lemma OccursUnit(a: Str, i: int)
    requires OccursAt(a, [NEWLINE], i)
    ensures 0 <= i < |a| && a[i] == NEWLINE
  {
    UnitOccurs(a, i);
  }

  lemma DecodeOne(code: Code, table: seq<Str>)
    ensures Decode([code], table) == LineAt(table, code)
  {
    assert [code][1..] == [] && LineAt(table, code) + [] == LineAt(table, code);
  }

  lemma Grow(chars: Str, code: Code, line: Str, before: seq<Str>, table: seq<Str>, a: Str, i: nat, j: nat)
    requires i <= j <= |a| && line == a[i..j] && line != [] && before <= table
    requires |before| <= 65536 ==> Decode(chars, before) == a[..i] && Meaningful(chars, before)
    requires |table| <= 65536 ==> LineAt(table, code) == line
    ensures |table| <= 65536 ==> Decode(chars + [code], table) == a[..j] && Meaningful(chars + [code], table)
  {
    if |table| <= 65536 {
      var more := table[|before|..];
      assert table == before + more;
      assert a[..i] + line == a[..j];
      DecodeOne(code, table);
      hide Decode, LineAt;
      DecodeGrown(chars, before, more);
      DecodeConcat(chars, [code], table);
    }
  }

  // ----- a character for the empty line -----

  lemma LinesOfLine(l: Str, s: Str)
    requires IsLine(l)
    ensures |Lines(l + s)| <= |Lines(s)| + if l == [] then 0 else 1
  {
    var t := l + s;
    if l == [] {
      assert t == s;
    } else if s == [] {
      assert t == l && FirstLine(l) == |l| && Lines(l[|l|..]) == [];
    } else if EndsInNewline(l) {
      LineThenRest(l, s);
    } else {
      LineGoesOn(l, s);
    }
  }

  lemma LineThenRest(l: Str, s: Str)
    requires IsLine(l) && EndsInNewline(l)
    ensures Lines(l + s) == [l] + Lines(s)
  {
    hide FirstLine;
    var t := l + s;
    var n := FirstLine(t);
    assert t[|l| - 1] == NEWLINE && forall i :: 0 <= i < |l| ==> t[i] == l[i];
    assert n == |l|;
    assert t[..n] == l && t[n..] == s;
  }

  /** A line without a newline only makes the next one longer. */
  lemma LineGoesOn(l: Str, s: Str)
    requires IsLine(l) && l != [] && s != [] && !EndsInNewline(l)
    ensures |Lines(l + s)| == |Lines(s)|
  {
    hide FirstLine;
    FirstGoesOn(l, s);
  }

  lemma FirstGoesOn(l: Str, s: Str)
    requires IsLine(l) && l != [] && s != [] && !EndsInNewline(l)
    ensures FirstLine(l + s) == |l| + FirstLine(s) && (l + s)[FirstLine(l + s)..] == s[FirstLine(s)..]
  {
    hide FirstLine;
    var t := l + s;
    assert forall i :: 0 <= i < |l| ==> t[i] == l[i];
    assert FirstLine(t) > |l|;
    assert t[|l|..] == s;
    FirstLineOfDrop(t, |l|);
  }

  /** Text decoded from characters has no more lines than characters that stand for something. */
  lemma {:induction false} DecodedLines(chars: Str, table: seq<Str>)
    requires AllLines(table) && |table| > 0 && table[0] == []
    ensures |Lines(Decode(chars, table))| <= |chars|
    ensures 0 in chars ==> |Lines(Decode(chars, table))| < |chars|
  {
    if chars != [] {
      DecodedLines(chars[1..], table);
      LinesOfLine(LineAt(table, chars[0]), Decode(chars[1..], table));
    }
  }

  /** Encode two texts with one table: decoding gives them back iff the table has no more lines than
      there are characters. */
  method LinesToChars(a: Str, b: Str)
    returns (ok: bool, chars1: Str, chars2: Str, table: seq<Str>)
    ensures ok <==> b == [] || !LastLineIs(a, HasOwn())
    ensures |table| <= Distinct(a, b) + 2
    ensures a == [] || b == [] || a[|a| - 1] != b[|b| - 1] ==> |table| <= Distinct(a, b) + 1
    ensures ok ==> |table| > Distinct(a, b)
    ensures ok ==> (|table| <= 65536 <==> Decode(chars1, table) == a && Decode(chars2, table) == b)
    ensures ok && |table| <= 65536 ==> Meaningful(chars1, table) && Meaningful(chars2, table)
  {
    hide Decode, LineSet, LastLineIs, Lines, HasOwn, Proto;
    var index: map<Str, nat>;
    table, index := [[]], map[];
    chars2 := [];
    assert GoodTable(table, index);
    ok, chars1, table, index := EncodeText(a, table, index);
    ghost var t1, i1 := table, index;
    ok, chars2, table, index := EncodeText(b, table, index);
    BothDecoded(a, b, ok, chars1, chars2, t1, table);
    TableSize(a, b, i1.Keys, index.Keys, |t1|, |table|, ok);
  }

  lemma BothDecoded(a: Str, b: Str, ok: bool, chars1: Str, chars2: Str, t1: seq<Str>, table: seq<Str>)
    requires t1 <= table && AllLines(table) && |t1| > 0 && t1[0] == []
    requires |t1| <= 65536 ==> Decode(chars1, t1) == a && Meaningful(chars1, t1)
    requires ok && |table| <= 65536 ==> Decode(chars2, table) == b && Meaningful(chars2, table)
    requires |chars1| == |Lines(a)| && (65536 < |t1| ==> 0 in chars1)
    requires ok ==> |chars2| == |Lines(b)| && (|t1| <= 65536 < |table| ==> 0 in chars2)
    ensures ok ==> (|table| <= 65536 <==> Decode(chars1, table) == a && Decode(chars2, table) == b)
    ensures ok && |table| <= 65536 ==> Meaningful(chars1, table) && Meaningful(chars2, table)
  {
    hide Decode, Lines;
    var more := table[|t1|..];
    assert table == t1 + more;
    if |table| <= 65536 {
      DecodeGrown(chars1, t1, more);
    }
    DecodedLines(chars1, table);
    DecodedLines(chars2, table);
  }

  lemma {:induction false} LastLineEnds(s: Str, l: Str)
    requires LastLineIs(s, l)
    ensures l in LineSet(s) && l != [] && s != [] && s[|s| - 1] == l[|l| - 1]
    decreases |s|
  {
    var n := FirstLine(s);
    if n < |s| {
      assert s[n..][|s[n..]| - 1] == s[|s| - 1];
      LastLineEnds(s[n..], l);
    } else {
      assert s[..n] == s;
    }
  }

  lemma TableSize(a: Str, b: Str, k1: set<Str>, k2: set<Str>, n1: int, n2: int, ok: bool)
    requires k1 <= LineSet(a) && k2 <= k1 + LineSet(b) && Proto() !in k2 && k1 <= k2
    requires n1 == 1 + |k1| + if LastLineIs(a, Proto()) then 1 else 0
    requires n2 - n1 == |k2| - |k1| + if ok && LastLineIs(b, Proto()) then 1 else 0
    requires forall l :: l in LineSet(a) && l != Proto() ==> l in k1
    requires ok ==> forall l :: l in LineSet(b) && l != Proto() ==> l in k2
    ensures n2 <= Distinct(a, b) + 2
    ensures a == [] || b == [] || a[|a| - 1] != b[|b| - 1] ==> n2 <= Distinct(a, b) + 1
    ensures ok ==> n2 > Distinct(a, b)
  {
    hide LastLineIs, LineSet, Proto;
    var all := LineSet(a) + LineSet(b);
    if LastLineIs(a, Proto()) {
      LastLineEnds(a, Proto());
    }
    if LastLineIs(b, Proto()) {
      LastLineEnds(b, Proto());
    }
    if Proto() in all {
      assert Proto() !in k2 && |k2 + {Proto()}| == |k2| + 1;
      SmallerSet(k2 + {Proto()}, all);
    } else {
      SmallerSet(k2, all);
    }
    if ok {
      ProtoIsLast(a);
      ProtoIsLast(b);
      assert all <= k2 + {Proto()};
      OneMore(k2, Proto());
      SmallerSet(all, if Proto() in all then k2 + {Proto()} else k2);
    }
  }

  /** A line without a newline is the last. */
  lemma {:induction false} ProtoIsLast(s: Str)
    ensures Proto() in LineSet(s) ==> LastLineIs(s, Proto())
    decreases |s|
  {
    if s != [] {
      LineSetSplit(s);
      var n := FirstLine(s);
      SpecialsHaveNoNewline();
      if n < |s| {
        assert s[..n][n - 1] == NEWLINE;
        ProtoIsLast(s[n..]);
        assert Lines(s[n..]) != [];
      } else {
        assert s[..n] == s && Lines(s[n..]) == [];
      }
    }
  }
}
