/** The one-pass validator of a .properties text, and what it decides. */
module PropertyScan {
  import opened PropertyFormat
  import opened PropertyLines

  /** The flags of the scan, and the characters of the current line. */
  datatype Scan = Scan(
    isNewLine: bool,
    isCommentLine: bool,
    isSkipWhiteSpace: bool,
    precedingBackslash: bool,
    appendedLineBegin: bool,
    skipLF: bool,
    hasProperty: bool,
    property: string)

  const START := Scan(true, false, true, false, false, false, false, [])

  datatype Outcome = Continue(next: Scan) | Invalid

  /** One character. */
  ghost function Step(s0: Scan, c: char): Outcome {
    var s := s0.(skipLF := false);
    if s0.skipLF && c == '\n' then Continue(s)
    else if s.isSkipWhiteSpace && (IsSpace(c) || (!s.appendedLineBegin && IsTerminator(c))) then Continue(s)
    else
      var t := if s.isSkipWhiteSpace then s.(appendedLineBegin := false, isSkipWhiteSpace := false) else s;
      if t.isNewLine && (c == '#' || c == '!') then Continue(t.(isNewLine := false, isCommentLine := true))
      else
        var u := t.(isNewLine := false);
        if !IsTerminator(c) then
          Continue(u.(property := u.property + [c], precedingBackslash := c == '\\' && !u.precedingBackslash))
        else if u.isCommentLine || u.property == [] then
          Continue(u.(isNewLine := true, isCommentLine := false, isSkipWhiteSpace := true, property := []))
        else if u.precedingBackslash then
          Continue(u.(property := u.property[..|u.property| - 1], precedingBackslash := false, isSkipWhiteSpace := true,
                      appendedLineBegin := true, skipLF := c == '\r'))
        else if ValidLine(u.property) then
          Continue(u.(hasProperty := true, property := [], isNewLine := true, isSkipWhiteSpace := true))
        else Invalid
  }

  /** The verdict on the characters still to come. */
  ghost predicate Verdict(s: Scan, text: string)
    decreases |text|
  {
    if text == [] then
      if s.property != [] && !s.isCommentLine then ValidLine(s.property) else s.hasProperty
    else
      match Step(s, text[0])
      case Continue(next) => Verdict(next, text[1..])
      case Invalid => false
  }

  /** The verdict from position `i` on. */
  ghost predicate From(s: Scan, text: string, i: nat)
    requires i <= |text|
  {
    Verdict(s, text[i..])
  }

  lemma FromStep(s: Scan, text: string, i: nat)
    requires i < |text|
    ensures From(s, text, i) == (match Step(s, text[i]) case Continue(next) => From(next, text,
            i + 1) case Invalid => false)
  {
    hide Step;
    assert text[i..][0] == text[i] && text[i..][1..] == text[i + 1..];
  }

  lemma FromEnds(s: Scan, text: string)
    ensures From(s, text, 0) == Verdict(s, text)
    ensures From(s, text, |text|) == if s.property != []
            && !s.isCommentLine then ValidLine(s.property) else s.hasProperty
  {
    assert text[|text|..] == [] && text[0..] == text;
  }

  // ----- the validator -----

  /** Accepts a text in which no line of backslashes is misread iff it has a logical line and all of
      them are valid. */
  method ValidateProperties(str: string) returns (ok: bool)
    ensures ok <==> Judge(false, CarriedItems(false, Natural(str)))
    ensures CarriedItems(false, Natural(str)) == Items(Natural(str)) <==> !Misread(false, Natural(str))
    ensures !Misread(false, Natural(str)) ==> (ok <==> WellFormed(str))
  {
    ok := Validate(str);
    ScanJudgesItems(str);
    ScanDecidesFormat(str);
  }

  method Validate(str: string) returns (ok: bool)
    ensures ok <==> Verdict(START, str)
  {
    hide From, ValidLine, Verdict;
    var isNewLine, isCommentLine, isSkipWhiteSpace := true, false, true;
    var precedingBackslash, appendedLineBegin, skipLF, hasProperty := false, false, false, false;
    var property: string := [];
    var i := 0;
    FromEnds(START, str);
    ghost var s := START;
    while i < |str|
      invariant 0 <= i <= |str|
      invariant s == Scan(isNewLine, isCommentLine, isSkipWhiteSpace, precedingBackslash, appendedLineBegin, skipLF,
                          hasProperty, property)
      invariant Verdict(START, str) == From(s, str, i)
    {
      var c := str[i];
      FromStep(s, str, i);
      ghost var step := Step(s, c);
      s := if step.Continue? then step.next else s;
      i := i + 1;
      if skipLF {
        skipLF := false;
        if c == '\n' {
          continue;
        }
      }
      if isSkipWhiteSpace {
        if IsSpace(c) {
          continue;
        }
        if !appendedLineBegin && IsTerminator(c) {
          continue;
        }
        appendedLineBegin := false;
        isSkipWhiteSpace := false;
      }
      if isNewLine {
        isNewLine := false;
        if c == '#' || c == '!' {
          isCommentLine := true;
          continue;
        }
      }
      if c != '\n' && c != '\r' {
        property := property + [c];
        if c == '\\' {
          precedingBackslash := !precedingBackslash;
        } else {
          precedingBackslash := false;
        }
        continue;
      }
      if isCommentLine || |property| == 0 {
        isNewLine := true;
        isCommentLine := false;
        isSkipWhiteSpace := true;
        property := [];
        continue;
      }
      if precedingBackslash {
        property := property[..|property| - 1];
        precedingBackslash := false;
        isSkipWhiteSpace := true;
        appendedLineBegin := true;
        if c == '\r' {
          skipLF := true;
        }
        continue;
      }
      var valid := ValidateProperty(property);
      if !valid {
        return false;
      }
      hasProperty := true;
      property := [];
      isNewLine := true;
      isSkipWhiteSpace := true;
    }
    FromEnds(s, str);
    if |property| > 0 && !isCommentLine {
      ok := ValidateProperty(property);
      return;
    }
    return hasProperty;
  }

  // ----- the states between lines and in a line -----

  function NewLine(has: bool, carry: bool): Scan {
    Scan(true, false, true, carry, false, false, has, [])
  }

  function InLine(has: bool, acc: string, open: bool): Scan {
    Scan(false, false, false, open, false, false, has, acc)
  }

  function InComment(has: bool, acc: string, open: bool): Scan {
    Scan(false, true, false, open, false, false, has, acc)
  }

  function Continued(has: bool, acc: string, lf: bool): Scan {
    Scan(false, false, true, false, true, lf, has, acc)
  }

  /** Whether the character behind `t` is escaped, when the one before `t` is a backslash that may
      escape (`carry`). */
  predicate After(carry: bool, t: string) {
    if t == [] then carry else t[|t| - 1] == '\\' && !After(carry, t[..|t| - 1])
  }

  lemma {:induction false} AfterIsOpen(t: string)
    ensures After(false, t) == Open(t)
    decreases |t|
  {
    if t != [] {
      var n := |t| - 1;
      AfterIsOpen(t[..n]);
      EscapedStep(t, n);
      EscapedPrefix(t, n, n);
    }
  }

  lemma {:induction false} EscapedPrefix(t: string, n: nat, i: nat)
    requires i <= n <= |t|
    ensures Escaped(t[..n], i) == Escaped(t, i)
    decreases i
  {
    if i > 0 {
      EscapedPrefix(t, n, i - 1);
      EscapedStep(t, i - 1);
      EscapedStep(t[..n], i - 1);
    }
  }

  lemma {:induction false} SkipsSpace(s: Scan, text: string, n: nat)
    requires s.isSkipWhiteSpace && !s.skipLF && n <= |text| && forall i :: 0 <= i < n ==> IsSpace(text[i])
    ensures Verdict(s, text) == Verdict(s, text[n..])
    decreases n
  {
    if n > 0 {
      assert text[1..][n - 1..] == text[n..];
      SkipsSpace(s, text[1..], n - 1);
    } else {
      assert text[0..] == text;
    }
  }

  /** Characters of a line are collected. */
  lemma {:induction false} Collects(s: Scan, t: string, rest: string)
    requires !s.isSkipWhiteSpace && !s.skipLF && !s.isNewLine && forall i :: 0 <= i < |t| ==> !IsTerminator(t[i])
    ensures Verdict(s, t + rest)
         == Verdict(s.(property := s.property + t, precedingBackslash := After(s.precedingBackslash, t)), rest)
    decreases |t|
  {
    if t == [] {
      assert t + rest == rest && s.property + t == s.property;
    } else {
      var n := |t| - 1;
      Collects(s, t[..n], [t[n]] + rest);
      assert t[..n] + ([t[n]] + rest) == t + rest;
      assert ([t[n]] + rest)[1..] == rest;
      assert s.property + t[..n] + [t[n]] == s.property + t;
    }
  }

  // ----- the second phase, with the flag a comment leaves behind -----

  /** Like `Items`, but a comment hands over whether its last backslash is open, and a line that
      consists of backslashes only counts it. */
  ghost function CarriedItems(carry: bool, ls: seq<string>): seq<Item>
    decreases |ls|
  {
    if ls == [] then []
    else
      var l, more := Strip(ls[0]), ls[1..];
      if l == [] then CarriedItems(carry, more)
      else if IsComment(l) then [Comment(l)] + CarriedItems(After(carry, l[1..]), more)
      else
        var (line, rest) := if After(carry, l)
          && more != [] then Join(l[..|l| - 1], Strip(more[0]), more[1..]) else (l, more);
        (if line == [] then [] else [Property(line)]) + CarriedItems(false, rest)
  }

  ghost predicate Judge(has: bool, items: seq<Item>)
    decreases |items|
  {
    if items == [] then has
    else if items[0].Comment? then Judge(has, items[1..])
    else ValidLine(items[0].text) && Judge(true, items[1..])
  }

  /** The verdict on a joined line and what follows it. */
  ghost predicate JudgeJoined(has: bool, line: string, rest: seq<string>) {
    if line == [] then Judge(has, CarriedItems(false, rest))
    else ValidLine(line) && Judge(true, CarriedItems(false, rest))
  }

  lemma JudgeItem(has: bool, line: string, rest: seq<string>)
    ensures Judge(has, (if line == [] then [] else [Property(line)]) + CarriedItems(false, rest))
            == JudgeJoined(has, line, rest)
  {
    var items := CarriedItems(false, rest);
    if line == [] {
      assert [] + items == items;
    } else {
      assert ([Property(line)] + items)[1..] == items;
    }
  }

  /** The natural lines behind the first. */
  function Later(s: string): seq<string> {
    if LineEnd(s) == |s| then [] else Natural(AfterLine(s))
  }

  lemma NaturalParts(s: string)
    ensures Natural(s) == [s[..LineEnd(s)]] + Later(s)
    ensures Natural(s)[0] == s[..LineEnd(s)] && Natural(s)[1..] == Later(s)
    ensures s == s[..LineEnd(s)] + s[LineEnd(s)..]
  {
    var e, rest := LineEnd(s), Later(s);
    var line := s[..e];
    assert s == line + s[e..];
    assert e == |s| ==> line == s;
    hide LineEnd, AfterLine;
    FirstAndRest(line, rest);
    assert Natural(s) == [line] + rest;
    hide Natural, Later;
  }

  lemma FirstAndRest(line: string, rest: seq<string>)
    ensures ([line] + rest)[0] == line && ([line] + rest)[1..] == rest
  {
  }

  /** After a terminator, a line feed that belongs to it is skipped. */
  lemma NewLineSkips(has: bool, carry: bool, u: string)
    requires u != [] && IsTerminator(u[0])
    ensures Verdict(NewLine(has, carry), u[1..]) == Verdict(NewLine(has, carry), u[TerminatorLength(u)..])
  {
    if TerminatorLength(u) == 2 {
      assert u[1..][1..] == u[2..];
    }
  }

  lemma ContinuedSkips(has: bool, acc: string, u: string)
    requires u != [] && IsTerminator(u[0])
    ensures Verdict(Continued(has, acc, u[0] == '\r'), u[1..])
            == Verdict(Continued(has, acc, false), u[TerminatorLength(u)..])
  {
    if TerminatorLength(u) == 2 {
      assert u[1..][1..] == u[2..];
    }
  }

  /** The end of a line of a property. */
  lemma LineEnds(has: bool, acc: string, open: bool, u: string)
    requires (u == [] || IsTerminator(u[0])) && (open ==> acc != [])
    ensures u == [] ==> Verdict(InLine(has, acc, open), u) == (if acc == [] then has else ValidLine(acc))
    ensures u != [] ==>
              var more := u[TerminatorLength(u)..];
              Verdict(InLine(has, acc, open), u) ==
                (if open then Verdict(Continued(has, acc[..|acc| - 1], false), more)
                 else if acc == [] then Verdict(NewLine(has, false), more)
                 else ValidLine(acc) && Verdict(NewLine(true, false), more))
  {
    if u != [] {
      OneStep(InLine(has, acc, open), u);
      StepEnds(has, acc, open, u[0]);
      hide Verdict, Step, ValidLine, TerminatorLength;
      if open {
        ContinuedSkips(has, acc[..|acc| - 1], u);
      } else {
        NewLineSkips(if acc == [] then has else true, false, u);
      }
    }
  }

  lemma StepEnds(has: bool, acc: string, open: bool, c: char)
    requires IsTerminator(c) && (open ==> acc != [])
    ensures Step(InLine(has, acc, open), c) ==
              (if open then Continue(Continued(has, acc[..|acc| - 1], c == '\r'))
               else if acc == [] then Continue(NewLine(has, false))
               else if ValidLine(acc) then Continue(NewLine(true, false))
               else Invalid)
  {
    hide ValidLine;
  }

  lemma OneStep(s: Scan, u: string)
    requires u != []
    ensures Verdict(s, u) == (match Step(s, u[0]) case Continue(next) => Verdict(next, u[1..]) case Invalid => false)
  {
    hide Step;
  }

  // ----- the scan decides the format -----

  lemma {:induction false} FromContinued(has: bool, acc: string, s: string)
    ensures var (line, rest) := Join(acc, Strip(s[..LineEnd(s)]), Later(s));
            Verdict(Continued(has, acc, false), s) == JudgeJoined(has, line, rest)
    decreases |s|, 0
  {
    var e := LineEnd(s);
    var l0, u := s[..e], s[e..];
    var l := Strip(l0);
    LineOfContinued(has, acc, s, l, u);
    JoinStep(acc, l, Later(s));
    assert u == [] ==> Later(s) == [];
    assert u != [] ==> Later(s) == Natural(AfterLine(s)) && AfterLine(s) == u[TerminatorLength(u)..];
    hide Verdict, Join, Natural, Later, Judge, CarriedItems, ValidLine, Strip, LineEnd, TerminatorLength;
    if u != [] {
      if Open(l) {
        NaturalParts(AfterLine(s));
        FromContinued(has, acc + l[..|l| - 1], AfterLine(s));
      } else {
        FromNewLine(if acc + l == [] then has else true, false, AfterLine(s));
      }
    } else {
      NoItems();
    }
  }

  lemma NoItems()
    ensures CarriedItems(false, []) == [] && Judge(false, []) == false && Judge(true, []) == true
  {
  }

  lemma LineOfContinued(has: bool, acc: string, s: string, l: string, u: string)
    requires l == Strip(s[..LineEnd(s)]) && u == s[LineEnd(s)..]
    ensures Open(l) ==> l != []
    ensures u == [] ==> Verdict(Continued(has, acc, false), s) == (if acc + l == [] then has else ValidLine(acc + l))
    ensures u != [] ==>
              var more := u[TerminatorLength(u)..];
              Verdict(Continued(has, acc, false), s) ==
                (if Open(l) && l != [] then Verdict(Continued(has, acc + l[..|l| - 1], false), more)
                 else if acc + l == [] then Verdict(NewLine(has, false), more)
                 else ValidLine(acc + l) && Verdict(NewLine(true, false), more))
  {
    hide Verdict, ValidLine, Strip, LineEnd, TerminatorLength, Open;
    PopLast(acc, l);
    StrippedLine(s, l, u);
    LineRuns(has, acc, s, l, u);
    var line, open := acc + l, Open(l);
    assert open ==> line != [];
    LineEnds(has, line, open, u);
  }

  lemma LineRuns(has: bool, acc: string, s: string, l: string, u: string)
    requires l == Strip(s[..LineEnd(s)]) && u == s[LineEnd(s)..]
    ensures Verdict(Continued(has, acc, false), s) == Verdict(InLine(has, acc + l, Open(l)), u)
  {
    hide Verdict, After, Open, LeadingSpace, LineEnd, Strip;
    StrippedLine(s, l, u);
    var k := LeadingSpace(s[..LineEnd(s)]);
    StrippedStarts(s, k, l, u);
    AfterIsOpen(l);
    SkipsSpace(Continued(has, acc, false), s, k);
    EntersLine(has, acc, l + u);
    Collects(InLine(has, acc, false), l, u);
  }

  /** A line without its leading space, and what follows it. */
  ghost predicate Stripped(s: string, k: nat, l: string, u: string) {
    && k <= |s| && s[k..] == l + u && (forall i :: 0 <= i < k ==> IsSpace(s[i]))
    && (forall i :: 0 <= i < |l| ==> !IsTerminator(l[i])) && (l != [] ==> !IsSpace(l[0]))
    && (u == [] || IsTerminator(u[0]))
  }

  lemma StrippedLine(s: string, l: string, u: string)
    requires l == Strip(s[..LineEnd(s)]) && u == s[LineEnd(s)..]
    ensures Stripped(s, LeadingSpace(s[..LineEnd(s)]), l, u)
  {
    hide LeadingSpace;
    var e := LineEnd(s);
    var line := s[..e];
    var k := LeadingSpace(line);
    assert forall i :: 0 <= i < e ==> line[i] == s[i];
    assert k < e ==> !IsSpace(s[k]);
    assert forall i :: 0 <= i < k ==> IsSpace(s[i]);
    TakeAndDrop(s, e, k, line, l, u);
  }

  lemma StrippedStarts(s: string, k: nat, l: string, u: string)
    requires Stripped(s, k, l, u)
    ensures l + u == [] || !IsSpace((l + u)[0])
  {
    if l == [] {
      assert l + u == u;
    }
  }

  lemma TakeAndDrop(s: string, e: nat, k: nat, line: string, l: string, u: string)
    requires k <= e <= |s| && line == s[..e] && l == line[k..] && u == s[e..]
    ensures s[k..] == l + u && |l| == e - k && forall i :: 0 <= i < |l| ==> l[i] == s[k + i]
  {
    assert l == s[k..e];
  }

  lemma PopLast(acc: string, l: string)
    ensures Open(l) ==> l != [] && (acc + l)[..|acc + l| - 1] == acc + l[..|l| - 1]
  {
  }

  lemma JoinStep(acc: string, l: string, rest: seq<string>)
    ensures Open(l) && rest != [] ==>
              l != [] && Join(acc, l, rest) == Join(acc + l[..|l| - 1], Strip(rest[0]), rest[1..])
    ensures !(Open(l) && rest != []) ==> Join(acc, l, rest) == (acc + l, rest)
  {
  }

  lemma EntersLine(has: bool, acc: string, x: string)
    requires x == [] || !IsSpace(x[0])
    ensures Verdict(Continued(has, acc, false), x) == Verdict(InLine(has, acc, false), x)
  {
  }

  lemma {:induction false} FromNewLine(has: bool, carry: bool, s: string)
    ensures Verdict(NewLine(has, carry), s) == Judge(has, CarriedItems(carry, Natural(s)))
    decreases |s|, 1
  {
    var e := LineEnd(s);
    var l0, u := s[..e], s[e..];
    var k, l := LeadingSpace(l0), Strip(l0);
    SkipsSpace(NewLine(has, carry), s, k);
    assert s[k..] == l + u;
    NaturalParts(s);
    if l == [] {
      FromBlank(has, carry, s, u);
    } else if IsComment(l) {
      FromComment(has, carry, s, l, u);
    } else {
      FromProperty(has, carry, s, l, u);
    }
  }
  lemma {:induction false} FromBlank(has: bool, carry: bool, s: string, u: string)
    requires Strip(s[..LineEnd(s)]) == [] && u == s[LineEnd(s)..]
    ensures Verdict(NewLine(has, carry), u) == Judge(has, CarriedItems(carry, Natural(s)))
    decreases |s|, 0
  {
    NaturalParts(s);
    if u != [] {
      NewLineSkips(has, carry, u);
      FromNewLine(has, carry, AfterLine(s));
    }
  }

  lemma {:induction false} FromComment(has: bool, carry: bool, s: string, l: string, u: string)
    requires l == Strip(s[..LineEnd(s)]) && u == s[LineEnd(s)..] && IsComment(l)
    ensures Verdict(NewLine(has, carry), l + u) == Judge(has, CarriedItems(carry, Natural(s)))
    decreases |s|, 0
  {
    NaturalParts(s);
    var carry', more := After(carry, l[1..]), Later(s);
    assert more == if u == [] then [] else Natural(AfterLine(s));
    CommentItems(has, carry, l, Natural(s));
    CommentEnds(has, carry, s, l, u);
    hide Verdict, Natural, Later, Strip, LineEnd, IsComment;
    if u != [] {
      FromNewLine(has, carry', AfterLine(s));
    } else {
      hide After;
      NoCarriedItems(has, carry');
    }
  }

  lemma NoCarriedItems(has: bool, carry: bool)
    ensures Judge(has, CarriedItems(carry, [])) == has
  {
  }

  lemma CommentItems(has: bool, carry: bool, l: string, ls: seq<string>)
    requires ls != [] && l == Strip(ls[0]) && IsComment(l)
    ensures Judge(has, CarriedItems(carry, ls)) == Judge(has, CarriedItems(After(carry, l[1..]), ls[1..]))
  {
    var items := CarriedItems(After(carry, l[1..]), ls[1..]);
    assert CarriedItems(carry, ls) == [Comment(l)] + items;
    hide CarriedItems;
    assert ([Comment(l)] + items)[1..] == items;
  }

  lemma CommentEnds(has: bool, carry: bool, s: string, l: string, u: string)
    requires l == Strip(s[..LineEnd(s)]) && u == s[LineEnd(s)..] && IsComment(l)
    ensures u == [] ==> Verdict(NewLine(has, carry), l + u) == has
    ensures u != [] ==>
              Verdict(NewLine(has, carry), l + u)
              == Verdict(NewLine(has, After(carry, l[1..])), u[TerminatorLength(u)..])
  {
    hide Strip, LineEnd, LeadingSpace;
    assert (l + u)[1..] == l[1..] + u;
    StrippedLine(s, l, u);
    Collects(InComment(has, [], carry), l[1..], u);
    if u != [] {
      NewLineSkips(has, After(carry, l[1..]), u);
    }
  }

  lemma {:induction false} FromProperty(has: bool, carry: bool, s: string, l: string, u: string)
    requires l == Strip(s[..LineEnd(s)]) && u == s[LineEnd(s)..] && l != [] && !IsComment(l)
    ensures Verdict(NewLine(has, carry), l + u) == Judge(has, CarriedItems(carry, Natural(s)))
    decreases |s|, 0
  {
    hide Verdict, Judge, CarriedItems, Join, Strip, ValidLine, Natural, JudgeJoined;
    NaturalParts(s);
    PropertyStarts(has, carry, s, l, u);
    CarriedProperty(carry, Natural(s));
    var open := After(carry, l);
    LineEnds(has, l, open, u);
    var more := Later(s);
    JudgedLast(has, l);
    if u == [] {
      JudgeItem(has, l, more);
    } else if open {
      var next := AfterLine(s);
      NaturalParts(next);
      FromContinued(has, l[..|l| - 1], next);
      var (line, rest) := Join(l[..|l| - 1], Strip(more[0]), more[1..]);
      JudgeItem(has, line, rest);
    } else {
      FromNewLine(true, false, AfterLine(s));
      JudgeItem(has, l, more);
    }
  }

  lemma PropertyStarts(has: bool, carry: bool, s: string, l: string, u: string)
    requires l == Strip(s[..LineEnd(s)]) && u == s[LineEnd(s)..] && l != [] && !IsComment(l)
    ensures Verdict(NewLine(has, carry), l + u) == Verdict(InLine(has, l, After(carry, l)), u)
    ensures After(carry, l) ==> l != []
  {
    StrippedLine(s, l, u);
    hide Strip, LineEnd, LeadingSpace, ValidLine;
    assert Verdict(NewLine(has, carry), l + u) == Verdict(InLine(has, [], carry), l + u);
    hide Verdict;
    Collects(InLine(has, [], carry), l, u);
    assert [] + l == l;
  }

  lemma CarriedProperty(carry: bool, ls: seq<string>)
    requires ls != [] && Strip(ls[0]) != [] && !IsComment(Strip(ls[0]))
    ensures var l, more := Strip(ls[0]), ls[1..];
            var (line, rest) := if After(carry, l) && more != []
                                then Join(l[..|l| - 1], Strip(more[0]), more[1..]) else (l, more);
            CarriedItems(carry, ls) == (if line == [] then [] else [Property(line)]) + CarriedItems(false, rest)
  {
  }

  lemma JudgedLast(has: bool, l: string)
    ensures l != [] ==> JudgeJoined(has, l, []) == ValidLine(l)
    ensures forall rest :: l != [] ==>
              JudgeJoined(has, l, rest) == (ValidLine(l) && Judge(true, CarriedItems(false, rest)))
  {
    hide ValidLine;
    NoItems();
  }

  /** For every text, the scan accepts what the second phase, with the carried flag, accepts. */
  lemma ScanJudgesItems(s: string)
    ensures Verdict(START, s) == Judge(false, CarriedItems(false, Natural(s)))
  {
    FromNewLine(false, false, s);
  }

  lemma {:induction false} JudgeMeans(has: bool, items: seq<Item>)
    ensures Judge(has, items) <==>
              (has || exists i :: 0 <= i < |items| && items[i].Property?)
              && forall i :: 0 <= i < |items| && items[i].Property? ==> ValidLine(items[i].text)
    decreases |items|
  {
    if items != [] {
      var rest := items[1..];
      JudgeMeans(if items[0].Comment? then has else true, rest);
      assert forall i :: 0 <= i < |rest| ==> rest[i] == items[i + 1];
      assert forall i :: 0 < i < |items| ==> items[i] == rest[i - 1];
    }
  }

  // ----- when the carried flag matters -----

  predicate Backslashes(l: string) {
    l != [] && forall i :: 0 <= i < |l| ==> l[i] == '\\'
  }

  /** Some line of backslashes, not the last one, is read with the flag of an open comment. */
  ghost predicate Misread(carry: bool, ls: seq<string>)
    decreases |ls|
  {
    if ls == [] then false
    else
      var l, more := Strip(ls[0]), ls[1..];
      if l == [] then Misread(carry, more)
      else if IsComment(l) then Misread(After(carry, l[1..]), more)
      else (carry && Backslashes(l) && more != []) || Misread(false, Join([], l, more).1)
  }

  /** The flag reaches the end of a line of backslashes only, and is inverted there. */
  lemma {:induction false} AfterCarry(l: string)
    requires l != []
    ensures After(true, l) == if Backslashes(l) then !Open(l) else Open(l)
    decreases |l|
  {
    var n := |l| - 1;
    AfterIsOpen(l);
    AfterIsOpen(l[..n]);
    if n > 0 {
      AfterCarry(l[..n]);
      assert Backslashes(l) <==> Backslashes(l[..n]) && l[n] == '\\' by {
        assert forall i :: 0 <= i < n ==> l[..n][i] == l[i];
      }
    }
  }

  lemma {:induction false} JoinAcc(acc: string, l: string, rest: seq<string>)
    ensures Join(acc, l, rest) == (acc + Join([], l, rest).0, Join([], l, rest).1)
    decreases |rest|
  {
    JoinStep(acc, l, rest);
    JoinStep([], l, rest);
    if Open(l) && rest != [] {
      var l', more, x := Strip(rest[0]), rest[1..], l[..|l| - 1];
      JoinAcc(acc + x, l', more);
      JoinAcc([] + x, l', more);
      assert acc + x + Join([], l', more).0 == acc + ([] + x + Join([], l', more).0);
    } else {
      assert [] + l == l;
    }
  }

  /** A logical line of one backslash is the last one. */
  lemma {:induction false} LoneBackslash(l: string, rest: seq<string>)
    requires Join([], l, rest).0 == "\\"
    ensures l != [] && Join([], l, rest).1 == []
    decreases |rest|
  {
    JoinStep([], l, rest);
    OpenBackslashes(l);
    if Open(l) && rest != [] {
      var x, t := l[..|l| - 1], Join([], Strip(rest[0]), rest[1..]).0;
      JoinAcc([] + x, Strip(rest[0]), rest[1..]);
      OneOfTwo([] + x, t);
      LoneBackslash(Strip(rest[0]), rest[1..]);
    } else {
      assert [] + l == l;
    }
  }

  lemma OneOfTwo(x: string, t: string)
    requires x + t == "\\"
    ensures x == [] || x == "\\"
    ensures x == [] ==> t == "\\"
  {
    var u := x + t;
    assert |u| == 1 && (x != [] ==> u[0] == x[0]);
    assert x == [] ==> u == t;
  }

  lemma OpenBackslashes(l: string)
    ensures Open(l) ==> l != [] && l[|l| - 1] == '\\'
    ensures |l| == 1 && l[0] == '\\' ==> Open(l)
    ensures Open(l) ==> l[..|l| - 1] != "\\"
  {
    if l != [] {
      EscapedStep(l, |l| - 1);
      EscapedStep(l, 0);
      assert |l| > 1 ==> l[..|l| - 1][0] == l[0];
    }
  }

  /** The first property, if it is a lone backslash, has no item behind it. */
  lemma {:induction false} LoneItem(ls: seq<string>)
    ensures Items(ls) != [] && Items(ls)[0] == Property("\\") ==> |Items(ls)| == 1
    decreases |ls|
  {
    if ls != [] {
      var l, more := Strip(ls[0]), ls[1..];
      var (line, rest) := Join([], l, more);
      if l == [] {
        LoneItem(more);
      } else if !IsComment(l) {
        LoneItem(rest);
        if line == "\\" {
          LoneBackslash(l, more);
        }
      }
    }
  }

  /** Where nothing is carried yet, the first line is read alike. */
  lemma FirstReadAlike(ls: seq<string>)
    requires ls != [] && Strip(ls[0]) != []
    ensures var l, more := Strip(ls[0]), ls[1..];
            var (line, rest) := Join([], l, more);
            if IsComment(l) then CarriedItems(false, ls) == [Comment(l)] + CarriedItems(After(false, l[1..]), more)
            else CarriedItems(false, ls) == (if line == [] then [] else [Property(line)]) + CarriedItems(false, rest)
  {
    var l, more := Strip(ls[0]), ls[1..];
    AfterIsOpen(l);
    JoinStep([], l, more);
    assert [] + l == l && (l != [] ==> [] + l[..|l| - 1] == l[..|l| - 1]);
  }

  lemma {:induction false} NothingMeansNothing(ls: seq<string>)
    requires CarriedItems(false, ls) == []
    ensures Items(ls) == []
    decreases |ls|
  {
    if ls != [] {
      var l, more := Strip(ls[0]), ls[1..];
      if l == [] {
        NothingMeansNothing(more);
      } else {
        FirstReadAlike(ls);
        NothingMeansNothing(Join([], l, more).1);
      }
    }
  }

  /** Both readings of a line that, joined, adds one backslash, are not empty. */
  lemma SomeItem(ls: seq<string>)
    requires ls != [] && Join([], Strip(ls[0]), ls[1..]).0 == "\\"
    ensures Items(ls) != [] && CarriedItems(false, ls) != []
  {
    LoneBackslash(Strip(ls[0]), ls[1..]);
    FirstReadAlike(ls);
  }
  function PropertyItem(line: string): seq<Item> {
    if line == [] then [] else [Property(line)]
  }

  /** The two readings of a line of backslashes: it stands alone, or the next line is joined to it. */
  lemma TwoReadings(ls: seq<string>)
    requires |ls| > 1 && Backslashes(Strip(ls[0]))
    ensures var l, more := Strip(ls[0]), ls[1..];
            var x := l[..|l| - 1];
            var (t, rest) := Join([], Strip(more[0]), more[1..]);
            if Open(l) then Items(ls) == PropertyItem(x + t) + Items(rest)
                            && CarriedItems(true, ls) == [Property(l)] + CarriedItems(false, more)
            else Items(ls) == [Property(l)] + Items(more)
                 && CarriedItems(true, ls) == PropertyItem(x + t) + CarriedItems(false, rest)
  {
    hide Join, Open, CarriedItems, Strip, After;
    var l, more := Strip(ls[0]), ls[1..];
    var x := l[..|l| - 1];
    CarriedProperty(true, ls);
    JoinAcc(x, Strip(more[0]), more[1..]);
    JoinStep([], l, more);
    AfterCarry(l);
    assert [] + l == l && [] + x == x;
  }

  /** The carried flag changes the reading of a line of backslashes that is not the last. */
  lemma BackslashesReadDifferently(ls: seq<string>)
    requires |ls| > 1 && Backslashes(Strip(ls[0]))
    ensures CarriedItems(true, ls) != Items(ls)
  {
    hide Items, CarriedItems, Join, Open;
    var l, more := Strip(ls[0]), ls[1..];
    var (t, rest) := Join([], Strip(more[0]), more[1..]);
    OpenBackslashes(l);
    TwoReadings(ls);
    if t == "\\" {
      LoneBackslash(Strip(more[0]), more[1..]);
      SomeItem(more);
    }
    if Open(l) {
      OddDiffers(l, t, more, rest);
    } else {
      EvenDiffers(l, t, more, rest);
    }
  }

  lemma AddsOneBackslash(l: string, t: string)
    requires Backslashes(l)
    ensures l[..|l| - 1] + t == l ==> t == "\\"
    ensures l[..|l| - 1] + t == [] ==> l == "\\" && t == []
  {
    var x := l[..|l| - 1];
    assert l == x + [l[|l| - 1]];
    assert (x + t)[|x|..] == t;
  }

  /** An odd number of backslashes joins the next line, unless the flag is carried. */
  lemma OddDiffers(l: string, t: string, more: seq<string>, rest: seq<string>)
    requires Backslashes(l) && more != [] && (t, rest) == Join([], Strip(more[0]), more[1..])
    requires t == "\\" ==> rest == [] && CarriedItems(false, more) != []
    ensures PropertyItem(l[..|l| - 1] + t) + Items(rest) != [Property(l)] + CarriedItems(false, more)
  {
    AddsOneBackslash(l, t);
    if t == [] && l == "\\" {
      assert l[..|l| - 1] + t == [];
      DroppedDiffers(more);
    } else {
      hide Join, Items, CarriedItems;
      HeadsDiffer(l[..|l| - 1] + t, Items(rest), l, CarriedItems(false, more));
      assert rest == [] ==> Items(rest) == [] by { NothingIsRead(); }
    }
  }

  lemma NothingIsRead()
    ensures Items([]) == []
  {
  }

  lemma HeadsDiffer(a: string, x: seq<Item>, b: string, y: seq<Item>)
    requires a != [] && (a == b ==> x != y)
    ensures PropertyItem(a) + x != [Property(b)] + y
  {
    var p, q := [Property(a)] + x, [Property(b)] + y;
    assert p[0] == Property(a) && q[0] == Property(b) && p[1..] == x && q[1..] == y;
  }

  /** The next line adds nothing, and the joined line is dropped. */
  lemma DroppedDiffers(more: seq<string>)
    requires more != [] && Join([], Strip(more[0]), more[1..]).0 == []
    ensures PropertyItem([]) + Items(Join([], Strip(more[0]), more[1..]).1) != [Property("\\")]
            + CarriedItems(false, more)
  {
    hide Join, Items, CarriedItems;
    var rest := Join([], Strip(more[0]), more[1..]).1;
    DroppedJoin(more);
    LoneItem(rest);
    var q := [Property("\\")] + CarriedItems(false, more);
    assert [] + Items(rest) == Items(rest);
    assert q[0] == Property("\\") && q[1..] == CarriedItems(false, more);
    if CarriedItems(false, more) == [] {
      NothingMeansNothing(more);
    }
  }

  lemma DroppedJoin(more: seq<string>)
    requires more != [] && Join([], Strip(more[0]), more[1..]).0 == []
    ensures Items(more) == [] ==> Items(Join([], Strip(more[0]), more[1..]).1) == []
  {
    JoinStep([], Strip(more[0]), more[1..]);
  }

  /** An even number of backslashes does not, unless the flag is carried. */
  lemma EvenDiffers(l: string, t: string, more: seq<string>, rest: seq<string>)
    requires Backslashes(l) && |l| > 1 && more != [] && (t, rest) == Join([], Strip(more[0]), more[1..])
    requires t == "\\" ==> rest == [] && Items(more) != []
    ensures [Property(l)] + Items(more) != PropertyItem(l[..|l| - 1] + t) + CarriedItems(false, rest)
  {
    var x := l[..|l| - 1];
    AddsOneBackslash(l, t);
    var p, q := [Property(l)] + Items(more), [Property(x + t)] + CarriedItems(false, rest);
    assert p[0] == Property(l) && q[0] == Property(x + t);
    assert rest == [] ==> |q| == 1;
  }

  /** The scan reads the lines as the format does iff no line of backslashes is misread. */
  lemma {:induction false} ReadAlike(carry: bool, ls: seq<string>)
    ensures CarriedItems(carry, ls) == Items(ls) <==> !Misread(carry, ls)
    decreases |ls|
  {
    if ls != [] {
      var l, more := Strip(ls[0]), ls[1..];
      if l == [] {
        ReadAlike(carry, more);
      } else if IsComment(l) {
        ReadAlike(After(carry, l[1..]), more);
        SameTails([Comment(l)], CarriedItems(After(carry, l[1..]), more), Items(more));
      } else if carry && Backslashes(l) && more != [] {
        BackslashesReadDifferently(ls);
      } else {
        var (line, rest) := Join([], l, more);
        AfterCarry(l);
        AfterIsOpen(l);
        JoinStep([], l, more);
        assert [] + l == l && [] + l[..|l| - 1] == l[..|l| - 1];
        ReadAlike(false, rest);
        SameTails(if line == [] then [] else [Property(line)], CarriedItems(false, rest), Items(rest));
      }
    }
  }

  lemma SameTails(head: seq<Item>, x: seq<Item>, y: seq<Item>)
    ensures head + x == head + y <==> x == y
  {
    assert (head + x)[|head|..] == x && (head + y)[|head|..] == y;
  }

  // ----- closed comments carry nothing -----

  ghost predicate AllClosed(items: seq<Item>) {
    forall i :: 0 <= i < |items| && items[i].Comment? ==> !Open(items[i].text)
  }

  lemma ClosedTail(a: seq<Item>, b: seq<Item>)
    requires AllClosed(a + b)
    ensures AllClosed(a) && AllClosed(b)
  {
    assert forall i :: 0 <= i < |a| ==> a[i] == (a + b)[i];
    assert forall i :: 0 <= i < |b| ==> b[i] == (a + b)[|a| + i];
  }

  /** When every comment is closed, nothing is misread. */
  lemma {:induction false} ClosedIsNotMisread(ls: seq<string>)
    requires AllClosed(Items(ls))
    ensures !Misread(false, ls)
    decreases |ls|
  {
    if ls != [] {
      var l, more := Strip(ls[0]), ls[1..];
      if l == [] {
        ClosedIsNotMisread(more);
      } else if IsComment(l) {
        ClosedTail([Comment(l)], Items(more));
        assert !Open([Comment(l)][0].text);
        CommentCarry(l);
        ClosedIsNotMisread(more);
      } else {
        var (line, rest) := Join([], l, more);
        ClosedTail(PropertyItem(line), Items(rest));
        ClosedIsNotMisread(rest);
      }
    }
  }

  lemma CommentCarry(l: string)
    requires IsComment(l) && !Open(l)
    ensures !After(false, l[1..])
  {
    AfterIsOpen(l[1..]);
    assert l == l[..1] + l[1..];
    EscapedBehind(l[..1], l[1..], |l| - 1);
  }

  /** The validator reads a text as the format does iff no line of backslashes in it is misread, as
      in a text whose comments are closed; and then it decides the format. */
  lemma ScanDecidesFormat(s: string)
    ensures CarriedItems(false, Natural(s)) == Items(Natural(s)) <==> !Misread(false, Natural(s))
    ensures CommentsClosed(s) ==> !Misread(false, Natural(s))
    ensures !Misread(false, Natural(s)) ==> (Verdict(START, s) <==> WellFormed(s))
  {
    hide Natural, Misread, CarriedItems, Items, Verdict, Judge, Open;
    ScanJudgesItems(s);
    ReadAlike(false, Natural(s));
    JudgeMeans(false, Items(Natural(s)));
    if CommentsClosed(s) {
      ClosedIsNotMisread(Natural(s));
    }
  }
}
