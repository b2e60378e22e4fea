/** A comment that ends in an unescaped backslash misleads the validator, both ways: the flag it
    leaves behind inverts the meaning of a following line of backslashes. */
module PropertyExample {
  import opened PropertyFormat
  import opened PropertyLines
  import opened PropertyScan

  function Three(a: string, b: string, c: string): string {
    a + "\n" + (b + "\n" + c)
  }

  lemma ThreeLines(a: string, b: string, c: string)
    requires forall i :: 0 <= i < |a| ==> !IsTerminator(a[i])
    requires forall i :: 0 <= i < |b| ==> !IsTerminator(b[i])
    requires forall i :: 0 <= i < |c| ==> !IsTerminator(c[i])
    ensures Natural(Three(a, b, c)) == [a, b, c]
  {
    hide Natural;
    OneLine(a, b + "\n" + c);
    OneLine(b, c);
    LastLine(c);
    assert [a] + ([b] + [c]) == [a, b, c];
  }

  lemma LastLine(c: string)
    requires forall i :: 0 <= i < |c| ==> !IsTerminator(c[i])
    ensures Natural(c) == [c]
  {
    assert LineEnd(c) == |c|;
  }

  lemma OneLine(a: string, rest: string)
    requires forall i :: 0 <= i < |a| ==> !IsTerminator(a[i])
    ensures Natural(a + "\n" + rest) == [a] + Natural(rest)
  {
    var s := a + "\n" + rest;
    assert s[|a|] == '\n';
    assert LineEnd(s) == |a|;
    assert s[..|a|] == a && s[|a|..] == "\n" + rest;
    assert AfterLine(s) == rest;
  }

  lemma BackslashesAreNoProperty(s: string)
    requires s != [] && forall i :: 0 <= i < |s| ==> s[i] == '\\'
    ensures !ValidLine(s)
  {
    assert IsKeyLength(s, |s|);
    assert ValueOf(s, |s|) == [];
    forall k: nat | IsKeyLength(s, k)
      ensures ValueOf(s, k) == []
    {
      KeyLengthIsUnique(s, k, |s|);
    }
  }

  lemma KeyAndValue(s: string, n: nat)
    requires 0 < n && n + 1 < |s| && s[n] == '=' && !Escaped(s, n) && !IsSpace(s[n + 1])
    requires forall i :: 0 <= i < n ==> !EndsKey(s, i)
    requires EscapesValid(s)
    ensures ValidLine(s)
  {
    var t := s[n..];
    assert IsKeyLength(s, n);
    assert Strip(t) == t && t[0] == '=';
    var v := t[1..];
    assert v[0] == s[n + 1];
    assert Strip(v) == v;
    assert ValueOf(s, n) == v;
  }

  lemma SimpleProperty(s: string)
    requires s == "k=v" || s == "\\n=v"
    ensures ValidLine(s)
  {
    hide ValidLine, ValueOf, Strip;
    EscapedStep(s, 0);
    if |s| == 4 {
      EscapedStep(s, 1);
    }
    KeyAndValue(s, |s| - 2);
  }

  /** A comment ending in a backslash, a line with one backslash, and a property: one valid logical
      line, which the validator refuses. */
  lemma RefusesWellFormed(s: string)
    requires s == Three("#\\", "\\", "k=v")
    ensures WellFormed(s) && !Verdict(START, s)
  {
    hide Natural, Items, CarriedItems, Judge, Verdict, ValidLine, Three;
    ThreeLines("#\\", "\\", "k=v");
    ScanJudgesItems(s);
    FirstReading();
    SecondReading();
    SimpleProperty("k=v");
    OneProperty(s, "k=v");
  }

  lemma OneProperty(s: string, line: string)
    requires Items(Natural(s)) == [Comment("#\\"), Property(line)] && ValidLine(line)
    ensures WellFormed(s)
  {
    hide Items, Natural, ValidLine;
    var items := Items(Natural(s));
    assert items[1] == Property(line);
  }

  lemma NoSpace(l: string)
    requires l != [] && !IsSpace(l[0])
    ensures Strip(l) == l
  {
  }

  lemma ItemsAfterComment(l: string, more: seq<string>)
    requires IsComment(l)
    ensures Items([l] + more) == [Comment(l)] + Items(more)
  {
    NoSpace(l);
    assert ([l] + more)[1..] == more;
  }

  lemma ItemsOfJoined(l: string, more: seq<string>, line: string, rest: seq<string>)
    requires l != [] && !IsSpace(l[0]) && !IsComment(l) && Join([], l, more) == (line, rest) && line != []
    ensures Items([l] + more) == [Property(line)] + Items(rest)
  {
    NoSpace(l);
    assert ([l] + more)[1..] == more;
  }

  lemma FirstReading()
    ensures Items(["#\\", "\\", "k=v"]) == [Comment("#\\"), Property("k=v")]
  {
    var comment, slash, last := "#\\", "\\", "k=v";
    EscapedStep(slash, 0);
    EscapedStep(last, 2);
    assert Open(slash) && !Open(last);
    assert [comment, slash, last] == ["#\\", "\\", "k=v"];
    hide Items, Open;
    JoinedReading(comment, slash, last);
  }

  lemma JoinedReading(comment: string, slash: string, last: string)
    requires IsComment(comment) && |slash| == 1 && slash[0] == '\\' && Open(slash)
    requires last != [] && !IsSpace(last[0]) && !Open(last)
    ensures Items([comment, slash, last]) == [Comment(comment), Property(last)]
  {
    hide Items, Open, Strip, Join;
    NoSpace(last);
    var more := [last];
    assert slash[..0] == [] && more[1..] == [];
    JoinStep([], slash, more);
    JoinStep([], last, []);
    assert [] + slash[..0] == [] && [] + last == last;
    ItemsOfJoined(slash, more, last, []);
    ItemsAfterComment(comment, [slash] + more);
    NoLines();
    assert [comment] + ([slash] + more) == [comment, slash, last];
    assert [Property(last)] + [] == [Property(last)];
  }

  lemma NoLines()
    ensures Items([]) == []
  {
  }

  lemma SecondReading()
    ensures !Judge(false, CarriedItems(false, ["#\\", "\\", "k=v"]))
  {
    var comment, slash, last := "#\\", "\\", "k=v";
    NoSpace(comment);
    ParityOfOne(comment[1..]);
    BackslashesAreNoProperty(slash);
    CommentThenSlash(comment, slash, last);
    assert [comment, slash, last] == ["#\\", "\\", "k=v"];
  }

  lemma CommentThenSlash(comment: string, slash: string, last: string)
    requires IsComment(comment) && Strip(comment) == comment && After(false, comment[1..])
    requires |slash| == 1 && slash[0] == '\\' && !ValidLine(slash)
    ensures !Judge(false, CarriedItems(false, [comment, slash, last]))
  {
    hide CarriedItems, ValidLine, After, Strip;
    var ls := [comment, slash, last];
    assert ls[1..] == [slash, last];
    CommentItems(false, false, comment, ls);
    CarriedSlash(slash, last);
    JudgeItem(false, slash, [last]);
  }

  lemma CarriedSlash(slash: string, last: string)
    requires |slash| == 1 && slash[0] == '\\'
    ensures CarriedItems(true, [slash, last]) == [Property(slash)] + CarriedItems(false, [last])
  {
    NoSpace(slash);
    assert slash[..0] == [];
    assert !After(true, slash);
    var ls := [slash, last];
    hide After, Strip, Join;
    assert ls[1..] == [last];
  }

  /** The same comment, a line with two backslashes, and a property: the line of backslashes is no
      valid property, but the validator accepts. */
  lemma AcceptsIllFormed(s: string)
    requires s == Three("#\\", "\\\\", "n=v")
    ensures !WellFormed(s) && Verdict(START, s)
  {
    hide Natural, Items, CarriedItems, Judge, Verdict, ValidLine, Three, IsTerminator;
    var slashes := "\\\\";
    NoTerminators();
    ThreeLines("#\\", slashes, "n=v");
    ScanJudgesItems(s);
    IllFormedItems();
    AcceptedReading();
    BackslashesAreNoProperty(slashes);
    BadSecond(s, slashes);
  }

  lemma NoTerminators()
    ensures forall i :: 0 <= i < 2 ==> !IsTerminator("#\\"[i]) && !IsTerminator("\\\\"[i])
    ensures forall i :: 0 <= i < 3 ==> !IsTerminator("n=v"[i])
  {
  }

  lemma BadSecond(s: string, line: string)
    requires var items := Items(Natural(s)); |items| > 1 && items[1] == Property(line)
    requires !ValidLine(line)
    ensures !WellFormed(s)
  {
    hide Natural, Items, ValidLine;
    var items := Items(Natural(s));
    assert items[1].Property?;
  }

  lemma IllFormedItems()
    ensures var items := Items(["#\\", "\\\\", "n=v"]); |items| > 1 && items[1] == Property("\\\\")
  {
    var comment, slashes, last := "#\\", "\\\\", "n=v";
    EscapedStep(slashes, 0);
    EscapedStep(slashes, 1);
    assert !Open(slashes);
    assert [comment, slashes, last] == ["#\\", "\\\\", "n=v"];
    hide Items, Open;
    ClosedReading(comment, slashes, last);
  }

  lemma ClosedReading(comment: string, slashes: string, last: string)
    requires IsComment(comment) && slashes != [] && slashes[0] == '\\' && !Open(slashes)
    ensures var items := Items([comment, slashes, last]); |items| > 1 && items[1] == Property(slashes)
  {
    hide Items, Open, Join;
    var more := [last];
    JoinStep([], slashes, more);
    assert [] + slashes == slashes;
    ItemsOfJoined(slashes, more, slashes, more);
    ItemsAfterComment(comment, [slashes] + more);
    assert [comment] + ([slashes] + more) == [comment, slashes, last];
  }

  lemma AcceptedReading()
    ensures Judge(false, CarriedItems(false, ["#\\", "\\\\", "n=v"]))
  {
    var comment, slashes, last, line := "#\\", "\\\\", "n=v", "\\n=v";
    NoSpace(comment);
    ParityOfOne(comment[1..]);
    ParityOfTwo(slashes);
    EscapedStep(last, 2);
    assert !Open(last) && slashes[..1] + last == line;
    SimpleProperty(line);
    CommentThenSlashes(comment, slashes, last, line);
    assert [comment, slashes, last] == ["#\\", "\\\\", "n=v"];
  }

  lemma ParityOfOne(l: string)
    requires |l| == 1 && l[0] == '\\'
    ensures After(false, l)
  {
    assert l[..0] == [];
  }

  lemma ParityOfTwo(l: string)
    requires |l| == 2 && l[0] == '\\' && l[1] == '\\'
    ensures After(true, l)
  {
    var m := l[..1];
    assert m[..0] == [];
    assert !After(true, m);
  }

  lemma CommentThenSlashes(comment: string, slashes: string, last: string, line: string)
    requires IsComment(comment) && Strip(comment) == comment && After(false, comment[1..])
    requires slashes != [] && slashes[0] == '\\' && After(true, slashes)
    requires last != [] && !IsSpace(last[0]) && !Open(last) && line == slashes[..|slashes| - 1] + last
             && ValidLine(line)
    ensures Judge(false, CarriedItems(false, [comment, slashes, last]))
  {
    hide CarriedItems, Judge, ValidLine, After, Strip;
    var ls := [comment, slashes, last];
    assert ls[1..] == [slashes, last];
    CommentItems(false, false, comment, ls);
    CarriedLine(slashes, last, line);
    JudgeItem(false, line, []);
    NoCarriedItems(true, false);
  }

  lemma CarriedLine(slashes: string, last: string, line: string)
    requires slashes != [] && slashes[0] == '\\' && After(true, slashes)
    requires last != [] && !IsSpace(last[0]) && !Open(last) && line == slashes[..|slashes| - 1] + last
    ensures CarriedItems(true, [slashes, last]) == [Property(line)] + CarriedItems(false, [])
  {
    hide After, Open, CarriedItems, Strip, Join;
    NoSpace(slashes);
    NoSpace(last);
    var ls, more := [slashes, last], [last];
    assert ls[1..] == more && more[1..] == [];
    JoinStep(slashes[..|slashes| - 1], last, []);
    CarriedJoined(true, ls, slashes, more, line, []);
  }

  lemma CarriedJoined(carry: bool, ls: seq<string>, l: string, more: seq<string>, line: string, rest: seq<string>)
    requires ls != [] && Strip(ls[0]) == l && l != [] && !IsComment(l) && After(carry, l) && ls[1..] == more
             && more != []
    requires Join(l[..|l| - 1], Strip(more[0]), more[1..]) == (line, rest) && line != []
    ensures CarriedItems(carry, ls) == [Property(line)] + CarriedItems(false, rest)
  {
    hide After, Strip, Join, IsComment;
  }
}
