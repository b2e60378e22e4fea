/** A .properties text as lines: natural lines, comments, and logical lines joined from continued
    natural lines. */
module PropertyLines {
  import opened PropertyFormat

  predicate IsTerminator(c: char) {
    c == '\n' || c == '\r'
  }

  // ----- first phase: natural lines -----

  /** Where the first natural line ends. */
  function LineEnd(s: string): (e: nat)
    ensures e <= |s| && (forall i :: 0 <= i < e ==> !IsTerminator(s[i])) && (e < |s| ==> IsTerminator(s[e]))
  {
    if s == [] || IsTerminator(s[0]) then 0 else 1 + LineEnd(s[1..])
  }

  /** A line ends in a line feed, a carriage return, or both. */
  function TerminatorLength(s: string): (n: nat)
    ensures n <= |s| && (s != [] ==> n > 0)
  {
    if |s| > 1 && s[0] == '\r' && s[1] == '\n' then 2 else if s == [] then 0 else 1
  }

  /** What follows the first natural line and its terminator. */
  function AfterLine(s: string): (t: string)
    requires LineEnd(s) < |s|
    ensures |t| < |s|
  {
    var t := s[LineEnd(s)..];
    t[TerminatorLength(t)..]
  }

  function Natural(s: string): (ls: seq<string>)
    ensures |ls| > 0
    decreases |s|
  {
    if LineEnd(s) == |s| then [s] else [s[..LineEnd(s)]] + Natural(AfterLine(s))
  }

  // ----- second phase: logical lines -----

  predicate IsComment(l: string) {
    l != [] && (l[0] == '#' || l[0] == '!')
  }

  /** A natural line is continued when it ends in an odd number of backslashes. */
  predicate Open(l: string) {
    Escaped(l, |l|)
  }

  datatype Item = Comment(text: string) | Property(text: string)

  /** Joins a natural line, stripped to `l`, with the lines that continue it. */
  function Join(acc: string, l: string, rest: seq<string>): (r: (string, seq<string>))
    ensures |r.1| <= |rest|
    decreases |rest|
  {
    if Open(l) && rest != [] then Join(acc + l[..|l| - 1], Strip(rest[0]), rest[1..]) else (acc + l, rest)
  }

  /** The comments and the logical lines; blank lines are dropped. */
  function Items(ls: seq<string>): seq<Item>
    decreases |ls|
  {
    if ls == [] then []
    else
      var l := Strip(ls[0]);
      if l == [] then Items(ls[1..])
      else if IsComment(l) then [Comment(l)] + Items(ls[1..])
      else
        var (line, rest) := Join([], l, ls[1..]);
        (if line == [] then [] else [Property(line)]) + Items(rest)
  }

  /** At least one logical line, and all of them valid. */
  ghost predicate WellFormed(s: string) {
    var items := Items(Natural(s));
    && (exists i :: 0 <= i < |items| && items[i].Property?)
    && (forall i :: 0 <= i < |items| && items[i].Property? ==> ValidLine(items[i].text))
  }

  /** No comment ends in an unescaped backslash. */
  ghost predicate CommentsClosed(s: string) {
    var items := Items(Natural(s));
    forall i :: 0 <= i < |items| && items[i].Comment? ==> !Open(items[i].text)
  }
}
