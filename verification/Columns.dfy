/** Columns of a line with tabs. */
module Columns {

  const TAB: char := '\t'

  /** The next tab stop behind column `n`. */
  function NextStop(n: nat, tabSize: nat): nat
    requires tabSize > 0
  {
    n + tabSize - n % tabSize
  }

  /** The column behind a stretch of text that starts at offset `i` and column `n` and ends at `end`;
      behind the end of the string every offset counts as one column. */
  function ColumnFrom(s: string, i: nat, n: nat, end: nat, tabSize: nat): nat
    requires tabSize > 0 && i <= end
    decreases end - i
  {
    if i == end then n
    else ColumnFrom(s, i + 1, if i < |s| && s[i] == TAB then NextStop(n, tabSize) else n + 1, end, tabSize)
  }

  function Column(s: string, end: nat, tabSize: nat): nat
    requires tabSize > 0
  {
    ColumnFrom(s, 0, 0, end, tabSize)
  }

  /** Counting may be interrupted anywhere and resumed from the column reached there. */
  lemma {:induction false} ColumnResumes(s: string, i: nat, n: nat, mid: nat, end: nat, tabSize: nat)
    requires tabSize > 0 && i <= mid <= end
    ensures ColumnFrom(s, i, n, end, tabSize) == ColumnFrom(s, mid, ColumnFrom(s, i, n, mid, tabSize), end, tabSize)
    decreases mid - i
  {
    if i < mid {
      ColumnResumes(s, i + 1, if i < |s| && s[i] == TAB then NextStop(n, tabSize) else n + 1, mid, end, tabSize);
    }
  }

  lemma ColumnStep(s: string, i: nat, tabSize: nat)
    requires tabSize > 0
    ensures var n := Column(s, i, tabSize);
            Column(s, i + 1, tabSize) == if i < |s| && s[i] == TAB then NextStop(n, tabSize) else n + 1
  {
    ColumnResumes(s, 0, 0, i, i + 1, tabSize);
  }

  /** A tab leads to the least tab stop behind it, and tab stops are the multiples of the tab size. */
  lemma NextStopIsNext(n: nat, tabSize: nat, m: nat)
    requires tabSize > 0
    ensures n < NextStop(n, tabSize) <= n + tabSize && NextStop(n, tabSize) % tabSize == 0
    ensures n < m && m % tabSize == 0 ==> NextStop(n, tabSize) <= m
  {
    var r := n % tabSize;
    MultipleOf(n / tabSize + 1, tabSize);
    assert NextStop(n, tabSize) == (n / tabSize + 1) * tabSize;
    if n < m && m % tabSize == 0 {
      var q := m / tabSize;
      assert m == q * tabSize;
      TimesApart(q, n / tabSize + 1, tabSize);
      TimesApart(n / tabSize + 1, q, tabSize);
    }
  }

  lemma MultipleOf(k: nat, t: nat)
    requires t > 0
    ensures k * t % t == 0
  {
    var a := k * t;
    var q, r := a / t, a % t;
    assert a == q * t + r;
    TimesApart(q, k, t);
    TimesApart(k, q, t);
  }

  lemma {:induction false} TimesApart(j: nat, k: nat, t: nat)
    ensures j < k ==> j * t + t <= k * t
    decreases k
  {
    if j < k {
      TimesApart(j, k - 1, t);
      assert k * t == (k - 1) * t + t;
    }
  }

  /** The column behind a tab is the least multiple of the tab size behind the tab's own column; any
      other character takes one column. */
  lemma ColumnBehind(s: string, i: nat, tabSize: nat, m: nat)
    requires tabSize > 0
    ensures var n, next := Column(s, i, tabSize), Column(s, i + 1, tabSize);
            if i < |s| && s[i] == TAB
            then n < next <= n + tabSize && next % tabSize == 0 && (n < m && m % tabSize == 0 ==> next <= m)
            else next == n + 1
  {
    ColumnStep(s, i, tabSize);
    NextStopIsNext(Column(s, i, tabSize), tabSize, m);
  }

  /** Columns grow strictly. */
  lemma {:induction false} ColumnGrows(s: string, i: nat, j: nat, tabSize: nat)
    requires tabSize > 0 && i <= j
    ensures Column(s, i, tabSize) + (j - i) <= Column(s, j, tabSize)
    decreases j - i
  {
    if i < j {
      ColumnGrows(s, i, j - 1, tabSize);
      ColumnStep(s, j - 1, tabSize);
    }
  }

  /** Text without tabs. */
  lemma {:induction false} PlainStretch(s: string, i: nat, n: nat, j: nat, tabSize: nat)
    requires tabSize > 0 && i <= j && forall k :: i <= k < j && k < |s| ==> s[k] != TAB
    ensures ColumnFrom(s, i, n, j, tabSize) == n + (j - i)
    decreases j - i
  {
    if i < j {
      PlainStretch(s, i + 1, n + 1, j, tabSize);
    }
  }

  /** The first tab at or behind `from`, or -1. */
  method NextTab(s: string, from: nat) returns (t: int)
    ensures t == -1 || (from <= t < |s| && s[t] == TAB)
    ensures forall k :: from <= k < |s| && (t == -1 || k < t) ==> s[k] != TAB
  {
    t := from;
    while t < |s|
      invariant from <= t && forall k :: from <= k < t && k < |s| ==> s[k] != TAB
    {
      if s[t] == TAB {
        return;
      }
      t := t + 1;
    }
    t := -1;
  }

  /** What the source language's regular expressions take for a space. */
  predicate IsSpace(c: char) {
    || c == ' ' || '\t' <= c <= '\r' || c == '\U{A0}' || c == '\U{1680}' || '\U{2000}' <= c <= '\U{200A}'
    || c == '\U{2028}' || c == '\U{2029}' || c == '\U{202F}' || c == '\U{205F}' || c == '\U{3000}' || c == '\U{FEFF}'
  }

  /** The length of the indentation. */
  function Indentation(s: string): (n: nat)
    ensures n <= |s| && (forall i :: 0 <= i < n ==> IsSpace(s[i])) && (n < |s| ==> !IsSpace(s[n]))
  {
    if s == [] || !IsSpace(s[0]) then 0 else 1 + Indentation(s[1..])
  }

  /** Where to stop counting: at an offset, or behind the indentation when none is given. */
  datatype End = At(offset: nat) | NotGiven

  function EndOffset(s: string, end: End): nat {
    match end
    case At(offset) => offset
    case NotGiven => Indentation(s)
  }

  /** Jumps from tab to tab. */
  method CountColumn(s: string, end0: End, tabSize: nat, startIndex: nat, startValue: nat) returns (n: int)
    requires tabSize > 0
    ensures var end := EndOffset(s, end0);
            n == if startIndex <= end then ColumnFrom(s, startIndex, startValue, end, tabSize)
                 else startValue - (startIndex - end)
  {
    var end := EndOffset(s, end0);
    var i := startIndex;
    n := startValue;
    while true
      invariant n >= 0 && (if startIndex <= end then i <= end else i == startIndex && n == startValue)
      invariant i <= end ==>
                  ColumnFrom(s, i, n, end, tabSize) == ColumnFrom(s, startIndex, startValue, end, tabSize)
      decreases end - i
    {
      var nextTab := NextTab(s, i);
      if nextTab < 0 || nextTab >= end {
        if i <= end {
          PlainStretch(s, i, n, end, tabSize);
        }
        n := n + (end - i);
        return;
      }
      PlainStretch(s, i, n, nextTab, tabSize);
      ColumnResumes(s, i, n, nextTab, end, tabSize);
      n := n + nextTab - i;
      n := NextStop(n, tabSize);
      i := nextTab + 1;
    }
  }

  /** The first offset whose column is at least the goal, or the end of the string. */
  predicate ReachesGoal(s: string, r: nat, goal: int, tabSize: nat)
    requires tabSize > 0
  {
    r <= |s| && (forall i :: 0 <= i < r ==> Column(s, i, tabSize) < goal) && (r < |s| ==> Column(s, r, tabSize) >= goal)
  }

  method FindColumn(s: string, goal: int, tabSize: nat) returns (r: int)
    requires tabSize > 0
    ensures goal < 0 ==> r == goal
    ensures goal >= 0 ==> r >= 0 && ReachesGoal(s, r, goal, tabSize)
  {
    var pos, col: nat := 0, 0;
    assert Column(s, 0, tabSize) == 0;
    hide ColumnFrom, Column;
    while true
      invariant pos <= |s| && col == Column(s, pos, tabSize) && (pos > 0 ==> col < goal)
      decreases |s| - pos
    {
      var nextTab := NextTab(s, pos);
      if nextTab == -1 {
        nextTab := |s|;
      }
      var skipped := nextTab - pos;
      if nextTab == |s| || col + skipped >= goal {
        r := pos + if skipped < goal - col then skipped else goal - col;
        GoalBeforeTab(s, pos, col, nextTab, goal, tabSize);
        return;
      }
      GoalBehindTab(s, pos, col, nextTab, goal, tabSize);
      col := col + (nextTab - pos);
      col := NextStop(col, tabSize);
      pos := nextTab + 1;
      if col >= goal {
        return pos;
      }
    }
  }

  lemma PlainColumn(s: string, pos: nat, k: nat, tabSize: nat)
    requires tabSize > 0 && pos <= k && forall i :: pos <= i < k && i < |s| ==> s[i] != TAB
    ensures Column(s, k, tabSize) == Column(s, pos, tabSize) + (k - pos)
  {
    ColumnResumes(s, 0, 0, pos, k, tabSize);
    PlainStretch(s, pos, Column(s, pos, tabSize), k, tabSize);
  }

  /** The goal lies before the next tab, or the string ends there. */
  lemma GoalBeforeTab(s: string, pos: nat, col: nat, nextTab: nat, goal: int, tabSize: nat)
    requires tabSize > 0 && pos <= nextTab <= |s| && col == Column(s, pos, tabSize) && (pos > 0 ==> col < goal)
    requires forall i :: pos <= i < nextTab ==> s[i] != TAB
    requires nextTab == |s| || col + (nextTab - pos) >= goal
    ensures var r := pos + if nextTab - pos < goal - col then nextTab - pos else goal - col;
            (goal < 0 ==> r == goal) && (goal >= 0 ==> r >= 0 && ReachesGoal(s, r, goal, tabSize))
  {
    var r := pos + if nextTab - pos < goal - col then nextTab - pos else goal - col;
    assert pos == 0 ==> col == 0;
    hide ColumnFrom, Column;
    if goal >= 0 {
      PlainColumn(s, pos, r, tabSize);
      if r > pos {
        PlainColumn(s, pos, r - 1, tabSize);
      } else if r > 0 {
        ColumnGrows(s, r - 1, r, tabSize);
      }
      BelowGoal(s, r, goal, tabSize);
    }
  }

  lemma GoalBehindTab(s: string, pos: nat, col: nat, nextTab: nat, goal: int, tabSize: nat)
    requires tabSize > 0 && pos <= nextTab < |s| && col == Column(s, pos, tabSize) && s[nextTab] == TAB
    requires forall i :: pos <= i < nextTab ==> s[i] != TAB
    requires col + (nextTab - pos) < goal
    ensures Column(s, nextTab + 1, tabSize) == NextStop(col + (nextTab - pos), tabSize)
    ensures forall i :: 0 <= i < nextTab + 1 ==> Column(s, i, tabSize) < goal
  {
    hide ColumnFrom, Column, NextStop;
    PlainColumn(s, pos, nextTab, tabSize);
    ColumnStep(s, nextTab, tabSize);
    BelowGoal(s, nextTab + 1, goal, tabSize);
  }

  /** When the last offset before `r` is below the goal, all of them are. */
  lemma BelowGoal(s: string, r: nat, goal: int, tabSize: nat)
    requires tabSize > 0 && (r > 0 ==> Column(s, r - 1, tabSize) < goal)
    ensures forall i :: 0 <= i < r ==> Column(s, i, tabSize) < goal
  {
    forall i: nat | i < r
      ensures Column(s, i, tabSize) < goal
    {
      ColumnGrows(s, i, r - 1, tabSize);
    }
  }

  /** The offset found for the column of an offset is that offset. */
  lemma FoundColumnIsItsOwn(s: string, i: nat, r: nat, tabSize: nat)
    requires tabSize > 0 && i <= |s| && ReachesGoal(s, r, Column(s, i, tabSize), tabSize)
    ensures r == i
  {
    if r < i {
      ColumnGrows(s, r, i, tabSize);
    }
  }

  /** Counting and finding are inverse on the offsets of a string. */
  method ColumnRoundTrip(s: string, i: nat, tabSize: nat) returns (r: int)
    requires tabSize > 0 && i <= |s|
    ensures r == i
  {
    var n := CountColumn(s, At(i), tabSize, 0, 0);
    r := FindColumn(s, n, tabSize);
    FoundColumnIsItsOwn(s, i, r, tabSize);
  }

  /** A stream over a line, which remembers the last column it has counted. */
  class StringStream {
    const text: string
    const tabSize: nat
    var start: nat
    var lineStart: nat
    var lastColumnPos: nat
    var lastColumnValue: nat

    ghost predicate Valid()
      reads this
    {
      tabSize > 0 && lastColumnValue == Column(text, lastColumnPos, tabSize)
    }

    constructor (text: string, tabSize: nat)
      requires tabSize > 0
      ensures Valid() && this.text == text && this.tabSize == tabSize && start == 0 && lineStart == 0
              && lastColumnPos == 0
    {
      this.text, this.tabSize := text, tabSize;
      start, lineStart, lastColumnPos, lastColumnValue := 0, 0, 0, 0;
    }

    /** The column of the current token. The cached value gives what counting from the start of the
        line gives, unless the token starts before the last one counted. */
    method CurrentColumn() returns (n: int)
      requires Valid()
      modifies this`lastColumnPos, this`lastColumnValue
      ensures Valid() && lastColumnPos == (if old(lastColumnPos) < start then start else old(lastColumnPos))
      ensures n == Column(text, lastColumnPos, tabSize) - Column(text, lineStart, tabSize)
      ensures n == Column(text, start, tabSize) - Column(text, lineStart, tabSize) <==> old(lastColumnPos) <= start
    {
      if lastColumnPos < start {
        ColumnResumes(text, 0, 0, lastColumnPos, start, tabSize);
        lastColumnValue := CountColumn(text, At(start), tabSize, lastColumnPos, lastColumnValue);
        lastColumnPos := start;
      } else {
        ColumnGrows(text, start, lastColumnPos, tabSize);
      }
      n := lastColumnValue;
      if lineStart != 0 {
        var indent := CountColumn(text, At(lineStart), tabSize, 0, 0);
        n := n - indent;
      }
    }
  }

  /** A stream that is asked for a token and then for one before it: the second answer, 1, is the
      column of the first token. */
  method StaleColumn() returns (n: int)
    ensures n == 1 && Column("ab", 0, 4) == 0
  {
    var stream := new StringStream("ab", 4);
    stream.start := 1;
    n := stream.CurrentColumn();
    stream.start := 0;
    n := stream.CurrentColumn();
    ColumnStep("ab", 0, 4);
  }
}
