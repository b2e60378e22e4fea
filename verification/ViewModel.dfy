/** The part of the document that is drawn: one view entry for each line, as long as no lines are
    collapsed. Lines are known by their identity. */
module ViewModel {

  type LineId = nat

  /** A view entry: its line, and the number of lines it stands for. */
  datatype LineView = LineView(line: LineId, size: nat)

  /** One entry for each line. */
  function Views(lines: seq<LineId>): (r: seq<LineView>)
    ensures |r| == |lines| && forall i :: 0 <= i < |lines| ==> r[i] == LineView(lines[i], 1)
  {
    seq(|lines|, i requires 0 <= i < |lines| => LineView(lines[i], 1))
  }

  lemma ViewsConcat(a: seq<LineId>, b: seq<LineId>)
    ensures Views(a + b) == Views(a) + Views(b)
  {
  }

  lemma ViewsSlice(s: seq<LineId>, i: int, j: int)
    requires 0 <= i <= j <= |s|
    ensures Views(s[i..j]) == Views(s)[i..j]
  {
  }

  /** How a change replaces lines `from` up to `to` by other lines. */
  ghost predicate Replaces(before: seq<LineId>, doc: seq<LineId>, from: int, to: int, lendiff: int) {
    && 0 <= from <= to <= |before| && |doc| == |before| + lendiff && 0 <= to + lendiff && from <= to + lendiff
    && doc[..from] == before[..from] && doc[to + lendiff..] == before[to..]
  }

  /** Lines before the change are where they were. */
  lemma SameHead(before: seq<LineId>, doc: seq<LineId>, from: int, to: int, lendiff: int, i: int, j: int)
    requires Replaces(before, doc, from, to, lendiff) && 0 <= i <= j <= from
    ensures doc[i..j] == before[i..j]
  {
    SlicesNest(doc, 0, from, i, j);
    SlicesNest(before, 0, from, i, j);
    assert doc[0..from] == doc[..from] && before[0..from] == before[..from];
  }

  /** Lines behind the change have moved. */
  lemma SameTail(before: seq<LineId>, doc: seq<LineId>, from: int, to: int, lendiff: int, i: int, j: int)
    requires Replaces(before, doc, from, to, lendiff) && to <= i <= j <= |before|
    ensures doc[i + lendiff..j + lendiff] == before[i..j]
  {
    assert doc[to + lendiff..|doc|] == before[to..|before|];
    SlicesNest(doc, to + lendiff, |doc|, i + lendiff, j + lendiff);
    SlicesNest(before, to, |before|, i, j);
  }

  lemma SlicesNest(s: seq<LineId>, a: int, b: int, i: int, j: int)
    requires 0 <= a <= i <= j <= b <= |s|
    ensures s[a..b][i - a..j - a] == s[i..j]
  {
    var t := s[a..b];
    var x, y := t[i - a..j - a], s[i..j];
    forall k | 0 <= k < j - i
      ensures x[k] == y[k]
    {
      assert x[k] == t[i - a + k] == s[i + k];
    }
  }

  lemma SliceOfSlice(s: seq<LineId>, a: int, b: int, i: int, j: int)
    requires 0 <= a <= i <= j <= b <= |s|
    ensures Views(s[i..j]) == Views(s[a..b])[i - a..j - a]
    ensures j == b ==> Views(s[i..j]) == Views(s[a..b])[i - a..]
    ensures i == a ==> Views(s[i..j]) == Views(s[a..b])[..j - a]
  {
    ViewsSlice(s[a..b], i - a, j - a);
    SlicesNest(s, a, b, i, j);
  }

  lemma ThreeSlices(s: seq<LineId>, a: int, b: int, c: int, d: int)
    requires 0 <= a <= b <= c <= d <= |s|
    ensures Views(s[a..d]) == Views(s[a..b]) + Views(s[b..c]) + Views(s[c..d])
  {
    ViewsConcat(s[a..b], s[b..c]);
    assert s[a..b] + s[b..c] == s[a..c] && s[a..c] + s[c..d] == s[a..d];
    ViewsConcat(s[a..c], s[c..d]);
  }

  /** Around a change, the old entries are those of the new document. */
  lemma KeptEnds(before: seq<LineId>, doc: seq<LineId>, from: int, to: int, lendiff: int, a: int, b: int)
    requires Replaces(before, doc, from, to, lendiff) && 0 <= a < from <= to < b <= |before|
    ensures Views(before[a..b])[..from - a] == Views(doc[a..from])
    ensures Views(before[a..b])[to - a..] == Views(doc[to + lendiff..b + lendiff])
  {
    SameHead(before, doc, from, to, lendiff, a, from);
    SameTail(before, doc, from, to, lendiff, to, b);
    SliceOfSlice(before, a, b, a, from);
    SliceOfSlice(before, a, b, to, b);
  }

  /** Exchanging the entries of the changed lines gives the entries of the new document. */
  lemma MiddleExchanged(before: seq<LineId>, doc: seq<LineId>, from: int, to: int, lendiff: int, a: int, b: int)
    requires Replaces(before, doc, from, to, lendiff) && 0 <= a < from <= to < b <= |before|
    ensures 0 <= from <= to + lendiff <= b + lendiff <= |doc|
    ensures var view := Views(before[a..b]);
            && |view| == b - a && (forall i :: 0 <= i < |view| ==> view[i].size == 1)
            && Views(doc[a..b + lendiff]) == view[..from - a] + Views(doc[from..to + lendiff]) + view[to - a..]
  {
    KeptEnds(before, doc, from, to, lendiff, a, b);
    ThreeSlices(doc, a, from, to + lendiff, b + lendiff);
  }

  /** Of the lines that were shown, the ones outside the changed lines are still shown, where they are
      now; and nothing else is, except new lines between them. */
  ghost predicate ShowsTheRest(viewFrom: int, viewTo: int, viewFrom': int, viewTo': int, from: int, to: int,
                               lendiff: int) {
    && (forall n :: InView(viewFrom, viewTo, n) && n < from ==> InView(viewFrom', viewTo', n))
    && (forall n :: InView(viewFrom, viewTo, n) && n >= to ==> InView(viewFrom', viewTo', n + lendiff))
    && (forall n :: InView(viewFrom', viewTo', n) && n < from ==> InView(viewFrom, viewTo, n))
    && (forall n :: InView(viewFrom', viewTo', n) && n >= to + lendiff && n >= from ==>
          InView(viewFrom, viewTo, n - lendiff))
    && (forall n :: InView(viewFrom', viewTo', n) && from <= n < to + lendiff ==> viewFrom < from && to < viewTo)
  }

  predicate InView(viewFrom: int, viewTo: int, n: int) {
    viewFrom <= n < viewTo
  }

  class Display {
    var view: seq<LineView>
    var viewFrom: int
    var viewTo: int

    /** The view shows the lines from `viewFrom` up to `viewTo`, one entry each. */
    ghost predicate Tiles(doc: seq<LineId>)
      reads this
    {
      0 <= viewFrom <= viewTo <= |doc| && view == Views(doc[viewFrom..viewTo])
    }

    constructor ()
      ensures viewFrom == viewTo == 0 && view == []
    {
      viewFrom, viewTo, view := 0, 0, [];
    }

    method ResetView()
      modifies this
      ensures viewFrom == viewTo == 0 && view == []
    {
      viewFrom, viewTo := 0, 0;
      view := [];
    }

    method BuildViewArray(doc: seq<LineId>, from: int, to: int) returns (r: seq<LineView>)
      requires 0 <= from <= to <= |doc|
      ensures r == Views(doc[from..to])
    {
      r := [];
      var pos := from;
      while pos < to
        invariant from <= pos <= to && r == Views(doc[from..pos])
      {
        assert doc[from..pos + 1] == doc[from..pos] + [doc[pos]];
        ViewsConcat(doc[from..pos], [doc[pos]]);
        var v := LineView(doc[pos], 1);
        r := r + [v];
        pos := pos + v.size;
      }
    }

    /** The index of the entry for line `n`, if it is in the view. */
    method FindViewIndex(n: int) returns (index: int)
      requires (forall i :: 0 <= i < |view| ==> view[i].size == 1) && |view| >= viewTo - viewFrom
      ensures index == if viewFrom <= n < viewTo then n - viewFrom else -1
    {
      if n >= viewTo {
        return -1;
      }
      var left := n - viewFrom;
      if left < 0 {
        return -1;
      }
      for i := 0 to |view|
        invariant left == n - viewFrom - i && left >= 0
      {
        left := left - view[i].size;
        if left < 0 {
          return i;
        }
      }
      assert false;
      return -1;
    }

    /** Updates the view for a change of lines `from` up to `to`, in the numbering before the change,
        that added `lendiff` lines. The document has changed already. */
    method RegChange(ghost before: seq<LineId>, doc: seq<LineId>, from: int, to: int, lendiff: int)
      requires Tiles(before) && Replaces(before, doc, from, to, lendiff)
      modifies this
      ensures Tiles(doc) && ShowsTheRest(old(viewFrom), old(viewTo), viewFrom, viewTo, from, to, lendiff)
    {
      ghost var vf, vt := viewFrom, viewTo;
      if from >= viewTo {
        SameHead(before, doc, from, to, lendiff, vf, vt);
      } else if to <= viewFrom {
        SameTail(before, doc, from, to, lendiff, vf, vt);
        viewFrom := viewFrom + lendiff;
        viewTo := viewTo + lendiff;
      } else if from <= viewFrom && to >= viewTo {
        ResetView();
      } else if from <= viewFrom {
        CutTop(before, doc, from, to, lendiff);
      } else if to >= viewTo {
        CutBottom(before, doc, from, to, lendiff);
      } else {
        CutMiddle(before, doc, from, to, lendiff);
      }
    }

    method CutTop(ghost before: seq<LineId>, doc: seq<LineId>, from: int, to: int, lendiff: int)
      requires Tiles(before) && Replaces(before, doc, from, to, lendiff) && from <= viewFrom < to < viewTo
      modifies this
      ensures Tiles(doc) && viewFrom == to + lendiff && viewTo == old(viewTo) + lendiff
    {
      SameTail(before, doc, from, to, lendiff, to, viewTo);
      SliceOfSlice(before, viewFrom, viewTo, to, viewTo);
      var cut := FindViewIndex(to);
      view := view[cut..];
      viewFrom := to + lendiff;
      viewTo := viewTo + lendiff;
    }

    method CutBottom(ghost before: seq<LineId>, doc: seq<LineId>, from: int, to: int, lendiff: int)
      requires Tiles(before) && Replaces(before, doc, from, to, lendiff) && viewFrom < from < viewTo <= to
      modifies this`view, this`viewTo
      ensures Tiles(doc) && viewTo == from
    {
      SameHead(before, doc, from, to, lendiff, viewFrom, from);
      SliceOfSlice(before, viewFrom, viewTo, viewFrom, from);
      var cut := FindViewIndex(from);
      view := view[..cut];
      viewTo := from;
    }

    method CutMiddle(ghost before: seq<LineId>, doc: seq<LineId>, from: int, to: int, lendiff: int)
      requires Tiles(before) && Replaces(before, doc, from, to, lendiff) && viewFrom < from <= to < viewTo
      modifies this`view, this`viewTo
      ensures Tiles(doc) && viewTo == old(viewTo) + lendiff
    {
      hide Replaces, Views;
      MiddleExchanged(before, doc, from, to, lendiff, viewFrom, viewTo);
      var cutTop := FindViewIndex(from);
      var cutBot := FindViewIndex(to);
      var middle := BuildViewArray(doc, from, to + lendiff);
      view := view[..cutTop] + middle + view[cutBot..];
      viewTo := viewTo + lendiff;
    }

    /** A change within a line is noted in the line's view entry, if it has one. */
    method RegLineChange(doc: seq<LineId>, line: int) returns (index: int)
      requires Tiles(doc) && 0 <= line < |doc|
      ensures index == -1 <==> !(viewFrom <= line < viewTo)
      ensures index != -1 ==> 0 <= index < |view| && view[index].line == doc[line]
    {
      if line < viewFrom || line >= viewTo {
        return -1;
      }
      index := FindViewIndex(line);
    }

    /** Forces the view to cover lines `from` up to `to`. */
    method AdjustView(doc: seq<LineId>, from: int, to: int)
      requires 0 <= from <= to <= |doc|
      requires Tiles(doc) || view == [] || viewFrom >= |doc|
      modifies this
      ensures Tiles(doc) && viewFrom == from && viewTo == to
    {
      if |view| == 0 || from >= viewTo || to <= viewFrom {
        view := BuildViewArray(doc, from, to);
        viewFrom := from;
      } else {
        MoveTop(doc, from);
        MoveBottom(doc, to);
      }
      viewTo := to;
    }

    method MoveTop(doc: seq<LineId>, from: int)
      requires Tiles(doc) && 0 <= from < viewTo
      modifies this`view, this`viewFrom
      ensures Tiles(doc) && viewFrom == from
    {
      ghost var vf, vt := viewFrom, viewTo;
      if viewFrom > from {
        var more := BuildViewArray(doc, from, viewFrom);
        ViewsConcat(doc[from..vf], doc[vf..vt]);
        assert doc[from..vf] + doc[vf..vt] == doc[from..vt];
        view := more + view;
      } else if viewFrom < from {
        var cut := FindViewIndex(from);
        ViewsSlice(doc[vf..vt], from - vf, vt - vf);
        assert doc[vf..vt][from - vf..vt - vf] == doc[from..vt];
        view := view[cut..];
      }
      viewFrom := from;
    }

    method MoveBottom(doc: seq<LineId>, to: int)
      requires Tiles(doc) && viewFrom <= to <= |doc|
      modifies this`view, this`viewTo
      ensures Tiles(doc) && viewTo == to
    {
      ghost var vf, vt := viewFrom, viewTo;
      if viewTo < to {
        var more := BuildViewArray(doc, viewTo, to);
        ViewsConcat(doc[vf..vt], doc[vt..to]);
        assert doc[vf..vt] + doc[vt..to] == doc[vf..to];
        view := view + more;
      } else if viewTo > to {
        var cut := FindViewIndex(to);
        ViewsSlice(doc[vf..vt], 0, to - vf);
        assert doc[vf..vt][0..to - vf] == doc[vf..to];
        view := view[..cut];
      }
      viewTo := to;
    }

    /** A change of the whole document is registered without a range. The range is then taken from
        the new document, so a view that reaches beyond its end is not reset; the view tiles the new
        document only if it does not. The next `AdjustView` builds it anew in either case. */
    method RegFullChange(ghost before: seq<LineId>, doc: seq<LineId>)
      requires Tiles(before)
      modifies this
      ensures Tiles(doc) <==> old(viewTo) <= |doc|
      ensures Tiles(doc) || viewFrom >= |doc|
    {
      var from, to := 0, |doc|;
      if from >= viewTo {
        assert doc[0..0] == before[0..0];
      } else if to <= viewFrom {
        // nothing moves: the length difference is not passed
      } else if from <= viewFrom && to >= viewTo {
        ResetView();
      } else {
        var cut := FindViewIndex(to);
        view := view[cut..];
        viewFrom := to;
      }
    }
  }

  /** Three lines, of which the last two are shown, become one: the view is left with an entry for a
      line of the old document. */
  method ViewBeyondTheEnd() returns (display: Display)
    ensures !display.Tiles([20]) && display.viewFrom >= 1
  {
    var before, doc := [10, 11, 12], [20];
    display := new Display();
    display.AdjustView(before, 1, 3);
    display.RegFullChange(before, doc);
  }
}
