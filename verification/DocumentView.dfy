/** A change in an editor: the document changes, its markers follow, and the view is told. */
module DocumentView {
  import opened Text
  import opened Changes
  import opened SelectionModel
  import opened Markers
  import opened Document
  import opened ViewModel
  import opened LineTree
  import opened TreeInsert

  /** The spans for the new lines; a change of the whole document drops all markers. */
  method SpansFor(doc: Doc, change: Change, full: bool) returns (marked: seq<seq<Span>>)
    requires doc.Valid() && ValidChange(doc.lines, change)
    ensures |marked| == |change.text|
    ensures var spans := RowSpans(doc.Rows());
            var first, last := spans[change.from.line], spans[change.to.line];
            !full && Distinct(last) ==> marked == Stretched(first, last, change)
  {
    hide Inv, Sound, Fresh, Stretched;
    if full {
      marked := Copies([], |change.text|);
    } else {
      var first := doc.SpansAt(change.from.line);
      var last := doc.SpansAt(change.to.line);
      marked := StretchSpansOverChange(first, last, change);
    }
  }

  /** A marker from `p` to `q` that is clear of the change and not about to be cleared. */
  ghost predicate Follows(spans: Spans, c: Change, m: Marker, p: Pos, q: Pos) {
    && Marks(spans, m, p, q) && (p != q || !m.clearWhenEmpty) && ClearOf(c, p, q)
    && 0 <= c.from.line <= c.to.line < |spans| && Distinct(spans[c.from.line]) && Distinct(spans[c.to.line])
  }

  /** Tells the view about a change; the document, now `doc`, has changed already. */
  method Register(display: Display, ghost before: seq<LineId>, doc: seq<LineId>, change: Change, full: bool,
                  wholeLineUpdateBefore: bool)
    requires display.Tiles(before) && 0 <= change.from.line <= change.to.line < |before|
    requires Replaces(before, doc, change.from.line, change.to.line + 1, LineDiff(change))
    requires InLine(change, full, wholeLineUpdateBefore) ==> doc == before
    modifies display
    ensures !full ==> display.Tiles(doc)
    ensures full ==> (display.Tiles(doc) <==> old(display.viewTo) <= |doc|)
    ensures display.Tiles(doc) || display.viewFrom >= |doc|
  {
    hide Views;
    if full {
      display.RegFullChange(before, doc);
    } else if InLine(change, full, wholeLineUpdateBefore) {
      var _ := display.RegLineChange(doc, change.from.line);
    } else {
      display.RegChange(before, doc, change.from.line, change.to.line + 1, LineDiff(change));
    }
  }

  /** Changes the document with its markers: lines outside the change keep their objects, and a marker
      that is clear of the change is where `AdjustForChange` puts it. */
  method ChangeDocument(doc: Doc, change: Change, full: bool, wholeLineUpdateBefore: bool, estimate: string -> int)
    requires doc.Valid() && ValidChange(doc.lines, change)
    requires full ==> change.from == Pos(0, 0) && change.to == EndOf(doc.lines)
    modifies doc`texts, doc`spans, doc`owned, doc`nextLine, doc`lines, doc.tree
    ensures doc.Valid() && doc.lines == Apply(old(doc.lines), change)
    ensures Replaces(old(doc.Ids()), doc.Ids(), change.from.line, change.to.line + 1, LineDiff(change))
    ensures InLine(change, full, wholeLineUpdateBefore) ==> doc.Ids() == old(doc.Ids())
    ensures forall m, p, q :: !full && Follows(old(RowSpans(doc.Rows())), change, m, p, q) ==>
              Marks(RowSpans(doc.Rows()), m, AdjustForChange(p, change), AdjustForChange(q, change))
  {
    hide Inv, Sound, Fresh, Apply, Stretched, Marks, Replaces, Follows, Estimates;
    ghost var spans := RowSpans(doc.Rows());
    var marked := SpansFor(doc, change, full);
    doc.UpdateDoc(change, marked, full, wholeLineUpdateBefore, estimate);
    forall m, p, q | !full && Follows(spans, change, m, p, q)
      ensures Marks(RowSpans(doc.Rows()), m, AdjustForChange(p, change), AdjustForChange(q, change))
    {
      MarkersFollow(spans, change, m, p, q, marked, RowSpans(doc.Rows()));
    }
  }

  lemma MarkersFollow(spans: Spans, c: Change, m: Marker, p: Pos, q: Pos, marked: seq<seq<Span>>, after: Spans)
    requires Follows(spans, c, m, p, q) && Leq(c.from, c.to)
    requires Distinct(spans[c.to.line]) ==> marked == Stretched(spans[c.from.line], spans[c.to.line], c)
    requires after == spans[..c.from.line] + marked + spans[c.to.line + 1..]
    ensures Marks(after, m, AdjustForChange(p, c), AdjustForChange(q, c))
  {
    hide Stretched, Marks, AdjustForChange;
    MarkerFollowsChange(spans, c, m, p, q);
  }

  /** Changes the document and registers the change with the view.

      The view then shows the new document, one entry for each of its lines, whichever branch the
      change took; for a change of the whole document iff the view did not reach beyond the new end.
      Every marker that is clear of the change is where `AdjustForChange` puts it. */
  method ChangeInEditor(doc: Doc, display: Display, change: Change, full: bool, wholeLineUpdateBefore: bool,
                        estimate: string -> int)
    requires doc.Valid() && ValidChange(doc.lines, change) && display.Tiles(doc.Ids())
    requires full ==> change.from == Pos(0, 0) && change.to == EndOf(doc.lines)
    modifies doc`texts, doc`spans, doc`owned, doc`nextLine, doc`lines, doc.tree, display
    ensures doc.Valid() && doc.lines == Apply(old(doc.lines), change)
    ensures !full ==> display.Tiles(doc.Ids())
    ensures full ==> (display.Tiles(doc.Ids()) <==> old(display.viewTo) <= |doc.Ids()|)
    ensures display.Tiles(doc.Ids()) || display.viewFrom >= |doc.Ids()|
    ensures forall m, p, q :: !full && Follows(old(RowSpans(doc.Rows())), change, m, p, q) ==>
              Marks(RowSpans(doc.Rows()), m, AdjustForChange(p, change), AdjustForChange(q, change))
  {
    hide Inv, Sound, Fresh, Apply, Marks, Replaces, Follows;
    ghost var ids := doc.Ids();
    assert 0 <= change.from.line <= change.to.line < |ids|;
    ChangeDocument(doc, change, full, wholeLineUpdateBefore, estimate);
    var n := doc.LineCount();
    var now := doc.Slice(0, n);
    assert now == doc.Ids();
    Register(display, ids, now, change, full, wholeLineUpdateBefore);
  }
}
