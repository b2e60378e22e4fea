/** The line structure of a document under `updateDoc`: line objects in the tree, their texts and
    their marker spans. */
module Document {
  import opened Text
  import opened Changes
  import opened LineTree
  import opened TreeInsert
  import opened TreeRemove
  import opened TreeRemoval
  import opened TreeLookup
  import opened LineStore
  import opened Markers
  import opened MarkerLines
  import ViewModel

  /** A line of the document: its object, its text and its spans. */
  datatype Row = Row(id: Ref, text: string, spans: seq<Span>)

  function TextOf(texts: map<Ref, string>, l: Ref): string {
    if l in texts then texts[l] else ""
  }

  function RowsOf(texts: map<Ref, string>, spans: LineSpans, ids: seq<Ref>): (r: seq<Row>)
    ensures |r| == |ids| && forall i :: 0 <= i < |ids| ==>
            r[i] == Row(ids[i], TextOf(texts, ids[i]), SpansOf(spans, ids[i]))
  {
    seq(|ids|, i requires 0 <= i < |ids| => Row(ids[i], TextOf(texts, ids[i]), SpansOf(spans, ids[i])))
  }

  function Zip(ids: seq<Ref>, ts: seq<string>, sss: seq<seq<Span>>): (r: seq<Row>)
    requires |ids| == |ts| == |sss|
    ensures |r| == |ids| && forall i :: 0 <= i < |ids| ==> r[i] == Row(ids[i], ts[i], sss[i])
  {
    seq(|ids|, i requires 0 <= i < |ids| => Row(ids[i], ts[i], sss[i]))
  }

  function Texts(rows: seq<Row>): (r: seq<string>)
    ensures |r| == |rows| && forall i :: 0 <= i < |rows| ==> r[i] == rows[i].text
  {
    seq(|rows|, i requires 0 <= i < |rows| => rows[i].text)
  }

  function RowIds(rows: seq<Row>): (r: seq<Ref>)
    ensures |r| == |rows| && forall i :: 0 <= i < |rows| ==> r[i] == rows[i].id
  {
    seq(|rows|, i requires 0 <= i < |rows| => rows[i].id)
  }

  function RowSpans(rows: seq<Row>): (r: seq<seq<Span>>)
    ensures |r| == |rows| && forall i :: 0 <= i < |rows| ==> r[i] == rows[i].spans
  {
    seq(|rows|, i requires 0 <= i < |rows| => rows[i].spans)
  }

  /** The tables agree with the lines there are; `pending` are lines not yet inserted. Lines that are
      neither in the document nor pending have no spans. */
  ghost predicate Sound(ids: seq<Ref>, keys: set<Ref>, texts: map<Ref, string>, spans: LineSpans, own: MarkerOwn,
                        next: Ref, pending: seq<Ref>)
  {
    && texts.Keys == keys && spans.Keys == keys && (forall l :: l in keys ==> l < next)
    && |ids| > 0 && NoRepeats(ids) && (forall l :: l in ids ==> l in keys)
      && (forall l :: l in pending ==> l in keys && l !in ids)
    && (forall l :: l in keys && l !in ids && l !in pending ==> spans[l] == [])
    && Wired(spans, own)
  }

  // ----- heights -----

  function RefSet(ls: seq<Ref>): set<Ref> {
    set l | l in ls
  }

  lemma RefSets(ls: seq<Ref>, a: Ref, b: Ref)
    ensures RefSet([]) == {} && RefSet([a]) == {a} && RefSet(ls + [a]) == RefSet(ls) + {a}
    ensures RefSet([a] + ls) == RefSet(ls) + {a} && RefSet([a] + ls + [b]) == {a, b} + RefSet(ls)
  {
  }

  /** The lines `ls` have the height that is estimated for their text; the others keep text and height. */
  ghost predicate Touched(lines0: map<Ref, Line>, texts0: map<Ref, string>, lines: map<Ref, Line>,
                          texts: map<Ref, string>, ls: set<Ref>, estimate: string -> int) {
    && lines0.Keys <= lines.Keys && ls <= lines.Keys
    && (forall l :: l in ls ==> LineHeight(lines, l) == estimate(TextOf(texts, l)))
    && (forall l :: l in lines0 && l !in ls ==>
          LineHeight(lines, l) == LineHeight(lines0, l) && TextOf(texts, l) == TextOf(texts0, l))
  }

  lemma TouchedBoth(lines0: map<Ref, Line>, texts0: map<Ref, string>, lines1: map<Ref, Line>, texts1: map<Ref, string>,
                    lines: map<Ref, Line>, texts: map<Ref, string>, a: set<Ref>, b: set<Ref>, estimate: string -> int)
    requires Touched(lines0, texts0, lines1, texts1, a, estimate) && Touched(lines1, texts1, lines, texts, b, estimate)
    ensures Touched(lines0, texts0, lines, texts, a + b, estimate)
  {
    hide LineHeight;
  }

  lemma OneTouched(lines0: map<Ref, Line>, texts0: map<Ref, string>, lines: map<Ref, Line>, l: Ref, text: string,
                   estimate: string -> int)
    requires l in lines0 && lines.Keys == lines0.Keys
    requires forall x :: LineHeight(lines, x) == if x == l then estimate(text) else LineHeight(lines0, x)
    ensures Touched(lines0, texts0, lines, texts0[l := text], {l}, estimate)
  {
    hide LineHeight;
  }

  lemma StillTouched(lines0: map<Ref, Line>, texts0: map<Ref, string>, lines1: map<Ref, Line>, lines: map<Ref, Line>,
                     texts: map<Ref, string>, ls: set<Ref>, estimate: string -> int)
    requires Touched(lines0, texts0, lines1, texts, ls, estimate) && SameHeights(lines1, lines)
    ensures Touched(lines0, texts0, lines, texts, ls, estimate)
  {
    hide LineHeight;
  }

  lemma NoneTouched(lines0: map<Ref, Line>, lines: map<Ref, Line>, texts: map<Ref, string>, estimate: string -> int)
    requires SameHeights(lines0, lines)
    ensures Touched(lines0, texts, lines, texts, {}, estimate)
  {
    hide LineHeight;
  }

  /** The heights of some lines. */
  function HeightList(lines: map<Ref, Line>, ids: seq<Ref>): (r: seq<int>)
    ensures |r| == |ids| && forall i :: 0 <= i < |ids| ==> r[i] == LineHeight(lines, ids[i])
  {
    seq(|ids|, i requires 0 <= i < |ids| => LineHeight(lines, ids[i]))
  }

  /** The heights that are estimated for some texts. */
  function Estimates(ts: seq<string>, estimate: string -> int): (r: seq<int>)
    ensures |r| == |ts| && forall i :: 0 <= i < |ts| ==> r[i] == estimate(ts[i])
  {
    seq(|ts|, i requires 0 <= i < |ts| => estimate(ts[i]))
  }

  /** When lines `f` to `t` give way to the touched ones, their heights give way to the estimates. */
  lemma HeightsPlaced(lines0: map<Ref, Line>, texts0: map<Ref, string>, lines: map<Ref, Line>, texts: map<Ref, string>,
                      ids0: seq<Ref>, ids: seq<Ref>, mids: seq<Ref>, f: int, t: int, ts: seq<string>,
                      estimate: string -> int)
    requires 0 <= f <= t < |ids0| && ids == ids0[..f] + mids + ids0[t + 1..] && NoRepeats(ids)
    requires Touched(lines0, texts0, lines, texts, RefSet(mids), estimate) && forall l :: l in ids0 ==> l in lines0
    requires |ts| == |mids| && forall i :: 0 <= i < |mids| ==> TextOf(texts, mids[i]) == ts[i]
    ensures HeightList(lines, ids)
            == HeightList(lines0, ids0)[..f] + Estimates(ts, estimate) + HeightList(lines0, ids0)[t + 1..]
  {
    hide LineHeight, NoRepeats;
    ApartFromMiddle(ids0[..f], mids, ids0[t + 1..]);
    var r := HeightList(lines0, ids0)[..f] + Estimates(ts, estimate) + HeightList(lines0, ids0)[t + 1..];
    forall i | 0 <= i < |ids|
      ensures HeightList(lines, ids)[i] == r[i]
    {
      if i < f {
        assert ids[i] == ids0[..f][i] && ids0[i] in ids0;
      } else if i >= f + |mids| {
        var k := i - f - |mids|;
        assert ids[i] == ids0[t + 1..][k] && ids0[t + 1 + k] in ids0;
      } else {
        assert ids[i] == mids[i - f];
      }
    }
  }

  lemma ApartFromMiddle(a: seq<Ref>, m: seq<Ref>, b: seq<Ref>)
    requires NoRepeats(a + m + b)
    ensures forall l :: l in a || l in b ==> l !in m
  {
    var s := a + m + b;
    forall i, j | 0 <= i < |m| && 0 <= j < |a|
      ensures m[i] != a[j]
    {
      assert s[j] == a[j] && s[|a| + i] == m[i];
    }
    forall i, j | 0 <= i < |m| && 0 <= j < |b|
      ensures m[i] != b[j]
    {
      assert s[|a| + |m| + j] == b[j] && s[|a| + i] == m[i];
    }
  }

  lemma SoundHas(ids: seq<Ref>, keys: set<Ref>, texts: map<Ref, string>, spans: LineSpans, own: MarkerOwn, next: Ref)
    requires Sound(ids, keys, texts, spans, own, next, [])
    ensures NoRepeats(ids) && forall l :: l in ids ==> l in keys
  {
    hide Wired;
  }

  /** The heights after a change. */
  lemma HeightsOfChange(lines0: map<Ref, Line>, texts0: map<Ref, string>, spans0: LineSpans, lines: map<Ref, Line>,
                        texts: map<Ref, string>, spans: LineSpans, ids0: seq<Ref>, ids: seq<Ref>, d0: seq<string>,
                        d: seq<string>, c: Change, mids: seq<Ref>, marked: seq<seq<Span>>, next: Ref, own: MarkerOwn,
                        next0: Ref, own0: MarkerOwn, estimate: string -> int)
    requires Sound(ids0, lines0.Keys, texts0, spans0, own0, next0, [])
    requires Sound(ids, lines.Keys, texts, spans, own, next, [])
    requires d0 == Texts(RowsOf(texts0, spans0, ids0)) && d == Texts(RowsOf(texts, spans, ids))
    requires Placed(RowsOf(texts0, spans0, ids0), RowsOf(texts, spans, ids), d0, c, mids, marked)
    requires Touched(lines0, texts0, lines, texts, RefSet(mids), estimate)
    ensures |d| >= c.from.line + |c.text|
    ensures HeightList(lines, ids) == HeightList(lines0, ids0)[..c.from.line]
                                      + Estimates(d[c.from.line..c.from.line + |c.text|], estimate)
                                      + HeightList(lines0, ids0)[c.to.line + 1..]
  {
    hide MidTexts, Touched, Sound, NoRepeats;
    SoundHas(ids0, lines0.Keys, texts0, spans0, own0, next0);
    SoundHas(ids, lines.Keys, texts, spans, own, next);
    var f, t := c.from.line, c.to.line;
    var rows0, rows := RowsOf(texts0, spans0, ids0), RowsOf(texts, spans, ids);
    PartsOf(rows0, rows, d0, c, mids, marked);
    IdsOfRows(texts0, spans0, ids0);
    IdsOfRows(texts, spans, ids);
    forall i | 0 <= i < |mids|
      ensures TextOf(texts, mids[i]) == d[f..f + |c.text|][i]
    {
      assert ids[f + i] == mids[i] && d[f + i] == rows[f + i].text;
    }
    HeightsPlaced(lines0, texts0, lines, texts, ids0, ids, mids, f, t, d[f..f + |c.text|], estimate);
  }

  /** What a change with its lines placed means for text, line objects, spans and heights. */
  lemma ChangePlaced(lines0: map<Ref, Line>, texts0: map<Ref, string>, spans0: LineSpans, lines: map<Ref, Line>,
                     texts: map<Ref, string>, spans: LineSpans, ids0: seq<Ref>, ids: seq<Ref>, d0: seq<string>,
                     d: seq<string>, c: Change, mids: seq<Ref>, marked: seq<seq<Span>>, next: Ref, own: MarkerOwn,
                     next0: Ref, own0: MarkerOwn, estimate: string -> int)
    requires Sound(ids0, lines0.Keys, texts0, spans0, own0, next0, [])
    requires Sound(ids, lines.Keys, texts, spans, own, next, [])
    requires d0 == Texts(RowsOf(texts0, spans0, ids0)) && d == Texts(RowsOf(texts, spans, ids))
    requires Placed(RowsOf(texts0, spans0, ids0), RowsOf(texts, spans, ids), d0, c, mids, marked)
    requires Touched(lines0, texts0, lines, texts, RefSet(mids), estimate)
    ensures ValidChange(d0, c) && d == Apply(d0, c) && |d| > 0 && |d| >= c.from.line + |c.text|
    ensures ViewModel.Replaces(ids0, ids, c.from.line, c.to.line + 1, LineDiff(c))
    ensures RowSpans(RowsOf(texts, spans, ids))
            == RowSpans(RowsOf(texts0, spans0, ids0))[..c.from.line] + marked
               + RowSpans(RowsOf(texts0, spans0, ids0))[c.to.line + 1..]
    ensures HeightList(lines, ids) == HeightList(lines0, ids0)[..c.from.line]
                                      + Estimates(d[c.from.line..c.from.line + |c.text|], estimate)
                                      + HeightList(lines0, ids0)[c.to.line + 1..]
    ensures c.from.line == c.to.line && mids == [ids0[c.from.line]] ==> ids == ids0
  {
    hide Apply, MidTexts, Sound, Touched, ViewModel.Replaces, RefSet, HeightList, Estimates, Texts, RowSpans;
    var rows0, rows := RowsOf(texts0, spans0, ids0), RowsOf(texts, spans, ids);
    RowsReplaced(rows0, rows, d0, c, mids, marked);
    IdsOfRows(texts0, spans0, ids0);
    IdsOfRows(texts, spans, ids);
    HeightsOfChange(lines0, texts0, spans0, lines, texts, spans, ids0, ids, d0, d, c, mids, marked, next, own, next0,
                    own0, estimate);
    if c.from.line == c.to.line && mids == [ids0[c.from.line]] {
      IdsKept(rows0, c.from.line, mids[0]);
    }
  }

  class Doc {
    const tree: Tree
    var texts: map<Ref, string>
    var spans: LineSpans
    var owned: MarkerOwn
    var nextLine: Ref
    /** The text of the document. */
    ghost var lines: seq<string>

    ghost function Ids(): seq<Ref>
      reads this, tree
    {
      LineTree.At(tree.content, tree.root)
    }

    ghost function Rows(): seq<Row>
      reads this, tree
    {
      RowsOf(texts, spans, Ids())
    }

    /** The heights of the lines, from top to bottom. */
    ghost function RowHeights(): seq<int>
      reads this, tree
    {
      HeightList(tree.lines, Ids())
    }

    ghost predicate ValidWith(pending: seq<Ref>)
      reads this, tree
    {
      && tree.Valid() && Fresh(tree.V(), pending)
      && Sound(Ids(), tree.lines.Keys, texts, spans, owned, nextLine, pending)
    }

    ghost predicate Valid()
      reads this, tree
    {
      ValidWith([]) && lines == Texts(Rows()) && |lines| > 0
    }

    constructor (height: int)
      ensures Valid() && lines == [""] && fresh(tree) && RowHeights() == [height]
    {
      tree := new Tree(height);
      texts, spans, owned, nextLine, lines := map[0 := ""], map[0 := []], map[], 1, [""];
      new;
      OneRow(texts, spans, owned);
      assert Ids() == [0];
    }

    /** The line object at a position. */
    method LineAt(n: int, ghost pending: seq<Ref>) returns (l: Ref)
      requires ValidWith(pending) && 0 <= n < |Ids()|
      ensures l == Ids()[n] && l in texts && l in spans
    {
      hide Inv, Sound, Fresh;
      RootIsThere(tree.V());
      var found := tree.GetLine(n);
      l := found.ref;
      SoundRow(Ids(), tree.lines.Keys, texts, spans, owned, nextLine, pending, n);
    }

    /** A line gets a text and spans; its height is estimated anew. */
    method SetLine(l: Ref, text: string, ss: seq<Span>, estimate: string -> int, ghost k: int, ghost pending: seq<Ref>)
      requires ValidWith(pending) && 0 <= k < |Ids()| && Ids()[k] == l
      modifies this`texts, this`spans, this`owned, tree
      ensures ValidWith(pending) && Ids() == old(Ids()) && Rows() == old(Rows())[k := Row(l, text, ss)]
      ensures RowsOf(texts, spans, pending) == old(RowsOf(texts, spans, pending))
      ensures Touched(old(tree.lines), old(texts), tree.lines, texts, {l}, estimate)
      ensures TextOf(texts, l) == text
    {
      hide Inv, Fresh, Wired, Sound, Touched;
      RootIsThere(tree.V());
      ghost var ids := Ids();
      SoundRow(ids, tree.lines.Keys, texts, spans, owned, nextLine, pending, k);
      SoundSet(ids, tree.lines.Keys, texts, spans, owned, nextLine, pending, l, text);
      texts := texts[l := text];
      Rewire(l, ss, pending);
      Resize(l, estimate(text), pending);
      OneTouched(old(tree.lines), old(texts), tree.lines, l, text, estimate);
      OneRowChanged(ids, old(texts), old(spans), k, text, ss);
      RowsOthers(pending, old(texts), old(spans), l, text, ss);
    }

    method Rewire(l: Ref, ss: seq<Span>, ghost pending: seq<Ref>)
      requires Sound(Ids(), tree.lines.Keys, texts, spans, owned, nextLine, pending) && (l in Ids() || l in pending)
      modifies this`spans, this`owned
      ensures Sound(Ids(), tree.lines.Keys, texts, spans, owned, nextLine, pending) && spans == old(spans)[l := ss]
    {
      hide Wired;
      owned := Reattach(spans, owned, l, ss);
      spans := spans[l := ss];
    }

    method Resize(l: Ref, height: int, ghost pending: seq<Ref>)
      requires tree.Valid() && Fresh(tree.V(), pending) && l in Ids() && l in tree.lines && l !in pending
      modifies tree
      ensures tree.Valid() && Fresh(tree.V(), pending) && Ids() == old(Ids()) && tree.lines.Keys == old(tree.lines.Keys)
      ensures forall x :: LineHeight(tree.lines, x) == if x == l then height else LineHeight(old(tree.lines), x)
    {
      hide Inv;
      RootIsThere(tree.V());
      if height != tree.lines[l].height {
        tree.UpdateLineHeight(l, height);
      }
    }

    /** Line objects for new lines, not in the document yet. */
    method LinesFor(ts: seq<string>, sss: seq<seq<Span>>, estimate: string -> int) returns (ls: seq<Ref>)
      requires ValidWith([]) && |sss| == |ts|
      modifies this`texts, this`spans, this`owned, this`nextLine, tree
      ensures ValidWith(ls) && Ids() == old(Ids()) && Rows() == old(Rows()) && |ls| == |ts|
      ensures RowsOf(texts, spans, ls) == Zip(ls, ts, sss)
      ensures Touched(old(tree.lines), old(texts), tree.lines, texts, RefSet(ls), estimate)
    {
      hide Inv, Sound, Fresh, Touched, RefSet;
      ls := [];
      NoneTouched(tree.lines, tree.lines, texts, estimate);
      RefSets([], 0, 0);
      for i := 0 to |ts|
        invariant ValidWith(ls) && Ids() == old(Ids()) && Rows() == old(Rows()) && |ls| == i
        invariant RowsOf(texts, spans, ls) == Zip(ls, ts[..i], sss[..i])
        invariant Touched(old(tree.lines), old(texts), tree.lines, texts, RefSet(ls), estimate)
      {
        ghost var lines1, texts1 := tree.lines, texts;
        var l := AddLine(ts[i], sss[i], estimate, ls);
        TouchedBoth(old(tree.lines), old(texts), lines1, texts1, tree.lines, texts, RefSet(ls), {l}, estimate);
        RefSets(ls, l, l);
        ls := ls + [l];
        ZipMore(ls, ts, sss, i);
      }
      assert ts[..|ts|] == ts && sss[..|sss|] == sss;
    }

    method AddLine(text: string, ss: seq<Span>, estimate: string -> int, ghost pending: seq<Ref>) returns (l: Ref)
      requires ValidWith(pending)
      modifies this`texts, this`spans, this`owned, this`nextLine, tree
      ensures ValidWith(pending + [l]) && Ids() == old(Ids()) && Rows() == old(Rows())
      ensures RowsOf(texts, spans, pending + [l]) == old(RowsOf(texts, spans, pending)) + [Row(l, text, ss)]
      ensures Touched(old(tree.lines), old(texts), tree.lines, texts, {l}, estimate)
    {
      hide Inv, Fresh, Sound;
      ghost var ids := Ids();
      NewIsNew(ids, tree.lines.Keys, texts, spans, owned, nextLine, pending, nextLine);
      l := NewRecord(text, estimate(text), pending);
      Rewire(l, ss, pending + [l]);
      RowsApart(ids, old(texts), old(spans), l, text, ss);
      RowsApart(pending, old(texts), old(spans), l, text, ss);
      RowsAppend(texts, spans, pending, l);
    }

    /** A line object without spans, not in the document. */
    method NewRecord(text: string, height: int, ghost pending: seq<Ref>) returns (l: Ref)
      requires ValidWith(pending)
      modifies this`texts, this`spans, this`nextLine, tree
      ensures ValidWith(pending + [l]) && Ids() == old(Ids()) && l == old(nextLine)
      ensures texts == old(texts)[l := text] && spans == old(spans)[l := []]
      ensures tree.lines == old(tree.lines)[l := Line(height, Null)] && l !in old(tree.lines)
    {
      hide Inv, Fresh, Sound;
      l := nextLine;
      ghost var keys := tree.lines.Keys;
      NewIsNew(Ids(), keys, texts, spans, owned, nextLine, pending, l);
      SoundNew(Ids(), keys, texts, spans, owned, nextLine, pending, text);
      FreshMore(tree.V(), pending, l, height);
      nextLine := nextLine + 1;
      tree.NewLine(l, height);
      assert tree.lines.Keys == keys + {l};
      texts, spans := texts[l := text], spans[l := []];
    }

    /** Puts pending lines into the document. */
    method InsertRows(at: int, ls: seq<Ref>)
      requires ValidWith(ls) && 0 <= at <= |Ids()|
      modifies tree
      ensures ValidWith([]) && Rows() == old(Rows())[..at] + old(RowsOf(texts, spans, ls)) + old(Rows())[at..]
      ensures SameHeights(old(tree.lines), tree.lines)
    {
      ghost var ids := Ids();
      NothingIsFresh();
      SoundInserted(ids, tree.lines.Keys, texts, spans, owned, nextLine, ls, at);
      RowsSpliced(texts, spans, ids, at, ls);
      hide Inv, Sound, Fresh, Splice;
      InsertIds(at, ls);
    }

    method InsertIds(at: int, ls: seq<Ref>)
      requires tree.Valid() && Fresh(tree.V(), ls) && 0 <= at <= |Ids()|
      modifies tree
      ensures tree.Valid() && Ids() == Splice(old(Ids()), at, ls) && tree.lines.Keys == old(tree.lines.Keys)
      ensures SameHeights(old(tree.lines), tree.lines)
    {
      hide Fresh, Splice, Inv;
      RootIsThere(tree.V());
      tree.Insert(at, ls);
      RootIsThere(tree.V());
    }

    /** Takes lines out of the document, and their spans off them. */
    method RemoveRows(at: int, n: int, ghost pending: seq<Ref>)
      requires ValidWith(pending) && 0 <= at && 0 <= n < |Ids()| && at + n <= |Ids()|
      modifies this`spans, this`owned, tree
      ensures ValidWith(pending) && Rows() == old(Rows())[..at] + old(Rows())[at + n..]
      ensures RowsOf(texts, spans, pending) == old(RowsOf(texts, spans, pending))
      ensures SameHeights(old(tree.lines), tree.lines)
    {
      hide Inv, Sound, Fresh;
      ghost var ids := Ids();
      SoundApart(ids, tree.lines.Keys, texts, spans, owned, nextLine, pending);
      SoundRemoved(ids, tree.lines.Keys, texts, spans, owned, nextLine, pending, at, n);
      var gone := Slice(at, n);
      RemoveIds(at, n, pending);
      CleanUp(gone, pending);
      RowsRemoved(texts, old(spans), spans, ids, at, n);
      RowsKept(texts, old(spans), spans, ids, at, n, pending);
    }

    method RemoveIds(at: int, n: int, ghost pending: seq<Ref>)
      requires tree.Valid() && Fresh(tree.V(), pending) && 0 <= at && 0 <= n && at + n <= |Ids()|
      modifies tree
      ensures tree.Valid() && Fresh(tree.V(), pending) && Ids() == Removed(old(Ids()), at, n)
              && tree.lines.Keys == old(tree.lines.Keys) && SameHeights(old(tree.lines), tree.lines)
    {
      hide Fresh, Inv;
      ghost var v, ids := tree.V(), Ids();
      RootIsThere(v);
      tree.Remove(at, n);
      RootIsThere(tree.V());
      StillFresh(v, tree.V(), ids, pending);
    }

    /** The line objects from `at` on. */
    method Slice(at: int, n: int) returns (ls: seq<Ref>)
      requires tree.Valid() && 0 <= at && 0 <= n && at + n <= |Ids()|
      ensures ls == Ids()[at..at + n]
    {
      hide Inv, Consistent;
      RootIsThere(tree.V());
      var stop: Ref -> bool := _ => false;
      var stopped;
      ls, stopped := tree.IterN(tree.root, at, n, stop, []);
      NeverStops(Ids()[at..at + n], stop);
    }

    /** Lines that have left the document lose their spans. */
    method CleanUp(gone: seq<Ref>, ghost pending: seq<Ref>)
      requires Sound(Ids(), tree.lines.Keys, texts, spans, owned, nextLine, gone + pending)
      modifies this`spans, this`owned
      ensures Sound(Ids(), tree.lines.Keys, texts, spans, owned, nextLine, pending)
      ensures forall l :: l !in gone ==> SpansOf(spans, l) == old(SpansOf(spans, l))
    {
      hide Sound, Wired;
      for i := 0 to |gone|
        invariant Sound(Ids(), tree.lines.Keys, texts, spans, owned, nextLine, gone[i..] + pending)
        invariant forall l :: l !in gone ==> SpansOf(spans, l) == old(SpansOf(spans, l))
      {
        var l := gone[i];
        assert gone[i..] == [l] + gone[i + 1..];
        assert l in gone[i..] + pending;
        Rewire(l, [], gone[i..] + pending);
        SoundFewer(Ids(), tree.lines.Keys, texts, spans, owned, nextLine, gone[i..] + pending, l,
          gone[i + 1..] + pending);
      }
      assert gone[|gone|..] + pending == pending;
    }

    /** The text between two positions. */
    method GetBetween(start: Pos, end: Pos) returns (out: seq<string>)
      requires Valid() && ValidPos(lines, start) && ValidPos(lines, end) && Leq(start, end)
      ensures out == Text.Between(lines, start, end)
    {
      hide Inv, Sound, Fresh, Text.Between;
      BetweenLines(lines, start, end);
      var ls := Slice(start.line, end.line + 1 - start.line);
      out := [];
      var n := start.line;
      while n <= end.line
        invariant start.line <= n <= end.line + 1 && |out| == n - start.line
        invariant forall i :: 0 <= i < |out| ==> out[i] == Text.Between(lines, start, end)[i]
      {
        var l := ls[n - start.line];
        assert l == Ids()[n];
        var text := TextOf(texts, l);
        assert text == lines[n];
        assert Text.Between(lines, start, end)[n - start.line] == CutLine(lines[n], n, start, end);
        if n == end.line {
          text := text[..end.ch];
        }
        if n == start.line {
          text := text[start.ch..];
        }
        out := out + [text];
        n := n + 1;
      }
    }

    /** Perform a change on the line structure.  `full` marks a change that replaces the whole text,
        `wholeLineUpdateBefore` is the editor option that enables the whole-line case, and `marked`
        are the spans for the lines of the new text.

        The text becomes the text before `from`, the new text and the text after `to`; the lines
        outside the change keep their objects, their texts and their spans; the new lines get theirs;
        and a change within one line keeps every line object. */
    method UpdateDoc(change: Change, marked: seq<seq<Span>>, full: bool, wholeLineUpdateBefore: bool,
                     estimate: string -> int)
      requires Valid() && ValidChange(lines, change) && |marked| == |change.text|
      requires full ==> change.from == Pos(0, 0) && change.to == EndOf(lines)
      modifies this`texts, this`spans, this`owned, this`nextLine, this`lines, tree
      ensures Valid() && lines == Apply(old(lines), change)
      ensures ViewModel.Replaces(old(Ids()), Ids(), change.from.line, change.to.line + 1, LineDiff(change))
      ensures RowSpans(Rows()) == old(RowSpans(Rows()))[..change.from.line] + marked
              + old(RowSpans(Rows()))[change.to.line + 1..]
      ensures InLine(change, full, wholeLineUpdateBefore) ==> Ids() == old(Ids())
      ensures |lines| >= change.from.line + |change.text|
      ensures RowHeights() == old(RowHeights())[..change.from.line]
              + Estimates(lines[change.from.line..change.from.line + |change.text|], estimate)
              + old(RowHeights())[change.to.line + 1..]
    {
      hide Inv, Sound, Fresh, Apply, Touched, Placed, ViewModel.Replaces, RefSet;
      ghost var mids;
      if full {
        mids := ReplaceAll(change, marked, estimate);
      } else if IsWholeLineUpdate(change, wholeLineUpdateBefore) {
        mids := ReplaceWholeLines(change, marked, estimate);
      } else if change.from.line == change.to.line {
        mids := ReplaceInLine(change, marked, estimate);
      } else if |change.text| == 1 {
        mids := JoinLines(change, marked, estimate);
      } else {
        mids := ReplaceLines(change, marked, estimate);
      }
      lines := Texts(Rows());
      ChangePlaced(old(tree.lines), old(texts), old(spans), tree.lines, texts, spans, old(Ids()), Ids(),
                   old(lines), lines, change, mids, marked, nextLine, owned, old(nextLine), old(owned), estimate);
    }

    method ReplaceAll(change: Change, marked: seq<seq<Span>>, estimate: string -> int) returns (ghost mids: seq<Ref>)
      requires Valid() && ValidChange(lines, change) && |marked| == |change.text|
      requires change.from == Pos(0, 0) && change.to == EndOf(lines)
      modifies this`texts, this`spans, this`owned, this`nextLine, tree
      ensures ValidWith([]) && Placed(old(Rows()), Rows(), old(lines), change, mids, marked)
      ensures Touched(old(tree.lines), old(texts), tree.lines, texts, RefSet(mids), estimate)
    {
      hide Inv, Sound, Fresh, MidTexts, Touched, SameHeights, RefSet, Zip;
      ghost var rows := Rows();
      var n := LineCount();
      var added := LinesFor(change.text, marked, estimate);
      mids := added;
      ghost var lines1 := tree.lines;
      InsertRows(0, added);
      StillTouched(old(tree.lines), old(texts), lines1, tree.lines, texts, RefSet(added), estimate);
      ghost var lines2 := tree.lines;
      RemoveRows(|change.text|, n, []);
      StillTouched(old(tree.lines), old(texts), lines2, tree.lines, texts, RefSet(added), estimate);
      FullMiddle(lines, change);
      AllReplaced(rows, Zip(mids, change.text, marked));
    }

    method LineCount() returns (n: int)
      requires tree.Valid()
      ensures n == |Ids()|
    {
      RootIsThere(tree.V());
      SizeIsContent(tree.V(), tree.content, tree.root);
      n := tree.nodes[tree.root].size;
    }

    method ReplaceWholeLines(change: Change, marked: seq<seq<Span>>, estimate: string -> int)
      returns (ghost mids: seq<Ref>)
      requires Valid() && ValidChange(lines, change) && |marked| == |change.text|
      requires IsWholeLineUpdate(change, true)
      modifies this`texts, this`spans, this`owned, this`nextLine, tree
      ensures ValidWith([]) && Placed(old(Rows()), Rows(), old(lines), change, mids, marked)
      ensures Touched(old(tree.lines), old(texts), tree.lines, texts, RefSet(mids), estimate)
    {
      hide Doc.ValidWith, MidTexts, Placed, Zip, Touched, SameHeights, RefSet;
      ghost var rows := Rows();
      var f, t, n := change.from.line, change.to.line, |change.text| - 1;
      var added := LinesFor(change.text[..n], marked[..n], estimate);
      ghost var lines1, texts1 := tree.lines, texts;
      var last := LineAt(t, added);
      SetLine(last, TextOf(texts, last), marked[n], estimate, t, added);
      TouchedBoth(old(tree.lines), old(texts), lines1, texts1, tree.lines, texts, RefSet(added), {last}, estimate);
      ghost var lines2 := tree.lines;
      SwapRows(f, t - f, added);
      mids := added + [last];
      RefSets(added, last, last);
      StillTouched(old(tree.lines), old(texts), lines2, tree.lines, texts, RefSet(mids), estimate);
      PlacedWhole(rows, Rows(), lines, change, added, last, marked);
    }

    /** Takes out `n` lines, if any, and puts pending lines there, if any. */
    method SwapRows(at: int, n: int, ls: seq<Ref>)
      requires ValidWith(ls) && 0 <= at && 0 <= n < |Ids()| && at + n <= |Ids()|
      modifies this`spans, this`owned, tree
      ensures ValidWith([]) && Rows() == old(Rows())[..at] + old(RowsOf(texts, spans, ls)) + old(Rows())[at + n..]
      ensures SameHeights(old(tree.lines), tree.lines)
    {
      hide Inv, Sound, Fresh;
      ghost var rows, new0 := Rows(), RowsOf(texts, spans, ls);
      if n > 0 {
        RemoveRows(at, n, ls);
      }
      LinesTakenOut(rows, at, n);
      if |ls| > 0 {
        InsertRows(at, ls);
      }
      Swapped(rows, at, n, new0);
    }

    method ReplaceInLine(change: Change, marked: seq<seq<Span>>, estimate: string -> int) returns (ghost mids: seq<Ref>)
      requires Valid() && ValidChange(lines, change) && |marked| == |change.text| && change.from.line == change.to.line
      modifies this`texts, this`spans, this`owned, this`nextLine, tree
      ensures ValidWith([]) && Placed(old(Rows()), Rows(), old(lines), change, mids, marked)
      ensures Touched(old(tree.lines), old(texts), tree.lines, texts, RefSet(mids), estimate)
      ensures |change.text| == 1 ==> mids == [old(Ids())[change.from.line]]
    {
      hide Doc.ValidWith, MidTexts, Placed, Zip, Touched, SameHeights, RefSet;
      ghost var rows := Rows();
      var f, n := change.from.line, |change.text|;
      var l := LineAt(f, []);
      var line := TextOf(texts, l);
      assert line == lines[f];
      var pre, post := line[..change.from.ch], line[change.to.ch..];
      if n == 1 {
        SetLine(l, pre + Last(change.text) + post, marked[0], estimate, f, []);
        mids := [l];
        RefSets([], l, l);
        PlacedOne(rows, lines, change, l, marked);
      } else {
        var more := change.text[1..n - 1] + [Last(change.text) + post];
        var added := LinesFor(more, marked[1..], estimate);
        ghost var lines1, texts1 := tree.lines, texts;
        SetLine(l, pre + change.text[0], marked[0], estimate, f, added);
        TouchedBoth(old(tree.lines), old(texts), lines1, texts1, tree.lines, texts, RefSet(added), {l}, estimate);
        ghost var lines2 := tree.lines;
        InsertRows(f + 1, added);
        mids := [l] + added;
        RefSets(added, l, l);
        StillTouched(old(tree.lines), old(texts), lines2, tree.lines, texts, RefSet(mids), estimate);
        PlacedMore(rows, lines, change, l, added, marked);
      }
    }

    method JoinLines(change: Change, marked: seq<seq<Span>>, estimate: string -> int) returns (ghost mids: seq<Ref>)
      requires Valid() && ValidChange(lines, change) && |marked| == |change.text| == 1
               && change.from.line < change.to.line
      modifies this`texts, this`spans, this`owned, this`nextLine, tree
      ensures ValidWith([]) && Placed(old(Rows()), Rows(), old(lines), change, mids, marked)
      ensures Touched(old(tree.lines), old(texts), tree.lines, texts, RefSet(mids), estimate)
    {
      hide Doc.ValidWith, MidTexts, Placed, Zip, Touched, SameHeights, RefSet;
      ghost var rows := Rows();
      var f, t := change.from.line, change.to.line;
      var first := LineAt(f, []);
      var last := LineAt(t, []);
      var text := TextOf(texts, first)[..change.from.ch] + change.text[0] + TextOf(texts, last)[change.to.ch..];
      assert text == lines[f][..change.from.ch] + change.text[0] + lines[t][change.to.ch..];
      SetLine(first, text, marked[0], estimate, f, []);
      ghost var lines1 := tree.lines;
      RemoveRows(f + 1, t - f, []);
      mids := [first];
      RefSets([], first, first);
      StillTouched(old(tree.lines), old(texts), lines1, tree.lines, texts, RefSet(mids), estimate);
      PlacedJoin(rows, lines, change, first, marked);
    }

    method ReplaceLines(change: Change, marked: seq<seq<Span>>, estimate: string -> int) returns (ghost mids: seq<Ref>)
      requires Valid() && ValidChange(lines, change) && |marked| == |change.text| > 1
               && change.from.line < change.to.line
      modifies this`texts, this`spans, this`owned, this`nextLine, tree
      ensures ValidWith([]) && Placed(old(Rows()), Rows(), old(lines), change, mids, marked)
      ensures Touched(old(tree.lines), old(texts), tree.lines, texts, RefSet(mids), estimate)
    {
      hide Doc.ValidWith, MidTexts, Placed, Zip, Touched, SameHeights, RefSet;
      ghost var rows := Rows();
      var f, t, n := change.from.line, change.to.line, |change.text| - 1;
      var first, last := SetEnds(change, marked[0], marked[n], estimate);
      ghost var lines1, texts1 := tree.lines, texts;
      var added := LinesFor(change.text[1..n], marked[1..n], estimate);
      TouchedBoth(old(tree.lines), old(texts), lines1, texts1, tree.lines, texts, {first, last}, RefSet(added),
                  estimate);
      ghost var lines2 := tree.lines;
      SwapRows(f + 1, t - f - 1, added);
      mids := [first] + added + [last];
      RefSets(added, first, last);
      StillTouched(old(tree.lines), old(texts), lines2, tree.lines, texts, RefSet(mids), estimate);
      PlacedEnds(rows, Rows(), lines, change, first, added, last, marked);
    }

    /** The first line keeps its start and the last line its end. */
    method SetEnds(change: Change, ss0: seq<Span>, ss1: seq<Span>, estimate: string -> int)
      returns (first: Ref, last: Ref)
      requires Valid() && ValidChange(lines, change) && change.from.line < change.to.line
      modifies this`texts, this`spans, this`owned, tree
      ensures ValidWith([])
      ensures var f, t := change.from.line, change.to.line;
              Rows() == old(Rows())[f := Row(first, lines[f][..change.from.ch] + change.text[0], ss0)]
                                   [t := Row(last, Last(change.text) + lines[t][change.to.ch..], ss1)]
      ensures Touched(old(tree.lines), old(texts), tree.lines, texts, {first, last}, estimate)
    {
      hide Inv, Sound, Fresh, Touched;
      var f, t := change.from.line, change.to.line;
      first := LineAt(f, []);
      last := LineAt(t, []);
      var firstText := TextOf(texts, first)[..change.from.ch] + change.text[0];
      var lastText := Last(change.text) + TextOf(texts, last)[change.to.ch..];
      SetLine(first, firstText, ss0, estimate, f, []);
      ghost var lines1, texts1 := tree.lines, texts;
      SetLine(last, lastText, ss1, estimate, t, []);
      TouchedBoth(old(tree.lines), old(texts), lines1, texts1, tree.lines, texts, {first}, {last}, estimate);
      assert {first} + {last} == {first, last};
    }

    /** The spans of a line. */
    method SpansAt(n: int) returns (ss: seq<Span>)
      requires Valid() && 0 <= n < |lines|
      ensures ss == RowSpans(Rows())[n]
    {
      hide Inv, Sound, Fresh;
      var l := LineAt(n, []);
      ss := SpansOf(spans, l);
    }

    /** Where a marker is, found by walking the lines that the marker itself lists, in any order. */
    method FindMarker(m: Marker, ghost p: Pos, ghost q: Pos) returns (from: Pos, to: Pos)
      requires Valid() && Marks(RowSpans(Rows()), m, p, q)
      ensures from == p && to == q
    {
      hide Inv, Sound, Fresh, Marks, SpanFor;
      RootIsThere(tree.V());
      OwnAreLines(tree.V(), Ids(), tree.lines.Keys, texts, spans, owned, nextLine, m, p, q);
      from, to := WalkLines(Owned(owned, m), m, p, q);
    }

    method WalkLines(own: seq<Ref>, m: Marker, ghost p: Pos, ghost q: Pos) returns (from: Pos, to: Pos)
      requires tree.Valid() && NoRepeats(Ids()) && 0 <= p.line <= q.line < |Ids()| && Ids()[p.line] in own
               && Ids()[q.line] in own
      requires forall l :: l in own ==> l in Ids() && l in tree.lines && SpanFor(SpansOf(spans, l), m).Some?
      requires forall n :: 0 <= n < |Ids()| ==> SpanFor(SpansOf(spans, Ids()[n]), m) == SpanAt(m, p, q, n)
      ensures from == p && to == q
    {
      hide Inv, SpanFor, SpanAt, NoRepeats;
      from, to := Pos(-1, -1), Pos(-1, -1);
      ghost var ids := Ids();
      for i := 0 to |own|
        invariant ids[p.line] in own[..i] ==> from == p
        invariant ids[q.line] in own[..i] ==> to == q
      {
        var l := own[i];
        assert own[..i + 1] == own[..i] + [l];
        var no, found := SpanOn(l, m);
        EndsOfSpan(ids, m, p, q, no, l);
        if found.from.At? {
          from := Pos(no, found.from.ch);
        }
        if found.to.At? {
          to := Pos(no, found.to.ch);
        }
      }
      assert own[..|own|] == own;
    }

    /** The number of a line, and the marker's span there. */
    method SpanOn(l: Ref, m: Marker) returns (no: int, s: Span)
      requires tree.Valid() && l in Ids() && l in tree.lines && SpanFor(SpansOf(spans, l), m).Some?
      ensures 0 <= no < |Ids()| && Ids()[no] == l && s == SpanFor(SpansOf(spans, l), m).span
    {
      hide Inv, SpanFor;
      RootIsThere(tree.V());
      no := tree.LineNo(l);
      s := SpanFor(SpansOf(spans, l), m).span;
    }
  }

  // ----- the middle of a change -----

  /** The lines of the new text, with what is left of the first and the last old line. */
  function MidTexts(d: Lines, c: Change): (r: seq<string>)
    requires ValidChange(d, c)
    ensures |r| == |c.text|
  {
    var pre, post := d[c.from.line][..c.from.ch], d[c.to.line][c.to.ch..];
    if |c.text| == 1 then [pre + c.text[0] + post]
    else [pre + c.text[0]] + c.text[1..|c.text| - 1] + [Last(c.text) + post]
  }

  lemma ApplyIsMiddle(d: Lines, c: Change)
    requires ValidChange(d, c)
    ensures Apply(d, c) == d[..c.from.line] + MidTexts(d, c) + d[c.to.line + 1..]
  {
  }

  function LineDiff(c: Change): int {
    |c.text| - (c.to.line - c.from.line) - 1
  }

  predicate IsWholeLineUpdate(c: Change, wholeLineUpdateBefore: bool) {
    c.from.ch == 0 && c.to.ch == 0 && Last(c.text) == "" && wholeLineUpdateBefore
  }

  /** A change that stays within one line. */
  predicate InLine(c: Change, full: bool, wholeLineUpdateBefore: bool) {
    !full && c.from.line == c.to.line && |c.text| == 1 && !IsWholeLineUpdate(c, wholeLineUpdateBefore)
  }

  /** The rows between the change's lines are replaced, with the line objects `mids`. */
  ghost predicate Placed(rows: seq<Row>, rows': seq<Row>, d: seq<string>, c: Change, mids: seq<Ref>,
                         marked: seq<seq<Span>>) {
    && |d| > 0 && |rows| == |d| && ValidChange(d, c) && |mids| == |c.text| == |marked|
    && rows' == rows[..c.from.line] + Zip(mids, MidTexts(d, c), marked) + rows[c.to.line + 1..]
  }

  lemma BetweenLines(d: Lines, p: Pos, q: Pos)
    requires ValidPos(d, p) && ValidPos(d, q) && Leq(p, q)
    ensures forall n :: p.line <= n <= q.line ==>
              Text.Between(d, p, q)[n - p.line] == CutLine(d[n], n, p, q)
  {
  }

  /** The part of line `n` that lies between two positions. */
  function CutLine(line: string, n: int, p: Pos, q: Pos): string
    requires n == p.line ==> 0 <= p.ch <= |line| && (n == q.line ==> p.ch <= q.ch)
    requires n == q.line ==> 0 <= q.ch <= |line|
  {
    var head := if n == q.line then line[..q.ch] else line;
    if n == p.line then head[p.ch..] else head
  }

  lemma FullMiddle(d: Lines, c: Change)
    requires ValidChange(d, c) && c.from == Pos(0, 0) && c.to == EndOf(d)
    ensures MidTexts(d, c) == c.text
  {
    var pre, post := d[0][..0], Last(d)[|Last(d)|..];
    assert pre == "" && post == "";
    assert pre + c.text[0] == c.text[0] && Last(c.text) + post == Last(c.text);
  }

  lemma WholeMiddle(d: Lines, c: Change)
    requires ValidChange(d, c) && IsWholeLineUpdate(c, true)
    ensures MidTexts(d, c) == c.text[..|c.text| - 1] + [d[c.to.line]]
  {
    var pre, post := d[c.from.line][..0], d[c.to.line][0..];
    assert pre == "" && post == d[c.to.line] && Last(c.text) + post == post && pre + c.text[0] == c.text[0];
  }

  // ----- rows -----

  lemma AllReplaced(rows: seq<Row>, mid: seq<Row>)
    ensures var r := rows[..0] + mid + rows[0..];
            r[..|mid|] + r[|mid| + |rows|..] == rows[..0] + mid + rows[|rows|..]
  {
  }

  lemma LinesTakenOut(rows: seq<Row>, at: int, n: int)
    requires 0 <= at && 0 <= n && at + n <= |rows|
    ensures n == 0 ==> rows[..at] + rows[at + n..] == rows
  {
  }

  lemma Swapped(rows: seq<Row>, at: int, n: int, new0: seq<Row>)
    requires 0 <= at && 0 <= n && at + n <= |rows|
    ensures var r := rows[..at] + rows[at + n..];
            && r[..at] + new0 + r[at..] == rows[..at] + new0 + rows[at + n..]
            && (new0 == [] ==> r == rows[..at] + new0 + rows[at + n..])
  {
  }

  lemma WholeReplaced(rows: seq<Row>, f: int, t: int, mid: seq<Row>, row: Row)
    requires 0 <= f <= t < |rows|
    ensures rows[t := row][..f] + mid + rows[t := row][f + (t - f)..] == rows[..f] + (mid + [row]) + rows[t + 1..]
  {
    assert rows[t := row][t..] == [row] + rows[t + 1..];
  }

  lemma OneReplaced(rows: seq<Row>, f: int, row: Row)
    requires 0 <= f < |rows|
    ensures rows[f := row] == rows[..f] + [row] + rows[f + 1..]
  {
  }

  lemma MoreReplaced(rows: seq<Row>, f: int, row: Row, more: seq<Row>)
    requires 0 <= f < |rows|
    ensures var r := rows[f := row]; r[..f + 1] + more + r[f + 1..] == rows[..f] + ([row] + more) + rows[f + 1..]
  {
    var r := rows[f := row];
    assert r[..f + 1] == rows[..f] + [row] && r[f + 1..] == rows[f + 1..];
  }

  lemma JoinReplaced(rows: seq<Row>, f: int, t: int, row: Row)
    requires 0 <= f < t < |rows|
    ensures var r := rows[f := row]; r[..f + 1] + r[f + 1 + (t - f)..] == rows[..f] + [row] + rows[t + 1..]
  {
  }

  lemma EndsReplaced(rows: seq<Row>, f: int, t: int, a: Row, b: Row, more: seq<Row>)
    requires 0 <= f < t < |rows|
    ensures var u := rows[f := a][t := b];
            u[..f + 1] + more + u[f + 1 + (t - f - 1)..] == rows[..f] + ([a] + more + [b]) + rows[t + 1..]
  {
    var u := rows[f := a][t := b];
    assert u[..f + 1] == rows[..f] + [a] && u[t..] == [b] + rows[t + 1..];
  }

  lemma ZipLast(ids: seq<Ref>, last: Ref, ts: seq<string>, text: string, sss: seq<seq<Span>>)
    requires |ids| == |ts| && |sss| == |ids| + 1
    ensures Zip(ids + [last], ts + [text], sss) == Zip(ids, ts, sss[..|ids|]) + [Row(last, text, sss[|ids|])]
  {
  }

  lemma ZipFirst(first: Ref, ids: seq<Ref>, text: string, ts: seq<string>, sss: seq<seq<Span>>)
    requires |ids| == |ts| && |sss| == |ids| + 1
    ensures Zip([first] + ids, [text] + ts, sss) == [Row(first, text, sss[0])] + Zip(ids, ts, sss[1..])
  {
  }

  lemma ZipEnds(first: Ref, ids: seq<Ref>, last: Ref, t0: string, ts: seq<string>, t1: string, sss: seq<seq<Span>>)
    requires |ids| == |ts| && |sss| == |ids| + 2
    ensures Zip([first] + ids + [last], [t0] + ts + [t1], sss)
         == [Row(first, t0, sss[0])] + Zip(ids, ts, sss[1..|ids| + 1]) + [Row(last, t1, sss[|ids| + 1])]
  {
    hide Zip;
    var n := |ids| + 1;
    ZipOne(first, t0, sss[0]);
    ZipOne(last, t1, sss[n]);
    assert sss == [sss[0]] + sss[1..n] + [sss[n]];
    ZipConcat([first], ids, [t0], ts, [sss[0]], sss[1..n]);
    ZipConcat([first] + ids, [last], [t0] + ts, [t1], [sss[0]] + sss[1..n], [sss[n]]);
  }

  lemma ZipOne(l: Ref, t: string, ss: seq<Span>)
    ensures Zip([l], [t], [ss]) == [Row(l, t, ss)]
  {
  }

  lemma ZipConcat(a: seq<Ref>, b: seq<Ref>, s: seq<string>, t: seq<string>, u: seq<seq<Span>>, w: seq<seq<Span>>)
    requires |a| == |s| == |u| && |b| == |t| == |w|
    ensures Zip(a + b, s + t, u + w) == Zip(a, s, u) + Zip(b, t, w)
  {
  }

  lemma PlacedWhole(rows: seq<Row>, rows': seq<Row>, d: seq<string>, c: Change, added: seq<Ref>, last: Ref,
                    marked: seq<seq<Span>>)
    requires |d| > 0 && |rows| == |d| && ValidChange(d, c) && IsWholeLineUpdate(c, true)
    requires |marked| == |c.text| == |added| + 1
    requires var f, t, n := c.from.line, c.to.line, |added|;
             var u := rows[t := Row(last, d[t], marked[n])];
             rows' == u[..f] + Zip(added, c.text[..n], marked[..n]) + u[f + (t - f)..]
    ensures Placed(rows, rows', d, c, added + [last], marked)
  {
    hide Zip, MidTexts;
    var f, t, n := c.from.line, c.to.line, |added|;
    WholeMiddle(d, c);
    WholeReplaced(rows, f, t, Zip(added, c.text[..n], marked[..n]), Row(last, d[t], marked[n]));
    ZipLast(added, last, c.text[..n], d[t], marked);
  }

  lemma PlacedOne(rows: seq<Row>, d: seq<string>, c: Change, l: Ref, marked: seq<seq<Span>>)
    requires |d| > 0 && |rows| == |d| && ValidChange(d, c) && c.from.line == c.to.line && |marked| == |c.text| == 1
    ensures var f := c.from.line;
            var row := Row(l, d[f][..c.from.ch] + Last(c.text) + d[f][c.to.ch..], marked[0]);
            Placed(rows, rows[f := row], d, c, [l], marked)
  {
    var f := c.from.line;
    OneReplaced(rows, f, Row(l, d[f][..c.from.ch] + Last(c.text) + d[f][c.to.ch..], marked[0]));
  }

  lemma PlacedMore(rows: seq<Row>, d: seq<string>, c: Change, l: Ref, added: seq<Ref>, marked: seq<seq<Span>>)
    requires |d| > 0 && |rows| == |d| && ValidChange(d, c) && c.from.line == c.to.line
    requires |marked| == |c.text| == |added| + 1 && |c.text| > 1
    ensures var f, n := c.from.line, |c.text|;
            var more := c.text[1..n - 1] + [Last(c.text) + d[f][c.to.ch..]];
            var u := rows[f := Row(l, d[f][..c.from.ch] + c.text[0], marked[0])];
            Placed(rows, u[..f + 1] + Zip(added, more, marked[1..]) + u[f + 1..], d, c, [l] + added, marked)
  {
    hide Zip;
    var f, n := c.from.line, |c.text|;
    var text, more := d[f][..c.from.ch] + c.text[0], c.text[1..n - 1] + [Last(c.text) + d[f][c.to.ch..]];
    assert MidTexts(d, c) == [text] + more;
    hide MidTexts;
    MoreReplaced(rows, f, Row(l, text, marked[0]), Zip(added, more, marked[1..]));
    ZipFirst(l, added, text, more, marked);
  }

  lemma PlacedJoin(rows: seq<Row>, d: seq<string>, c: Change, first: Ref, marked: seq<seq<Span>>)
    requires |d| > 0 && |rows| == |d| && ValidChange(d, c) && c.from.line < c.to.line && |marked| == |c.text| == 1
    ensures var f, t := c.from.line, c.to.line;
            var row := Row(first, d[f][..c.from.ch] + c.text[0] + d[t][c.to.ch..], marked[0]);
            var u := rows[f := row];
            Placed(rows, u[..f + 1] + u[f + 1 + (t - f)..], d, c, [first], marked)
  {
    var f, t := c.from.line, c.to.line;
    JoinReplaced(rows, f, t, Row(first, d[f][..c.from.ch] + c.text[0] + d[t][c.to.ch..], marked[0]));
  }

  lemma PlacedEnds(rows: seq<Row>, rows': seq<Row>, d: seq<string>, c: Change, first: Ref, added: seq<Ref>, last: Ref,
                   marked: seq<seq<Span>>)
    requires |d| > 0 && |rows| == |d| && ValidChange(d, c) && c.from.line < c.to.line
    requires |marked| == |c.text| == |added| + 2
    requires var f, t, n := c.from.line, c.to.line, |added| + 1;
             var a := Row(first, d[f][..c.from.ch] + c.text[0], marked[0]);
             var b := Row(last, Last(c.text) + d[t][c.to.ch..], marked[n]);
             var u := rows[f := a][t := b];
             rows' == u[..f + 1] + Zip(added, c.text[1..n], marked[1..n]) + u[f + 1 + (t - f - 1)..]
    ensures Placed(rows, rows', d, c, [first] + added + [last], marked)
  {
    var f, t, n := c.from.line, c.to.line, |added| + 1;
    var t0, t1, more := d[f][..c.from.ch] + c.text[0], Last(c.text) + d[t][c.to.ch..], c.text[1..n];
    assert MidTexts(d, c) == [t0] + more + [t1];
    EndsReplaced(rows, f, t, Row(first, t0, marked[0]), Row(last, t1, marked[n]), Zip(added, more, marked[1..n]));
    ZipEnds(first, added, last, t0, more, t1, marked);
    hide Zip, MidTexts;
  }

  /** What a placed change means for the texts, the spans and the line objects. */
  lemma RowsReplaced(rows: seq<Row>, rows': seq<Row>, d: seq<string>, c: Change, mids: seq<Ref>, marked: seq<seq<Span>>)
    requires Placed(rows, rows', d, c, mids, marked) && d == Texts(rows)
    ensures Texts(rows') == Apply(d, c)
    ensures RowSpans(rows') == RowSpans(rows)[..c.from.line] + marked + RowSpans(rows)[c.to.line + 1..]
    ensures RowIds(rows') == RowIds(rows)[..c.from.line] + mids + RowIds(rows)[c.to.line + 1..]
    ensures ViewModel.Replaces(RowIds(rows), RowIds(rows'), c.from.line, c.to.line + 1, LineDiff(c))
  {
    hide Apply, MidTexts;
    ApplyIsMiddle(d, c);
    PartsOf(rows, rows', d, c, mids, marked);
    IdsReplaced(RowIds(rows), RowIds(rows'), c, mids);
  }

  lemma PartsOf(rows: seq<Row>, rows': seq<Row>, d: seq<string>, c: Change, mids: seq<Ref>, marked: seq<seq<Span>>)
    requires Placed(rows, rows', d, c, mids, marked) && d == Texts(rows)
    ensures Texts(rows') == d[..c.from.line] + MidTexts(d, c) + d[c.to.line + 1..]
    ensures RowSpans(rows') == RowSpans(rows)[..c.from.line] + marked + RowSpans(rows)[c.to.line + 1..]
    ensures RowIds(rows') == RowIds(rows)[..c.from.line] + mids + RowIds(rows)[c.to.line + 1..]
  {
    hide MidTexts;
  }

  lemma IdsReplaced(before: seq<Ref>, doc: seq<Ref>, c: Change, mids: seq<Ref>)
    requires 0 <= c.from.line <= c.to.line < |before| && |mids| == |c.text|
    requires doc == before[..c.from.line] + mids + before[c.to.line + 1..]
    ensures ViewModel.Replaces(before, doc, c.from.line, c.to.line + 1, LineDiff(c))
  {
  }

  lemma IdsOfRows(texts: map<Ref, string>, spans: LineSpans, ids: seq<Ref>)
    ensures RowIds(RowsOf(texts, spans, ids)) == ids
  {
  }

  lemma IdsKept(rows: seq<Row>, f: int, l: Ref)
    requires 0 <= f < |rows| && rows[f].id == l
    ensures RowIds(rows)[..f] + [l] + RowIds(rows)[f + 1..] == RowIds(rows)
  {
  }

  lemma EndsOfSpan(ids: seq<Ref>, m: Marker, p: Pos, q: Pos, no: int, l: Ref)
    requires 0 <= no < |ids| && ids[no] == l && NoRepeats(ids) && 0 <= p.line <= q.line < |ids|
             && SpanAt(m, p, q, no).Some?
    ensures var s := SpanAt(m, p, q, no).span;
            && (s.from.At? <==> l == ids[p.line]) && (s.from.At? ==> Pos(no, s.from.ch) == p)
            && (s.to.At? <==> l == ids[q.line]) && (s.to.At? ==> Pos(no, s.to.ch) == q)
  {
  }

  /** The marker's own lines are the lines of the document that carry it. */
  lemma OwnAreLines(v: View, ids: seq<Ref>, keys: set<Ref>, texts: map<Ref, string>, spans: LineSpans, own: MarkerOwn,
                    next: Ref, m: Marker, p: Pos, q: Pos)
    requires Inv(v) && ids == v.content[v.root] && keys == v.lines.Keys && Sound(ids, keys, texts, spans, own, next, [])
    requires Marks(RowSpans(RowsOf(texts, spans, ids)), m, p, q)
    ensures 0 <= p.line <= q.line < |ids| && ids[p.line] in Owned(own, m) && ids[q.line] in Owned(own, m)
    ensures forall l :: l in Owned(own, m) ==> l in ids && l in v.lines && SpanFor(SpansOf(spans, l), m).Some?
    ensures forall n :: 0 <= n < |ids| ==> SpanFor(SpansOf(spans, ids[n]), m) == SpanAt(m, p, q, n)
  {
    hide Inv, Wired;
    var rows := RowsOf(texts, spans, ids);
    forall n | 0 <= n < |ids|
      ensures SpanFor(SpansOf(spans, ids[n]), m) == SpanAt(m, p, q, n)
    {
      assert RowSpans(rows)[n] == SpansOf(spans, ids[n]);
    }
    ListsItsLines(spans, own, m, ids[p.line]);
    ListsItsLines(spans, own, m, ids[q.line]);
    forall l | l in Owned(own, m)
      ensures l in ids && l in v.lines && SpanFor(SpansOf(spans, l), m).Some?
    {
      assert l !in ids ==> SpansOf(spans, l) == [];
      ListsItsLines(spans, own, m, l);
    }
  }

  lemma RootIsThere(v: View)
    requires Inv(v)
    ensures v.root in v.content && v.root in v.live && Consistent(v, v.content) && NoRepeats(v.content[v.root])
  {
  }

  lemma OneRow(texts: map<Ref, string>, spans: LineSpans, own: MarkerOwn)
    requires texts == map[0 := ""] && spans == map[0 := []] && own == map[]
    ensures Sound([0], {0}, texts, spans, own, 1, []) && Texts(RowsOf(texts, spans, [0])) == [""]
  {
    forall m, l
      ensures Listed(own, m, l) == SpanCount(SpansOf(spans, l), m)
    {
    }
  }

  lemma SoundRow(ids: seq<Ref>, keys: set<Ref>, texts: map<Ref, string>, spans: LineSpans, own: MarkerOwn,
                 next: Ref, pending: seq<Ref>, n: int)
    requires Sound(ids, keys, texts, spans, own, next, pending) && 0 <= n < |ids|
    ensures ids[n] in texts && ids[n] in spans && ids[n] in keys && ids[n] !in pending
  {
    assert ids[n] in ids;
  }

  lemma NeverStops(ls: seq<Ref>, stop: Ref -> bool)
    requires forall l :: !stop(l)
    ensures Visit(ls, stop) == ls && [] + Visit(ls, stop) == ls
  {
    VisitAll(ls, stop);
  }

  lemma SoundSet(ids: seq<Ref>, keys: set<Ref>, texts: map<Ref, string>, spans: LineSpans, own: MarkerOwn,
                 next: Ref, pending: seq<Ref>, l: Ref, text: string)
    requires Sound(ids, keys, texts, spans, own, next, pending) && l in keys
    ensures Sound(ids, keys, texts[l := text], spans, own, next, pending)
  {
  }

  lemma NewIsNew(ids: seq<Ref>, keys: set<Ref>, texts: map<Ref, string>, spans: LineSpans, own: MarkerOwn,
                 next: Ref, pending: seq<Ref>, l: Ref)
    requires Sound(ids, keys, texts, spans, own, next, pending) && l == next
    ensures l !in keys && l !in ids && l !in pending
  {
  }

  lemma SoundNew(ids: seq<Ref>, keys: set<Ref>, texts: map<Ref, string>, spans: LineSpans, own: MarkerOwn,
                 next: Ref, pending: seq<Ref>, text: string)
    requires Sound(ids, keys, texts, spans, own, next, pending) && next !in keys
    ensures Sound(ids, keys + {next}, texts[next := text], spans[next := []], own, next + 1, pending + [next])
  {
    hide Wired;
    var spans' := spans[next := []];
    assert forall x :: SpansOf(spans', x) == SpansOf(spans, x);
    SameSpansWired(spans, spans', own);
    assert forall x :: x in pending + [next] <==> x in pending || x == next;
  }

  lemma SameSpansWired(spans: LineSpans, spans': LineSpans, own: MarkerOwn)
    requires Wired(spans, own) && forall x :: SpansOf(spans', x) == SpansOf(spans, x)
    ensures Wired(spans', own)
  {
    hide Listed, SpanCount;
  }

  lemma FreshMore(v: View, pending: seq<Ref>, l: Ref, h: int)
    requires Fresh(v, pending) && l !in v.lines
    ensures Fresh(v.(lines := v.lines[l := Line(h, Null)]), pending + [l])
  {
    assert l !in pending;
    AddedNoRepeats(pending, l);
  }

  lemma OneRowChanged(ids: seq<Ref>, texts: map<Ref, string>, spans: LineSpans, k: int, text: string, ss: seq<Span>)
    requires NoRepeats(ids) && 0 <= k < |ids|
    ensures RowsOf(texts[ids[k] := text], spans[ids[k] := ss], ids)
            == RowsOf(texts, spans, ids)[k := Row(ids[k], text, ss)]
  {
  }

  lemma RowsOthers(ids: seq<Ref>, texts: map<Ref, string>, spans: LineSpans, l: Ref, text: string, ss: seq<Span>)
    requires l !in ids
    ensures RowsOf(texts[l := text], spans[l := ss], ids) == RowsOf(texts, spans, ids)
  {
  }

  lemma RowsApart(ids: seq<Ref>, texts: map<Ref, string>, spans: LineSpans, l: Ref, text: string, ss: seq<Span>)
    requires l !in ids
    ensures RowsOf(texts[l := text], spans[l := []][l := ss], ids) == RowsOf(texts, spans, ids)
  {
  }

  lemma RowsAppend(texts: map<Ref, string>, spans: LineSpans, ids: seq<Ref>, l: Ref)
    ensures RowsOf(texts, spans, ids + [l]) == RowsOf(texts, spans, ids) + [Row(l, TextOf(texts, l), SpansOf(spans, l))]
  {
  }

  lemma ZipMore(ls: seq<Ref>, ts: seq<string>, sss: seq<seq<Span>>, i: nat)
    requires i < |ts| == |sss| && |ls| == i + 1
    ensures Zip(ls, ts[..i + 1], sss[..i + 1]) == Zip(ls[..i], ts[..i], sss[..i]) + [Row(ls[i], ts[i], sss[i])]
  {
  }

  lemma SoundInserted(ids: seq<Ref>, keys: set<Ref>, texts: map<Ref, string>, spans: LineSpans, own: MarkerOwn,
                      next: Ref, ls: seq<Ref>, at: int)
    requires Sound(ids, keys, texts, spans, own, next, ls) && NoRepeats(ls) && 0 <= at <= |ids|
    ensures Sound(Splice(ids, at, ls), keys, texts, spans, own, next, [])
  {
    hide Wired, NoRepeats;
    SpliceNoRepeats(ids, at, ls);
    assert forall l :: l in Splice(ids, at, ls) <==> l in ids || l in ls by { SpliceHas(ids, at, ls); }
  }

  lemma SpliceHas(ids: seq<Ref>, at: int, ls: seq<Ref>)
    requires 0 <= at <= |ids|
    ensures forall l :: l in Splice(ids, at, ls) <==> l in ids || l in ls
  {
    assert ids == ids[..at] + ids[at..];
  }

  lemma RowsSpliced(texts: map<Ref, string>, spans: LineSpans, ids: seq<Ref>, at: int, ls: seq<Ref>)
    requires 0 <= at <= |ids|
    ensures RowsOf(texts, spans, Splice(ids, at, ls))
         == RowsOf(texts, spans, ids)[..at] + RowsOf(texts, spans, ls) + RowsOf(texts, spans, ids)[at..]
  {
  }

  lemma NothingIsFresh()
    ensures forall v: View :: Fresh(v, [])
  {
  }

  lemma StillFresh(v: View, v': View, ids: seq<Ref>, pending: seq<Ref>)
    requires Fresh(v, pending) && Inv(v) && ids == v.content[v.root]
    requires v'.lines.Keys == v.lines.Keys && forall l :: l in v.lines && l !in ids ==> v'.lines[l] == v.lines[l]
    ensures Fresh(v', pending)
  {
    forall l | l in pending
      ensures l !in ids
    {
      if l in ids {
        LineInLeaf(v, v.root, l);
      }
    }
  }

  lemma SoundRemoved(ids: seq<Ref>, keys: set<Ref>, texts: map<Ref, string>, spans: LineSpans, own: MarkerOwn,
                     next: Ref, pending: seq<Ref>, at: int, n: int)
    requires Sound(ids, keys, texts, spans, own, next, pending) && 0 <= at && 0 <= n < |ids| && at + n <= |ids|
    ensures Sound(Removed(ids, at, n), keys, texts, spans, own, next, ids[at..at + n] + pending)
  {
    RemovedNoRepeats(ids, at, n);
    assert forall l :: l in ids <==> l in Removed(ids, at, n) || l in ids[at..at + n] by { RemovedHas(ids, at, n); }
    hide Wired, NoRepeats, Removed;
  }

  lemma RemovedHas(ids: seq<Ref>, at: int, n: int)
    requires 0 <= at && 0 <= n && at + n <= |ids|
    ensures forall l :: l in ids <==> l in Removed(ids, at, n) || l in ids[at..at + n]
  {
    assert ids == ids[..at] + ids[at..at + n] + ids[at + n..];
  }

  lemma SoundFewer(ids: seq<Ref>, keys: set<Ref>, texts: map<Ref, string>, spans: LineSpans, own: MarkerOwn,
                   next: Ref, pending: seq<Ref>, l: Ref, fewer: seq<Ref>)
    requires Sound(ids, keys, texts, spans, own, next, pending) && SpansOf(spans, l) == []
    requires forall x :: x in pending <==> x == l || x in fewer
    ensures Sound(ids, keys, texts, spans, own, next, fewer)
  {
  }

  lemma RowsRemoved(texts: map<Ref, string>, spans: LineSpans, spans': LineSpans, ids: seq<Ref>, at: int, n: int)
    requires 0 <= at && 0 <= n && at + n <= |ids| && NoRepeats(ids)
    requires forall l :: l !in ids[at..at + n] ==> SpansOf(spans', l) == SpansOf(spans, l)
    ensures RowsOf(texts, spans', Removed(ids, at, n))
            == RowsOf(texts, spans, ids)[..at] + RowsOf(texts, spans, ids)[at + n..]
  {
    hide NoRepeats;
    ApartFromSlice(ids, at, n);
    SameRows(texts, spans, spans', ids[..at]);
    SameRows(texts, spans, spans', ids[at + n..]);
    RowsConcat(texts, spans', ids[..at], ids[at + n..]);
    RowsSlices(texts, spans, ids, at);
    RowsSlices(texts, spans, ids, at + n);
  }

  lemma ApartFromSlice(ids: seq<Ref>, at: int, n: int)
    requires 0 <= at && 0 <= n && at + n <= |ids| && NoRepeats(ids)
    ensures forall l :: l in ids[..at] || l in ids[at + n..] ==> l !in ids[at..at + n]
  {
    assert ids == ids[..at] + ids[at..at + n] + ids[at + n..];
    ApartFromMiddle(ids[..at], ids[at..at + n], ids[at + n..]);
  }

  lemma SameRows(texts: map<Ref, string>, spans: LineSpans, spans': LineSpans, ids: seq<Ref>)
    requires forall l :: l in ids ==> SpansOf(spans', l) == SpansOf(spans, l)
    ensures RowsOf(texts, spans', ids) == RowsOf(texts, spans, ids)
  {
    assert forall i :: 0 <= i < |ids| ==> ids[i] in ids;
  }

  lemma RowsConcat(texts: map<Ref, string>, spans: LineSpans, a: seq<Ref>, b: seq<Ref>)
    ensures RowsOf(texts, spans, a + b) == RowsOf(texts, spans, a) + RowsOf(texts, spans, b)
  {
  }

  lemma RowsSlices(texts: map<Ref, string>, spans: LineSpans, ids: seq<Ref>, at: int)
    requires 0 <= at <= |ids|
    ensures RowsOf(texts, spans, ids[..at]) == RowsOf(texts, spans, ids)[..at]
    ensures RowsOf(texts, spans, ids[at..]) == RowsOf(texts, spans, ids)[at..]
  {
  }

  lemma SoundApart(ids: seq<Ref>, keys: set<Ref>, texts: map<Ref, string>, spans: LineSpans, own: MarkerOwn,
                   next: Ref, pending: seq<Ref>)
    requires Sound(ids, keys, texts, spans, own, next, pending)
    ensures NoRepeats(ids) && |ids| > 0 && forall l :: l in pending ==> l !in ids
  {
  }

  lemma RowsKept(texts: map<Ref, string>, spans: LineSpans, spans': LineSpans, ids: seq<Ref>, at: int, n: int,
                 pending: seq<Ref>)
    requires 0 <= at && 0 <= n && at + n <= |ids| && forall l :: l in pending ==> l !in ids
    requires forall l :: l !in ids[at..at + n] ==> SpansOf(spans', l) == SpansOf(spans, l)
    ensures RowsOf(texts, spans', pending) == RowsOf(texts, spans, pending)
  {
    assert forall i :: 0 <= i < |pending| ==> pending[i] in pending;
    assert forall l :: l in ids[at..at + n] ==> l in ids;
  }
}
