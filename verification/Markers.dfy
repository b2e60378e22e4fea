/** Marker spans: how a change cuts, joins and moves the spans of the lines it touches. */
module Markers {
  import opened Text
  import opened Changes
  import opened SelectionModel

  datatype Marker = Marker(
    id: nat,
    inclusiveLeft: bool,
    inclusiveRight: bool,
    bookmark: bool,
    insertLeft: bool,
    clearWhenEmpty: bool)

  /** An end of a span: at an offset, or open towards the neighbouring line. */
  datatype End = Open | At(ch: int)

  datatype Span = Span(marker: Marker, from: End, to: End)

  datatype Maybe = None | Some(span: Span)

  /** The span of a marker in a line. */
  function SpanFor(spans: seq<Span>, m: Marker): (r: Maybe)
    ensures r.Some? ==> r.span.marker == m
  {
    if spans == [] then None else if spans[0].marker == m then Some(spans[0]) else SpanFor(spans[1..], m)
  }

  /** A line has at most one span for a marker. */
  predicate Distinct(spans: seq<Span>) {
    forall i, j :: 0 <= i < j < |spans| ==> spans[i].marker != spans[j].marker
  }

  predicate Carries(spans: seq<Span>, m: Marker) {
    exists i :: 0 <= i < |spans| && spans[i].marker == m
  }

  lemma {:induction false} NotCarried(spans: seq<Span>, m: Marker)
    ensures SpanFor(spans, m).None? <==> !Carries(spans, m)
  {
    if spans != [] {
      var rest := spans[1..];
      NotCarried(rest, m);
      assert forall i :: 0 <= i < |rest| ==> rest[i] == spans[i + 1];
      assert forall i :: 0 < i < |spans| ==> spans[i] == rest[i - 1];
    }
  }

  lemma {:induction false} SpanForConcat(a: seq<Span>, b: seq<Span>, m: Marker)
    ensures SpanFor(a + b, m) == if SpanFor(a, m).Some? then SpanFor(a, m) else SpanFor(b, m)
  {
    if a == [] {
      assert a + b == b;
    } else {
      assert (a + b)[1..] == a[1..] + b;
      SpanForConcat(a[1..], b, m);
    }
  }

  // ----- transforming a list of spans -----

  /** Replaces every span by none or one of the same marker. */
  function Each(spans: seq<Span>, f: Span -> Maybe): seq<Span> {
    if spans == [] then []
    else
      var n := |spans| - 1;
      Each(spans[..n], f) + (match f(spans[n]) case None => [] case Some(s) => [s])
  }

  ghost predicate KeepsMarkers(f: Span -> Maybe) {
    forall s :: f(s).Some? ==> f(s).span.marker == s.marker
  }

  function Mapped(s: Maybe, f: Span -> Maybe): Maybe {
    match s
    case None => None
    case Some(t) => f(t)
  }

  /** At most one span of the marker. */
  predicate Once(spans: seq<Span>, m: Marker) {
    forall i, j :: 0 <= i < j < |spans| ==> !(spans[i].marker == m && spans[j].marker == m)
  }

  lemma OncePrefix(spans: seq<Span>, m: Marker, n: nat)
    requires Once(spans, m) && n <= |spans|
    ensures Once(spans[..n], m)
  {
  }

  lemma {:induction false} SpanForEach(spans: seq<Span>, f: Span -> Maybe, m: Marker)
    requires Once(spans, m) && KeepsMarkers(f)
    ensures SpanFor(Each(spans, f), m) == Mapped(SpanFor(spans, m), f) && Once(Each(spans, f), m)
    decreases |spans|
  {
    if spans != [] {
      var n := |spans| - 1;
      var init, last := spans[..n], spans[n];
      OncePrefix(spans, m, n);
      SpanForEach(init, f, m);
      assert init + [last] == spans;
      SpanForConcat(init, [last], m);
      assert [last][1..] == [];
      NotCarried(init, m);
      NotCarried(Each(init, f), m);
      assert last.marker == m ==> !Carries(init, m);
      match f(last) {
        case None =>
          assert Each(init, f) + [] == Each(init, f);
        case Some(s) =>
          SpanForConcat(Each(init, f), [s], m);
          assert [s][1..] == [];
          OnceMore(Each(init, f), s, m);
      }
    }
  }

  lemma OnceMore(spans: seq<Span>, s: Span, m: Marker)
    requires Once(spans, m) && (s.marker == m ==> !Carries(spans, m))
    ensures Once(spans + [s], m)
  {
  }

  lemma OnceJoined(a: seq<Span>, b: seq<Span>, m: Marker)
    requires Once(a, m) && Once(b, m) && (SpanFor(a, m).None? || SpanFor(b, m).None?)
    ensures Once(a + b, m)
  {
    NotCarried(a, m);
    NotCarried(b, m);
    var c := a + b;
    forall i, j | 0 <= i < j < |c|
      ensures !(c[i].marker == m && c[j].marker == m)
    {
      assert i < |a| ==> c[i] == a[i];
      assert j < |a| ==> c[j] == a[j];
      assert i >= |a| ==> c[i] == b[i - |a|];
      assert j >= |a| ==> c[j] == b[j - |a|];
    }
  }

  lemma DistinctIsOnce(spans: seq<Span>, m: Marker)
    requires Distinct(spans)
    ensures Once(spans, m)
  {
  }

  // ----- the cuts at both ends of a change -----

  predicate StartsBefore(s: Span, ch: int) {
    s.from.Open? || (if s.marker.inclusiveLeft then s.from.ch <= ch else s.from.ch < ch)
  }

  predicate EndsAfter(s: Span, ch: int) {
    s.to.Open? || (if s.marker.inclusiveRight then s.to.ch >= ch else s.to.ch > ch)
  }

  function CutBefore(s: Span, startCh: int, isInsert: bool): Maybe {
    if StartsBefore(s, startCh) || (s.from == At(startCh) && s.marker.bookmark && (!isInsert || !s.marker.insertLeft))
    then Some(Span(s.marker, s.from, if EndsAfter(s, startCh) then Open else s.to))
    else None
  }

  function Shift(e: End, d: int): End {
    match e
    case Open => Open
    case At(ch) => At(ch + d)
  }

  function CutAfter(s: Span, endCh: int, isInsert: bool): Maybe {
    if EndsAfter(s, endCh) || (s.from == At(endCh) && s.marker.bookmark && (!isInsert || s.marker.insertLeft))
    then Some(Span(s.marker, if StartsBefore(s, endCh) then Open else Shift(s.from, -endCh), Shift(s.to, -endCh)))
    else None
  }

  /** The part before the change is closed, or gets the end of the part behind it. */
  function FixFirst(s: Span, last: seq<Span>, startCh: int, sameLine: bool, offset: int): Span {
    if s.to.At? then s
    else
      match SpanFor(last, s.marker)
      case None => s.(to := At(startCh))
      case Some(found) => if sameLine then s.(to := Shift(found.to, offset)) else s
  }

  /** The part behind the change moves to where the change ends. */
  function FixLast(s: Span, first: seq<Span>, offset: int): Span {
    Span(s.marker,
         if s.from.At? then Shift(s.from, offset) else if SpanFor(first, s.marker).None? then At(offset) else Open,
         Shift(s.to, offset))
  }

  /** On one line, parts that are only behind the change join the parts before it. */
  predicate Joins(s: Span, first: seq<Span>, sameLine: bool) {
    sameLine && (s.from.At? || SpanFor(first, s.marker).None?)
  }

  predicate IsEmpty(s: Span) {
    s.from.At? && s.from == s.to && s.marker.clearWhenEmpty
  }

  function BeforeSpans(old0: seq<Span>, startCh: int, isInsert: bool): seq<Span> {
    Each(old0, s => CutBefore(s, startCh, isInsert))
  }

  function AfterSpans(old0: seq<Span>, endCh: int, isInsert: bool): seq<Span> {
    Each(old0, s => CutAfter(s, endCh, isInsert))
  }

  function FixedFirst(first: seq<Span>, last: seq<Span>, startCh: int, sameLine: bool, offset: int): seq<Span> {
    Each(first, s => Some(FixFirst(s, last, startCh, sameLine, offset)))
  }

  function FixedLast(last: seq<Span>, first: seq<Span>, offset: int): seq<Span> {
    Each(last, s => Some(FixLast(s, first, offset)))
  }

  function Joining(last: seq<Span>, first: seq<Span>, sameLine: bool, offset: int): seq<Span> {
    Each(last, s => if Joins(s, first, sameLine) then Some(FixLast(s, first, offset)) else None)
  }

  function WithoutEmpty(spans: seq<Span>): seq<Span> {
    Each(spans, s => if IsEmpty(s) then None else Some(s))
  }

  /** Whole lines between the two ends. */
  function GapSpans(first: seq<Span>): seq<Span> {
    Each(first, (s: Span) => if s.to.Open? then Some(Span(s.marker, Open, Open)) else None)
  }

  /** The spans of each line of the inserted text. */
  function Stretched(oldFirst: seq<Span>, oldLast: seq<Span>, c: Change): (r: seq<seq<Span>>)
    ensures |r| == |c.text|
  {
    var startCh, endCh, isInsert := c.from.ch, c.to.ch, Cmp(c.from, c.to) == 0;
    var sameLine, offset := |c.text| == 1, ChangeEnd(c).ch;
    var b, a := BeforeSpans(oldFirst, startCh, isInsert), AfterSpans(oldLast, endCh, isInsert);
    var first := FixedFirst(b, a, startCh, sameLine, offset);
    var first', last := WithoutEmpty(first + Joining(a, first, sameLine, offset)),
      WithoutEmpty(FixedLast(a, first, offset));
    if sameLine then [first'] else [first'] + Copies(GapSpans(first'), |c.text| - 2) + [last]
  }

  function Copies(spans: seq<Span>, n: nat): (r: seq<seq<Span>>)
    ensures |r| == n && forall i :: 0 <= i < n ==> r[i] == spans
  {
    seq(n, i => spans)
  }

  // ----- the loops -----

  lemma EachStep(spans: seq<Span>, i: nat, f: Span -> Maybe)
    requires i < |spans|
    ensures Each(spans[..i + 1], f) == Each(spans[..i], f) + (match f(spans[i]) case None => [] case Some(s) => [s])
  {
    assert spans[..i + 1][..i] == spans[..i];
  }

  /** Collects what `f` makes of each span. */
  method Collect(spans: seq<Span>, f: Span -> Maybe) returns (r: seq<Span>)
    ensures r == Each(spans, f)
  {
    r := [];
    for i := 0 to |spans|
      invariant r == Each(spans[..i], f)
    {
      EachStep(spans, i, f);
      match f(spans[i]) {
        case None =>
        case Some(s) => r := r + [s];
      }
    }
    assert spans[..|spans|] == spans;
  }

  /** Moves the parts behind the change; on one line, those that are only behind it are added to the
      parts before it. */
  method FixLastParts(last: seq<Span>, first0: seq<Span>, sameLine: bool, offset: int)
    returns (first: seq<Span>, last': seq<Span>)
    ensures (forall m :: Once(last, m)) ==>
              first == first0 + Joining(last, first0, sameLine, offset) && last' == FixedLast(last, first0, offset)
  {
    first, last' := first0, [];
    assert first0 + [] == first0;
    ghost var once := forall m :: Once(last, m);
    for i := 0 to |last|
      invariant once ==> first == first0 + Joining(last[..i], first0, sameLine, offset)
      invariant once ==> last' == FixedLast(last[..i], first0, offset)
    {
      var span := last[i];
      if once {
        PushedOthers(last, i, first0, sameLine, offset);
        SpanForConcat(first0, Joining(last[..i], first0, sameLine, offset), span.marker);
        EachStep(last, i, s => if Joins(s, first0, sameLine) then Some(FixLast(s, first0, offset)) else None);
        EachStep(last, i, s => Some(FixLast(s, first0, offset)));
      }
      span := span.(to := Shift(span.to, offset));
      if span.from.Open? {
        if SpanFor(first, span.marker).None? {
          span := span.(from := At(offset));
          if sameLine {
            first := first + [span];
          }
        }
      } else {
        span := span.(from := Shift(span.from, offset));
        if sameLine {
          first := first + [span];
        }
      }
      last' := last' + [span];
    }
    assert last[..|last|] == last;
  }

  /** The spans added so far belong to other markers. */
  lemma PushedOthers(last: seq<Span>, i: nat, first: seq<Span>, sameLine: bool, offset: int)
    requires i < |last| && Once(last, last[i].marker)
    ensures SpanFor(Joining(last[..i], first, sameLine, offset), last[i].marker).None?
  {
    var f := s => if Joins(s, first, sameLine) then Some(FixLast(s, first, offset)) else None;
    OncePrefix(last, last[i].marker, i);
    SpanForEach(last[..i], f, last[i].marker);
    NotCarried(last[..i], last[i].marker);
    assert forall k :: 0 <= k < i ==> last[..i][k] == last[k];
  }

  /** The new spans of the lines of a change, from the spans of its first and its last old line. */
  method StretchSpansOverChange(oldFirst: seq<Span>, oldLast: seq<Span>, c: Change) returns (r: seq<seq<Span>>)
    ensures |r| == |c.text| && (Distinct(oldLast) ==> r == Stretched(oldFirst, oldLast, c))
  {
    var startCh, endCh, isInsert := c.from.ch, c.to.ch, Cmp(c.from, c.to) == 0;
    var sameLine := |c.text| == 1;
    var offset := |Last(c.text)| + if sameLine then startCh else 0;
    var first := Collect(oldFirst, s => CutBefore(s, startCh, isInsert));
    var last := Collect(oldLast, s => CutAfter(s, endCh, isInsert));
    forall m | Distinct(oldLast)
      ensures Once(last, m)
    {
      DistinctIsOnce(oldLast, m);
      SpanForEach(oldLast, s => CutAfter(s, endCh, isInsert), m);
    }
    first := Collect(first, s => Some(FixFirst(s, last, startCh, sameLine, offset)));
    first, last := FixLastParts(last, first, sameLine, offset);
    first := Collect(first, s => if IsEmpty(s) then None else Some(s));
    last := Collect(last, s => if IsEmpty(s) then None else Some(s));
    r := [first];
    if !sameLine {
      var gap := Collect(first, (s: Span) => if s.to.Open? then Some(Span(s.marker, Open, Open)) else None);
      r := r + Copies(gap, |c.text| - 2) + [last];
    }
  }

  // ----- one marker -----

  /** What becomes of one marker, from its parts before and behind the change. */
  function FirstPart(b: Maybe, a: Maybe, startCh: int, sameLine: bool, offset: int): Maybe {
    match b
    case Some(s) =>
      Some(if s.to.At? then s
           else if a.None? then s.(to := At(startCh))
           else if sameLine then s.(to := Shift(a.span.to, offset))
           else s)
    case None =>
      if a.Some? && sameLine
      then Some(Span(a.span.marker, if a.span.from.At? then Shift(a.span.from, offset) else At(offset),
        Shift(a.span.to, offset)))
      else None
  }

  function LastPart(b: Maybe, a: Maybe, offset: int): Maybe {
    match a
    case None => None
    case Some(s) =>
      Some(Span(s.marker, if s.from.At? then Shift(s.from, offset) else if b.None? then At(offset) else Open,
        Shift(s.to, offset)))
  }

  function NotEmpty(s: Maybe): Maybe {
    if s.Some? && IsEmpty(s.span) then None else s
  }

  /** The stretching treats each marker on its own, if it is not on both sides of a change in one
      line with a gap between. */
  lemma StretchedFor(oldFirst: seq<Span>, oldLast: seq<Span>, c: Change, m: Marker, b: Maybe, a: Maybe)
    requires Distinct(oldFirst) && Distinct(oldLast)
    requires b == Mapped(SpanFor(oldFirst, m), s => CutBefore(s, c.from.ch, Cmp(c.from, c.to) == 0))
    requires a == Mapped(SpanFor(oldLast, m), s => CutAfter(s, c.to.ch, Cmp(c.from, c.to) == 0))
    requires b.Some? && a.Some? ==> a.span.from.Open?
    ensures var sameLine, offset := |c.text| == 1, ChangeEnd(c).ch;
            var r, first := Stretched(oldFirst, oldLast, c), NotEmpty(FirstPart(b, a, c.from.ch, sameLine, offset));
            && SpanFor(r[0], m) == first
            && (!sameLine ==> SpanFor(r[|r| - 1], m) == NotEmpty(LastPart(b, a, offset)))
            && forall i :: 0 < i < |r| - 1 ==> SpanFor(r[i], m) == GapPart(first, m)
  {
    hide Each, SpanFor, CutBefore, CutAfter, FixFirst, FixLast, WithoutEmpty, GapSpans, BeforeSpans, AfterSpans;
    var startCh, endCh, isInsert := c.from.ch, c.to.ch, Cmp(c.from, c.to) == 0;
    var sameLine, offset := |c.text| == 1, ChangeEnd(c).ch;
    var bs, xs := BeforeSpans(oldFirst, startCh, isInsert), AfterSpans(oldLast, endCh, isInsert);
    CutsFor(oldFirst, oldLast, startCh, endCh, isInsert, m);
    var first := FixedFirst(bs, xs, startCh, sameLine, offset);
    FixedFor(bs, xs, startCh, sameLine, offset, m);
    JoinedFor(xs, first, sameLine, offset, m);
    var joined := first + Joining(xs, first, sameLine, offset);
    ClearedFor(joined, m);
    FixedLastFor(xs, first, offset, m);
    ClearedFor(FixedLast(xs, first, offset), m);
    GapFor(WithoutEmpty(joined), m);
  }

  function GapPart(first: Maybe, m: Marker): Maybe {
    if first.Some? && first.span.to.Open? then Some(Span(m, Open, Open)) else None
  }

  lemma CutsFor(oldFirst: seq<Span>, oldLast: seq<Span>, startCh: int, endCh: int, isInsert: bool, m: Marker)
    requires Distinct(oldFirst) && Distinct(oldLast)
    ensures var b, a := BeforeSpans(oldFirst, startCh, isInsert), AfterSpans(oldLast, endCh, isInsert);
            && SpanFor(b, m) == Mapped(SpanFor(oldFirst, m), s => CutBefore(s, startCh, isInsert))
            && SpanFor(a, m) == Mapped(SpanFor(oldLast, m), s => CutAfter(s, endCh, isInsert))
            && Once(b, m) && Once(a, m)
  {
    SpanForEach(oldFirst, s => CutBefore(s, startCh, isInsert), m);
    SpanForEach(oldLast, s => CutAfter(s, endCh, isInsert), m);
  }

  lemma FixedFor(b: seq<Span>, a: seq<Span>, startCh: int, sameLine: bool, offset: int, m: Marker)
    requires Once(b, m)
    ensures var first := FixedFirst(b, a, startCh, sameLine, offset);
            && Once(first, m)
            && SpanFor(first, m) == (if SpanFor(b, m).None? then None
              else FirstPart(SpanFor(b, m), SpanFor(a, m), startCh, sameLine, offset))
  {
    SpanForEach(b, s => Some(FixFirst(s, a, startCh, sameLine, offset)), m);
  }

  lemma JoinedFor(a: seq<Span>, first: seq<Span>, sameLine: bool, offset: int, m: Marker)
    requires Once(a, m) && Once(first, m)
    requires SpanFor(first, m).Some? && SpanFor(a, m).Some? ==> SpanFor(a, m).span.from.Open?
    ensures Once(first + Joining(a, first, sameLine, offset), m)
    ensures SpanFor(first + Joining(a, first, sameLine, offset), m)
         == if SpanFor(first, m).Some? then SpanFor(first, m) else FirstPart(None, SpanFor(a, m), 0, sameLine, offset)
  {
    SpanForEach(a, s => if Joins(s, first, sameLine) then Some(FixLast(s, first, offset)) else None, m);
    SpanForConcat(first, Joining(a, first, sameLine, offset), m);
    OnceJoined(first, Joining(a, first, sameLine, offset), m);
  }

  lemma FixedLastFor(a: seq<Span>, first: seq<Span>, offset: int, m: Marker)
    requires Once(a, m)
    ensures Once(FixedLast(a, first, offset), m)
    ensures SpanFor(FixedLast(a, first, offset), m) == LastPart(SpanFor(first, m), SpanFor(a, m), offset)
  {
    SpanForEach(a, s => Some(FixLast(s, first, offset)), m);
  }

  lemma ClearedFor(spans: seq<Span>, m: Marker)
    requires Once(spans, m)
    ensures SpanFor(WithoutEmpty(spans), m) == NotEmpty(SpanFor(spans, m)) && Once(WithoutEmpty(spans), m)
  {
    SpanForEach(spans, s => if IsEmpty(s) then None else Some(s), m);
  }

  lemma GapFor(first: seq<Span>, m: Marker)
    requires Once(first, m)
    ensures SpanFor(GapSpans(first), m) == GapPart(SpanFor(first, m), m)
  {
    SpanForEach(first, (s: Span) => if s.to.Open? then Some(Span(s.marker, Open, Open)) else None, m);
  }

  // ----- markers in a document -----

  /** The spans of each line. */
  type Spans = seq<seq<Span>>

  /** The span in line `i` of a marker from `p` to `q`. */
  function SpanAt(m: Marker, p: Pos, q: Pos, i: int): Maybe {
    if p.line <= i <= q.line
    then Some(Span(m, if i == p.line then At(p.ch) else Open, if i == q.line then At(q.ch) else Open))
    else None
  }

  /** The marker stretches from `p` to `q`. */
  ghost predicate Marks(doc: Spans, m: Marker, p: Pos, q: Pos) {
    && 0 <= p.line <= q.line < |doc| && Leq(p, q)
    && forall i :: 0 <= i < |doc| ==> SpanFor(doc[i], m) == SpanAt(m, p, q, i)
  }

  /** A change gives the lines it inserts their stretched spans. */
  function ChangeSpans(doc: Spans, c: Change): (r: Spans)
    requires 0 <= c.from.line <= c.to.line < |doc|
    ensures |r| == |doc| - (c.to.line - c.from.line + 1) + |c.text|
  {
    doc[..c.from.line] + Stretched(doc[c.from.line], doc[c.to.line], c) + doc[c.to.line + 1..]
  }

  /** Strictly before, strictly behind or strictly around the change. */
  predicate ClearOf(c: Change, p: Pos, q: Pos) {
    Cmp(q, c.from) < 0 || Cmp(p, c.to) > 0 || (Cmp(p, c.from) < 0 && Cmp(c.to, q) < 0)
  }

  lemma CutsOfMarker(c: Change, m: Marker, p: Pos, q: Pos)
    requires Leq(c.from, c.to) && Leq(p, q) && ClearOf(c, p, q)
    ensures var isInsert := Cmp(c.from, c.to) == 0;
            var b := Mapped(SpanAt(m, p, q, c.from.line), s => CutBefore(s, c.from.ch, isInsert));
            var a := Mapped(SpanAt(m, p, q, c.to.line), s => CutAfter(s, c.to.ch, isInsert));
            && b == (if Cmp(p, c.from) >= 0 || q.line < c.from.line then None
                     else Some(Span(m, if p.line == c.from.line then At(p.ch) else Open,
                       if Cmp(q, c.from) < 0 then At(q.ch) else Open)))
            && a == (if Cmp(q, c.to) <= 0 || p.line > c.to.line then None
                     else Some(Span(m, if Cmp(p, c.to) > 0 then At(p.ch - c.to.ch) else Open,
                                    if q.line == c.to.line then At(q.ch - c.to.ch) else Open)))
  {
  }

  /** A marker that is clear of a change has its ends where `AdjustForChange` puts them. */
  lemma MarkerFollowsChange(doc: Spans, c: Change, m: Marker, p: Pos, q: Pos)
    requires Marks(doc, m, p, q) && (p != q || !m.clearWhenEmpty) && ClearOf(c, p, q)
    requires 0 <= c.from.line <= c.to.line < |doc| && Leq(c.from, c.to)
    requires Distinct(doc[c.from.line]) && Distinct(doc[c.to.line])
    ensures Marks(ChangeSpans(doc, c), m, AdjustForChange(p, c), AdjustForChange(q, c))
  {
    hide Stretched, CutBefore, CutAfter, SpanAt;
    var r, p', q' := ChangeSpans(doc, c), AdjustForChange(p, c), AdjustForChange(q, c);
    AdjustIsMonotone(p, q, c);
    CutsOfMarker(c, m, p, q);
    var isInsert := Cmp(c.from, c.to) == 0;
    var b := Mapped(SpanFor(doc[c.from.line], m), s => CutBefore(s, c.from.ch, isInsert));
    var a := Mapped(SpanFor(doc[c.to.line], m), s => CutAfter(s, c.to.ch, isInsert));
    StretchedFor(doc[c.from.line], doc[c.to.line], c, m, b, a);
    forall i | 0 <= i < |r|
      ensures SpanFor(r[i], m) == SpanAt(m, p', q', i)
    {
      var k := i - c.from.line;
      if 0 <= k < |c.text| {
        assert r[i] == Stretched(doc[c.from.line], doc[c.to.line], c)[k];
        InsertedLine(c, m, p, q, b, a, k);
      } else {
        OldLine(c, m, p, q, i);
        assert r[i] == doc[if k < 0 then i else i - |c.text| + (c.to.line - c.from.line + 1)];
      }
    }
  }

  /** A line outside the change keeps its span, with its new number. */
  lemma OldLine(c: Change, m: Marker, p: Pos, q: Pos, i: int)
    requires Leq(c.from, c.to) && Leq(p, q) && ClearOf(c, p, q) && (i < c.from.line || i >= c.from.line + |c.text|)
    ensures var old0 := if i < c.from.line then i else i - |c.text| + (c.to.line - c.from.line + 1);
            SpanAt(m, p, q, old0) == SpanAt(m, AdjustForChange(p, c), AdjustForChange(q, c), i)
  {
  }

  /** A line of the inserted text has the span that the stretched parts give it. */
  lemma InsertedLine(c: Change, m: Marker, p: Pos, q: Pos, b: Maybe, a: Maybe, k: int)
    requires Leq(c.from, c.to) && Leq(p, q) && ClearOf(c, p, q) && 0 <= k < |c.text| && (p != q || !m.clearWhenEmpty)
    requires b == (if Cmp(p, c.from) >= 0 || q.line < c.from.line then None
                   else Some(Span(m, if p.line == c.from.line then At(p.ch) else Open,
                     if Cmp(q, c.from) < 0 then At(q.ch) else Open)))
    requires a == (if Cmp(q, c.to) <= 0 || p.line > c.to.line then None
                   else Some(Span(m, if Cmp(p, c.to) > 0 then At(p.ch - c.to.ch) else Open,
                                  if q.line == c.to.line then At(q.ch - c.to.ch) else Open)))
    ensures var sameLine, offset := |c.text| == 1, ChangeEnd(c).ch;
            var first := NotEmpty(FirstPart(b, a, c.from.ch, sameLine, offset));
            var new0 := SpanAt(m, AdjustForChange(p, c), AdjustForChange(q, c), c.from.line + k);
            new0 == if k == 0 then first else if k == |c.text| - 1 then NotEmpty(LastPart(b, a, offset))
              else GapPart(first, m)
  {
  }
}
