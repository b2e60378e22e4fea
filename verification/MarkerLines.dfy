/** The two-way link between lines and markers: a line lists its spans, and a marker lists its lines. */
module MarkerLines {
  import opened LineTree
  import opened Markers

  type LineSpans = map<Ref, seq<Span>>
  type MarkerOwn = map<Marker, seq<Ref>>

  function SpansOf(spans: LineSpans, l: Ref): seq<Span> {
    if l in spans then spans[l] else []
  }

  function Owned(own: MarkerOwn, m: Marker): seq<Ref> {
    if m in own then own[m] else []
  }

  /** How many of the spans belong to the marker. */
  function SpanCount(ss: seq<Span>, m: Marker): nat {
    if ss == [] then 0 else SpanCount(ss[..|ss| - 1], m) + if ss[|ss| - 1].marker == m then 1 else 0
  }

  /** How often a marker lists a line. */
  function Listed(own: MarkerOwn, m: Marker, l: Ref): nat {
    multiset(Owned(own, m))[l]
  }

  /** A marker lists a line once for each span it has there. */
  ghost predicate Wired(spans: LineSpans, own: MarkerOwn) {
    forall m, l :: Listed(own, m, l) == SpanCount(SpansOf(spans, l), m)
  }

  /** The lists differ in `l` only, by the first `i` of the spans, added or taken away. */
  ghost predicate Differ(own: MarkerOwn, own0: MarkerOwn, l: Ref, more: seq<Span>, fewer: seq<Span>) {
    forall m, x :: Listed(own, m, x) + (if x == l then SpanCount(fewer, m) else 0)
                == Listed(own0, m, x) + (if x == l then SpanCount(more, m) else 0)
  }

  lemma CountNext(ss: seq<Span>, i: nat, m: Marker)
    requires i < |ss|
    ensures SpanCount(ss[..i + 1], m) == SpanCount(ss[..i], m) + if ss[i].marker == m then 1 else 0
  {
    assert ss[..i + 1][..i] == ss[..i];
  }

  lemma Pushed(own: MarkerOwn, k: Marker, l: Ref, m: Marker, x: Ref)
    ensures var own' := own[k := Owned(own, k) + [l]];
            Listed(own', m, x) == Listed(own, m, x) + if m == k && x == l then 1 else 0
  {
  }

  lemma AttachStep(own: MarkerOwn, own0: MarkerOwn, l: Ref, ss: seq<Span>, i: nat)
    requires i < |ss| && Differ(own, own0, l, ss[..i], [])
    ensures Differ(own[ss[i].marker := Owned(own, ss[i].marker) + [l]], own0, l, ss[..i + 1], [])
  {
    hide Listed, SpanCount;
    var k := ss[i].marker;
    forall m, x
      ensures Listed(own[k := Owned(own, k) + [l]], m, x)
              == Listed(own0, m, x) + (if x == l then SpanCount(ss[..i + 1], m) else 0)
    {
      Pushed(own, k, l, m, x);
      CountNext(ss, i, m);
      hide Listed, SpanCount;
      assert Listed(own, m, x) + (if x == l then SpanCount([], m) else 0)
          == Listed(own0, m, x) + (if x == l then SpanCount(ss[..i], m) else 0);
      NoSpans(m);
    }
    forall m
      ensures SpanCount([], m) == 0
    {
      NoSpans(m);
    }
  }

  lemma NoSpans(m: Marker)
    ensures SpanCount([], m) == 0
  {
  }

  /** Enters the line in the markers of its new spans. */
  method Attach(own0: MarkerOwn, l: Ref, ss: seq<Span>) returns (own: MarkerOwn)
    ensures Differ(own, own0, l, ss, [])
  {
    own := own0;
    for i := 0 to |ss|
      invariant Differ(own, own0, l, ss[..i], [])
    {
      AttachStep(own, own0, l, ss, i);
      var m := ss[i].marker;
      own := own[m := Owned(own, m) + [l]];
    }
    assert ss[..|ss|] == ss;
  }

  method IndexOfLine(ls: seq<Ref>, l: Ref) returns (k: nat)
    requires l in ls
    ensures k < |ls| && ls[k] == l
  {
    k := 0;
    while ls[k] != l
      invariant k < |ls| && l !in ls[..k]
      decreases |ls| - k
    {
      ghost var seen := ls[..k + 1];
      assert seen == ls[..k] + [ls[k]];
      assert k + 1 == |ls| ==> seen == ls;
      k := k + 1;
    }
  }

  lemma Dropped(own: MarkerOwn, k: Marker, at: nat, m: Marker, x: Ref)
    requires at < |Owned(own, k)|
    ensures var ls := Owned(own, k);
            var own' := own[k := ls[..at] + ls[at + 1..]];
            Listed(own, m, x) == Listed(own', m, x) + if m == k && x == ls[at] then 1 else 0
  {
    var ls := Owned(own, k);
    assert ls == ls[..at] + [ls[at]] + ls[at + 1..];
    assert multiset(ls) == multiset(ls[..at] + ls[at + 1..]) + multiset{ls[at]};
  }

  lemma DetachStep(own: MarkerOwn, own0: MarkerOwn, l: Ref, ss: seq<Span>, i: nat, at: nat)
    requires i < |ss| && Differ(own, own0, l, [], ss[..i])
    requires at < |Owned(own, ss[i].marker)| && Owned(own, ss[i].marker)[at] == l
    ensures var k := ss[i].marker;
            var ls := Owned(own, k);
            Differ(own[k := ls[..at] + ls[at + 1..]], own0, l, [], ss[..i + 1])
  {
    var k := ss[i].marker;
    var ls := Owned(own, k);
    var own' := own[k := ls[..at] + ls[at + 1..]];
    forall m, x
      ensures Listed(own', m, x) + (if x == l then SpanCount(ss[..i + 1], m) else 0)
           == Listed(own0, m, x) + (if x == l then SpanCount([], m) else 0)
    {
      Dropped(own, k, at, m, x);
      CountNext(ss, i, m);
      hide Listed, SpanCount;
      assert Listed(own, m, x) + (if x == l then SpanCount(ss[..i], m) else 0)
          == Listed(own0, m, x) + (if x == l then SpanCount([], m) else 0);
    }
  }

  lemma {:induction false} CountGrows(ss: seq<Span>, i: nat, m: Marker)
    requires i < |ss| && ss[i].marker == m
    ensures SpanCount(ss[..i], m) < SpanCount(ss, m)
    decreases |ss|
  {
    var n := |ss| - 1;
    if i < n {
      var init := ss[..n];
      assert init[..i] == ss[..i];
      CountGrows(init, i, m);
    }
  }

  /** Takes the line out of the markers of its spans. */
  method Detach(own0: MarkerOwn, l: Ref, ss: seq<Span>) returns (own: MarkerOwn)
    requires forall m :: Listed(own0, m, l) == SpanCount(ss, m)
    ensures Differ(own, own0, l, [], ss)
  {
    own := own0;
    for i := 0 to |ss|
      invariant Differ(own, own0, l, [], ss[..i])
    {
      var m := ss[i].marker;
      StillListed(own, own0, l, ss, i);
      var ls := Owned(own, m);
      var at := IndexOfLine(ls, l);
      DetachStep(own, own0, l, ss, i, at);
      own := own[m := ls[..at] + ls[at + 1..]];
    }
    assert ss[..|ss|] == ss;
  }

  lemma StillListed(own: MarkerOwn, own0: MarkerOwn, l: Ref, ss: seq<Span>, i: nat)
    requires i < |ss| && Differ(own, own0, l, [], ss[..i]) && forall m :: Listed(own0, m, l) == SpanCount(ss, m)
    ensures l in Owned(own, ss[i].marker)
  {
    var m := ss[i].marker;
    CountGrows(ss, i, m);
    NoSpans(m);
    assert Listed(own, m, l) > 0;
  }

  /** A line that changes its spans keeps everything wired. */
  lemma Rewired(spans: LineSpans, own: MarkerOwn, l: Ref, ss: seq<Span>, own': MarkerOwn)
    requires Wired(spans, own) && Differ(own', own, l, ss, SpansOf(spans, l))
    ensures Wired(spans[l := ss], own')
  {
    var spans' := spans[l := ss];
    forall m, x
      ensures Listed(own', m, x) == SpanCount(SpansOf(spans', x), m)
    {
      assert Listed(own', m, x) + (if x == l then SpanCount(SpansOf(spans, l), m) else 0)
          == Listed(own, m, x) + (if x == l then SpanCount(ss, m) else 0);
    }
  }

  lemma DifferBoth(own: MarkerOwn, own1: MarkerOwn, own2: MarkerOwn, l: Ref, fewer: seq<Span>, more: seq<Span>)
    requires Differ(own1, own, l, [], fewer) && Differ(own2, own1, l, more, [])
    ensures Differ(own2, own, l, more, fewer)
  {
    hide Listed;
    forall m, x
      ensures Listed(own2, m, x) + (if x == l then SpanCount(fewer, m) else 0)
           == Listed(own, m, x) + (if x == l then SpanCount(more, m) else 0)
    {
      NoSpans(m);
      assert Listed(own1, m, x) + (if x == l then SpanCount(fewer, m) else 0)
          == Listed(own, m, x) + (if x == l then SpanCount([], m) else 0);
      assert Listed(own2, m, x) + (if x == l then SpanCount([], m) else 0)
          == Listed(own1, m, x) + (if x == l then SpanCount(more, m) else 0);
    }
  }

  /** The spans of a line are replaced, and with them its entries in the markers. */
  method Reattach(spans: LineSpans, own0: MarkerOwn, l: Ref, ss: seq<Span>) returns (own: MarkerOwn)
    requires Wired(spans, own0)
    ensures Wired(spans[l := ss], own)
  {
    var fewer := SpansOf(spans, l);
    var own1 := Detach(own0, l, fewer);
    own := Attach(own1, l, ss);
    DifferBoth(own0, own1, own, l, fewer, ss);
    Rewired(spans, own0, l, ss, own);
  }

  /** The lines a marker lists are those that carry it. */
  lemma ListsItsLines(spans: LineSpans, own: MarkerOwn, m: Marker, l: Ref)
    requires Wired(spans, own)
    ensures l in Owned(own, m) <==> SpanFor(SpansOf(spans, l), m).Some?
  {
    assert Listed(own, m, l) == SpanCount(SpansOf(spans, l), m);
    Counted(SpansOf(spans, l), m);
  }

  lemma {:induction false} Counted(ss: seq<Span>, m: Marker)
    ensures SpanCount(ss, m) > 0 <==> SpanFor(ss, m).Some?
    decreases |ss|
  {
    if ss != [] {
      var n := |ss| - 1;
      var init, last := ss[..n], ss[n];
      Counted(init, m);
      assert init + [last] == ss && [last][1..] == [];
      SpanForConcat(init, [last], m);
    }
  }
}
