/** The undo history as a user sees it: the present, a list of moments to go back to and a list of
    moments to go forward to.  Every action of the state machine is the obvious step on these lists,
    so undo may be repeated as often as there are events. */
module HistoryStory {
  import opened Text
  import opened Changes
  import opened HistoryModel
  import opened HistoryLaws

  /** A text with its generation, and the selection in it. */
  datatype Moment = Moment(lines: Lines, generation: nat, sel: Selection)

  datatype Story = Story(now: Moment, past: seq<Moment>, future: seq<Moment>)

  /** The moments that popping a stack event by event leads to from text `d`, nearest first. */
  ghost function Moments(stack: seq<Event>, d: Lines): seq<Moment>
    requires Guarded(stack) && Unwinds(stack, d)
    decreases |stack|
  {
    if stack == [] then []
    else
      var below := stack[..|stack| - 1];
      match Last(stack)
      case SelEvent(_) => Moments(below, d)
      case ChangeEvent(cs, g) =>
        [Moment(Replay(d, cs), g, Last(below).sel)] + Moments(below, Replay(d, cs))
  }

  ghost function Tell(s: State): Story
    requires Valid(s)
  {
    Story(Moment(s.lines, s.generation, s.sel), Moments(s.done, s.lines), Moments(s.undone, s.lines))
  }

  function ChangeCount(stack: seq<Event>): nat {
    if stack == [] then 0 else ChangeCount(stack[..|stack| - 1]) + if Last(stack).ChangeEvent? then 1 else 0
  }

  // ----- the moments of a stack -----

  lemma MomentsOfSel(stack: seq<Event>, sel: Selection, d: Lines)
    requires Guarded(stack) && Unwinds(stack, d)
    ensures var r := stack + [SelEvent(sel)];
            Guarded(r) && Unwinds(r, d) && Moments(r, d) == Moments(stack, d) && ChangeCount(r) == ChangeCount(stack)
  {
    var r := stack + [SelEvent(sel)];
    assert r[..|r| - 1] == stack;
  }

  lemma MomentsOfChange(stack: seq<Event>, e: Event, d: Lines)
    requires e.ChangeEvent? && e.changes != [] && Replayable(d, e.changes)
    requires Guarded(stack) && Unwinds(stack, Replay(d, e.changes)) && stack != [] && Last(stack).SelEvent?
    ensures var r, d' := stack + [e], Replay(d, e.changes);
            && Guarded(r) && Unwinds(r, d) && ChangeCount(r) == ChangeCount(stack) + 1
            && Moments(r, d) == [Moment(d', e.generation, Last(stack).sel)] + Moments(stack, d')
  {
    hide Replayable, Replay;
    var r := stack + [e];
    GuardedPush(stack, e);
    assert r[..|r| - 1] == stack;
  }

  lemma {:induction false} MomentsCounted(stack: seq<Event>, d: Lines)
    requires Guarded(stack) && Unwinds(stack, d)
    ensures |Moments(stack, d)| == ChangeCount(stack)
    ensures HasChange(stack) <==> ChangeCount(stack) > 0
    decreases |stack|
  {
    hide Replay, Replayable;
    if stack != [] {
      var below := stack[..|stack| - 1];
      match Last(stack)
      case SelEvent(_) => MomentsCounted(below, d);
      case ChangeEvent(cs, _) => MomentsCounted(below, Replay(d, cs));
      HasChangeBelow(stack);
    }
  }

  lemma HasChangeBelow(stack: seq<Event>)
    requires stack != []
    ensures HasChange(stack) <==> Last(stack).ChangeEvent? || HasChange(stack[..|stack| - 1])
  {
    var below := stack[..|stack| - 1];
    if HasChange(below) {
      var i :| 0 <= i < |below| && below[i].ChangeEvent?;
      assert stack[i].ChangeEvent?;
    }
    if HasChange(stack) {
      var i :| 0 <= i < |stack| && stack[i].ChangeEvent?;
      assert i < |below| ==> below[i].ChangeEvent?;
    }
  }

  lemma {:induction false} MomentsDropSels(stack: seq<Event>, d: Lines)
    requires Guarded(stack) && Unwinds(stack, d)
    ensures Guarded(DropSels(stack)) && Unwinds(DropSels(stack), d)
    ensures Moments(DropSels(stack), d) == Moments(stack, d) && ChangeCount(DropSels(stack)) == ChangeCount(stack)
    decreases |stack|
  {
    if |stack| > 0 && Last(stack).SelEvent? {
      MomentsDropSels(stack[..|stack| - 1], d);
    }
  }

  lemma MomentsPushSel(stack: seq<Event>, sel: Selection, d: Lines)
    requires Guarded(stack) && Unwinds(stack, d)
    ensures var r := PushSel(stack, sel);
            && Guarded(r) && Unwinds(r, d) && Moments(r, d) == Moments(stack, d) && ChangeCount(r) == ChangeCount(stack)
            && r != [] && Last(r) == SelEvent(sel)
  {
    hide Unwinds, Moments;
    MomentsOfSel(stack, sel, d);
  }

  /** The selection right behind the top event: the lowest selection above it, or the current one. */
  function Landing(stack: seq<Event>, sel: Selection): Selection
    decreases |stack|
  {
    if |stack| > 0 && Last(stack).SelEvent? then Landing(stack[..|stack| - 1], Last(stack).sel) else sel
  }

  lemma {:induction false} MomentsMoveSels(source: seq<Event>, dest: seq<Event>, sel: Selection, d: Lines)
    requires Guarded(dest) && Unwinds(dest, d)
    ensures var (src, dst, selAfter) := MoveSels(source, dest, sel);
            && Guarded(dst) && Unwinds(dst, d) && Moments(dst, d) == Moments(dest, d)
            && src == DropSels(source) && selAfter == Landing(source, sel)
    decreases |source|
  {
    hide Unwinds, Moments, Guarded;
    if |source| > 0 && Last(source).SelEvent? {
      MomentsPushSel(dest, Last(source).sel, d);
      MomentsMoveSels(source[..|source| - 1], PushSel(dest, Last(source).sel), Last(source).sel, d);
    }
  }

  // ----- the depth limit -----

  /** The newest entries of a stack hold its nearest moments. */
  lemma {:induction false} MomentsOfNewest(stack: seq<Event>, d: Lines, k: nat)
    requires Guarded(stack) && Unwinds(stack, d) && k <= |stack| && Guarded(stack[k..])
    ensures Unwinds(stack[k..], d)
    ensures var n := ChangeCount(stack[k..]);
            n <= |Moments(stack, d)| && Moments(stack[k..], d) == Moments(stack, d)[..n]
    decreases |stack|
  {
    hide Replay, Replayable;
    if k < |stack| {
      var top, below := stack[k..], stack[..|stack| - 1];
      assert top[..|top| - 1] == below[k..] && Last(top) == Last(stack);
      assert Guarded(below) && Guarded(below[k..]) by { GuardedBelow(stack); GuardedBelow(top); }
      match Last(stack)
      case SelEvent(_) => MomentsOfNewest(below, d, k);
      case ChangeEvent(cs, _) =>
        assert top[|top| - 1].ChangeEvent? && stack[|stack| - 1].ChangeEvent?;
        MomentsOfNewest(below, Replay(d, cs), k);
    }
  }

  lemma GuardedBelow(stack: seq<Event>)
    requires Guarded(stack) && stack != []
    ensures Guarded(stack[..|stack| - 1])
  {
  }

  /** How many entries the depth limit leaves of a stack with a change event on top: as many as it
      allows, or one fewer when the lowest of these would be a change event without its selection. */
  function Fitting(stack: seq<Event>, depth: Depth): (k: nat)
    ensures k <= |stack|
  {
    if depth.Unlimited? || |stack| <= depth.n then |stack|
    else if depth.n == 0 then 0
    else if stack[|stack| - depth.n].ChangeEvent? then depth.n - 1
    else depth.n
  }

  /** Trimming drops what does not fit, and nothing else. */
  lemma {:induction false} TrimIsExact(done: seq<Event>, depth: Depth)
    requires Guarded(done)
    ensures Trim(done, depth) == done[|done| - Fitting(done, depth)..]
    decreases |done|
  {
    if depth.Limit? && |done| > depth.n {
      var k := if |done| > 1 && done[1].ChangeEvent? then 2 else 1;
      var rest := done[k..];
      assert Guarded(rest) by { GuardedRest(done, k); }
      TrimIsExact(rest, depth);
      if |rest| > depth.n > 0 {
        assert rest[|rest| - depth.n] == done[|done| - depth.n];
      }
      assert rest[|rest| - Fitting(rest, depth)..] == done[|done| - Fitting(rest, depth)..];
    }
  }

  lemma GuardedRest(done: seq<Event>, k: nat)
    requires Guarded(done) && k <= |done| && (k < |done| ==> done[k].SelEvent?)
    ensures Guarded(done[k..])
  {
    var rest := done[k..];
    forall i | 0 <= i < |rest| && rest[i].ChangeEvent?
      ensures |rest[i].changes| > 0 && i > 0 && rest[i - 1].SelEvent?
    {
      assert done[k + i].ChangeEvent?;
    }
  }

  // ----- edits -----

  /** The change joins the top event. */
  predicate Joins(s: State, mode: MergeMode) {
    LastChangeEvent(s.done, mode).1
  }

  /** The stack on which a new event is put: a selection lies on top. */
  function EventBase(s: State, mode: MergeMode): (base: seq<Event>)
    ensures base != [] && Last(base).SelEvent?
  {
    var done := LastChangeEvent(s.done, mode).0;
    if |done| > 0 && Last(done).SelEvent? then done else PushSel(done, s.sel)
  }

  lemma MomentsLastChange(done: seq<Event>, mode: MergeMode, d: Lines)
    requires Guarded(done) && Unwinds(done, d)
    ensures var (r, found) := LastChangeEvent(done, mode);
            && Guarded(r) && Unwinds(r, d) && Moments(r, d) == Moments(done, d) && ChangeCount(r) == ChangeCount(done)
            && (found ==> r != [] && Last(r).ChangeEvent?)
  {
    hide Replay, Replayable;
    MomentsDropSels(done, d);
    if |done| > 1 && done[|done| - 2].ChangeEvent? && Last(done).SelEvent? {
      assert Last(done[..|done| - 1]) == done[|done| - 2];
    }
  }

  /** An event restores the same moment after a change has joined it. */
  lemma JoinedMoments(s: State, c: Change, mode: MergeMode)
    requires Valid(s) && ValidChange(s.lines, c) && Joins(s, mode)
    ensures var r, d' := Record(s, c, mode), Apply(s.lines, c);
            Guarded(r) && Unwinds(r, d') && Moments(r, d') == Moments(s.done, s.lines)
  {
    hide Apply, Join, LastChangeEvent, Replay, Replayable;
    MomentsLastChange(s.done, mode, s.lines);
    var done := LastChangeEvent(s.done, mode).0;
    var cur, below := Last(done), done[..|done| - 1];
    assert cur == done[|done| - 1];
    JoinReverts(s.lines, cur.changes, c);
    JoinNotEmpty(s.lines, cur.changes, c);
    GuardedBelow(done);
    MomentsOfChange(below, cur.(changes := Join(s.lines, cur.changes, c)), Apply(s.lines, c));
  }

  /** The present becomes the nearest past. */
  lemma NewMoments(s: State, c: Change, mode: MergeMode)
    requires Valid(s) && ValidChange(s.lines, c) && !Joins(s, mode)
    ensures var r, d' := EventBase(s, mode) + [ChangeEvent([Invert(s.lines, c)], s.generation)], Apply(s.lines, c);
            && Guarded(r) && Unwinds(r, d') && ChangeCount(r) == ChangeCount(s.done) + 1
            && Moments(r, d')
               == [Moment(s.lines, s.generation, Last(EventBase(s, mode)).sel)] + Moments(s.done, s.lines)
            && Record(s, c, mode) == Trim(r, s.undoDepth)
  {
    hide Apply, Invert, LastChangeEvent, Unwinds, Moments, Guarded, Trim;
    MomentsLastChange(s.done, mode, s.lines);
    MomentsPushSel(LastChangeEvent(s.done, mode).0, s.sel, s.lines);
    OneInverse(s.lines, c);
    MomentsOfChange(EventBase(s, mode), ChangeEvent([Invert(s.lines, c)], s.generation), Apply(s.lines, c));
  }

  lemma OneInverse(d: Lines, c: Change)
    requires ValidChange(d, c)
    ensures var cs := [Invert(d, c)]; Replayable(Apply(d, c), cs) && Replay(Apply(d, c), cs) == d
  {
    hide Apply;
    InvertUndoes(d, c);
    var cs := [Invert(d, c)];
    assert cs[..|cs| - 1] == [];
  }

  /** Trimming forgets the farthest moments. */
  lemma TrimmedMoments(stack: seq<Event>, depth: Depth, d: Lines)
    requires Guarded(stack) && Unwinds(stack, d)
    ensures var r := Trim(stack, depth);
            && Guarded(r) && Unwinds(r, d) && ChangeCount(r) <= |Moments(stack, d)|
            && Moments(r, d) == Moments(stack, d)[..ChangeCount(r)]
  {
    hide Unwinds, Moments;
    TrimIsExact(stack, depth);
    TrimGuarded(stack, depth);
    MomentsOfNewest(stack, d, |stack| - Fitting(stack, depth));
  }

  lemma {:induction false} TrimGuarded(done: seq<Event>, depth: Depth)
    requires Guarded(done)
    ensures Guarded(Trim(done, depth))
    decreases |done|
  {
    if depth.Limit? && |done| > depth.n {
      var k := if |done| > 1 && done[1].ChangeEvent? then 2 else 1;
      GuardedRest(done, k);
      TrimGuarded(done[k..], depth);
    }
  }

  // ----- every action is a step of the story -----

  function Kept(s: State, c: Change, mode: MergeMode): nat
    requires ValidChange(s.lines, c) && Guarded(s.done)
  {
    ChangeCount(Record(s, c, mode))
  }

  /** An edit begins a new moment: when it starts an event the present becomes the nearest past, of
      which the depth limit keeps the nearest; when it joins an event the past stays. Undo and redo
      go one moment back or forward. A selection changes the present one only. */
  function Next(u: Story, s: State, a: Action): Story
    requires Valid(s) && Enabled(s, a)
  {
    match a
    case Edit(c, mode, sel) =>
      if NoOp(c) then u
      else
        var all := [Moment(s.lines, s.generation, Last(EventBase(s, mode)).sel)] + u.past;
        var n := Kept(s, c, mode);
        Story(Moment(Apply(s.lines, c), s.maxGeneration + 1, sel),
              if Joins(s, mode) then u.past else if n <= |all| then all[..n] else all, [])
    case Undo =>
      if u.past == [] then u
      else Story(u.past[0], u.past[1..], [u.now.(sel := Landing(s.done, s.sel))] + u.future)
    case Redo =>
      if u.future == [] then u
      else Story(u.future[0], [u.now.(sel := Landing(s.undone, s.sel))] + u.past, u.future[1..])
    case Select(sel, _, _) => u.(now := u.now.(sel := sel))
  }

  lemma EditTells(s: State, c: Change, mode: MergeMode, sel: Selection)
    requires Valid(s) && ValidChange(s.lines, c)
    ensures Valid(DoEdit(s, c, mode, sel))
    ensures Tell(DoEdit(s, c, mode, sel)) == Next(Tell(s), s, Edit(c, mode, sel))
  {
    hide Apply, Unwinds, Moments, Record, Trim, LastChangeEvent, EventBase, Guarded, ChangeCount;
    if !NoOp(c) {
      EventsAreNotEmpty(s.done);
      var d := Apply(s.lines, c);
      if Joins(s, mode) {
        JoinedMoments(s, c, mode);
      } else {
        NewMoments(s, c, mode);
        TrimmedMoments(EventBase(s, mode) + [ChangeEvent([Invert(s.lines, c)], s.generation)], s.undoDepth, d);
      }
      MomentsOfSel(Record(s, c, mode), sel, d);
      NoMoments(d);
    }
  }

  lemma EventsAreNotEmpty(stack: seq<Event>)
    requires Guarded(stack)
    ensures forall i :: 0 <= i < |stack| && stack[i].ChangeEvent? ==> |stack[i].changes| > 0
  {
  }

  lemma NoMoments(d: Lines)
    ensures Guarded([]) && Unwinds([], d) && Moments([], d) == []
  {
  }

  /** Reverting the top event goes to its moment, and makes the present one a moment to come back to. */
  lemma RevertTells(source: seq<Event>, dest: seq<Event>, s: State)
    requires Guarded(source) && Unwinds(source, s.lines) && HasChange(source)
    requires Guarded(dest) && Unwinds(dest, s.lines)
    ensures var r := Revert(source, dest, s);
            && Guarded(r.source) && Unwinds(r.source, r.lines) && Guarded(r.dest) && Unwinds(r.dest, r.lines)
            && Moments(source, s.lines) == [Moment(r.lines, r.generation, r.sel)] + Moments(r.source, r.lines)
            && Moments(r.dest, r.lines)
               == [Moment(s.lines, s.generation, Landing(source, s.sel))] + Moments(dest, s.lines)
  {
    hide Replay, Replayable, Antis, Landing, MoveSels, DropSels, HasChange, PushSel;
    var (src, dst, selAfter) := MoveSels(source, dest, s.sel);
    PoppedUnwinds(source, s.lines);
    MomentsDropSels(source, s.lines);
    MomentsMoveSels(source, dest, s.sel, s.lines);
    MomentsPushSel(dst, selAfter, s.lines);
    var cs := Last(src).changes;
    assert src[|src| - 1].ChangeEvent?;
    AntisRevert(s.lines, cs);
    GuardedBelow(src);
    MomentsOfChange(PushSel(dst, selAfter), ChangeEvent(Antis(s.lines, cs), s.generation), Replay(s.lines, cs));
  }

  lemma UndoTells(s: State, texts: map<nat, Lines>)
    requires Valid(s) && Consistent(s, texts)
    ensures Valid(DoUndo(s)) && Tell(DoUndo(s)) == Next(Tell(s), s, Undo)
  {
    hide Revert, Moments, Landing, Restores;
    UndoKeeps(s, texts);
    ConsistentIsValid(DoUndo(s), texts);
    MomentsCounted(s.done, s.lines);
    if HasChange(s.done) {
      RevertTells(s.done, s.undone, s);
      RevertKeeps(s.done, s.undone, s, texts);
    }
  }

  lemma RedoTells(s: State, texts: map<nat, Lines>)
    requires Valid(s) && Consistent(s, texts)
    ensures Valid(DoRedo(s)) && Tell(DoRedo(s)) == Next(Tell(s), s, Redo)
  {
    hide Revert, Moments, Landing, Restores;
    RedoKeeps(s, texts);
    ConsistentIsValid(DoRedo(s), texts);
    MomentsCounted(s.undone, s.lines);
    if HasChange(s.undone) {
      RevertTells(s.undone, s.done, s);
      RevertKeeps(s.undone, s.done, s, texts);
    }
  }

  lemma SelectTells(s: State, sel: Selection, replaceTop: bool, clearRedo: bool)
    requires Valid(s) && Enabled(s, Select(sel, replaceTop, clearRedo))
    ensures var t := DoSelect(s, sel, replaceTop, clearRedo);
            Valid(t) && Tell(t) == Next(Tell(s), s, Select(sel, replaceTop, clearRedo))
  {
    hide Moments, Unwinds, PushSel, DropSels, Guarded;
    MomentsPushSel(s.done, sel, s.lines);
    MomentsDropSels(s.undone, s.lines);
    if replaceTop && s.done != [] {
      SelsBelow(s.done, s.lines);
      MomentsOfSel(s.done[..|s.done| - 1], sel, s.lines);
    }
  }

  lemma SelsBelow(stack: seq<Event>, d: Lines)
    requires Guarded(stack) && Unwinds(stack, d) && stack != [] && Last(stack).SelEvent?
    ensures var r := stack[..|stack| - 1]; Guarded(r) && Unwinds(r, d) && Moments(r, d) == Moments(stack, d)
  {
    GuardedBelow(stack);
  }

  lemma StoryStep(s: State, a: Action, texts: map<nat, Lines>)
    requires Valid(s) && Consistent(s, texts) && Enabled(s, a)
    ensures Valid(DoAction(s, a)) && Tell(DoAction(s, a)) == Next(Tell(s), s, a)
  {
    hide Valid, Tell, Next, DoEdit, DoUndo, DoRedo, DoSelect;
    match a
    case Edit(c, mode, sel) => EditTells(s, c, mode, sel);
    case Undo => UndoTells(s, texts);
    case Redo => RedoTells(s, texts);
    case Select(sel, replaceTop, clearRedo) => SelectTells(s, sel, replaceTop, clearRedo);
  }

  // ----- how much of the past an edit leaves -----

  /** Without a limit an edit keeps the whole past, and with one it keeps what fits. */
  lemma EditKeepsPast(s: State, c: Change, mode: MergeMode)
    requires Valid(s) && ValidChange(s.lines, c) && !Joins(s, mode)
    ensures var r := EventBase(s, mode) + [ChangeEvent([Invert(s.lines, c)], s.generation)];
            Kept(s, c, mode) == ChangeCount(r[|r| - Fitting(r, s.undoDepth)..])
    ensures s.undoDepth.Unlimited? ==> Kept(s, c, mode) == |Tell(s).past| + 1
  {
    hide Apply, Invert, Moments, LastChangeEvent, EventBase, Trim, Record;
    var r := EventBase(s, mode) + [ChangeEvent([Invert(s.lines, c)], s.generation)];
    NewMoments(s, c, mode);
    TrimIsExact(r, s.undoDepth);
    MomentsCounted(s.done, s.lines);
    assert r[0..] == r;
  }

  /** After an edit that is no no-op there is an event to undo, unless it starts an event and the depth
      limit is less than two: an event takes up two entries. */
  lemma EditCanBeUndone(s: State, c: Change, mode: MergeMode, sel: Selection)
    requires Valid(s) && ValidChange(s.lines, c) && !NoOp(c)
    ensures Valid(DoEdit(s, c, mode, sel))
    ensures HasChange(DoEdit(s, c, mode, sel).done)
            <==> Joins(s, mode) || s.undoDepth.Unlimited? || s.undoDepth.n >= 2
  {
    hide Apply, Invert, Moments, LastChangeEvent, EventBase, Trim, Unwinds;
    EditTells(s, c, mode, sel);
    var t := DoEdit(s, c, mode, sel);
    MomentsCounted(t.done, t.lines);
    if Joins(s, mode) {
      MomentsLastChange(s.done, mode, s.lines);
      JoinedMoments(s, c, mode);
      MomentsCounted(s.done, s.lines);
      JoinsSome(s, mode);
    } else {
      var e := ChangeEvent([Invert(s.lines, c)], s.generation);
      var r := EventBase(s, mode) + [e];
      NewMoments(s, c, mode);
      TrimIsExact(r, s.undoDepth);
      EditKeepsPast(s, c, mode);
      TopIsCounted(r[|r| - Fitting(r, s.undoDepth)..]);
    }
  }

  lemma JoinsSome(s: State, mode: MergeMode)
    requires Valid(s) && Joins(s, mode)
    ensures ChangeCount(s.done) > 0
  {
    MomentsLastChange(s.done, mode, s.lines);
  }

  lemma TopIsCounted(stack: seq<Event>)
    ensures stack != [] && Last(stack).ChangeEvent? ==> ChangeCount(stack) > 0
    ensures stack == [] ==> ChangeCount(stack) == 0
  {
  }

  // ----- whole runs -----

  lemma PrefixIsRun(run: seq<State>, acts: seq<Action>, n: nat)
    requires IsRun(run, acts) && n <= |acts|
    ensures IsRun(run[..n + 1], acts[..n])
  {
    hide Valid, Enabled, DoAction, Initial;
  }

  /** Every step of a run is a step of its story. */
  lemma RunStory(run: seq<State>, acts: seq<Action>, i: nat)
    requires IsRun(run, acts) && i < |acts|
    ensures Valid(run[i]) && Valid(run[i + 1]) && Enabled(run[i], acts[i])
    ensures Tell(run[i + 1]) == Next(Tell(run[i]), run[i], acts[i])
    ensures run[i + 1] == DoAction(run[i], acts[i])
  {
    hide Valid, Enabled, DoAction, Initial, Tell, Next, Consistent, Names;
    PrefixIsRun(run, acts, i);
    var texts := RunIsConsistent(run[..i + 1], acts[..i]);
    assert Last(run[..i + 1]) == run[i];
    StoryStep(run[i], acts[i], texts);
  }

  /** Undoing `n` times goes `n` moments back: step `k` of the run is followed by `n` undos. */
  lemma {:induction false} UndoTimes(run: seq<State>, acts: seq<Action>, k: nat)
    requires IsRun(run, acts) && k <= |acts|
    requires forall i :: k <= i < |acts| ==> acts[i].Undo?
    ensures Valid(run[k]) && Valid(Last(run))
    ensures var n, u, v := |acts| - k, Tell(run[k]), Tell(Last(run));
            n <= |u.past| ==> v.past == u.past[n..] && (n > 0 ==> v.now == u.past[n - 1])
    decreases |acts|
  {
    hide Valid, Enabled, DoAction, Tell, Initial;
    RunStaysValid(run, acts);
    if k < |acts| {
      var m := |acts| - 1;
      RunStory(run, acts, m);
      PrefixIsRun(run, acts, m);
      UndoTimes(run[..m + 1], acts[..m], k);
    }
  }

  // ----- the timeline -----

  datatype Version = Version(lines: Lines, generation: nat)

  function Versions(ms: seq<Moment>): (r: seq<Version>)
    ensures |r| == |ms| && forall i :: 0 <= i < |ms| ==> r[i] == Version(ms[i].lines, ms[i].generation)
  {
    seq(|ms|, i requires 0 <= i < |ms| => Version(ms[i].lines, ms[i].generation))
  }

  function Backwards(vs: seq<Version>): (r: seq<Version>)
    ensures |r| == |vs| && forall i :: 0 <= i < |vs| ==> r[i] == vs[|vs| - 1 - i]
  {
    seq(|vs|, i requires 0 <= i < |vs| => vs[|vs| - 1 - i])
  }

  function Present(m: Moment): Version {
    Version(m.lines, m.generation)
  }

  function InLine(past: seq<Version>, now: Version, future: seq<Version>): seq<Version> {
    Backwards(past) + [now] + future
  }

  /** All versions from the farthest past to the farthest future; the present one is at `|past|`. */
  function Timeline(u: Story): (r: seq<Version>)
    ensures |r| == |u.past| + 1 + |u.future| && r[|u.past|] == Present(u.now)
  {
    InLine(Versions(u.past), Present(u.now), Versions(u.future))
  }

  lemma OneBack(past: seq<Version>, now: Version, future: seq<Version>)
    requires past != []
    ensures InLine(past, now, future) == InLine(past[1..], past[0], [now] + future)
  {
    assert Backwards(past) == Backwards(past[1..]) + [past[0]];
    var x := Backwards(past[1..]);
    assert x + [past[0]] + [now] + future == x + [past[0]] + ([now] + future);
  }

  /** Where undos and redos lead from place `at` of a timeline of length `len`. */
  function Travel(at: nat, len: nat, acts: seq<Action>): (r: nat)
    requires at < len
    ensures r < len
    decreases |acts|
  {
    if acts == [] then at
    else
      var r := Travel(at, len, acts[..|acts| - 1]);
      match Last(acts)
      case Undo => if r > 0 then r - 1 else r
      case Redo => if r + 1 < len then r + 1 else r
      case _ => r
  }

  lemma TimelineStays(u: Story, s: State, a: Action)
    requires Valid(s) && Enabled(s, a) && (a.Undo? || a.Redo?)
    ensures var v := Next(u, s, a);
            && Timeline(v) == Timeline(u)
            && |v.past| == (if a.Undo? then if |u.past| > 0 then |u.past| - 1 else 0
                            else if |u.future| > 0 then |u.past| + 1 else |u.past|)
  {
    hide Valid, Landing, InLine;
    var v := Next(u, s, a);
    if a.Undo? && u.past != [] {
      OneBack(Versions(u.past), Present(u.now), Versions(u.future));
      MovedVersions(u.past, u.now, v.future[0], u.future);
    } else if a.Redo? && u.future != [] {
      OneBack(Versions(v.past), Present(v.now), Versions(v.future));
      MovedVersions(u.future, u.now, v.past[0], u.past);
    }
  }

  lemma MovedVersions(from: seq<Moment>, now: Moment, moved: Moment, onto: seq<Moment>)
    requires from != [] && Present(moved) == Present(now)
    ensures Versions(from)[0] == Present(from[0]) && Versions(from)[1..] == Versions(from[1..])
    ensures Versions([moved] + onto) == [Present(now)] + Versions(onto)
    ensures Versions([moved] + onto)[0] == Present(now) && Versions([moved] + onto)[1..] == Versions(onto)
    ensures Versions(from) == [Present(from[0])] + Versions(from[1..])
  {
  }

  /** Undo and redo, however mixed, travel along one timeline. */
  lemma {:induction false} UndoAndRedoTravel(run: seq<State>, acts: seq<Action>, k: nat)
    requires IsRun(run, acts) && k <= |acts|
    requires forall i :: k <= i < |acts| ==> acts[i].Undo? || acts[i].Redo?
    ensures Valid(run[k]) && Valid(Last(run))
    ensures var u, v := Tell(run[k]), Tell(Last(run));
            && Timeline(v) == Timeline(u)
            && |v.past| == Travel(|u.past|, |Timeline(u)|, acts[k..])
            && Timeline(u)[|v.past|] == Version(Last(run).lines, Last(run).generation)
    decreases |acts|
  {
    hide Valid, Enabled, DoAction, Initial, Next, Moments, Timeline;
    RunStaysValid(run, acts);
    if k < |acts| {
      var m := |acts| - 1;
      RunStory(run, acts, m);
      PrefixIsRun(run, acts, m);
      UndoAndRedoTravel(run[..m + 1], acts[..m], k);
      assert acts[k..][..|acts[k..]| - 1] == acts[..m][k..];
      TimelineStays(Tell(run[m]), run[m], acts[m]);
    }
  }

  // ----- the events of a run -----

  /** The steps that start an event, the last one first. */
  function Starts(run: seq<State>, acts: seq<Action>): (ks: seq<nat>)
    requires |run| == |acts| + 1
    ensures forall j :: 0 <= j < |ks| ==> ks[j] < |acts| && StartsEvent(run[ks[j]], acts[ks[j]])
    ensures forall i, j :: 0 <= i < j < |ks| ==> ks[j] < ks[i]
    decreases |acts|
  {
    if acts == [] then []
    else
      var m := |acts| - 1;
      (if StartsEvent(run[m], acts[m]) then [m] else []) + Starts(run[..m + 1], acts[..m])
  }

  predicate StartsEvent(s: State, a: Action) {
    a.Edit? && !NoOp(a.change) && !Joins(s, a.mode)
  }

  /** Every step that starts an event is listed. */
  lemma {:induction false} StartsAreAll(run: seq<State>, acts: seq<Action>, k: nat)
    requires |run| == |acts| + 1 && k < |acts| && StartsEvent(run[k], acts[k])
    ensures k in Starts(run, acts)
    decreases |acts|
  {
    var m := |acts| - 1;
    if k < m {
      StartsAreAll(run[..m + 1], acts[..m], k);
    }
  }

  lemma {:induction false} DepthStays(run: seq<State>, acts: seq<Action>, i: nat)
    requires IsRun(run, acts) && i < |run|
    ensures run[i].undoDepth == run[0].undoDepth
    decreases i
  {
    hide Valid, Enabled, Initial;
    if i > 0 {
      DepthStays(run, acts, i - 1);
      DepthOfStep(run[i - 1], acts[i - 1]);
    }
  }

  lemma DepthOfStep(s: State, a: Action)
    requires Valid(s) && Enabled(s, a)
    ensures DoAction(s, a).undoDepth == s.undoDepth
  {
    hide Valid, Record, Revert;
  }

  /** The present selection lies on top of the undo stack, unless a change event does. */
  predicate TopFits(s: State) {
    s.done == [] || Last(s.done).ChangeEvent? || Last(s.done).sel == s.sel
  }

  lemma TopStaysFit(s: State, a: Action)
    requires Valid(s) && Enabled(s, a) && TopFits(s)
    ensures TopFits(DoAction(s, a))
  {
    hide Unwinds, Record, Apply, Antis, Replay;
  }

  lemma {:induction false} TopFitsInRun(run: seq<State>, acts: seq<Action>, i: nat)
    requires IsRun(run, acts) && i < |run| && TopFits(run[0])
    ensures TopFits(run[i])
    decreases i
  {
    hide Valid, Enabled, Initial, DoAction, TopFits;
    if i > 0 {
      TopFitsInRun(run, acts, i - 1);
      TopStaysFit(run[i - 1], acts[i - 1]);
    }
  }

  lemma SelOfBase(s: State, mode: MergeMode)
    requires TopFits(s) && !Joins(s, mode)
    ensures Last(EventBase(s, mode)).sel == s.sel
  {
  }

  predicate GoesOn(a: Action) {
    a.Edit? || a.Select?
  }

  lemma StepAddsStart(s: State, a: Action)
    requires Valid(s) && Enabled(s, a) && GoesOn(a) && s.undoDepth.Unlimited?
    ensures var u, v := Tell(s), Next(Tell(s), s, a);
            v.past == (if StartsEvent(s, a)
                       then [Moment(s.lines, s.generation, Last(EventBase(s, a.mode)).sel)] + u.past else u.past)
  {
    hide Unwinds, Moments, EventBase, Record, Apply, Guarded, LastChangeEvent;
    if StartsEvent(s, a) {
      EditKeepsPast(s, a.change, a.mode);
    }
  }

  /** Without a depth limit, the past after edits and selections is one moment for each event: the text,
      the generation and the selection from before its first change. */
  lemma {:induction false} PastOfRun(run: seq<State>, acts: seq<Action>)
    requires IsRun(run, acts) && run[0].undoDepth.Unlimited? && forall i :: 0 <= i < |acts| ==> GoesOn(acts[i])
    ensures Valid(Last(run))
    ensures var past, ks := Tell(Last(run)).past, Starts(run, acts);
            && |past| == |ks|
            && forall j :: 0 <= j < |ks| ==>
                 var s := run[ks[j]];
                 past[j] == Moment(s.lines, s.generation, Last(EventBase(s, acts[ks[j]].mode)).sel)
    decreases |acts|
  {
    hide Valid, Enabled, DoAction, Initial, Next, Moments, EventBase, StartsEvent, HasChange;
    RunStaysValid(run, acts);
    if acts == [] {
      NothingPast(run[0]);
    } else {
      var m := |acts| - 1;
      RunStory(run, acts, m);
      PrefixIsRun(run, acts, m);
      DepthStays(run, acts, m);
      PastOfRun(run[..m + 1], acts[..m]);
      StepAddsStart(run[m], acts[m]);
    }
  }

  lemma NothingPast(s: State)
    requires Initial(s) && Valid(s)
    ensures Tell(s).past == []
  {
    MomentsCounted(s.done, s.lines);
  }

  /** Undoing `n` times after edits and selections restores what was there before the `n`-th event
      from the end, however many changes were merged into the events. */
  lemma UndoRevertsEvents(run: seq<State>, acts: seq<Action>, k: nat)
    requires IsRun(run, acts) && k < |acts| && run[0].undoDepth.Unlimited? && TopFits(run[0])
    requires forall i :: 0 <= i < |acts| ==> if i < k then GoesOn(acts[i]) else acts[i].Undo?
    ensures var ks, n, t := Starts(run[..k + 1], acts[..k]), |acts| - k, Last(run);
            n <= |ks| ==>
              var s := run[ks[n - 1]];
              t.lines == s.lines && t.generation == s.generation && t.sel == s.sel
  {
    hide Valid, Enabled, DoAction, Initial, Moments, EventBase, StartsEvent, TopFits, Joins;
    PrefixIsRun(run, acts, k);
    PastOfRun(run[..k + 1], acts[..k]);
    UndoTimes(run, acts, k);
    var ks, n := Starts(run[..k + 1], acts[..k]), |acts| - k;
    if n <= |ks| {
      var j := ks[n - 1];
      TopFitsInRun(run, acts, j);
      StartDoesNotJoin(run[j], acts[j]);
      SelOfBase(run[j], acts[j].mode);
    }
  }

  lemma StartDoesNotJoin(s: State, a: Action)
    requires StartsEvent(s, a)
    ensures a.Edit? && !Joins(s, a.mode)
  {
  }
}
