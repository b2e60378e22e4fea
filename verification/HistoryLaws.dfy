/** What the undo history guarantees over every run of edits, merges, undos, redos and selection
    changes: generations name texts, undo is exact, redo takes an undo back. */
module HistoryLaws {
  import opened Text
  import opened Changes
  import opened HistoryModel

  // ----- replaying events -----

  lemma {:induction false} ReplayAppend(d: Lines, xs: seq<Change>, ys: seq<Change>)
    requires Replayable(d, ys) && Replayable(Replay(d, ys), xs)
    ensures Replayable(d, xs + ys) && Replay(d, xs + ys) == Replay(Replay(d, ys), xs)
    decreases |ys|
  {
    hide Apply;
    if ys == [] {
      assert xs + ys == xs;
    } else {
      ReplayAppend(Apply(d, Last(ys)), xs, ys[..|ys| - 1]);
      assert (xs + ys)[..|xs + ys| - 1] == xs + ys[..|ys| - 1];
    }
  }

  /** The inverses recorded while an event is reverted revert that reversion. */
  lemma {:induction false} AntisRevert(d: Lines, cs: seq<Change>)
    requires Replayable(d, cs)
    ensures Replayable(Replay(d, cs), Antis(d, cs)) && Replay(Replay(d, cs), Antis(d, cs)) == d
    decreases |cs|
  {
    hide Apply;
    if cs != [] {
      var c, rest := Last(cs), cs[..|cs| - 1];
      var d' := Apply(d, c);
      AntisRevert(d', rest);
      InvertUndoes(d, c);
      var inv := [Invert(d, c)];
      assert inv[..|inv| - 1] == [];
      ReplayAppend(Replay(d, cs), inv, Antis(d', rest));
    }
  }

  /** A change joined to an event leaves what undoing the event restores. */
  lemma JoinReverts(d: Lines, changes: seq<Change>, c: Change)
    requires |changes| > 0 && ValidChange(d, c) && Replayable(d, changes)
    ensures Replayable(Apply(d, c), Join(d, changes, c))
    ensures Replay(Apply(d, c), Join(d, changes, c)) == Replay(d, changes)
  {
    hide Apply;
    var last, joined := Last(changes), Join(d, changes, c);
    if Cmp(c.from, c.to) == 0 && Cmp(c.from, last.to) == 0 {
      WidenedRecordReverts(d, c, last);
      assert joined[..|joined| - 1] == changes[..|changes| - 1];
    } else {
      InvertUndoes(d, c);
      assert joined[..|joined| - 1] == changes;
    }
  }

  // ----- stacks whose events carry the generation of the text they restore -----

  /** `texts` names a text by its generation, and each event of the stack, popped in turn from
      text `d`, restores the text of its generation. */
  ghost predicate Restores(stack: seq<Event>, d: Lines, texts: map<nat, Lines>)
    decreases |stack|
  {
    stack == [] ||
    match Last(stack)
    case SelEvent(_) => Restores(stack[..|stack| - 1], d, texts)
    case ChangeEvent(cs, g) =>
      Replayable(d, cs) && g in texts && Replay(d, cs) == texts[g]
      && Restores(stack[..|stack| - 1], texts[g], texts)
  }

  ghost predicate Consistent(s: State, texts: map<nat, Lines>) {
    && Guarded(s.done) && Guarded(s.undone)
    && Restores(s.done, s.lines, texts) && Restores(s.undone, s.lines, texts)
    && s.generation in texts && texts[s.generation] == s.lines
    && forall g :: g in texts ==> 0 < g <= s.maxGeneration
  }

  lemma {:induction false} RestoresUnwinds(stack: seq<Event>, d: Lines, texts: map<nat, Lines>)
    requires Restores(stack, d, texts)
    ensures Unwinds(stack, d)
    decreases |stack|
  {
    if stack != [] {
      match Last(stack)
      case SelEvent(_) => RestoresUnwinds(stack[..|stack| - 1], d, texts);
      case ChangeEvent(cs, g) => RestoresUnwinds(stack[..|stack| - 1], texts[g], texts);
    }
  }

  lemma ConsistentIsValid(s: State, texts: map<nat, Lines>)
    requires Consistent(s, texts)
    ensures Valid(s)
  {
    RestoresUnwinds(s.done, s.lines, texts);
    RestoresUnwinds(s.undone, s.lines, texts);
  }

  lemma {:induction false} RestoresMoreTexts(stack: seq<Event>, d: Lines, texts: map<nat, Lines>, g: nat, t: Lines)
    requires Restores(stack, d, texts) && g !in texts
    ensures Restores(stack, d, texts[g := t])
    decreases |stack|
  {
    if stack != [] {
      match Last(stack)
      case SelEvent(_) => RestoresMoreTexts(stack[..|stack| - 1], d, texts, g, t);
      case ChangeEvent(cs, h) => RestoresMoreTexts(stack[..|stack| - 1], texts[h], texts, g, t);
    }
  }

  lemma {:induction false} RestoresSuffix(stack: seq<Event>, d: Lines, texts: map<nat, Lines>, k: nat)
    requires Restores(stack, d, texts) && k <= |stack|
    ensures Restores(stack[k..], d, texts)
    decreases |stack|
  {
    if k < |stack| {
      assert stack[k..][..|stack[k..]| - 1] == stack[..|stack| - 1][k..];
      match Last(stack)
      case SelEvent(_) => RestoresSuffix(stack[..|stack| - 1], d, texts, k);
      case ChangeEvent(cs, g) => RestoresSuffix(stack[..|stack| - 1], texts[g], texts, k);
    }
  }

  lemma RestoresPush(stack: seq<Event>, e: Event, d: Lines, texts: map<nat, Lines>)
    requires e.SelEvent? ==> Restores(stack, d, texts)
    requires e.ChangeEvent? ==>
               && Replayable(d, e.changes) && e.generation in texts
               && Replay(d, e.changes) == texts[e.generation]
               && Restores(stack, texts[e.generation], texts)
    ensures Restores(stack + [e], d, texts)
  {
    assert (stack + [e])[..|stack + [e]| - 1] == stack;
  }

  lemma PushSelKeeps(stack: seq<Event>, sel: Selection, d: Lines, texts: map<nat, Lines>)
    requires Guarded(stack) && Restores(stack, d, texts)
    ensures Guarded(PushSel(stack, sel)) && Restores(PushSel(stack, sel), d, texts)
    ensures PushSel(stack, sel) != [] && Last(PushSel(stack, sel)).SelEvent?
  {
    RestoresPush(stack, SelEvent(sel), d, texts);
  }

  lemma {:induction false} DropSelsKeeps(stack: seq<Event>, d: Lines, texts: map<nat, Lines>)
    requires Guarded(stack) && Restores(stack, d, texts)
    ensures Guarded(DropSels(stack)) && Restores(DropSels(stack), d, texts)
    decreases |stack|
  {
    if |stack| > 0 && Last(stack).SelEvent? {
      DropSelsKeeps(stack[..|stack| - 1], d, texts);
    }
  }

  lemma {:induction false} TrimKeeps(done: seq<Event>, depth: Depth, d: Lines, texts: map<nat, Lines>)
    requires Guarded(done) && Restores(done, d, texts)
    ensures Guarded(Trim(done, depth)) && Restores(Trim(done, depth), d, texts)
    decreases |done|
  {
    if depth.Limit? && |done| > depth.n {
      if |done| > 1 && done[1].ChangeEvent? {
        RestoresSuffix(done, d, texts, 2);
        TrimKeeps(done[2..], depth, d, texts);
      } else {
        RestoresSuffix(done, d, texts, 1);
        TrimKeeps(done[1..], depth, d, texts);
      }
    }
  }

  /** What is left fits the depth limit and is the newest part of the history. */
  lemma {:induction false} TrimFits(done: seq<Event>, depth: Depth)
    ensures depth.Limit? ==> |Trim(done, depth)| <= depth.n
    ensures |Trim(done, depth)| <= |done| && Trim(done, depth) == done[|done| - |Trim(done, depth)|..]
    decreases |done|
  {
    if depth.Limit? && |done| > depth.n {
      var k := if |done| > 1 && done[1].ChangeEvent? then 2 else 1;
      var rest := done[k..];
      TrimFits(rest, depth);
      var n := |Trim(rest, depth)|;
      assert rest[|rest| - n..] == done[|done| - n..];
    }
  }

  lemma {:induction false} MoveSelsKeeps(source: seq<Event>, dest: seq<Event>, sel: Selection,
                                         d: Lines, texts: map<nat, Lines>)
    requires Guarded(dest) && Restores(dest, d, texts)
    ensures var (_, dst, _) := MoveSels(source, dest, sel);
            Guarded(dst) && Restores(dst, d, texts)
    decreases |source|
  {
    if |source| > 0 && Last(source).SelEvent? {
      PushSelKeeps(dest, Last(source).sel, d, texts);
      MoveSelsKeeps(source[..|source| - 1], PushSel(dest, Last(source).sel), Last(source).sel, d, texts);
    }
  }

  // ----- one step -----

  predicate Enabled(s: State, a: Action) {
    match a
    case Edit(c, _, _) => ValidChange(s.lines, c)
    case Undo => true
    case Redo => true
    // replacing the top entry is only taken when that entry is not a change event;
    // see ReplacingTopKeepsEvents for what happens otherwise
    case Select(_, replaceTop, _) => replaceTop ==> s.done == [] || Last(s.done).SelEvent?
  }

  /** The texts named so far, after a step. */
  ghost function TextsAfter(texts: map<nat, Lines>, s: State): map<nat, Lines> {
    if s.generation in texts then texts else texts[s.generation := s.lines]
  }

  lemma LastEventRestores(s: State, texts: map<nat, Lines>, mode: MergeMode)
    requires Consistent(s, texts)
    ensures var (done, found) := LastChangeEvent(s.done, mode);
            && Guarded(done) && Restores(done, s.lines, texts)
            && (found ==> done != [] && Last(done).ChangeEvent?)
  {
    DropSelsKeeps(s.done, s.lines, texts);
  }

  lemma MergedRestores(done: seq<Event>, d: Lines, c: Change, texts: map<nat, Lines>)
    requires Guarded(done) && Restores(done, d, texts) && ValidChange(d, c)
    requires done != [] && Last(done).ChangeEvent?
    ensures var cur := Last(done);
            var r := done[..|done| - 1] + [cur.(changes := Join(d, cur.changes, c))];
            Guarded(r) && Restores(r, Apply(d, c), texts)
  {
    hide Apply, Join;
    var cur := Last(done);
    JoinReverts(d, cur.changes, c);
    JoinNotEmpty(d, cur.changes, c);
    RestoresPush(done[..|done| - 1], cur.(changes := Join(d, cur.changes, c)), Apply(d, c), texts);
  }

  lemma JoinNotEmpty(d: Lines, changes: seq<Change>, c: Change)
    requires |changes| > 0 && ValidChange(d, c)
    ensures |Join(d, changes, c)| > 0
  {
  }

  lemma NewEventRestores(base: seq<Event>, d: Lines, c: Change, g: nat, texts: map<nat, Lines>)
    requires Guarded(base) && Restores(base, d, texts) && ValidChange(d, c)
    requires base != [] && Last(base).SelEvent? && g in texts && texts[g] == d
    ensures var r := base + [ChangeEvent([Invert(d, c)], g)];
            Guarded(r) && Restores(r, Apply(d, c), texts)
  {
    hide Apply, Invert;
    InvertUndoes(d, c);
    var e := ChangeEvent([Invert(d, c)], g);
    assert e.changes[..0] == [];
    RestoresPush(base, e, Apply(d, c), texts);
  }

  /** What is recorded for a change restores the text from before the event it went into. */
  lemma RecordRestores(s: State, c: Change, mode: MergeMode, texts: map<nat, Lines>)
    requires Consistent(s, texts) && ValidChange(s.lines, c)
    ensures Guarded(Record(s, c, mode)) && Restores(Record(s, c, mode), Apply(s.lines, c), texts)
  {
    hide Apply, Join, Invert, Restores, LastChangeEvent, Trim;
    var (done, found) := LastChangeEvent(s.done, mode);
    LastEventRestores(s, texts, mode);
    if found {
      MergedRestores(done, s.lines, c, texts);
    } else {
      PushSelKeeps(done, s.sel, s.lines, texts);
      var base := if |done| > 0 && Last(done).SelEvent? then done else PushSel(done, s.sel);
      NewEventRestores(base, s.lines, c, s.generation, texts);
      TrimKeeps(base + [ChangeEvent([Invert(s.lines, c)], s.generation)], s.undoDepth,
                Apply(s.lines, c), texts);
    }
  }

  lemma NothingRestores(d: Lines, texts: map<nat, Lines>)
    ensures Restores([], d, texts)
  {
  }

  lemma EditKeeps(s: State, c: Change, mode: MergeMode, selAfter: Selection, texts: map<nat, Lines>)
    requires Consistent(s, texts) && ValidChange(s.lines, c) && Valid(s)
    ensures var t := DoEdit(s, c, mode, selAfter); Consistent(t, TextsAfter(texts, t))
  {
    hide Apply, Record, Restores;
    if !NoOp(c) {
      var t := DoEdit(s, c, mode, selAfter);
      NothingRestores(t.lines, TextsAfter(texts, t));
      RecordRestores(s, c, mode, texts);
      RestoresPush(Record(s, c, mode), SelEvent(selAfter), t.lines, texts);
      assert t.generation !in texts;
      RestoresMoreTexts(t.done, t.lines, texts, t.generation, t.lines);
    }
  }

  /** Taking a change event off the top leads to the text of its generation. */
  lemma TopRestores(stack: seq<Event>, d: Lines, texts: map<nat, Lines>)
    requires Guarded(stack) && Restores(stack, d, texts) && stack != [] && Last(stack).ChangeEvent?
    ensures var e, rest := Last(stack), stack[..|stack| - 1];
            && e.changes != [] && Replayable(d, e.changes)
            && e.generation in texts && Replay(d, e.changes) == texts[e.generation]
            && Guarded(rest) && Restores(rest, texts[e.generation], texts)
  {
    hide Replayable, Replay;
  }

  /** The inverses of an event, put on a stack, lead back to the text before it was reverted. */
  lemma AntisRestore(base: seq<Event>, d: Lines, cs: seq<Change>, g: nat, texts: map<nat, Lines>)
    requires Guarded(base) && Restores(base, d, texts) && base != [] && Last(base).SelEvent?
    requires cs != [] && Replayable(d, cs) && g in texts && texts[g] == d
    ensures var r := base + [ChangeEvent(Antis(d, cs), g)];
            Guarded(r) && Restores(r, Replay(d, cs), texts)
  {
    hide Restores, Antis, Replay, Replayable, Guarded;
    AntisRevert(d, cs);
    GuardedPush(base, ChangeEvent(Antis(d, cs), g));
    RestoresPush(base, ChangeEvent(Antis(d, cs), g), Replay(d, cs), texts);
  }

  lemma GuardedPush(base: seq<Event>, e: Event)
    requires Guarded(base) && base != [] && Last(base).SelEvent? && (e.ChangeEvent? ==> e.changes != [])
    ensures Guarded(base + [e])
  {
    var r := base + [e];
    assert forall i :: 0 <= i < |base| ==> r[i] == base[i];
  }

  /** Reverting the top event keeps both stacks consistent with the restored text. */
  lemma RevertKeeps(source: seq<Event>, dest: seq<Event>, s: State, texts: map<nat, Lines>)
    requires Guarded(source) && Restores(source, s.lines, texts) && HasChange(source)
    requires Guarded(dest) && Restores(dest, s.lines, texts)
    requires s.generation in texts && texts[s.generation] == s.lines && Unwinds(source, s.lines)
    ensures var r := Revert(source, dest, s);
            && Guarded(r.source) && Restores(r.source, r.lines, texts)
            && Guarded(r.dest) && Restores(r.dest, r.lines, texts)
            && r.generation in texts && texts[r.generation] == r.lines
  {
    hide Apply, Antis, Replayable, Replay, Restores, Guarded, PushSel, DropSels, MoveSels, Unwinds, HasChange;
    var (src, dst, selAfter) := MoveSels(source, dest, s.sel);
    PoppedUnwinds(source, s.lines);
    DropSelsKeeps(source, s.lines, texts);
    MoveSelsKeeps(source, dest, s.sel, s.lines, texts);
    PushSelKeeps(dst, selAfter, s.lines, texts);
    TopRestores(src, s.lines, texts);
    AntisRestore(PushSel(dst, selAfter), s.lines, Last(src).changes, s.generation, texts);
  }

  lemma UndoKeeps(s: State, texts: map<nat, Lines>)
    requires Valid(s) && Consistent(s, texts)
    ensures Consistent(DoUndo(s), texts)
  {
    hide Restores, Revert, Guarded, Unwinds;
    if HasChange(s.done) {
      RevertKeeps(s.done, s.undone, s, texts);
    }
  }

  lemma RedoKeeps(s: State, texts: map<nat, Lines>)
    requires Valid(s) && Consistent(s, texts)
    ensures Consistent(DoRedo(s), texts)
  {
    hide Restores, Revert, Guarded, Unwinds;
    if HasChange(s.undone) {
      RevertKeeps(s.undone, s.done, s, texts);
    }
  }

  lemma SelectKeeps(s: State, sel: Selection, replaceTop: bool, clearRedo: bool, texts: map<nat, Lines>)
    requires Consistent(s, texts) && (replaceTop ==> s.done == [] || Last(s.done).SelEvent?)
    ensures Consistent(DoSelect(s, sel, replaceTop, clearRedo), texts)
  {
    hide Restores, PushSel, DropSels, Guarded;
    PushSelKeeps(s.done, sel, s.lines, texts);
    DropSelsKeeps(s.undone, s.lines, texts);
    if replaceTop && s.done != [] {
      ReplacedSelKeeps(s.done, sel, s.lines, texts);
    }
  }

  lemma ReplacedSelKeeps(stack: seq<Event>, sel: Selection, d: Lines, texts: map<nat, Lines>)
    requires Guarded(stack) && Restores(stack, d, texts) && stack != [] && Last(stack).SelEvent?
    ensures var r := stack[..|stack| - 1] + [SelEvent(sel)]; Guarded(r) && Restores(r, d, texts)
  {
    RestoresPush(stack[..|stack| - 1], SelEvent(sel), d, texts);
    hide Restores;
  }

  lemma StepKeeps(s: State, a: Action, texts: map<nat, Lines>)
    requires Valid(s) && Consistent(s, texts) && Enabled(s, a)
    ensures var t := DoAction(s, a); Consistent(t, TextsAfter(texts, t))
  {
    hide Valid, DoEdit, DoUndo, DoRedo, DoSelect;
    match a
    case Edit(c, mode, sel) => EditKeeps(s, c, mode, sel, texts);
    case Undo => UndoKeeps(s, texts);
    case Redo => RedoKeeps(s, texts);
    case Select(sel, replaceTop, clearRedo) => SelectKeeps(s, sel, replaceTop, clearRedo, texts);
  }

  function DoAction(s: State, a: Action): State
    requires Valid(s) && Enabled(s, a)
  {
    match a
    case Edit(c, mode, sel) => DoEdit(s, c, mode, sel)
    case Undo => DoUndo(s)
    case Redo => DoRedo(s)
    case Select(sel, replaceTop, clearRedo) => DoSelect(s, sel, replaceTop, clearRedo)
  }

  // ----- whole runs -----

  predicate Initial(s: State) {
    0 < s.generation == s.maxGeneration && !HasChange(s.done) && !HasChange(s.undone)
  }

  /** `run` is the states a document goes through under `acts`. */
  predicate IsRun(run: seq<State>, acts: seq<Action>) {
    && |run| == |acts| + 1
    && Initial(run[0])
    && forall i :: 0 <= i < |acts| ==>
         Valid(run[i]) && Enabled(run[i], acts[i]) && run[i + 1] == DoAction(run[i], acts[i])
  }

  lemma {:induction false} SelectionsRestore(stack: seq<Event>, d: Lines, texts: map<nat, Lines>)
    requires !HasChange(stack)
    ensures Restores(stack, d, texts)
    decreases |stack|
  {
    if stack != [] {
      assert stack[|stack| - 1].SelEvent?;
      SelectionsRestore(stack[..|stack| - 1], d, texts);
    }
  }

  /** One map names the text of every generation that occurs in a run. */
  lemma {:induction false} RunIsConsistent(run: seq<State>, acts: seq<Action>) returns (texts: map<nat, Lines>)
    requires IsRun(run, acts)
    ensures Consistent(Last(run), texts) && Names(run, texts)
    decreases |acts|
  {
    var s := Last(run);
    if acts == [] {
      texts := map[s.generation := s.lines];
      SelectionsRestore(s.done, s.lines, texts);
      SelectionsRestore(s.undone, s.lines, texts);
      assert run[0].generation == s.generation;
    } else {
      var n := |acts| - 1;
      var before := run[..n + 1];
      var texts0 := RunIsConsistent(before, acts[..n]);
      StepKeeps(run[n], acts[n], texts0);
      texts := TextsAfter(texts0, s);
      assert before + [s] == run;
      NamesGrow(before, s, texts0);
    }
  }

  /** The texts of the states of a run, and of no others. */
  ghost predicate Names(run: seq<State>, texts: map<nat, Lines>) {
    && (forall i :: 0 <= i < |run| ==> run[i].generation in texts && texts[run[i].generation] == run[i].lines)
    && forall g :: g in texts ==> exists i :: 0 <= i < |run| && run[i].generation == g
  }

  lemma NamesGrow(before: seq<State>, s: State, texts0: map<nat, Lines>)
    requires Names(before, texts0)
    requires s.generation in TextsAfter(texts0, s) && TextsAfter(texts0, s)[s.generation] == s.lines
    ensures Names(before + [s], TextsAfter(texts0, s))
  {
    var run, texts := before + [s], TextsAfter(texts0, s);
    forall g | g in texts
      ensures exists i :: 0 <= i < |run| && run[i].generation == g
    {
      if g in texts0 {
        var i :| 0 <= i < |before| && before[i].generation == g;
        assert run[i].generation == g;
      } else {
        assert run[|before|].generation == g;
      }
    }
  }

  /** No reachable state is stuck: every state of a run is valid, so every enabled action can be
      taken from it. */
  lemma RunStaysValid(run: seq<State>, acts: seq<Action>)
    requires IsRun(run, acts)
    ensures forall i :: 0 <= i < |run| ==> Valid(run[i])
  {
    hide Consistent, Names, Valid, Enabled, DoAction, Initial;
    var texts := RunIsConsistent(run, acts);
    ConsistentIsValid(Last(run), texts);
  }

  /** Two states of a run with the same generation have the same text.  So `isClean` answers
      true only for the text that was marked clean. */
  lemma GenerationNamesText(run: seq<State>, acts: seq<Action>, i: nat, j: nat)
    requires IsRun(run, acts) && i < |run| && j < |run|
    requires run[i].generation == run[j].generation
    ensures run[i].lines == run[j].lines
  {
    hide Consistent, IsRun;
    var texts := RunIsConsistent(run, acts);
  }

  /** Every event a run has left on the undo stack restores a text the document had: undoing it
      leads to the text and the generation of an earlier state. */
  lemma UndoRestoresEarlierState(run: seq<State>, acts: seq<Action>) returns (i: nat)
    requires IsRun(run, acts) && HasChange(Last(run).done)
    ensures Valid(Last(run)) && i < |run|
    ensures DoUndo(Last(run)).lines == run[i].lines
    ensures DoUndo(Last(run)).generation == run[i].generation
  {
    var texts := RunIsConsistent(run, acts);
    var s := Last(run);
    ConsistentIsValid(s, texts);
    RevertKeeps(s.done, s.undone, s, texts);
    var g := Revert(s.done, s.undone, s).generation;
    i :| 0 <= i < |run| && run[i].generation == g;
  }

  // ----- undo and redo as inverses -----

  /** The text that undoing the top change event restores. */
  function TopText(s: State): Lines
    requires Valid(s) && HasChange(s.done)
  {
    PoppedUnwinds(s.done, s.lines);
    Replay(s.lines, Last(DropSels(s.done)).changes)
  }

  lemma UndoRestoresTopText(s: State)
    requires Valid(s) && HasChange(s.done)
    ensures DoUndo(s).lines == TopText(s)
  {
  }

  /** A change that starts an event: undoing that event gives the text from before the change. */
  lemma NewEventUndoes(s: State, c: Change, mode: MergeMode, sel: Selection)
    requires Valid(s) && ValidChange(s.lines, c) && !NoOp(c)
    requires !LastChangeEvent(s.done, mode).1
    requires Valid(DoEdit(s, c, mode, sel)) && HasChange(DoEdit(s, c, mode, sel).done)
    ensures TopText(DoEdit(s, c, mode, sel)) == s.lines
  {
    hide Apply;
    var t := DoEdit(s, c, mode, sel);
    var (done, _) := LastChangeEvent(s.done, mode);
    var base := if |done| > 0 && Last(done).SelEvent? then done else PushSel(done, s.sel);
    var e := ChangeEvent([Invert(s.lines, c)], s.generation);
    TrimKeepsTop(base + [e], s.undoDepth);
    InvertUndoes(s.lines, c);
    SelOnTop(Record(s, c, mode), sel);
    assert DropSels(t.done) == Record(s, c, mode);
    assert Last(DropSels(t.done)) == e;
    assert e.changes[..|e.changes| - 1] == [];
    assert Replay(t.lines, e.changes) == Replay(s.lines, []);
  }

  /** A change merged into the top event: undoing the event still gives the text from before the
      event's first change. */
  lemma MergedEventUndoes(s: State, c: Change, mode: MergeMode, sel: Selection)
    requires Valid(s) && ValidChange(s.lines, c) && !NoOp(c)
    requires LastChangeEvent(s.done, mode).1
    requires Valid(DoEdit(s, c, mode, sel)) && HasChange(DoEdit(s, c, mode, sel).done)
    ensures HasChange(s.done) && TopText(DoEdit(s, c, mode, sel)) == TopText(s)
  {
    hide Apply;
    var t := DoEdit(s, c, mode, sel);
    var (done, _) := LastChangeEvent(s.done, mode);
    PoppedUnwinds(s.done, s.lines);
    assert done == DropSels(s.done) by {
      if mode.ByOrigin? && Last(s.done).SelEvent? {
        assert DropSels(s.done) == DropSels(done) == done;
      }
    }
    assert s.done[|done| - 1].ChangeEvent?;
    JoinReverts(s.lines, Last(done).changes, c);
    SelOnTop(Record(s, c, mode), sel);
  }

  lemma SelectKeepsTop(s: State, sel: Selection, replaceTop: bool, clearRedo: bool)
    requires Enabled(s, Select(sel, replaceTop, clearRedo))
    ensures var t := DoSelect(s, sel, replaceTop, clearRedo);
            && t.lines == s.lines && DropSels(t.done) == DropSels(s.done)
            && (HasChange(t.done) ==> HasChange(s.done))
  {
    hide DropSels, HasChange;
    SelOnTop(s.done, sel);
    if replaceTop && s.done != [] {
      var below := s.done[..|s.done| - 1];
      SelOnTop(below, sel);
      SelOnTop(below, Last(s.done).sel);
      assert s.done == below + [SelEvent(Last(s.done).sel)];
    }
  }

  lemma {:induction false} TrimKeepsTop(done: seq<Event>, depth: Depth)
    requires |done| > 0
    ensures Trim(done, depth) != [] ==> Last(Trim(done, depth)) == Last(done)
    decreases |done|
  {
    if depth.Limit? && |done| > depth.n {
      var rest := if |done| > 1 && done[1].ChangeEvent? then done[2..] else done[1..];
      if rest != [] {
        TrimKeepsTop(rest, depth);
      }
    }
  }

  lemma SelOnTop(stack: seq<Event>, sel: Selection)
    ensures HasChange(stack + [SelEvent(sel)]) <==> HasChange(stack)
    ensures DropSels(stack + [SelEvent(sel)]) == DropSels(stack)
    ensures stack != [] && Last(stack).ChangeEvent? ==> DropSels(stack) == stack
  {
    var st := stack + [SelEvent(sel)];
    assert st[..|st| - 1] == stack && Last(st) == SelEvent(sel);
    if HasChange(stack) {
      var i :| 0 <= i < |stack| && stack[i].ChangeEvent?;
      assert st[i] == stack[i];
    }
  }

  /** The action leaves the top change event in place, or only adds to it. */
  predicate Extends(s: State, a: Action) {
    match a
    case Edit(c, mode, _) => NoOp(c) || LastChangeEvent(s.done, mode).1
    case Select(_, _, _) => true
    case Undo => false
    case Redo => false
  }

  lemma ExtensionKeepsTop(s: State, a: Action)
    requires Valid(s) && Enabled(s, a) && Extends(s, a)
    requires Valid(DoAction(s, a)) && HasChange(DoAction(s, a).done)
    ensures HasChange(s.done) && TopText(DoAction(s, a)) == TopText(s)
  {
    hide Apply;
    match a
    case Edit(c, mode, sel) =>
      if !NoOp(c) {
        MergedEventUndoes(s, c, mode, sel);
      }
    case Select(sel, replaceTop, clearRedo) => SelectKeepsTop(s, sel, replaceTop, clearRedo);
  }

  /** Undoing an event restores exactly the text from before its first change, however many
      changes were merged into it: step `k` starts the event, every later step extends it. */
  lemma {:induction false} UndoRevertsWholeEvent(run: seq<State>, acts: seq<Action>, k: nat)
    requires IsRun(run, acts) && k < |acts| && HasChange(Last(run).done)
    requires acts[k].Edit? && !NoOp(acts[k].change)
    requires !LastChangeEvent(run[k].done, acts[k].mode).1
    requires forall i :: k < i < |acts| ==> Extends(run[i], acts[i])
    ensures Valid(Last(run)) && DoUndo(Last(run)).lines == run[k].lines
    decreases |acts|
  {
    hide Valid, DoUndo, TopText, Extends, HasChange, LastChangeEvent, DoEdit;
    RunStaysValid(run, acts);
    var n := |acts| - 1;
    var s, a := run[n], acts[n];
    if n == k {
      NewEventUndoes(s, a.change, a.mode, a.selAfter);
    } else {
      ExtensionKeepsTop(s, a);
      UndoRestoresTopText(s);
      UndoRevertsWholeEvent(run[..n + 1], acts[..n], k);
    }
    UndoRestoresTopText(Last(run));
  }

  lemma NextIsRun(run: seq<State>, acts: seq<Action>, a: Action)
    requires IsRun(run, acts) && Valid(Last(run)) && Enabled(Last(run), a)
    ensures IsRun(run + [DoAction(Last(run), a)], acts + [a])
  {
    hide Valid, Enabled, DoAction;
  }

  /** Redo takes an undo back, text and generation, in every state a run reaches. */
  lemma RedoAfterUndo(run: seq<State>, acts: seq<Action>)
    requires IsRun(run, acts) && HasChange(Last(run).done)
    ensures var s := Last(run);
            && Valid(s) && Valid(DoUndo(s))
            && DoRedo(DoUndo(s)).lines == s.lines
            && DoRedo(DoUndo(s)).generation == s.generation
  {
    hide Apply;
    var s := Last(run);
    RunStaysValid(run, acts);
    NextIsRun(run, acts, Undo);
    var t := DoUndo(s);
    RunStaysValid(run + [t], acts + [Undo]);
    assert (run + [t])[|run|] == t;
    PoppedUnwinds(s.done, s.lines);
    AntisRevert(s.lines, Last(DropSels(s.done)).changes);
    assert t.undone[|t.undone| - 1].ChangeEvent?;
  }

  /** Undo takes a redo back. */
  lemma UndoAfterRedo(run: seq<State>, acts: seq<Action>)
    requires IsRun(run, acts) && HasChange(Last(run).undone)
    ensures var s := Last(run);
            && Valid(s) && Valid(DoRedo(s))
            && DoUndo(DoRedo(s)).lines == s.lines
            && DoUndo(DoRedo(s)).generation == s.generation
  {
    hide Apply;
    var s := Last(run);
    RunStaysValid(run, acts);
    NextIsRun(run, acts, Redo);
    var t := DoRedo(s);
    RunStaysValid(run + [t], acts + [Redo]);
    assert (run + [t])[|run|] == t;
    PoppedUnwinds(s.undone, s.lines);
    AntisRevert(s.lines, Last(DropSels(s.undone)).changes);
    assert t.done[|t.done| - 1].ChangeEvent?;
  }

  // ----- a selection that replaces the top entry -----

  function ChangeEvents(stack: seq<Event>): seq<Event> {
    if stack == [] then []
    else ChangeEvents(stack[..|stack| - 1]) + if Last(stack).ChangeEvent? then [Last(stack)] else []
  }

  /** A selection that takes the place of the top entry keeps the undo events exactly when that
      entry is not one of them. */
  lemma ReplacingTopKeepsEvents(s: State, sel: Selection, clearRedo: bool)
    ensures ChangeEvents(DoSelect(s, sel, true, clearRedo).done) == ChangeEvents(s.done)
            <==> s.done == [] || Last(s.done).SelEvent?
  {
    if s.done != [] {
      var t := DoSelect(s, sel, true, clearRedo);
      assert t.done[..|t.done| - 1] == s.done[..|s.done| - 1];
    }
  }
}
