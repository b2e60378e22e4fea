/** The document with its history, updated in place. */
module Editor {
  import opened Text
  import opened Changes
  import opened Document
  import opened HistoryModel
  import opened HistoryLaws
  import opened Markers
  import opened DocumentView

  /** Pop the selections off the end of a history array. */
  method ClearSelectionEvents(stack0: seq<Event>) returns (stack: seq<Event>)
    ensures stack == DropSels(stack0)
  {
    stack := stack0;
    while |stack| > 0 && Last(stack).SelEvent?
      invariant DropSels(stack) == DropSels(stack0)
      decreases |stack|
    {
      stack := stack[..|stack| - 1];
    }
  }

  /** Drop the oldest entries until at most `depth` are left.  The entry below a change event is a
      selection, so a shift never empties the array before the second test reads its head. */
  method TrimHistory(done0: seq<Event>, depth: Depth) returns (done: seq<Event>)
    requires Guarded(done0) && done0 != [] && Last(done0).ChangeEvent?
    ensures done == Trim(done0, depth)
  {
    done := done0;
    while depth.Limit? && |done| > depth.n
      invariant Trim(done, depth) == Trim(done0, depth)
      invariant Guarded(done) && (done != [] ==> Last(done).ChangeEvent?)
      decreases |done|
    {
      done := done[1..];
      if done[0].ChangeEvent? {
        done := done[1..];
      }
    }
  }

  /** What is recorded does not depend on the redo stack, which is cleared first. */
  lemma ReadyToRecord(s: State, c: Change, texts: map<nat, Lines>, mode: MergeMode)
    requires Consistent(s, texts) && ValidChange(s.lines, c)
    ensures forall i :: 0 <= i < |s.done| && s.done[i].ChangeEvent? ==> |s.done[i].changes| > 0
    ensures var (base, found) := LastChangeEvent(s.done, mode);
            Guarded(base) && (found ==> base != [] && Last(base).ChangeEvent?)
    ensures Record(s.(undone := []), c, mode) == Record(s, c, mode)
  {
    hide Restores, Join, Invert, Trim, LastChangeEvent;
    LastEventRestores(s, texts, mode);
  }

  class Editor {
    const doc: Doc
    /** The height a line of some text is expected to have. */
    const estimate: string -> int
    var sel: Selection
    var done: seq<Event>
    var undone: seq<Event>
    var generation: nat
    var maxGeneration: nat
    var cleanGeneration: nat
    var undoDepth: Depth
    /** The text each generation has stood for. */
    ghost var texts: map<nat, Lines>

    ghost function Value(): State
      reads this, doc, doc.tree
      requires doc.Valid()
    {
      State(doc.lines, sel, done, undone, generation, maxGeneration, undoDepth)
    }

    ghost predicate Invariant()
      reads this, doc, doc.tree
    {
      doc.Valid() && Consistent(Value(), texts) && HistoryModel.Valid(Value()) && cleanGeneration in texts
    }

    constructor (estimate: string -> int)
      ensures Invariant() && fresh(doc) && fresh(doc.tree) && doc.lines == [""] && done == [] && undone == []
      ensures generation == maxGeneration == cleanGeneration == 1
    {
      doc := new Doc(estimate(""));
      this.estimate := estimate;
      sel := Selection([Range(Pos(0, 0), Pos(0, 0))], 0);
      done, undone := [], [];
      generation, maxGeneration, cleanGeneration := 1, 1, 1;
      undoDepth := Unlimited;
      texts := map[1 := [""]];
    }

    /** Find the event the change may join, popping the selections above it. */
    method FindLastEvent(mode: MergeMode) returns (found: bool)
      modifies this`done
      ensures (done, found) == LastChangeEvent(old(done), mode)
    {
      found := false;
      match mode {
        case Fresh =>
        case SameOperation =>
          done := ClearSelectionEvents(done);
          found := |done| > 0;
        case ByOrigin =>
          if |done| > 0 && Last(done).ChangeEvent? {
            found := true;
          } else if |done| > 1 && done[|done| - 2].ChangeEvent? {
            done := done[..|done| - 1];
            found := true;
          }
      }
    }

    method HistoryChangeFromChange(change: Change) returns (r: Change)
      requires doc.Valid() && ValidChange(doc.lines, change)
      ensures r == Invert(doc.lines, change)
    {
      var removed := doc.GetBetween(change.from, change.to);
      r := Change(change.from, ChangeEnd(change), removed);
    }

    /** Merge a change into an event. */
    method JoinChange(changes: seq<Change>, change: Change) returns (r: seq<Change>)
      requires doc.Valid() && ValidChange(doc.lines, change) && |changes| > 0
      ensures r == Join(doc.lines, changes, change)
    {
      var last := Last(changes);
      if Cmp(change.from, change.to) == 0 && Cmp(change.from, last.to) == 0 {
        r := changes[..|changes| - 1] + [last.(to := ChangeEnd(change))];
      } else {
        var inverse := HistoryChangeFromChange(change);
        r := changes + [inverse];
      }
    }

    /** Begin a new event, above a selection. */
    method StartEvent(change: Change)
      requires doc.Valid() && ValidChange(doc.lines, change) && Guarded(done)
      modifies this`done
      ensures var base := if |old(done)| > 0 && Last(old(done)).SelEvent? then old(done) else PushSel(old(done), sel);
              done == Trim(base + [ChangeEvent([Invert(doc.lines, change)], generation)], undoDepth)
    {
      hide Invert, Trim, Doc.ValidWith, Doc.Rows;
      if |done| == 0 || !Last(done).SelEvent? {
        done := PushSel(done, sel);
      }
      var inverse := HistoryChangeFromChange(change);
      done := done + [ChangeEvent([inverse], generation)];
      done := TrimHistory(done, undoDepth);
    }

    /** Join the change to the last event, or begin a new one. */
    method RecordChange(change: Change, mode: MergeMode)
      requires doc.Valid() && ValidChange(doc.lines, change)
      requires forall i :: 0 <= i < |done| && done[i].ChangeEvent? ==> |done[i].changes| > 0
      requires var (base, found) := LastChangeEvent(done, mode);
                 Guarded(base) && (found ==> base != [] && Last(base).ChangeEvent?)
      modifies this`done
      ensures done == old(Record(Value(), change, mode))
    {
      hide Apply, Invert, Join, Trim, LastChangeEvent, Doc.ValidWith, Doc.Rows;
      var found := FindLastEvent(mode);
      if found {
        var cur := Last(done);
        var changes := JoinChange(cur.changes, change);
        done := done[..|done| - 1] + [cur.(changes := changes)];
      } else {
        StartEvent(change);
      }
    }

    /** Register a change in the history, before it is applied to the lines. */
    method AddChangeToHistory(change: Change, mode: MergeMode, selAfter: Selection)
      requires Invariant() && ValidChange(doc.lines, change)
      modifies this`done, this`undone, this`generation, this`maxGeneration
      ensures done == old(Record(Value(), change, mode)) + [SelEvent(selAfter)] && undone == []
      ensures generation == maxGeneration == old(maxGeneration) + 1
    {
      hide Apply, Invert, Join, Guarded, LastChangeEvent, Consistent, HistoryModel.Valid, Record, Doc.ValidWith,
        Doc.Rows;
      ReadyToRecord(Value(), change, texts, mode);
      undone := [];
      RecordChange(change, mode);
      done := done + [SelEvent(selAfter)];
      maxGeneration := maxGeneration + 1;
      generation := maxGeneration;
    }

    /** Apply a change to the lines and their markers. */
    method ChangeText(change: Change, full: bool, wholeLineUpdateBefore: bool)
      requires doc.Valid() && ValidChange(doc.lines, change)
      requires full ==> change.from == Pos(0, 0) && change.to == EndOf(doc.lines)
      modifies doc, doc.tree
      ensures doc.Valid() && doc.lines == Apply(old(doc.lines), change)
    {
      hide Doc.ValidWith, Doc.Rows, Apply, Stretched;
      var marked := SpansFor(doc, change, full);
      doc.UpdateDoc(change, marked, full, wholeLineUpdateBefore, estimate);
    }

    /** Apply a change and record it. */
    method MakeChange(change: Change, full: bool, wholeLineUpdateBefore: bool, mode: MergeMode,
                      selAfter: Selection)
      requires Invariant() && ValidChange(doc.lines, change)
      requires full ==> change.from == Pos(0, 0) && change.to == EndOf(doc.lines)
      modifies this`sel, this`done, this`undone, this`generation, this`maxGeneration, this`texts, doc, doc.tree
      ensures Invariant() && Value() == old(DoEdit(Value(), change, mode, selAfter))
      ensures texts == TextsAfter(old(texts), Value())
    {
      hide Doc.ValidWith, Doc.Rows, Apply, Record, Restores, Unwinds;
      if change.text == [""] && Cmp(change.from, change.to) == 0 {
        return;
      }
      EditKeeps(Value(), change, mode, selAfter, texts);
      AddChangeToHistory(change, mode, selAfter);
      ChangeText(change, full, wholeLineUpdateBefore);
      sel := selAfter;
      texts := TextsAfter(texts, Value());
      ConsistentIsValid(Value(), texts);
    }

    /** Apply the changes of an event, last to first, and collect their inverses. */
    method ApplyEvent(changes: seq<Change>, wholeLineUpdateBefore: bool, oldSpans: Change -> seq<seq<Span>>)
      returns (antiChanges: seq<Change>)
      requires (forall c :: |oldSpans(c)| == |c.text|) && doc.Valid() && Replayable(doc.lines, changes)
      modifies doc, doc.tree
      ensures doc.Valid() && doc.lines == old(Replay(doc.lines, changes))
      ensures antiChanges == old(Antis(doc.lines, changes))
    {
      hide Apply, Invert, Doc.ValidWith, Doc.Rows;
      antiChanges := [];
      ghost var goal := Antis(doc.lines, changes);
      var i := |changes|;
      assert changes[..i] == changes;
      while i > 0
        invariant 0 <= i <= |changes| && doc.Valid()
        invariant Replayable(doc.lines, changes[..i])
        invariant Replay(doc.lines, changes[..i]) == old(Replay(doc.lines, changes))
        invariant antiChanges + Antis(doc.lines, changes[..i]) == goal
      {
        i := i - 1;
        var change := changes[i];
        assert changes[..i + 1][..i] == changes[..i];
        var inverse := HistoryChangeFromChange(change);
        antiChanges := antiChanges + [inverse];
        doc.UpdateDoc(change, oldSpans(change), false, wholeLineUpdateBefore, estimate);
      }
    }

    /** Take the top change event off `source`: selections above it move to `dest`, the event is
        reverted, and its inverse goes on `dest`. */
    method RevertTop(source0: seq<Event>, dest0: seq<Event>, wholeLineUpdateBefore: bool,
                     oldSpans: Change -> seq<seq<Span>>)
      returns (source: seq<Event>, dest: seq<Event>)
      requires (forall c :: |oldSpans(c)| == |c.text|) && Invariant() && Guarded(source0)
               && Unwinds(source0, doc.lines) && HasChange(source0)
      modifies this`sel, this`generation, this`maxGeneration, doc, doc.tree
      ensures doc.Valid()
      ensures var r := old(Revert(source0, dest0, Value()));
              && source == r.source && dest == r.dest
              && Value() == Restored(old(Value()), r)
    {
      hide Apply, Antis, Replay, Restores, Doc.ValidWith, Doc.Rows;
      ghost var s := Value();
      source, dest := source0, dest0;
      var selAfter := sel;
      while |source| > 0 && Last(source).SelEvent?
        invariant MoveSels(source, dest, selAfter) == MoveSels(source0, dest0, s.sel)
        decreases |source|
      {
        selAfter := Last(source).sel;
        dest := PushSel(dest, selAfter);
        source := source[..|source| - 1];
      }
      PoppedUnwinds(source0, s.lines);
      var event := Last(source);
      source := source[..|source| - 1];
      var before := generation;
      if event.generation != 0 {
        generation := event.generation;
      } else {
        maxGeneration := maxGeneration + 1;
        generation := maxGeneration;
      }
      var antiChanges := ApplyEvent(event.changes, wholeLineUpdateBefore, oldSpans);
      dest := PushSel(dest, selAfter) + [ChangeEvent(antiChanges, before)];
      sel := Last(source).sel;
    }

    method UndoEvent(wholeLineUpdateBefore: bool, oldSpans: Change -> seq<seq<Span>>)
      requires Invariant() && forall c :: |oldSpans(c)| == |c.text|
      modifies this`sel, this`done, this`undone, this`generation, this`maxGeneration, doc, doc.tree
      ensures Invariant() && Value() == old(DoUndo(Value()))
    {
      hide Doc.ValidWith, Doc.Rows;
      if !HasChange(done) {
        return;
      }
      UndoKeeps(Value(), texts);
      done, undone := RevertTop(done, undone, wholeLineUpdateBefore, oldSpans);
      ConsistentIsValid(Value(), texts);
    }

    method RedoEvent(wholeLineUpdateBefore: bool, oldSpans: Change -> seq<seq<Span>>)
      requires Invariant() && forall c :: |oldSpans(c)| == |c.text|
      modifies this`sel, this`done, this`undone, this`generation, this`maxGeneration, doc, doc.tree
      ensures Invariant() && Value() == old(DoRedo(Value()))
    {
      hide Doc.ValidWith, Doc.Rows;
      if !HasChange(undone) {
        return;
      }
      RedoKeeps(Value(), texts);
      undone, done := RevertTop(undone, done, wholeLineUpdateBefore, oldSpans);
      ConsistentIsValid(Value(), texts);
    }

    /** Record a new selection, in place of the top entry or above it. */
    method AddSelectionToHistory(newSel: Selection, replaceTop: bool, clearRedo: bool)
      requires Invariant()
      modifies this`sel, this`done, this`undone
      ensures doc.Valid() && Value() == old(DoSelect(Value(), newSel, replaceTop, clearRedo))
      ensures !(replaceTop && old(done) != [] && Last(old(done)).ChangeEvent?) ==> Invariant()
    {
      hide Doc.ValidWith, Doc.Rows, Restores, Unwinds, Guarded;
      ghost var s := Value();
      sel := newSel;
      if replaceTop {
        if |done| > 0 {
          done := done[..|done| - 1] + [SelEvent(newSel)];
        }
      } else {
        done := PushSel(done, newSel);
      }
      if clearRedo {
        undone := ClearSelectionEvents(undone);
      }
      if !replaceTop || s.done == [] || Last(s.done).SelEvent? {
        SelectKeeps(s, newSel, replaceTop, clearRedo, texts);
        ConsistentIsValid(Value(), texts);
      }
    }

    method MarkClean()
      requires Invariant()
      modifies this`cleanGeneration
      ensures Invariant() && texts[cleanGeneration] == doc.lines && cleanGeneration == generation
    {
      cleanGeneration := generation;
    }

    /** Clean means the text of the clean generation, never another text. */
    method IsClean() returns (clean: bool)
      requires Invariant()
      ensures clean == (generation == cleanGeneration)
      ensures clean ==> doc.lines == texts[cleanGeneration]
    {
      clean := generation == cleanGeneration;
    }
  }
}
