/** The undo history as a state machine: what one edit, undo, redo or selection change does to
    the two event stacks, the text and the generation counters. */
module HistoryModel {
  import opened Text
  import opened Changes

  datatype Range = Range(anchor: Pos, head: Pos)
  datatype Selection = Selection(ranges: seq<Range>, primIndex: nat)

  /** A history entry: a selection, or a change event holding the changes that revert it (to be
      applied last to first) and the generation that was current before it. */
  datatype Event =
    | SelEvent(sel: Selection)
    | ChangeEvent(changes: seq<Change>, generation: nat)

  datatype Depth = Unlimited | Limit(n: nat)

  datatype State = State(
    lines: Lines,
    sel: Selection,
    done: seq<Event>,
    undone: seq<Event>,
    generation: nat,
    maxGeneration: nat,
    undoDepth: Depth)

  /** Whether a new change may join the last event, and why: because it belongs to the same
      operation, or because its origin and time allow it. */
  datatype MergeMode = Fresh | ByOrigin | SameOperation

  datatype Action =
    | Edit(change: Change, mode: MergeMode, selAfter: Selection)
    | Undo
    | Redo
    | Select(newSel: Selection, replaceTop: bool, clearRedo: bool)

  // ----- applying the changes of an event -----

  /** The changes of an event can be applied to `d`, last to first. */
  predicate Replayable(d: Lines, cs: seq<Change>)
    decreases |cs|
  {
    cs == [] || (ValidChange(d, Last(cs)) && Replayable(Apply(d, Last(cs)), cs[..|cs| - 1]))
  }

  function Replay(d: Lines, cs: seq<Change>): Lines
    requires Replayable(d, cs)
    decreases |cs|
  {
    if cs == [] then d else Replay(Apply(d, Last(cs)), cs[..|cs| - 1])
  }

  /** The inverses of the changes, in the order in which they are applied. */
  function Antis(d: Lines, cs: seq<Change>): (r: seq<Change>)
    requires Replayable(d, cs)
    ensures |r| == |cs|
    decreases |cs|
  {
    if cs == [] then []
    else [Invert(d, Last(cs))] + Antis(Apply(d, Last(cs)), cs[..|cs| - 1])
  }

  // ----- the stacks -----

  /** Push a selection unless it is already on top. */
  function PushSel(stack: seq<Event>, sel: Selection): seq<Event> {
    if |stack| > 0 && Last(stack) == SelEvent(sel) then stack else stack + [SelEvent(sel)]
  }

  function DropSels(stack: seq<Event>): (r: seq<Event>)
    ensures r <= stack
    ensures r == [] || Last(r).ChangeEvent?
    ensures forall i :: |r| <= i < |stack| ==> stack[i].SelEvent?
  {
    if |stack| > 0 && Last(stack).SelEvent? then DropSels(stack[..|stack| - 1]) else stack
  }

  predicate HasChange(stack: seq<Event>) {
    exists i :: 0 <= i < |stack| && stack[i].ChangeEvent?
  }

  /** The top change event with the selections above it popped, when the change may join it. */
  function LastChangeEvent(done: seq<Event>, mode: MergeMode): (seq<Event>, bool) {
    match mode
    case Fresh => (done, false)
    case SameOperation => (DropSels(done), DropSels(done) != [])
    case ByOrigin =>
      if |done| > 0 && Last(done).ChangeEvent? then (done, true)
      else if |done| > 1 && done[|done| - 2].ChangeEvent? then (done[..|done| - 1], true)
      else (done, false)
  }

  /** Forget the oldest events until the stack fits the depth limit. */
  function Trim(done: seq<Event>, depth: Depth): seq<Event> {
    if depth.Unlimited? || |done| <= depth.n then done
    else if |done| > 1 && done[1].ChangeEvent? then Trim(done[2..], depth)
    else Trim(done[1..], depth)
  }

  /** A change joined to an event: typing at the end of the last recorded range only widens
      that range. */
  function Join(d: Lines, changes: seq<Change>, c: Change): seq<Change>
    requires |changes| > 0 && ValidChange(d, c)
  {
    var last := Last(changes);
    if Cmp(c.from, c.to) == 0 && Cmp(c.from, last.to) == 0
    then changes[..|changes| - 1] + [last.(to := ChangeEnd(c))]
    else changes + [Invert(d, c)]
  }

  function Record(s: State, c: Change, mode: MergeMode): seq<Event>
    requires ValidChange(s.lines, c)
    requires forall i :: 0 <= i < |s.done| && s.done[i].ChangeEvent? ==> |s.done[i].changes| > 0
  {
    var (done, found) := LastChangeEvent(s.done, mode);
    if found then
      var cur := Last(done);
      done[..|done| - 1] + [cur.(changes := Join(s.lines, cur.changes, c))]
    else
      var base := if |done| > 0 && Last(done).SelEvent? then done else PushSel(done, s.sel);
      Trim(base + [ChangeEvent([Invert(s.lines, c)], s.generation)], s.undoDepth)
  }

  /** Move the selections on top of one stack to the other; the last one moved becomes current. */
  function MoveSels(source: seq<Event>, dest: seq<Event>, sel: Selection)
    : (r: (seq<Event>, seq<Event>, Selection))
    ensures r.0 == DropSels(source)
    decreases |source|
  {
    if |source| > 0 && Last(source).SelEvent? then
      MoveSels(source[..|source| - 1], PushSel(dest, Last(source).sel), Last(source).sel)
    else (source, dest, sel)
  }

  // ----- well-formed stacks -----

  /** Every change event lies directly on a selection and is not empty. */
  predicate Guarded(stack: seq<Event>) {
    forall i :: 0 <= i < |stack| && stack[i].ChangeEvent? ==>
      |stack[i].changes| > 0 && i > 0 && stack[i - 1].SelEvent?
  }

  /** Popping the stack event by event from text `d` only meets applicable changes. */
  predicate Unwinds(stack: seq<Event>, d: Lines)
    decreases |stack|
  {
    stack == [] ||
    match Last(stack)
    case SelEvent(_) => Unwinds(stack[..|stack| - 1], d)
    case ChangeEvent(cs, _) => Replayable(d, cs) && Unwinds(stack[..|stack| - 1], Replay(d, cs))
  }

  predicate Valid(s: State) {
    && Guarded(s.done) && Guarded(s.undone)
    && Unwinds(s.done, s.lines) && Unwinds(s.undone, s.lines)
    && 0 < s.generation <= s.maxGeneration
  }

  // ----- the operations -----

  predicate NoOp(c: Change) {
    c.text == [""] && Cmp(c.from, c.to) == 0
  }

  function DoEdit(s: State, c: Change, mode: MergeMode, selAfter: Selection): State
    requires Valid(s) && ValidChange(s.lines, c)
  {
    if NoOp(c) then s
    else s.(lines := Apply(s.lines, c), sel := selAfter,
            done := Record(s, c, mode) + [SelEvent(selAfter)], undone := [],
            generation := s.maxGeneration + 1, maxGeneration := s.maxGeneration + 1)
  }

  /** What taking the top event off `source` yields: both stacks, the text and the selection. */
  datatype Reverted = Reverted(source: seq<Event>, dest: seq<Event>, lines: Lines, sel: Selection,
                               generation: nat)

  function Revert(source: seq<Event>, dest: seq<Event>, s: State): Reverted
    requires Guarded(source) && Unwinds(source, s.lines) && HasChange(source)
  {
    var (src, dst, selAfter) := MoveSels(source, dest, s.sel);
    PoppedUnwinds(source, s.lines);
    assert Last(src) in src;
    var rest := src[..|src| - 1];
    Reverted(rest,
             PushSel(dst, selAfter) + [ChangeEvent(Antis(s.lines, Last(src).changes), s.generation)],
             Replay(s.lines, Last(src).changes),
             Last(rest).sel,
             Last(src).generation)
  }

  function DoUndo(s: State): State
    requires Valid(s)
  {
    if !HasChange(s.done) then s
    else
      var r := Revert(s.done, s.undone, s);
      Restored(s, r).(done := r.source, undone := r.dest)
  }

  function DoRedo(s: State): State
    requires Valid(s)
  {
    if !HasChange(s.undone) then s
    else
      var r := Revert(s.undone, s.done, s);
      Restored(s, r).(undone := r.source, done := r.dest)
  }

  /** Text, selection and generation after a revert; an event without a generation gets a new one. */
  function Restored(s: State, r: Reverted): State {
    s.(lines := r.lines, sel := r.sel,
       generation := if r.generation != 0 then r.generation else s.maxGeneration + 1,
       maxGeneration := if r.generation != 0 then s.maxGeneration else s.maxGeneration + 1)
  }

  /** A new selection, which either takes the place of the top entry or is pushed. */
  function DoSelect(s: State, sel: Selection, replaceTop: bool, clearRedo: bool): State {
    s.(sel := sel,
       done := if !replaceTop then PushSel(s.done, sel)
               else if s.done == [] then []
               else s.done[..|s.done| - 1] + [SelEvent(sel)],
       undone := if clearRedo then DropSels(s.undone) else s.undone)
  }

  lemma {:induction false} PoppedUnwinds(stack: seq<Event>, d: Lines)
    requires Guarded(stack) && Unwinds(stack, d)
    ensures Guarded(DropSels(stack)) && Unwinds(DropSels(stack), d)
    ensures HasChange(stack) ==> DropSels(stack) != []
    decreases |stack|
  {
    if |stack| > 0 && Last(stack).SelEvent? {
      PoppedUnwinds(stack[..|stack| - 1], d);
      if HasChange(stack) {
        var i :| 0 <= i < |stack| && stack[i].ChangeEvent?;
        assert stack[..|stack| - 1][i].ChangeEvent?;
      }
    }
  }
}
