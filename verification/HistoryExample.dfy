/** What goes wrong when a selection replaces a change event on top of the undo stack: type "a",
    type "b", undo, redo, set the selection in the same operation, undo. */
module HistoryExample {
  import opened Text
  import opened Changes
  import opened HistoryModel
  import opened HistoryLaws

  const CURSOR := Selection([], 0)
  const TYPE_A := Change(Pos(0, 0), Pos(0, 0), ["a"])
  const TYPE_B := Change(Pos(0, 1), Pos(0, 1), ["b"])
  const UNDO_A := Change(Pos(0, 0), Pos(0, 1), [""])
  const UNDO_B := Change(Pos(0, 1), Pos(0, 2), [""])
  const EVENT_A := ChangeEvent([UNDO_A], 1)
  const CUR := SelEvent(CURSOR)

  const EMPTY := State([""], CURSOR, [], [], 1, 1, Unlimited)
  const TYPED_A := State(["a"], CURSOR, [CUR, EVENT_A, CUR], [], 2, 2, Unlimited)
  const TYPED_B := State(["ab"], CURSOR, [CUR, EVENT_A, CUR, ChangeEvent([UNDO_B], 2), CUR], [],
                         3, 3, Unlimited)
  const UNDONE := State(["a"], CURSOR, [CUR, EVENT_A, CUR], [CUR, ChangeEvent([TYPE_B], 3)],
                        2, 3, Unlimited)
  const REDONE := State(["ab"], CURSOR, [CUR, EVENT_A, CUR, ChangeEvent([UNDO_B], 2)], [CUR],
                        3, 3, Unlimited)

  lemma LineChange(d: string, i: nat, j: nat, t: string)
    requires i <= j <= |d|
    ensures var c := Change(Pos(0, i), Pos(0, j), [t]);
            && ValidChange([d], c) && Apply([d], c) == [d[..i] + t + d[j..]]
            && Invert([d], c) == Change(Pos(0, i), Pos(0, i + |t|), [d[i..j]])
  {
  }

  lemma OneChange(d: Lines, c: Change)
    requires ValidChange(d, c)
    ensures Replayable(d, [c]) && Replay(d, [c]) == Apply(d, c) && Antis(d, [c]) == [Invert(d, c)]
  {
    assert [c][..0] == [];
  }

  lemma TypeA()
    requires Valid(EMPTY)
    ensures ValidChange(EMPTY.lines, TYPE_A) && DoEdit(EMPTY, TYPE_A, Fresh, CURSOR) == TYPED_A
  {
    LineChange("", 0, 0, "a");
    assert ""[..0] + "a" + ""[0..] == "a" && ""[0..0] == "";
  }

  lemma TypeB()
    requires Valid(TYPED_A)
    ensures ValidChange(TYPED_A.lines, TYPE_B) && DoEdit(TYPED_A, TYPE_B, Fresh, CURSOR) == TYPED_B
  {
    LineChange("a", 1, 1, "b");
    assert "a"[..1] + "b" + "a"[1..] == "ab" && "a"[1..1] == "";
  }

  lemma UndoB()
    requires Valid(TYPED_B)
    ensures DoUndo(TYPED_B) == UNDONE
  {
    LineChange("ab", 1, 2, "");
    assert "ab"[..1] + "" + "ab"[2..] == "a" && "ab"[1..2] == "b";
    OneChange(["ab"], UNDO_B);
    assert TYPED_B.done[3].ChangeEvent?;
    assert TYPED_B.done[..4] == [CUR, EVENT_A, CUR, ChangeEvent([UNDO_B], 2)];
    assert TYPED_B.done[..4][..3] == [CUR, EVENT_A, CUR];
    assert PushSel([], CURSOR) == [CUR];
    assert MoveSels(TYPED_B.done[..4], [CUR], CURSOR) == (TYPED_B.done[..4], [CUR], CURSOR);
    var moved := MoveSels(TYPED_B.done, [], CURSOR);
    assert moved == (TYPED_B.done[..4], [CUR], CURSOR);
    var r := Revert(TYPED_B.done, [], TYPED_B);
    assert r.source == [CUR, EVENT_A, CUR];
    assert r.dest == [CUR, ChangeEvent([TYPE_B], 3)];
  }

  lemma RedoB()
    requires Valid(UNDONE)
    ensures DoRedo(UNDONE) == REDONE
  {
    LineChange("a", 1, 1, "b");
    assert "a"[..1] + "b" + "a"[1..] == "ab" && "a"[1..1] == "";
    OneChange(["a"], TYPE_B);
    assert UNDONE.undone[1].ChangeEvent?;
    assert UNDONE.undone[..1] == [CUR];
  }

  /** After the top entry is replaced, undo takes back the wrong event from the wrong text. */
  lemma UndoAfterReplacing()
    ensures var s := DoSelect(REDONE, CURSOR, true, true);
            Valid(s) && DoUndo(s).generation == 1 && DoUndo(s).lines == ["b"]
  {
    LineChange("ab", 0, 1, "");
    assert "ab"[..0] + "" + "ab"[1..] == "b";
    OneChange(["ab"], UNDO_A);
    var s := DoSelect(REDONE, CURSOR, true, true);
    assert s.undone == [] by { assert [CUR][..0] == []; }
    assert s.done == [CUR, EVENT_A, CUR, CUR];
    assert s.done[..3] == [CUR, EVENT_A, CUR];
    assert s.done[..3][..2] == [CUR, EVENT_A];
    assert s.done[..3][..2][..1] == [CUR];
    assert [CUR][..0] == [];
    assert Unwinds([CUR], ["b"]);
    assert Unwinds([CUR, EVENT_A], ["ab"]);
    assert Unwinds([CUR, EVENT_A, CUR], ["ab"]);
    assert s.done[1].ChangeEvent?;
  }

  /** A run after which replacing the top entry makes the next undo report the generation of the
      empty document while the text is "b": `isClean` then answers true for the wrong text. */
  lemma ReplacedEventFoolsIsClean() returns (run: seq<State>, acts: seq<Action>)
    ensures IsRun(run, acts) && Valid(Last(run))
    ensures var s := DoSelect(Last(run), CURSOR, true, true);
            Valid(s) && DoUndo(s).generation == run[0].generation && DoUndo(s).lines != run[0].lines
  {
    hide Valid, DoEdit, DoUndo, DoRedo, DoSelect, ValidChange;
    run, acts := [EMPTY], [];
    RunStaysValid(run, acts);
    TypeA();
    run, acts := NextState(run, acts, Edit(TYPE_A, Fresh, CURSOR));
    TypeB();
    run, acts := NextState(run, acts, Edit(TYPE_B, Fresh, CURSOR));
    UndoB();
    run, acts := NextState(run, acts, Undo);
    RedoB();
    run, acts := NextState(run, acts, Redo);
    UndoAfterReplacing();
  }

  lemma NextState(run: seq<State>, acts: seq<Action>, a: Action)
    returns (run': seq<State>, acts': seq<Action>)
    requires IsRun(run, acts) && Valid(Last(run)) && Enabled(Last(run), a)
    ensures run' == run + [DoAction(Last(run), a)] && acts' == acts + [a]
    ensures IsRun(run', acts') && Valid(Last(run'))
  {
    hide Valid, Enabled, DoAction;
    run', acts' := run + [DoAction(Last(run), a)], acts + [a];
    NextIsRun(run, acts, a);
    RunStaysValid(run', acts');
  }
}
