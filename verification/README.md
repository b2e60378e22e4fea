# Proofs about the console's editor, diff and validation code

The configuration console edits text in the browser. The code it ships for that is modelled here,
and what it promises is proved:

- **the document core of the editor** (`codemirror.js`): the five branches of `updateDoc` on the tree
  of lines, with the spans and the view they leave; the undo history with merging, trimming and
  generations; the tree with its cached sizes and heights, spilling, removal, collapsing and
  searches; selections; marker spans; columns with tabs;
- **the diff engine** (`diff_match_patch.js`): common prefix, suffix and overlap, half-match, line
  mode, bisect split and the clean-up passes;
- **the chunks of the merge view** (`merge.js`);
- **the LR parser for JSON** (`codemirror.lib.json-lint.js`);
- **the module scheduler** (`loader.js`);
- **the .properties validator** (`validateContent.js`).

`dafny verify dfyconfig.toml` checks everything.

## How the model is built

Documents are non-empty lists of lines. `Text.dfy` makes them a monoid under `Glue`, which joins the
last line of one list to the first line of the next; cutting at a position and gluing are inverse.
What a change means (`Changes.Apply`) is said with these, and every branch of the code is compared
with it. The history is a state machine (`HistoryModel`) whose runs are all sequences of edits,
selections, undo and redo, with every choice of merging; `Editor` is the class that updates its
fields in place and is proved to take the steps of that machine. `HistoryStory` tells what a user
sees of it: a present, a past and a future, on which every action is a plain step.

The line tree is a store of chunks and lines with explicit parent links (`LineTree`). Its invariant
says that links agree, cached sizes and heights are exact, branches have 1 to 10 children and leaves
at most 50 lines. `TreeSpill`, `TreeInsert`, `TreeRemove` and `TreeRemoval` prove what each update of
the store keeps; `LineStore.Tree` is the class with the operations. While lines are inserted, a
branch expects lines that a child does not hold yet; while they are removed, the sums of the branches
on the way are suspended.

`Document.Doc` works on that tree. Its line objects have a text, spans and a height; the ghost field
`lines` is the text that the tree spells out, and a marker lists the lines that have a span of it
(`MarkerLines`). The five branches of `updateDoc` insert, remove and update line objects, and are
shown to place texts, objects and spans alike. `DocumentView` puts the update, the stretching of
spans and the registration with the view together.

Things that depend on the clock or on the browser are arguments: whether a change may merge with the
last event, whether a deadline has passed, the score of a place for an edit, the order that sorting
gives to ranges, the selection after a change, the height a line is expected to have, the spans that
an undo brings back.

## What the code does not keep

Some promises fail on some inputs. The model follows the code, and the exact conditions are proved.

- `addSelectionToHistory` may overwrite the top entry of the history when that is a change event. The
  undo events survive iff it is not (`ReplacingTopKeepsEvents`); `ReplacedEventFoolsIsClean` is a run
  in which `isClean` then answers for the wrong text. The runs of the other theorems leave such a
  selection out.
- An event takes up two entries of the history. With an undo depth of 0 or 1 nothing can be undone
  (`EditCanBeUndone`, an if-and-only-if).
- `diff_linesToChars_` uses a plain object as a table. A last line "hasOwnProperty" of the first text
  makes it throw on the second text (`LinesToChars` gives the condition), and "__proto__" takes up a
  number without being found again. `DiffMain` says when this makes the whole diff throw, and
  `ThrowsOnHasOwnProperty` is such a pair of texts.
- Lines are numbered by 16-bit characters. Up to 65531 distinct lines that is enough, whatever pieces
  of the texts line mode is given; with one more it is not (`OneLineTooMany`).
- `getChunks` marks a line as changed although it is in both texts when the inserted or deleted part
  behind it is a single newline (`GetChunks` has the exact condition, `MarksUnchangedLine` an example).
  Two empty texts have one chunk (`UpdateDiff`).
- `regChange` without a range takes the range from the new document, so a view that reached beyond
  its end stays stale until `adjustView` (`RegFullChange`, an if-and-only-if; `ViewBeyondTheEnd`).
- `_findCyclePath` reads the dependencies of a completed module, which are null. A definition that
  closes a cycle throws, and its module stays incomplete, iff the depth-first walk of the pending
  dependencies meets a completed module before it gets back (`DefineModule`, `SearchMeans`,
  `CycleBehindCompletedModule`).
- The .properties validator does not reset its backslash flag at the end of a comment. A comment that
  ends in an unescaped backslash makes it refuse a well-formed text or accept an ill-formed one;
  `ScanJudgesItems` says what it decides on every text, and `ReadAlike` that it reads the text as the
  format does iff no line of backslashes, before the last line, follows such a comment.
- `StringStream.column` gives the right column iff the token does not start before the last one
  counted (`CurrentColumn`, `StaleColumn`).

## Model

| member | source | states |
|---|---|---|
| `Document.Doc.UpdateDoc` | console/src/main/resources/static/console-fe/public/js/codemirror.js:4639-4688 | Through all five branches (full, whole-line, same-line, join, general), run on the line tree: the text becomes the text before `from`, the new text and the text after `to`; lines outside the change keep their objects, spans and heights, the lines of the new text get the given spans in order and the height estimated for their text, and a change within one line keeps every line object. |
| `Document.Doc.SetLine` | console/src/main/resources/static/console-fe/public/js/codemirror.js:1865-1874 | A line object gets a new text, new spans and the height estimated for the text; every other line keeps its text, spans and height, and line and marker lists agree again. |
| `Document.Doc.AddLine` | console/src/main/resources/static/console-fe/public/js/codemirror.js:1853-1857 | A new line object has the given text and spans and the height estimated for the text; nothing else changes. |
| `Document.Doc.RemoveRows` | console/src/main/resources/static/console-fe/public/js/codemirror.js:5497-5507 | Removed lines leave the document and lose their spans; the other lines keep object, text and spans. |
| `MarkerLines.Reattach` | console/src/main/resources/static/console-fe/public/js/codemirror.js:709-722 | Detaching the old spans and attaching the new ones leaves every marker listing each line once for each span it has there. |
| `Document.Doc.GetBetween` | console/src/main/resources/static/console-fe/public/js/codemirror.js:425-435 | The loop over the lines returns the text between two positions. |
| `Changes.ApplyReadsBack` | console/src/main/resources/static/console-fe/public/js/codemirror.js:4555-4559 | After a change, the text between `from` and the change end is the inserted text, and the text on both sides is the old one. |
| `Changes.InvertUndoes` | console/src/main/resources/static/console-fe/public/js/codemirror.js:4746-4751 | A change and the change recorded for it are inverse, in both directions. |
| `Changes.WidenedRecordReverts` | console/src/main/resources/static/console-fe/public/js/codemirror.js:4791-4796 | Moving the end of a record to the end of text typed there makes the record revert both changes. |
| `HistoryLaws.JoinReverts` | console/src/main/resources/static/console-fe/public/js/codemirror.js:4790-4800 | Merging a change into an event, by widening or by adding a record, gives an event that reverts the change and the old event. |
| `HistoryLaws.AntisRevert` | console/src/main/resources/static/console-fe/public/js/codemirror.js:5255-5284 | The changes collected while an event is reverted, replayed from last to first, give back the text before. |
| `HistoryLaws.TrimKeeps` | console/src/main/resources/static/console-fe/public/js/codemirror.js:4809-4812 | Dropping the oldest entries beyond the undo depth leaves every remaining event restorable. |
| `HistoryLaws.TrimFits` | console/src/main/resources/static/console-fe/public/js/codemirror.js:4809-4812 | What is left has at most as many entries as the undo depth allows, and is the newest part of the history. |
| `HistoryStory.TrimIsExact` | console/src/main/resources/static/console-fe/public/js/codemirror.js:4809-4812 | No more is dropped than needed: as many entries are left as the depth allows, or one fewer when the lowest of them would be a change event without its selection. |
| `HistoryStory.JoinedMoments` | console/src/main/resources/static/console-fe/public/js/codemirror.js:4790-4800 | A change that joins an event leaves every moment that repeated undo leads to: text, generation and selection. |
| `HistoryStory.EditCanBeUndone` | console/src/main/resources/static/console-fe/public/js/codemirror.js:4780-4821 | After an edit that is no no-op there is an event to undo, unless it starts an event and the depth limit is 0 or 1. |
| `HistoryStory.StoryStep` | console/src/main/resources/static/console-fe/public/js/codemirror.js:4780-5285 | Seen as a present, a list of past and a list of future moments, each with text, generation and selection, every action is a plain step: an edit pushes the present or, when it joins, leaves the past; undo and redo move one moment. |
| `HistoryStory.UndoTimes` | console/src/main/resources/static/console-fe/public/js/codemirror.js:5216-5285 | In any run, n undos lead to the n-th past moment. |
| `HistoryStory.UndoAndRedoTravel` | console/src/main/resources/static/console-fe/public/js/codemirror.js:5216-5285 | Any mixture of undos and redos travels along one fixed timeline of texts and generations. |
| `HistoryStory.PastOfRun` | console/src/main/resources/static/console-fe/public/js/codemirror.js:4780-4862 | Without a depth limit, after any edits and selections the past is one moment for each event: text, generation and selection from before its first change. |
| `HistoryStory.UndoRevertsEvents` | console/src/main/resources/static/console-fe/public/js/codemirror.js:5216-5285 | Then n undos restore text, generation and selection from before the n-th event from the end, however many changes each event has merged. |
| `HistoryLaws.StepKeeps` | console/src/main/resources/static/console-fe/public/js/codemirror.js:4780-4862 | Every edit, selection, undo and redo keeps the invariant that each event on either stack leads, event by event, to the text of its generation. |
| `HistoryLaws.RunIsConsistent` | console/src/main/resources/static/console-fe/public/js/codemirror.js:4729-4862 | In every run, generations name the texts of the run's states, and the invariant holds at its end. |
| `HistoryLaws.RunStaysValid` | console/src/main/resources/static/console-fe/public/js/codemirror.js:5216-5285 | In every run, whatever was merged, each undo or redo only meets changes that fit the document. |
| `HistoryLaws.GenerationNamesText` | console/src/main/resources/static/console-fe/public/js/codemirror.js:6193-6203 | Two states of a run with equal generation have equal text, so a clean report is only given for the text that was marked clean. |
| `HistoryLaws.UndoRestoresEarlierState` | console/src/main/resources/static/console-fe/public/js/codemirror.js:5246-5284 | An undo at the end of any run leads to the text and the generation of an earlier state of that run. |
| `HistoryLaws.UndoRevertsWholeEvent` | console/src/main/resources/static/console-fe/public/js/codemirror.js:5216-5285 | If an edit starts an event and the later actions only merge into it or move the selection, undoing restores exactly the text before that edit. |
| `HistoryLaws.RedoAfterUndo` | console/src/main/resources/static/console-fe/public/js/codemirror.js:5216-5285 | Redo after undo gives back text and generation. |
| `HistoryLaws.UndoAfterRedo` | console/src/main/resources/static/console-fe/public/js/codemirror.js:5216-5285 | Undo after redo gives back text and generation. |
| `HistoryLaws.ReplacingTopKeepsEvents` | console/src/main/resources/static/console-fe/public/js/codemirror.js:4843-4847 | A selection that takes the place of the top history entry keeps the undo events iff that entry is a selection or there is none. |
| `HistoryExample.ReplacedEventFoolsIsClean` | console/src/main/resources/static/console-fe/public/js/codemirror.js:4843-4849 | A concrete run after which such a replacement removes a change event, and the next undo shows the clean generation for another text. |
| `Editor.Editor.AddChangeToHistory` | console/src/main/resources/static/console-fe/public/js/codemirror.js:4780-4821 | The in-place bookkeeping of a change leaves the stacks and generations of the state model. |
| `Editor.Editor.MakeChange` | console/src/main/resources/static/console-fe/public/js/codemirror.js:5198-5203 | Editing in place is the edit step of the state model and keeps the invariant. |
| `Editor.Editor.ApplyEvent` | console/src/main/resources/static/console-fe/public/js/codemirror.js:5255-5284 | The loop over an event's changes replays them from last to first and collects their inverses. |
| `Editor.Editor.RevertTop` | console/src/main/resources/static/console-fe/public/js/codemirror.js:5216-5285 | Selections above the top change event move to the other stack, the event is reverted and its inverse pushed. |
| `Editor.Editor.UndoEvent` | console/src/main/resources/static/console-fe/public/js/codemirror.js:5216-5285 | Undo in place is the undo step; without a change event nothing changes. |
| `Editor.Editor.RedoEvent` | console/src/main/resources/static/console-fe/public/js/codemirror.js:5216-5285 | Redo in place is the redo step; without a change event nothing changes. |
| `Editor.Editor.AddSelectionToHistory` | console/src/main/resources/static/console-fe/public/js/codemirror.js:4836-4862 | A selection is pushed or replaces the top entry; the invariant survives unless a change event is replaced. |
| `Editor.Editor.IsClean` | console/src/main/resources/static/console-fe/public/js/codemirror.js:6201-6203 | A clean report implies that the text is the one of the clean generation. |
| `Editor.TrimHistory` | console/src/main/resources/static/console-fe/public/js/codemirror.js:4809-4812 | The trimming loop computes the trimmed stack and never reads the head of an empty array. |
| `Editor.ClearSelectionEvents` | console/src/main/resources/static/console-fe/public/js/codemirror.js:4755-4761 | The loop pops exactly the selections above the top change event. |
| `TreeSpill.SpillKeeps` | console/src/main/resources/static/console-fe/public/js/codemirror.js:5615-5630 | Moving a branch's last five children to a new sibling keeps sizes, heights, links and the order of lines. |
| `TreeSpill.DeepenKeeps` | console/src/main/resources/static/console-fe/public/js/codemirror.js:5618-5622 | Giving the root's children to a new copy below it keeps sizes, heights, links and the order of lines. |
| `TreeInsert.GrowKeeps` | console/src/main/resources/static/console-fe/public/js/codemirror.js:5583-5591 | After a branch counts the new lines, the tree is exact but for the child that covers the position, which expects them there. |
| `TreeInsert.LeafInsertKeeps` | console/src/main/resources/static/console-fe/public/js/codemirror.js:5516-5522 | Inserting into the leaf that expects the lines makes the whole tree exact. |
| `TreeInsert.CutKeeps` | console/src/main/resources/static/console-fe/public/js/codemirror.js:5592-5604 | Cutting a leaf into slices of 25 lines keeps sizes, heights, links and the order of lines. |
| `TreeRemove.LeafCutKeeps` | console/src/main/resources/static/console-fe/public/js/codemirror.js:5497-5507 | Removing lines from a leaf keeps everything but the sums of its ancestors exact. |
| `TreeRemoval.ChildSeen` | console/src/main/resources/static/console-fe/public/js/codemirror.js:5555-5565 | After one child has lost its lines and the branch has adjusted its height, what is left before and behind it is the old content without the lines removed so far. |
| `TreeRemoval.CollapseDone` | console/src/main/resources/static/console-fe/public/js/codemirror.js:5566-5574 | A small branch that collapses holds its lines, in order, in one leaf with right links, sizes and heights. |
| `LineStore.Tree.MaybeSpill` | console/src/main/resources/static/console-fe/public/js/codemirror.js:5612-5632 | From a tree with one branch that is too wide, the loop and its recursion end, and every branch has 1 to 10 children; the lines stay as they are. |
| `LineStore.Tree.CutLeaf` | console/src/main/resources/static/console-fe/public/js/codemirror.js:5592-5602 | The slicing loop leaves 25 to 49 lines in the leaf and puts the others, 25 each, into new leaves behind it. |
| `LineStore.Tree.InsertInner` | console/src/main/resources/static/console-fe/public/js/codemirror.js:5583-5609 | Inserting below a branch leaves a valid tree whose lines are the old ones with the new ones spliced in. |
| `LineStore.Tree.RemoveInner` | console/src/main/resources/static/console-fe/public/js/codemirror.js:5551-5575 | Removing below a chunk takes exactly the given lines out, cuts their parent links, keeps everything outside the chunk and leaves the chunk exact. |
| `LineStore.Tree.Collapse` | console/src/main/resources/static/console-fe/public/js/codemirror.js:5577-5581 | Collecting the lines below a chunk yields its content in order. |
| `LineStore.Tree.Insert` | console/src/main/resources/static/console-fe/public/js/codemirror.js:6042-6046 | Inserting lines refines splice on the flat list; sizes, heights, links and the bounds on children and lines hold again. |
| `LineStore.Tree.Remove` | console/src/main/resources/static/console-fe/public/js/codemirror.js:6047-6047 | Removing lines refines removal on the flat list; all invariants hold again and the removed lines have no parent. |
| `LineStore.Tree.GetLine` | console/src/main/resources/static/console-fe/public/js/codemirror.js:409-421 | Walking down by sizes finds the line at a position of the flat list, and reports a position outside it. |
| `LineStore.Tree.LineNo` | console/src/main/resources/static/console-fe/public/js/codemirror.js:452-462 | Walking up the parent links gives the only position of a line, and none exactly for a line without parent. |
| `LineStore.Tree.LineNoOfGetLine` | console/src/main/resources/static/console-fe/public/js/codemirror.js:409-462 | The position of the line at position n is n. |
| `LineStore.Tree.IterN` | console/src/main/resources/static/console-fe/public/js/codemirror.js:5634-5646 | The iteration visits exactly the given slice of the flat list, in order, up to the first line at which it is stopped. |
| `TreeLookup.VisitAll` | console/src/main/resources/static/console-fe/public/js/codemirror.js:5525-5530 | An iteration that is not stopped visits every line of the slice once. |
| `LineStore.Tree.HeightAtLine` | console/src/main/resources/static/console-fe/public/js/codemirror.js:855-872 | The height above a line is the sum of the heights of the lines before it. |
| `LineStore.Tree.LineAtHeight` | console/src/main/resources/static/console-fe/public/js/codemirror.js:466-484 | With non-negative heights, the result is the first line whose cumulative height exceeds h, or the number of lines. |
| `TreeLookup.FirstAboveSkips` | console/src/main/resources/static/console-fe/public/js/codemirror.js:469-476 | Skipping a whole chunk by its cached height does not change which line is found. |
| `LineStore.Tree.LineAtTopOf` | console/src/main/resources/static/console-fe/public/js/codemirror.js:855-872 | The line at the height above a line of positive height is that line. |
| `LineStore.Tree.UpdateLineHeight` | console/src/main/resources/static/console-fe/public/js/codemirror.js:445-448 | Adding the difference along the parent links makes every cached height exact again. |
| `SelectionModel.NormalizeSelection` | console/src/main/resources/static/console-fe/public/js/codemirror.js:4533-4547 | The result is sorted, its ranges do not touch, it covers the same positions, and its primary range contains the old one; without a merge it is the sorted ranges. |
| `SelectionModel.AdjustIsMonotone` | console/src/main/resources/static/console-fe/public/js/codemirror.js:4563-4570 | Adjusting positions for a change keeps their order. |
| `SelectionModel.AdjustKeepsText` | console/src/main/resources/static/console-fe/public/js/codemirror.js:4563-4570 | An adjusted position is valid and has the old text before it, or after it, or stands at the end of the change that covered it. |
| `SelectionModel.OffsetEnd` | console/src/main/resources/static/console-fe/public/js/codemirror.js:4582-4587 | Text that stood between two positions, put behind other text, ends where the offset position says. |
| `SelectionModel.ReplaceRanges` | console/src/main/resources/static/console-fe/public/js/codemirror.js:6163-6173 | Replacing the ranges from last to first is replacing all of them at once in the old document. |
| `SelectionModel.InsertionIsThere` | console/src/main/resources/static/console-fe/public/js/codemirror.js:4591-4608 | In the new document the i-th insertion stands between its computed start and end. |
| `SelectionModel.ComputeReplacedSel` | console/src/main/resources/static/console-fe/public/js/codemirror.js:4591-4608 | The running offsets give, for every change, the start and the end of its insertion, in the direction of the old range. |
| `SelectionModel.MergedDirection` | console/src/main/resources/static/console-fe/public/js/codemirror.js:4540-4544 | A merged range runs in the direction of the first of its two ranges that is not empty. |
| `SelectionModel.ReplaceSelections` | console/src/main/resources/static/console-fe/public/js/codemirror.js:6163-6176 | The new text is the simultaneous substitution; with "around" the i-th new range selects exactly the i-th inserted text, in the direction of the old range, and otherwise it is empty and stands right before that text. |
| `Markers.StretchSpansOverChange` | console/src/main/resources/static/console-fe/public/js/codemirror.js:607-664 | The loops over the spans of the first and the last line compute the cut, joined, moved and cleared spans of every new line. |
| `Markers.StretchedFor` | console/src/main/resources/static/console-fe/public/js/codemirror.js:577-677 | The stretching treats each marker on its own: its new spans depend on its own parts before and behind the change only. |
| `Markers.MarkerFollowsChange` | console/src/main/resources/static/console-fe/public/js/codemirror.js:607-664 | When the stretched spans stand in place of those of the changed lines, a marker strictly before, strictly behind or strictly around the change has its ends where `adjustForChange` puts them, for one line and several. |
| `DocumentView.ChangeDocument` | console/src/main/resources/static/console-fe/public/js/codemirror.js:607-664 | Stretching the spans and updating the document, whichever of the five branches that takes, puts every such marker there. |
| `Document.Doc.FindMarker` | console/src/main/resources/static/console-fe/public/js/codemirror.js:5796-5814 | Walking the lines that the marker itself lists, in whatever order, `find` gives the marker's two ends. |
| `DocumentView.ChangeInEditor` | console/src/main/resources/static/console-fe/public/js/codemirror.js:5337-5377 | After updating the document and registering the change, by any branch and any of the three registrations, the view shows the new document, one entry for each of its line objects; for a change of the whole document iff the view did not reach beyond its new end. |
| `ViewModel.Display.RegChange` | console/src/main/resources/static/console-fe/public/js/codemirror.js:3893-3945 | In all six overlap cases the view again has one entry for each line from `viewFrom` up to `viewTo`, and each is the line there; of the lines shown before, exactly those outside the change are still shown, and new lines only between them. |
| `ViewModel.Display.RegLineChange` | console/src/main/resources/static/console-fe/public/js/codemirror.js:3957-3969 | The entry marked for a changed line is that of the line, and none is marked iff the line is not in the view. |
| `ViewModel.Display.RegFullChange` | console/src/main/resources/static/console-fe/public/js/codemirror.js:3893-3926 | A change of the whole document, registered without a range, leaves a view of the new document iff the view did not reach beyond its end. |
| `ViewModel.ViewBeyondTheEnd` | console/src/main/resources/static/console-fe/public/js/codemirror.js:3893-3926 | Three lines that become one, with the last two in the view: the view is stale. |
| `ViewModel.Display.AdjustView` | console/src/main/resources/static/console-fe/public/js/codemirror.js:4003-4022 | The view covers exactly the requested lines, also after a whole-document change that left it stale. |
| `ViewModel.Display.FindViewIndex` | console/src/main/resources/static/console-fe/public/js/codemirror.js:3058-3067 | The index of a line in the view is its distance from `viewFrom`, or none. |
| `ViewModel.Display.BuildViewArray` | console/src/main/resources/static/console-fe/public/js/codemirror.js:2165-2173 | One entry for each line of the range. |
| `Columns.NextStopIsNext` | console/src/main/resources/static/console-fe/public/js/codemirror.js:184-184 | A tab leads to the least multiple of the tab size behind its column. |
| `Columns.ColumnBehind` | console/src/main/resources/static/console-fe/public/js/codemirror.js:174-187 | The column behind a tab is that multiple; behind any other character it is one more. |
| `Columns.CountColumn` | console/src/main/resources/static/console-fe/public/js/codemirror.js:174-187 | Jumping from tab to tab gives the column of counting character by character, up to the given end or to the end of the indentation; from a start behind the end it counts back. |
| `Columns.FindColumn` | console/src/main/resources/static/console-fe/public/js/codemirror.js:215-227 | The result is the least offset whose column is at least the goal, or the end of the string; a negative goal is returned as it is. |
| `Columns.ColumnResumes` | console/src/main/resources/static/console-fe/public/js/codemirror.js:1553-1556 | Counting may be resumed from any offset and its column. |
| `Columns.FoundColumnIsItsOwn` | console/src/main/resources/static/console-fe/public/js/codemirror.js:215-227 | The offset found for the column of an offset is that offset. |
| `Columns.ColumnRoundTrip` | console/src/main/resources/static/console-fe/public/js/codemirror.js:215-227 | Finding the counted column gives the offset back. |
| `Columns.StringStream.CurrentColumn` | console/src/main/resources/static/console-fe/public/js/codemirror.js:1552-1558 | The cached column is that of counting from zero iff the token does not start before the last one counted. |
| `Columns.StaleColumn` | console/src/main/resources/static/console-fe/public/js/codemirror.js:1552-1558 | A stream asked for a token and then for one before it: the second answer is the first token's column. |
| `DiffSearch.CommonPrefix` | console/src/main/resources/static/console-fe/public/js/diff_match_patch.js:11-12 | The binary search returns the length of the longest common prefix. |
| `DiffSearch.CommonSuffix` | console/src/main/resources/static/console-fe/public/js/diff_match_patch.js:12-13 | The binary search returns the length of the longest common suffix. |
| `DiffSearch.CommonOverlap` | console/src/main/resources/static/console-fe/public/js/diff_match_patch.js:13-14 | The result is the longest end of the first text that starts the second. |
| `DiffMerge.CleanupMerge` | console/src/main/resources/static/console-fe/public/js/diff_match_patch.js:22-24 | Both texts are preserved; no two equalities are adjacent, every edit run is at most one deletion then one insertion, no single edit can slide over a neighbour; the edits do not get longer, and every text kept in an equality is still kept in one; it ends on (edit length, count). |
| `DiffMerge.MergePass` | console/src/main/resources/static/console-fe/public/js/diff_match_patch.js:22-23 | One pass preserves both texts, makes the script normal and does not increase the measure. |
| `DiffMerge.SlidePass` | console/src/main/resources/static/console-fe/public/js/diff_match_patch.js:23-24 | Sliding single edits preserves both texts and lowers the measure when it changes anything. |
| `DiffSemantic.BestSlide` | console/src/main/resources/static/console-fe/public/js/diff_match_patch.js:18-20 | Of all places to which an edit can slide, from the longest common suffix before it on, the one chosen has the best score and is the last of these. |
| `DiffSemantic.CleanupSemanticLossless` | console/src/main/resources/static/console-fe/public/js/diff_match_patch.js:18-20 | Sliding edits to the best scoring place preserves both texts, whatever the score. |
| `DiffSemantic.SplitTrivialEqualities` | console/src/main/resources/static/console-fe/public/js/diff_match_patch.js:16-17 | Splitting small equalities preserves both texts and ends; something is split iff some equality is no longer than the larger edit before it and the larger edit behind it. |
| `DiffSemantic.SplitOverlaps` | console/src/main/resources/static/console-fe/public/js/diff_match_patch.js:17-18 | Pulling overlaps out of deletion and insertion pairs preserves both texts; a normal script has afterwards no deletion next to an insertion that shares half of either at its ends. |
| `DiffSemantic.CleanupSemantic` | console/src/main/resources/static/console-fe/public/js/diff_match_patch.js:16-18 | The whole semantic clean-up preserves both texts. |
| `DiffLines.LinesToChars` | console/src/main/resources/static/console-fe/public/js/diff_match_patch.js:10-11 | The two encoded texts decode to the two texts iff the table of lines has at most 65536 entries; its size is the number of distinct lines and one or two more; it throws iff the second text is not empty and the last line of the first is "hasOwnProperty". |
| `DiffLines.DistinctOfPieces` | console/src/main/resources/static/console-fe/public/js/diff_match_patch.js:6-10 | Pieces of two texts have at most four more distinct lines than the texts. |
| `DiffMain.CharsToLines` | console/src/main/resources/static/console-fe/public/js/diff_match_patch.js:11-11 | Every entry of the script is decoded in place. |
| `DiffMain.TrimCommon` | console/src/main/resources/static/console-fe/public/js/diff_match_patch.js:2-3 | The texts are their longest common prefix, two middles and the longest common suffix of the rest. |
| `DiffMain.TrimmedIsUnique` | console/src/main/resources/static/console-fe/public/js/diff_match_patch.js:2-3 | There is only one way to trim two texts. |
| `DiffMain.Rediff` | console/src/main/resources/static/console-fe/public/js/diff_match_patch.js:6-7 | Re-diffing the edit runs of a line script character by character preserves both texts. |
| `DiffMain.FindHalfMatch` | console/src/main/resources/static/console-fe/public/js/diff_match_patch.js:14-15 | With a deadline, a half-match is found iff the texts share a piece at least half as long as the longer one, of at least four units; and then its middle is a longest common piece. |
| `DiffMain.DiffTexts` | console/src/main/resources/static/console-fe/public/js/diff_match_patch.js:2-9 | Through prefix, suffix, half-match, line mode, bisect split and clean-up, wherever the deadline falls, the script goes from the first text to the second and keeps the common prefix and suffix, a middle embedded in the other one, and with a deadline a longest common piece of at least half the longer middle. |
| `DiffMain.DiffMain` | console/src/main/resources/static/console-fe/public/js/diff_match_patch.js:2-5 | For all texts with at most 65531 distinct lines the result has the first text as its source and the second as its target, and is normal, unless line mode throws. It keeps what `DiffTexts` keeps; when one middle is a piece of the other nothing is deleted, or nothing inserted. It can only throw when the first text contains "hasOwnProperty"; and when no half-match is found, it throws iff the middles are both longer than 100 units, neither contains the other, and the last line of the first is "hasOwnProperty". |
| `DiffMain.NothingShared` | console/src/main/resources/static/console-fe/public/js/diff_match_patch.js:2-5 | Texts without a common unit are their own middles, share no piece and do not contain each other. |
| `DiffMain.ThrowsOnHasOwnProperty` | console/src/main/resources/static/console-fe/public/js/diff_match_patch.js:2-11 | Such a pair: 100 times A, a newline and "hasOwnProperty"; and 101 times B. The diff throws. |
| `DiffBound.OneLineTooMany` | console/src/main/resources/static/console-fe/public/js/diff_match_patch.js:6-11 | Two texts with 65532 distinct lines whose middles reach line mode with 65536 and do not decode to themselves, so the bound of `DiffMain` is sharp. |
| `MergeChunks.GetDiff` | console/src/main/resources/static/console-fe/public/js/merge.js:662-675 | For texts with at most 65531 distinct lines, the tidied diff has the two texts, no empty entries and no two equal operations in a row. |
| `MergeChunks.CleanEndMeans` | console/src/main/resources/static/console-fe/public/js/merge.js:704-712 | An equality has a clean end iff it ends a line in both texts and no part of a single newline, with more behind it, is one of the two behind it. |
| `MergeChunks.CleanStartMeans` | console/src/main/resources/static/console-fe/public/js/merge.js:714-721 | An equality has a clean start iff it starts a line in both texts. |
| `MergeChunks.ChunkIsNotEmpty` | console/src/main/resources/static/console-fe/public/js/merge.js:677-721 | Every chunk has lines of one of the texts. |
| `MergeChunks.GetChunks` | console/src/main/resources/static/console-fe/public/js/merge.js:677-702 | The chunks are ordered and disjoint, and outside them the lines match one to one; and a line of either text is in no chunk iff it lies wholly in an equality, starts and ends a line there in both texts, is not paired already, and no single newline stands behind it. |
| `MergeChunks.MarksUnchangedLine` | console/src/main/resources/static/console-fe/public/js/merge.js:704-712 | A concrete script with a single newline, in which an unchanged line is in a chunk. |
| `MergeChunks.ChunksAreOrdered` | console/src/main/resources/static/console-fe/public/js/merge.js:677-702 | Each chunk lies behind the one before it, on both sides, and the lines between them are equal. |
| `MergeChunks.RevertingRebuildsOriginal` | console/src/main/resources/static/console-fe/public/js/merge.js:677-702 | Replacing each chunk's edit lines by its original lines rebuilds the original lines. |
| `MergeChunks.GetMatchingOrigLine` | console/src/main/resources/static/console-fe/public/js/merge.js:349-359 | A line has no match iff it is in a chunk, and otherwise its match is an equal line of the original. |
| `MergeChunks.UpdateDiff` | console/src/main/resources/static/console-fe/public/js/merge.js:88-89 | For all pairs of texts with at most 65531 distinct lines, diff and chunks together: reverting every chunk gives the original text, the lines in no chunk are the paired ones, and equal texts have no chunk unless they are empty. |
| `JsonComplete.ParserIsComplete` | console/src/main/resources/static/console-fe/public/js/codemirror.lib.json-lint.js:115-256 | On the tokens of any JSON value the LR loop returns that value. |
| `JsonSound.ParserDecidesJson` | console/src/main/resources/static/console-fe/public/js/codemirror.lib.json-lint.js:68-256 | The loop returns v iff the tokens are those of a JSON text that denotes v (sections 2 to 5 of RFC 8259). |
| `JsonGrammar.LastMemberWins` | console/src/main/resources/static/console-fe/public/js/codemirror.lib.json-lint.js:52-55 | Of members with the same key the last one gives the value. |
| `JsonSound.Parse` | console/src/main/resources/static/console-fe/public/js/codemirror.lib.json-lint.js:115-256 | The parse method with its stacks, lookahead and error handling returns v iff the tokens denote v, and otherwise ends in an error. |
| `JsonSound.NoErrorEntry` | console/src/main/resources/static/console-fe/public/js/codemirror.lib.json-lint.js:68-69 | No state of the table has an entry for the error symbol. |
| `JsonSound.Recover` | console/src/main/resources/static/console-fe/public/js/codemirror.lib.json-lint.js:166-178 | The error pop loop resumes at the topmost state with an error entry, or throws at the topmost state 0 if none above has one; with `NoErrorEntry` it always throws. |
| `LoaderGraph.NewEdgeStaysAcyclic` | console/src/main/resources/static/console-fe/public/js/loader.js:7-7 | A wait edge whose target does not lead back to the waiter keeps the wait graph acyclic. |
| `LoaderGraph.ClosedSetHasCycle` | console/src/main/resources/static/console-fe/public/js/loader.js:7-7 | A set of modules that each wait for another one of the set has a cycle. |
| `Loader.ModuleManager.HasDependencyPath` | console/src/main/resources/static/console-fe/public/js/loader.js:7-7 | The worklist search answers true iff there is a path over the pending dependencies. |
| `Loader.ModuleManager.FindCyclePath` | console/src/main/resources/static/console-fe/public/js/loader.js:7-7 | The depth-limited search walks the pending dependencies in order: it ends as the first route does that arrives, is 50 steps long or meets a completed module, and comes back empty iff there is none. |
| `LoaderSearch.SearchMeans` | console/src/main/resources/static/console-fe/public/js/loader.js:7-7 | It fails iff a completed module comes first among these routes, finds a path iff an arrival or the depth limit does, and finds nothing iff there is no such route. |
| `LoaderSearch.PathIsNotMissed` | console/src/main/resources/static/console-fe/public/js/loader.js:7-7 | Where there is a dependency path the search does not come back empty. |
| `LoaderSearch.CrashNeedsCompleted` | console/src/main/resources/static/console-fe/public/js/loader.js:7-7 | It only fails if a completed module can be reached over pending dependencies. |
| `Loader.ModuleManager.OnModuleComplete` | console/src/main/resources/static/console-fe/public/js/loader.js:7-7 | Completing a module and all that become ready keeps every counter equal to the outstanding wait edges, and logs each completion once. |
| `Loader.ModuleManager.Resolve` | console/src/main/resources/static/console-fe/public/js/loader.js:7-7 | Resolving keeps the invariant and completes the module when nothing is outstanding; it fails iff some dependency leads back to the module and a completed module comes first on the way. |
| `Loader.ModuleManager.DefineModule` | console/src/main/resources/static/console-fe/public/js/loader.js:7-7 | Defining a module keeps the invariant; a second definition does nothing; it throws iff some dependency closes a cycle and, among the routes from it in depth-first order, one that meets a completed module comes first; so only if a completed module can be reached from a dependency on a cycle. |
| `Loader.UnprintableNeedsCompleted` | console/src/main/resources/static/console-fe/public/js/loader.js:7-7 | A cycle that cannot be printed has a completed module behind it. |
| `Loader.ModuleManager.DefineAll` | console/src/main/resources/static/console-fe/public/js/loader.js:7-7 | Over any sequence of definitions, a module whose definition threw stays incomplete; if none throws and every listed module is defined, all are complete. |
| `Loader.ModuleManager.AllModulesComplete` | console/src/main/resources/static/console-fe/public/js/loader.js:7-7 | Once every mentioned id is defined and no definition has thrown, every module is complete, exactly once, and dependencies come first except on cycles. |
| `Loader.AllComplete` | console/src/main/resources/static/console-fe/public/js/loader.js:7-7 | No deadlock: with exact counters, an acyclic wait graph and no id undefined, nothing is left incomplete. |
| `Loader.CycleBehindCompletedModule` | console/src/main/resources/static/console-fe/public/js/loader.js:7-7 | A concrete sequence of definitions in which printing a cycle reads the dependencies of a completed module, throws, and leaves two modules incomplete. |
| `PropertyFormat.ValidateProperty` | console/src/main/resources/static/console-fe/src/utils/validateContent.js:22-67 | A line is accepted iff it has a non-empty key, a non-empty value and only valid escapes. |
| `PropertyFormat.FindKey` | console/src/main/resources/static/console-fe/src/utils/validateContent.js:29-49 | The key ends at the first separator or space that is not escaped. |
| `PropertyFormat.SkipToValue` | console/src/main/resources/static/console-fe/src/utils/validateContent.js:50-61 | The value starts behind space, at most one separator, and space. |
| `PropertyFormat.ValidateKeyOrValue` | console/src/main/resources/static/console-fe/src/utils/validateContent.js:69-103 | The part is not empty and every backslash that is not escaped starts a valid escape; a backslash at the very end counts as valid. |
| `PropertyScan.Validate` | console/src/main/resources/static/console-fe/src/utils/validateContent.js:153-239 | The character loop with its six flags computes the verdict of the step function. |
| `PropertyScan.ScanJudgesItems` | console/src/main/resources/static/console-fe/src/utils/validateContent.js:153-239 | For every text the scan accepts iff the two-phase reading, with the flag an open comment hands on, has a logical line and all are valid. |
| `PropertyScan.ReadAlike` | console/src/main/resources/static/console-fe/src/utils/validateContent.js:153-239 | The scan reads the lines as the format does iff no line of backslashes, other than the last line, is read with the flag of an open comment. |
| `PropertyScan.ScanDecidesFormat` | console/src/main/resources/static/console-fe/src/utils/validateContent.js:153-239 | For every text without such a line, and so for every text whose comments do not end in an unescaped backslash: accepted iff its logical lines are at least one and all valid. |
| `PropertyScan.ValidateProperties` | console/src/main/resources/static/console-fe/src/utils/validateContent.js:153-239 | The validator has these properties. |
| `PropertyExample.RefusesWellFormed` | console/src/main/resources/static/console-fe/src/utils/validateContent.js:202-209 | A text with an open comment that is well formed and refused. |
| `PropertyExample.AcceptsIllFormed` | console/src/main/resources/static/console-fe/src/utils/validateContent.js:202-209 | A text with an open comment that is ill formed and accepted. |

## Left out

- The forward and backward search of `diff_bisect_` and the minimality of its edit path: the split is any pair of offsets inside the two texts except the two corners, (0, 0) and both ends, or none. That the search never returns a corner is not proved; the end of the recursion rests on it.
- `diff_cleanupEfficiency`, `match_*` and `patch_*`: not used by the merge view, or scored with floating point.
- The score function of `diff_cleanupSemanticLossless`: an arbitrary function, so what is proved holds for every score.
- DiffMain: line mode, and with it `GetDiff` and `UpdateDiff`, is stated for at most 65531 distinct lines in both texts together. Beyond that a line can be encoded as the character of the empty line, and the clean-up of the decoded script can then compare two empty texts for ever, so there is no result to speak of.
- DiffMain: when a half-match is found, whether line mode throws depends on the parts around the piece it picks; then only the sufficient condition is stated.
- `ignoreWhitespace` in `getDiff`: it drops differences on purpose, so the lines outside the chunks then agree only up to space.
- Reading positions as UTF-16 offsets: characters are opaque units.
- `undoSelection` and `redoSelection`, `beforeChange` filters, read-only ranges, linked documents with `rebaseHist`, `clearHistory` and `setHistory`.
- Marker spans kept in history entries (`attachLocalSpans`, `mergeOldSpans`): an undo takes the spans it brings back as an argument.
- The cached parsing state, styles and order of a line, and the search for the longest line.
- Markers that touch a change without being strictly before, behind or around it: their ends depend on `inclusiveLeft`, `inclusiveRight` and `insertLeft`; `StretchedFor` still describes their spans.
- Collapsed, hidden and atomic ranges, so every view entry stands for one line and `visualLine` is the line itself.
- Chunks and lines of the tree are records in a map and are addressed by number; the identity of JavaScript objects is modelled by these numbers, and memory that is no longer reachable stays in the map.
- The lexer of the JSON parser, `yytext` unescaping and `Number()`: tokens carry their text, and unescaping is an arbitrary function.
- The special meaning of the key `__proto__` in parsed objects.
- The messages and locations the JSON parser reports, and the counter of shifted symbols after an error, which no run reaches.
- Plugin dependencies, script loading, configuration, factories that throw or define modules themselves.
- `validateJson`, `validateXml`, `validateYaml`: calls into other parsers.
- Drawing, measuring, scrolling, input, key maps, highlighting, bidirectional text.
- The rest of the repository: server, clients, console pages.
