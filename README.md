# Handwriting canvas editing engine

This project models the in-memory editing engine of the `HandwritingCanvas` widget, a
handwriting-practice sheet. The user clicks a ruled line and types. Each character keeps its own
style (solid, dashed or dotted), size and colour. Text can be selected with the mouse or with
shift and the movement keys, and deleted, typed over or restyled. Every edit records a full
snapshot of the lines in a linear history.

The engine is one React component. Its `useState` cells are the session: `textLines`, `cursor`,
`selection`, `history`, `historyIndex`, `fontSize`, `currentFormatting`, `isTyping` and
`isDragging`. Two props are read as well: `lineSpacing` and `letterStyle`.

Modules:

- `CanvasTypes` (types.dfy): `Character`, `TextLine`, `Cursor`, `TextSelection`, the pen
  `Formatting`, and the page constants. Glyph width is an injected `Measure` from a character
  to a whole number of pixels.
- `Splice` (splice.dfy): JavaScript's `splice` and `slice` on sequences, with their clamping
  and their negative counts.
- `LineIds` (lineids.dfy): line ids `line_<k>` and the `parseInt(id.split('_')[1])` that
  recovers `k`.
- `LineGrid` (grid.dfy): the ruled-line grid (`writingLines`) and the slot lookup
  (`findLineByY`).
- `HitTest` (hittest.dfy): the caret-x sum and the hit test (`calculateCursorPosition`),
  each as a loop proved against a function, plus the lemmas that make them inverse.
- `History` (history.dfy): `saveToHistory`.
- `Lines` (lines.dfy): finding a line by id, `createCharacter`, and the `map` updates over
  the line list.
- `SelectionEdits` (selection.dfy): `deleteSelection`, `replaceSelection` and
  `applyFormattingToSelection`, each as a method with the source's loops, proved equal to a
  function, and the lemmas about those functions.
- `Session` (session.dfy): the whole state as a value, and one transition function per
  event. It also holds the invariant `Consistent`:
  - line ids are unique grid ids;
  - every offset lies inside its line;
  - a selection is active, ends on the cursor's line and lies within existing lines;
  - the history index names the last entry.
- `SessionProperties` (session_props.dfy): every transition keeps `Consistent`.
- `SessionBehaviour` (behaviour.dfy): what each event does, and the lemma that every
  reachable state is consistent.
- `Canvas` (canvas.dfy): the class `HandwritingCanvas`. It has the session fields, and one
  method per handler. Each method ensures that the new state is the matching transition of
  the old one, and that `Valid()` is kept.

Events are processed one at a time. Each handler sees the state the previous handler left.

## Model

Below, H stands for `client/src/view/components/HandwritingCanvas/HandwritingCanvas.tsx`. The table writes the path out in full.

| member | source | states |
|---|---|---|
| LineIds.NatToString | client/src/view/components/HandwritingCanvas/HandwritingCanvas.tsx:127-128 | the decimal numeral of a line index is a non-empty string of digits |
| LineIds.IndexOfChar | client/src/view/components/HandwritingCanvas/HandwritingCanvas.tsx:882 | the position of the first `_` in an id, or -1 when there is none |
| LineIds.DigitPrefixLength | client/src/view/components/HandwritingCanvas/HandwritingCanvas.tsx:882 | `parseInt` reads the longest run of leading digits |
| LineIds.DigitsValueOfNatToString | client/src/view/components/HandwritingCanvas/HandwritingCanvas.tsx:127-128 | reading back the printed index gives the index |
| LineIds.ParseLineIndexOfLineId | client/src/view/components/HandwritingCanvas/HandwritingCanvas.tsx:882 | `parseInt(("line_" + k).split('_')[1])` is `k` |
| LineIds.LineIdInjective | client/src/view/components/HandwritingCanvas/HandwritingCanvas.tsx:127-128 | distinct indices give distinct line ids, and conversely |
| LineGrid.WritingLines | client/src/view/components/HandwritingCanvas/HandwritingCanvas.tsx:120-135 | the `while` loop builds exactly the grid function's slots |
| LineGrid.SlotsFromAt | client/src/view/components/HandwritingCanvas/HandwritingCanvas.tsx:125-132 | slot j exists iff its y is above the bottom limit, and it is then `line_<k+j>` at `y + j*spacing` |
| LineGrid.GridSlot | client/src/view/components/HandwritingCanvas/HandwritingCanvas.tsx:120-135 | slot k exists iff `120 + k*spacing < 1073`, and it is `line_k` at `120 + k*spacing` |
| LineGrid.SlotsFromAbove | client/src/view/components/HandwritingCanvas/HandwritingCanvas.tsx:125-132 | no slot lies above the starting y |
| LineGrid.SlotsFromGap | client/src/view/components/HandwritingCanvas/HandwritingCanvas.tsx:125-132 | later slots lie at least one spacing further down |
| LineGrid.SlotsFromBelowBottom | client/src/view/components/HandwritingCanvas/HandwritingCanvas.tsx:125 | every slot's y is above the bottom limit |
| LineGrid.GridIncreasing | client/src/view/components/HandwritingCanvas/HandwritingCanvas.tsx:114-135 | the grid's y values strictly increase by at least the spacing, and all lie in [120, 1073) |
| LineGrid.FirstNearIndex | client/src/view/components/HandwritingCanvas/HandwritingCanvas.tsx:360-364 | the index of the first slot within half a spacing of y, or -1 when no slot is |
| LineGrid.FindLineByY | client/src/view/components/HandwritingCanvas/HandwritingCanvas.tsx:360-364 | undefined iff no slot is within half a spacing; otherwise a grid slot that is |
| LineGrid.FindLineByYOnGrid | client/src/view/components/HandwritingCanvas/HandwritingCanvas.tsx:360-364 | a y within half a spacing of slot k finds slot k, because slots are a full spacing apart |
| LineGrid.SlotOfGrid | client/src/view/components/HandwritingCanvas/HandwritingCanvas.tsx:120-135 | every grid slot's id parses to its index, and its y is `120 + index*spacing` |
| HitTest.WidthStep | client/src/view/components/HandwritingCanvas/HandwritingCanvas.tsx:265-269 | one more character adds its own width to the caret x |
| HitTest.MeasureCaretX | client/src/view/components/HandwritingCanvas/HandwritingCanvas.tsx:693-698 | the loop's x is the margin plus the widths of the first `position` characters |
| HitTest.XForOffsetMonotone | client/src/view/components/HandwritingCanvas/HandwritingCanvas.tsx:265-269 | caret x never decreases with the offset, and strictly increases when widths are positive |
| HitTest.HitFrom | client/src/view/components/HandwritingCanvas/HandwritingCanvas.tsx:376-395 | the walk from character i returns an offset in [i, length] |
| HitTest.CalculateCursorPosition | client/src/view/components/HandwritingCanvas/HandwritingCanvas.tsx:366-396 | the loop's offset lies in [0, length] and equals the hit-test function |
| HitTest.HitFromLeftOfStart | client/src/view/components/HandwritingCanvas/HandwritingCanvas.tsx:376-395 | an x left of the walk's current x falls through to the line end |
| HitTest.OffsetLeftOfMargin | client/src/view/components/HandwritingCanvas/HandwritingCanvas.tsx:376-395 | an x left of the margin hit-tests to the end of the line |
| HitTest.HitFromPastEnd | client/src/view/components/HandwritingCanvas/HandwritingCanvas.tsx:376-395 | an x past the last character is reached by no span and gives the line end |
| HitTest.OffsetPastEnd | client/src/view/components/HandwritingCanvas/HandwritingCanvas.tsx:395 | an x past the last character hit-tests to the end of the line |
| HitTest.HitFromInSpan | client/src/view/components/HandwritingCanvas/HandwritingCanvas.tsx:380-388 | started at any character up to i, the walk reaches character i's span and decides by its half width |
| HitTest.OffsetInSpan | client/src/view/components/HandwritingCanvas/HandwritingCanvas.tsx:380-388 | an x in character i's span gives i+1 past the half width and i otherwise |
| HitTest.OffsetOfCaretX | client/src/view/components/HandwritingCanvas/HandwritingCanvas.tsx:265-269 | with positive widths, hit-testing the caret x of offset o gives o back |
| History.Record | client/src/view/components/HandwritingCanvas/HandwritingCanvas.tsx:147-152 | the new history is a prefix of the old one with the snapshot appended, of length index + 2 |
| History.RecordTwice | client/src/view/components/HandwritingCanvas/HandwritingCanvas.tsx:147-152 | two recordings in a row keep the entries up to the index and append both snapshots |
| Lines.IndexOf | client/src/view/components/HandwritingCanvas/HandwritingCanvas.tsx:423 | `findIndex` by id: -1, or an index whose line has that id |
| Lines.IndexOfFirst | client/src/view/components/HandwritingCanvas/HandwritingCanvas.tsx:423 | the index found is the first with that id, and -1 means no line has it |
| Lines.IndexOfSameIds | client/src/view/components/HandwritingCanvas/HandwritingCanvas.tsx:423 | lists with the same ids at the same places find every id at the same index |
| Lines.IndexOfUnique | client/src/view/components/HandwritingCanvas/HandwritingCanvas.tsx:423 | with unique ids, the line at index k is found at k |
| SelectionEdits.DeleteSelection | client/src/view/components/HandwritingCanvas/HandwritingCanvas.tsx:717-816 | the method, with its clearing loop, returns exactly the deletion function's result |
| SelectionEdits.ReplaceSelection | client/src/view/components/HandwritingCanvas/HandwritingCanvas.tsx:818-851 | the method returns exactly the replacement function's result |
| SelectionEdits.PatchRange | client/src/view/components/HandwritingCanvas/HandwritingCanvas.tsx:932-936 | the in-place patch loop gives the characters with the range patched |
| SelectionEdits.PatchMiddleLines | client/src/view/components/HandwritingCanvas/HandwritingCanvas.tsx:978-992 | the `forEach` over the lines between the endpoint heights gives the middle-patched list |
| SelectionEdits.FormatSelection | client/src/view/components/HandwritingCanvas/HandwritingCanvas.tsx:922-993 | the method returns exactly the formatting function's result |
| SelectionEdits.PatchedKeepsGlyph | client/src/view/components/HandwritingCanvas/HandwritingCanvas.tsx:932-936 | a patch changes only the size, the style or the colour it names, never the glyph, the font, bold or italic |
| SelectionEdits.DeleteOutcome | client/src/view/components/HandwritingCanvas/HandwritingCanvas.tsx:717-816 | null exactly when there is no active selection or an endpoint line is missing; otherwise all line frames are kept and the visible caret is on the start line at the start offset |
| SelectionEdits.SetFrameKept | client/src/view/components/HandwritingCanvas/HandwritingCanvas.tsx:770-782 | replacing a line's characters and offset keeps every line frame |
| SelectionEdits.ClearedKeepsFrames | client/src/view/components/HandwritingCanvas/HandwritingCanvas.tsx:784-790 | emptying the lines between two indices keeps every line frame |
| SelectionEdits.DeleteOnOneLine | client/src/view/components/HandwritingCanvas/HandwritingCanvas.tsx:726-763 | a forward selection inside one line removes exactly [start, end), and the caret goes to start |
| SelectionEdits.DeleteBackwardKeepsText | client/src/view/components/HandwritingCanvas/HandwritingCanvas.tsx:729-730 | a backward selection on one line removes nothing and only moves the line's offset |
| SelectionEdits.DeleteAcrossLines | client/src/view/components/HandwritingCanvas/HandwritingCanvas.tsx:764-815 | the start line keeps its text before start, the end line keeps its text from end on, the lines between in list order are emptied, and the others are untouched |
| SelectionEdits.ReplaceIsDeleteThenInsert | client/src/view/components/HandwritingCanvas/HandwritingCanvas.tsx:818-851 | replacing is null iff deleting is; otherwise it is deletion followed by inserting the typed character at the caret, which moves one step on |
| SelectionEdits.ReplaceOnOneLine | client/src/view/components/HandwritingCanvas/HandwritingCanvas.tsx:818-851 | typing over a forward one-line selection puts the typed character in place of [start, end), with the caret after it |
| SelectionEdits.RestyledPatchedRange | client/src/view/components/HandwritingCanvas/HandwritingCanvas.tsx:932-936 | patching a range of one line restyles the list |
| SelectionEdits.RestyledTransitive | client/src/view/components/HandwritingCanvas/HandwritingCanvas.tsx:945-992 | the formatting passes compose: a restyle of a restyle is a restyle |
| SelectionEdits.PatchedIdempotent | client/src/view/components/HandwritingCanvas/HandwritingCanvas.tsx:932-936 | applying the same patch twice is applying it once |
| SelectionEdits.MiddlePatchedSameIds | client/src/view/components/HandwritingCanvas/HandwritingCanvas.tsx:985-992 | the middle pass keeps every id at its place |
| SelectionEdits.MiddlePatchedStep | client/src/view/components/HandwritingCanvas/HandwritingCanvas.tsx:985-992 | one step of the `forEach` updates only the line at that index |
| SelectionEdits.MiddlePatchedAt | client/src/view/components/HandwritingCanvas/HandwritingCanvas.tsx:978-992 | with unique ids, after n steps line i is patched in full iff i < n and it lies strictly between the endpoint heights |
| SelectionEdits.MiddlePatchedUnique | client/src/view/components/HandwritingCanvas/HandwritingCanvas.tsx:978-992 | the same for every line at once |
| SelectionEdits.EndsFormattedRestyles | client/src/view/components/HandwritingCanvas/HandwritingCanvas.tsx:945-976 | formatting the two endpoint lines only restyles |
| SelectionEdits.MiddlePatchedRestyles | client/src/view/components/HandwritingCanvas/HandwritingCanvas.tsx:978-992 | formatting the middle lines only restyles |
| SelectionEdits.FormattingKeepsText | client/src/view/components/HandwritingCanvas/HandwritingCanvas.tsx:922-993 | formatting never changes a line count, an id, a character count or a glyph, and without an active selection it changes nothing |
| SelectionEdits.RestyledReflexive | client/src/view/components/HandwritingCanvas/HandwritingCanvas.tsx:922-926 | leaving the lines alone is a restyle |
| SelectionEdits.FormatOneLine | client/src/view/components/HandwritingCanvas/HandwritingCanvas.tsx:927-943 | on one line exactly the characters at offsets in [start, end) take the patch, and no other line changes |
| SelectionEdits.FormatAcrossLines | client/src/view/components/HandwritingCanvas/HandwritingCanvas.tsx:944-993 | the start line from start on, the end line before end, and every line strictly between the two heights take the patch; nothing else changes |
| Session.KeySwitch | client/src/view/components/HandwritingCanvas/HandwritingCanvas.tsx:536-677 | the `switch` statement decides exactly the key function's outcome, where a one-character key is one of UTF-16 length 1 |
| Lines.Utf16Length | client/src/view/components/HandwritingCanvas/HandwritingCanvas.tsx:659 | a key's `length` counts UTF-16 code units, at least one per character |
| Lines.SingleUnitKey | client/src/view/components/HandwritingCanvas/HandwritingCanvas.tsx:659 | `e.key.length === 1` holds iff the key is one character below U+10000 |
| SessionBehaviour.WideKeyInsertsNothing | client/src/view/components/HandwritingCanvas/HandwritingCanvas.tsx:658-687 | a single character above U+FFFF is not inserted and does not replace the selection; the line is committed unchanged |
| SessionProperties.RecordedAppends | client/src/view/components/HandwritingCanvas/HandwritingCanvas.tsx:147-152 | at the last index, recording appends the snapshot and the index then names it |
| SessionProperties.ShapeKeepsPlacement | client/src/view/components/HandwritingCanvas/HandwritingCanvas.tsx:423 | edits that keep ids and lengths keep uniqueness and every id's index |
| SessionProperties.ShapeKeepsCursor | client/src/view/components/HandwritingCanvas/HandwritingCanvas.tsx:449-461 | such edits keep the cursor on its line and inside it |
| SessionProperties.ShapeKeepsSelection | client/src/view/components/HandwritingCanvas/HandwritingCanvas.tsx:463-482 | such edits keep the selection within its lines |
| SessionProperties.ConsistentUnderShape | client/src/view/components/HandwritingCanvas/HandwritingCanvas.tsx:922-997 | such edits, with a recorded history, keep the invariant |
| SessionProperties.RestyledShape | client/src/view/components/HandwritingCanvas/HandwritingCanvas.tsx:922-997 | a restyle keeps ids, lengths and line offsets |
| SessionProperties.InitialConsistent | client/src/view/components/HandwritingCanvas/HandwritingCanvas.tsx:29-45 | the state on mount is consistent |
| SessionProperties.MouseUpPreserves | client/src/view/components/HandwritingCanvas/HandwritingCanvas.tsx:525-527 | releasing the button keeps the invariant |
| SessionProperties.ClickOutsidePreserves | client/src/view/components/HandwritingCanvas/HandwritingCanvas.tsx:398-414 | a press outside keeps the invariant |
| SessionProperties.BlinkPreserves | client/src/view/components/HandwritingCanvas/HandwritingCanvas.tsx:853-861 | the blink keeps the invariant |
| SessionProperties.PropsChangePreserves | client/src/view/components/HandwritingCanvas/HandwritingCanvas.tsx:8-13 | new props with a positive spacing keep the invariant |
| SessionProperties.LineSpacingChangePreserves | client/src/view/components/HandwritingCanvas/HandwritingCanvas.tsx:878-904 | re-projecting onto a positive spacing keeps the invariant |
| SessionProperties.FormatChangePreserves | client/src/view/components/HandwritingCanvas/HandwritingCanvas.tsx:869-920 | a change of pen, with or without formatting the selection, keeps the invariant |
| SessionProperties.IndexOfAppend | client/src/view/components/HandwritingCanvas/HandwritingCanvas.tsx:425-438 | appending a line keeps every found index and finds a new id at the end |
| SessionProperties.AppendKeepsPlacement | client/src/view/components/HandwritingCanvas/HandwritingCanvas.tsx:425-438 | appending a line with a fresh id keeps ids unique and the new line is found last |
| SessionProperties.MouseDownPreserves | client/src/view/components/HandwritingCanvas/HandwritingCanvas.tsx:416-484 | a press keeps the invariant |
| SessionProperties.MouseDownAppends | client/src/view/components/HandwritingCanvas/HandwritingCanvas.tsx:425-438 | a press on an empty slot appends its line and records it |
| SessionProperties.MouseDownActivates | client/src/view/components/HandwritingCanvas/HandwritingCanvas.tsx:439-447 | a press on an existing line only changes which line is active |
| SessionProperties.AppendKeepsWellFormed | client/src/view/components/HandwritingCanvas/HandwritingCanvas.tsx:425-438 | appending a well-formed line keeps all lines well formed |
| SessionProperties.PressOnAppendedWithin | client/src/view/components/HandwritingCanvas/HandwritingCanvas.tsx:463-482 | a shift-press on a new line selects within existing lines |
| SessionProperties.MouseDownNewLine | client/src/view/components/HandwritingCanvas/HandwritingCanvas.tsx:425-484 | a press on an empty slot keeps the invariant |
| SessionProperties.MouseDownExistingLine | client/src/view/components/HandwritingCanvas/HandwritingCanvas.tsx:439-484 | a press on an existing line keeps the invariant |
| SessionProperties.ActivatedConsistent | client/src/view/components/HandwritingCanvas/HandwritingCanvas.tsx:439-461 | activating one line and placing the caret on it keeps the invariant |
| SessionProperties.MouseMovePreserves | client/src/view/components/HandwritingCanvas/HandwritingCanvas.tsx:486-523 | a drag keeps the invariant |
| SessionProperties.WithLineContentUnique | client/src/view/components/HandwritingCanvas/HandwritingCanvas.tsx:680-684 | with unique ids, the `map` that rewrites the cursor's line is an update at its index |
| SessionProperties.SetLineKeepsIds | client/src/view/components/HandwritingCanvas/HandwritingCanvas.tsx:680-684 | replacing a line by one with the same id keeps every id and index |
| SessionProperties.FramesKeepPlacement | client/src/view/components/HandwritingCanvas/HandwritingCanvas.tsx:717-816 | lists with the same line frames and offsets inside keep ids unique, lines well formed and indices |
| SessionProperties.SetLineOffsetsInside | client/src/view/components/HandwritingCanvas/HandwritingCanvas.tsx:732-739 | setting a line whose offset is inside it keeps all offsets inside |
| SessionProperties.DeleteOffsetsOneLine | client/src/view/components/HandwritingCanvas/HandwritingCanvas.tsx:726-763 | after a one-line deletion every offset, and the caret, lies inside its line |
| SessionProperties.DeleteOffsetsAcross | client/src/view/components/HandwritingCanvas/HandwritingCanvas.tsx:764-815 | after a multi-line deletion every offset lies inside its line |
| SessionProperties.DeletePlaced | client/src/view/components/HandwritingCanvas/HandwritingCanvas.tsx:717-816 | deleting a selection within existing lines keeps ids, well-formed lines and a caret on its line |
| SessionProperties.EditPlaced | client/src/view/components/HandwritingCanvas/HandwritingCanvas.tsx:717-851 | an edit that keeps frames and offsets, with the caret on a found line, keeps the list placed |
| SessionProperties.InsertPlaced | client/src/view/components/HandwritingCanvas/HandwritingCanvas.tsx:826-848 | inserting the typed character at a placed caret keeps the list and the caret placed |
| SessionProperties.ReplacePlaced | client/src/view/components/HandwritingCanvas/HandwritingCanvas.tsx:818-851 | typing over a selection within existing lines keeps the list and the caret placed |
| SessionProperties.CommittedPlaced | client/src/view/components/HandwritingCanvas/HandwritingCanvas.tsx:536-677 | every committed key outcome has an offset inside the new characters, and a selection on the same line within them |
| SessionProperties.CommitKeyState | client/src/view/components/HandwritingCanvas/HandwritingCanvas.tsx:680-704 | the commit step rewrites the cursor's line, moves the caret and records the list |
| SessionProperties.CommitKeyConsistent | client/src/view/components/HandwritingCanvas/HandwritingCanvas.tsx:680-704 | the commit step keeps the invariant |
| SessionProperties.LineEditPlaced | client/src/view/components/HandwritingCanvas/HandwritingCanvas.tsx:680-684 | rewriting one line with an offset inside it keeps the list placed |
| SessionProperties.SetLineKeepsWellFormed | client/src/view/components/HandwritingCanvas/HandwritingCanvas.tsx:680-684 | rewriting one line with a well-formed line keeps all lines well formed |
| SessionProperties.KeyDownCommits | client/src/view/components/HandwritingCanvas/HandwritingCanvas.tsx:680-704 | a committed key outcome takes the commit step |
| SessionProperties.CommitPreserves | client/src/view/components/HandwritingCanvas/HandwritingCanvas.tsx:536-704 | a key that reaches the commit step keeps the invariant |
| SessionProperties.SelectionEditAppliedConsistent | client/src/view/components/HandwritingCanvas/HandwritingCanvas.tsx:543-549 | taking a placed deletion or replacement keeps the invariant |
| SessionProperties.KeyDownEditsSelection | client/src/view/components/HandwritingCanvas/HandwritingCanvas.tsx:540-572 | a key the switch sends to the selection operations takes their result |
| SessionProperties.SelectionEditsConsistent | client/src/view/components/HandwritingCanvas/HandwritingCanvas.tsx:717-851 | from a consistent state both selection operations keep the invariant |
| SessionProperties.SelectionEditsNeedActive | client/src/view/components/HandwritingCanvas/HandwritingCanvas.tsx:540-677 | the switch deletes the selection iff it is active and the key is Backspace or Delete, and replaces it iff it is active and the key is one character |
| SessionProperties.DeleteKeyPreserves | client/src/view/components/HandwritingCanvas/HandwritingCanvas.tsx:540-572 | Backspace or Delete over a selection keeps the invariant |
| SessionProperties.ReplaceKeyPreserves | client/src/view/components/HandwritingCanvas/HandwritingCanvas.tsx:658-677 | typing over a selection keeps the invariant |
| SessionProperties.KeyDownPreserves | client/src/view/components/HandwritingCanvas/HandwritingCanvas.tsx:530-715 | every key keeps the invariant |
| SessionBehaviour.ConsistentIsReady | client/src/view/components/HandwritingCanvas/HandwritingCanvas.tsx:531-534 | in a consistent state with a cursor in typing mode, the cursor's line exists and the offset is inside it |
| SessionBehaviour.CommitEffect | client/src/view/components/HandwritingCanvas/HandwritingCanvas.tsx:680-704 | a committed key changes only the cursor's line, the caret, the selection and the history, which gains the new list |
| SessionBehaviour.TypingInsertsAtCaret | client/src/view/components/HandwritingCanvas/HandwritingCanvas.tsx:658-687 | without an active selection a one-character key is inserted at the caret under the pen, the caret moves past it, and nothing else changes but the history |
| SessionBehaviour.TypedCharacterCarriesPen | client/src/view/components/HandwritingCanvas/HandwritingCanvas.tsx:137-145 | a typed character carries the pen's style, size and colour in the handwriting font, not bold, not italic |
| SessionBehaviour.BackspaceAtCaret | client/src/view/components/HandwritingCanvas/HandwritingCanvas.tsx:540-556 | Backspace removes the character before the caret and steps back; at 0 it changes no text |
| SessionBehaviour.DeleteKeyOutcome | client/src/view/components/HandwritingCanvas/HandwritingCanvas.tsx:557-572 | the switch's outcome for Delete without a selection |
| SessionBehaviour.MoveKeyOutcome | client/src/view/components/HandwritingCanvas/HandwritingCanvas.tsx:573-652 | the switch's outcome for the four movement keys, with and without shift |
| SessionBehaviour.DeleteAtCaret | client/src/view/components/HandwritingCanvas/HandwritingCanvas.tsx:557-572 | Delete removes the character at the caret, which stays; at the end it changes no text |
| SessionBehaviour.TypeThenBackspace | client/src/view/components/HandwritingCanvas/HandwritingCanvas.tsx:540-556 | typing a character then Backspace gives back the text and the offset, with two history entries added |
| SessionBehaviour.TypedStateReady | client/src/view/components/HandwritingCanvas/HandwritingCanvas.tsx:658-687 | after typing, the editor is still ready to type on the same line, one step further |
| SessionBehaviour.TypedThenErased | client/src/view/components/HandwritingCanvas/HandwritingCanvas.tsx:553 | removing the character just inserted gives the characters back |
| SessionBehaviour.UnshiftedMoves | client/src/view/components/HandwritingCanvas/HandwritingCanvas.tsx:573-652 | unshifted arrows step one offset within [0, length] and drop the selection; Home and End go to 0 and to the length |
| SessionBehaviour.ShiftedMoves | client/src/view/components/HandwritingCanvas/HandwritingCanvas.tsx:573-652 | shifted Home and End select to the line boundary without moving; the first shifted arrow makes an empty selection at the old offset; later ones move the selection's end with the caret |
| SessionBehaviour.ShiftedOutcome | client/src/view/components/HandwritingCanvas/HandwritingCanvas.tsx:573-652 | the switch's outcome for a shifted movement key |
| SessionBehaviour.EscapeLeavesTyping | client/src/view/components/HandwritingCanvas/HandwritingCanvas.tsx:653-657 | Escape drops the cursor, the selection and typing mode, and keeps the text and history |
| SessionBehaviour.KeyIgnoredWhenNotTyping | client/src/view/components/HandwritingCanvas/HandwritingCanvas.tsx:531-534 | keys change nothing without a cursor, outside typing mode, or when the cursor's line is gone |
| SessionBehaviour.DeletionKeysDeleteSelection | client/src/view/components/HandwritingCanvas/HandwritingCanvas.tsx:540-572 | Backspace or Delete over an active selection takes deletion's lines and caret, drops the selection and records once |
| SessionBehaviour.TypingReplacesSelection | client/src/view/components/HandwritingCanvas/HandwritingCanvas.tsx:658-677 | a one-character key over an active selection takes replacement's lines and caret, drops the selection and records once |
| SessionBehaviour.MouseDownOffGrid | client/src/view/components/HandwritingCanvas/HandwritingCanvas.tsx:416-423 | a press away from every slot changes nothing |
| SessionBehaviour.MouseDownOnEmptySlot | client/src/view/components/HandwritingCanvas/HandwritingCanvas.tsx:425-461 | a press on an empty slot appends an active empty line under the current style and size, records it, and puts the caret at its start |
| SessionBehaviour.MouseDownOnLine | client/src/view/components/HandwritingCanvas/HandwritingCanvas.tsx:439-484 | a press on a line makes it the only active line, records nothing, and puts the caret at the hit offset |
| SessionBehaviour.ClickPlacesCaret | client/src/view/components/HandwritingCanvas/HandwritingCanvas.tsx:416-461 | pressing at the caret x of offset o near slot k's y puts the caret on `line_k` at offset o |
| SessionBehaviour.DragMovesSelectionEnd | client/src/view/components/HandwritingCanvas/HandwritingCanvas.tsx:486-523 | a drag over a line moves the caret and the selection's end there, keeping or setting its start; text and history stay |
| SessionBehaviour.MoveAfterReleaseIsIgnored | client/src/view/components/HandwritingCanvas/HandwritingCanvas.tsx:486-527 | after the button is released, moves change nothing |
| SessionBehaviour.KeysIgnoredAfterClickOutside | client/src/view/components/HandwritingCanvas/HandwritingCanvas.tsx:398-414 | a press outside drops the cursor and the selection, keeps the text, and keys are then ignored |
| SessionBehaviour.LineSpacingReprojects | client/src/view/components/HandwritingCanvas/HandwritingCanvas.tsx:878-904 | every line and the cursor move to `120 + k*spacing` for the k in their id, which is their slot on the new grid; nothing else about the lines changes; the list is recorded |
| SessionBehaviour.FormatChangeEffect | client/src/view/components/HandwritingCanvas/HandwritingCanvas.tsx:869-920 | the pen always takes the change; with an active selection the selection is restyled and recorded once, otherwise lines and history stay |
| SessionBehaviour.BlinkTwiceRestores | client/src/view/components/HandwritingCanvas/HandwritingCanvas.tsx:853-861 | the blink flips only the caret's visibility, so two blinks restore the state |
| SessionBehaviour.PropsChangeKeepsLines | client/src/view/components/HandwritingCanvas/HandwritingCanvas.tsx:8-13 | new props change the spacing and the style but do not move the lines |
| SessionBehaviour.StepPreserves | client/src/view/components/HandwritingCanvas/HandwritingCanvas.tsx:398-920 | every event keeps the invariant |
| SessionBehaviour.Run | client/src/view/components/HandwritingCanvas/HandwritingCanvas.tsx:398-920 | a run of events from a consistent state ends in a consistent state |
| SessionBehaviour.ReachableConsistent | client/src/view/components/HandwritingCanvas/HandwritingCanvas.tsx:29-45 | every state reachable from mount is consistent, and its history index names the last entry |
| Canvas.HandwritingCanvas.constructor | client/src/view/components/HandwritingCanvas/HandwritingCanvas.tsx:29-45 | the fields start as the `useState` initial values |
| Canvas.HandwritingCanvas.SaveToHistory | client/src/view/components/HandwritingCanvas/HandwritingCanvas.tsx:147-152 | the history becomes the recorded one and the index its last entry |
| Canvas.HandwritingCanvas.PlaceLine | client/src/view/components/HandwritingCanvas/HandwritingCanvas.tsx:425-447 | the slot's line is appended and recorded when missing, and otherwise made the only active line |
| Canvas.HandwritingCanvas.PlaceCursor | client/src/view/components/HandwritingCanvas/HandwritingCanvas.tsx:449-482 | the caret goes to the hit offset, and the selection is extended, started or dropped |
| Canvas.HandwritingCanvas.HandleMouseDown | client/src/view/components/HandwritingCanvas/HandwritingCanvas.tsx:416-484 | the new state is the press transition of the old one, and the invariant is kept |
| Canvas.HandwritingCanvas.Press | client/src/view/components/HandwritingCanvas/HandwritingCanvas.tsx:416-484 | the press's field updates give the press transition |
| Canvas.HandwritingCanvas.HandleMouseMove | client/src/view/components/HandwritingCanvas/HandwritingCanvas.tsx:486-523 | the new state is the drag transition of the old one, and the invariant is kept |
| Canvas.HandwritingCanvas.Drag | client/src/view/components/HandwritingCanvas/HandwritingCanvas.tsx:486-523 | the drag's field updates give the drag transition |
| Canvas.HandwritingCanvas.HandleMouseUp | client/src/view/components/HandwritingCanvas/HandwritingCanvas.tsx:525-527 | only dragging stops, and the invariant is kept |
| Canvas.HandwritingCanvas.HandleClickOutside | client/src/view/components/HandwritingCanvas/HandwritingCanvas.tsx:398-414 | the cursor, the selection and typing mode are dropped, and the invariant is kept |
| Canvas.HandwritingCanvas.TakeEdit | client/src/view/components/HandwritingCanvas/HandwritingCanvas.tsx:543-549 | a selection edit's result is taken and recorded |
| Canvas.HandwritingCanvas.CommitLine | client/src/view/components/HandwritingCanvas/HandwritingCanvas.tsx:680-704 | the commit step: the cursor's line is rewritten, the caret moved and the list recorded |
| Canvas.HandwritingCanvas.ApplyKey | client/src/view/components/HandwritingCanvas/HandwritingCanvas.tsx:536-704 | the switch and the commit give the key transition |
| Canvas.HandwritingCanvas.HandleKeyDown | client/src/view/components/HandwritingCanvas/HandwritingCanvas.tsx:530-715 | the new state is the key transition of the old one, and the invariant is kept |
| Canvas.HandwritingCanvas.HandleLineSpacingChange | client/src/view/components/HandwritingCanvas/HandwritingCanvas.tsx:878-904 | the new state is the re-projection of the old one, and the invariant is kept |
| Canvas.HandwritingCanvas.Respace | client/src/view/components/HandwritingCanvas/HandwritingCanvas.tsx:878-904 | the `map` over the lines and the cursor update give the re-projection |
| Canvas.HandwritingCanvas.SetProps | client/src/view/components/HandwritingCanvas/HandwritingCanvas.tsx:8-13 | the new props are taken, and the invariant is kept |
| Canvas.HandwritingCanvas.ApplyFormattingToSelection | client/src/view/components/HandwritingCanvas/HandwritingCanvas.tsx:922-997 | with an active selection the lines become the formatted ones and are recorded once; otherwise nothing changes |
| Canvas.HandwritingCanvas.HandleFontSizeChange | client/src/view/components/HandwritingCanvas/HandwritingCanvas.tsx:869-876 | the new state is the size-change transition, and the invariant is kept |
| Canvas.HandwritingCanvas.HandleStyleChange | client/src/view/components/HandwritingCanvas/HandwritingCanvas.tsx:906-912 | the new state is the style-change transition, and the invariant is kept |
| Canvas.HandwritingCanvas.HandleColorChange | client/src/view/components/HandwritingCanvas/HandwritingCanvas.tsx:914-920 | the new state is the colour-change transition, and the invariant is kept |
| Canvas.HandwritingCanvas.Blink | client/src/view/components/HandwritingCanvas/HandwritingCanvas.tsx:853-861 | only the caret's visibility flips, and the invariant is kept |

## Behaviour worth knowing

The model keeps these behaviours of the code:

- A shift-click with no selection anchors the new selection at the click point. So the first
  shift-click selects nothing (H:463-482).
- A backward selection on one line deletes nothing, because `splice` gets a negative count
  (H:729-730).
- Deletion takes the middle lines of a multi-line selection by their array index
  (H:784-790). Formatting takes them by height (H:978-983).
- The history is only recorded (H:147-152). The code has no undo and no redo, so the model has
  none either.
- A key counts as one character when its UTF-16 `length` is 1 (H:659). A single character above
  U+FFFF has length 2. It is neither inserted nor typed over a selection. The line is committed
  unchanged instead (`SessionBehaviour.WideKeyInsertsNothing`).

## Left out

- Painting: the ruled lines, the title, the glyphs, the caret stroke and the selection
  rectangles. Only the caret-x width sum is kept.
- PDF export, `toDataURL`, and saving to or loading from `localStorage`. These are I/O.
- `getMousePos`. Mouse coordinates are whole-number inputs. Browser coordinates are floats.
- Event-listener registration, the `e.target` test on a press, and the `closest(...)` test
  for clicks outside. A click outside is an operation of its own.
- The blink timer. Only its effect is modelled: one flip of the caret's visibility per tick.
- React's stale closures. Each handler sees the state the previous handler left. In the
  browser a listener can run with an older `currentFormatting` until it is registered again.
- A missing canvas or 2D context. The model always has the width function, so each of these
  operations behaves as it does with a context. Without one, the code behaves as follows:
  - the hit test returns 0 (H:367-371);
  - `deleteSelection`, and so `replaceSelection`, leaves the new caret's x at the margin
    (H:742, H:793);
  - the keydown commit still rewrites and records the line, but never calls `setCursor`
    (H:689-706). The cursor keeps its old x and its old offset, while the line's
    `cursorPosition` moves on. After typing "a" at offset 0, the cursor is still at 0, so the
    next key goes in before the "a".
- `parseInt` on ids other than `line_<digits>`: leading blanks, signs, and `NaN` (which makes
  `y` `NaN`). Reachable ids always have that form, which `Consistent` states.
- Glyph widths. They are whole-number pixels from an injected function. `measureText`
  returns floats.
- The half-spacing and half-width tests. They are written in integers, as `2*|y - ly| < spacing`
  and `2*relX > width`.
- The settings page's spacing slider. It changes the `lineSpacing` prop without re-projecting
  the lines (`SessionBehaviour.PropsChangeKeepsLines`). So "each line sits on its grid slot" is
  proved only after `handleLineSpacingChange`, and is not part of the invariant.
- A spacing of 0 or less. The grid loop would not end, so every operation that builds the grid
  requires a positive spacing. The settings only offer positive values.
- Aliasing. Arrays of lines and of characters are sequence values. A snapshot in the history
  therefore cannot share structure with the live list.
