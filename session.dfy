/** The editor's state and the effect of each event on it, as pure transitions. React runs
    the handlers one at a time; each transition sees the state the previous one left. */
module Session {
  import opened CanvasTypes
  import opened Splice
  import opened LineIds
  import opened LineGrid
  import opened HitTest
  import opened History
  import opened Lines
  import opened SelectionEdits

  /** The component's state (its `useState` cells) and the two props the engine reads. */
  datatype EditorState = EditorState(
    textLines: seq<TextLine>,
    cursor: Option<Cursor>,
    selection: Option<TextSelection>,
    history: seq<seq<TextLine>>,
    historyIndex: int,
    fontSize: int,
    currentFormatting: Formatting,
    isTyping: bool,
    isDragging: bool,
    lineSpacing: int,
    letterStyle: LetterStyle)

  /** The state on mount (nothing restored from storage). */
  function Initial(lineSpacing: int, letterStyle: LetterStyle): EditorState
  {
    EditorState([], None, None, [], -1, DEFAULT_FONT_SIZE, Formatting(Solid, DEFAULT_FONT_SIZE, DEFAULT_COLOR),
                false, false, lineSpacing, letterStyle)
  }

  /** `saveToHistory(snapshot)` */
  function Recorded(s: EditorState, snapshot: seq<TextLine>): EditorState
  {
    var h := Record(s.history, s.historyIndex, snapshot);
    s.(history := h, historyIndex := |h| - 1)
  }

  // ---------------------------------------------------------------------------------------
  // The invariant every reachable state keeps

  /** An id of the form `line_<k>`, so that `parseInt(id.split('_')[1])` gives back `k`. */
  predicate IsLineId(id: string)
  {
    ParseLineIndex(id).Some? && id == LineId(ParseLineIndex(id).value)
  }

  predicate LineWellFormed(line: TextLine)
  {
    IsLineId(line.id) && line.cursorPosition <= |line.characters|
  }

  /** The cursor stands on an existing line, at an offset inside it. */
  predicate CursorOn(lines: seq<TextLine>, c: Cursor)
  {
    var i := IndexOf(lines, c.lineId);
    i >= 0 && c.position <= |lines[i].characters|
  }

  /** Both endpoints exist and their offsets lie inside their lines. */
  predicate SelectionWithin(lines: seq<TextLine>, sel: TextSelection)
  {
    var si := IndexOf(lines, sel.startLineId);
    var ei := IndexOf(lines, sel.endLineId);
    sel.isActive && si >= 0 && ei >= 0 &&
    sel.startPosition <= |lines[si].characters| && sel.endPosition <= |lines[ei].characters|
  }

  /** Line ids are unique grid ids, offsets stay inside their lines, a selection is active, ends
      where the cursor is and lies within existing lines, and the history index is the last
      entry. */
  predicate Consistent(s: EditorState)
  {
    s.lineSpacing > 0 &&
    s.historyIndex == |s.history| - 1 &&
    UniqueIds(s.textLines) &&
    (forall i :: 0 <= i < |s.textLines| ==> LineWellFormed(s.textLines[i])) &&
    (s.cursor.Some? ==> CursorOn(s.textLines, s.cursor.value)) &&
    (s.selection.Some? ==>
       s.cursor.Some? && s.selection.value.endLineId == s.cursor.value.lineId &&
       SelectionWithin(s.textLines, s.selection.value))
  }

  // ---------------------------------------------------------------------------------------
  // Mouse

  /** `handleMouseDown` at canvas point (x, y). A click away from every grid slot does nothing.
      Otherwise the slot's line is created (appended and recorded) or made the only active line,
      the caret goes to the hit offset, and a shift-click extends the selection or starts an
      empty one at the click; a plain click drops the selection. */
  function AfterMouseDown(s: EditorState, x: int, y: int, shift: bool, measure: Measure): EditorState
    requires s.lineSpacing > 0
  {
    match FindLineByY(Grid(s.lineSpacing), y, s.lineSpacing)
    case None => s
    case Some(slot) =>
      var li := IndexOf(s.textLines, slot.id);
      var textLine := if li < 0 then NewLine(slot.id, slot.y, s.letterStyle, s.fontSize) else s.textLines[li];
      var s1 :=
        if li < 0 then Recorded(s.(textLines := s.textLines + [textLine]), s.textLines + [textLine])
        else s.(textLines := ActivatedOnly(s.textLines, slot.id));
      var position := OffsetForX(x, textLine.characters, measure);
      s1.(cursor := Some(Cursor(x, slot.y, slot.id, position, true)),
          isTyping := true, isDragging := true, selection := PressSelection(s.selection, slot.id, position, shift))
  }

  /** The selection a press leaves: none for a plain press; for a shift-press the old one with
      its end moved to the press, or an empty one at the press. */
  function PressSelection(prior: Option<TextSelection>, id: string, position: nat, shift: bool): Option<TextSelection>
  {
    if !shift then None
    else if prior.Some? then Some(prior.value.(endLineId := id, endPosition := position, isActive := true))
    else Some(TextSelection(id, id, position, position, true))
  }

  /** `handleMouseMove`: while dragging over an existing line, the caret follows the mouse
      and the selection's end follows the caret; with no selection, one starts at the caret. */
  function AfterMouseMove(s: EditorState, x: int, y: int, measure: Measure): EditorState
    requires s.lineSpacing > 0
  {
    if !s.isDragging then s
    else
      match FindLineByY(Grid(s.lineSpacing), y, s.lineSpacing)
      case None => s
      case Some(slot) =>
        var li := IndexOf(s.textLines, slot.id);
        if li < 0 then s
        else
          var position := OffsetForX(x, s.textLines[li].characters, measure);
          s.(cursor := Some(Cursor(x, slot.y, slot.id, position, true)),
             selection := DragSelection(s.selection, s.cursor, slot.id, position))
  }

  /** The selection a drag leaves: the old one with its end moved to the mouse position, or a new one
      from the caret's place (the slot's start when there is no caret) to the mouse position. */
  function DragSelection(prior: Option<TextSelection>, caret: Option<Cursor>, id: string, position: nat): Option<TextSelection>
  {
    if prior.Some? then Some(prior.value.(endLineId := id, endPosition := position, isActive := true))
    else
      Some(TextSelection(
        if caret.Some? && caret.value.lineId != "" then caret.value.lineId else id,
        id,
        if caret.Some? then caret.value.position else 0,
        position, true))
  }

  /** `handleMouseUp` */
  function AfterMouseUp(s: EditorState): EditorState
  {
    s.(isDragging := false)
  }

  /** The document listener, for a press outside the canvas and its panels. */
  function AfterClickOutside(s: EditorState): EditorState
  {
    s.(isTyping := false, cursor := None, selection := None)
  }

  // ---------------------------------------------------------------------------------------
  // Keyboard

  /** What a key press decides: to delete or replace the active selection, to leave typing
      mode, or new characters and caret offset for the cursor's line plus the selection to keep. */
  datatype KeyOutcome =
    | DeletesSelection
    | ReplacesSelection
    | Escaped
    | Committed(characters: seq<Character>, position: nat, selection: Option<TextSelection>)

  /** The switch of `handleKeyDown` on the cursor's line `line`, with caret offset `position`. */
  function KeyOutcomeOf(line: TextLine, position: nat, selection: Option<TextSelection>, pen: Formatting, key: string, shift: bool): KeyOutcome
  {
    var chars := line.characters;
    if key == "Backspace" then
      if SelectionActive(selection) then DeletesSelection
      else if position > 0 then Committed(Removed(chars, position - 1, 1), position - 1, selection)
      else Committed(chars, position, selection)
    else if key == "Delete" then
      if SelectionActive(selection) then DeletesSelection
      else if position < |chars| then Committed(Removed(chars, position, 1), position, selection)
      else Committed(chars, position, selection)
    else if key == "ArrowLeft" then
      if shift then
        if position > 0 then
          Committed(chars, position - 1,
            if selection.None? then Some(TextSelection(line.id, line.id, position, position, true))
            else Some(selection.value.(endPosition := position - 1)))
        else Committed(chars, position, selection)
      else Committed(chars, if position > 0 then position - 1 else position, None)
    else if key == "ArrowRight" then
      if shift then
        if position < |chars| then
          Committed(chars, position + 1,
            if selection.None? then Some(TextSelection(line.id, line.id, position, position, true))
            else Some(selection.value.(endPosition := position + 1)))
        else Committed(chars, position, selection)
      else Committed(chars, if position < |chars| then position + 1 else position, None)
    else if key == "Home" then
      if shift then Committed(chars, position, Some(TextSelection(line.id, line.id, 0, position, true)))
      else Committed(chars, 0, None)
    else if key == "End" then
      if shift then Committed(chars, position, Some(TextSelection(line.id, line.id, position, |chars|, true)))
      else Committed(chars, |chars|, None)
    else if key == "Escape" then Escaped
    else if Utf16Length(key) == 1 then
      if SelectionActive(selection) then ReplacesSelection
      else Committed(Inserted(chars, position, CreateCharacter(key, pen)), position + 1, selection)
    else Committed(chars, position, selection)
  }

  /** The `switch (e.key)` of `handleKeyDown`, run on copies of the line's characters, the
      caret offset and the selection. */
  method KeySwitch(line: TextLine, position: nat, selection: Option<TextSelection>, pen: Formatting, key: string, shift: bool)
    returns (outcome: KeyOutcome)
    ensures outcome == KeyOutcomeOf(line, position, selection, pen, key, shift)
  {
    var newCharacters := line.characters;
    var newPosition := position;
    var newSelection := selection;
    if key == "Backspace" {
      if SelectionActive(selection) {
        return DeletesSelection;
      } else if newPosition > 0 {
        newCharacters := Removed(newCharacters, newPosition - 1, 1);
        newPosition := newPosition - 1;
      }
    } else if key == "Delete" {
      if SelectionActive(selection) {
        return DeletesSelection;
      } else if newPosition < |newCharacters| {
        newCharacters := Removed(newCharacters, newPosition, 1);
      }
    } else if key == "ArrowLeft" {
      if shift {
        if newPosition > 0 {
          newPosition := newPosition - 1;
          if selection.None? {
            newSelection := Some(TextSelection(line.id, line.id, newPosition + 1, newPosition + 1, true));
          } else {
            newSelection := Some(selection.value.(endPosition := newPosition));
          }
        }
      } else {
        if newPosition > 0 {
          newPosition := newPosition - 1;
        }
        newSelection := None;
      }
    } else if key == "ArrowRight" {
      if shift {
        if newPosition < |newCharacters| {
          newPosition := newPosition + 1;
          if selection.None? {
            newSelection := Some(TextSelection(line.id, line.id, newPosition - 1, newPosition - 1, true));
          } else {
            newSelection := Some(selection.value.(endPosition := newPosition));
          }
        }
      } else {
        if newPosition < |newCharacters| {
          newPosition := newPosition + 1;
        }
        newSelection := None;
      }
    } else if key == "Home" {
      if shift {
        newSelection := Some(TextSelection(line.id, line.id, 0, newPosition, true));
      } else {
        newPosition := 0;
        newSelection := None;
      }
    } else if key == "End" {
      if shift {
        newSelection := Some(TextSelection(line.id, line.id, newPosition, |newCharacters|, true));
      } else {
        newPosition := |newCharacters|;
        newSelection := None;
      }
    } else if key == "Escape" {
      return Escaped;
    } else if Utf16Length(key) == 1 {
      if SelectionActive(selection) {
        return ReplacesSelection;
      }
      newCharacters := Inserted(newCharacters, newPosition, CreateCharacter(key, pen));
      newPosition := newPosition + 1;
    }
    return Committed(newCharacters, newPosition, newSelection);
  }

  /** A selection edit's result taken over: lines and cursor replaced, selection dropped, the
      lines recorded. No result leaves the state as it was. */
  function SelectionEditApplied(s: EditorState, result: Option<EditResult>): EditorState
  {
    match result
    case None => s
    case Some(r) => Recorded(s.(textLines := r.newTextLines, cursor := Some(r.newCursor), selection := None), r.newTextLines)
  }

  /** The commit after the switch: every line with the cursor's id takes the new characters
      and offset, the list is recorded, and the caret moves to the offset's x. */
  function CommitKey(s: EditorState, c: Cursor, characters: seq<Character>, position: nat, selection: Option<TextSelection>, measure: Measure): EditorState
  {
    var newTextLines := WithLineContent(s.textLines, c.lineId, characters, position);
    Recorded(s.(textLines := newTextLines, selection := selection,
                cursor := Some(c.(x := XForOffset(characters, position, measure), position := position))),
             newTextLines)
  }

  /** `handleKeyDown`: ignored unless typing with a cursor on an existing line. */
  function AfterKeyDown(s: EditorState, key: string, shift: bool, measure: Measure): EditorState
  {
    if s.cursor.None? || !s.isTyping then s
    else
      var c := s.cursor.value;
      var li := IndexOf(s.textLines, c.lineId);
      if li < 0 then s
      else
        match KeyOutcomeOf(s.textLines[li], c.position, s.selection, s.currentFormatting, key, shift)
        case DeletesSelection => SelectionEditApplied(s, AfterDeleteSelection(s.textLines, s.selection, measure))
        case ReplacesSelection =>
          SelectionEditApplied(s, AfterReplaceSelection(s.textLines, s.selection, key, s.currentFormatting, measure))
        case Escaped => s.(isTyping := false, cursor := None, selection := None)
        case Committed(characters, position, selection) => CommitKey(s, c, characters, position, selection, measure)
  }

  // ---------------------------------------------------------------------------------------
  // Settings, formatting and the blink timer

  /** `handleLineSpacingChange`: the parent takes the new spacing, every line moves to the
      height its id's index gives on the new grid, so does the cursor, and the list is recorded. */
  function AfterLineSpacingChange(s: EditorState, spacing: int): EditorState
  {
    var newTextLines := Respaced(s.textLines, spacing);
    var cursor :=
      if s.cursor.None? then None
      else Some(s.cursor.value.(y := ReprojectedY(s.cursor.value.lineId, s.cursor.value.y, spacing)));
    Recorded(s.(textLines := newTextLines, cursor := cursor, lineSpacing := spacing), newTextLines)
  }

  /** The parent changes the props directly (its own spacing slider): lines are not moved. */
  function AfterPropsChange(s: EditorState, spacing: int, letterStyle: LetterStyle): EditorState
  {
    s.(lineSpacing := spacing, letterStyle := letterStyle)
  }

  /** `handleFontSizeChange`, `handleStyleChange`, `handleColorChange`: the pen takes the new
      attribute (a font size also becomes the caret size), and an active selection is restyled
      and recorded. */
  function AfterFormatChange(s: EditorState, p: FormatPatch): EditorState
  {
    var s1 :=
      match p
      case FontSizePatch(n) => s.(fontSize := n, currentFormatting := s.currentFormatting.(fontSize := n))
      case StylePatch(st) => s.(currentFormatting := s.currentFormatting.(style := st))
      case ColorPatch(col) => s.(currentFormatting := s.currentFormatting.(color := col));
    if SelectionActive(s.selection) then
      var newTextLines := AfterFormatting(s.textLines, s.selection, p);
      Recorded(s1.(textLines := newTextLines), newTextLines)
    else s1
  }

  /** The 500 ms interval: the caret's visibility flips. */
  function AfterBlink(s: EditorState): EditorState
  {
    if s.cursor.None? then s else s.(cursor := Some(s.cursor.value.(isVisible := !s.cursor.value.isVisible)))
  }
}
