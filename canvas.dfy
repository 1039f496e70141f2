/** The component itself: its state cells as fields that each handler updates in place. Every
    handler is proved to leave exactly the state its transition in `Session` describes, and to
    keep the consistency invariant. */
module Canvas {
  import opened CanvasTypes
  import opened Splice
  import opened LineGrid
  import opened HitTest
  import opened History
  import opened Lines
  import opened SelectionEdits
  import opened Session
  import opened SessionProperties

  class HandwritingCanvas {
    var textLines: seq<TextLine>
    var cursor: Option<Cursor>
    var selection: Option<TextSelection>
    var history: seq<seq<TextLine>>
    var historyIndex: int
    var fontSize: int
    var currentFormatting: Formatting
    var isTyping: bool
    var isDragging: bool
    /** The `lineSpacing` and `letterStyle` props. */
    var lineSpacing: int
    var letterStyle: LetterStyle
    /** Glyph widths (`ctx.measureText` under each character's font). */
    const measure: Measure

    function State(): EditorState
      reads this
    {
      EditorState(textLines, cursor, selection, history, historyIndex, fontSize, currentFormatting,
                  isTyping, isDragging, lineSpacing, letterStyle)
    }

    ghost predicate Valid()
      reads this
    {
      Consistent(State())
    }

    /** Mounting with the parent's props; nothing is restored from storage. */
    constructor (spacing: int, style: LetterStyle, widths: Measure)
      requires spacing > 0
      ensures State() == Initial(spacing, style) && measure == widths
      ensures Valid()
    {
      textLines := [];
      cursor := None;
      selection := None;
      history := [];
      historyIndex := -1;
      fontSize := DEFAULT_FONT_SIZE;
      currentFormatting := Formatting(Solid, DEFAULT_FONT_SIZE, DEFAULT_COLOR);
      isTyping := false;
      isDragging := false;
      lineSpacing := spacing;
      letterStyle := style;
      measure := widths;
      new;
      InitialConsistent(spacing, style);
    }

    /** `saveToHistory` */
    method SaveToHistory(newTextLines: seq<TextLine>)
      modifies this
      ensures State() == Recorded(old(State()), newTextLines)
    {
      var newHistory := SlicedTo(history, historyIndex + 1);
      newHistory := newHistory + [newTextLines];
      history := newHistory;
      historyIndex := |newHistory| - 1;
    }

    /** The clicked slot's line: appended (and recorded) when missing, else made the only
        active line. Returns the line as it was found or created. */
    method PlaceLine(slot: Slot) returns (textLine: TextLine)
      modifies this
      ensures IndexOf(old(textLines), slot.id) < 0 ==>
                textLine == NewLine(slot.id, slot.y, letterStyle, fontSize) &&
                State() == Recorded(old(State()).(textLines := old(textLines) + [textLine]), old(textLines) + [textLine])
      ensures IndexOf(old(textLines), slot.id) >= 0 ==>
                textLine == old(textLines)[IndexOf(old(textLines), slot.id)] &&
                State() == old(State()).(textLines := ActivatedOnly(old(textLines), slot.id))
    {
      var lineIndex := IndexOf(textLines, slot.id);
      if lineIndex < 0 {
        textLine := NewLine(slot.id, slot.y, letterStyle, fontSize);
        var newTextLines := textLines + [textLine];
        textLines := newTextLines;
        SaveToHistory(newTextLines);
      } else {
        textLine := textLines[lineIndex];
        textLines := ActivatedOnly(textLines, slot.id);
      }
    }

    /** The caret goes to the hit offset on `textLine`; a shift-click extends the selection or
        starts an empty one there, a plain click drops it. */
    method PlaceCursor(x: int, slot: Slot, textLine: TextLine, shift: bool)
      modifies this
      ensures
        var position := OffsetForX(x, textLine.characters, measure);
        State() == old(State()).(
          cursor := Some(Cursor(x, slot.y, slot.id, position, true)), isTyping := true, isDragging := true,
          selection :=
            if !shift then None
            else if old(selection).Some? then
              Some(old(selection).value.(endLineId := slot.id, endPosition := position, isActive := true))
            else Some(TextSelection(slot.id, slot.id, position, position, true)))
    {
      var cursorPosition := CalculateCursorPosition(x, textLine, measure);
      cursor := Some(Cursor(x, slot.y, slot.id, cursorPosition, true));
      isTyping := true;
      isDragging := true;
      if shift {
        if selection.Some? {
          selection := Some(selection.value.(endLineId := slot.id, endPosition := cursorPosition, isActive := true));
        } else {
          selection := Some(TextSelection(slot.id, slot.id, cursorPosition, cursorPosition, true));
        }
      } else {
        selection := None;
      }
    }

    method HandleMouseDown(x: int, y: int, shift: bool)
      requires Valid()
      modifies this
      ensures State() == AfterMouseDown(old(State()), x, y, shift, measure)
      ensures Valid()
    {
      MouseDownPreserves(State(), x, y, shift, measure);
      Press(x, y, shift);
    }

    /** The press itself: find the slot under `y`, then its line, then the caret. */
    method Press(x: int, y: int, shift: bool)
      requires lineSpacing > 0
      modifies this
      ensures State() == AfterMouseDown(old(State()), x, y, shift, measure)
    {
      var slots := WritingLines(lineSpacing);
      var clickedLine := FindLineByY(slots, y, lineSpacing);
      if clickedLine.None? {
        return;
      }
      var textLine := PlaceLine(clickedLine.value);
      PlaceCursor(x, clickedLine.value, textLine, shift);
    }

    method HandleMouseMove(x: int, y: int)
      requires Valid()
      modifies this
      ensures State() == AfterMouseMove(old(State()), x, y, measure)
      ensures Valid()
    {
      MouseMovePreserves(State(), x, y, measure);
      Drag(x, y);
    }

    /** While dragging, the caret and the selection's end follow the mouse over a line. */
    method Drag(x: int, y: int)
      requires lineSpacing > 0
      modifies this
      ensures State() == AfterMouseMove(old(State()), x, y, measure)
    {
      ghost var s := State();
      if !isDragging {
        return;
      }
      var slots := WritingLines(lineSpacing);
      var currentLine := FindLineByY(slots, y, lineSpacing);
      if currentLine.None? {
        return;
      }
      var slot := currentLine.value;
      var lineIndex := IndexOf(textLines, slot.id);
      if lineIndex < 0 {
        return;
      }
      var newPosition := CalculateCursorPosition(x, textLines[lineIndex], measure);
      var newSelection := DragSelection(selection, cursor, slot.id, newPosition);
      cursor := Some(Cursor(x, slot.y, slot.id, newPosition, true));
      selection := newSelection;
      assert State() == s.(cursor := Some(Cursor(x, slot.y, slot.id, newPosition, true)), selection := newSelection);
    }

    method HandleMouseUp()
      requires Valid()
      modifies this
      ensures State() == AfterMouseUp(old(State()))
      ensures Valid()
    {
      MouseUpPreserves(State());
      isDragging := false;
    }

    method HandleClickOutside()
      requires Valid()
      modifies this
      ensures State() == AfterClickOutside(old(State()))
      ensures Valid()
    {
      ClickOutsidePreserves(State());
      isTyping := false;
      cursor := None;
      selection := None;
    }

    /** A selection edit's result replaces the lines and the cursor, drops the selection and
        is recorded; no result changes nothing. */
    method TakeEdit(result: Option<EditResult>)
      modifies this
      ensures State() == SelectionEditApplied(old(State()), result)
    {
      if result.Some? {
        ghost var s := State();
        textLines := result.value.newTextLines;
        cursor := Some(result.value.newCursor);
        selection := None;
        assert State() == s.(textLines := result.value.newTextLines, cursor := Some(result.value.newCursor), selection := None);
        SaveToHistory(result.value.newTextLines);
      }
    }

    /** The commit after the switch: the cursor's line takes the new characters and offset,
        the list is recorded, and the caret x is measured again. */
    method CommitLine(c: Cursor, newCharacters: seq<Character>, newPosition: nat, newSelection: Option<TextSelection>)
      modifies this
      ensures State() == CommitKey(old(State()), c, newCharacters, newPosition, newSelection, measure)
    {
      ghost var s := State();
      selection := newSelection;
      var newTextLines := WithLineContent(textLines, c.lineId, newCharacters, newPosition);
      textLines := newTextLines;
      assert State() == s.(textLines := newTextLines, selection := newSelection);
      SaveToHistory(newTextLines);
      ghost var s1 := State();
      var cursorX := MeasureCaretX(newCharacters, newPosition, measure);
      cursor := Some(c.(x := cursorX, position := newPosition));
      assert State() == s1.(cursor := Some(c.(x := cursorX, position := newPosition)));
    }

    /** What `handleKeyDown` does once the cursor's line `c.lineId` is found at `lineIndex`. */
    method ApplyKey(c: Cursor, lineIndex: nat, key: string, shift: bool)
      requires cursor == Some(c) && isTyping
      requires lineIndex == IndexOf(textLines, c.lineId)
      modifies this
      ensures State() == AfterKeyDown(old(State()), key, shift, measure)
    {
      ghost var s := State();
      KeyDownEditsSelection(s, key, shift, measure);
      var outcome := KeySwitch(textLines[lineIndex], c.position, selection, currentFormatting, key, shift);
      match outcome
      case DeletesSelection =>
        var result := DeleteSelection(textLines, selection, measure);
        TakeEdit(result);
      case ReplacesSelection =>
        var result := ReplaceSelection(textLines, selection, key, currentFormatting, measure);
        TakeEdit(result);
      case Escaped =>
        isTyping := false;
        cursor := None;
        selection := None;
      case Committed(newCharacters, newPosition, newSelection) =>
        KeyDownCommits(s, key, shift, measure);
        CommitLine(c, newCharacters, newPosition, newSelection);
    }

    method HandleKeyDown(key: string, shift: bool)
      requires Valid()
      modifies this
      ensures State() == AfterKeyDown(old(State()), key, shift, measure)
      ensures Valid()
    {
      KeyDownPreserves(State(), key, shift, measure);
      if cursor.None? || !isTyping {
        return;
      }
      var c := cursor.value;
      var lineIndex := IndexOf(textLines, c.lineId);
      if lineIndex < 0 {
        return;
      }
      ApplyKey(c, lineIndex, key, shift);
    }

    /** `handleLineSpacingChange`; the parent's callback sets the spacing prop. */
    method HandleLineSpacingChange(newLineSpacing: int)
      requires Valid() && newLineSpacing > 0
      modifies this
      ensures State() == AfterLineSpacingChange(old(State()), newLineSpacing)
      ensures Valid()
    {
      LineSpacingChangePreserves(State(), newLineSpacing);
      Respace(newLineSpacing);
    }

    /** Moves every line, and the cursor, to the height its id gives under the new spacing. */
    method Respace(newLineSpacing: int)
      modifies this
      ensures State() == AfterLineSpacingChange(old(State()), newLineSpacing)
    {
      ghost var s := State();
      lineSpacing := newLineSpacing;
      var newTextLines := Respaced(textLines, newLineSpacing);
      textLines := newTextLines;
      if cursor.Some? {
        cursor := Some(cursor.value.(y := ReprojectedY(cursor.value.lineId, cursor.value.y, newLineSpacing)));
      }
      assert State() == s.(textLines := newTextLines, cursor := cursor, lineSpacing := newLineSpacing);
      SaveToHistory(newTextLines);
    }

    /** The parent re-renders with new props. */
    method SetProps(spacing: int, style: LetterStyle)
      requires Valid() && spacing > 0
      modifies this
      ensures State() == AfterPropsChange(old(State()), spacing, style)
      ensures Valid()
    {
      PropsChangePreserves(State(), spacing, style);
      lineSpacing := spacing;
      letterStyle := style;
    }

    /** `applyFormattingToSelection` */
    method ApplyFormattingToSelection(p: FormatPatch)
      modifies this
      ensures SelectionActive(old(selection)) ==>
                State() == Recorded(old(State()).(textLines := AfterFormatting(old(textLines), old(selection), p)),
                                    AfterFormatting(old(textLines), old(selection), p))
      ensures !SelectionActive(old(selection)) ==> State() == old(State())
    {
      if !SelectionActive(selection) {
        return;
      }
      var newTextLines := FormatSelection(textLines, selection, p);
      textLines := newTextLines;
      SaveToHistory(newTextLines);
    }

    method HandleFontSizeChange(newFontSize: int)
      requires Valid()
      modifies this
      ensures State() == AfterFormatChange(old(State()), FontSizePatch(newFontSize))
      ensures Valid()
    {
      FormatChangePreserves(State(), FontSizePatch(newFontSize));
      ghost var s := State();
      fontSize := newFontSize;
      currentFormatting := currentFormatting.(fontSize := newFontSize);
      assert State() == s.(fontSize := newFontSize, currentFormatting := currentFormatting);
      ApplyFormattingToSelection(FontSizePatch(newFontSize));
    }

    method HandleStyleChange(style: LetterStyle)
      requires Valid()
      modifies this
      ensures State() == AfterFormatChange(old(State()), StylePatch(style))
      ensures Valid()
    {
      FormatChangePreserves(State(), StylePatch(style));
      ghost var s := State();
      currentFormatting := currentFormatting.(style := style);
      assert State() == s.(currentFormatting := currentFormatting);
      ApplyFormattingToSelection(StylePatch(style));
    }

    method HandleColorChange(color: string)
      requires Valid()
      modifies this
      ensures State() == AfterFormatChange(old(State()), ColorPatch(color))
      ensures Valid()
    {
      FormatChangePreserves(State(), ColorPatch(color));
      ghost var s := State();
      currentFormatting := currentFormatting.(color := color);
      assert State() == s.(currentFormatting := currentFormatting);
      ApplyFormattingToSelection(ColorPatch(color));
    }

    /** One tick of the 500 ms caret interval. */
    method Blink()
      requires Valid()
      modifies this
      ensures State() == AfterBlink(old(State()))
      ensures Valid()
    {
      BlinkPreserves(State());
      if cursor.Some? {
        cursor := Some(cursor.value.(isVisible := !cursor.value.isVisible));
      }
    }
  }
}
