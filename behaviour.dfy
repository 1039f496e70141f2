/** The editor's behaviour event by event, as a user of the canvas sees it. */
module SessionBehaviour {
  import opened CanvasTypes
  import opened Splice
  import opened LineIds
  import opened LineGrid
  import opened HitTest
  import opened History
  import opened Lines
  import opened SelectionEdits
  import opened Session
  import opened SessionProperties

  // ---------------------------------------------------------------------------------------
  // Keyboard

  /** Where the cursor stands: its line's index and that line. */
  function CursorLineIndex(s: EditorState): int
    requires s.cursor.Some?
  {
    IndexOf(s.textLines, s.cursor.value.lineId)
  }

  /** What the key handler needs to act: typing mode, a cursor inside an existing line among
      unique ids, and a history whose index is its last entry. Every consistent state with a
      cursor in typing mode is ready. */
  predicate ReadyToType(s: EditorState)
  {
    s.cursor.Some? && s.isTyping && UniqueIds(s.textLines) && s.historyIndex == |s.history| - 1 &&
    CursorOn(s.textLines, s.cursor.value)
  }

  lemma ConsistentIsReady(s: EditorState)
    requires Consistent(s) && s.cursor.Some? && s.isTyping
    ensures ReadyToType(s)
  {
  }

  /** The commit step in full: only the cursor's line changes, the caret moves to the new
      offset's x, the selection is the one the switch decided, the new list is appended to the
      history and nothing else changes. */
  lemma CommitEffect(s: EditorState, key: string, shift: bool, measure: Measure)
    requires ReadyToType(s)
    requires KeyOutcomeOf(s.textLines[CursorLineIndex(s)], s.cursor.value.position, s.selection, s.currentFormatting, key, shift).Committed?
    ensures
      var c := s.cursor.value;
      var li := CursorLineIndex(s);
      var o := KeyOutcomeOf(s.textLines[li], c.position, s.selection, s.currentFormatting, key, shift);
      var t := AfterKeyDown(s, key, shift, measure);
      t.textLines == s.textLines[li := s.textLines[li].(characters := o.characters, cursorPosition := o.position)] &&
      t.cursor == Some(c.(x := XForOffset(o.characters, o.position, measure), position := o.position)) &&
      t.selection == o.selection &&
      t.history == s.history + [t.textLines] && t.historyIndex == |s.history| &&
      t == s.(textLines := t.textLines, cursor := t.cursor, selection := t.selection,
              history := t.history, historyIndex := t.historyIndex)
  {
    var c := s.cursor.value;
    var li := CursorLineIndex(s);
    var o := KeyOutcomeOf(s.textLines[li], c.position, s.selection, s.currentFormatting, key, shift);
    KeyDownCommits(s, key, shift, measure);
    WithLineContentUnique(s.textLines, li, o.characters, o.position);
    var lines' := s.textLines[li := s.textLines[li].(characters := o.characters, cursorPosition := o.position)];
    RecordedAppends(s.(textLines := lines', selection := o.selection,
                       cursor := Some(c.(x := XForOffset(o.characters, o.position, measure), position := o.position))), lines');
  }

  /** With no active selection, a one-character key is inserted at the caret, under the current
      pen, and the caret moves past it. */
  lemma TypingInsertsAtCaret(s: EditorState, key: string, shift: bool, measure: Measure)
    requires ReadyToType(s)
    requires Utf16Length(key) == 1 && !SelectionActive(s.selection)
    ensures CursorLineIndex(s) >= 0
    ensures
      var c := s.cursor.value;
      var li := CursorLineIndex(s);
      var chars := s.textLines[li].characters;
      var typed := chars[..c.position] + [CreateCharacter(key, s.currentFormatting)] + chars[c.position..];
      var t := AfterKeyDown(s, key, shift, measure);
      t.textLines == s.textLines[li := s.textLines[li].(characters := typed, cursorPosition := c.position + 1)] &&
      t.cursor == Some(c.(x := XForOffset(typed, c.position + 1, measure), position := c.position + 1)) &&
      t.selection == s.selection && t.history == s.history + [t.textLines]
  {
    var c := s.cursor.value;
    var li := CursorLineIndex(s);
    var chars := s.textLines[li].characters;
    assert KeyOutcomeOf(s.textLines[li], c.position, s.selection, s.currentFormatting, key, shift) ==
      Committed(Inserted(chars, c.position, CreateCharacter(key, s.currentFormatting)), c.position + 1, s.selection);
    CommitEffect(s, key, shift, measure);
  }

  /** The typed character carries the pen's style, size and colour in the handwriting font. */
  lemma TypedCharacterCarriesPen(key: string, pen: Formatting)
    ensures CreateCharacter(key, pen).ch == key
    ensures CreateCharacter(key, pen).style == pen.style && CreateCharacter(key, pen).fontSize == pen.fontSize
    ensures CreateCharacter(key, pen).color == pen.color && CreateCharacter(key, pen).fontFamily == HANDWRITING_FONT
    ensures !CreateCharacter(key, pen).isBold && !CreateCharacter(key, pen).isItalic
  {
  }

  /** Backspace with no active selection removes the character before the caret and steps back;
      at offset 0 it changes no text. Either way the list is recorded. */
  lemma BackspaceAtCaret(s: EditorState, shift: bool, measure: Measure)
    requires ReadyToType(s) && !SelectionActive(s.selection)
    ensures CursorLineIndex(s) >= 0
    ensures
      var c := s.cursor.value;
      var li := CursorLineIndex(s);
      var chars := s.textLines[li].characters;
      var t := AfterKeyDown(s, "Backspace", shift, measure);
      var p := c.position;
      t.textLines == s.textLines[li := s.textLines[li].(
        characters := if p > 0 then chars[..p - 1] + chars[p..] else chars,
        cursorPosition := if p > 0 then p - 1 else 0)] &&
      t.cursor.Some? && t.cursor.value.position == (if p > 0 then p - 1 else 0) &&
      t.history == s.history + [t.textLines]
  {
    var c := s.cursor.value;
    var li := CursorLineIndex(s);
    var chars := s.textLines[li].characters;
    if c.position > 0 {
      assert Removed(chars, c.position - 1, 1) == chars[..c.position - 1] + chars[c.position..];
    }
    CommitEffect(s, "Backspace", shift, measure);
  }

  /** A single character above U+FFFF has a `length` of 2, so the switch neither inserts it
      nor replaces the selection: the line is committed as it was. */
  lemma WideKeyInsertsNothing(line: TextLine, p: nat, selection: Option<TextSelection>, pen: Formatting, c: char, shift: bool)
    requires c as int >= 0x1_0000
    ensures KeyOutcomeOf(line, p, selection, pen, [c], shift) == Committed(line.characters, p, selection)
  {
    assert Utf16Length([c]) == 2 + Utf16Length([c][1..]);
  }

  /** What the switch decides for Delete without an active selection. */
  lemma DeleteKeyOutcome(line: TextLine, p: nat, selection: Option<TextSelection>, pen: Formatting, shift: bool)
    requires !SelectionActive(selection)
    ensures KeyOutcomeOf(line, p, selection, pen, "Delete", shift) ==
      Committed(if p < |line.characters| then Removed(line.characters, p, 1) else line.characters, p, selection)
  {
    assert "Delete" != "Backspace";
  }

  /** What the switch decides for the four movement keys. */
  lemma MoveKeyOutcome(line: TextLine, p: nat, selection: Option<TextSelection>, pen: Formatting, key: string, shift: bool)
    requires key in {"ArrowLeft", "ArrowRight", "Home", "End"}
    ensures
      var n := |line.characters|;
      var id := line.id;
      KeyOutcomeOf(line, p, selection, pen, key, shift) ==
      if !shift then
        Committed(line.characters,
          if key == "ArrowLeft" then (if p > 0 then p - 1 else p)
          else if key == "ArrowRight" then (if p < n then p + 1 else p)
          else if key == "Home" then 0 else n,
          None)
      else if key == "Home" then Committed(line.characters, p, Some(TextSelection(id, id, 0, p, true)))
      else if key == "End" then Committed(line.characters, p, Some(TextSelection(id, id, p, n, true)))
      else if key == "ArrowLeft" then
        if p > 0 then
          Committed(line.characters, p - 1,
            if selection.None? then Some(TextSelection(id, id, p, p, true)) else Some(selection.value.(endPosition := p - 1)))
        else Committed(line.characters, p, selection)
      else
        if p < n then
          Committed(line.characters, p + 1,
            if selection.None? then Some(TextSelection(id, id, p, p, true)) else Some(selection.value.(endPosition := p + 1)))
        else Committed(line.characters, p, selection)
  {
    assert "ArrowLeft" != "Backspace" && "ArrowLeft" != "Delete";
    assert "ArrowRight" != "Backspace" && "ArrowRight" != "Delete" && "ArrowRight" != "ArrowLeft";
    assert "Home" != "Backspace" && "Home" != "Delete" && "Home" != "ArrowLeft" && "Home" != "ArrowRight";
    assert "End" != "Backspace" && "End" != "Delete" && "End" != "ArrowLeft" && "End" != "ArrowRight" && "End" != "Home";
  }

  /** Delete with no active selection removes the character at the caret, which stays; at the
      end of the line it changes no text. Either way the list is recorded. */
  lemma DeleteAtCaret(s: EditorState, shift: bool, measure: Measure)
    requires ReadyToType(s) && !SelectionActive(s.selection)
    ensures CursorLineIndex(s) >= 0
    ensures
      var c := s.cursor.value;
      var li := CursorLineIndex(s);
      var chars := s.textLines[li].characters;
      var t := AfterKeyDown(s, "Delete", shift, measure);
      var p := c.position;
      t.textLines == s.textLines[li := s.textLines[li].(
        characters := if p < |chars| then chars[..p] + chars[p + 1..] else chars,
        cursorPosition := p)] &&
      t.cursor.Some? && t.cursor.value.position == p &&
      t.history == s.history + [t.textLines]
  {
    var c := s.cursor.value;
    var li := CursorLineIndex(s);
    var chars := s.textLines[li].characters;
    if c.position < |chars| {
      assert Removed(chars, c.position, 1) == chars[..c.position] + chars[c.position + 1..];
    }
    DeleteKeyOutcome(s.textLines[li], c.position, s.selection, s.currentFormatting, shift);
    CommitEffect(s, "Delete", shift, measure);
  }

  /** Typing a character and pressing Backspace gives the line its text back and the caret its
      offset. */
  lemma TypeThenBackspace(s: EditorState, key: string, measure: Measure)
    requires ReadyToType(s)
    requires Utf16Length(key) == 1 && !SelectionActive(s.selection)
    ensures CursorLineIndex(s) >= 0
    ensures
      var t := AfterKeyDown(AfterKeyDown(s, key, false, measure), "Backspace", false, measure);
      |t.textLines| == |s.textLines| &&
      t.textLines[CursorLineIndex(s)].characters == s.textLines[CursorLineIndex(s)].characters &&
      t.cursor.Some? && t.cursor.value.position == s.cursor.value.position &&
      |t.history| == |s.history| + 2
  {
    TypingInsertsAtCaret(s, key, false, measure);
    var s1 := AfterKeyDown(s, key, false, measure);
    TypedStateReady(s, s1, CreateCharacter(key, s.currentFormatting), measure);
    BackspaceAtCaret(s1, false, measure);
    TypedThenErased(s.textLines[CursorLineIndex(s)].characters, s.cursor.value.position, CreateCharacter(key, s.currentFormatting));
  }

  /** After a character is typed at the caret, the editor is still ready to type, with the
      cursor on the same line one step further. */
  lemma TypedStateReady(s: EditorState, s1: EditorState, ch: Character, measure: Measure)
    requires ReadyToType(s)
    requires
      var c := s.cursor.value;
      var li := CursorLineIndex(s);
      var chars := s.textLines[li].characters;
      var typed := chars[..c.position] + [ch] + chars[c.position..];
      s1.textLines == s.textLines[li := s.textLines[li].(characters := typed, cursorPosition := c.position + 1)] &&
      s1.cursor == Some(c.(x := XForOffset(typed, c.position + 1, measure), position := c.position + 1)) &&
      s1.isTyping && s1.historyIndex == |s1.history| - 1
    ensures ReadyToType(s1) && CursorLineIndex(s1) == CursorLineIndex(s)
    ensures s1.cursor.value.position == s.cursor.value.position + 1
  {
    var li := CursorLineIndex(s);
    SetLineKeepsIds(s.textLines, li, s1.textLines[li]);
  }

  /** Removing the character just inserted gives the text back. */
  lemma TypedThenErased(chars: seq<Character>, p: nat, ch: Character)
    requires p <= |chars|
    ensures
      var typed := chars[..p] + [ch] + chars[p..];
      typed[..p] + typed[p + 1..] == chars
  {
    var typed := chars[..p] + [ch] + chars[p..];
    assert typed[..p] == chars[..p];
    assert typed[p + 1..] == chars[p..];
  }

  /** Unshifted arrows move the caret one step within [0, length] and drop the selection;
      Home and End jump to the ends. No text changes, but the list is recorded. */
  lemma UnshiftedMoves(s: EditorState, key: string, measure: Measure)
    requires ReadyToType(s)
    requires key in {"ArrowLeft", "ArrowRight", "Home", "End"}
    ensures CursorLineIndex(s) >= 0
    ensures
      var c := s.cursor.value;
      var li := CursorLineIndex(s);
      var n := |s.textLines[li].characters|;
      var t := AfterKeyDown(s, key, false, measure);
      var p := c.position;
      var p' := if key == "ArrowLeft" then (if p > 0 then p - 1 else 0)
                else if key == "ArrowRight" then (if p < n then p + 1 else n)
                else if key == "Home" then 0 else n;
      t.textLines == s.textLines[li := s.textLines[li].(cursorPosition := p')] &&
      t.cursor.Some? && t.cursor.value.position == p' && 0 <= p' <= n &&
      t.selection == None && t.history == s.history + [t.textLines]
  {
    MoveKeyOutcome(s.textLines[CursorLineIndex(s)], s.cursor.value.position, s.selection, s.currentFormatting, key, false);
    CommitEffect(s, key, false, measure);
  }

  /** Shifted moves. Home and End select from the line start to the caret and from the caret
      to the line end, without moving it. With no selection, the first shifted arrow selects
      nothing: an empty selection at the offset before the move. With a selection, a shifted
      arrow moves its end with the caret. */
  lemma ShiftedMoves(s: EditorState, key: string, measure: Measure)
    requires ReadyToType(s)
    requires key in {"ArrowLeft", "ArrowRight", "Home", "End"}
    ensures CursorLineIndex(s) >= 0
    ensures
      var c := s.cursor.value;
      var li := CursorLineIndex(s);
      var id := s.textLines[li].id;
      var n := |s.textLines[li].characters|;
      var p := c.position;
      var t := AfterKeyDown(s, key, true, measure);
      t.cursor.Some? &&
      t.textLines == s.textLines[li := s.textLines[li].(cursorPosition := t.cursor.value.position)] &&
      t.history == s.history + [t.textLines] &&
      (key == "Home" ==> t.cursor.value.position == p && t.selection == Some(TextSelection(id, id, 0, p, true))) &&
      (key == "End" ==> t.cursor.value.position == p && t.selection == Some(TextSelection(id, id, p, n, true))) &&
      (key == "ArrowLeft" && p > 0 ==>
         t.cursor.value.position == p - 1 &&
         t.selection == if s.selection.None? then Some(TextSelection(id, id, p, p, true))
                        else Some(s.selection.value.(endPosition := p - 1))) &&
      (key == "ArrowRight" && p < n ==>
         t.cursor.value.position == p + 1 &&
         t.selection == if s.selection.None? then Some(TextSelection(id, id, p, p, true))
                        else Some(s.selection.value.(endPosition := p + 1))) &&
      ((key == "ArrowLeft" && p == 0) || (key == "ArrowRight" && p == n) ==>
         t.cursor.value.position == p && t.selection == s.selection)
  {
    var li := CursorLineIndex(s);
    var o := KeyOutcomeOf(s.textLines[li], s.cursor.value.position, s.selection, s.currentFormatting, key, true);
    ShiftedOutcome(s.textLines[li], s.cursor.value.position, s.selection, s.currentFormatting, key);
    CommitEffect(s, key, true, measure);
    var t := AfterKeyDown(s, key, true, measure);
    assert t.cursor.value.position == o.position && t.selection == o.selection;
    assert t.textLines == s.textLines[li := s.textLines[li].(cursorPosition := o.position)];
  }

  /** What the switch decides for a shifted movement key. */
  lemma ShiftedOutcome(line: TextLine, p: nat, selection: Option<TextSelection>, pen: Formatting, key: string)
    requires key in {"ArrowLeft", "ArrowRight", "Home", "End"}
    ensures
      var o := KeyOutcomeOf(line, p, selection, pen, key, true);
      var id := line.id;
      var n := |line.characters|;
      o.Committed? && o.characters == line.characters &&
      (key == "Home" ==> o.position == p && o.selection == Some(TextSelection(id, id, 0, p, true))) &&
      (key == "End" ==> o.position == p && o.selection == Some(TextSelection(id, id, p, n, true))) &&
      (key == "ArrowLeft" && p > 0 ==>
         o.position == p - 1 &&
         o.selection == if selection.None? then Some(TextSelection(id, id, p, p, true))
                        else Some(selection.value.(endPosition := p - 1))) &&
      (key == "ArrowRight" && p < n ==>
         o.position == p + 1 &&
         o.selection == if selection.None? then Some(TextSelection(id, id, p, p, true))
                        else Some(selection.value.(endPosition := p + 1))) &&
      ((key == "ArrowLeft" && p == 0) || (key == "ArrowRight" && p == n) ==>
         o.position == p && o.selection == selection)
  {
    MoveKeyOutcome(line, p, selection, pen, key, true);
  }

  /** Escape leaves typing mode: no cursor, no selection; text and history stay. */
  lemma EscapeLeavesTyping(s: EditorState, shift: bool, measure: Measure)
    requires s.cursor.Some? && s.isTyping && CursorLineIndex(s) >= 0
    ensures AfterKeyDown(s, "Escape", shift, measure) ==
            s.(isTyping := false, cursor := None, selection := None)
  {
  }

  /** Keys are ignored without a cursor, outside typing mode, or with the cursor's line gone. */
  lemma KeyIgnoredWhenNotTyping(s: EditorState, key: string, shift: bool, measure: Measure)
    requires s.cursor.None? || !s.isTyping || CursorLineIndex(s) < 0
    ensures AfterKeyDown(s, key, shift, measure) == s
  {
  }

  /** Backspace or Delete over an active selection deletes it, drops the selection, takes the
      caret deletion leaves and records the new list. */
  lemma DeletionKeysDeleteSelection(s: EditorState, key: string, shift: bool, measure: Measure)
    requires Consistent(s) && s.cursor.Some? && s.isTyping && SelectionActive(s.selection)
    requires key == "Backspace" || key == "Delete"
    ensures AfterDeleteSelection(s.textLines, s.selection, measure).Some?
    ensures
      var r := AfterDeleteSelection(s.textLines, s.selection, measure).value;
      var t := AfterKeyDown(s, key, shift, measure);
      t.textLines == r.newTextLines && t.cursor == Some(r.newCursor) && t.selection == None &&
      t.history == s.history + [r.newTextLines]
  {
    assert CursorOn(s.textLines, s.cursor.value);
    assert SelectionWithin(s.textLines, s.selection.value);
    DeletePlaced(s.textLines, s.selection.value, measure);
    SelectionEditsNeedActive(s.textLines[CursorLineIndex(s)], s.cursor.value.position, s.selection, s.currentFormatting, key, shift);
    KeyDownEditsSelection(s, key, shift, measure);
    var r := AfterDeleteSelection(s.textLines, s.selection, measure).value;
    RecordedAppends(s.(textLines := r.newTextLines, cursor := Some(r.newCursor), selection := None), r.newTextLines);
  }

  /** A one-character key over an active selection replaces it, drops the selection and records
      the new list. */
  lemma TypingReplacesSelection(s: EditorState, key: string, shift: bool, measure: Measure)
    requires Consistent(s) && s.cursor.Some? && s.isTyping && SelectionActive(s.selection)
    requires Utf16Length(key) == 1
    ensures AfterReplaceSelection(s.textLines, s.selection, key, s.currentFormatting, measure).Some?
    ensures
      var r := AfterReplaceSelection(s.textLines, s.selection, key, s.currentFormatting, measure).value;
      var t := AfterKeyDown(s, key, shift, measure);
      t.textLines == r.newTextLines && t.cursor == Some(r.newCursor) && t.selection == None &&
      t.history == s.history + [r.newTextLines]
  {
    assert CursorOn(s.textLines, s.cursor.value);
    assert SelectionWithin(s.textLines, s.selection.value);
    ReplacePlaced(s.textLines, s.selection.value, key, s.currentFormatting, measure);
    SelectionEditsNeedActive(s.textLines[CursorLineIndex(s)], s.cursor.value.position, s.selection, s.currentFormatting, key, shift);
    KeyDownEditsSelection(s, key, shift, measure);
    var r := AfterReplaceSelection(s.textLines, s.selection, key, s.currentFormatting, measure).value;
    RecordedAppends(s.(textLines := r.newTextLines, cursor := Some(r.newCursor), selection := None), r.newTextLines);
  }

  // ---------------------------------------------------------------------------------------
  // Mouse

  /** A press away from every slot changes nothing. */
  lemma MouseDownOffGrid(s: EditorState, x: int, y: int, shift: bool, measure: Measure)
    requires s.lineSpacing > 0
    requires forall i :: 0 <= i < |Grid(s.lineSpacing)| ==> !Near(Grid(s.lineSpacing)[i].y, y, s.lineSpacing)
    ensures AfterMouseDown(s, x, y, shift, measure) == s
  {
  }

  /** A press on an empty slot appends a new, active, empty line for it under the current
      style and size, records the list, and puts the caret at the line's start. */
  lemma MouseDownOnEmptySlot(s: EditorState, x: int, y: int, shift: bool, measure: Measure, slot: Slot)
    requires s.lineSpacing > 0 && s.historyIndex == |s.history| - 1
    requires FindLineByY(Grid(s.lineSpacing), y, s.lineSpacing) == Some(slot)
    requires IndexOf(s.textLines, slot.id) < 0
    ensures
      var t := AfterMouseDown(s, x, y, shift, measure);
      t.textLines == s.textLines + [TextLine(slot.id, slot.y, [], 0, true, s.letterStyle, s.fontSize, HANDWRITING_FONT)] &&
      t.history == s.history + [t.textLines] &&
      t.cursor == Some(Cursor(x, slot.y, slot.id, 0, true)) &&
      t.selection == PressSelection(s.selection, slot.id, 0, shift) &&
      t.isTyping && t.isDragging
  {
    var lines' := s.textLines + [NewLine(slot.id, slot.y, s.letterStyle, s.fontSize)];
    RecordedAppends(s.(textLines := lines'), lines');
  }

  /** A press on an existing line makes it the only active line, records nothing, and puts the
      caret at the offset the hit test gives for the press. */
  lemma MouseDownOnLine(s: EditorState, x: int, y: int, shift: bool, measure: Measure, slot: Slot)
    requires s.lineSpacing > 0
    requires FindLineByY(Grid(s.lineSpacing), y, s.lineSpacing) == Some(slot)
    requires IndexOf(s.textLines, slot.id) >= 0
    ensures
      var t := AfterMouseDown(s, x, y, shift, measure);
      var position := OffsetForX(x, s.textLines[IndexOf(s.textLines, slot.id)].characters, measure);
      t.textLines == ActivatedOnly(s.textLines, slot.id) &&
      t.history == s.history && t.historyIndex == s.historyIndex &&
      t.cursor == Some(Cursor(x, slot.y, slot.id, position, true)) &&
      t.selection == PressSelection(s.selection, slot.id, position, shift) &&
      t.isTyping && t.isDragging
  {
  }

  /** Clicking at the caret x of offset `o` on (or near) the ruled y of slot `k` puts the caret
      of line `line_k` at offset `o`: hit test and caret x are inverse, and the grid slots lie
      far enough apart that the right one is found. */
  lemma ClickPlacesCaret(s: EditorState, k: nat, y: int, o: nat, shift: bool, measure: Measure)
    requires s.lineSpacing > 0 && START_Y + k * s.lineSpacing < GRID_BOTTOM
    requires Near(START_Y + k * s.lineSpacing, y, s.lineSpacing)
    requires IndexOf(s.textLines, LineId(k)) >= 0
    requires PositiveWidths(s.textLines[IndexOf(s.textLines, LineId(k))].characters, measure)
    requires o <= |s.textLines[IndexOf(s.textLines, LineId(k))].characters|
    ensures
      var chars := s.textLines[IndexOf(s.textLines, LineId(k))].characters;
      var x := XForOffset(chars, o, measure);
      AfterMouseDown(s, x, y, shift, measure).cursor ==
        Some(Cursor(x, START_Y + k * s.lineSpacing, LineId(k), o, true))
  {
    var sp := s.lineSpacing;
    GridSlot(sp, k);
    FindLineByYOnGrid(sp, y, k);
    var chars := s.textLines[IndexOf(s.textLines, LineId(k))].characters;
    OffsetOfCaretX(chars, o, measure);
    MouseDownOnLine(s, XForOffset(chars, o, measure), y, shift, measure, Grid(sp)[k]);
  }

  /** Dragging over an existing line moves the caret there and the selection's end with it;
      without a selection one starts at the caret's previous place. Text and history stay. */
  lemma DragMovesSelectionEnd(s: EditorState, x: int, y: int, measure: Measure, slot: Slot)
    requires s.lineSpacing > 0 && s.isDragging
    requires FindLineByY(Grid(s.lineSpacing), y, s.lineSpacing) == Some(slot)
    requires IndexOf(s.textLines, slot.id) >= 0
    ensures
      var t := AfterMouseMove(s, x, y, measure);
      var position := OffsetForX(x, s.textLines[IndexOf(s.textLines, slot.id)].characters, measure);
      t.textLines == s.textLines && t.history == s.history &&
      t.cursor == Some(Cursor(x, slot.y, slot.id, position, true)) &&
      t.selection.Some? && t.selection.value.isActive &&
      t.selection.value.endLineId == slot.id && t.selection.value.endPosition == position &&
      (s.selection.Some? ==> t.selection.value.startLineId == s.selection.value.startLineId &&
                             t.selection.value.startPosition == s.selection.value.startPosition) &&
      (s.selection.None? && s.cursor.Some? && s.cursor.value.lineId != "" ==>
         t.selection.value.startLineId == s.cursor.value.lineId &&
         t.selection.value.startPosition == s.cursor.value.position)
  {
  }

  /** Once the button is released, moving the mouse changes nothing. */
  lemma MoveAfterReleaseIsIgnored(s: EditorState, x: int, y: int, measure: Measure)
    requires s.lineSpacing > 0
    ensures AfterMouseMove(AfterMouseUp(s), x, y, measure) == AfterMouseUp(s)
    ensures AfterMouseUp(s) == s.(isDragging := false)
  {
  }

  /** After a press outside the canvas there is no cursor and no selection, and keys are
      ignored until the next press on a line. */
  lemma KeysIgnoredAfterClickOutside(s: EditorState, key: string, shift: bool, measure: Measure)
    ensures AfterClickOutside(s).cursor.None? && AfterClickOutside(s).selection.None?
    ensures AfterClickOutside(s).textLines == s.textLines && AfterClickOutside(s).history == s.history
    ensures AfterKeyDown(AfterClickOutside(s), key, shift, measure) == AfterClickOutside(s)
  {
  }

  // ---------------------------------------------------------------------------------------
  // Spacing, formatting, blink

  /** Changing the spacing moves every line, and the cursor, to the height its id's index has on
      the new grid (each line then sits on its slot there, if the page still has it), keeps
      everything else about the lines and records the list. */
  lemma LineSpacingReprojects(s: EditorState, spacing: int)
    requires Consistent(s) && spacing > 0
    ensures
      var t := AfterLineSpacingChange(s, spacing);
      |t.textLines| == |s.textLines| &&
      (forall i :: 0 <= i < |s.textLines| ==>
         var k := ParseLineIndex(s.textLines[i].id).value;
         t.textLines[i] == s.textLines[i].(y := START_Y + k * spacing) &&
         (k < |Grid(spacing)| ==> Grid(spacing)[k] == Slot(t.textLines[i].y, t.textLines[i].id))) &&
      (s.cursor.Some? ==>
         t.cursor == Some(s.cursor.value.(y := START_Y + ParseLineIndex(s.cursor.value.lineId).value * spacing))) &&
      t.history == s.history + [t.textLines] && t.lineSpacing == spacing
  {
    var t := AfterLineSpacingChange(s, spacing);
    RecordedAppends(s.(textLines := t.textLines, cursor := t.cursor, lineSpacing := spacing), t.textLines);
    forall i | 0 <= i < |s.textLines|
      ensures var k := ParseLineIndex(s.textLines[i].id).value;
              k < |Grid(spacing)| ==> Grid(spacing)[k] == Slot(t.textLines[i].y, t.textLines[i].id)
    {
      assert LineWellFormed(s.textLines[i]);
      GridSlot(spacing, ParseLineIndex(s.textLines[i].id).value);
    }
    if s.cursor.Some? {
      var li := IndexOf(s.textLines, s.cursor.value.lineId);
      assert CursorOn(s.textLines, s.cursor.value);
      assert LineWellFormed(s.textLines[li]);
    }
  }

  /** A pen change always reaches the pen (a size also the caret size); with an active
      selection the selection is restyled and the list recorded once, otherwise the lines and
      the history stay. */
  lemma FormatChangeEffect(s: EditorState, p: FormatPatch)
    requires s.historyIndex == |s.history| - 1
    ensures
      var t := AfterFormatChange(s, p);
      (p.FontSizePatch? ==> t.fontSize == p.fontSize && t.currentFormatting == s.currentFormatting.(fontSize := p.fontSize)) &&
      (p.StylePatch? ==> t.fontSize == s.fontSize && t.currentFormatting == s.currentFormatting.(style := p.style)) &&
      (p.ColorPatch? ==> t.fontSize == s.fontSize && t.currentFormatting == s.currentFormatting.(color := p.color)) &&
      (SelectionActive(s.selection) ==>
         t.textLines == AfterFormatting(s.textLines, s.selection, p) && t.history == s.history + [t.textLines]) &&
      (!SelectionActive(s.selection) ==> t.textLines == s.textLines && t.history == s.history) &&
      t.selection == s.selection && t.cursor == s.cursor
  {
    var t := AfterFormatChange(s, p);
    RecordedAppends(s, t.textLines);
  }

  /** The blink flips the caret's visibility and nothing else, so two blinks restore the state. */
  lemma BlinkTwiceRestores(s: EditorState)
    ensures AfterBlink(AfterBlink(s)) == s
    ensures s.cursor.Some? ==> AfterBlink(s) == s.(cursor := Some(s.cursor.value.(isVisible := !s.cursor.value.isVisible)))
    ensures s.cursor.None? ==> AfterBlink(s) == s
  {
  }

  /** A change of props from the parent takes the new spacing and style and leaves the lines
      where they were, so they need not sit on the new grid. */
  lemma PropsChangeKeepsLines(s: EditorState, spacing: int, letterStyle: LetterStyle)
    ensures AfterPropsChange(s, spacing, letterStyle).textLines == s.textLines
    ensures AfterPropsChange(s, spacing, letterStyle).lineSpacing == spacing
    ensures AfterPropsChange(s, spacing, letterStyle).letterStyle == letterStyle
  {
  }

  // ---------------------------------------------------------------------------------------
  // Every reachable state

  /** The events the component reacts to. */
  datatype Event =
    | MouseDown(x: int, y: int, shift: bool)
    | MouseMove(x: int, y: int)
    | MouseUp
    | ClickOutside
    | KeyDown(key: string, shift: bool)
    | LineSpacingChange(spacing: int)
    | FormatChange(patch: FormatPatch)
    | Blink
    | PropsChange(spacing: int, letterStyle: LetterStyle)

  /** The spacing choices offered are positive. */
  predicate WellFormedEvent(e: Event)
  {
    match e
    case LineSpacingChange(sp) => sp > 0
    case PropsChange(sp, _) => sp > 0
    case _ => true
  }

  function Step(s: EditorState, e: Event, measure: Measure): EditorState
    requires s.lineSpacing > 0
  {
    match e
    case MouseDown(x, y, shift) => AfterMouseDown(s, x, y, shift, measure)
    case MouseMove(x, y) => AfterMouseMove(s, x, y, measure)
    case MouseUp => AfterMouseUp(s)
    case ClickOutside => AfterClickOutside(s)
    case KeyDown(key, shift) => AfterKeyDown(s, key, shift, measure)
    case LineSpacingChange(sp) => AfterLineSpacingChange(s, sp)
    case FormatChange(p) => AfterFormatChange(s, p)
    case Blink => AfterBlink(s)
    case PropsChange(sp, style) => AfterPropsChange(s, sp, style)
  }

  lemma StepPreserves(s: EditorState, e: Event, measure: Measure)
    requires Consistent(s) && WellFormedEvent(e)
    ensures Consistent(Step(s, e, measure))
  {
    match e
    case MouseDown(x, y, shift) => MouseDownPreserves(s, x, y, shift, measure);
    case MouseMove(x, y) => MouseMovePreserves(s, x, y, measure);
    case MouseUp => MouseUpPreserves(s);
    case ClickOutside => ClickOutsidePreserves(s);
    case KeyDown(key, shift) => KeyDownPreserves(s, key, shift, measure);
    case LineSpacingChange(sp) => LineSpacingChangePreserves(s, sp);
    case FormatChange(p) => FormatChangePreserves(s, p);
    case Blink => BlinkPreserves(s);
    case PropsChange(sp, style) => PropsChangePreserves(s, sp, style);
  }

  /** The state after a run of events. */
  function Run(s: EditorState, events: seq<Event>, measure: Measure): (r: EditorState)
    requires Consistent(s) && forall i :: 0 <= i < |events| ==> WellFormedEvent(events[i])
    ensures Consistent(r)
    decreases |events|
  {
    if events == [] then s
    else
      StepPreserves(s, events[0], measure);
      Run(Step(s, events[0], measure), events[1..], measure)
  }

  /** Every state reachable from the initial one is consistent, and its history index names its
      last entry. */
  lemma ReachableConsistent(lineSpacing: int, letterStyle: LetterStyle, events: seq<Event>, measure: Measure)
    requires lineSpacing > 0 && forall i :: 0 <= i < |events| ==> WellFormedEvent(events[i])
    ensures Consistent(Run(Initial(lineSpacing, letterStyle), events, measure))
    ensures Run(Initial(lineSpacing, letterStyle), events, measure).historyIndex ==
            |Run(Initial(lineSpacing, letterStyle), events, measure).history| - 1
  {
    InitialConsistent(lineSpacing, letterStyle);
  }
}
