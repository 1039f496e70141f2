/** What the editor's transitions promise: the invariant they keep and the effect of each
    event as the user sees it. */
module SessionProperties {
  import opened CanvasTypes
  import opened Splice
  import opened LineIds
  import opened LineGrid
  import opened HitTest
  import opened History
  import opened Lines
  import opened SelectionEdits
  import opened Session

  // ---------------------------------------------------------------------------------------
  // History

  /** In a consistent state the index is the last entry, so recording never drops anything:
      the snapshot is appended and becomes the current entry. */
  lemma RecordedAppends(s: EditorState, snapshot: seq<TextLine>)
    requires s.historyIndex == |s.history| - 1
    ensures Recorded(s, snapshot).history == s.history + [snapshot]
    ensures Recorded(s, snapshot).historyIndex == |s.history|
    ensures Recorded(s, snapshot).history[Recorded(s, snapshot).historyIndex] == snapshot
  {
    assert SlicedTo(s.history, s.historyIndex + 1) == s.history;
  }

  // ---------------------------------------------------------------------------------------
  // Keeping the invariant

  /** Two line lists with the same ids and character counts, position by position. */
  predicate SameShape(a: seq<TextLine>, b: seq<TextLine>)
  {
    |a| == |b| &&
    forall i :: 0 <= i < |a| ==> a[i].id == b[i].id && |a[i].characters| == |b[i].characters|
  }

  /** Whatever keeps the shape keeps unique ids and finds every id where it was. */
  lemma ShapeKeepsPlacement(a: seq<TextLine>, b: seq<TextLine>)
    requires SameShape(a, b)
    ensures UniqueIds(a) ==> UniqueIds(b)
    ensures forall id :: IndexOf(b, id) == IndexOf(a, id)
  {
    assert SameIds(a, b);
    forall id: string ensures IndexOf(b, id) == IndexOf(a, id) {
      IndexOfSameIds(a, b, id);
    }
  }

  lemma ShapeKeepsCursor(a: seq<TextLine>, b: seq<TextLine>, c: Cursor)
    requires SameShape(a, b) && CursorOn(a, c)
    ensures CursorOn(b, c)
  {
    IndexOfSameIds(a, b, c.lineId);
  }

  lemma ShapeKeepsSelection(a: seq<TextLine>, b: seq<TextLine>, sel: TextSelection)
    requires SameShape(a, b) && SelectionWithin(a, sel)
    ensures SelectionWithin(b, sel)
  {
    IndexOfSameIds(a, b, sel.startLineId);
    IndexOfSameIds(a, b, sel.endLineId);
  }

  /** A consistent state whose lines change shape-preservingly, with the same cursor line and
      selection, stays consistent. */
  lemma ConsistentUnderShape(s: EditorState, t: EditorState)
    requires Consistent(s)
    requires SameShape(s.textLines, t.textLines)
    requires forall i :: 0 <= i < |s.textLines| ==> t.textLines[i].cursorPosition == s.textLines[i].cursorPosition
    requires t.lineSpacing > 0 && t.historyIndex == |t.history| - 1
    requires t.cursor.Some? <==> s.cursor.Some?
    requires t.cursor.Some? ==> t.cursor.value.lineId == s.cursor.value.lineId && t.cursor.value.position == s.cursor.value.position
    requires t.selection == s.selection
    ensures Consistent(t)
  {
    assert SameIds(s.textLines, t.textLines);
    assert UniqueIds(t.textLines);
    forall i | 0 <= i < |t.textLines| ensures LineWellFormed(t.textLines[i]) {
      assert LineWellFormed(s.textLines[i]);
    }
    if t.cursor.Some? {
      assert CursorOn(s.textLines, t.cursor.value);
      ShapeKeepsCursor(s.textLines, t.textLines, t.cursor.value);
    }
    if t.selection.Some? {
      ShapeKeepsSelection(s.textLines, t.textLines, t.selection.value);
    }
  }

  /** Restyling keeps ids, character counts and offsets. */
  lemma RestyledShape(a: seq<TextLine>, b: seq<TextLine>, p: FormatPatch)
    requires Restyled(a, b, p)
    ensures SameShape(a, b)
    ensures forall i :: 0 <= i < |a| ==> b[i].cursorPosition == a[i].cursorPosition
  {
    forall i | 0 <= i < |a|
      ensures b[i].id == a[i].id && |b[i].characters| == |a[i].characters| && b[i].cursorPosition == a[i].cursorPosition
    {
      assert b[i] == a[i].(characters := b[i].characters);
    }
  }

  lemma InitialConsistent(lineSpacing: int, letterStyle: LetterStyle)
    requires lineSpacing > 0
    ensures Consistent(Initial(lineSpacing, letterStyle))
  {
  }

  lemma MouseUpPreserves(s: EditorState)
    requires Consistent(s)
    ensures Consistent(AfterMouseUp(s))
  {
  }

  lemma ClickOutsidePreserves(s: EditorState)
    requires Consistent(s)
    ensures Consistent(AfterClickOutside(s))
  {
  }

  lemma BlinkPreserves(s: EditorState)
    requires Consistent(s)
    ensures Consistent(AfterBlink(s))
  {
  }

  lemma PropsChangePreserves(s: EditorState, spacing: int, letterStyle: LetterStyle)
    requires Consistent(s) && spacing > 0
    ensures Consistent(AfterPropsChange(s, spacing, letterStyle))
  {
  }

  lemma LineSpacingChangePreserves(s: EditorState, spacing: int)
    requires Consistent(s) && spacing > 0
    ensures Consistent(AfterLineSpacingChange(s, spacing))
  {
    var t := AfterLineSpacingChange(s, spacing);
    RecordedAppends(s.(textLines := t.textLines, cursor := t.cursor, lineSpacing := spacing), t.textLines);
    ConsistentUnderShape(s, t);
  }

  lemma FormatChangePreserves(s: EditorState, p: FormatPatch)
    requires Consistent(s)
    ensures Consistent(AfterFormatChange(s, p))
  {
    var t := AfterFormatChange(s, p);
    if SelectionActive(s.selection) {
      FormattingKeepsText(s.textLines, s.selection, p);
      RestyledShape(s.textLines, t.textLines, p);
      RecordedAppends(s, t.textLines);
      ConsistentUnderShape(s, t);
    } else {
      ConsistentUnderShape(s, t);
    }
  }

  /** Appending a line leaves every earlier lookup where it was. */
  lemma IndexOfAppend(lines: seq<TextLine>, line: TextLine, id: string)
    ensures IndexOf(lines + [line], id) ==
      (if IndexOf(lines, id) >= 0 then IndexOf(lines, id) else if line.id == id then |lines| else -1)
  {
    var r := IndexOf(lines + [line], id);
    var q := IndexOf(lines, id);
    IndexOfFirst(lines, id);
    IndexOfFirst(lines + [line], id);
    if q >= 0 {
      assert (lines + [line])[q] == lines[q];
    } else if line.id == id {
      assert (lines + [line])[|lines|] == line;
    }
  }

  /** Appending a line with a fresh id keeps the ids unique and puts the new line last. */
  lemma AppendKeepsPlacement(lines: seq<TextLine>, line: TextLine)
    requires UniqueIds(lines) && IndexOf(lines, line.id) < 0
    ensures UniqueIds(lines + [line])
    ensures IndexOf(lines + [line], line.id) == |lines|
  {
    IndexOfAppend(lines, line, line.id);
    IndexOfFirst(lines, line.id);
    var all := lines + [line];
    forall i, j | 0 <= i < j < |all|
      ensures all[i].id != all[j].id
    {
      if j == |lines| {
        assert all[i] == lines[i];
      } else {
        assert all[i] == lines[i] && all[j] == lines[j];
      }
    }
  }

  lemma MouseDownPreserves(s: EditorState, x: int, y: int, shift: bool, measure: Measure)
    requires Consistent(s)
    ensures Consistent(AfterMouseDown(s, x, y, shift, measure))
  {
    var found := FindLineByY(Grid(s.lineSpacing), y, s.lineSpacing);
    if found.Some? {
      if IndexOf(s.textLines, found.value.id) < 0 {
        MouseDownNewLine(s, x, y, shift, measure, found.value);
      } else {
        MouseDownExistingLine(s, x, y, shift, measure, found.value);
      }
    }
  }

  /** The state a press on an empty slot leaves. */
  lemma MouseDownAppends(s: EditorState, x: int, y: int, shift: bool, measure: Measure, slot: Slot)
    requires s.lineSpacing > 0
    requires FindLineByY(Grid(s.lineSpacing), y, s.lineSpacing) == Some(slot)
    requires IndexOf(s.textLines, slot.id) < 0
    ensures
      var lines' := s.textLines + [NewLine(slot.id, slot.y, s.letterStyle, s.fontSize)];
      AfterMouseDown(s, x, y, shift, measure) ==
        Recorded(s.(textLines := lines'), lines').(cursor := Some(Cursor(x, slot.y, slot.id, 0, true)),
          isTyping := true, isDragging := true, selection := PressSelection(s.selection, slot.id, 0, shift))
  {
  }

  /** The state a press on an existing line leaves. */
  lemma MouseDownActivates(s: EditorState, x: int, y: int, shift: bool, measure: Measure, slot: Slot)
    requires s.lineSpacing > 0
    requires FindLineByY(Grid(s.lineSpacing), y, s.lineSpacing) == Some(slot)
    requires IndexOf(s.textLines, slot.id) >= 0
    ensures
      var position := OffsetForX(x, s.textLines[IndexOf(s.textLines, slot.id)].characters, measure);
      AfterMouseDown(s, x, y, shift, measure) ==
        s.(textLines := ActivatedOnly(s.textLines, slot.id), cursor := Some(Cursor(x, slot.y, slot.id, position, true)),
           isTyping := true, isDragging := true, selection := PressSelection(s.selection, slot.id, position, shift))
  {
  }

  lemma AppendKeepsWellFormed(lines: seq<TextLine>, line: TextLine)
    requires forall i :: 0 <= i < |lines| ==> LineWellFormed(lines[i])
    requires LineWellFormed(line)
    ensures forall i :: 0 <= i < |lines + [line]| ==> LineWellFormed((lines + [line])[i])
  {
    forall i | 0 <= i < |lines + [line]| ensures LineWellFormed((lines + [line])[i]) {
      if i < |lines| {
        assert (lines + [line])[i] == lines[i];
      }
    }
  }

  /** A press on the fresh last line `line` leaves a selection within the lines. */
  lemma PressOnAppendedWithin(lines: seq<TextLine>, line: TextLine, prior: Option<TextSelection>, shift: bool)
    requires UniqueIds(lines) && IndexOf(lines, line.id) < 0
    requires prior.Some? ==> SelectionWithin(lines, prior.value)
    ensures PressSelection(prior, line.id, 0, shift).Some? ==>
              SelectionWithin(lines + [line], PressSelection(prior, line.id, 0, shift).value)
  {
    AppendKeepsPlacement(lines, line);
    if prior.Some? {
      IndexOfAppend(lines, line, prior.value.startLineId);
    }
  }

  lemma MouseDownNewLine(s: EditorState, x: int, y: int, shift: bool, measure: Measure, slot: Slot)
    requires Consistent(s)
    requires FindLineByY(Grid(s.lineSpacing), y, s.lineSpacing) == Some(slot)
    requires IndexOf(s.textLines, slot.id) < 0
    ensures Consistent(AfterMouseDown(s, x, y, shift, measure))
  {
    MouseDownAppends(s, x, y, shift, measure, slot);
    SlotOfGrid(s.lineSpacing, slot);
    var line := NewLine(slot.id, slot.y, s.letterStyle, s.fontSize);
    var lines' := s.textLines + [line];
    AppendKeepsPlacement(s.textLines, line);
    AppendKeepsWellFormed(s.textLines, line);
    RecordedAppends(s.(textLines := lines'), lines');
    PressOnAppendedWithin(s.textLines, line, s.selection, shift);
  }

  lemma MouseDownExistingLine(s: EditorState, x: int, y: int, shift: bool, measure: Measure, slot: Slot)
    requires Consistent(s)
    requires FindLineByY(Grid(s.lineSpacing), y, s.lineSpacing) == Some(slot)
    requires IndexOf(s.textLines, slot.id) >= 0
    ensures Consistent(AfterMouseDown(s, x, y, shift, measure))
  {
    MouseDownActivates(s, x, y, shift, measure, slot);
    var li := IndexOf(s.textLines, slot.id);
    var position := OffsetForX(x, s.textLines[li].characters, measure);
    var c := Cursor(x, slot.y, slot.id, position, true);
    var sel := PressSelection(s.selection, slot.id, position, shift);
    if sel.Some? && s.selection.Some? {
      assert SelectionWithin(s.textLines, s.selection.value);
    }
    ActivatedConsistent(s, slot.id, c, sel);
  }

  /** Activating one line and placing a cursor and a selection that lie within the lines keeps
      a consistent state consistent. */
  lemma ActivatedConsistent(s: EditorState, id: string, c: Cursor, sel: Option<TextSelection>)
    requires Consistent(s)
    requires CursorOn(s.textLines, c)
    requires sel.Some? ==> SelectionWithin(s.textLines, sel.value) && sel.value.endLineId == c.lineId
    ensures Consistent(s.(textLines := ActivatedOnly(s.textLines, id), cursor := Some(c),
                          isTyping := true, isDragging := true, selection := sel))
  {
    var lines' := ActivatedOnly(s.textLines, id);
    assert SameShape(s.textLines, lines');
    ShapeKeepsPlacement(s.textLines, lines');
    forall i | 0 <= i < |lines'| ensures LineWellFormed(lines'[i]) {
      assert LineWellFormed(s.textLines[i]);
    }
    ShapeKeepsCursor(s.textLines, lines', c);
    if sel.Some? {
      ShapeKeepsSelection(s.textLines, lines', sel.value);
    }
  }

  lemma MouseMovePreserves(s: EditorState, x: int, y: int, measure: Measure)
    requires Consistent(s)
    ensures Consistent(AfterMouseMove(s, x, y, measure))
  {
    var t := AfterMouseMove(s, x, y, measure);
    if s.isDragging {
      match FindLineByY(Grid(s.lineSpacing), y, s.lineSpacing)
      case None =>
      case Some(slot) =>
        var li := IndexOf(s.textLines, slot.id);
        if li >= 0 {
          assert CursorOn(s.textLines, t.cursor.value);
          assert SelectionWithin(s.textLines, t.selection.value);
        }
    }
  }

  /** With unique ids, the commit's `map` over the lines rewrites exactly the cursor's line. */
  lemma WithLineContentUnique(lines: seq<TextLine>, li: nat, characters: seq<Character>, position: nat)
    requires UniqueIds(lines) && li < |lines|
    ensures WithLineContent(lines, lines[li].id, characters, position) ==
            lines[li := lines[li].(characters := characters, cursorPosition := position)]
  {
  }

  /** Rewriting one line's content keeps ids (hence every lookup) and the other lines. */
  lemma SetLineKeepsIds(lines: seq<TextLine>, li: nat, line: TextLine)
    requires li < |lines| && line.id == lines[li].id
    ensures SameIds(lines[li := line], lines)
    ensures UniqueIds(lines) ==> UniqueIds(lines[li := line])
    ensures forall id :: IndexOf(lines[li := line], id) == IndexOf(lines, id)
  {
    forall id: string ensures IndexOf(lines[li := line], id) == IndexOf(lines, id) {
      IndexOfSameIds(lines[li := line], lines, id);
    }
  }

  /** A list that keeps another's line frames, over unique well-formed lines, with offsets
      inside the new contents, is again unique and well-formed, and finds every id where the
      other did. */
  lemma FramesKeepPlacement(lines: seq<TextLine>, lines': seq<TextLine>)
    requires UniqueIds(lines) && (forall i :: 0 <= i < |lines| ==> LineWellFormed(lines[i]))
    requires SameLineFrames(lines', lines)
    requires forall i :: 0 <= i < |lines'| ==> lines'[i].cursorPosition <= |lines'[i].characters|
    ensures UniqueIds(lines') && (forall i :: 0 <= i < |lines'| ==> LineWellFormed(lines'[i]))
    ensures forall id :: IndexOf(lines', id) == IndexOf(lines, id)
  {
    assert SameIds(lines', lines) by {
      forall i | 0 <= i < |lines'| ensures lines'[i].id == lines[i].id {
        assert lines'[i] == lines[i].(characters := lines'[i].characters, cursorPosition := lines'[i].cursorPosition);
      }
    }
    forall id: string ensures IndexOf(lines', id) == IndexOf(lines, id) {
      IndexOfSameIds(lines', lines, id);
    }
    forall i | 0 <= i < |lines'| ensures LineWellFormed(lines'[i]) {
      assert LineWellFormed(lines[i]);
    }
  }

  /** Offsets inside their lines: what the invariant asks of every line. */
  predicate OffsetsInside(lines: seq<TextLine>)
  {
    forall i :: 0 <= i < |lines| ==> lines[i].cursorPosition <= |lines[i].characters|
  }

  /** Rewriting one line with an offset inside its new content keeps all offsets inside. */
  lemma SetLineOffsetsInside(lines: seq<TextLine>, li: nat, line: TextLine)
    requires OffsetsInside(lines) && li < |lines| && line.cursorPosition <= |line.characters|
    ensures OffsetsInside(lines[li := line])
  {
  }

  lemma DeleteOffsetsOneLine(lines: seq<TextLine>, sel: TextSelection, measure: Measure)
    requires OffsetsInside(lines)
    requires SelectionWithin(lines, sel) && sel.startLineId == sel.endLineId
    ensures AfterDeleteSelection(lines, Some(sel), measure).Some?
    ensures
      var r := AfterDeleteSelection(lines, Some(sel), measure).value;
      OffsetsInside(r.newTextLines) &&
      r.newCursor.position <= |r.newTextLines[IndexOf(lines, sel.startLineId)].characters|
  {
    var si := IndexOf(lines, sel.startLineId);
    var chars := lines[si].characters;
    if sel.startPosition <= sel.endPosition {
      DeleteOnOneLine(lines, sel, measure);
      SetLineOffsetsInside(lines, si, lines[si].(characters := chars[..sel.startPosition] + chars[sel.endPosition..],
                                                 cursorPosition := sel.startPosition));
    } else {
      DeleteBackwardKeepsText(lines, sel, measure);
      SetLineOffsetsInside(lines, si, lines[si].(cursorPosition := sel.startPosition));
    }
    DeleteOutcome(lines, Some(sel), measure);
  }

  lemma DeleteOffsetsAcross(lines: seq<TextLine>, sel: TextSelection, measure: Measure)
    requires OffsetsInside(lines)
    requires SelectionWithin(lines, sel) && sel.startLineId != sel.endLineId
    ensures AfterDeleteSelection(lines, Some(sel), measure).Some?
    ensures
      var r := AfterDeleteSelection(lines, Some(sel), measure).value;
      OffsetsInside(r.newTextLines) &&
      r.newCursor.position <= |r.newTextLines[IndexOf(lines, sel.startLineId)].characters|
  {
    DeleteAcrossLines(lines, sel, measure);
    DeleteOutcome(lines, Some(sel), measure);
  }

  /** The lines after deleting a selection that lies within the list are again unique,
      well-formed grid lines, and the new cursor stands inside its line. */
  lemma DeletePlaced(lines: seq<TextLine>, sel: TextSelection, measure: Measure)
    requires UniqueIds(lines) && (forall i :: 0 <= i < |lines| ==> LineWellFormed(lines[i]))
    requires SelectionWithin(lines, sel)
    ensures AfterDeleteSelection(lines, Some(sel), measure).Some?
    ensures
      var r := AfterDeleteSelection(lines, Some(sel), measure).value;
      SameIds(r.newTextLines, lines) && UniqueIds(r.newTextLines) &&
      (forall i :: 0 <= i < |r.newTextLines| ==> LineWellFormed(r.newTextLines[i])) &&
      CursorOn(r.newTextLines, r.newCursor)
  {
    DeleteOutcome(lines, Some(sel), measure);
    assert OffsetsInside(lines) by {
      forall i | 0 <= i < |lines| ensures lines[i].cursorPosition <= |lines[i].characters| {
        assert LineWellFormed(lines[i]);
      }
    }
    if sel.startLineId == sel.endLineId {
      DeleteOffsetsOneLine(lines, sel, measure);
    } else {
      DeleteOffsetsAcross(lines, sel, measure);
    }
    EditPlaced(lines, AfterDeleteSelection(lines, Some(sel), measure).value, IndexOf(lines, sel.startLineId));
  }

  /** An edit that keeps every line's frame, keeps offsets inside their lines and puts the
      cursor inside the line at `si` keeps the list placed. */
  lemma EditPlaced(lines: seq<TextLine>, r: EditResult, si: nat)
    requires UniqueIds(lines) && (forall i :: 0 <= i < |lines| ==> LineWellFormed(lines[i]))
    requires SameLineFrames(r.newTextLines, lines) && OffsetsInside(r.newTextLines)
    requires si < |lines| && IndexOf(lines, r.newCursor.lineId) == si
    requires r.newCursor.position <= |r.newTextLines[si].characters|
    ensures SameIds(r.newTextLines, lines) && UniqueIds(r.newTextLines)
    ensures forall i :: 0 <= i < |r.newTextLines| ==> LineWellFormed(r.newTextLines[i])
    ensures CursorOn(r.newTextLines, r.newCursor)
  {
    FramesKeepPlacement(lines, r.newTextLines);
    IndexOfSameIds(r.newTextLines, lines, r.newCursor.lineId);
  }

  /** Inserting a character at the caret of a placed cursor, and moving the caret past it,
      keeps a unique well-formed list so, and the cursor on it. */
  lemma InsertPlaced(d: EditResult, c: Character)
    requires UniqueIds(d.newTextLines) && (forall i :: 0 <= i < |d.newTextLines| ==> LineWellFormed(d.newTextLines[i]))
    requires CursorOn(d.newTextLines, d.newCursor)
    ensures
      var r := InsertedAtCursor(d, c);
      SameIds(r.newTextLines, d.newTextLines) && UniqueIds(r.newTextLines) &&
      (forall i :: 0 <= i < |r.newTextLines| ==> LineWellFormed(r.newTextLines[i])) &&
      CursorOn(r.newTextLines, r.newCursor)
  {
    var r := InsertedAtCursor(d, c);
    var li := IndexOf(d.newTextLines, d.newCursor.lineId);
    var line' := r.newTextLines[li];
    assert LineWellFormed(d.newTextLines[li]);
    SetLineKeepsIds(d.newTextLines, li, line');
    forall i | 0 <= i < |r.newTextLines| ensures LineWellFormed(r.newTextLines[i]) {
      assert LineWellFormed(d.newTextLines[i]);
    }
  }

  /** The same after replacing the selection with a typed character. */
  lemma ReplacePlaced(lines: seq<TextLine>, sel: TextSelection, key: string, pen: Formatting, measure: Measure)
    requires UniqueIds(lines) && (forall i :: 0 <= i < |lines| ==> LineWellFormed(lines[i]))
    requires SelectionWithin(lines, sel)
    ensures AfterReplaceSelection(lines, Some(sel), key, pen, measure).Some?
    ensures
      var r := AfterReplaceSelection(lines, Some(sel), key, pen, measure).value;
      SameIds(r.newTextLines, lines) && UniqueIds(r.newTextLines) &&
      (forall i :: 0 <= i < |r.newTextLines| ==> LineWellFormed(r.newTextLines[i])) &&
      CursorOn(r.newTextLines, r.newCursor)
  {
    DeletePlaced(lines, sel, measure);
    var d := AfterDeleteSelection(lines, Some(sel), measure).value;
    assert AfterReplaceSelection(lines, Some(sel), key, pen, measure) == Some(InsertedAtCursor(d, CreateCharacter(key, pen)));
    InsertPlaced(d, CreateCharacter(key, pen));
  }

  /** Every committed key leaves the caret inside the new content. The selection it hands on is
      the old one (with the text kept when that one is active), a fresh active one on the line,
      or the old one with a new end offset on unchanged text; offsets it sets lie in the line. */
  lemma CommittedPlaced(line: TextLine, position: nat, selection: Option<TextSelection>, pen: Formatting, key: string, shift: bool)
    requires position <= |line.characters|
    requires KeyOutcomeOf(line, position, selection, pen, key, shift).Committed?
    ensures
      var o := KeyOutcomeOf(line, position, selection, pen, key, shift);
      o.position <= |o.characters| &&
      (o.selection.Some? ==>
         (o.selection == selection && (SelectionActive(selection) ==> o.characters == line.characters)) ||
         (o.characters == line.characters && o.selection.value.isActive &&
          o.selection.value.startLineId == line.id && o.selection.value.endLineId == line.id &&
          o.selection.value.startPosition <= |line.characters| && o.selection.value.endPosition <= |line.characters|) ||
         (o.characters == line.characters && selection.Some? &&
          o.selection.value == selection.value.(endPosition := o.selection.value.endPosition) &&
          o.selection.value.endPosition <= |line.characters|))
  {
  }

  /** The state the commit leaves, with the cursor's line found at `li` in unique lines. */
  lemma CommitKeyState(s: EditorState, c: Cursor, li: nat, characters: seq<Character>, position: nat, selection: Option<TextSelection>, measure: Measure)
    requires UniqueIds(s.textLines) && s.historyIndex == |s.history| - 1
    requires li < |s.textLines| && s.textLines[li].id == c.lineId
    ensures
      var lines' := s.textLines[li := s.textLines[li].(characters := characters, cursorPosition := position)];
      CommitKey(s, c, characters, position, selection, measure) ==
        s.(textLines := lines', selection := selection,
           cursor := Some(c.(x := XForOffset(characters, position, measure), position := position)),
           history := s.history + [lines'], historyIndex := |s.history|)
  {
    var lines' := s.textLines[li := s.textLines[li].(characters := characters, cursorPosition := position)];
    WithLineContentUnique(s.textLines, li, characters, position);
    RecordedAppends(s.(textLines := lines', selection := selection,
                       cursor := Some(c.(x := XForOffset(characters, position, measure), position := position))), lines');
  }

  /** The commit keeps the invariant when the caret lies inside the new content and a selection
      handed on lies within the lines with unchanged text and ends on the cursor's line. */
  lemma CommitKeyConsistent(s: EditorState, characters: seq<Character>, position: nat, selection: Option<TextSelection>, measure: Measure)
    requires Consistent(s) && s.cursor.Some?
    requires position <= |characters|
    requires selection.Some? ==>
      characters == s.textLines[IndexOf(s.textLines, s.cursor.value.lineId)].characters &&
      selection.value.endLineId == s.cursor.value.lineId && SelectionWithin(s.textLines, selection.value)
    ensures Consistent(CommitKey(s, s.cursor.value, characters, position, selection, measure))
  {
    var c := s.cursor.value;
    assert CursorOn(s.textLines, c);
    var li := IndexOf(s.textLines, c.lineId);
    CommitKeyState(s, c, li, characters, position, selection, measure);
    LineEditPlaced(s.textLines, li, characters, position, selection);
  }

  /** Giving the line at `li` of a unique well-formed list new characters with an offset inside
      them keeps the list so, puts that offset on it, and keeps within it a selection on
      unchanged text. */
  lemma LineEditPlaced(lines: seq<TextLine>, li: nat, characters: seq<Character>, position: nat, selection: Option<TextSelection>)
    requires UniqueIds(lines) && (forall i :: 0 <= i < |lines| ==> LineWellFormed(lines[i]))
    requires li < |lines| && position <= |characters|
    requires selection.Some? ==> characters == lines[li].characters && SelectionWithin(lines, selection.value)
    ensures
      var lines' := lines[li := lines[li].(characters := characters, cursorPosition := position)];
      UniqueIds(lines') && (forall i :: 0 <= i < |lines'| ==> LineWellFormed(lines'[i])) &&
      IndexOf(lines', lines[li].id) == IndexOf(lines, lines[li].id) &&
      (selection.Some? ==> SelectionWithin(lines', selection.value))
  {
    var line' := lines[li].(characters := characters, cursorPosition := position);
    var lines' := lines[li := line'];
    assert LineWellFormed(lines[li]);
    SetLineKeepsWellFormed(lines, li, line', lines');
    if selection.Some? {
      assert SameShape(lines, lines');
      ShapeKeepsSelection(lines, lines', selection.value);
    }
  }

  /** Rewriting one line of a unique well-formed list with a well-formed line of the same id
      keeps the list unique and well-formed, and every lookup where it was. */
  lemma SetLineKeepsWellFormed(lines: seq<TextLine>, li: nat, line: TextLine, lines': seq<TextLine>)
    requires UniqueIds(lines) && (forall i :: 0 <= i < |lines| ==> LineWellFormed(lines[i]))
    requires li < |lines| && line.id == lines[li].id && LineWellFormed(line) && lines' == lines[li := line]
    ensures UniqueIds(lines') && (forall i :: 0 <= i < |lines'| ==> LineWellFormed(lines'[i]))
    ensures forall id :: IndexOf(lines', id) == IndexOf(lines, id)
  {
    SetLineKeepsIds(lines, li, line);
    forall i | 0 <= i < |lines'| ensures LineWellFormed(lines'[i]) {
      if i != li {
        assert lines'[i] == lines[i];
      }
    }
  }

  /** A key the switch commits ends in the commit step. */
  lemma KeyDownCommits(s: EditorState, key: string, shift: bool, measure: Measure)
    requires s.cursor.Some? && s.isTyping
    requires IndexOf(s.textLines, s.cursor.value.lineId) >= 0
    requires KeyOutcomeOf(s.textLines[IndexOf(s.textLines, s.cursor.value.lineId)], s.cursor.value.position,
                          s.selection, s.currentFormatting, key, shift).Committed?
    ensures
      var o := KeyOutcomeOf(s.textLines[IndexOf(s.textLines, s.cursor.value.lineId)], s.cursor.value.position,
                            s.selection, s.currentFormatting, key, shift);
      AfterKeyDown(s, key, shift, measure) == CommitKey(s, s.cursor.value, o.characters, o.position, o.selection, measure)
  {
  }

  lemma CommitPreserves(s: EditorState, key: string, shift: bool, measure: Measure)
    requires Consistent(s) && s.cursor.Some? && s.isTyping
    requires IndexOf(s.textLines, s.cursor.value.lineId) >= 0
    requires KeyOutcomeOf(s.textLines[IndexOf(s.textLines, s.cursor.value.lineId)], s.cursor.value.position,
                          s.selection, s.currentFormatting, key, shift).Committed?
    ensures Consistent(AfterKeyDown(s, key, shift, measure))
  {
    var c := s.cursor.value;
    var li := IndexOf(s.textLines, c.lineId);
    var line := s.textLines[li];
    assert CursorOn(s.textLines, c);
    var o := KeyOutcomeOf(line, c.position, s.selection, s.currentFormatting, key, shift);
    CommittedPlaced(line, c.position, s.selection, s.currentFormatting, key, shift);
    if s.selection.Some? {
      assert SelectionWithin(s.textLines, s.selection.value);
    }
    if o.selection.Some? {
      assert SelectionWithin(s.textLines, o.selection.value);
    }
    CommitKeyConsistent(s, o.characters, o.position, o.selection, measure);
    KeyDownCommits(s, key, shift, measure);
  }

  /** Taking over a selection edit's result keeps the invariant when its lines are unique
      well-formed grid lines and its cursor stands inside its line. */
  lemma SelectionEditAppliedConsistent(s: EditorState, r: EditResult)
    requires Consistent(s)
    requires UniqueIds(r.newTextLines) && (forall i :: 0 <= i < |r.newTextLines| ==> LineWellFormed(r.newTextLines[i]))
    requires CursorOn(r.newTextLines, r.newCursor)
    ensures Consistent(SelectionEditApplied(s, Some(r)))
  {
    RecordedAppends(s.(textLines := r.newTextLines, cursor := Some(r.newCursor), selection := None), r.newTextLines);
  }

  /** A key the switch sends to the selection edits ends in that edit's result. */
  lemma KeyDownEditsSelection(s: EditorState, key: string, shift: bool, measure: Measure)
    requires s.cursor.Some? && s.isTyping
    requires IndexOf(s.textLines, s.cursor.value.lineId) >= 0
    ensures
      var o := KeyOutcomeOf(s.textLines[IndexOf(s.textLines, s.cursor.value.lineId)], s.cursor.value.position,
                            s.selection, s.currentFormatting, key, shift);
      (o == DeletesSelection ==>
         AfterKeyDown(s, key, shift, measure) == SelectionEditApplied(s, AfterDeleteSelection(s.textLines, s.selection, measure))) &&
      (o == ReplacesSelection ==>
         AfterKeyDown(s, key, shift, measure) ==
         SelectionEditApplied(s, AfterReplaceSelection(s.textLines, s.selection, key, s.currentFormatting, measure)))
  {
  }

  /** Deleting or replacing the active selection keeps the invariant. */
  lemma SelectionEditsConsistent(s: EditorState, key: string, measure: Measure)
    requires Consistent(s) && SelectionActive(s.selection)
    ensures Consistent(SelectionEditApplied(s, AfterDeleteSelection(s.textLines, s.selection, measure)))
    ensures Consistent(SelectionEditApplied(s, AfterReplaceSelection(s.textLines, s.selection, key, s.currentFormatting, measure)))
  {
    var sel := s.selection.value;
    assert SelectionWithin(s.textLines, sel);
    DeletePlaced(s.textLines, sel, measure);
    SelectionEditAppliedConsistent(s, AfterDeleteSelection(s.textLines, Some(sel), measure).value);
    ReplacePlaced(s.textLines, sel, key, s.currentFormatting, measure);
    SelectionEditAppliedConsistent(s, AfterReplaceSelection(s.textLines, Some(sel), key, s.currentFormatting, measure).value);
  }

  /** The switch sends a key to the selection edits only when the selection is active: to
      deletion for Backspace and Delete, to replacement for a one-character key. */
  lemma SelectionEditsNeedActive(line: TextLine, position: nat, selection: Option<TextSelection>, pen: Formatting, key: string, shift: bool)
    ensures KeyOutcomeOf(line, position, selection, pen, key, shift) == DeletesSelection <==>
            SelectionActive(selection) && (key == "Backspace" || key == "Delete")
    ensures KeyOutcomeOf(line, position, selection, pen, key, shift) == ReplacesSelection <==>
            SelectionActive(selection) && Utf16Length(key) == 1
  {
  }

  lemma DeleteKeyPreserves(s: EditorState, key: string, shift: bool, measure: Measure)
    requires Consistent(s) && s.cursor.Some? && s.isTyping
    requires IndexOf(s.textLines, s.cursor.value.lineId) >= 0
    requires KeyOutcomeOf(s.textLines[IndexOf(s.textLines, s.cursor.value.lineId)], s.cursor.value.position,
                          s.selection, s.currentFormatting, key, shift) == DeletesSelection
    ensures Consistent(AfterKeyDown(s, key, shift, measure))
  {
    SelectionEditsNeedActive(s.textLines[IndexOf(s.textLines, s.cursor.value.lineId)], s.cursor.value.position,
                             s.selection, s.currentFormatting, key, shift);
    KeyDownEditsSelection(s, key, shift, measure);
    SelectionEditsConsistent(s, key, measure);
  }

  lemma ReplaceKeyPreserves(s: EditorState, key: string, shift: bool, measure: Measure)
    requires Consistent(s) && s.cursor.Some? && s.isTyping
    requires IndexOf(s.textLines, s.cursor.value.lineId) >= 0
    requires KeyOutcomeOf(s.textLines[IndexOf(s.textLines, s.cursor.value.lineId)], s.cursor.value.position,
                          s.selection, s.currentFormatting, key, shift) == ReplacesSelection
    ensures Consistent(AfterKeyDown(s, key, shift, measure))
  {
    SelectionEditsNeedActive(s.textLines[IndexOf(s.textLines, s.cursor.value.lineId)], s.cursor.value.position,
                             s.selection, s.currentFormatting, key, shift);
    KeyDownEditsSelection(s, key, shift, measure);
    SelectionEditsConsistent(s, key, measure);
  }

  lemma KeyDownPreserves(s: EditorState, key: string, shift: bool, measure: Measure)
    requires Consistent(s)
    ensures Consistent(AfterKeyDown(s, key, shift, measure))
  {
    if s.cursor.Some? && s.isTyping && IndexOf(s.textLines, s.cursor.value.lineId) >= 0 {
      var o := KeyOutcomeOf(s.textLines[IndexOf(s.textLines, s.cursor.value.lineId)], s.cursor.value.position,
                            s.selection, s.currentFormatting, key, shift);
      match o
      case Committed(_, _, _) => CommitPreserves(s, key, shift, measure);
      case DeletesSelection => DeleteKeyPreserves(s, key, shift, measure);
      case ReplacesSelection => ReplaceKeyPreserves(s, key, shift, measure);
      case Escaped =>
    }
  }
}
