/** The selection operations: `deleteSelection`, `replaceSelection` and
    `applyFormattingToSelection`. */
module SelectionEdits {
  import opened CanvasTypes
  import opened Splice
  import opened HitTest
  import opened Lines

  /** What `deleteSelection` and `replaceSelection` hand back to the key handler. */
  datatype EditResult = EditResult(newTextLines: seq<TextLine>, newCursor: Cursor)

  /** `selection && selection.isActive` */
  predicate SelectionActive(selection: Option<TextSelection>)
  {
    selection.Some? && selection.value.isActive
  }

  /** Lines strictly between array indices `lo` and `hi` emptied, with their offset reset. */
  function ClearedBetween(lines: seq<TextLine>, lo: int, hi: int): seq<TextLine>
  {
    seq(|lines|, i requires 0 <= i < |lines| =>
      if lo < i < hi then lines[i].(characters := [], cursorPosition := 0) else lines[i])
  }

  /** The result of `deleteSelection`, or None when there is no active selection or an endpoint
      line is missing. */
  function AfterDeleteSelection(lines: seq<TextLine>, selection: Option<TextSelection>, measure: Measure): Option<EditResult>
  {
    if !SelectionActive(selection) then None
    else
      var s := selection.value;
      var si := IndexOf(lines, s.startLineId);
      var ei := IndexOf(lines, s.endLineId);
      if si < 0 || ei < 0 then None
      else if s.startLineId == s.endLineId then
        var line := lines[si];
        var chars := Removed(line.characters, s.startPosition, s.endPosition - s.startPosition);
        Some(EditResult(
          lines[si := line.(characters := chars, cursorPosition := s.startPosition)],
          Cursor(XForOffset(chars, s.startPosition, measure), line.y, line.id, s.startPosition, true)))
      else
        var startLine := lines[si];
        var endLine := lines[ei];
        var startChars := Truncated(startLine.characters, s.startPosition);
        var endChars := Removed(endLine.characters, 0, s.endPosition);
        var withEnds := lines[si := startLine.(characters := startChars, cursorPosition := s.startPosition)]
                             [ei := endLine.(characters := endChars, cursorPosition := 0)];
        Some(EditResult(
          ClearedBetween(withEnds, si, ei),
          Cursor(XForOffset(startChars, s.startPosition, measure), startLine.y, startLine.id, s.startPosition, true)))
  }

  /** `deleteSelection`: one line is spliced; across lines the start line is cut at the start
      offset, the end line loses its first `endPosition` characters, and the lines between them
      in array order are emptied one by one. */
  method DeleteSelection(textLines: seq<TextLine>, selection: Option<TextSelection>, measure: Measure)
    returns (result: Option<EditResult>)
    ensures result == AfterDeleteSelection(textLines, selection, measure)
  {
    if !SelectionActive(selection) {
      return None;
    }
    var s := selection.value;
    var newTextLines := textLines;
    var startLineIndex := IndexOf(newTextLines, s.startLineId);
    var endLineIndex := IndexOf(newTextLines, s.endLineId);
    if startLineIndex < 0 || endLineIndex < 0 {
      return None;
    }
    if s.startLineId == s.endLineId {
      var line := newTextLines[startLineIndex];
      var newCharacters := Removed(line.characters, s.startPosition, s.endPosition - s.startPosition);
      newTextLines := newTextLines[startLineIndex := line.(characters := newCharacters, cursorPosition := s.startPosition)];
      var cursorX := MeasureCaretX(newCharacters, s.startPosition, measure);
      return Some(EditResult(newTextLines, Cursor(cursorX, line.y, line.id, s.startPosition, true)));
    }
    var startLine := newTextLines[startLineIndex];
    var endLine := newTextLines[endLineIndex];
    var newStartCharacters := Truncated(startLine.characters, s.startPosition);
    newTextLines := newTextLines[startLineIndex := startLine.(characters := newStartCharacters, cursorPosition := s.startPosition)];
    var newEndCharacters := Removed(endLine.characters, 0, s.endPosition);
    newTextLines := newTextLines[endLineIndex := endLine.(characters := newEndCharacters, cursorPosition := 0)];
    ghost var withEnds := newTextLines;
    var i := startLineIndex + 1;
    while i < endLineIndex
      invariant startLineIndex < i <= Max(endLineIndex, startLineIndex + 1)
      invariant newTextLines == ClearedBetween(withEnds, startLineIndex, i)
    {
      newTextLines := newTextLines[i := newTextLines[i].(characters := [], cursorPosition := 0)];
      i := i + 1;
    }
    assert newTextLines == ClearedBetween(withEnds, startLineIndex, endLineIndex);
    var cursorX := MeasureCaretX(newStartCharacters, s.startPosition, measure);
    return Some(EditResult(newTextLines, Cursor(cursorX, startLine.y, startLine.id, s.startPosition, true)));
  }

  /** The typed character `c` inserted at the caret a deletion left, one offset further on
      (no change when the caret's line is missing). */
  function InsertedAtCursor(deleted: EditResult, c: Character): EditResult
  {
    var li := IndexOf(deleted.newTextLines, deleted.newCursor.lineId);
    if li < 0 then deleted
    else
      var line := deleted.newTextLines[li];
      var position := deleted.newCursor.position;
      EditResult(
        deleted.newTextLines[li := line.(characters := Inserted(line.characters, position, c), cursorPosition := position + 1)],
        deleted.newCursor.(position := position + 1))
  }

  /** The result of `replaceSelection`: the selection deleted, then the typed character inserted
      at the cursor that deletion left. */
  function AfterReplaceSelection(lines: seq<TextLine>, selection: Option<TextSelection>, key: string, pen: Formatting, measure: Measure): Option<EditResult>
  {
    if !SelectionActive(selection) then None
    else
      match AfterDeleteSelection(lines, selection, measure)
      case None => None
      case Some(deleted) => Some(InsertedAtCursor(deleted, CreateCharacter(key, pen)))
  }

  /** `replaceSelection` */
  method ReplaceSelection(textLines: seq<TextLine>, selection: Option<TextSelection>, key: string, pen: Formatting, measure: Measure)
    returns (result: Option<EditResult>)
    ensures result == AfterReplaceSelection(textLines, selection, key, pen, measure)
  {
    if !SelectionActive(selection) {
      return None;
    }
    result := DeleteSelection(textLines, selection, measure);
    if result.None? {
      return None;
    }
    var newTextLines := result.value.newTextLines;
    var newCursor := result.value.newCursor;
    var lineIndex := IndexOf(newTextLines, newCursor.lineId);
    if lineIndex >= 0 {
      var line := newTextLines[lineIndex];
      var newCharacters := Inserted(line.characters, newCursor.position, CreateCharacter(key, pen));
      newTextLines := newTextLines[lineIndex := line.(characters := newCharacters, cursorPosition := newCursor.position + 1)];
      result := Some(EditResult(newTextLines, newCursor.(position := newCursor.position + 1)));
    }
  }

  // ---------------------------------------------------------------------------------------
  // Formatting

  /** The `Partial<Character>` a formatting callback spreads over characters. */
  datatype FormatPatch = FontSizePatch(fontSize: int) | StylePatch(style: LetterStyle) | ColorPatch(color: string)

  /** `{ ...char, ...formatting }` */
  function Patched(c: Character, p: FormatPatch): Character
  {
    match p
    case FontSizePatch(n) => c.(fontSize := n)
    case StylePatch(st) => c.(style := st)
    case ColorPatch(col) => c.(color := col)
  }

  /** A patch touches one attribute and never the glyph, family, weight or slant. */
  lemma PatchedKeepsGlyph(c: Character, p: FormatPatch)
    ensures Patched(c, p).ch == c.ch && Patched(c, p).fontFamily == c.fontFamily
    ensures Patched(c, p).isBold == c.isBold && Patched(c, p).isItalic == c.isItalic
    ensures p.FontSizePatch? ==> Patched(c, p) == c.(fontSize := p.fontSize)
    ensures p.StylePatch? ==> Patched(c, p) == c.(style := p.style)
    ensures p.ColorPatch? ==> Patched(c, p) == c.(color := p.color)
  {
  }

  /** Characters at indices in [lo, hi) patched; indices past the end are skipped. */
  function PatchedRange(chars: seq<Character>, lo: int, hi: int, p: FormatPatch): seq<Character>
  {
    seq(|chars|, i requires 0 <= i < |chars| => if lo <= i < hi then Patched(chars[i], p) else chars[i])
  }

  /** The formatting loops: `for (i = lo; i < hi; i++) if (chars[i]) chars[i] = {...}`. */
  method PatchRange(chars: seq<Character>, lo: nat, hi: int, p: FormatPatch) returns (newCharacters: seq<Character>)
    ensures newCharacters == PatchedRange(chars, lo, hi, p)
  {
    newCharacters := chars;
    assert newCharacters == PatchedRange(chars, lo, lo, p);
    var i := lo;
    while i < hi
      invariant lo <= i && (i <= hi || i == lo)
      invariant newCharacters == PatchedRange(chars, lo, i, p)
      decreases hi - i
    {
      if i < |newCharacters| {
        newCharacters := newCharacters[i := Patched(newCharacters[i], p)];
      }
      i := i + 1;
    }
    assert PatchedRange(chars, lo, i, p) == PatchedRange(chars, lo, hi, p);
  }

  /** The filter for the lines between a multi-line selection's endpoints: neither endpoint,
      and strictly between their heights. */
  predicate IsMiddle(line: TextLine, s: TextSelection, lowY: int, highY: int)
  {
    line.id != s.startLineId && line.id != s.endLineId && lowY < line.y < highY
  }

  /** The forEach over the middle lines of `snapshot` (its first `n` lines), each written back
      fully patched at the first index that carries its id. */
  function MiddlePatched(snapshot: seq<TextLine>, n: nat, s: TextSelection, lowY: int, highY: int, p: FormatPatch): (r: seq<TextLine>)
    requires n <= |snapshot|
    ensures |r| == |snapshot|
  {
    if n == 0 then snapshot
    else
      var acc := MiddlePatched(snapshot, n - 1, s, lowY, highY, p);
      var line := snapshot[n - 1];
      if IsMiddle(line, s, lowY, highY) then
        var k := IndexOf(acc, line.id);
        if k < 0 then acc
        else acc[k := line.(characters := PatchedRange(line.characters, 0, |line.characters|, p))]
      else acc
  }

  method PatchMiddleLines(snapshot: seq<TextLine>, s: TextSelection, lowY: int, highY: int, p: FormatPatch)
    returns (newTextLines: seq<TextLine>)
    ensures newTextLines == MiddlePatched(snapshot, |snapshot|, s, lowY, highY, p)
  {
    newTextLines := snapshot;
    var j := 0;
    while j < |snapshot|
      invariant j <= |snapshot|
      invariant newTextLines == MiddlePatched(snapshot, j, s, lowY, highY, p)
    {
      var line := snapshot[j];
      if IsMiddle(line, s, lowY, highY) {
        var newCharacters := PatchedRange(line.characters, 0, |line.characters|, p);
        var lineIndex := IndexOf(newTextLines, line.id);
        if lineIndex >= 0 {
          newTextLines := newTextLines[lineIndex := line.(characters := newCharacters)];
        }
      }
      j := j + 1;
    }
  }

  /** A multi-line selection's endpoint lines patched: the start line from its offset on, the
      end line (as it was before) up to its offset. A missing endpoint is skipped. */
  function EndsFormatted(lines: seq<TextLine>, s: TextSelection, p: FormatPatch): (r: seq<TextLine>)
    ensures SameIds(r, lines)
  {
    var si := IndexOf(lines, s.startLineId);
    var ei := IndexOf(lines, s.endLineId);
    var withStart :=
      if si < 0 then lines
      else lines[si := lines[si].(characters := PatchedRange(lines[si].characters, s.startPosition, |lines[si].characters|, p))];
    if ei < 0 then withStart
    else withStart[ei := lines[ei].(characters := PatchedRange(lines[ei].characters, 0, s.endPosition, p))]
  }

  /** `line.y` of a found endpoint, `0` for a missing one (`startLine?.y || 0`). */
  function HeightOr0(lines: seq<TextLine>, id: string): int
  {
    var i := IndexOf(lines, id);
    if i < 0 then 0 else lines[i].y
  }

  /** The lines after `applyFormattingToSelection`. */
  function AfterFormatting(lines: seq<TextLine>, selection: Option<TextSelection>, p: FormatPatch): seq<TextLine>
  {
    if !SelectionActive(selection) then lines
    else
      var s := selection.value;
      if s.startLineId == s.endLineId then
        var li := IndexOf(lines, s.startLineId);
        if li < 0 then lines
        else lines[li := lines[li].(characters := PatchedRange(lines[li].characters, s.startPosition, s.endPosition, p))]
      else
        var withEnds := EndsFormatted(lines, s, p);
        MiddlePatched(withEnds, |withEnds|, s, HeightOr0(lines, s.startLineId), HeightOr0(lines, s.endLineId), p)
  }

  /** `applyFormattingToSelection`'s line computation: the selected range of one line, or the
      start line from its offset, the end line before its offset and the lines between them by
      height. */
  method FormatSelection(textLines: seq<TextLine>, selection: Option<TextSelection>, p: FormatPatch)
    returns (newTextLines: seq<TextLine>)
    ensures newTextLines == AfterFormatting(textLines, selection, p)
  {
    newTextLines := textLines;
    if !SelectionActive(selection) {
      return;
    }
    var s := selection.value;
    if s.startLineId == s.endLineId {
      var lineIndex := IndexOf(newTextLines, s.startLineId);
      if lineIndex >= 0 {
        var line := newTextLines[lineIndex];
        var newCharacters := PatchRange(line.characters, s.startPosition, s.endPosition, p);
        newTextLines := newTextLines[lineIndex := line.(characters := newCharacters)];
      }
      return;
    }
    var startLineIndex := IndexOf(newTextLines, s.startLineId);
    var endLineIndex := IndexOf(newTextLines, s.endLineId);
    if startLineIndex >= 0 {
      var startLine := newTextLines[startLineIndex];
      var newStartCharacters := PatchRange(startLine.characters, s.startPosition, |startLine.characters|, p);
      newTextLines := newTextLines[startLineIndex := startLine.(characters := newStartCharacters)];
    }
    if endLineIndex >= 0 {
      var endLine := textLines[endLineIndex];
      var newEndCharacters := PatchRange(endLine.characters, 0, s.endPosition, p);
      newTextLines := newTextLines[endLineIndex := endLine.(characters := newEndCharacters)];
    }
    var lowY := if startLineIndex < 0 then 0 else textLines[startLineIndex].y;
    var highY := if endLineIndex < 0 then 0 else textLines[endLineIndex].y;
    assert newTextLines == EndsFormatted(textLines, s, p);
    newTextLines := PatchMiddleLines(newTextLines, s, lowY, highY, p);
  }

  // ---------------------------------------------------------------------------------------
  // What the selection operations promise

  /** Each line of `a` is the line of `b` at the same index with at most its characters and
      offset changed: ids, heights, styles and fonts are kept. */
  predicate SameLineFrames(a: seq<TextLine>, b: seq<TextLine>)
  {
    |a| == |b| &&
    forall i :: 0 <= i < |a| ==> a[i] == b[i].(characters := a[i].characters, cursorPosition := a[i].cursorPosition)
  }

  /** Deletion gives nothing back exactly when there is no active selection or one of its
      endpoint lines does not exist; otherwise it keeps every line's frame and leaves the
      visible cursor on the start line, at the start offset. */
  lemma DeleteOutcome(lines: seq<TextLine>, selection: Option<TextSelection>, measure: Measure)
    ensures AfterDeleteSelection(lines, selection, measure).None? <==>
      (!SelectionActive(selection) ||
       IndexOf(lines, selection.value.startLineId) < 0 || IndexOf(lines, selection.value.endLineId) < 0)
    ensures AfterDeleteSelection(lines, selection, measure).Some? ==>
      var r := AfterDeleteSelection(lines, selection, measure).value;
      SameLineFrames(r.newTextLines, lines) &&
      r.newCursor.lineId == selection.value.startLineId &&
      r.newCursor.y == lines[IndexOf(lines, selection.value.startLineId)].y &&
      r.newCursor.position == selection.value.startPosition && r.newCursor.isVisible
  {
    if SelectionActive(selection) {
      var s := selection.value;
      var si := IndexOf(lines, s.startLineId);
      var ei := IndexOf(lines, s.endLineId);
      if si >= 0 && ei >= 0 && s.startLineId != s.endLineId {
        var startLine := lines[si];
        var endLine := lines[ei];
        var withStart := lines[si := startLine.(characters := Truncated(startLine.characters, s.startPosition), cursorPosition := s.startPosition)];
        var withEnds := withStart[ei := endLine.(characters := Removed(endLine.characters, 0, s.endPosition), cursorPosition := 0)];
        SetFrameKept(lines, lines, si, Truncated(startLine.characters, s.startPosition), s.startPosition);
        SetFrameKept(withStart, lines, ei, Removed(endLine.characters, 0, s.endPosition), 0);
        ClearedKeepsFrames(withEnds, lines, si, ei);
      }
    }
  }

  lemma SetFrameKept(a: seq<TextLine>, b: seq<TextLine>, i: nat, chars: seq<Character>, position: nat)
    requires SameLineFrames(a, b) && i < |a|
    ensures SameLineFrames(a[i := b[i].(characters := chars, cursorPosition := position)], b)
  {
  }

  lemma ClearedKeepsFrames(a: seq<TextLine>, b: seq<TextLine>, lo: int, hi: int)
    requires SameLineFrames(a, b)
    ensures SameLineFrames(ClearedBetween(a, lo, hi), b)
  {
  }

  /** On one line, a forward selection inside the line removes exactly the selected characters
      and the caret lands where they began. */
  lemma DeleteOnOneLine(lines: seq<TextLine>, s: TextSelection, measure: Measure)
    requires s.isActive && s.startLineId == s.endLineId
    requires IndexOf(lines, s.startLineId) >= 0
    requires s.startPosition <= s.endPosition <= |lines[IndexOf(lines, s.startLineId)].characters|
    ensures AfterDeleteSelection(lines, Some(s), measure).Some?
    ensures
      var li := IndexOf(lines, s.startLineId);
      var chars := lines[li].characters;
      var r := AfterDeleteSelection(lines, Some(s), measure).value;
      r.newTextLines == lines[li := lines[li].(characters := chars[..s.startPosition] + chars[s.endPosition..],
                                                cursorPosition := s.startPosition)] &&
      r.newCursor.x == XForOffset(chars, s.startPosition, measure)
  {
    var li := IndexOf(lines, s.startLineId);
    var chars := lines[li].characters;
    var removed := Removed(chars, s.startPosition, s.endPosition - s.startPosition);
    assert removed == chars[..s.startPosition] + chars[s.endPosition..];
    assert removed[..Min(s.startPosition, |removed|)] == chars[..Min(s.startPosition, |chars|)];
  }

  /** On one line, a backward selection (end before start) removes nothing: the splice count is
      negative. Only the offsets move. */
  lemma DeleteBackwardKeepsText(lines: seq<TextLine>, s: TextSelection, measure: Measure)
    requires s.isActive && s.startLineId == s.endLineId
    requires IndexOf(lines, s.startLineId) >= 0
    requires s.endPosition < s.startPosition
    ensures AfterDeleteSelection(lines, Some(s), measure).Some?
    ensures
      var li := IndexOf(lines, s.startLineId);
      var r := AfterDeleteSelection(lines, Some(s), measure).value;
      r.newTextLines == lines[li := lines[li].(cursorPosition := s.startPosition)]
  {
    var li := IndexOf(lines, s.startLineId);
    var chars := lines[li].characters;
    assert Removed(chars, s.startPosition, s.endPosition - s.startPosition) == chars;
  }

  /** Across lines: the start line keeps what precedes the start offset, the end line keeps
      what follows the end offset, every line between them in list order is emptied and all
      other lines are untouched. */
  lemma DeleteAcrossLines(lines: seq<TextLine>, s: TextSelection, measure: Measure)
    requires s.isActive && s.startLineId != s.endLineId
    requires IndexOf(lines, s.startLineId) >= 0 && IndexOf(lines, s.endLineId) >= 0
    ensures AfterDeleteSelection(lines, Some(s), measure).Some?
    ensures
      var si := IndexOf(lines, s.startLineId);
      var ei := IndexOf(lines, s.endLineId);
      var r := AfterDeleteSelection(lines, Some(s), measure).value.newTextLines;
      |r| == |lines| &&
      r[si] == lines[si].(characters := lines[si].characters[..Min(s.startPosition, |lines[si].characters|)],
                          cursorPosition := s.startPosition) &&
      r[ei] == lines[ei].(characters := lines[ei].characters[Min(s.endPosition, |lines[ei].characters|)..],
                          cursorPosition := 0) &&
      (forall i :: si < i < ei ==> r[i] == lines[i].(characters := [], cursorPosition := 0)) &&
      (forall i :: 0 <= i < |lines| && i != si && i != ei && !(si < i < ei) ==> r[i] == lines[i])
  {
    var ei := IndexOf(lines, s.endLineId);
    var endChars := lines[ei].characters;
    assert Removed(endChars, 0, s.endPosition) == endChars[Min(s.endPosition, |endChars|)..];
  }

  /** Replacing a selection is deleting it and then typing: it gives nothing back exactly when
      deletion does, and otherwise the typed character stands at the deletion's caret, which
      moves one past it. */
  lemma ReplaceIsDeleteThenInsert(lines: seq<TextLine>, selection: Option<TextSelection>, key: string, pen: Formatting, measure: Measure)
    ensures AfterReplaceSelection(lines, selection, key, pen, measure).None? <==>
            AfterDeleteSelection(lines, selection, measure).None?
    ensures AfterDeleteSelection(lines, selection, measure).Some? ==>
      var d := AfterDeleteSelection(lines, selection, measure).value;
      var r := AfterReplaceSelection(lines, selection, key, pen, measure).value;
      var li := IndexOf(lines, selection.value.startLineId);
      var chars := d.newTextLines[li].characters;
      var at := Min(d.newCursor.position, |chars|);
      r.newCursor == d.newCursor.(position := d.newCursor.position + 1) &&
      r.newTextLines == d.newTextLines[li := d.newTextLines[li].(
        characters := chars[..at] + [CreateCharacter(key, pen)] + chars[at..],
        cursorPosition := d.newCursor.position + 1)]
  {
    var d := AfterDeleteSelection(lines, selection, measure);
    if d.Some? {
      DeleteOutcome(lines, selection, measure);
      IndexOfSameIds(d.value.newTextLines, lines, selection.value.startLineId);
      var li := IndexOf(lines, selection.value.startLineId);
      assert IndexOf(d.value.newTextLines, d.value.newCursor.lineId) == li;
      var chars := d.value.newTextLines[li].characters;
      var at := Min(d.value.newCursor.position, |chars|);
      var r := AfterReplaceSelection(lines, selection, key, pen, measure).value;
      assert r.newCursor == d.value.newCursor.(position := d.value.newCursor.position + 1);
      assert Inserted(chars, d.value.newCursor.position, CreateCharacter(key, pen)) == chars[..at] + [CreateCharacter(key, pen)] + chars[at..];
    }
  }

  /** Typing over a forward selection on one line: the selected characters are replaced by the
      typed one. */
  lemma ReplaceOnOneLine(lines: seq<TextLine>, s: TextSelection, key: string, pen: Formatting, measure: Measure)
    requires s.isActive && s.startLineId == s.endLineId
    requires IndexOf(lines, s.startLineId) >= 0
    requires s.startPosition <= s.endPosition <= |lines[IndexOf(lines, s.startLineId)].characters|
    ensures AfterReplaceSelection(lines, Some(s), key, pen, measure).Some?
    ensures
      var li := IndexOf(lines, s.startLineId);
      var chars := lines[li].characters;
      var r := AfterReplaceSelection(lines, Some(s), key, pen, measure).value;
      r.newTextLines[li].characters == chars[..s.startPosition] + [CreateCharacter(key, pen)] + chars[s.endPosition..] &&
      r.newTextLines[li].cursorPosition == s.startPosition + 1 &&
      r.newCursor.position == s.startPosition + 1 && r.newCursor.lineId == s.startLineId
  {
    var li := IndexOf(lines, s.startLineId);
    var chars := lines[li].characters;
    DeleteOnOneLine(lines, s, measure);
    ReplaceIsDeleteThenInsert(lines, Some(s), key, pen, measure);
    var kept := chars[..s.startPosition] + chars[s.endPosition..];
    assert kept[..s.startPosition] == chars[..s.startPosition];
    assert kept[s.startPosition..] == chars[s.endPosition..];
  }

  /** `b` is `a` restyled by `p`: the same lines with the same frames and the same glyphs, each
      character either kept or patched. */
  predicate Restyled(a: seq<TextLine>, b: seq<TextLine>, p: FormatPatch)
  {
    |a| == |b| &&
    forall i :: 0 <= i < |a| ==>
      b[i] == a[i].(characters := b[i].characters) &&
      |b[i].characters| == |a[i].characters| &&
      forall j :: 0 <= j < |a[i].characters| ==>
        b[i].characters[j] == a[i].characters[j] || b[i].characters[j] == Patched(a[i].characters[j], p)
  }

  lemma RestyledPatchedRange(lines: seq<TextLine>, k: nat, lo: int, hi: int, p: FormatPatch)
    requires k < |lines|
    ensures Restyled(lines, lines[k := lines[k].(characters := PatchedRange(lines[k].characters, lo, hi, p))], p)
  {
  }

  lemma {:induction false} RestyledTransitive(a: seq<TextLine>, b: seq<TextLine>, c: seq<TextLine>, p: FormatPatch)
    requires Restyled(a, b, p) && Restyled(b, c, p)
    ensures Restyled(a, c, p)
  {
    forall i | 0 <= i < |a|
      ensures c[i] == a[i].(characters := c[i].characters)
      ensures |c[i].characters| == |a[i].characters|
      ensures forall j :: 0 <= j < |a[i].characters| ==>
        c[i].characters[j] == a[i].characters[j] || c[i].characters[j] == Patched(a[i].characters[j], p)
    {
      forall j | 0 <= j < |a[i].characters|
        ensures c[i].characters[j] == a[i].characters[j] || c[i].characters[j] == Patched(a[i].characters[j], p)
      {
        var x := a[i].characters[j];
        assert b[i].characters[j] == x || b[i].characters[j] == Patched(x, p);
        PatchedIdempotent(x, p);
      }
    }
  }

  /** Applying the same patch twice is applying it once. */
  lemma PatchedIdempotent(c: Character, p: FormatPatch)
    ensures Patched(Patched(c, p), p) == Patched(c, p)
  {
  }

  /** A line as the middle-line pass leaves it when it is visited at its own index. */
  function MiddleLineAfter(line: TextLine, s: TextSelection, lowY: int, highY: int, p: FormatPatch): TextLine
  {
    if IsMiddle(line, s, lowY, highY)
    then line.(characters := PatchedRange(line.characters, 0, |line.characters|, p))
    else line
  }

  /** The middle-line pass only writes lines back over lines with the same id. */
  lemma {:induction false} MiddlePatchedSameIds(snapshot: seq<TextLine>, n: nat, s: TextSelection, lowY: int, highY: int, p: FormatPatch)
    requires n <= |snapshot|
    ensures SameIds(MiddlePatched(snapshot, n, s, lowY, highY, p), snapshot)
  {
    if n > 0 {
      MiddlePatchedSameIds(snapshot, n - 1, s, lowY, highY, p);
    }
  }

  /** One step of the middle-line pass over unique ids writes the line back at its own index. */
  lemma MiddlePatchedStep(snapshot: seq<TextLine>, n: nat, s: TextSelection, lowY: int, highY: int, p: FormatPatch)
    requires 0 < n <= |snapshot| && IndexOf(snapshot, snapshot[n - 1].id) == n - 1
    requires MiddlePatched(snapshot, n - 1, s, lowY, highY, p)[n - 1] == snapshot[n - 1]
    ensures
      MiddlePatched(snapshot, n, s, lowY, highY, p) ==
        MiddlePatched(snapshot, n - 1, s, lowY, highY, p)[n - 1 := MiddleLineAfter(snapshot[n - 1], s, lowY, highY, p)]
  {
    var acc := MiddlePatched(snapshot, n - 1, s, lowY, highY, p);
    var line := snapshot[n - 1];
    MiddlePatchedSameIds(snapshot, n - 1, s, lowY, highY, p);
    IndexOfSameIds(acc, snapshot, line.id);
    if IsMiddle(line, s, lowY, highY) {
      assert MiddlePatched(snapshot, n, s, lowY, highY, p)
        == acc[n - 1 := line.(characters := PatchedRange(line.characters, 0, |line.characters|, p))];
    } else {
      UpdateWithSame(acc, n - 1);
    }
  }

  lemma UpdateWithSame<T>(a: seq<T>, i: nat)
    requires i < |a|
    ensures a[i := a[i]] == a
  {
  }

  /** After walking the first `n` lines of a list with unique ids, line `i` is patched in full
      when it is a middle line among those `n`, and untouched otherwise. */
  lemma {:induction false} MiddlePatchedAt(snapshot: seq<TextLine>, n: nat, i: nat, s: TextSelection, lowY: int, highY: int, p: FormatPatch)
    requires n <= |snapshot| && i < |snapshot| && UniqueIds(snapshot)
    ensures MiddlePatched(snapshot, n, s, lowY, highY, p)[i]
              == if i < n then MiddleLineAfter(snapshot[i], s, lowY, highY, p) else snapshot[i]
  {
    if n > 0 {
      MiddlePatchedAt(snapshot, n - 1, n - 1, s, lowY, highY, p);
      MiddlePatchedAt(snapshot, n - 1, i, s, lowY, highY, p);
      IndexOfUnique(snapshot, n - 1);
      MiddlePatchedStep(snapshot, n, s, lowY, highY, p);
    }
  }

  /** The middle-line pass over a list with unique ids patches exactly the middle lines of the
      prefix it has walked, each in full and in place. */
  lemma MiddlePatchedUnique(snapshot: seq<TextLine>, n: nat, s: TextSelection, lowY: int, highY: int, p: FormatPatch)
    requires n <= |snapshot| && UniqueIds(snapshot)
    ensures
      var r := MiddlePatched(snapshot, n, s, lowY, highY, p);
      |r| == |snapshot| &&
      forall i :: 0 <= i < |snapshot| ==>
        r[i] == (if i < n then MiddleLineAfter(snapshot[i], s, lowY, highY, p) else snapshot[i])
  {
    forall i | 0 <= i < |snapshot|
      ensures MiddlePatched(snapshot, n, s, lowY, highY, p)[i]
                == if i < n then MiddleLineAfter(snapshot[i], s, lowY, highY, p) else snapshot[i]
    {
      MiddlePatchedAt(snapshot, n, i, s, lowY, highY, p);
    }
  }

  /** Patching the endpoint lines restyles the list. */
  lemma EndsFormattedRestyles(lines: seq<TextLine>, s: TextSelection, p: FormatPatch)
    ensures Restyled(lines, EndsFormatted(lines, s, p), p)
  {
    var si := IndexOf(lines, s.startLineId);
    var ei := IndexOf(lines, s.endLineId);
    var withStart :=
      if si < 0 then lines
      else lines[si := lines[si].(characters := PatchedRange(lines[si].characters, s.startPosition, |lines[si].characters|, p))];
    if si >= 0 {
      RestyledPatchedRange(lines, si, s.startPosition, |lines[si].characters|, p);
    } else {
      RestyledReflexive(lines, p);
    }
    if ei >= 0 {
      assert withStart[ei].characters == lines[ei].characters || ei == si;
      RestyledPatchedRange(withStart, ei, 0, s.endPosition, p);
      var withEnds := withStart[ei := lines[ei].(characters := PatchedRange(lines[ei].characters, 0, s.endPosition, p))];
      assert withEnds == EndsFormatted(lines, s, p);
      if ei == si {
        RestyledPatchedRange(lines, ei, 0, s.endPosition, p);
        assert withEnds == lines[ei := lines[ei].(characters := PatchedRange(lines[ei].characters, 0, s.endPosition, p))];
      } else {
        assert withStart[ei] == lines[ei];
        RestyledTransitive(lines, withStart, withEnds, p);
      }
    }
  }

  /** The middle-line pass restyles a list with unique ids. */
  lemma MiddlePatchedRestyles(snapshot: seq<TextLine>, s: TextSelection, lowY: int, highY: int, p: FormatPatch)
    requires UniqueIds(snapshot)
    ensures Restyled(snapshot, MiddlePatched(snapshot, |snapshot|, s, lowY, highY, p), p)
  {
    MiddlePatchedUnique(snapshot, |snapshot|, s, lowY, highY, p);
  }

  /** Formatting never changes text, ids, heights or offsets; with no active selection it
      changes nothing at all. */
  lemma FormattingKeepsText(lines: seq<TextLine>, selection: Option<TextSelection>, p: FormatPatch)
    requires UniqueIds(lines)
    ensures Restyled(lines, AfterFormatting(lines, selection, p), p)
    ensures !SelectionActive(selection) ==> AfterFormatting(lines, selection, p) == lines
  {
    if !SelectionActive(selection) {
      RestyledReflexive(lines, p);
    } else {
      var s := selection.value;
      if s.startLineId == s.endLineId {
        var li := IndexOf(lines, s.startLineId);
        if li >= 0 {
          RestyledPatchedRange(lines, li, s.startPosition, s.endPosition, p);
        } else {
          RestyledReflexive(lines, p);
        }
      } else {
        var withEnds := EndsFormatted(lines, s, p);
        EndsFormattedRestyles(lines, s, p);
        assert UniqueIds(withEnds);
        MiddlePatchedRestyles(withEnds, s, HeightOr0(lines, s.startLineId), HeightOr0(lines, s.endLineId), p);
        RestyledTransitive(lines, withEnds, AfterFormatting(lines, selection, p), p);
      }
    }
  }

  lemma RestyledReflexive(lines: seq<TextLine>, p: FormatPatch)
    ensures Restyled(lines, lines, p)
  {
  }

  /** On one line, exactly the characters at offsets in [start, end) take the patch. */
  lemma FormatOneLine(lines: seq<TextLine>, s: TextSelection, p: FormatPatch)
    requires s.isActive && s.startLineId == s.endLineId
    requires IndexOf(lines, s.startLineId) >= 0
    ensures
      var li := IndexOf(lines, s.startLineId);
      var r := AfterFormatting(lines, Some(s), p);
      |r| == |lines| &&
      (forall i :: 0 <= i < |lines| && i != li ==> r[i] == lines[i]) &&
      |r[li].characters| == |lines[li].characters| &&
      forall j :: 0 <= j < |lines[li].characters| ==>
        r[li].characters[j] == (if s.startPosition <= j < s.endPosition then Patched(lines[li].characters[j], p)
                                else lines[li].characters[j])
  {
  }

  /** Across lines (ids unique): the start line from its offset on, the end line before its
      offset, and every other line lying strictly between the two endpoint lines' heights take
      the patch in full; nothing else changes. */
  lemma FormatAcrossLines(lines: seq<TextLine>, s: TextSelection, p: FormatPatch)
    requires UniqueIds(lines)
    requires s.isActive && s.startLineId != s.endLineId
    requires IndexOf(lines, s.startLineId) >= 0 && IndexOf(lines, s.endLineId) >= 0
    ensures
      var si := IndexOf(lines, s.startLineId);
      var ei := IndexOf(lines, s.endLineId);
      var r := AfterFormatting(lines, Some(s), p);
      |r| == |lines| &&
      r[si] == lines[si].(characters := PatchedRange(lines[si].characters, s.startPosition, |lines[si].characters|, p)) &&
      r[ei] == lines[ei].(characters := PatchedRange(lines[ei].characters, 0, s.endPosition, p)) &&
      forall i :: 0 <= i < |lines| && i != si && i != ei ==>
        r[i] == (if lines[si].y < lines[i].y < lines[ei].y
                 then lines[i].(characters := PatchedRange(lines[i].characters, 0, |lines[i].characters|, p))
                 else lines[i])
  {
    var si := IndexOf(lines, s.startLineId);
    var ei := IndexOf(lines, s.endLineId);
    var withEnds := EndsFormatted(lines, s, p);
    assert withEnds ==
      lines[si := lines[si].(characters := PatchedRange(lines[si].characters, s.startPosition, |lines[si].characters|, p))]
           [ei := lines[ei].(characters := PatchedRange(lines[ei].characters, 0, s.endPosition, p))];
    assert UniqueIds(withEnds);
    MiddlePatchedUnique(withEnds, |withEnds|, s, lines[si].y, lines[ei].y, p);
    var r := AfterFormatting(lines, Some(s), p);
    assert r == MiddlePatched(withEnds, |withEnds|, s, lines[si].y, lines[ei].y, p);
    assert !IsMiddle(withEnds[si], s, lines[si].y, lines[ei].y);
    assert !IsMiddle(withEnds[ei], s, lines[si].y, lines[ei].y);
    forall i | 0 <= i < |lines| && i != si && i != ei
      ensures r[i] == (if lines[si].y < lines[i].y < lines[ei].y
                       then lines[i].(characters := PatchedRange(lines[i].characters, 0, |lines[i].characters|, p))
                       else lines[i])
    {
      assert withEnds[i] == lines[i];
      assert lines[i].id != s.startLineId && lines[i].id != s.endLineId;
    }
  }
}
