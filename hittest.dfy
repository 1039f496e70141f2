/** Coordinate <-> offset mapping on one line: the caret-x loops and `calculateCursorPosition`. */
module HitTest {
  import opened CanvasTypes
  import opened Splice

  /** Total width of `chars`, each measured under its own font. */
  function WidthSum(chars: seq<Character>, measure: Measure): nat
  {
    if chars == [] then 0 else WidthSum(chars[..|chars| - 1], measure) + measure(chars[|chars| - 1])
  }

  /** Caret x of an offset: the left margin plus the widths of the characters before it
      (offsets past the end stop at the end, as `i < position && i < length` does). */
  function XForOffset(chars: seq<Character>, offset: nat, measure: Measure): int
  {
    MARGIN_LEFT + WidthSum(chars[..Min(offset, |chars|)], measure)
  }

  predicate PositiveWidths(chars: seq<Character>, measure: Measure)
  {
    forall i :: 0 <= i < |chars| ==> measure(chars[i]) > 0
  }

  lemma WidthStep(chars: seq<Character>, i: nat, measure: Measure)
    requires i < |chars|
    ensures WidthSum(chars[..i + 1], measure) == WidthSum(chars[..i], measure) + measure(chars[i])
  {
    assert chars[..i + 1][..i] == chars[..i];
  }

  /** The caret-x loops (drawCursor, the keydown commit, deleteSelection): add the width of
      each character before `position`. */
  method MeasureCaretX(chars: seq<Character>, position: nat, measure: Measure) returns (cursorX: int)
    ensures cursorX == XForOffset(chars, position, measure)
  {
    cursorX := MARGIN_LEFT;
    var i := 0;
    while i < position && i < |chars|
      invariant 0 <= i <= Min(position, |chars|)
      invariant cursorX == MARGIN_LEFT + WidthSum(chars[..i], measure)
    {
      WidthStep(chars, i, measure);
      cursorX := cursorX + measure(chars[i]);
      i := i + 1;
    }
  }

  /** Caret x grows with the offset, strictly when every width is positive. */
  lemma {:induction false} XForOffsetMonotone(chars: seq<Character>, a: nat, b: nat, measure: Measure)
    requires a <= b <= |chars|
    ensures XForOffset(chars, a, measure) <= XForOffset(chars, b, measure)
    ensures a < b && PositiveWidths(chars, measure) ==>
              XForOffset(chars, a, measure) < XForOffset(chars, b, measure)
    decreases b - a
  {
    if a < b {
      XForOffsetMonotone(chars, a, b - 1, measure);
      WidthStep(chars, b - 1, measure);
    }
  }

  /** The hit-test loop from character `i` on, with `currentX` the left edge of character `i`. */
  function HitFrom(x: int, chars: seq<Character>, i: nat, currentX: int, measure: Measure): (r: nat)
    requires i <= |chars|
    ensures i <= r <= |chars|
    decreases |chars| - i
  {
    if i == |chars| then |chars|
    else
      var w := measure(chars[i]);
      if currentX <= x <= currentX + w then
        if 2 * (x - currentX) > w then i + 1 else i
      else HitFrom(x, chars, i + 1, currentX + w, measure)
  }

  /** The offset a click at `x` lands on. */
  function OffsetForX(x: int, chars: seq<Character>, measure: Measure): nat
  {
    HitFrom(x, chars, 0, MARGIN_LEFT, measure)
  }

  /** `calculateCursorPosition`: walk the characters; the first whose span holds `x` decides
      between its own index and the next by which half `x` falls in; otherwise the end. */
  method CalculateCursorPosition(x: int, line: TextLine, measure: Measure) returns (position: nat)
    ensures position <= |line.characters|
    ensures position == OffsetForX(x, line.characters, measure)
  {
    var chars := line.characters;
    var currentX := MARGIN_LEFT;
    position := 0;
    var i := 0;
    while i < |chars|
      invariant 0 <= i <= |chars|
      invariant position == i
      invariant HitFrom(x, chars, i, currentX, measure) == OffsetForX(x, chars, measure)
    {
      var charWidth := measure(chars[i]);
      if currentX <= x <= currentX + charWidth {
        var relativeX := x - currentX;
        if 2 * relativeX > charWidth {
          position := i + 1;
        } else {
          position := i;
        }
        break;
      }
      currentX := currentX + charWidth;
      position := i + 1;
      i := i + 1;
    }
    position := Min(position, |chars|);
  }

  /** A click left of the margin is in no character's span, so it lands at the end of the line. */
  lemma {:induction false} HitFromLeftOfStart(x: int, chars: seq<Character>, i: nat, currentX: int, measure: Measure)
    requires i <= |chars| && x < currentX
    ensures HitFrom(x, chars, i, currentX, measure) == |chars|
    decreases |chars| - i
  {
    if i < |chars| {
      HitFromLeftOfStart(x, chars, i + 1, currentX + measure(chars[i]), measure);
    }
  }

  lemma OffsetLeftOfMargin(x: int, chars: seq<Character>, measure: Measure)
    requires x < MARGIN_LEFT
    ensures OffsetForX(x, chars, measure) == |chars|
  {
    HitFromLeftOfStart(x, chars, 0, MARGIN_LEFT, measure);
  }

  lemma {:induction false} HitFromPastEnd(x: int, chars: seq<Character>, i: nat, measure: Measure)
    requires i <= |chars|
    requires x > XForOffset(chars, |chars|, measure)
    ensures HitFrom(x, chars, i, XForOffset(chars, i, measure), measure) == |chars|
    decreases |chars| - i
  {
    if i < |chars| {
      WidthStep(chars, i, measure);
      XForOffsetMonotone(chars, i + 1, |chars|, measure);
      HitFromPastEnd(x, chars, i + 1, measure);
    }
  }

  /** A click right of the last character lands at the end of the line. */
  lemma OffsetPastEnd(x: int, chars: seq<Character>, measure: Measure)
    requires x > XForOffset(chars, |chars|, measure)
    ensures OffsetForX(x, chars, measure) == |chars|
  {
    HitFromPastEnd(x, chars, 0, measure);
  }

  lemma {:induction false} HitFromInSpan(x: int, chars: seq<Character>, j: nat, i: nat, measure: Measure)
    requires PositiveWidths(chars, measure)
    requires j <= i < |chars|
    requires XForOffset(chars, i, measure) <= x <= XForOffset(chars, i + 1, measure)
    ensures HitFrom(x, chars, j, XForOffset(chars, j, measure), measure)
              == if 2 * (x - XForOffset(chars, i, measure)) > measure(chars[i]) then i + 1 else i
    decreases i - j
  {
    WidthStep(chars, j, measure);
    if j < i {
      XForOffsetMonotone(chars, j + 1, i, measure);
      if j + 1 < i || x != XForOffset(chars, i, measure) {
        HitFromInSpan(x, chars, j + 1, i, measure);
      }
    }
  }

  /** With positive widths, a click inside the span of character i lands on i or i + 1 by
      which half of the glyph it hits. */
  lemma OffsetInSpan(x: int, chars: seq<Character>, i: nat, measure: Measure)
    requires PositiveWidths(chars, measure)
    requires i < |chars|
    requires XForOffset(chars, i, measure) <= x <= XForOffset(chars, i + 1, measure)
    ensures OffsetForX(x, chars, measure)
              == if 2 * (x - XForOffset(chars, i, measure)) > measure(chars[i]) then i + 1 else i
  {
    HitFromInSpan(x, chars, 0, i, measure);
  }

  /** Hit-testing the caret x of an offset gives the offset back. */
  lemma OffsetOfCaretX(chars: seq<Character>, o: nat, measure: Measure)
    requires PositiveWidths(chars, measure)
    requires o <= |chars|
    ensures OffsetForX(XForOffset(chars, o, measure), chars, measure) == o
  {
    var x := XForOffset(chars, o, measure);
    if o < |chars| {
      XForOffsetMonotone(chars, o, o + 1, measure);
      OffsetInSpan(x, chars, o, measure);
    } else if |chars| > 0 {
      var i := |chars| - 1;
      XForOffsetMonotone(chars, i, i + 1, measure);
      WidthStep(chars, i, measure);
      OffsetInSpan(x, chars, i, measure);
    }
  }
}
