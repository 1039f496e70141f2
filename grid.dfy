/** The ruled-line grid (`writingLines`) and the slot lookup for a click (`findLineByY`). */
module LineGrid {
  import opened CanvasTypes
  import opened LineIds

  /** Slots are laid out while y stays above the page's bottom band. */
  const GRID_BOTTOM: int := A4_HEIGHT - 50

  datatype Slot = Slot(y: int, id: string)

  /** The slots the loop produces from slot `k` at height `y` on. */
  function SlotsFrom(k: nat, y: int, spacing: int): seq<Slot>
    requires spacing > 0
    decreases GRID_BOTTOM - y
  {
    if y < GRID_BOTTOM then [Slot(y, LineId(k))] + SlotsFrom(k + 1, y + spacing, spacing) else []
  }

  /** All ruled slots for a line spacing. */
  function Grid(spacing: int): seq<Slot>
    requires spacing > 0
  {
    SlotsFrom(0, START_Y, spacing)
  }

  /** `writingLines`: push {y, id} and step down by the spacing while y < 1073. */
  method WritingLines(lineSpacing: int) returns (lines: seq<Slot>)
    requires lineSpacing > 0
    ensures lines == Grid(lineSpacing)
  {
    lines := [];
    var currentY := START_Y;
    var lineId := 0;
    while currentY < GRID_BOTTOM
      invariant lines + SlotsFrom(lineId, currentY, lineSpacing) == Grid(lineSpacing)
      decreases GRID_BOTTOM - currentY
    {
      lines := lines + [Slot(currentY, LineId(lineId))];
      currentY := currentY + lineSpacing;
      lineId := lineId + 1;
    }
  }

  lemma {:induction false} SlotsFromAt(k: nat, y: int, spacing: int, j: nat)
    requires spacing > 0
    ensures j < |SlotsFrom(k, y, spacing)| <==> y + j * spacing < GRID_BOTTOM
    ensures j < |SlotsFrom(k, y, spacing)| ==>
              SlotsFrom(k, y, spacing)[j] == Slot(y + j * spacing, LineId(k + j))
    decreases j
  {
    if j > 0 {
      SlotsFromAt(k + 1, y + spacing, spacing, j - 1);
      assert (y + spacing) + (j - 1) * spacing == y + j * spacing;
      if y >= GRID_BOTTOM {
        assert j * spacing >= 0;
      }
    }
  }

  /** Slot k of the grid is "line_<k>" at 120 + k * spacing, and it exists exactly when that
      height is above 1073. */
  lemma GridSlot(spacing: int, k: nat)
    requires spacing > 0
    ensures k < |Grid(spacing)| <==> START_Y + k * spacing < GRID_BOTTOM
    ensures k < |Grid(spacing)| ==> Grid(spacing)[k] == Slot(START_Y + k * spacing, LineId(k))
  {
    SlotsFromAt(0, START_Y, spacing, k);
  }

  lemma {:induction false} SlotsFromAbove(k: nat, y: int, spacing: int, j: nat)
    requires spacing > 0
    requires j < |SlotsFrom(k, y, spacing)|
    ensures SlotsFrom(k, y, spacing)[j].y >= y
    decreases j
  {
    if j > 0 {
      SlotsFromAbove(k + 1, y + spacing, spacing, j - 1);
    }
  }

  lemma {:induction false} SlotsFromGap(k: nat, y: int, spacing: int, i: nat, j: nat)
    requires spacing > 0
    requires i < j < |SlotsFrom(k, y, spacing)|
    ensures SlotsFrom(k, y, spacing)[i].y + spacing <= SlotsFrom(k, y, spacing)[j].y
    decreases i
  {
    if i == 0 {
      SlotsFromAbove(k + 1, y + spacing, spacing, j - 1);
    } else {
      SlotsFromGap(k + 1, y + spacing, spacing, i - 1, j - 1);
    }
  }

  lemma {:induction false} SlotsFromBelowBottom(k: nat, y: int, spacing: int, j: nat)
    requires spacing > 0
    requires j < |SlotsFrom(k, y, spacing)|
    ensures SlotsFrom(k, y, spacing)[j].y < GRID_BOTTOM
    decreases j
  {
    if j > 0 {
      SlotsFromBelowBottom(k + 1, y + spacing, spacing, j - 1);
    }
  }

  /** The grid is strictly increasing in y, by at least the spacing, and stays above 1073. */
  lemma GridIncreasing(spacing: int)
    requires spacing > 0
    ensures forall i, j :: 0 <= i < j < |Grid(spacing)| ==>
              Grid(spacing)[i].y + spacing <= Grid(spacing)[j].y
    ensures forall i :: 0 <= i < |Grid(spacing)| ==> START_Y <= Grid(spacing)[i].y < GRID_BOTTOM
  {
    forall i, j | 0 <= i < j < |Grid(spacing)|
      ensures Grid(spacing)[i].y + spacing <= Grid(spacing)[j].y
    {
      SlotsFromGap(0, START_Y, spacing, i, j);
    }
    forall i | 0 <= i < |Grid(spacing)|
      ensures START_Y <= Grid(spacing)[i].y < GRID_BOTTOM
    {
      SlotsFromAbove(0, START_Y, spacing, i);
      SlotsFromBelowBottom(0, START_Y, spacing, i);
    }
  }

  function Abs(n: int): nat { if n < 0 then -n else n }

  /** `Math.abs(y - slotY) < lineSpacing / 2`, in integers. */
  predicate Near(slotY: int, y: int, spacing: int)
  {
    2 * Abs(y - slotY) < spacing
  }

  /** Index of the first slot within half a spacing of `y`, or -1. */
  function FirstNearIndex(slots: seq<Slot>, y: int, spacing: int): (r: int)
    ensures -1 <= r < |slots|
    ensures r >= 0 ==> Near(slots[r].y, y, spacing)
                       && forall j :: 0 <= j < r ==> !Near(slots[j].y, y, spacing)
    ensures r < 0 ==> forall j :: 0 <= j < |slots| ==> !Near(slots[j].y, y, spacing)
  {
    if |slots| == 0 then -1
    else if Near(slots[0].y, y, spacing) then 0
    else
      var r := FirstNearIndex(slots[1..], y, spacing);
      if r < 0 then -1 else r + 1
  }

  /** `writingLines.find(...) || null`: the first slot within half a spacing of `y`. */
  function FindLineByY(slots: seq<Slot>, y: int, spacing: int): (r: Option<Slot>)
    ensures r.None? <==> forall i :: 0 <= i < |slots| ==> !Near(slots[i].y, y, spacing)
    ensures r.Some? ==> r.value in slots && Near(r.value.y, y, spacing)
  {
    var i := FirstNearIndex(slots, y, spacing);
    if i < 0 then None else Some(slots[i])
  }

  /** On the grid at most one slot is near a given y, so the lookup returns slot k exactly when
      y lies within half a spacing of slot k. */
  lemma FindLineByYOnGrid(spacing: int, y: int, k: nat)
    requires spacing > 0
    requires k < |Grid(spacing)|
    ensures (FindLineByY(Grid(spacing), y, spacing) == Some(Grid(spacing)[k]))
              <==> Near(Grid(spacing)[k].y, y, spacing)
  {
    var g := Grid(spacing);
    if Near(g[k].y, y, spacing) {
      var i := FirstNearIndex(g, y, spacing);
      GridIncreasing(spacing);
      assert i == k;
    }
  }

  /** A slot of the grid carries the id of its index, and its height is recomputed from that
      index; this is what lets a spacing change re-project lines by parsing their ids. */
  lemma SlotOfGrid(spacing: int, s: Slot)
    requires spacing > 0
    requires s in Grid(spacing)
    ensures ParseLineIndex(s.id).Some?
    ensures s.id == LineId(ParseLineIndex(s.id).value)
    ensures s.y == START_Y + ParseLineIndex(s.id).value * spacing
  {
    var g := Grid(spacing);
    var k :| 0 <= k < |g| && g[k] == s;
    GridSlot(spacing, k);
    ParseLineIndexOfLineId(k);
  }
}
