/** Lookups and whole-list updates over the line list (`find`, `findIndex`, `map`). */
module Lines {
  import opened CanvasTypes
  import opened LineIds

  /** `findIndex(line => line.id === id)`: the first line with that id, or -1; `find` is the
      line at this index. */
  function IndexOf(lines: seq<TextLine>, id: string): (r: int)
    ensures -1 <= r < |lines|
    ensures r >= 0 ==> lines[r].id == id
  {
    if |lines| == 0 then -1
    else if lines[0].id == id then 0
    else
      var r := IndexOf(lines[1..], id);
      if r < 0 then -1 else r + 1
  }

  /** The index found is the first line carrying the id, and -1 means no line carries it. */
  lemma {:induction false} IndexOfFirst(lines: seq<TextLine>, id: string)
    ensures IndexOf(lines, id) >= 0 ==> forall j :: 0 <= j < IndexOf(lines, id) ==> lines[j].id != id
    ensures IndexOf(lines, id) < 0 ==> forall j :: 0 <= j < |lines| ==> lines[j].id != id
  {
    if |lines| > 0 && lines[0].id != id {
      IndexOfFirst(lines[1..], id);
      assert forall j :: 1 <= j < |lines| ==> lines[j] == lines[1..][j - 1];
    }
  }

  predicate UniqueIds(lines: seq<TextLine>)
  {
    forall i, j :: 0 <= i < j < |lines| ==> lines[i].id != lines[j].id
  }

  /** Two line lists that agree on every position's id. */
  predicate SameIds(a: seq<TextLine>, b: seq<TextLine>)
  {
    |a| == |b| && forall i :: 0 <= i < |a| ==> a[i].id == b[i].id
  }

  lemma IndexOfSameIds(a: seq<TextLine>, b: seq<TextLine>, id: string)
    requires SameIds(a, b)
    ensures IndexOf(a, id) == IndexOf(b, id)
  {
    var i, j := IndexOf(a, id), IndexOf(b, id);
    IndexOfFirst(a, id);
    IndexOfFirst(b, id);
    if i >= 0 && j >= 0 {
      assert !(i < j) && !(j < i);
    }
  }

  lemma IndexOfUnique(lines: seq<TextLine>, k: nat)
    requires UniqueIds(lines) && k < |lines|
    ensures IndexOf(lines, lines[k].id) == k
  {
    IndexOfFirst(lines, lines[k].id);
  }

  /** `createCharacter`: the typed key under the current pen, in the handwriting font. */
  function CreateCharacter(key: string, pen: Formatting): Character
  {
    Character(key, pen.style, pen.fontSize, HANDWRITING_FONT, pen.color, false, false)
  }

  /** JavaScript's `length` of a string: its UTF-16 code units, two for a character above U+FFFF. */
  function Utf16Length(s: string): (n: nat)
    ensures n >= |s|
  {
    if s == [] then 0 else (if s[0] as int >= 0x1_0000 then 2 else 1) + Utf16Length(s[1..])
  }

  /** `e.key.length === 1` holds exactly for one character of the Basic Multilingual Plane. */
  lemma SingleUnitKey(key: string)
    ensures Utf16Length(key) == 1 <==> |key| == 1 && key[0] as int < 0x1_0000
  {
    if |key| >= 2 {
      assert Utf16Length(key) >= (if key[0] as int >= 0x1_0000 then 2 else 1) + |key[1..]|;
    }
  }

  /** A line created by a click on an empty slot. */
  function NewLine(id: string, y: int, letterStyle: LetterStyle, fontSize: int): TextLine
  {
    TextLine(id, y, [], 0, true, letterStyle, fontSize, HANDWRITING_FONT)
  }

  /** The keydown commit: every line with the cursor's id gets the new characters and offset. */
  function WithLineContent(lines: seq<TextLine>, id: string, chars: seq<Character>, position: nat): (r: seq<TextLine>)
  {
    seq(|lines|, i requires 0 <= i < |lines| =>
      if lines[i].id == id then lines[i].(characters := chars, cursorPosition := position) else lines[i])
  }

  /** Clicking an existing line: it becomes the only active one. */
  function ActivatedOnly(lines: seq<TextLine>, id: string): (r: seq<TextLine>)
  {
    seq(|lines|, i requires 0 <= i < |lines| => lines[i].(isActive := lines[i].id == id))
  }

  /** `120 + parseInt(id.split('_')[1]) * spacing`; an id without an index (NaN in the source)
      keeps its y here. */
  function ReprojectedY(id: string, y: int, spacing: int): int
  {
    match ParseLineIndex(id)
    case Some(k) => START_Y + k * spacing
    case None => y
  }

  /** Every line's y recomputed from the index in its id. */
  function Respaced(lines: seq<TextLine>, spacing: int): (r: seq<TextLine>)
  {
    seq(|lines|, i requires 0 <= i < |lines| =>
      lines[i].(y := ReprojectedY(lines[i].id, lines[i].y, spacing)))
  }
}
