/** The editor's value types (client/src/model/types.ts) and the page constants of the canvas. */
module CanvasTypes {

  datatype Option<+T> = None | Some(value: T)

  datatype LetterStyle = Solid | Dashed | Dotted

  /** One typed glyph with its own formatting; an edit replaces it wholesale. */
  datatype Character = Character(
    ch: string,  // the source field `char`
    style: LetterStyle,
    fontSize: int,
    fontFamily: string,
    color: string,
    isBold: bool,
    isItalic: bool)

  /** One ruled line that has received a click; `id` is "line_<k>" for its grid slot k. */
  datatype TextLine = TextLine(
    id: string,
    y: int,
    characters: seq<Character>,
    cursorPosition: nat,
    isActive: bool,
    lineStyle: LetterStyle,
    lineFontSize: int,
    lineFontFamily: string)

  /** The caret: `x` and `y` are the last painted pixel position, `position` an offset into the line. */
  datatype Cursor = Cursor(x: int, y: int, lineId: string, position: nat, isVisible: bool)

  /** A range from (startLineId, startPosition) to (endLineId, endPosition), in gesture order. */
  datatype TextSelection = TextSelection(
    startLineId: string,
    endLineId: string,
    startPosition: nat,
    endPosition: nat,
    isActive: bool)

  /** The pen applied to newly typed characters. */
  datatype Formatting = Formatting(style: LetterStyle, fontSize: int, color: string)

  /** Rendered width of a character under its own font size and family (ctx.measureText). */
  type Measure = Character -> nat

  const START_Y: int := 120
  const A4_HEIGHT: int := 1123
  const MARGIN_LEFT: int := 40
  const HANDWRITING_FONT: string := "Kalam, cursive"
  const DEFAULT_FONT_SIZE: int := 16
  const DEFAULT_COLOR: string := "#000000"
}
