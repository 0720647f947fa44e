/** What the screen is asked to do, and what each request makes of the cells, stated on values. */
module ScreenSpec {
  import opened Grid

  datatype Rect = Rect(startRow: int, endRow: int, startCol: int, endCol: int) {
    predicate Contains(row: int, col: int) {
      startRow <= row < endRow && startCol <= col < endCol
    }

    predicate HasRow(row: int) { startRow <= row < endRow }

    predicate Within(rows: nat, cols: nat) {
      0 <= startRow <= endRow <= rows && 0 <= startCol <= endCol <= cols
    }

    /** On rows and columns of the screen, though perhaps with no column in it. */
    predicate Near(rows: nat, cols: nat) {
      0 <= startRow <= endRow <= rows && 0 <= startCol <= cols && 0 <= endCol <= cols
    }

    /** No column: a double-width line may leave a rectangle none. */
    predicate Idle() { endCol <= startCol }
  }

  /** The requests that the terminal state makes of the screen, with the line flags in force.
      Turning to the alternate screen erases it. */
  datatype Op =
    | PutGlyph(chars: seq<nat>, width: nat, row: nat, col: nat, isProtected: bool, line: LineInfo)
    | Erase(rect: Rect, selective: bool, info: seq<LineInfo>)
    | Scroll(rect: Rect, downward: int, rightward: int, info: seq<LineInfo>)
    | SetLine(row: nat, line: LineInfo, was: LineInfo)
    | SetPen(pen: Pen)
    | SetReverse(on: bool)
    | SetAlt(on: bool, info: seq<LineInfo>)
    | ClearHistory

  datatype Display = Display(primary: seq<Row>, alt: seq<Row>, onAlt: bool, reverse: bool, pen: Pen) {
    function Active(): seq<Row> { if onAlt then alt else primary }

    function With(rows: seq<Row>): Display {
      if onAlt then this.(alt := rows) else this.(primary := rows)
    }
  }

  const PLAIN_COLOR := Indexed(true, true, 0)

  /** An erased cell keeps the pen's colours and is on a line of its row's kind. */
  function Erased(pen: Pen, line: LineInfo): Cell {
    Cell(Blank, ScreenPen(Pen(pen.fg, pen.bg, false, 0, false, false, false, false, false, 0, false, 0), false,
                          line.doublewidth, line.doubleheight))
  }

  function GlyphCell(op: Op, pen: Pen): Cell
    requires op.PutGlyph?
  {
    Cell(Glyph(if |op.chars| > MAX_CHARS then op.chars[..MAX_CHARS] else op.chars),
         ScreenPen(pen, op.isProtected, op.line.doublewidth, op.line.doubleheight))
  }

  function Glyphed(row: Row, op: Op, width: int, pen: Pen): (r: Row)
    requires op.PutGlyph? && op.col < |row|
    ensures |r| == |row|
  {
    seq(|row|, i requires 0 <= i < |row| =>
      if i == op.col then GlyphCell(op, pen)
      else if op.col < i < op.col + width then row[i].(text := Gap)
      else row[i])
  }

  function ErasedRow(row: Row, startCol: int, endCol: int, selective: bool, blank: Cell): (r: Row)
    ensures |r| == |row|
  {
    seq(|row|, i requires 0 <= i < |row| =>
      if startCol <= i < endCol && !(selective && row[i].pen.isProtected) then blank else row[i])
  }

  function ErasedRows(rows: seq<Row>, rect: Rect, selective: bool, blanks: seq<Cell>): (r: seq<Row>)
    requires |blanks| == |rows|
    ensures |r| == |rows|
  {
    seq(|rows|, i requires 0 <= i < |rows| =>
      if rect.HasRow(i) then ErasedRow(rows[i], rect.startCol, rect.endCol, selective, blanks[i]) else rows[i])
  }

  function Blanks(pen: Pen, info: seq<LineInfo>): (r: seq<Cell>)
    ensures |r| == |info|
  {
    seq(|info|, i requires 0 <= i < |info| => Erased(pen, info[i]))
  }

  /** The cells of the rectangle all shift at once; what moves in from outside is blank. */
  function Shifted(rows: seq<Row>, cols: nat, rect: Rect, downward: int, rightward: int, blanks: seq<Cell>): (r: seq<Row>)
    requires Rectangular(rows, cols) && |blanks| == |rows| && rect.Within(|rows|, cols)
    ensures |r| == |rows| && Rectangular(r, cols)
  {
    seq(|rows|, i requires 0 <= i < |rows| => seq(cols, j requires 0 <= j < cols =>
      if !rect.Contains(i, j) then rows[i][j]
      else if rect.Contains(i + downward, j + rightward) then rows[i + downward][j + rightward]
      else blanks[i]))
  }

  function MarkedCell(cell: Cell, line: LineInfo): Cell {
    cell.(pen := cell.pen.(dwl := line.doublewidth, dhl := line.doubleheight))
  }

  function MarkedLine(row: Row, line: LineInfo, count: nat): (r: Row)
    ensures |r| == |row|
  {
    seq(|row|, i requires 0 <= i < |row| => if i < count then MarkedCell(row[i], line) else row[i])
  }

  /** A row whose line becomes of another kind; the right half of a double-width line is erased. */
  function Lined(row: Row, line: LineInfo, was: LineInfo, pen: Pen): (r: Row)
    ensures |r| == |row|
  {
    if line.doublewidth == was.doublewidth && line.doubleheight == was.doubleheight then row
    else if line.doublewidth then ErasedRow(MarkedLine(row, line, |row|), |row| / 2, |row|, false, Erased(pen, was))
    else MarkedLine(row, line, |row|)
  }

  /** A request within the screen. */
  predicate Fits(op: Op, rows: nat, cols: nat) {
    match op
    case PutGlyph(chars, width, row, col, _, _) => chars != [] && row < rows && col < cols && col + width <= cols
    case Erase(rect, _, info) => rect.Near(rows, cols) && |info| == rows
    case Scroll(rect, downward, rightward, info) =>
      rect.Near(rows, cols) && |info| == rows && (rect.Idle() || (downward == 0) != (rightward == 0))
    case SetLine(row, _, _) => row < rows
    case SetAlt(_, info) => |info| == rows
    case _ => true
  }

  /** The request's rectangle, if it has one, has rows. */
  predicate HasRows(op: Op) {
    match op
    case Erase(rect, _, _) => rect.startRow < rect.endRow
    case Scroll(rect, _, _, _) => rect.startRow < rect.endRow
    case _ => true
  }

  predicate ValidDisplay(d: Display, rows: nat, cols: nat) {
    |d.primary| == |d.alt| == rows && Rectangular(d.primary, cols) && Rectangular(d.alt, cols)
  }

  function Apply(d: Display, op: Op, rows: nat, cols: nat): (r: Display)
    requires ValidDisplay(d, rows, cols) && Fits(op, rows, cols)
    ensures ValidDisplay(r, rows, cols)
  {
    var now := d.Active();
    match op
    case PutGlyph(_, _, row, _, _, _) => d.With(now[row := Glyphed(now[row], op, op.width, d.pen)])
    case Erase(rect, selective, info) => d.With(ErasedRows(now, rect, selective, Blanks(d.pen, info)))
    case Scroll(rect, downward, rightward, info) =>
      if rect.Idle() then d else d.With(Shifted(now, cols, rect, downward, rightward, Blanks(d.pen, info)))
    case SetLine(row, line, was) => d.With(now[row := Lined(now[row], line, was, d.pen)])
    case SetPen(pen) => d.(pen := pen)
    case SetReverse(on) => d.(reverse := on)
    case SetAlt(on, info) =>
      if on then d.(onAlt := true, alt := ErasedRows(d.alt, Rect(0, rows, 0, cols), false, Blanks(d.pen, info)))
      else d.(onAlt := false)
    case ClearHistory => d
  }

  /** The rows that a request sends to the scrollback. */
  function Leaving(d: Display, op: Op, rows: nat, cols: nat): seq<Row>
    requires ValidDisplay(d, rows, cols) && Fits(op, rows, cols)
  {
    if op.Scroll? && !d.onAlt && op.rect.startRow == 0 && op.rect.startCol == 0 && op.rect.endCol == cols
       && op.rightward == 0 && cols > 0 && 0 <= op.downward < op.rect.endRow
    then d.primary[..op.downward] else []
  }
}
