/** Scrolling and erasing in place: rows of cells are moved over each other one by one, in the
    order that never overwrites a row before it is read. */
module Shift {
  import opened Grid
  import opened ScreenSpec

  // ---- Erasing ----

  method EraseCells(buf: array<Row>, row: nat, startCol: nat, endCol: nat, selective: bool, blank: Cell)
    requires row < buf.Length && startCol <= endCol <= |buf[row]|
    modifies buf
    ensures buf[row] == ErasedRow(old(buf[row]), startCol, endCol, selective, blank)
    ensures forall i :: 0 <= i < buf.Length && i != row ==> buf[i] == old(buf[i])
  {
    ghost var was := buf[row];
    for col := startCol to endCol
      invariant buf[row] == ErasedRow(was, startCol, col, selective, blank)
      invariant forall i :: 0 <= i < buf.Length && i != row ==> buf[i] == old(buf[i])
    {
      if !(selective && buf[row][col].pen.isProtected) {
        buf[row] := buf[row][col := blank];
      }
    }
  }

  method EraseRect(buf: array<Row>, cols: nat, rect: Rect, selective: bool, blanks: seq<Cell>)
    requires Rectangular(buf[..], cols) && rect.Within(buf.Length, cols) && |blanks| == buf.Length
    modifies buf
    ensures buf[..] == ErasedRows(old(buf[..]), rect, selective, blanks)
  {
    hide ErasedRow;
    for row := rect.startRow to rect.endRow
      invariant buf[..] == ErasedRows(old(buf[..]), rect.(endRow := row), selective, blanks)
    {
      assert |buf[row]| == |old(buf[..])[row]| == cols;
      EraseCells(buf, row, rect.startCol, rect.endCol, selective, blanks[row]);
    }
  }

  // ---- Moving ----

  predicate SameSize(a: Rect, b: Rect) {
    a.endRow - a.startRow == b.endRow - b.startRow && a.endCol - a.startCol == b.endCol - b.startCol
  }

  function Splice(row: Row, at: nat, part: Row): (r: Row)
    requires at + |part| <= |row|
    ensures |r| == |row|
  {
    row[..at] + part + row[at + |part|..]
  }

  /** Row `i` after the rows of `src` are moved to `dest`, all at once. */
  function MovedRow(rows: seq<Row>, cols: nat, dest: Rect, src: Rect, i: nat): (r: Row)
    requires Rectangular(rows, cols) && i < |rows| && SameSize(dest, src)
    requires dest.Within(|rows|, cols) && src.Within(|rows|, cols)
    ensures |r| == cols
  {
    if dest.HasRow(i) then
      Splice(rows[i], dest.startCol, rows[i + src.startRow - dest.startRow][src.startCol..src.endCol])
    else rows[i]
  }

  method MoveRect(buf: array<Row>, cols: nat, dest: Rect, src: Rect)
    requires Rectangular(buf[..], cols) && SameSize(dest, src)
    requires dest.Within(buf.Length, cols) && src.Within(buf.Length, cols)
    modifies buf
    ensures forall i :: 0 <= i < buf.Length ==> buf[i] == MovedRow(old(buf[..]), cols, dest, src, i)
  {
    var downward := src.startRow - dest.startRow;
    var row, testRow, incRow := dest.startRow, dest.endRow, 1;
    if downward < 0 {
      row, testRow, incRow := dest.endRow - 1, dest.startRow - 1, -1;
    }
    while row != testRow
      invariant if downward < 0 then dest.startRow - 1 <= row < dest.endRow else dest.startRow <= row <= dest.endRow
      invariant forall i :: 0 <= i < buf.Length && (if downward < 0 then row < i else i < row) ==>
        buf[i] == MovedRow(old(buf[..]), cols, dest, src, i)
      invariant forall i :: 0 <= i < buf.Length && !(if downward < 0 then row < i else i < row) ==>
        buf[i] == old(buf[i])
      decreases if downward < 0 then row - testRow else testRow - row
    {
      buf[row] := Splice(buf[row], dest.startCol, buf[row + downward][src.startCol..src.endCol]);
      row := row + incRow;
    }
  }

  // ---- Scrolling ----

  predicate ScrollsAway(rect: Rect, downward: int, rightward: int) {
    || downward >= rect.endRow - rect.startRow || -downward >= rect.endRow - rect.startRow
    || rightward >= rect.endCol - rect.startCol || -rightward >= rect.endCol - rect.startCol
  }

  function Max0(n: int): nat { if n > 0 then n else 0 }

  /** Where the cells that stay go, where they come from, and what is left to erase. */
  function DestOf(rect: Rect, downward: int, rightward: int): Rect {
    Rect(rect.startRow + Max0(-downward), rect.endRow - Max0(downward),
         rect.startCol + Max0(-rightward), rect.endCol - Max0(rightward))
  }

  function SrcOf(rect: Rect, downward: int, rightward: int): Rect {
    DestOf(rect, -downward, -rightward)
  }

  function LeftOf(rect: Rect, downward: int, rightward: int): Rect {
    Rect(if downward > 0 then rect.endRow - downward else rect.startRow,
         if downward < 0 then rect.startRow - downward else rect.endRow,
         if rightward > 0 then rect.endCol - rightward else rect.startCol,
         if rightward < 0 then rect.startCol - rightward else rect.endCol)
  }

  lemma MovedCell(rows: seq<Row>, cols: nat, rect: Rect, downward: int, rightward: int, i: nat, j: nat)
    requires Rectangular(rows, cols) && rect.Within(|rows|, cols) && i < |rows| && j < cols
    requires !ScrollsAway(rect, downward, rightward)
    ensures var dest, src := DestOf(rect, downward, rightward), SrcOf(rect, downward, rightward);
      && SameSize(dest, src) && dest.Within(|rows|, cols) && src.Within(|rows|, cols)
      && MovedRow(rows, cols, dest, src, i)[j] ==
         if rect.Contains(i, j) && rect.Contains(i + downward, j + rightward) then rows[i + downward][j + rightward]
         else rows[i][j]
  {
  }

  lemma ShiftedInSteps(rows: seq<Row>, moved: seq<Row>, cols: nat, rect: Rect, downward: int, rightward: int,
                       blanks: seq<Cell>)
    requires Rectangular(rows, cols) && rect.Within(|rows|, cols) && |blanks| == |rows| == |moved|
    requires !ScrollsAway(rect, downward, rightward) && (downward == 0) != (rightward == 0)
    requires var dest, src := DestOf(rect, downward, rightward), SrcOf(rect, downward, rightward);
      && SameSize(dest, src) && dest.Within(|rows|, cols) && src.Within(|rows|, cols)
      && forall i :: 0 <= i < |rows| ==> moved[i] == MovedRow(rows, cols, dest, src, i)
    ensures ErasedRows(moved, LeftOf(rect, downward, rightward), false, blanks) ==
            Shifted(rows, cols, rect, downward, rightward, blanks)
  {
    hide MovedRow;
    var left := LeftOf(rect, downward, rightward);
    var got, want := ErasedRows(moved, left, false, blanks), Shifted(rows, cols, rect, downward, rightward, blanks);
    forall i | 0 <= i < |rows| ensures got[i] == want[i] {
      forall j | 0 <= j < cols ensures got[i][j] == want[i][j] {
        MovedCell(rows, cols, rect, downward, rightward, i, j);
      }
    }
  }

  lemma ErasedIsShiftedAway(rows: seq<Row>, cols: nat, rect: Rect, downward: int, rightward: int, blanks: seq<Cell>)
    requires Rectangular(rows, cols) && rect.Within(|rows|, cols) && |blanks| == |rows|
    requires ScrollsAway(rect, downward, rightward)
    ensures ErasedRows(rows, rect, false, blanks) == Shifted(rows, cols, rect, downward, rightward, blanks)
  {
    var got, want := ErasedRows(rows, rect, false, blanks), Shifted(rows, cols, rect, downward, rightward, blanks);
    forall i | 0 <= i < |rows| ensures got[i] == want[i] {
      forall j | 0 <= j < cols ensures got[i][j] == want[i][j] {
      }
    }
  }

  method ScrollRect(buf: array<Row>, cols: nat, rect: Rect, downward: int, rightward: int, blanks: seq<Cell>)
    requires Rectangular(buf[..], cols) && rect.Within(buf.Length, cols) && |blanks| == buf.Length
    requires (downward == 0) != (rightward == 0)
    modifies buf
    ensures buf[..] == Shifted(old(buf[..]), cols, rect, downward, rightward, blanks)
  {
    hide Shifted, ErasedRows, MovedRow;
    if ScrollsAway(rect, downward, rightward) {
      ErasedIsShiftedAway(buf[..], cols, rect, downward, rightward, blanks);
      EraseRect(buf, cols, rect, false, blanks);
    } else {
      var dest, src := DestOf(rect, downward, rightward), SrcOf(rect, downward, rightward);
      ghost var rows := buf[..];
      MoveRect(buf, cols, dest, src);
      assert forall i :: 0 <= i < |rows| ==> |buf[..][i]| == |MovedRow(rows, cols, dest, src, i)| == cols;
      ShiftedInSteps(rows, buf[..], cols, rect, downward, rightward, blanks);
      EraseRect(buf, cols, LeftOf(rect, downward, rightward), false, blanks);
    }
  }

  // ---- Copying cell by cell ----

  /** Row `i` after the cells of `src` are copied to `dest`, all at once. */
  function CopiedRow(rows: seq<Row>, cols: nat, dest: Rect, src: Rect, i: nat): (r: Row)
    requires Rectangular(rows, cols) && i < |rows| && SameSize(dest, src)
    requires dest.Within(|rows|, cols) && src.Within(|rows|, cols)
    ensures |r| == cols
  {
    if !dest.HasRow(i) then rows[i]
    else CopiedCells(rows[i], rows[i + src.startRow - dest.startRow], dest, src)
  }

  function CopiedCells(row: Row, from: Row, dest: Rect, src: Rect): (r: Row)
    requires 0 <= dest.startCol <= dest.endCol <= |row| == |from| && SameSize(dest, src)
    requires 0 <= src.startCol <= src.endCol <= |row|
    ensures |r| == |row|
  {
    seq(|row|, j requires 0 <= j < |row| =>
      if dest.startCol <= j < dest.endCol then from[j + src.startCol - dest.startCol] else row[j])
  }

  /** Whether a walk that has come to `at` is past `k`. */
  predicate Past(k: int, at: int, backward: bool) {
    if backward then at < k else k < at
  }

  method CopyRow(buf: array<Row>, cols: nat, dest: Rect, src: Rect, row: int)
    requires Rectangular(buf[..], cols) && SameSize(dest, src) && dest.HasRow(row)
    requires dest.Within(buf.Length, cols) && src.Within(buf.Length, cols)
    modifies buf
    ensures buf[row] == CopiedRow(old(buf[..]), cols, dest, src, row)
    ensures forall i :: 0 <= i < buf.Length && i != row ==> buf[i] == old(buf[i])
  {
    var downward, rightward := src.startRow - dest.startRow, src.startCol - dest.startCol;
    var col, testCol, incCol := dest.startCol, dest.endCol, 1;
    if rightward < 0 {
      col, testCol, incCol := dest.endCol - 1, dest.startCol - 1, -1;
    }
    ghost var was, from := buf[..][row], buf[..][row + downward];
    while col != testCol
      invariant dest.startCol - 1 <= col <= dest.endCol && (if rightward < 0 then col < dest.endCol else dest.startCol <= col)
      invariant |buf[row]| == cols
      invariant forall j :: 0 <= j < cols && dest.startCol <= j < dest.endCol && Past(j, col, rightward < 0) ==>
        buf[row][j] == from[j + rightward]
      invariant forall j :: 0 <= j < cols && !(dest.startCol <= j < dest.endCol && Past(j, col, rightward < 0)) ==>
        buf[row][j] == was[j]
      invariant forall i :: 0 <= i < buf.Length && i != row ==> buf[i] == old(buf[i])
      decreases if rightward < 0 then col - testCol else testCol - col
    {
      buf[row] := buf[row][col := buf[row + downward][col + rightward]];
      col := col + incCol;
    }
    assert buf[row] == CopiedCells(was, from, dest, src);
  }

  /** Copying cell by cell, in an order that depends on the direction, copies all at once,
      whether or not the rectangles overlap. */
  method CopyCells(buf: array<Row>, cols: nat, dest: Rect, src: Rect)
    requires Rectangular(buf[..], cols) && SameSize(dest, src)
    requires dest.Within(buf.Length, cols) && src.Within(buf.Length, cols)
    modifies buf
    ensures forall i :: 0 <= i < buf.Length ==> buf[i] == CopiedRow(old(buf[..]), cols, dest, src, i)
  {
    hide CopiedCells;
    var downward := src.startRow - dest.startRow;
    var row, testRow, incRow := dest.startRow, dest.endRow, 1;
    if downward < 0 {
      row, testRow, incRow := dest.endRow - 1, dest.startRow - 1, -1;
    }
    ghost var rows := buf[..];
    while row != testRow
      invariant dest.startRow - 1 <= row <= dest.endRow && (if downward < 0 then row < dest.endRow else dest.startRow <= row)
      invariant forall i :: 0 <= i < buf.Length && Past(i, row, downward < 0) ==>
        buf[i] == CopiedRow(rows, cols, dest, src, i)
      invariant forall i :: 0 <= i < buf.Length && !Past(i, row, downward < 0) ==> buf[i] == rows[i]
      decreases if downward < 0 then row - testRow else testRow - row
    {
      ghost var now := buf[..];
      assert forall i :: 0 <= i < buf.Length ==> |now[i]| == cols;
      CopyRow(buf, cols, dest, src, row);
      assert CopiedRow(now, cols, dest, src, row) == CopiedRow(rows, cols, dest, src, row);
      row := row + incRow;
    }
  }
}
