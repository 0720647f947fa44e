/** The copy loop of the reflow: one logical line is poured, cell by cell, from rows of the
    old width into rows of the new width. */
module ReflowCopy {
  import opened Grid

  datatype Pos = Pos(row: int, col: int)

  const UNSET := Pos(-1, -1)

  /** The number of cells in `n` rows, `n * cols`. */
  function Cells(n: nat, cols: nat): (c: nat)
    ensures n > 0 ==> c >= cols
  {
    if n == 0 then 0 else Cells(n - 1, cols) + cols
  }

  lemma {:induction false} CellsMonotone(m: nat, n: nat, cols: nat)
    requires m < n
    ensures Cells(m, cols) + cols <= Cells(n, cols)
    decreases n
  {
    if m < n - 1 { CellsMonotone(m, n - 1, cols); }
  }

  /** Reading order of positions is the order of their offsets. */
  lemma CellsOrder(a: nat, c: nat, b: nat, d: nat, cols: nat)
    requires c < cols && d < cols
    ensures Cells(a, cols) + c < Cells(b, cols) + d <==> a < b || (a == b && c < d)
  {
    if a < b { CellsMonotone(a, b, cols); }
    if b < a { CellsMonotone(b, a, cols); }
  }

  lemma {:induction false} FlattenLength(rows: seq<Row>, cols: nat)
    requires Rectangular(rows, cols)
    ensures |Flatten(rows)| == Cells(|rows|, cols)
    decreases |rows|
  {
    if rows != [] {
      var n := |rows| - 1;
      FlattenLength(rows[..n], cols);
      FlattenOne(rows[n]);
      FlattenAppend(rows[..n], [rows[n]]);
      assert rows == rows[..n] + [rows[n]];
    }
  }

  /** The cells from position (`r`, `c`) to the end of row `last`, in reading order. */
  function Rest(rows: seq<Row>, r: nat, c: nat, last: nat): Row
    requires last < |rows| && r <= last + 1
    requires r <= last ==> c <= |rows[r]|
  {
    if r > last then [] else rows[r][c..] + Flatten(rows[r + 1..last + 1])
  }

  /** Stepping over one cell, with the wrap to the next row. */
  lemma RestStep(rows: seq<Row>, r: nat, c: nat, last: nat, cols: nat)
    requires r <= last < |rows| && Rectangular(rows, cols) && c < cols
    ensures Rest(rows, r, c, last) != []
    ensures Rest(rows, r, c, last)[0] == rows[r][c]
    ensures Rest(rows, r, c, last)[1..] ==
      if c + 1 == cols then Rest(rows, r + 1, 0, last) else Rest(rows, r, c + 1, last)
  {
    if c + 1 == cols && r < last {
      assert rows[r + 1..last + 1][1..] == rows[r + 2..last + 1];
    }
  }

  /** The old side of the copy: the grid, the line's rows `first..last`, and the cursor. */
  datatype Source = Source(rows: seq<Row>, cols: nat, first: nat, last: nat, cursor: Pos) {
    ghost predicate Valid() {
      && first <= last < |rows| && Rectangular(rows, cols) && cols > 0
      && 0 <= cursor.col < cols
    }

    ghost predicate HasCursor() { first <= cursor.row <= last }

    /** The offset of a position within the line. */
    function Offset(r: nat, c: nat): nat
      requires first <= r
    {
      Cells(r - first, cols) + c
    }

    ghost predicate At(r: nat, c: nat) {
      && first <= r <= last + 1 && c < cols
      && (r == last + 1 ==> c == 0)
    }

    function From(r: nat, c: nat): Row
      requires last < |rows| && r <= last + 1
      requires r <= last ==> c <= |rows[r]|
    {
      Rest(rows, r, c, last)
    }

    /** Where the cursor is after `n` cells starting at offset `k` went to row `newRow`. */
    ghost predicate Tracked(k: nat, n: nat, newRow: nat, was: Pos, now: Pos)
      requires Valid()
    {
      if HasCursor() && k <= Offset(cursor.row, cursor.col) < k + n
      then now == Pos(newRow, Offset(cursor.row, cursor.col) - k)
      else now == was
    }
  }

  /** Copies `count` cells into the front of row `newRow`. */
  method CopyCells(buf: array<Row>, newRow: nat, newCols: nat, src: Source,
                   r0: nat, c0: nat, count: nat, cursor0: Pos)
    returns (r: nat, c: nat, cursor: Pos)
    requires src.Valid() && src.At(r0, c0)
    requires newRow < buf.Length && |buf[newRow]| == newCols
    requires count <= newCols && count <= |src.From(r0, c0)|
    modifies buf
    ensures src.At(r, c) && src.Offset(r, c) == src.Offset(r0, c0) + count
    ensures src.From(r, c) == src.From(r0, c0)[count..]
    ensures |buf[newRow]| == newCols && buf[newRow][..count] == src.From(r0, c0)[..count]
    ensures forall i :: 0 <= i < buf.Length && i != newRow ==> buf[i] == old(buf[i])
    ensures src.Tracked(src.Offset(r0, c0), count, newRow, cursor0, cursor)
  {
    r, c, cursor := r0, c0, cursor0;
    var newCol := 0;
    ghost var all, k := src.From(r0, c0), src.Offset(r0, c0);
    while newCol < count
      invariant newCol <= count
      invariant src.At(r, c) && src.Offset(r, c) == k + newCol
      invariant src.From(r, c) == all[newCol..]
      invariant |buf[newRow]| == newCols && buf[newRow][..newCol] == all[..newCol]
      invariant forall i :: 0 <= i < buf.Length && i != newRow ==> buf[i] == old(buf[i])
      invariant src.Tracked(k, newCol, newRow, cursor0, cursor)
    {
      r, c, cursor := CopyCell(buf, newRow, newCol, src, r, c, cursor);
      newCol := newCol + 1;
    }
  }

  /** Copies one cell and steps over it. */
  method CopyCell(buf: array<Row>, newRow: nat, newCol: nat, src: Source, r0: nat, c0: nat, cursor0: Pos)
    returns (r: nat, c: nat, cursor: Pos)
    requires src.Valid() && src.At(r0, c0) && src.From(r0, c0) != []
    requires newRow < buf.Length && newCol < |buf[newRow]|
    modifies buf
    ensures src.At(r, c) && src.Offset(r, c) == src.Offset(r0, c0) + 1
    ensures src.From(r, c) == src.From(r0, c0)[1..]
    ensures buf[newRow] == old(buf[newRow])[newCol := src.From(r0, c0)[0]]
    ensures forall i :: 0 <= i < buf.Length && i != newRow ==> buf[i] == old(buf[i])
    ensures cursor == if src.HasCursor() && src.Offset(src.cursor.row, src.cursor.col) == src.Offset(r0, c0)
                      then Pos(newRow, newCol) else cursor0
  {
    RestStep(src.rows, r0, c0, src.last, src.cols);
    buf[newRow] := buf[newRow][newCol := src.rows[r0][c0]];
    cursor := cursor0;
    if src.cursor.row == r0 && src.cursor.col == c0 {
      cursor := Pos(newRow, newCol);
    } else if src.HasCursor() {
      CellsOrder(r0 - src.first, c0, src.cursor.row - src.first, src.cursor.col, src.cols);
      CellsOrder(src.cursor.row - src.first, src.cursor.col, r0 - src.first, c0, src.cols);
    }
    r, c := r0, c0 + 1;
    if c == src.cols {
      r, c := r + 1, 0;
    }
  }

  /** Blanks row `newRow` from column `newCol` on. */
  method ClearCells(buf: array<Row>, newRow: nat, newCol0: nat, blank: Cell)
    requires newRow < buf.Length && newCol0 <= |buf[newRow]| && blank.text.Blank?
    modifies buf
    ensures |buf[newRow]| == |old(buf[newRow])| && buf[newRow][..newCol0] == old(buf[newRow])[..newCol0]
    ensures AllBlank(buf[newRow][newCol0..])
    ensures forall i :: 0 <= i < buf.Length && i != newRow ==> buf[i] == old(buf[i])
  {
    var newCol := newCol0;
    while newCol < |buf[newRow]|
      invariant newCol0 <= newCol <= |buf[newRow]| == |old(buf[newRow])|
      invariant buf[newRow][..newCol0] == old(buf[newRow])[..newCol0]
      invariant forall j :: newCol0 <= j < newCol ==> buf[newRow][j].text.Blank?
      invariant forall i :: 0 <= i < buf.Length && i != newRow ==> buf[i] == old(buf[i])
    {
      buf[newRow] := buf[newRow][newCol := blank];
      newCol := newCol + 1;
    }
  }

  /** The rows a line of `width` cells takes at `cols` columns; an empty line takes one. */
  function Height(width: nat, cols: nat): (h: nat)
    requires cols > 0
    ensures h >= 1
  {
    if width <= cols then 1 else 1 + Height(width - cols, cols)
  }

  /** The height as the code computes it. */
  lemma {:induction false} HeightIsQuotient(width: nat, cols: nat)
    requires cols > 0
    ensures Height(width, cols) == if width == 0 then 1 else (width + cols - 1) / cols
  {
    if width > cols {
      HeightIsQuotient(width - cols, cols);
      QuotientStep(width - 1, cols);
    } else if width > 0 {
      QuotientStep(width - 1, cols);
      assert (width - 1) / cols == 0;
    }
  }

  lemma QuotientStep(n: nat, d: nat)
    requires d > 0
    ensures (n + d) / d == n / d + 1
  {
    var q, q' := n / d, (n + d) / d;
    assert n == q * d + n % d && n + d == q' * d + (n + d) % d;
    MultipleOf(q' - q - 1, d);
    assert (q' - q - 1) * d == q' * d - q * d - d;
  }

  lemma MultipleOf(k: int, d: int)
    requires d > 0
    ensures -d < k * d < d ==> k == 0
  {
    if k >= 1 { assert (k - 1) * d >= 0; }
    if k <= -1 { assert (k + 1) * d <= 0; }
  }

  /** The cursor after `n` cells of the line's row `newRow` came from offset `k` on, with the
      rule for a cursor beyond the cells copied so far. */
  ghost predicate RowTracked(src: Source, k: nat, n: nat, r: nat, newRow: nat, newCols: nat, was: Pos, now: Pos)
    requires src.Valid()
  {
    if !src.HasCursor() then now == was
    else
      var p := src.Offset(src.cursor.row, src.cursor.col);
      if k <= p < k + n then now == Pos(newRow, p - k)
      else if p >= k + n && src.cursor.row == r
      then now == Pos(newRow, Min(p - k, newCols - 1))
      else now == was
  }

  function Min(a: int, b: int): int {
    if a < b then a else b
  }

  /** Row `newRow` became `added`: `count` cells from (`r0`, `c0`) on, then blanks. */
  ghost predicate RowCopied(src: Source, newRow: nat, newCols: nat, r0: nat, c0: nat, count: nat, was: Pos,
                            added: Row, r: nat, c: nat, now: Pos)
    requires src.Valid()
  {
    && src.At(r0, c0) && src.At(r, c) && count <= newCols && count <= |src.From(r0, c0)|
    && src.Offset(r, c) == src.Offset(r0, c0) + count
    && src.From(r, c) == src.From(r0, c0)[count..]
    && |added| == newCols && added[..count] == src.From(r0, c0)[..count] && AllBlank(added[count..])
    && RowTracked(src, src.Offset(r0, c0), count, r, newRow, newCols, was, now)
  }

  /** Fills one row of the new grid from position (`r0`, `c0`) of the old one. */
  method CopyRow(buf: array<Row>, newRow: nat, newCols: nat, src: Source, r0: nat, c0: nat,
                 count: nat, cursor0: Pos, blank: Cell)
    returns (r: nat, c: nat, cursor: Pos)
    requires src.Valid() && src.At(r0, c0) && blank.text.Blank?
    requires newRow < buf.Length && |buf[newRow]| == newCols > 0
    requires count <= newCols && count <= |src.From(r0, c0)|
    modifies buf
    ensures RowCopied(src, newRow, newCols, r0, c0, count, cursor0, buf[newRow], r, c, cursor)
    ensures forall i :: 0 <= i < buf.Length && i != newRow ==> buf[i] == old(buf[i])
  {
    r, c, cursor := CopyCells(buf, newRow, newCols, src, r0, c0, count, cursor0);
    if src.HasCursor() {
      CellsOrder(src.cursor.row - src.first, src.cursor.col, r - src.first, c, src.cols);
    }
    if r <= src.last && src.cursor.row == r && src.cursor.col >= c {
      cursor := Pos(newRow, src.cursor.col - c + count);
      if cursor.col >= newCols {
        cursor := Pos(newRow, newCols - 1);
      }
    }
    ClearCells(buf, newRow, count, blank);
  }

  /** The new rows spell out the first `k` cells of `text`, and blanks after them. */
  ghost predicate Poured(rows: seq<Row>, text: Row, k: nat)
    requires k <= |text|
  {
    var cells := Flatten(rows);
    k <= |cells| && cells[..k] == text[..k] && AllBlank(cells[k..])
  }

  lemma PouredSnoc(rows: seq<Row>, row: Row, text: Row, k: nat, n: nat)
    requires k + n <= |text| && n <= |row|
    requires |Flatten(rows)| == k && Poured(rows, text, k)
    requires row[..n] == text[k..k + n] && AllBlank(row[n..])
    ensures Poured(rows + [row], text, k + n)
  {
    FlattenAppend(rows, [row]);
    FlattenOne(row);
    var cells := Flatten(rows) + row;
    assert cells[..k + n] == text[..k + n];
    assert cells[k + n..] == row[n..];
  }

  /** Where the cursor ends up: on the copy of its cell, or past the text of its line on the
      line's last row, clipped to the last column. */
  ghost predicate CursorCopied(src: Source, width: nat, newStart: nat, newEnd: nat, newCols: nat, was: Pos, now: Pos)
    requires src.Valid() && newStart <= newEnd
  {
    if !src.HasCursor() then now == was
    else
      var p := src.Offset(src.cursor.row, src.cursor.col);
      if p < width then
        && newStart <= now.row <= newEnd && 0 <= now.col < newCols
        && Cells(now.row - newStart, newCols) + now.col == p
      else now == Pos(newEnd, Min(p - Cells(newEnd - newStart, newCols), newCols - 1))
  }

  /** The cursor once the line's first `k` cells are copied to rows before `newRow`. */
  ghost predicate CursorSoFar(src: Source, k: nat, newStart: nat, newRow: nat, newCols: nat, was: Pos, now: Pos)
    requires src.Valid() && newStart <= newRow
  {
    if !src.HasCursor() then now == was
    else
      var p := src.Offset(src.cursor.row, src.cursor.col);
      p < k ==>
        && newStart <= now.row < newRow && 0 <= now.col < newCols
        && Cells(now.row - newStart, newCols) + now.col == p
  }

  lemma CursorNext(src: Source, k: nat, n: nat, r: nat, newStart: nat, newRow: nat, newCols: nat,
                   cursor0: Pos, was: Pos, now: Pos)
    requires src.Valid() && newStart <= newRow && n <= newCols
    requires k == Cells(newRow - newStart, newCols)
    requires CursorSoFar(src, k, newStart, newRow, newCols, cursor0, was)
    requires RowTracked(src, k, n, r, newRow, newCols, was, now)
    ensures CursorSoFar(src, k + n, newStart, newRow + 1, newCols, cursor0, now)
  {
    hide Cells;
  }

  lemma CursorDone(src: Source, k: nat, n: nat, r: nat, c: nat, newStart: nat, newEnd: nat, newCols: nat,
                   cursor0: Pos, was: Pos, now: Pos)
    requires src.Valid() && newStart <= newEnd && src.At(r, c)
    requires k == Cells(newEnd - newStart, newCols) && src.Offset(r, c) == k + n
    requires Cells(src.last - src.first, src.cols) <= k + n
    requires CursorSoFar(src, k, newStart, newEnd, newCols, cursor0, was)
    requires n <= newCols && RowTracked(src, k, n, r, newEnd, newCols, was, now)
    ensures CursorCopied(src, k + n, newStart, newEnd, newCols, cursor0, now)
  {
    if src.HasCursor() && src.Offset(src.cursor.row, src.cursor.col) >= k + n {
      CellsOrder(src.cursor.row - src.first, src.cursor.col, r - src.first, c, src.cols);
      CellsOrder(r - src.first, c, src.last - src.first, 0, src.cols);
    }
  }

  /** What one line's copy is to do: pour `width` cells into rows `first..last`. */
  datatype Target = Target(first: nat, last: nat, cols: nat, width: nat, cursor: Pos) {
    ghost predicate Valid(src: Source) {
      && src.Valid() && first <= last && cols > 0
      && last - first + 1 == Height(width, cols)
      && width <= |src.From(src.first, 0)|
      && Cells(src.last - src.first, src.cols) <= width
    }

    ghost predicate Finished(src: Source, placed: seq<Row>, now: Pos)
      requires Valid(src)
    {
      && Poured(placed, src.From(src.first, 0), width)
      && CursorCopied(src, width, first, last, cols, cursor, now)
    }

    /** `placed` holds the first `row - first` rows; the next cell to copy is at (`r`, `c`). */
    ghost predicate Pouring(src: Source, placed: seq<Row>, row: nat, left: nat, r: nat, c: nat, now: Pos)
      requires Valid(src)
    {
      var text := src.From(src.first, 0);
      && first <= row <= last && left <= width && src.At(r, c)
      && last - row + 1 == Height(left, cols)
      && src.Offset(r, c) == width - left == Cells(row - first, cols) == |Flatten(placed)|
      && src.From(r, c) == text[width - left..]
      && Poured(placed, text, width - left)
      && CursorSoFar(src, width - left, first, row, cols, cursor, now)
    }

    lemma Start(src: Source)
      requires Valid(src)
      ensures Pouring(src, [], first, width, src.first, 0, cursor)
    {
    }

    lemma Step(src: Source, placed: seq<Row>, row: nat, left: nat, r0: nat, c0: nat, was: Pos,
               added: Row, r: nat, c: nat, now: Pos)
      requires Valid(src) && Pouring(src, placed, row, left, r0, c0, was)
      requires RowCopied(src, row, cols, r0, c0, Min(left, cols), was, added, r, c, now)
      ensures if row == last then Finished(src, placed + [added], now)
              else left >= cols && Pouring(src, placed + [added], row + 1, left - cols, r, c, now)
    {
      hide Poured, CursorSoFar, CursorCopied, RowTracked, Rest, Source.HasCursor;
      var count, k := Min(left, cols), width - left;
      PouredSnoc(placed, added, src.From(src.first, 0), k, count);
      if row == last {
        CursorDone(src, k, count, r, c, first, last, cols, cursor, was, now);
      } else {
        CursorNext(src, k, count, r, first, row, cols, cursor, was, now);
        FlattenAppend(placed, [added]);
        FlattenOne(added);
      }
    }
  }

  /** One turn of the copy loop: row `row` and its continuation flag. */
  method PourRow(buf: array<Row>, info: array<LineInfo>, src: Source, tgt: Target, blank: Cell,
                 row: nat, left0: nat, r0: nat, c0: nat, cursor0: Pos, ghost placed: seq<Row>)
    returns (left: nat, r: nat, c: nat, cursor: Pos)
    requires tgt.Valid(src) && tgt.last < buf.Length == info.Length
    requires tgt.Pouring(src, placed, row, left0, r0, c0, cursor0)
    requires |buf[row]| == tgt.cols && blank.text.Blank?
    modifies buf, info
    ensures |buf[row]| == tgt.cols
    ensures if row == tgt.last then tgt.Finished(src, placed + [buf[row]], cursor)
            else tgt.Pouring(src, placed + [buf[row]], row + 1, left, r, c, cursor)
    ensures forall i :: 0 <= i < buf.Length && i != row ==> buf[i] == old(buf[i]) && info[i] == old(info[i])
    ensures info[row] == old(info[row]).(continuation := row > tgt.first)
  {
    var count := if left0 >= tgt.cols then tgt.cols else left0;
    left := left0 - count;
    r, c, cursor := CopyRow(buf, row, tgt.cols, src, r0, c0, count, cursor0, blank);
    tgt.Step(src, placed, row, left0, r0, c0, cursor0, buf[row], r, c, cursor);
    info[row] := info[row].(continuation := row > tgt.first);
  }

  /** Pours the first `tgt.width` cells of the line into rows `tgt.first..tgt.last`. */
  method CopyLine(buf: array<Row>, info: array<LineInfo>, src: Source, tgt: Target, blank: Cell)
    returns (cursor: Pos)
    requires tgt.Valid(src) && tgt.last < buf.Length == info.Length
    requires Rectangular(buf[..], tgt.cols) && blank.text.Blank?
    modifies buf, info
    ensures Rectangular(buf[..], tgt.cols)
    ensures tgt.Finished(src, buf[..][tgt.first..tgt.last + 1], cursor)
    ensures buf[..][..tgt.first] == old(buf[..])[..tgt.first]
    ensures info[..][..tgt.first] == old(info[..])[..tgt.first]
    ensures buf[..][tgt.last + 1..] == old(buf[..])[tgt.last + 1..]
    ensures info[..][tgt.last + 1..] == old(info[..])[tgt.last + 1..]
    ensures forall i :: tgt.first <= i <= tgt.last ==>
      info[..][i] == old(info[..])[i].(continuation := i > tgt.first)
  {
    hide Target.Pouring, Target.Finished, Target.Valid, Height, Rest;
    var left, newRow, r, c := tgt.width, tgt.first, src.first, 0;
    cursor := tgt.cursor;
    ghost var placed: seq<Row> := [];
    tgt.Start(src);
    while newRow <= tgt.last
      invariant tgt.first <= newRow <= tgt.last + 1
      invariant forall i :: 0 <= i < buf.Length ==> |buf[i]| == tgt.cols
      invariant |placed| == newRow - tgt.first
      invariant forall i :: tgt.first <= i < newRow ==> placed[i - tgt.first] == buf[i]
      invariant newRow <= tgt.last ==> tgt.Pouring(src, placed, newRow, left, r, c, cursor)
      invariant newRow > tgt.last ==> tgt.Finished(src, placed, cursor)
      invariant forall i :: 0 <= i < buf.Length && !(tgt.first <= i < newRow) ==>
        buf[i] == old(buf[i]) && info[i] == old(info[i])
      invariant forall i :: tgt.first <= i < newRow ==>
        info[i] == old(info[i]).(continuation := i > tgt.first)
    {
      left, r, c, cursor := PourRow(buf, info, src, tgt, blank, newRow, left, r, c, cursor, placed);
      placed := placed + [buf[newRow]];
      newRow := newRow + 1;
    }
    assert |placed| == |buf[..][tgt.first..tgt.last + 1]|;
    assert placed == buf[..][tgt.first..tgt.last + 1];
  }
}
