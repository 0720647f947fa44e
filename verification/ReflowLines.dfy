/** Rewrapping a screen buffer to a new size: what the loop over logical lines keeps. */
module ReflowLines {
  import opened Seqs
  import opened Grid
  import opened ReflowCopy

  /** A buffer before the resize: its rows, their line flags, and the cursor. */
  datatype Screen = Screen(rows: seq<Row>, info: seq<LineInfo>, cols: nat, cursor: Pos) {
    ghost predicate Valid() {
      && |rows| == |info| > 0 && cols > 0 && Rectangular(rows, cols)
      && !info[0].continuation
      && 0 <= cursor.row < |rows| && 0 <= cursor.col < cols
    }

    ghost predicate StartsLine(r: nat) {
      |rows| == |info| && r <= |rows| && (r < |rows| ==> !info[r].continuation)
    }

    /** The logical lines from row `r` down. */
    function LinesFrom(r: nat): seq<Row>
      requires StartsLine(r)
    {
      Lines(rows[r..], info[r..])
    }

    /** Rows `first..last` are exactly one logical line. */
    ghost predicate IsLine(first: nat, last: nat) {
      && first <= last && StartsLine(first) && StartsLine(last + 1)
      && forall k :: first < k <= last ==> info[k].continuation
    }

    /** The cells of a line that the reflow keeps: its full rows, and the last row without
        trailing blanks. */
    function Width(first: nat, last: nat): nat
      requires first <= last < |rows|
    {
      Cells(last - first, cols) + |Trim(rows[last])|
    }

    function LineEnd(r: nat): (last: nat)
      requires |rows| == |info| && r < |rows|
      ensures r <= last < |rows| && StartsLine(last + 1)
      ensures forall k :: r < k <= last ==> info[k].continuation
      decreases |rows| - r
    {
      if r + 1 < |rows| && info[r + 1].continuation then LineEnd(r + 1) else r
    }

    /** The rows that the lines from row `r` down take at `newCols` columns, up to the last
        line that is not empty. */
    function ContentRows(r: nat, newCols: nat): nat
      requires StartsLine(r) && newCols > 0
      decreases |rows| - r
    {
      if r == |rows| then 0
      else
        var last := LineEnd(r);
        var below, width := ContentRows(last + 1, newCols), Width(r, last);
        if below == 0 && width == 0 then 0 else Height(width, newCols) + below
    }

    /** The rows from row `r` through the row the cursor goes to, at `newCols` columns. */
    function CursorRows(r: nat, newCols: nat): (n: nat)
      requires StartsLine(r) && newCols > 0 && cols > 0
      requires r <= cursor.row < |rows| && 0 <= cursor.col
      ensures n >= 1
      decreases |rows| - r
    {
      var last := LineEnd(r);
      var width := Width(r, last);
      if cursor.row <= last then
        var p := Line(r, last).Offset(cursor.row, cursor.col);
        if p < width then 1 + RowOf(p, newCols) else Height(width, newCols)
      else Height(width, newCols) + CursorRows(last + 1, newCols)
    }

    function Line(first: nat, last: nat): Source {
      Source(rows, cols, first, last, cursor)
    }
  }

  /** The row that offset `p` falls in. */
  function RowOf(p: nat, cols: nat): nat
    requires cols > 0
  {
    if p < cols then 0 else 1 + RowOf(p - cols, cols)
  }

  lemma {:induction false} RowOfCells(r: nat, c: nat, cols: nat)
    requires c < cols
    ensures RowOf(Cells(r, cols) + c, cols) == r
  {
    if r > 0 { RowOfCells(r - 1, c, cols); }
  }

  lemma {:induction false} RowsGrow(s: Screen, r: nat, lower: nat, newCols: nat)
    requires s.Valid() && s.StartsLine(r) && s.StartsLine(lower) && r <= lower && newCols > 0
    ensures s.ContentRows(lower, newCols) <= s.ContentRows(r, newCols)
    ensures lower <= s.cursor.row ==> s.CursorRows(lower, newCols) <= s.CursorRows(r, newCols)
    decreases lower - r
  {
    if r < lower { RowsGrow(s, s.LineEnd(r) + 1, lower, newCols); }
  }

  lemma LineEndUnique(s: Screen, first: nat, last: nat)
    requires s.IsLine(first, last)
    ensures last < |s.rows| && s.LineEnd(first) == last
  {
    var end := s.LineEnd(first);
    if last < |s.rows| {
    }
  }

  /** A line ends before the next one starts. */
  lemma LineEndsBefore(s: Screen, r: nat, lower: nat)
    requires s.StartsLine(r) && s.StartsLine(lower) && r < lower <= |s.rows|
    ensures s.LineEnd(r) < lower
  {
  }

  /** The lines from row `r` down, cut at row `k` where a line starts. */
  lemma LinesFromSplit(s: Screen, r: nat, k: nat)
    requires r <= k && s.StartsLine(r) && s.StartsLine(k)
    ensures s.LinesFrom(r) == Lines(s.rows[r..k], s.info[r..k]) + s.LinesFrom(k)
  {
    SliceCut(s.rows, r, k);
    SliceCut(s.info, r, k);
    LinesAppend(s.rows[r..k], s.info[r..k], s.rows[k..], s.info[k..]);
  }

  /** A line above the lines below it. */
  lemma LinesFromLine(s: Screen, first: nat, last: nat)
    requires s.IsLine(first, last)
    ensures s.LinesFrom(first) == [LineText(s.rows[first..last + 1])] + s.LinesFrom(last + 1)
  {
    hide Lines, LineText;
    LinesFromSplit(s, first, last + 1);
    LinesOne(s.rows[first..last + 1], s.info[first..last + 1]);
  }

  /** Blank rows at the bottom are empty lines. */
  lemma LinesFromBlank(s: Screen, r: nat, from: nat)
    requires s.StartsLine(r) && r <= from <= |s.rows|
    requires forall i :: from <= i < |s.rows| ==> AllBlank(s.rows[i]) && !s.info[i].continuation
    ensures s.LinesFrom(r) == Lines(s.rows[r..from], s.info[r..from]) + Empties(|s.rows| - from)
  {
    LinesFromSplit(s, r, from);
    LinesBlank(s.rows[from..], s.info[from..]);
  }

  /** Only blanks follow the kept cells of a line. */
  lemma WidthKeepsText(s: Screen, first: nat, last: nat)
    requires s.Valid() && first <= last < |s.rows|
    ensures s.Width(first, last) <= |Flatten(s.rows[first..last + 1])|
    ensures AllBlank(Flatten(s.rows[first..last + 1])[s.Width(first, last)..])
    ensures s.Line(first, last).From(first, 0) == Flatten(s.rows[first..last + 1])
  {
    var head, row := s.rows[first..last], s.rows[last];
    assert s.rows[first..last + 1] == head + [row];
    FlattenAppend(head, [row]);
    FlattenOne(row);
    FlattenLength(head, s.cols);
    assert Flatten(s.rows[first..last + 1])[s.Width(first, last)..] == row[|Trim(row)|..];
    assert s.rows[first..last + 1][1..] == s.rows[first + 1..last + 1];
  }

  /** Pouring the kept cells of a line keeps its text. */
  lemma PouredText(rows: seq<Row>, text: Row, width: nat)
    requires width <= |text| && AllBlank(text[width..])
    requires Poured(rows, text, width)
    ensures LineText(rows) == Trim(text)
  {
    var cells := Flatten(rows);
    TrimPadded(text[..width], text[width..]);
    TrimPadded(cells[..width], cells[width..]);
    assert text == text[..width] + text[width..];
    assert cells == cells[..width] + cells[width..];
  }

  // ---- What the loop over lines keeps ----

  /** The lines from row `next` of the old grid are, but for `dropped` empty ones at the
      bottom, the lines from row `top` of the new grid. */
  ghost predicate Placed(before: Screen, next: nat, after: Screen, top: nat, dropped: nat) {
    && before.StartsLine(next) && after.StartsLine(top)
    && before.LinesFrom(next) == after.LinesFrom(top) + Empties(dropped)
  }

  /** The rows of the cursor's line, before and after. */
  datatype Track = Track(first: nat, last: nat, newFirst: nat, newLast: nat)

  /** The new cursor is on the new copy of the old cursor's line: on the copy of its very cell,
      or past the line's text on its last row, clipped to the last column. */
  ghost predicate Follows(before: Screen, after: Screen, dropped: nat, t: Track)
    requires before.Valid()
  {
    && before.IsLine(t.first, t.last) && t.first <= before.cursor.row <= t.last
    && after.IsLine(t.newFirst, t.newLast)
    && Placed(before, t.first, after, t.newFirst, dropped)
    && t.newFirst <= after.cursor.row <= t.newLast && 0 <= after.cursor.col < after.cols
    && CursorCopied(before.Line(t.first, t.last), before.Width(t.first, t.last),
                    t.newFirst, t.newLast, after.cols, UNSET, after.cursor)
  }

  lemma PlaceLine(before: Screen, first: nat, last: nat, was: Screen, now: Screen, newFirst: nat, newLast: nat, dropped: nat)
    requires before.Valid() && before.IsLine(first, last) && now.IsLine(newFirst, newLast)
    requires Placed(before, last + 1, was, newLast + 1, dropped)
    requires |was.rows| == |now.rows|
    requires now.rows[newLast + 1..] == was.rows[newLast + 1..] && now.info[newLast + 1..] == was.info[newLast + 1..]
    requires var text := before.Line(first, last).From(first, 0);
      before.Width(first, last) <= |text| && Poured(now.rows[newFirst..newLast + 1], text, before.Width(first, last))
    ensures Placed(before, first, now, newFirst, dropped)
  {
    WidthKeepsText(before, first, last);
    PouredText(now.rows[newFirst..newLast + 1], before.Line(first, last).From(first, 0), before.Width(first, last));
    LinesFromLine(before, first, last);
    LinesFromLine(now, newFirst, newLast);
  }

  /** The new grid moved down by `by` rows over blank rows at the bottom. */
  ghost predicate MovedDown(was: Screen, now: Screen, shift: nat) {
    && |was.rows| == |was.info| == |now.rows| == |now.info| && shift <= |was.rows|
    && now.rows[shift..] == was.rows[..|was.rows| - shift] && now.info[shift..] == was.info[..|was.rows| - shift]
    && (forall i :: |was.rows| - shift <= i < |was.rows| ==> AllBlank(was.rows[i]) && !was.info[i].continuation)
  }

  lemma MoveLines(was: Screen, now: Screen, shift: nat, r: nat)
    requires MovedDown(was, now, shift) && was.StartsLine(r) && r + shift <= |was.rows|
    ensures now.StartsLine(r + shift)
    ensures was.LinesFrom(r) == now.LinesFrom(r + shift) + Empties(shift)
  {
    hide Lines;
    var cut := |was.rows| - shift;
    LinesFromBlank(was, r, cut);
    DropTwice(now.rows, shift, r + shift);
    DropTwice(now.info, shift, r + shift);
    TakeDrop(was.rows, r, cut);
    TakeDrop(was.info, r, cut);
    if r < cut {
      assert now.info[r + shift] == now.info[r + shift..][0] == was.info[r..cut][0];
    }
  }

  lemma MovePlaced(before: Screen, next: nat, was: Screen, top: nat, dropped: nat, now: Screen, shift: nat)
    requires Placed(before, next, was, top, dropped) && MovedDown(was, now, shift) && top + shift <= |was.rows|
    ensures Placed(before, next, now, top + shift, dropped + shift)
  {
    MoveLines(was, now, shift, top);
    EmptiesAdd(shift, dropped);
    assert before.LinesFrom(next) == now.LinesFrom(top + shift) + (Empties(shift) + Empties(dropped));
  }

  /** The lines from row `next` are placed in the rows from `top` down; the rows from
      `finalBlank` down are blank. */
  ghost predicate GridInv(before: Screen, after: Screen, next: nat, top: nat, finalBlank: nat, dropped: nat) {
    && before.Valid() && |after.rows| == |after.info| && after.cols > 0 && Rectangular(after.rows, after.cols)
    && Placed(before, next, after, top, dropped)
    && top <= finalBlank <= |after.rows| && BlankFrom(after, finalBlank)
    && finalBlank - top == before.ContentRows(next, after.cols)
  }

  ghost predicate BlankFrom(s: Screen, from: nat)
    requires |s.rows| == |s.info|
  {
    forall i :: from <= i < |s.rows| ==> AllBlank(s.rows[i]) && !s.info[i].continuation
  }

  ghost predicate CursorInv(before: Screen, after: Screen, next: nat, top: nat, dropped: nat, t: Track)
    requires before.Valid() && before.StartsLine(next) && after.cols > 0
  {
    if before.cursor.row >= next then
      && Follows(before, after, dropped, t) && top <= t.newFirst
      && after.cursor.row - top + 1 == before.CursorRows(next, after.cols)
    else after.cursor == UNSET
  }

  lemma LineMoves(was: Screen, now: Screen, first: nat, last: nat, row: nat, shift: nat)
    requires MovedDown(was, now, shift) && was.IsLine(first, last)
    requires first <= row <= last && row + shift < |was.rows|
    ensures now.IsLine(first + shift, last + shift)
  {
    assert row == last || was.info[last].continuation;
    forall i | 0 <= i < |was.rows| - shift ensures now.info[i + shift] == was.info[i] {
      assert now.info[shift..][i] == was.info[..|was.rows| - shift][i];
    }
  }

  lemma FollowsMoves(before: Screen, was: Screen, now: Screen, dropped: nat, t: Track, shift: nat)
    requires before.Valid() && was.cols == now.cols && MovedDown(was, now, shift)
    requires Follows(before, was, dropped, t)
    requires now.cursor == Pos(was.cursor.row + shift, was.cursor.col) && now.cursor.row < |now.rows|
    ensures Follows(before, now, dropped + shift,
      Track(t.first, t.last, t.newFirst + shift, t.newLast + shift))
  {
    hide Placed, CursorCopied, Screen.Width, Lines;
    LineMoves(was, now, t.newFirst, t.newLast, was.cursor.row, shift);
    MovePlaced(before, t.first, was, t.newFirst, dropped, now, shift);
    CopiedMoves(before.Line(t.first, t.last), before.Width(t.first, t.last),
                t.newFirst, t.newLast, was.cols, was.cursor, shift);
  }

  lemma CopiedMoves(src: Source, width: nat, newFirst: nat, newLast: nat, cols: nat, was: Pos, shift: nat)
    requires src.Valid() && src.HasCursor() && newFirst <= newLast
    requires CursorCopied(src, width, newFirst, newLast, cols, UNSET, was)
    ensures CursorCopied(src, width, newFirst + shift, newLast + shift, cols, UNSET, Pos(was.row + shift, was.col))
  {
  }

  lemma CursorMoves(before: Screen, was: Screen, now: Screen, next: nat, top: nat, dropped: nat, t: Track, shift: nat)
    requires before.Valid() && before.StartsLine(next) && was.cols == now.cols > 0
    requires CursorInv(before, was, next, top, dropped, t)
    requires MovedDown(was, now, shift)
    requires now.cursor == if was.cursor.row >= 0 then Pos(was.cursor.row + shift, was.cursor.col) else was.cursor
    requires now.cursor.row < |now.rows|
    ensures CursorInv(before, now, next, top + shift, dropped + shift,
      Track(t.first, t.last, t.newFirst + shift, t.newLast + shift))
  {
    if before.cursor.row >= next {
      FollowsMoves(before, was, now, dropped, t, shift);
    }
  }

  lemma CursorStays(before: Screen, was: Screen, now: Screen, first: nat, last: nat,
                    newFirst: nat, newLast: nat, dropped: nat, t: Track)
    requires before.Valid() && before.IsLine(first, last) && was.cols == now.cols > 0
    requires newFirst <= newLast < |was.rows| == |now.rows| == |was.info| == |now.info|
    requires newLast - newFirst + 1 == Height(before.Width(first, last), now.cols)
    requires now.rows[newLast + 1..] == was.rows[newLast + 1..] && now.info[newLast + 1..] == was.info[newLast + 1..]
    requires before.cursor.row > last
    requires CursorInv(before, was, last + 1, newLast + 1, dropped, t) && now.cursor == was.cursor
    ensures CursorInv(before, now, first, newFirst, dropped, t)
  {
    hide Lines, CursorCopied, Screen.Width, Height, Cells;
    LineEndUnique(before, first, last);
    SameBelow(was, now, newLast + 1, t.newFirst);
    SameLine(was, now, newLast + 1, t.newFirst, t.newLast);
  }

  lemma SameLine(was: Screen, now: Screen, k: nat, first: nat, last: nat)
    requires |was.rows| == |now.rows| == |was.info| == |now.info| && k <= first <= |was.rows|
    requires now.info[k..] == was.info[k..]
    requires was.IsLine(first, last)
    ensures now.IsLine(first, last)
  {
    forall i | k <= i < |now.info| ensures now.info[i] == was.info[i] {
      assert now.info[i] == now.info[k..][i - k] == was.info[k..][i - k];
    }
  }

  /** Grids that agree from row `k` down have the same lines from there down. */
  lemma SameBelow(was: Screen, now: Screen, k: nat, r: nat)
    requires |was.rows| == |now.rows| == |was.info| == |now.info| && k <= r && k <= |was.rows|
    requires now.rows[k..] == was.rows[k..] && now.info[k..] == was.info[k..]
    requires was.StartsLine(r)
    ensures now.StartsLine(r) && now.LinesFrom(r) == was.LinesFrom(r)
  {
    DropTwice(now.rows, k, r);
    DropTwice(was.rows, k, r);
    DropTwice(now.info, k, r);
    DropTwice(was.info, k, r);
    if r < |now.info| {
      assert now.info[r] == now.info[r..][0] == was.info[r..][0];
    }
  }

  lemma CursorPlaced(before: Screen, now: Screen, first: nat, last: nat, newFirst: nat, newLast: nat, dropped: nat)
    requires before.Valid() && before.IsLine(first, last) && now.IsLine(newFirst, newLast) && now.cols > 0
    requires newLast - newFirst + 1 == Height(before.Width(first, last), now.cols)
    requires Placed(before, first, now, newFirst, dropped)
    requires first <= before.cursor.row <= last
    requires CursorCopied(before.Line(first, last), before.Width(first, last), newFirst, newLast, now.cols, UNSET, now.cursor)
    ensures CursorInv(before, now, first, newFirst, dropped, Track(first, last, newFirst, newLast))
  {
    hide Placed, Lines;
    LineEndUnique(before, first, last);
    var p := before.Line(first, last).Offset(before.cursor.row, before.cursor.col);
    if p < before.Width(first, last) {
      RowOfCells(now.cursor.row - newFirst, now.cursor.col, now.cols);
    } else {
      HeightCells(before.Width(first, last), now.cols);
    }
  }

  /** A line fills all rows it takes but the last. */
  lemma {:induction false} HeightCells(width: nat, cols: nat)
    requires cols > 0
    ensures Cells(Height(width, cols) - 1, cols) <= width
  {
    if width > cols { HeightCells(width - cols, cols); }
  }

  lemma GridMoves(before: Screen, was: Screen, now: Screen, next: nat, top: nat, finalBlank: nat, dropped: nat, shift: nat)
    requires GridInv(before, was, next, top, finalBlank, dropped)
    requires now.cols == was.cols && Rectangular(now.rows, now.cols) && MovedDown(was, now, shift)
    requires finalBlank + shift <= |was.rows|
    ensures GridInv(before, now, next, top + shift, finalBlank + shift, dropped + shift)
  {
    MovePlaced(before, next, was, top, dropped, now, shift);
    forall i | finalBlank + shift <= i < |now.rows|
      ensures AllBlank(now.rows[i]) && !now.info[i].continuation
    {
      assert now.rows[i] == now.rows[shift..][i - shift] && now.info[i] == now.info[shift..][i - shift];
    }
  }

  /** Line `src` placed in the rows of `tgt`, right above the rows already placed. */
  ghost predicate PlacesLine(before: Screen, was: Screen, now: Screen, src: Source, tgt: Target) {
    && before.Valid() && before.IsLine(src.first, src.last) && src == before.Line(src.first, src.last)
    && tgt.Valid(src) && tgt.cols == was.cols == now.cols && tgt.cursor == was.cursor
    && tgt.width == before.Width(src.first, src.last)
    && |now.rows| == |now.info| == |was.rows| == |was.info| && now.IsLine(tgt.first, tgt.last)
    && now.rows[tgt.last + 1..] == was.rows[tgt.last + 1..] && now.info[tgt.last + 1..] == was.info[tgt.last + 1..]
    && tgt.Finished(src, now.rows[tgt.first..tgt.last + 1], now.cursor)
  }

  lemma GridPlaces(before: Screen, was: Screen, now: Screen, src: Source, tgt: Target, finalBlank: nat, dropped: nat)
    requires GridInv(before, was, src.last + 1, tgt.last + 1, finalBlank, dropped)
    requires PlacesLine(before, was, now, src, tgt) && Rectangular(now.rows, now.cols)
    ensures GridInv(before, now, src.first, tgt.first,
      if finalBlank == tgt.last + 1 && tgt.width == 0 then tgt.last else finalBlank, dropped)
  {
    hide Poured, CursorCopied, Source.At, Source.HasCursor, Lines, LineText, Flatten, Trim, Rest, Height, Cells;
    PlaceLine(before, src.first, src.last, was, now, tgt.first, tgt.last, dropped);
    LineEndUnique(before, src.first, src.last);
    BlankBelow(was, now, tgt.last + 1, finalBlank);
    if tgt.width == 0 {
      EmptyLineIsBlank(src, tgt, now.rows, now.cursor);
    }
  }

  lemma EmptyLineIsBlank(src: Source, tgt: Target, rows: seq<Row>, now: Pos)
    requires tgt.Valid(src) && tgt.width == 0 && tgt.last < |rows|
    requires tgt.Finished(src, rows[tgt.first..tgt.last + 1], now)
    ensures tgt.first == tgt.last && AllBlank(rows[tgt.last])
  {
    var row := rows[tgt.last];
    assert rows[tgt.first..tgt.last + 1] == [row];
    FlattenOne(row);
    assert row[0..] == row;
  }

  lemma CursorPlaces(before: Screen, was: Screen, now: Screen, src: Source, tgt: Target, dropped: nat, t: Track)
    requires PlacesLine(before, was, now, src, tgt)
    requires Placed(before, src.first, now, tgt.first, dropped)
    requires CursorInv(before, was, src.last + 1, tgt.last + 1, dropped, t)
    ensures CursorInv(before, now, src.first, tgt.first, dropped,
      if src.HasCursor() then Track(src.first, src.last, tgt.first, tgt.last) else t)
  {
    hide Placed, Poured, Screen.Width, Lines, Rest, Height, Cells, Follows;
    if src.HasCursor() {
      CursorPlaced(before, now, src.first, src.last, tgt.first, tgt.last, dropped);
    } else if before.cursor.row > src.last {
      CursorStays(before, was, now, src.first, src.last, tgt.first, tgt.last, dropped, t);
    }
  }

  lemma BlankBelow(was: Screen, now: Screen, k: nat, from: nat)
    requires |was.rows| == |now.rows| == |was.info| == |now.info| && k <= from && k <= |was.rows|
    requires now.rows[k..] == was.rows[k..] && now.info[k..] == was.info[k..]
    requires BlankFrom(was, from)
    ensures BlankFrom(now, from)
  {
    forall i | from <= i < |now.rows| ensures now.rows[i] == was.rows[i] && now.info[i] == was.info[i] {
      assert now.rows[i] == now.rows[k..][i - k] && now.info[i] == now.info[k..][i - k];
      assert was.rows[i] == was.rows[k..][i - k] && was.info[i] == was.info[k..][i - k];
    }
  }
}
