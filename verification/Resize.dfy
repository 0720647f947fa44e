/** Resizing one buffer: the reflow, then rows pushed to or popped from the scrollback, then
    the content scrolled to the top. */
module Resize {
  import opened Seqs
  import opened Grid
  import opened History
  import opened Pushing
  import opened ReflowCopy
  import opened ReflowLines
  import opened Reflow
  import SC = ScreenCells

  /** The lines from row `from` of one grid and from row `top` of another are the same but for
      empty lines at the bottom. */
  ghost predicate Kept(before: Screen, from: nat, after: Screen, top: nat, dropped: nat, added: nat) {
    && before.StartsLine(from) && after.StartsLine(top)
    && before.LinesFrom(from) + Empties(added) == after.LinesFrom(top) + Empties(dropped)
  }

  /** The new cursor is on the new copy of the old cursor's line, on the copy of its cell or
      past the line's text, clipped to the last column. */
  ghost predicate CursorKept(before: Screen, after: Screen, dropped: nat, added: nat, t: Track)
    requires before.Valid()
  {
    && before.IsLine(t.first, t.last) && t.first <= before.cursor.row <= t.last
    && after.IsLine(t.newFirst, t.newLast)
    && Kept(before, t.first, after, t.newFirst, dropped, added)
    && t.newFirst <= after.cursor.row <= t.newLast && 0 <= after.cursor.col < after.cols
    && CursorCopied(before.Line(t.first, t.last), before.Width(t.first, t.last),
                    t.newFirst, t.newLast, after.cols, UNSET, after.cursor)
  }

  /** What reading back a line needs: the old width, the padding cell, the screen's reverse
      mode, and the cell that clears. */
  datatype Fill = Fill(oldCols: nat, pad: ExtCell, reverse: bool, blank: Cell) {
    ghost predicate Valid() {
      pad.width == 1 && pad.text.Blank? && blank.text.Blank?
    }

    lemma ClearsBlank()
      requires Valid()
      ensures blank.text.Blank?
    {
    }

    /** The line fits the old and the new width, with widths that match its gaps. */
    ghost predicate Narrow(line: Line, cols: nat) {
      SC.WellFormed(line.cells) && |line.cells| <= oldCols && |line.cells| <= cols
    }

    /** What a row becomes when a line is popped onto it. */
    function Popped(line: Line, row: Row): (r: Row)
      requires SC.Advances(line.cells) && pad.width >= 1
      ensures |r| == |row|
    {
      SC.Restored(Fit(line.cells, oldCols, pad), 0, row, reverse, blank)
    }

    lemma PoppedText(line: Line, row: Row)
      requires Valid() && Narrow(line, |row|)
      ensures SC.RowTexts(Trim(Popped(line, row))) == SC.TrimTexts(SC.ExtTexts(line.cells))
    {
      SC.RestoredText(line.cells, oldCols, row, reverse, blank, pad);
    }
  }

  ghost predicate Stored(lines: seq<Line>) {
    forall i :: 0 <= i < |lines| ==> SC.Advances(lines[i].cells)
  }

  /** Pops the newest line, if there is one, onto row `r`. */
  method PopOnto(buf: array<Row>, r: nat, ring: Ring, fill: Fill) returns (popped: bool)
    requires ring.Valid() && Stored(ring.Contents) && fill.Valid() && r < buf.Length
    requires buf as object != ring.history
    modifies buf, ring, ring.history
    ensures ring.Valid() && ring.history == old(ring.history)
    ensures popped == (old(ring.Contents) != [])
    ensures popped ==> ring.Contents == Front(old(ring.Contents))
    ensures popped ==> buf[r] == fill.Popped(Newest(old(ring.Contents)), old(buf[r]))
    ensures !popped ==> ring.Contents == [] && buf[r] == old(buf[r])
    ensures forall i :: 0 <= i < buf.Length && i != r ==> buf[i] == old(buf[i])
  {
    hide TotalSize;
    var cells;
    popped, cells := ring.Pop(fill.oldCols, fill.pad);
    if popped {
      SC.RestoreRow(buf, r, cells, fill.reverse, fill.blank);
    }
  }

  /** Rows `newRow` and up are filled from the newest stored lines, from the bottom up. */
  method Backfill(buf: array<Row>, ring: Ring, newRow0: int, fill: Fill) returns (newRow: int)
    requires ring.Valid() && Stored(ring.Contents) && fill.Valid() && -1 <= newRow0 < buf.Length
    requires buf as object != ring.history
    modifies buf, ring, ring.history
    ensures ring.Valid() && ring.history == old(ring.history)
    ensures -1 <= newRow <= newRow0 && newRow0 - newRow <= |old(ring.Contents)|
    ensures ring.Contents == old(ring.Contents)[..|old(ring.Contents)| - (newRow0 - newRow)]
    ensures newRow == -1 || ring.Contents == []
    ensures forall i :: newRow < i <= newRow0 ==>
      buf[i] == fill.Popped(old(ring.Contents)[|old(ring.Contents)| - 1 - newRow0 + i], old(buf[i]))
    ensures forall i :: 0 <= i < buf.Length && !(newRow < i <= newRow0) ==> buf[i] == old(buf[i])
  {
    hide Ring.Valid, Fill.Popped;
    newRow := newRow0;
    ghost var q := ring.Contents;
    while newRow >= 0
      invariant ring.Valid() && ring.history == old(ring.history)
      invariant -1 <= newRow <= newRow0 && newRow0 - newRow <= |q|
      invariant ring.Contents == q[..|q| - (newRow0 - newRow)]
      invariant forall i :: newRow < i <= newRow0 ==> buf[i] == fill.Popped(q[|q| - 1 - newRow0 + i], old(buf[i]))
      invariant forall i :: 0 <= i < buf.Length && !(newRow < i <= newRow0) ==> buf[i] == old(buf[i])
      decreases newRow
    {
      var popped := PopOnto(buf, newRow, ring, fill);
      if !popped { break; }
      newRow := newRow - 1;
    }
  }

  // ---- Scrolling the content to the top ----

  ghost predicate MovedUp(was: Screen, now: Screen, shift: nat) {
    && |was.rows| == |was.info| == |now.rows| == |now.info| && shift <= |was.rows|
    && now.rows[..|was.rows| - shift] == was.rows[shift..] && now.info[..|was.rows| - shift] == was.info[shift..]
    && BlankFrom(now, |was.rows| - shift)
  }

  method ScrollToTop(buf: array<Row>, info: array<LineInfo>, cols: nat, shift: nat, blank: Cell, cursor0: Pos)
    returns (cursor: Pos)
    requires buf.Length == info.Length && shift <= buf.Length && blank.text.Blank?
    requires Rectangular(buf[..], cols)
    modifies buf, info
    ensures MovedUp(old(View(buf, info, cols, cursor0)), View(buf, info, cols, cursor), shift)
    ensures Rectangular(buf[..], cols)
    ensures cursor == Pos(cursor0.row - shift, cursor0.col)
  {
    MoveUp(buf, shift);
    MoveUp(info, shift);
    ClearRows(buf, info, cols, buf.Length - shift, blank);
    cursor := Pos(cursor0.row - shift, cursor0.col);
  }

  method ClearRows(buf: array<Row>, info: array<LineInfo>, cols: nat, from: nat, blank: Cell)
    requires from <= buf.Length == info.Length && blank.text.Blank?
    modifies buf, info
    ensures forall i :: 0 <= i < from ==> buf[i] == old(buf[i]) && info[i] == old(info[i])
    ensures forall i :: from <= i < buf.Length ==> |buf[i]| == cols && AllBlank(buf[i]) && info[i] == NO_INFO
  {
    var row := from;
    while row < buf.Length
      invariant from <= row <= buf.Length
      invariant forall i :: 0 <= i < from ==> buf[i] == old(buf[i]) && info[i] == old(info[i])
      invariant forall i :: from <= i < row ==> |buf[i]| == cols && AllBlank(buf[i]) && info[i] == NO_INFO
    {
      buf[row] := seq(cols, _ => blank);
      info[row] := NO_INFO;
      row := row + 1;
    }
  }

  lemma MoveUpLines(was: Screen, now: Screen, shift: nat, r: nat)
    requires MovedUp(was, now, shift) && was.StartsLine(r) && shift <= r
    ensures now.StartsLine(r - shift)
    ensures now.LinesFrom(r - shift) == was.LinesFrom(r) + Empties(shift)
  {
    hide Lines;
    var cut := |was.rows| - shift;
    DropTwice(was.rows, shift, r);
    DropTwice(was.info, shift, r);
    TakeDrop(now.rows, r - shift, cut);
    TakeDrop(now.info, r - shift, cut);
    if r < |was.rows| {
      assert was.info[r] == was.info[r..][0] == now.info[r - shift..cut][0];
    }
    LinesFromBlank(now, r - shift, cut);
  }

  lemma MoveUpKept(before: Screen, from: nat, was: Screen, top: nat, dropped: nat, now: Screen, shift: nat)
    requires Placed(before, from, was, top, dropped) && MovedUp(was, now, shift) && shift <= top
    ensures Kept(before, from, now, top - shift, dropped, shift)
  {
    hide MovedUp, Lines;
    MoveUpLines(was, now, shift, top);
    EmptiesAdd(dropped, shift);
    EmptiesAdd(shift, dropped);
    calc {
      before.LinesFrom(from) + Empties(shift);
      (was.LinesFrom(top) + Empties(dropped)) + Empties(shift);
      { AppendAssoc(was.LinesFrom(top), Empties(dropped), Empties(shift)); }
      was.LinesFrom(top) + Empties(dropped + shift);
      { AppendAssoc(was.LinesFrom(top), Empties(shift), Empties(dropped)); }
      now.LinesFrom(top - shift) + Empties(dropped);
    }
  }

  lemma MoveUpLine(was: Screen, now: Screen, shift: nat, first: nat, last: nat)
    requires MovedUp(was, now, shift) && was.IsLine(first, last) && shift <= first && last < |was.rows|
    ensures now.IsLine(first - shift, last - shift)
  {
    forall i | shift <= i < |was.rows| ensures now.info[i - shift] == was.info[i] {
      RowMovedUp(was, now, shift, i - shift);
    }
  }

  lemma MoveUpCursor(before: Screen, was: Screen, now: Screen, dropped: nat, t: Track, shift: nat)
    requires before.Valid() && Follows(before, was, dropped, t) && MovedUp(was, now, shift)
    requires was.cols == now.cols && shift <= t.newFirst && t.newLast < |was.rows|
    requires now.cursor == Pos(was.cursor.row - shift, was.cursor.col)
    ensures CursorKept(before, now, dropped, shift, Track(t.first, t.last, t.newFirst - shift, t.newLast - shift))
  {
    hide MovedUp, Placed, Kept, CursorCopied, Screen.Width;
    MoveUpLine(was, now, shift, t.newFirst, t.newLast);
    MoveUpKept(before, t.first, was, t.newFirst, dropped, now, shift);
    CopiedMovesUp(before.Line(t.first, t.last), before.Width(t.first, t.last),
                  t.newFirst, t.newLast, was.cols, was.cursor, shift);
  }

  lemma CopiedMovesUp(src: Source, width: nat, newFirst: nat, newLast: nat, cols: nat, was: Pos, shift: nat)
    requires src.Valid() && src.HasCursor() && shift <= newFirst <= newLast
    requires CursorCopied(src, width, newFirst, newLast, cols, UNSET, was)
    ensures CursorCopied(src, width, newFirst - shift, newLast - shift, cols, UNSET, Pos(was.row - shift, was.col))
  {
  }

  // ---- The whole resize of one buffer ----

  /** How one buffer's resize came out: the rows from `next` of the old grid were placed, below
      `popped` rows read back from the scrollback; `oldRow` is the first row of the line that did
      not fit, or -1. */
  datatype Result = Result(oldRow: int, next: nat, popped: nat, dropped: nat, added: nat, t: Track)

  /** The row has the stored line's text. */
  ghost predicate ShowsLine(row: Row, line: Line) {
    SC.RowTexts(Trim(row)) == SC.TrimTexts(SC.ExtTexts(line.cells))
  }

  /** Row `i` of the new grid is the one popped line that belongs there. */
  ghost predicate RowLaid(after: Screen, lines: seq<Line>, r: Result, i: nat, fill: Fill)
    requires fill.Valid() && i < r.popped <= |lines|
  {
    var line := lines[|lines| - r.popped + i];
    && i < |after.rows| == |after.info|
    && (r.oldRow == -1 ==> !after.info[i].continuation)
    && (fill.Narrow(line, after.cols) ==> ShowsLine(after.rows[i], line))
  }

  /** Rows read back from the newest of `lines` stand above the old lines from row `next`. */
  ghost predicate Laid(before: Screen, after: Screen, lines: seq<Line>, r: Result, fill: Fill)
    requires fill.Valid()
  {
    && r.popped <= |lines| && Kept(before, r.next, after, r.popped, r.dropped, r.added)
    && forall i :: 0 <= i < r.popped ==> RowLaid(after, lines, r, i, fill)
  }

  /** The buffer with rows popped onto `newRow + 1 .. newRow0`. */
  ghost predicate Filled(was: Screen, now: Screen, newRow: int, newRow0: int, lines: seq<Line>, fill: Fill)
    requires fill.Valid() && Stored(lines)
  {
    && |was.rows| == |was.info| == |now.rows| && now.info == was.info && now.cols == was.cols
    && -1 <= newRow <= newRow0 < |was.rows| && newRow0 - newRow <= |lines|
    && (forall i :: 0 <= i <= newRow ==> now.rows[i] == was.rows[i])
    && (forall i :: newRow < i <= newRow0 ==>
          now.rows[i] == fill.Popped(lines[|lines| - 1 - newRow0 + i], was.rows[i]))
    && now.rows[newRow0 + 1..] == was.rows[newRow0 + 1..]
  }

  lemma LaidTexts(before: Screen, was: Screen, filled: Screen, after: Screen, newRow: int, newRow0: int,
                  lines: seq<Line>, fill: Fill, next: nat, dropped: nat, clean: bool, r: Result)
    requires fill.Valid() && Stored(lines) && Filled(was, filled, newRow, newRow0, lines, fill)
    requires MovedUp(filled, after, newRow + 1) && after.cols == filled.cols && Rectangular(was.rows, was.cols)
    requires Placed(before, next, was, newRow0 + 1, dropped) && (clean ==> Unflagged(was.info, newRow0))
    requires r.next == next && r.popped == newRow0 - newRow && r.dropped == dropped && r.added == newRow + 1
    requires r.oldRow == -1 ==> clean
    ensures Laid(before, after, lines, r, fill)
  {
    hide Fill.Popped, Lines, Rectangular, ShowsLine;
    FilledPlaced(before, next, was, filled, newRow, newRow0, lines, fill, dropped);
    MoveUpKept(before, next, filled, newRow0 + 1, dropped, after, newRow + 1);
    hide Kept, Placed, Screen.LinesFrom, RowLaid;
    forall i | 0 <= i < r.popped ensures RowLaid(after, lines, r, i, fill) {
      LaidRow(was, filled, after, newRow, newRow0, lines, fill, i, r);
    }
  }

  lemma LaidRow(was: Screen, filled: Screen, after: Screen, newRow: int, newRow0: int,
                lines: seq<Line>, fill: Fill, i: nat, r: Result)
    requires fill.Valid() && Stored(lines) && Filled(was, filled, newRow, newRow0, lines, fill)
    requires MovedUp(filled, after, newRow + 1) && after.cols == filled.cols && Rectangular(was.rows, was.cols)
    requires i < r.popped == newRow0 - newRow && (r.oldRow == -1 ==> Unflagged(was.info, newRow0))
    ensures RowLaid(after, lines, r, i, fill)
  {
    hide Fill.Popped, ShowsLine;
    var k := newRow + 1;
    RowMovedUp(filled, after, k, i);
    var line := lines[|lines| - (newRow0 - newRow) + i];
    if fill.Narrow(line, after.cols) {
      LineShown(fill, line, was.rows[k + i]);
    }
  }

  lemma LineShown(fill: Fill, line: Line, row: Row)
    requires fill.Valid() && fill.Narrow(line, |row|)
    ensures ShowsLine(fill.Popped(line, row), line)
  {
    fill.PoppedText(line, row);
  }

  lemma RowMovedUp(was: Screen, now: Screen, shift: nat, i: nat)
    requires MovedUp(was, now, shift) && i + shift < |was.rows|
    ensures now.rows[i] == was.rows[i + shift] && now.info[i] == was.info[i + shift]
  {
    var n := |was.rows| - shift;
    assert now.rows[..n][i] == was.rows[shift..][i] && now.info[..n][i] == was.info[shift..][i];
  }

  lemma FilledRectangular(was: Screen, now: Screen, newRow: int, newRow0: int, lines: seq<Line>, fill: Fill)
    requires fill.Valid() && Stored(lines) && Filled(was, now, newRow, newRow0, lines, fill)
    requires Rectangular(was.rows, was.cols)
    ensures Rectangular(now.rows, now.cols)
  {
    hide Fill.Popped;
    forall r | newRow0 < r < |now.rows| ensures now.rows[r] == was.rows[r] {
      assert now.rows[r] == now.rows[newRow0 + 1..][r - newRow0 - 1] == was.rows[newRow0 + 1..][r - newRow0 - 1];
    }
  }

  lemma FilledPlaced(before: Screen, next: nat, was: Screen, filled: Screen, newRow: int, newRow0: int,
                     lines: seq<Line>, fill: Fill, dropped: nat)
    requires fill.Valid() && Stored(lines) && Filled(was, filled, newRow, newRow0, lines, fill)
    requires Placed(before, next, was, newRow0 + 1, dropped)
    ensures Placed(before, next, filled, newRow0 + 1, dropped)
  {
    SameBelow(was, filled, newRow0 + 1, newRow0 + 1);
  }

  lemma FilledFollows(before: Screen, was: Screen, filled: Screen, newRow: int, newRow0: int,
                      lines: seq<Line>, fill: Fill, dropped: nat, t: Track)
    requires before.Valid() && fill.Valid() && Stored(lines) && Filled(was, filled, newRow, newRow0, lines, fill)
    requires Follows(before, was, dropped, t) && newRow0 + 1 <= t.newFirst && filled.cursor == was.cursor
    ensures Follows(before, filled, dropped, t)
  {
    hide Lines, CursorCopied, Screen.Width, Fill.Popped;
    TailOfTail(was, filled, newRow0 + 1, t.newFirst);
    SameBelow(was, filled, t.newFirst, t.newFirst);
    SameLine(was, filled, t.newFirst, t.newFirst, t.newLast);
  }

  lemma TailOfTail(was: Screen, now: Screen, k: nat, r: nat)
    requires |was.rows| == |now.rows| == |was.info| == |now.info| && k <= r <= |was.rows|
    requires now.rows[k..] == was.rows[k..] && now.info == was.info
    ensures now.rows[r..] == was.rows[r..] && now.info[r..] == was.info[r..]
  {
    DropTwice(now.rows, k, r);
    DropTwice(was.rows, k, r);
  }

  lemma StoredNewest(lines: seq<Line>, prior: seq<Line>, rows: seq<Row>, reverse: bool, revision: nat)
    requires Stored(prior) && Longest(lines, prior + Pushed(rows, reverse, revision))
    ensures Stored(lines)
  {
    var all := prior + Pushed(rows, reverse, revision);
    assert NewestOf(lines, all);
    hide Longest;
    forall i | 0 <= i < |lines| ensures SC.Advances(lines[i].cells) {
      assert lines[i] == all[|all| - |lines|..][i];
    }
  }

  /** The lines in the scrollback once the rows that did not fit are pushed. */
  ghost predicate Spilled(was: seq<Line>, lines: seq<Line>, shown: seq<Row>, primary: bool, oldRow: int,
                          reverse: bool, revision: nat)
    requires -1 <= oldRow < |shown|
  {
    if primary && oldRow >= 0 then Longest(lines, was + Pushed(shown[..oldRow + 1], reverse, revision))
    else lines == was
  }

  /** Pushes the rows that did not fit. */
  method SpillRows(ring: Ring, shown: seq<Row>, primary: bool, oldRow: int, reverse: bool, revision: nat)
    requires ring.Valid() && Stored(ring.Contents) && -1 <= oldRow < |shown|
    modifies ring, ring.history
    ensures ring.Valid() && ring.history == old(ring.history) && Stored(ring.Contents)
    ensures Spilled(old(ring.Contents), ring.Contents, shown, primary, oldRow, reverse, revision)
  {
    hide Ring.Valid, Longest;
    if oldRow >= 0 && primary {
      PushedLongest(ring.Abs(), shown[..oldRow + 1], reverse, revision);
      PushRows(ring, shown, oldRow + 1, reverse, revision);
      StoredNewest(ring.Contents, old(ring.Contents), shown[..oldRow + 1], reverse, revision);
    }
  }

  lemma FilledBy(was: Screen, rows: seq<Row>, newRow: int, newRow0: int, lines: seq<Line>, fill: Fill)
    requires fill.Valid() && Stored(lines) && |was.rows| == |was.info| == |rows|
    requires -1 <= newRow <= newRow0 < |rows| && newRow0 - newRow <= |lines|
    requires forall i :: newRow < i <= newRow0 ==> rows[i] == fill.Popped(lines[|lines| - 1 - newRow0 + i], was.rows[i])
    requires forall i :: 0 <= i < |rows| && !(newRow < i <= newRow0) ==> rows[i] == was.rows[i]
    ensures Filled(was, was.(rows := rows), newRow, newRow0, lines, fill)
  {
    hide Fill.Popped, Fill.Valid, Stored;
  }

  /** Fills the rows left free from the scrollback. */
  method FillRows(ring: Ring, buf: array<Row>, ghost info: seq<LineInfo>, ghost cols: nat, primary: bool,
                  newRow0: int, fill: Fill, ghost cursor: Pos)
    returns (newRow: int)
    requires ring.Valid() && Stored(ring.Contents) && fill.Valid() && buf as object != ring.history
    requires -1 <= newRow0 < buf.Length == |info|
    modifies buf, ring, ring.history
    ensures ring.Valid() && ring.history == old(ring.history)
    ensures -1 <= newRow <= newRow0 && newRow0 - newRow <= |old(ring.Contents)|
    ensures Filled(Screen(old(buf[..]), info, cols, cursor), Screen(buf[..], info, cols, cursor),
                   newRow, newRow0, old(ring.Contents), fill)
    ensures ring.Contents == old(ring.Contents)[..|old(ring.Contents)| - (newRow0 - newRow)]
    ensures if primary then newRow == -1 || ring.Contents == [] else newRow == newRow0
  {
    hide Ring.Valid, Fill.Popped, Fill.Valid, Stored, SC.Advances, SC.ExtRow;
    newRow := newRow0;
    ghost var was, lines := Screen(buf[..], info, cols, cursor), ring.Contents;
    if newRow >= 0 && primary {
      newRow := Backfill(buf, ring, newRow, fill);
    } else {
      assert ring.Contents[..|ring.Contents|] == ring.Contents;
    }
    FilledBy(was, buf[..], newRow, newRow0, lines, fill);
  }

  /** What a resize of one buffer is asked to do. `shown` is the buffer on display, from which
      spare rows are pushed. */
  datatype Request = Request(before: Screen, shown: seq<Row>, newRows: nat, newCols: nat,
                             active: bool, primary: bool, revision: nat, fill: Fill)
  {
    ghost predicate Valid() {
      && before.Valid() && |shown| == |before.rows| && newRows > 0 && newCols > 0
      && fill.Valid() && fill.oldCols == before.cols
    }

    /** The first row of the lowest line that does not fit, -1 if all fit, and the row below it. */
    ghost function OldRow(): (row: int)
      requires Valid()
      ensures row == -1 || (0 <= row < |before.rows| && before.StartsLine(row))
    {
      TallLine(before, 0, newRows, newCols, active)
    }

    ghost function Next(): (row: nat)
      requires Valid()
    {
      if OldRow() == -1 then 0 else before.LineEnd(OldRow()) + 1
    }

    /** The old grid split there. */
    ghost predicate Split(oldRow: int, next: nat)
      requires Valid()
    {
      Stopped(before, newRows, newCols, active, oldRow, next)
    }

    lemma SplitIs(oldRow: int, next: nat)
      requires Valid() && Split(oldRow, next)
      ensures oldRow == OldRow() && next == Next()
      ensures oldRow == -1 <==> !TooTall(before, 0, newRows, newCols, active)
    {
      hide TallLine, TooTall;
    }

    /** The cursor is on the last of several rows of the lowest line that does not fit. */
    ghost predicate CursorLost()
      requires Valid()
    {
      active && OldRow() < before.cursor.row == Next() - 1
    }

    /** Fewer rows are left free than the line that did not fit takes. */
    ghost predicate RoomLeft(oldRow: int, next: nat, rows: nat)
      requires Valid() && Split(oldRow, next)
    {
      oldRow >= 0 ==> rows < Height(before.Width(oldRow, next - 1), newCols)
    }

    ghost predicate CursorDone(after: Screen, r: Result)
      requires Valid()
    {
      active ==>
        if before.cursor.row >= r.next then CursorKept(before, after, r.dropped, r.added, r.t)
        else after.cursor == Pos(0 - r.added, Min(before.cursor.col, newCols - 1))
    }

    /** What holds after a resize: of the scrollback, of the text, and of the cursor. */
    ghost predicate Done(stored: seq<Line>, lines: seq<Line>, left: seq<Line>, after: Screen, r: Result)
      requires Valid() && -1 <= r.oldRow < |shown|
    {
      && Spilled(stored, lines, shown, primary, r.oldRow, fill.reverse, revision)
      && r.popped <= |lines| && left == lines[..|lines| - r.popped]
      && (!primary ==> r.popped == 0)
      && |after.rows| == |after.info| == newRows && after.cols == newCols && Rectangular(after.rows, newCols)
      && Laid(before, after, lines, r, fill)
      && CursorDone(after, r)
    }
  }

  /** Two rows that are one line, on a screen that is to have one row. */
  lemma TwoRowsSplit(q: Request)
    requires q.Valid() && |q.before.rows| == 2 && q.before.info[1].continuation && !AllBlank(q.before.rows[1])
    requires q.newRows == 1 && q.newCols == q.before.cols
    ensures q.OldRow() == 0 && q.Next() == 2
    ensures q.CursorLost() <==> q.active && q.before.cursor.row == 1
  {
    var s, cols := q.before, q.newCols;
    assert s.LineEnd(1) == 1 && s.LineEnd(0) == 1;
    assert Cells(1, cols) == cols && Cells(0, cols) == 0;
    TrimNone(s.rows[1]);
    assert s.Width(0, 1) > cols;
    assert s.ContentRows(2, cols) == 0;
    assert Height(s.Width(0, 1), cols) >= 2;
    assert TooTall(s, 0, 1, cols, q.active);
  }

  /** A line of two cells on a screen of one column. */
  function Pair(cell: Cell, cursorRow: nat, fill: Fill): Request {
    var before := Screen([[cell], [cell]], [NO_INFO, NO_INFO.(continuation := true)], 1, Pos(cursorRow, 0));
    Request(before, before.rows, 1, 1, true, true, 0, fill)
  }

  /** Made one row high with the cursor on its second row, it loses the cursor. */
  lemma PairLost(cell: Cell, fill: Fill)
    requires !cell.text.Blank? && fill.Valid() && fill.oldCols == 1
    ensures var q := Pair(cell, 1, fill); q.Valid() && q.CursorLost()
  {
    var q := Pair(cell, 1, fill);
    assert q.before.rows[1][0] == cell;
    assert q.Valid() && !AllBlank(q.before.rows[1]);
    hide Request.CursorLost;
    TwoRowsSplit(q);
  }

  /** The last steps, on the values of the new grid as it came from the loop, after the
      backfill, and after the scroll to the top. */
  ghost predicate Finishes(q: Request, was: Screen, filled: Screen, after: Screen, newRow: int, newRow0: int,
                           lines: seq<Line>)
    requires q.Valid() && Stored(lines)
  {
    && was.cols == q.newCols == after.cols && |was.rows| == q.newRows && Rectangular(was.rows, q.newCols)
    && Filled(was, filled, newRow, newRow0, lines, q.fill) && filled.cursor == was.cursor
    && MovedUp(filled, after, newRow + 1)
    && after.cursor == Pos(was.cursor.row - (newRow + 1), was.cursor.col)
  }

  lemma FinishText(q: Request, was: Screen, filled: Screen, after: Screen, newRow: int, newRow0: int,
                   lines: seq<Line>, finalBlank: nat, p: Progress, r: Result)
    requires q.Valid() && Stored(lines) && Finishes(q, was, filled, after, newRow, newRow0, lines)
    requires LoopInv(q.before, was, r.next, newRow0, finalBlank, p)
    requires r.popped == newRow0 - newRow && r.dropped == p.dropped && r.added == newRow + 1
    requires r.oldRow == -1 ==> p.clean
    ensures Laid(q.before, after, lines, r, q.fill)
  {
    hide Placed, MovedUp, Fill.Valid, Fill.Popped, BlankFrom, CursorInv, Unflagged, Screen.ContentRows;
    LaidTexts(q.before, was, filled, after, newRow, newRow0, lines, q.fill, r.next, p.dropped, p.clean, r);
  }

  lemma FinishCursor(q: Request, was: Screen, filled: Screen, after: Screen, newRow: int, newRow0: int,
                     lines: seq<Line>, finalBlank: nat, p: Progress, r: Result)
    requires q.Valid() && Stored(lines) && Finishes(q, was, filled, after, newRow, newRow0, lines)
    requires LoopInv(q.before, was, r.next, newRow0, finalBlank, p)
    requires r.dropped == p.dropped && r.added == newRow + 1
    requires q.active && q.before.cursor.row >= r.next && p.active
    requires r.t == Track(p.t.first, p.t.last, p.t.newFirst - r.added, p.t.newLast - r.added)
    ensures CursorKept(q.before, after, r.dropped, r.added, r.t)
  {
    hide Placed, Fill.Popped, CursorCopied, Fill.Valid, BlankFrom, Screen.ContentRows, Screen.CursorRows, Kept;
    FilledFollows(q.before, was, filled, newRow, newRow0, lines, q.fill, p.dropped, p.t);
    MoveUpCursor(q.before, filled, after, p.dropped, p.t, newRow + 1);
  }

  lemma FinishDone(q: Request, was: Screen, filled: Screen, after: Screen, newRow: int, newRow0: int,
                   stored: seq<Line>, lines: seq<Line>, left: seq<Line>, oldRow: int, next: nat,
                   finalBlank: nat, p: Progress)
    returns (r: Result)
    requires q.Valid() && Stored(lines) && Finishes(q, was, filled, after, newRow, newRow0, lines)
    requires |after.info| == q.newRows && Rectangular(after.rows, q.newCols)
    requires LoopInv(q.before, was, next, newRow0, finalBlank, p)
    requires -1 <= oldRow < |q.shown| && (oldRow == -1 ==> p.clean)
    requires Spilled(stored, lines, q.shown, q.primary, oldRow, q.fill.reverse, q.revision)
    requires -1 <= newRow <= newRow0 && newRow0 - newRow <= |lines| && left == lines[..|lines| - (newRow0 - newRow)]
    requires !q.primary ==> newRow == newRow0
    requires q.active && q.before.cursor.row >= next ==> p.active
    requires q.active && q.before.cursor.row < next ==> was.cursor == OffTop(q.before.cursor, q.newCols)
    ensures r.oldRow == oldRow && r.next == next && r.popped <= newRow0 + 1
    ensures q.Done(stored, lines, left, after, r)
  {
    hide LoopInv, Filled, Laid, CursorKept, Spilled, Fill.Valid, Screen.Valid, Stored, Rectangular;
    r := FinishTrack(q, was, filled, after, newRow, newRow0, lines, oldRow, next, finalBlank, p);
    FinishText(q, was, filled, after, newRow, newRow0, lines, finalBlank, p, r);
  }

  lemma FinishTrack(q: Request, was: Screen, filled: Screen, after: Screen, newRow: int, newRow0: int,
                    lines: seq<Line>, oldRow: int, next: nat, finalBlank: nat, p: Progress)
    returns (r: Result)
    requires q.Valid() && Stored(lines) && Finishes(q, was, filled, after, newRow, newRow0, lines)
    requires LoopInv(q.before, was, next, newRow0, finalBlank, p) && -1 <= newRow <= newRow0
    requires q.active && q.before.cursor.row >= next ==> p.active
    requires q.active && q.before.cursor.row < next ==> was.cursor == OffTop(q.before.cursor, q.newCols)
    ensures r.oldRow == oldRow && r.next == next && r.popped == newRow0 - newRow
    ensures r.dropped == p.dropped && r.added == newRow + 1 && q.CursorDone(after, r)
  {
    hide LoopInv, Filled, MovedUp, CursorKept, Fill.Valid, Screen.Valid, Stored, Rectangular;
    var k := newRow + 1;
    r := Result(oldRow, next, newRow0 - newRow, p.dropped, k, Track(p.t.first, p.t.last, 0, 0));
    if q.active && q.before.cursor.row >= next {
      CursorSet(q.before, was, next, newRow0, finalBlank, p);
      r := r.(t := Track(p.t.first, p.t.last, p.t.newFirst - k, p.t.newLast - k));
      FinishCursor(q, was, filled, after, newRow, newRow0, lines, finalBlank, p, r);
    }
  }

  /** The steps after the loop. */
  method Finish(ring: Ring, q: Request, buf: array<Row>, info: array<LineInfo>, oldRow: int, newRow0: int,
                cursor0: Pos, ghost next: nat, ghost finalBlank: nat, ghost p: Progress)
    returns (cursor: Pos, ghost lines: seq<Line>, ghost r: Result)
    requires ring.Valid() && Stored(ring.Contents) && q.Valid()
    requires buf.Length == info.Length == q.newRows && buf as object != ring.history && info as object != ring.history
    requires LoopInv(q.before, View(buf, info, q.newCols, cursor0), next, newRow0, finalBlank, p)
    requires -1 <= oldRow < |q.shown| && (oldRow == -1 ==> p.clean)
    requires q.active && q.before.cursor.row >= next ==> p.active
    requires q.active && q.before.cursor.row < next ==> cursor0 == OffTop(q.before.cursor, q.newCols)
    modifies ring, ring.history, buf, info
    ensures ring.Valid() && ring.history == old(ring.history)
    ensures r.oldRow == oldRow && r.next == next && r.popped <= newRow0 + 1
    ensures q.Done(old(ring.Contents), lines, ring.Contents, View(buf, info, q.newCols, cursor), r)
  {
    hide LoopInv, Ring.Valid, Filled, MovedUp, Laid, CursorKept, Spilled, Fill.Valid, Screen.Valid, Stored;
    ghost var was := View(buf, info, q.newCols, cursor0);
    LoopFacts(q.before, was, next, newRow0, finalBlank, p);
    var blank := q.fill.blank;
    q.fill.ClearsBlank();
    SpillRows(ring, q.shown, q.primary, oldRow, q.fill.reverse, q.revision);
    lines := ring.Contents;
    var newRow := FillRows(ring, buf, info[..], q.newCols, q.primary, newRow0, q.fill, cursor0);
    ghost var filled := View(buf, info, q.newCols, cursor0);
    FilledRectangular(was, filled, newRow, newRow0, lines, q.fill);
    cursor := ToTop(buf, info, q.newCols, newRow, blank, cursor0);
    r := FinishDone(q, was, filled, View(buf, info, q.newCols, cursor), newRow, newRow0,
                    old(ring.Contents), lines, ring.Contents, oldRow, next, finalBlank, p);
  }

  /** Closes the gap of rows above the content, if there is one. */
  method ToTop(buf: array<Row>, info: array<LineInfo>, cols: nat, newRow: int, blank: Cell, cursor0: Pos)
    returns (cursor: Pos)
    requires -1 <= newRow < buf.Length == info.Length && blank.text.Blank? && Rectangular(buf[..], cols)
    modifies buf, info
    ensures MovedUp(old(View(buf, info, cols, cursor0)), View(buf, info, cols, cursor), newRow + 1)
    ensures Rectangular(buf[..], cols)
    ensures cursor == Pos(cursor0.row - (newRow + 1), cursor0.col)
  {
    cursor := cursor0;
    if newRow >= 0 {
      cursor := ScrollToTop(buf, info, cols, newRow + 1, blank, cursor);
    } else {
      assert buf[..][..buf.Length] == buf[..][0..] && info[..][..buf.Length] == info[..][0..];
    }
  }

  /** The loop over lines; `ok` is false where the code aborts for want of a cursor position. */
  method Loop(q: Request)
    returns (ok: bool, buf: array<Row>, info: array<LineInfo>, newRow: int, oldRow: int, cursor: Pos,
             next: nat, ghost finalBlank: nat, ghost p: Progress)
    requires q.Valid()
    ensures fresh(buf) && fresh(info) && buf.Length == info.Length == q.newRows
    ensures LoopInv(q.before, View(buf, info, q.newCols, cursor), next, newRow, finalBlank, p) && -1 <= newRow
    ensures q.Split(oldRow, next) && q.RoomLeft(oldRow, next, newRow + 1) && -1 <= oldRow < |q.shown|
    ensures ok == !q.CursorLost()
    ensures oldRow == -1 ==> p.clean
    ensures q.active && q.before.cursor.row >= next ==> p.active
    ensures ok && q.active && q.before.cursor.row < next ==> cursor == OffTop(q.before.cursor, q.newCols)
  {
    assert q.fill.blank.text.Blank? && 0 <= q.before.cursor.col;
    hide LoopInv, TooTall, Stopped, Request.OldRow, Request.Next, Height, Fill.Valid, Screen.IsLine, Screen.Width, Screen.Valid;
    buf, info, newRow, oldRow, cursor, next, finalBlank, p :=
      Rewrap(q.before, q.newRows, q.newCols, q.active, q.fill.blank);
    q.SplitIs(oldRow, next);
    ok := !(q.active && (cursor.row == -1 || cursor.col == -1));
  }

  /** Resizes one buffer. */
  method ResizeBuffer(ring: Ring, q: Request)
    returns (ok: bool, buf: array<Row>, info: array<LineInfo>, cursor: Pos, ghost lines: seq<Line>, ghost r: Result)
    requires ring.Valid() && Stored(ring.Contents) && q.Valid()
    modifies ring, ring.history
    ensures ring.Valid() && ring.history == old(ring.history) && fresh(buf) && fresh(info)
    ensures q.Split(r.oldRow, r.next) && q.RoomLeft(r.oldRow, r.next, r.popped)
    ensures r.oldRow == q.OldRow() && r.next == q.Next() && ok == !q.CursorLost()
    ensures !ok ==> ring.Contents == old(ring.Contents)
    ensures ok ==> q.Done(old(ring.Contents), lines, ring.Contents, View(buf, info, q.newCols, cursor), r)
  {
    hide LoopInv, Ring.Valid, Request.Done, Request.Split, Request.CursorLost, Request.Valid, Stored, Height, Screen.Width,
      Request.OldRow, Request.Next;
    var newRow, oldRow, next;
    ghost var finalBlank, p;
    ok, buf, info, newRow, oldRow, cursor, next, finalBlank, p := Loop(q);
    q.SplitIs(oldRow, next);
    lines, r := ring.Contents, Result(oldRow, next, 0, p.dropped, 0, p.t);
    if ok {
      cursor, lines, r := Finish(ring, q, buf, info, oldRow, newRow, cursor, next, finalBlank, p);
    }
  }
}
