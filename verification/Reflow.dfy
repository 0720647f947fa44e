/** Rewrapping a screen buffer to a new size: the loop over logical lines, bottom to top. */
module Reflow {
  import opened Grid
  import opened ReflowCopy
  import opened ReflowLines

  /** The number of cells before the trailing blank end of a row. */
  method LinePopcount(row: Row) returns (count: nat)
    ensures count == |Trim(row)|
  {
    var col := |row| - 1;
    while col >= 0 && row[col].text.Blank?
      invariant -1 <= col < |row|
      invariant forall i :: col < i < |row| ==> row[i].text.Blank?
    {
      col := col - 1;
    }
    TrimUnique(row, row[..col + 1]);
    count := col + 1;
  }

  /** The first row of the line that ends at row `last`. */
  method FindStart(s: Screen, last: nat) returns (first: nat)
    requires s.Valid() && last < |s.rows| && s.StartsLine(last + 1)
    ensures s.IsLine(first, last)
  {
    first := last;
    while s.info[first].continuation
      invariant first <= last
      invariant forall k :: first < k <= last ==> s.info[k].continuation
      decreases first
    {
      first := first - 1;
    }
  }

  method LineWidth(s: Screen, first: nat, last: nat) returns (width: nat)
    requires s.Valid() && s.IsLine(first, last)
    ensures width == s.Width(first, last)
  {
    width := 0;
    for row := first to last + 1
      invariant width == if row <= last then Cells(row - first, s.cols) else s.Width(first, last)
    {
      if row < |s.rows| - 1 && s.info[row + 1].continuation {
        width := width + s.cols;
      } else {
        var count := LinePopcount(s.rows[row]);
        width := width + count;
      }
    }
  }

  method LineHeight(width: nat, newCols: nat) returns (height: nat)
    requires newCols > 0
    ensures height == Height(width, newCols)
  {
    HeightIsQuotient(width, newCols);
    height := if width == 0 then 1 else (width + newCols - 1) / newCols;
  }

  /** Moves the elements of `a` towards the end, as memmove does; the first ones stay behind. */
  method MoveDown<T>(a: array<T>, shift: nat)
    requires shift <= a.Length
    modifies a
    ensures forall i :: 0 <= i < shift ==> a[i] == old(a[i])
    ensures forall i :: shift <= i < a.Length ==> a[i] == old(a[i - shift])
  {
    forall i | shift <= i < a.Length { a[i] := a[i - shift]; }
  }

  /** Moves the last `a.Length - shift` elements to the front. */
  method MoveUp<T>(a: array<T>, shift: nat)
    requires shift <= a.Length
    modifies a
    ensures forall i :: 0 <= i < a.Length - shift ==> a[i] == old(a[i + shift])
    ensures forall i :: a.Length - shift <= i < a.Length ==> a[i] == old(a[i])
  {
    forall i | 0 <= i < a.Length - shift { a[i] := a[i + shift]; }
  }

  /** The new buffer as a screen. */
  ghost function View(buf: array<Row>, info: array<LineInfo>, cols: nat, cursor: Pos): Screen
    reads buf, info
  {
    Screen(buf[..], info[..], cols, cursor)
  }

  /** Scrolls the new grid down over its last `shift` rows. */
  method ScrollDown(buf: array<Row>, info: array<LineInfo>, cols: nat, shift: nat, cursor0: Pos)
    returns (cursor: Pos)
    requires buf.Length == info.Length && shift <= buf.Length && Rectangular(buf[..], cols)
    requires BlankFrom(View(buf, info, cols, cursor0), buf.Length - shift)
    modifies buf, info
    ensures MovedDown(old(View(buf, info, cols, cursor0)), View(buf, info, cols, cursor), shift)
    ensures Rectangular(buf[..], cols)
    ensures cursor == if cursor0.row >= 0 then Pos(cursor0.row + shift, cursor0.col) else cursor0
  {
    MoveDown(buf, shift);
    MoveDown(info, shift);
    cursor := cursor0;
    if cursor.row >= 0 {
      cursor := Pos(cursor.row + shift, cursor.col);
    }
  }

  /** How far the loop has come: empty lines dropped at the bottom, the rows of the cursor's
      line, and whether the rows still to be filled are as they were allocated. */
  datatype Progress = Progress(active: bool, dropped: nat, t: Track, clean: bool) {
    function Shifted(shift: nat): Progress {
      Progress(active, dropped + shift,
               Track(t.first, t.last, t.newFirst + shift, t.newLast + shift), clean && shift == 0)
    }
  }

  function Begun(active: bool): Progress { Progress(active, 0, Track(0, 0, 0, 0), true) }

  /** What holds at the head of the loop over lines. */
  ghost predicate LoopInv(before: Screen, after: Screen, next: nat, newRow: int, finalBlank: nat, p: Progress) {
    && newRow >= -1
    && GridInv(before, after, next, newRow + 1, finalBlank, p.dropped)
    && (p.active ==> CursorInv(before, after, next, newRow + 1, p.dropped, p.t))
    && (p.clean ==> Unflagged(after.info, newRow))
  }

  /** Rows `0..row` start lines of their own. */
  ghost predicate Unflagged(info: seq<LineInfo>, row: int) {
    forall i :: 0 <= i <= row && i < |info| ==> !info[i].continuation
  }

  lemma LoopMoves(before: Screen, was: Screen, now: Screen, next: nat, newRow: int, finalBlank: nat, p: Progress, shift: nat)
    requires LoopInv(before, was, next, newRow, finalBlank, p)
    requires now.cols == was.cols && Rectangular(now.rows, now.cols) && MovedDown(was, now, shift)
    requires now.cursor == if was.cursor.row >= 0 then Pos(was.cursor.row + shift, was.cursor.col) else was.cursor
    requires finalBlank + shift <= |was.rows| && (p.active ==> now.cursor.row < |was.rows|)
    ensures LoopInv(before, now, next, newRow + shift, finalBlank + shift, p.Shifted(shift))
  {
    hide Follows, Lines, Screen.Width, Screen.IsLine, Screen.ContentRows, Screen.CursorRows;
    GridMoves(before, was, now, next, newRow + 1, finalBlank, p.dropped, shift);
    if p.active {
      CursorMoves(before, was, now, next, newRow + 1, p.dropped, p.t, shift);
    }
    if shift == 0 {
      assert now.info[0..] == now.info && was.info[..|was.info|] == was.info;
    }
  }

  method ScrollPlaced(ghost before: Screen, buf: array<Row>, info: array<LineInfo>, cols: nat, shift: nat, cursor0: Pos,
                      ghost next: nat, ghost newRow: int, ghost finalBlank: nat, ghost p: Progress)
    returns (cursor: Pos)
    requires LoopInv(before, View(buf, info, cols, cursor0), next, newRow, finalBlank, p)
    requires finalBlank + shift <= buf.Length
    requires p.active ==> cursor0.row == -1 || cursor0.row + shift < buf.Length
    modifies buf, info
    ensures LoopInv(before, View(buf, info, cols, cursor), next, newRow + shift, finalBlank + shift, p.Shifted(shift))
  {
    ghost var was := View(buf, info, cols, cursor0);
    assert Rectangular(was.rows, cols) && BlankFrom(was, finalBlank) && |was.rows| == |was.info|;
    hide LoopInv, MovedDown, Rectangular;
    cursor := ScrollDown(buf, info, cols, shift, cursor0);
    LoopMoves(before, was, View(buf, info, cols, cursor), next, newRow, finalBlank, p, shift);
  }

  /** The line does not fit: the lines from it down need more rows than there are, even without
      the empty lines at the bottom, or keeping the cursor on the screen needs them. */
  ghost predicate TooTall(before: Screen, first: nat, newRows: nat, newCols: nat, active: bool)
    requires before.Valid() && before.StartsLine(first) && newCols > 0
  {
    || before.ContentRows(first, newCols) > newRows
    || (active && before.cursor.row >= first && before.CursorRows(first, newCols) > newRows)
  }

  /** Makes room above for a line of `height` rows, by scrolling blank rows off the bottom. */
  method MakeRoom(before: Screen, buf: array<Row>, info: array<LineInfo>, newCols: nat, active: bool,
                  first: nat, last: nat, width: nat, height: nat,
                  newRow0: int, finalBlank0: nat, cursor0: Pos, ghost p0: Progress)
    returns (fits: bool, newRow: int, finalBlank: nat, cursor: Pos, ghost p: Progress)
    requires buf.Length == info.Length > 0 && p0.active == active && p0.clean
    requires LoopInv(before, View(buf, info, newCols, cursor0), last + 1, newRow0, finalBlank0, p0)
    requires before.IsLine(first, last) && width == before.Width(first, last) && height == Height(width, newCols)
    modifies buf, info
    ensures p.active == active && LoopInv(before, View(buf, info, newCols, cursor), last + 1, newRow, finalBlank, p)
    ensures fits <==> newRow - height + 1 >= 0
    ensures fits ==> newRow < buf.Length && (p.clean || newRow - height + 1 == 0)
    ensures !fits ==> TooTall(before, first, buf.Length, newCols, active)
  {
    hide Placed, Follows, Lines, Screen.Width, BlankFrom, Unflagged;
    newRow, finalBlank, cursor, p := newRow0, finalBlank0, cursor0, p0;
    var blank := if finalBlank == newRow + 1 && width == 0 then newRow else finalBlank;
    var newStart := newRow - height + 1;
    var spare := buf.Length - blank;
    LineEndUnique(before, first, last);
    if newStart < 0 && spare >= 0 && (!active || cursor.row == -1 || cursor.row - newStart < buf.Length) {
      var downwards := -newStart;
      if downwards > spare { downwards := spare; }
      cursor := ScrollPlaced(before, buf, info, newCols, downwards, cursor, last + 1, newRow, finalBlank, p);
      newRow, newStart, finalBlank := newRow + downwards, newStart + downwards, finalBlank + downwards;
      p := p.Shifted(downwards);
    }
    fits := newStart >= 0;
  }

  lemma TargetValid(before: Screen, src: Source, tgt: Target)
    requires before.Valid() && before.IsLine(src.first, src.last) && src == before.Line(src.first, src.last)
    requires tgt.first <= tgt.last && tgt.cols > 0 && tgt.width == before.Width(src.first, src.last)
    requires tgt.last - tgt.first + 1 == Height(tgt.width, tgt.cols)
    ensures tgt.Valid(src)
  {
    WidthKeepsText(before, src.first, src.last);
  }

  lemma IsLineCopied(was: Screen, now: Screen, first: nat, last: nat)
    requires |was.rows| == |was.info| == |now.rows| == |now.info| && first <= last < |now.rows|
    requires was.StartsLine(last + 1)
    requires now.info[last + 1..] == was.info[last + 1..]
    requires forall i :: first <= i <= last ==> now.info[i].continuation == (i > first)
    ensures now.IsLine(first, last)
  {
    if last + 1 < |now.info| {
      assert now.info[last + 1] == now.info[last + 1..][0] == was.info[last + 1..][0];
    }
  }

  lemma UnflaggedKept(was: seq<LineInfo>, now: seq<LineInfo>, row: int, k: nat)
    requires Unflagged(was, row) && k <= row + 1 && k <= |was| == |now| && now[..k] == was[..k]
    ensures Unflagged(now, k - 1)
  {
    forall i | 0 <= i < k ensures now[i] == was[i] {
      assert now[..k][i] == was[..k][i];
    }
  }

  /** Copies one line to right above row `tgt.last + 1`, where a line starts. */
  method CopyPlaced(before: Screen, buf: array<Row>, info: array<LineInfo>, src: Source, tgt: Target, blank: Cell)
    returns (cursor: Pos)
    requires before.Valid() && before.IsLine(src.first, src.last) && src == before.Line(src.first, src.last)
    requires tgt.Valid(src) && tgt.width == before.Width(src.first, src.last)
    requires tgt.last < buf.Length == info.Length && blank.text.Blank?
    requires Rectangular(buf[..], tgt.cols)
    requires View(buf, info, tgt.cols, tgt.cursor).StartsLine(tgt.last + 1)
    modifies buf, info
    ensures Rectangular(buf[..], tgt.cols)
    ensures PlacesLine(before, old(View(buf, info, tgt.cols, tgt.cursor)), View(buf, info, tgt.cols, cursor), src, tgt)
    ensures Unflagged(old(info[..]), tgt.last) ==> Unflagged(info[..], tgt.first - 1)
  {
    assert tgt.first <= tgt.last && tgt.cols > 0;
    hide Target.Valid, Target.Finished, Screen.Valid, Rectangular;
    ghost var was := View(buf, info, tgt.cols, tgt.cursor);
    cursor := CopyLine(buf, info, src, tgt, blank);
    IsLineCopied(was, View(buf, info, tgt.cols, cursor), tgt.first, tgt.last);
    if Unflagged(was.info, tgt.last) {
      UnflaggedKept(was.info, info[..], tgt.last, tgt.first);
    }
  }

  lemma LinePlaced(before: Screen, was: Screen, now: Screen, src: Source, tgt: Target, finalBlank: nat, p0: Progress)
    returns (p: Progress)
    requires LoopInv(before, was, src.last + 1, tgt.last, finalBlank, p0)
    requires PlacesLine(before, was, now, src, tgt) && Rectangular(now.rows, now.cols)
    requires Unflagged(was.info, tgt.last) ==> Unflagged(now.info, tgt.first - 1)
    requires p0.clean || tgt.first == 0
    ensures LoopInv(before, now, src.first, tgt.first - 1,
      if finalBlank == tgt.last + 1 && tgt.width == 0 then tgt.last else finalBlank, p)
    ensures p.active == p0.active && p.clean
  {
    hide Target.Valid, CursorInv, Follows, BlankFrom, Height, Screen.Valid, Lines;
    p := p0.(clean := true,
             t := if src.HasCursor() then Track(src.first, src.last, tgt.first, tgt.last) else p0.t);
    GridPlaces(before, was, now, src, tgt, finalBlank, p0.dropped);
    if p0.active {
      CursorPlaces(before, was, now, src, tgt, p0.dropped, p0.t);
    }
  }

  /** Copies one line, with the placed lines right below it. */
  method PlaceLineAbove(before: Screen, buf: array<Row>, info: array<LineInfo>, newCols: nat, blank: Cell,
                        first: nat, last: nat, newStart: nat, newEnd: nat, width: nat, cursor0: Pos,
                        finalBlank0: nat, ghost p0: Progress)
    returns (cursor: Pos, finalBlank: nat, ghost p: Progress)
    requires newStart <= newEnd < buf.Length == info.Length && blank.text.Blank?
    requires LoopInv(before, View(buf, info, newCols, cursor0), last + 1, newEnd, finalBlank0, p0)
    requires p0.clean || newStart == 0
    requires before.IsLine(first, last) && width == before.Width(first, last)
    requires newEnd - newStart + 1 == Height(width, newCols)
    modifies buf, info
    ensures LoopInv(before, View(buf, info, newCols, cursor), first, newStart - 1, finalBlank, p)
    ensures p.active == p0.active && p.clean
  {
    ghost var was := View(buf, info, newCols, cursor0);
    var src := before.Line(first, last);
    var tgt := Target(newStart, newEnd, newCols, width, cursor0);
    LoopFacts(before, was, last + 1, newEnd, finalBlank0, p0);
    TargetValid(before, src, tgt);
    hide Target.Valid, LoopInv, Height, Screen.Valid, PlacesLine, Screen.Width, Screen.IsLine, Rectangular,
         Screen.StartsLine, Unflagged;
    cursor := CopyPlaced(before, buf, info, src, tgt, blank);
    p := LinePlaced(before, was, View(buf, info, newCols, cursor), src, tgt, finalBlank0, p0);
    finalBlank := if finalBlank0 == newEnd + 1 && width == 0 then newEnd else finalBlank0;
  }

  lemma LoopFacts(before: Screen, after: Screen, next: nat, newRow: int, finalBlank: nat, p: Progress)
    requires LoopInv(before, after, next, newRow, finalBlank, p)
    ensures before.Valid() && before.StartsLine(next) && -1 <= newRow && after.StartsLine(newRow + 1)
    ensures after.cols > 0 && Rectangular(after.rows, after.cols)
  {
  }

  /** The lines that are placed are not too tall. */
  lemma PlacedFit(before: Screen, after: Screen, next: nat, newRow: int, finalBlank: nat, p: Progress)
    requires LoopInv(before, after, next, newRow, finalBlank, p)
    ensures !TooTall(before, next, |after.rows|, after.cols, p.active)
  {
    hide Placed, Screen.ContentRows, Screen.CursorRows, CursorCopied, BlankFrom;
  }

  lemma TooTallAbove(before: Screen, first: nat, newRows: nat, newCols: nat, active: bool)
    requires before.Valid() && before.StartsLine(first) && newCols > 0
    requires TooTall(before, first, newRows, newCols, active)
    ensures TooTall(before, 0, newRows, newCols, active)
  {
    RowsGrow(before, 0, first, newCols);
  }

  /** The first row of the lowest line, from row `r` down, that does not fit; -1 if all fit. */
  ghost function TallLine(s: Screen, r: nat, newRows: nat, newCols: nat, active: bool): (first: int)
    requires s.Valid() && s.StartsLine(r) && newCols > 0
    ensures first == -1 || (r <= first < |s.rows| && s.StartsLine(first))
    decreases |s.rows| - r
  {
    if r == |s.rows| then -1
    else
      var below := TallLine(s, s.LineEnd(r) + 1, newRows, newCols, active);
      if below >= 0 then below else if TooTall(s, r, newRows, newCols, active) then r else -1
  }

  lemma {:induction false} NoneTall(s: Screen, r: nat, newRows: nat, newCols: nat, active: bool)
    requires s.Valid() && s.StartsLine(r) && newCols > 0 && !TooTall(s, r, newRows, newCols, active)
    ensures TallLine(s, r, newRows, newCols, active) == -1
    decreases |s.rows| - r
  {
    if r < |s.rows| {
      RowsGrow(s, r, s.LineEnd(r) + 1, newCols);
      NoneTall(s, s.LineEnd(r) + 1, newRows, newCols, active);
    }
  }

  /** A line that does not fit while those below it do is that line. */
  lemma {:induction false} TallLineIs(s: Screen, r: nat, first: nat, last: nat, newRows: nat, newCols: nat, active: bool)
    requires s.Valid() && s.StartsLine(r) && newCols > 0 && s.IsLine(first, last) && r <= first
    requires TooTall(s, first, newRows, newCols, active) && !TooTall(s, last + 1, newRows, newCols, active)
    ensures TallLine(s, r, newRows, newCols, active) == first && last == s.LineEnd(first)
    decreases |s.rows| - r
  {
    LineEndUnique(s, first, last);
    assert s.StartsLine(first) && s.StartsLine(last + 1);
    if r < first {
      LineEndsBefore(s, r, first);
    }
    hide TooTall, Screen.IsLine, Screen.Valid, Screen.StartsLine, Screen.LineEnd;
    if r == first {
      NoneTall(s, last + 1, newRows, newCols, active);
    } else {
      TallLineIs(s, s.LineEnd(r) + 1, first, last, newRows, newCols, active);
    }
  }

  /** The old grid split at the lowest line that does not fit, rows `oldRow..next-1`. */
  ghost predicate Stopped(before: Screen, newRows: nat, newCols: nat, active: bool, oldRow: int, next: nat)
    requires before.Valid() && newCols > 0
  {
    && oldRow == TallLine(before, 0, newRows, newCols, active)
    && (oldRow == -1 <==> !TooTall(before, 0, newRows, newCols, active))
    && (if oldRow == -1 then next == 0
        else next == before.LineEnd(oldRow) + 1 <= |before.rows| && before.IsLine(oldRow, next - 1))
  }

  lemma StoppedAt(before: Screen, oldRow: nat, last: nat, newRows: nat, newCols: nat, active: bool)
    requires before.Valid() && newCols > 0 && before.IsLine(oldRow, last)
    requires TooTall(before, oldRow, newRows, newCols, active) && !TooTall(before, last + 1, newRows, newCols, active)
    ensures Stopped(before, newRows, newCols, active, oldRow, last + 1)
  {
    LineEndUnique(before, oldRow, last);
    TallLineIs(before, 0, oldRow, last, newRows, newCols, active);
    assert before.StartsLine(oldRow) && last + 1 <= |before.rows|;
    hide TooTall, TallLine, Screen.LineEnd, Screen.IsLine, Screen.StartsLine, Screen.Valid;
    TooTallAbove(before, oldRow, newRows, newCols, active);
  }

  /** The loop stops at a line: it is the lowest that does not fit. */
  lemma StopsAt(before: Screen, after: Screen, oldRow: nat, next: nat, newRow: int, finalBlank: nat, p: Progress)
    requires LoopInv(before, after, next, newRow, finalBlank, p) && next > 0 && before.IsLine(oldRow, next - 1)
    requires TooTall(before, oldRow, |after.rows|, after.cols, p.active)
    ensures Stopped(before, |after.rows|, after.cols, p.active, oldRow, next)
  {
    PlacedFit(before, after, next, newRow, finalBlank, p);
    LoopFacts(before, after, next, newRow, finalBlank, p);
    hide *;
    StoppedAt(before, oldRow, next - 1, |after.rows|, after.cols, p.active);
  }

  /** All lines are placed: nothing was too tall. */
  lemma AllFit(before: Screen, after: Screen, newRow: int, finalBlank: nat, p: Progress)
    requires LoopInv(before, after, 0, newRow, finalBlank, p)
    ensures Stopped(before, |after.rows|, after.cols, p.active, -1, 0)
  {
    PlacedFit(before, after, 0, newRow, finalBlank, p);
    hide LoopInv, TooTall, TallLine;
    NoneTall(before, 0, |after.rows|, after.cols, p.active);
  }

  /** One turn of the loop: the line that ends at row `last`. */
  method Turn(before: Screen, buf: array<Row>, info: array<LineInfo>, newCols: nat, active: bool, blank: Cell,
              last: nat, newRow0: int, finalBlank0: nat, cursor0: Pos, ghost p0: Progress)
    returns (fits: bool, first: nat, newRow: int, finalBlank: nat, cursor: Pos, ghost p: Progress)
    requires buf.Length == info.Length > 0 && last < |before.rows| && blank.text.Blank?
    requires p0.active == active && p0.clean
    requires LoopInv(before, View(buf, info, newCols, cursor0), last + 1, newRow0, finalBlank0, p0)
    modifies buf, info
    ensures first <= last && before.IsLine(first, last) && p.active == active && (fits ==> p.clean)
    ensures LoopInv(before, View(buf, info, newCols, cursor), if fits then first else last + 1, newRow, finalBlank, p)
    ensures !fits ==> Stopped(before, buf.Length, newCols, active, first, last + 1)
    ensures !fits ==> newRow + 1 < Height(before.Width(first, last), newCols)
  {
    LoopFacts(before, View(buf, info, newCols, cursor0), last + 1, newRow0, finalBlank0, p0);
    hide LoopInv, TooTall, Stopped, Screen.Width, Height, Screen.IsLine, Screen.Valid, Screen.StartsLine;
    first := FindStart(before, last);
    var width := LineWidth(before, first, last);
    var height := LineHeight(width, newCols);
    fits, newRow, finalBlank, cursor, p :=
      FitLine(before, buf, info, newCols, active, blank, first, last, width, height, newRow0, finalBlank0, cursor0, p0);
    if !fits {
      StopsAt(before, View(buf, info, newCols, cursor), first, last + 1, newRow, finalBlank, p);
    }
  }

  /** Makes room for the line and copies it there. */
  method FitLine(before: Screen, buf: array<Row>, info: array<LineInfo>, newCols: nat, active: bool, blank: Cell,
                 first: nat, last: nat, width: nat, height: nat,
                 newRow0: int, finalBlank0: nat, cursor0: Pos, ghost p0: Progress)
    returns (fits: bool, newRow: int, finalBlank: nat, cursor: Pos, ghost p: Progress)
    requires buf.Length == info.Length > 0 && blank.text.Blank? && p0.active == active && p0.clean
    requires LoopInv(before, View(buf, info, newCols, cursor0), last + 1, newRow0, finalBlank0, p0)
    requires before.IsLine(first, last) && width == before.Width(first, last) && height == Height(width, newCols)
    modifies buf, info
    ensures p.active == active && (fits ==> p.clean)
    ensures LoopInv(before, View(buf, info, newCols, cursor), if fits then first else last + 1, newRow, finalBlank, p)
    ensures !fits ==> newRow + 1 < height && TooTall(before, first, buf.Length, newCols, active)
  {
    hide LoopInv, TooTall, Screen.Width, Height, Screen.IsLine, Screen.Valid, Screen.StartsLine;
    fits, newRow, finalBlank, cursor, p :=
      MakeRoom(before, buf, info, newCols, active, first, last, width, height, newRow0, finalBlank0, cursor0, p0);
    if fits {
      var newStart := newRow - height + 1;
      cursor, finalBlank, p :=
        PlaceLineAbove(before, buf, info, newCols, blank, first, last, newStart, newRow, width, cursor, finalBlank, p);
      newRow := newStart - 1;
    }
  }

  /** The cursor's row falls off the top: row 0, clipped to the last column. */
  function OffTop(cursor: Pos, newCols: nat): Pos {
    Pos(0, Min(cursor.col, newCols - 1))
  }

  lemma Start(before: Screen, after: Screen, p: Progress)
    requires before.Valid() && |after.rows| == |after.info| && after.cols > 0 && Rectangular(after.rows, after.cols)
    requires after.cursor == UNSET && p.dropped == 0 && forall i :: 0 <= i < |after.info| ==> after.info[i] == NO_INFO
    ensures LoopInv(before, after, |before.rows|, |after.rows| - 1, |after.rows|, p)
  {
  }

  /** Only the cursor's part of what holds reads the new cursor. */
  lemma GridOnly(before: Screen, after: Screen, next: nat, newRow: int, finalBlank: nat, p: Progress, cursor: Pos)
    requires LoopInv(before, after, next, newRow, finalBlank, p) && before.cursor.row < next
    ensures LoopInv(before, after.(cursor := cursor), next, newRow, finalBlank, p.(active := false))
    ensures p.active ==> after.cursor == UNSET
  {
    hide Lines, Screen.ContentRows;
  }

  /** The new grid as it is allocated. */
  method Allocate(ghost before: Screen, newRows: nat, newCols: nat, blank: Cell, ghost p: Progress)
    returns (buf: array<Row>, info: array<LineInfo>)
    requires before.Valid() && newCols > 0 && p.dropped == 0
    ensures fresh(buf) && fresh(info) && buf.Length == info.Length == newRows
    ensures LoopInv(before, View(buf, info, newCols, UNSET), |before.rows|, newRows - 1, newRows, p)
  {
    buf := new Row[newRows](_ => seq(newCols, _ => blank));
    info := new LineInfo[newRows](_ => NO_INFO);
    Start(before, View(buf, info, newCols, UNSET), p);
    hide LoopInv;
  }

  /** The loop over logical lines. It stops above row `next` of the old buffer, with `oldRow`
      the first row of the line it could not place, or -1. */
  method PlaceLines(before: Screen, buf: array<Row>, info: array<LineInfo>, newCols: nat, active: bool, blank: Cell)
    returns (newRow: int, oldRow: int, cursor: Pos, next: nat, finalBlank: nat, ghost p: Progress)
    requires before.Valid() && buf.Length == info.Length > 0 && newCols > 0 && blank.text.Blank?
    requires LoopInv(before, View(buf, info, newCols, UNSET), |before.rows|, buf.Length - 1, buf.Length, Begun(active))
    modifies buf, info
    ensures LoopInv(before, View(buf, info, newCols, cursor), next, newRow, finalBlank, p) && p.active == active
    ensures Stopped(before, buf.Length, newCols, active, oldRow, next) && -1 <= oldRow < next <= |before.rows|
    ensures if oldRow == -1 then next == 0 && p.clean
            else newRow + 1 < Height(before.Width(oldRow, next - 1), newCols)
  {
    hide LoopInv, TooTall, Stopped, Height, Screen.Width, Screen.IsLine, Screen.Valid;
    oldRow, newRow, cursor := |before.rows| - 1, buf.Length - 1, UNSET;
    next, finalBlank, p := |before.rows|, buf.Length, Begun(active);
    while oldRow >= 0
      invariant -1 <= oldRow && next == oldRow + 1 <= |before.rows| && p.active == active && p.clean
      invariant LoopInv(before, View(buf, info, newCols, cursor), next, newRow, finalBlank, p)
    {
      var fits;
      fits, oldRow, newRow, finalBlank, cursor, p :=
        Turn(before, buf, info, newCols, active, blank, oldRow, newRow, finalBlank, cursor, p);
      if !fits {
        break;
      }
      next, oldRow := oldRow, oldRow - 1;
    }
    if oldRow < 0 {
      AllFit(before, View(buf, info, newCols, cursor), newRow, finalBlank, p);
    }
  }

  /** The lines poured into the new grid, and the cursor brought into range. */
  method Rewrap(before: Screen, newRows: nat, newCols: nat, active: bool, blank: Cell)
    returns (buf: array<Row>, info: array<LineInfo>, newRow: int, oldRow: int, cursor: Pos,
             next: nat, ghost finalBlank: nat, ghost p: Progress)
    requires before.Valid() && newRows > 0 && newCols > 0 && blank.text.Blank?
    ensures fresh(buf) && fresh(info) && buf.Length == info.Length == newRows
    ensures LoopInv(before, View(buf, info, newCols, cursor), next, newRow, finalBlank, p)
    ensures Stopped(before, newRows, newCols, active, oldRow, next) && -1 <= oldRow < next <= |before.rows|
    ensures if oldRow == -1 then next == 0 && p.clean
            else newRow + 1 < Height(before.Width(oldRow, next - 1), newCols)
    ensures active && before.cursor.row >= next ==> p.active && cursor.row >= 0 && cursor.col >= 0
    ensures active && before.cursor.row < next ==>
      if oldRow < before.cursor.row == next - 1 then cursor == UNSET
      else cursor == OffTop(before.cursor, newCols)
  {
    hide LoopInv, TooTall, Stopped, Height, Screen.Width, Screen.IsLine, Screen.Valid;
    buf, info := Allocate(before, newRows, newCols, blank, Begun(active));
    newRow, oldRow, cursor, next, finalBlank, p := PlaceLines(before, buf, info, newCols, active, blank);
    cursor, p := BringIntoRange(before, buf, info, newCols, oldRow, cursor, next, newRow, finalBlank, p);
  }

  /** A cursor on a row above the placed lines is put on row 0, unless it was on the last of
      several rows of the line that did not fit. */
  method BringIntoRange(before: Screen, buf: array<Row>, info: array<LineInfo>, newCols: nat, oldRow: int, cursor0: Pos,
                        next: nat, ghost newRow: int, ghost finalBlank: nat, ghost p0: Progress)
    returns (cursor: Pos, ghost p: Progress)
    requires LoopInv(before, View(buf, info, newCols, cursor0), next, newRow, finalBlank, p0)
    requires -1 <= oldRow < next && (oldRow == -1 ==> next == 0)
    ensures LoopInv(before, View(buf, info, newCols, cursor), next, newRow, finalBlank, p)
    ensures p == p0.(active := p0.active && before.cursor.row >= next)
    ensures p.active ==> cursor.row >= 0 && cursor.col >= 0
    ensures p0.active && before.cursor.row < next ==>
      if oldRow < before.cursor.row == next - 1 then cursor == UNSET
      else cursor == OffTop(before.cursor, newCols)
  {
    hide LoopInv;
    cursor, p := cursor0, p0;
    if oldRow >= 0 && oldRow <= before.cursor.row < next - 1 {
      cursor := OffTop(before.cursor, newCols);
    }
    if before.cursor.row <= oldRow {
      cursor := OffTop(before.cursor, newCols);
    }
    if before.cursor.row < next {
      GridOnly(before, View(buf, info, newCols, cursor0), next, newRow, finalBlank, p0, cursor);
      p := p0.(active := false);
    } else if p.active {
      CursorSet(before, View(buf, info, newCols, cursor0), next, newRow, finalBlank, p);
    }
  }

  lemma CursorSet(before: Screen, after: Screen, next: nat, newRow: int, finalBlank: nat, p: Progress)
    requires LoopInv(before, after, next, newRow, finalBlank, p) && p.active && before.cursor.row >= next
    ensures after.cursor.row >= 0 && after.cursor.col >= 0
    ensures newRow + 1 <= p.t.newFirst <= p.t.newLast
  {
    hide CursorCopied, Placed, BlankFrom, Screen.ContentRows, Screen.CursorRows;
  }
}
