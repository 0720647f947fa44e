/** Cells in the form the scrollback callbacks exchange, and back. */
module ScreenCells {
  import opened Grid
  import opened History

  function Flip(pen: Pen, reverse: bool): Pen {
    pen.(reverse := pen.reverse != reverse)
  }

  function Width(row: Row, col: nat): nat
    requires col < |row|
  {
    if col + 1 < |row| && row[col + 1].text.Gap? then 2 else 1
  }

  /** A row as vterm_screen_get_cell reports it, cell by cell. */
  function ExtRow(row: Row, reverse: bool): (cells: seq<ExtCell>)
    ensures |cells| == |row|
    ensures forall i :: 0 <= i < |row| ==>
      cells[i] == ExtCell(row[i].text, Width(row, i), Flip(row[i].pen.pen, reverse))
  {
    seq(|row|, i requires 0 <= i < |row| =>
      ExtCell(row[i].text, Width(row, i), Flip(row[i].pen.pen, reverse)))
  }

  /** Widths agree with the gaps: a cell is two columns wide just when a gap follows. */
  predicate WellFormed(cells: seq<ExtCell>) {
    forall i {:trigger cells[i].width} :: 0 <= i < |cells| ==>
      cells[i].width == if i + 1 < |cells| && cells[i + 1].text.Gap? then 2 else 1
  }

  /** Every cell takes up a column, so that a walk over the cells ends. */
  predicate Advances(cells: seq<ExtCell>) {
    forall i {:trigger cells[i].width} :: 0 <= i < |cells| ==> cells[i].width >= 1
  }

  lemma FitWellFormed(cells: seq<ExtCell>, cols: nat, blank: ExtCell)
    requires WellFormed(cells) && |cells| <= cols && blank.width == 1 && blank.text.Blank?
    ensures WellFormed(Fit(cells, cols, blank))
  {
  }

  /** The text of a row without trailing blanks. */
  function TrimTexts(s: seq<Text>): (t: seq<Text>)
    ensures t <= s
  {
    if s != [] && s[|s| - 1].Blank? then TrimTexts(s[..|s| - 1]) else s
  }

  function RowTexts(row: Row): (s: seq<Text>)
    ensures |s| == |row| && forall i :: 0 <= i < |row| ==> s[i] == row[i].text
  {
    seq(|row|, i requires 0 <= i < |row| => row[i].text)
  }

  function ExtTexts(cells: seq<ExtCell>): (s: seq<Text>)
    ensures |s| == |cells| && forall i :: 0 <= i < |cells| ==> s[i] == cells[i].text
  {
    seq(|cells|, i requires 0 <= i < |cells| => cells[i].text)
  }

  lemma {:induction false} TrimTextsOfRow(row: Row)
    ensures TrimTexts(RowTexts(row)) == RowTexts(Trim(row))
  {
    if row != [] && row[|row| - 1].text.Blank? {
      var n := |row| - 1;
      assert RowTexts(row)[..n] == RowTexts(row[..n]);
      TrimTextsOfRow(row[..n]);
    }
  }

  lemma {:induction false} TrimTextsPadded(s: seq<Text>, n: nat)
    ensures TrimTexts(s + seq(n, _ => Blank)) == TrimTexts(s)
  {
    var pad := seq(n, _ => Blank);
    if n > 0 {
      TrimTextsPadded(s, n - 1);
      assert (s + pad)[..|s| + n - 1] == s + seq(n - 1, _ => Blank);
    } else {
      assert s + pad == s;
    }
  }

  /** A popped cell written into a screen cell; what the callback does not carry stays. */
  function PutCell(cell: Cell, src: ExtCell, reverse: bool): Cell {
    Cell(src.text, cell.pen.(pen := Flip(src.pen, reverse)))
  }

  /** The screen row a popped line becomes, written over `row` from column `col` on. */
  function Restored(cells: seq<ExtCell>, col: nat, row: Row, reverse: bool, blank: Cell): (r: Row)
    requires Advances(cells)
    ensures |r| == |row|
    decreases |row| - col
  {
    if col >= |row| then row
    else if col >= |cells| then row[..col] + seq(|row| - col, _ => blank)
    else Restored(cells, col + cells[col].width, PutWide(cells, col, row, reverse), reverse, blank)
  }

  function PutWide(cells: seq<ExtCell>, col: nat, row: Row, reverse: bool): (r: Row)
    requires col < |cells| && col < |row|
    ensures |r| == |row|
  {
    var put := row[col := PutCell(row[col], cells[col], reverse)];
    if cells[col].width == 2 && col < |row| - 1 then put[col + 1 := put[col + 1].(text := Gap)] else put
  }

  /** The row shows the line's characters, cut or padded to its width. */
  lemma {:induction false} RestoredShows(cells: seq<ExtCell>, col: nat, row: Row, reverse: bool, blank: Cell)
    requires WellFormed(cells) && blank.text.Blank? && col <= |cells|
    requires forall i :: 0 <= i < col && i < |row| ==> row[i].text == cells[i].text
    ensures forall i :: 0 <= i < |row| ==>
      Restored(cells, col, row, reverse, blank)[i].text == if i < |cells| then cells[i].text else Blank
    decreases |row| - col
  {
    if col < |row| && col < |cells| {
      RestoredShows(cells, col + cells[col].width, PutWide(cells, col, row, reverse), reverse, blank);
    }
  }

  /** Popping a line of at most `cols` cells onto a row of at least `cols` keeps its text. */
  lemma RestoredText(cells: seq<ExtCell>, cols: nat, row: Row, reverse: bool, blank: Cell, pad: ExtCell)
    requires WellFormed(cells) && |cells| <= cols && blank.text.Blank?
    requires pad.width == 1 && pad.text.Blank? && |cells| <= |row|
    ensures WellFormed(Fit(cells, cols, pad))
    ensures RowTexts(Trim(Restored(Fit(cells, cols, pad), 0, row, reverse, blank))) == TrimTexts(ExtTexts(cells))
  {
    var fit := Fit(cells, cols, pad);
    FitWellFormed(cells, cols, pad);
    RestoredShows(fit, 0, row, reverse, blank);
    var out := Restored(fit, 0, row, reverse, blank);
    assert RowTexts(out) == ExtTexts(cells) + seq(|row| - |cells|, _ => Blank);
    TrimTextsOfRow(out);
    TrimTextsPadded(ExtTexts(cells), |row| - |cells|);
  }

  lemma PushedText(row: Row, reverse: bool)
    ensures TrimTexts(ExtTexts(ExtRow(row, reverse))) == RowTexts(Trim(row))
  {
    assert ExtTexts(ExtRow(row, reverse)) == RowTexts(row);
    TrimTextsOfRow(row);
  }

  /** Writes a popped line into a row of the buffer, as the loop in resize_buffer does. */
  method RestoreRow(buf: array<Row>, r: nat, cells: seq<ExtCell>, reverse: bool, blank: Cell)
    requires r < buf.Length && Advances(cells)
    modifies buf
    ensures buf[r] == Restored(cells, 0, old(buf[r]), reverse, blank)
    ensures forall i :: 0 <= i < buf.Length && i != r ==> buf[i] == old(buf[i])
  {
    var col := RestoreCells(buf, r, cells, reverse, blank);
    ghost var from, text := col, buf[r];
    while col < |buf[r]|
      invariant |buf[r]| == |text| && from <= col
      invariant from < |text| ==> col <= |text|
      invariant forall j :: 0 <= j < |text| ==> buf[r][j] == if from <= j < col then blank else text[j]
      invariant forall i :: 0 <= i < buf.Length && i != r ==> buf[i] == old(buf[i])
    {
      buf[r] := buf[r][col := blank];
      col := col + 1;
    }
    if from < |text| {
      assert buf[r] == text[..from] + seq(|text| - from, _ => blank);
    } else {
      assert buf[r] == text;
    }
  }

  /** The part of that loop that reads the line; what is left is to be blanked. */
  method RestoreCells(buf: array<Row>, r: nat, cells: seq<ExtCell>, reverse: bool, blank: Cell) returns (col: nat)
    requires r < buf.Length && Advances(cells)
    modifies buf
    ensures |buf[r]| == |old(buf[r])| && (col >= |cells| || col >= |buf[r]|)
    ensures Restored(cells, 0, old(buf[r]), reverse, blank) ==
      if col >= |buf[r]| then buf[r] else buf[r][..col] + seq(|buf[r]| - col, _ => blank)
    ensures forall i :: 0 <= i < buf.Length && i != r ==> buf[i] == old(buf[i])
  {
    col := 0;
    while col < |cells| && col < |buf[r]|
      invariant |buf[r]| == |old(buf[r])|
      invariant Restored(cells, col, buf[r], reverse, blank) == Restored(cells, 0, old(buf[r]), reverse, blank)
      invariant forall i :: 0 <= i < buf.Length && i != r ==> buf[i] == old(buf[i])
      decreases |buf[r]| - col
    {
      ghost var was := buf[r];
      buf[r] := buf[r][col := PutCell(buf[r][col], cells[col], reverse)];
      if cells[col].width == 2 && col < |buf[r]| - 1 {
        buf[r] := buf[r][col + 1 := buf[r][col + 1].(text := Gap)];
      }
      assert buf[r] == PutWide(cells, col, was, reverse);
      col := col + cells[col].width;
    }
  }
}
