/** The screen: two buffers of cells changed in place by the requests of the terminal state,
    with the damage they leave and the rows they send to the scrollback. */
module LiveScreen {
  import Bytes
  import opened Grid
  import opened ScreenSpec
  import opened Shift
  import opened Damage
  import H = History
  import opened Pushing
  import Revisions
  import Serialise
  import SC = ScreenCells

  function BlankRow(cols: nat, pen: Pen): Row {
    seq(cols, _ => Cell(Blank, ScreenPen(pen, false, false, 0)))
  }

  function BlankRows(rows: nat, cols: nat, pen: Pen): seq<Row> {
    seq(rows, _ => BlankRow(cols, pen))
  }

  lemma GlyphBegun(row: Row, op: Op, pen: Pen)
    requires op.PutGlyph? && op.col < |row|
    ensures row[op.col := GlyphCell(op, pen)] == Glyphed(row, op, 1, pen)
    ensures op.width == 0 ==> Glyphed(row, op, 1, pen) == Glyphed(row, op, op.width, pen)
  {
  }

  lemma GapAdded(row: Row, op: Op, i: nat, pen: Pen)
    requires op.PutGlyph? && i >= 1 && op.col + i < |row|
    ensures var was := Glyphed(row, op, i, pen);
      was[op.col + i := was[op.col + i].(text := Gap)] == Glyphed(row, op, i + 1, pen)
  {
  }

  lemma IdleErases(d: Display, rect: Rect, selective: bool, info: seq<LineInfo>, rows: nat, cols: nat)
    requires ValidDisplay(d, rows, cols) && rect.Near(rows, cols) && rect.Idle() && |info| == rows
    ensures Apply(d, Op.Erase(rect, selective, info), rows, cols) == d
  {
    var now := d.Active();
    var erased := ErasedRows(now, rect, selective, Blanks(d.pen, info));
    forall i | 0 <= i < rows ensures erased[i] == now[i] {
      assert rect.HasRow(i) ==>
        ErasedRow(now[i], rect.startCol, rect.endCol, selective, Blanks(d.pen, info)[i]) == now[i];
    }
    assert erased == now;
  }

  /** What a request tells the scrollback: the rows that leave, or to forget all. */
  function Told(d: Display, op: Op, rows: nat, cols: nat, revision: nat): seq<H.Op>
    requires ValidDisplay(d, rows, cols) && Fits(op, rows, cols)
  {
    if op.ClearHistory? then [H.Op.Clear]
    else H.Pushes(Pushed(Leaving(d, op, rows, cols), d.reverse, revision))
  }

  lemma ToldElse(d: Display, op: Op, rows: nat, cols: nat, revision: nat)
    requires ValidDisplay(d, rows, cols) && Fits(op, rows, cols)
    ensures !op.Scroll? && !op.ClearHistory? ==> Told(d, op, rows, cols, revision) == []
    ensures op.ClearHistory? ==> Told(d, op, rows, cols, revision) == [H.Op.Clear]
  {
  }

  /** What a write tells the scrollback. */
  ghost function AllTold(d: Display, ops: seq<Op>, rows: nat, cols: nat, revision: nat): seq<H.Op>
    requires ValidDisplay(d, rows, cols) && Revisions.AllFit(ops, rows, cols)
  {
    if ops == [] then []
    else
      var init, op := ops[..|ops| - 1], ops[|ops| - 1];
      AllTold(d, init, rows, cols, revision) + Told(Revisions.Shown(d, init, rows, cols), op, rows, cols, revision)
  }

  lemma NothingTold(d: Display, rows: nat, cols: nat, revision: nat, start: H.Store)
    requires ValidDisplay(d, rows, cols)
    ensures H.Run(start, AllTold(d, [], rows, cols, revision)) == start
  {
  }

  lemma ToldNext(t: Revisions.Term, ops: seq<Op>, i: nat, rows: nat, cols: nat, revision: nat, start: H.Store)
    requires t.Valid(rows, cols) && Revisions.AllFit(ops, rows, cols) && i < |ops|
    ensures Revisions.Run(t, ops[..i], rows, cols).display == Revisions.Shown(t.display, ops[..i], rows, cols)
    ensures H.Run(start, AllTold(t.display, ops[..i + 1], rows, cols, revision)) ==
      H.Run(H.Run(start, AllTold(t.display, ops[..i], rows, cols, revision)),
            Told(Revisions.Shown(t.display, ops[..i], rows, cols), ops[i], rows, cols, revision))
  {
    Revisions.RunShown(t, ops[..i], rows, cols);
    assert ops[..i + 1][..i] == ops[..i];
    H.RunAppend(start, AllTold(t.display, ops[..i], rows, cols, revision),
                Told(Revisions.Shown(t.display, ops[..i], rows, cols), ops[i], rows, cols, revision));
    hide H.Run, Told;
  }

  class Screen {
    const rows: nat
    const cols: nat
    const primary: array<Row>
    const alt: array<Row>
    var onAlt: bool
    var reverse: bool
    var pen: Pen
    const damage: Recorder
    const ring: H.Ring

    ghost predicate Valid()
      reads this, primary, alt, ring, ring.history
    {
      && rows > 0 && cols > 0
      && primary.Length == alt.Length == damage.dirty.Length == rows && primary != alt
      && primary as object != ring.history && alt as object != ring.history
      && primary as object != damage.dirty && alt as object != damage.dirty
      && primary as object != damage.rowRevision && alt as object != damage.rowRevision
      && ring.history as object != damage.dirty && ring.history as object != damage.rowRevision
      && damage.Valid() && ring.Valid()
      && Rectangular(primary[..], cols) && Rectangular(alt[..], cols)
    }

    ghost function Display(): (d: Display)
      requires Valid()
      reads this, primary, alt, ring, ring.history
      ensures ValidDisplay(d, rows, cols)
    {
      ScreenSpec.Display(primary[..], alt[..], onAlt, reverse, pen)
    }

    ghost function Marks(): (m: Marks)
      requires Valid()
      reads this, primary, alt, ring, ring.history, damage, damage.dirty, damage.rowRevision
      ensures m.Valid() && |m.dirty| == rows
    {
      damage.View()
    }

    /** The buffer on show. */
    function Buffer(): array<Row>
      reads this
    {
      if onAlt then alt else primary
    }

    constructor (rows: nat, cols: nat, pen: Pen)
      requires rows > 0 && cols > 0
      ensures Valid() && this.rows == rows && this.cols == cols
      ensures fresh(primary) && fresh(alt) && fresh(damage) && fresh(ring)
      ensures Display() == ScreenSpec.Display(BlankRows(rows, cols, pen), BlankRows(rows, cols, pen), false, false, pen)
      ensures Marks().damaged.startRow == NONE
    {
      this.rows, this.cols, this.pen, onAlt, reverse := rows, cols, pen, false, false;
      primary := new Row[rows](_ => BlankRow(cols, pen));
      alt := new Row[rows](_ => BlankRow(cols, pen));
      damage := new Recorder(rows);
      ring := new H.Ring();
      new;
      assert primary[..] == BlankRows(rows, cols, pen) && alt[..] == BlankRows(rows, cols, pen);
    }

    // ---- Requests ----

    /** Puts `text` into one cell of a row. */
    method SetText(buf: array<Row>, row: nat, col: nat, text: Text)
      requires row < buf.Length && col < |buf[row]|
      modifies buf
      ensures buf[..] == old(buf[..])[row := old(buf[row])[col := old(buf[row])[col].(text := text)]]
    {
      buf[row] := buf[row][col := buf[row][col].(text := text)];
    }

    method WriteGlyph(buf: array<Row>, op: Op)
      requires op.PutGlyph? && op.row < buf.Length && op.col < |buf[op.row]| && op.col + op.width <= |buf[op.row]|
      modifies buf
      ensures buf[..] == old(buf[..])[op.row := Glyphed(old(buf[op.row]), op, op.width, pen)]
    {
      hide Glyphed, GlyphCell;
      ghost var row := buf[op.row];
      buf[op.row] := buf[op.row][op.col := GlyphCell(op, pen)];
      GlyphBegun(row, op, pen);
      var i := 1;
      while i < op.width
        invariant 1 <= i && (i <= op.width || i == 1)
        invariant buf[..] == old(buf[..])[op.row := Glyphed(row, op, i, pen)]
      {
        SetText(buf, op.row, op.col + i, Gap);
        GapAdded(row, op, i, pen);
        i := i + 1;
      }
    }

    method PutGlyph(op: Op)
      requires Valid() && op.PutGlyph? && Fits(op, rows, cols)
      modifies primary, alt, damage`damaged, damage.dirty, damage.rowRevision
      ensures Valid() && Display() == Apply(old(Display()), op, rows, cols)
      ensures Marks() == Revisions.Marked(old(Marks()), op, rows, cols)
    {
      hide Glyphed, Damaged, H.Ring.Valid;
      assert |Buffer()[..][op.row]| == cols;
      WriteGlyph(Buffer(), op);
      damage.Damage(Rect(op.row, op.row + 1, op.col, op.col + op.width));
    }

    method Erase(rect: Rect, selective: bool, info: seq<LineInfo>)
      requires Valid() && rect.Near(rows, cols) && |info| == rows
      modifies primary, alt, damage`damaged, damage.dirty, damage.rowRevision
      ensures Valid() && Display() == Apply(old(Display()), Op.Erase(rect, selective, info), rows, cols)
      ensures Marks() == Damaged(old(Marks()), rect)
    {
      hide Damaged, H.Ring.Valid;
      if rect.Idle() {
        IdleErases(Display(), rect, selective, info, rows, cols);
      } else {
        hide ErasedRow, Erased;
        EraseRect(Buffer(), cols, rect, selective, Blanks(pen, info));
      }
      damage.Damage(rect);
    }

    /** The rows that a scroll moves off the top of the primary screen go to the scrollback. */
    method PushScrolled(rect: Rect, downward: int, rightward: int, ghost op: Op)
      requires Valid() && op.Scroll? && Fits(op, rows, cols)
      requires rect == op.rect && downward == op.downward && rightward == op.rightward
      modifies ring, ring.history
      ensures Valid() && Display() == old(Display()) && Marks() == old(Marks()) && ring.history == old(ring.history)
      ensures ring.Abs() == H.Run(old(ring.Abs()), Told(Display(), op, rows, cols, damage.revision))
    {
      hide H.Ring.Valid, H.Step;
      var dest, src := DestOf(rect, downward, rightward), SrcOf(rect, downward, rightward);
      if !ScrollsAway(rect, downward, rightward)
         && dest.startRow == 0 && dest.startCol == 0 && dest.endCol == cols && !onAlt {
        PushRows(ring, primary[..], src.startRow, reverse, damage.revision);
      }
    }

    method ScrollCells(rect: Rect, downward: int, rightward: int, info: seq<LineInfo>)
      requires Valid() && Fits(Op.Scroll(rect, downward, rightward, info), rows, cols)
      modifies primary, alt
      ensures Valid() && Marks() == old(Marks())
      ensures Display() == Apply(old(Display()), Op.Scroll(rect, downward, rightward, info), rows, cols)
    {
      hide Shifted, H.Ring.Valid;
      if !rect.Idle() {
        ScrollRect(Buffer(), cols, rect, downward, rightward, Blanks(pen, info));
      }
    }

    method Scroll(rect: Rect, downward: int, rightward: int, info: seq<LineInfo>)
      requires Valid() && Fits(Op.Scroll(rect, downward, rightward, info), rows, cols)
      modifies primary, alt, damage`damaged, damage.dirty, damage.rowRevision, ring, ring.history
      ensures Valid() && Display() == Apply(old(Display()), Op.Scroll(rect, downward, rightward, info), rows, cols)
      ensures ring.history == old(ring.history)
      ensures Marks() == Revisions.Marked(old(Marks()), Op.Scroll(rect, downward, rightward, info), rows, cols)
      ensures ring.Abs() ==
        H.Run(old(ring.Abs()), Told(old(Display()), Op.Scroll(rect, downward, rightward, info), rows, cols, damage.revision))
    {
      hide Shifted, H.Ring.Valid, H.Run, Damaged, Flushed, Told;
      PushScrolled(rect, downward, rightward, Op.Scroll(rect, downward, rightward, info));
      ScrollCells(rect, downward, rightward, info);
      damage.Flush();
      if ScrollsAway(rect, downward, rightward) {
        damage.Damage(rect);
      } else {
        damage.Damage(DestOf(rect, downward, rightward));
        damage.Damage(LeftOf(rect, downward, rightward));
      }
    }

    method MarkLine(buf: array<Row>, row: nat, line: LineInfo)
      requires row < buf.Length && |buf[row]| == cols
      modifies buf
      ensures buf[..] == old(buf[..])[row := MarkedLine(old(buf[row]), line, cols)]
    {
      ghost var was := buf[row];
      assert MarkedLine(was, line, 0) == was;
      for col := 0 to cols
        invariant buf[..] == old(buf[..])[row := MarkedLine(was, line, col)]
      {
        assert MarkedLine(was, line, col)[col := MarkedCell(was[col], line)] == MarkedLine(was, line, col + 1);
        buf[row] := buf[row][col := MarkedCell(buf[row][col], line)];
      }
    }

    method SetLine(row: nat, line: LineInfo, was: LineInfo)
      requires Valid() && row < rows
      modifies primary, alt, damage`damaged, damage.dirty, damage.rowRevision
      ensures Valid() && Display() == Apply(old(Display()), Op.SetLine(row, line, was), rows, cols)
      ensures Marks() == Revisions.Marked(old(Marks()), Op.SetLine(row, line, was), rows, cols)
    {
      hide MarkedLine, ErasedRow, Erased, Damaged, H.Ring.Valid;
      if line.doublewidth != was.doublewidth || line.doubleheight != was.doubleheight {
        var buf := Buffer();
        ghost var cells := buf[..][row];
        MarkLine(buf, row, line);
        damage.Damage(Rect(row, row + 1, 0, if line.doublewidth then cols / 2 else cols));
        if line.doublewidth {
          EraseCells(buf, row, cols / 2, cols, false, Erased(pen, was));
        }
        assert buf[..] == old(buf[..])[row := Lined(cells, line, was, pen)];
      }
    }

    method SetPen(pen: Pen)
      requires Valid()
      modifies `pen
      ensures Valid() && Display() == Apply(old(Display()), Op.SetPen(pen), rows, cols) && Marks() == old(Marks())
    {
      this.pen := pen;
    }

    method DamageAll()
      requires Valid()
      modifies damage`damaged, damage.dirty, damage.rowRevision
      ensures Valid() && Display() == old(Display())
      ensures Marks() == Damaged(old(Marks()), Revisions.Whole(rows, cols))
    {
      damage.Damage(Rect(0, rows, 0, cols));
    }

    method SetReverse(on: bool)
      requires Valid()
      modifies `reverse, damage`damaged, damage.dirty, damage.rowRevision
      ensures Valid() && Display() == Apply(old(Display()), Op.SetReverse(on), rows, cols)
      ensures Marks() == Revisions.Marked(old(Marks()), Op.SetReverse(on), rows, cols)
    {
      hide Damaged;
      reverse := on;
      DamageAll();
    }

    /** Going back to the primary screen damages it all; coming to the alternate screen is
        followed by its erasure, which does. */
    method SetAlt(on: bool, info: seq<LineInfo>)
      requires Valid() && |info| == rows
      modifies `onAlt, primary, alt, damage`damaged, damage.dirty, damage.rowRevision
      ensures Valid() && Display() == Apply(old(Display()), Op.SetAlt(on, info), rows, cols)
      ensures Marks() == Revisions.Marked(old(Marks()), Op.SetAlt(on, info), rows, cols)
    {
      hide Damaged, ErasedRow, Erased, H.Ring.Valid;
      onAlt := on;
      if on {
        Erase(Rect(0, rows, 0, cols), false, info);
      } else {
        DamageAll();
      }
    }

    /** The scrollback is emptied. */
    method ClearHistory()
      requires Valid()
      modifies ring, ring.history
      ensures Valid() && Display() == old(Display()) && Marks() == old(Marks()) && ring.history == old(ring.history)
      ensures ring.Abs() == H.Step(old(ring.Abs()), H.Op.Clear)
    {
      ring.Clear();
    }

    method Carry(op: Op)
      requires Valid() && Fits(op, rows, cols)
      modifies this, primary, alt, damage`damaged, damage.dirty, damage.rowRevision, ring, ring.history
      ensures Valid() && Display() == Apply(old(Display()), op, rows, cols) && ring.history == old(ring.history)
      ensures Marks() == Revisions.Marked(old(Marks()), op, rows, cols)
      ensures ring.Abs() == H.Run(old(ring.Abs()), Told(old(Display()), op, rows, cols, damage.revision))
    {
      ToldElse(Display(), op, rows, cols, damage.revision);
      H.RunOne(ring.Abs(), H.Op.Clear);
      hide Apply, Damaged, Flushed, H.Ring.Valid, H.Step, Told;
      match op
      case PutGlyph(_, _, _, _, _, _) => PutGlyph(op);
      case Erase(rect, selective, info) => Erase(rect, selective, info);
      case Scroll(rect, downward, rightward, info) => Scroll(rect, downward, rightward, info);
      case SetLine(row, line, was) => SetLine(row, line, was);
      case SetPen(pen) => SetPen(pen);
      case SetReverse(on) => SetReverse(on);
      case SetAlt(on, info) => SetAlt(on, info);
      case ClearHistory => ClearHistory();
    }

    /** The terminal as the revisions see it. */
    ghost function Term(): (t: Revisions.Term)
      requires Valid()
      reads this, primary, alt, ring, ring.history, damage, damage.dirty, damage.rowRevision
    {
      Revisions.Term(Display(), Marks())
    }

    /** A write to the terminal, given the requests that the bytes written lead to. */
    method Write(ops: seq<Op>)
      requires Valid() && Term().Valid(rows, cols) && Revisions.AllFit(ops, rows, cols)
      modifies this, primary, alt, damage, damage.dirty, damage.rowRevision, ring, ring.history
      ensures Valid() && Term() == Revisions.Written(old(Term()), ops, rows, cols) && ring.history == old(ring.history)
      ensures ring.Abs() == H.Run(old(ring.Abs()), AllTold(old(Display()), ops, rows, cols, damage.revision))
    {
      hide Apply, Revisions.Marked, H.Ring.Valid, ValidDisplay, H.Run, Told;
      damage.revision := damage.revision + 1;
      ghost var begun, start, revision := Term(), ring.Abs(), damage.revision;
      NothingTold(Display(), rows, cols, revision, start);
      for i := 0 to |ops|
        invariant Valid() && Term() == Revisions.Run(begun, ops[..i], rows, cols) && ring.history == old(ring.history)
        invariant ring.Abs() == H.Run(start, AllTold(begun.display, ops[..i], rows, cols, revision))
      {
        assert ops[..i + 1][..i] == ops[..i];
        ghost var was := Term();
        ToldNext(begun, ops, i, rows, cols, revision, start);
        Carry(ops[i]);
      }
      assert ops[..|ops|] == ops;
      damage.Flush();
    }

    /** Whether there is a line to give: a row on show, or a line of the scrollback. */
    ghost predicate HasLine(history: bool, row: int)
      reads this, ring
    {
      0 <= row < if history then |ring.Contents| else rows
    }

    ghost function LineCells(history: bool, row: int): seq<H.ExtCell>
      requires Valid() && HasLine(history, row)
      reads this, primary, alt, ring, ring.history
    {
      if history then ring.Contents[row].cells else SC.ExtRow(Display().Active()[row], reverse)
    }

    method VzLine(history: bool, row: int, out: array<Bytes.byte>, size: nat) returns (used: int)
      requires Valid() && size <= out.Length
      modifies out
      ensures !HasLine(history, row) ==> used == 0
      ensures HasLine(history, row) ==> var cells := LineCells(history, row);
        if size < 40 * |cells| then used == -1
        else used == 40 * Serialise.Kept(cells) && out[..40 * |cells|] == Serialise.LineBytes(cells)
    {
      hide SC.ExtRow;
      used := 0;
      if history {
        if 0 <= row < ring.count {
          var line := ring.history[H.Wrap(ring.head + row)];
          used := Serialise.WriteLine(line.cells, out, size);
        }
      } else if 0 <= row < rows {
        used := Serialise.WriteLine(SC.ExtRow(Buffer()[row], reverse), out, size);
      }
    }
  }
}
