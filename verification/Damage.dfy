/** Which rows a reader must fetch again: damage is merged row by row, and reported by marking
    rows dirty and giving them the current revision. */
module Damage {
  import opened Grid
  import opened ScreenSpec

  const NONE := -1

  /** `damaged` is damage stored but not reported; a start row of -1 means there is none. */
  datatype Marks = Marks(damaged: Rect, dirty: seq<bool>, rowRevision: seq<nat>, revision: nat) {
    predicate Valid() {
      |dirty| == |rowRevision|
    }

    predicate Reported(r: nat)
      requires Valid() && r < |dirty|
    {
      dirty[r] && rowRevision[r] == revision
    }

    predicate Stored(r: int) {
      damaged.startRow != NONE && damaged.HasRow(r)
    }

    predicate Covered(r: nat)
      requires Valid() && r < |dirty|
    {
      Reported(r) || Stored(r)
    }

    /** Stored damage covers at least one row. */
    predicate NotHollow() {
      damaged.startRow != NONE ==> 0 <= damaged.startRow < damaged.endRow
    }
  }

  function Emitted(m: Marks, rect: Rect): (r: Marks)
    requires m.Valid()
    ensures r.Valid() && |r.dirty| == |m.dirty|
  {
    m.(dirty := seq(|m.dirty|, i requires 0 <= i < |m.dirty| => rect.HasRow(i) || m.dirty[i]),
       rowRevision := seq(|m.dirty|, i requires 0 <= i < |m.dirty| =>
         if rect.HasRow(i) then m.revision else m.rowRevision[i]))
  }

  function Flushed(m: Marks): (r: Marks)
    requires m.Valid()
    ensures r.Valid() && |r.dirty| == |m.dirty|
  {
    if m.damaged.startRow == NONE then m
    else Emitted(m, m.damaged).(damaged := m.damaged.(startRow := NONE))
  }

  function Min(a: int, b: int): int { if a < b then a else b }

  function Max(a: int, b: int): int { if a < b then b else a }

  function Damaged(m: Marks, rect: Rect): (r: Marks)
    requires m.Valid()
    ensures r.Valid() && |r.dirty| == |m.dirty|
  {
    if rect.endRow > rect.startRow + 1 then Emitted(Flushed(m), rect)
    else if m.damaged.startRow == NONE then m.(damaged := rect)
    else if rect.startRow == m.damaged.startRow then
      m.(damaged := m.damaged.(startCol := Min(m.damaged.startCol, rect.startCol),
                               endCol := Max(m.damaged.endCol, rect.endCol)))
    else Emitted(m, m.damaged).(damaged := rect)
  }

  /** Damage to one row vanishes in stored damage that starts on that row and covers nothing. */
  predicate Swallowed(m: Marks, rect: Rect) {
    && rect.endRow == rect.startRow + 1 == m.damaged.startRow + 1
    && m.damaged.endRow <= m.damaged.startRow
  }

  /** A row is reported or stored afterwards just when it was before, or is in the new damage
      and that is not swallowed. */
  lemma DamageCovers(m: Marks, rect: Rect, r: nat)
    requires m.Valid() && r < |m.dirty| && 0 <= rect.startRow
    ensures Damaged(m, rect).Covered(r) <==> m.Covered(r) || (rect.HasRow(r) && !Swallowed(m, rect))
  {
  }

  lemma FlushReports(m: Marks, r: nat)
    requires m.Valid() && r < |m.dirty|
    ensures Flushed(m).Reported(r) <==> m.Covered(r)
    ensures Flushed(m).damaged.startRow == NONE
  {
  }

  lemma DamageNotHollow(m: Marks, rect: Rect)
    requires m.Valid() && m.NotHollow() && 0 <= rect.startRow < rect.endRow
    ensures Damaged(m, rect).NotHollow() && !Swallowed(m, rect)
  {
  }

  /** Stored damage is on one row at most, and if it is on none, the row it starts on has been
      reported. */
  predicate Sound(m: Marks)
    requires m.Valid()
  {
    m.damaged.startRow != NONE ==>
      && 0 <= m.damaged.startRow < |m.dirty| && m.damaged.endRow <= m.damaged.startRow + 1
      && (m.damaged.startRow < m.damaged.endRow || m.Reported(m.damaged.startRow))
  }

  /** Erasing above the cursor erases the rows above it, then the start of its row. */
  function EraseAbove(m: Marks, row: nat, col: nat, cols: nat): (r: Marks)
    requires m.Valid()
    ensures r.Valid() && |r.dirty| == |m.dirty|
  {
    Flushed(Damaged(Damaged(m, Rect(0, row, 0, cols)), Rect(row, row + 1, 0, col + 1)))
  }

  /** The cursor's row is reported unless it is the first: there are no rows above to erase,
      and the damage of erasing none swallows the damage to the first row, unless that row had
      been damaged already. */
  lemma EraseAboveReports(m: Marks, row: nat, col: nat, cols: nat)
    requires m.Valid() && Sound(m) && row < |m.dirty|
    ensures EraseAbove(m, row, col, cols).Reported(row) <==> row > 0 || m.damaged.startRow == 0 || m.Reported(0)
  {
    var above, mine := Rect(0, row, 0, cols), Rect(row, row + 1, 0, col + 1);
    var half := Damaged(m, above);
    DamageCovers(m, above, row);
    DamageCovers(half, mine, row);
    FlushReports(Damaged(half, mine), row);
  }

  class Recorder {
    var damaged: Rect
    const dirty: array<bool>
    const rowRevision: array<nat>
    var revision: nat

    ghost predicate Valid()
    {
      dirty.Length == rowRevision.Length
    }

    ghost function View(): (m: Marks)
      requires Valid()
      reads this, dirty, rowRevision
      ensures m.Valid() && |m.dirty| == dirty.Length
    {
      Marks(damaged, dirty[..], rowRevision[..], revision)
    }

    constructor (rows: nat)
      ensures Valid() && fresh(dirty) && fresh(rowRevision) && dirty.Length == rows
      ensures View() == Marks(Rect(NONE, 0, 0, 0), seq(rows, _ => false), seq(rows, _ => 0), 1)
    {
      damaged, revision := Rect(NONE, 0, 0, 0), 1;
      dirty := new bool[rows](_ => false);
      rowRevision := new nat[rows](_ => 0);
      new;
      assert dirty[..] == seq(rows, _ => false) && rowRevision[..] == seq(rows, _ => 0);
    }

    /** The bridge's damage callback. */
    method Report(rect: Rect)
      requires Valid()
      modifies dirty, rowRevision
      ensures View() == Emitted(old(View()), rect)
    {
      var row := rect.startRow;
      while row < rect.endRow && row < dirty.Length
        invariant rect.startRow <= row
        invariant forall i :: 0 <= i < dirty.Length ==> dirty[i] == ((rect.HasRow(i) && i < row) || old(dirty[i]))
        invariant forall i :: 0 <= i < dirty.Length ==>
          rowRevision[i] == (if rect.HasRow(i) && i < row then revision else old(rowRevision[i]))
      {
        if row >= 0 {
          dirty[row] := true;
          rowRevision[row] := revision;
        }
        row := row + 1;
      }
    }

    method Flush()
      requires Valid()
      modifies `damaged, dirty, rowRevision
      ensures View() == Flushed(old(View()))
    {
      if damaged.startRow != NONE {
        Report(damaged);
        damaged := damaged.(startRow := NONE);
      }
    }

    /** Row-level merging. */
    method Damage(rect: Rect)
      requires Valid()
      modifies `damaged, dirty, rowRevision
      ensures View() == Damaged(old(View()), rect)
    {
      if rect.endRow > rect.startRow + 1 {
        Flush();
        Report(rect);
      } else if damaged.startRow == NONE {
        damaged := rect;
      } else if rect.startRow == damaged.startRow {
        if damaged.startCol > rect.startCol {
          damaged := damaged.(startCol := rect.startCol);
        }
        if damaged.endCol < rect.endCol {
          damaged := damaged.(endCol := rect.endCol);
        }
      } else {
        var emit := damaged;
        damaged := rect;
        Report(emit);
      }
    }
  }
}
