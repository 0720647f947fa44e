/** Rows of the screen on their way into the scrollback. */
module Pushing {
  import opened Grid
  import opened History
  import SC = ScreenCells

  /** Pushes rows `0..count-1` of the shown buffer. */
  method PushRows(ring: Ring, shown: seq<Row>, count: nat, reverse: bool, revision: nat)
    requires ring.Valid() && count <= |shown|
    modifies ring, ring.history
    ensures ring.Valid() && ring.history == old(ring.history)
    ensures ring.Abs() == Run(old(ring.Abs()), Pushes(Pushed(shown[..count], reverse, revision)))
  {
    hide Ring.Valid, SC.ExtRow;
    ghost var start := ring.Abs();
    assert Pushes(Pushed(shown[..0], reverse, revision)) == [];
    hide Step;
    for row := 0 to count
      invariant ring.Valid() && ring.history == old(ring.history)
      invariant ring.Abs() == Run(start, Pushes(Pushed(shown[..row], reverse, revision)))
    {
      var line := Line(SC.ExtRow(shown[row], reverse), revision);
      ring.Push(line.cells, revision);
      PushedSnoc(shown, row, reverse, revision);
      RunAppend(start, Pushes(Pushed(shown[..row], reverse, revision)), [Op.Push(line)]);
      RunOne(Run(start, Pushes(Pushed(shown[..row], reverse, revision))), Op.Push(line));
    }
  }

  lemma PushedSnoc(shown: seq<Row>, row: nat, reverse: bool, revision: nat)
    requires row < |shown|
    ensures var line := Line(SC.ExtRow(shown[row], reverse), revision);
      Pushes(Pushed(shown[..row + 1], reverse, revision)) ==
      Pushes(Pushed(shown[..row], reverse, revision)) + [Op.Push(line)]
  {
    hide SC.ExtRow;
  }

  /** What a store holds after the rows are pushed is the newest of all it was given, and as much
      of it as the limits allow. */
  lemma PushedLongest(s: Store, rows: seq<Row>, reverse: bool, revision: nat)
    ensures var now := Run(s, Pushes(Pushed(rows, reverse, revision))).lines;
      Longest(now, s.lines + Pushed(rows, reverse, revision)) && (rows != [] ==> now != [])
  {
    WholeIsLongest(s.lines);
    RunLongest(s, s.lines, Pushed(rows, reverse, revision));
    hide Longest, Evict;
  }

  /** The lines that pushing `rows` hands to the ring. */
  function Pushed(rows: seq<Row>, reverse: bool, revision: nat): (lines: seq<Line>)
    ensures |lines| == |rows|
    ensures forall i :: 0 <= i < |rows| ==> lines[i] == Line(SC.ExtRow(rows[i], reverse), revision)
  {
    seq(|rows|, i requires 0 <= i < |rows| => Line(SC.ExtRow(rows[i], reverse), revision))
  }
}
