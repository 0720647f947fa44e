/** A row's revision as a cache key: while it stays the same, so do the row's bytes. */
module Revisions {
  import opened Grid
  import opened ScreenSpec
  import opened Shift
  import opened Damage
  import History
  import Serialise
  import SC = ScreenCells

  /** The bytes that the bridge gives for a live row. */
  function Bytes(d: Display, rows: nat, cols: nat, r: nat): seq<Serialise.Bytes.byte>
    requires ValidDisplay(d, rows, cols) && r < rows
  {
    var cells := SC.ExtRow(d.Active()[r], d.reverse);
    Serialise.LineBytes(cells)[..40 * Serialise.Kept(cells)]
  }

  /** What they depend on. */
  function Looks(d: Display, rows: nat, cols: nat, r: nat): (Row, bool)
    requires ValidDisplay(d, rows, cols) && r < rows
  {
    (d.Active()[r], d.reverse)
  }

  function Whole(rows: nat, cols: nat): Rect { Rect(0, rows, 0, cols) }

  /** The damage that a request leaves. */
  function Marked(m: Marks, op: Op, rows: nat, cols: nat): (r: Marks)
    requires m.Valid()
    ensures r.Valid() && |r.dirty| == |m.dirty|
  {
    match op
    case PutGlyph(_, width, row, col, _, _) => Damaged(m, Rect(row, row + 1, col, col + width))
    case Erase(rect, _, _) => Damaged(m, rect)
    case Scroll(rect, downward, rightward, _) =>
      if ScrollsAway(rect, downward, rightward) then Damaged(Flushed(m), rect)
      else Damaged(Damaged(Flushed(m), DestOf(rect, downward, rightward)), LeftOf(rect, downward, rightward))
    case SetLine(row, line, was) =>
      if line.doublewidth == was.doublewidth && line.doubleheight == was.doubleheight then m
      else Damaged(m, Rect(row, row + 1, 0, if line.doublewidth then cols / 2 else cols))
    case SetPen(_) => m
    case SetReverse(_) => Damaged(m, Whole(rows, cols))
    case SetAlt(_, _) => Damaged(m, Whole(rows, cols))
    case ClearHistory => m
  }

  /** The rows that a request may change. */
  predicate Touches(op: Op, r: int) {
    match op
    case PutGlyph(_, _, row, _, _, _) => r == row
    case Erase(rect, _, _) => rect.HasRow(r)
    case Scroll(rect, _, _, _) => rect.HasRow(r)
    case SetLine(row, line, was) =>
      r == row && (line.doublewidth != was.doublewidth || line.doubleheight != was.doubleheight)
    case SetPen(_) => false
    case SetReverse(_) => true
    case SetAlt(_, _) => true
    case ClearHistory => false
  }

  lemma OnlyTouched(d: Display, op: Op, rows: nat, cols: nat, r: nat)
    requires ValidDisplay(d, rows, cols) && Fits(op, rows, cols) && r < rows && !Touches(op, r)
    ensures Looks(Apply(d, op, rows, cols), rows, cols, r) == Looks(d, rows, cols, r)
  {
    hide Glyphed, ErasedRow, Erased;
    if op.Scroll? && !op.rect.Idle() {
      assert Shifted(d.Active(), cols, op.rect, op.downward, op.rightward, Blanks(d.pen, op.info))[r] == d.Active()[r];
    }
  }

  /** The damage of a request to one row vanishes in stored damage without rows. A scroll
      flushes what is stored first. */
  predicate Swallows(m: Marks, op: Op, rows: nat, cols: nat) {
    match op
    case PutGlyph(_, width, row, col, _, _) => Swallowed(m, Rect(row, row + 1, col, col + width))
    case Erase(rect, _, _) => Swallowed(m, rect)
    case SetLine(row, line, _) => Swallowed(m, Rect(row, row + 1, 0, if line.doublewidth then cols / 2 else cols))
    case SetReverse(_) => Swallowed(m, Whole(rows, cols))
    case SetAlt(_, _) => Swallowed(m, Whole(rows, cols))
    case _ => false
  }

  lemma FlushKeeps(m: Marks, r: nat)
    requires m.Valid() && r < |m.dirty|
    ensures Flushed(m).NotHollow()
    ensures Flushed(m).Covered(r) <==> m.Covered(r)
  {
    FlushReports(m, r);
  }

  lemma ScrollCovers(m: Marks, op: Op, rows: nat, cols: nat, r: nat)
    requires m.Valid() && |m.dirty| == rows && r < rows && op.Scroll? && Fits(op, rows, cols)
    ensures Marked(m, op, rows, cols).Covered(r) <==> m.Covered(r) || Touches(op, r)
  {
    var rect, downward, rightward := op.rect, op.downward, op.rightward;
    FlushKeeps(m, r);
    FlushReports(m, r);
    if ScrollsAway(rect, downward, rightward) {
      DamageCovers(Flushed(m), rect, r);
    } else {
      var dest, left := DestOf(rect, downward, rightward), LeftOf(rect, downward, rightward);
      assert 0 <= dest.startRow < dest.endRow;
      DamageCovers(Flushed(m), dest, r);
      DamageNotHollow(Flushed(m), dest);
      DamageCovers(Damaged(Flushed(m), dest), left, r);
      hide Damaged, Flushed;
    }
  }

  /** A row is covered by damage after a request just when it was before, or is touched and the
      damage is not swallowed. */
  lemma MarksCover(m: Marks, op: Op, rows: nat, cols: nat, r: nat)
    requires m.Valid() && |m.dirty| == rows && r < rows && Fits(op, rows, cols)
    ensures Marked(m, op, rows, cols).Covered(r) <==> m.Covered(r) || (Touches(op, r) && !Swallows(m, op, rows, cols))
  {
    hide Damaged, Flushed;
    match op
    case PutGlyph(_, width, row, col, _, _) => DamageCovers(m, Rect(row, row + 1, col, col + width), r);
    case Erase(rect, _, _) => DamageCovers(m, rect, r);
    case Scroll(_, _, _, _) => ScrollCovers(m, op, rows, cols, r);
    case SetLine(row, line, was) =>
      DamageCovers(m, Rect(row, row + 1, 0, if line.doublewidth then cols / 2 else cols), r);
    case SetPen(_) =>
    case SetReverse(_) => DamageCovers(m, Whole(rows, cols), r);
    case SetAlt(_, _) => DamageCovers(m, Whole(rows, cols), r);
    case ClearHistory =>
  }

  /** Marking a row leaves its revision or makes it the current one. */
  lemma MarksRevise(m: Marks, op: Op, rows: nat, cols: nat, r: nat)
    requires m.Valid() && r < |m.dirty|
    ensures var now := Marked(m, op, rows, cols);
      now.revision == m.revision && (now.rowRevision[r] == m.rowRevision[r] || now.rowRevision[r] == m.revision)
  {
  }

  // ---- Writes ----

  datatype Term = Term(display: Display, marks: Marks) {
    ghost predicate Valid(rows: nat, cols: nat) {
      && ValidDisplay(display, rows, cols) && marks.Valid() && |marks.dirty| == rows
      && forall r :: 0 <= r < rows ==> marks.rowRevision[r] <= marks.revision
    }

    /** Between two writes nothing is stored. */
    predicate Quiet() { marks.damaged.startRow == NONE }
  }

  ghost predicate AllFit(ops: seq<Op>, rows: nat, cols: nat) {
    forall i :: 0 <= i < |ops| ==> Fits(ops[i], rows, cols)
  }

  ghost function Run(t: Term, ops: seq<Op>, rows: nat, cols: nat): (r: Term)
    requires t.Valid(rows, cols) && AllFit(ops, rows, cols)
    ensures r.Valid(rows, cols) && r.marks.revision == t.marks.revision
  {
    if ops == [] then t
    else
      var op, was := ops[|ops| - 1], Run(t, ops[..|ops| - 1], rows, cols);
      assert forall r :: 0 <= r < rows ==> Marked(was.marks, op, rows, cols).rowRevision[r] <= was.marks.revision by {
        forall r | 0 <= r < rows {
          MarksRevise(was.marks, op, rows, cols, r);
        }
      }
      SameRevision(was.marks, op, rows, cols);
      Term(Apply(was.display, op, rows, cols), Marked(was.marks, op, rows, cols))
  }

  lemma SameRevision(m: Marks, op: Op, rows: nat, cols: nat)
    requires m.Valid()
    ensures Marked(m, op, rows, cols).revision == m.revision
  {
  }

  /** A write: the revision moves on, the requests are carried out, and what damage is left is
      reported. */
  ghost function Written(t: Term, ops: seq<Op>, rows: nat, cols: nat): (r: Term)
    requires t.Valid(rows, cols) && AllFit(ops, rows, cols)
    ensures r.Valid(rows, cols) && r.marks.revision == t.marks.revision + 1 && r.Quiet()
  {
    var done := Run(t.(marks := t.marks.(revision := t.marks.revision + 1)), ops, rows, cols);
    done.(marks := Flushed(done.marks))
  }

  /** What a write shows. */
  ghost function Shown(d: Display, ops: seq<Op>, rows: nat, cols: nat): (r: Display)
    requires ValidDisplay(d, rows, cols) && AllFit(ops, rows, cols)
    ensures ValidDisplay(r, rows, cols)
  {
    if ops == [] then d else Apply(Shown(d, ops[..|ops| - 1], rows, cols), ops[|ops| - 1], rows, cols)
  }

  lemma {:induction false} RunShown(t: Term, ops: seq<Op>, rows: nat, cols: nat)
    requires t.Valid(rows, cols) && AllFit(ops, rows, cols)
    ensures Run(t, ops, rows, cols).display == Shown(t.display, ops, rows, cols)
  {
    hide Apply, Marked;
    if ops != [] {
      RunShown(t, ops[..|ops| - 1], rows, cols);
    }
  }

  lemma WriteShows(t: Term, ops: seq<Op>, rows: nat, cols: nat)
    requires t.Valid(rows, cols) && AllFit(ops, rows, cols)
    ensures Written(t, ops, rows, cols).display == Shown(t.display, ops, rows, cols)
  {
    hide Run, Shown;
    RunShown(t.(marks := t.marks.(revision := t.marks.revision + 1)), ops, rows, cols);
  }

  /** Request `i` damages row `r`, and that damage is not swallowed. */
  ghost predicate Hits(t: Term, ops: seq<Op>, i: int, rows: nat, cols: nat, r: nat)
    requires t.Valid(rows, cols) && AllFit(ops, rows, cols) && 0 <= i < |ops|
  {
    Touches(ops[i], r) && !Swallows(Run(t, ops[..i], rows, cols).marks, ops[i], rows, cols)
  }

  ghost predicate Hit(t: Term, ops: seq<Op>, rows: nat, cols: nat, r: nat)
    requires t.Valid(rows, cols) && AllFit(ops, rows, cols)
  {
    exists i :: 0 <= i < |ops| && Hits(t, ops, i, rows, cols, r)
  }

  lemma HitSnoc(t: Term, ops: seq<Op>, rows: nat, cols: nat, r: nat)
    requires t.Valid(rows, cols) && AllFit(ops, rows, cols) && ops != []
    ensures Hit(t, ops, rows, cols, r) <==>
      Hit(t, ops[..|ops| - 1], rows, cols, r) || Hits(t, ops, |ops| - 1, rows, cols, r)
  {
    var n := |ops| - 1;
    var init := ops[..n];
    hide Touches, Swallows, Run;
    forall i | 0 <= i < n ensures Hits(t, init, i, rows, cols, r) <==> Hits(t, ops, i, rows, cols, r) {
      assert init[..i] == ops[..i] && init[i] == ops[i];
    }
    if Hit(t, ops, rows, cols, r) {
      var i :| 0 <= i < |ops| && Hits(t, ops, i, rows, cols, r);
      assert i < n ==> Hits(t, init, i, rows, cols, r);
    }
  }

  /** Damage covers just the rows that were covered and those that a request hits. */
  lemma {:induction false} RunCovers(t: Term, ops: seq<Op>, rows: nat, cols: nat, r: nat)
    requires t.Valid(rows, cols) && AllFit(ops, rows, cols) && r < rows
    ensures Run(t, ops, rows, cols).marks.Covered(r) <==> t.marks.Covered(r) || Hit(t, ops, rows, cols, r)
  {
    hide Apply, Marked, Touches, Swallows, Marks.Covered;
    if ops != [] {
      RunCovers(t, ops[..|ops| - 1], rows, cols, r);
      MarksCover(Run(t, ops[..|ops| - 1], rows, cols).marks, ops[|ops| - 1], rows, cols, r);
      HitSnoc(t, ops, rows, cols, r);
    }
  }

  lemma {:induction false} RunRevises(t: Term, ops: seq<Op>, rows: nat, cols: nat, r: nat)
    requires t.Valid(rows, cols) && AllFit(ops, rows, cols) && r < rows
    ensures Run(t, ops, rows, cols).marks.rowRevision[r] in {t.marks.rowRevision[r], t.marks.revision}
  {
    hide Apply, Marked;
    if ops != [] {
      RunRevises(t, ops[..|ops| - 1], rows, cols, r);
      MarksRevise(Run(t, ops[..|ops| - 1], rows, cols).marks, ops[|ops| - 1], rows, cols, r);
    }
  }

  /** A row that no request touches looks as before. */
  lemma {:induction false} RunTouches(t: Term, ops: seq<Op>, rows: nat, cols: nat, r: nat)
    requires t.Valid(rows, cols) && AllFit(ops, rows, cols) && r < rows
    requires Looks(Run(t, ops, rows, cols).display, rows, cols, r) != Looks(t.display, rows, cols, r)
    ensures exists i :: 0 <= i < |ops| && Touches(ops[i], r)
  {
    hide Apply, Marked, Looks, Touches;
    if ops != [] {
      var n := |ops| - 1;
      if Touches(ops[n], r) {
      } else {
        OnlyTouched(Run(t, ops[..n], rows, cols).display, ops[n], rows, cols, r);
        RunTouches(t, ops[..n], rows, cols, r);
        var i :| 0 <= i < n && Touches(ops[..n][i], r);
        assert ops[..n][i] == ops[i];
      }
    }
  }

  /** The terminal as a write begins, with the next revision. */
  function Begun(t: Term): Term { t.(marks := t.marks.(revision := t.marks.revision + 1)) }

  /** After a write a row is dirty with the new revision if and only if some request damaged it
      whose damage was not swallowed. */
  lemma WriteReports(t: Term, ops: seq<Op>, rows: nat, cols: nat, r: nat)
    requires t.Valid(rows, cols) && t.Quiet() && AllFit(ops, rows, cols) && r < rows
    ensures Begun(t).Valid(rows, cols)
    ensures Written(t, ops, rows, cols).marks.Reported(r) <==> Hit(Begun(t), ops, rows, cols, r)
  {
    assert !Begun(t).marks.Covered(r);
    RunCovers(Begun(t), ops, rows, cols, r);
    FlushReports(Run(Begun(t), ops, rows, cols).marks, r);
    hide Apply, Run, Flushed, Hit;
  }

  /** A row whose bytes changed is dirty and carries the current revision; any other row carries
      that revision or its old one. */
  ghost predicate RowReported(was: Term, now: Term, rows: nat, cols: nat, r: nat)
    requires was.Valid(rows, cols) && now.Valid(rows, cols) && r < rows
  {
    && (Bytes(now.display, rows, cols, r) != Bytes(was.display, rows, cols, r) ==> now.marks.Reported(r))
    && now.marks.rowRevision[r] in {was.marks.rowRevision[r], now.marks.revision}
  }

  /** A change of a row's bytes goes unreported if and only if every request that touched the
      row was swallowed. */
  lemma ChangeUnreported(t: Term, ops: seq<Op>, rows: nat, cols: nat, r: nat)
    requires t.Valid(rows, cols) && t.Quiet() && AllFit(ops, rows, cols) && r < rows
    ensures Begun(t).Valid(rows, cols)
    ensures RowReported(t, Written(t, ops, rows, cols), rows, cols, r) <==>
      (Bytes(Written(t, ops, rows, cols).display, rows, cols, r) == Bytes(t.display, rows, cols, r)
       || Hit(Begun(t), ops, rows, cols, r))
    ensures Bytes(Written(t, ops, rows, cols).display, rows, cols, r) != Bytes(t.display, rows, cols, r) ==>
      exists i :: 0 <= i < |ops| && Touches(ops[i], r)
  {
    WriteReports(t, ops, rows, cols, r);
    var done := Run(Begun(t), ops, rows, cols);
    RunRevises(Begun(t), ops, rows, cols, r);
    FlushRevises(done.marks, r);
    SameBytes(t.display, done.display, rows, cols, r);
    hide Bytes, Looks, Hit, Run, Flushed;
    if Bytes(done.display, rows, cols, r) != Bytes(t.display, rows, cols, r) {
      RunTouches(Begun(t), ops, rows, cols, r);
    }
  }

  lemma SameBytes(a: Display, b: Display, rows: nat, cols: nat, r: nat)
    requires ValidDisplay(a, rows, cols) && ValidDisplay(b, rows, cols) && r < rows
    ensures Looks(a, rows, cols, r) == Looks(b, rows, cols, r) ==> Bytes(a, rows, cols, r) == Bytes(b, rows, cols, r)
  {
  }

  lemma FlushRevises(m: Marks, r: nat)
    requires m.Valid() && r < |m.dirty|
    ensures Flushed(m).rowRevision[r] in {m.rowRevision[r], m.revision}
  {
  }

  // ---- Where nothing goes unreported ----

  /** The request has rows, or starts on a row whose damage is stored or reported. */
  predicate Seen(m: Marks, op: Op)
    requires m.Valid()
  {
    HasRows(op) ||
    (op.Erase? && 0 <= op.rect.startRow < |m.dirty| &&
     (m.damaged.startRow == op.rect.startRow || m.Reported(op.rect.startRow)))
  }

  lemma DamageSound(m: Marks, rect: Rect)
    requires m.Valid() && Sound(m) && 0 <= rect.startRow < |m.dirty|
    requires rect.startRow < rect.endRow || m.damaged.startRow == rect.startRow || m.Reported(rect.startRow)
    ensures Sound(Damaged(m, rect))
  {
  }

  lemma FlushSound(m: Marks)
    requires m.Valid()
    ensures Sound(Flushed(m))
  {
  }

  lemma ScrollSound(m: Marks, op: Op, rows: nat, cols: nat)
    requires m.Valid() && Sound(m) && |m.dirty| == rows && op.Scroll? && Fits(op, rows, cols) && HasRows(op)
    ensures Sound(Marked(m, op, rows, cols))
  {
    var rect, downward, rightward := op.rect, op.downward, op.rightward;
    FlushSound(m);
    if ScrollsAway(rect, downward, rightward) {
      DamageSound(Flushed(m), rect);
    } else {
      var dest, left := DestOf(rect, downward, rightward), LeftOf(rect, downward, rightward);
      assert 0 <= dest.startRow < dest.endRow && 0 <= left.startRow < left.endRow;
      DamageSound(Flushed(m), dest);
      DamageSound(Damaged(Flushed(m), dest), left);
    }
    hide Damaged, Flushed, Sound;
  }

  /** Such a request keeps it so, and every row it touches is covered. */
  lemma SeenSound(m: Marks, op: Op, rows: nat, cols: nat)
    requires m.Valid() && Sound(m) && |m.dirty| == rows > 0 && Fits(op, rows, cols) && Seen(m, op)
    ensures Sound(Marked(m, op, rows, cols))
  {
    hide Damaged, Flushed, Sound;
    match op
    case PutGlyph(_, width, row, col, _, _) => DamageSound(m, Rect(row, row + 1, col, col + width));
    case Erase(rect, _, _) => DamageSound(m, rect);
    case Scroll(_, _, _, _) => ScrollSound(m, op, rows, cols);
    case SetLine(row, line, was) =>
      DamageSound(m, Rect(row, row + 1, 0, if line.doublewidth then cols / 2 else cols));
    case SetPen(_) =>
    case SetReverse(_) => DamageSound(m, Whole(rows, cols));
    case SetAlt(_, _) => DamageSound(m, Whole(rows, cols));
    case ClearHistory =>
  }

  /** What is swallowed in sound marks is on a row already reported. */
  lemma SoundCovers(m: Marks, op: Op, rows: nat, cols: nat, r: nat)
    requires m.Valid() && Sound(m) && |m.dirty| == rows && r < rows && Fits(op, rows, cols)
    ensures Touches(op, r) ==> Marked(m, op, rows, cols).Covered(r)
    ensures m.Covered(r) ==> Marked(m, op, rows, cols).Covered(r)
  {
    MarksCover(m, op, rows, cols, r);
    hide Marked;
  }

  ghost predicate SeenAt(t: Term, ops: seq<Op>, i: int, rows: nat, cols: nat)
    requires t.Valid(rows, cols) && AllFit(ops, rows, cols) && 0 <= i < |ops|
  {
    Seen(Run(t, ops[..i], rows, cols).marks, ops[i])
  }

  ghost predicate AllSeen(t: Term, ops: seq<Op>, rows: nat, cols: nat)
    requires t.Valid(rows, cols) && AllFit(ops, rows, cols)
  {
    forall i :: 0 <= i < |ops| ==> SeenAt(t, ops, i, rows, cols)
  }

  lemma SeenInit(t: Term, ops: seq<Op>, i: nat, rows: nat, cols: nat)
    requires t.Valid(rows, cols) && AllFit(ops, rows, cols) && i < |ops| - 1
    ensures SeenAt(t, ops[..|ops| - 1], i, rows, cols) <==> SeenAt(t, ops, i, rows, cols)
  {
    assert ops[..|ops| - 1][..i] == ops[..i];
    hide Seen, Run;
  }

  lemma AllSeenInit(t: Term, ops: seq<Op>, rows: nat, cols: nat)
    requires t.Valid(rows, cols) && AllFit(ops, rows, cols) && ops != []
    ensures AllSeen(t, ops, rows, cols) <==>
      AllSeen(t, ops[..|ops| - 1], rows, cols) && SeenAt(t, ops, |ops| - 1, rows, cols)
  {
    hide SeenAt;
    var n := |ops| - 1;
    forall i | 0 <= i < n ensures SeenAt(t, ops[..n], i, rows, cols) <==> SeenAt(t, ops, i, rows, cols) {
      SeenInit(t, ops, i, rows, cols);
    }
    if AllSeen(t, ops, rows, cols) {
      assert SeenAt(t, ops, n, rows, cols);
      forall i | 0 <= i < n ensures SeenAt(t, ops[..n], i, rows, cols) {
        assert SeenAt(t, ops, i, rows, cols);
      }
    }
    if AllSeen(t, ops[..n], rows, cols) && SeenAt(t, ops, n, rows, cols) {
      forall i | 0 <= i < |ops| ensures SeenAt(t, ops, i, rows, cols) {
        assert i < n ==> SeenAt(t, ops[..n], i, rows, cols);
      }
    }
  }

  /** While every request is seen, every row that one touches stays covered. */
  lemma {:induction false} SeenCovers(t: Term, ops: seq<Op>, rows: nat, cols: nat, r: nat)
    requires t.Valid(rows, cols) && AllFit(ops, rows, cols) && r < rows
    requires Sound(t.marks) && AllSeen(t, ops, rows, cols)
    ensures Sound(Run(t, ops, rows, cols).marks)
    ensures t.marks.Covered(r) || (exists i :: 0 <= i < |ops| && Touches(ops[i], r)) ==>
      Run(t, ops, rows, cols).marks.Covered(r)
  {
    hide Apply, Marked, Touches, Marks.Covered, Seen, Sound, AllSeen;
    if ops != [] {
      var n := |ops| - 1;
      AllSeenInit(t, ops, rows, cols);
      SeenCovers(t, ops[..n], rows, cols, r);
      var was := Run(t, ops[..n], rows, cols).marks;
      SeenSound(was, ops[n], rows, cols);
      SoundCovers(was, ops[n], rows, cols, r);
      if i :| 0 <= i < |ops| && Touches(ops[i], r) {
        assert i < n ==> ops[..n][i] == ops[i];
      }
    }
  }

  /** A write of requests that are all seen reports every row whose bytes it changes. */
  lemma WriteReportsChanges(t: Term, ops: seq<Op>, rows: nat, cols: nat, r: nat)
    requires t.Valid(rows, cols) && t.Quiet() && AllFit(ops, rows, cols) && r < rows
    requires Begun(t).Valid(rows, cols) && AllSeen(Begun(t), ops, rows, cols)
    ensures RowReported(t, Written(t, ops, rows, cols), rows, cols, r)
  {
    ChangeUnreported(t, ops, rows, cols, r);
    assert Sound(Begun(t).marks) && !Begun(t).marks.Covered(r);
    SeenCovers(Begun(t), ops, rows, cols, r);
    RunCovers(Begun(t), ops, rows, cols, r);
    hide Bytes, Touches, Run, Hit, AllSeen, Written, RowReported, Sound;
  }

  ghost predicate WriteSeen(t: Term, writes: seq<seq<Op>>, i: int, rows: nat, cols: nat)
    requires t.Valid(rows, cols) && (forall i :: 0 <= i < |writes| ==> AllFit(writes[i], rows, cols))
    requires 0 <= i < |writes|
  {
    AllSeen(Begun(After(t, writes[..i], rows, cols)), writes[i], rows, cols)
  }

  /** Writes of requests that fit and are seen. */
  ghost predicate Session(t: Term, writes: seq<seq<Op>>, rows: nat, cols: nat)
    requires t.Valid(rows, cols)
  {
    && (forall i :: 0 <= i < |writes| ==> AllFit(writes[i], rows, cols))
    && (forall i :: 0 <= i < |writes| ==> WriteSeen(t, writes, i, rows, cols))
  }

  lemma SessionInit(t: Term, writes: seq<seq<Op>>, rows: nat, cols: nat)
    requires t.Valid(rows, cols) && Session(t, writes, rows, cols) && writes != []
    ensures Session(t, writes[..|writes| - 1], rows, cols)
  {
    hide AllSeen, After, AllFit;
    var init := writes[..|writes| - 1];
    forall i | 0 <= i < |init| ensures WriteSeen(t, init, i, rows, cols) {
      assert init[..i] == writes[..i] && WriteSeen(t, writes, i, rows, cols);
    }
  }

  ghost function After(t: Term, writes: seq<seq<Op>>, rows: nat, cols: nat): (r: Term)
    requires t.Valid(rows, cols) && forall i :: 0 <= i < |writes| ==> AllFit(writes[i], rows, cols)
    ensures r.Valid(rows, cols) && Begun(r).Valid(rows, cols) && (t.Quiet() ==> r.Quiet())
  {
    if writes == [] then t
    else Written(After(t, writes[..|writes| - 1], rows, cols), writes[|writes| - 1], rows, cols)
  }

  /** Over any number of writes, a row that carries the revision it carried has the bytes it had. */
  lemma {:induction false} RevisionIsKey(t: Term, writes: seq<seq<Op>>, rows: nat, cols: nat, r: nat)
    requires t.Valid(rows, cols) && t.Quiet() && Session(t, writes, rows, cols) && r < rows
    ensures var now := After(t, writes, rows, cols);
      && now.marks.rowRevision[r] >= t.marks.rowRevision[r]
      && (now.marks.rowRevision[r] == t.marks.rowRevision[r] ==>
            Bytes(now.display, rows, cols, r) == Bytes(t.display, rows, cols, r))
  {
    if writes != [] {
      var n := |writes| - 1;
      SessionInit(t, writes, rows, cols);
      assert WriteSeen(t, writes, n, rows, cols);
      hide Bytes, Written, AllSeen, Session;
      RevisionIsKey(t, writes[..n], rows, cols, r);
      WriteReportsChanges(After(t, writes[..n], rows, cols), writes[n], rows, cols, r);
    }
  }

  // ---- The requests that have no rows ----

  /** Erasing above the cursor on the first row: no rows, then the start of that row. */
  function EraseAboveFirst(col: nat, cols: nat, info: seq<LineInfo>): seq<Op> {
    [Erase(Rect(0, 0, 0, cols), false, info), Erase(Rect(0, 1, 0, col + 1), false, info)]
  }

  const PLAIN_PEN := Pen(PLAIN_COLOR, PLAIN_COLOR, false, 0, false, false, false, false, false, 0, false, 0)

  /** A screen of one cell that shows an x. */
  const ONE_X: Term :=
    Term(Display([[Cell(Glyph([120]), ScreenPen(PLAIN_PEN, false, false, 0))]],
                 [[Cell(Blank, ScreenPen(PLAIN_PEN, false, false, 0))]], false, false, PLAIN_PEN),
         Marks(Rect(NONE, 0, 0, 0), [false], [1], 1))

  /** The revision is no key where a request goes unseen: the x is erased, and its row is neither
      dirty nor revised. */
  lemma EraseAboveUnseen()
    ensures var ops := EraseAboveFirst(0, 1, [NO_INFO]);
      && ONE_X.Valid(1, 1) && ONE_X.Quiet() && AllFit(ops, 1, 1) && !Seen(Begun(ONE_X).marks, ops[0])
      && var now := Written(ONE_X, ops, 1, 1);
         && Bytes(now.display, 1, 1, 0) != Bytes(ONE_X.display, 1, 1, 0)
         && now.marks.rowRevision[0] == ONE_X.marks.rowRevision[0] && !now.marks.dirty[0]
  {
    var ops := EraseAboveFirst(0, 1, [NO_INFO]);
    assert !HasRows(ops[0]);
    var begun := Begun(ONE_X);
    assert ops[..1] == [ops[0]] && ops[..1][..0] == [];
    var one := Run(begun, ops[..1], 1, 1);
    assert Run(begun, ops[..1][..0], 1, 1) == begun;
    assert one == Term(Apply(begun.display, ops[0], 1, 1), Marked(begun.marks, ops[0], 1, 1));
    var two := Run(begun, ops, 1, 1);
    assert two == Term(Apply(one.display, ops[1], 1, 1), Marked(one.marks, ops[1], 1, 1));
    assert two.display.Active()[0][0].text == Blank;
    BytesOfBlank(two.display);
    BytesOfX(ONE_X.display);
  }

  lemma BytesOfBlank(d: Display)
    requires ValidDisplay(d, 1, 1) && d.Active()[0][0] == Erased(PLAIN_PEN, NO_INFO) && !d.reverse
    ensures Bytes(d, 1, 1, 0) == []
  {
    var cells := SC.ExtRow(d.Active()[0], false);
    assert Serialise.View(cells[0]) == Serialise.NOTHING_SHOWN;
    Serialise.OnlyDefaultsAreOmitted(cells[0]);
    assert Serialise.Kept(cells[..0]) == 0;
  }

  lemma BytesOfX(d: Display)
    requires ValidDisplay(d, 1, 1) && d.Active()[0][0].text == Glyph([120])
    ensures |Bytes(d, 1, 1, 0)| == 40
  {
    var cells := SC.ExtRow(d.Active()[0], d.reverse);
    assert Serialise.CharWord(cells[0].text, 0) == 120;
  }
}
