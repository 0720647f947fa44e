/** What printing makes of a fresh terminal: paragraphs end up as rows of the screen's width,
    on the screen or above it in the scrollback. */
module Wrap {
  import opened Grid
  import opened Seqs
  import opened ScreenSpec
  import opened TermSpec
  import opened TermSafe
  import S = Sgr

  /** The screen, and every row it has sent to the scrollback, oldest first. */
  datatype World = World(display: Display, sent: seq<Row>) {
    function All(): seq<Row> { sent + display.primary }
  }

  /** A request carried out. One that does not fit would change nothing; no run makes one
      (TermSafe.RunKept). */
  function Carried(x: World, op: Op, s: Setup): World {
    if ValidDisplay(x.display, s.rows, s.cols) && Fits(op, s.rows, s.cols) then
      World(Apply(x.display, op, s.rows, s.cols), x.sent + Leaving(x.display, op, s.rows, s.cols))
    else x
  }

  function Play(d: Display, ops: seq<Op>, s: Setup): World {
    if ops == [] then World(d, []) else Carried(Play(d, ops[..|ops| - 1], s), ops[|ops| - 1], s)
  }

  lemma PlaySnoc(d: Display, ops: seq<Op>, op: Op, s: Setup)
    ensures Play(d, ops + [op], s) == Carried(Play(d, ops, s), op, s)
  {
    assert (ops + [op])[..|ops|] == ops;
  }

  // ---- Paragraphs cut into rows ----

  /** One more character: on the last row, or on a new one if that is full. */
  function Added(f: seq<seq<nat>>, c: nat, cols: nat): (r: seq<seq<nat>>)
    requires f != []
    ensures r != []
  {
    if |f[|f| - 1]| >= cols then f + [[c]] else f[..|f| - 1] + [f[|f| - 1] + [c]]
  }

  /** The rows that the characters of a paragraph fill, one character after the other. */
  function Filled(p: seq<nat>, cols: nat): (r: seq<seq<nat>>)
    requires cols > 0
    ensures r != []
  {
    if p == [] then [[]] else Added(Filled(p[..|p| - 1], cols), p[|p| - 1], cols)
  }

  lemma LastGrown(front: seq<seq<nat>>, last: seq<nat>, c: nat)
    ensures Concat(front + [last + [c]]) == Concat(front + [last]) + [c]
  {
    ConcatSnoc(front, last + [c]);
    ConcatSnoc(front, last);
    AppendAssoc(Concat(front), last, [c]);
    hide Concat;
  }

  lemma AddedConcat(g: seq<seq<nat>>, c: nat, cols: nat)
    requires g != []
    ensures Concat(Added(g, c, cols)) == Concat(g) + [c]
  {
    var n := |g| - 1;
    ConcatSnoc(g, [c]);
    LastGrown(g[..n], g[n], c);
    hide Concat;
    assert g == g[..n] + [g[n]];
  }

  lemma {:induction false} FilledConcat(p: seq<nat>, cols: nat)
    requires cols > 0
    ensures Concat(Filled(p, cols)) == p
  {
    if p == [] {
      var none: seq<seq<nat>> := [[]];
      assert none[..0] == [];
    } else {
      var q, c := p[..|p| - 1], p[|p| - 1];
      hide Concat, Added;
      FilledConcat(q, cols);
      AddedConcat(Filled(q, cols), c, cols);
      assert p == q + [c];
    }
  }

  /** All characters in order; every row full but the last, which is empty only if there are none. */
  lemma {:induction false} FilledCuts(p: seq<nat>, cols: nat)
    requires cols > 0
    ensures var f := Filled(p, cols);
      && Concat(f) == p
      && (forall i :: 0 <= i < |f| - 1 ==> |f[i]| == cols)
      && |f[|f| - 1]| <= cols && (f[|f| - 1] == [] <==> p == [])
  {
    FilledConcat(p, cols);
    hide Concat;
    if p != [] {
      FilledCuts(p[..|p| - 1], cols);
    }
  }

  /** The rows of all paragraphs. */
  function Rows(ps: seq<seq<nat>>, cols: nat): seq<seq<nat>>
    requires cols > 0
  {
    if ps == [] then [] else Rows(ps[..|ps| - 1], cols) + Filled(ps[|ps| - 1], cols)
  }

  /** For each of them whether it continues the row above. */
  function Flags(ps: seq<seq<nat>>, cols: nat): (f: seq<bool>)
    requires cols > 0
    ensures |f| == |Rows(ps, cols)|
  {
    if ps == [] then [] else
      Flags(ps[..|ps| - 1], cols) + seq(|Filled(ps[|ps| - 1], cols)|, i => i > 0)
  }

  // ---- Rows as the screen holds them ----

  function BlankCell(s: Setup): Cell { Erased(S.Reset(s.defaults), NO_INFO) }

  function CharCell(c: nat, s: Setup): Cell {
    Cell(Glyph([c]), ScreenPen(S.Reset(s.defaults), false, false, 0))
  }

  function RowOf(line: seq<nat>, s: Setup): (r: Row)
    ensures |r| == s.cols
  {
    seq(s.cols, i requires 0 <= i < s.cols => if i < |line| then CharCell(line[i], s) else BlankCell(s))
  }

  /** The `i`th of all rows when `done` are finished and `line` is being written. */
  function SheetRow(done: seq<seq<nat>>, line: seq<nat>, i: nat, s: Setup): Row {
    RowOf(if i < |done| then done[i] else if i == |done| then line else [], s)
  }

  ghost predicate IsSheet(all: seq<Row>, done: seq<seq<nat>>, line: seq<nat>, s: Setup) {
    |all| > |done| && forall i :: 0 <= i < |all| ==> all[i] == SheetRow(done, line, i, s)
  }

  function FlagLine(flags: seq<bool>, i: nat): LineInfo { LineInfo(false, 0, i < |flags| && flags[i]) }

  ghost predicate FlagsShown(info: seq<LineInfo>, flags: seq<bool>, sent: nat) {
    forall r :: 0 <= r < |info| ==> info[r] == FlagLine(flags, sent + r)
  }

  /** A terminal that has only printed, on the primary screen. */
  predicate Plain(t: Term, d: Display, s: Setup) {
    && t.setup == s && s.rows >= 2 && s.cols >= 2
    && t.modes == INITIAL_MODES && t.region == FULL_REGION && !t.onAlt && |t.primary| == s.rows && !t.isProtected
    && ValidDisplay(d, s.rows, s.cols) && !d.onAlt && d.pen == S.Reset(s.defaults)
  }

  /** The screen and the scrollback hold the finished rows and the one being written, and the
      cursor is on that one; `flags` says of each whether it continues the row above. */
  ghost predicate Holds(t: Term, x: World, done: seq<seq<nat>>, line: seq<nat>, flags: seq<bool>, s: Setup) {
    && Plain(t, x.display, s)
    && |flags| == |done| + 1 && |x.sent| <= |done| && t.pos.row == |done| - |x.sent| && t.pos.row < s.rows
    && (x.sent != [] ==> t.pos.row == s.rows - 1)
    && IsSheet(x.All(), done, line, s)
    && FlagsShown(t.primary, flags, |x.sent|)
  }

  /** No request for reverse video, and none to forget the scrollback. */
  ghost predicate Calm(out: seq<Op>) {
    forall i :: 0 <= i < |out| ==> !out[i].SetReverse? && !out[i].ClearHistory?
  }

  /** The same of the screen that the requests made so far lead to, from a screen showing `d`. */
  ghost predicate Shows(t: Term, d: Display, done: seq<seq<nat>>, line: seq<nat>, flags: seq<bool>, s: Setup) {
    Holds(t, Play(d, t.out, s), done, line, flags, s) && Calm(t.out)
  }

  predicate CursorAt(t: Term, line: seq<nat>, s: Setup) {
    if t.phantom then |line| == s.cols && t.pos.col == s.cols - 1 else |line| == t.pos.col < s.cols
  }

  // ---- The next row ----

  lemma ScrolledUp(d: Display, s: Setup, op: Op)
    requires ValidDisplay(d, s.rows, s.cols) && !d.onAlt && s.rows >= 2 && s.cols >= 2 && d.pen == S.Reset(s.defaults)
    requires op.Scroll? && op.rect == Rect(0, s.rows, 0, s.cols) && op.downward == 1 && op.rightward == 0
    requires |op.info| == s.rows && op.info[s.rows - 1] == NO_INFO
    ensures Fits(op, s.rows, s.cols) && Leaving(d, op, s.rows, s.cols) == d.primary[..1]
    ensures var e := Apply(d, op, s.rows, s.cols);
      e == d.(primary := e.primary) && e.primary == d.primary[1..] + [RowOf([], s)]
  {
    var e := Apply(d, op, s.rows, s.cols);
    var blanks := Blanks(d.pen, op.info);
    assert e.primary == Shifted(d.primary, s.cols, op.rect, 1, 0, blanks);
    forall i | 0 <= i < s.rows ensures e.primary[i] == (d.primary[1..] + [RowOf([], s)])[i] {
      if i < s.rows - 1 {
        assert e.primary[i] == d.primary[i + 1];
      } else {
        assert blanks[i] == BlankCell(s);
        assert e.primary[i] == RowOf([], s);
      }
    }
  }

  /** With the next row blank, finishing one row and beginning the next changes nothing. */
  lemma NextSheet(all: seq<Row>, done: seq<seq<nat>>, line: seq<nat>, s: Setup)
    requires IsSheet(all, done, line, s) && |all| > |done| + 1
    ensures IsSheet(all, done + [line], [], s)
  {
    hide RowOf;
    forall i | 0 <= i < |all| ensures all[i] == SheetRow(done + [line], [], i, s) {
      assert all[i] == SheetRow(done, line, i, s);
    }
  }

  lemma BlankAdded(all: seq<Row>, done: seq<seq<nat>>, line: seq<nat>, s: Setup)
    requires IsSheet(all, done, line, s)
    ensures IsSheet(all + [RowOf([], s)], done, line, s)
  {
    hide RowOf;
  }

  lemma FlagsNext(info: seq<LineInfo>, flags: seq<bool>, sent: nat)
    requires FlagsShown(info, flags, sent)
    ensures FlagsShown(info, flags + [false], sent)
  {
    forall r | 0 <= r < |info| ensures info[r] == FlagLine(flags + [false], sent + r) {
      assert info[r] == FlagLine(flags, sent + r);
    }
  }

  /** The flags move up with the rows. */
  lemma FlagsScrolled(info: seq<LineInfo>, moved: seq<LineInfo>, flags: seq<bool>, sent: nat)
    requires FlagsShown(info, flags, sent) && info != [] && |flags| <= sent + |info|
    requires moved == info[1..] + [NO_INFO]
    ensures FlagsShown(moved, flags, sent + 1)
  {
    forall r | 0 <= r < |moved| ensures moved[r] == FlagLine(flags, sent + 1 + r) {
      if r < |info| - 1 {
        assert moved[r] == info[r + 1] == FlagLine(flags, sent + (r + 1));
      }
    }
  }

  lemma MovedUp(info: seq<LineInfo>, s: Setup)
    requires |info| == s.rows >= 1
    ensures MovedLines(info, Rect(0, s.rows, 0, s.cols), 1) == info[1..] + [NO_INFO]
  {
  }

  /** A line feed at the bottom: the top row leaves, a blank one comes in. */
  lemma FedAtBottom(t: Term, x: World, done: seq<seq<nat>>, line: seq<nat>, flags: seq<bool>, s: Setup)
    requires Holds(t, x, done, line, flags, s) && t.pos.row == s.rows - 1
    ensures var u := LineFeed(t);
      && |u.out| == |t.out| + 1 && u.out[..|t.out|] == t.out && u == t.(primary := u.primary, out := u.out)
      && Holds(u, Carried(x, u.out[|t.out|], s), done + [line], [], flags + [false], s)
  {
    var u := LineFeed(t);
    MovedUp(t.primary, s);
    var op := u.out[|t.out|];
    assert u.out == t.out + [op] && u.primary == t.primary[1..] + [NO_INFO];
    ScrolledUp(x.display, s, op);
    var y := Carried(x, op, s);
    assert y.sent == x.sent + x.display.primary[..1];
    assert y.All() == x.All() + [RowOf([], s)];
    FlagsScrolled(t.primary, u.primary, flags, |x.sent|);
    hide IsSheet, FlagsShown, Carried, Apply, ValidDisplay, RowOf, LineFeed;
    BlankAdded(x.All(), done, line, s);
    NextSheet(y.All(), done, line, s);
    FlagsNext(u.primary, flags, |y.sent|);
  }

  lemma FedAbove(t: Term, x: World, done: seq<seq<nat>>, line: seq<nat>, flags: seq<bool>, s: Setup)
    requires Holds(t, x, done, line, flags, s) && t.pos.row < s.rows - 1
    ensures LineFeed(t) == t.(pos := Pos(t.pos.row + 1, t.pos.col))
    ensures Holds(LineFeed(t), x, done + [line], [], flags + [false], s)
  {
    assert |x.All()| == |x.sent| + s.rows;
    hide IsSheet, FlagsShown, ValidDisplay, RowOf;
    NextSheet(x.All(), done, line, s);
    FlagsNext(t.primary, flags, |x.sent|);
  }

  /** A line feed finishes the row being written. */
  lemma Fed(t: Term, d: Display, done: seq<seq<nat>>, line: seq<nat>, flags: seq<bool>, s: Setup)
    requires Shows(t, d, done, line, flags, s)
    ensures var u := LineFeed(t);
      u == t.(pos := Pos(u.pos.row, t.pos.col), primary := u.primary, out := u.out)
    ensures Shows(LineFeed(t), d, done + [line], [], flags + [false], s)
  {
    var x := Play(d, t.out, s);
    if t.pos.row == s.rows - 1 {
      FedAtBottom(t, x, done, line, flags, s);
      var u := LineFeed(t);
      assert u.out == t.out + [u.out[|t.out|]];
      hide Holds, LineFeed, Carried;
      PlaySnoc(d, t.out, u.out[|t.out|], s);
    } else {
      FedAbove(t, x, done, line, flags, s);
      hide Holds;
    }
  }

  lemma FlagSet(info: seq<LineInfo>, flags: seq<bool>, sent: nat, row: nat)
    requires FlagsShown(info, flags + [false], sent) && row < |info| && sent + row == |flags|
    ensures FlagsShown(Continued(info, row), flags + [true], sent)
  {
    var now := Continued(info, row);
    forall r | 0 <= r < |now| ensures now[r] == FlagLine(flags + [true], sent + r) {
      assert info[r] == FlagLine(flags + [false], sent + r);
    }
  }

  /** Wrapping finishes the row too, and marks the next one as its continuation. */
  lemma WrappedShows(t: Term, d: Display, done: seq<seq<nat>>, line: seq<nat>, flags: seq<bool>, s: Setup)
    requires Shows(t, d, done, line, flags, s)
    ensures Shows(Wrapped(t), d, done + [line], [], flags + [true], s) && CursorAt(Wrapped(t), [], s)
  {
    Fed(t, d, done, line, flags, s);
    var u := LineFeed(t);
    assert Holds(u, Play(d, u.out, s), done + [line], [], flags + [false], s);
    assert Wrapped(t) == u.(pos := Pos(u.pos.row, 0), phantom := false, primary := Continued(u.primary, u.pos.row));
    hide LineFeed, Play, IsSheet, ValidDisplay, FlagsShown;
    FlagSet(u.primary, flags, |Play(d, u.out, s).sent|, u.pos.row);
  }

  // ---- One glyph ----

  lemma CharPut(line: seq<nat>, c: nat, s: Setup, op: Op)
    requires op.PutGlyph? && op.chars == [c] && op.width == 1 && op.col == |line| < s.cols
    requires !op.isProtected && !op.line.doublewidth && op.line.doubleheight == 0
    ensures Glyphed(RowOf(line, s), op, 1, S.Reset(s.defaults)) == RowOf(line + [c], s)
  {
    var pen := S.Reset(s.defaults);
    hide S.Reset;
    assert GlyphCell(op, pen) == CharCell(c, s);
    var row, next := Glyphed(RowOf(line, s), op, 1, pen), RowOf(line + [c], s);
    forall i | 0 <= i < s.cols ensures row[i] == next[i] {
      assert next[i] == if i < |line| then CharCell(line[i], s) else if i == |line| then CharCell(c, s) else BlankCell(s);
    }
  }

  lemma SheetPut(all: seq<Row>, done: seq<seq<nat>>, line: seq<nat>, next: seq<nat>, s: Setup)
    requires IsSheet(all, done, line, s)
    ensures IsSheet(all[|done| := RowOf(next, s)], done, next, s)
  {
    var now := all[|done| := RowOf(next, s)];
    hide RowOf;
    forall i | 0 <= i < |now| ensures now[i] == SheetRow(done, next, i, s) {
      assert all[i] == SheetRow(done, line, i, s);
    }
  }

  lemma PutHolds(t: Term, x: World, done: seq<seq<nat>>, line: seq<nat>, flags: seq<bool>, c: nat, s: Setup)
    requires Holds(t, x, done, line, flags, s) && t.pos.col == |line| < s.cols
    ensures var u := Put(t, [c], 1, t.pos);
      && u == t.(out := t.out + [u.out[|t.out|]])
      && Holds(u, Carried(x, u.out[|t.out|], s), done, line + [c], flags, s)
  {
    var op := Put(t, [c], 1, t.pos).out[|t.out|];
    assert t.primary[t.pos.row] == FlagLine(flags, |x.sent| + t.pos.row);
    assert x.All()[|done|] == SheetRow(done, line, |done|, s) == RowOf(line, s);
    assert x.display.primary[t.pos.row] == RowOf(line, s);
    CharPut(line, c, s, op);
    assert Fits(op, s.rows, s.cols);
    var y := Carried(x, op, s);
    assert y.display == x.display.(primary := x.display.primary[t.pos.row := RowOf(line + [c], s)]);
    assert y.All() == x.All()[|done| := RowOf(line + [c], s)];
    hide IsSheet, FlagsShown, Carried, RowOf;
    SheetPut(x.All(), done, line, line + [c], s);
  }

  lemma PutShows(t: Term, d: Display, done: seq<seq<nat>>, line: seq<nat>, flags: seq<bool>, c: nat, s: Setup)
    requires Shows(t, d, done, line, flags, s) && t.pos.col == |line| < s.cols
    ensures Shows(Put(t, [c], 1, t.pos), d, done, line + [c], flags, s)
    ensures var u := Put(t, [c], 1, t.pos); u == t.(out := u.out)
  {
    var u := Put(t, [c], 1, t.pos);
    PutHolds(t, Play(d, t.out, s), done, line, flags, c, s);
    assert u.out == t.out + [u.out[|t.out|]];
    hide Holds, Carried, Put;
    PlaySnoc(d, t.out, u.out[|t.out|], s);
  }

  /** The row that a glyph goes on: the one being written, or a fresh one if that is full. */
  lemma RoomShows(t: Term, d: Display, done: seq<seq<nat>>, line: seq<nat>, flags: seq<bool>, s: Setup)
    requires Shows(t, d, done, line, flags, s) && CursorAt(t, line, s)
    ensures var u := Room(t, 1);
      && !u.phantom
      && if |line| == s.cols then Shows(u, d, done + [line], [], flags + [true], s) && u.pos.col == 0
         else Shows(u, d, done, line, flags, s) && u.pos.col == |line|
  {
    assert t.Width() == s.cols by {
      assert t.primary[t.pos.row] == FlagLine(flags, |Play(d, t.out, s).sent| + t.pos.row);
    }
    hide Wrapped, Holds;
    if |line| == s.cols {
      WrappedShows(t, d, done, line, flags, s);
    }
  }

  lemma AdvancedShows(t: Term, d: Display, done: seq<seq<nat>>, line: seq<nat>, flags: seq<bool>, last: Last, s: Setup)
    requires Shows(t, d, done, line, flags, s) && !t.phantom && t.pos.col + 1 == |line| <= s.cols
    ensures var u := Advanced(t.(last := last), 1); Shows(u, d, done, line, flags, s) && CursorAt(u, line, s)
    ensures var u := Advanced(t, 1); Shows(u, d, done, line, flags, s) && CursorAt(u, line, s)
  {
    assert t.Width() == s.cols by {
      assert t.primary[t.pos.row] == FlagLine(flags, |Play(d, t.out, s).sent| + t.pos.row);
    }
    hide IsSheet, FlagsShown, Play, ValidDisplay;
  }

  /** What the rows are once `c` is put behind them. */
  lemma PrintedShows(t: Term, d: Display, done: seq<seq<nat>>, line: seq<nat>, flags: seq<bool>, c: nat, isLast: bool,
                     s: Setup)
    requires Shows(t, d, done, line, flags, s) && CursorAt(t, line, s)
    ensures var u := Printing(t, [c], 1, isLast);
      if |line| == s.cols then Shows(u, d, done + [line], [c], flags + [true], s) && CursorAt(u, [c], s)
      else Shows(u, d, done, line + [c], flags, s) && CursorAt(u, line + [c], s)
  {
    RoomShows(t, d, done, line, flags, s);
    var u := Room(t, 1);
    assert Inserting(u) == u;
    var (done', line', flags') :=
      if |line| == s.cols then (done + [line], [], flags + [true]) else (done, line, flags);
    assert s.cols >= 2;
    assert line' + [c] == if |line| == s.cols then [c] else line + [c];
    hide Shows, Room, Inserting, Advanced, Put;
    PutShows(u, d, done', line', flags', c, s);
    AdvancedShows(Put(u, [c], 1, u.pos), d, done', line' + [c], flags', Last([c], 1, u.pos), s);
  }

  // ---- Texts and paragraphs ----

  /** Every character stands on its own and takes one column. */
  predicate Single(p: seq<nat>, w: Widths) {
    forall i :: 0 <= i < |p| ==> w.width(p[i]) == 1 && p[i] !in w.combining
  }

  function Front(f: seq<seq<nat>>): seq<seq<nat>>
    requires f != []
  {
    f[..|f| - 1]
  }

  function LastOf(f: seq<seq<nat>>): seq<nat>
    requires f != []
  {
    f[|f| - 1]
  }

  function Trues(n: nat): (r: seq<bool>)
    ensures |r| == n && forall i :: 0 <= i < n ==> r[i]
  {
    seq(n, _ => true)
  }

  /** The first `i` characters of a paragraph printed below the rows `base`. */
  ghost predicate Upto(t: Term, d: Display, base: seq<seq<nat>>, flags: seq<bool>, p: seq<nat>, s: Setup) {
    && s.cols >= 2
    && var f := Filled(p, s.cols);
    && Shows(t, d, base + Front(f), LastOf(f), flags + Trues(|f| - 1), s) && CursorAt(t, LastOf(f), s)
  }

  lemma FilledNext(p: seq<nat>, i: nat, cols: nat)
    requires i < |p| && cols > 0
    ensures var f, g := Filled(p[..i], cols), Filled(p[..i + 1], cols);
      && |LastOf(f)| <= cols
      && if |LastOf(f)| == cols then
           Front(g) == Front(f) + [LastOf(f)] && LastOf(g) == [p[i]] && |g| == |f| + 1
         else Front(g) == Front(f) && LastOf(g) == LastOf(f) + [p[i]] && |g| == |f|
  {
    FilledCuts(p[..i], cols);
    assert p[..i + 1][..i] == p[..i];
    var f := Filled(p[..i], cols);
    assert f == Front(f) + [LastOf(f)];
  }

  lemma OneGlyph(cps: seq<nat>, w: Widths, i: nat)
    requires Single(cps, w) && i < |cps|
    ensures GlyphEnd(cps, w, i) == i + 1 && SkipCombining(cps, w, i + 1, |cps|) == i + 1
    ensures cps[i..i + 1] == [cps[i]] && TotalWidth([cps[i]], w) == 1
  {
    assert [cps[i]][..0] == [];
    assert TotalWidth([], w) == 0;
  }

  lemma NextGlyph(t: Term, d: Display, base: seq<seq<nat>>, flags: seq<bool>, p: seq<nat>, i: nat, isLast: bool, s: Setup)
    requires i < |p| && Upto(t, d, base, flags, p[..i], s)
    ensures Upto(Printing(t, [p[i]], 1, isLast), d, base, flags, p[..i + 1], s)
  {
    var f, g := Filled(p[..i], s.cols), Filled(p[..i + 1], s.cols);
    FilledNext(p, i, s.cols);
    var n := |f| - 1;
    assert Trues(n) + [true] == Trues(n + 1);
    hide Shows, CursorAt, Filled, Printing, Front, LastOf, Trues;
    PrintedShows(t, d, base + Front(f), LastOf(f), flags + Trues(n), p[i], isLast, s);
    if |LastOf(f)| == s.cols {
      AppendAssoc(base, Front(f), [LastOf(f)]);
      AppendAssoc(flags, Trues(n), [true]);
    }
  }

  /** The rest of a piece, printed behind what came before it. */
  lemma {:induction false} GlyphsShow(t: Term, d: Display, base: seq<seq<nat>>, flags: seq<bool>, before: seq<nat>,
                                      cps: seq<nat>, w: Widths, i: nat, s: Setup)
    requires Single(cps, w) && i <= |cps| && Upto(t, d, base, flags, before + cps[..i], s)
    ensures Upto(Glyphs(t, cps, w, i), d, base, flags, before + cps, s)
    decreases |cps| - i
  {
    hide Upto, Printing, GlyphEnd, TotalWidth;
    if i == |cps| {
      assert cps[..i] == cps;
    } else {
      var p := before + cps;
      assert before + cps[..i] == p[..|before| + i] && before + cps[..i + 1] == p[..|before| + i + 1];
      OneGlyph(cps, w, i);
      NextGlyph(t, d, base, flags, p, |before| + i, i + 1 == |cps|, s);
      GlyphsShow(Printing(t, [cps[i]], 1, i + 1 == |cps|), d, base, flags, before, cps, w, i + 1, s);
    }
  }

  /** A text that continues the paragraph. */
  lemma PieceShows(t: Term, d: Display, base: seq<seq<nat>>, flags: seq<bool>, before: seq<nat>, cps: seq<nat>,
                   w: Widths, s: Setup)
    requires Single(cps, w) && Upto(t, d, base, flags, before, s)
    ensures Upto(OnText(t, cps, w), d, base, flags, before + cps, s)
  {
    assert before + cps[..0] == before;
    hide Upto, Glyphs;
    GlyphsShow(t, d, base, flags, before, cps, w, 0, s);
  }

  ghost predicate AllSingle(pieces: seq<seq<nat>>, w: Widths) {
    forall i :: 0 <= i < |pieces| ==> Single(pieces[i], w)
  }

  function Texts(pieces: seq<seq<nat>>): seq<Event> {
    seq(|pieces|, i requires 0 <= i < |pieces| => Text(pieces[i]))
  }

  /** However a paragraph is split into texts, they print it as a whole. */
  lemma {:induction false} PiecesShow(t: Term, d: Display, base: seq<seq<nat>>, flags: seq<bool>,
                                      pieces: seq<seq<nat>>, w: Widths, s: Setup)
    requires AllSingle(pieces, w) && Shows(t, d, base, [], flags, s) && CursorAt(t, [], s) && s.cols >= 2
    ensures Upto(Run(t, Texts(pieces), w), d, base, flags, Concat(pieces), s)
  {
    if pieces == [] {
      NothingUpto(t, d, base, flags, s);
    } else {
      var n := |pieces| - 1;
      assert Texts(pieces)[..n] == Texts(pieces[..n]) && Texts(pieces)[n] == Text(pieces[n]);
      hide Upto, Shows, CursorAt, Texts, Single, OnText;
      PiecesShow(t, d, base, flags, pieces[..n], w, s);
      PieceShows(Run(t, Texts(pieces[..n]), w), d, base, flags, Concat(pieces[..n]), pieces[n], w, s);
    }
  }

  lemma NothingUpto(t: Term, d: Display, base: seq<seq<nat>>, flags: seq<bool>, s: Setup)
    requires Shows(t, d, base, [], flags, s) && CursorAt(t, [], s) && s.cols >= 2
    ensures Upto(t, d, base, flags, [], s)
  {
    assert Filled([], s.cols) == [[]];
    assert base + [] == base && flags + Trues(0) == flags;
    hide Shows, CursorAt;
  }

  /** CR and LF end the row being written. */
  lemma LineEnds(t: Term, d: Display, done: seq<seq<nat>>, line: seq<nat>, flags: seq<bool>, s: Setup)
    requires Shows(t, d, done, line, flags, s) && CursorAt(t, line, s)
    ensures var u := OnControl(OnControl(t, 0x0d), 0x0a);
      Shows(u, d, done + [line], [], flags + [false], s) && CursorAt(u, [], s)
  {
    var v := OnControl(t, 0x0d);
    assert v == t.(pos := Pos(t.pos.row, 0), phantom := false);
    assert Shows(v, d, done, line, flags, s) by {
      hide IsSheet, FlagsShown, Play, ValidDisplay;
    }
    Fed(v, d, done, line, flags, s);
    var u := LineFeed(v);
    assert !v.modes.newline && s.cols >= 2;
    hide Shows, LineFeed;
    assert OnControl(v, 0x0a) == u;
  }

  lemma RowsSnoc(ps: seq<seq<nat>>, p: seq<nat>, cols: nat)
    requires cols > 0
    ensures var f := Filled(p, cols);
      && Rows(ps + [p], cols) == Rows(ps, cols) + Front(f) + [LastOf(f)]
      && Flags(ps + [p], cols) + [false] == Flags(ps, cols) + [false] + Trues(|f| - 1) + [false]
  {
    var f := Filled(p, cols);
    assert (ps + [p])[..|ps|] == ps;
    assert f == Front(f) + [LastOf(f)];
    AppendAssoc(Rows(ps, cols), Front(f), [LastOf(f)]);
    assert [false] + Trues(|f| - 1) == seq(|f|, i => i > 0);
    hide Filled;
  }

  /** A whole paragraph. */
  lemma ParagraphShows(t: Term, d: Display, ps: seq<seq<nat>>, pieces: seq<seq<nat>>, w: Widths, s: Setup)
    requires AllSingle(pieces, w) && s.cols >= 2
    requires Shows(t, d, Rows(ps, s.cols), [], Flags(ps, s.cols) + [false], s) && CursorAt(t, [], s)
    ensures var u, qs := OnControl(OnControl(Run(t, Texts(pieces), w), 0x0d), 0x0a), ps + [Concat(pieces)];
      Shows(u, d, Rows(qs, s.cols), [], Flags(qs, s.cols) + [false], s) && CursorAt(u, [], s)
  {
    var base, flags, p := Rows(ps, s.cols), Flags(ps, s.cols), Concat(pieces);
    var f := Filled(p, s.cols);
    RowsSnoc(ps, p, s.cols);
    hide Shows, CursorAt, Filled, Rows, Flags, Run, OnControl, AllSingle, Front, LastOf, Trues, Texts, Concat;
    PiecesShow(t, d, base, flags + [false], pieces, w, s);
    LineEnds(Run(t, Texts(pieces), w), d, base + Front(f), LastOf(f), flags + [false] + Trues(|f| - 1), s);
  }

  // ---- A fresh terminal ----

  lemma SameLine(x: World, row: nat, s: Setup)
    requires ValidDisplay(x.display, s.rows, s.cols) && row < s.rows
    ensures Carried(x, SetLine(row, NO_INFO, NO_INFO), s) == x
  {
    var d := x.display;
    assert d.Active()[row := d.Active()[row]] == d.Active();
    assert x.sent + [] == x.sent;
    hide ErasedRow, MarkedLine;
  }

  /** Lines of single width made so again: the screen stays as it is. */
  lemma {:induction false} PlainPlays(t: Term, d: Display, k: nat, s: Setup)
    requires ValidDisplay(d, s.rows, s.cols) && k <= s.rows && Play(d, t.out, s) == World(d, [])
    requires !t.onAlt && t.primary == seq(s.rows, _ => NO_INFO)
    ensures var u := PlainLines(t, 0, k); u == t.(out := u.out) && Play(d, u.out, s) == World(d, [])
    ensures Calm(t.out) ==> Calm(PlainLines(t, 0, k).out)
  {
    if k > 0 {
      hide Play, Carried, Calm;
      PlainPlays(t, d, k - 1, s);
      PlainPlay(PlainLines(t, 0, k - 1), d, k - 1, s);
    }
  }

  lemma PlainPlay(v: Term, d: Display, row: nat, s: Setup)
    requires ValidDisplay(d, s.rows, s.cols) && row < s.rows && Play(d, v.out, s) == World(d, [])
    requires !v.onAlt && v.primary == seq(s.rows, _ => NO_INFO)
    ensures var u := Lining(v, row, false, 0); u == v.(out := u.out) && Play(d, u.out, s) == World(d, [])
    ensures Calm(v.out) ==> Calm(Lining(v, row, false, 0).out)
  {
    assert v.primary[row := NO_INFO] == v.primary;
    assert Lining(v, row, false, 0).out == v.out + [SetLine(row, NO_INFO, NO_INFO)];
    hide Play, Carried;
    PlaySnoc(d, v.out, SetLine(row, NO_INFO, NO_INFO), s);
    SameLine(World(d, []), row, s);
  }

  lemma AllErased(d: Display, info: seq<LineInfo>, s: Setup)
    requires ValidDisplay(d, s.rows, s.cols) && !d.onAlt && d.pen == S.Reset(s.defaults)
    requires info == seq(s.rows, _ => NO_INFO)
    ensures var x := Carried(World(d, []), Erase(Rect(0, s.rows, 0, s.cols), false, info), s);
      && x.sent == [] && x.display == d.(primary := x.display.primary)
      && IsSheet(x.All(), [], [], s) == (s.rows > 0)
  {
    var op := Erase(Rect(0, s.rows, 0, s.cols), false, info);
    assert Fits(op, s.rows, s.cols);
    var x := Carried(World(d, []), op, s);
    var blanks := Blanks(d.pen, info);
    forall i | 0 <= i < s.rows ensures x.All()[i] == SheetRow([], [], i, s) {
      assert blanks[i] == BlankCell(s);
      assert x.All()[i] == ErasedRow(d.primary[i], 0, s.cols, false, blanks[i]) == RowOf([], s);
    }
  }

  /** A terminal as its first reset makes it, before it asks for anything. */
  function Unset(s: Setup): Term {
    var lines := seq(s.rows, _ => NO_INFO);
    Term(s, Pos(0, 0), false, FULL_REGION, INITIAL_MODES, Tabs(s.cols), lines, lines, false,
         Last([], 0, Pos(0, 0)), false, S.Reset(s.defaults), Saved(Pos(0, 0), ZERO_PEN), [])
  }

  /** The requests of a reset: lines of single width, the pen, and the erasure of it all. */
  lemma FreshRequests(s: Setup, d: Display)
    requires ValidDisplay(d, s.rows, s.cols)
    ensures var lines, u := seq(s.rows, _ => NO_INFO), PlainLines(Unset(s), 0, s.rows);
      && Play(d, u.out, s) == World(d, []) && Calm(u.out)
      && Fresh(s) == Unset(s).(out := u.out + [SetPen(S.Reset(s.defaults))] +
                                      [Erase(Rect(0, s.rows, 0, s.cols), false, lines)])
  {
    var t, lines := Unset(s), seq(s.rows, _ => NO_INFO);
    assert Play(d, t.out, s) == World(d, []);
    PlainPlays(t, d, s.rows, s);
    assert SoftReset(t.(pen := ZERO_PEN)) == PlainLines(t, 0, s.rows).Say(SetPen(S.Reset(s.defaults)));
    assert Uncontinued(lines, 1, s.rows + 1) == lines;
    hide PlainLines, Play, S.Reset;
  }

  lemma PenTaken(d: Display, pen: Pen, s: Setup)
    requires ValidDisplay(d, s.rows, s.cols)
    ensures Carried(World(d, []), SetPen(pen), s) == World(d.(pen := pen), [])
  {
    assert World(d, []).sent + [] == [];
  }

  lemma BlankHolds(s: Setup, d: Display)
    requires s.rows >= 2 && s.cols >= 2 && ValidDisplay(d, s.rows, s.cols) && !d.onAlt && d.pen == S.Reset(s.defaults)
    ensures var erase := Erase(Rect(0, s.rows, 0, s.cols), false, seq(s.rows, _ => NO_INFO));
      Holds(Unset(s), Carried(World(d, []), erase, s), [], [], [false], s)
  {
    var lines := seq(s.rows, _ => NO_INFO);
    AllErased(d, lines, s);
    assert FlagsShown(lines, [false], 0);
    var x := Carried(World(d, []), Erase(Rect(0, s.rows, 0, s.cols), false, lines), s);
    assert ValidDisplay(x.display, s.rows, s.cols);
    hide IsSheet, Carried, S.Reset, FlagsShown, ValidDisplay;
  }

  lemma HoldsWith(t: Term, out: seq<Op>, x: World, done: seq<seq<nat>>, line: seq<nat>, flags: seq<bool>, s: Setup)
    requires Holds(t, x, done, line, flags, s)
    ensures Holds(t.(out := out), x, done, line, flags, s)
  {
    hide IsSheet, FlagsShown, ValidDisplay;
  }

  /** After the reset the screen is blank, whatever it showed. */
  lemma FreshShows(s: Setup, d: Display)
    requires s.rows >= 2 && s.cols >= 2 && ValidDisplay(d, s.rows, s.cols) && !d.onAlt
    ensures Shows(Fresh(s), d, [], [], [false], s) && CursorAt(Fresh(s), [], s)
  {
    var pen := S.Reset(s.defaults);
    FreshRequests(s, d);
    BlankHolds(s, d.(pen := pen));
    PenTaken(d, pen, s);
    var erase := Erase(Rect(0, s.rows, 0, s.cols), false, seq(s.rows, _ => NO_INFO));
    var out := PlainLines(Unset(s), 0, s.rows).out;
    assert Calm(out + [SetPen(pen)] + [erase]);
    hide Play, Carried, Holds, PlainLines, Fresh, S.Reset, ValidDisplay, Calm, CursorAt;
    PlaySnoc(d, out, SetPen(pen), s);
    PlaySnoc(d, out + [SetPen(pen)], erase, s);
    HoldsWith(Unset(s), out + [SetPen(pen)] + [erase], Carried(World(d.(pen := pen), []), erase, s), [], [], [false], s);
  }

  // ---- Whole runs ----

  /** A paragraph's texts and the end of its line. */
  function Paragraph(pieces: seq<seq<nat>>): seq<Event> { Texts(pieces) + [Ctrl(0x0d), Ctrl(0x0a)] }

  function Events(ps: seq<seq<seq<nat>>>): seq<Event> {
    if ps == [] then [] else Events(ps[..|ps| - 1]) + Paragraph(ps[|ps| - 1])
  }

  /** The paragraphs, each put together from its texts. */
  function Whole(ps: seq<seq<seq<nat>>>): (r: seq<seq<nat>>) {
    if ps == [] then [] else Whole(ps[..|ps| - 1]) + [Concat(ps[|ps| - 1])]
  }

  ghost predicate Printable(ps: seq<seq<seq<nat>>>, w: Widths) {
    forall i :: 0 <= i < |ps| ==> AllSingle(ps[i], w)
  }

  lemma {:induction false} RunAppend(t: Term, a: seq<Event>, b: seq<Event>, w: Widths)
    ensures Run(t, a + b, w) == Run(Run(t, a, w), b, w)
  {
    hide Handle;
    if b == [] {
      assert a + b == a;
    } else {
      assert (a + b)[..|a + b| - 1] == a + b[..|b| - 1];
      RunAppend(t, a, b[..|b| - 1], w);
    }
  }

  lemma RunParagraph(t: Term, pieces: seq<seq<nat>>, w: Widths)
    ensures Run(t, Paragraph(pieces), w) == OnControl(OnControl(Run(t, Texts(pieces), w), 0x0d), 0x0a)
  {
    RunAppend(t, Texts(pieces), [Ctrl(0x0d), Ctrl(0x0a)], w);
    RunPair(Run(t, Texts(pieces), w), Ctrl(0x0d), Ctrl(0x0a), w);
    hide OnControl, Texts, Run;
  }

  /** `t` shows the paragraphs, and its cursor is at the start of the row below. */
  ghost predicate Printed(t: Term, d: Display, ps: seq<seq<nat>>, s: Setup) {
    s.cols >= 2 && Shows(t, d, Rows(ps, s.cols), [], Flags(ps, s.cols) + [false], s) && CursorAt(t, [], s)
  }

  lemma NextParagraph(t: Term, d: Display, ps: seq<seq<nat>>, pieces: seq<seq<nat>>, w: Widths, s: Setup)
    requires AllSingle(pieces, w) && Printed(t, d, ps, s)
    ensures Printed(Run(t, Paragraph(pieces), w), d, ps + [Concat(pieces)], s)
  {
    RunParagraph(t, pieces, w);
    hide Shows, CursorAt, Rows, Flags, AllSingle, Paragraph, OnControl, Run, Concat, Texts;
    ParagraphShows(t, d, ps, pieces, w, s);
  }

  lemma NothingPrinted(s: Setup, w: Widths, d: Display)
    requires s.rows >= 2 && s.cols >= 2 && ValidDisplay(d, s.rows, s.cols) && !d.onAlt
    ensures Printed(Run(Fresh(s), Events([]), w), d, [], s)
  {
    FreshShows(s, d);
    assert Flags([], s.cols) + [false] == [false];
    hide Fresh, Shows, CursorAt, ValidDisplay;
  }

  lemma {:induction false} RunShows(s: Setup, ps: seq<seq<seq<nat>>>, w: Widths, d: Display)
    requires s.rows >= 2 && s.cols >= 2 && ValidDisplay(d, s.rows, s.cols) && !d.onAlt && Printable(ps, w)
    ensures Printed(Run(Fresh(s), Events(ps), w), d, Whole(ps), s)
  {
    hide AllSingle, Run, Fresh, ValidDisplay, Printed, Paragraph, Concat;
    if ps == [] {
      NothingPrinted(s, w, d);
    } else {
      var n := |ps| - 1;
      RunShows(s, ps[..n], w, d);
      RunAppend(Fresh(s), Events(ps[..n]), Paragraph(ps[n]), w);
      NextParagraph(Run(Fresh(s), Events(ps[..n]), w), d, Whole(ps[..n]), ps[n], w, s);
    }
  }

  /** The rows in the scrollback and then those on the screen are the paragraphs cut into rows,
      and blank rows below; the flags of a row on the screen say whether it was wrapped into;
      and no row is sent to the scrollback that would have had room on the screen. */
  ghost predicate AsParagraphs(t: Term, x: World, ps: seq<seq<nat>>, s: Setup)
    requires s.cols > 0
  {
    var done := Rows(ps, s.cols);
    && ValidDisplay(x.display, s.rows, s.cols)
    && |x.sent| == (if |done| + 1 > s.rows then |done| + 1 - s.rows else 0)
    && (forall i :: 0 <= i < |x.All()| ==> x.All()[i] == RowOf(if i < |done| then done[i] else [], s))
    && |t.primary| == s.rows
    && (forall r :: 0 <= r < s.rows ==> t.primary[r] == FlagLine(Flags(ps, s.cols), |x.sent| + r))
    && t.pos.row == |done| - |x.sent| && t.pos.col == 0
  }

  lemma PrintedParagraphs(t: Term, d: Display, ps: seq<seq<nat>>, s: Setup)
    requires Printed(t, d, ps, s)
    ensures AsParagraphs(t, Play(d, t.out, s), ps, s)
  {
    var x := Play(d, t.out, s);
    var done, flags := Rows(ps, s.cols), Flags(ps, s.cols);
    hide Play, Rows, Flags, RowOf;
    forall r | 0 <= r < s.rows ensures t.primary[r] == FlagLine(flags, |x.sent| + r) {
      assert t.primary[r] == FlagLine(flags + [false], |x.sent| + r);
    }
    forall i | 0 <= i < |x.All()| ensures x.All()[i] == RowOf(if i < |done| then done[i] else [], s) {
      assert x.All()[i] == SheetRow(done, [], i, s);
    }
  }

  /** Paragraphs printed on a fresh terminal of any size, each split into texts in any way and
      ended by CR LF. */
  lemma ParagraphsShown(s: Setup, ps: seq<seq<seq<nat>>>, w: Widths, d: Display)
    requires s.rows >= 2 && s.cols >= 2 && ValidDisplay(d, s.rows, s.cols) && !d.onAlt && Printable(ps, w)
    ensures var t := Run(Fresh(s), Events(ps), w); AsParagraphs(t, Play(d, t.out, s), Whole(ps), s)
  {
    RunShows(s, ps, w, d);
    hide Run, Fresh, Play, AsParagraphs, Printed, Events, Whole;
    PrintedParagraphs(Run(Fresh(s), Events(ps), w), d, Whole(ps), s);
  }
}
