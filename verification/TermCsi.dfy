/** What every control sequence makes of the terminal. */
module TermCsi {
  import opened Grid
  import opened ScreenSpec
  import opened TermSpec
  import S = Sgr

  const MISSING := S.MISSING

  function Param(args: seq<nat>, i: nat): nat { S.Arg(S.At(args, i)) }

  function Or(arg: nat, other: nat): nat { if arg == MISSING then other else arg }

  function Count(args: seq<nat>): nat {
    var a := Param(args, 0);
    if a == MISSING || a == 0 then 1 else a
  }

  /** The first parameter as a row or column counted from one. */
  function First(args: seq<nat>): int { Or(Param(args, 0), 1) - 1 }

  /** The second parameter; -1 if it is missing. */
  function Second(args: seq<nat>): int {
    if |args| < 2 || Param(args, 1) == MISSING then -1 else Param(args, 1)
  }

  function SecondColumn(args: seq<nat>): int {
    (if |args| < 2 then 1 else Or(Param(args, 1), 1)) - 1
  }

  /** The number by which a sequence is told from others: its intermediate byte, its leader
      and its final byte. -1 if it has more of them than are known. */
  function Code(leader: seq<nat>, intermed: seq<nat>, final: nat): int {
    if |leader| > 1 || (|leader| == 1 && leader[0] != '?' as nat && leader[0] != '>' as nat) then -1
    else if |intermed| > 1 || (|intermed| == 1 && !Known(intermed[0])) then -1
    else (if |intermed| == 1 then intermed[0] * 0x10000 else 0) + (if |leader| == 1 then leader[0] * 0x100 else 0) + final
  }

  predicate Known(c: nat) {
    c == ' ' as nat || c == '!' as nat || c == '"' as nat || c == '$' as nat || c == 0x27
  }

  // ---- Moving the cursor ----

  predicate Moves(k: int) {
    0x41 <= k <= 0x49 || k == 0x5a || k == 0x60 || k == 0x61 || 0x64 <= k <= 0x66 || k == 0x6a || k == 0x6b
  }

  function Top(t: Term): int { if t.modes.origin then t.region.top else 0 }

  function Margin(t: Term): int { if t.modes.origin then t.Left() else 0 }

  /** The row and the column asked for, before they are brought into the screen. */
  function AskedRow(t: Term, k: int, args: seq<nat>): int {
    if k == 0x41 || k == 0x46 || k == 0x6b then t.pos.row - Count(args)
    else if k == 0x42 || k == 0x45 || k == 0x65 then t.pos.row + Count(args)
    else if k == 0x48 || k == 0x64 || k == 0x66 then First(args) + Top(t)
    else t.pos.row
  }

  function AskedCol(t: Term, k: int, args: seq<nat>): int {
    if k == 0x43 || k == 0x61 then t.pos.col + Count(args)
    else if k == 0x44 || k == 0x6a then t.pos.col - Count(args)
    else if k == 0x45 || k == 0x46 then 0
    else if k == 0x47 || k == 0x60 then First(args)
    else if k == 0x48 || k == 0x66 then SecondColumn(args) + Margin(t)
    else if k == 0x49 then TabRight(t.tabs, t.pos.col, t.Width(), Count(args))
    else if k == 0x5a then TabLeft(t.tabs, t.pos.col, Count(args))
    else t.pos.col
  }

  function Bounded(x: int, low: int, high: int): int {
    var y := if x < low then low else x;
    if y > high then high else y
  }

  function Nat(x: int): nat { if x < 0 then 0 else x }

  /** The cursor brought into the region under origin mode, and into the screen otherwise,
      where the row it ends on decides how wide that is. */
  function Into(t: Term, row: int, col: int): Pos {
    if t.modes.origin then
      Pos(Nat(Bounded(row, t.region.top, t.Bottom() - 1)), Nat(Bounded(col, t.Left(), t.Right() - 1)))
    else
      var r := Nat(Bounded(row, 0, t.setup.rows - 1));
      Pos(r, Nat(Bounded(col, 0, t.RowWidth(r) - 1)))
  }

  function Moving(t: Term, k: int, args: seq<nat>): Term {
    t.(pos := Into(t, AskedRow(t, k, args), AskedCol(t, k, args)), phantom := t.phantom && (k == 0x49 || k == 0x5a))
  }

  // ---- Scrolling and erasing ----

  predicate Scrolls(k: int) {
    k == 0x40 || k == 0x4c || k == 0x4d || k == 0x50 || k == 0x53 || k == 0x54 || k == 0x27007d || k == 0x27007e
  }

  function ScrolledRect(t: Term, k: int): Rect {
    if k == 0x40 || k == 0x50 then
      Rect(t.pos.row, t.pos.row + 1, t.pos.col, if t.modes.margins then t.Right() else t.Width())
    else if k == 0x4c || k == 0x4d then Rect(t.pos.row, t.Bottom(), t.Left(), t.Right())
    else if k == 0x53 || k == 0x54 then t.RegionRect()
    else Rect(t.region.top, t.Bottom(), t.pos.col, t.Right())
  }

  function Downward(k: int, count: int): int {
    if k == 0x4d || k == 0x53 then count else if k == 0x4c || k == 0x54 then -count else 0
  }

  function Rightward(k: int, count: int): int {
    if k == 0x50 || k == 0x27007e then count else if k == 0x40 || k == 0x27007d then -count else 0
  }

  function ScrollSequence(t: Term, k: int, args: seq<nat>): Term {
    if k != 0x53 && k != 0x54 && !t.InRegion() then t
    else Scrolling(t, ScrolledRect(t, k), Downward(k, Count(args)), Rightward(k, Count(args)))
  }

  predicate Erases(k: int) { k == 0x4a || k == 0x3f4a || k == 0x4b || k == 0x3f4b || k == 0x58 }

  function EraseIf(t: Term, b: bool, rect: Rect, selective: bool): Term {
    if b then Erasing(t, rect, selective) else t
  }

  /** From a column of a row on, and the rows below. */
  function EraseFrom(t: Term, row: nat, col: nat, selective: bool): Term {
    var rows, cols := t.setup.rows, t.setup.cols;
    var u := EraseIf(t, col < cols, Rect(row, row + 1, col, cols), selective);
    EraseIf(PlainLines(u, row + 1, rows), row + 1 < rows, Rect(row + 1, rows, 0, cols), selective)
  }

  function EraseBelow(t: Term, selective: bool): Term { EraseFrom(t, t.pos.row, t.pos.col, selective) }

  /** The rows above a row, and that row up to a column. */
  function EraseUpto(t: Term, row: nat, col: nat, selective: bool): Term {
    var cols := t.setup.cols;
    var u := EraseIf(PlainLines(t, 0, row), cols > 0, Rect(0, row, 0, cols), selective);
    Erasing(u, Rect(row, row + 1, 0, col + 1), selective)
  }

  function EraseAbove(t: Term, selective: bool): Term { EraseUpto(t, t.pos.row, t.pos.col, selective) }

  function EraseAll(t: Term, selective: bool): Term {
    Erasing(PlainLines(t, 0, t.setup.rows), Rect(0, t.setup.rows, 0, t.setup.cols), selective)
  }

  function EraseDisplay(t: Term, what: nat, selective: bool): Term {
    if what == MISSING || what == 0 then EraseBelow(t, selective)
    else if what == 1 then EraseAbove(t, selective)
    else if what == 2 then EraseAll(t, selective)
    else t
  }

  function EraseLine(t: Term, what: nat, selective: bool): Term {
    var from := if what == MISSING || what == 0 then t.pos.col else 0;
    var upto := if what == 1 then t.pos.col + 1 else t.Width();
    EraseIf(t, from < upto, Rect(t.pos.row, t.pos.row + 1, from, upto), selective)
  }

  function EraseSequence(t: Term, k: int, args: seq<nat>): Term {
    var selective := k == 0x3f4a || k == 0x3f4b;
    if k == 0x4a || k == 0x3f4a then EraseDisplay(t, Param(args, 0), selective)
    else if k == 0x4b || k == 0x3f4b then EraseLine(t, Param(args, 0), selective)
    else
      var end := t.pos.col + Count(args);
      Erasing(t, Rect(t.pos.row, t.pos.row + 1, t.pos.col, if end > t.Width() then t.Width() else end), false)
  }

  // ---- Repeating the last glyph ----

  /** The column to fill up to. */
  function RepeatTarget(t: Term, args: seq<nat>): nat {
    var col := t.pos.col + Count(args);
    if col > t.Width() then t.Width() else col
  }

  /** Where the cursor stands once glyphs of a width have filled the columns up to the target. */
  function RepeatEnd(col: nat, target: nat, width: nat): (r: nat)
    requires width > 0
    ensures r >= col && (col < target ==> target <= r < target + width)
    decreases target - col
  {
    if col < target then RepeatEnd(col + width, target, width) else col
  }

  /** The column after `n` turns of the loop that fills up to the target. */
  function Copied(col: nat, width: nat, n: nat): nat {
    if n == 0 then col else Copied(col, width, n - 1) + width
  }

  lemma {:induction false} CopiedIs(col: nat, width: nat, n: nat)
    ensures Copied(col, width, n) == col + n * width
  {
    if n > 0 {
      CopiedIs(col, width, n - 1);
    }
  }

  lemma {:induction false} CopiedOn(col: nat, width: nat, n: nat)
    ensures Copied(col + width, width, n) == Copied(col, width, n + 1)
  {
    if n > 0 {
      CopiedOn(col, width, n - 1);
    }
  }

  /** The loop ends if and only if the glyph has a width or there is nothing to fill, and then
      at the first column that it reaches from the target on. */
  lemma {:induction false} RepeatEnds(col: nat, target: nat, width: nat)
    ensures (exists n: nat :: Copied(col, width, n) >= target) <==> width > 0 || col >= target
    ensures width > 0 ==> exists n: nat :: Copied(col, width, n) == RepeatEnd(col, target, width)
    decreases target - col
  {
    if col >= target {
      assert Copied(col, width, 0) == col;
    } else if width == 0 {
      forall n: nat ensures Copied(col, width, n) == col {
        CopiedIs(col, width, n);
      }
    } else {
      RepeatEnds(col + width, target, width);
      var n: nat :| Copied(col + width, width, n) == RepeatEnd(col + width, target, width);
      CopiedOn(col, width, n);
      assert Copied(col, width, n + 1) >= target;
    }
  }

  /** The glyph put again and again. One without width would never fill a column: the loop of
      the code does not end then, and here nothing changes. */
  function Repeated(t: Term, col: nat, target: nat): Term
    decreases target - col
  {
    if col >= target || t.last.width == 0 then t
    else Repeated(Put(t, t.last.chars, t.last.width, Pos(t.pos.row, col)), col + t.last.width, target)
  }

  function RepeatedTo(t: Term, target: nat): (r: nat)
    ensures r >= t.pos.col
  {
    if t.last.width == 0 then t.pos.col else RepeatEnd(t.pos.col, target, t.last.width)
  }

  /** The wrap is still to come if another glyph would reach the last column. */
  function Repeating(t: Term, args: seq<nat>): Term {
    var target := RepeatTarget(t, args);
    var u, end := Repeated(t, t.pos.col, target), RepeatedTo(t, target);
    var at := Into(u, t.pos.row, end);
    u.(pos := at, phantom := (end + t.last.width >= t.Width() && t.modes.autowrap) || (t.phantom && at == t.pos))
  }

  // ---- Margins ----

  /** A margin beyond the screen is brought back to its end; all of it counts as unset. */
  function Margined(first: int, second: int, size: nat): (int, int) {
    (Bounded(first, 0, size),
     if Bounded(first, 0, size) == 0 && second == size then -1 else if second > size then size else second)
  }

  function SetTopBottom(t: Term, args: seq<nat>): Term {
    var (top, bottom) := Margined(First(args), Second(args), t.setup.rows);
    var ok := top < if bottom > -1 then bottom else t.setup.rows;
    var u := t.(region := t.region.(top := if ok then Nat(top) else 0, bottom := if ok then bottom else -1));
    u.At(Home(u))
  }

  function SetLeftRight(t: Term, args: seq<nat>): Term {
    var (left, right) := Margined(First(args), Second(args), t.setup.cols);
    var ok := right == -1 || left < right;
    var u := t.(region := t.region.(left := if ok then Nat(left) else 0, right := if ok then right else -1));
    u.At(Home(u))
  }

  // ---- Modes, attributes and the rest ----

  function DecModes(t: Term, args: seq<nat>, on: bool): Term {
    if args == [] then t
    else
      var u := DecModes(t, args[..|args| - 1], on);
      var a := S.Arg(args[|args| - 1]);
      if a == MISSING then u else DecMode(u, a, on)
  }

  function Attributes(t: Term, args: seq<nat>): Term {
    var pen := S.SetPen(t.pen, args, |args|, 0, t.setup.defaults, t.setup.highbright);
    t.(pen := pen).Say(SetPen(pen))
  }

  function Baseline(pen: Pen, args: seq<nat>, t: Term): Pen {
    if args == [] then pen
    else
      var p := Baseline(pen, args[..|args| - 1], t);
      var a := S.Arg(args[|args| - 1]);
      var told := if a == 4 then 73 else if a == 5 then 74 else 75;
      if a == 4 || a == 5 || a == 24 then S.SetPen(p, [told], 1, 0, t.setup.defaults, t.setup.highbright) else p
  }

  function DecAttributes(t: Term, args: seq<nat>): Term {
    var pen := Baseline(t.pen, args, t);
    t.(pen := pen).Say(SetPen(pen))
  }

  function ClearTabs(t: Term, what: nat): Term {
    if what == 0 then (if t.pos.col < |t.tabs| then t.(tabs := t.tabs[t.pos.col := false]) else t)
    else if what == 3 || what == 5 then t.(tabs := seq(|t.tabs|, _ => false))
    else t
  }

  function Protecting(t: Term, what: nat): Term {
    t.(isProtected := if what == 0 || what == 2 then false else if what == 1 then true else t.isProtected)
  }

  function Mode(t: Term, args: seq<nat>, on: bool): Term {
    if Param(args, 0) == MISSING then t else AnsiMode(t, Param(args, 0), on)
  }

  /** The sequences that change neither cursor nor cells, but for resets and modes. */
  function OtherSequence(t: Term, k: int, args: seq<nat>): Term {
    if k == 0x67 then ClearTabs(t, Or(Param(args, 0), 0))
    else if k == 0x68 || k == 0x6c then Mode(t, args, k == 0x68)
    else if k == 0x3f68 || k == 0x3f6c then DecModes(t, args, k == 0x3f68)
    else if k == 0x6d then Attributes(t, args)
    else if k == 0x3f6d then DecAttributes(t, args)
    else if k == 0x210070 then SoftReset(t)
    else if k == 0x220071 then Protecting(t, Or(Param(args, 0), 0))
    else if k == 0x72 then SetTopBottom(t, args)
    else if k == 0x73 then SetLeftRight(t, args)
    else t
  }

  /** Sequences that are not known, and parameters after which a known one gives up. */
  predicate Ignored(k: int, args: seq<nat>) {
    if k == 0x4b || k == 0x3f4b then Param(args, 0) > 2 && Param(args, 0) != MISSING
    else if k == 0x67 then Or(Param(args, 0), 0) > 5
    else !(Moves(k) || Scrolls(k) || Erases(k) || 0x67 <= k <= 0x68 || 0x6c <= k <= 0x6e || 0x72 <= k <= 0x73
           || k == 0x63 || k == 0x3e63 || k == 0x3f68 || 0x3f6c <= k <= 0x3f6e || k == 0x210070 || k == 0x243f70
           || k == 0x3e71 || k == 0x200071 || k == 0x220071)
  }

  function Sequence(t: Term, k: int, args: seq<nat>): Term {
    if Scrolls(k) then ScrollSequence(t, k, args)
    else if Erases(k) then EraseSequence(t, k, args)
    else OtherSequence(t, k, args)
  }

  /** The scrollback is to be emptied. */
  predicate Forgets(k: int, args: seq<nat>) { (k == 0x4a || k == 0x3f4a) && Param(args, 0) == 3 }

  function OnCsi(t: Term, leader: seq<nat>, args: seq<nat>, intermed: seq<nat>, final: nat): Term {
    var k := Code(leader, intermed, final);
    if Forgets(k, args) then t.Say(ClearHistory)
    else if k == 0x62 then Repeating(t, args)
    else if Ignored(k, args) then t
    else if Moves(k) then Moving(t, k, args).Moved(t.pos)
    else
      var u := Sequence(t, k, args);
      u.At(Into(u, u.pos.row, u.pos.col)).Moved(t.pos)
  }
}
