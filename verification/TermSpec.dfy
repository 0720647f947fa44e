/** The terminal between parser and screen: cursor, margins, modes, tab stops and line flags,
    and what every event makes of them. */
module TermSpec {
  import opened Grid
  import opened ScreenSpec
  import S = Sgr

  datatype Pos = Pos(row: nat, col: nat)

  /** The scrolling region; -1 for a bottom or right margin that is not set. */
  datatype Region = Region(top: nat, bottom: int, left: nat, right: int)

  datatype Modes = Modes(autowrap: bool, insert: bool, newline: bool, origin: bool, margins: bool)

  /** The glyph put last, in case a combining character follows in the next text. */
  datatype Last = Last(chars: seq<nat>, width: nat, at: Pos)

  datatype Saved = Saved(pos: Pos, pen: Pen)

  datatype Setup = Setup(rows: nat, cols: nat, defaults: S.Defaults, highbright: bool)

  const FULL_REGION := Region(0, -1, 0, -1)

  /** `phantom` is set when a glyph fills the last column and the wrap is still to come;
      `out` is what the screen has been asked to do. */
  datatype Term = Term(
    setup: Setup, pos: Pos, phantom: bool, region: Region, modes: Modes, tabs: seq<bool>,
    primary: seq<LineInfo>, alt: seq<LineInfo>, onAlt: bool,
    last: Last, isProtected: bool, pen: Pen, saved: Saved, out: seq<Op>)
  {
    function Info(): seq<LineInfo> { if onAlt then alt else primary }

    function WithInfo(info: seq<LineInfo>): Term {
      if onAlt then this.(alt := info) else this.(primary := info)
    }

    function Line(row: nat): LineInfo { if row < |Info()| then Info()[row] else NO_INFO }

    function Bottom(): int { if region.bottom > -1 then region.bottom else setup.rows }

    function Left(): nat { if modes.margins then region.left else 0 }

    function Right(): int { if modes.margins && region.right > -1 then region.right else setup.cols }

    function RowWidth(row: nat): nat { if Line(row).doublewidth then setup.cols / 2 else setup.cols }

    function Width(): nat { RowWidth(pos.row) }

    function RegionRect(): Rect { Rect(region.top, Bottom(), Left(), Right()) }

    predicate InRegion() { region.top <= pos.row < Bottom() && Left() <= pos.col < Right() }

    function Say(op: Op): Term { this.(out := out + [op]) }

    function At(p: Pos): Term { this.(pos := p) }

    /** A cursor that has moved is no longer past the last column. */
    function Moved(was: Pos): Term { this.(phantom := phantom && pos == was) }
  }

  // ---- Line flags, erasing and scrolling ----

  function Uncontinued(info: seq<LineInfo>, from: int, to: int): (r: seq<LineInfo>)
    ensures |r| == |info|
  {
    seq(|info|, i requires 0 <= i < |info| => if from <= i < to then info[i].(continuation := false) else info[i])
  }

  /** Erasing to the end of a row cuts off the row that continues it. */
  function Erasing(t: Term, rect: Rect, selective: bool): Term {
    var info :=
      if rect.endCol == t.setup.cols then Uncontinued(t.Info(), rect.startRow + 1, rect.endRow + 1) else t.Info();
    t.WithInfo(info).Say(Erase(rect, selective, info))
  }

  function Clamped(x: int, n: int): int { if x > n then n else if x < -n then -n else x }

  function MovedLines(info: seq<LineInfo>, rect: Rect, downward: int): (r: seq<LineInfo>)
    ensures |r| == |info|
  {
    seq(|info|, i requires 0 <= i < |info| =>
      if !rect.HasRow(i) then info[i]
      else if rect.HasRow(i + downward) && 0 <= i + downward < |info| then info[i + downward]
      else NO_INFO)
  }

  function Scrolling(t: Term, rect: Rect, downward: int, rightward: int): Term {
    if downward == 0 && rightward == 0 then t
    else
      var down := Clamped(downward, rect.endRow - rect.startRow);
      var right := Clamped(rightward, rect.endCol - rect.startCol);
      var info :=
        if rect.startCol == 0 && rect.endCol == t.setup.cols && right == 0 then MovedLines(t.Info(), rect, down)
        else t.Info();
      t.WithInfo(info).Say(Scroll(rect, down, right, info))
  }

  function Lining(t: Term, row: nat, doublewidth: bool, doubleheight: nat): Term {
    if row >= |t.Info()| then t
    else
      var was := t.Info()[row];
      var line := was.(doublewidth := doublewidth, doubleheight := doubleheight);
      t.WithInfo(t.Info()[row := line]).Say(SetLine(row, line, was))
  }

  /** The rows from `from` on and above `to` become lines of single width. */
  function PlainLines(t: Term, from: nat, to: nat): Term {
    if to <= from then t else Lining(PlainLines(t, from, to - 1), to - 1, false, 0)
  }

  function LineFeed(t: Term): Term {
    if t.pos.row == t.Bottom() - 1 then Scrolling(t, t.RegionRect(), 1, 0)
    else if t.pos.row < t.setup.rows - 1 then t.At(Pos(t.pos.row + 1, t.pos.col))
    else t
  }

  predicate IsTab(tabs: seq<bool>, col: nat) { col < |tabs| && tabs[col] }

  /** `count` tab stops to the right, but no further than the last column. */
  function TabRight(tabs: seq<bool>, col: nat, width: nat, count: int): (r: nat)
    ensures r == col || col < r < width
    decreases width - col
  {
    if count <= 0 || col + 1 >= width then col
    else TabRight(tabs, col + 1, width, if IsTab(tabs, col + 1) then count - 1 else count)
  }

  function TabLeft(tabs: seq<bool>, col: nat, count: int): (r: nat)
    ensures r <= col
  {
    if count <= 0 || col < 1 then col
    else TabLeft(tabs, col - 1, if IsTab(tabs, col - 1) then count - 1 else count)
  }

  /** The tab stops from column `from` on and left of `to`. */
  ghost function Stops(tabs: seq<bool>, from: nat, to: nat): set<nat> {
    set k: nat | from <= k < to && IsTab(tabs, k)
  }

  /** The `count`-th stop right of `col`, or the last column with fewer stops before it. */
  ghost predicate IsStopRight(tabs: seq<bool>, col: nat, width: nat, count: int, r: nat) {
    if count <= 0 then r == col
    else if r + 1 < width then col < r && IsTab(tabs, r) && |Stops(tabs, col + 1, r + 1)| == count
    else r + 1 == width && |Stops(tabs, col + 1, r)| < count
  }

  /** The `count`-th stop left of `col`, or the first column with fewer stops after it. */
  ghost predicate IsStopLeft(tabs: seq<bool>, col: nat, count: int, r: nat) {
    if count <= 0 then r == col
    else if 0 < r then r < col && IsTab(tabs, r) && |Stops(tabs, r, col)| == count
    else |Stops(tabs, 1, col)| < count
  }

  lemma StopsFrom(tabs: seq<bool>, from: nat, to: nat)
    requires from < to
    ensures |Stops(tabs, from, to)| == |Stops(tabs, from + 1, to)| + if IsTab(tabs, from) then 1 else 0
  {
    var rest := Stops(tabs, from + 1, to);
    assert Stops(tabs, from, to) == if IsTab(tabs, from) then rest + {from} else rest;
  }

  lemma StopsTo(tabs: seq<bool>, from: nat, to: nat)
    requires from <= to
    ensures |Stops(tabs, from, to + 1)| == |Stops(tabs, from, to)| + if IsTab(tabs, to) then 1 else 0
  {
    var rest := Stops(tabs, from, to);
    assert Stops(tabs, from, to + 1) == if IsTab(tabs, to) then rest + {to} else rest;
  }

  lemma {:induction false} TabRightIs(tabs: seq<bool>, col: nat, width: nat, count: int, r: nat)
    requires col < width
    ensures IsStopRight(tabs, col, width, count, r) <==> r == TabRight(tabs, col, width, count)
    decreases width - col
  {
    if count > 0 && col + 1 < width {
      TabRightIs(tabs, col + 1, width, if IsTab(tabs, col + 1) then count - 1 else count, r);
      if col < r < width {
        var to := if r + 1 < width then r + 1 else r;
        if col + 1 < to { StopsFrom(tabs, col + 1, to); }
        assert col + 1 < r && IsTab(tabs, r) ==> r in Stops(tabs, col + 2, r + 1);
      }
    }
  }

  lemma {:induction false} TabLeftIs(tabs: seq<bool>, col: nat, count: int, r: nat)
    ensures IsStopLeft(tabs, col, count, r) <==> r == TabLeft(tabs, col, count)
  {
    if count > 0 && col > 0 {
      TabLeftIs(tabs, col - 1, if IsTab(tabs, col - 1) then count - 1 else count, r);
      if r < col {
        var from := if r > 0 then r else 1;
        if from < col { StopsTo(tabs, from, col - 1); }
        assert 0 < r < col - 1 && IsTab(tabs, r) ==> r in Stops(tabs, r, col - 1);
      }
    }
  }

  // ---- Text ----

  /** Widths and combining characters, as the tables have them. */
  datatype Widths = Widths(combining: set<nat>, width: nat -> nat)

  function Put(t: Term, chars: seq<nat>, width: nat, at: Pos): Term {
    t.Say(PutGlyph(chars, width, at.row, at.col, t.isProtected, t.Line(at.row)))
  }

  function Continued(info: seq<LineInfo>, row: nat): (r: seq<LineInfo>)
    ensures |r| == |info|
  {
    if row < |info| then info[row := info[row].(continuation := true)] else info
  }

  /** Down to the next row, marked as one that continues the row above. */
  function Wrapped(t: Term): Term {
    var u := LineFeed(t);
    u.(pos := Pos(u.pos.row, 0), phantom := false).WithInfo(Continued(u.Info(), u.pos.row))
  }

  function Room(t: Term, width: nat): Term {
    if t.phantom || t.pos.col + width > t.Width() then Wrapped(t) else t
  }

  function Inserting(t: Term): Term {
    if t.modes.insert then Scrolling(t, Rect(t.pos.row, t.pos.row + 1, t.pos.col, t.Width()), 0, -1) else t
  }

  function Advanced(t: Term, width: nat): Term {
    if t.pos.col + width >= t.Width() then t.(phantom := t.phantom || t.modes.autowrap)
    else t.At(Pos(t.pos.row, t.pos.col + width))
  }

  /** One glyph; the last of the text is remembered. */
  function Printing(t: Term, chars: seq<nat>, width: nat, isLast: bool): Term {
    var u := Inserting(Room(t, width));
    var v := Put(u, chars, width, u.pos);
    Advanced(if isLast then v.(last := Last(chars, width, u.pos)) else v, width)
  }

  /** Past the combining characters from `i` on, but not past `end`. */
  function SkipCombining(cps: seq<nat>, w: Widths, i: nat, end: nat): (r: nat)
    requires i <= end <= |cps|
    ensures i <= r <= end
    ensures forall k :: i <= k < r ==> cps[k] in w.combining
    ensures r < end ==> cps[r] !in w.combining
    decreases end - i
  {
    if i < end && cps[i] in w.combining then SkipCombining(cps, w, i + 1, end) else i
  }

  function TotalWidth(chars: seq<nat>, w: Widths): nat {
    if chars == [] then 0 else TotalWidth(chars[..|chars| - 1], w) + w.width(chars[|chars| - 1])
  }

  /** The end of the glyph that starts at `i`: its base and at most five combining characters. */
  function GlyphEnd(cps: seq<nat>, w: Widths, i: nat): (r: nat)
    requires i < |cps|
    ensures i < r <= |cps| && r <= i + MAX_CHARS
  {
    SkipCombining(cps, w, i + 1, if i + MAX_CHARS < |cps| then i + MAX_CHARS else |cps|)
  }

  function Glyphs(t: Term, cps: seq<nat>, w: Widths, i: nat): Term
    requires i <= |cps|
    decreases |cps| - i
  {
    if i == |cps| then t
    else
      var end := GlyphEnd(cps, w, i);
      var next := SkipCombining(cps, w, end, |cps|);
      Glyphs(Printing(t, cps[i..end], TotalWidth(cps[i..end], w), next == |cps|), cps, w, next)
  }

  /** Whether the cursor is still right behind the glyph put last. */
  predicate StillThere(t: Term) {
    t.pos.row == t.last.at.row && t.pos.col == t.last.at.col + t.last.width
  }

  function Combining(t: Term, chars: seq<nat>): Term {
    Put(t.(last := t.last.(chars := t.last.chars + chars)), t.last.chars + chars, t.last.width, t.last.at)
  }

  function OnText(t: Term, cps: seq<nat>, w: Widths): Term {
    if cps != [] && cps[0] in w.combining && StillThere(t) then
      var n := SkipCombining(cps, w, 0, |cps|);
      Glyphs(Combining(t, cps[..n]), cps, w, n)
    else Glyphs(t, cps, w, 0)
  }

  // ---- Controls ----

  function Control(t: Term, c: nat): Term {
    if c == 0x08 then t.At(Pos(t.pos.row, if t.pos.col > 0 then t.pos.col - 1 else 0))
    else if c == 0x09 then t.At(Pos(t.pos.row, TabRight(t.tabs, t.pos.col, t.Width(), 1)))
    else if 0x0a <= c <= 0x0c then
      var u := LineFeed(t);
      if t.modes.newline then u.At(Pos(u.pos.row, 0)) else u
    else if c == 0x0d then t.At(Pos(t.pos.row, 0))
    else if c == 0x84 then LineFeed(t)
    else if c == 0x85 then
      var u := LineFeed(t);
      u.At(Pos(u.pos.row, 0))
    else if c == 0x88 then (if t.pos.col < |t.tabs| then t.(tabs := t.tabs[t.pos.col := true]) else t)
    else if c == 0x8d then
      if t.pos.row == t.region.top then Scrolling(t, t.RegionRect(), -1, 0)
      else t.At(Pos(if t.pos.row > 0 then t.pos.row - 1 else 0, t.pos.col))
    else t
  }

  function OnControl(t: Term, c: nat): Term { Control(t, c).Moved(t.pos) }

  // ---- Modes and escapes ----

  function Save(t: Term): Term { t.(saved := Saved(t.pos, t.pen)) }

  function Restore(t: Term): Term {
    t.(pos := t.saved.pos, pen := t.saved.pen).Say(SetPen(t.saved.pen)).Moved(t.pos)
  }

  function SaveOrRestore(t: Term, save: bool): Term { if save then Save(t) else Restore(t) }

  /** Turning to the alternate screen erases it. */
  function ToScreen(t: Term, onAlt: bool): Term {
    if onAlt then
      var info := Uncontinued(t.alt, 1, t.setup.rows + 1);
      t.(onAlt := true, alt := info).Say(SetAlt(true, info))
    else t.(onAlt := false).Say(SetAlt(false, t.primary))
  }

  function Home(t: Term): Pos {
    if t.modes.origin then Pos(t.region.top, t.Left()) else Pos(0, 0)
  }

  function SetOrigin(t: Term, on: bool): Term {
    var u := t.(modes := t.modes.(origin := on));
    u.At(Home(u)).Moved(t.pos)
  }

  function SetMargins(t: Term, on: bool): Term {
    var u := t.(modes := t.modes.(margins := on));
    if on then PlainLines(u, 0, t.setup.rows) else u
  }

  function DecMode(t: Term, mode: nat, on: bool): Term {
    if mode == 5 then t.Say(SetReverse(on))
    else if mode == 6 then SetOrigin(t, on)
    else if mode == 7 then t.(modes := t.modes.(autowrap := on))
    else if mode == 69 then SetMargins(t, on)
    else if mode == 1047 then ToScreen(t, on)
    else if mode == 1048 then SaveOrRestore(t, on)
    else if mode == 1049 then SaveOrRestore(ToScreen(t, on), on)
    else t
  }

  function AnsiMode(t: Term, mode: nat, on: bool): Term {
    if mode == 4 then t.(modes := t.modes.(insert := on))
    else if mode == 20 then t.(modes := t.modes.(newline := on))
    else t
  }

  function Tabs(cols: nat): (r: seq<bool>)
    ensures |r| == cols
  {
    seq(cols, i => i % 8 == 0)
  }

  const INITIAL_MODES := Modes(true, false, false, false, false)

  /** The state after the soft reset. */
  function SoftReset(t: Term): Term {
    var pen := S.Reset(t.setup.defaults);
    PlainLines(t.(region := FULL_REGION, modes := INITIAL_MODES, tabs := Tabs(t.setup.cols), isProtected := false,
                  pen := pen), 0, t.setup.rows).Say(SetPen(pen))
  }

  function HardReset(t: Term): Term {
    Erasing(SoftReset(t).(pos := Pos(0, 0), phantom := false), Rect(0, t.setup.rows, 0, t.setup.cols), false)
  }

  /** The first `col` columns of a row, and the rows above it, filled with E. */
  function Aligned(t: Term, row: nat, col: nat): Term
    decreases row, col
  {
    if col > 0 then Put(Aligned(t, row, col - 1), ['E' as nat], 1, Pos(row, col - 1))
    else if row > 0 then Aligned(t, row - 1, t.RowWidth(row - 1))
    else t
  }

  function OnEscape(t: Term, bytes: seq<nat>): Term {
    if |bytes| == 2 && bytes[0] == '#' as nat then
      if bytes[1] == '8' as nat then Aligned(t, t.setup.rows, 0)
      else if t.modes.margins then t
      else if bytes[1] == '3' as nat then Lining(t, t.pos.row, true, 1)
      else if bytes[1] == '4' as nat then Lining(t, t.pos.row, true, 2)
      else if bytes[1] == '5' as nat then Lining(t, t.pos.row, false, 0)
      else if bytes[1] == '6' as nat then Lining(t, t.pos.row, true, 0)
      else t
    else if |bytes| == 0 then t
    else if bytes[0] == '7' as nat then Save(t)
    else if bytes[0] == '8' as nat then Restore(t)
    else if bytes[0] == 'c' as nat then HardReset(t)
    else t
  }

  /** The pen in memory that has only been cleared: black on black. */
  const ZERO_PEN := Pen(Rgb(false, false, 0, 0, 0), Rgb(false, false, 0, 0, 0), false, 0, false, false, false, false, false,
                        0, false, 0)

  /** A terminal just made and reset. */
  function Fresh(setup: Setup): Term {
    var lines := seq(setup.rows, _ => NO_INFO);
    HardReset(Term(setup, Pos(0, 0), false, FULL_REGION, INITIAL_MODES, Tabs(setup.cols), lines, lines, false,
                   Last([], 0, Pos(0, 0)), false, ZERO_PEN, Saved(Pos(0, 0), ZERO_PEN), []))
  }
}
