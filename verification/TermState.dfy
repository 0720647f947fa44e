/** The terminal changed in place, event by event. */
module TermState {
  import opened Grid
  import opened ScreenSpec
  import opened TermSpec
  import opened TermCsi
  import opened TermSafe
  import S = Sgr

  /** The flags moved with their rows, and the rows that moved in from outside cleared above `row`. */
  ghost function PartlyMoved(info: seq<LineInfo>, rect: Rect, downward: int, from: int, row: int): (r: seq<LineInfo>)
    ensures |r| == |info|
  {
    seq(|info|, i requires 0 <= i < |info| =>
      if from <= i < row then NO_INFO
      else if rect.HasRow(i) && rect.HasRow(i + downward) && 0 <= i + downward < |info| then info[i + downward]
      else info[i])
  }

  lemma KeptLined(t: Term, row: nat, doublewidth: bool, doubleheight: nat, s: Setup)
    ensures Kept(t, s, ANY) ==> Kept(Lining(t, row, doublewidth, doubleheight), s, ANY)
    ensures Kept(t, s, AtEdge(ANY)) ==> Kept(Lining(t, row, doublewidth, doubleheight), s, AtEdge(ANY))
    ensures Kept(t, s, ANY) || Kept(t, s, AtEdge(ANY)) ==> |t.Info()| == s.rows
  {
    assert Kept(t, s, ANY) || Kept(t, s, AtEdge(ANY)) ==> |t.Info()| == s.rows;
    hide Kept, Lining;
    if Kept(t, s, ANY) {
      KeptLining(t, row, doublewidth, doubleheight, s, ANY);
    }
    if Kept(t, s, AtEdge(ANY)) {
      KeptLining(t, row, doublewidth, doubleheight, s, AtEdge(ANY));
    }
  }

  /** The saved cursor is inside the screen. */
  lemma KeptRestored(t: Term, s: Setup)
    requires Kept(t, s, ANY) || Kept(t, s, AtEdge(ANY))
    ensures Kept(Restore(t), s, ANY)
  {
    if Kept(t, s, ANY) {
      KeptEdge(t, s, ANY);
    }
    assert InScreen(t.saved.pos, s);
    KeptRestore(t, s, AtEdge(ANY));
    assert Restore(t).pos == t.saved.pos;
    hide Kept, Restore;
    KeptInside(Restore(t), s, ANY);
  }

  lemma {:induction false} SavesGrow(t: Term, args: seq<nat>, k: nat, cols: nat)
    requires k <= |args| && SavesBeyond(t, args[..k], cols)
    ensures SavesBeyond(t, args, cols)
  {
    if k == |args| {
      assert args[..k] == args;
    } else {
      var n := |args| - 1;
      assert args[..n][..k] == args[..k];
      SavesGrow(t, args[..n], k, cols);
    }
  }

  /** No save comes behind the last column. */
  lemma SavesInTime(t: Term, args: seq<nat>, i: nat, s: Setup)
    requires Safe(t, s) && t.pos.col < s.cols && i < |args| && !SavesBeyond(t, args, s.cols) && Saves(S.Arg(args[i]))
    ensures DecModes(t, args[..i], true).pos.col < s.cols
  {
    assert args[..i + 1][..i] == args[..i];
    if SavesBeyond(t, args[..i + 1], s.cols) {
      SavesGrow(t, args, i + 1, s.cols);
    }
    DecModesHome(t, args[..i], s);
    hide DecModes, Safe, HomesBeyond;
  }

  class Terminal {
    const setup: Setup
    var pos: Pos
    var phantom: bool
    var region: Region
    var modes: Modes
    var tabs: seq<bool>
    var primary: seq<LineInfo>
    var alt: seq<LineInfo>
    var onAlt: bool
    var last: Last
    var isProtected: bool
    var pen: Pen
    var saved: Saved
    var out: seq<Op>

    /** A terminal just made and reset. */
    constructor (setup: Setup)
      requires setup.rows >= 1 && setup.cols >= 2
      ensures Valid() && this.setup == setup && Abs() == Fresh(setup)
    {
      this.setup := setup;
      var lines := seq(setup.rows, _ => NO_INFO);
      pos, phantom, region, modes := Pos(0, 0), false, FULL_REGION, INITIAL_MODES;
      tabs, primary, alt, onAlt := Tabs(setup.cols), lines, lines, false;
      last, isProtected, pen := Last([], 0, Pos(0, 0)), false, ZERO_PEN;
      saved, out := Saved(Pos(0, 0), ZERO_PEN), [];
      new;
      assert Kept(Abs(), setup, ANY);
      hide Kept, HardReset;
      Reset();
    }

    function Abs(): Term
      reads this
    {
      Term(setup, pos, phantom, region, modes, tabs, primary, alt, onAlt, last, isProtected, pen, saved, out)
    }

    ghost predicate Valid()
      reads this
    {
      Kept(Abs(), setup, ANY)
    }

    /** Within a sequence the cursor may stand on the column behind the last. */
    ghost predicate Held()
      reads this
    {
      Kept(Abs(), setup, AtEdge(ANY))
    }

    /** The line flags in force. */
    function Info(): (info: seq<LineInfo>)
      reads this
      ensures info == Abs().Info()
    {
      if onAlt then alt else primary
    }

    function Width(): (w: nat)
      requires pos.row < |Info()|
      reads this
      ensures w == Abs().Width()
    {
      if Info()[pos.row].doublewidth then setup.cols / 2 else setup.cols
    }

    method Say(op: Op)
      modifies `out
      ensures Abs() == old(Abs()).Say(op)
    {
      out := out + [op];
    }

    method SetInfo(info: seq<LineInfo>)
      modifies `primary, `alt
      ensures Abs() == old(Abs()).WithInfo(info)
    {
      if onAlt {
        alt := info;
      } else {
        primary := info;
      }
    }

    // ---- Line flags, erasing and scrolling ----

    /** Rows that no longer continue the ones above them. */
    method Cut(from: nat, end: nat)
      requires Valid()
      modifies `primary, `alt
      ensures Abs() == old(Abs()).WithInfo(Uncontinued(old(Info()), from, end))
    {
      var info, row := Info(), from;
      assert Info() == Uncontinued(Info(), from, from);
      while row < end && row < setup.rows
        invariant row >= from && (row <= end || row == from) && |info| == setup.rows
        invariant info == Uncontinued(Info(), from, row)
      {
        info := info[row := info[row].(continuation := false)];
        row := row + 1;
      }
      assert info == Uncontinued(Info(), from, end);
      SetInfo(info);
    }

    method Erase(rect: Rect, selective: bool)
      requires Valid() && Near(rect, setup)
      modifies `primary, `alt, `out
      ensures Valid() && Abs() == Erasing(old(Abs()), rect, selective)
    {
      KeptErasing(Abs(), rect, selective, setup, ANY);
      ghost var t := Abs();
      if rect.endCol == setup.cols {
        Cut(rect.startRow + 1, rect.endRow + 1);
      }
      Say(Op.Erase(rect, selective, Info()));
    }

    /** The flags of whole rows move with them. */
    method MoveLines(rect: Rect, downward: int)
      requires Valid() && Near(rect, setup) && -(rect.endRow - rect.startRow) <= downward <= rect.endRow - rect.startRow
      modifies `primary, `alt
      ensures Abs() == old(Abs()).WithInfo(MovedLines(old(Info()), rect, downward))
    {
      var info := Info();
      var moved := seq(|info|, i requires 0 <= i < |info| =>
        if rect.startRow <= i < rect.endRow && rect.startRow <= i + downward < rect.endRow then info[i + downward]
        else info[i]);
      var from := if downward > 0 then rect.endRow - downward else rect.startRow;
      var end := if downward > 0 then rect.endRow else rect.startRow - downward;
      var row := from;
      assert moved == PartlyMoved(info, rect, downward, from, row);
      while row < end
        invariant from <= row <= end && moved == PartlyMoved(info, rect, downward, from, row)
      {
        moved := moved[row := NO_INFO];
        row := row + 1;
      }
      assert moved == MovedLines(info, rect, downward);
      SetInfo(moved);
    }

    method Scroll(rect: Rect, downward: int, rightward: int)
      requires Valid() && Near(rect, setup) && rect.startRow < rect.endRow && (downward == 0 || rightward == 0)
      modifies `primary, `alt, `out
      ensures Valid() && Abs() == Scrolling(old(Abs()), rect, downward, rightward)
    {
      KeptScrolling(Abs(), rect, downward, rightward, setup, ANY);
      if downward == 0 && rightward == 0 {
        return;
      }
      var down := Clamped(downward, rect.endRow - rect.startRow);
      var right := Clamped(rightward, rect.endCol - rect.startCol);
      if rect.startCol == 0 && rect.endCol == setup.cols && right == 0 {
        MoveLines(rect, down);
      }
      Say(Op.Scroll(rect, down, right, Info()));
    }

    method SetLine(row: nat, doublewidth: bool, doubleheight: nat)
      requires (Valid() || Held()) && row < setup.rows
      modifies `primary, `alt, `out
      ensures (old(Valid()) ==> Valid()) && (old(Held()) ==> Held())
      ensures Abs() == Lining(old(Abs()), row, doublewidth, doubleheight)
    {
      KeptLined(Abs(), row, doublewidth, doubleheight, setup);
      var was := Info()[row];
      var line := was.(doublewidth := doublewidth, doubleheight := doubleheight);
      SetInfo(Info()[row := line]);
      Say(Op.SetLine(row, line, was));
    }

    method MakePlain(from: nat, end: nat)
      requires (Valid() || Held()) && end <= setup.rows
      modifies `primary, `alt, `out
      ensures (old(Valid()) ==> Valid()) && (old(Held()) ==> Held()) && Abs() == PlainLines(old(Abs()), from, end)
    {
      ghost var t := Abs();
      var row := from;
      hide Kept, Lining;
      while row < end
        invariant (Valid() || Held()) && (old(Valid()) ==> Valid()) && (old(Held()) ==> Held())
        invariant from <= row && (row <= end || row == from) && Abs() == PlainLines(t, from, row)
      {
        SetLine(row, false, 0);
        row := row + 1;
      }
      assert end < from ==> PlainLines(t, from, end) == PlainLines(t, from, from);
    }

    method Feed()
      requires Valid()
      modifies `pos, `primary, `alt, `out
      ensures Valid() && Abs() == LineFeed(old(Abs()))
    {
      KeptLineFeed(Abs(), setup, ANY);
      var bottom := if region.bottom > -1 then region.bottom else setup.rows;
      if pos.row == bottom - 1 {
        var left := if modes.margins then region.left else 0;
        var right := if modes.margins && region.right > -1 then region.right else setup.cols;
        Scroll(Rect(region.top, bottom, left, right), 1, 0);
      } else if pos.row < setup.rows - 1 {
        pos := Pos(pos.row + 1, pos.col);
      }
    }

    /** Column by column to the right, counting tab stops. */
    method TabForward(count: nat)
      requires Valid()
      modifies `pos
      ensures Abs() == old(Abs()).At(Pos(old(pos).row, TabRight(tabs, old(pos).col, old(Width()), count)))
    {
      var n: int, col: nat, width := count, pos.col, Width();
      while n > 0 && col < width - 1
        invariant TabRight(tabs, col, width, n) == TabRight(tabs, pos.col, width, count)
        decreases width - col
      {
        col := col + 1;
        if col < |tabs| && tabs[col] {
          n := n - 1;
        }
      }
      pos := Pos(pos.row, col);
    }

    method TabBack(count: nat)
      requires Valid()
      modifies `pos
      ensures Abs() == old(Abs()).At(Pos(old(pos).row, TabLeft(tabs, old(pos).col, count)))
    {
      var n: int, col: nat := count, pos.col;
      while n > 0 && col > 0
        invariant TabLeft(tabs, col, n) == TabLeft(tabs, pos.col, count)
        decreases col
      {
        col := col - 1;
        if col < |tabs| && tabs[col] {
          n := n - 1;
        }
      }
      pos := Pos(pos.row, col);
    }

    // ---- Text ----

    method PutGlyph(chars: seq<nat>, width: nat, at: Pos)
      requires Valid() && chars != [] && InScreen(at, setup) && at.col + width <= setup.cols
      modifies `out
      ensures Valid() && Abs() == Put(old(Abs()), chars, width, at)
    {
      KeptPut(Abs(), chars, width, at, setup, ANY);
      Say(Op.PutGlyph(chars, width, at.row, at.col, isProtected, Info()[at.row]));
    }

    /** Down to the next row if the glyph has no room left on this one. */
    method MakeRoom(width: nat)
      requires Valid() && width <= setup.cols
      modifies `pos, `phantom, `primary, `alt, `out
      ensures Valid() && Abs() == Room(old(Abs()), width) && pos.col + width <= setup.cols
    {
      KeptRoom(Abs(), width, setup, ANY);
      if phantom || pos.col + width > Width() {
        Feed();
        pos, phantom := Pos(pos.row, 0), false;
        SetInfo(Info()[pos.row := Info()[pos.row].(continuation := true)]);
      }
    }

    method Insert()
      requires Valid()
      modifies `primary, `alt, `out
      ensures Valid() && Abs() == Inserting(old(Abs()))
    {
      if modes.insert {
        Scroll(Rect(pos.row, pos.row + 1, pos.col, Width()), 0, -1);
      }
    }

    method Advance(width: nat)
      requires Valid()
      modifies `pos, `phantom
      ensures Abs() == Advanced(old(Abs()), width)
    {
      if pos.col + width >= Width() {
        if modes.autowrap {
          phantom := true;
        }
      } else {
        pos := Pos(pos.row, pos.col + width);
      }
    }

    method Print(chars: seq<nat>, width: nat, isLast: bool)
      requires Valid() && chars != [] && width <= setup.cols
      modifies this
      ensures Valid() && Abs() == Printing(old(Abs()), chars, width, isLast)
    {
      KeptPrinting(Abs(), chars, width, isLast, setup, ANY);
      MakeRoom(width);
      Insert();
      PutGlyph(chars, width, pos);
      if isLast {
        last := Last(chars, width, pos);
      }
      Advance(width);
    }

    method Measure(chars: seq<nat>, w: Widths) returns (width: nat)
      ensures width == TotalWidth(chars, w)
    {
      width := 0;
      var k := 0;
      while k < |chars|
        invariant k <= |chars| && width == TotalWidth(chars[..k], w)
      {
        assert chars[..k + 1][..k] == chars[..k];
        width := width + w.width(chars[k]);
        k := k + 1;
      }
      assert chars[..k] == chars;
    }

    /** The glyph that starts at `i`: its width, and where the next one starts. */
    method ReadGlyph(cps: seq<nat>, w: Widths, i: nat) returns (end: nat, width: nat, next: nat)
      requires i < |cps|
      ensures end == GlyphEnd(cps, w, i) && width == TotalWidth(cps[i..end], w)
      ensures next == SkipCombining(cps, w, end, |cps|)
    {
      var limit := if i + MAX_CHARS < |cps| then i + MAX_CHARS else |cps|;
      end := i + 1;
      while end < limit && cps[end] in w.combining
        invariant i < end <= limit && SkipCombining(cps, w, end, limit) == SkipCombining(cps, w, i + 1, limit)
      {
        end := end + 1;
      }
      width := Measure(cps[i..end], w);
      next := end;
      while next < |cps| && cps[next] in w.combining
        invariant end <= next <= |cps|
        invariant SkipCombining(cps, w, next, |cps|) == SkipCombining(cps, w, end, |cps|)
      {
        next := next + 1;
      }
    }

    method Text(cps: seq<nat>, w: Widths)
      requires Valid() && Narrow(cps, w, TextStart(Abs(), cps, w), setup.cols)
      modifies this
      ensures Valid() && Abs() == OnText(old(Abs()), cps, w)
    {
      var i := 0;
      if cps != [] && cps[0] in w.combining && pos.row == last.at.row && pos.col == last.at.col + last.width {
        i := Combine(cps, w);
      }
      ghost var t, start := Abs(), i;
      hide Kept, Printing, GlyphEnd, TotalWidth;
      while i < |cps|
        invariant Valid() && i <= |cps| && Narrow(cps, w, i, setup.cols)
        invariant Glyphs(Abs(), cps, w, i) == Glyphs(t, cps, w, start)
      {
        var end, width, next := ReadGlyph(cps, w, i);
        Print(cps[i..end], width, next == |cps|);
        i := next;
      }
    }

    /** The combining characters at the start of a text join the glyph put before. */
    method Combine(cps: seq<nat>, w: Widths) returns (i: nat)
      requires Valid() && cps != [] && cps[0] in w.combining
      modifies `last, `out
      ensures Valid() && 0 < i <= |cps| && i == SkipCombining(cps, w, 0, |cps|)
      ensures Abs() == Combining(old(Abs()), cps[..i])
    {
      i := 0;
      var chars := last.chars;
      while i < |cps| && cps[i] in w.combining
        invariant i <= |cps| && SkipCombining(cps, w, i, |cps|) == SkipCombining(cps, w, 0, |cps|)
        invariant chars == last.chars + cps[..i]
      {
        chars := chars + [cps[i]];
        i := i + 1;
        assert cps[..i] == cps[..i - 1] + [cps[i - 1]];
      }
      last := last.(chars := chars);
      assert Kept(Abs(), setup, ANY) by {
        hide OpsFit;
      }
      PutGlyph(chars, last.width, last.at);
    }

    // ---- Controls ----

    /** A cursor that has moved is no longer past the last column. */
    method Settle(was: Pos)
      requires Valid()
      modifies `phantom
      ensures Valid() && Abs() == old(Abs()).Moved(was)
    {
      KeptMoved(Abs(), was, setup, ANY);
      if pos != was {
        phantom := false;
      }
    }

    method ToColumn(col: nat)
      requires Valid() && col < setup.cols
      modifies `pos
      ensures Valid() && Abs() == old(Abs()).At(Pos(old(pos).row, col))
    {
      KeptAt(Abs(), Pos(pos.row, col), setup, ANY);
      pos := Pos(pos.row, col);
    }

    method ReverseFeed()
      requires Valid()
      modifies `pos, `primary, `alt, `out
      ensures Valid() && Abs() == Control(old(Abs()), 0x8d)
    {
      KeptReverseFeed(Abs(), setup, ANY);
      if pos.row == region.top {
        var bottom := if region.bottom > -1 then region.bottom else setup.rows;
        var left := if modes.margins then region.left else 0;
        var right := if modes.margins && region.right > -1 then region.right else setup.cols;
        Scroll(Rect(region.top, bottom, left, right), -1, 0);
      } else if pos.row > 0 {
        pos := Pos(pos.row - 1, pos.col);
      }
    }

    method SetTab(on: bool)
      requires Valid()
      modifies `tabs
      ensures Valid() && Abs() == old(Abs()).(tabs := old(tabs)[old(pos).col := on])
    {
      KeptPlain(Abs(), tabs[pos.col := on], isProtected, modes, setup, ANY);
      tabs := tabs[pos.col := on];
    }

    method Feeding(c: nat)
      requires Valid() && (0x0a <= c <= 0x0c || c == 0x84 || c == 0x85)
      modifies `pos, `primary, `alt, `out
      ensures Valid() && Abs() == Control(old(Abs()), c)
    {
      hide Kept, LineFeed;
      Feed();
      SafeCursor(Abs(), setup, ANY);
      if c == 0x85 || (modes.newline && c != 0x84) {
        ToColumn(0);
      }
    }

    method OnControl(c: nat)
      requires Valid()
      modifies `pos, `phantom, `tabs, `primary, `alt, `out
      ensures Valid() && Abs() == TermSpec.OnControl(old(Abs()), c)
    {
      var was := pos;
      SafeCursor(Abs(), setup, ANY);
      assert |tabs| == setup.cols;
      hide Kept, LineFeed, Scrolling;
      if c == 0x08 {
        if pos.col > 0 {
          ToColumn(pos.col - 1);
        }
      } else if c == 0x09 {
        KeptControl(Abs(), c, setup, ANY);
        TabForward(1);
      } else if 0x0a <= c <= 0x0c || c == 0x84 || c == 0x85 {
        Feeding(c);
      } else if c == 0x0d {
        ToColumn(0);
      } else if c == 0x88 {
        SetTab(true);
      } else if c == 0x8d {
        ReverseFeed();
      }
      Settle(was);
    }

    // ---- Modes ----

    method SaveCursor()
      requires Valid()
      modifies `saved
      ensures Valid() && Abs() == Save(old(Abs()))
    {
      KeptSaveOrRestore(Abs(), true, setup, ANY);
      saved := Saved(pos, pen);
    }

    method RestoreCursor()
      requires Valid() || Held()
      modifies `pos, `pen, `phantom, `out
      ensures Valid() && Abs() == Restore(old(Abs()))
    {
      KeptRestored(Abs(), setup);
      var was := pos;
      pos, pen := saved.pos, saved.pen;
      Say(Op.SetPen(pen));
      if pos != was {
        phantom := false;
      }
    }

    method SwitchScreen(on: bool)
      requires Held()
      modifies `onAlt, `alt, `out
      ensures Held() && Abs() == ToScreen(old(Abs()), on)
    {
      KeptToScreen(Abs(), on, setup, AtEdge(ANY));
      ghost var t := Abs();
      onAlt := on;
      if on {
        var row := 1;
        ghost var was := alt;
        while row < setup.rows
          invariant row >= 1 && |alt| == setup.rows && alt == Uncontinued(was, 1, row)
          invariant Abs() == t.(onAlt := true, alt := alt)
        {
          alt := alt[row := alt[row].(continuation := false)];
          row := row + 1;
        }
        assert alt == Uncontinued(was, 1, setup.rows + 1);
      }
      Say(Op.SetAlt(on, Info()));
    }

    method SetOriginMode(on: bool)
      requires Held()
      modifies `modes, `pos, `phantom
      ensures Held() && Abs() == SetOrigin(old(Abs()), on)
    {
      KeptDecMode(Abs(), 6, on, setup, AtEdge(ANY));
      var was := pos;
      modes := modes.(origin := on);
      if on {
        pos := Pos(region.top, if modes.margins then region.left else 0);
      } else {
        pos := Pos(0, 0);
      }
      if pos != was {
        phantom := false;
      }
    }

    method SetMarginMode(on: bool)
      requires Held()
      modifies `modes, `primary, `alt, `out
      ensures Held() && Abs() == SetMargins(old(Abs()), on)
    {
      KeptPlain(Abs(), tabs, isProtected, modes.(margins := on), setup, AtEdge(ANY));
      modes := modes.(margins := on);
      if on {
        MakePlain(0, setup.rows);
      }
    }

    method SetDecMode(mode: nat, on: bool)
      requires Held() && (on && Saves(mode) ==> pos.col < setup.cols)
      modifies this
      ensures Held() && Abs() == DecMode(old(Abs()), mode, on)
    {
      KeptDecMode(Abs(), mode, on, setup, AtEdge(ANY));
      hide Kept, SetOrigin, SetMargins, ToScreen, Restore;
      if mode == 5 {
        Say(Op.SetReverse(on));
      } else if mode == 6 {
        SetOriginMode(on);
      } else if mode == 7 {
        modes := modes.(autowrap := on);
      } else if mode == 69 {
        SetMarginMode(on);
      } else if mode == 1047 {
        SwitchScreen(on);
      } else if mode == 1048 || mode == 1049 {
        if mode == 1049 {
          SwitchScreen(on);
        }
        if on {
          KeptInside(Abs(), setup, ANY);
          SaveCursor();
          KeptEdge(Abs(), setup, ANY);
        } else {
          RestoreCursor();
          KeptEdge(Abs(), setup, ANY);
        }
      }
    }

    method SoftlyReset()
      requires Valid()
      modifies this
      ensures Valid() && Abs() == SoftReset(old(Abs()))
    {
      KeptSoftReset(Abs(), setup, ANY);
      ghost var t := Abs();
      var p := S.Reset(setup.defaults);
      ghost var u := t.(region := FULL_REGION, modes := INITIAL_MODES, tabs := Tabs(setup.cols), isProtected := false,
                        pen := p);
      assert Kept(u, setup, ANY) by {
        hide OpsFit;
      }
      hide Kept, PlainLines, S.Reset;
      region, modes, tabs, isProtected := FULL_REGION, INITIAL_MODES, Tabs(setup.cols), false;
      pen := p;
      assert Abs() == u;
      MakePlain(0, setup.rows);
      Say(Op.SetPen(p));
    }

    method Reset()
      requires Valid()
      modifies this
      ensures Valid() && Abs() == HardReset(old(Abs()))
    {
      hide SoftReset;
      SoftlyReset();
      pos, phantom := Pos(0, 0), false;
      assert Kept(Abs(), setup, ANY) by {
        hide OpsFit;
      }
      Erase(Rect(0, setup.rows, 0, setup.cols), false);
    }

    // ---- Escapes ----

    method AlignRow(row: nat, ghost t: Term)
      requires Valid() && row < setup.rows && Abs() == Aligned(t, row, 0) && Abs() == t.(out := out)
      modifies `out
      ensures Valid() && Abs() == Aligned(t, row + 1, 0) && Abs() == t.(out := out)
    {
      hide OpsFit;
      var col, width := 0, if Info()[row].doublewidth then setup.cols / 2 else setup.cols;
      assert width == t.RowWidth(row);
      while col < width
        invariant col <= width && Valid() && Abs() == Aligned(t, row, col)
        invariant Abs() == t.(out := out)
      {
        PutGlyph(['E' as nat], 1, Pos(row, col));
        col := col + 1;
      }
    }

    /** The screen filled with E, for adjusting the picture. */
    method Align()
      requires Valid()
      modifies `out
      ensures Valid() && Abs() == Aligned(old(Abs()), setup.rows, 0)
    {
      ghost var t := Abs();
      var row := 0;
      hide Kept;
      while row < setup.rows
        invariant row <= setup.rows && Valid() && Abs() == Aligned(t, row, 0)
        invariant Abs() == t.(out := out)
      {
        AlignRow(row, t);
        row := row + 1;
      }
    }

    method LineEscape(c: nat)
      requires Valid()
      modifies `primary, `alt, `out
      ensures Valid() && Abs() == OnEscape(old(Abs()), ['#' as nat, c])
    {
      hide Kept, Aligned, Lining;
      assert pos.row < setup.rows by {
        SafeCursor(Abs(), setup, ANY);
      }
      if c == '8' as nat {
        Align();
      } else if !modes.margins {
        if c == '3' as nat {
          SetLine(pos.row, true, 1);
        } else if c == '4' as nat {
          SetLine(pos.row, true, 2);
        } else if c == '5' as nat {
          SetLine(pos.row, false, 0);
        } else if c == '6' as nat {
          SetLine(pos.row, true, 0);
        }
      }
    }

    method Escape(bytes: seq<nat>)
      requires Valid()
      modifies this
      ensures Valid() && Abs() == OnEscape(old(Abs()), bytes)
    {
      hide Kept, Aligned, Lining, HardReset, Restore;
      if |bytes| == 2 && bytes[0] == '#' as nat {
        assert bytes == ['#' as nat, bytes[1]];
        LineEscape(bytes[1]);
      } else if bytes != [] {
        if bytes[0] == '7' as nat {
          SaveCursor();
        } else if bytes[0] == '8' as nat {
          RestoreCursor();
        } else if bytes[0] == 'c' as nat {
          Reset();
        }
      }
    }

    // ---- Control sequences ----

    method AskRow(k: int, args: seq<nat>) returns (row: int)
      ensures row == AskedRow(Abs(), k, args)
    {
      row := pos.row;
      if k == 0x41 || k == 0x46 || k == 0x6b {
        row := row - Count(args);
      } else if k == 0x42 || k == 0x45 || k == 0x65 {
        row := row + Count(args);
      } else if k == 0x48 || k == 0x64 || k == 0x66 {
        row := First(args);
        if modes.origin {
          row := row + region.top;
        }
      }
    }

    method AskCol(k: int, args: seq<nat>) returns (col: int)
      requires k != 0x49 && k != 0x5a
      ensures col == AskedCol(Abs(), k, args)
    {
      col := pos.col;
      if k == 0x43 || k == 0x61 {
        col := col + Count(args);
      } else if k == 0x44 || k == 0x6a {
        col := col - Count(args);
      } else if k == 0x45 || k == 0x46 {
        col := 0;
      } else if k == 0x47 || k == 0x60 {
        col := First(args);
      } else if k == 0x48 || k == 0x66 {
        col := SecondColumn(args);
        if modes.origin && modes.margins {
          col := col + region.left;
        }
      }
    }

    method Move(k: int, args: seq<nat>)
      requires Valid()
      modifies `pos, `phantom
      ensures Valid() && Abs() == Moving(old(Abs()), k, args)
    {
      KeptMoving(Abs(), k, args, setup, ANY);
      ghost var t := Abs();
      var row, col := pos.row, pos.col;
      hide OpsFit, Count, First, SecondColumn, TabRight, TabLeft;
      if k == 0x49 || k == 0x5a {
        if k == 0x49 {
          TabForward(Count(args));
        } else {
          TabBack(Count(args));
        }
        col := pos.col;
        assert col == AskedCol(t, k, args) && row == AskedRow(t, k, args);
      } else {
        row := AskRow(k, args);
        col := AskCol(k, args);
        phantom := false;
      }
      hide AskedRow, AskedCol;
      BringFrom(t, row, col);
    }

    /** Bringing the cursor in looks only at margins, modes and line flags. */
    method BringFrom(ghost t: Term, row: int, col: int)
      requires Safe(t, setup) && OpsFit(t.out, setup, ANY) && Abs() == t.(pos := pos, phantom := phantom)
      modifies `pos
      ensures Abs() == t.(pos := Into(t, row, col), phantom := phantom)
    {
      IntoScreen(t, row, col, setup);
      var r, c := row, col;
      var top, bottom, left, right := 0, setup.rows, 0, setup.cols;
      if modes.origin {
        top := region.top;
        bottom := if region.bottom > -1 then region.bottom else setup.rows;
        left := if modes.margins then region.left else 0;
        right := if modes.margins && region.right > -1 then region.right else setup.cols;
      }
      if r < top {
        r := top;
      }
      if r > bottom - 1 {
        r := bottom - 1;
      }
      if !modes.origin {
        right := if Info()[r].doublewidth then setup.cols / 2 else setup.cols;
      }
      if c < left {
        c := left;
      }
      if c > right - 1 {
        c := right - 1;
      }
      pos := Pos(r, c);
    }

    method Bring()
      requires Valid() || Held()
      modifies `pos
      ensures Valid() && Abs() == old(Abs()).At(Into(old(Abs()), old(pos).row, old(pos).col))
    {
      if Valid() {
        KeptEdge(Abs(), setup, ANY);
      }
      KeptBrought(Abs(), setup, ANY);
      BringFrom(Abs(), pos.row, pos.col);
    }

    predicate CursorInRegion()
      reads this
      ensures CursorInRegion() == Abs().InRegion()
    {
      && region.top <= pos.row < (if region.bottom > -1 then region.bottom else setup.rows)
      && (if modes.margins then region.left else 0) <= pos.col
      && pos.col < if modes.margins && region.right > -1 then region.right else setup.cols
    }

    method Area(k: int) returns (rect: Rect)
      requires Valid() && Scrolls(k)
      ensures rect == ScrolledRect(Abs(), k)
    {
      var bottom := if region.bottom > -1 then region.bottom else setup.rows;
      var left := if modes.margins then region.left else 0;
      var right := if modes.margins && region.right > -1 then region.right else setup.cols;
      rect := Rect(region.top, bottom, left, right);
      if k == 0x40 || k == 0x50 {
        rect := Rect(pos.row, pos.row + 1, pos.col, if modes.margins then right else Width());
      } else if k == 0x4c || k == 0x4d {
        rect := Rect(pos.row, bottom, left, right);
      } else if k == 0x27007d || k == 0x27007e {
        rect := Rect(region.top, bottom, pos.col, right);
      }
    }

    method ScrollArea(k: int, rect: Rect, n: int)
      requires Valid() && Scrolls(k) && n >= 0 && Near(rect, setup) && rect.startRow < rect.endRow
      modifies `primary, `alt, `out
      ensures Valid() && Abs() == Scrolling(old(Abs()), rect, Downward(k, n), Rightward(k, n))
    {
      hide Kept, Scrolling, Near;
      if k == 0x40 || k == 0x27007d {
        Scroll(rect, 0, -n);
      } else if k == 0x50 || k == 0x27007e {
        Scroll(rect, 0, n);
      } else if k == 0x4c || k == 0x54 {
        Scroll(rect, -n, 0);
      } else {
        Scroll(rect, n, 0);
      }
    }

    method ScrollBy(k: int, args: seq<nat>)
      requires Valid() && Scrolls(k)
      modifies `primary, `alt, `out
      ensures Valid() && Abs() == ScrollSequence(old(Abs()), k, args)
    {
      if k == 0x53 || k == 0x54 || CursorInRegion() {
        ScrolledNear(Abs(), k, setup);
        hide Kept, Scrolling, ScrolledRect, Near, Count, Scrolls, Downward, Rightward;
        var rect := Area(k);
        ScrollArea(k, rect, Count(args));
      }
    }

    method EraseWhen(b: bool, rect: Rect, selective: bool)
      requires Valid() && (b ==> Near(rect, setup))
      modifies `primary, `alt, `out
      ensures Valid() && Abs() == EraseIf(old(Abs()), b, rect, selective)
    {
      if b {
        Erase(rect, selective);
      }
    }

    method EraseDownFrom(row: nat, col: nat, selective: bool)
      requires Valid() && row < setup.rows && col < setup.cols
      modifies `primary, `alt, `out
      ensures Valid() && Abs() == EraseFrom(old(Abs()), row, col, selective)
    {
      var rows, cols := setup.rows, setup.cols;
      NearRow(row, col, cols, setup);
      assert Near(Rect(row + 1, rows, 0, cols), setup);
      hide Kept, EraseIf, PlainLines, Near;
      EraseWhen(col < cols, Rect(row, row + 1, col, cols), selective);
      MakePlain(row + 1, rows);
      EraseWhen(row + 1 < rows, Rect(row + 1, rows, 0, cols), selective);
    }

    method EraseDown(selective: bool)
      requires Valid()
      modifies `primary, `alt, `out
      ensures Valid() && Abs() == EraseBelow(old(Abs()), selective)
    {
      SafeCursor(Abs(), setup, ANY);
      hide Kept, EraseFrom;
      EraseDownFrom(pos.row, pos.col, selective);
    }

    method EraseUpTo(row: nat, col: nat, selective: bool)
      requires Valid() && row < setup.rows && col < setup.cols
      modifies `primary, `alt, `out
      ensures Valid() && Abs() == EraseUpto(old(Abs()), row, col, selective)
    {
      var cols := setup.cols;
      NearRow(row, 0, col + 1, setup);
      assert Near(Rect(0, row, 0, cols), setup);
      hide Kept, EraseIf, PlainLines, Erasing, Near;
      MakePlain(0, row);
      EraseWhen(cols > 0, Rect(0, row, 0, cols), selective);
      Erase(Rect(row, row + 1, 0, col + 1), selective);
    }

    method EraseUp(selective: bool)
      requires Valid()
      modifies `primary, `alt, `out
      ensures Valid() && Abs() == EraseAbove(old(Abs()), selective)
    {
      SafeCursor(Abs(), setup, ANY);
      hide Kept, EraseUpto;
      EraseUpTo(pos.row, pos.col, selective);
    }

    method EraseInDisplay(what: nat, selective: bool)
      requires Valid()
      modifies `primary, `alt, `out
      ensures Valid() && Abs() == EraseDisplay(old(Abs()), what, selective)
    {
      hide Kept, EraseAbove, EraseBelow, PlainLines, Erasing;
      if what == MISSING || what == 0 {
        EraseDown(selective);
      } else if what == 1 {
        EraseUp(selective);
      } else if what == 2 {
        MakePlain(0, setup.rows);
        Erase(Rect(0, setup.rows, 0, setup.cols), selective);
      }
    }

    method EraseInLine(what: nat, selective: bool)
      requires Valid()
      modifies `primary, `alt, `out
      ensures Valid() && Abs() == EraseLine(old(Abs()), what, selective)
    {
      SafeCursor(Abs(), setup, ANY);
      var from, upto := 0, Width();
      if what == MISSING || what == 0 {
        from := pos.col;
      } else if what == 1 {
        upto := pos.col + 1;
      }
      NearRow(pos.row, from, upto, setup);
      hide Kept, EraseIf, Near;
      EraseWhen(from < upto, Rect(pos.row, pos.row + 1, from, upto), selective);
    }

    method EraseChars(count: nat)
      requires Valid()
      modifies `primary, `alt, `out
      ensures Valid()
      ensures var t := old(Abs()); var end := t.pos.col + count;
        Abs() == Erasing(t, Rect(t.pos.row, t.pos.row + 1, t.pos.col, if end > t.Width() then t.Width() else end), false)
    {
      SafeCursor(Abs(), setup, ANY);
      var end := pos.col + count;
      if end > Width() {
        end := Width();
      }
      NearRow(pos.row, pos.col, end, setup);
      hide Kept, Erasing, Near;
      Erase(Rect(pos.row, pos.row + 1, pos.col, end), false);
    }

    method EraseBy(k: int, args: seq<nat>)
      requires Valid() && Erases(k)
      modifies `primary, `alt, `out
      ensures Valid() && Abs() == EraseSequence(old(Abs()), k, args)
    {
      hide Kept, Erasing, EraseDisplay, EraseLine, Count, Param;
      var selective := k == 0x3f4a || k == 0x3f4b;
      if k == 0x4a || k == 0x3f4a {
        EraseInDisplay(Param(args, 0), selective);
      } else if k == 0x4b || k == 0x3f4b {
        EraseInLine(Param(args, 0), selective);
      } else {
        EraseChars(Count(args));
      }
    }

    // ---- Repeating the last glyph ----

    /** Copies of the last glyph up to a column. */
    method Copy(target: nat) returns (col: nat)
      requires Valid() && target <= setup.cols
      requires pos.col < target ==> last.width > 0 && RepeatEnd(pos.col, target, last.width) <= setup.cols
      modifies `out
      ensures Valid() && Abs() == Repeated(old(Abs()), pos.col, target)
      ensures col == RepeatedTo(old(Abs()), target)
    {
      ghost var t := Abs();
      col := pos.col;
      while col < target
        invariant Valid() && Abs() == t.(out := out) && Repeated(Abs(), col, target) == Repeated(t, pos.col, target)
        invariant col < target ==> last.width > 0 && RepeatEnd(col, target, last.width) <= setup.cols
        invariant last.width == 0 ==> col == pos.col
        invariant last.width > 0 ==> RepeatEnd(col, target, last.width) == RepeatEnd(pos.col, target, last.width)
        decreases target - col
      {
        hide OpsFit;
        PutGlyph(last.chars, last.width, Pos(pos.row, col));
        col := col + last.width;
      }
    }

    method Repeat(args: seq<nat>)
      requires Valid() && RepeatOk(Abs(), args)
      modifies `pos, `phantom, `out
      ensures Valid() && Abs() == Repeating(old(Abs()), args)
    {
      KeptRepeating(Abs(), args, setup, ANY);
      SafeCursor(Abs(), setup, ANY);
      var was, target := pos, RepeatTarget(Abs(), args);
      RepeatedOnlyAsks(Abs(), pos.col, target);
      assert target <= setup.cols;
      hide OpsFit, Safe, Repeated, RepeatedTo, RepeatEnd, RepeatTarget, Into;
      var col := Copy(target);
      var full := col + last.width >= Width() && modes.autowrap;
      BringFrom(Abs(), pos.row, col);
      phantom := full || (phantom && pos == was);
    }

    // ---- Margins ----

    method GoHome()
      modifies `pos
      ensures Abs() == old(Abs()).At(Home(old(Abs())))
    {
      if modes.origin {
        pos := Pos(region.top, if modes.margins then region.left else 0);
      } else {
        pos := Pos(0, 0);
      }
    }

    method SetRows(args: seq<nat>)
      requires Valid()
      modifies `region, `pos
      ensures Held() && Abs() == SetTopBottom(old(Abs()), args)
    {
      KeptEdge(Abs(), setup, ANY);
      KeptTopBottom(Abs(), args, setup, AtEdge(ANY));
      var top, bottom := First(args), Second(args);
      assert top >= -1;
      hide Kept, First, Second;
      if top < 0 {
        top := 0;
      }
      if top > setup.rows {
        top := setup.rows;
      }
      if top == 0 && bottom == setup.rows {
        bottom := -1;
      } else if bottom > setup.rows {
        bottom := setup.rows;
      }
      if (if bottom > -1 then bottom else setup.rows) <= top {
        top, bottom := 0, -1;
      }
      region := region.(top := top, bottom := bottom);
      GoHome();
    }

    method SetColumns(args: seq<nat>)
      requires Valid()
      modifies `region, `pos
      ensures Held() && Abs() == SetLeftRight(old(Abs()), args)
    {
      KeptEdge(Abs(), setup, ANY);
      KeptLeftRight(Abs(), args, setup, AtEdge(ANY));
      var left, right := First(args), Second(args);
      assert left >= -1;
      hide Kept, First, Second;
      if left < 0 {
        left := 0;
      }
      if left > setup.cols {
        left := setup.cols;
      }
      if left == 0 && right == setup.cols {
        right := -1;
      } else if right > setup.cols {
        right := setup.cols;
      }
      if right > -1 && right <= left {
        left, right := 0, -1;
      }
      region := region.(left := left, right := right);
      GoHome();
    }

    // ---- Modes, attributes and the rest ----

    method SetDecModes(args: seq<nat>, on: bool)
      requires Valid() && (on ==> !SavesBeyond(Abs(), args, setup.cols))
      modifies this
      ensures Held() && Abs() == DecModes(old(Abs()), args, on)
    {
      ghost var t := Abs();
      KeptEdge(t, setup, ANY);
      var i := 0;
      assert Safe(t, setup) && t.pos.col < setup.cols;
      hide Kept, DecMode, Safe, HomesBeyond;
      assert args[..0] == [];
      while i < |args|
        invariant i <= |args| && Held() && Abs() == DecModes(t, args[..i], on)
      {
        assert args[..i + 1][..i] == args[..i];
        if S.Arg(args[i]) != MISSING {
          if on && Saves(S.Arg(args[i])) {
            SavesInTime(t, args, i, setup);
          }
          SetDecMode(S.Arg(args[i]), on);
        }
        i := i + 1;
      }
      assert args[..i] == args;
    }

    method TakePen(p: Pen)
      requires Valid()
      modifies `pen, `out
      ensures Valid() && Abs() == old(Abs()).(pen := p).Say(Op.SetPen(p))
    {
      KeptPen(Abs(), p, setup, ANY);
      pen := p;
      Say(Op.SetPen(p));
    }

    method SetDecAttributes(args: seq<nat>)
      requires Valid()
      modifies `pen, `out
      ensures Valid() && Abs() == DecAttributes(old(Abs()), args)
    {
      var p, i := pen, 0;
      hide Kept, S.SetPen;
      assert args[..0] == [];
      while i < |args|
        invariant i <= |args| && p == Baseline(pen, args[..i], Abs())
      {
        assert args[..i + 1][..i] == args[..i];
        var a := S.Arg(args[i]);
        if a == 4 {
          p := S.SetPen(p, [73], 1, 0, setup.defaults, setup.highbright);
        } else if a == 5 {
          p := S.SetPen(p, [74], 1, 0, setup.defaults, setup.highbright);
        } else if a == 24 {
          p := S.SetPen(p, [75], 1, 0, setup.defaults, setup.highbright);
        }
        i := i + 1;
      }
      assert args[..i] == args;
      TakePen(p);
    }

    method RemoveTabs(what: nat)
      requires Valid()
      modifies `tabs
      ensures Valid() && Abs() == ClearTabs(old(Abs()), what)
    {
      KeptPlain(Abs(), ClearTabs(Abs(), what).tabs, isProtected, modes, setup, ANY);
      if what == 0 {
        tabs := tabs[pos.col := false];
      } else if what == 3 || what == 5 {
        tabs := seq(setup.cols, _ => false);
      }
    }

    method SetAnsiMode(mode: nat, on: bool)
      requires Valid()
      modifies `modes
      ensures Valid() && Abs() == AnsiMode(old(Abs()), mode, on)
    {
      KeptPlain(Abs(), tabs, isProtected, AnsiMode(Abs(), mode, on).modes, setup, ANY);
      if mode == 4 {
        modes := modes.(insert := on);
      } else if mode == 20 {
        modes := modes.(newline := on);
      }
    }

    method Protect(what: nat)
      requires Valid()
      modifies `isProtected
      ensures Valid() && Abs() == Protecting(old(Abs()), what)
    {
      KeptPlain(Abs(), tabs, Protecting(Abs(), what).isProtected, modes, setup, ANY);
      if what == 0 || what == 2 {
        isProtected := false;
      } else if what == 1 {
        isProtected := true;
      }
    }

    method Other(k: int, args: seq<nat>)
      requires Valid() && (k == 0x3f68 ==> !SavesBeyond(Abs(), args, setup.cols))
      modifies this
      ensures (Valid() || Held()) && Abs() == OtherSequence(old(Abs()), k, args)
    {
      hide Kept, SavesBeyond, ClearTabs, AnsiMode, DecModes, DecAttributes, SoftReset, Protecting, SetTopBottom,
        SetLeftRight, Param, S.SetPen;
      if k == 0x67 {
        RemoveTabs(Or(Param(args, 0), 0));
      } else if k == 0x68 || k == 0x6c {
        if Param(args, 0) != MISSING {
          SetAnsiMode(Param(args, 0), k == 0x68);
        }
      } else if k == 0x3f68 || k == 0x3f6c {
        SetDecModes(args, k == 0x3f68);
      } else if k == 0x6d {
        TakePen(S.SetPen(pen, args, |args|, 0, setup.defaults, setup.highbright));
      } else if k == 0x3f6d {
        SetDecAttributes(args);
      } else if k == 0x210070 {
        SoftlyReset();
      } else if k == 0x220071 {
        Protect(Or(Param(args, 0), 0));
      } else if k == 0x72 {
        SetRows(args);
      } else if k == 0x73 {
        SetColumns(args);
      }
    }

    method Csi(leader: seq<nat>, args: seq<nat>, intermed: seq<nat>, final: nat)
      requires Valid() && (Code(leader, intermed, final) == 0x3f68 ==> !SavesBeyond(Abs(), args, setup.cols))
      requires Code(leader, intermed, final) == 0x62 ==> RepeatOk(Abs(), args)
      modifies this
      ensures Valid() && Abs() == OnCsi(old(Abs()), leader, args, intermed, final)
    {
      hide Kept, SavesBeyond, Code, Ignored, Moves, Scrolls, Erases, Moving, ScrollSequence, EraseSequence, OtherSequence,
        Into, Repeating, RepeatOk, Forgets;
      var k, was := Code(leader, intermed, final), pos;
      if Forgets(k, args) {
        KeptForgetting(Abs(), setup, ANY);
        Say(Op.ClearHistory);
        return;
      }
      if k == 0x62 {
        Repeat(args);
        return;
      }
      if Ignored(k, args) {
        return;
      }
      if Moves(k) {
        Move(k, args);
      } else {
        if Scrolls(k) {
          ScrollBy(k, args);
        } else if Erases(k) {
          EraseBy(k, args);
        } else {
          Other(k, args);
        }
        Bring();
      }
      Settle(was);
    }

    // ---- Whole runs ----

    method Take(e: Event, w: Widths)
      requires Valid() && Tame(Abs(), e, w, setup.cols)
      modifies this
      ensures Valid() && Abs() == Handle(old(Abs()), e, w)
    {
      hide Kept, Narrow, SavesBeyond, Overreaches, OnText, TermSpec.OnControl, OnEscape, OnCsi, RepeatOk, Code;
      match e
      case Text(cps) => Text(cps, w);
      case Ctrl(c) => OnControl(c);
      case Esc(bytes) => Escape(bytes);
      case Csi(leader, args, intermed, final) => Csi(leader, args, intermed, final);
    }

    /** Events in any number; the requests made are those that the run makes. */
    method TakeAll(events: seq<Event>, w: Widths)
      requires Valid() && AllTame(Abs(), events, w, setup.cols)
      modifies this
      ensures Valid() && Abs() == Run(old(Abs()), events, w)
    {
      ghost var t := Abs();
      var i := 0;
      hide Kept, Admits, Handle;
      assert events[..0] == [];
      while i < |events|
        invariant i <= |events| && Valid() && Abs() == Run(t, events[..i], w)
      {
        assert events[..i + 1][..i] == events[..i];
        assert AdmitsAt(ANY, t, events, i, w, setup.cols);
        Take(events[i], w);
        i := i + 1;
      }
      assert events[..i] == events;
    }
  }
}
