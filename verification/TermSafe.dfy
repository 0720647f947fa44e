/** What every event keeps: the cursors inside the screen, the region not empty, and every
    request to the screen one that fits it. */
module TermSafe {
  import opened Grid
  import opened ScreenSpec
  import opened TermSpec
  import opened TermCsi
  import S = Sgr

  predicate InScreen(p: Pos, s: Setup) { p.row < s.rows && p.col < s.cols }

  predicate RegionOk(r: Region, s: Setup) {
    && r.top < s.rows && (r.bottom == -1 || r.top < r.bottom <= s.rows)
    && r.left < s.cols && (r.right == -1 || r.left < r.right <= s.cols)
  }

  /** Proper, but for a left margin that may be the column behind the last. */
  predicate RegionNear(r: Region, s: Setup) {
    && r.top < s.rows && (r.bottom == -1 || r.top < r.bottom <= s.rows)
    && r.left <= s.cols && (r.right == -1 || r.left < r.right <= s.cols)
  }

  /** What every state within an event has: the cursor may stand on the column behind the last. */
  predicate Safe(t: Term, s: Setup) {
    && t.setup == s && s.rows >= 1 && s.cols >= 2
    && t.pos.row < s.rows && t.pos.col <= s.cols && InScreen(t.saved.pos, s) && RegionNear(t.region, s)
    && |t.primary| == s.rows && |t.alt| == s.rows && |t.tabs| == s.cols && InScreen(t.last.at, s)
  }

  predicate Near(rect: Rect, s: Setup) { rect.Near(s.rows, s.cols) }

  /** What is claimed of a state besides: that the requests made since some earlier ones fit the
      screen, and that they all have rows; that the cursor may stand behind the last column; that
      the margins are proper. */
  datatype Claim = Claim(base: seq<Op>, fits: bool, strict: bool, edge: bool, proper: bool)

  const ANY := Claim([], true, false, false, false)

  function AtEdge(b: Claim): Claim { b.(edge := true) }

  predicate Fitting(op: Op, s: Setup, strict: bool) { Fits(op, s.rows, s.cols) && (strict ==> HasRows(op)) }

  ghost predicate OpsFit(out: seq<Op>, s: Setup, b: Claim) {
    b.fits ==> b.base <= out && forall i :: |b.base| <= i < |out| ==> Fitting(out[i], s, b.strict)
  }

  predicate Claimed(t: Term, s: Setup, b: Claim) {
    && (!b.edge ==> t.pos.col < s.cols) && (b.proper ==> t.region.left < s.cols)
    && (b.fits ==> t.last.at.col + t.last.width <= s.cols && (t.last.width > 0 ==> t.last.chars != []))
  }

  ghost predicate Kept(t: Term, s: Setup, b: Claim) { Safe(t, s) && Claimed(t, s, b) && OpsFit(t.out, s, b) }

  lemma KeptEdge(t: Term, s: Setup, b: Claim)
    requires Kept(t, s, b)
    ensures Kept(t, s, AtEdge(b))
  {
    hide Safe, Fitting;
  }

  lemma KeptInside(t: Term, s: Setup, b: Claim)
    requires Kept(t, s, AtEdge(b)) && t.pos.col < s.cols
    ensures Kept(t, s, b)
  {
    hide Safe, Fitting;
  }

  // ---- Requests ----

  lemma OpsFitSnoc(out: seq<Op>, op: Op, s: Setup, b: Claim)
    requires OpsFit(out, s, b) && (b.fits ==> Fitting(op, s, b.strict))
    ensures OpsFit(out + [op], s, b)
  {
    hide Fitting;
  }

  lemma KeptSay(t: Term, op: Op, s: Setup, b: Claim)
    requires Kept(t, s, b) && (b.fits ==> Fitting(op, s, b.strict))
    ensures Kept(t.Say(op), s, b)
  {
    OpsFitSnoc(t.out, op, s, b);
    hide OpsFit, Fitting;
  }

  lemma KeptErasing(t: Term, rect: Rect, selective: bool, s: Setup, b: Claim)
    requires Kept(t, s, b) && Near(rect, s) && (b.strict ==> rect.startRow < rect.endRow)
    ensures Kept(Erasing(t, rect, selective), s, b)
  {
    var u := Erasing(t, rect, selective);
    var op := u.out[|t.out|];
    assert u.out == t.out + [op];
    assert op.rect == rect && |op.info| == s.rows;
    assert Fitting(op, s, b.strict);
    OpsFitSnoc(t.out, op, s, b);
    hide OpsFit, Fitting, Uncontinued;
  }

  lemma KeptScrolling(t: Term, rect: Rect, downward: int, rightward: int, s: Setup, b: Claim)
    requires Kept(t, s, b) && Near(rect, s)
    requires rect.startRow < rect.endRow && (downward == 0 || rightward == 0)
    ensures Kept(Scrolling(t, rect, downward, rightward), s, b)
  {
    if downward != 0 || rightward != 0 {
      var u := Scrolling(t, rect, downward, rightward);
      var op := u.out[|t.out|];
      assert u.out == t.out + [op];
      assert op.Scroll? && op.rect == rect && |op.info| == s.rows;
      assert op.downward == Clamped(downward, rect.endRow - rect.startRow);
      assert op.rightward == Clamped(rightward, rect.endCol - rect.startCol);
      assert Fits(op, s.rows, s.cols);
      OpsFitSnoc(t.out, op, s, b);
      hide OpsFit, Fitting, MovedLines;
    }
  }

  lemma KeptLining(t: Term, row: nat, doublewidth: bool, doubleheight: nat, s: Setup, b: Claim)
    requires Kept(t, s, b)
    ensures Kept(Lining(t, row, doublewidth, doubleheight), s, b)
  {
    if row < s.rows {
      var u := Lining(t, row, doublewidth, doubleheight);
      var op := u.out[|t.out|];
      assert u.out == t.out + [op];
      OpsFitSnoc(t.out, op, s, b);
      hide OpsFit, Fitting;
    }
  }

  /** Rows become lines of single width, and nothing else moves. */
  lemma {:induction false} KeptPlainLines(t: Term, from: nat, end: nat, s: Setup, b: Claim)
    requires Kept(t, s, b)
    ensures Kept(PlainLines(t, from, end), s, b)
    ensures var u := PlainLines(t, from, end); u.pos == t.pos && u.region == t.region && u.modes == t.modes
  {
    if from < end {
      KeptPlainLines(t, from, end - 1, s, b);
      KeptLining(PlainLines(t, from, end - 1), end - 1, false, 0, s, b);
      hide Safe, OpsFit;
    }
  }

  lemma KeptLineFeed(t: Term, s: Setup, b: Claim)
    requires Kept(t, s, b)
    ensures Kept(LineFeed(t), s, b) && LineFeed(t).pos.col == t.pos.col
  {
    if t.pos.row == t.Bottom() - 1 {
      KeptScrolling(t, t.RegionRect(), 1, 0, s, b);
    }
    hide OpsFit;
  }

  // ---- Text ----

  lemma KeptPut(t: Term, chars: seq<nat>, width: nat, at: Pos, s: Setup, b: Claim)
    requires Kept(t, s, b) && (b.fits ==> chars != [] && InScreen(at, s) && at.col + width <= s.cols)
    ensures Kept(Put(t, chars, width, at), s, b)
  {
    var op := PutGlyph(chars, width, at.row, at.col, t.isProtected, t.Line(at.row));
    assert b.fits ==> Fits(op, s.rows, s.cols);
    KeptSay(t, op, s, b);
  }

  lemma KeptRoom(t: Term, width: nat, s: Setup, b: Claim)
    requires Kept(t, s, b) && !b.edge && (b.fits ==> width <= s.cols)
    ensures Kept(Room(t, width), s, b) && (b.fits ==> Room(t, width).pos.col + width <= s.cols)
  {
    if t.phantom || t.pos.col + width > t.Width() {
      KeptLineFeed(t, s, b);
      hide OpsFit, LineFeed;
    }
  }

  lemma KeptInserting(t: Term, s: Setup, b: Claim)
    requires Kept(t, s, b)
    ensures Kept(Inserting(t), s, b) && Inserting(t).pos == t.pos
  {
    if t.modes.insert {
      KeptScrolling(t, Rect(t.pos.row, t.pos.row + 1, t.pos.col, t.Width()), 0, -1, s, b);
    }
    hide OpsFit;
  }

  lemma KeptPrinting(t: Term, chars: seq<nat>, width: nat, isLast: bool, s: Setup, b: Claim)
    requires Kept(t, s, b) && !b.edge && (b.fits ==> chars != [] && width <= s.cols)
    ensures Kept(Printing(t, chars, width, isLast), s, b)
  {
    KeptRoom(t, width, s, b);
    KeptInserting(Room(t, width), s, b);
    var u := Inserting(Room(t, width));
    KeptPut(u, chars, width, u.pos, s, b);
    hide OpsFit, Room, Inserting;
  }

  /** Every glyph of a text fits on a row. */
  ghost predicate Narrow(cps: seq<nat>, w: Widths, i: nat, cols: nat)
    requires i <= |cps|
    decreases |cps| - i
  {
    i < |cps| ==>
      var end := GlyphEnd(cps, w, i);
      TotalWidth(cps[i..end], w) <= cols && Narrow(cps, w, SkipCombining(cps, w, end, |cps|), cols)
  }

  lemma {:induction false} KeptGlyphs(t: Term, cps: seq<nat>, w: Widths, i: nat, s: Setup, b: Claim)
    requires Kept(t, s, b) && !b.edge && i <= |cps| && (b.fits ==> Narrow(cps, w, i, s.cols))
    ensures Kept(Glyphs(t, cps, w, i), s, b)
    decreases |cps| - i
  {
    if i < |cps| {
      var end := GlyphEnd(cps, w, i);
      var next := SkipCombining(cps, w, end, |cps|);
      var width := TotalWidth(cps[i..end], w);
      hide Kept, Printing, TotalWidth;
      KeptPrinting(t, cps[i..end], width, next == |cps|, s, b);
      KeptGlyphs(Printing(t, cps[i..end], width, next == |cps|), cps, w, next, s, b);
    }
  }

  /** Where the glyphs of a text begin: behind the characters that join the glyph put before. */
  function TextStart(t: Term, cps: seq<nat>, w: Widths): (r: nat)
    ensures r <= |cps|
  {
    if cps != [] && cps[0] in w.combining && StillThere(t) then SkipCombining(cps, w, 0, |cps|) else 0
  }

  lemma KeptText(t: Term, cps: seq<nat>, w: Widths, s: Setup, b: Claim)
    requires Kept(t, s, b) && !b.edge && (b.fits ==> Narrow(cps, w, TextStart(t, cps, w), s.cols))
    ensures Kept(OnText(t, cps, w), s, b)
  {
    var n := TextStart(t, cps, w);
    if cps != [] && cps[0] in w.combining && StillThere(t) {
      var chars := t.last.chars + cps[..n];
      var u := t.(last := t.last.(chars := chars));
      assert n > 0 && chars != [] && Kept(u, s, b);
      KeptPut(u, chars, t.last.width, t.last.at, s, b);
      KeptGlyphs(Combining(t, cps[..n]), cps, w, n, s, b);
    } else {
      KeptGlyphs(t, cps, w, 0, s, b);
    }
  }

  /** A glyph asks to be put last, whatever comes before. */
  lemma PrintingAsks(t: Term, chars: seq<nat>, width: nat, isLast: bool)
    ensures var out := Printing(t, chars, width, isLast).out;
      && t.out < out && out[|out| - 1].PutGlyph? && out[|out| - 1].width == width
  {
    var u := Room(t, width);
    assert t.out <= u.out by {
      hide Scrolling;
      ScrollingAsks(t, t.RegionRect(), 1, 0);
    }
    ScrollingAsks(u, Rect(u.pos.row, u.pos.row + 1, u.pos.col, u.Width()), 0, -1);
    hide Room, Scrolling;
  }

  lemma ScrollingAsks(t: Term, rect: Rect, downward: int, rightward: int)
    ensures t.out <= Scrolling(t, rect, downward, rightward).out
  {
  }

  lemma {:induction false} GlyphsAsk(t: Term, cps: seq<nat>, w: Widths, i: nat)
    requires i <= |cps|
    ensures t.out <= Glyphs(t, cps, w, i).out
    decreases |cps| - i
  {
    if i < |cps| {
      var end := GlyphEnd(cps, w, i);
      var next := SkipCombining(cps, w, end, |cps|);
      var width := TotalWidth(cps[i..end], w);
      hide Printing, TotalWidth, GlyphEnd, SkipCombining;
      PrintingAsks(t, cps[i..end], width, next == |cps|);
      GlyphsAsk(Printing(t, cps[i..end], width, next == |cps|), cps, w, next);
    }
  }

  /** A glyph that is wider than the screen does not fit it. */
  lemma {:induction false} WideGlyphs(t: Term, cps: seq<nat>, w: Widths, i: nat, s: Setup, b: Claim)
    requires i <= |cps| && b.fits && b.base <= t.out && !Narrow(cps, w, i, s.cols)
    ensures !OpsFit(Glyphs(t, cps, w, i).out, s, b)
    decreases |cps| - i
  {
    var end := GlyphEnd(cps, w, i);
    var next := SkipCombining(cps, w, end, |cps|);
    var width := TotalWidth(cps[i..end], w);
    var u := Printing(t, cps[i..end], width, next == |cps|);
    assert Glyphs(t, cps, w, i) == Glyphs(u, cps, w, next);
    assert width > s.cols || !Narrow(cps, w, next, s.cols);
    hide Printing, TotalWidth, GlyphEnd, SkipCombining, Glyphs, Narrow;
    PrintingAsks(t, cps[i..end], width, next == |cps|);
    if width > s.cols {
      GlyphsAsk(u, cps, w, next);
      assert !Fitting(u.out[|u.out| - 1], s, b.strict);
      assert u.out[|u.out| - 1] == Glyphs(u, cps, w, next).out[|u.out| - 1];
    } else {
      WideGlyphs(u, cps, w, next, s, b);
    }
  }

  /** A text asks only for what fits the screen if and only if none of its glyphs is wider. */
  lemma TextFits(t: Term, cps: seq<nat>, w: Widths, s: Setup, b: Claim)
    requires Kept(t, s, b) && !b.edge && b.fits
    ensures OpsFit(OnText(t, cps, w).out, s, b) <==> Narrow(cps, w, TextStart(t, cps, w), s.cols)
  {
    if Narrow(cps, w, TextStart(t, cps, w), s.cols) {
      KeptText(t, cps, w, s, b);
    } else {
      assert b.base <= t.out;
      hide OpsFit, Kept, Narrow, Glyphs;
      if cps != [] && cps[0] in w.combining && StillThere(t) {
        var n := TextStart(t, cps, w);
        assert t.out <= Combining(t, cps[..n]).out;
        WideGlyphs(Combining(t, cps[..n]), cps, w, n, s, b);
      } else {
        WideGlyphs(t, cps, w, 0, s, b);
      }
    }
    hide OnText, Narrow;
  }

  // ---- Controls and escapes ----

  lemma KeptAt(t: Term, p: Pos, s: Setup, b: Claim)
    requires Kept(t, s, b) && InScreen(p, s)
    ensures Kept(t.At(p), s, b)
  {
    hide OpsFit;
  }

  lemma KeptMoved(t: Term, was: Pos, s: Setup, b: Claim)
    requires Kept(t, s, b)
    ensures Kept(t.Moved(was), s, b)
  {
    hide OpsFit;
  }

  lemma SafeCursor(t: Term, s: Setup, b: Claim)
    requires Kept(t, s, b)
    ensures t.pos.row < s.rows && (!b.edge ==> InScreen(t.pos, s)) && t.Width() <= s.cols
  {
  }

  lemma KeptReverseFeed(t: Term, s: Setup, b: Claim)
    requires Kept(t, s, b)
    ensures Kept(Control(t, 0x8d), s, b)
  {
    if t.pos.row == t.region.top {
      KeptScrolling(t, t.RegionRect(), -1, 0, s, b);
    } else {
      hide OpsFit;
    }
  }

  lemma KeptControl(t: Term, c: nat, s: Setup, b: Claim)
    requires Kept(t, s, b) && !b.edge
    ensures Kept(OnControl(t, c), s, b)
  {
    SafeCursor(t, s, b);
    var u := Control(t, c);
    if c == 0x8d {
      KeptReverseFeed(t, s, b);
    } else if 0x0a <= c <= 0x0c || c == 0x84 || c == 0x85 {
      KeptLineFeed(t, s, b);
      hide Kept, LineFeed;
      SafeCursor(LineFeed(t), s, b);
      KeptAt(LineFeed(t), Pos(LineFeed(t).pos.row, 0), s, b);
    } else if c == 0x88 {
      hide OpsFit;
    } else {
      hide Kept, TabRight;
      if c == 0x08 || c == 0x09 || c == 0x0d {
        KeptAt(t, u.pos, s, b);
      }
    }
    hide Control;
    KeptMoved(u, t.pos, s, b);
  }

  lemma KeptRestore(t: Term, s: Setup, b: Claim)
    requires Kept(t, s, b)
    ensures Kept(Restore(t), s, b)
  {
    var u := t.(pos := t.saved.pos, pen := t.saved.pen);
    assert Kept(u, s, b);
    assert Fits(SetPen(t.saved.pen), s.rows, s.cols);
    KeptSay(u, SetPen(t.saved.pen), s, b);
    hide OpsFit;
  }

  lemma KeptSaveOrRestore(t: Term, save: bool, s: Setup, b: Claim)
    requires Kept(t, s, b) && (save ==> t.pos.col < s.cols)
    ensures Kept(SaveOrRestore(t, save), s, b)
  {
    if !save {
      KeptRestore(t, s, b);
    }
    hide OpsFit, Restore;
  }

  lemma KeptToScreen(t: Term, onAlt: bool, s: Setup, b: Claim)
    requires Kept(t, s, b)
    ensures Kept(ToScreen(t, onAlt), s, b)
  {
    var u := ToScreen(t, onAlt);
    var op := u.out[|t.out|];
    assert u.out == t.out + [op];
    assert Fits(op, s.rows, s.cols);
    OpsFitSnoc(t.out, op, s, b);
    hide OpsFit, Uncontinued;
  }

  lemma HomeNear(t: Term, s: Setup)
    requires Safe(t, s)
    ensures Home(t).row < s.rows && Home(t).col <= s.cols
  {
  }

  predicate Saves(mode: nat) { mode == 1048 || mode == 1049 }

  /** A private mode may send the cursor behind the last column, but must not save it there. */
  lemma KeptDecMode(t: Term, mode: nat, on: bool, s: Setup, b: Claim)
    requires Kept(t, s, b) && b.edge && (on && Saves(mode) ==> t.pos.col < s.cols)
    ensures Kept(DecMode(t, mode, on), s, b)
  {
    if mode == 5 {
      assert Fits(SetReverse(on), s.rows, s.cols);
      KeptSay(t, SetReverse(on), s, b);
    } else if mode == 6 {
      HomeNear(t.(modes := t.modes.(origin := on)), s);
      hide OpsFit, Home;
    } else if mode == 69 {
      var u := t.(modes := t.modes.(margins := on));
      assert Kept(u, s, b);
      KeptPlainLines(u, 0, s.rows, s, b);
    } else if mode == 1047 {
      KeptToScreen(t, on, s, b);
    } else if mode == 1048 {
      KeptSaveOrRestore(t, on, s, b);
    } else if mode == 1049 {
      KeptToScreen(t, on, s, b);
      KeptSaveOrRestore(ToScreen(t, on), on, s, b);
    }
    hide OpsFit;
  }

  lemma KeptSoftReset(t: Term, s: Setup, b: Claim)
    requires Kept(t, s, b)
    ensures Kept(SoftReset(t), s, b)
  {
    var pen := S.Reset(s.defaults);
    var u := t.(region := FULL_REGION, modes := INITIAL_MODES, tabs := Tabs(s.cols), isProtected := false, pen := pen);
    assert Kept(u, s, b) by {
      hide OpsFit;
    }
    hide OpsFit, PlainLines, Safe;
    KeptPlainLines(u, 0, s.rows, s, b);
    assert Fits(SetPen(pen), s.rows, s.cols);
    KeptSay(PlainLines(u, 0, s.rows), SetPen(pen), s, b);
  }

  lemma KeptHardReset(t: Term, s: Setup, b: Claim)
    requires Kept(t, s, b)
    ensures Kept(HardReset(t), s, b)
  {
    KeptSoftReset(t, s, b);
    hide SoftReset, OpsFit;
    var u := SoftReset(t).(pos := Pos(0, 0), phantom := false);
    assert Kept(u, s, b);
    KeptErasing(u, Rect(0, s.rows, 0, s.cols), false, s, b);
  }

  lemma {:induction false} KeptAligned(t: Term, row: nat, col: nat, s: Setup, b: Claim)
    requires Kept(t, s, b) && row <= s.rows && col <= s.cols && (row == s.rows ==> col == 0)
    ensures Kept(Aligned(t, row, col), s, b)
    decreases row, col
  {
    if col > 0 {
      KeptAligned(t, row, col - 1, s, b);
      hide Aligned, OpsFit;
      KeptPut(Aligned(t, row, col - 1), ['E' as nat], 1, Pos(row, col - 1), s, b);
    } else if row > 0 {
      KeptAligned(t, row - 1, t.RowWidth(row - 1), s, b);
    }
  }

  lemma KeptEscape(t: Term, bytes: seq<nat>, s: Setup, b: Claim)
    requires Kept(t, s, b) && !b.edge
    ensures Kept(OnEscape(t, bytes), s, b)
  {
    KeptAligned(t, s.rows, 0, s, b);
    KeptLining(t, t.pos.row, true, 1, s, b);
    KeptLining(t, t.pos.row, true, 2, s, b);
    KeptLining(t, t.pos.row, false, 0, s, b);
    KeptLining(t, t.pos.row, true, 0, s, b);
    KeptRestore(t, s, b);
    KeptHardReset(t, s, b);
    hide OpsFit, Aligned, Lining, Restore, HardReset;
  }

  // ---- Control sequences ----

  /** Wherever the cursor is asked to go, it ends up inside the screen. */
  lemma IntoScreen(t: Term, row: int, col: int, s: Setup)
    requires Safe(t, s)
    ensures InScreen(Into(t, row, col), s)
    ensures t.modes.origin ==> var p := Into(t, row, col);
      t.region.top <= p.row < t.Bottom() && p.col < t.Right() && (t.region.left < s.cols ==> t.Left() <= p.col)
  {
  }

  lemma KeptMoving(t: Term, k: int, args: seq<nat>, s: Setup, b: Claim)
    requires Kept(t, s, b)
    ensures Kept(Moving(t, k, args), s, b)
  {
    IntoScreen(t, AskedRow(t, k, args), AskedCol(t, k, args), s);
    hide OpsFit, Into, AskedRow, AskedCol;
  }

  lemma ScrolledNear(t: Term, k: int, s: Setup)
    requires Safe(t, s) && Scrolls(k) && (k == 0x53 || k == 0x54 || t.InRegion())
    ensures var rect := ScrolledRect(t, k); Near(rect, s) && rect.startRow < rect.endRow
  {
  }

  lemma KeptScrollSequence(t: Term, k: int, args: seq<nat>, s: Setup, b: Claim)
    requires Kept(t, s, b) && Scrolls(k)
    ensures Kept(ScrollSequence(t, k, args), s, b)
  {
    var n := Count(args);
    if k == 0x53 || k == 0x54 || t.InRegion() {
      ScrolledNear(t, k, s);
      assert Downward(k, n) == 0 || Rightward(k, n) == 0;
      hide Safe, OpsFit, ScrolledRect, Downward, Rightward, Near;
      KeptScrolling(t, ScrolledRect(t, k), Downward(k, n), Rightward(k, n), s, b);
    }
  }

  lemma NearRow(row: nat, from: nat, upto: nat, s: Setup)
    requires row < s.rows && from <= s.cols && upto <= s.cols
    ensures Near(Rect(row, row + 1, from, upto), s)
  {
  }

  lemma KeptEraseIf(t: Term, does: bool, rect: Rect, selective: bool, s: Setup, b: Claim)
    requires Kept(t, s, b) && (does ==> Near(rect, s) && (b.strict ==> rect.startRow < rect.endRow))
    ensures Kept(EraseIf(t, does, rect, selective), s, b)
  {
    hide Kept;
    if does {
      KeptErasing(t, rect, selective, s, b);
    }
  }

  lemma KeptEraseFrom(t: Term, row: nat, col: nat, selective: bool, s: Setup, b: Claim)
    requires Kept(t, s, b) && row < s.rows && col < s.cols
    ensures Kept(EraseFrom(t, row, col, selective), s, b)
  {
    NearRow(row, col, s.cols, s);
    assert Near(Rect(row + 1, s.rows, 0, s.cols), s) && t.setup == s;
    hide Kept, EraseIf, PlainLines, Near;
    KeptEraseIf(t, col < s.cols, Rect(row, row + 1, col, s.cols), selective, s, b);
    var u := EraseIf(t, col < s.cols, Rect(row, row + 1, col, s.cols), selective);
    KeptPlainLines(u, row + 1, s.rows, s, b);
    KeptEraseIf(PlainLines(u, row + 1, s.rows), row + 1 < s.rows, Rect(row + 1, s.rows, 0, s.cols), selective, s, b);
  }

  lemma KeptEraseBelow(t: Term, selective: bool, s: Setup, b: Claim)
    requires Kept(t, s, b) && !b.edge
    ensures Kept(EraseBelow(t, selective), s, b)
  {
    SafeCursor(t, s, b);
    hide Kept, EraseFrom;
    KeptEraseFrom(t, t.pos.row, t.pos.col, selective, s, b);
  }

  lemma KeptEraseUpto(t: Term, row: nat, col: nat, selective: bool, s: Setup, b: Claim)
    requires Kept(t, s, b) && row < s.rows && col < s.cols && (b.strict ==> row > 0)
    ensures Kept(EraseUpto(t, row, col, selective), s, b)
  {
    NearRow(row, 0, col + 1, s);
    assert Near(Rect(0, row, 0, s.cols), s) && t.setup == s;
    hide Kept, EraseIf, PlainLines, Near;
    KeptPlainLines(t, 0, row, s, b);
    KeptEraseIf(PlainLines(t, 0, row), s.cols > 0, Rect(0, row, 0, s.cols), selective, s, b);
    KeptErasing(EraseIf(PlainLines(t, 0, row), s.cols > 0, Rect(0, row, 0, s.cols), selective),
                Rect(row, row + 1, 0, col + 1), selective, s, b);
  }

  lemma KeptEraseAbove(t: Term, selective: bool, s: Setup, b: Claim)
    requires Kept(t, s, b) && !b.edge && (b.strict ==> t.pos.row > 0)
    ensures Kept(EraseAbove(t, selective), s, b)
  {
    SafeCursor(t, s, b);
    hide Kept, EraseUpto;
    KeptEraseUpto(t, t.pos.row, t.pos.col, selective, s, b);
  }

  lemma KeptEraseDisplay(t: Term, what: nat, selective: bool, s: Setup, b: Claim)
    requires Kept(t, s, b) && !b.edge && (b.strict && what == 1 ==> t.pos.row > 0)
    ensures Kept(EraseDisplay(t, what, selective), s, b)
  {
    assert t.setup == s;
    hide Kept, EraseBelow, EraseAbove, PlainLines, Erasing;
    KeptEraseBelow(t, selective, s, b);
    if what == 1 {
      KeptEraseAbove(t, selective, s, b);
    }
    KeptPlainLines(t, 0, s.rows, s, b);
    KeptErasing(PlainLines(t, 0, s.rows), Rect(0, s.rows, 0, s.cols), selective, s, b);
  }

  lemma KeptEraseLine(t: Term, what: nat, selective: bool, s: Setup, b: Claim)
    requires Kept(t, s, b) && !b.edge
    ensures Kept(EraseLine(t, what, selective), s, b)
  {
    SafeCursor(t, s, b);
    var from := if what == MISSING || what == 0 then t.pos.col else 0;
    var upto := if what == 1 then t.pos.col + 1 else t.Width();
    assert t.pos.row < s.rows && from <= s.cols && upto <= s.cols;
    assert EraseLine(t, what, selective) ==
      EraseIf(t, from < upto, Rect(t.pos.row, t.pos.row + 1, from, upto), selective);
    hide Kept, EraseIf, InScreen, Term.Width, EraseLine;
    KeptErasePart(t, from, upto, selective, s, b);
  }

  lemma KeptErasePart(t: Term, from: nat, upto: nat, selective: bool, s: Setup, b: Claim)
    requires Kept(t, s, b) && from <= s.cols && upto <= s.cols && t.pos.row < s.rows
    ensures Kept(EraseIf(t, from < upto, Rect(t.pos.row, t.pos.row + 1, from, upto), selective), s, b)
  {
    NearRow(t.pos.row, from, upto, s);
    hide Kept, EraseIf, Near;
    KeptEraseIf(t, from < upto, Rect(t.pos.row, t.pos.row + 1, from, upto), selective, s, b);
  }

  lemma KeptEraseChars(t: Term, end: nat, s: Setup, b: Claim)
    requires Kept(t, s, b) && !b.edge
    ensures Kept(Erasing(t, Rect(t.pos.row, t.pos.row + 1, t.pos.col,
                                 if end > t.Width() then t.Width() else end), false), s, b)
  {
    SafeCursor(t, s, b);
    var upto := if end > t.Width() then t.Width() else end;
    NearRow(t.pos.row, t.pos.col, upto, s);
    hide Kept, Erasing, Near, InScreen;
    KeptErasing(t, Rect(t.pos.row, t.pos.row + 1, t.pos.col, upto), false, s, b);
  }

  /** Erasing above the cursor on the first row: the rows above it are none. */
  predicate Hollows(t: Term, k: int, args: seq<nat>) {
    (k == 0x4a || k == 0x3f4a) && Param(args, 0) == 1 && t.pos.row == 0
  }

  lemma KeptEraseSequence(t: Term, k: int, args: seq<nat>, s: Setup, b: Claim)
    requires Kept(t, s, b) && !b.edge && (b.strict ==> !Hollows(t, k, args))
    ensures Kept(EraseSequence(t, k, args), s, b)
  {
    hide Kept, EraseLine, EraseDisplay, Erasing, Param;
    if k == 0x4a || k == 0x3f4a {
      KeptEraseDisplay(t, Param(args, 0), k == 0x3f4a || k == 0x3f4b, s, b);
    } else if k == 0x4b || k == 0x3f4b {
      KeptEraseLine(t, Param(args, 0), k == 0x3f4a || k == 0x3f4b, s, b);
    } else {
      KeptEraseChars(t, t.pos.col + Count(args), s, b);
    }
  }

  lemma KeptTopBottom(t: Term, args: seq<nat>, s: Setup, b: Claim)
    requires Kept(t, s, b) && b.edge
    ensures Kept(SetTopBottom(t, args), s, b)
  {
    hide OpsFit;
    assert First(args) >= -1 && Second(args) >= -1;
    hide First, Second;
    var u := SetTopBottom(t, args).(pos := t.pos);
    assert RegionNear(u.region, s) && u.region.left == t.region.left;
    HomeNear(u, s);
  }

  /** Whether DECSLRM asks for a left margin beyond the screen and for no right margin. */
  predicate LeftBeyond(args: seq<nat>, cols: nat) { First(args) >= cols && Second(args) == -1 }

  /** DECSLRM leaves a proper region if and only if it does not ask for that; and then the left
      margin is the column behind the last. */
  lemma LeftRightSafe(t: Term, args: seq<nat>, s: Setup)
    requires Safe(t, s)
    ensures RegionOk(SetLeftRight(t, args).region, s) <==> !LeftBeyond(args, s.cols)
    ensures LeftBeyond(args, s.cols) ==> SetLeftRight(t, args).region.left == s.cols
    ensures RegionNear(SetLeftRight(t, args).region, s)
  {
    assert First(args) >= -1 && Second(args) >= -1;
    hide First, Second;
  }

  lemma KeptLeftRight(t: Term, args: seq<nat>, s: Setup, b: Claim)
    requires Kept(t, s, b) && b.edge && (b.proper ==> !LeftBeyond(args, s.cols))
    ensures Kept(SetLeftRight(t, args), s, b)
  {
    LeftRightSafe(t, args, s);
    hide OpsFit, LeftBeyond;
    var u := SetLeftRight(t, args).(pos := t.pos);
    assert Safe(u, s);
    HomeNear(u, s);
    assert SetLeftRight(t, args) == u.At(Home(u));
  }

  // ---- Where a save may come ----

  /** Whether the margins are in force once these private modes have been set. */
  predicate MarginsOn(t: Term, args: seq<nat>) {
    if args == [] then t.modes.margins
    else MarginsOn(t, args[..|args| - 1]) || S.Arg(args[|args| - 1]) == 69
  }

  /** Whether they send the cursor to a left margin behind the last column: origin mode, with
      margins in force, and the left one there. */
  predicate HomesBeyond(t: Term, args: seq<nat>, cols: nat) {
    args != [] &&
    var n := |args| - 1;
    HomesBeyond(t, args[..n], cols)
    || (S.Arg(args[n]) == 6 && MarginsOn(t, args[..n]) && t.region.left == cols)
  }

  /** Whether one of them then saves the cursor. */
  predicate SavesBeyond(t: Term, args: seq<nat>, cols: nat) {
    args != [] &&
    var n := |args| - 1;
    SavesBeyond(t, args[..n], cols) || (Saves(S.Arg(args[n])) && HomesBeyond(t, args[..n], cols))
  }

  lemma DecModeHomes(t: Term, mode: nat)
    ensures var u := DecMode(t, mode, true);
      && u.setup == t.setup && u.region == t.region && u.modes.margins == (t.modes.margins || mode == 69)
      && u.pos == (if mode == 6 then Pos(t.region.top, if t.modes.margins then t.region.left else 0) else t.pos)
      && u.saved.pos == if Saves(mode) then t.pos else t.saved.pos
  {
    if mode == 69 {
      PlainLinesKeep(t.(modes := t.modes.(margins := true)), 0, t.setup.rows);
      hide PlainLines;
    } else if mode == 1047 || Saves(mode) {
      assert ToScreen(t, true).pos == t.pos && ToScreen(t, true).saved == t.saved && ToScreen(t, true).modes == t.modes
        && ToScreen(t, true).region == t.region && ToScreen(t, true).setup == t.setup;
      hide ToScreen, Home;
    } else {
      hide ToScreen, PlainLines, Restore, Save;
    }
  }

  /** Setting private modes: where the cursor comes to stand, and where it is saved. */
  lemma {:induction false} DecModesHome(t: Term, args: seq<nat>, s: Setup)
    requires Safe(t, s) && t.pos.col < s.cols
    ensures var u := DecModes(t, args, true);
      && u.region == t.region && u.modes.margins == MarginsOn(t, args)
      && (HomesBeyond(t, args, s.cols) ==> MarginsOn(t, args) && t.region.left == s.cols)
      && (if HomesBeyond(t, args, s.cols) then u.pos.col == s.cols else u.pos.col < s.cols)
      && (if SavesBeyond(t, args, s.cols) then u.saved.pos.col == s.cols && HomesBeyond(t, args, s.cols)
          else u.saved.pos.col < s.cols)
  {
    if args != [] {
      var n := |args| - 1;
      DecModesHome(t, args[..n], s);
      hide DecMode;
      var a := S.Arg(args[n]);
      if a != MISSING {
        DecModeHomes(DecModes(t, args[..n], true), a);
      }
    }
  }

  lemma {:induction false} KeptDecModes(t: Term, args: seq<nat>, on: bool, s: Setup, b: Claim)
    requires Kept(t, s, b) && b.edge && t.pos.col < s.cols && (on ==> !SavesBeyond(t, args, s.cols))
    ensures Kept(DecModes(t, args, on), s, b)
  {
    if args != [] {
      var n := |args| - 1;
      DecModesHome(t, args[..n], s);
      hide Kept, DecMode;
      KeptDecModes(t, args[..n], on, s, b);
      var a := S.Arg(args[n]);
      if a != MISSING {
        KeptDecMode(DecModes(t, args[..n], on), a, on, s, b);
      }
    }
  }

  lemma KeptPen(t: Term, pen: Pen, s: Setup, b: Claim)
    requires Kept(t, s, b)
    ensures Kept(t.(pen := pen).Say(SetPen(pen)), s, b)
  {
    var u := t.(pen := pen);
    assert Kept(u, s, b) && Fits(SetPen(pen), s.rows, s.cols);
    KeptSay(u, SetPen(pen), s, b);
    hide OpsFit;
  }

  lemma KeptPlain(t: Term, tabs: seq<bool>, isProtected: bool, modes: Modes, s: Setup, b: Claim)
    requires Kept(t, s, b) && |tabs| == s.cols
    ensures Kept(t.(tabs := tabs), s, b) && Kept(t.(isProtected := isProtected), s, b) && Kept(t.(modes := modes), s, b)
  {
    hide OpsFit;
  }

  lemma KeptOther(t: Term, k: int, args: seq<nat>, s: Setup, b: Claim)
    requires Kept(t, s, b) && b.edge && t.pos.col < s.cols
    requires k == 0x73 && b.proper ==> !LeftBeyond(args, s.cols)
    requires k == 0x3f68 ==> !SavesBeyond(t, args, s.cols)
    ensures Kept(OtherSequence(t, k, args), s, b)
  {
    var u := OtherSequence(t, k, args);
    assert |t.tabs| == s.cols && t.setup == s;
    hide Kept, LeftBeyond, SavesBeyond, SetLeftRight, SetTopBottom, SoftReset, S.SetPen, Baseline, Param;
    if k == 0x67 {
      KeptPlain(t, u.tabs, t.isProtected, t.modes, s, b);
    } else if k == 0x68 || k == 0x6c {
      KeptPlain(t, t.tabs, t.isProtected, u.modes, s, b);
    } else if k == 0x3f68 || k == 0x3f6c {
      KeptDecModes(t, args, k == 0x3f68, s, b);
    } else if k == 0x6d || k == 0x3f6d {
      KeptPen(t, u.pen, s, b);
    } else if k == 0x210070 {
      KeptSoftReset(t, s, b);
    } else if k == 0x220071 {
      KeptPlain(t, t.tabs, u.isProtected, t.modes, s, b);
    } else if k == 0x72 {
      KeptTopBottom(t, args, s, b);
    } else if k == 0x73 {
      KeptLeftRight(t, args, s, b);
    }
  }

  // ---- Repeating the last glyph ----

  /** There is nothing to fill, or the last glyph has a width and its copies end on the screen. */
  predicate RepeatOk(t: Term, args: seq<nat>) {
    var target := RepeatTarget(t, args);
    t.pos.col >= target || (t.last.width > 0 && RepeatEnd(t.pos.col, target, t.last.width) <= t.setup.cols)
  }

  lemma RepeatedOnlyAsks(t: Term, col: nat, target: nat)
    ensures Repeated(t, col, target) == t.(out := Repeated(t, col, target).out)
    decreases target - col
  {
    if col < target && t.last.width > 0 {
      RepeatedOnlyAsks(Put(t, t.last.chars, t.last.width, Pos(t.pos.row, col)), col + t.last.width, target);
    }
  }

  lemma {:induction false} KeptRepeated(t: Term, col: nat, target: nat, s: Setup, b: Claim)
    requires Kept(t, s, b)
    requires b.fits ==> target <= s.cols
    requires b.fits && col < target ==> t.last.width > 0 && RepeatEnd(col, target, t.last.width) <= s.cols
    ensures Kept(Repeated(t, col, target), s, b)
    decreases target - col
  {
    if col < target && t.last.width > 0 {
      hide OpsFit;
      KeptPut(t, t.last.chars, t.last.width, Pos(t.pos.row, col), s, b);
      KeptRepeated(Put(t, t.last.chars, t.last.width, Pos(t.pos.row, col)), col + t.last.width, target, s, b);
    }
  }

  lemma KeptRepeating(t: Term, args: seq<nat>, s: Setup, b: Claim)
    requires Kept(t, s, b) && !b.edge && (b.fits ==> RepeatOk(t, args))
    ensures Kept(Repeating(t, args), s, b)
  {
    var target := RepeatTarget(t, args);
    SafeCursor(t, s, b);
    assert target <= s.cols && t.setup == s;
    hide OpsFit, Into, RepeatTarget;
    KeptRepeated(t, t.pos.col, target, s, b);
    RepeatedOnlyAsks(t, t.pos.col, target);
    var u, end := Repeated(t, t.pos.col, target), RepeatedTo(t, target);
    IntoScreen(u, t.pos.row, end, s);
    hide Repeated, RepeatedTo;
    KeptAt(u, Into(u, t.pos.row, end), s, b);
  }

  /** The copies go past the screen, and the last of them does not fit. */
  lemma {:induction false} RepeatedBeyond(t: Term, col: nat, target: nat, s: Setup, b: Claim)
    requires t.last.width > 0 && col < target && RepeatEnd(col, target, t.last.width) > s.cols
    requires b.fits && b.base <= t.out
    ensures !OpsFit(Repeated(t, col, target).out, s, b)
    decreases target - col
  {
    var u := Put(t, t.last.chars, t.last.width, Pos(t.pos.row, col));
    if col + t.last.width < target {
      RepeatedBeyond(u, col + t.last.width, target, s, b);
    } else {
      assert Repeated(u, col + t.last.width, target) == u;
      assert !Fitting(u.out[|t.out|], s, b.strict);
    }
  }

  /** Repeating a glyph that has a width asks only for what fits if and only if the copies end
      on the screen. */
  lemma RepeatFits(t: Term, args: seq<nat>, s: Setup, b: Claim)
    requires Kept(t, s, b) && !b.edge && b.fits && t.last.width > 0
    ensures OpsFit(Repeating(t, args).out, s, b) <==> RepeatOk(t, args)
  {
    if RepeatOk(t, args) {
      KeptRepeating(t, args, s, b);
    } else {
      RepeatedBeyond(t, t.pos.col, RepeatTarget(t, args), s, b);
    }
    hide OpsFit, Into, Repeated, RepeatEnd, RepeatTarget;
  }

  /** One more copy of a glyph of two columns, with the cursor on the last column. */
  lemma RepeatOverhangs(t: Term)
    requires t.last.width == 2 && t.pos.col + 1 == t.Width() == t.setup.cols
    ensures !RepeatOk(t, [1]) && RepeatedTo(t, RepeatTarget(t, [1])) == t.setup.cols + 1
  {
    SmallParam([1], 0);
    hide Param, Term.Width;
    assert RepeatTarget(t, [1]) == t.setup.cols;
  }

  lemma KeptForgetting(t: Term, s: Setup, b: Claim)
    requires Kept(t, s, b)
    ensures Kept(t.Say(ClearHistory), s, b)
  {
    assert Fits(ClearHistory, s.rows, s.cols);
    KeptSay(t, ClearHistory, s, b);
  }

  lemma KeptSequence(t: Term, k: int, args: seq<nat>, s: Setup, b: Claim)
    requires Kept(t, s, b) && !b.edge
    requires k == 0x73 && b.proper ==> !LeftBeyond(args, s.cols)
    requires k == 0x3f68 ==> !SavesBeyond(t, args, s.cols)
    requires b.strict ==> !Hollows(t, k, args)
    ensures Kept(Sequence(t, k, args), s, AtEdge(b))
  {
    SafeCursor(t, s, b);
    KeptEdge(t, s, b);
    hide Kept, LeftBeyond, SavesBeyond, Hollows, ScrollSequence, EraseSequence, OtherSequence, Scrolls, Erases;
    if Scrolls(k) {
      KeptScrollSequence(t, k, args, s, AtEdge(b));
    } else if Erases(k) {
      KeptEraseSequence(t, k, args, s, b);
      KeptEdge(EraseSequence(t, k, args), s, b);
    } else {
      KeptOther(t, k, args, s, AtEdge(b));
    }
  }

  lemma KeptCsi(t: Term, leader: seq<nat>, args: seq<nat>, intermed: seq<nat>, final: nat, s: Setup, b: Claim)
    requires Kept(t, s, b) && !b.edge
    requires Code(leader, intermed, final) == 0x73 && b.proper ==> !LeftBeyond(args, s.cols)
    requires Code(leader, intermed, final) == 0x3f68 ==> !SavesBeyond(t, args, s.cols)
    requires Code(leader, intermed, final) == 0x62 && b.fits ==> RepeatOk(t, args)
    requires b.strict ==> !Hollows(t, Code(leader, intermed, final), args)
    ensures Kept(OnCsi(t, leader, args, intermed, final), s, b)
  {
    var k := Code(leader, intermed, final);
    hide Code, LeftBeyond, SavesBeyond, Moving, Sequence, Kept, Into, Ignored, Moves, Repeating, RepeatOk, Forgets, Hollows;
    if Forgets(k, args) {
      KeptForgetting(t, s, b);
    } else if k == 0x62 {
      KeptRepeating(t, args, s, b);
    } else if Moves(k) {
      KeptMoving(t, k, args, s, b);
      KeptMoved(Moving(t, k, args), t.pos, s, b);
    } else {
      KeptSequence(t, k, args, s, b);
      var u := Sequence(t, k, args);
      KeptBrought(u, s, b);
      KeptMoved(u.At(Into(u, u.pos.row, u.pos.col)), t.pos, s, b);
    }
  }

  /** The cursor is brought back into the screen at the end of a sequence. */
  lemma KeptBrought(t: Term, s: Setup, b: Claim)
    requires Kept(t, s, AtEdge(b))
    ensures Kept(t.At(Into(t, t.pos.row, t.pos.col)), s, b)
  {
    IntoScreen(t, t.pos.row, t.pos.col, s);
    hide Into;
    KeptAt(t, Into(t, t.pos.row, t.pos.col), s, AtEdge(b));
    hide Kept;
    KeptInside(t.At(Into(t, t.pos.row, t.pos.col)), s, b);
  }

  // ---- Whole runs ----

  /** What the parser hands on: decoded text, controls, escapes and control sequences. */
  datatype Event =
    | Text(cps: seq<nat>)
    | Ctrl(c: nat)
    | Esc(bytes: seq<nat>)
    | Csi(leader: seq<nat>, args: seq<nat>, intermed: seq<nat>, final: nat)

  function Handle(t: Term, e: Event, w: Widths): Term {
    match e
    case Text(cps) => OnText(t, cps, w)
    case Ctrl(c) => OnControl(t, c)
    case Esc(bytes) => OnEscape(t, bytes)
    case Csi(leader, args, intermed, final) => OnCsi(t, leader, args, intermed, final)
  }

  function Run(t: Term, events: seq<Event>, w: Widths): Term {
    if events == [] then t else Handle(Run(t, events[..|events| - 1], w), events[|events| - 1], w)
  }

  /** A text of glyphs that fit on a row, and a repetition that ends on the screen. */
  ghost predicate Fine(t: Term, e: Event, w: Widths, cols: nat) {
    match e
    case Text(cps) => Narrow(cps, w, TextStart(t, cps, w), cols)
    case Csi(leader, args, intermed, final) => Code(leader, intermed, final) == 0x62 ==> RepeatOk(t, args)
    case _ => true
  }

  /** DECSLRM with a left margin beyond the screen and no right one. */
  predicate Overreaches(e: Event, cols: nat) {
    e.Csi? && Code(e.leader, e.intermed, e.final) == 0x73 && LeftBeyond(e.args, cols)
  }

  /** DECSET that saves the cursor behind the last column. */
  predicate Strays(t: Term, e: Event, cols: nat) {
    e.Csi? && Code(e.leader, e.intermed, e.final) == 0x3f68 && SavesBeyond(t, e.args, cols)
  }

  /** What an event must not do for a claim to be kept. */
  ghost predicate Admits(b: Claim, t: Term, e: Event, w: Widths, cols: nat) {
    && (b.fits ==> Fine(t, e, w, cols)) && (b.proper ==> !Overreaches(e, cols)) && !Strays(t, e, cols)
    && (b.strict ==> !HollowEvent(t, e))
  }

  ghost predicate AdmitsAt(b: Claim, t: Term, events: seq<Event>, k: int, w: Widths, cols: nat)
    requires 0 <= k < |events|
  {
    Admits(b, Run(t, events[..k], w), events[k], w, cols)
  }

  ghost predicate AllAdmitted(b: Claim, t: Term, events: seq<Event>, w: Widths, cols: nat) {
    forall k :: 0 <= k < |events| ==> AdmitsAt(b, t, events, k, w, cols)
  }

  ghost predicate Tame(t: Term, e: Event, w: Widths, cols: nat) { Admits(ANY, t, e, w, cols) }

  ghost predicate AllTame(t: Term, events: seq<Event>, w: Widths, cols: nat) { AllAdmitted(ANY, t, events, w, cols) }

  lemma AdmittedUpto(b: Claim, t: Term, events: seq<Event>, k: nat, w: Widths, cols: nat)
    requires AllAdmitted(b, t, events, w, cols) && k <= |events|
    ensures AllAdmitted(b, t, events[..k], w, cols)
    ensures k < |events| ==> Admits(b, Run(t, events[..k], w), events[k], w, cols)
  {
    hide Admits, Run;
    forall i | 0 <= i < k ensures AdmitsAt(b, t, events[..k], i, w, cols) {
      assert events[..k][..i] == events[..i] && AdmitsAt(b, t, events, i, w, cols);
    }
    assert k < |events| ==> AdmitsAt(b, t, events, k, w, cols);
  }

  /** The event erases above the cursor on the first row. */
  predicate HollowEvent(t: Term, e: Event) {
    e.Csi? && Hollows(t, Code(e.leader, e.intermed, e.final), e.args)
  }

  lemma KeptEvent(t: Term, e: Event, w: Widths, s: Setup, b: Claim)
    requires Kept(t, s, b) && !b.edge && Admits(b, t, e, w, s.cols)
    ensures Kept(Handle(t, e, w), s, b)
  {
    hide Kept, Narrow, LeftBeyond, SavesBeyond, OnText, OnControl, OnEscape, OnCsi, RepeatOk, Hollows, Code;
    match e
    case Text(cps) => KeptText(t, cps, w, s, b);
    case Ctrl(c) => KeptControl(t, c, s, b);
    case Esc(bytes) => KeptEscape(t, bytes, s, b);
    case Csi(leader, args, intermed, final) => KeptCsi(t, leader, args, intermed, final, s, b);
  }

  lemma KeptFresh(s: Setup, b: Claim)
    requires s.rows >= 1 && s.cols >= 2 && b.base == []
    ensures Kept(Fresh(s), s, b)
  {
    var lines := seq(s.rows, _ => NO_INFO);
    var t := Term(s, Pos(0, 0), false, FULL_REGION, INITIAL_MODES, Tabs(s.cols), lines, lines, false,
                  Last([], 0, Pos(0, 0)), false, ZERO_PEN, Saved(Pos(0, 0), ZERO_PEN), []);
    assert Kept(t, s, b);
    KeptHardReset(t, s, b);
  }

  lemma {:induction false} RunKeeps(t: Term, events: seq<Event>, w: Widths, s: Setup, b: Claim)
    requires Kept(t, s, b) && !b.edge && AllAdmitted(b, t, events, w, s.cols)
    ensures Kept(Run(t, events, w), s, b)
  {
    hide Kept, Admits, Handle, AllAdmitted;
    if events != [] {
      var n := |events| - 1;
      AdmittedUpto(b, t, events, n, w, s.cols);
      RunKeeps(t, events[..n], w, s, b);
      KeptEvent(Run(t, events[..n], w), events[n], w, s, b);
    }
  }

  /** Over any run of a fresh terminal: the live and the saved cursor stay inside the screen,
      the region stays proper or has its left margin right behind the last column, and every
      request to the screen fits it. */
  lemma RunKept(s: Setup, events: seq<Event>, w: Widths)
    requires s.rows >= 1 && s.cols >= 2 && AllTame(Fresh(s), events, w, s.cols)
    ensures Kept(Run(Fresh(s), events, w), s, ANY)
  {
    KeptFresh(s, ANY);
    hide Kept, Fresh, AllAdmitted, Run;
    RunKeeps(Fresh(s), events, w, s, ANY);
  }

  // ---- When the cursors stay inside the screen ----

  const CURSORS := Claim([], false, false, false, false)

  predicate CursorsIn(t: Term, s: Setup) { InScreen(t.pos, s) && InScreen(t.saved.pos, s) }

  /** One event, whatever it asks for: both cursors are inside the screen afterwards if and only
      if it does not stray. */
  lemma EventCursors(t: Term, e: Event, w: Widths, s: Setup)
    requires Kept(t, s, CURSORS)
    ensures CursorsIn(Handle(t, e, w), s) <==> !Strays(t, e, s.cols)
    ensures !Strays(t, e, s.cols) ==> Kept(Handle(t, e, w), s, CURSORS)
  {
    if Strays(t, e, s.cols) {
      StraySaved(t, e, w, s);
    } else {
      KeptEvent(t, e, w, s, CURSORS);
      assert Safe(Handle(t, e, w), s) && Claimed(Handle(t, e, w), s, CURSORS);
    }
    hide Strays, Handle;
  }

  lemma StraySaved(t: Term, e: Event, w: Widths, s: Setup)
    requires Kept(t, s, CURSORS) && Strays(t, e, s.cols)
    ensures Handle(t, e, w).saved.pos.col == s.cols
  {
    DecModesHome(t, e.args, s);
    hide Code, SavesBeyond, HomesBeyond, DecModes, Into, Param;
  }

  ghost predicate CursorsAt(s: Setup, events: seq<Event>, k: int, w: Widths)
    requires 0 <= k <= |events|
  {
    CursorsIn(Run(Fresh(s), events[..k], w), s)
  }

  ghost predicate StraysAt(s: Setup, events: seq<Event>, k: int, w: Widths)
    requires 0 <= k < |events|
  {
    Strays(Run(Fresh(s), events[..k], w), events[k], s.cols)
  }

  ghost predicate CursorsStay(s: Setup, events: seq<Event>, w: Widths) {
    forall k :: 0 <= k <= |events| ==> CursorsAt(s, events, k, w)
  }

  ghost predicate NoneStrays(s: Setup, events: seq<Event>, w: Widths) {
    forall k :: 0 <= k < |events| ==> !StraysAt(s, events, k, w)
  }

  lemma PrefixOfInit(s: Setup, events: seq<Event>, k: nat, w: Widths)
    requires k < |events|
    ensures CursorsAt(s, events[..|events| - 1], k, w) <==> CursorsAt(s, events, k, w)
    ensures RegionAt(s, events[..|events| - 1], k, w) <==> RegionAt(s, events, k, w)
    ensures k < |events| - 1 ==> (StraysAt(s, events[..|events| - 1], k, w) <==> StraysAt(s, events, k, w))
  {
    assert events[..|events| - 1][..k] == events[..k];
    hide Run, Fresh, CursorsIn, Strays, RegionOk;
  }

  lemma CursorsStayInit(s: Setup, events: seq<Event>, w: Widths)
    requires events != []
    ensures CursorsStay(s, events, w) <==>
      CursorsStay(s, events[..|events| - 1], w) && CursorsAt(s, events, |events|, w)
  {
    hide CursorsAt;
    var init := events[..|events| - 1];
    forall k | 0 <= k < |events| ensures CursorsAt(s, init, k, w) <==> CursorsAt(s, events, k, w) {
      PrefixOfInit(s, events, k, w);
    }
    if CursorsStay(s, events, w) {
      assert CursorsAt(s, events, |events|, w);
      forall k | 0 <= k <= |init| ensures CursorsAt(s, init, k, w) {
        assert CursorsAt(s, events, k, w);
      }
    } else if CursorsAt(s, events, |events|, w) {
      var k :| 0 <= k <= |events| && !CursorsAt(s, events, k, w);
      assert !CursorsAt(s, init, k, w);
    }
  }

  lemma NoneStraysInit(s: Setup, events: seq<Event>, w: Widths)
    requires events != []
    ensures NoneStrays(s, events, w) <==>
      NoneStrays(s, events[..|events| - 1], w) && !StraysAt(s, events, |events| - 1, w)
  {
    hide StraysAt;
    var init := events[..|events| - 1];
    forall k | 0 <= k < |init| ensures StraysAt(s, init, k, w) <==> StraysAt(s, events, k, w) {
      PrefixOfInit(s, events, k, w);
    }
    if NoneStrays(s, events, w) {
      forall k | 0 <= k < |init| ensures !StraysAt(s, init, k, w) {
        assert !StraysAt(s, events, k, w);
      }
    } else {
      var k :| 0 <= k < |events| && StraysAt(s, events, k, w);
      if k < |init| {
        assert StraysAt(s, init, k, w);
      }
    }
  }

  lemma LastCursors(s: Setup, events: seq<Event>, w: Widths)
    requires events != [] && Kept(Run(Fresh(s), events[..|events| - 1], w), s, CURSORS)
    ensures CursorsAt(s, events, |events|, w) <==> !StraysAt(s, events, |events| - 1, w)
    ensures CursorsAt(s, events, |events|, w) ==> Kept(Run(Fresh(s), events, w), s, CURSORS)
  {
    var n := |events| - 1;
    assert events[..|events|] == events;
    assert Run(Fresh(s), events, w) == Handle(Run(Fresh(s), events[..n], w), events[n], w);
    hide Kept, Fresh, Run, Handle, CursorsIn, Strays;
    EventCursors(Run(Fresh(s), events[..n], w), events[n], w, s);
  }

  /** Over any run of a fresh terminal, of any events: the live and the saved cursor are inside
      the screen at every point if and only if no event strays. */
  lemma {:induction false} CursorsSafe(s: Setup, events: seq<Event>, w: Widths)
    requires s.rows >= 1 && s.cols >= 2
    ensures CursorsStay(s, events, w) <==> NoneStrays(s, events, w)
    ensures CursorsStay(s, events, w) ==> Kept(Run(Fresh(s), events, w), s, CURSORS)
  {
    if events == [] {
      KeptFresh(s, CURSORS);
      hide Fresh;
    } else {
      hide Kept, Fresh, Run, CursorsAt, StraysAt, CursorsStay, NoneStrays;
      CursorsStayInit(s, events, w);
      NoneStraysInit(s, events, w);
      CursorsSafe(s, events[..|events| - 1], w);
      if CursorsStay(s, events[..|events| - 1], w) {
        LastCursors(s, events, w);
      }
    }
  }

  // ---- Conditions that need no state ----

  /** Whatever glyph a text may be cut into is no wider than a row. */
  ghost predicate Slim(cps: seq<nat>, w: Widths, cols: nat) {
    forall i, j :: 0 <= i < j <= |cps| && j <= i + MAX_CHARS && (forall k :: i < k < j ==> cps[k] in w.combining) ==>
      TotalWidth(cps[i..j], w) <= cols
  }

  lemma {:induction false} SlimNarrow(cps: seq<nat>, w: Widths, i: nat, cols: nat)
    requires i <= |cps| && Slim(cps, w, cols)
    ensures Narrow(cps, w, i, cols)
    decreases |cps| - i
  {
    if i < |cps| {
      var end := GlyphEnd(cps, w, i);
      assert TotalWidth(cps[i..end], w) <= cols;
      hide Slim, TotalWidth, GlyphEnd;
      SlimNarrow(cps, w, SkipCombining(cps, w, end, |cps|), cols);
    }
  }

  /** Slim texts, no repetition, and no margin beyond the screen. */
  ghost predicate Mild(e: Event, w: Widths, cols: nat) {
    && (e.Text? ==> Slim(e.cps, w, cols))
    && (e.Csi? ==> Code(e.leader, e.intermed, e.final) != 0x62)
    && !Overreaches(e, cols)
  }

  const PROPER := Claim([], true, false, false, true)

  /** With proper margins nothing strays. */
  lemma {:induction false} ProperHomes(t: Term, args: seq<nat>, cols: nat)
    requires t.region.left != cols
    ensures !HomesBeyond(t, args, cols) && !SavesBeyond(t, args, cols)
  {
    if args != [] {
      ProperHomes(t, args[..|args| - 1], cols);
    }
  }

  lemma MildAdmits(t: Term, e: Event, w: Widths, s: Setup)
    requires Kept(t, s, PROPER) && Mild(e, w, s.cols)
    ensures Admits(PROPER, t, e, w, s.cols)
  {
    assert t.region.left < s.cols;
    if e.Text? {
      SlimNarrow(e.cps, w, TextStart(t, e.cps, w), s.cols);
    } else if e.Csi? {
      ProperHomes(t, e.args, s.cols);
    }
    hide Kept, Slim, Narrow, Overreaches, SavesBeyond, Code;
  }

  /** The same under conditions on the events alone. */
  lemma {:induction false} RunMild(s: Setup, events: seq<Event>, w: Widths)
    requires s.rows >= 1 && s.cols >= 2 && forall k :: 0 <= k < |events| ==> Mild(events[k], w, s.cols)
    ensures Kept(Run(Fresh(s), events, w), s, PROPER)
  {
    if events == [] {
      KeptFresh(s, PROPER);
    } else {
      var n := |events| - 1;
      hide Kept, Fresh, Mild, Handle, Admits;
      RunMild(s, events[..n], w);
      MildAdmits(Run(Fresh(s), events[..n], w), events[n], w, s);
      KeptEvent(Run(Fresh(s), events[..n], w), events[n], w, s, PROPER);
    }
  }

  // ---- When the margins stay proper ----

  const MARGINS := Claim([], false, false, false, true)

  ghost predicate RegionAt(s: Setup, events: seq<Event>, k: int, w: Widths)
    requires 0 <= k <= |events|
  {
    RegionOk(Run(Fresh(s), events[..k], w).region, s)
  }

  lemma OverreachedRegion(t: Term, e: Event, w: Widths, s: Setup)
    requires Safe(t, s) && Overreaches(e, s.cols)
    ensures !RegionOk(Handle(t, e, w).region, s)
  {
    LeftRightSafe(t, e.args, s);
    assert !Forgets(0x73, e.args);
    hide SetLeftRight, Into, LeftBeyond, Code;
  }

  lemma LastRegion(s: Setup, events: seq<Event>, w: Widths)
    requires events != [] && Kept(Run(Fresh(s), events[..|events| - 1], w), s, MARGINS)
    ensures RegionAt(s, events, |events|, w) <==> !Overreaches(events[|events| - 1], s.cols)
    ensures RegionAt(s, events, |events|, w) ==> Kept(Run(Fresh(s), events, w), s, MARGINS)
  {
    var n := |events| - 1;
    var t := Run(Fresh(s), events[..n], w);
    assert events[..|events|] == events && Run(Fresh(s), events, w) == Handle(t, events[n], w);
    assert Safe(t, s) && t.region.left < s.cols;
    if Overreaches(events[n], s.cols) {
      OverreachedRegion(t, events[n], w, s);
    } else {
      if events[n].Csi? {
        ProperHomes(t, events[n].args, s.cols);
      }
      assert Admits(MARGINS, t, events[n], w, s.cols) by {
        hide Kept, Overreaches, SavesBeyond, Code, Fine;
      }
      KeptEvent(t, events[n], w, s, MARGINS);
      assert Safe(Handle(t, events[n], w), s) && Claimed(Handle(t, events[n], w), s, MARGINS);
    }
    hide Kept, Handle, Run, Fresh, Overreaches;
  }

  ghost predicate RegionsProper(s: Setup, events: seq<Event>, w: Widths) {
    forall k :: 0 <= k <= |events| ==> RegionAt(s, events, k, w)
  }

  predicate NoneOverreach(events: seq<Event>, cols: nat) {
    forall k :: 0 <= k < |events| ==> !Overreaches(events[k], cols)
  }

  lemma RegionsInit(s: Setup, events: seq<Event>, w: Widths)
    requires events != []
    ensures RegionsProper(s, events, w) <==>
      RegionsProper(s, events[..|events| - 1], w) && RegionAt(s, events, |events|, w)
  {
    hide RegionAt;
    var init := events[..|events| - 1];
    forall k | 0 <= k < |events| ensures RegionAt(s, init, k, w) <==> RegionAt(s, events, k, w) {
      PrefixOfInit(s, events, k, w);
    }
    if RegionsProper(s, events, w) {
      assert RegionAt(s, events, |events|, w);
      forall k | 0 <= k <= |init| ensures RegionAt(s, init, k, w) {
        assert RegionAt(s, events, k, w);
      }
    } else if RegionAt(s, events, |events|, w) {
      var k :| 0 <= k <= |events| && !RegionAt(s, events, k, w);
      assert !RegionAt(s, init, k, w);
    }
  }

  lemma NoneOverreachInit(events: seq<Event>, cols: nat)
    requires events != []
    ensures NoneOverreach(events, cols) <==>
      NoneOverreach(events[..|events| - 1], cols) && !Overreaches(events[|events| - 1], cols)
  {
    hide Overreaches;
    var init := events[..|events| - 1];
    if NoneOverreach(events, cols) {
      forall k | 0 <= k < |init| ensures !Overreaches(init[k], cols) {
        assert init[k] == events[k];
      }
    } else {
      var k :| 0 <= k < |events| && Overreaches(events[k], cols);
      if k < |init| {
        assert Overreaches(init[k], cols);
      }
    }
  }

  /** Over a whole run, of any events, the region stays proper at every point if and only if no
      event overreaches. */
  lemma {:induction false} RegionProper(s: Setup, events: seq<Event>, w: Widths)
    requires s.rows >= 1 && s.cols >= 2
    ensures RegionsProper(s, events, w) <==> NoneOverreach(events, s.cols)
    ensures RegionsProper(s, events, w) ==> Kept(Run(Fresh(s), events, w), s, MARGINS)
  {
    if events == [] {
      KeptFresh(s, MARGINS);
      hide Fresh;
    } else {
      hide Fresh, Overreaches, NoneOverreach, RegionsProper, RegionAt, Run, Kept;
      RegionsInit(s, events, w);
      NoneOverreachInit(events, s.cols);
      RegionProper(s, events[..|events| - 1], w);
      if RegionsProper(s, events[..|events| - 1], w) {
        LastRegion(s, events, w);
      }
    }
  }

  // ---- Repetitions that go wrong ----

  lemma {:induction false} PlainStays(t: Term, k: nat)
    requires !t.onAlt && forall i :: 0 <= i < |t.primary| ==> t.primary[i] == NO_INFO
    ensures var u := PlainLines(t, 0, k); u == t.(out := u.out)
  {
    if k > 0 {
      PlainStays(t, k - 1);
      var v := PlainLines(t, 0, k - 1);
      if k - 1 < |v.primary| {
        assert v.primary[k - 1 := NO_INFO] == v.primary;
      }
    }
  }

  /** A fresh terminal: nothing printed, the cursor at home, every line of single width. */
  lemma FreshIs(s: Setup)
    ensures var t := Fresh(s);
      && t.setup == s && t.pos == Pos(0, 0) && !t.phantom && t.last.width == 0 && !t.onAlt && t.modes == INITIAL_MODES
      && |t.primary| == s.rows && forall i :: 0 <= i < s.rows ==> t.primary[i] == NO_INFO
  {
    var lines := seq(s.rows, _ => NO_INFO);
    var t := Term(s, Pos(0, 0), false, FULL_REGION, INITIAL_MODES, Tabs(s.cols), lines, lines, false,
                  Last([], 0, Pos(0, 0)), false, S.Reset(s.defaults), Saved(Pos(0, 0), ZERO_PEN), []);
    PlainStays(t, s.rows);
    assert SoftReset(t.(pen := ZERO_PEN)) == PlainLines(t, 0, s.rows).Say(SetPen(t.pen));
    hide PlainLines;
  }

  /** Before any glyph is printed the loop never comes to its end. */
  lemma RepeatHangs(s: Setup)
    requires s.rows >= 1 && s.cols >= 2
    ensures var t := Fresh(s);
      forall n: nat :: Copied(t.pos.col, t.last.width, n) < RepeatTarget(t, [1])
  {
    FreshIs(s);
    SmallParam([1], 0);
    hide Fresh, Param;
    var t := Fresh(s);
    assert RepeatTarget(t, [1]) == 1;
    RepeatEnds(0, 1, 0);
  }

  /** A glyph of two columns printed at home, and the cursor sent to the last column. */
  function Overhanging(cp: nat, cols: nat): seq<Event> { [Text([cp]), Csi([], [cols], [], 'G' as nat)] }

  lemma OneTextPrinted(t: Term, cp: nat, w: Widths)
    requires w.width(cp) == 2 && cp !in w.combining && t.pos == Pos(0, 0) && !t.phantom && t.modes == INITIAL_MODES
    requires t.Width() == t.setup.cols >= 2
    ensures var u := OnText(t, [cp], w);
      && u.last.width == 2 && u.pos.row == 0 && u.setup == t.setup && u.Info() == t.Info() && u.modes == t.modes
  {
    assert [cp][..1][..0] == [] && [cp][0..1] == [cp] && [cp][..0] == [];
    assert TotalWidth([], w) == 0 && TotalWidth([cp], w) == 2;
    assert GlyphEnd([cp], w, 0) == 1 && SkipCombining([cp], w, 1, 1) == 1;
    var u := Printing(t, [cp], 2, true);
    assert OnText(t, [cp], w) == u by {
      hide Printing;
      assert Glyphs(u, [cp], w, 1) == u;
      assert Glyphs(t, [cp], w, 0) == Glyphs(u, [cp], w, 1);
    }
    hide OnText, TotalWidth, GlyphEnd, SkipCombining, Glyphs;
  }

  lemma LastColumn(t: Term)
    requires t.pos.row == 0 && t.modes == INITIAL_MODES && t.setup.rows >= 1
    requires t.Width() == t.setup.cols && 2 <= t.setup.cols < MISSING
    ensures var u := OnCsi(t, [], [t.setup.cols], [], 'G' as nat);
      u.pos == Pos(0, t.setup.cols - 1) && u.last == t.last && u.setup == t.setup && u.Width() == t.Width()
  {
    SmallParam([t.setup.cols], 0);
    assert Code([], [], 'G' as nat) == 0x47;
    assert First([t.setup.cols]) == t.setup.cols - 1;
    hide Param, First, Code, Sequence;
  }

  /** At every size, two events after which one more copy of the last glyph goes past the screen. */
  lemma OverhangReached(s: Setup, cp: nat, w: Widths)
    requires s.rows >= 1 && 2 <= s.cols < MISSING && w.width(cp) == 2 && cp !in w.combining
    ensures var t := Run(Fresh(s), Overhanging(cp, s.cols), w);
      t.last.width == 2 && t.pos.col + 1 == t.Width() == t.setup.cols && !RepeatOk(t, [1])
  {
    FreshIs(s);
    var t := Fresh(s);
    assert t.Width() == s.cols;
    hide Fresh, OnText, OnCsi, Run, RepeatOk;
    OneTextPrinted(t, cp, w);
    var u := OnText(t, [cp], w);
    assert u.Width() == s.cols;
    LastColumn(u);
    RunPair(t, Text([cp]), Csi([], [s.cols], [], 'G' as nat), w);
    RepeatOverhangs(OnCsi(u, [], [s.cols], [], 'G' as nat));
  }

  lemma RunPair(t: Term, a: Event, b: Event, w: Widths)
    ensures Run(t, [a, b], w) == Handle(Handle(t, a, w), b, w)
  {
    hide Handle;
    assert [a, b][..1] == [a] && [a][..0] == [];
    assert Run(t, [a], w) == Handle(t, a, w);
  }

  // ---- How the cursor can leave the screen ----

  /** A left margin beyond the screen, then origin mode and a save in one sequence: the column
      is saved before it is brought into the screen, and restored as it was saved. */
  function Escaping(cols: nat): seq<Event> {
    [Csi([], [cols + 1], [], 's' as nat),
     Csi(['?' as nat], [69], [], 'h' as nat),
     Csi(['?' as nat], [6, 1048], [], 'h' as nat),
     Esc(['8' as nat])]
  }

  lemma SmallParam(args: seq<nat>, i: nat)
    requires i < |args| && args[i] < MISSING
    ensures S.Arg(args[i]) == args[i] && Param(args, i) == args[i]
  {
  }

  /** The left margin goes beyond the screen. */
  lemma EscapeMargin(t: Term, s: Setup)
    requires Safe(t, s) && s.cols + 1 < MISSING && t.region == FULL_REGION && t.modes == INITIAL_MODES
    ensures var u := OnCsi(t, [], [s.cols + 1], [], 's' as nat);
      u.setup == s && u.region == Region(0, -1, s.cols, -1) && u.modes == INITIAL_MODES
  {
    SmallParam([s.cols + 1], 0);
    assert Code([], [], 's' as nat) == 0x73;
    assert First([s.cols + 1]) == s.cols && Second([s.cols + 1]) == -1;
    hide Param, Into, Home, First, Second, Code;
  }

  lemma EscapeMode(t: Term, mode: nat)
    requires mode < MISSING
    ensures DecModes(t, [mode], true) == DecMode(t, mode, true)
  {
    SmallParam([mode], 0);
    assert [mode][..0] == [];
    hide DecMode;
  }

  lemma PlainLinesKeep(t: Term, from: nat, end: nat)
    ensures var u := PlainLines(t, from, end);
      u.region == t.region && u.modes == t.modes && u.setup == t.setup && u.pos == t.pos && u.saved == t.saved
  {
  }

  lemma EscapeMarginMode(t: Term)
    ensures var u := OnCsi(t, ['?' as nat], [69], [], 'h' as nat);
      u.setup == t.setup && u.region == t.region && u.modes == t.modes.(margins := true)
  {
    assert Code(['?' as nat], [], 'h' as nat) == 0x3f68;
    EscapeMode(t, 69);
    PlainLinesKeep(t.(modes := t.modes.(margins := true)), 0, t.setup.rows);
    hide DecModes, PlainLines, Into, Code;
  }

  lemma EscapeOrigin(t: Term)
    requires t.modes.margins
    ensures OnCsi(t, ['?' as nat], [6, 1048], [], 'h' as nat).saved.pos == Pos(t.region.top, t.region.left)
  {
    assert Code(['?' as nat], [], 'h' as nat) == 0x3f68;
    var args := [6, 1048];
    assert args[..1] == [6];
    SmallParam(args, 1);
    EscapeMode(t, 6);
    assert DecModes(t, args, true) == Save(SetOrigin(t, true));
    hide DecModes, Into, Code;
  }

  lemma EscapingRun(t: Term, s: Setup, w: Widths)
    requires Safe(t, s) && s.cols + 1 < MISSING && t.region == FULL_REGION && t.modes == INITIAL_MODES
    ensures Run(t, Escaping(s.cols), w).pos.col == s.cols
  {
    hide Safe, OnCsi, OnEscape, Run;
    EscapeMargin(t, s);
    var t1 := OnCsi(t, [], [s.cols + 1], [], 's' as nat);
    EscapeMarginMode(t1);
    var t2 := OnCsi(t1, ['?' as nat], [69], [], 'h' as nat);
    EscapeOrigin(t2);
    RestoredColumn(OnCsi(t2, ['?' as nat], [6, 1048], [], 'h' as nat));
    RunFour(t, Csi([], [s.cols + 1], [], 's' as nat), Csi(['?' as nat], [69], [], 'h' as nat),
            Csi(['?' as nat], [6, 1048], [], 'h' as nat), Esc(['8' as nat]), w);
  }

  /** A fresh terminal of any size, four events, and a cursor to the right of the screen. */
  lemma CursorEscapes(s: Setup, w: Widths)
    requires s.rows >= 1 && s.cols >= 2 && s.cols + 1 < MISSING
    ensures Run(Fresh(s), Escaping(s.cols), w).pos.col == s.cols
  {
    KeptFresh(s, ANY);
    FreshModes(s);
    assert Safe(Fresh(s), s);
    hide Safe, Kept, Fresh, Run;
    EscapingRun(Fresh(s), s, w);
  }

  lemma RestoredColumn(t: Term)
    ensures OnEscape(t, ['8' as nat]).pos == t.saved.pos
  {
  }

  lemma RunFour(t: Term, a: Event, b: Event, c: Event, d: Event, w: Widths)
    ensures Run(t, [a, b, c, d], w) == Handle(Handle(Handle(Handle(t, a, w), b, w), c, w), d, w)
  {
    hide Handle;
    assert [a, b, c, d][..3] == [a, b, c] && [a, b, c][..2] == [a, b] && [a, b][..1] == [a] && [a][..0] == [];
    assert Run(t, [a], w) == Handle(t, a, w);
    assert Run(t, [a, b], w) == Handle(Run(t, [a], w), b, w);
    assert Run(t, [a, b, c], w) == Handle(Run(t, [a, b], w), c, w);
  }

  lemma FreshModes(s: Setup)
    ensures Fresh(s).region == FULL_REGION && Fresh(s).modes == INITIAL_MODES
  {
    forall t: Term {
      PlainLinesKeep(t, 0, s.rows);
    }
    hide PlainLines;
  }
}
