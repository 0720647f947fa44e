/** Screen cells, rows of cells, and the logical lines a grid of rows spells out. */
module Grid {
  import opened Seqs

  /** A colour carries the two "this is the default" tags beside its value. */
  datatype Color =
    | Rgb(defaultFg: bool, defaultBg: bool, red: nat, green: nat, blue: nat)
    | Indexed(defaultFg: bool, defaultBg: bool, idx: nat)

  /** The attributes SGR can change. */
  datatype Pen = Pen(
    fg: Color, bg: Color,
    bold: bool, underline: nat, italic: bool, blink: bool, reverse: bool,
    conceal: bool, strike: bool, font: nat, small: bool, baseline: nat)

  /** What a cell shows: nothing, the right half of a wide glyph (stored as 0xFFFFFFFF),
      or a glyph given by its base and combining characters. */
  datatype Text = Blank | Gap | Glyph(chars: seq<nat>)

  datatype ScreenPen = ScreenPen(pen: Pen, isProtected: bool, dwl: bool, dhl: nat)

  datatype Cell = Cell(text: Text, pen: ScreenPen)

  type Row = seq<Cell>

  datatype LineInfo = LineInfo(doublewidth: bool, doubleheight: nat, continuation: bool)

  /** How many characters a cell holds. */
  const MAX_CHARS := 6

  const NO_INFO := LineInfo(false, 0, false)

  predicate Rectangular(rows: seq<Row>, cols: nat) {
    forall r :: 0 <= r < |rows| ==> |rows[r]| == cols
  }

  predicate AllBlank(s: Row) {
    forall i :: 0 <= i < |s| ==> s[i].text.Blank?
  }

  /** The row without its trailing blank cells. */
  function Trim(s: Row): (t: Row)
    ensures t <= s && AllBlank(s[|t|..])
    ensures t != [] ==> !t[|t| - 1].text.Blank?
  {
    if s != [] && s[|s| - 1].text.Blank? then
      var t := Trim(s[..|s| - 1]);
      assert s[|t|..] == s[..|s| - 1][|t|..] + [s[|s| - 1]];
      t
    else s
  }

  /** Trimming is the only way to cut a row into a part not ending in a blank, and blanks. */
  lemma {:induction false} TrimUnique(s: Row, t: Row)
    requires t <= s && AllBlank(s[|t|..])
    requires t != [] ==> !t[|t| - 1].text.Blank?
    ensures Trim(s) == t
  {
    var u := Trim(s);
    forall i | |u| <= i < |s| ensures s[i].text.Blank? {
      assert s[|u|..][i - |u|] == s[i];
    }
    forall i | |t| <= i < |s| ensures s[i].text.Blank? {
      assert s[|t|..][i - |t|] == s[i];
    }
  }

  lemma TrimNone(s: Row)
    ensures Trim(s) == [] <==> AllBlank(s)
  {
    assert s[0..] == s;
    if AllBlank(s) {
      TrimUnique(s, []);
    }
  }

  lemma TrimPadded(s: Row, pad: Row)
    requires AllBlank(pad)
    ensures Trim(s + pad) == Trim(s)
  {
    var t := Trim(s);
    assert (s + pad)[|t|..] == s[|t|..] + pad;
    TrimUnique(s + pad, t);
  }

  /** All cells of the rows, in reading order. */
  function Flatten(rows: seq<Row>): Row {
    if rows == [] then [] else rows[0] + Flatten(rows[1..])
  }

  lemma {:induction false} FlattenAppend(a: seq<Row>, b: seq<Row>)
    ensures Flatten(a + b) == Flatten(a) + Flatten(b)
  {
    if a == [] {
      assert a + b == b;
    } else {
      assert (a + b)[1..] == a[1..] + b;
      FlattenAppend(a[1..], b);
    }
  }

  lemma FlattenOne(row: Row)
    ensures Flatten([row]) == row
  {
    assert [row][1..] == [];
  }

  /** The first row of the logical line that contains row `r`. */
  function LineStart(info: seq<LineInfo>, r: nat): (s: nat)
    requires r < |info| && !info[0].continuation
    ensures s <= r && !info[s].continuation
    ensures forall k :: s < k <= r ==> info[k].continuation
  {
    if info[r].continuation then LineStart(info, r - 1) else r
  }

  /** The text of one logical line made of `rows`. */
  function LineText(rows: seq<Row>): Row {
    Trim(Flatten(rows))
  }

  /** The logical lines of a grid, top to bottom: a row whose continuation flag is set
      belongs to the line of the row above it. */
  function Lines(rows: seq<Row>, info: seq<LineInfo>): (lines: seq<Row>)
    requires |rows| == |info|
    requires rows != [] ==> !info[0].continuation
    ensures rows != [] ==> lines != []
  {
    if rows == [] then []
    else
      var s := LineStart(info, |rows| - 1);
      Lines(rows[..s], info[..s]) + [LineText(rows[s..])]
  }

  lemma LineStartUnique(info: seq<LineInfo>, r: nat, s: nat)
    requires r < |info| && !info[0].continuation
    requires s <= r && !info[s].continuation && forall k :: s < k <= r ==> info[k].continuation
    ensures LineStart(info, r) == s
  {
  }

  /** One logical line. */
  lemma LinesOne(rows: seq<Row>, info: seq<LineInfo>)
    requires |rows| == |info| > 0 && !info[0].continuation
    requires forall k :: 0 < k < |info| ==> info[k].continuation
    ensures Lines(rows, info) == [LineText(rows)]
  {
    LineStartUnique(info, |rows| - 1, 0);
    assert rows[0..] == rows;
    assert rows[..0] == [] && info[..0] == [];
  }

  /** One more logical line below a grid. */
  lemma LinesSnoc(ra: seq<Row>, ia: seq<LineInfo>, rows: seq<Row>, info: seq<LineInfo>)
    requires |ra| == |ia| && |rows| == |info| > 0 && !info[0].continuation
    requires ra != [] ==> !ia[0].continuation
    requires forall k :: 0 < k < |info| ==> info[k].continuation
    ensures Lines(ra + rows, ia + info) == Lines(ra, ia) + [LineText(rows)]
  {
    hide LineText;
    var all, infos := ra + rows, ia + info;
    LineStartUnique(infos, |all| - 1, |ra|);
    assert all[..|ra|] == ra && all[|ra|..] == rows by { ConcatSlices(ra, rows); }
    assert infos[..|ra|] == ia by { ConcatSlices(ia, info); }
  }

  /** Grids stacked on each other have their lines one after the other. */
  lemma {:induction false} LinesAppend(ra: seq<Row>, ia: seq<LineInfo>, rb: seq<Row>, ib: seq<LineInfo>)
    requires |ra| == |ia| && |rb| == |ib|
    requires ra != [] ==> !ia[0].continuation
    requires rb != [] ==> !ib[0].continuation
    ensures Lines(ra + rb, ia + ib) == Lines(ra, ia) + Lines(rb, ib)
    decreases |rb|
  {
    if rb == [] {
      assert ra + rb == ra && ia + ib == ia;
    } else {
      hide LineText;
      var s := LineStart(ib, |rb| - 1);
      var last := [LineText(rb[s..])];
      calc {
        Lines(ra + rb, ia + ib);
        { ConcatCut(ra, rb, s); ConcatCut(ia, ib, s); }
        Lines((ra + rb[..s]) + rb[s..], (ia + ib[..s]) + ib[s..]);
        { LinesSnoc(ra + rb[..s], ia + ib[..s], rb[s..], ib[s..]); }
        Lines(ra + rb[..s], ia + ib[..s]) + last;
        { LinesAppend(ra, ia, rb[..s], ib[..s]); }
        Lines(ra, ia) + Lines(rb[..s], ib[..s]) + last;
        Lines(ra, ia) + Lines(rb, ib);
      }
    }
  }

  /** `n` empty lines. */
  function Empties(n: nat): (e: seq<Row>)
    ensures |e| == n
    ensures forall i :: 0 <= i < n ==> e[i] == []
  {
    seq(n, _ => [])
  }

  lemma EmptiesAdd(m: nat, n: nat)
    ensures Empties(m) + Empties(n) == Empties(m + n)
  {
  }

  /** Blank rows that each start a line spell out that many empty lines. */
  lemma {:induction false} LinesBlank(rows: seq<Row>, info: seq<LineInfo>)
    requires |rows| == |info|
    requires forall r :: 0 <= r < |rows| ==> AllBlank(rows[r]) && !info[r].continuation
    ensures Lines(rows, info) == Empties(|rows|)
    decreases |rows|
  {
    if rows != [] {
      hide Lines;
      var n := |rows| - 1;
      LinesBlank(rows[..n], info[..n]);
      FlattenOne(rows[n]);
      TrimUnique(rows[n], []);
      LinesSnoc(rows[..n], info[..n], [rows[n]], [info[n]]);
      assert rows == rows[..n] + [rows[n]] && info == info[..n] + [info[n]];
    }
  }
}
