/** Character attributes: the parameters of SGR applied to the pen, and the pen told by them. */
module Sgr {
  import opened Seqs
  import opened Grid

  const MORE := 0x8000_0000
  const MISSING := 0x7fff_ffff

  const RAISE := 1
  const LOWER := 2
  const SINGLE := 1
  const DOUBLE := 2
  const CURLY := 3

  function Arg(a: nat): (r: nat)
    ensures r <= MISSING
  {
    a % MORE
  }

  predicate HasMore(a: nat) { a / MORE % 2 == 1 }

  /** The parameters, and after them what the array holds from before; then nothing. */
  function At(mem: seq<nat>, i: nat): nat {
    if i < |mem| then mem[i] else 0
  }

  datatype Defaults = Defaults(fg: Color, bg: Color)

  function Reset(d: Defaults): Pen {
    Pen(d.fg, d.bg, false, 0, false, false, false, false, false, 0, false, 0)
  }

  function Indexed8(idx: nat): Color { Indexed(false, false, idx % 256) }

  /** The colour that a palette and its parameters name, and how many of them it takes.
      `argcount` counts the parameters after the palette; it is -1 if that is missing too. */
  datatype Lookup = Lookup(taken: int, color: Color)

  function LookupColour(palette: nat, mem: seq<nat>, argi: nat, argcount: int, was: Color): Lookup {
    if palette == 2 then
      if argcount < 3 then Lookup(argcount, was)
      else Lookup(3, Rgb(false, false, Arg(At(mem, argi)) % 256, Arg(At(mem, argi + 1)) % 256,
                         Arg(At(mem, argi + 2)) % 256))
    else if palette == 5 then
      if argcount == 0 then Lookup(0, was)
      else if Arg(At(mem, argi)) == MISSING then Lookup(1, was)
      else Lookup(1, Indexed8(At(mem, argi)))
    else Lookup(0, was)
  }

  function UnderlineStyle(a: nat): nat {
    match a
    case 0 => 0
    case 2 => DOUBLE
    case 3 => CURLY
    case _ => SINGLE
  }

  /** What a parameter makes of an attribute that `on` and `off` switch. */
  function Switch(arg: nat, on: nat, off: nat, was: bool): bool {
    if arg == on then true else if arg == off then false else was
  }

  function Underline(arg: nat, more: bool, style: nat, was: nat): nat {
    if arg == 4 then (if more then UnderlineStyle(style) else SINGLE)
    else if arg == 21 then DOUBLE
    else if arg == 24 then 0
    else was
  }

  function Baseline(arg: nat, was: nat): nat {
    if arg == 73 then RAISE else if arg == 74 then LOWER else if arg == 75 then 0 else was
  }

  /** The foreground: the palettes, a colour looked up, the default, or brightened by bold. */
  function Foreground(p: Pen, arg: nat, looked: Color, d: Defaults, highbright: bool): Color {
    if 30 <= arg <= 37 then Indexed8(arg - 30 + if p.bold && highbright then 8 else 0)
    else if arg == 38 then looked
    else if arg == 39 then d.fg
    else if 90 <= arg <= 97 then Indexed8(arg - 90 + 8)
    else if arg == 1 && highbright && !p.fg.defaultFg && p.fg.Indexed? && p.fg.idx < 8 then Indexed8(p.fg.idx + 8)
    else p.fg
  }

  function Background(arg: nat, looked: Color, d: Defaults, was: Color): Color {
    if 40 <= arg <= 47 then Indexed8(arg - 40)
    else if arg == 48 then looked
    else if arg == 49 then d.bg
    else if 100 <= arg <= 107 then Indexed8(arg - 100 + 8)
    else was
  }

  /** What the parameter `arg` makes of the pen; `more` and `style` are its colon and the
      parameter after it, `looked` the colour that those after it name. */
  function Told(p: Pen, arg: nat, more: bool, style: nat, looked: Color, d: Defaults, highbright: bool): Pen {
    Pen(Foreground(p, arg, looked, d, highbright), Background(arg, looked, d, p.bg),
        Switch(arg, 1, 22, p.bold), Underline(arg, more, style, p.underline), Switch(arg, 3, 23, p.italic),
        Switch(arg, 5, 25, p.blink), Switch(arg, 7, 27, p.reverse), Switch(arg, 8, 28, p.conceal),
        Switch(arg, 9, 29, p.strike), if 10 <= arg <= 19 then arg - 10 else p.font,
        arg == 73 || Switch(arg, 74, 75, p.small), Baseline(arg, p.baseline))
  }

  function Looked(p: Pen, mem: seq<nat>, argcount: nat, argi: nat): Lookup {
    LookupColour(Arg(At(mem, argi + 1)), mem, argi + 2, argcount - argi - 2,
                 if Arg(At(mem, argi)) == 38 then p.fg else p.bg)
  }

  function SetOne(p: Pen, mem: seq<nat>, argcount: nat, argi: nat, d: Defaults, highbright: bool): Pen {
    var a := At(mem, argi);
    if Arg(a) == MISSING || Arg(a) == 0 then Reset(d)
    else Told(p, Arg(a), HasMore(a), Arg(At(mem, argi + 1)), Looked(p, mem, argcount, argi).color, d, highbright)
  }

  /** The last parameter that the one at `argi` takes. */
  function LastTaken(p: Pen, mem: seq<nat>, argcount: nat, argi: nat): (r: nat)
    requires argi < argcount
    ensures r >= argi
  {
    var a := At(mem, argi);
    if Arg(a) == 4 && HasMore(a) then argi + 1
    else if Arg(a) == 38 || Arg(a) == 48 then argi + 1 + Looked(p, mem, argcount, argi).taken
    else argi
  }

  /** Past the parameter at `argi` and those that a colon ties to it. */
  function PastMore(mem: seq<nat>, argi: nat): (r: nat)
    ensures r > argi
    decreases |mem| - argi
  {
    if argi < |mem| && HasMore(mem[argi]) then PastMore(mem, argi + 1) else argi + 1
  }

  /** The pen after the parameters from `argi` on. */
  function SetPen(p: Pen, mem: seq<nat>, argcount: nat, argi: nat, d: Defaults, highbright: bool): Pen
    decreases argcount - argi
  {
    if argi >= argcount then p
    else
      SetPen(SetOne(p, mem, argcount, argi, d, highbright), mem, argcount,
             PastMore(mem, LastTaken(p, mem, argcount, argi)), d, highbright)
  }

  // ---- The pens there can be ----

  predicate ValidDefaults(d: Defaults) {
    d.fg.defaultFg && d.bg.defaultBg
  }

  predicate ChosenColor(c: Color) {
    && !c.defaultFg && !c.defaultBg
    && match c
       case Indexed(_, _, idx) => idx < 256
       case Rgb(_, _, r, g, b) => r < 256 && g < 256 && b < 256
  }

  predicate ValidPen(p: Pen, d: Defaults) {
    && (p.fg == d.fg || ChosenColor(p.fg)) && (p.bg == d.bg || ChosenColor(p.bg))
    && p.underline <= CURLY && p.font <= 9
    && p.baseline <= LOWER && (p.small <==> p.baseline != 0)
  }

  lemma IndexedChosen(idx: nat)
    ensures ChosenColor(Indexed8(idx))
  {
  }

  lemma LookedValid(p: Pen, mem: seq<nat>, argcount: nat, argi: nat)
    ensures var c := Looked(p, mem, argcount, argi).color;
      ChosenColor(c) || c == if Arg(At(mem, argi)) == 38 then p.fg else p.bg
  {
  }

  lemma ColorsValid(p: Pen, arg: nat, looked: Color, d: Defaults, highbright: bool)
    requires p.fg == d.fg || ChosenColor(p.fg)
    requires p.bg == d.bg || ChosenColor(p.bg)
    requires ChosenColor(looked) || looked == if arg == 38 then p.fg else p.bg
    ensures var c := Foreground(p, arg, looked, d, highbright); c == d.fg || ChosenColor(c)
    ensures var c := Background(arg, looked, d, p.bg); c == d.bg || ChosenColor(c)
  {
    forall idx: nat {
      IndexedChosen(idx);
    }
    hide ChosenColor, Indexed8;
  }

  lemma SetOneValid(p: Pen, mem: seq<nat>, argcount: nat, argi: nat, d: Defaults, highbright: bool)
    requires ValidPen(p, d)
    ensures ValidPen(SetOne(p, mem, argcount, argi, d, highbright), d)
  {
    LookedValid(p, mem, argcount, argi);
    ColorsValid(p, Arg(At(mem, argi)), Looked(p, mem, argcount, argi).color, d, highbright);
    hide Arg, At, HasMore, Looked, Foreground, Background, ChosenColor;
  }

  /** Whatever the parameters, and whatever lies behind them, the pen stays one that SGR can
      tell. */
  lemma {:induction false} SetPenValid(p: Pen, mem: seq<nat>, argcount: nat, argi: nat, d: Defaults, highbright: bool)
    requires ValidPen(p, d)
    ensures ValidPen(SetPen(p, mem, argcount, argi, d, highbright), d)
    decreases argcount - argi
  {
    if argi < argcount {
      SetOneValid(p, mem, argcount, argi, d, highbright);
      hide SetOne, ValidPen;
      SetPenValid(SetOne(p, mem, argcount, argi, d, highbright), mem, argcount,
                  PastMore(mem, LastTaken(p, mem, argcount, argi)), d, highbright);
    }
  }

  // ---- The pen told ----

  function If(b: bool, a: nat): (s: seq<nat>)
    ensures |s| <= 1
  {
    if b then [a] else []
  }

  function ColorArgs(c: Color, fg: bool): (s: seq<nat>)
    ensures |s| <= 5
  {
    if (if fg then c.defaultFg else c.defaultBg) then []
    else match c
      case Indexed(_, _, idx) =>
        if idx < 8 then [idx + if fg then 30 else 40]
        else if idx < 16 then [idx - 8 + if fg then 90 else 100]
        else [MORE + if fg then 38 else 48, MORE + 5, idx]
      case Rgb(_, _, r, g, b) => [MORE + if fg then 38 else 48, MORE + 2, MORE + r, MORE + g, b]
  }

  /** The parameters that tell one attribute, in the order in which they are told. */
  function Part(p: Pen, k: nat): (s: seq<nat>)
    requires k < 12
    ensures |s| <= if k == 2 then 2 else if k == 9 || k == 10 then 5 else 1
  {
    match k
    case 0 => If(p.bold, 1)
    case 1 => If(p.italic, 3)
    case 2 => if p.underline == CURLY then [MORE + 4, 3] else If(p.underline == SINGLE, 4)
    case 3 => If(p.blink, 5)
    case 4 => If(p.reverse, 7)
    case 5 => If(p.conceal, 8)
    case 6 => If(p.strike, 9)
    case 7 => If(p.font != 0, 10 + p.font)
    case 8 => If(p.underline == DOUBLE, 21)
    case 9 => ColorArgs(p.fg, true)
    case 10 => ColorArgs(p.bg, false)
    case _ => if p.small && p.baseline == RAISE then [73] else If(p.small && p.baseline == LOWER, 74)
  }

  function PartsFrom(p: Pen, k: nat): seq<nat>
    requires k <= 12
    decreases 12 - k
  {
    if k == 12 then [] else Part(p, k) + PartsFrom(p, k + 1)
  }

  /** The parameters that tell the whole pen. */
  function GetPen(p: Pen): seq<nat> { PartsFrom(p, 0) }

  function Room(k: nat): nat
    requires k <= 12
    decreases 12 - k
  {
    if k == 12 then 0 else (if k == 2 then 2 else if k == 9 || k == 10 then 5 else 1) + Room(k + 1)
  }

  lemma {:induction false} PartsFit(p: Pen, k: nat)
    requires k <= 12
    ensures |PartsFrom(p, k)| <= Room(k)
    decreases 12 - k
  {
    if k < 12 {
      PartsFit(p, k + 1);
    }
  }

  /** Twenty places are enough for any pen, counting both ways to underline. */
  lemma GetPenFits(p: Pen)
    ensures |GetPen(p)| <= 20
  {
    PartsFit(p, 9);
    assert Room(9) == 11;
    hide Part, ColorArgs;
    GetPenParts(p);
  }

  lemma GetPenParts(p: Pen)
    ensures |GetPen(p)| == |Part(p, 0)| + |Part(p, 1)| + |Part(p, 2)| + |Part(p, 3)| + |Part(p, 4)| + |Part(p, 5)| +
                           |Part(p, 6)| + |Part(p, 7)| + |Part(p, 8)| + |PartsFrom(p, 9)|
    ensures Part(p, 2) == [] || Part(p, 8) == []
  {
    forall k: nat | k < 9 ensures |PartsFrom(p, k)| == |Part(p, k)| + |PartsFrom(p, k + 1)| {
    }
  }

  // ---- Telling the pen and setting it again ----

  /** A bold pen of one of the first eight colours, where bold is to brighten those. */
  predicate Dulled(p: Pen, hb: bool) { hb && p.bold && !p.fg.defaultFg && p.fg.Indexed? && p.fg.idx < 8 }

  function Bright(p: Pen, hb: bool): (q: Pen)
    ensures q == p <==> !Dulled(p, hb)
  {
    if Dulled(p, hb) then p.(fg := Indexed8(p.fg.idx + 8)) else p
  }

  /** The pen of which the first `k` parts have been set. */
  function Upto(p: Pen, d: Defaults, k: nat, hb: bool): Pen {
    Pen(if k > 9 then Bright(p, hb).fg else d.fg, if k > 10 then p.bg else d.bg,
        k > 0 && p.bold, if k > 8 || (k > 2 && p.underline != DOUBLE) then p.underline else 0, k > 1 && p.italic,
        k > 3 && p.blink, k > 4 && p.reverse, k > 5 && p.conceal, k > 6 && p.strike, if k > 7 then p.font else 0,
        k > 11 && p.small, if k > 11 then p.baseline else 0)
  }

  lemma SmallArg(a: nat)
    requires a < MORE
    ensures Arg(a) == a && !HasMore(a) && Arg(MORE + a) == a && HasMore(MORE + a)
  {
  }

  /** A parameter on its own. */
  lemma SetSingle(q: Pen, mem: seq<nat>, n: nat, argi: nat, d: Defaults, hb: bool)
    requires argi < n <= |mem| && mem[argi] < MISSING && mem[argi] !in {0, 38, 48}
    ensures SetPen(q, mem, n, argi, d, hb) ==
      SetPen(Told(q, mem[argi], false, 0, q.fg, d, hb), mem, n, argi + 1, d, hb)
  {
    SmallArg(mem[argi]);
    SingleTold(q, mem[argi], false, Arg(At(mem, argi + 1)), 0, Looked(q, mem, n, argi).color, q.fg, d, hb);
    hide Arg, HasMore, Looked, Told;
  }

  lemma SingleTold(q: Pen, arg: nat, more: bool, style: nat, style': nat, looked: Color, looked': Color, d: Defaults, hb: bool)
    requires !more && arg != 38 && arg != 48
    ensures Told(q, arg, more, style, looked, d, hb) == Told(q, arg, more, style', looked', d, hb)
  {
  }

  lemma SetCurly(q: Pen, mem: seq<nat>, n: nat, argi: nat, d: Defaults, hb: bool)
    requires argi + 1 < n <= |mem| && mem[argi] == MORE + 4 && mem[argi + 1] == 3
    ensures SetPen(q, mem, n, argi, d, hb) == SetPen(q.(underline := CURLY), mem, n, argi + 2, d, hb)
  {
    SmallArg(4);
    SmallArg(3);
    CurlyTold(q, Looked(q, mem, n, argi).color, d, hb);
    hide Arg, HasMore, Looked, Told;
  }

  lemma CurlyTold(q: Pen, looked: Color, d: Defaults, hb: bool)
    ensures Told(q, 4, true, 3, looked, d, hb) == q.(underline := CURLY)
  {
  }

  lemma ColorTold(q: Pen, arg: nat, more: bool, style: nat, looked: Color, d: Defaults, hb: bool)
    requires arg == 38 || arg == 48
    ensures Told(q, arg, more, style, looked, d, hb) == if arg == 38 then q.(fg := looked) else q.(bg := looked)
  {
  }

  function WithColor(q: Pen, fg: bool, c: Color): Pen {
    if fg then q.(fg := c) else q.(bg := c)
  }

  lemma SetColor(q: Pen, mem: seq<nat>, n: nat, argi: nat, fg: bool, l: Lookup, d: Defaults, hb: bool)
    requires argi < n <= |mem| && Arg(mem[argi]) == (if fg then 38 else 48) && l == Looked(q, mem, n, argi) && l.taken >= 0
    requires argi + 1 + l.taken < n <= |mem| && !HasMore(mem[argi + 1 + l.taken])
    ensures SetPen(q, mem, n, argi, d, hb) ==
      SetPen(WithColor(q, fg, l.color), mem, n, argi + 2 + l.taken, d, hb)
  {
    ColorTold(q, Arg(mem[argi]), HasMore(mem[argi]), Arg(At(mem, argi + 1)), l.color, d, hb);
    hide Arg, HasMore, Told, Looked;
  }

  lemma LookedIndexed(q: Pen, mem: seq<nat>, n: nat, argi: nat, idx: nat)
    requires idx < 256 && argi + 3 <= n <= |mem|
    requires mem[argi + 1] == MORE + 5 && mem[argi + 2] == idx
    ensures Looked(q, mem, n, argi) == Lookup(1, Indexed(false, false, idx))
  {
    SmallArg(5);
    SmallArg(idx);
    hide Arg, HasMore;
  }

  /** A colour from the palette of 256. */
  lemma SetIndexed(q: Pen, mem: seq<nat>, n: nat, argi: nat, fg: bool, idx: nat, d: Defaults, hb: bool)
    requires idx < 256 && argi + 3 <= n <= |mem|
    requires mem[argi] == MORE + (if fg then 38 else 48) && mem[argi + 1] == MORE + 5 && mem[argi + 2] == idx
    ensures SetPen(q, mem, n, argi, d, hb) ==
      SetPen(WithColor(q, fg, Indexed(false, false, idx)), mem, n, argi + 3, d, hb)
  {
    SmallArg(if fg then 38 else 48);
    SmallArg(idx);
    hide Arg, HasMore, Told, Looked, SetPen, WithColor;
    LookedIndexed(q, mem, n, argi, idx);
    SetColor(q, mem, n, argi, fg, Lookup(1, Indexed(false, false, idx)), d, hb);
  }

  lemma LookedRgb(q: Pen, mem: seq<nat>, n: nat, argi: nat, r: nat, g: nat, b: nat)
    requires r < 256 && g < 256 && b < 256 && argi + 5 <= n <= |mem|
    requires mem[argi + 1] == MORE + 2
    requires mem[argi + 2] == MORE + r && mem[argi + 3] == MORE + g && mem[argi + 4] == b
    ensures Looked(q, mem, n, argi) == Lookup(3, Rgb(false, false, r, g, b))
  {
    SmallArg(2);
    SmallArg(r);
    SmallArg(g);
    SmallArg(b);
    hide Arg, HasMore;
  }

  /** A colour given by its parts. */
  lemma SetRgb(q: Pen, mem: seq<nat>, n: nat, argi: nat, fg: bool, r: nat, g: nat, b: nat, d: Defaults, hb: bool)
    requires r < 256 && g < 256 && b < 256 && argi + 5 <= n <= |mem|
    requires mem[argi] == MORE + (if fg then 38 else 48) && mem[argi + 1] == MORE + 2
    requires mem[argi + 2] == MORE + r && mem[argi + 3] == MORE + g && mem[argi + 4] == b
    ensures SetPen(q, mem, n, argi, d, hb) ==
      SetPen(WithColor(q, fg, Rgb(false, false, r, g, b)), mem, n, argi + 5, d, hb)
  {
    SmallArg(if fg then 38 else 48);
    SmallArg(b);
    hide Arg, HasMore, Told, Looked, SetPen, WithColor;
    LookedRgb(q, mem, n, argi, r, g, b);
    SetColor(q, mem, n, argi, fg, Lookup(3, Rgb(false, false, r, g, b)), d, hb);
  }

  lemma SliceAt(mem: seq<nat>, argi: nat, s: seq<nat>)
    requires argi + |s| <= |mem| && mem[argi..argi + |s|] == s
    ensures forall i :: 0 <= i < |s| ==> mem[argi + i] == s[i]
  {
    forall i | 0 <= i < |s| ensures mem[argi + i] == s[i] {
      assert mem[argi..argi + |s|][i] == mem[argi + i];
    }
  }

  /** The colour that a pen gets when told `c`. */
  function Lit(q: Pen, fg: bool, c: Color, hb: bool): Color {
    if fg && hb && q.bold && c.Indexed? && c.idx < 8 then Indexed8(c.idx + 8) else c
  }

  /** Whether the parameters that tell a colour set it. */
  ghost predicate ColorSet(q: Pen, mem: seq<nat>, n: nat, argi: nat, fg: bool, c: Color, d: Defaults, hb: bool) {
    SetPen(q, mem, n, argi, d, hb) ==
    SetPen(WithColor(q, fg, Lit(q, fg, c, hb)), mem, n, argi + |ColorArgs(c, fg)|, d, hb)
  }

  lemma RgbSet(q: Pen, mem: seq<nat>, n: nat, argi: nat, fg: bool, c: Color, d: Defaults, hb: bool)
    requires ChosenColor(c) && c.Rgb? && argi + 5 <= n <= |mem|
    requires mem[argi..argi + 5] == ColorArgs(c, fg)
    ensures ColorSet(q, mem, n, argi, fg, c, d, hb)
  {
    var s := ColorArgs(c, fg);
    assert |s| == 5 && s[0] == MORE + (if fg then 38 else 48) && s[1] == MORE + 2;
    assert s[2] == MORE + c.red && s[3] == MORE + c.green && s[4] == c.blue;
    hide SetPen, ColorArgs;
    var t := mem[argi..argi + |s|];
    assert mem[argi] == t[0] && mem[argi + 1] == t[1] && mem[argi + 2] == t[2];
    SetRgb(q, mem, n, argi, fg, c.red, c.green, c.blue, d, hb);
  }

  lemma IndexSet(q: Pen, mem: seq<nat>, n: nat, argi: nat, fg: bool, c: Color, d: Defaults, hb: bool)
    requires ChosenColor(c) && c.Indexed? && c.idx >= 16 && argi + 3 <= n <= |mem|
    requires mem[argi..argi + 3] == ColorArgs(c, fg)
    ensures ColorSet(q, mem, n, argi, fg, c, d, hb)
  {
    var s := ColorArgs(c, fg);
    assert |s| == 3 && s[0] == MORE + (if fg then 38 else 48) && s[1] == MORE + 5 && s[2] == c.idx;
    hide SetPen, ColorArgs;
    var t := mem[argi..argi + |s|];
    assert mem[argi] == t[0] && mem[argi + 1] == t[1] && mem[argi + 2] == t[2];
    SetIndexed(q, mem, n, argi, fg, c.idx, d, hb);
  }

  lemma PaletteSet(q: Pen, mem: seq<nat>, n: nat, argi: nat, fg: bool, c: Color, d: Defaults, hb: bool)
    requires ChosenColor(c) && c.Indexed? && c.idx < 16 && argi < n <= |mem|
    requires mem[argi] == ColorArgs(c, fg)[0]
    ensures ColorSet(q, mem, n, argi, fg, c, d, hb)
  {
    assert ColorArgs(c, fg) == [mem[argi]];
    PaletteTold(q, mem[argi], fg, c, d, hb);
    hide SetPen, ColorArgs, Told;
    SetSingle(q, mem, n, argi, d, hb);
  }

  lemma SetTold(q: Pen, mem: seq<nat>, n: nat, argi: nat, fg: bool, c: Color, d: Defaults, hb: bool)
    requires ChosenColor(c) && argi + |ColorArgs(c, fg)| <= n <= |mem|
    requires mem[argi..argi + |ColorArgs(c, fg)|] == ColorArgs(c, fg)
    ensures ColorSet(q, mem, n, argi, fg, c, d, hb)
  {
    assert |ColorArgs(c, fg)| == if c.Rgb? then 5 else if c.idx >= 16 then 3 else 1;
    hide ColorArgs, ColorSet, ChosenColor;
    if c.Rgb? {
      RgbSet(q, mem, n, argi, fg, c, d, hb);
    } else if c.idx >= 16 {
      IndexSet(q, mem, n, argi, fg, c, d, hb);
    } else {
      assert mem[argi..argi + 1][0] == mem[argi];
      PaletteSet(q, mem, n, argi, fg, c, d, hb);
    }
  }

  lemma PaletteTold(q: Pen, arg: nat, fg: bool, c: Color, d: Defaults, hb: bool)
    requires c.Indexed? && c.idx < 16 && ChosenColor(c) && [arg] == ColorArgs(c, fg)
    ensures Told(q, arg, false, 0, q.fg, d, hb) == WithColor(q, fg, Lit(q, fg, c, hb))
    ensures arg < MISSING && arg !in {0, 38, 48}
  {
  }

  predicate Simple(p: Pen, k: nat) {
    k != 9 && k != 10 && !(k == 2 && p.underline == CURLY)
  }

  /** What a part of at most one parameter makes of the pen. */
  predicate TellsNext(p: Pen, k: nat, d: Defaults, hb: bool)
    requires k < 12
  {
    if Part(p, k) == [] then Upto(p, d, k, hb) == Upto(p, d, k + 1, hb)
    else
      var a := Part(p, k)[0];
      && Part(p, k) == [a] && a < MISSING && a != 0 && a != 38 && a != 48
      && Told(Upto(p, d, k, hb), a, false, 0, Upto(p, d, k, hb).fg, d, hb) == Upto(p, d, k + 1, hb)
  }

  lemma EarlyTold(p: Pen, k: nat, d: Defaults, hb: bool)
    requires k < 4 && Simple(p, k) && p.underline <= CURLY && d.fg.defaultFg
    ensures TellsNext(p, k, d, hb)
  {
  }

  lemma MiddleTold(p: Pen, k: nat, d: Defaults, hb: bool)
    requires 4 <= k < 7
    ensures TellsNext(p, k, d, hb)
  {
    OnTold(Upto(p, d, k, hb), k + 3, false, 0, Upto(p, d, k, hb).fg, d, hb);
    hide Told, Bright, ColorArgs;
  }

  lemma FontTold(p: Pen, d: Defaults, hb: bool)
    requires p.font <= 9
    ensures TellsNext(p, 7, d, hb)
  {
  }

  lemma DoubleTold(p: Pen, d: Defaults, hb: bool)
    ensures TellsNext(p, 8, d, hb)
  {
    OffTold(Upto(p, d, 8, hb), 21, false, 0, Upto(p, d, 8, hb).fg, d, hb);
    hide Told, Bright, ColorArgs;
  }

  lemma BaselineTold(p: Pen, d: Defaults, hb: bool)
    requires ValidPen(p, d)
    ensures TellsNext(p, 11, d, hb)
  {
    BaselineSet(Upto(p, d, 11, hb), if p.baseline == RAISE then 73 else 74, Upto(p, d, 11, hb).fg, d, hb);
    hide ChosenColor, Bright, ColorArgs, Told;
  }

  lemma BaselineSet(q: Pen, arg: nat, looked: Color, d: Defaults, hb: bool)
    requires arg == 73 || arg == 74
    ensures Told(q, arg, false, 0, looked, d, hb) == q.(small := true, baseline := if arg == 73 then RAISE else LOWER)
  {
  }

  lemma PartTold(p: Pen, k: nat, d: Defaults, hb: bool)
    requires ValidPen(p, d) && ValidDefaults(d) && k < 12 && Simple(p, k)
    ensures TellsNext(p, k, d, hb)
  {
    assert p.underline <= CURLY && p.font <= 9 && d.fg.defaultFg;
    assert k != 9 && k != 10;
    hide TellsNext, ValidPen, Part;
    if k < 4 {
      EarlyTold(p, k, d, hb);
    } else if k < 7 {
      MiddleTold(p, k, d, hb);
    } else if k == 7 {
      FontTold(p, d, hb);
    } else if k == 8 {
      DoubleTold(p, d, hb);
    } else {
      BaselineTold(p, d, hb);
    }
  }

  lemma ColorPart(p: Pen, k: nat, d: Defaults, hb: bool)
    requires ValidPen(p, d) && ValidDefaults(d) && (k == 9 || k == 10)
    ensures var c := if k == 9 then p.fg else p.bg;
      && Part(p, k) == ColorArgs(c, k == 9)
      && (if Part(p, k) == [] then Upto(p, d, k + 1, hb) == Upto(p, d, k, hb)
          else
            && ChosenColor(c)
            && Upto(p, d, k + 1, hb) == WithColor(Upto(p, d, k, hb), k == 9, Lit(Upto(p, d, k, hb), k == 9, c, hb)))
  {
  }

  lemma CurlyPart(p: Pen, d: Defaults, hb: bool)
    requires p.underline == CURLY
    ensures Part(p, 2) == [MORE + 4, 3] && Upto(p, d, 3, hb) == Upto(p, d, 2, hb).(underline := CURLY)
  {
  }

  predicate Reads(p: Pen, k: nat, mem: seq<nat>, n: nat, i: nat)
    requires k < 12
  {
    i + |Part(p, k)| <= n <= |mem| && mem[i..i + |Part(p, k)|] == Part(p, k)
  }

  /** Setting one part of the told pen. */
  ghost predicate SetsPart(p: Pen, k: nat, mem: seq<nat>, n: nat, i: nat, d: Defaults, hb: bool)
    requires k < 12
  {
    SetPen(Upto(p, d, k, hb), mem, n, i, d, hb) ==
    SetPen(Upto(p, d, k + 1, hb), mem, n, i + |Part(p, k)|, d, hb)
  }

  lemma SetSimplePart(p: Pen, k: nat, mem: seq<nat>, n: nat, i: nat, d: Defaults, hb: bool)
    requires ValidPen(p, d) && ValidDefaults(d) && k < 12 && Simple(p, k) && Reads(p, k, mem, n, i)
    ensures SetsPart(p, k, mem, n, i, d, hb)
  {
    PartTold(p, k, d, hb);
    hide Upto, Part, SetPen, Told, ValidPen;
    if Part(p, k) != [] {
      SliceAt(mem, i, Part(p, k));
      assert mem[i + 0] == Part(p, k)[0];
      SetSingle(Upto(p, d, k, hb), mem, n, i, d, hb);
    }
  }

  lemma SetCurlyPart(p: Pen, mem: seq<nat>, n: nat, i: nat, d: Defaults, hb: bool)
    requires p.underline == CURLY && Reads(p, 2, mem, n, i)
    ensures SetsPart(p, 2, mem, n, i, d, hb)
  {
    CurlyPart(p, d, hb);
    hide Upto, Part, SetPen;
    SliceAt(mem, i, Part(p, 2));
    assert mem[i + 0] == MORE + 4 && mem[i + 1] == 3;
    SetCurly(Upto(p, d, 2, hb), mem, n, i, d, hb);
  }

  lemma SetNoColor(p: Pen, k: nat, mem: seq<nat>, n: nat, i: nat, d: Defaults, hb: bool)
    requires k < 12 && Part(p, k) == [] && Upto(p, d, k + 1, hb) == Upto(p, d, k, hb)
    ensures SetsPart(p, k, mem, n, i, d, hb)
  {
    hide Upto, Part, SetPen;
  }

  lemma SetChosen(p: Pen, k: nat, mem: seq<nat>, n: nat, i: nat, c: Color, d: Defaults, hb: bool)
    requires k < 12 && ChosenColor(c) && Part(p, k) == ColorArgs(c, k == 9) && Reads(p, k, mem, n, i)
    requires Upto(p, d, k + 1, hb) == WithColor(Upto(p, d, k, hb), k == 9, Lit(Upto(p, d, k, hb), k == 9, c, hb))
    ensures SetsPart(p, k, mem, n, i, d, hb)
  {
    hide Upto, Part, SetPen, ColorArgs, WithColor, ChosenColor, Lit, Bright;
    SetTold(Upto(p, d, k, hb), mem, n, i, k == 9, c, d, hb);
  }

  lemma SetColorPart(p: Pen, k: nat, mem: seq<nat>, n: nat, i: nat, d: Defaults, hb: bool)
    requires ValidPen(p, d) && ValidDefaults(d) && (k == 9 || k == 10) && Reads(p, k, mem, n, i)
    ensures SetsPart(p, k, mem, n, i, d, hb)
  {
    ColorPart(p, k, d, hb);
    hide *;
    if Part(p, k) == [] {
      SetNoColor(p, k, mem, n, i, d, hb);
    } else {
      SetChosen(p, k, mem, n, i, if k == 9 then p.fg else p.bg, d, hb);
    }
  }

  lemma SetPart(p: Pen, k: nat, mem: seq<nat>, n: nat, i: nat, d: Defaults, hb: bool)
    requires ValidPen(p, d) && ValidDefaults(d) && k < 12 && Reads(p, k, mem, n, i)
    ensures SetsPart(p, k, mem, n, i, d, hb)
  {
    hide Reads, SetsPart, ValidPen, ValidDefaults;
    if Simple(p, k) {
      SetSimplePart(p, k, mem, n, i, d, hb);
    } else if k == 2 {
      SetCurlyPart(p, mem, n, i, d, hb);
    } else {
      SetColorPart(p, k, mem, n, i, d, hb);
    }
  }

  lemma {:induction false} SetParts(p: Pen, k: nat, mem: seq<nat>, n: nat, i: nat, d: Defaults, hb: bool)
    requires ValidPen(p, d) && ValidDefaults(d) && k <= 12
    requires i <= n <= |mem| && mem[i..n] == PartsFrom(p, k)
    ensures SetPen(Upto(p, d, k, hb), mem, n, i, d, hb) == Upto(p, d, 12, hb)
    decreases 12 - k
  {
    hide Part, SetPen, Upto, ValidPen, Reads, ValidDefaults, PartsFrom;
    if k == 12 {
      SetNone(Upto(p, d, 12, hb), p, mem, n, i, d, hb);
    } else {
      PartsCut(p, k, mem, n, i);
      SetPart(p, k, mem, n, i, d, hb);
      SetParts(p, k + 1, mem, n, i + |Part(p, k)|, d, hb);
    }
  }

  lemma SetNone(q: Pen, p: Pen, mem: seq<nat>, n: nat, i: nat, d: Defaults, hb: bool)
    requires i <= n <= |mem| && mem[i..n] == PartsFrom(p, 12)
    ensures SetPen(q, mem, n, i, d, hb) == q
  {
    assert i == n;
  }

  lemma PartsCut(p: Pen, k: nat, mem: seq<nat>, n: nat, i: nat)
    requires k < 12 && i <= n <= |mem| && mem[i..n] == PartsFrom(p, k)
    ensures Reads(p, k, mem, n, i) && i + |Part(p, k)| <= n <= |mem| && mem[i + |Part(p, k)|..n] == PartsFrom(p, k + 1)
  {
    var l := |Part(p, k)|;
    assert mem[i..n] == Part(p, k) + PartsFrom(p, k + 1);
    hide PartsFrom, Part;
    ConcatSlices(Part(p, k), PartsFrom(p, k + 1));
    assert mem[i..n][..l] == mem[i..i + l] && mem[i..n][l..] == mem[i + l..n];
  }

  /** Setting what is told, on a pen just reset, gives the pen back, whatever the array of
      parameters holds behind it, unless bold brightens its colour. */
  lemma SetGetPen(p: Pen, d: Defaults, rest: seq<nat>, hb: bool)
    requires ValidPen(p, d) && ValidDefaults(d)
    ensures SetPen(Reset(d), GetPen(p) + rest, |GetPen(p)|, 0, d, hb) == Bright(p, hb)
  {
    assert Upto(p, d, 0, hb) == Reset(d) && Upto(p, d, 12, hb) == Bright(p, hb);
    hide Upto, Reset, ValidPen, SetPen, PartsFrom;
    SetParts(p, 0, GetPen(p) + rest, |GetPen(p)|, 0, d, hb);
  }

  // ---- Any number of control sequences ----

  /** The parameters of one SGR sequence: the first `argcount` of an array. */
  datatype Parameters = Parameters(mem: seq<nat>, argcount: nat)

  /** The pen after some SGR sequences, starting from a reset. */
  function PenAfter(told: seq<Parameters>, d: Defaults, hb: bool): Pen {
    if told == [] then Reset(d)
    else
      var last := told[|told| - 1];
      SetPen(PenAfter(told[..|told| - 1], d, hb), last.mem, last.argcount, 0, d, hb)
  }

  lemma {:induction false} PenAfterValid(told: seq<Parameters>, d: Defaults, hb: bool)
    ensures ValidPen(PenAfter(told, d, hb), d)
  {
    if told != [] {
      var last := told[|told| - 1];
      PenAfterValid(told[..|told| - 1], d, hb);
      hide ValidPen, SetPen;
      SetPenValid(PenAfter(told[..|told| - 1], d, hb), last.mem, last.argcount, 0, d, hb);
    }
  }

  /** SGR sequences that make a pen; a colour that bold would brighten comes after bold, by its
      number in the palette. */
  function Making(p: Pen, d: Defaults, hb: bool): seq<Parameters> {
    if Dulled(p, hb) then
      var plain := GetPen(p.(fg := d.fg));
      [Parameters(plain, |plain|), Parameters([MORE + 38, MORE + 5, p.fg.idx], 3)]
    else [Parameters(GetPen(p), |GetPen(p)|)]
  }

  /** Every pen that SGR keeps to can be made: none is excluded in vain. */
  lemma EveryPen(p: Pen, d: Defaults, hb: bool)
    requires ValidPen(p, d) && ValidDefaults(d)
    ensures PenAfter(Making(p, d, hb), d, hb) == p
  {
    var first := if Dulled(p, hb) then p.(fg := d.fg) else p;
    SetGetPen(first, d, [], hb);
    assert GetPen(first) + [] == GetPen(first);
    var one := [Parameters(GetPen(first), |GetPen(first)|)];
    assert one[..0] == [];
    hide SetPen, GetPen;
    assert PenAfter(one, d, hb) == first;
    if Dulled(p, hb) {
      assert Making(p, d, hb)[..1] == one;
      SetDull(first, p.fg.idx, d, hb);
    }
  }

  lemma SetDull(q: Pen, idx: nat, d: Defaults, hb: bool)
    requires idx < 8
    ensures SetPen(q, [MORE + 38, MORE + 5, idx], 3, 0, d, hb) == q.(fg := Indexed(false, false, idx))
  {
    SetIndexed(q, [MORE + 38, MORE + 5, idx], 3, 0, true, idx, d, hb);
    hide Looked, Told;
  }

  /** A bold pen in the second of the colours. */
  function Dull(d: Defaults): Pen { Reset(d).(bold := true, fg := Indexed8(1)) }

  /** A pen with every attribute and two colours by their parts. */
  const FULL := Pen(Rgb(false, false, 1, 2, 3), Rgb(false, false, 4, 5, 6), true, CURLY, true, true, true, true, true, 1, true, RAISE)

  /** The pen that is not restored, and one told by twenty parameters, are made by SGR. */
  lemma Exceptions(d: Defaults, hb: bool)
    requires ValidDefaults(d)
    ensures Dulled(Dull(d), true) && PenAfter(Making(Dull(d), d, true), d, true) == Dull(d)
    ensures |GetPen(FULL)| == 20 && PenAfter(Making(FULL, d, hb), d, hb) == FULL
  {
    hide *;
    DullValid(d);
    EveryPen(Dull(d), d, true);
    FullTold();
    FullValid(d);
    EveryPen(FULL, d, hb);
  }

  lemma DullValid(d: Defaults)
    requires ValidDefaults(d)
    ensures Dulled(Dull(d), true) && ValidPen(Dull(d), d)
  {
  }

  lemma FullValid(d: Defaults)
    ensures ValidPen(FULL, d)
  {
  }

  lemma FullTold()
    ensures |GetPen(FULL)| == 20
  {
    assert |PartsFrom(FULL, 11)| == 1;
    assert |PartsFrom(FULL, 10)| == 6;
    hide PartsFrom;
    assert |PartsFrom(FULL, 9)| == 11 by { NextPart(FULL, 9); }
    GetPenParts(FULL);
  }

  lemma NextPart(p: Pen, k: nat)
    requires k < 12
    ensures |PartsFrom(p, k)| == |Part(p, k)| + |PartsFrom(p, k + 1)|
  {
  }

  // ---- The pen changed in place ----

  lemma OnTold(p: Pen, arg: nat, more: bool, style: nat, looked: Color, d: Defaults, highbright: bool)
    requires 1 < arg < 10
    ensures Told(p, arg, more, style, looked, d, highbright) ==
      Pen(p.fg, p.bg, p.bold, if arg == 4 then (if more then UnderlineStyle(style) else SINGLE) else p.underline,
          arg == 3 || p.italic, arg == 5 || p.blink, arg == 7 || p.reverse, arg == 8 || p.conceal,
          arg == 9 || p.strike, p.font, p.small, p.baseline)
  {
    hide UnderlineStyle;
  }

  lemma OffTold(p: Pen, arg: nat, more: bool, style: nat, looked: Color, d: Defaults, highbright: bool)
    requires 10 <= arg < 30
    ensures Told(p, arg, more, style, looked, d, highbright) ==
      Pen(p.fg, p.bg, arg != 22 && p.bold, if arg == 21 then DOUBLE else if arg == 24 then 0 else p.underline,
          arg != 23 && p.italic, arg != 25 && p.blink, arg != 27 && p.reverse, arg != 28 && p.conceal,
          arg != 29 && p.strike, if arg <= 19 then arg - 10 else p.font, p.small, p.baseline)
  {
  }

  lemma TextTold(p: Pen, arg: nat, more: bool, style: nat, looked: Color, d: Defaults, highbright: bool)
    requires 30 <= arg <= 39 || 90 <= arg <= 97
    ensures Told(p, arg, more, style, looked, d, highbright) == p.(fg := Foreground(p, arg, looked, d, highbright))
  {
    hide Foreground;
  }

  lemma GroundTold(p: Pen, arg: nat, more: bool, style: nat, looked: Color, d: Defaults, highbright: bool)
    requires 40 <= arg <= 49 || 100 <= arg <= 107
    ensures Told(p, arg, more, style, looked, d, highbright) == p.(bg := Background(arg, looked, d, p.bg))
  {
    assert Foreground(p, arg, looked, d, highbright) == p.fg;
    hide Background, Foreground;
  }

  lemma BoldTold(p: Pen, more: bool, style: nat, looked: Color, d: Defaults, highbright: bool)
    ensures Told(p, 1, more, style, looked, d, highbright) ==
      p.(bold := true, fg := Foreground(p, 1, looked, d, highbright))
  {
    hide Foreground;
  }

  /** The pen of a terminal, changed in place. */
  class PenState {
    var pen: Pen
    var highbright: bool
    const defaults: Defaults

    constructor (defaults: Defaults)
      ensures pen == Reset(defaults) && this.defaults == defaults && !highbright
    {
      this.defaults := defaults;
      pen, highbright := Reset(defaults), false;
    }

    method Bold(more: bool, style: nat, ghost looked: Color)
      modifies `pen
      ensures pen == Told(old(pen), 1, more, style, looked, defaults, highbright)
    {
      BoldTold(pen, more, style, looked, defaults, highbright);
      hide Told, Indexed8;
      pen := pen.(bold := true);
      if !pen.fg.defaultFg && pen.fg.Indexed? && pen.fg.idx < 8 && highbright {
        pen := pen.(fg := Indexed8(pen.fg.idx + 8));
      }
    }

    /** The parameters that switch an attribute on. */
    method SwitchOn(arg: nat, more: bool, style: nat, ghost looked: Color)
      requires 1 < arg < 10
      modifies `pen
      ensures pen == Told(old(pen), arg, more, style, looked, defaults, highbright)
    {
      OnTold(pen, arg, more, style, looked, defaults, highbright);
      hide *;
      if arg == 3 {
        pen := pen.(italic := true);
      } else if arg == 4 {
        pen := pen.(underline := SINGLE);
        if more {
          pen := pen.(underline := UnderlineStyle(style));
        }
      } else if arg == 5 {
        pen := pen.(blink := true);
      } else if arg == 7 {
        pen := pen.(reverse := true);
      } else if arg == 8 {
        pen := pen.(conceal := true);
      } else if arg == 9 {
        pen := pen.(strike := true);
      }
    }

    /** The fonts and the double underline. */
    method Style(arg: nat, more: bool, style: nat, ghost looked: Color)
      requires 10 <= arg < 22
      modifies `pen
      ensures pen == Told(old(pen), arg, more, style, looked, defaults, highbright)
    {
      OffTold(pen, arg, more, style, looked, defaults, highbright);
      hide Told;
      if arg <= 19 {
        pen := pen.(font := arg - 10);
      } else if arg == 21 {
        pen := pen.(underline := DOUBLE);
      }
    }

    /** The parameters that switch an attribute off. */
    method SwitchOff(arg: nat, more: bool, style: nat, ghost looked: Color)
      requires 22 <= arg < 30
      modifies `pen
      ensures pen == Told(old(pen), arg, more, style, looked, defaults, highbright)
    {
      OffTold(pen, arg, more, style, looked, defaults, highbright);
      hide Told;
      if arg == 22 {
        pen := pen.(bold := false);
      } else if arg == 23 {
        pen := pen.(italic := false);
      } else if arg == 24 {
        pen := pen.(underline := 0);
      } else if arg == 25 {
        pen := pen.(blink := false);
      } else if arg == 27 {
        pen := pen.(reverse := false);
      } else if arg == 28 {
        pen := pen.(conceal := false);
      } else if arg == 29 {
        pen := pen.(strike := false);
      }
    }

    method PaintText(arg: nat, more: bool, style: nat, looked: Color)
      requires 30 <= arg <= 39 || 90 <= arg <= 97
      modifies `pen
      ensures pen == Told(old(pen), arg, more, style, looked, defaults, highbright)
    {
      TextTold(pen, arg, more, style, looked, defaults, highbright);
      hide Told, Indexed8;
      var fg: Color;
      if arg <= 37 {
        fg := Indexed8(arg - 30 + if pen.bold && highbright then 8 else 0);
      } else if arg == 38 {
        fg := looked;
      } else if arg == 39 {
        fg := defaults.fg;
      } else {
        fg := Indexed8(arg - 90 + 8);
      }
      pen := pen.(fg := fg);
    }

    method PaintGround(arg: nat, more: bool, style: nat, looked: Color)
      requires 40 <= arg <= 49 || 100 <= arg <= 107
      modifies `pen
      ensures pen == Told(old(pen), arg, more, style, looked, defaults, highbright)
    {
      GroundTold(pen, arg, more, style, looked, defaults, highbright);
      hide Told, Indexed8;
      var bg: Color;
      if arg <= 47 {
        bg := Indexed8(arg - 40);
      } else if arg == 48 {
        bg := looked;
      } else if arg == 49 {
        bg := defaults.bg;
      } else {
        bg := Indexed8(arg - 100 + 8);
      }
      pen := pen.(bg := bg);
    }

    /** The baseline; any other parameter changes nothing. */
    method Shift(arg: nat, more: bool, style: nat, ghost looked: Color)
      requires 50 <= arg < 90 || 98 <= arg < 100 || 108 <= arg
      modifies `pen
      ensures pen == Told(old(pen), arg, more, style, looked, defaults, highbright)
    {
      if 73 <= arg <= 75 {
        pen := pen.(small := arg != 75, baseline := if arg == 73 then RAISE else if arg == 74 then LOWER else 0);
      }
    }

    /** The parameter at `argi`; `last` is the last one it takes. */
    method SetParameter(args: array<nat>, argcount: nat, argi: nat) returns (last: nat)
      requires argi < argcount <= args.Length
      modifies `pen
      ensures pen == SetOne(old(pen), args[..], argcount, argi, defaults, highbright)
      ensures last == LastTaken(old(pen), args[..], argcount, argi)
    {
      ghost var mem := args[..];
      assert forall i: nat :: At(mem, i) == if i < args.Length then args[i] else 0;
      var arg := Arg(args[argi]);
      var more := HasMore(args[argi]);
      var next := if argi + 1 < args.Length then args[argi + 1] else 0;
      var looked := Looked(pen, args[..], argcount, argi);
      last := argi;
      hide At, Arg, HasMore, Told, LookupColour;
      if arg == MISSING || arg == 0 {
        pen := Reset(defaults);
      } else if arg == 1 {
        Bold(more, Arg(next), looked.color);
      } else if arg < 10 {
        SwitchOn(arg, more, Arg(next), looked.color);
        if arg == 4 && more {
          last := argi + 1;
        }
      } else if arg < 22 {
        Style(arg, more, Arg(next), looked.color);
      } else if arg < 30 {
        SwitchOff(arg, more, Arg(next), looked.color);
      } else if arg < 40 || 90 <= arg < 98 {
        PaintText(arg, more, Arg(next), looked.color);
        if arg == 38 {
          last := argi + 1 + looked.taken;
        }
      } else if arg < 50 || 100 <= arg < 108 {
        PaintGround(arg, more, Arg(next), looked.color);
        if arg == 48 {
          last := argi + 1 + looked.taken;
        }
      } else {
        Shift(arg, more, Arg(next), looked.color);
      }
    }

    method SkipMore(args: array<nat>, argi: nat) returns (r: nat)
      ensures r == PastMore(args[..], argi)
    {
      r := argi;
      while r < args.Length && HasMore(args[r])
        invariant PastMore(args[..], r) == PastMore(args[..], argi)
      {
        r := r + 1;
      }
      r := r + 1;
    }

    /** SGR: all parameters in order. */
    method Set(args: array<nat>, argcount: nat)
      requires argcount <= args.Length
      modifies `pen
      ensures pen == SetPen(old(pen), args[..], argcount, 0, defaults, highbright)
    {
      ghost var mem := args[..];
      var argi := 0;
      while argi < argcount
        invariant SetPen(pen, mem, argcount, argi, defaults, highbright) ==
                  SetPen(old(pen), mem, argcount, 0, defaults, highbright)
      {
        var last := SetParameter(args, argcount, argi);
        argi := SkipMore(args, last);
        hide SetOne, LastTaken, PastMore;
      }
    }

    /** One parameter told, if `b`. */
    method Tell(args: array<nat>, argi: nat, b: bool, a: nat) returns (r: nat)
      requires argi <= args.Length && (b ==> argi < args.Length)
      modifies args
      ensures r == argi + |If(b, a)| && args[..r] == old(args[..argi]) + If(b, a)
    {
      r := argi;
      if b {
        args[r] := a;
        r := r + 1;
      }
    }

    method TellColor(args: array<nat>, argi: nat, c: Color, fg: bool) returns (r: nat)
      requires argi + |ColorArgs(c, fg)| <= args.Length
      modifies args
      ensures r == argi + |ColorArgs(c, fg)| && args[..r] == old(args[..argi]) + ColorArgs(c, fg)
    {
      r := argi;
      if if fg then c.defaultFg else c.defaultBg {
        return;
      }
      if c.Indexed? {
        if c.idx < 8 {
          args[r] := c.idx + if fg then 30 else 40;
          r := r + 1;
        } else if c.idx < 16 {
          args[r] := c.idx - 8 + if fg then 90 else 100;
          r := r + 1;
        } else {
          args[r], args[r + 1], args[r + 2] := MORE + (if fg then 38 else 48), MORE + 5, c.idx;
          r := r + 3;
        }
      } else {
        args[r], args[r + 1] := MORE + (if fg then 38 else 48), MORE + 2;
        args[r + 2], args[r + 3], args[r + 4] := MORE + c.red, MORE + c.green, c.blue;
        r := r + 5;
      }
    }

    /** One part told after the others. */
    method TellPart(args: array<nat>, argi: nat, ghost p: Pen, ghost k: nat, b: bool, a: nat) returns (r: nat)
      requires k < 12 && args.Length >= 20 && argi <= args.Length && PartsTold(args[..argi], p, k)
      requires Part(p, k) == If(b, a)
      modifies args
      ensures r <= args.Length && PartsTold(args[..r], p, k + 1)
    {
      PartsNext(args[..argi], p, k);
      hide PartsFrom, Part, GetPen, PartsTold;
      r := Tell(args, argi, b, a);
    }

    method TellCurly(args: array<nat>, argi: nat, b: bool) returns (r: nat)
      requires argi <= args.Length && (b ==> argi + 2 <= args.Length)
      modifies args
      ensures r <= args.Length && args[..r] == old(args[..argi]) + if b then [MORE + 4, 3] else []
    {
      r := argi;
      if b {
        args[r], args[r + 1] := MORE + 4, 3;
        r := r + 2;
      }
    }

    method TellUnderline(args: array<nat>, argi: nat, ghost p: Pen, underline: nat) returns (r: nat)
      requires args.Length >= 20 && argi <= args.Length && PartsTold(args[..argi], p, 2)
      requires Part(p, 2) == if underline == CURLY then [MORE + 4, 3] else If(underline == SINGLE, 4)
      modifies args
      ensures r <= args.Length && PartsTold(args[..r], p, 3)
    {
      PartsNext(args[..argi], p, 2);
      hide PartsFrom, Part, GetPen, PartsTold;
      ghost var pre := args[..argi];
      if underline == CURLY {
        assert If(underline == SINGLE, 4) == [] && pre + [] == pre;
      } else {
        assert pre + If(underline == SINGLE, 4) + [] == pre + If(underline == SINGLE, 4);
      }
      hide If;
      r := Tell(args, argi, underline == SINGLE, 4);
      r := TellCurly(args, r, underline == CURLY);
    }

    method TellPenColor(args: array<nat>, argi: nat, ghost p: Pen, ghost k: nat, c: Color, fg: bool) returns (r: nat)
      requires k < 12 && args.Length >= 20 && argi <= args.Length && PartsTold(args[..argi], p, k)
      requires Part(p, k) == ColorArgs(c, fg)
      modifies args
      ensures r <= args.Length && PartsTold(args[..r], p, k + 1)
    {
      PartsNext(args[..argi], p, k);
      hide PartsFrom, Part, GetPen, ColorArgs, PartsTold;
      r := TellColor(args, argi, c, fg);
    }

    method GetSwitches(args: array<nat>, p: Pen) returns (argc: nat)
      requires args.Length >= 20
      modifies args
      ensures argc <= args.Length && PartsTold(args[..argc], p, 5)
    {
      NoneTold(args[..0], p);
      PartValues(p);
      hide *;
      argc := TellPart(args, 0, p, 0, p.bold, 1);
      argc := TellPart(args, argc, p, 1, p.italic, 3);
      argc := TellUnderline(args, argc, p, p.underline);
      argc := TellPart(args, argc, p, 3, p.blink, 5);
      argc := TellPart(args, argc, p, 4, p.reverse, 7);
    }

    /** The pen as parameters; `argc` of them, in an array of at least twenty. */
    method Get(args: array<nat>) returns (argc: nat)
      requires args.Length >= 20
      modifies args
      ensures argc <= args.Length && args[..argc] == GetPen(pen)
    {
      var p := pen;
      PartValues(p);
      hide PartsFrom, Part, If, PartsTold, ColorArgs, GetPen;
      argc := GetSwitches(args, p);
      argc := TellPart(args, argc, p, 5, p.conceal, 8);
      argc := TellPart(args, argc, p, 6, p.strike, 9);
      argc := TellPart(args, argc, p, 7, p.font != 0, 10 + p.font);
      argc := TellPart(args, argc, p, 8, p.underline == DOUBLE, 21);
      argc := TellPenColor(args, argc, p, 9, p.fg, true);
      argc := TellPenColor(args, argc, p, 10, p.bg, false);
      var raised := p.baseline == RAISE;
      argc := TellPart(args, argc, p, 11, p.small && (raised || p.baseline == LOWER), if raised then 73 else 74);
      AllTold(args[..argc], p);
    }
  }

  /** Whether `s` holds the parts before the `k`th. */
  ghost predicate PartsTold(s: seq<nat>, p: Pen, k: nat)
    requires k <= 12
  {
    s + PartsFrom(p, k) == GetPen(p)
  }

  lemma NoneTold(s: seq<nat>, p: Pen)
    requires s == []
    ensures PartsTold(s, p, 0)
  {
    assert [] + GetPen(p) == GetPen(p);
  }

  lemma AllTold(s: seq<nat>, p: Pen)
    requires PartsTold(s, p, 12)
    ensures s == GetPen(p)
  {
  }

  lemma PartsNext(pre: seq<nat>, p: Pen, k: nat)
    requires k < 12 && PartsTold(pre, p, k)
    ensures PartsTold(pre + Part(p, k), p, k + 1) && |pre| + |Part(p, k)| <= 20
  {
    GetPenFits(p);
    AppendAssoc(pre, Part(p, k), PartsFrom(p, k + 1));
    hide GetPen;
  }

  lemma PartValues(p: Pen)
    ensures Part(p, 0) == If(p.bold, 1) && Part(p, 1) == If(p.italic, 3)
    ensures Part(p, 2) == if p.underline == CURLY then [MORE + 4, 3] else If(p.underline == SINGLE, 4)
    ensures Part(p, 3) == If(p.blink, 5) && Part(p, 4) == If(p.reverse, 7) && Part(p, 5) == If(p.conceal, 8)
    ensures Part(p, 6) == If(p.strike, 9) && Part(p, 7) == If(p.font != 0, 10 + p.font)
    ensures Part(p, 8) == If(p.underline == DOUBLE, 21)
    ensures Part(p, 9) == ColorArgs(p.fg, true) && Part(p, 10) == ColorArgs(p.bg, false)
    ensures Part(p, 11) ==
      If(p.small && (p.baseline == RAISE || p.baseline == LOWER), if p.baseline == RAISE then 73 else 74)
  {
  }
}
