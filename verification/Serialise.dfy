/** The bytes that the bridge gives for a line: ten little-endian words a cell, and the
    trailing cells that show nothing left out. */
module Serialise {
  import opened Seqs
  import opened Bytes
  import opened Grid
  import opened History

  const NO_CHAR := 0xffff_ffff

  /** What a line tells of a colour, and of a cell. */
  datatype Code = Default | Index(idx: nat) | Direct(red: nat, green: nat, blue: nat)

  datatype Shown = Shown(text: Text, width: nat, bold: bool, italic: bool, underlined: bool, blink: bool,
                         reverse: bool, conceal: bool, strike: bool, fg: Code, bg: Code)

  const NOTHING_SHOWN := Shown(Blank, 1, false, false, false, false, false, false, false, Default, Default)

  function CodeOf(c: Color, foreground: bool): Code {
    if (if foreground then c.defaultFg else c.defaultBg) then Default
    else match c
      case Indexed(_, _, idx) => Index(idx)
      case Rgb(_, _, r, g, b) => Direct(r, g, b)
  }

  function View(cell: ExtCell): Shown {
    Shown(cell.text, if cell.text.Gap? then 0 else cell.width, cell.pen.bold, cell.pen.italic, cell.pen.underline != 0,
          cell.pen.blink, cell.pen.reverse, cell.pen.conceal, cell.pen.strike,
          CodeOf(cell.pen.fg, true), CodeOf(cell.pen.bg, false))
  }

  /** The ranges of the C types. */
  predicate ValidColor(c: Color) {
    match c
    case Indexed(_, _, idx) => idx < 256
    case Rgb(_, _, r, g, b) => r < 256 && g < 256 && b < 256
  }

  predicate ValidText(t: Text) {
    t.Glyph? ==>
      && 1 <= |t.chars| <= MAX_CHARS && t.chars[0] != NO_CHAR
      && forall i :: 0 <= i < |t.chars| ==> 0 < t.chars[i] <= NO_CHAR
  }

  predicate ValidCell(c: ExtCell) {
    ValidText(c.text) && 1 <= c.width <= 2 && ValidColor(c.pen.fg) && ValidColor(c.pen.bg)
  }

  // ---- Words, bytes and bits ----

  function ByteAt(w: nat, i: nat): byte {
    if i == 0 then w % 256 else ByteAt(w / 256, i - 1)
  }

  function LittleEndian(bytes: seq<byte>): nat {
    if bytes == [] then 0 else bytes[0] + 256 * LittleEndian(bytes[1..])
  }

  lemma {:induction false} ByteRead(bytes: seq<byte>, i: nat)
    requires i < |bytes|
    ensures ByteAt(LittleEndian(bytes), i) == bytes[i]
  {
    if i > 0 {
      ByteRead(bytes[1..], i - 1);
    }
  }

  function BitsWord(bits: seq<bool>): nat {
    if bits == [] then 0 else (if bits[0] then 1 else 0) + 2 * BitsWord(bits[1..])
  }

  predicate HasBit(w: nat, i: nat) {
    if i == 0 then w % 2 == 1 else HasBit(w / 2, i - 1)
  }

  lemma {:induction false} BitRead(bits: seq<bool>, i: nat)
    requires i < |bits|
    ensures HasBit(BitsWord(bits), i) == bits[i]
  {
    if i > 0 {
      BitRead(bits[1..], i - 1);
    }
  }

  function Word(w: nat): (bytes: seq<byte>)
    ensures |bytes| == 4
  {
    [ByteAt(w, 0), ByteAt(w, 1), ByteAt(w, 2), ByteAt(w, 3)]
  }

  lemma WordRead(w: nat)
    requires w <= NO_CHAR
    ensures LittleEndian(Word(w)) == w
  {
    var a, b, c := w / 256, w / 256 / 256, w / 256 / 256 / 256;
    assert ByteAt(w, 0) == w % 256 && ByteAt(w, 1) == a % 256;
    assert ByteAt(w, 2) == ByteAt(a, 1) == ByteAt(b, 0) == b % 256;
    assert ByteAt(w, 3) == ByteAt(a, 2) == ByteAt(b, 1) == ByteAt(c, 0) == c;
    var s := Word(w);
    hide ByteAt;
    assert LittleEndian(s) == s[0] + 256 * LittleEndian(s[1..]);
    assert s[1..][1..] == s[2..] && s[2..][1..] == s[3..] && s[3..][1..] == [];
    assert LittleEndian(s[3..]) == c;
  }

  function CharWord(t: Text, i: nat): nat {
    if t.Glyph? && i < |t.chars| then t.chars[i] else 0
  }

  function ColorWord(c: Color, foreground: bool): nat {
    if (if foreground then c.defaultFg else c.defaultBg) then 256
    else match c
      case Indexed(_, _, idx) => idx
      case Rgb(_, _, r, g, b) => LittleEndian([b % 256, g % 256, r % 256, 1])
  }

  function Bits(p: Pen): seq<bool> {
    [p.bold, false, p.italic, p.underline != 0, p.blink, p.reverse, p.conceal, p.strike]
  }

  function Words(c: ExtCell): (w: seq<nat>)
    ensures |w| == 10
  {
    [CharWord(c.text, 0), CharWord(c.text, 1), CharWord(c.text, 2), CharWord(c.text, 3), CharWord(c.text, 4),
     CharWord(c.text, 5), if c.text.Gap? then 0 else c.width, BitsWord(Bits(c.pen)),
     ColorWord(c.pen.fg, true), ColorWord(c.pen.bg, false)]
  }

  // ---- Reading a line back ----

  function CharsFrom(w: seq<nat>, i: nat): seq<nat>
    requires i <= MAX_CHARS <= |w|
    decreases MAX_CHARS - i
  {
    if i == MAX_CHARS || w[i] == 0 then [] else [w[i]] + CharsFrom(w, i + 1)
  }

  function ReadCode(w: nat): Code {
    if w == 256 then Default
    else if w < 256 then Index(w)
    else Direct(ByteAt(w, 2), ByteAt(w, 1), ByteAt(w, 0))
  }

  function ReadCell(w: seq<nat>): Shown
    requires |w| == 10
  {
    var chars := CharsFrom(w, 0);
    var text := if w[6] == 0 then Gap else if chars == [] then Blank else Glyph(chars);
    Shown(text, w[6], HasBit(w[7], 0), HasBit(w[7], 2), HasBit(w[7], 3), HasBit(w[7], 4), HasBit(w[7], 5),
          HasBit(w[7], 6), HasBit(w[7], 7), ReadCode(w[8]), ReadCode(w[9]))
  }

  lemma {:induction false} CharsRead(w: seq<nat>, t: Text, i: nat)
    requires |w| == 10 && t.Glyph? && ValidText(t) && i <= |t.chars|
    requires forall k :: 0 <= k < MAX_CHARS ==> w[k] == CharWord(t, k)
    ensures CharsFrom(w, i) == t.chars[i..]
    decreases |t.chars| - i
  {
    if i < |t.chars| {
      CharsRead(w, t, i + 1);
      assert t.chars[i..] == [t.chars[i]] + t.chars[i + 1..];
    } else if i < MAX_CHARS {
      assert w[i] == 0;
    }
  }

  lemma ColorRead(c: Color, foreground: bool)
    requires ValidColor(c)
    ensures ReadCode(ColorWord(c, foreground)) == CodeOf(c, foreground) && ColorWord(c, foreground) <= NO_CHAR
  {
    if c.Rgb? {
      var bytes := [c.blue, c.green, c.red, 1];
      ByteRead(bytes, 0);
      ByteRead(bytes, 1);
      ByteRead(bytes, 2);
      assert bytes[1..][1..] == [c.red, 1] && [c.red, 1][1..] == [1] && [1][1..] == [];
      assert LittleEndian([1]) == 1 && LittleEndian([c.red, 1]) == c.red + 256;
      assert LittleEndian(bytes[1..]) == c.green + 256 * (c.red + 256);
      hide LittleEndian, ByteAt;
    }
  }

  lemma TextRead(c: ExtCell)
    requires ValidCell(c)
    ensures ReadCell(Words(c)).text == c.text
  {
    hide HasBit, BitsWord, ReadCode, ColorWord, LittleEndian, ByteAt;
    var w := Words(c);
    forall k | 0 <= k < MAX_CHARS ensures w[k] == CharWord(c.text, k) {
    }
    if c.text.Glyph? {
      CharsRead(w, c.text, 0);
      assert c.text.chars[0..] == c.text.chars;
    } else {
      assert w[0] == 0;
    }
  }

  /** Reading the words of a cell gives back all that a line tells of it. */
  lemma CellRead(c: ExtCell)
    requires ValidCell(c)
    ensures ReadCell(Words(c)) == View(c)
  {
    TextRead(c);
    ColorRead(c.pen.fg, true);
    ColorRead(c.pen.bg, false);
    var bits := Bits(c.pen);
    forall i | 0 <= i < |bits| ensures HasBit(BitsWord(bits), i) == bits[i] {
      BitRead(bits, i);
    }
    assert bits[0] == c.pen.bold && bits[2] == c.pen.italic && bits[3] == (c.pen.underline != 0);
    assert bits[4] == c.pen.blink && bits[5] == c.pen.reverse && bits[6] == c.pen.conceal && bits[7] == c.pen.strike;
    hide HasBit, BitsWord, ReadCode, ColorWord, CodeOf, Bits, CharWord, CharsFrom;
  }

  /** A cell that a line need not tell of. */
  predicate Significant(w: seq<nat>)
    requires |w| == 10
  {
    w[0] != 0 || w[6] != 1 || w[7] != 0 || w[8] != 256 || w[9] != 256
  }

  lemma ZeroHasNoBits(i: nat)
    ensures !HasBit(0, i)
  {
  }

  lemma {:induction false} NoBits(bits: seq<bool>)
    requires forall i :: 0 <= i < |bits| ==> !bits[i]
    ensures BitsWord(bits) == 0
  {
    if bits != [] {
      NoBits(bits[1..]);
    }
  }

  lemma OnlyDefaultsAreOmitted(c: ExtCell)
    requires ValidCell(c)
    ensures Significant(Words(c)) <==> View(c) != NOTHING_SHOWN
  {
    CellRead(c);
    if !Significant(Words(c)) {
      forall i: nat ensures !HasBit(0, i) {
        ZeroHasNoBits(i);
      }
    } else if View(c) == NOTHING_SHOWN {
      NoBits(Bits(c.pen));
      assert false;
    }
  }

  // ---- Whole lines ----

  function WordsBytes(words: seq<nat>): (bytes: seq<byte>)
    ensures |bytes| == 4 * |words|
  {
    if words == [] then [] else WordsBytes(words[..|words| - 1]) + Word(words[|words| - 1])
  }

  function CellBytes(c: ExtCell): (bytes: seq<byte>)
    ensures |bytes| == 40
  {
    WordsBytes(Words(c))
  }

  function LineBytes(cells: seq<ExtCell>): (bytes: seq<byte>)
    ensures |bytes| == 40 * |cells|
  {
    if cells == [] then [] else LineBytes(cells[..|cells| - 1]) + CellBytes(cells[|cells| - 1])
  }

  /** The cells up to the last that shows something. */
  function Kept(cells: seq<ExtCell>): (k: nat)
    ensures k <= |cells|
  {
    if cells == [] then 0
    else if Significant(Words(cells[|cells| - 1])) then |cells|
    else Kept(cells[..|cells| - 1])
  }

  function Views(cells: seq<ExtCell>): (r: seq<Shown>)
    ensures |r| == |cells|
  {
    seq(|cells|, i requires 0 <= i < |cells| => View(cells[i]))
  }

  function ReadWords(bytes: seq<byte>, n: nat): (words: seq<nat>)
    requires |bytes| == 4 * n
    ensures |words| == n
  {
    if n == 0 then [] else ReadWords(bytes[..4 * n - 4], n - 1) + [LittleEndian(bytes[4 * n - 4..])]
  }

  /** The cell in column `i` from the bytes of its line; one they do not reach shows nothing. */
  function ReadAt(bytes: seq<byte>, i: nat): Shown {
    if 40 * i + 40 <= |bytes| then ReadCell(ReadWords(bytes[40 * i..40 * i + 40], 10)) else NOTHING_SHOWN
  }

  function ReadLine(bytes: seq<byte>, cols: nat): (r: seq<Shown>)
    ensures |r| == cols
  {
    seq(cols, i requires 0 <= i < cols => ReadAt(bytes, i))
  }

  lemma {:induction false} WordsRead(words: seq<nat>)
    requires forall i :: 0 <= i < |words| ==> words[i] <= NO_CHAR
    ensures ReadWords(WordsBytes(words), |words|) == words
  {
    if words != [] {
      var n := |words| - 1;
      var bytes := WordsBytes(words);
      WordsRead(words[..n]);
      WordRead(words[n]);
      assert bytes[..4 * n] == WordsBytes(words[..n]) && bytes[4 * n..] == Word(words[n]);
    }
  }

  lemma CellBytesRead(c: ExtCell)
    requires ValidCell(c)
    ensures ReadCell(ReadWords(CellBytes(c), 10)) == View(c)
  {
    CellRead(c);
    ColorRead(c.pen.fg, true);
    ColorRead(c.pen.bg, false);
    BitsBound(Bits(c.pen));
    assert Pow2(8) == 256;
    WordsRead(Words(c));
  }

  function Pow2(n: nat): (r: nat)
    ensures r > 0
  {
    if n == 0 then 1 else 2 * Pow2(n - 1)
  }

  lemma {:induction false} BitsBound(bits: seq<bool>)
    ensures BitsWord(bits) < Pow2(|bits|)
  {
    if bits != [] {
      BitsBound(bits[1..]);
    }
  }

  lemma {:induction false} CellInLine(cells: seq<ExtCell>, i: nat)
    requires i < |cells|
    ensures LineBytes(cells)[40 * i..40 * i + 40] == CellBytes(cells[i])
  {
    hide CellBytes;
    var front := cells[..|cells| - 1];
    if i < |cells| - 1 {
      CellInLine(front, i);
      TakeDrop(LineBytes(cells), 40 * i, 40 * |front|);
    }
  }

  /** What a reader makes of a cell, given the bytes of the first `k` cells. */
  lemma PrefixRead(cells: seq<ExtCell>, k: nat, i: nat)
    requires k <= |cells| && i < |cells| && ValidCell(cells[i])
    ensures ReadAt(LineBytes(cells)[..40 * k], i) == if i < k then View(cells[i]) else NOTHING_SHOWN
  {
    var bytes := LineBytes(cells);
    if i < k {
      CellInLine(cells, i);
      CellBytesRead(cells[i]);
      hide LineBytes, CellBytes, ReadCell, ReadWords, View;
      SliceOfTake(bytes, 40 * k, 40 * i, 40 * i + 40);
    }
  }

  lemma {:induction false} OmittedShowNothing(cells: seq<ExtCell>, i: nat)
    requires Kept(cells) <= i < |cells| && ValidCell(cells[i])
    ensures View(cells[i]) == NOTHING_SHOWN
  {
    if i == |cells| - 1 {
      OnlyDefaultsAreOmitted(cells[i]);
    } else {
      OmittedShowNothing(cells[..|cells| - 1], i);
    }
  }

  lemma {:induction false} LastKeptShows(cells: seq<ExtCell>)
    requires Kept(cells) > 0 && ValidCell(cells[Kept(cells) - 1])
    ensures View(cells[Kept(cells) - 1]) != NOTHING_SHOWN
  {
    if Kept(cells) == |cells| {
      OnlyDefaultsAreOmitted(cells[|cells| - 1]);
    } else {
      LastKeptShows(cells[..|cells| - 1]);
    }
  }

  /** The bytes that are kept tell of the whole line. */
  lemma LineInvertible(cells: seq<ExtCell>)
    requires forall i :: 0 <= i < |cells| ==> ValidCell(cells[i])
    ensures ReadLine(LineBytes(cells)[..40 * Kept(cells)], |cells|) == Views(cells)
  {
    hide View, Kept, ReadAt, LineBytes, ValidCell;
    forall i | 0 <= i < |cells| ensures ReadAt(LineBytes(cells)[..40 * Kept(cells)], i) == View(cells[i]) {
      PrefixRead(cells, Kept(cells), i);
      if i >= Kept(cells) {
        OmittedShowNothing(cells, i);
      }
    }
  }

  /** No shorter run of whole cells would do. */
  lemma NothingToSpare(cells: seq<ExtCell>, k: nat)
    requires forall i :: 0 <= i < |cells| ==> ValidCell(cells[i])
    requires k < Kept(cells)
    ensures ReadLine(LineBytes(cells)[..40 * k], |cells|) != Views(cells)
  {
    hide View, Kept, ReadAt, LineBytes, ValidCell;
    var last := Kept(cells) - 1;
    PrefixRead(cells, k, last);
    LastKeptShows(cells);
    assert ReadLine(LineBytes(cells)[..40 * k], |cells|)[last] != Views(cells)[last];
  }

  // ---- Writing a line ----

  /** The bytes from `at` on are as they were. */
  twostate predicate SameFrom(out: array<byte>, at: nat)
    reads out
  {
    forall k :: at <= k < out.Length ==> out[k] == old(out[k])
  }

  method PutWord(out: array<byte>, at: nat, w: nat)
    requires at + 4 <= out.Length
    modifies out
    ensures out[..at + 4] == old(out[..at]) + Word(w) && SameFrom(out, at + 4)
  {
    for i := 0 to 4
      invariant out[..at] == old(out[..at]) && SameFrom(out, at + 4)
      invariant forall k :: 0 <= k < i ==> out[at + k] == ByteAt(w, k)
    {
      out[at + i] := ByteAt(w, i);
    }
    assert out[at..at + 4] == Word(w);
    assert out[..at + 4] == out[..at] + out[at..at + 4];
  }

  lemma WordsSnoc(words: seq<nat>, w: nat)
    requires w < |words|
    ensures WordsBytes(words[..w + 1]) == WordsBytes(words[..w]) + Word(words[w])
  {
    assert words[..w + 1][..w] == words[..w];
  }

  method PutCell(out: array<byte>, at: nat, words: seq<nat>)
    requires |words| == 10 && at + 40 <= out.Length
    modifies out
    ensures out[..at + 40] == old(out[..at]) + WordsBytes(words) && SameFrom(out, at + 40)
  {
    hide Word, WordsBytes;
    assert WordsBytes([]) == [];
    for w := 0 to 10
      invariant out[..at + 4 * w] == old(out[..at]) + WordsBytes(words[..w])
      invariant SameFrom(out, at + 40)
    {
      PutWord(out, at + 4 * w, words[w]);
      WordsSnoc(words, w);
      AppendAssoc(old(out[..at]), WordsBytes(words[..w]), Word(words[w]));
    }
    assert words[..10] == words;
  }

  lemma LineSnoc(cells: seq<ExtCell>, k: nat)
    requires k < |cells|
    ensures LineBytes(cells[..k + 1]) == LineBytes(cells[..k]) + CellBytes(cells[k])
    ensures Kept(cells[..k + 1]) == if Significant(Words(cells[k])) then k + 1 else Kept(cells[..k])
  {
    assert cells[..k + 1][..k] == cells[..k];
  }

  /** Writes the bytes of a line, and says how many of them matter. */
  method WriteLine(cells: seq<ExtCell>, out: array<byte>, size: nat) returns (used: int)
    requires size <= out.Length
    modifies out
    ensures used == -1 <==> size < 40 * |cells|
    ensures used == -1 ==> out[..] == old(out[..])
    ensures used != -1 ==>
      used == 40 * Kept(cells) && out[..40 * |cells|] == LineBytes(cells) && SameFrom(out, 40 * |cells|)
  {
    if size < 40 * |cells| {
      return -1;
    }
    used := 0;
    hide Words, WordsBytes, Significant;
    for col := 0 to |cells|
      invariant out[..40 * col] == LineBytes(cells[..col]) && SameFrom(out, 40 * |cells|)
      invariant used == 40 * Kept(cells[..col])
    {
      var words := Words(cells[col]);
      LineSnoc(cells, col);
      PutCell(out, 40 * col, words);
      if Significant(words) {
        used := 40 * (col + 1);
      }
    }
    assert cells[..|cells|] == cells;
  }
}
