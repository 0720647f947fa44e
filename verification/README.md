# A model of the terminal engine

Visualize runs each of its terminals in a process of its own, on a terminal engine (`src.vterm`) that turns
the bytes a program writes into a grid of cells with a bounded scrollback, rewraps that grid when the window
is resized, and tells its reader which rows to fetch again. This project models that engine in Dafny and
proves what it promises, and does the same for two scanners of the vendored expat (`external-src/expat`),
the content tokenizer and the machine for element declarations.

Code that works in place is modelled in place: the screen buffers and the ring of history lines are arrays in
classes, the parser, the decoders and the terminal state are classes whose methods update their fields, and
loops are loops. Each method is proved against a function on values, and the results below are proved about
those functions, so that they hold of the methods.

`dafny verify dfyconfig.toml` checks all of it.

## How it is laid out

- `Seqs`, `Bytes`, `Grid`: slices, bytes, cells and the logical lines that a grid of rows spells.
- `ReflowCopy`, `Reflow`, `ReflowLines`, `Resize`, `ResizeText`: resizing a buffer. The loop over logical
  lines from the bottom up, the copy of one line, the rows pushed to and popped from the scrollback, and what
  all of it does to the text a user sees.
- `History`, `ScreenCells`, `Pushing`, `Serialise`: the scrollback ring, the form in which rows enter it, and
  the bytes in which the bridge hands out a line.
- `ScreenSpec`, `Shift`, `Damage`, `Revisions`, `LiveScreen`: what the screen is asked to do, scrolling in
  place, the merging of damage, row revisions as a cache key, and the screen itself.
- `ParserSpec`, `Parser`: the escape-sequence parser as a machine that takes one byte at a time, and as it is
  written, on chunks.
- `Sgr`, `SgrReply`, `Utf8`, `Base64`, `Selection`: codecs in both directions.
- `TermSpec`, `TermCsi`, `TermSafe`, `TermState`: texts, controls, escapes and control sequences; what every
  one of them keeps; the terminal changed in place.
- `Wrap`, `Reports`, `EndToEnd`: terminal and screen together.
- `XmlSpec`, `XmlTok`, `XmlAtts`, `XmlRole`: the scanners of expat.

## Main results

- **Printing.** Paragraphs of single-width characters, each split into texts in any way and ended by CR LF,
  printed on a fresh terminal of any size of at least two rows and two columns: the rows sent to the
  scrollback and then those on the screen are the paragraphs cut into rows of the screen's width, with blank
  rows below, and continuation is flagged on exactly the rows that were wrapped into. The ring is in the state
  that this run of pushes leaves a bounded queue in: a row is missing only if it and all newer ones would
  exceed the limit of lines or of bytes (`EndToEnd.PrintParagraphs`, `Wrap.ParagraphsShown`,
  `History.RunLongest`).
- **Row revisions.** Which rows a write reports is stated exactly, request by request
  (`Revisions.WriteReports`) and event by event (`Reports.EventCovers`, `Reports.EventsSeen`). Where the exact
  condition holds, a row whose revision is unchanged has unchanged bytes over any number of writes of any
  events (`Reports.KeyOverEvents`); `EndToEnd.WriteEvents` is the write itself, on terminal and screen.
- **Safety over runs.** Texts, controls, escapes and control sequences in any order: the live and the saved
  cursor are inside the screen at every point of a run if and only if no event saves the cursor while it is
  behind the last column (`TermSafe.CursorsSafe`); the region is proper at every point if and only if no event
  asks for a left margin beyond the screen (`TermSafe.RegionProper`); and every request to the screen fits it
  (`TermSafe.RunKept`) where no glyph of a text is too wide and repetitions end on the screen, conditions that
  are necessary too (`TermSafe.TextFits`, `TermSafe.RepeatFits`).
- **Resizing.** What the screen and the scrollback read is kept by the reflow and by the exchange of rows with
  the scrollback; the cursor keeps its logical line and its very cell
  (`ResizeText.ReflowKeepsText`, `ResizeText.ResizeConservesRows`, `ResizeText.CursorKeepsItsCell`). The line
  at which the reflow stops is told by the old grid and the new size (`Reflow.TallLineIs`), and so are the
  resize that fails (`Resize.ResizeBuffer`) and the one that loses a row (`ResizeText.ResizeKeepsRows`).
- **Chunking is invisible.** The parser on chunks of any sizes does what the byte machine does
  (`Parser.Parser.WriteAll`).
- **Scrolling in place** is a simultaneous shift, for any overlap (`Shift.ScrollRect`, `Shift.CopyCells`).
- **Round trips.** The bytes of a line and the cells (`Serialise.LineInvertible`, and no fewer bytes would do,
  `Serialise.NothingToSpare`); the pen, its printed status reply, the parser and SGR (`SgrReply.PenRestored`);
  code points and UTF-8 in any chunks (`Utf8.RoundTrip`, `Utf8.Utf8Decoder.DecodeEncoded`,
  `Utf8.OnlyCanonical`); selections in base64, sent in any fragments and delivered in any pieces
  (`Base64.RoundTrip`, `Selection.Transfer`).
- **Expat.** Tokens are stable under more input (`XmlSpec.ScanStable`), the unchecked pass over attributes
  agrees with the checked one (`XmlAtts.PassesAgreeOnTags`), and the machine for content models decides its
  grammar with one counter (`XmlRole.DecidesGrammar`).

## Findings

Where the code does not do what it promises, the input and the exact condition:

| claim | input for which it fails | when it holds |
|---|---|---|
| a changed row is dirty and has the new revision | ED 1 or DECSED 1 with the cursor on the first row (state.c:1089-1101 tests columns where it should test rows): damage without rows is stored and swallows the row's own (`Revisions.EraseAboveUnseen`) | for one event, if and only if it is not that, or damage to the first row is stored or reported when it comes (`Reports.EventCovers`); for a row, if and only if some request touched it whose damage was not swallowed (`Revisions.WriteReports`) |
| left and right margins are proper | DECSLRM with a left margin beyond the screen and no right one (state.c:1491-1518) | for one sequence if and only if it is not that (`TermSafe.LeftRightSafe`); over a run, at every point, if and only if no event is (`TermSafe.RegionProper`) |
| the cursor stays inside the screen | that sequence, DECLRMM, `CSI ? 6 ; 1048 h` and DECRC, at every size (`TermSafe.CursorEscapes`) | for one event, if and only if it is no list of private modes that saves the cursor (1048, 1049) after mode 6 has put it behind the last column, which the state before and the parameters tell (`TermSafe.EventCursors`); over a run of any events, at every point, if and only if none is (`TermSafe.CursorsSafe`) |
| a glyph is put where it fits | a glyph of two columns, `CSI cols G` and REP, at every size (`TermSafe.OverhangReached`); a text with a glyph wider than the screen | a text, if and only if none of its glyphs is wider than the screen (`TermSafe.TextFits`); REP of a glyph with a width, if and only if the copies end on the screen (`TermSafe.RepeatFits`) |
| REP ends | REP on a fresh terminal (`TermSafe.RepeatHangs`; state.c:1248-1251 never moves on) | if and only if the last glyph has a width, or the cursor is at the column to fill already (`TermCsi.RepeatEnds`) |
| the status reply restores the pen | bold, then the second colour by its number in the palette, with bold set to brighten (`Sgr.Exceptions`) | if and only if it is not a bold pen in one of the first eight colours with that option (`SgrReply.PenRestored`); SGR reaches every such pen (`Sgr.EveryPen`) |
| the parser reads the status reply | a pen with every attribute and two colours by their parts, which takes twenty parameters (`Sgr.Exceptions`) | if and only if there are at most sixteen (`SgrReply.PrintedParses`) |
| a resize keeps every row | two rows that are one line, made one row high: the second is lost (`ResizeText.PairLosesRow`; screen.c:598-606) | if and only if the lowest line that does not fit has only blank rows below its first (`ResizeText.ResizeKeepsRows`), in particular if every line fits or that line is one row long |
| a resize finds the cursor | the same two rows with the cursor on the second (`Resize.PairLost`; screen.c:662-666 aborts) | if and only if the cursor is not on the last of several rows of the lowest line that does not fit (`Resize.ResizeBuffer`, of the request alone). A cursor higher up is put on row 0, less the rows that are then moved up: that can be negative, and only the caller brings it back (state.c:2044-2051) |
| decoded text is shortest-form | C3 FE A9: the replacement character, then the character that C3 A9 spells (`Utf8.StrayInside`; encoding.c:28-155) | a value is spelt by its own last bytes if and only if neither FE nor FF is among them (`Utf8.SpeltWhole`), and always once those are left out (`Utf8.OnlyCanonical`) |
| the decoder keeps to the room it has | C3 41 with room for one value (`Utf8.RoomExceeded`) | if and only if no byte below 80 cuts a character off when one place is left; otherwise one value goes past the room (`Utf8.Utf8Decoder.Decode`) |
| a fragment of a string has a length | ESC X ESC, and then an empty chunk (`Parser.EmptyChunk`): the length is -1 (parser.c:378-383) | if and only if no empty chunk comes straight after an ESC inside a string (`Parser.EndLengthSign`, `Parser.Parser.Read`) |

## Model

| member | source | states |
|---|---|---|
| EndToEnd.PrintParagraphs | src.vterm/src/state.c:272-436 | terminal and screen together print paragraphs so that scrollback and screen hold them cut into rows; the ring is what that run of pushes makes of it, and a row is missing from it only if it and all newer ones would exceed the limit of lines or of bytes |
| EndToEnd.WriteEvents | src.vterm/bridge.c:179-184 | terminal and screen together carry out a write of any events that the run theorem admits: the state of the run, the screen, marks and scrollback that its requests lead to, and, if every ED 1 or DECSED 1 on the first row comes when damage to that row is stored or reported, every row whose bytes changed is reported |
| Wrap.ParagraphsShown | src.vterm/src/state.c:272-436 | paragraphs printed on a fresh terminal, each split into texts in any way and ended by CR LF: the rows sent to the scrollback and then those on the screen are the paragraphs cut into rows of the screen's width, and blank rows; continuation is set exactly on rows that were wrapped into; no row is sent that had room; the cursor is on the row below |
| Reports.KeyOverEvents | src.vterm/bridge.c:179-198 | over any number of writes of events in which every ED 1 or DECSED 1 on the first row comes when damage to that row is stored or reported, a row that carries the revision it carried has the bytes it had |
| Reports.EventCovers | src.vterm/src/screen.c:104-159 | one event: every row it touches is stored or reported afterwards if and only if it is not ED 1 or DECSED 1 on the first row, or damage to that row is stored or reported when it comes |
| Reports.EventsSeen | src.vterm/src/state.c:272-1595 | over a run of events the requests all have rows, or start on a row whose damage is stored or reported, if and only if every ED 1 or DECSED 1 on the first row comes when damage to that row is |
| Revisions.RevisionIsKey | src.vterm/bridge.c:179-198 | over any number of writes of requests that have rows, or start on a row whose damage is stored or reported, a row that carries the revision it carried has the bytes it had |
| Revisions.WriteReports | src.vterm/bridge.c:179-184 | after a write of any requests that fit, a row is dirty with the new revision if and only if some request touched it whose damage was not swallowed by what was stored at that point |
| Revisions.EraseAboveUnseen | src.vterm/src/state.c:1089-1101 | for a request without rows, on a row with no damage, the revision is no key: erasing above the cursor on the first row erases a character, and its row is neither dirty nor revised |
| TermSafe.CursorsSafe | src.vterm/src/state.c:158-1595 | over a run of any events from a fresh terminal, both cursors are inside the screen at every point if and only if no event, told by the state before it and its parameters, saves the cursor behind the last column |
| TermSafe.RegionProper | src.vterm/src/state.c:1491-1518 | over a run of any events, the region is proper at every point if and only if no event asks for a left margin beyond the screen without a right one |
| TermSafe.RunKept | src.vterm/src/state.c:158-1595 | over any run of a fresh terminal whose texts have no glyph wider than the screen, whose repetitions end on it, and that never saves the cursor while a list of private modes has it behind the last column: both cursors stay inside the screen, the margins no further out than the column behind it, and every request to the screen fits it, also under a left margin beyond the screen |
| TermSafe.CursorEscapes | src.vterm/src/state.c:1491-1518 | at every size, four events, the third of which saves the cursor behind the last column, put it there |
| TermSafe.TextFits | src.vterm/src/state.c:272-449 | every glyph that a text puts fits the screen if and only if none that it is cut into is wider than the screen |
| TermSafe.RepeatFits | src.vterm/src/state.c:1243-1259 | repeating a glyph that has a width asks only for what fits the screen if and only if its copies end on the screen |
| ResizeText.ReflowKeepsText | src.vterm/src/screen.c:507-744 | when every line fits, and each stored line that is popped is no wider than the old screen and the new, scrollback followed by screen spell the same lines as before, up to empty lines at the bottom |
| ResizeText.ResizeConservesRows | src.vterm/src/screen.c:507-744 | on the active primary screen with no continuation rows, not made narrower, where each stored line that is popped is no wider than the old screen and the new: scrollback and screen read as before but for empty lines at the bottom and the oldest lines, which are missing only if the limits of the scrollback left them no room; and the cursor is never lost |
| ResizeText.CursorKeepsItsCell | src.vterm/src/screen.c:608-640 | the cursor keeps its logical line, counted from the top, and sits on the copy of its very cell wherever that line has text |
| ResizeText.ResizeKeepsRows | src.vterm/src/screen.c:598-718 | on the primary screen every line that is not empty is read afterwards, in order, in the scrollback, among what it evicted, or on the screen, if and only if the lowest line that does not fit has only blank rows below its first; each stored line that is popped being no wider than the old screen and the new |
| Resize.ResizeBuffer | src.vterm/src/screen.c:507-744 | one buffer resized: what was pushed, what was popped, the new grid and the new cursor; the row at which the old grid is split is that of the lowest line that does not fit, and the call fails if and only if the cursor is on the last of several rows of it, both told by the request alone; then the scrollback is as it was |
| Reflow.Rewrap | src.vterm/src/screen.c:518-660 | the whole loop: it places the lines below the lowest one that does not fit, which the old grid and the new size determine, and all of them if and only if none is too tall; the cursor follows its line, is put on row 0, or stays unset, and exactly when is stated |
| Parser.Parser.WriteAll | src.vterm/src/parser.c:111-386 | a stream cut into any chunks gives the same controls, escapes and sequences, the same text and the same whole strings as the byte machine: where it was cut makes no difference |
| Shift.ScrollRect | src.vterm/src/vterm.c:306-373 | scrolling a rectangle along one axis is a simultaneous shift: each cell becomes the old cell at the offset or a blank, cells outside stay, whatever the overlap |
| Shift.CopyCells | src.vterm/src/vterm.c:375-414 | copying cell by cell, in an order that depends on both directions, copies all cells at once for any overlap |
| History.RunLongest | src.vterm/bridge.c:68-83 | whatever lines are pushed, the ring then holds the newest of all it was given, and any longer run of them would exceed the limit of lines or of bytes |
| History.NumbersAreStable | src.vterm/bridge.c:58-96 | a line keeps its number, and its content under it, for as long as the number is held |
| History.RunBounded | src.vterm/bridge.c:68-96 | over every run of pushes of at most 1000 cells, pops and clears, neither the line limit nor the byte limit is exceeded |
| Serialise.LineInvertible | src.vterm/bridge.c:277-303 | the first bytes of a line, as many as it says matter, and default cells behind them give back every cell |
| Serialise.NothingToSpare | src.vterm/bridge.c:300-302 | no shorter run of whole cells does |
| SgrReply.PenRestored | src.vterm/src/state.c:1841-1869 | after any SGR sequences since a reset: the status reply's text, read by the parser and set after a reset, restores the pen if and only if it is not a bold one of the first eight colours under the option by which bold brightens; it is read if and only if it has at most sixteen parameters |
| Utf8.RoundTrip | src.vterm/src/encoding.c:28-155 | decoding what was encoded gives back every code point that a terminal shows |
| Utf8.OnlyCanonical | src.vterm/src/encoding.c:28-155 | on arbitrary bytes, a value decoded is the replacement character, or is no surrogate and was spelt in the shortest way by the bytes before it, bytes FE and FF aside |
| Base64.RoundTrip | src.vterm/src/state.c:1597-1786 | receiving the encoding of any bytes gives back those bytes |
| Selection.Transfer | src.vterm/src/state.c:1628-2364 | a selection sent in any fragments is one operating system command to the parser, and delivered in any pieces arrives as the bytes that were sent, for the targets named |
| Selection.Sender.SendAll | src.vterm/src/state.c:2285-2364 | a selection sent in any fragments of 7-bit bytes, with any buffer of at least four bytes, is header, encoding and terminator |
| Selection.Receiver.Deliver | src.vterm/src/state.c:1628-1786 | a selection delivered in any pieces, with any buffer of at least three bytes, arrives as the bytes that were encoded |
| XmlSpec.ScanStable | external-src/expat/lib/xmltok_impl.c:826-921 | a token other than data characters, and the finding that there is none, stand whatever input follows; a token is not empty and ends within the input |
| XmlAtts.PassesAgreeOnTags | external-src/expat/lib/xmltok_impl.c:1506-1602 | on every tag that the checked scan accepts, the unchecked pass ends at that tag's closing character with just the values that were accepted, in order, disjoint and inside the tag |
| XmlRole.DecidesGrammar | external-src/expat/lib/xmlrole.c:924-1119 | the machine comes to the end of the declaration if and only if the tokens, spaces aside, spell EMPTY, ANY, mixed content or a children group of sections 3.2, 3.2.1 and 3.2.2 of XML 1.0, with both separators allowed in one group |
| XmlRole.RolesBalanced | external-src/expat/lib/xmlrole.c:951-1119 | the counter is the number of groups that the roles opened and did not close, and never goes below it |
| Reflow.LinePopcount | src.vterm/src/screen.c:497-503 | the length of a row without its trailing blank cells: everything from there on is blank, and the cell before is not |
| Reflow.FindStart | src.vterm/src/screen.c:535-539 | the first row of the logical line that ends on a given row: it continues nothing and every row after it continues |
| Reflow.LineWidth | src.vterm/src/screen.c:541-547 | the cells of a logical line up to the end of the text of its last row, against the same count on values |
| Reflow.LineHeight | src.vterm/src/screen.c:552-554 | the rows that a width takes, as C's integer division computes them, at least one |
| ReflowCopy.HeightIsQuotient | src.vterm/src/screen.c:552-554 | counting rows off one by one gives the quotient rounded up that the code computes |
| Reflow.ScrollDown | src.vterm/src/screen.c:562-591 | placed lines slide down over blank rows at the bottom, the cursor with them |
| Reflow.MakeRoom | src.vterm/src/screen.c:556-606 | a line either gets room, sliding down what is placed into spare blank rows, or it is too tall for what is left (exactly then the loop stops) |
| ReflowCopy.CopyCells | src.vterm/src/screen.c:609-640 | the cells of one new row are the next cells of the old line, and the cursor lands on the copy of its cell if that was among them |
| ReflowCopy.CopyLine | src.vterm/src/screen.c:608-648 | a logical line poured into rows of the new width: the text in order, blanks behind it, continuation flags on all rows but the first, the cursor on its cell or past the text, clipped to the last column |
| Reflow.TallLineIs | src.vterm/src/screen.c:534-660 | a line that does not fit while those below it do is the lowest line that does not, so that the row where the loop stops is determined |
| Reflow.PlaceLines | src.vterm/src/screen.c:518-652 | the loop over logical lines: what it leaves out is the lowest line that does not fit and all above, and fewer rows are free than that line takes |
| Reflow.BringIntoRange | src.vterm/src/screen.c:598-660 | the cursor of a row that was not placed goes to row 0, clipped to the last column, except on the last of several rows of the line that did not fit |
| ReflowLines.PlaceLine | src.vterm/src/screen.c:534-652 | a line poured above lines already placed keeps all their text |
| ReflowLines.WidthKeepsText | src.vterm/src/screen.c:541-547 | cutting a line at the text of its last row loses no text |
| Resize.PopOnto | src.vterm/src/screen.c:679-712 | a line popped from the scrollback is written cell by cell on a row, wide glyphs with their gap, padded to the old width |
| Resize.Backfill | src.vterm/src/screen.c:676-718 | the rows left free above the placed lines are filled from the bottom up by the newest lines of the scrollback, until it is empty |
| Resize.ScrollToTop | src.vterm/src/screen.c:719-732 | what cannot be filled is moved up, blank rows follow below, and the cursor moves with its row |
| Resize.SpillRows | src.vterm/src/screen.c:668-675 | the rows above the first line that did not fit go to the scrollback in order, and only from the primary screen |
| Resize.Request.SplitIs | src.vterm/src/screen.c:534-606 | the split of the old grid is unique |
| Resize.TwoRowsSplit | src.vterm/src/screen.c:534-666 | two rows that are one line, made one row high: the line does not fit, and the cursor is lost if and only if it is on the second row |
| Resize.PairLost | src.vterm/src/screen.c:662-666 | an input on which a resize does not find the cursor |
| ResizeText.SpillKeepsText | src.vterm/src/screen.c:598-675 | when rows do not fit, a row is on the screen or in the scrollback, up to the lines that the ring evicted |
| ResizeText.PairLosesRow | src.vterm/src/screen.c:598-675 | an input on which a row is lost |
| ResizeText.GrowingFits | src.vterm/src/screen.c:552-606 | on a screen that gets no smaller either way every line fits |
| Grid.TrimUnique | src.vterm/src/screen.c:497-503 | trimming is the only way to cut a row into a part that does not end in a blank, and blanks |
| Grid.LinesAppend | src.vterm/src/screen.c:525-541 | grids stacked on one another spell their lines one after the other |
| ScreenCells.RestoredText | src.vterm/src/screen.c:679-712 | a stored line narrow enough, popped onto a row, reads as it was stored |
| ScreenCells.PushedText | src.vterm/src/screen.c:208-215 | a row pushed to the scrollback reads as it did on the screen |
| Shift.MoveRect | src.vterm/src/screen.c:217-250 | rows moved one after the other, in an order that depends on the direction, are moved all at once |
| Shift.EraseRect | src.vterm/src/screen.c:270-295 | the cells of a rectangle are erased, unless erasing is selective and they are protected |
| Shift.ShiftedInSteps | src.vterm/src/vterm.c:330-372 | moving the part that stays and erasing the part that is left is the simultaneous shift |
| Damage.DamageCovers | src.vterm/src/screen.c:104-159 | after damage is merged a row is reported or stored just when it was before, or is in the new damage and that is not swallowed by stored damage without rows |
| Damage.FlushReports | src.vterm/src/screen.c:1074-1089 | a flush reports exactly the rows that were reported or stored, and leaves nothing stored |
| Damage.EraseAboveReports | src.vterm/src/state.c:1089-1101 | after erasing above the cursor, and a flush, its row is reported if and only if it is not the first row, or damage to that row was stored or reported |
| Damage.Recorder.Damage | src.vterm/src/screen.c:104-159 | row-level merging in place computes the merged damage |
| Damage.Recorder.Report | src.vterm/bridge.c:31-36 | every reported row becomes dirty and takes the current revision, and no other |
| Damage.Recorder.Flush | src.vterm/src/screen.c:1074-1089 | stored damage is reported and forgotten |
| Revisions.OnlyTouched | src.vterm/src/screen.c:173-326 | a request changes the looks of no row but those it touches |
| Revisions.MarksCover | src.vterm/src/screen.c:104-159 | for every request that fits, a row is then covered by damage if and only if it was, or the request touches it and its damage is not swallowed by stored damage without rows |
| Revisions.ChangeUnreported | src.vterm/bridge.c:179-184 | so a change of a row's bytes goes unreported if and only if the damage of every request that touched it was swallowed |
| Revisions.WriteReportsChanges | src.vterm/bridge.c:179-184 | after a write of requests that have rows, or start on a row whose damage is stored or reported, every row whose serialised bytes changed is dirty and carries the new revision; every other row carries that or its old one |
| Reports.HollowRequests | src.vterm/src/state.c:1089-1101 | ED 1 or DECSED 1 on the first row asks to erase no rows and then the start of the first |
| Reports.RequestsFit | src.vterm/src/state.c:272-1595 | every request that an event makes fits the screen, and all have rows unless the event is ED 1 or DECSED 1 on the first row |
| Reports.EventsReported | src.vterm/bridge.c:179-184 | a write of events in which every ED 1 or DECSED 1 on the first row comes when damage to that row is stored or reported reports every row whose bytes it changes |
| LiveScreen.Screen.constructor | src.vterm/src/screen.c:853-889 | a new screen: two blank buffers and nothing damaged |
| LiveScreen.Screen.PutGlyph | src.vterm/src/screen.c:173-206 | a glyph takes its cell and leaves gaps in the columns it covers; its row is damaged over its width |
| LiveScreen.Screen.Erase | src.vterm/src/screen.c:306-310 | the rectangle of the buffer on show is erased, and damaged |
| LiveScreen.Screen.PushScrolled | src.vterm/src/screen.c:217-226 | exactly the rows that leave a full-width scroll at the top of the primary screen go to the scrollback, in order |
| LiveScreen.Screen.Scroll | src.vterm/src/screen.c:312-394 | a scroll shifts the cells, sends the rows that leave to the scrollback, and damages the rows it moved or cleared |
| LiveScreen.Screen.SetLine | src.vterm/src/screen.c:799-828 | a line of another kind marks its cells; the right half of a double-width line is erased |
| LiveScreen.Screen.SetReverse | src.vterm/src/screen.c:471-474 | reverse video damages the whole screen |
| LiveScreen.Screen.SetAlt | src.vterm/src/screen.c:460-470 | going to the alternate screen erases it, coming back damages the primary screen |
| LiveScreen.Screen.ClearHistory | src.vterm/src/screen.c:830-838 | the scrollback is emptied, the screen stays as it is |
| LiveScreen.Screen.Carry | src.vterm/src/screen.c:840-851 | every request does to cells and damage what its specification says, and the scrollback takes in just the rows that leave, in order, or is emptied |
| LiveScreen.Screen.Write | src.vterm/bridge.c:179-184 | a write of any requests that fit: the new revision, the requests carried out, the damage flushed, and the scrollback as a run of exactly the pushes and clears that the requests lead to leaves it |
| LiveScreen.Screen.VzLine | src.vterm/bridge.c:277-303 | a line of the screen or of the scrollback is written as its bytes; nothing for a row that is not there, -1 if there is no room |
| History.Ring.Push | src.vterm/bridge.c:68-83 | the oldest lines are dropped until the new one has room, and it is appended: the ring does what the bounded queue does |
| History.Ring.Pop | src.vterm/bridge.c:84-96 | the newest line is handed out cut or padded to the width asked for, and nothing if there is none |
| History.Ring.Clear | src.vterm/bridge.c:58-67 | all lines go, and count as discarded |
| History.Ring.LineRevision | src.vterm/bridge.c:265-271 | the revision a line was stored with, 0 for a line that is not there |
| History.Evict | src.vterm/bridge.c:73-79 | what is kept has room for the new line and is the newest part of the queue |
| History.EvictIsLazy | src.vterm/bridge.c:73-79 | no more is dropped than must be: any longer part of the queue has no room |
| History.RunHoldsNewest | src.vterm/bridge.c:58-96 | what the ring holds is the newest part of what a stack without limits would hold |
| History.PushKeepsLongest | src.vterm/bridge.c:68-83 | if a store holds the newest of some lines, and as many as the limits allow, it does so again once a line is pushed |
| Pushing.PushRows | src.vterm/src/screen.c:208-226 | rows pushed one by one leave the ring as that run of pushes leaves a bounded queue |
| Pushing.PushedLongest | src.vterm/src/screen.c:208-226 | so it holds the newest of what it held and of the rows, and a line is missing only if the limits left no room for it and all newer ones |
| Serialise.CellRead | src.vterm/bridge.c:291-299 | the ten words of a cell give back its characters, width, encoded attributes and colours |
| Serialise.OnlyDefaultsAreOmitted | src.vterm/bridge.c:300-300 | a cell counts as significant if and only if it shows something |
| Serialise.WriteLine | src.vterm/bridge.c:277-303 | the words of every cell in little-endian order, the count of bytes that matter, -1 and nothing written if there is no room |
| ParserSpec.RunAppend | src.vterm/src/parser.c:111-386 | the machine takes a stream in one piece as it takes it in two |
| ParserSpec.AcceptsParts | src.vterm/src/parser.c:111-386 | a stream that the machine is meant to be given may be cut anywhere |
| Parser.Parser.Write | src.vterm/src/parser.c:111-386 | a chunk written to the parser, with its positions in the chunk and its string fragments: what has been received is what the byte machine says |
| Parser.Parser.Read | src.vterm/src/parser.c:111-377 | the loop over a chunk moves the parser as the byte machine, and the part of a string left at its end has a negative length if and only if the chunk is empty and comes straight after an ESC inside the string |
| Parser.EndLengthSign | src.vterm/src/parser.c:378-383 | that length is negative, and then -1, if and only if the chunk is empty and an ESC came last |
| Parser.EmptyChunk | src.vterm/src/parser.c:378-383 | a stream that the parser is meant to be given, and a cut of it with such a chunk |
| Parser.Parser.Byte | src.vterm/src/parser.c:131-376 | each turn of the loop, which may take a run of text at once, moves the parser as the byte machine moves over the same bytes |
| Parser.Parser.StringFragment | src.vterm/src/parser.c:64-109 | a fragment of a string is handed on with its initial and final marks |
| Parser.Parser.EndChunk | src.vterm/src/parser.c:378-383 | the string that a chunk ends in is handed on without a trailing ESC, and nothing of it is lost |
| Parser.Parser.CsiArgsByte | src.vterm/src/parser.c:220-242 | digits, separators and colons of a parameter |
| Parser.HandOn | src.vterm/src/parser.c:64-109 | handing on a part of a string leaves the string received so far the same |
| Parser.RunText | src.vterm/src/parser.c:361-373 | a run of text bytes handed on at once is the text of each |
| Sgr.SetPenValid | src.vterm/src/pen.c:276-469 | whatever the parameters, and whatever lies behind them, the pen stays one that SGR can tell |
| Sgr.GetPenFits | src.vterm/src/pen.c:504-549 | twenty places are enough for the parameters of any pen |
| Sgr.PenAfterValid | src.vterm/src/pen.c:276-469 | after any list of SGR sequences from a reset the pen is one that SGR can tell |
| Sgr.EveryPen | src.vterm/src/pen.c:276-549 | and every pen that SGR can tell is reached by a list of SGR sequences |
| Sgr.Exceptions | src.vterm/src/pen.c:276-549 | SGR sequences make the bold pen that the status reply does not restore, and one that takes twenty parameters to tell |
| Sgr.SetGetPen | src.vterm/src/pen.c:276-549 | setting on a pen just reset what is told of a pen gives that pen, whatever the parameter array holds behind, but with a brighter colour if bold is to brighten and the pen is bold in one of the first eight |
| Sgr.PenState.Set | src.vterm/src/pen.c:276-469 | all parameters in order, with the sub-parameters that colons tie to them, change the pen as the specification says |
| Sgr.PenState.SetParameter | src.vterm/src/pen.c:283-461 | one parameter and those it takes: the pen after it, and the last one taken |
| Sgr.PenState.TellColor | src.vterm/src/pen.c:471-502 | the one, three or five parameters that tell a colour, none for the default |
| Sgr.PenState.Get | src.vterm/src/pen.c:504-549 | the parameters of the pen are written in order into an array of twenty, and counted |
| SgrReply.PrintedParses | src.vterm/src/parser.c:220-258 | parameters printed in decimal with their separators are handed on by the parser as the very same ones; it takes them if and only if there are at most sixteen |
| SgrReply.StatusRoundTrip | src.vterm/src/state.c:1841-1869 | a pen told as the status reply tells it, printed, parsed and set on a reset pen is that pen (brightened if bold brightens it); the parser takes the text if and only if it has at most sixteen parameters |
| SgrReply.Print | src.vterm/src/state.c:1852-1860 | the loop that prints the parameters writes exactly that text |
| SgrReply.Reply | src.vterm/src/state.c:1841-1869 | the reply to a status request: introducer, the parameters of the pen, final byte and terminator |
| Utf8.FillUtf8 | src.vterm/src/utf8.h:16-38 | the buffer filled from its end holds the encoding, and nothing behind it changes |
| Utf8.SpeltWhole | src.vterm/src/encoding.c:28-155 | such a value is spelt by the very last bytes if and only if neither FE nor FF is among them |
| Utf8.StrayInside | src.vterm/src/encoding.c:28-155 | the bytes C3 FE A9 decode to a replacement character and the character that C3 A9 spells |
| Utf8.RunValid | src.vterm/src/encoding.c:28-155 | the decoder never waits for more than five bytes, and its value fits the bytes it has seen |
| Utf8.Utf8Decoder.Take | src.vterm/src/encoding.c:51-150 | one byte of text: what is decoded, at most two values, and the new state |
| Utf8.Utf8Decoder.Decode | src.vterm/src/encoding.c:28-155 | text up to a control, the end of the bytes or the end of the room is decoded as the byte machine decodes it; one value goes past the room if and only if one place was left when a byte below 80 cut a character off |
| Utf8.RoomLeft | src.vterm/src/encoding.c:28-155 | where decoding stops, one value is past the room if and only if a byte below 80 cut a character off when one place was left |
| Utf8.RoomExceeded | src.vterm/src/encoding.c:51-56 | a character begun and a letter, with room for one value |
| Utf8.StepTwo | src.vterm/src/encoding.c:51-150 | a byte gives two values if and only if it cuts a character off and is below 80, and never more |
| Utf8.Utf8Decoder.DecodeChunks | src.vterm/src/encoding.c:9-155 | text in any chunks, with any room of at least one, is decoded as a whole |
| Utf8.Utf8Decoder.DecodeEncoded | src.vterm/src/encoding.c:9-155 | code points that a terminal shows, encoded and cut into any chunks, come out as they were |
| Base64.OneUnone | src.vterm/src/state.c:1597-1626 | the decoder of a base64 character undoes the encoder |
| Base64.SendsEncoding | src.vterm/src/state.c:2285-2364 | bytes sent one by one, and finished, are the encoding of section 4 of RFC 4648 |
| Selection.Sender.SendFragment | src.vterm/src/state.c:2285-2364 | one fragment: the sextets left over are kept for the next, and padded at the end |
| Selection.SelectionParses | src.vterm/src/parser.c:111-386 | what is sent, another terminal's parser takes as one operating system command with that content |
| Selection.SelectionRoundTrip | src.vterm/src/state.c:1628-1786 | a whole selection, as it was encoded, is received as the bytes that were sent, for the targets asked for |
| Selection.Receiver.ReceiveFragment | src.vterm/src/state.c:1628-1786 | a fragment of a command moves the receiver as the character machine moves over its characters |
| XmlSpec.StepStable | external-src/expat/lib/xmltok_impl.c:147-823 | a step of a scanner that did not run out of input stays the same with more input |
| XmlSpec.StepForward | external-src/expat/lib/xmltok_impl.c:147-823 | every step moves on, and no further than the input reaches |
| XmlTok.ContentTok | external-src/expat/lib/xmltok_impl.c:826-921 | the first token of the content and where the next one starts |
| XmlTok.ScanLt | external-src/expat/lib/xmltok_impl.c:728-823 | what follows a `<`: comment, section, instruction, end tag or start tag |
| XmlTok.ScanAtts | external-src/expat/lib/xmltok_impl.c:575-727 | attributes with their quoted values and references, up to the end of the tag |
| XmlTok.ScanRef | external-src/expat/lib/xmltok_impl.c:547-573 | an entity or character reference |
| XmlTok.ScanCharRef | external-src/expat/lib/xmltok_impl.c:516-545 | a decimal or hexadecimal character reference |
| XmlTok.ScanHexCharRef | external-src/expat/lib/xmltok_impl.c:485-514 | the digits of a hexadecimal reference |
| XmlTok.ScanComment | external-src/expat/lib/xmltok_impl.c:148-183 | a comment, which two hyphens must end |
| XmlTok.ScanPi | external-src/expat/lib/xmltok_impl.c:279-337 | a processing instruction and its target |
| XmlTok.CheckPiTarget | external-src/expat/lib/xmltok_impl.c:234-277 | a target spelt xml is the declaration in small letters and an error otherwise |
| XmlTok.ScanCdataSection | external-src/expat/lib/xmltok_impl.c:339-356 | the opening of a CDATA section, compared letter by letter |
| XmlTok.ScanEndTag | external-src/expat/lib/xmltok_impl.c:434-483 | an end tag |
| XmlAtts.RangesOrdered | external-src/expat/lib/xmltok_impl.c:575-823 | names and values that the checked scan accepts follow one another inside the tag |
| XmlAtts.GetAtts | external-src/expat/lib/xmltok_impl.c:1512-1602 | the attributes of a tag are counted, and the first of them stored, as the unchecked pass collects them |
| XmlRole.ContentAccepted | external-src/expat/lib/xmlrole.c:924-1119 | every content specification that the grammar spells is accepted |
| XmlRole.Trace | external-src/expat/lib/xmlrole.c:924-1119 | after any tokens the state of the machine says what they spell: a stack of open groups, mixed content, a whole specification, or none |
| XmlRole.StripRuns | external-src/expat/lib/xmlrole.c:56-61 | spaces change nothing |
| XmlRole.PrologState.HandleElement2 | external-src/expat/lib/xmlrole.c:951-983 | what follows the first parenthesis |
| XmlRole.PrologState.HandleElement7 | external-src/expat/lib/xmlrole.c:1075-1119 | what follows a content particle: a separator, or the end of a group, which may be the last |
| XmlRole.PrologState.HandleDeclClose | external-src/expat/lib/xmlrole.c:1179-1192 | the end of the declaration |
| XmlRole.PrologState.Read | external-src/expat/lib/xmlrole.c:924-1192 | the tokens of a content model are accepted just when the grammar spells them, and the roles reported are those of the machine |
| TermSpec.GlyphEnd | src.vterm/src/state.c:350-358 | a glyph is one to six characters |
| TermSpec.TabRightIs | src.vterm/src/state.c:217-239 | tabbing forward ends on a column if and only if that is the wanted number of tab stops to the right, or is the last column with fewer stops before it |
| TermSpec.TabLeftIs | src.vterm/src/state.c:217-239 | tabbing back ends on a column if and only if that is the wanted number of tab stops to the left, or is the first column with fewer stops behind it |
| TermSafe.KeptErasing | src.vterm/src/state.c:44-57 | erasing keeps the state safe, and asks the screen for nothing that does not fit it |
| TermSafe.KeptScrolling | src.vterm/src/state.c:112-156 | scrolling, whatever the amount, keeps the state safe and its request fits |
| TermSafe.KeptLineFeed | src.vterm/src/state.c:158-172 | a line feed keeps the state safe and the column |
| TermSafe.KeptPrinting | src.vterm/src/state.c:390-436 | a glyph no wider than the screen keeps the state safe, through wrapping, insertion and the deferred last column |
| TermSafe.KeptText | src.vterm/src/state.c:272-449 | so does a text, with combining characters that join the glyph before |
| TermSafe.KeptControl | src.vterm/src/state.c:452-549 | so does every control |
| TermSafe.KeptEscape | src.vterm/src/state.c:594-733 | so does every escape, the full reset and the alignment pattern among them |
| TermSafe.KeptDecMode | src.vterm/src/state.c:752-848 | so does every private mode, set or reset: one of them may put the cursor on the column behind the last, and none may save it there |
| TermSafe.IntoScreen | src.vterm/src/state.c:1558-1569 | wherever the cursor is asked to go, it ends inside the screen, and under origin mode inside the region, whose left margin it may miss only if that is beyond the screen |
| TermSafe.KeptTopBottom | src.vterm/src/state.c:1464-1489 | whatever top and bottom are asked for, they are proper, and the cursor is no further out than the left margin |
| TermSafe.LeftRightSafe | src.vterm/src/state.c:1491-1518 | the margins stay proper if and only if the left one asked for is on the screen or a right one is given; otherwise the left one is the column behind the last |
| TermSafe.KeptCsi | src.vterm/src/state.c:937-1595 | every control sequence keeps the state safe and asks only for what fits, but for repetitions that end beyond the screen and lists of private modes that save the cursor behind it; it keeps proper margins proper but for a left one beyond the screen; all its requests have rows unless it erases above the cursor on the first row |
| TermSafe.KeptRepeating | src.vterm/src/state.c:1243-1259 | repeating the last glyph keeps the state safe if there is nothing to fill, or the glyph has a width and its copies end on the screen |
| TermSafe.RepeatOverhangs | src.vterm/src/state.c:1243-1259 | one more copy of a glyph of two columns, with the cursor on the last column, ends a column beyond the screen |
| TermSafe.KeptSoftReset | src.vterm/src/state.c:2083-2142 | so does the soft reset |
| TermSafe.RunMild | src.vterm/src/state.c:158-1595 | the same, and proper margins, under conditions that need no state: no piece of a text that may become a glyph is wider than the screen, no REP, no left margin beyond the screen without a right one |
| TermSafe.EventCursors | src.vterm/src/state.c:158-1595 | any one event, whatever it asks for, leaves both cursors inside the screen if and only if it is not a list of private modes that saves the cursor while it is behind the last column |
| TermSafe.OverhangReached | src.vterm/src/state.c:1243-1259 | a run that reaches it at every size: a glyph of two columns, the cursor moved to the last column, and REP asks for what does not fit |
| TermCsi.RepeatEnds | src.vterm/src/state.c:1248-1251 | the loop of REP comes to the column it is to fill if and only if the glyph has a width, or the cursor is there already |
| TermSafe.RepeatHangs | src.vterm/src/state.c:1243-1259 | REP on a fresh terminal, of any size, is never done |
| TermState.Terminal.constructor | src.vterm/src/state.c:59-100 | a terminal just made and reset |
| TermState.Terminal.Erase | src.vterm/src/state.c:44-57 | erasing to the end of rows clears the continuation of the rows below them |
| TermState.Terminal.Scroll | src.vterm/src/state.c:112-156 | line flags move with whole rows, cleared where rows come in; the screen is asked to scroll by the clamped amounts |
| TermState.Terminal.Feed | src.vterm/src/state.c:158-172 | down a row, or a scroll of the region on its last row |
| TermState.Terminal.TabForward | src.vterm/src/state.c:217-239 | column by column, counting tab stops, is the tab of the specification |
| TermState.Terminal.Print | src.vterm/src/state.c:390-436 | one glyph: wrap if there is no room or the wrap is still to come, insert, put, advance or defer the wrap |
| TermState.Terminal.Combine | src.vterm/src/state.c:308-344 | the combining characters at the start of a text join the glyph put before, which is put again |
| TermState.Terminal.ReadGlyph | src.vterm/src/state.c:350-380 | a base and up to five combining characters make a glyph, whose width is theirs together; more are passed over |
| TermState.Terminal.Text | src.vterm/src/state.c:272-449 | a decoded text does what its glyphs do one after the other |
| TermState.Terminal.OnControl | src.vterm/src/state.c:452-549 | every control |
| TermState.Terminal.RestoreCursor | src.vterm/src/state.c:579-591 | the saved cursor and pen come back, and the deferred wrap is cancelled if the cursor moved |
| TermState.Terminal.SwitchScreen | src.vterm/src/state.c:2219-2231 | the alternate screen is entered erased, and left as it was |
| TermState.Terminal.SetDecMode | src.vterm/src/state.c:752-848 | every private mode |
| TermState.Terminal.SoftlyReset | src.vterm/src/state.c:2083-2142 | region, modes, tab stops, line flags and pen are reset, the cursor stays |
| TermState.Terminal.Reset | src.vterm/src/state.c:2083-2150 | and with the cursor home and the screen erased |
| TermState.Terminal.Align | src.vterm/src/state.c:649-657 | every cell of every row, as wide as its line is, becomes an E |
| TermState.Terminal.Escape | src.vterm/src/state.c:594-733 | every escape |
| TermState.Terminal.BringFrom | src.vterm/src/state.c:1558-1569 | the four bounds in their order are the position brought into region or screen |
| TermState.Terminal.Move | src.vterm/src/state.c:1008-1343 | every sequence that moves the cursor |
| TermState.Terminal.ScrollBy | src.vterm/src/state.c:990-1548 | every sequence that scrolls a part of the screen, from inside the region where it must be |
| TermState.Terminal.EraseBy | src.vterm/src/state.c:1070-1224 | every sequence that erases |
| TermState.Terminal.SetRows | src.vterm/src/state.c:1464-1489 | top and bottom margins |
| TermState.Terminal.SetColumns | src.vterm/src/state.c:1491-1518 | left and right margins, also the left one beyond the screen |
| TermState.Terminal.SetDecModes | src.vterm/src/state.c:1326-1355 | private modes one after the other |
| TermState.Terminal.Csi | src.vterm/src/state.c:937-1595 | every control sequence, and what happens to the cursor and the deferred wrap behind it |
| TermState.Terminal.Copy | src.vterm/src/state.c:1248-1251 | the last glyph put again and again up to a column, and where that ends |
| TermState.Terminal.Repeat | src.vterm/src/state.c:1243-1259 | REP: the copies, the wrap that may still be to come, and the cursor brought in |
| TermState.Terminal.TakeAll | src.vterm/src/state.c:272-1595 | a run of events, one after the other, makes of the terminal what the run of the specification does |
| Wrap.FilledCuts | src.vterm/src/state.c:390-436 | the rows a paragraph fills hold its characters in order; every row is full but the last, which is empty only for an empty paragraph |
| Wrap.Fed | src.vterm/src/state.c:158-172 | a line feed finishes the row being written: at the bottom the top row leaves for the scrollback and a blank one comes in |
| Wrap.PrintedShows | src.vterm/src/state.c:390-436 | a character goes on the row being written, or on a new row flagged as its continuation if that is full |
| Wrap.LineEnds | src.vterm/src/state.c:473-483 | CR and LF end the row, also one that is full and still to be wrapped, without an empty row |
| Wrap.FreshShows | src.vterm/src/state.c:2083-2150 | after the reset the screen is blank, whatever it showed |
| Wrap.PiecesShow | src.vterm/src/state.c:272-449 | however a paragraph is split into texts, they print it as a whole |
| EndToEnd.PlayTold | src.vterm/src/screen.c:208-226 | while reverse video stays as it is and nothing is forgotten, a write pushes the rows that leave the screen and does nothing else to the scrollback |
| EndToEnd.SentLongest | src.vterm/bridge.c:68-83 | the scrollback then holds the newest of them behind what it held, and as many as its limits allow |

## Left out

- EndToEnd.WriteEvents: takes events, not bytes; the parser's events are decoded by `ParserSpec` and `Utf8`, but the two halves are not composed into one theorem.
- Reports.KeyOverEvents: asks for every ED 1 and DECSED 1 on the first row to come when damage to it is stored or reported; a later write may make good what one of them missed, and `Revisions.WriteReports` rather than this lemma says when.
- TermSafe.RunKept: the size is fixed; a resize between events is modelled in `Resize` for one buffer and not joined to the run.
- ResizeText.SpillKeepsText: for a line of one row that did not fit; `ResizeText.ResizeKeepsRows` has the others, with empty lines left aside.
- ResizeText.ResizeKeepsRows: popped lines wider than the old screen or the new are cut by the code, so that they are excluded here; and it reads rows without their continuation flags, as the code does not clear the flags on popped rows when a line did not fit.
- ResizeText.ReflowKeepsText: for a grid whose first row starts a logical line; one whose first row continues a line that has scrolled off is not claimed.
- TermCsi.Count: a parameter is a natural number of any size; in C the position plus such a count can overflow an int.
- TermCsi.Repeated: a repetition that does not end (`TermCsi.RepeatEnds` says when) leaves the state as it was, since the loop of the code has no state after it.
- ParserSpec.Accepts: streams with more than sixteen parameters, with control bytes inside an operating system command's number, or with a control or a second ESC right after an ESC inside a string.
- Parser.Parser.Write: empty chunks straight after an ESC inside a string; `Parser.Parser.Read` has them up to the fragment whose length is negative.
- Sgr.SetPen: what the parameter array holds behind its count is arbitrary here; in the code it is what the last sequence left.
- Serialise.CellRead: for cells with at most six characters of 32 bits, as the code stores them.
- LiveScreen.Screen.SetAlt: RIS while the alternate screen is on leaves the screen on it, as in the code, though the mode that records it is cleared; mode reports are not modelled.
- Resize.SpillRows: with the alternate screen on, the rows that a resize of the primary buffer pushes are taken from the buffer on show, as in the code.
- Selection.Transfer: the pieces are any cut of the string that the byte machine reads; that the fragments of the parser on chunks are such a cut follows from its calls, and is not joined to the receiver.
- Selection.Receiver.Deliver: for commands that set a selection; one that asks for it with a `?` is answered, but if its last fragment is empty the selection is cleared as well, so no such claim is made of it.
- XmlRole.DecidesGrammar: without parameter entities (`XML_DTD` is not defined in this build).
- XmlSpec.ScanStable: an encoding whose shortest characters are one byte long, with any byte types and any tests on longer characters; UTF-16 and namespace processing are not modelled.
- Damage merging by cell, by screen and by scroll: the bridge always merges by row.
- Double-width and double-height lines on a resize.
- Encodings other than UTF-8, and the national replacement character sets.
- Widths and combining characters are given by two tables that are not modelled.
- The reports that the terminal sends but for the SGR status reply: cursor position, device attributes, modes, mouse and keyboard.
- Cursor shape, blinking, title, bell and the other properties handed through to the caller.
- Failure of memory allocation.
- Reading a rectangle of text, selecting, and the pseudo-terminal behind the engine.
