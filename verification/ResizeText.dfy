/** What a resize does to the text a user can see: scrollback followed by screen. */
module ResizeText {
  import opened Seqs
  import opened Grid
  import opened History
  import opened Pushing
  import opened ReflowCopy
  import opened ReflowLines
  import opened Reflow
  import opened Resize
  import SC = ScreenCells

  /** The text of the stored lines, oldest first. */
  function Story(lines: seq<Line>): (s: seq<seq<Text>>)
    ensures |s| == |lines|
    ensures forall i :: 0 <= i < |lines| ==> s[i] == SC.TrimTexts(SC.ExtTexts(lines[i].cells))
  {
    seq(|lines|, i requires 0 <= i < |lines| => SC.TrimTexts(SC.ExtTexts(lines[i].cells)))
  }

  /** The text of logical lines. */
  function Texts(lines: seq<Row>): (s: seq<seq<Text>>)
    ensures |s| == |lines| && forall i :: 0 <= i < |lines| ==> s[i] == SC.RowTexts(lines[i])
  {
    seq(|lines|, i requires 0 <= i < |lines| => SC.RowTexts(lines[i]))
  }

  lemma TextsAppend(a: seq<Row>, b: seq<Row>)
    ensures Texts(a + b) == Texts(a) + Texts(b)
  {
  }

  function Trimmed(rows: seq<Row>): (t: seq<Row>)
    ensures |t| == |rows| && forall i :: 0 <= i < |rows| ==> t[i] == Trim(rows[i])
  {
    seq(|rows|, i requires 0 <= i < |rows| => Trim(rows[i]))
  }

  lemma SingleLine(s: Screen, k: nat)
    requires k < |s.rows| == |s.info| && s.StartsLine(k) && s.StartsLine(k + 1)
    ensures s.LinesFrom(k) == [Trim(s.rows[k])] + s.LinesFrom(k + 1)
  {
    LinesFromLine(s, k, k);
    assert s.rows[k..k + 1] == [s.rows[k]];
    FlattenOne(s.rows[k]);
  }

  /** Rows that each start a line are lines of their own. */
  lemma {:induction false} SingleLines(s: Screen, k: nat)
    requires k <= |s.rows| == |s.info| && s.StartsLine(k)
    requires forall i :: 0 <= i < k ==> !s.info[i].continuation
    ensures s.StartsLine(0) && s.LinesFrom(0) == Trimmed(s.rows[..k]) + s.LinesFrom(k)
    decreases k
  {
    hide Screen.LinesFrom, Trim;
    if k > 0 {
      SingleLine(s, k - 1);
      SingleLines(s, k - 1);
      assert Trimmed(s.rows[..k]) == Trimmed(s.rows[..k - 1]) + [Trim(s.rows[k - 1])];
    }
  }

  /** The stored lines are narrow enough for the old and the new width. */
  ghost predicate AllNarrow(q: Request, lines: seq<Line>) {
    forall i :: 0 <= i < |lines| ==> q.fill.Narrow(lines[i], q.newCols)
  }

  lemma PoppedStory(q: Request, lines: seq<Line>, after: Screen, r: Result)
    requires q.Valid() && Laid(q.before, after, lines, r, q.fill) && after.cols == q.newCols
    requires r.popped <= |after.rows| && AllNarrow(q, lines[|lines| - r.popped..])
    ensures Texts(Trimmed(after.rows[..r.popped])) == Story(lines[|lines| - r.popped..])
  {
    hide Kept, Fill.Narrow, SC.TrimTexts, Trim, SC.RowTexts, SC.ExtTexts;
    forall i | 0 <= i < r.popped
      ensures Texts(Trimmed(after.rows[..r.popped]))[i] == Story(lines[|lines| - r.popped..])[i]
    {
      assert RowLaid(after, lines, r, i, q.fill);
      var line := lines[|lines| - r.popped..][i];
      assert line == lines[|lines| - r.popped + i];
      assert q.fill.Narrow(line, q.newCols);
    }
  }

  /** The text of the popped rows, then of the lines kept from the old grid. */
  lemma LaidStory(q: Request, lines: seq<Line>, left: seq<Line>, after: Screen, r: Result)
    requires q.Valid() && Laid(q.before, after, lines, r, q.fill) && after.cols == q.newCols
    requires r.oldRow == -1 || r.popped == 0
    requires r.popped <= |lines| && left == lines[..|lines| - r.popped] && AllNarrow(q, lines[|lines| - r.popped..])
    ensures after.StartsLine(0)
    ensures Story(left) + Texts(after.LinesFrom(0)) == Story(lines) + Texts(after.LinesFrom(r.popped))
  {
    hide Screen.LinesFrom, Trim, SC.TrimTexts, Fill.Narrow, ShowsLine;
    forall i | 0 <= i < r.popped ensures !after.info[i].continuation {
      assert RowLaid(after, lines, r, i, q.fill);
    }
    var top := Trimmed(after.rows[..r.popped]);
    SingleLines(after, r.popped);
    PoppedStory(q, lines, after, r);
    StoryCut(lines, |lines| - r.popped);
    TextsAppend(top, after.LinesFrom(r.popped));
    AppendAssoc(Story(left), Texts(top), Texts(after.LinesFrom(r.popped)));
  }

  lemma StoryCut(lines: seq<Line>, k: nat)
    requires k <= |lines|
    ensures Story(lines) == Story(lines[..k]) + Story(lines[k..])
  {
    hide SC.TrimTexts, SC.ExtTexts;
  }

  /** Everything fits: scrollback followed by screen has the same lines as before, but for
      empty lines at the bottom. */
  lemma ReflowKeepsText(q: Request, stored: seq<Line>, lines: seq<Line>, left: seq<Line>, after: Screen, r: Result)
    requires q.Valid() && -1 <= r.oldRow < |q.shown| && q.Done(stored, lines, left, after, r)
    requires r.oldRow == -1 && r.next == 0 && AllNarrow(q, lines[|lines| - r.popped..])
    ensures after.StartsLine(0)
    ensures Story(left) + Texts(after.LinesFrom(0)) + Texts(Empties(r.dropped)) ==
            Story(stored) + Texts(q.before.LinesFrom(0)) + Texts(Empties(r.added))
  {
    LaidStory(q, lines, left, after, r);
    KeptStory(stored, q.before, 0, after, r.popped, r.dropped, r.added);
  }

  lemma KeptStory(stored: seq<Line>, before: Screen, from: nat, after: Screen, top: nat, dropped: nat, added: nat)
    requires Kept(before, from, after, top, dropped, added)
    ensures Story(stored) + Texts(after.LinesFrom(top)) + Texts(Empties(dropped)) ==
            Story(stored) + Texts(before.LinesFrom(from)) + Texts(Empties(added))
  {
    hide Screen.LinesFrom;
    TextsAppend(after.LinesFrom(top), Empties(dropped));
    TextsAppend(before.LinesFrom(from), Empties(added));
    AppendAssoc(Story(stored), Texts(after.LinesFrom(top)), Texts(Empties(dropped)));
    AppendAssoc(Story(stored), Texts(before.LinesFrom(from)), Texts(Empties(added)));
  }

  lemma PushedStory(rows: seq<Row>, reverse: bool, revision: nat)
    ensures Story(Pushed(rows, reverse, revision)) == Texts(Trimmed(rows))
  {
    hide SC.TrimTexts, SC.ExtTexts, SC.ExtRow, Trim;
    forall i | 0 <= i < |rows|
      ensures Story(Pushed(rows, reverse, revision))[i] == Texts(Trimmed(rows))[i]
    {
      SC.PushedText(rows[i], reverse);
    }
  }

  lemma StoryAppend(a: seq<Line>, b: seq<Line>)
    ensures Story(a + b) == Story(a) + Story(b)
  {
    hide SC.TrimTexts, SC.ExtTexts;
  }

  /** The text of the rows above the split and of the lines below it, after what was stored. */
  function SplitStory(stored: seq<Line>, s: Screen, next: nat): seq<seq<Text>>
    requires next <= |s.rows| && s.StartsLine(next)
  {
    Story(stored) + Texts(Trimmed(s.rows[..next])) + Texts(s.LinesFrom(next))
  }

  /** Rows did not fit, the first line that did not is one row long, and no row was left free:
      every row is in the scrollback or on the screen, up to lines the ring evicted. */
  lemma SpillKeepsText(q: Request, stored: seq<Line>, lines: seq<Line>, left: seq<Line>, after: Screen, r: Result)
    requires q.Valid() && -1 <= r.oldRow < |q.shown| && q.Done(stored, lines, left, after, r)
    requires q.primary && q.shown == q.before.rows
    requires 0 <= r.oldRow && r.next == r.oldRow + 1 && r.popped == 0
    ensures after.StartsLine(0) && q.before.StartsLine(r.next) && |lines| <= |stored| + r.next
    ensures var evicted := |stored| + r.next - |lines|;
      Story(left) + Texts(after.LinesFrom(0)) + Texts(Empties(r.dropped)) ==
      SplitStory(stored, q.before, r.next)[evicted..] + Texts(Empties(r.added))
  {
    hide Screen.LinesFrom, SC.TrimTexts, SC.ExtTexts, SC.ExtRow, Trim;
    var pushed := Pushed(q.before.rows[..r.next], q.fill.reverse, q.revision);
    var all := stored + pushed;
    var evicted := |all| - |lines|;
    assert left == lines == all[evicted..];
    PushedStory(q.before.rows[..r.next], q.fill.reverse, q.revision);
    StoryAppend(stored, pushed);
    StoryCut(all, evicted);
    assert Story(lines) == Story(all)[evicted..];
    KeptStory(left, q.before, r.next, after, 0, r.dropped, r.added);
    DropLeft(Story(all), Texts(q.before.LinesFrom(r.next)), evicted);
  }

  lemma DropLeft<T>(a: seq<T>, b: seq<T>, k: nat)
    requires k <= |a|
    ensures (a + b)[k..] == a[k..] + b
  {
  }

  /** Scrollback and screen read as before, but for the oldest `evicted` lines and empty lines
      at the bottom; and those are lines that the limits of the scrollback left no room for. */
  ghost predicate ConservedBut(q: Request, stored: seq<Line>, lines: seq<Line>, left: seq<Line>, after: Screen, r: Result,
                               evicted: nat)
    requires q.Valid() && after.StartsLine(0) && r.next <= |q.before.rows|
  {
    && evicted <= |stored| + |q.before.LinesFrom(0)|
    && (evicted == 0 ||
        (evicted == |stored| + r.next - |lines| &&
         Longest(lines, stored + Pushed(q.before.rows[..r.next], q.fill.reverse, q.revision))))
    && Story(left) + Texts(after.LinesFrom(0)) + Texts(Empties(r.dropped)) ==
       (Story(stored) + Texts(q.before.LinesFrom(0)))[evicted..] + Texts(Empties(r.added))
  }

  /** On a screen without wrapped lines that does not get narrower, a resize loses no row. */
  lemma ResizeConservesRows(q: Request, stored: seq<Line>, lines: seq<Line>, left: seq<Line>, after: Screen, r: Result)
    requires q.Valid() && -1 <= r.oldRow < |q.shown| && q.Split(r.oldRow, r.next)
    requires q.RoomLeft(r.oldRow, r.next, r.popped) && q.Done(stored, lines, left, after, r)
    requires q.primary && q.active && q.shown == q.before.rows && q.newCols >= q.before.cols
    requires forall i :: 0 <= i < |q.before.info| ==> !q.before.info[i].continuation
    requires AllNarrow(q, lines[|lines| - r.popped..])
    ensures !q.CursorLost() && after.StartsLine(0)
    ensures exists evicted: nat :: ConservedBut(q, stored, lines, left, after, r, evicted)
  {
    hide Screen.LinesFrom, SC.TrimTexts, SC.ExtTexts, Trim, Laid, TooTall, Kept, Request.CursorDone, Longest;
    q.SplitIs(r.oldRow, r.next);
    if r.oldRow == -1 {
      ReflowKeepsText(q, stored, lines, left, after, r);
      assert (Story(stored) + Texts(q.before.LinesFrom(0)))[0..] == Story(stored) + Texts(q.before.LinesFrom(0));
      assert ConservedBut(q, stored, lines, left, after, r, 0);
    } else {
      assert !q.before.info[r.next - 1].continuation;
      SpillKeepsText(q, stored, lines, left, after, r);
      SingleLines(q.before, r.next);
      TextsAppend(Trimmed(q.before.rows[..r.next]), q.before.LinesFrom(r.next));
      AppendAssoc(Story(stored), Texts(Trimmed(q.before.rows[..r.next])), Texts(q.before.LinesFrom(r.next)));
      assert ConservedBut(q, stored, lines, left, after, r, |stored| + r.next - |lines|);
    }
  }

  // ---- What is lost ----

  /** Lines without the empty ones. */
  function Spoken(lines: seq<seq<Text>>): seq<seq<Text>> {
    if lines == [] then []
    else
      var n := |lines| - 1;
      Spoken(lines[..n]) + if lines[n] == [] then [] else [lines[n]]
  }

  lemma {:induction false} SpokenAppend(a: seq<seq<Text>>, b: seq<seq<Text>>)
    ensures Spoken(a + b) == Spoken(a) + Spoken(b)
  {
    if b == [] {
      assert a + b == a;
    } else {
      assert (a + b)[..|a + b| - 1] == a + b[..|b| - 1];
      SpokenAppend(a, b[..|b| - 1]);
    }
  }

  lemma {:induction false} SpokenNone(lines: seq<seq<Text>>)
    ensures Spoken(lines) == [] <==> forall i :: 0 <= i < |lines| ==> lines[i] == []
  {
    if lines != [] {
      var n := |lines| - 1;
      SpokenNone(lines[..n]);
      assert Spoken(lines) == [] <==> Spoken(lines[..n]) == [] && lines[n] == [];
      hide Spoken;
      if Spoken(lines) == [] {
        forall i | 0 <= i < |lines| ensures lines[i] == [] {
          assert i < n ==> lines[i] == lines[..n][i];
        }
      }
    }
  }

  lemma BlankRow(row: Row)
    ensures SC.RowTexts(Trim(row)) == [] <==> AllBlank(row)
  {
    TrimNone(row);
  }

  lemma BlankRows(rows: seq<Row>)
    ensures Spoken(Texts(Trimmed(rows))) == [] <==> forall i :: 0 <= i < |rows| ==> AllBlank(rows[i])
  {
    SpokenNone(Texts(Trimmed(rows)));
    hide AllBlank, Trim, SC.RowTexts, Spoken;
    forall i | 0 <= i < |rows| ensures Texts(Trimmed(rows))[i] == [] <==> AllBlank(rows[i]) {
      BlankRow(rows[i]);
    }
    if Spoken(Texts(Trimmed(rows))) == [] {
      forall i | 0 <= i < |rows| ensures AllBlank(rows[i]) {
        assert Texts(Trimmed(rows))[i] == [];
      }
    }
  }

  lemma EmptiesSilent(n: nat)
    ensures Spoken(Texts(Empties(n))) == []
  {
    assert SC.RowTexts([]) == [];
    SpokenNone(Texts(Empties(n)));
    hide Spoken;
  }

  /** The same lines but for empty ones at the bottom say the same. */
  lemma KeptSpeaks(before: Screen, from: nat, after: Screen, top: nat, dropped: nat, added: nat)
    requires Kept(before, from, after, top, dropped, added)
    ensures Spoken(Texts(before.LinesFrom(from))) == Spoken(Texts(after.LinesFrom(top)))
  {
    hide Screen.LinesFrom;
    TextsAppend(before.LinesFrom(from), Empties(added));
    TextsAppend(after.LinesFrom(top), Empties(dropped));
    SpokenAppend(Texts(before.LinesFrom(from)), Texts(Empties(added)));
    SpokenAppend(Texts(after.LinesFrom(top)), Texts(Empties(dropped)));
    EmptiesSilent(added);
    EmptiesSilent(dropped);
    hide Spoken;
    assert Spoken(Texts(before.LinesFrom(from))) + [] == Spoken(Texts(before.LinesFrom(from)));
    assert Spoken(Texts(after.LinesFrom(top))) + [] == Spoken(Texts(after.LinesFrom(top)));
  }

  /** All the lines that the scrollback held or was handed. */
  function Handed(q: Request, stored: seq<Line>, oldRow: int): seq<Line>
    requires -1 <= oldRow < |q.before.rows|
  {
    stored + Pushed(q.before.rows[..oldRow + 1], q.fill.reverse, q.revision)
  }

  lemma DoneFacts(q: Request, stored: seq<Line>, lines: seq<Line>, left: seq<Line>, after: Screen, r: Result)
    requires q.Valid() && -1 <= r.oldRow < |q.shown| && q.Done(stored, lines, left, after, r)
    requires q.primary && q.shown == q.before.rows
    ensures r.popped <= |lines| && r.popped <= |after.rows| && left == lines[..|lines| - r.popped]
    ensures Laid(q.before, after, lines, r, q.fill) && after.cols == q.newCols
    ensures Kept(q.before, r.next, after, r.popped, r.dropped, r.added)
    ensures var handed := Handed(q, stored, r.oldRow); |lines| <= |handed| && lines == handed[|handed| - |lines|..]
  {
    assert Pushed([], q.fill.reverse, q.revision) == [];
    if r.popped > 0 {
      assert RowLaid(after, lines, r, r.popped - 1, q.fill);
    }
    hide Kept, RowLaid, TooMany, Request.CursorDone;
  }

  lemma HandedStory(q: Request, stored: seq<Line>, lines: seq<Line>, left: seq<Line>, after: Screen, r: Result)
    requires q.Valid() && -1 <= r.oldRow < |q.shown| && q.Done(stored, lines, left, after, r)
    requires q.primary && q.shown == q.before.rows && AllNarrow(q, lines[|lines| - r.popped..])
    ensures r.popped <= |after.rows| && |lines| <= |Handed(q, stored, r.oldRow)|
    ensures var handed := Handed(q, stored, r.oldRow);
      Story(handed[..|handed| - |lines|]) + Story(left) + Texts(Trimmed(after.rows[..r.popped])) ==
      Story(stored) + Texts(Trimmed(q.before.rows[..r.oldRow + 1]))
  {
    hide *;
    DoneFacts(q, stored, lines, left, after, r);
    var handed, cut := Handed(q, stored, r.oldRow), |lines| - r.popped;
    PoppedStory(q, lines, after, r);
    StoryCut(lines, cut);
    StoryCut(handed, |handed| - |lines|);
    PushedTold(q, stored, r.oldRow);
    AppendAssoc(Story(handed[..|handed| - |lines|]), Story(left), Story(lines[cut..]));
  }

  lemma PushedTold(q: Request, stored: seq<Line>, oldRow: int)
    requires -1 <= oldRow < |q.before.rows|
    ensures Story(Handed(q, stored, oldRow)) == Story(stored) + Texts(Trimmed(q.before.rows[..oldRow + 1]))
  {
    hide SC.TrimTexts, SC.ExtTexts, SC.RowTexts, Trim, Story, Texts, Trimmed, Pushed;
    PushedStory(q.before.rows[..oldRow + 1], q.fill.reverse, q.revision);
    StoryAppend(stored, Pushed(q.before.rows[..oldRow + 1], q.fill.reverse, q.revision));
  }

  lemma Missing<T>(above: seq<T>, lost: seq<T>, below: seq<T>)
    ensures above + below == above + lost + below <==> lost == []
  {
    if above + below == above + lost + below {
      assert |above + below| == |above + lost + below|;
    }
  }

  /** The rows that the scrollback held, was handed and gave back, and the lines below them. */
  ghost function ReadAfter(q: Request, stored: seq<Line>, lines: seq<Line>, left: seq<Line>, after: Screen, r: Result):
    seq<seq<Text>>
    requires -1 <= r.oldRow < |q.before.rows| && |lines| <= |Handed(q, stored, r.oldRow)|
    requires after.StartsLine(r.popped)
  {
    var handed := Handed(q, stored, r.oldRow);
    Spoken(Story(handed[..|handed| - |lines|]) + Story(left) + Texts(Trimmed(after.rows[..r.popped])) +
           Texts(after.LinesFrom(r.popped)))
  }

  /** The scrollback, the rows above the split and the lines below it, before the resize. */
  ghost function ReadBefore(q: Request, stored: seq<Line>): seq<seq<Text>>
    requires q.Valid() && q.Next() <= |q.before.rows| && q.before.StartsLine(q.Next())
  {
    Spoken(Story(stored) + Texts(Trimmed(q.before.rows[..q.Next()])) + Texts(q.before.LinesFrom(q.Next())))
  }

  /** On the primary screen a resize keeps every row, in the scrollback, evicted from it, or on
      the screen, if and only if the lowest line that does not fit has only blank rows below its
      first. */
  lemma ResizeKeepsRows(q: Request, stored: seq<Line>, lines: seq<Line>, left: seq<Line>, after: Screen, r: Result)
    requires q.Valid() && -1 <= r.oldRow < |q.shown| && q.Split(r.oldRow, r.next)
    requires q.Done(stored, lines, left, after, r) && q.primary && q.shown == q.before.rows
    requires AllNarrow(q, lines[|lines| - r.popped..])
    ensures q.Next() <= |q.before.rows| && q.before.StartsLine(q.Next()) && after.StartsLine(r.popped)
    ensures |lines| <= |Handed(q, stored, r.oldRow)|
    ensures ReadAfter(q, stored, lines, left, after, r) == ReadBefore(q, stored) <==>
      forall i :: q.OldRow() < i < q.Next() ==> AllBlank(q.before.rows[i])
  {
    SplitInside(q, r);
    hide *;
    q.SplitIs(r.oldRow, r.next);
    DoneFacts(q, stored, lines, left, after, r);
    HandedStory(q, stored, lines, left, after, r);
    ReadOut(q, stored, lines, left, after, r);
  }

  lemma SplitInside(q: Request, r: Result)
    requires q.Valid() && q.Split(r.oldRow, r.next)
    ensures r.oldRow + 1 <= r.next <= |q.before.rows| && q.before.StartsLine(r.next)
  {
    hide TallLine, TooTall;
  }

  lemma ReadOut(q: Request, stored: seq<Line>, lines: seq<Line>, left: seq<Line>, after: Screen, r: Result)
    requires q.Valid() && r.oldRow == q.OldRow() && r.next == q.Next()
    requires -1 <= r.oldRow < r.next <= |q.before.rows| && q.before.StartsLine(r.next)
    requires Kept(q.before, r.next, after, r.popped, r.dropped, r.added) && r.popped <= |after.rows|
    requires |lines| <= |Handed(q, stored, r.oldRow)|
    requires var handed := Handed(q, stored, r.oldRow);
      Story(handed[..|handed| - |lines|]) + Story(left) + Texts(Trimmed(after.rows[..r.popped])) ==
      Story(stored) + Texts(Trimmed(q.before.rows[..r.oldRow + 1]))
    ensures after.StartsLine(r.popped)
    ensures ReadAfter(q, stored, lines, left, after, r) == ReadBefore(q, stored) <==>
      forall i :: q.OldRow() < i < q.Next() ==> AllBlank(q.before.rows[i])
  {
    hide Request.OldRow, Request.Next, Screen.LinesFrom, Spoken, Trim, SC.TrimTexts, SC.ExtTexts, SC.RowTexts, AllBlank,
      Handed, Story, Texts, Trimmed;
    var s, o, n := q.before, r.oldRow + 1, r.next;
    var above, lost, below := Story(stored) + Texts(Trimmed(s.rows[..o])), s.rows[o..n], Texts(s.LinesFrom(n));
    SplitRows(s.rows, o, n);
    KeptSpeaks(s, n, after, r.popped, r.dropped, r.added);
    AppendAssoc(Story(stored), Texts(Trimmed(s.rows[..o])), Texts(Trimmed(lost)));
    SpokenAppend(above + Texts(Trimmed(lost)), below);
    SpokenAppend(above, Texts(Trimmed(lost)));
    SpokenAppend(above, Texts(after.LinesFrom(r.popped)));
    Missing(Spoken(above), Spoken(Texts(Trimmed(lost))), Spoken(below));
    LostBlank(s.rows, o, n);
  }

  lemma SplitRows(rows: seq<Row>, o: nat, n: nat)
    requires o <= n <= |rows|
    ensures Texts(Trimmed(rows[..n])) == Texts(Trimmed(rows[..o])) + Texts(Trimmed(rows[o..n]))
  {
    hide Trim, SC.RowTexts;
    assert rows[..n] == rows[..o] + rows[o..n];
    assert Trimmed(rows[..n]) == Trimmed(rows[..o]) + Trimmed(rows[o..n]);
    TextsAppend(Trimmed(rows[..o]), Trimmed(rows[o..n]));
  }

  lemma LostBlank(rows: seq<Row>, o: nat, n: nat)
    requires o <= n <= |rows|
    ensures Spoken(Texts(Trimmed(rows[o..n]))) == [] <==> forall i :: o <= i < n ==> AllBlank(rows[i])
  {
    BlankRows(rows[o..n]);
    hide AllBlank, Spoken, Trim;
    if forall i :: 0 <= i < n - o ==> AllBlank(rows[o..n][i]) {
      forall i | o <= i < n ensures AllBlank(rows[i]) {
        assert rows[i] == rows[o..n][i - o];
      }
    }
  }

  /** The pair of rows again, with the cursor on the first: the second is lost. */
  lemma PairLosesRow(cell: Cell, fill: Fill, stored: seq<Line>, lines: seq<Line>, left: seq<Line>, after: Screen, r: Result)
    requires !cell.text.Blank? && fill.Valid() && fill.oldCols == 1
    requires var q := Pair(cell, 0, fill);
      && q.Valid() && -1 <= r.oldRow < |q.shown| && q.Split(r.oldRow, r.next)
      && q.Done(stored, lines, left, after, r) && AllNarrow(q, lines[|lines| - r.popped..])
    ensures var q := Pair(cell, 0, fill);
      && q.Next() <= |q.before.rows| && q.before.StartsLine(q.Next()) && after.StartsLine(r.popped)
      && |lines| <= |Handed(q, stored, r.oldRow)|
      && ReadAfter(q, stored, lines, left, after, r) != ReadBefore(q, stored)
  {
    var q := Pair(cell, 0, fill);
    assert !AllBlank(q.before.rows[1]) && q.shown == q.before.rows;
    TwoRowsSplit(q);
    hide Request.Done, Request.Split, Request.OldRow, Request.Next, AllNarrow, AllBlank, ReadAfter, ReadBefore;
    ResizeKeepsRows(q, stored, lines, left, after, r);
  }

  // ---- The cursor ----

  lemma {:induction false} FlattenIndex(rows: seq<Row>, cols: nat, r: nat, c: nat)
    requires Rectangular(rows, cols) && r < |rows| && c < cols
    ensures Cells(r, cols) + c < |Flatten(rows)| && Flatten(rows)[Cells(r, cols) + c] == rows[r][c]
  {
    FlattenLength(rows[..r], cols);
    FlattenAppend(rows[..r], rows[r..]);
    assert rows == rows[..r] + rows[r..];
    assert rows[r..][0] == rows[r];
  }

  /** The cursor keeps its logical line, counted from the top, and stays on its very cell
      wherever that line has text. */
  lemma CursorKeepsItsCell(before: Screen, after: Screen, popped: nat, dropped: nat, added: nat, t: Track)
    requires before.Valid() && Rectangular(after.rows, after.cols)
    requires CursorKept(before, after, dropped, added, t) && Kept(before, 0, after, popped, dropped, added)
    ensures |before.LinesFrom(0)| - |before.LinesFrom(t.first)| ==
            |after.LinesFrom(popped)| - |after.LinesFrom(t.newFirst)|
    ensures before.Line(t.first, t.last).Offset(before.cursor.row, before.cursor.col) <
            |LineText(before.rows[t.first..t.last + 1])| ==>
      after.rows[after.cursor.row][after.cursor.col] == before.rows[before.cursor.row][before.cursor.col]
  {
    hide Lines, LineText, Screen.Width, Screen.LinesFrom;
    var p := before.Line(t.first, t.last).Offset(before.cursor.row, before.cursor.col);
    if p < |LineText(before.rows[t.first..t.last + 1])| {
      SameLineText(before, after, dropped, added, t);
      TextWithinWidth(before, t.first, t.last);
      CellOfText(before, t.first, t.last, before.cursor);
      CellOfText(after, t.newFirst, t.newLast, after.cursor);
    }
  }

  /** A cell within a line's text, found by its offset. */
  lemma CellOfText(s: Screen, first: nat, last: nat, at: Pos)
    requires first <= at.row <= last < |s.rows| && Rectangular(s.rows, s.cols) && 0 <= at.col < s.cols
    ensures var p := Cells(at.row - first, s.cols) + at.col;
      p < |LineText(s.rows[first..last + 1])| ==> LineText(s.rows[first..last + 1])[p] == s.rows[at.row][at.col]
  {
    hide Trim;
    var rows := s.rows[first..last + 1];
    FlattenIndex(rows, s.cols, at.row - first, at.col);
    assert rows[at.row - first] == s.rows[at.row];
  }

  lemma SameLineText(before: Screen, after: Screen, dropped: nat, added: nat, t: Track)
    requires before.Valid() && CursorKept(before, after, dropped, added, t)
    ensures LineText(before.rows[t.first..t.last + 1]) == LineText(after.rows[t.newFirst..t.newLast + 1])
  {
    hide Lines, CursorCopied, LineText;
    LinesFromLine(before, t.first, t.last);
    LinesFromLine(after, t.newFirst, t.newLast);
    assert (before.LinesFrom(t.first) + Empties(added))[0] == (after.LinesFrom(t.newFirst) + Empties(dropped))[0];
  }

  lemma TextWithinWidth(s: Screen, first: nat, last: nat)
    requires s.Valid() && first <= last < |s.rows|
    ensures |LineText(s.rows[first..last + 1])| <= s.Width(first, last)
  {
    WidthKeepsText(s, first, last);
    var text, w := Flatten(s.rows[first..last + 1]), s.Width(first, last);
    TrimPadded(text[..w], text[w..]);
    assert text == text[..w] + text[w..];
  }

  // ---- When everything fits ----

  lemma HeightBound(s: Screen, first: nat, last: nat, newCols: nat)
    requires s.Valid() && first <= last < |s.rows| && newCols >= s.cols
    ensures Height(s.Width(first, last), newCols) <= last - first + 1
  {
    HeightOfCells(last - first, |Trim(s.rows[last])|, s.cols, newCols);
  }

  lemma {:induction false} HeightOfCells(n: nat, c: nat, cols: nat, newCols: nat)
    requires 0 < cols <= newCols && c <= cols
    ensures Height(Cells(n, cols) + c, newCols) <= n + 1
    decreases n
  {
    var w := Cells(n, cols) + c;
    if w > newCols {
      HeightOfCells(n - 1, c, cols, newCols);
      HeightGrows(w - newCols, w - cols, newCols);
    }
  }

  lemma {:induction false} HeightGrows(v: nat, w: nat, cols: nat)
    requires cols > 0 && v <= w
    ensures Height(v, cols) <= Height(w, cols)
    decreases w
  {
    if v > cols { HeightGrows(v - cols, w - cols, cols); }
  }

  lemma {:induction false} RowsBound(s: Screen, r: nat, newCols: nat)
    requires s.Valid() && s.StartsLine(r) && newCols >= s.cols
    ensures s.ContentRows(r, newCols) <= |s.rows| - r
    ensures r <= s.cursor.row ==> s.CursorRows(r, newCols) <= |s.rows| - r
    decreases |s.rows| - r
  {
    if r < |s.rows| {
      hide Screen.Width, Height;
      var last := s.LineEnd(r);
      RowsBound(s, last + 1, newCols);
      HeightBound(s, r, last, newCols);
      if r <= s.cursor.row <= last { CursorRowBound(s, r, last, newCols); }
    }
  }

  lemma CursorRowBound(s: Screen, first: nat, last: nat, newCols: nat)
    requires s.Valid() && s.IsLine(first, last) && first <= s.cursor.row <= last < |s.rows| && newCols >= s.cols
    ensures s.CursorRows(first, newCols) <= last - first + 1
  {
    LineEndUnique(s, first, last);
    HeightBound(s, first, last, newCols);
    var p := s.Line(first, last).Offset(s.cursor.row, s.cursor.col);
    if p < s.Width(first, last) { RowBelowHeight(p, s.Width(first, last), newCols); }
  }

  lemma {:induction false} RowBelowHeight(p: nat, width: nat, cols: nat)
    requires cols > 0 && p < width
    ensures 1 + RowOf(p, cols) <= Height(width, cols)
    decreases p
  {
    if p >= cols { RowBelowHeight(p - cols, width - cols, cols); }
  }

  /** Nothing is pushed out of a screen that gets no smaller either way. */
  lemma GrowingFits(s: Screen, newRows: nat, newCols: nat, active: bool)
    requires s.Valid() && newRows >= |s.rows| && newCols >= s.cols
    ensures !TooTall(s, 0, newRows, newCols, active)
  {
    RowsBound(s, 0, newCols);
  }
}
