/** Terminal and screen together: what is written ends up on the screen and in the scrollback,
    and every row that it changes is reported. */
module EndToEnd {
  import opened Grid
  import opened ScreenSpec
  import opened TermSpec
  import opened TermSafe
  import opened TermState
  import opened Wrap
  import H = History
  import opened Pushing
  import opened LiveScreen
  import R = Revisions
  import Reports
  import Seqs

  // ---- Any events ----

  /** If every event heeds the first row, every row whose bytes change is dirty and has the new
      revision. */
  lemma WriteReported(was: Reports.Live, events: seq<Event>, now: Reports.Live, w: Widths, s: Setup, r: nat)
    requires was.Ok(s) && AllTame(was.term, events, w, s.cols) && R.Begun(was.shown).Valid(s.rows, s.cols)
    requires Reports.AllHeed(was.term, R.Begun(was.shown), events, w, s) && r < s.rows
    requires R.AllFit(Reports.Asked(was.term, events, w), s.rows, s.cols)
    requires now == Reports.Live(Run(was.term, events, w),
                                 R.Written(was.shown, Reports.Asked(was.term, events, w), s.rows, s.cols))
    ensures Reports.Writes(was, events, now, w, s) && R.RowReported(was.shown, now.shown, s.rows, s.cols, r)
  {
    Reports.AskedDraws(was.term, R.Begun(was.shown), events, w, s);
    hide Kept, AllTame, Run, Reports.Asked, R.AllFit, R.Run, Reports.Drawn, Reports.AllHeed, R.RowReported;
    Reports.EventsReported(was, events, now, w, s, r);
  }

  /** A write: the events that the bytes written lead to, carried out, and the damage flushed.
      The scrollback is told of every row that leaves the screen. If every event heeds the first
      row, every row whose bytes change is reported. */
  method WriteEvents(term: Terminal, screen: Screen, events: seq<Event>, w: Widths)
    requires term.Valid() && screen.Valid() && screen.rows == term.setup.rows && screen.cols == term.setup.cols
    requires AllTame(term.Abs(), events, w, term.setup.cols)
    requires screen.Term().Valid(screen.rows, screen.cols) && screen.Term().Quiet()
    modifies term, screen, screen.primary, screen.alt, screen.damage, screen.damage.dirty, screen.damage.rowRevision,
      screen.ring, screen.ring.history
    ensures term.Valid() && screen.Valid() && term.Abs() == Run(old(term.Abs()), events, w)
    ensures R.AllFit(Reports.Asked(old(term.Abs()), events, w), screen.rows, screen.cols)
    ensures screen.Term() ==
      R.Written(old(screen.Term()), Reports.Asked(old(term.Abs()), events, w), screen.rows, screen.cols)
    ensures screen.ring.Abs() == H.Run(old(screen.ring.Abs()),
      AllTold(old(screen.Display()), Reports.Asked(old(term.Abs()), events, w), screen.rows, screen.cols,
              screen.damage.revision))
    ensures R.Begun(old(screen.Term())).Valid(screen.rows, screen.cols)
    ensures Reports.AllHeed(old(term.Abs()), R.Begun(old(screen.Term())), events, w, term.setup) ==>
      forall r: nat :: r < screen.rows ==>
        R.RowReported(old(screen.Term()), screen.Term(), screen.rows, screen.cols, r)
  {
    ghost var was, s := Reports.Live(term.Abs(), screen.Term()), term.setup;
    var n := |term.out|;
    Reports.AskedOut(was.term, events, w, s);
    assert R.Begun(was.shown).Valid(s.rows, s.cols);
    hide Kept, AllTame, Run, Reports.Asked, R.AllFit, R.Term.Valid, H.Ring.Valid, H.Run, AllTold, Reports.AllHeed,
      R.RowReported, Reports.Writes;
    term.TakeAll(events, w);
    Seqs.ConcatSlices(was.term.out, Reports.Asked(was.term, events, w));
    screen.Write(term.out[n..]);
    if Reports.AllHeed(was.term, R.Begun(was.shown), events, w, s) {
      forall r: nat | r < s.rows ensures R.RowReported(was.shown, screen.Term(), s.rows, s.cols, r) {
        WriteReported(was, events, Reports.Live(term.Abs(), screen.Term()), w, s, r);
      }
    }
  }

  // ---- What paragraphs ask for ----

  lemma {:induction false} PlayShown(d: Display, ops: seq<Op>, s: Setup)
    requires ValidDisplay(d, s.rows, s.cols) && R.AllFit(ops, s.rows, s.cols)
    ensures Play(d, ops, s).display == R.Shown(d, ops, s.rows, s.cols)
  {
    hide Apply, Leaving, ValidDisplay;
    if ops != [] {
      PlayShown(d, ops[..|ops| - 1], s);
    }
  }

  lemma PushedMore(a: seq<Row>, b: seq<Row>, reverse: bool, revision: nat)
    ensures H.Pushes(Pushed(a + b, reverse, revision)) ==
      H.Pushes(Pushed(a, reverse, revision)) + H.Pushes(Pushed(b, reverse, revision))
  {
    assert Pushed(a + b, reverse, revision) == Pushed(a, reverse, revision) + Pushed(b, reverse, revision);
    H.PushesAppend(Pushed(a, reverse, revision), Pushed(b, reverse, revision));
  }

  lemma SameReverse(d: Display, op: Op, rows: nat, cols: nat)
    requires ValidDisplay(d, rows, cols) && Fits(op, rows, cols) && !op.SetReverse?
    ensures Apply(d, op, rows, cols).reverse == d.reverse
  {
    hide Glyphed, ErasedRows, Shifted, Lined, ValidDisplay;
  }

  /** While reverse video stays as it is and nothing is forgotten, the scrollback is told of the
      rows sent to it and of nothing else. */
  lemma {:induction false} PlayTold(d: Display, ops: seq<Op>, s: Setup, revision: nat)
    requires ValidDisplay(d, s.rows, s.cols) && R.AllFit(ops, s.rows, s.cols) && Calm(ops)
    ensures Play(d, ops, s).display.reverse == d.reverse
    ensures AllTold(d, ops, s.rows, s.cols, revision) == H.Pushes(Pushed(Play(d, ops, s).sent, d.reverse, revision))
  {
    PlayShown(d, ops, s);
    if ops != [] {
      var n := |ops| - 1;
      PlayTold(d, ops[..n], s, revision);
      PlayShown(d, ops[..n], s);
      var x := Play(d, ops[..n], s);
      assert Calm(ops[..n]) && R.AllFit(ops[..n], s.rows, s.cols);
      SameReverse(x.display, ops[n], s.rows, s.cols);
      hide Apply, Leaving, ValidDisplay, Pushed, H.Pushes, Fits;
      PushedMore(x.sent, Leaving(x.display, ops[n], s.rows, s.cols), d.reverse, revision);
    }
  }

  lemma {:induction false} SingleNarrow(p: seq<nat>, w: Widths, i: nat, cols: nat)
    requires Single(p, w) && i <= |p| && cols >= 1
    ensures Narrow(p, w, i, cols)
    decreases |p| - i
  {
    if i < |p| {
      OneGlyph(p, w, i);
      SingleNarrow(p, w, i + 1, cols);
      hide Single, GlyphEnd, TotalWidth;
    }
  }

  predicate Simple(e: Event, w: Widths) { e.Ctrl? || (e.Text? && Single(e.cps, w)) }

  lemma {:induction false} EventsSimple(ps: seq<seq<seq<nat>>>, w: Widths)
    requires Printable(ps, w)
    ensures forall k :: 0 <= k < |Events(ps)| ==> Simple(Events(ps)[k], w)
  {
    hide Single;
    if ps != [] {
      EventsSimple(ps[..|ps| - 1], w);
      assert AllSingle(ps[|ps| - 1], w);
    }
  }

  lemma SimpleTame(t: Term, e: Event, w: Widths, cols: nat)
    requires Simple(e, w) && cols >= 1
    ensures Tame(t, e, w, cols)
  {
    if e.Text? {
      assert TextStart(t, e.cps, w) == 0;
      SingleNarrow(e.cps, w, 0, cols);
    }
    hide Narrow;
  }

  lemma ParagraphsTame(s: Setup, ps: seq<seq<seq<nat>>>, w: Widths)
    requires s.cols >= 1 && Printable(ps, w)
    ensures AllTame(Fresh(s), Events(ps), w, s.cols)
  {
    EventsSimple(ps, w);
    hide Simple, Admits, Run, Events, Fresh, Single;
    forall k | 0 <= k < |Events(ps)| ensures AdmitsAt(ANY, Fresh(s), Events(ps), k, w, s.cols) {
      SimpleTame(Run(Fresh(s), Events(ps)[..k], w), Events(ps)[k], w, s.cols);
    }
  }

  lemma PrintedCalm(s: Setup, ps: seq<seq<seq<nat>>>, w: Widths, d: Display)
    requires s.rows >= 2 && s.cols >= 2 && ValidDisplay(d, s.rows, s.cols) && !d.onAlt && Printable(ps, w)
    ensures Calm(Run(Fresh(s), Events(ps), w).out)
  {
    RunShows(s, ps, w, d);
    hide Run, Fresh, Events, Holds, Single, Calm;
  }

  // ---- Paragraphs from end to end ----

  /** The terminal's part. */
  method RunParagraphs(s: Setup, ps: seq<seq<seq<nat>>>, w: Widths) returns (term: Terminal)
    requires s.rows >= 2 && s.cols >= 2 && Printable(ps, w)
    ensures term.Valid() && fresh(term) && term.Abs() == Run(Fresh(s), Events(ps), w)
    ensures R.AllFit(term.out, s.rows, s.cols)
  {
    ParagraphsTame(s, ps, w);
    hide Single, AllTame, Run, Fresh, Events, Safe, Fits;
    term := new Terminal(s);
    term.TakeAll(Events(ps), w);
    assert forall i :: 0 <= i < |term.out| ==> Fitting(term.out[i], s, false);
  }

  /** Rows sent to the scrollback: it holds the newest of them behind what it held, and as many
      as its limits allow. */
  lemma SentLongest(start: H.Store, d: Display, ops: seq<Op>, s: Setup, revision: nat)
    requires ValidDisplay(d, s.rows, s.cols) && R.AllFit(ops, s.rows, s.cols) && Calm(ops)
    ensures var sent := Pushed(Play(d, ops, s).sent, d.reverse, revision);
      var now := H.Run(start, AllTold(d, ops, s.rows, s.cols, revision));
      now == H.Run(start, H.Pushes(sent)) && H.Longest(now.lines, start.lines + sent)
  {
    PlayTold(d, ops, s, revision);
    hide Play, AllTold, Calm, R.AllFit, ValidDisplay, H.Run, H.Longest, Pushed;
    PushedLongest(start, Play(d, ops, s).sent, d.reverse, revision);
  }

  /** What becomes of the requests for paragraphs, written to a screen. */
  lemma ParagraphsWritten(s: Setup, ps: seq<seq<seq<nat>>>, w: Widths, was: R.Term, t: Term, start: H.Store,
                          revision: nat)
    requires s.rows >= 2 && s.cols >= 2 && Printable(ps, w) && t == Run(Fresh(s), Events(ps), w)
    requires was.Valid(s.rows, s.cols) && !was.display.onAlt && R.AllFit(t.out, s.rows, s.cols)
    ensures var now, sent := R.Written(was, t.out, s.rows, s.cols), Play(was.display, t.out, s).sent;
      var lines := Pushed(sent, was.display.reverse, revision);
      var held := H.Run(start, AllTold(was.display, t.out, s.rows, s.cols, revision));
      && AsParagraphs(t, World(now.display, sent), Whole(ps), s)
      && held == H.Run(start, H.Pushes(lines)) && H.Longest(held.lines, start.lines + lines)
  {
    var d := was.display;
    hide Single, AsParagraphs, Run, Fresh, Calm, Play, Pushed, Events, AllTold, H.Run, H.Longest, R.AllFit, R.Written;
    ParagraphsShown(s, ps, w, d);
    PrintedCalm(s, ps, w, d);
    PlayShown(d, t.out, s);
    R.WriteShows(was, t.out, s.rows, s.cols);
    SentLongest(start, d, t.out, s, revision);
  }

  /** Paragraphs printed on a new terminal over a screen of its size, each ended by CR LF.
      Screen and scrollback together hold them cut into rows; the scrollback holds the newest
      of the rows sent to it, and a row is missing only if with it and all newer ones the lines
      or their bytes would exceed a limit. */
  method PrintParagraphs(s: Setup, ps: seq<seq<seq<nat>>>, w: Widths, screen: Screen)
    returns (term: Terminal, ghost sent: seq<Row>)
    requires s.rows >= 2 && s.cols >= 2 && Printable(ps, w)
    requires screen.Valid() && screen.rows == s.rows && screen.cols == s.cols && !screen.onAlt
    requires screen.Term().Valid(s.rows, s.cols)
    modifies screen, screen.primary, screen.alt, screen.damage, screen.damage.dirty, screen.damage.rowRevision,
      screen.ring, screen.ring.history
    ensures term.Valid() && screen.Valid()
    ensures AsParagraphs(term.Abs(), World(screen.Display(), sent), Whole(ps), s)
    ensures var lines := Pushed(sent, old(screen.reverse), screen.damage.revision);
      && screen.ring.Abs() == H.Run(old(screen.ring.Abs()), H.Pushes(lines))
      && H.Longest(screen.ring.Abs().lines, old(screen.ring.Abs()).lines + lines)
  {
    ghost var was, start := screen.Term(), screen.ring.Abs();
    hide Single, Kept, AsParagraphs, Run, Fresh, Play, Pushed, H.Ring.Valid, Events, ValidDisplay, AllTold, H.Run,
      H.Longest, R.AllFit, R.Term.Valid, R.Written, Whole;
    term := RunParagraphs(s, ps, w);
    sent := Play(was.display, term.out, s).sent;
    screen.Write(term.out);
    ParagraphsWritten(s, ps, w, was, term.Abs(), start, screen.damage.revision);
  }
}
