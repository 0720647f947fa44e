/** Row revisions over what the terminal is sent: which events leave a change of the screen
    unreported, and that no others do. */
module Reports {
  import opened Grid
  import opened ScreenSpec
  import opened TermSpec
  import opened TermCsi
  import opened TermSafe
  import D = Damage
  import R = Revisions
  import Seqs

  // ---- Runs of requests one after the other ----

  lemma FitsBoth(a: seq<Op>, b: seq<Op>, rows: nat, cols: nat)
    requires R.AllFit(a, rows, cols) && R.AllFit(b, rows, cols)
    ensures R.AllFit(a + b, rows, cols)
  {
  }

  lemma RunNext(x: R.Term, ops: seq<Op>, op: Op, rows: nat, cols: nat)
    requires x.Valid(rows, cols) && R.AllFit(ops, rows, cols) && R.AllFit(ops + [op], rows, cols)
    ensures var was := R.Run(x, ops, rows, cols);
      Fits(op, rows, cols) && R.Run(x, ops + [op], rows, cols) ==
        R.Term(Apply(was.display, op, rows, cols), R.Marked(was.marks, op, rows, cols))
  {
    assert (ops + [op])[..|ops|] == ops && (ops + [op])[|ops|] == op;
    hide Apply, R.Marked, R.Term.Valid, Fits;
  }

  lemma {:induction false} RunBoth(x: R.Term, a: seq<Op>, b: seq<Op>, rows: nat, cols: nat)
    requires x.Valid(rows, cols) && R.AllFit(a, rows, cols) && R.AllFit(b, rows, cols)
    ensures R.AllFit(a + b, rows, cols) && R.Run(x, a + b, rows, cols) == R.Run(R.Run(x, a, rows, cols), b, rows, cols)
  {
    FitsBoth(a, b, rows, cols);
    if b == [] {
      assert a + b == a;
    } else {
      var init, op := b[..|b| - 1], b[|b| - 1];
      assert b == init + [op];
      assert a + b == (a + init) + [op];
      hide Apply, R.Marked, R.Term.Valid, R.Run, Fits;
      RunBoth(x, a, init, rows, cols);
      RunNext(x, a + init, op, rows, cols);
      RunNext(R.Run(x, a, rows, cols), init, op, rows, cols);
    }
  }

  lemma SeenAtLater(x: R.Term, a: seq<Op>, b: seq<Op>, i: nat, rows: nat, cols: nat)
    requires x.Valid(rows, cols) && R.AllFit(a, rows, cols) && R.AllFit(b, rows, cols) && R.AllFit(a + b, rows, cols)
    requires i < |b|
    ensures R.SeenAt(x, a + b, |a| + i, rows, cols) <==> R.SeenAt(R.Run(x, a, rows, cols), b, i, rows, cols)
  {
    assert (a + b)[..|a| + i] == a + b[..i] && R.AllFit(b[..i], rows, cols);
    RunBoth(x, a, b[..i], rows, cols);
    hide R.Run, R.Seen;
  }

  lemma SeenAtBefore(x: R.Term, a: seq<Op>, b: seq<Op>, i: nat, rows: nat, cols: nat)
    requires x.Valid(rows, cols) && R.AllFit(a, rows, cols) && R.AllFit(a + b, rows, cols) && i < |a|
    ensures R.SeenAt(x, a + b, i, rows, cols) <==> R.SeenAt(x, a, i, rows, cols)
  {
    assert (a + b)[..i] == a[..i];
    hide R.Run, R.Seen;
  }

  lemma SeenBoth(x: R.Term, a: seq<Op>, b: seq<Op>, rows: nat, cols: nat)
    requires x.Valid(rows, cols) && R.AllFit(a, rows, cols) && R.AllFit(b, rows, cols) && R.AllFit(a + b, rows, cols)
    ensures R.AllSeen(x, a + b, rows, cols) <==>
      R.AllSeen(x, a, rows, cols) && R.AllSeen(R.Run(x, a, rows, cols), b, rows, cols)
  {
    var y := R.Run(x, a, rows, cols);
    hide R.SeenAt, R.Run, R.AllFit;
    forall i | 0 <= i < |a| ensures R.SeenAt(x, a + b, i, rows, cols) <==> R.SeenAt(x, a, i, rows, cols) {
      SeenAtBefore(x, a, b, i, rows, cols);
    }
    forall i | 0 <= i < |b| ensures R.SeenAt(x, a + b, |a| + i, rows, cols) <==> R.SeenAt(y, b, i, rows, cols) {
      SeenAtLater(x, a, b, i, rows, cols);
    }
    if R.AllSeen(x, a, rows, cols) && R.AllSeen(y, b, rows, cols) {
      forall k | 0 <= k < |a + b| ensures R.SeenAt(x, a + b, k, rows, cols) {
        assert k >= |a| ==> R.SeenAt(y, b, k - |a|, rows, cols);
      }
    }
  }

  // ---- The requests of one event ----

  /** The requests that an event leads to. */
  function Requests(t: Term, e: Event, w: Widths): seq<Op> {
    var out := Handle(t, e, w).out;
    if |t.out| <= |out| then out[|t.out|..] else []
  }

  lemma LaterFit(was: seq<Op>, now: seq<Op>, s: Setup, strict: bool)
    requires OpsFit(now, s, Claim(was, true, strict, false, false))
    ensures was <= now && now == was + now[|was|..] && R.AllFit(now[|was|..], s.rows, s.cols)
    ensures strict ==> forall i :: 0 <= i < |now[|was|..]| ==> HasRows(now[|was|..][i])
  {
    hide Fits, HasRows;
    var later := now[|was|..];
    forall i | 0 <= i < |later| ensures Fitting(later[i], s, strict) {
      assert later[i] == now[|was| + i];
    }
  }

  lemma RequestsFit(t: Term, e: Event, w: Widths, s: Setup)
    requires Kept(t, s, ANY) && Tame(t, e, w, s.cols)
    ensures Kept(Handle(t, e, w), s, ANY) && Handle(t, e, w).out == t.out + Requests(t, e, w)
    ensures R.AllFit(Requests(t, e, w), s.rows, s.cols)
    ensures !HollowEvent(t, e) ==> forall i :: 0 <= i < |Requests(t, e, w)| ==> HasRows(Requests(t, e, w)[i])
  {
    var b := Claim(t.out, true, !HollowEvent(t, e), false, false);
    assert Kept(t, s, b);
    hide HollowEvent, Handle, Tame, Safe, OpsFit, HasRows, R.AllFit;
    KeptEvent(t, e, w, s, ANY);
    KeptEvent(t, e, w, s, b);
    LaterFit(t.out, Handle(t, e, w).out, s, b.strict);
  }

  /** Erasing above the cursor on the first row asks to erase no rows, and then the row's start. */
  lemma HollowRequests(t: Term, e: Event, w: Widths, s: Setup)
    requires Safe(t, s) && HollowEvent(t, e)
    ensures var ops := Requests(t, e, w);
      && |ops| == 2 && ops[0].Erase? && ops[1].Erase?
      && ops[0].rect == Rect(0, 0, 0, s.cols) && ops[1].rect == Rect(0, 1, 0, t.pos.col + 1)
  {
    var k := Code(e.leader, e.intermed, e.final);
    var selective := k == 0x3f4a;
    var u := EraseUpto(t, 0, t.pos.col, selective);
    assert Sequence(t, k, e.args) == u;
    assert Handle(t, e, w).out == u.out by {
      hide Code, Sequence, Param, Into;
    }
    assert PlainLines(t, 0, 0) == t;
    var v := Erasing(t, Rect(0, 0, 0, s.cols), selective);
    assert u == Erasing(v, Rect(0, 1, 0, t.pos.col + 1), selective);
    assert |v.out| == |t.out| + 1 && |u.out| == |t.out| + 2;
    hide Code, Handle, Uncontinued;
  }

  /** Erasing above the cursor on the first row, with damage to that row stored or reported. */
  predicate Heeds(t: Term, m: D.Marks, e: Event)
    requires m.Valid() && |m.dirty| > 0
  {
    HollowEvent(t, e) ==> m.damaged.startRow == 0 || m.Reported(0)
  }

  /** All requests of an event are seen if and only if it heeds the first row. */
  lemma EventSeen(t: Term, x: R.Term, e: Event, w: Widths, s: Setup)
    requires Kept(t, s, ANY) && Tame(t, e, w, s.cols) && x.Valid(s.rows, s.cols)
    ensures R.AllFit(Requests(t, e, w), s.rows, s.cols)
    ensures R.AllSeen(x, Requests(t, e, w), s.rows, s.cols) <==> Heeds(t, x.marks, e)
  {
    RequestsFit(t, e, w, s);
    var ops := Requests(t, e, w);
    assert s.rows >= 1;
    if HollowEvent(t, e) {
      HollowRequests(t, e, w, s);
      hide Kept, Tame, HollowEvent, Requests;
      assert ops[..0] == [];
      assert R.SeenAt(x, ops, 0, s.rows, s.cols) <==> R.Seen(x.marks, ops[0]);
      assert R.SeenAt(x, ops, 1, s.rows, s.cols);
    } else {
      hide Kept, Tame, HollowEvent, Requests, Handle, R.Run;
    }
  }

  /** Each row that the event touches is stored or reported afterwards. */
  ghost predicate Covers(x: R.Term, ops: seq<Op>, rows: nat, cols: nat)
    requires x.Valid(rows, cols) && R.AllFit(ops, rows, cols)
  {
    forall r: nat, i :: 0 <= i < |ops| && r < rows && R.Touches(ops[i], r) ==>
      R.Run(x, ops, rows, cols).marks.Covered(r)
  }

  /** Erasing no rows and then the start of the first: that row is covered if and only if damage
      to it was stored or reported. */
  lemma HollowCovers(x: R.Term, ops: seq<Op>, col: nat, rows: nat, cols: nat)
    requires x.Valid(rows, cols) && R.AllFit(ops, rows, cols) && rows > 0 && D.Sound(x.marks)
    requires |ops| == 2 && ops[0].Erase? && ops[1].Erase?
    requires ops[0].rect == Rect(0, 0, 0, cols) && ops[1].rect == Rect(0, 1, 0, col + 1)
    ensures R.Run(x, ops, rows, cols).marks.Covered(0) <==> x.marks.damaged.startRow == 0 || x.marks.Reported(0)
    ensures R.Touches(ops[1], 0)
  {
    assert ops[..1][..0] == [] && ops[..0] == [];
    assert R.Run(x, ops[..1][..0], rows, cols) == x;
    var one := R.Run(x, ops[..1], rows, cols);
    assert one.marks == D.Damaged(x.marks, ops[0].rect);
    var two := R.Run(x, ops, rows, cols);
    assert two.marks == D.Damaged(one.marks, ops[1].rect);
    hide R.Run, D.Damaged;
    D.EraseAboveReports(x.marks, 0, col, cols);
    D.FlushReports(two.marks, 0);
  }

  /** One event: the rows it touches are all covered if and only if it heeds the first row. */
  lemma EventCovers(t: Term, x: R.Term, e: Event, w: Widths, s: Setup)
    requires Kept(t, s, ANY) && Tame(t, e, w, s.cols) && x.Valid(s.rows, s.cols) && D.Sound(x.marks)
    ensures R.AllFit(Requests(t, e, w), s.rows, s.cols)
    ensures Covers(x, Requests(t, e, w), s.rows, s.cols) <==> Heeds(t, x.marks, e)
  {
    EventSeen(t, x, e, w, s);
    var ops := Requests(t, e, w);
    assert s.rows >= 1;
    if Heeds(t, x.marks, e) {
      hide Kept, Tame, Heeds, Requests, R.Run, R.Touches, R.AllSeen, D.Sound, D.Marks.Covered;
      forall r: nat, i | 0 <= i < |ops| && r < s.rows && R.Touches(ops[i], r)
        ensures R.Run(x, ops, s.rows, s.cols).marks.Covered(r)
      {
        R.SeenCovers(x, ops, s.rows, s.cols, r);
      }
    } else {
      HollowRequests(t, e, w, s);
      hide Kept, Tame, HollowEvent, Requests, R.Run, R.Touches, R.AllSeen, D.Sound, D.Marks.Covered;
      HollowCovers(x, ops, t.pos.col, s.rows, s.cols);
    }
  }

  // ---- Whole writes ----

  /** What the screen has come to after some events. */
  ghost function Drawn(t: Term, x: R.Term, events: seq<Event>, w: Widths, s: Setup): (r: R.Term)
    requires Kept(t, s, ANY) && AllTame(t, events, w, s.cols) && x.Valid(s.rows, s.cols)
    ensures r.Valid(s.rows, s.cols)
  {
    if events == [] then x
    else
      var n := |events| - 1;
      DrawnReady(t, events, w, s);
      R.Run(Drawn(t, x, events[..n], w, s), Requests(Run(t, events[..n], w), events[n], w), s.rows, s.cols)
  }

  lemma DrawnReady(t: Term, events: seq<Event>, w: Widths, s: Setup)
    requires Kept(t, s, ANY) && AllTame(t, events, w, s.cols) && events != []
    ensures var n := |events| - 1;
      && AllTame(t, events[..n], w, s.cols) && Kept(Run(t, events[..n], w), s, ANY)
      && Tame(Run(t, events[..n], w), events[n], w, s.cols)
      && R.AllFit(Requests(Run(t, events[..n], w), events[n], w), s.rows, s.cols)
      && Run(t, events, w).out == Run(t, events[..n], w).out + Requests(Run(t, events[..n], w), events[n], w)
  {
    var n := |events| - 1;
    AdmittedUpto(ANY, t, events, n, w, s.cols);
    assert Run(t, events, w) == Handle(Run(t, events[..n], w), events[n], w);
    hide Kept, AllAdmitted, Admits, Handle, Run, Requests, R.AllFit;
    RunKeeps(t, events[..n], w, s, ANY);
    RequestsFit(Run(t, events[..n], w), events[n], w, s);
  }

  /** Every event heeds the first row as it stands when the event comes. */
  ghost predicate AllHeed(t: Term, x: R.Term, events: seq<Event>, w: Widths, s: Setup)
    requires Kept(t, s, ANY) && AllTame(t, events, w, s.cols) && x.Valid(s.rows, s.cols)
  {
    events == [] ||
    var n := |events| - 1;
    DrawnReady(t, events, w, s);
    AllHeed(t, x, events[..n], w, s) && Heeds(Run(t, events[..n], w), Drawn(t, x, events[..n], w, s).marks, events[n])
  }

  /** The requests of some events. */
  function Asked(t: Term, events: seq<Event>, w: Widths): seq<Op> {
    if events == [] then []
    else
      var n := |events| - 1;
      Asked(t, events[..n], w) + Requests(Run(t, events[..n], w), events[n], w)
  }

  lemma {:induction false} AskedOut(t: Term, events: seq<Event>, w: Widths, s: Setup)
    requires Kept(t, s, ANY) && AllTame(t, events, w, s.cols)
    ensures Kept(Run(t, events, w), s, ANY) && Run(t, events, w).out == t.out + Asked(t, events, w)
    ensures R.AllFit(Asked(t, events, w), s.rows, s.cols)
  {
    RunKeeps(t, events, w, s, ANY);
    if events == [] {
      hide Kept, AllTame, R.AllFit;
    } else {
      var n := |events| - 1;
      DrawnReady(t, events, w, s);
      hide Kept, AllTame, Run, Tame, R.AllFit, Requests;
      AskedOut(t, events[..n], w, s);
      var a, b := Asked(t, events[..n], w), Requests(Run(t, events[..n], w), events[n], w);
      FitsBoth(a, b, s.rows, s.cols);
      Seqs.AppendAssoc(t.out, a, b);
    }
  }

  /** The screen comes to what they make of it. */
  lemma {:induction false} AskedDraws(t: Term, x: R.Term, events: seq<Event>, w: Widths, s: Setup)
    requires Kept(t, s, ANY) && AllTame(t, events, w, s.cols) && x.Valid(s.rows, s.cols)
    ensures R.AllFit(Asked(t, events, w), s.rows, s.cols)
    ensures R.Run(x, Asked(t, events, w), s.rows, s.cols) == Drawn(t, x, events, w, s)
  {
    AskedOut(t, events, w, s);
    if events != [] {
      var n := |events| - 1;
      DrawnReady(t, events, w, s);
      hide Kept, AllTame, Run, Tame, R.AllFit, R.Run, Requests, R.Term.Valid;
      AskedDraws(t, x, events[..n], w, s);
      RunBoth(x, Asked(t, events[..n], w), Requests(Run(t, events[..n], w), events[n], w), s.rows, s.cols);
    }
  }

  /** They are all seen if and only if the events all heed the first row. */
  lemma {:induction false} EventsSeen(t: Term, x: R.Term, events: seq<Event>, w: Widths, s: Setup)
    requires Kept(t, s, ANY) && AllTame(t, events, w, s.cols) && x.Valid(s.rows, s.cols)
    ensures R.AllFit(Asked(t, events, w), s.rows, s.cols)
    ensures R.AllSeen(x, Asked(t, events, w), s.rows, s.cols) <==> AllHeed(t, x, events, w, s)
  {
    AskedOut(t, events, w, s);
    if events != [] {
      var n := |events| - 1;
      DrawnReady(t, events, w, s);
      AskedDraws(t, x, events[..n], w, s);
      hide Kept, AllTame, Run, Tame, R.AllFit, R.AllSeen, R.Run, Heeds, Requests, Drawn, R.Term.Valid;
      EventsSeen(t, x, events[..n], w, s);
      var u, y := Run(t, events[..n], w), Drawn(t, x, events[..n], w, s);
      SeenBoth(x, Asked(t, events[..n], w), Requests(u, events[n], w), s.rows, s.cols);
      EventSeen(u, y, events[n], w, s);
    }
  }

  // ---- Writes one after the other ----

  /** A terminal and its screen between two writes. */
  datatype Live = Live(term: Term, shown: R.Term) {
    ghost predicate Ok(s: Setup) { Kept(term, s, ANY) && shown.Valid(s.rows, s.cols) && shown.Quiet() }
  }

  /** A write of events that are tame and all heed the first row. */
  ghost predicate Writes(was: Live, events: seq<Event>, now: Live, w: Widths, s: Setup) {
    && was.Ok(s) && AllTame(was.term, events, w, s.cols) && R.Begun(was.shown).Valid(s.rows, s.cols)
    && AllHeed(was.term, R.Begun(was.shown), events, w, s)
    && now.term == Run(was.term, events, w)
    && (var drawn := Drawn(was.term, R.Begun(was.shown), events, w, s);
        now.shown == drawn.(marks := D.Flushed(drawn.marks)))
  }

  /** Every row whose bytes it changes is dirty and has the new revision. */
  lemma EventsReported(was: Live, events: seq<Event>, now: Live, w: Widths, s: Setup, r: nat)
    requires Writes(was, events, now, w, s) && r < s.rows
    ensures now.Ok(s) && R.RowReported(was.shown, now.shown, s.rows, s.cols, r)
    ensures now.shown.marks.revision == was.shown.marks.revision + 1
  {
    var ops := Asked(was.term, events, w);
    AskedOut(was.term, events, w, s);
    AskedDraws(was.term, R.Begun(was.shown), events, w, s);
    EventsSeen(was.term, R.Begun(was.shown), events, w, s);
    hide Run, Drawn, AllHeed, AllTame, R.AllSeen, R.Run, R.RowReported, Kept, Asked, R.AllFit;
    R.WriteReportsChanges(was.shown, ops, s.rows, s.cols, r);
    assert now.shown == R.Written(was.shown, ops, s.rows, s.cols);
  }

  /** Over any number of such writes, a row that carries the revision it carried has the bytes
      it had. */
  lemma {:induction false} KeyOverEvents(states: seq<Live>, writes: seq<seq<Event>>, w: Widths, s: Setup, r: nat)
    requires |states| == |writes| + 1 && states[0].Ok(s) && r < s.rows
    requires forall i :: 0 <= i < |writes| ==> Writes(states[i], writes[i], states[i + 1], w, s)
    ensures var first, last := states[0], states[|writes|];
      && last.Ok(s) && last.shown.marks.rowRevision[r] >= first.shown.marks.rowRevision[r]
      && (last.shown.marks.rowRevision[r] == first.shown.marks.rowRevision[r] ==>
            R.Bytes(last.shown.display, s.rows, s.cols, r) == R.Bytes(first.shown.display, s.rows, s.cols, r))
  {
    hide Writes, R.Bytes, Kept;
    if writes != [] {
      var n := |writes| - 1;
      assert Writes(states[n], writes[n], states[n + 1], w, s);
      KeyOverEvents(states[..n + 1], writes[..n], w, s, r);
      EventsReported(states[n], writes[n], states[n + 1], w, s, r);
    }
  }
}
