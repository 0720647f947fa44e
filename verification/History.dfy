/** The bridge's bounded scrollback: a ring of lines with a line limit and a byte limit. */
module History {
  import opened Seqs
  import opened Grid

  const LINES := 2000
  const BYTES := 8 * 1024 * 1024
  const CELL_BYTES := 40

  /** The external form of a cell, as handed to the scrollback callbacks. */
  datatype ExtCell = ExtCell(text: Text, width: nat, pen: Pen)

  datatype Line = Line(cells: seq<ExtCell>, revision: nat) {
    function Size(): nat { |cells| * CELL_BYTES }
  }

  function TotalSize(q: seq<Line>): nat {
    if q == [] then 0 else q[0].Size() + TotalSize(q[1..])
  }

  lemma {:induction false} TotalSizeSnoc(q: seq<Line>, line: Line)
    ensures TotalSize(q + [line]) == TotalSize(q) + line.Size()
  {
    if q == [] {
      assert q + [line] == [line] && [line][1..] == [];
    } else {
      assert (q + [line])[1..] == q[1..] + [line];
      TotalSizeSnoc(q[1..], line);
    }
  }

  predicate HasRoom(q: seq<Line>, size: nat) {
    q == [] || (|q| < LINES && TotalSize(q) + size <= BYTES)
  }

  /** The oldest lines are discarded until a line of `size` bytes has room. */
  function Evict(q: seq<Line>, size: nat): (r: seq<Line>)
    ensures HasRoom(r, size)
    ensures |r| <= |q| && r == q[|q| - |r|..]
  {
    if HasRoom(q, size) then q else Evict(q[1..], size)
  }

  /** No more is discarded than must be: every longer tail of the queue lacks room. */
  lemma {:induction false} EvictIsLazy(q: seq<Line>, size: nat, k: nat)
    requires |Evict(q, size)| < k <= |q|
    ensures !HasRoom(q[|q| - k..], size)
  {
    if k < |q| {
      EvictIsLazy(q[1..], size, k);
      assert q[1..][|q[1..]| - k..] == q[|q| - k..];
    } else {
      assert q[|q| - k..] == q;
    }
  }

  function Front(q: seq<Line>): seq<Line>
    requires q != []
  {
    q[..|q| - 1]
  }

  function Newest(q: seq<Line>): Line
    requires q != []
  {
    q[|q| - 1]
  }

  lemma TotalSizeFront(q: seq<Line>)
    requires q != []
    ensures TotalSize(q) == TotalSize(Front(q)) + Newest(q).Size()
  {
    TotalSizeSnoc(Front(q), Newest(q));
    assert q == Front(q) + [Newest(q)];
  }

  /** A popped line cut or padded to `cols` cells. */
  function Fit(cells: seq<ExtCell>, cols: nat, blank: ExtCell): (r: seq<ExtCell>)
    ensures |r| == cols
    ensures forall i :: 0 <= i < cols ==> r[i] == if i < |cells| then cells[i] else blank
  {
    if cols <= |cells| then cells[..cols] else cells + seq(cols - |cells|, _ => blank)
  }

  /** `i % LINES` for the indices the ring uses. */
  function Wrap(i: nat): (r: nat)
    requires i < 2 * LINES
    ensures r == i % LINES
  {
    if i < LINES then i else i - LINES
  }

  datatype Op = Push(line: Line) | Pop | Clear

  /** The lines held, and how many were discarded before the first of them. */
  datatype Store = Store(lines: seq<Line>, discarded: nat) {
    predicate Holds(number: int) { discarded <= number < discarded + |lines| }

    function At(number: int): Line
      requires Holds(number)
    {
      lines[number - discarded]
    }
  }

  /** What one callback does to the store; the ring's methods are proved against it. */
  function Step(s: Store, op: Op): Store {
    match op
    case Push(line) =>
      var kept := Evict(s.lines, line.Size());
      Store(kept + [line], s.discarded + |s.lines| - |kept|)
    case Pop => if s.lines == [] then s else Store(Front(s.lines), s.discarded)
    case Clear => Store([], s.discarded + |s.lines|)
  }

  class Ring {
    var history: array<Line>
    var head: nat
    var count: nat
    var discarded: nat
    var historyBytes: nat

    ghost var Contents: seq<Line>  // the lines held, oldest first

    ghost function Abs(): Store
      reads this
    {
      Store(Contents, discarded)
    }

    ghost predicate Valid()
      reads this, history
    {
      && history.Length == LINES
      && head < LINES && count == |Contents| <= LINES
      && historyBytes == TotalSize(Contents)
      && forall i :: 0 <= i < count ==> Contents[i] == history[Wrap(head + i)]
    }

    constructor ()
      ensures Valid() && fresh(history)
      ensures Contents == [] && discarded == 0
    {
      history := new Line[LINES](_ => Line([], 0));
      head, count, discarded, historyBytes := 0, 0, 0, 0;
      Contents := [];
    }

    method DropOldest()
      requires Valid() && count > 0
      modifies this, history
      ensures Valid() && history == old(history)
      ensures Contents == old(Contents)[1..]
      ensures discarded == old(discarded) + 1
    {
      assert Contents[0] == history[head];
      historyBytes := historyBytes - history[head].Size();
      history[head] := Line([], 0);
      head := Wrap(head + 1);
      count, discarded := count - 1, discarded + 1;
      Contents := Contents[1..];
    }

    method Append(line: Line)
      requires Valid() && count < LINES
      modifies this, history
      ensures Valid() && history == old(history)
      ensures Contents == old(Contents) + [line]
      ensures discarded == old(discarded)
    {
      history[Wrap(head + count)] := line;
      count := count + 1;
      historyBytes := historyBytes + line.Size();
      TotalSizeSnoc(Contents, line);
      Contents := Contents + [line];
    }

    method MakeRoom(size: nat)
      requires Valid()
      modifies this, history
      ensures Valid() && history == old(history) && count < LINES
      ensures Contents == Evict(old(Contents), size)
      ensures discarded == old(discarded) + |old(Contents)| - |Contents|
    {
      while count > 0 && (count == LINES || historyBytes + size > BYTES)
        invariant Valid() && history == old(history)
        invariant Evict(Contents, size) == Evict(old(Contents), size)
        invariant discarded + count == old(discarded) + |old(Contents)|
      {
        DropOldest();
      }
      assert HasRoom(Contents, size);
    }

    method Push(cells: seq<ExtCell>, revision: nat)
      requires Valid()
      modifies this, history
      ensures Valid() && history == old(history)
      ensures Abs() == Step(old(Abs()), Op.Push(Line(cells, revision)))
    {
      var line := Line(cells, revision);
      MakeRoom(line.Size());
      Append(line);
    }

    method TakeNewest() returns (line: Line)
      requires Valid() && count > 0
      modifies this, history
      ensures Valid() && history == old(history)
      ensures discarded == old(discarded)
      ensures Contents == Front(old(Contents)) && line == Newest(old(Contents))
    {
      hide TotalSize;
      var slot := Wrap(head + count - 1);
      line := history[slot];
      TotalSizeFront(Contents);
      history[slot] := Line([], 0);
      count := count - 1;
      historyBytes := historyBytes - line.Size();
      Contents := Front(Contents);
    }

    method Pop(cols: nat, blank: ExtCell) returns (popped: bool, cells: seq<ExtCell>)
      requires Valid()
      modifies this, history
      ensures Valid() && history == old(history)
      ensures Abs() == Step(old(Abs()), Op.Pop)
      ensures popped == (old(Contents) != [])
      ensures popped ==> cells == Fit(Newest(old(Contents)).cells, cols, blank)
    {
      if count == 0 { return false, []; }
      var line := TakeNewest();
      cells := Fit(line.cells, cols, blank);
      popped := true;
    }

    /** The revision stamped on line `row`, 0 for a row the ring does not hold. */
    method LineRevision(row: int) returns (revision: nat)
      requires Valid()
      ensures revision == if 0 <= row < |Contents| then Contents[row].revision else 0
    {
      if row < 0 || row >= count { return 0; }
      revision := history[Wrap(head + row)].revision;
    }

    method Clear()
      requires Valid()
      modifies this, history
      ensures Valid() && history == old(history)
      ensures Abs() == Step(old(Abs()), Op.Clear)
    {
      for i := 0 to LINES
        invariant history.Length == LINES && history == old(history)
        invariant count == old(count) && discarded == old(discarded)
      {
        history[i] := Line([], 0);
      }
      discarded := discarded + count;
      head, count, historyBytes := 0, 0, 0;
      Contents := [];
    }
  }

  // ---- Whole runs ----

  function Run(s: Store, ops: seq<Op>): Store
    decreases |ops|
  {
    if ops == [] then s else Step(Run(s, ops[..|ops| - 1]), ops[|ops| - 1])
  }

  predicate Bounded(s: Store) {
    |s.lines| <= LINES && TotalSize(s.lines) <= BYTES
  }

  predicate NarrowPushes(ops: seq<Op>) {
    forall i :: 0 <= i < |ops| && ops[i].Push? ==> |ops[i].line.cells| <= 1000
  }

  /** Neither limit is ever exceeded. */
  lemma {:induction false} RunBounded(s: Store, ops: seq<Op>)
    requires Bounded(s) && NarrowPushes(ops)
    ensures Bounded(Run(s, ops))
    decreases |ops|
  {
    if ops != [] {
      var before, op := Run(s, ops[..|ops| - 1]), ops[|ops| - 1];
      RunBounded(s, ops[..|ops| - 1]);
      match op
      case Push(line) => TotalSizeSnoc(Evict(before.lines, line.Size()), line);
      case Pop =>
        if before.lines != [] { TotalSizeFront(before.lines); }
      case Clear =>
    }
  }

  /** A line keeps its number, and its content under that number, for as long as the number
      is held without interruption. */
  lemma {:induction false} NumbersAreStable(s: Store, ops: seq<Op>, number: int)
    requires forall k :: 0 <= k <= |ops| ==> Run(s, ops[..k]).Holds(number)
    ensures s.Holds(number) && Run(s, ops).Holds(number)
    ensures Run(s, ops).At(number) == s.At(number)
    decreases |ops|
  {
    assert ops[..|ops|] == ops && Run(s, ops[..0]) == s;
    if ops != [] {
      var init := ops[..|ops| - 1];
      forall k | 0 <= k <= |init| ensures Run(s, init[..k]).Holds(number) {
        assert init[..k] == ops[..k];
      }
      NumbersAreStable(s, init, number);
      StepKeepsNumber(Run(s, init), ops[|ops| - 1], number);
    }
  }

  lemma StepKeepsNumber(s: Store, op: Op, number: int)
    requires s.Holds(number) && Step(s, op).Holds(number)
    ensures Step(s, op).At(number) == s.At(number)
  {
    hide TotalSize, HasRoom;
    if op.Push? {
      var kept := Evict(s.lines, op.line.Size());
      var gone := |s.lines| - |kept|;
      assert kept[number - s.discarded - gone] == s.lines[gone..][number - s.discarded - gone];
    }
  }

  /** The same run on a stack without limits; a pop that the ring refuses changes nothing. */
  function Unlimited(ops: seq<Op>): seq<Line>
    decreases |ops|
  {
    if ops == [] then []
    else
      var before := Unlimited(ops[..|ops| - 1]);
      match ops[|ops| - 1]
      case Push(line) => before + [line]
      case Pop =>
        if before == [] || Run(Store([], 0), ops[..|ops| - 1]).lines == [] then before
        else before[..|before| - 1]
      case Clear => []
  }

  /** The ring always holds the newest lines of the unlimited stack, in order. */
  lemma {:induction false} RunHoldsNewest(ops: seq<Op>)
    ensures NewestOf(Run(Store([], 0), ops).lines, Unlimited(ops))
    decreases |ops|
  {
    if ops != [] {
      var init := ops[..|ops| - 1];
      RunHoldsNewest(init);
      StepHoldsNewest(Run(Store([], 0), init), Unlimited(init), ops[|ops| - 1]);
    }
  }

  ghost predicate NewestOf(held: seq<Line>, all: seq<Line>) {
    |held| <= |all| && held == all[|all| - |held|..]
  }

  lemma StepHoldsNewest(s: Store, all: seq<Line>, op: Op)
    requires NewestOf(s.lines, all)
    ensures op.Push? ==> NewestOf(Step(s, op).lines, all + [op.line])
    ensures op.Pop? && s.lines != [] ==> NewestOf(Step(s, op).lines, all[..|all| - 1])
  {
    hide HasRoom, TotalSize;
    match op
    case Push(line) =>
      var kept := Evict(s.lines, line.Size());
      DropTwice(all, |all| - |s.lines|, |all| - |kept|);
      DropSnoc(all, |all| - |kept|, line);
    case Pop =>
      if s.lines != [] { DropFront(all, |all| - |s.lines|); }
    case Clear =>
  }

  // ---- Lines pushed one after the other ----

  function Pushes(lines: seq<Line>): (ops: seq<Op>)
    ensures |ops| == |lines|
  {
    seq(|lines|, i requires 0 <= i < |lines| => Push(lines[i]))
  }

  lemma {:induction false} RunAppend(s: Store, a: seq<Op>, b: seq<Op>)
    ensures Run(s, a + b) == Run(Run(s, a), b)
    decreases |b|
  {
    hide Step;
    if b == [] {
      assert a + b == a;
    } else {
      assert (a + b)[..|a + b| - 1] == a + b[..|b| - 1];
      RunAppend(s, a, b[..|b| - 1]);
    }
  }

  lemma RunOne(s: Store, op: Op)
    ensures Run(s, [op]) == Step(s, op)
  {
    assert [op][..0] == [];
    hide Step;
  }

  lemma PushesAppend(a: seq<Line>, b: seq<Line>)
    ensures Pushes(a + b) == Pushes(a) + Pushes(b)
  {
  }

  predicate WithinLimits(q: seq<Line>) { |q| <= LINES && TotalSize(q) <= BYTES }

  /** The newest `k` of all lines exceed a limit. */
  predicate TooMany(all: seq<Line>, k: nat)
    requires k <= |all|
  {
    !WithinLimits(all[|all| - k..])
  }

  /** The newest of all lines, and no more could be held: any longer run of them exceeds a limit. */
  ghost predicate Longest(held: seq<Line>, all: seq<Line>) {
    NewestOf(held, all) && forall k: nat :: |held| < k <= |all| ==> TooMany(all, k)
  }

  lemma StillTooMany(all: seq<Line>, line: Line, k: nat)
    requires k <= |all| && TooMany(all, k)
    ensures TooMany(all + [line], k + 1)
  {
    TotalSizeSnoc(all[|all| - k..], line);
    DropSnoc(all, |all| - k, line);
    hide TotalSize;
  }

  lemma NoRoomTooMany(all: seq<Line>, line: Line, k: nat)
    requires k <= |all| && !HasRoom(all[|all| - k..], line.Size())
    ensures TooMany(all + [line], k + 1)
  {
    TotalSizeSnoc(all[|all| - k..], line);
    DropSnoc(all, |all| - k, line);
    hide TotalSize;
  }

  lemma EvictedTooMany(held: seq<Line>, all: seq<Line>, line: Line, k: nat)
    requires NewestOf(held, all) && |Evict(held, line.Size())| < k <= |held|
    ensures k <= |all| && TooMany(all + [line], k + 1)
  {
    EvictIsLazy(held, line.Size(), k);
    hide TotalSize, HasRoom, Evict, TooMany;
    DropTwice(all, |all| - |held|, |all| - k);
    NoRoomTooMany(all, line, k);
  }

  lemma PushKeepsLongest(s: Store, all: seq<Line>, line: Line)
    requires Longest(s.lines, all)
    ensures Longest(Step(s, Push(line)).lines, all + [line])
  {
    var kept, now := |Evict(s.lines, line.Size())|, Step(s, Push(line)).lines;
    StepHoldsNewest(s, all, Push(line));
    assert |now| == kept + 1;
    hide TotalSize, HasRoom, Evict, TooMany, Step, NewestOf;
    forall k: nat | |now| < k <= |all| + 1 ensures TooMany(all + [line], k) {
      if k - 1 <= |s.lines| {
        EvictedTooMany(s.lines, all, line, k - 1);
      } else {
        StillTooMany(all, line, k - 1);
      }
    }
  }

  /** Whatever is pushed, the ring then holds as many of the newest lines as its limits allow. */
  lemma {:induction false} RunLongest(s: Store, all: seq<Line>, lines: seq<Line>)
    requires Longest(s.lines, all)
    ensures Longest(Run(s, Pushes(lines)).lines, all + lines)
    decreases |lines|
  {
    hide Longest, Step;
    if lines == [] {
      assert all + lines == all;
    } else {
      var init, last := lines[..|lines| - 1], lines[|lines| - 1];
      assert lines == init + [last] && Pushes(lines)[..|lines| - 1] == Pushes(init);
      RunLongest(s, all, init);
      PushKeepsLongest(Run(s, Pushes(init)), all + init, last);
      AppendAssoc(all, init, [last]);
    }
  }

  lemma WholeIsLongest(all: seq<Line>)
    ensures Longest(all, all)
  {
  }
}
