/** The parser as it is written: it works on chunks of bytes, keeps an index into the chunk at
    hand for the string it is inside, and hands that string on in fragments. */
module Parser {
  import opened Seqs
  import opened Bytes
  import opened ParserSpec

  datatype State =
    | InNormal | InCsiLeader | InCsiArgs | InCsiIntermed | InDcsCommand
    | InOscCommand | InOsc | InDcs | InApc | InPm | InSos

  predicate IsStringState(s: State) {
    s.InOscCommand? || InContent(s)
  }

  predicate InContent(s: State) {
    s.InOsc? || s.InDcs? || s.InApc? || s.InPm? || s.InSos?
  }

  /** The callbacks that the parser makes. */
  datatype Call =
    | OnControl(c: byte)
    | OnText(bytes: seq<byte>)
    | OnEscape(intermed: seq<byte>, final: byte)
    | OnCsi(leader: seq<byte>, args: seq<nat>, intermed: seq<byte>, final: byte)
    | OnString(kind: Kind, str: seq<byte>, initial: bool, closing: bool)

  /** What a receiver has made of the calls so far: `pending` is the string it is collecting. */
  datatype Reception = Reception(out: seq<Event>, pending: seq<byte>)

  function Texts(bytes: seq<byte>): seq<Event> {
    seq(|bytes|, i requires 0 <= i < |bytes| => Text(bytes[i]))
  }

  function Receive(r: Reception, call: Call): Reception {
    match call
    case OnControl(c) => r.(out := r.out + [Control(c)])
    case OnText(bytes) => r.(out := r.out + Texts(bytes))
    case OnEscape(intermed, final) => r.(out := r.out + [Escape(intermed, final)])
    case OnCsi(leader, args, intermed, final) => r.(out := r.out + [Csi(leader, args, intermed, final)])
    case OnString(kind, str, initial, closing) =>
      var content := (if initial then [] else r.pending) + str;
      Reception(if closing then r.out + [Str(kind, content)] else r.out, content)
  }

  function Received(calls: seq<Call>): Reception {
    if calls == [] then Reception([], [])
    else Receive(Received(calls[..|calls| - 1]), calls[|calls| - 1])
  }

  lemma ReceivedSnoc(calls: seq<Call>, call: Call)
    ensures Received(calls + [call]) == Receive(Received(calls), call)
  {
    assert (calls + [call])[..|calls|] == calls;
  }

  /** The values of the parser's fields. */
  datatype Regs = Regs(state: State, inEsc: bool, intermed: seq<byte>, leader: seq<byte>, args: seq<nat>, current: nat,
                       number: int, command: seq<byte>, initial: bool, calls: seq<Call>)
  {
    /** A string is announced as initial until its first fragment; ESC has cancelled a CSI. */
    predicate Ready() {
      && (state.InOscCommand? || state.InDcsCommand? ==> initial)
      && (inEsc ==> state.InNormal? || IsStringState(state))
    }

    function Kind(): Kind
      requires InContent(state)
    {
      match state
      case InOsc => Osc(number)
      case InDcs => Dcs(command)
      case InApc => Apc
      case InPm => Pm
      case InSos => Sos
    }

    function Pending(): seq<byte> {
      if initial then [] else Received(calls).pending
    }

    /** The byte machine's mode, where `tail` is the part of a string not yet handed on. */
    function Mode(tail: seq<byte>): Mode {
      match state
      case InNormal => Normal
      case InCsiLeader => CsiLeader(leader)
      case InCsiArgs => CsiArgs(leader, args, current)
      case InCsiIntermed => CsiIntermed(leader, args)
      case InDcsCommand => DcsCommand(command)
      case InOscCommand => OscNumber(number)
      case _ => Content(Kind(), Pending() + tail)
    }

    function Machine(tail: seq<byte>): Machine {
      ParserSpec.Machine(Mode(tail), inEsc, intermed, Received(calls).out)
    }

    function Call(c: Call): Regs { this.(calls := calls + [c]) }
  }

  lemma Calls(r: Regs, c: Call)
    ensures Received(r.Call(c).calls) == Receive(Received(r.calls), c)
  {
    ReceivedSnoc(r.calls, c);
  }

  lemma NothingAdded(s: seq<byte>)
    ensures s + [] == s
  {
  }

  /** The registers once the string bytes `tail` are handed on. */
  function HandedOn(r: Regs, tail: seq<byte>): Regs
    requires InContent(r.state)
  {
    r.Call(OnString(r.Kind(), tail, r.initial, false)).(initial := false)
  }

  lemma HandOnPending(r: Regs, tail: seq<byte>)
    requires InContent(r.state)
    ensures Received(HandedOn(r, tail).calls) == Reception(Received(r.calls).out, r.Pending() + tail)
  {
    Calls(r, OnString(r.Kind(), tail, r.initial, false));
  }

  /** Handing on what is held of a string loses nothing of it. */
  lemma HandOn(r: Regs, tail: seq<byte>)
    requires InContent(r.state)
    ensures HandedOn(r, tail).Machine([]) == r.Machine(tail)
  {
    HandOnPending(r, tail);
    NothingAdded(r.Pending() + tail);
    hide Received, Receive, Texts;
  }

  const NULL := -1

  /** The string index is set exactly inside a string. */
  predicate StartOk(r: Regs, start: int, pos: nat) {
    && r.Ready()
    && (if InContent(r.state) then 0 <= start <= pos else start == NULL)
    && (InContent(r.state) && r.inEsc && start == pos ==> pos == 0)
  }

  /** The bytes of a string since `start`, without an ESC that may be about to end it. */
  function Tail(bytes: seq<byte>, start: int, pos: nat, inEsc: bool): seq<byte>
    requires start <= pos <= |bytes|
  {
    if start < 0 then []
    else if inEsc && start < pos then bytes[start..pos - 1]
    else bytes[start..pos]
  }

  predicate IsText(c: byte, config: Config) {
    c >= 0x20 && c != DEL && (config.utf8 || !(0x80 <= c < 0xa0))
  }

  lemma {:induction false} RunText(m: Machine, s: seq<byte>, config: Config)
    requires m.mode.Normal? && !m.inEsc && forall k :: 0 <= k < |s| ==> IsText(s[k], config)
    ensures Run(m, s, config) == m.(out := m.out + Texts(s))
  {
    if s == [] {
      assert m.out + Texts(s) == m.out;
    } else {
      var rest := s[..|s| - 1];
      RunText(m, rest, config);
      assert IsText(s[|s| - 1], config);
      assert m.out + Texts(s) == m.out + Texts(rest) + [Text(s[|s| - 1])];
    }
  }

  lemma RunSlice(m: Machine, bytes: seq<byte>, from: nat, to: nat, config: Config)
    requires from < to <= |bytes|
    ensures Run(m, bytes[..to], config) ==
            Run(Step(Run(m, bytes[..from], config), bytes[from], config), bytes[from + 1..to], config)
  {
    assert bytes[..to] == bytes[..from + 1] + bytes[from + 1..to];
    RunAppend(m, bytes[..from + 1], bytes[from + 1..to], config);
    assert bytes[..from + 1][..from] == bytes[..from];
  }

  lemma AddToTail(pending: seq<byte>, bytes: seq<byte>, start: nat, pos: nat)
    requires start <= pos < |bytes|
    ensures pending + bytes[start..pos] + [bytes[pos]] == pending + bytes[start..pos + 1]
  {
  }

  lemma ContentMode(r: Regs)
    ensures InContent(r.state) <==> r.Machine([]).mode.Content?
  {
  }

  lemma NoTail(r: Regs, bytes: seq<byte>, k: nat)
    requires k <= |bytes| && r.initial
    ensures r.Pending() + Tail(bytes, k, k, false) == []
  {
  }

  /** The length that the last fragment of a chunk is given, without an ESC that may be about to
      end the string. */
  function EndLength(start: int, end: nat, inEsc: bool): int { end - start - if inEsc then 1 else 0 }

  /** It is negative if and only if the chunk is empty and comes straight after an ESC. */
  lemma EndLengthSign(r: Regs, start: int, end: nat)
    requires StartOk(r, start, end) && InContent(r.state)
    ensures EndLength(start, end, r.inEsc) < 0 <==> end == 0 && r.inEsc
    ensures end == 0 && r.inEsc ==> EndLength(start, end, r.inEsc) == -1
  {
  }

  /** A string begun, and an ESC in it. */
  const ESC_IN_STRING: seq<byte> := [ESC, 0x58, ESC]

  /** A chunk that ends there, and an empty one. */
  const CUT_AFTER_ESC: seq<seq<byte>> := [ESC_IN_STRING, []]

  lemma EmptyChunk(config: Config)
    ensures Accepts(Machine(Normal, false, [], []), Concat(CUT_AFTER_ESC), config)
    ensures !ChunksOk(Machine(Normal, false, [], []), CUT_AFTER_ESC, config)
  {
    var m, s, chunks := Machine(Normal, false, [], []), ESC_IN_STRING, CUT_AFTER_ESC;
    assert Concat(chunks[..0]) == [] && Concat(chunks[..1]) == s;
    assert Concat(chunks) == s;
    assert s[..3] == s && s[..3][..2] == s[..2] && s[..2][..1] == s[..1] && s[..1][..0] == [];
    assert Run(m, s[..1], config) == Step(m, ESC, config);
    assert Run(m, s[..2], config) == Step(Step(m, ESC, config), 0x58, config);
    var two := Run(m, s[..2], config);
    assert two.mode.Content? && !two.inEsc;
    var now := Run(m, s, config);
    assert now == Step(two, ESC, config) && now.mode.Content? && now.inEsc;
    forall k | 0 <= k < 3 ensures Legal(Run(m, s[..k], config), s[k]) {
      assert k == 0 || k == 1 || k == 2;
    }
  }

  /** No chunk is empty straight after an ESC inside a string. */
  ghost predicate ChunksOk(m: Machine, chunks: seq<seq<byte>>, config: Config) {
    forall i :: 0 <= i < |chunks| && chunks[i] == [] ==>
      var now := Run(m, Concat(chunks[..i]), config);
      !(now.mode.Content? && now.inEsc)
  }

  class Parser {
    const utf8: bool
    const emitNul: bool
    var state: State
    var inEsc: bool
    var intermedlen: nat
    const intermed: array<byte>
    var leaderlen: nat
    const leader: array<byte>
    var argi: nat
    const args: array<nat>
    var number: int
    var commandlen: nat
    const command: array<byte>
    var stringInitial: bool
    /** The callbacks made so far. */
    var calls: seq<Call>

    constructor (utf8: bool, emitNul: bool)
      ensures Valid() && fresh(intermed) && fresh(leader) && fresh(args) && fresh(command)
      ensures View().Ready() && Abs() == Machine(Normal, false, [], []) && Config() == ParserSpec.Config(utf8, emitNul)
    {
      this.utf8, this.emitNul := utf8, emitNul;
      intermed, leader := new byte[16], new byte[16];
      args, command := new nat[MAX_ARGS], new byte[MAX_COMMAND];
      state, inEsc, intermedlen, leaderlen, argi, number, commandlen := InNormal, false, 0, 0, 0, -1, 0;
      stringInitial, calls := true, [];
    }

    ghost predicate Valid()
      reads this
    {
      && intermed.Length == 16 && leader.Length == 16 && args.Length == MAX_ARGS && command.Length == MAX_COMMAND
      && intermed != leader && intermed != command && leader != command
      && intermedlen <= MAX_INTERMED && leaderlen <= MAX_LEADER && commandlen <= MAX_COMMAND
      && argi <= MAX_ARGS && (state.InCsiArgs? ==> argi < MAX_ARGS)
    }

    ghost function View(): Regs
      requires Valid()
      reads this, intermed, leader, args, command
    {
      Regs(state, inEsc, intermed[..intermedlen], leader[..leaderlen], args[..argi],
           if state.InCsiArgs? then args[argi] else 0, number, command[..commandlen], stringInitial, calls)
    }

    ghost function Config(): Config { ParserSpec.Config(utf8, emitNul) }

    /** Between two chunks, every byte of a string has been handed on. */
    ghost function Abs(): Machine
      requires Valid()
      reads this, intermed, leader, args, command
    {
      View().Machine([])
    }

    method Callback(call: Call)
      requires Valid()
      modifies `calls
      ensures Valid() && View() == old(View()).Call(call)
    {
      calls := calls + [call];
    }

    method StringKind() returns (kind: Kind)
      requires Valid() && InContent(state)
      ensures kind == View().Kind()
    {
      match state
      case InOsc => kind := Osc(number);
      case InDcs => kind := Dcs(command[..commandlen]);
      case InApc => kind := Apc;
      case InPm => kind := Pm;
      case InSos => kind := Sos;
    }

    method StringFragment(str: seq<byte>, closing: bool)
      requires Valid()
      modifies `calls, `stringInitial
      ensures Valid()
      ensures old(InContent(state)) ==>
        View() == old(View()).Call(OnString(old(View()).Kind(), str, old(stringInitial), closing)).(initial := false)
      ensures !old(InContent(state)) ==> View() == old(View()).(initial := false)
    {
      hide Regs.Kind;
      if InContent(state) {
        var kind := StringKind();
        Callback(OnString(kind, str, stringInitial, closing));
      }
      stringInitial := false;
    }

    method AddIntermed(c: byte)
      requires Valid()
      modifies `intermedlen, intermed
      ensures Valid() && View() == old(View()).(intermed := Capped(old(View()).intermed, c, MAX_INTERMED))
    {
      if intermedlen < MAX_INTERMED {
        intermed[intermedlen] := c;
        intermedlen := intermedlen + 1;
      }
    }

    // ---- CSI ----

    method CsiIntermedByte(c: byte)
      requires Valid() && state.InCsiIntermed?
      modifies this, intermed
      ensures Valid() && (state.InCsiIntermed? || state.InNormal?)
      ensures inEsc == old(inEsc) && Abs() == CsiEnd(old(Abs()), old(View()).leader, old(View()).args, c)
    {
      if IsIntermed(c) {
        AddIntermed(c);
        return;
      }
      if IsFinal(c) {
        Calls(View(), OnCsi(leader[..leaderlen], args[..argi], intermed[..intermedlen], c));
        Callback(OnCsi(leader[..leaderlen], args[..argi], intermed[..intermedlen], c));
      }
      state := InNormal;
    }

    method AddDigit(c: byte)
      requires Valid() && state.InCsiArgs? && IsDigit(c)
      modifies args
      ensures Valid() && View() == old(View()).(current := Digit(old(View()).current, c))
    {
      if args[argi] == MISSING {
        args[argi] := 0;
      } else {
        args[argi] := args[argi] * 10;
      }
      args[argi] := args[argi] + (c - 0x30);
    }

    method NextArg(c: byte)
      requires Valid() && state.InCsiArgs? && argi < MAX_ARGS - 1
      modifies `argi, args
      ensures Valid() && argi == old(argi) + 1
      ensures var current := if c == ':' as int then WithMore(old(View()).current) else old(View()).current;
        View() == old(View()).(args := old(View()).args + [current], current := MISSING)
    {
      if c == ':' as int {
        args[argi] := WithMore(args[argi]);
      }
      argi := argi + 1;
      args[argi] := MISSING;
      assert args[..argi] == old(args[..argi]) + [args[argi - 1]];
    }

    method CsiArgsByte(c: byte)
      requires Valid() && state.InCsiArgs?
      requires c == ':' as int || c == ';' as int ==> argi < MAX_ARGS - 1
      modifies this, intermed, args
      ensures Valid() && (state.InCsiArgs? || state.InCsiIntermed? || state.InNormal?)
      ensures inEsc == old(inEsc) && Abs() == CsiByte(old(Abs()), old(View()).leader, old(View()).args, old(View()).current, c)
    {
      hide Received, Digit, WithMore, Capped;
      if IsDigit(c) {
        AddDigit(c);
      } else if c == ':' as int || c == ';' as int {
        NextArg(c);
      } else {
        argi := argi + 1;
        intermedlen := 0;
        state := InCsiIntermed;
        assert View().args == old(View()).args + [old(View()).current] && View().intermed == [];
        CsiIntermedByte(c);
      }
    }

    method AddLeader(c: byte)
      requires Valid()
      modifies `leaderlen, leader
      ensures Valid() && View() == old(View()).(leader := Capped(old(View()).leader, c, MAX_LEADER))
    {
      if leaderlen < MAX_LEADER {
        leader[leaderlen] := c;
        leaderlen := leaderlen + 1;
        assert leader[..leaderlen] == old(leader[..leaderlen]) + [c];
      }
    }

    method StartArgs()
      requires Valid()
      modifies `argi, `state, leader, args
      ensures Valid() && argi == 0 && state == InCsiArgs
      ensures View() == old(View()).(state := InCsiArgs, args := [], current := MISSING)
    {
      leader[leaderlen] := 0;
      argi := 0;
      args[0] := MISSING;
      state := InCsiArgs;
    }

    method CsiLeaderByte(c: byte)
      requires Valid() && state.InCsiLeader?
      modifies this, intermed, leader, args
      ensures Valid() && (state.InCsiLeader? || state.InCsiArgs? || state.InCsiIntermed? || state.InNormal?)
      ensures inEsc == old(inEsc) && Abs() == Plain(old(Abs()), c, false) == Plain(old(Abs()), c, true)
    {
      hide Received, Capped, Digit, WithMore;
      if 0x3c <= c <= 0x3f {
        AddLeader(c);
      } else {
        StartArgs();
        CsiArgsByte(c);
      }
    }

    // ---- Strings ----

    /** The state as the byte machine sees it when byte `pos` of a chunk comes up. */
    ghost function At(bytes: seq<byte>, start: int, pos: nat): Machine
      requires Valid() && start <= pos <= |bytes|
      reads this, intermed, leader, args, command
    {
      View().Machine(Tail(bytes, start, pos, inEsc))
    }

    /** The string bytes not yet handed on when `len` bytes since `start` are to be counted. */
    ghost function Held(bytes: seq<byte>, start: int, len: nat): Machine
      requires Valid() && start + len <= |bytes|
      reads this, intermed, leader, args, command
    {
      View().Machine(if start < 0 then [] else bytes[start..start + len])
    }

    /** The end of a string, of which `len` bytes since `start` are not yet handed on. */
    method EndString(bytes: seq<byte>, start: nat, len: nat)
      requires Valid() && InContent(state) && !inEsc && start + len <= |bytes|
      modifies `calls, `stringInitial, `state
      ensures Valid() && StartOk(View(), NULL, |bytes|) && !inEsc && !InContent(state)
      ensures View().Machine([]) == old(Held(bytes, start, len)).Say(
        Str(old(View()).Kind(), old(View()).Pending() + bytes[start..start + len])).To(Normal)
    {
      ghost var r := View();
      var str := bytes[start..start + len];
      Calls(r, OnString(r.Kind(), str, r.initial, true));
      hide Received;
      StringFragment(str, true);
      state := InNormal;
    }

    /** A byte inside a string, of which `len` bytes since `start` are not yet handed on. */
    method StringStateByte(bytes: seq<byte>, pos: nat, start0: int, len: nat, c: byte, c1: bool) returns (start: int)
      requires Valid() && InContent(state) && !inEsc && 0 <= start0 <= start0 + len <= pos < |bytes|
      requires c == BEL || (c1 && c == 0x9c) || (c == bytes[pos] && start0 + len == pos)
      modifies `calls, `stringInitial, `state
      ensures Valid() && StartOk(View(), start, pos + 1) && !inEsc
      ensures At(bytes, start, pos + 1) ==
        StringByte(old(Held(bytes, start0, len)), old(View()).Kind(),
                   old(View()).Pending() + bytes[start0..start0 + len], c, c1)
    {
      start := start0;
      hide Received;
      if c == BEL || (c1 && c == 0x9c) {
        EndString(bytes, start0, len);
        start := NULL;
      } else {
        AddToTail(View().Pending(), bytes, start, pos);
      }
    }

    method OscCommandByte(bytes: seq<byte>, pos: nat, c: byte, c1: bool) returns (start: int)
      requires Valid() && state.InOscCommand? && !inEsc && stringInitial && pos < |bytes|
      requires c == bytes[pos] || (c1 && c == 0x9c)
      modifies `calls, `stringInitial, `state, `number
      ensures Valid() && StartOk(View(), start, pos + 1) && !inEsc
      ensures At(bytes, start, pos + 1) == OscByte(old(Abs()), old(number), c, c1)
    {
      hide Received;
      if IsDigit(c) {
        number := (if number == -1 then 0 else number * 10) + (c - 0x30);
        start := NULL;
      } else if c == ';' as int {
        state, start := InOsc, pos + 1;
        NoTail(View(), bytes, pos + 1);
      } else {
        state := InOsc;
        assert View().Pending() + bytes[pos..pos] == [];
        start := StringStateByte(bytes, pos, pos, 0, c, c1);
      }
    }

    method DcsCommandByte(bytes: seq<byte>, pos: nat, c: byte) returns (start: int)
      requires Valid() && state.InDcsCommand? && !inEsc && stringInitial && pos < |bytes|
      modifies `state, `commandlen, command
      ensures Valid() && StartOk(View(), start, pos + 1) && !inEsc
      ensures At(bytes, start, pos + 1) == DcsByte(old(Abs()), old(View()).command, c)
    {
      hide Received;
      if commandlen < MAX_COMMAND {
        command[commandlen] := c;
        commandlen := commandlen + 1;
        assert command[..commandlen] == old(command[..commandlen]) + [c];
      }
      start := NULL;
      if IsFinal(c) {
        state, start := InDcs, pos + 1;
        NoTail(View(), bytes, pos + 1);
      }
    }

    method CommandByte(bytes: seq<byte>, pos: nat, c: byte, c1: bool) returns (start: int)
      requires Valid() && (state.InOscCommand? || state.InDcsCommand?) && !inEsc && stringInitial && pos < |bytes|
      requires state.InOscCommand? ==> c == bytes[pos] || (c1 && c == 0x9c)
      modifies this, command
      ensures Valid() && StartOk(View(), start, pos + 1) && !inEsc
      ensures At(bytes, start, pos + 1) == Plain(old(Abs()), c, c1)
    {
      hide Received, OscByte, DcsByte, Regs.Pending, Regs.Kind;
      if state.InOscCommand? {
        start := OscCommandByte(bytes, pos, c, c1);
      } else {
        start := DcsCommandByte(bytes, pos, c);
      }
    }

    // ---- Everything else ----

    method EnterString(bytes: seq<byte>, pos: nat, s: State) returns (start: int)
      requires Valid() && IsStringState(s) && pos < |bytes|
      modifies `stringInitial, `state
      ensures Valid() && View() == old(View()).(initial := true, state := s, current := 0)
      ensures start == (if s.InOscCommand? then NULL else pos + 1)
      ensures View().Pending() + Tail(bytes, start, pos + 1, false) == []
    {
      stringInitial, state := true, s;
      start := if s.InOscCommand? then NULL else pos + 1;
      NoTail(View(), bytes, pos + 1);
    }

    method StringC1Byte(bytes: seq<byte>, pos: nat, c: byte) returns (start: int)
      requires Valid() && state.InNormal? && !inEsc && pos < |bytes| && c in {0x98, 0x9d, 0x9e, 0x9f}
      modifies this
      ensures Valid() && StartOk(View(), start, pos + 1) && !inEsc
      ensures At(bytes, start, pos + 1) == C1(old(Abs()), c)
    {
      hide Received, Regs.Pending;
      if c == 0x9d {
        number := -1;
      }
      start := EnterString(bytes, pos,
        match c case 0x98 => InSos case 0x9d => InOscCommand case 0x9e => InPm case _ => InApc);
    }

    method SequenceC1Byte(c: byte)
      requires Valid() && state.InNormal? && !inEsc && c in {0x90, 0x9b}
      modifies this
      ensures Valid() && StartOk(View(), NULL, 0) && !inEsc
      ensures Abs() == C1(old(Abs()), c)
    {
      hide Received;
      if c == 0x90 {
        stringInitial := true;
        commandlen := 0;
        state := InDcsCommand;
      } else {
        leaderlen := 0;
        state := InCsiLeader;
      }
    }

    method C1Byte(bytes: seq<byte>, pos: nat, c: byte) returns (start: int)
      requires Valid() && state.InNormal? && !inEsc && pos < |bytes|
      modifies this
      ensures Valid() && StartOk(View(), start, pos + 1) && !inEsc
      ensures At(bytes, start, pos + 1) == C1(old(Abs()), c)
    {
      Calls(View(), OnControl(c));
      hide Received, Regs.Pending, Regs.Kind;
      start := NULL;
      if c in {0x90, 0x9b} {
        SequenceC1Byte(c);
      } else if c in {0x98, 0x9d, 0x9e, 0x9f} {
        start := StringC1Byte(bytes, pos, c);
      } else {
        Callback(OnControl(c));
      }
    }

    method EscapeByte(c: byte)
      requires Valid() && state.InNormal? && inEsc
      modifies this, intermed
      ensures Valid() && state.InNormal?
      ensures Abs() == if IsIntermed(c) then old(Abs()).(intermed := Capped(old(Abs()).intermed, c, MAX_INTERMED))
                       else if 0x30 <= c < DEL then old(Abs()).Say(Escape(old(Abs()).intermed, c)).(inEsc := false)
                       else old(Abs())
    {
      if IsIntermed(c) {
        AddIntermed(c);
      } else if 0x30 <= c < DEL {
        Calls(View(), OnEscape(intermed[..intermedlen], c));
        Callback(OnEscape(intermed[..intermedlen], c));
        inEsc := false;
      }
    }

    /** Hands text on. The receiver takes as many bytes as it likes, but only text; a byte that
        it refuses counts as taken. */
    method TextCallback(bytes: seq<byte>, pos: nat) returns (eaten: nat)
      requires Valid() && pos < |bytes| && IsText(bytes[pos], Config())
      modifies `calls
      ensures Valid() && 1 <= eaten <= |bytes| - pos
      ensures forall k :: pos <= k < pos + eaten ==> IsText(bytes[k], Config())
      ensures View() == old(View()).Call(OnText(bytes[pos..pos + eaten]))
    {
      eaten :| 0 <= eaten <= |bytes| - pos && forall k :: pos <= k < pos + eaten ==>
        IsText(bytes[k], ParserSpec.Config(utf8, emitNul));
      if eaten == 0 {
        eaten := 1;
      }
      Callback(OnText(bytes[pos..pos + eaten]));
    }

    method TextBytes(bytes: seq<byte>, pos: nat) returns (next: nat)
      requires Valid() && state.InNormal? && !inEsc && pos < |bytes| && IsText(bytes[pos], Config())
      modifies `calls
      ensures Valid() && pos < next <= |bytes| && state.InNormal? && !inEsc
      ensures Abs() == Run(old(Abs()).Say(Text(bytes[pos])), bytes[pos + 1..next], Config())
    {
      ghost var r := View();
      var eaten := TextCallback(bytes, pos);
      next := pos + eaten;
      var rest := bytes[pos + 1..next];
      Calls(r, OnText(bytes[pos..next]));
      RunText(r.Machine([]).Say(Text(bytes[pos])), rest, Config());
      assert Texts(bytes[pos..next]) == [Text(bytes[pos])] + Texts(rest);
      assert Received(r.calls).out + Texts(bytes[pos..next]) == Received(r.calls).out + [Text(bytes[pos])] + Texts(rest);
    }

    // ---- One byte ----

    method CsiStateByte(c: byte, ghost c1: bool)
      requires Valid() && (state.InCsiLeader? || state.InCsiArgs? || state.InCsiIntermed?) && !inEsc
      requires state.InCsiArgs? && (c == ':' as int || c == ';' as int) ==> argi < MAX_ARGS - 1
      modifies this, intermed, leader, args
      ensures Valid() && StartOk(View(), NULL, 0) && !inEsc
      ensures Abs() == Plain(old(Abs()), c, c1)
    {
      hide CsiByte, CsiEnd, Received;
      if state.InCsiLeader? {
        CsiLeaderByte(c);
      } else if state.InCsiArgs? {
        CsiArgsByte(c);
      } else {
        CsiIntermedByte(c);
      }
    }

    method NormalByte(bytes: seq<byte>, pos: nat, c: byte, c1: bool) returns (next: nat, start: int)
      requires Valid() && state.InNormal? && !inEsc && pos < |bytes|
      requires (c1 && 0x80 <= c < 0xa0) || (c == bytes[pos] && IsText(c, Config()))
      modifies this
      ensures Valid() && pos < next <= |bytes| && StartOk(View(), start, next) && !inEsc
      ensures At(bytes, start, next) == Run(Plain(old(Abs()), c, c1), bytes[pos + 1..next], Config())
    {
      hide C1, Received, IsText;
      next := pos + 1;
      if c1 && 0x80 <= c < 0xa0 {
        start := C1Byte(bytes, pos, c);
      } else {
        start := NULL;
        next := TextBytes(bytes, pos);
      }
    }

    /** The bytes that each state may be given next. */
    ghost predicate Fits(bytes: seq<byte>, pos: nat, start: int, len: nat, c: byte, c1: bool)
      requires Valid()
      reads this, intermed, leader, args, command
    {
      && pos < |bytes| && start + len <= pos && StartOk(View(), start, pos)
      && (state.InCsiArgs? && (c == ':' as int || c == ';' as int) ==> argi < MAX_ARGS - 1)
      && (state.InNormal? ==> (c1 && 0x80 <= c < 0xa0) || (c == bytes[pos] && IsText(c, Config())))
      && (state.InOscCommand? ==> c == bytes[pos] || (c1 && c == 0x9c))
      && (InContent(state) ==> c == BEL || (c1 && c == 0x9c) || (c == bytes[pos] && start + len == pos))
    }

    method StateByte(bytes: seq<byte>, pos: nat, start0: int, len: nat, c: byte, c1: bool)
      returns (next: nat, start: int)
      requires Valid() && !inEsc && Fits(bytes, pos, start0, len, c, c1)
      modifies this, intermed, leader, args, command
      ensures Valid() && pos < next <= |bytes| && StartOk(View(), start, next) && !inEsc
      ensures At(bytes, start, next) ==
        Run(Plain(old(Held(bytes, start0, len)), c, c1), bytes[pos + 1..next], Config())
    {
      hide CsiByte, CsiEnd, Received, C1, IsText, OscByte, DcsByte, StringByte, Regs.Pending, Regs.Kind;
      next, start := pos + 1, NULL;
      if state.InNormal? {
        next, start := NormalByte(bytes, pos, c, c1);
      } else if InContent(state) {
        start := StringStateByte(bytes, pos, start0, len, c, c1);
      } else if state.InOscCommand? || state.InDcsCommand? {
        start := CommandByte(bytes, pos, c, c1);
      } else {
        CsiStateByte(c, c1);
      }
    }

    /** ESC and a letter stand for a C1 control. The ESC is not part of a string it ends. */
    method HoistedByte(bytes: seq<byte>, pos: nat, start0: int) returns (next: nat, start: int)
      requires Valid() && pos < |bytes| && StartOk(View(), start0, pos) && inEsc
      requires 0x40 <= bytes[pos] < 0x60 && (IsStringState(state) ==> bytes[pos] == 0x5c)
      modifies this, intermed, leader, args, command
      ensures Valid() && pos < next <= |bytes| && StartOk(View(), start, next)
      ensures At(bytes, start, next) ==
        Run(Plain(old(At(bytes, start0, pos)).(inEsc := false), bytes[pos] + 0x40, true), bytes[pos + 1..next], Config())
    {
      hide Plain, Received;
      var len := if start0 == NULL then 0 else pos - start0;
      if len > 0 {
        len := len - 1;
      }
      inEsc := false;
      next, start := StateByte(bytes, pos, start0, len, bytes[pos] + 0x40, true);
    }

    method EscByte(bytes: seq<byte>, pos: nat, start0: int) returns (next: nat, start: int)
      requires Valid() && pos < |bytes| && StartOk(View(), start0, pos) && inEsc
      requires bytes[pos] != DEL && (bytes[pos] < 0x20 ==> bytes[pos] == BEL && IsStringState(state))
      modifies this, intermed, leader, args, command
      ensures Valid() && pos < next <= |bytes| && StartOk(View(), start, next)
      ensures At(bytes, start, next) ==
        Run(Escaped(old(At(bytes, start0, pos)), bytes[pos]), bytes[pos + 1..next], Config())
    {
      hide Plain, Received, Capped, Regs.Kind, Regs.Pending;
      if intermedlen == 0 && 0x40 <= bytes[pos] < 0x60 && (IsStringState(state) ==> bytes[pos] == 0x5c) {
        next, start := HoistedByte(bytes, pos, start0);
      } else {
        next, start := pos + 1, NULL;
        state := InNormal;
        EscapeByte(bytes[pos]);
      }
    }

    // ---- Controls ----

    /** Hands on the string up to a control byte, which is not part of it. */
    method CutString(bytes: seq<byte>, pos: nat, start0: int) returns (start: int)
      requires Valid() && pos < |bytes| && StartOk(View(), start0, pos) && !state.InOscCommand?
      requires InContent(state) ==> !inEsc
      modifies `calls, `stringInitial
      ensures Valid() && StartOk(View(), start, pos + 1) && inEsc == old(inEsc)
      ensures At(bytes, start, pos + 1) == old(At(bytes, start0, pos))
    {
      start := start0;
      if IsStringState(state) {
        HandOn(View(), bytes[start..pos]);
        hide Received;
        StringFragment(bytes[start..pos], false);
        start := pos + 1;
        assert bytes[pos + 1..pos + 1] == [];
      }
    }

    method Tell(bytes: seq<byte>, pos: nat, start: int, c: byte, heard: bool)
      requires Valid() && start <= pos <= |bytes|
      modifies `calls
      ensures Valid() && View() == old(View()).(calls := calls)
      ensures At(bytes, start, pos) == Controlled(old(At(bytes, start, pos)), c, heard)
    {
      Calls(View(), OnControl(c));
      hide Received;
      if heard {
        Callback(OnControl(c));
      }
    }

    method NulByte(bytes: seq<byte>, pos: nat, start0: int) returns (start: int)
      requires Valid() && pos < |bytes| && StartOk(View(), start0, pos) && bytes[pos] in {0, DEL}
      requires Legal(At(bytes, start0, pos), bytes[pos])
      modifies `calls, `stringInitial
      ensures Valid() && StartOk(View(), start, pos + 1)
      ensures At(bytes, start, pos + 1) == Step(old(At(bytes, start0, pos)), bytes[pos], Config())
    {
      hide Received, Regs.Pending, Regs.Kind;
      start := CutString(bytes, pos, start0);
      Tell(bytes, pos + 1, start, bytes[pos], emitNul);
    }

    method CancelByte(bytes: seq<byte>, pos: nat, ghost start0: int) returns (start: int)
      requires Valid() && pos < |bytes| && StartOk(View(), start0, pos) && bytes[pos] in {CAN, SUB}
      modifies `calls, `inEsc, `state
      ensures Valid() && StartOk(View(), start, pos + 1)
      ensures At(bytes, start, pos + 1) == Step(old(At(bytes, start0, pos)), bytes[pos], Config())
    {
      hide Received, Regs.Pending, Regs.Kind;
      inEsc, state, start := false, InNormal, NULL;
      Tell(bytes, pos + 1, start, bytes[pos], emitNul);
    }

    method StartEscape(bytes: seq<byte>, pos: nat, start: int)
      requires Valid() && pos < |bytes| && StartOk(View(), start, pos) && bytes[pos] == ESC
      requires Legal(At(bytes, start, pos), ESC)
      modifies `inEsc, `state, `intermedlen
      ensures Valid() && StartOk(View(), start, pos + 1)
      ensures At(bytes, start, pos + 1) == Step(old(At(bytes, start, pos)), ESC, Config())
    {
      hide Received;
      intermedlen := 0;
      if !IsStringState(state) {
        state := InNormal;
      }
      inEsc := true;
    }

    method C0Byte(bytes: seq<byte>, pos: nat, start0: int) returns (start: int)
      requires Valid() && pos < |bytes| && StartOk(View(), start0, pos) && bytes[pos] !in {0, CAN, SUB, ESC}
      requires bytes[pos] < 0x20 && !(bytes[pos] == BEL && IsStringState(state))
      requires Legal(At(bytes, start0, pos), bytes[pos])
      modifies `calls, `stringInitial
      ensures Valid() && StartOk(View(), start, pos + 1)
      ensures At(bytes, start, pos + 1) == Step(old(At(bytes, start0, pos)), bytes[pos], Config())
    {
      hide Received;
      if state.InSos? {
        start := start0;
        AddToTail(View().Pending(), bytes, start, pos);
      } else {
        start := CutString(bytes, pos, start0);
        Tell(bytes, pos + 1, start, bytes[pos], true);
      }
    }

    /** Takes the byte at `pos`, and the text that the receiver takes along with it. */
    method Byte(bytes: seq<byte>, pos: nat, start0: int) returns (next: nat, start: int)
      requires Valid() && pos < |bytes| && StartOk(View(), start0, pos)
      requires Legal(At(bytes, start0, pos), bytes[pos])
      modifies this, intermed, leader, args, command
      ensures Valid() && pos < next <= |bytes| && StartOk(View(), start, next)
      ensures At(bytes, start, next) ==
        Run(Step(old(At(bytes, start0, pos)), bytes[pos], Config()), bytes[pos + 1..next], Config())
    {
      hide Received, Regs.Pending, Regs.Kind, Plain, Escaped;
      next := pos + 1;
      if bytes[pos] in {0, DEL} {
        start := NulByte(bytes, pos, start0);
      } else if bytes[pos] in {CAN, SUB} {
        start := CancelByte(bytes, pos, start0);
      } else if bytes[pos] == ESC {
        start := start0;
        StartEscape(bytes, pos, start);
      } else if bytes[pos] < 0x20 && !(bytes[pos] == BEL && IsStringState(state)) {
        start := C0Byte(bytes, pos, start0);
      } else if inEsc {
        next, start := EscByte(bytes, pos, start0);
      } else {
        var len := if start0 == NULL then 0 else pos - start0;
        next, start := StateByte(bytes, pos, start0, len, bytes[pos], !utf8);
      }
    }

    /** Hands on what is held of a string when the chunk ends. */
    method EndChunk(bytes: seq<byte>, start: int)
      requires Valid() && StartOk(View(), start, |bytes|)
      requires InContent(state) && inEsc ==> bytes != []
      modifies `calls, `stringInitial
      ensures Valid() && View().Ready() && Abs() == old(At(bytes, start, |bytes|))
    {
      if start != NULL {
        var len := |bytes| - start;
        if inEsc {
          len := len - 1;
        }
        EndLengthSign(View(), start, |bytes|);
        assert len == EndLength(start, |bytes|, inEsc);
        HandOn(View(), bytes[start..start + len]);
        hide Received, Regs.Kind, Regs.Pending;
        StringFragment(bytes[start..start + len], false);
      }
    }

    /** Reads a chunk; `start` is where the part of a string begins that is not yet handed on.
        The length that part is given is negative if and only if the chunk is empty and comes
        straight after an ESC inside a string. */
    method Read(bytes: seq<byte>) returns (start: int)
      requires Valid() && View().Ready() && Accepts(Abs(), bytes, Config())
      modifies this, intermed, leader, args, command
      ensures Valid() && StartOk(View(), start, |bytes|)
      ensures At(bytes, start, |bytes|) == Run(old(Abs()), bytes, Config())
      ensures bytes == [] ==> InContent(state) == old(InContent(state)) && inEsc == old(inEsc)
      ensures start != NULL ==>
        (EndLength(start, |bytes|, inEsc) < 0 <==> bytes == [] && old(InContent(state) && inEsc))
    {
      var pos := 0;
      start := if InContent(state) then 0 else NULL;
      assert At(bytes, start, 0) == Abs();
      hide Step, Regs.Machine, Legal, Tail;
      while pos < |bytes|
        invariant pos <= |bytes| && Valid() && StartOk(View(), start, pos)
        invariant At(bytes, start, pos) == Run(old(Abs()), bytes[..pos], Config())
        invariant pos == 0 ==> InContent(state) == old(InContent(state)) && inEsc == old(inEsc)
      {
        ghost var was := pos;
        pos, start := Byte(bytes, pos, start);
        RunSlice(old(Abs()), bytes, was, pos, Config());
      }
      assert bytes[..pos] == bytes;
      if start != NULL {
        EndLengthSign(View(), start, |bytes|);
      }
    }

    /** Takes a chunk. What has been received by its end is what the byte machine says; the
        string that the chunk ends in, if any, has been handed on. */
    method Write(bytes: seq<byte>)
      requires Valid() && View().Ready() && Accepts(Abs(), bytes, Config())
      requires InContent(state) && inEsc ==> bytes != []
      modifies this, intermed, leader, args, command
      ensures Valid() && View().Ready()
      ensures Abs() == Run(old(Abs()), bytes, Config())
    {
      hide Step, Regs.Machine, Legal, Tail, Accepts, Run;
      var start := Read(bytes);
      EndChunk(bytes, start);
    }

    /** Takes a stream cut into chunks. Where it was cut makes no difference. */
    method WriteAll(chunks: seq<seq<byte>>)
      requires Valid() && View().Ready() && Accepts(Abs(), Concat(chunks), Config())
      requires ChunksOk(Abs(), chunks, Config())
      modifies this, intermed, leader, args, command
      ensures Valid() && View().Ready()
      ensures Abs() == Run(old(Abs()), Concat(chunks), Config())
    {
      assert Run(Abs(), [], Config()) == Abs();
      hide Step, Run, Regs.Mode, Accepts, Legal;
      for i := 0 to |chunks|
        invariant Valid() && View().Ready()
        invariant Abs() == Run(old(Abs()), Concat(chunks[..i]), Config())
      {
        ghost var before := Concat(chunks[..i]);
        ConcatNext(chunks, i);
        AcceptsParts(old(Abs()), before, chunks[i] + Concat(chunks[i + 1..]), Config());
        AcceptsParts(Abs(), chunks[i], Concat(chunks[i + 1..]), Config());
        ContentMode(View());
        Write(chunks[i]);
        RunAppend(old(Abs()), before, chunks[i], Config());
      }
      assert chunks[..|chunks|] == chunks;
    }
  }
}
