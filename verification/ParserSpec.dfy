/** The escape-sequence parser as a machine that takes one byte at a time. It knows nothing
    of the chunks that the bytes arrive in. */
module ParserSpec {
  import opened Bytes

  const MAX_ARGS := 16
  const MAX_INTERMED := 15
  const MAX_LEADER := 15
  const MAX_COMMAND := 16

  /** An argument that was not given, and the flag of one that a colon follows. */
  const MISSING := 0x7fff_ffff
  const MORE := 0x8000_0000

  datatype Kind = Osc(number: int) | Dcs(command: seq<byte>) | Apc | Pm | Sos

  /** What a reader of the stream is told: text byte by byte, strings whole. */
  datatype Event =
    | Control(c: byte)
    | Text(c: byte)
    | Escape(intermed: seq<byte>, final: byte)
    | Csi(leader: seq<byte>, args: seq<nat>, intermed: seq<byte>, final: byte)
    | Str(kind: Kind, content: seq<byte>)

  datatype Mode =
    | Normal
    | CsiLeader(leader: seq<byte>)
    | CsiArgs(leader: seq<byte>, args: seq<nat>, current: nat)
    | CsiIntermed(leader: seq<byte>, args: seq<nat>)
    | DcsCommand(command: seq<byte>)
    | OscNumber(number: int)
    | Content(kind: Kind, content: seq<byte>)

  datatype Config = Config(utf8: bool, emitNul: bool)

  /** The state between two bytes. `intermed` are the intermediate bytes since ESC or CSI. */
  datatype Machine = Machine(mode: Mode, inEsc: bool, intermed: seq<byte>, out: seq<Event>) {
    predicate InString() { mode.OscNumber? || mode.Content? }

    predicate InSos() { mode.Content? && mode.kind.Sos? }

    function Say(e: Event): Machine { this.(out := out + [e]) }

    function To(m: Mode): Machine { this.(mode := m) }
  }

  function Capped(s: seq<byte>, c: byte, max: nat): seq<byte> {
    if |s| < max then s + [c] else s
  }

  function Digit(value: nat, c: byte): nat
    requires IsDigit(c)
  {
    (if value == MISSING then 0 else value * 10) + (c - 0x30)
  }

  function WithMore(value: nat): nat {
    if value / MORE % 2 == 1 then value else value + MORE
  }

  function CsiEnd(m: Machine, leader: seq<byte>, args: seq<nat>, c: byte): Machine {
    if IsIntermed(c) then m.(mode := CsiIntermed(leader, args), intermed := Capped(m.intermed, c, MAX_INTERMED))
    else if IsFinal(c) then m.Say(Csi(leader, args, m.intermed, c)).To(Normal)
    else m.To(Normal)
  }

  function CsiByte(m: Machine, leader: seq<byte>, args: seq<nat>, current: nat, c: byte): Machine {
    if IsDigit(c) then m.To(CsiArgs(leader, args, Digit(current, c)))
    else if c == ':' as int then m.To(CsiArgs(leader, args + [WithMore(current)], MISSING))
    else if c == ';' as int then m.To(CsiArgs(leader, args + [current], MISSING))
    else CsiEnd(m.(intermed := []), leader, args + [current], c)
  }

  function StringByte(m: Machine, kind: Kind, content: seq<byte>, c: byte, c1: bool): Machine {
    if c == BEL || (c1 && c == 0x9c) then m.Say(Str(kind, content)).To(Normal)
    else m.To(Content(kind, content + [c]))
  }

  function OscByte(m: Machine, number: int, c: byte, c1: bool): Machine {
    if IsDigit(c) then m.To(OscNumber((if number == -1 then 0 else number * 10) + (c - 0x30)))
    else if c == ';' as int then m.To(Content(Osc(number), []))
    else StringByte(m, Osc(number), [], c, c1)
  }

  function DcsByte(m: Machine, command: seq<byte>, c: byte): Machine {
    var command := Capped(command, c, MAX_COMMAND);
    m.To(if IsFinal(c) then Content(Dcs(command), []) else DcsCommand(command))
  }

  function C1(m: Machine, c: byte): Machine {
    match c
    case 0x90 => m.To(DcsCommand([]))
    case 0x98 => m.To(Content(Sos, []))
    case 0x9b => m.To(CsiLeader([]))
    case 0x9d => m.To(OscNumber(-1))
    case 0x9e => m.To(Content(Pm, []))
    case 0x9f => m.To(Content(Apc, []))
    case _ => m.Say(Control(c))
  }

  function Plain(m: Machine, c: byte, c1: bool): Machine {
    match m.mode
    case Normal => if c1 && 0x80 <= c < 0xa0 then C1(m, c) else m.Say(Text(c))
    case CsiLeader(l) =>
      if 0x3c <= c <= 0x3f then m.To(CsiLeader(Capped(l, c, MAX_LEADER))) else CsiByte(m, l, [], MISSING, c)
    case CsiArgs(l, args, current) => CsiByte(m, l, args, current, c)
    case CsiIntermed(l, args) => CsiEnd(m, l, args, c)
    case DcsCommand(command) => DcsByte(m, command, c)
    case OscNumber(n) => OscByte(m, n, c, c1)
    case Content(kind, content) => StringByte(m, kind, content, c, c1)
  }

  /** A byte after ESC: a C1 control in 7-bit form, or part of an escape sequence. */
  function Escaped(m: Machine, c: byte): Machine {
    if m.intermed == [] && 0x40 <= c < 0x60 && (m.InString() ==> c == 0x5c) then
      Plain(m.(inEsc := false), c + 0x40, true)
    else if IsIntermed(c) then m.(mode := Normal, intermed := Capped(m.intermed, c, MAX_INTERMED))
    else if 0x30 <= c < DEL then m.Say(Escape(m.intermed, c)).(mode := Normal, inEsc := false)
    else m.To(Normal)
  }

  predicate IsC0(m: Machine, c: byte) { c < 0x20 && !(c == BEL && m.InString()) }

  function Controlled(m: Machine, c: byte, heard: bool): Machine {
    if heard then m.Say(Control(c)) else m
  }

  function Step(m: Machine, c: byte, config: Config): Machine {
    if c == 0 || c == DEL then Controlled(m, c, config.emitNul)
    else if c == CAN || c == SUB then Controlled(m.(mode := Normal, inEsc := false), c, config.emitNul)
    else if c == ESC then m.(mode := if m.InString() then m.mode else Normal, inEsc := true, intermed := [])
    else if IsC0(m, c) && m.InSos() then m.To(Content(Sos, m.mode.content + [c]))
    else if IsC0(m, c) then m.Say(Control(c))
    else if m.inEsc then Escaped(m, c)
    else Plain(m, c, !config.utf8)
  }

  function Run(m: Machine, bytes: seq<byte>, config: Config): Machine {
    if bytes == [] then m
    else Step(Run(m, bytes[..|bytes| - 1], config), bytes[|bytes| - 1], config)
  }

  /** The bytes that the parser is not meant to be given: an argument beyond the sixteenth, a
      control inside the number of an OSC, and a control or second ESC straight after an ESC
      inside a string. CAN, SUB and BEL, which end a string, are fine. */
  predicate Legal(m: Machine, c: byte) {
    && (m.mode.CsiArgs? && (c == ':' as int || c == ';' as int) ==> |m.mode.args| < MAX_ARGS - 1)
    && (m.mode.OscNumber? ==> c != 0 && c != DEL && (c < 0x20 ==> c in {BEL, CAN, SUB, ESC}))
    && (m.mode.Content? && m.inEsc ==> c != 0 && c != DEL && (c < 0x20 ==> c in {BEL, CAN, SUB}))
  }

  ghost predicate Accepts(m: Machine, bytes: seq<byte>, config: Config) {
    forall k :: 0 <= k < |bytes| ==> Legal(Run(m, bytes[..k], config), bytes[k])
  }

  lemma {:induction false} RunAppend(m: Machine, a: seq<byte>, b: seq<byte>, config: Config)
    ensures Run(m, a + b, config) == Run(Run(m, a, config), b, config)
  {
    if b == [] {
      assert a + b == a;
    } else {
      assert (a + b)[..|a + b| - 1] == a + b[..|b| - 1];
      RunAppend(m, a, b[..|b| - 1], config);
    }
  }

  lemma AcceptsParts(m: Machine, a: seq<byte>, b: seq<byte>, config: Config)
    requires Accepts(m, a + b, config)
    ensures Accepts(m, a, config) && Accepts(Run(m, a, config), b, config)
  {
    forall k | 0 <= k < |a| ensures Legal(Run(m, a[..k], config), a[k]) {
      assert (a + b)[..k] == a[..k] && (a + b)[k] == a[k];
    }
    forall k | 0 <= k < |b| ensures Legal(Run(Run(m, a, config), b[..k], config), b[k]) {
      assert (a + b)[..|a| + k] == a + b[..k] && (a + b)[|a| + k] == b[k];
      RunAppend(m, a, b[..k], config);
    }
  }
}
