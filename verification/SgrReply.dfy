/** The pen printed in the reply to a status request, and that text read by the parser. */
module SgrReply {
  import opened Bytes
  import opened Grid
  import opened Seqs
  import opened Sgr
  import P = ParserSpec

  const CSI_START: seq<byte> := [ESC, '[' as int]
  const SGR_FINAL: byte := 'm' as int

  function Digits(n: nat): (s: seq<byte>)
    ensures s != [] && forall i :: 0 <= i < |s| ==> IsDigit(s[i])
  {
    if n < 10 then [0x30 + n] else Digits(n / 10) + [0x30 + n % 10]
  }

  /** What follows a parameter that is not the last. */
  function Separator(a: nat): byte { if HasMore(a) then ':' as int else ';' as int }

  function Separated(args: seq<nat>): seq<byte> {
    if args == [] then []
    else
      var a := args[|args| - 1];
      Separated(args[..|args| - 1]) + (Digits(Arg(a)) + [Separator(a)])
  }

  /** The parameters in decimal, each but the last followed by its separator. */
  function Printed(args: seq<nat>): seq<byte> {
    if args == [] then []
    else Separated(args[..|args| - 1]) + Digits(Arg(args[|args| - 1]))
  }

  /** A parameter that prints as what it is. */
  predicate Plain(a: nat) {
    Arg(a) < MISSING && a == Arg(a) + if HasMore(a) then MORE else 0
  }

  predicate Printable(args: seq<nat>) {
    && (forall i :: 0 <= i < |args| ==> Plain(args[i]))
    && (args != [] ==> !HasMore(args[|args| - 1]))
  }

  /** Where the parser stands after the separators of `args`. */
  function Before(m: P.Machine, args: seq<nat>): P.Machine {
    if args == [] then m.To(P.CsiLeader([])) else m.To(P.CsiArgs([], args, MISSING))
  }

  function Within(m: P.Machine, args: seq<nat>, n: nat): P.Machine {
    m.To(P.CsiArgs([], args, n))
  }

  predicate Awake(m: P.Machine) { !m.inEsc && m.intermed == [] }

  // ---- What the parser accepts, piece by piece ----

  lemma AcceptsBoth(m: P.Machine, a: seq<byte>, b: seq<byte>, config: P.Config)
    requires P.Accepts(m, a, config) && P.Accepts(P.Run(m, a, config), b, config)
    ensures P.Accepts(m, a + b, config) && P.Run(m, a + b, config) == P.Run(P.Run(m, a, config), b, config)
  {
    P.RunAppend(m, a, b, config);
    hide P.Run, P.Legal;
    forall k | 0 <= k < |a + b| ensures P.Legal(P.Run(m, (a + b)[..k], config), (a + b)[k]) {
      if k < |a| {
        assert (a + b)[..k] == a[..k] && (a + b)[k] == a[k];
      } else {
        assert (a + b)[..k] == a + b[..k - |a|] && (a + b)[k] == b[k - |a|];
        P.RunAppend(m, a, b[..k - |a|], config);
      }
    }
  }

  lemma OneByte(m: P.Machine, c: byte, config: P.Config)
    ensures P.Run(m, [c], config) == P.Step(m, c, config)
    ensures P.Accepts(m, [c], config) <==> P.Legal(m, c)
  {
    assert [c][..0] == [];
    hide P.Step, P.Legal;
    assert P.Run(m, [], config) == m;
    assert P.Accepts(m, [c], config) ==> P.Legal(P.Run(m, [c][..0], config), [c][0]);
    forall k | 0 <= k < 1 ensures P.Run(m, [c][..k], config) == m {
    }
  }

  lemma FirstDigit(m: P.Machine, args: seq<nat>, n: nat, config: P.Config)
    requires Awake(m) && n < 10
    ensures P.Step(Before(m, args), 0x30 + n, config) == Within(m, args, n) && P.Legal(Before(m, args), 0x30 + n)
  {
  }

  lemma NextDigit(m: P.Machine, args: seq<nat>, n: nat, config: P.Config)
    requires Awake(m) && n < MISSING
    ensures P.Step(Within(m, args, n / 10), 0x30 + n % 10, config) == Within(m, args, n)
    ensures P.Legal(Within(m, args, n / 10), 0x30 + n % 10)
  {
  }

  lemma {:induction false} DigitsRead(m: P.Machine, args: seq<nat>, n: nat, config: P.Config)
    requires Awake(m) && n < MISSING
    ensures P.Run(Before(m, args), Digits(n), config) == Within(m, args, n)
    ensures P.Accepts(Before(m, args), Digits(n), config)
  {
    hide P.Step, P.Legal, P.Run, P.Accepts, Before, Within, Awake;
    if n < 10 {
      FirstDigit(m, args, n, config);
      OneByte(Before(m, args), 0x30 + n, config);
    } else {
      DigitsRead(m, args, n / 10, config);
      NextDigit(m, args, n, config);
      OneByte(Within(m, args, n / 10), 0x30 + n % 10, config);
      AcceptsBoth(Before(m, args), Digits(n / 10), [0x30 + n % 10], config);
    }
  }

  lemma SeparatorRead(m: P.Machine, args: seq<nat>, a: nat, config: P.Config)
    requires Awake(m) && Plain(a)
    ensures P.Step(Within(m, args, Arg(a)), Separator(a), config) == Before(m, args + [a])
    ensures P.Legal(Within(m, args, Arg(a)), Separator(a)) <==> |args| < P.MAX_ARGS - 1
  {
  }

  /** One parameter and its separator. */
  lemma ParameterRead(m: P.Machine, args: seq<nat>, a: nat, config: P.Config)
    requires Awake(m) && Plain(a)
    ensures P.Run(Before(m, args), Digits(Arg(a)) + [Separator(a)], config) == Before(m, args + [a])
    ensures P.Accepts(Before(m, args), Digits(Arg(a)) + [Separator(a)], config) <==> |args| < P.MAX_ARGS - 1
  {
    DigitsRead(m, args, Arg(a), config);
    SeparatorRead(m, args, a, config);
    hide P.Step, P.Legal, P.Run, P.Accepts, Before, Within, Awake, Arg, Separator, Digits;
    OneByte(Within(m, args, Arg(a)), Separator(a), config);
    P.RunAppend(Before(m, args), Digits(Arg(a)), [Separator(a)], config);
    if P.Accepts(Before(m, args), Digits(Arg(a)) + [Separator(a)], config) {
      P.AcceptsParts(Before(m, args), Digits(Arg(a)), [Separator(a)], config);
    } else if |args| < P.MAX_ARGS - 1 {
      AcceptsBoth(Before(m, args), Digits(Arg(a)), [Separator(a)], config);
    }
  }

  lemma {:induction false} SeparatedRead(m: P.Machine, args: seq<nat>, config: P.Config)
    requires Awake(m) && forall i :: 0 <= i < |args| ==> Plain(args[i])
    ensures P.Run(Before(m, []), Separated(args), config) == Before(m, args)
    ensures P.Accepts(Before(m, []), Separated(args), config) <==> |args| < P.MAX_ARGS
  {
    hide P.Step, P.Legal, Awake, Plain, Arg, Digits, Separator;
    if args != [] {
      var n := |args| - 1;
      var pre, a := args[..n], args[n];
      var last := Digits(Arg(a)) + [Separator(a)];
      SeparatedRead(m, pre, config);
      ParameterRead(m, pre, a, config);
      assert pre + [a] == args && Separated(args) == Separated(pre) + last;
      hide P.Run, P.Accepts, Before, Separated;
      P.RunAppend(Before(m, []), Separated(pre), last, config);
      if P.Accepts(Before(m, []), Separated(pre) + last, config) {
        P.AcceptsParts(Before(m, []), Separated(pre), last, config);
      } else if |args| < P.MAX_ARGS {
        AcceptsBoth(Before(m, []), Separated(pre), last, config);
      }
    }
  }

  /** The whole list of parameters, without an end. */
  lemma PrintedRead(m: P.Machine, args: seq<nat>, config: P.Config)
    requires Awake(m) && Printable(args) && args != []
    ensures P.Run(Before(m, []), Printed(args), config) ==
      Within(m, args[..|args| - 1], args[|args| - 1])
    ensures P.Accepts(Before(m, []), Printed(args), config) <==> |args| <= P.MAX_ARGS
  {
    var n := |args| - 1;
    var pre, a := args[..n], args[n];
    assert Plain(a) && Arg(a) == a;
    SeparatedRead(m, pre, config);
    DigitsRead(m, pre, a, config);
    hide P.Step, P.Legal, P.Run, P.Accepts, Before, Within, Awake, Arg, Separated, Digits, Plain, HasMore;
    P.RunAppend(Before(m, []), Separated(pre), Digits(a), config);
    if P.Accepts(Before(m, []), Separated(pre) + Digits(a), config) {
      P.AcceptsParts(Before(m, []), Separated(pre), Digits(a), config);
    } else if |args| <= P.MAX_ARGS {
      AcceptsBoth(Before(m, []), Separated(pre), Digits(a), config);
    }
  }

  /** The parameters that the parser hands on: an absent one for an empty list. */
  function Heard(args: seq<nat>): seq<nat> { if args == [] then [MISSING] else args }

  lemma CsiStarts(m: P.Machine, config: P.Config)
    requires m.mode.Normal? && !m.inEsc
    ensures P.Run(m, CSI_START, config) == Before(m.(intermed := []), [])
    ensures P.Accepts(m, CSI_START, config)
  {
    var m' := P.Step(m, ESC, config);
    assert P.Step(m', '[' as int, config) == Before(m.(intermed := []), []);
    assert P.Legal(m, ESC) && P.Legal(m', '[' as int);
    hide P.Step, P.Legal;
    OneByte(m, ESC, config);
    OneByte(m', '[' as int, config);
    AcceptsBoth(m, [ESC], ['[' as int], config);
    assert [ESC] + ['[' as int] == CSI_START;
  }

  /** The end of a list whose last parameter is `n`. */
  lemma FinalRead(m: P.Machine, args: seq<nat>, n: nat, config: P.Config)
    requires Awake(m)
    ensures P.Step(Within(m, args, n), SGR_FINAL, config) ==
      m.Say(P.Csi([], args + [n], [], SGR_FINAL)).To(P.Normal)
    ensures P.Legal(Within(m, args, n), SGR_FINAL)
    ensures args == [] && n == MISSING ==>
      && P.Step(Before(m, []), SGR_FINAL, config) == P.Step(Within(m, [], n), SGR_FINAL, config)
      && P.Legal(Before(m, []), SGR_FINAL)
  {
  }

  lemma CsiEnds(m: P.Machine, args: seq<nat>, config: P.Config)
    requires Awake(m) && Printable(args)
    ensures var at := if args == [] then Before(m, []) else Within(m, args[..|args| - 1], args[|args| - 1]);
      && P.Step(at, SGR_FINAL, config) == m.Say(P.Csi([], Heard(args), [], SGR_FINAL)).To(P.Normal)
      && P.Legal(at, SGR_FINAL)
  {
    hide P.Step, P.Legal, Awake, Printable, Before, Within;
    if args == [] {
      FinalRead(m, [], MISSING, config);
      assert [] + [MISSING] == Heard(args);
    } else {
      var n := |args| - 1;
      FinalRead(m, args[..n], args[n], config);
      assert args[..n] + [args[n]] == args;
    }
  }

  /** Parameters printed, and read by the parser: it hands on the very same ones. It takes
      them if and only if there are at most sixteen. */
  lemma PrintedParses(m: P.Machine, args: seq<nat>, config: P.Config)
    requires m.mode.Normal? && !m.inEsc && Printable(args)
    ensures var text := CSI_START + (Printed(args) + [SGR_FINAL]);
      && (P.Accepts(m, text, config) <==> |args| <= P.MAX_ARGS)
      && P.Run(m, text, config).out == m.out + [P.Csi([], Heard(args), [], SGR_FINAL)]
      && P.Run(m, text, config).mode.Normal?
  {
    var m' := m.(intermed := []);
    assert Awake(m') && m'.out == m.out;
    CsiStarts(m, config);
    CsiEnds(m', args, config);
    if args == [] {
      assert Printed(args) == [] && P.Run(Before(m', []), [], config) == Before(m', []);
    } else {
      PrintedRead(m', args, config);
    }
    hide P.Step, P.Legal, P.Run, P.Accepts, Before, Within, Awake, Printable, Printed, Heard;
    PiecesRead(m, args, config, P.Run(Before(m', []), Printed(args), config));
  }

  lemma PiecesRead(m: P.Machine, args: seq<nat>, config: P.Config, at: P.Machine)
    requires P.Accepts(m, CSI_START, config)
    requires at == P.Run(P.Run(m, CSI_START, config), Printed(args), config) && P.Legal(at, SGR_FINAL)
    requires P.Accepts(P.Run(m, CSI_START, config), Printed(args), config) <==> |args| <= P.MAX_ARGS
    ensures var text := CSI_START + (Printed(args) + [SGR_FINAL]);
      && (P.Accepts(m, text, config) <==> |args| <= P.MAX_ARGS)
      && P.Run(m, text, config) == P.Step(at, SGR_FINAL, config)
  {
    var start := P.Run(m, CSI_START, config);
    var rest := Printed(args) + [SGR_FINAL];
    hide P.Step, P.Legal, P.Run, P.Accepts, Printed;
    OneByte(at, SGR_FINAL, config);
    P.RunAppend(m, CSI_START, rest, config);
    P.RunAppend(start, Printed(args), [SGR_FINAL], config);
    if P.Accepts(m, CSI_START + rest, config) {
      P.AcceptsParts(m, CSI_START, rest, config);
      P.AcceptsParts(start, Printed(args), [SGR_FINAL], config);
    } else if |args| <= P.MAX_ARGS {
      AcceptsBoth(start, Printed(args), [SGR_FINAL], config);
      AcceptsBoth(m, CSI_START, rest, config);
    }
  }

  // ---- The pen, printed and read back ----

  lemma ColorPrintable(c: Color, fg: bool)
    requires ChosenColor(c)
    ensures Printable(ColorArgs(c, fg))
  {
    var s := ColorArgs(c, fg);
    SmallArg(if fg then 38 else 48);
    SmallArg(s[|s| - 1]);
    if c.Rgb? {
      SmallArg(2);
      SmallArg(c.red);
      SmallArg(c.green);
    } else {
      SmallArg(5);
    }
    hide HasMore, Arg;
  }

  /** Every parameter that tells a pen prints as what it is. */
  lemma PartPrintable(p: Pen, k: nat, d: Defaults)
    requires ValidPen(p, d) && ValidDefaults(d) && k < 12
    ensures Printable(Part(p, k))
  {
    if Simple(p, k) {
      PartTold(p, k, d, false);
      hide ValidPen, Part, Upto, HasMore, Arg, Told;
      if Part(p, k) != [] {
        SmallArg(Part(p, k)[0]);
      }
    } else if k == 2 {
      CurlyPart(p, d, false);
      SmallArg(3);
      SmallArg(4);
      hide ValidPen, Part, Upto, HasMore, Arg;
    } else {
      ColorPart(p, k, d, false);
      hide ValidPen, Part, Upto, HasMore, Arg, ColorArgs, ChosenColor, WithColor;
      if Part(p, k) != [] {
        ColorPrintable(if k == 9 then p.fg else p.bg, k == 9);
      }
    }
  }

  lemma {:induction false} PartsPrintable(p: Pen, k: nat, d: Defaults)
    requires ValidPen(p, d) && ValidDefaults(d) && k <= 12
    ensures Printable(PartsFrom(p, k))
    decreases 12 - k
  {
    if k < 12 {
      PartPrintable(p, k, d);
      PartsPrintable(p, k + 1, d);
      assert PartsFrom(p, k) == Part(p, k) + PartsFrom(p, k + 1);
      hide ValidPen, ValidDefaults, PartsFrom, Part, Plain, HasMore;
      PrintableConcat(Part(p, k), PartsFrom(p, k + 1));
    }
  }

  lemma PrintableConcat(a: seq<nat>, b: seq<nat>)
    requires Printable(a) && Printable(b)
    ensures Printable(a + b)
  {
    hide Plain, HasMore;
  }

  /** A pen that SGR can set, told as the status reply tells it, printed, parsed as a control
      sequence and set on a pen just reset, is the same pen, unless bold brightens its colour;
      and the parser takes the text if and only if there are at most sixteen parameters. */
  lemma StatusRoundTrip(p: Pen, d: Defaults, m: P.Machine, config: P.Config, rest: seq<nat>, hb: bool)
    requires ValidPen(p, d) && ValidDefaults(d) && m.mode.Normal? && !m.inEsc
    ensures var text := CSI_START + (Printed(GetPen(p)) + [SGR_FINAL]);
      var args := Heard(GetPen(p));
      && (P.Accepts(m, text, config) <==> |GetPen(p)| <= P.MAX_ARGS)
      && P.Run(m, text, config).out == m.out + [P.Csi([], args, [], SGR_FINAL)]
      && SetPen(Reset(d), args + rest, |args|, 0, d, hb) == Bright(p, hb)
  {
    PartsPrintable(p, 0, d);
    SetGetPen(p, d, rest, hb);
    if GetPen(p) == [] {
      assert SetPen(Reset(d), GetPen(p) + rest, 0, 0, d, hb) == Reset(d);
      ResetHeard(rest, d, hb);
    }
    hide P.Run, P.Accepts, Printed, Printable, SetPen, ValidPen, ValidDefaults, PartsFrom, Part, Reset, Dulled;
    PrintedParses(m, GetPen(p), config);
  }

  lemma ResetHeard(rest: seq<nat>, d: Defaults, hb: bool)
    ensures SetPen(Reset(d), [MISSING] + rest, 1, 0, d, hb) == Reset(d)
  {
    var mem := [MISSING] + rest;
    assert mem[0] == MISSING && Arg(MISSING) == MISSING && !HasMore(MISSING);
    hide Told, Looked, Reset;
  }

  /** Whatever SGR sequences have come since the last reset: the status reply's parameters, read
      as an SGR sequence after a reset, restore the pen if and only if it is not a bold one of the
      first eight colours under the option that brightens those. */
  lemma PenRestored(told: seq<Parameters>, d: Defaults, m: P.Machine, config: P.Config, rest: seq<nat>, hb: bool)
    requires ValidDefaults(d) && m.mode.Normal? && !m.inEsc
    ensures var p := PenAfter(told, d, hb);
      var text := CSI_START + (Printed(GetPen(p)) + [SGR_FINAL]);
      var args := Heard(GetPen(p));
      && (P.Accepts(m, text, config) <==> |GetPen(p)| <= P.MAX_ARGS)
      && P.Run(m, text, config).out == m.out + [P.Csi([], args, [], SGR_FINAL)]
      && (SetPen(Reset(d), args + rest, |args|, 0, d, hb) == p <==> !Dulled(p, hb))
  {
    PenAfterValid(told, d, hb);
    hide P.Run, P.Accepts, Printed, SetPen, ValidPen, ValidDefaults, GetPen, Reset, Heard, Dulled, PenAfter;
    StatusRoundTrip(PenAfter(told, d, hb), d, m, config, rest, hb);
  }

  /** The text of a status reply, between its introducer and its end. */
  method Print(args: array<nat>, argc: nat) returns (out: seq<byte>)
    requires argc <= args.Length
    ensures out == Printed(args[..argc])
  {
    out := [];
    var argi := 0;
    while argi < argc
      invariant argi <= argc
      invariant out == if argi < argc || argc == 0 then Separated(args[..argi]) else Printed(args[..argc])
    {
      hide Digits, Arg, Separator;
      assert args[..argi + 1][..argi] == args[..argi];
      out := out + Digits(Arg(args[argi]));
      if argi < argc - 1 {
        assert Separated(args[..argi + 1]) ==
          Separated(args[..argi]) + (Digits(Arg(args[argi])) + [Separator(args[argi])]);
        out := out + [Separator(args[argi])];
      }
      argi := argi + 1;
    }
  }

  /** DCS 1 $ r, and the end of the sequence with the string terminator. */
  const REPLY_START: seq<byte> := [ESC, 'P' as int, '1' as int, '$' as int, 'r' as int]
  const REPLY_END: seq<byte> := [SGR_FINAL, ESC, 0x5c]

  /** A status request answered: the reply that a pen of this state prints. */
  method Reply(pen: PenState) returns (out: seq<byte>)
    ensures out == REPLY_START + Printed(GetPen(pen.pen)) + REPLY_END
  {
    hide Printed, GetPen, PartsFrom, Part;
    var start, end := REPLY_START, REPLY_END;
    var args := new nat[20];
    var argc := pen.Get(args);
    var text := Print(args, argc);
    out := start + text + end;
  }
}
