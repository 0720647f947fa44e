/** Selections sent to the program and received from it: operating system command 52. */
module Selection {
  import opened Seqs
  import opened Bytes
  import opened Base64
  import P = ParserSpec

  // ---- Sending ----

  const PARTIAL := 0x100_0000

  function Header(target: byte): seq<byte> {
    [ESC, ']' as int, '5' as int, '2' as int, ';' as int, target, ';' as int]
  }

  const ST: seq<byte> := [ESC, '\\' as int]

  predicate SevenBit(s: seq<byte>) {
    forall i :: 0 <= i < |s| ==> s[i] < 0x80
  }

  /** At most two bytes are held. */
  predicate Small(n: nat, x: nat) {
    n < 3 && x < 0x1_0000 && (n == 0 ==> x == 0) && (n == 1 ==> x < 0x100)
  }

  class Sender {
    const buffer: array<byte>
    /** Up to two bytes not yet sent, under their number. */
    var sendpartial: nat
    /** Everything pushed to the output so far. */
    var out: seq<byte>

    ghost predicate Valid()
      reads this
    {
      buffer.Length >= 4 && Small(View().n, View().x)
    }

    ghost function View(): Sending
      reads this
    {
      Sending(sendpartial / PARTIAL, sendpartial % PARTIAL, out)
    }

    constructor (size: nat)
      requires size >= 4
      ensures Valid() && out == []
    {
      buffer := new byte[size];
      sendpartial, out := 0, [];
    }

    /** Puts four characters into the buffer. */
    method PutQuad(at: nat, x: nat)
      requires at + 4 <= buffer.Length
      modifies buffer
      ensures buffer[..at + 4] == old(buffer[..at]) + Quad(x)
    {
      buffer[at], buffer[at + 1] := One(Sextet(x, 0)), One(Sextet(x, 1));
      buffer[at + 2], buffer[at + 3] := One(Sextet(x, 2)), One(Sextet(x, 3));
      hide One, Sextet;
      assert buffer[at..at + 4] == Quad(x);
      assert buffer[..at + 4] == buffer[..at] + buffer[at..at + 4];
    }

    /** Puts a byte to those held, and a whole group into the buffer. */
    method HoldByte(n0: nat, x0: nat, at: nat, c: byte) returns (n: nat, x: nat, bufcur: nat)
      requires Small(n0, x0) && at + 4 <= buffer.Length
      modifies buffer
      ensures Small(n, x) && at <= bufcur <= buffer.Length
      ensures Sending(n, x, out + buffer[..bufcur]) == SendByte(Sending(n0, x0, out + old(buffer[..at])), c)
    {
      n, x, bufcur := n0 + 1, x0 * 256 + c, at;
      if n == 3 {
        AppendAssoc(out, buffer[..at], Quad(x));
        PutQuad(at, x);
        n, x, bufcur := 0, 0, at + 4;
      }
    }

    method SendBytes(frag: seq<byte>)
      requires Valid() && SevenBit(frag)
      modifies `sendpartial, `out, buffer
      ensures Valid() && View() == Send(old(View()), frag)
    {
      SendNothing(View());
      hide Send, SendByte, Quad;
      var n: nat, x: nat := 0, 0;
      if sendpartial > 0 {
        n, x := sendpartial / PARTIAL, sendpartial % PARTIAL;
        sendpartial := 0;
      }
      var pos, bufcur := 0, 0;
      assert Sending(n, x, out + buffer[..bufcur]) == old(View());
      while buffer.Length - bufcur >= 4 && pos < |frag|
        invariant pos <= |frag| && bufcur + 4 <= buffer.Length && (pos == |frag| ==> bufcur == 0)
        invariant Small(n, x) && sendpartial == 0
        invariant Sending(n, x, out + buffer[..bufcur]) == Send(old(View()), frag[..pos])
        decreases |frag| - pos
      {
        SendNext(old(View()), frag, pos);
        n, x, bufcur := HoldByte(n, x, bufcur, frag[pos]);
        pos := pos + 1;
        if pos == |frag| || buffer.Length - bufcur < 4 {
          out := out + buffer[..bufcur];
          bufcur := 0;
          assert out + buffer[..0] == out;
        }
      }
      assert frag[..pos] == frag && out + buffer[..0] == out;
      if n > 0 {
        sendpartial := n * PARTIAL + x;
      }
    }

    method SendFragment(frag: seq<byte>, initial: bool, closing: bool, target: byte)
      requires Valid() && SevenBit(frag)
      modifies `sendpartial, `out, buffer
      ensures Valid()
      ensures var s := Send(if initial then Sending(0, 0, old(out) + Header(target)) else old(View()), frag);
        if closing then out == Finish(s) + ST else View() == s
    {
      hide Send, Padded;
      if initial {
        out := out + Header(target);
        sendpartial := 0;
      }
      if frag != [] {
        SendBytes(frag);
      } else {
        SendNothing(View());
      }
      if closing {
        NothingPadded(View());
        if sendpartial > 0 {
          out := out + Padded(sendpartial % PARTIAL, sendpartial / PARTIAL);
        }
        out := out + ST;
      }
    }

    /** Sends a selection that comes in fragments, the last of them marked as such. */
    method SendAll(fragments: seq<seq<byte>>, target: byte)
      requires Valid() && fragments != [] && forall i :: 0 <= i < |fragments| ==> SevenBit(fragments[i])
      modifies `sendpartial, `out, buffer
      ensures Valid() && out == old(out) + Header(target) + Encode(Concat(fragments)) + ST
    {
      hide Send, Finish, Encode;
      var start := Sending(0, 0, out + Header(target));
      SendNothing(start);
      var last := |fragments| - 1;
      for i := 0 to last
        invariant Valid()
        invariant Send(start, Concat(fragments[..i])) == if i == 0 then start else View()
        invariant i == 0 ==> out == old(out)
      {
        SendFragment(fragments[i], i == 0, false, target);
        ConcatNext(fragments, i);
        SendAppend(start, Concat(fragments[..i]), fragments[i]);
      }
      SendFragment(fragments[last], last == 0, true, target);
      ConcatNext(fragments, last);
      SendAppend(start, Concat(fragments[..last]), fragments[last]);
      assert fragments[..last + 1] == fragments;
      SendsEncoding(start.out, Concat(fragments));
    }
  }

  lemma SendNothing(s: Sending)
    ensures Send(s, []) == s
  {
  }

  lemma NothingPadded(s: Sending)
    ensures s.n == 0 ==> Finish(s) == s.out
  {
    assert s.out + [] == s.out;
  }

  lemma SendNext(s: Sending, frag: seq<byte>, pos: nat)
    requires pos < |frag|
    ensures Send(s, frag[..pos + 1]) == SendByte(Send(s, frag[..pos]), frag[pos])
  {
    assert frag[..pos + 1][..pos] == frag[..pos];
  }

  /** What one terminal sends, another's parser takes as one operating system command. */
  lemma SelectionParses(m: P.Machine, config: P.Config, target: byte, body: seq<byte>)
    requires m.mode.Normal? && !m.inEsc && 0x20 <= target < DEL
    requires forall i :: 0 <= i < |body| ==> 0x20 <= body[i] < DEL
    ensures P.Run(m, Header(target) + body + ST, config) ==
      P.Machine(P.Normal, false, [], m.out + [P.Str(P.Osc(52), [target, ';' as int] + body)])
  {
    hide P.Step, P.Run;
    var begun := P.Machine(P.Content(P.Osc(52), []), false, [], m.out);
    var content := [target, ';' as int] + body;
    CommandParses(m, config);
    BodyParses(begun, config, content);
    assert [] + content == content;
    P.RunAppend(m, COMMAND, content, config);
    P.RunAppend(m, COMMAND + content, ST, config);
    StParses(P.Run(begun, content, config), config);
    assert Header(target) + body + ST == COMMAND + content + ST;
  }

  const COMMAND: seq<byte> := [ESC, ']' as int, '5' as int, '2' as int, ';' as int]

  lemma RunNext(m: P.Machine, s: seq<byte>, k: nat, config: P.Config)
    requires k < |s|
    ensures P.Run(m, s[..k + 1], config) == P.Step(P.Run(m, s[..k], config), s[k], config)
  {
    assert s[..k + 1][..k] == s[..k];
  }

  lemma CommandParses(m: P.Machine, config: P.Config)
    requires m.mode.Normal? && !m.inEsc
    ensures P.Run(m, COMMAND, config) == P.Machine(P.Content(P.Osc(52), []), false, [], m.out)
  {
    var s := COMMAND;
    assert P.Run(m, s[..0], config) == m;
    hide P.Run;
    RunNext(m, s, 0, config);
    RunNext(m, s, 1, config);
    RunNext(m, s, 2, config);
    RunNext(m, s, 3, config);
    RunNext(m, s, 4, config);
    assert P.Run(m, s[..1], config) == m.(inEsc := true, intermed := []);
    assert P.Run(m, s[..2], config) == P.Machine(P.OscNumber(-1), false, [], m.out);
    assert P.Run(m, s[..3], config) == P.Machine(P.OscNumber(5), false, [], m.out);
    assert P.Run(m, s[..4], config) == P.Machine(P.OscNumber(52), false, [], m.out);
    assert s[..5] == s;
  }

  lemma {:induction false} BodyParses(m: P.Machine, config: P.Config, body: seq<byte>)
    requires m.mode.Content? && !m.inEsc && forall i :: 0 <= i < |body| ==> body[i] >= 0x20 && body[i] < DEL
    ensures P.Run(m, body, config) == m.(mode := P.Content(m.mode.kind, m.mode.content + body))
  {
    if body == [] {
      assert m.mode.content + [] == m.mode.content;
    } else {
      var init, c := body[..|body| - 1], body[|body| - 1];
      BodyParses(m, config, init);
      assert m.mode.content + body == m.mode.content + init + [c];
    }
  }

  lemma StParses(m: P.Machine, config: P.Config)
    requires m.mode.Content? && !m.inEsc
    ensures P.Run(m, ST, config) == P.Machine(P.Normal, false, [], m.out + [P.Str(m.mode.kind, m.mode.content)])
  {
    assert ST[..1] == [ESC] && [ESC][..0] == [];
    var esc := m.(inEsc := true, intermed := []);
    assert P.Run(m, [ESC], config) == P.Step(P.Run(m, [], config), ESC, config) == esc;
    assert P.Step(esc, '\\' as int, config) == P.Machine(P.Normal, false, [], m.out + [P.Str(m.mode.kind, m.mode.content)]);
  }

  // ---- Receiving ----

  datatype Target = Clipboard | Primary | Secondary | Select | Cut(n: nat)

  function TargetsOf(c: byte): set<Target> {
    if c == 'c' as int then {Clipboard}
    else if c == 'p' as int then {Primary}
    else if c == 'q' as int then {Secondary}
    else if c == 's' as int then {Select}
    else if 0x30 <= c <= 0x37 then {Cut(c - 0x30)}
    else {}
  }

  datatype Stage = Choosing | Chosen | Asking | Setting

  /** A command as it is received: the targets, then a question or text in base64. */
  datatype Command = Command(stage: Stage, mask: set<Target>, r: Receiving)

  const STARTED := Command(Choosing, {}, NOTHING_YET)

  function CommandChar(m: Command, c: byte): Command {
    match m.stage
    case Choosing =>
      if c == ';' as int then m.(stage := Chosen, mask := if m.mask == {} then {Select, Cut(0)} else m.mask)
      else m.(mask := m.mask + TargetsOf(c))
    case Chosen => if c == '?' as int then m.(stage := Asking) else m.(stage := Setting, r := ReceiveChar(NOTHING_YET, c))
    case Asking => m
    case Setting => m.(r := ReceiveChar(m.r, c))
  }

  function Commanded(m: Command, s: seq<byte>): Command {
    if s == [] then m else CommandChar(Commanded(m, s[..|s| - 1]), s[|s| - 1])
  }

  lemma {:induction false} CommandedAppend(m: Command, a: seq<byte>, b: seq<byte>)
    ensures Commanded(m, a + b) == Commanded(Commanded(m, a), b)
  {
    if b == [] {
      assert a + b == a;
    } else {
      assert (a + b)[..|a + b| - 1] == a + b[..|b| - 1];
      CommandedAppend(m, a, b[..|b| - 1]);
    }
  }

  lemma {:induction false} SettingReceives(m: Command, s: seq<byte>)
    requires m.stage == Setting
    ensures Commanded(m, s) == m.(r := Receive(m.r, s))
  {
    if s != [] {
      SettingReceives(m, s[..|s| - 1]);
    }
  }

  /** A whole selection, as it was encoded, is received as the bytes that were sent. */
  lemma SelectionRoundTrip(target: byte, bytes: seq<byte>)
    requires TargetsOf(target) != {}
    ensures var m := Commanded(STARTED, [target, ';' as int] + Encode(bytes));
      && m.mask == TargetsOf(target) && !m.r.bad && m.r.got == bytes
      && m.stage == if bytes == [] then Chosen else Setting
  {
    var head, body := [target, ';' as int], Encode(bytes);
    assert head[..1] == [target] && [target][..0] == [];
    assert Commanded(STARTED, [target]) == CommandChar(STARTED, target);
    var chosen := Command(Chosen, TargetsOf(target), NOTHING_YET);
    assert Commanded(STARTED, head) == chosen;
    CommandedAppend(STARTED, head, body);
    RoundTrip(NOTHING_YET, bytes);
    assert [] + bytes == bytes;
    if bytes == [] {
      EncodesNothing();
    } else {
      EncodesText(bytes);
      var c, rest := body[0], body[1..];
      assert body == [c] + rest && [c][..0] == [];
      CommandedAppend(chosen, [c], rest);
      ReceiveAppend(NOTHING_YET, [c], rest);
      ReceiveOne(NOTHING_YET, c);
      assert Commanded(chosen, [c]) == CommandChar(chosen, c);
      SettingReceives(CommandChar(chosen, c), rest);
    }
  }

  lemma EncodesNothing()
    ensures Encode([]) == []
  {
  }

  lemma {:induction false} EncodesText(s: seq<byte>)
    requires s != []
    ensures Encode(s) != [] && Encode(s)[0] != '?' as int
  {
    if |s| < 3 {
      var x := if |s| == 1 then Value(s) * 0x1_0000 else Value(s) * 0x100;
      OneUnone(Sextet(x, 0));
    } else {
      OneUnone(Sextet(Value(s[..3]), 0));
    }
  }

  lemma {:induction false} ChosenReceives(m: Command, s: seq<byte>)
    requires m.stage == Chosen && s != [] && s[0] != '?' as int
    ensures Commanded(m, s) == m.(stage := Setting, r := Receive(NOTHING_YET, s))
  {
    var init := s[..|s| - 1];
    if init == [] {
      assert s[..0] == [];
    } else {
      ChosenReceives(m, init);
    }
  }

  lemma {:induction false} AskingStays(m: Command, s: seq<byte>)
    requires s != [] && (m.stage == Asking || (m.stage == Chosen && s[0] == '?' as int))
    ensures Commanded(m, s) == m.(stage := Asking)
  {
    var init := s[..|s| - 1];
    if init != [] {
      AskingStays(m, init);
    }
  }

  lemma {:induction false} BadStays(r: Receiving, s: seq<byte>)
    requires r.bad
    ensures Receive(r, s) == r
  {
    if s != [] {
      BadStays(r, s[..|s| - 1]);
    }
  }

  /** After padding comes nothing but padding. */
  ghost predicate Tidy(m: Command, s: seq<byte>) {
    forall k :: 0 <= k < |s| ==>
      var q := Commanded(m, s[..k]);
      q.stage == Setting && q.r.padded && !q.r.bad ==> s[k] == PAD
  }

  ghost predicate TidyText(r: Receiving, s: seq<byte>) {
    forall k :: 0 <= k < |s| ==>
      var q := Receive(r, s[..k]);
      q.padded && !q.bad ==> s[k] == PAD
  }

  datatype State = SInitial | SSelected | SQuery | SSetInitial | SSet | SInvalid

  class Receiver {
    const buffer: array<byte>
    var state: State
    var mask: set<Target>
    /** Up to three sextets not yet decoded, under their number. */
    var recvpartial: nat
    ghost var padded: bool
    /** What the application has been given of the selection, and how often it was asked for it. */
    var received: seq<byte>
    var queries: nat

    ghost predicate Valid()
      reads this
    {
      buffer.Length >= 3 && recvpartial / PARTIAL < 4 && recvpartial % PARTIAL < 0x4_0000
      && (recvpartial / PARTIAL == 0 ==> recvpartial == 0)
    }

    ghost function View(): Command
      reads this
    {
      var stage := match state case SInitial => Choosing case SSelected => Chosen case SQuery => Asking case _ => Setting;
      Command(stage, mask, if stage != Setting then NOTHING_YET else
        Receiving(recvpartial / PARTIAL, recvpartial % PARTIAL, if state.SSet? then received else [], state.SInvalid?, padded))
    }

    constructor (size: nat)
      requires size >= 3
      ensures Valid()
    {
      buffer := new byte[size];
      state, mask, recvpartial, padded, received, queries := SInitial, {}, 0, false, [], 0;
    }

    /** The application's callback. */
    method OnSet(str: seq<byte>, initial: bool)
      modifies `received
      ensures received == (if initial then [] else old(received)) + str
    {
      received := (if initial then [] else received) + str;
    }

    method ChooseTargets(frag: seq<byte>) returns (pos: nat)
      requires Valid()
      modifies `state, `mask
      ensures Valid() && pos <= |frag| && (pos == |frag| || !state.SInitial?)
      ensures View() == Commanded(old(View()), frag[..pos])
      ensures !old(state.SInitial?) ==> pos == 0 && state == old(state) && mask == old(mask)
      ensures state.SInitial? || state.SSelected? || state == old(state)
    {
      pos := 0;
      while state.SInitial? && pos < |frag|
        invariant pos <= |frag| && Valid() && View() == Commanded(old(View()), frag[..pos])
        invariant !old(state.SInitial?) ==> pos == 0 && state == old(state) && mask == old(mask)
        invariant state.SInitial? || state.SSelected? || state == old(state)
      {
        assert frag[..pos + 1][..pos] == frag[..pos];
        if frag[pos] == ';' as int {
          state := SSelected;
          if mask == {} {
            mask := {Select, Cut(0)};
          }
        } else {
          mask := mask + TargetsOf(frag[pos]);
        }
        pos := pos + 1;
      }
    }

    method PutBytes(at: nat, bytes: seq<byte>) returns (bufcur: nat)
      requires at + 3 <= buffer.Length && |bytes| <= 3
      modifies buffer
      ensures bufcur == at + |bytes| && buffer[..bufcur] == old(buffer[..at]) + bytes
    {
      forall i | 0 <= i < |bytes| {
        buffer[at + i] := bytes[i];
      }
      bufcur := at + |bytes|;
      assert buffer[at..bufcur] == bytes;
      assert buffer[..bufcur] == buffer[..at] + buffer[at..bufcur];
    }

    ghost function Got(): seq<byte>
      reads this
    {
      if state.SSet? then received else []
    }

    /** The text decoded when `bufcur` bytes of it are in the buffer. */
    ghost function Held(n: nat, x: nat, bufcur: nat): Receiving
      requires bufcur <= buffer.Length
      reads this, buffer
    {
      Receiving(n, if n == 0 then 0 else x, Got() + buffer[..bufcur], false, padded)
    }

    /** Padding: what it ends goes to the buffer, and all of it is passed over. */
    method TakePadding(frag: seq<byte>, pos0: nat, n: nat, x: nat, at: nat) returns (pos: nat, bufcur: nat)
      requires pos0 < |frag| && frag[pos0] == PAD && n < 4 && at + 3 <= buffer.Length
      modifies buffer, `padded
      ensures pos0 < pos <= |frag| && bufcur <= buffer.Length && padded
      ensures Held(0, x, bufcur) == Receive(old(Held(n, x, at)), frag[pos0..pos])
    {
      ghost var r := Held(n, x, at);
      bufcur := PutBytes(at, PadBytes(n, x));
      padded := true;
      pos := pos0 + 1;
      assert frag[pos0..pos] == [frag[pos0]];
      ReceiveOne(r, PAD);
      AppendAssoc(Got(), old(buffer[..at]), PadBytes(n, x));
      while pos < |frag| && frag[pos] == PAD
        invariant pos0 < pos <= |frag| && Held(0, x, bufcur) == Receive(r, frag[pos0..pos])
      {
        assert frag[pos0..pos + 1][..pos - pos0] == frag[pos0..pos];
        assert Got() + buffer[..bufcur] + [] == Got() + buffer[..bufcur];
        pos := pos + 1;
      }
    }

    method TakeSextet(n0: nat, x0: nat, at: nat, c: byte) returns (n: nat, x: nat, bufcur: nat)
      requires c != PAD && Unone(c) < 64 && Few(n0, x0) && (n0 == 0 ==> x0 == 0) && at + 3 <= buffer.Length
      modifies buffer
      ensures at <= bufcur <= buffer.Length && Few(n, x) && (n == 0 ==> x == 0)
      ensures Held(n, x, bufcur) == ReceiveChar(old(Held(n0, x0, at)), c)
    {
      n, x, bufcur := n0 + 1, x0 * 64 + Unone(c), at;
      hide Unone;
      if n == 4 {
        AppendAssoc(Got(), buffer[..at], GroupBytes(x));
        bufcur := PutBytes(at, GroupBytes(x));
        n, x := 0, 0;
      }
    }

    /** Hands the buffer on when it is full or the fragment has ended. */
    method HandOn(n: nat, x: nat, bufcur: nat)
      requires bufcur <= buffer.Length && (state.SSet? || state.SSetInitial?)
      modifies `state, `received
      ensures (state.SSet? || state.SSetInitial?) && Held(n, x, 0) == old(Held(n, x, bufcur))
    {
      if bufcur > 0 {
        OnSet(buffer[..bufcur], state.SSetInitial?);
        state := SSet;
      }
      assert Got() + buffer[..0] == Got();
    }

    /** A character that is no base64: the selection is cleared, and the rest will be ignored. */
    method RefuseText(frag: seq<byte>, pos0: nat, pos: nat, n: nat, x: nat, ghost bufcur: nat, ghost r0: Receiving)
      requires buffer.Length >= 3 && pos0 <= pos < |frag| && bufcur <= buffer.Length && recvpartial == 0
      requires frag[pos] != PAD && Unone(frag[pos]) == 255 && Few(n, x)
      requires Held(n, x, bufcur) == Receive(r0, frag[pos0..pos])
      modifies `state, `recvpartial, `received
      ensures Valid() && state.SInvalid? && padded == old(padded) && mask == old(mask)
      ensures View().r == Receive(r0, frag[pos0..])
    {
      Refused(r0, frag, pos0, pos);
      Packed(n, x);
      hide Receive, Unone;
      state := SInvalid;
      OnSet([], true);
      if n > 0 {
        recvpartial := n * PARTIAL + x;
      }
    }

    method LoadPartial() returns (n: nat, x: nat)
      requires Valid() && (state.SSet? || state.SSetInitial?) && Few(View().r.n, View().r.x)
      modifies `recvpartial
      ensures recvpartial == 0 && Few(n, x) && (n == 0 ==> x == 0) && Held(n, x, 0) == old(View()).r
    {
      n, x := 0, 0;
      if recvpartial > 0 {
        n, x := recvpartial / PARTIAL, recvpartial % 0x4_0000;
        assert recvpartial % PARTIAL == recvpartial % 0x4_0000;
        recvpartial := 0;
      }
      assert Got() + buffer[..0] == Got();
    }

    method StorePartial(n: nat, x: nat)
      requires buffer.Length >= 3 && recvpartial == 0 && (Few(n, x) || n == 0) && (state.SSet? || state.SSetInitial?)
      modifies `recvpartial
      ensures Valid() && View().r == Held(n, x, 0) && Few(View().r.n, View().r.x)
    {
      assert Got() + buffer[..0] == Got();
      if n > 0 {
        Packed(n, x);
        recvpartial := n * PARTIAL + x;
      }
    }

    /** A character of the text, or padding and all that follows it. */
    method TakeText(frag: seq<byte>, pos0: nat, pos: nat, n: nat, x: nat, at: nat, ghost r0: Receiving)
      returns (next: nat, n': nat, x': nat, bufcur: nat)
      requires pos0 <= pos < |frag| && at + 3 <= buffer.Length && (frag[pos] == PAD || Unone(frag[pos]) != 255)
      requires Few(n, x) || (n == 0 && padded)
      requires n == 0 && !padded ==> x == 0
      requires padded ==> frag[pos] == PAD
      requires Held(n, x, at) == Receive(r0, frag[pos0..pos])
      modifies buffer, `padded
      ensures pos < next <= |frag| && bufcur <= buffer.Length
      ensures Few(n', x') || (n' == 0 && padded)
      ensures n' == 0 && !padded ==> x' == 0
      ensures Held(n', x', bufcur) == Receive(r0, frag[pos0..next])
    {
      hide Receive, ReceiveChar, Unone;
      if frag[pos] == PAD {
        next, bufcur := TakePadding(frag, pos, n, x, at);
        n', x' := 0, x;
        TextJoin(r0, frag, pos0, pos, next);
      } else {
        TextNext(r0, frag, pos0, pos);
        UnoneRange(frag[pos]);
        n', x', bufcur := TakeSextet(n, x, at, frag[pos]);
        next := pos + 1;
      }
    }

    /** The text of a selection, from `pos0` of a fragment on. */
    method DecodeText(frag: seq<byte>, pos0: nat)
      requires Valid() && pos0 < |frag| && (state.SSet? || state.SSetInitial?)
      requires Few(View().r.n, View().r.x) && TidyText(View().r, frag[pos0..])
      modifies `state, `recvpartial, `padded, `received, buffer
      ensures Valid() && (state.SSet? || state.SSetInitial? || state.SInvalid?)
      ensures !View().r.bad ==> Few(View().r.n, View().r.x)
      ensures View() == old(View()).(r := Receive(old(View()).r, frag[pos0..]))
    {
      ghost var r0 := View().r;
      hide Receive, ReceiveChar, Unone;
      var n, x := LoadPartial();
      var pos: nat, bufcur: nat := pos0, 0;
      assert frag[pos0..pos0] == [];
      NothingReceived(r0);
      while buffer.Length - bufcur >= 3 && pos < |frag|
        invariant pos0 <= pos <= |frag| && bufcur + 3 <= buffer.Length && (pos == |frag| ==> bufcur == 0)
        invariant (state.SSet? || state.SSetInitial?) && recvpartial == 0
        invariant Few(n, x) || (n == 0 && padded)
        invariant n == 0 && !padded ==> x == 0
        invariant Held(n, x, bufcur) == Receive(r0, frag[pos0..pos])
        decreases |frag| - pos
      {
        TextNext(r0, frag, pos0, pos);
        if frag[pos] != PAD && Unone(frag[pos]) == 255 {
          RefuseText(frag, pos0, pos, n, x, bufcur, r0);
          return;
        }
        pos, n, x, bufcur := TakeText(frag, pos0, pos, n, x, bufcur, r0);
        if pos == |frag| || buffer.Length - bufcur < 3 {
          HandOn(n, x, bufcur);
          bufcur := 0;
        }
      }
      assert frag[pos0..pos] == frag[pos0..];
      StorePartial(n, x);
    }

    ghost predicate Ready()
      reads this
    {
      Valid() && (View().stage == Setting && !View().r.bad ==> Few(View().r.n, View().r.x))
    }

    /** Takes a fragment of a command. */
    method ReceiveFragment(frag: seq<byte>, initial: bool, closing: bool)
      requires Ready() && Tidy(if initial then STARTED else View(), frag)
      modifies `state, `mask, `recvpartial, `padded, `received, `queries, buffer
      ensures Ready() && View() == Commanded(if initial then STARTED else old(View()), frag)
      ensures View().stage == Setting && View().r.got != [] ==> received == View().r.got
      ensures closing && View().stage in {Choosing, Chosen} ==> received == []
    {
      hide Commanded, Receive;
      if initial {
        mask, state := {}, SInitial;
      }
      ghost var begun := View();
      var pos := ChooseTargets(frag);
      CommandRest(begun, frag, pos);
      if pos == |frag| {
        if closing {
          OnSet([], !state.SSet?);
        }
        return;
      }
      TidyRest(begun, frag, pos);
      if state.SSelected? {
        if frag[pos] == '?' as int {
          state := SQuery;
        } else {
          state, recvpartial, padded := SSetInitial, 0, false;
        }
      }
      if state.SQuery? {
        queries := queries + 1;
      } else if !state.SInvalid? {
        DecodeText(frag, pos);
      }
    }

    /** Delivers a command in pieces. A selection arrives as the bytes that were encoded. */
    method Deliver(pieces: seq<seq<byte>>, ghost target: byte, ghost bytes: seq<byte>)
      requires Ready() && pieces != [] && TargetsOf(target) != {}
      requires Concat(pieces) == [target, ';' as int] + Encode(bytes)
      modifies `state, `mask, `recvpartial, `padded, `received, `queries, buffer
      ensures received == bytes && mask == TargetsOf(target)
    {
      hide Encode, Commanded, TargetsOf, Tidy;
      SelectionRoundTrip(target, bytes);
      SelectionTidy(target, bytes);
      NothingCommanded(STARTED);
      var last := |pieces| - 1;
      for i := 0 to last
        invariant Ready() && (if i == 0 then STARTED else View()) == Commanded(STARTED, Concat(pieces[..i]))
      {
        PieceTidy(pieces, i);
        ReceiveFragment(pieces[i], i == 0, false);
        ConcatNext(pieces, i);
        CommandedAppend(STARTED, Concat(pieces[..i]), pieces[i]);
      }
      PieceTidy(pieces, last);
      ReceiveFragment(pieces[last], last == 0, true);
      ConcatNext(pieces, last);
      CommandedAppend(STARTED, Concat(pieces[..last]), pieces[last]);
      assert pieces[..last + 1] == pieces;
    }
  }

  predicate PaddedLast(s: seq<byte>) {
    forall i, j :: 0 <= i < j < |s| && s[i] == PAD ==> s[j] == PAD
  }

  lemma {:induction false} EncodesPaddedLast(s: seq<byte>)
    ensures PaddedLast(Encode(s))
  {
    if |s| < 3 {
      var x := if |s| == 1 then Value(s) * 0x1_0000 else Value(s) * 0x100;
      OneUnone(Sextet(x, 0));
      OneUnone(Sextet(x, 1));
      OneUnone(Sextet(x, 2));
      hide One, Sextet, Value;
    } else {
      var x := Value(s[..3]);
      forall i | 0 <= i < 4 ensures Quad(x)[i] != PAD {
        OneUnone(Sextet(x, i));
      }
      EncodesPaddedLast(s[3..]);
      hide Quad, Value;
    }
  }

  lemma {:induction false} PaddedBySomething(s: seq<byte>)
    requires Receive(NOTHING_YET, s).padded
    ensures exists i :: 0 <= i < |s| && s[i] == PAD
  {
    if s != [] {
      var init := s[..|s| - 1];
      if Receive(NOTHING_YET, init).padded {
        PaddedBySomething(init);
        var i :| 0 <= i < |init| && init[i] == PAD;
        assert s[i] == PAD;
      } else {
        assert s[|s| - 1] == PAD;
      }
    }
  }

  lemma SelectionTidy(target: byte, bytes: seq<byte>)
    requires TargetsOf(target) != {}
    ensures Tidy(STARTED, [target, ';' as int] + Encode(bytes))
  {
    var head, body := [target, ';' as int], Encode(bytes);
    var s := head + body;
    EncodesPaddedLast(bytes);
    HeadChooses(target);
    EncodesNothing();
    if bytes != [] {
      EncodesText(bytes);
    }
    hide Encode, Commanded, Receive;
    forall k | 0 <= k < |s|
      ensures var q := Commanded(STARTED, s[..k]); q.stage == Setting && q.r.padded && !q.r.bad ==> s[k] == PAD
    {
      if k <= 2 {
        assert s[..k] == head[..k];
      } else {
        var part := body[..k - 2];
        assert s[..k] == head + part;
        CommandedAppend(STARTED, head, part);
        ChosenReceives(Commanded(STARTED, head), part);
        if Receive(NOTHING_YET, part).padded {
          PaddedBySomething(part);
        }
      }
    }
  }

  lemma HeadChooses(target: byte)
    requires TargetsOf(target) != {}
    ensures var head := [target, ';' as int];
      && (forall k :: 0 <= k <= 2 ==> Commanded(STARTED, head[..k]).stage in {Choosing, Chosen})
      && Commanded(STARTED, head).stage == Chosen
  {
    var head := [target, ';' as int];
    assert head[..0] == [] && head[..1] == [target] && head[..2] == head && [target][..0] == [];
    assert Commanded(STARTED, [target]) == CommandChar(STARTED, target);
    assert Commanded(STARTED, head) == CommandChar(CommandChar(STARTED, target), ';' as int);
  }

  lemma TidyPart(m: Command, a: seq<byte>, b: seq<byte>, c: seq<byte>)
    requires Tidy(m, a + (b + c))
    ensures Tidy(Commanded(m, a), b)
  {
    var s := a + (b + c);
    hide Commanded;
    forall k | 0 <= k < |b|
      ensures var q := Commanded(Commanded(m, a), b[..k]); q.stage == Setting && q.r.padded && !q.r.bad ==> b[k] == PAD
    {
      assert s[..|a| + k] == a + b[..k] && s[|a| + k] == b[k];
      CommandedAppend(m, a, b[..k]);
    }
  }

  lemma PieceTidy(pieces: seq<seq<byte>>, i: nat)
    requires i < |pieces| && Tidy(STARTED, Concat(pieces))
    ensures Tidy(Commanded(STARTED, Concat(pieces[..i])), pieces[i])
  {
    hide Tidy, Commanded, Concat;
    ConcatNext(pieces, i);
    TidyPart(STARTED, Concat(pieces[..i]), pieces[i], Concat(pieces[i + 1..]));
  }

  lemma NothingCommanded(m: Command)
    ensures Commanded(m, []) == m
  {
  }

  /** What is left of a fragment once the targets are chosen. */
  lemma CommandRest(m: Command, frag: seq<byte>, pos: nat)
    requires pos <= |frag|
    ensures var q, rest := Commanded(m, frag[..pos]), frag[pos..];
      && Commanded(m, frag) == Commanded(q, rest)
      && (q.stage == Chosen && rest != [] && rest[0] != '?' as int ==>
            Commanded(q, rest) == q.(stage := Setting, r := Receive(NOTHING_YET, rest)))
      && (rest != [] && (q.stage == Asking || (q.stage == Chosen && rest[0] == '?' as int)) ==>
            Commanded(q, rest) == q.(stage := Asking))
      && (q.stage == Setting ==> Commanded(q, rest) == q.(r := Receive(q.r, rest)))
      && (q.stage == Setting && q.r.bad ==> Receive(q.r, rest) == q.r)
      && (rest == [] ==> Commanded(q, rest) == q)
  {
    var q, rest := Commanded(m, frag[..pos]), frag[pos..];
    assert frag == frag[..pos] + rest;
    CommandedAppend(m, frag[..pos], rest);
    if rest != [] {
      if q.stage == Setting {
        SettingReceives(q, rest);
        if q.r.bad {
          BadStays(q.r, rest);
        }
      } else if q.stage == Asking || (q.stage == Chosen && rest[0] == '?' as int) {
        AskingStays(q, rest);
      } else if q.stage == Chosen {
        ChosenReceives(q, rest);
      }
    }
  }

  lemma TidyRest(m: Command, frag: seq<byte>, pos: nat)
    requires pos < |frag| && Tidy(m, frag)
    ensures var q := Commanded(m, frag[..pos]);
      (q.stage == Chosen && frag[pos] != '?' as int ==> TidyText(NOTHING_YET, frag[pos..]))
      && (q.stage == Setting ==> TidyText(q.r, frag[pos..]))
  {
    var q, rest := Commanded(m, frag[..pos]), frag[pos..];
    if q.stage == Setting || (q.stage == Chosen && frag[pos] != '?' as int) {
      var r := if q.stage == Setting then q.r else NOTHING_YET;
      forall k | 0 <= k < |rest| && Receive(r, rest[..k]).padded && !Receive(r, rest[..k]).bad ensures rest[k] == PAD {
        assert frag[..pos + k] == frag[..pos] + rest[..k];
        CommandedAppend(m, frag[..pos], rest[..k]);
        if q.stage == Setting {
          SettingReceives(q, rest[..k]);
        } else if k > 0 {
          ChosenReceives(q, rest[..k]);
        }
      }
    }
  }

  lemma Packed(n: nat, x: nat)
    requires x < PARTIAL
    ensures (n * PARTIAL + x) / PARTIAL == n && (n * PARTIAL + x) % PARTIAL == x
  {
  }

  lemma Refused(r: Receiving, frag: seq<byte>, pos0: nat, pos: nat)
    requires pos0 <= pos < |frag| && frag[pos] != PAD && Unone(frag[pos]) == 255
    ensures var q := Receive(r, frag[pos0..pos]);
      !q.bad ==> Receive(r, frag[pos0..]) == q.(bad := true, got := [])
  {
    TextNext(r, frag, pos0, pos);
    TextJoin(r, frag, pos0, pos + 1, |frag|);
    assert frag[pos0..|frag|] == frag[pos0..];
    if !Receive(r, frag[pos0..pos]).bad {
      BadStays(Receive(r, frag[pos0..pos + 1]), frag[pos + 1..|frag|]);
    }
    hide Receive;
  }

  lemma NothingReceived(r: Receiving)
    ensures Receive(r, []) == r
  {
  }

  lemma UnoneRange(c: byte)
    ensures Unone(c) < 64 || Unone(c) == 255
  {
  }

  lemma TextNext(r: Receiving, frag: seq<byte>, pos0: nat, pos: nat)
    requires pos0 <= pos < |frag|
    ensures Receive(r, frag[pos0..pos + 1]) == ReceiveChar(Receive(r, frag[pos0..pos]), frag[pos])
    ensures TidyText(r, frag[pos0..]) && Receive(r, frag[pos0..pos]).padded && !Receive(r, frag[pos0..pos]).bad ==>
      frag[pos] == PAD
  {
    assert frag[pos0..pos + 1][..pos - pos0] == frag[pos0..pos];
    assert frag[pos0..][..pos - pos0] == frag[pos0..pos] && frag[pos0..][pos - pos0] == frag[pos];
  }

  lemma TextJoin(r: Receiving, frag: seq<byte>, pos0: nat, pos: nat, end: nat)
    requires pos0 <= pos <= end <= |frag|
    ensures Receive(r, frag[pos0..end]) == Receive(Receive(r, frag[pos0..pos]), frag[pos..end])
  {
    assert frag[pos0..end] == frag[pos0..pos] + frag[pos..end];
    ReceiveAppend(r, frag[pos0..pos], frag[pos..end]);
  }

  /** At most three sextets are held. */
  predicate Few(n: nat, x: nat) {
    n < 4 && x < 0x4_0000 && (n == 1 ==> x < 0x40) && (n == 2 ==> x < 0x1000)
  }

  // ---- From one terminal to another ----

  predicate Printable(s: seq<byte>) {
    forall i :: 0 <= i < |s| ==> 0x20 <= s[i] < DEL
  }

  lemma QuadPrintable(x: nat)
    ensures Printable(Quad(x))
  {
    forall i: nat | i < 4 {
      OneUnone(Sextet(x, i));
    }
    hide One, Sextet;
  }

  lemma {:induction false} EncodesPrintable(s: seq<byte>)
    ensures Printable(Encode(s))
  {
    if |s| < 3 {
      var x := if |s| == 1 then Value(s) * 0x1_0000 else Value(s) * 0x100;
      QuadPrintable(x);
      forall i: nat | i < 3 ensures Quad(x)[i] == One(Sextet(x, i)) {
      }
      hide One, Sextet, Value;
    } else {
      QuadPrintable(Value(s[..3]));
      EncodesPrintable(s[3..]);
      hide Quad, Value;
    }
  }

  /** A selection sent in fragments is one operating system command to the parser of another
      terminal, and in whatever pieces that is delivered, the bytes arrive. */
  method Transfer(sender: Sender, receiver: Receiver, fragments: seq<seq<byte>>, target: byte, pieces: seq<seq<byte>>,
                  ghost m: P.Machine, ghost config: P.Config)
    requires sender.Valid() && receiver.Ready() && fragments != [] && pieces != []
    requires forall i :: 0 <= i < |fragments| ==> SevenBit(fragments[i])
    requires 0x20 <= target < DEL && TargetsOf(target) != {} && m.mode.Normal? && !m.inEsc
    requires Concat(pieces) == [target, ';' as int] + Encode(Concat(fragments))
    modifies sender, sender.buffer, receiver, receiver.buffer
    ensures |sender.out| >= |old(sender.out)|
    ensures P.Run(m, sender.out[|old(sender.out)|..], config) ==
      P.Machine(P.Normal, false, [], m.out + [P.Str(P.Osc(52), Concat(pieces))])
    ensures receiver.received == Concat(fragments) && receiver.mask == TargetsOf(target)
  {
    hide *;
    var bytes := Concat(fragments);
    sender.SendAll(fragments, target);
    AllAppended(old(sender.out), Header(target), Encode(bytes), ST);
    SelectionSent(m, config, target, bytes);
    receiver.Deliver(pieces, target, bytes);
  }

  lemma AllAppended(a: seq<byte>, b: seq<byte>, c: seq<byte>, d: seq<byte>)
    ensures (a + b + c + d)[|a|..] == b + c + d
  {
  }

  lemma SelectionSent(m: P.Machine, config: P.Config, target: byte, bytes: seq<byte>)
    requires m.mode.Normal? && !m.inEsc && 0x20 <= target < DEL
    ensures P.Run(m, Header(target) + Encode(bytes) + ST, config) ==
      P.Machine(P.Normal, false, [], m.out + [P.Str(P.Osc(52), [target, ';' as int] + Encode(bytes))])
  {
    EncodesPrintable(bytes);
    hide Encode;
    SelectionParses(m, config, target, Encode(bytes));
  }
}
