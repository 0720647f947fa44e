/** Base64 as selections are sent and received: text of four characters for three bytes, sent
    and received in fragments and through small buffers. */
module Base64 {
  import opened Seqs
  import opened Bytes

  const PAD: byte := 0x3d

  function One(b: nat): (c: byte)
    requires b < 64
  {
    if b < 26 then 0x41 + b
    else if b < 52 then 0x61 + (b - 26)
    else if b < 62 then 0x30 + (b - 52)
    else if b == 62 then 0x2b
    else 0x2f
  }

  /** The value of a character, or 255. */
  function Unone(c: byte): (b: byte) {
    if 0x41 <= c <= 0x5a then c - 0x41
    else if 0x61 <= c <= 0x7a then c - 0x61 + 26
    else if 0x30 <= c <= 0x39 then c - 0x30 + 52
    else if c == 0x2b then 62
    else if c == 0x2f then 63
    else 255
  }

  lemma OneUnone(b: nat)
    requires b < 64
    ensures Unone(One(b)) == b && One(b) != PAD && 0x20 <= One(b) < DEL
  {
  }

  /** Sextet `i` of a 24-bit group, the first at 0. */
  function Sextet(x: nat, i: nat): (s: nat)
    requires i < 4
    ensures s < 64
  {
    match i
    case 0 => x / 0x4_0000 % 64
    case 1 => x / 0x1000 % 64
    case 2 => x / 0x40 % 64
    case _ => x % 64
  }

  function Quad(x: nat): (s: seq<byte>)
    ensures |s| == 4
  {
    [One(Sextet(x, 0)), One(Sextet(x, 1)), One(Sextet(x, 2)), One(Sextet(x, 3))]
  }

  /** The last group, of `n` bytes. */
  function Padded(x: nat, n: nat): (s: seq<byte>)
  {
    if n == 0 then []
    else if n == 1 then [One(Sextet(x * 0x1_0000, 0)), One(Sextet(x * 0x1_0000, 1)), PAD, PAD]
    else [One(Sextet(x * 0x100, 0)), One(Sextet(x * 0x100, 1)), One(Sextet(x * 0x100, 2)), PAD]
  }

  function Value(s: seq<byte>): nat {
    if s == [] then 0 else Value(s[..|s| - 1]) * 256 + s[|s| - 1]
  }

  /** Section 4 of RFC 4648. */
  function Encode(s: seq<byte>): seq<byte> {
    if |s| < 3 then Padded(Value(s), |s|) else Quad(Value(s[..3])) + Encode(s[3..])
  }

  // ---- Sending, byte by byte ----

  datatype Sending = Sending(n: nat, x: nat, out: seq<byte>)

  function SendByte(s: Sending, c: byte): Sending {
    var x := s.x * 256 + c;
    if s.n == 2 then Sending(0, 0, s.out + Quad(x)) else Sending(s.n + 1, x, s.out)
  }

  function Send(s: Sending, bytes: seq<byte>): Sending {
    if bytes == [] then s else SendByte(Send(s, bytes[..|bytes| - 1]), bytes[|bytes| - 1])
  }

  lemma {:induction false} SendAppend(s: Sending, a: seq<byte>, b: seq<byte>)
    ensures Send(s, a + b) == Send(Send(s, a), b)
  {
    if b == [] {
      assert a + b == a;
    } else {
      assert (a + b)[..|a + b| - 1] == a + b[..|b| - 1];
      SendAppend(s, a, b[..|b| - 1]);
    }
  }

  function Finish(s: Sending): seq<byte> { s.out + Padded(s.x, s.n) }

  lemma {:induction false} SendFew(out: seq<byte>, s: seq<byte>)
    requires |s| <= 3
    ensures Send(Sending(0, 0, out), s) ==
      if |s| < 3 then Sending(|s|, Value(s), out) else Sending(0, 0, out + Quad(Value(s)))
  {
    hide Quad;
    if s != [] {
      SendFew(out, s[..|s| - 1]);
    }
  }

  /** Whatever the fragments, what is sent is the encoding of all the bytes. */
  lemma {:induction false} SendsEncoding(out: seq<byte>, s: seq<byte>)
    ensures Finish(Send(Sending(0, 0, out), s)) == out + Encode(s)
    decreases |s|
  {
    if |s| < 3 {
      SendFew(out, s);
    } else {
      SendFew(out, s[..3]);
      assert s == s[..3] + s[3..];
      SendAppend(Sending(0, 0, out), s[..3], s[3..]);
      SendsEncoding(out + Quad(Value(s[..3])), s[3..]);
      AppendAssoc(out, Quad(Value(s[..3])), Encode(s[3..]));
    }
  }

  // ---- Receiving, character by character ----

  /** `padded` says that padding has come, after which nothing but padding is meant to. */
  datatype Receiving = Receiving(n: nat, x: nat, got: seq<byte>, bad: bool, padded: bool)

  const NOTHING_YET := Receiving(0, 0, [], false, false)

  function PadBytes(n: nat, x: nat): seq<byte> {
    if n == 2 then [x / 16 % 256] else if n == 3 then [x / 1024 % 256, x / 4 % 256] else []
  }

  function GroupBytes(x: nat): seq<byte> {
    [x / 0x1_0000 % 256, x / 0x100 % 256, x % 256]
  }

  function ReceiveChar(r: Receiving, c: byte): Receiving {
    if r.bad then r
    else if c == PAD then Receiving(0, 0, r.got + PadBytes(r.n, r.x), false, true)
    else if Unone(c) == 255 then r.(bad := true, got := [])
    else
      var x := r.x * 64 + Unone(c);
      if r.n == 3 then r.(n := 0, x := 0, got := r.got + GroupBytes(x)) else r.(n := r.n + 1, x := x)
  }

  function Receive(r: Receiving, chars: seq<byte>): Receiving {
    if chars == [] then r else ReceiveChar(Receive(r, chars[..|chars| - 1]), chars[|chars| - 1])
  }

  lemma {:induction false} ReceiveAppend(r: Receiving, a: seq<byte>, b: seq<byte>)
    ensures Receive(r, a + b) == Receive(Receive(r, a), b)
  {
    if b == [] {
      assert a + b == a;
    } else {
      assert (a + b)[..|a + b| - 1] == a + b[..|b| - 1];
      ReceiveAppend(r, a, b[..|b| - 1]);
    }
  }

  lemma ReceiveOne(r: Receiving, c: byte)
    ensures Receive(r, [c]) == ReceiveChar(r, c)
  {
    assert [c][..0] == [];
  }

  lemma ReceiveFour(r: Receiving, s: seq<byte>)
    requires |s| == 4
    ensures Receive(r, s) == ReceiveChar(ReceiveChar(ReceiveChar(ReceiveChar(r, s[0]), s[1]), s[2]), s[3])
  {
    hide ReceiveChar, Receive;
    ReceiveOne(r, s[0]);
    ReceiveSnoc(r, s, 1);
    ReceiveSnoc(r, s, 2);
    ReceiveSnoc(r, s, 3);
    assert s[..1] == [s[0]] && s[..4] == s;
  }

  lemma ReceiveSnoc(r: Receiving, s: seq<byte>, k: nat)
    requires k < |s|
    ensures Receive(r, s[..k + 1]) == ReceiveChar(Receive(r, s[..k]), s[k])
  {
    assert s[..k + 1][..k] == s[..k];
  }

  /** The sextets of a 24-bit group put it together again. */
  lemma SextetsJoin(x: nat)
    requires x < 0x100_0000
    ensures ((Sextet(x, 0) * 64 + Sextet(x, 1)) * 64 + Sextet(x, 2)) * 64 + Sextet(x, 3) == x
  {
    var a, b, c := x / 64, x / 64 / 64, x / 64 / 64 / 64;
    assert a == x / 0x40 && b == x / 0x1000 && c == x / 0x4_0000;
  }

  lemma ValueThree(s: seq<byte>)
    requires |s| == 3
    ensures Value(s) == (s[0] as int * 256 + s[1]) * 256 + s[2]
  {
    assert s[..2][..1][..0] == [] && s[..2][..1] == [s[0]] && s[..2] == [s[0], s[1]];
    assert Value([s[0]]) == s[0];
    assert Value([s[0], s[1]]) == s[0] as int * 256 + s[1];
  }

  lemma Split256(q: nat, r: nat)
    requires r < 256
    ensures (q * 256 + r) / 256 == q && (q * 256 + r) % 256 == r
  {
  }

  lemma Twice256(x: nat)
    ensures x / 0x1_0000 == x / 256 / 256
  {
  }

  lemma GroupOfThree(a: nat, b: nat, c: nat)
    requires a < 256 && b < 256 && c < 256
    ensures var x := (a * 256 + b) * 256 + c;
      x < 0x100_0000 && x / 0x1_0000 % 256 == a && x / 0x100 % 256 == b && x % 256 == c
  {
    var x := (a * 256 + b) * 256 + c;
    Split256(a * 256 + b, c);
    Split256(a, b);
    Twice256(x);
  }

  lemma GroupRestores(s: seq<byte>)
    requires |s| == 3
    ensures Value(s) < 0x100_0000 && GroupBytes(Value(s)) == s
  {
    ValueThree(s);
    GroupOfThree(s[0], s[1], s[2]);
    hide Value;
  }

  lemma QuadReceived(r: Receiving, x: nat)
    requires !r.bad && r.n == 0 && r.x == 0 && x < 0x100_0000
    ensures Receive(r, Quad(x)) == r.(got := r.got + GroupBytes(x))
  {
    SextetsJoin(x);
    forall i | 0 <= i < 4 ensures Unone(One(Sextet(x, i))) == Sextet(x, i) && One(Sextet(x, i)) != PAD {
      OneUnone(Sextet(x, i));
    }
    hide Sextet, One, Unone, GroupBytes;
    ReceiveFour(r, Quad(x));
  }

  lemma OneByteSextets(a: nat)
    requires a < 256
    ensures var x := a * 0x1_0000; (Sextet(x, 0) * 64 + Sextet(x, 1)) / 16 % 256 == a
  {
    var x := a * 0x1_0000;
    assert Sextet(x, 0) == a / 4 && Sextet(x, 1) == a % 4 * 16;
  }

  lemma TwoByteSextets(a: nat, b: nat)
    requires a < 256 && b < 256
    ensures var x := (a * 256 + b) * 0x100; var y := (Sextet(x, 0) * 64 + Sextet(x, 1)) * 64 + Sextet(x, 2);
      y / 1024 % 256 == a && y / 4 % 256 == b
  {
    var v := a * 256 + b;
    var x := v * 0x100;
    TopSextets(a, b);
    hide Sextet;
    var y := (Sextet(x, 0) * 64 + Sextet(x, 1)) * 64 + Sextet(x, 2);
    assert y == v * 4;
    Split256(a, b);
    assert y / 4 == v && y / 1024 == v / 256;
  }

  /** The sextets of 16 bits in front of 8 empty ones, put together. */
  lemma TopSextets(a: nat, b: nat)
    requires a < 256 && b < 256
    ensures var x := (a * 256 + b) * 0x100;
      (Sextet(x, 0) * 64 + Sextet(x, 1)) * 64 + Sextet(x, 2) == (a * 256 + b) * 4
  {
    var w := (a * 256 + b) * 4;
    SextetsOf(w);
    assert (a * 256 + b) * 0x100 == w * 64;
  }

  lemma SextetsOf(w: nat)
    requires w < 0x4_0000
    ensures (Sextet(w * 64, 0) * 64 + Sextet(w * 64, 1)) * 64 + Sextet(w * 64, 2) == w
  {
    var q := w / 64;
    assert w * 64 / 0x40 == w;
    assert w * 64 / 0x1000 == q;
    assert w * 64 / 0x4_0000 == q / 64;
    assert q / 64 < 64;
  }

  lemma OnePadded(r: Receiving, a: byte)
    requires !r.bad && r.n == 0 && r.x == 0
    ensures var e := Receive(r, Padded(a, 1)); e.got == r.got + [a] && !e.bad
  {
    var x: nat := a * 0x1_0000;
    OneByteSextets(a);
    OneUnone(Sextet(x, 0));
    OneUnone(Sextet(x, 1));
    ReceiveFour(r, Padded(a, 1));
    hide Sextet, One, Unone, Receive;
    assert r.got + [a] + [] == r.got + [a];
  }

  lemma ThreeThenPad(r: Receiving, c: byte, d: byte, e: byte)
    requires !r.bad && r.n == 0 && r.x == 0 && PAD !in [c, d, e]
    requires Unone(c) != 255 && Unone(d) != 255 && Unone(e) != 255
    ensures var x: nat := (Unone(c) * 64 + Unone(d)) * 64 + Unone(e);
      var f := Receive(r, [c, d, e, PAD]); f.got == r.got + PadBytes(3, x) && !f.bad
  {
    ReceiveFour(r, [c, d, e, PAD]);
    hide Unone, Receive, PadBytes;
  }

  lemma TwoPadded(r: Receiving, a: byte, b: byte)
    requires !r.bad && r.n == 0 && r.x == 0
    ensures var e := Receive(r, Padded(a as int * 256 + b, 2)); e.got == r.got + [a, b] && !e.bad
  {
    var v: nat := a as int * 256 + b;
    var x: nat := v * 0x100;
    TwoByteSextets(a, b);
    OneUnone(Sextet(x, 0));
    OneUnone(Sextet(x, 1));
    OneUnone(Sextet(x, 2));
    hide Sextet, One, Unone, Receive;
    ThreeThenPad(r, One(Sextet(x, 0)), One(Sextet(x, 1)), One(Sextet(x, 2)));
  }

  lemma ValueTwo(s: seq<byte>)
    requires |s| == 2
    ensures Value(s) == s[0] as int * 256 + s[1]
  {
    assert s[..1] == [s[0]] && s[..1][..0] == [];
    assert Value(s[..1]) == s[0];
  }

  lemma NonePadded(r: Receiving)
    ensures Value([]) == 0 && Receive(r, Padded(0, 0)) == r && r.got + [] == r.got
  {
  }

  lemma ValueOne(s: seq<byte>)
    requires |s| == 1
    ensures Value(s) == s[0]
  {
    assert s[..0] == [];
  }

  lemma PaddedReceived(r: Receiving, s: seq<byte>)
    requires !r.bad && r.n == 0 && r.x == 0 && |s| < 3
    ensures Receive(r, Padded(Value(s), |s|)).got == r.got + s
    ensures !Receive(r, Padded(Value(s), |s|)).bad
  {
    hide Receive, Padded, Value, ReceiveChar;
    if |s| == 0 {
      NonePadded(r);
    } else if |s| == 1 {
      ValueOne(s);
      OnePadded(r, s[0]);
      assert s == [s[0]];
    } else {
      ValueTwo(s);
      TwoPadded(r, s[0], s[1]);
      assert s == [s[0], s[1]];
    }
  }

  /** What is received from an encoding is what was encoded. */
  lemma {:induction false} RoundTrip(r: Receiving, s: seq<byte>)
    requires !r.bad && r.n == 0 && r.x == 0
    ensures Receive(r, Encode(s)).got == r.got + s && !Receive(r, Encode(s)).bad
    decreases |s|
  {
    hide ReceiveChar, Quad, Padded, Receive;
    if |s| < 3 {
      PaddedReceived(r, s);
    } else {
      GroupRestores(s[..3]);
      QuadReceived(r, Value(s[..3]));
      ReceiveAppend(r, Quad(Value(s[..3])), Encode(s[3..]));
      RoundTrip(r.(got := r.got + s[..3]), s[3..]);
      assert r.got + s[..3] + s[3..] == r.got + s;
    }
  }
}
