/** UTF-8 both ways: the encoder that replies use, and the decoder that carries a character cut
    by the end of its input over to the next call. */
module Utf8 {
  import opened Seqs
  import opened Bytes

  const INVALID := 0xfffd
  const MAX_CODE := 0x7fff_ffff

  // ---- Encoding ----

  function Length(cp: nat): (n: nat)
    ensures 1 <= n <= 6
  {
    if cp < 0x80 then 1
    else if cp < 0x800 then 2
    else if cp < 0x1_0000 then 3
    else if cp < 0x20_0000 then 4
    else if cp < 0x400_0000 then 5
    else 6
  }

  /** The bits that the first of `n` bytes starts with. */
  function LeadMark(n: nat): (b: byte)
    requires 1 <= n <= 6
  {
    match n
    case 1 => 0
    case 2 => 0xc0
    case 3 => 0xe0
    case 4 => 0xf0
    case 5 => 0xf8
    case _ => 0xfc
  }

  /** How many values the first of `n` bytes has room for. */
  function LeadRoom(n: nat): (r: nat)
    requires 1 <= n <= 6
    ensures LeadMark(n) + r <= 256
  {
    match n
    case 1 => 0x80
    case 2 => 0x20
    case 3 => 0x10
    case 4 => 0x08
    case 5 => 0x04
    case _ => 0x02
  }

  /** What is left of a code point for the first byte, and the bytes that follow it. */
  function High(cp: nat, n: nat): nat {
    if n <= 1 then cp else High(cp / 64, n - 1)
  }

  function Trail(cp: nat, n: nat): (s: seq<byte>)
    ensures |s| == if n <= 1 then 0 else n - 1
  {
    if n <= 1 then [] else Trail(cp / 64, n - 1) + [0x80 + cp % 64]
  }

  function EncodeIn(cp: nat, n: nat): (s: seq<byte>)
    requires 1 <= n <= 6
    ensures |s| == n
  {
    [LeadMark(n) + High(cp, n) % LeadRoom(n)] + Trail(cp, n)
  }

  function Encode(cp: nat): seq<byte> { EncodeIn(cp, Length(cp)) }

  lemma TrailNext(cp: nat, b: nat, done: seq<byte>)
    ensures Trail(cp, b + 1) == if b == 0 then [] else Trail(cp / 64, b) + [0x80 + cp % 64]
    ensures High(cp, b + 1) == if b == 0 then cp else High(cp / 64, b)
    ensures b > 0 ==> Trail(cp, b + 1) + done == Trail(cp / 64, b) + ([0x80 + cp % 64] + done)
  {
    if b > 0 {
      AppendAssoc(Trail(cp / 64, b), [0x80 + cp % 64], done);
    }
  }

  /** Fills the buffer from its end; `str` gets the encoding and nothing after it changes. */
  method FillUtf8(codepoint: nat, str: array<byte>) returns (nbytes: nat)
    requires str.Length >= Length(codepoint)
    modifies str
    ensures nbytes == Length(codepoint)
    ensures str[..nbytes] == Encode(codepoint) && str[nbytes..] == old(str[nbytes..])
  {
    hide High, Trail;
    nbytes := Length(codepoint);
    var b: nat, cp: nat := nbytes, codepoint;
    while b > 1
      invariant 1 <= b <= nbytes
      invariant High(cp, b) == High(codepoint, nbytes)
      invariant Trail(cp, b) + str[b..nbytes] == Trail(codepoint, nbytes)
      invariant forall k :: nbytes <= k < str.Length ==> str[k] == old(str[k])
    {
      ghost var done := str[b..nbytes];
      b := b - 1;
      TrailNext(cp, b, done);
      str[b] := 0x80 + cp % 64;
      assert str[b..nbytes] == [str[b]] + done;
      cp := cp / 64;
    }
    TrailNext(cp, 0, []);
    str[0] := LeadMark(nbytes) + cp % LeadRoom(nbytes);
    assert str[1..nbytes] == Trail(codepoint, nbytes);
    assert str[..nbytes] == [str[0]] + str[1..nbytes];
  }

  // ---- Decoding ----

  /** The decoder's state: the bytes still to come of a character, how many it has in all, and
      its value so far. */
  datatype Decoder = Decoder(remaining: nat, total: nat, cp: nat) {
    /** The value fits the bytes there have been, so that it never overflows. */
    predicate Valid() {
      remaining > 0 ==> 2 <= total <= 6 && remaining < total && cp < Room(total, total - remaining)
    }
  }

  /** The values that the first `k` of `n` bytes have room for. */
  function Room(n: nat, k: nat): nat
    requires 1 <= n <= 6
  {
    if k <= 1 then LeadRoom(n) else 64 * Room(n, k - 1)
  }

  datatype Decoded = Decoded(d: Decoder, out: seq<nat>)

  predicate IsText(c: byte) { c >= 0x20 && c != DEL }

  predicate Overlong(cp: nat, total: nat) {
    || (total == 2 && cp < 0x80) || (total == 3 && cp < 0x800) || (total == 4 && cp < 0x1_0000)
    || (total == 5 && cp < 0x20_0000) || (total == 6 && cp < 0x400_0000)
  }

  predicate Forbidden(cp: nat) {
    0xd800 <= cp <= 0xdfff || cp == 0xfffe || cp == 0xffff
  }

  function Finished(cp: nat, total: nat): nat {
    if Overlong(cp, total) || Forbidden(cp) then INVALID else cp
  }

  function LeadLength(c: byte): nat {
    if c < 0xc0 then 0
    else if c < 0xe0 then 2
    else if c < 0xf0 then 3
    else if c < 0xf8 then 4
    else if c < 0xfc then 5
    else if c < 0xfe then 6
    else 0
  }

  /** One byte of text: the next state, and what is decoded by it. */
  function Step(d: Decoder, c: byte): Decoded {
    var cut := if d.remaining > 0 then [INVALID] else [];
    var n := LeadLength(c);
    if c < 0x80 then Decoded(d.(remaining := 0), cut + [c])
    else if c < 0xc0 then
      (if d.remaining == 0 then Decoded(d, [INVALID])
       else
         var cp := d.cp * 64 + (c - 0x80);
         if d.remaining > 1 then Decoded(d.(remaining := d.remaining - 1, cp := cp), [])
         else Decoded(d.(remaining := 0, cp := Finished(cp, d.total)), [Finished(cp, d.total)]))
    else if n > 0 then Decoded(Decoder(n - 1, n, c - LeadMark(n)), cut)
    else Decoded(d, [INVALID])
  }

  function Run(d: Decoder, bytes: seq<byte>): Decoded {
    if bytes == [] then Decoded(d, [])
    else
      var was := Run(d, bytes[..|bytes| - 1]);
      var now := Step(was.d, bytes[|bytes| - 1]);
      Decoded(now.d, was.out + now.out)
  }

  lemma {:induction false} RunAppend(d: Decoder, a: seq<byte>, b: seq<byte>)
    ensures var first := Run(d, a); var second := Run(first.d, b);
      Run(d, a + b) == Decoded(second.d, first.out + second.out)
  {
    if b == [] {
      assert a + b == a && Run(d, a).out + [] == Run(d, a).out;
    } else {
      var init, last := b[..|b| - 1], b[|b| - 1];
      assert (a + b)[..|a + b| - 1] == a + init;
      RunAppend(d, a, init);
      AppendAssoc(Run(d, a).out, Run(Run(d, a).d, init).out, Step(Run(Run(d, a).d, init).d, last).out);
    }
  }

  lemma StepValid(d: Decoder, c: byte)
    requires d.Valid()
    ensures Step(d, c).d.Valid()
  {
  }

  /** No value in the making exceeds the largest that six bytes can hold. */
  lemma ValueFits(d: Decoder)
    requires d.Valid() && d.remaining > 0
    ensures d.cp <= MAX_CODE
  {
    assert Room(6, 5) == 0x2 * 64 * 64 * 64 * 64;
  }

  /** However the bytes come, the decoder stays valid, and its value is one that six bytes can hold. */
  lemma {:induction false} RunValid(d: Decoder, bytes: seq<byte>)
    requires d.Valid()
    ensures Run(d, bytes).d.Valid()
    ensures Run(d, bytes).d.remaining > 0 ==> Run(d, bytes).d.cp <= MAX_CODE
  {
    if bytes != [] {
      RunValid(d, bytes[..|bytes| - 1]);
      StepValid(Run(d, bytes[..|bytes| - 1]).d, bytes[|bytes| - 1]);
    }
    if Run(d, bytes).d.remaining > 0 {
      ValueFits(Run(d, bytes).d);
    }
  }

  // ---- Round trips ----

  /** The code points that a terminal shows. */
  predicate Shown(cp: nat) {
    0x20 <= cp <= MAX_CODE && cp != 0x7f && !Forbidden(cp)
  }

  lemma {:induction false} HighFits(cp: nat, n: nat, k: nat)
    requires 1 <= n <= 6 && k >= 1 && cp < Room(n, k)
    ensures High(cp, k) < LeadRoom(n)
  {
    if k > 1 {
      HighFits(cp / 64, n, k - 1);
    }
  }

  lemma LengthFits(cp: nat, n: nat)
    requires 2 <= n <= 6
    ensures Room(2, 2) == 0x800 && Room(3, 3) == 0x1_0000 && Room(4, 4) == 0x20_0000
    ensures Room(5, 5) == 0x400_0000 && Room(6, 6) == MAX_CODE + 1
    ensures cp < Room(n, n) && !Overlong(cp, n) <==> Length(cp) == n && cp <= MAX_CODE
  {
    assert Room(4, 4) == 64 * 64 * 64 * 8;
    assert Room(5, 5) == 64 * 64 * 64 * 64 * 4;
    assert Room(6, 6) == 64 * 64 * 64 * 64 * 64 * 2;
  }

  lemma RunOne(d: Decoder, c: byte)
    ensures Run(d, [c]) == Step(d, c)
  {
    assert [c][..0] == [];
    assert [] + Step(d, c).out == Step(d, c).out;
  }

  /** Continuation bytes rebuild the value they were cut from. */
  lemma {:induction false} TrailDecodes(cp: nat, m: nat, remaining: nat, n: nat)
    requires m >= 1 && remaining >= m - 1 && remaining > 0
    ensures Run(Decoder(remaining, n, High(cp, m)), Trail(cp, m)) ==
      if remaining > m - 1 then Decoded(Decoder(remaining - (m - 1), n, cp), [])
      else Decoded(Decoder(0, n, Finished(cp, n)), [Finished(cp, n)])
  {
    if m > 1 {
      var init := Trail(cp / 64, m - 1);
      TrailDecodes(cp / 64, m - 1, remaining, n);
      assert Trail(cp, m)[..m - 2] == init;
      hide Finished;
    }
  }

  lemma LeadDecodes(d: Decoder, n: nat, h: nat)
    requires d.remaining == 0 && 2 <= n <= 6 && h < LeadRoom(n)
    ensures Step(d, LeadMark(n) + h) == Decoded(Decoder(n - 1, n, h), [])
  {
  }

  lemma RoundTripOne(d: Decoder, cp: nat)
    requires d.remaining == 0 && Shown(cp)
    ensures var r := Run(d, Encode(cp)); r.d.remaining == 0 && r.out == [cp]
  {
    hide Run, High, Trail, Room, Step;
    var n := Length(cp);
    if n == 1 {
      AsciiEncodes(cp);
      RunOne(d, cp);
      AsciiDecodes(d, cp);
    } else {
      LengthFits(cp, n);
      HighFits(cp, n, n);
      var h := High(cp, n);
      LeadDecodes(d, n, h);
      RunOne(d, LeadMark(n) + h);
      TrailDecodes(cp, n, n - 1, n);
      RunAppend(d, [LeadMark(n) + h], Trail(cp, n));
      assert [] + [cp] == [cp];
    }
  }

  lemma AsciiEncodes(cp: nat)
    requires cp < 0x80
    ensures Encode(cp) == [cp]
  {
  }

  lemma AsciiDecodes(d: Decoder, c: byte)
    requires d.remaining == 0 && c < 0x80
    ensures Step(d, c) == Decoded(d, [c])
  {
  }

  function EncodeAll(cps: seq<nat>): seq<byte> {
    if cps == [] then [] else EncodeAll(cps[..|cps| - 1]) + Encode(cps[|cps| - 1])
  }

  /** Decoding what was encoded gives back every code point. */
  lemma {:induction false} RoundTrip(d: Decoder, cps: seq<nat>)
    requires d.remaining == 0 && forall i :: 0 <= i < |cps| ==> Shown(cps[i])
    ensures var r := Run(d, EncodeAll(cps)); r.d.remaining == 0 && r.out == cps
  {
    if cps == [] {
      assert EncodeAll(cps) == [];
    } else {
      var init, last := cps[..|cps| - 1], cps[|cps| - 1];
      assert cps == init + [last];
      hide Encode, Step, Run, Shown, Decoder.Valid;
      RoundTrip(d, init);
      RunAppend(d, EncodeAll(init), Encode(last));
      RoundTripOne(Run(d, EncodeAll(init)).d, last);
    }
  }

  lemma {:induction false} TrailContinues(cp: nat, n: nat)
    ensures forall i :: 0 <= i < |Trail(cp, n)| ==> 0x80 <= Trail(cp, n)[i] < 0xc0
  {
    if n > 1 {
      TrailContinues(cp / 64, n - 1);
    }
  }

  /** What is encoded is text, with no control in it. */
  lemma EncodesText(cp: nat)
    requires Shown(cp)
    ensures forall i :: 0 <= i < |Encode(cp)| ==> IsText(Encode(cp)[i])
  {
    if cp < 0x80 {
      AsciiEncodes(cp);
    } else {
      TrailContinues(cp, Length(cp));
      hide Trail, High;
    }
  }

  lemma {:induction false} EncodeAllText(cps: seq<nat>)
    requires forall i :: 0 <= i < |cps| ==> Shown(cps[i])
    ensures forall i :: 0 <= i < |EncodeAll(cps)| ==> IsText(EncodeAll(cps)[i])
  {
    if cps != [] {
      hide Encode, Shown, IsText;
      EncodeAllText(cps[..|cps| - 1]);
      EncodesText(cps[|cps| - 1]);
    }
  }

  /** Chunks hold what their concatenation does. */
  lemma ChunkText(chunks: seq<seq<byte>>, i: nat)
    requires i < |chunks| && forall k :: 0 <= k < |Concat(chunks)| ==> IsText(Concat(chunks)[k])
    ensures forall k :: 0 <= k < |chunks[i]| ==> IsText(chunks[i][k])
  {
    ConcatNext(chunks, i);
    var before := Concat(chunks[..i]);
    forall k | 0 <= k < |chunks[i]| ensures IsText(chunks[i][k]) {
      assert chunks[i][k] == Concat(chunks)[|before| + k];
    }
  }

  // ---- Whatever the bytes ----

  /** The first `k` of the `n` bytes of a character whose value so far is `cp`. */
  function Part(cp: nat, n: nat, k: nat): seq<byte>
    requires 1 <= n <= 6
  {
    [LeadMark(n) + High(cp, k) % LeadRoom(n)] + Trail(cp, k)
  }

  /** A character in the making is spelt by the bytes that came last. */
  predicate SpeltBy(d: Decoder, bytes: seq<byte>)
    requires d.Valid()
  {
    d.remaining > 0 ==>
      var k := d.total - d.remaining;
      k <= |bytes| && bytes[|bytes| - k..] == Part(d.cp, d.total, k)
  }

  predicate EndsWith(bytes: seq<byte>, s: seq<byte>) {
    |s| <= |bytes| && bytes[|bytes| - |s|..] == s
  }

  lemma PartNext(cp: nat, n: nat, k: nat, c: byte)
    requires 1 <= n <= 6 && k >= 1 && 0x80 <= c < 0xc0
    ensures Part(cp * 64 + (c - 0x80), n, k + 1) == Part(cp, n, k) + [c]
  {
    var next := cp * 64 + (c - 0x80);
    assert next / 64 == cp && next % 64 == c - 0x80;
    AppendAssoc([LeadMark(n) + High(cp, k) % LeadRoom(n)], Trail(cp, k), [c]);
  }

  lemma TailSnoc(bytes: seq<byte>, k: nat, c: byte)
    requires k <= |bytes|
    ensures (bytes + [c])[|bytes| - k..] == bytes[|bytes| - k..] + [c]
  {
  }

  /** What a step does to what has been spelt. */
  ghost predicate Spells(d: Decoder, bytes: seq<byte>, c: byte)
    requires Step(d, c).d.Valid()
  {
    && SpeltBy(Step(d, c).d, bytes + [c])
    && forall v :: v in Step(d, c).out && v != INVALID && IsText(c) ==> !Forbidden(v) && EndsWith(bytes + [c], Encode(v))
  }

  lemma LeadSpells(d: Decoder, bytes: seq<byte>, c: byte)
    requires d.Valid() && LeadLength(c) > 0
    ensures Step(d, c).d.Valid() && Spells(d, bytes, c)
  {
    var n := LeadLength(c);
    assert Part(c - LeadMark(n), n, 1) == [c];
    hide Part, Encode;
  }

  lemma AsciiSpells(d: Decoder, bytes: seq<byte>, c: byte)
    requires d.Valid() && c < 0x80
    ensures Step(d, c).d.Valid() && Spells(d, bytes, c)
  {
    AsciiEncodes(c);
    hide Encode, Part;
  }

  lemma ContinuationSpells(d: Decoder, bytes: seq<byte>, c: byte)
    requires d.Valid() && SpeltBy(d, bytes) && 0x80 <= c < 0xc0
    ensures Step(d, c).d.Valid() && Spells(d, bytes, c)
  {
    StepValid(d, c);
    if d.remaining > 0 {
      Continued(d, bytes, c);
    }
    hide Encode, Part, Room;
  }

  lemma StepSpells(d: Decoder, bytes: seq<byte>, c: byte)
    requires d.Valid() && SpeltBy(d, bytes) && !Stray(c)
    ensures Step(d, c).d.Valid() && Spells(d, bytes, c)
  {
    if c < 0x80 {
      AsciiSpells(d, bytes, c);
    } else if c < 0xc0 {
      ContinuationSpells(d, bytes, c);
    } else if LeadLength(c) > 0 {
      LeadSpells(d, bytes, c);
    } else {
      assert false;
    }
  }

  lemma Continued(d: Decoder, bytes: seq<byte>, c: byte)
    requires d.Valid() && SpeltBy(d, bytes) && d.remaining > 0 && 0x80 <= c < 0xc0
    ensures var cp, k := d.cp * 64 + (c - 0x80), d.total - d.remaining;
      && EndsWith(bytes + [c], Part(cp, d.total, k + 1)) && |Part(cp, d.total, k + 1)| == k + 1
      && (d.remaining == 1 && !Overlong(cp, d.total) ==> Encode(cp) == Part(cp, d.total, k + 1))
  {
    var cp, k := d.cp * 64 + (c - 0x80), d.total - d.remaining;
    PartNext(d.cp, d.total, k, c);
    TailSnoc(bytes, k, c);
    assert cp < Room(d.total, k + 1);
    LengthFits(cp, d.total);
  }

  /** The bytes that never occur in UTF-8. The decoder answers one with a replacement character
      and goes on with the character it was in. */
  predicate Stray(c: byte) { c >= 0xfe }

  function Strip(bytes: seq<byte>): seq<byte> {
    if bytes == [] then []
    else Strip(bytes[..|bytes| - 1]) + (if Stray(bytes[|bytes| - 1]) then [] else [bytes[|bytes| - 1]])
  }

  lemma StripSnoc(bytes: seq<byte>, c: byte)
    ensures Strip(bytes + [c]) == Strip(bytes) + if Stray(c) then [] else [c]
  {
    assert (bytes + [c])[..|bytes|] == bytes;
  }

  lemma {:induction false} RunSpells(d: Decoder, bytes: seq<byte>)
    requires d.remaining == 0
    ensures Run(d, bytes).d.Valid() && SpeltBy(Run(d, bytes).d, Strip(bytes))
  {
    if bytes != [] {
      var init, c := bytes[..|bytes| - 1], bytes[|bytes| - 1];
      RunSpells(d, init);
      StripSnoc(init, c);
      assert init + [c] == bytes;
      if Stray(c) {
        assert Strip(bytes) == Strip(init);
      } else {
        StepSpells(Run(d, init).d, Strip(init), c);
      }
    }
  }

  /** Whatever the bytes, a value that is decoded is the replacement character, or it is no
      surrogate and was spelt in the shortest way by the bytes before it, stray bytes aside. */
  lemma OnlyCanonical(d: Decoder, bytes: seq<byte>, c: byte)
    requires d.remaining == 0 && IsText(c)
    ensures forall v :: v in Step(Run(d, bytes).d, c).out && v != INVALID ==>
      !Forbidden(v) && EndsWith(Strip(bytes + [c]), Encode(v))
  {
    RunSpells(d, bytes);
    StripSnoc(bytes, c);
    if !Stray(c) {
      StepSpells(Run(d, bytes).d, Strip(bytes), c);
    }
    hide Encode, Run, Strip;
  }

  /** Some of the last `n` bytes is a stray one. */
  predicate Broken(bytes: seq<byte>, n: nat)
    requires n <= |bytes|
  {
    exists i :: |bytes| - n <= i < |bytes| && Stray(bytes[i])
  }

  lemma {:induction false} StripTail(bytes: seq<byte>, n: nat)
    requires n <= |bytes| && !Broken(bytes, n)
    ensures Strip(bytes) == Strip(bytes[..|bytes| - n]) + bytes[|bytes| - n..]
  {
    if n == 0 {
      assert bytes[..|bytes|] == bytes;
    } else {
      var init, c := bytes[..|bytes| - 1], bytes[|bytes| - 1];
      assert !Stray(c);
      StripTail(init, n - 1);
      assert bytes == init + [c] && init[..|init| - (n - 1)] == bytes[..|bytes| - n];
      assert init[|init| - (n - 1)..] + [c] == bytes[|bytes| - n..];
      AppendAssoc(Strip(bytes[..|bytes| - n]), init[|init| - (n - 1)..], [c]);
    }
  }

  lemma {:induction false} StripShort(bytes: seq<byte>)
    ensures |Strip(bytes)| <= |bytes|
  {
    if bytes != [] {
      StripShort(bytes[..|bytes| - 1]);
    }
  }

  lemma EncodeNotStray(cp: nat)
    ensures forall i :: 0 <= i < |Encode(cp)| ==> !Stray(Encode(cp)[i])
  {
    TrailContinues(cp, Length(cp));
    assert LeadMark(Length(cp)) + LeadRoom(Length(cp)) <= 0xfe;
    hide Trail, High;
  }

  /** A value is spelt by its own last bytes if and only if none of them is a stray one. */
  lemma SpeltWhole(d: Decoder, bytes: seq<byte>, c: byte, v: nat)
    requires d.remaining == 0 && IsText(c) && v in Step(Run(d, bytes).d, c).out && v != INVALID
    ensures |Encode(v)| <= |bytes + [c]|
    ensures EndsWith(bytes + [c], Encode(v)) <==> !Broken(bytes + [c], |Encode(v)|)
  {
    var all, e := bytes + [c], Encode(v);
    OnlyCanonical(d, bytes, c);
    StripShort(all);
    EncodeNotStray(v);
    hide Encode, Step, Run, Strip, Stray;
    if EndsWith(all, e) {
      forall i | |all| - |e| <= i < |all| ensures !Stray(all[i]) {
        assert all[i] == all[|all| - |e|..][i - (|all| - |e|)] == e[i - (|all| - |e|)];
      }
    }
    if !Broken(all, |e|) {
      StripTail(all, |e|);
      assert Strip(all)[|Strip(all)| - |e|..] == all[|all| - |e|..];
    }
  }

  lemma RunThree(d: Decoder, a: byte, b: byte, c: byte)
    ensures Run(d, [a, b, c]).out ==
      Step(d, a).out + Step(Step(d, a).d, b).out + Step(Step(Step(d, a).d, b).d, c).out
  {
    hide Step;
    RunOne(d, a);
    assert [a, b, c][..2] == [a, b] && [a, b][..1] == [a];
    assert Run(d, [a, b]) == Decoded(Step(Step(d, a).d, b).d, Step(d, a).out + Step(Step(d, a).d, b).out);
  }

  /** A stray byte inside a character: the character is decoded all the same. */
  lemma StrayInside()
    ensures Run(Decoder(0, 0, 0), [0xc3, 0xfe, 0xa9]).out == [INVALID, 0xe9]
    ensures !EndsWith([0xc3, 0xfe, 0xa9], Encode(0xe9))
  {
    var d := Decoder(0, 0, 0);
    RunThree(d, 0xc3, 0xfe, 0xa9);
    assert Step(d, 0xc3) == Decoded(Decoder(1, 2, 3), []);
    assert Step(Decoder(1, 2, 3), 0xfe) == Decoded(Decoder(1, 2, 3), [INVALID]);
    assert Step(Decoder(1, 2, 3), 0xa9).out == [0xe9];
    assert Encode(0xe9)[1] == 0xa9 && Encode(0xe9)[0] == 0xc3;
    assert [0xc3, 0xfe, 0xa9][1..] == [0xfe, 0xa9];
    hide Run, Step;
  }

  // ---- The room for what is decoded ----

  /** A byte gives two values if and only if it cuts a character off and is one itself. */
  lemma StepTwo(d: Decoder, c: byte)
    ensures |Step(d, c).out| <= 2
    ensures |Step(d, c).out| == 2 <==> d.remaining > 0 && c < 0x80
  {
  }

  lemma {:induction false} OutGrows(d: Decoder, bytes: seq<byte>, i: nat)
    requires i <= |bytes|
    ensures |Run(d, bytes[..i]).out| <= |Run(d, bytes).out|
  {
    if i == |bytes| {
      assert bytes[..i] == bytes;
    } else {
      assert bytes[..|bytes| - 1][..i] == bytes[..i];
      OutGrows(d, bytes[..|bytes| - 1], i);
    }
  }

  /** One place is left when a byte of text comes that cuts a character off and is one itself. */
  ghost predicate PastRoom(d: Decoder, bytes: seq<byte>, room: nat) {
    exists k :: 0 <= k < |bytes| && OutOfPlace(d, bytes, room, k)
  }

  ghost predicate OutOfPlace(d: Decoder, bytes: seq<byte>, room: nat, k: nat)
    requires k < |bytes|
  {
    && (forall i :: 0 <= i <= k ==> IsText(bytes[i])) && bytes[k] < 0x80
    && |Run(d, bytes[..k]).out| + 1 == room && Run(d, bytes[..k]).d.remaining > 0
  }

  /** Where decoding stops for want of room, text or bytes, one value is past the room if and
      only if such a byte came. */
  lemma RoomLeft(d: Decoder, bytes: seq<byte>, room: nat, n: nat)
    requires n <= |bytes| && forall k :: 0 <= k < n ==> IsText(bytes[k])
    requires n == |bytes| || |Run(d, bytes[..n]).out| >= room || !IsText(bytes[n])
    requires n > 0 ==> |Run(d, bytes[..n - 1]).out| < room
    ensures |Run(d, bytes[..n]).out| <= room + 1
    ensures |Run(d, bytes[..n]).out| == room + 1 <==> PastRoom(d, bytes, room)
  {
    if n > 0 {
      assert bytes[..n][..n - 1] == bytes[..n - 1];
      StepTwo(Run(d, bytes[..n - 1]).d, bytes[n - 1]);
      if |Run(d, bytes[..n]).out| == room + 1 {
        assert OutOfPlace(d, bytes, room, n - 1);
      }
    }
    if k :| 0 <= k < |bytes| && OutOfPlace(d, bytes, room, k) {
      assert bytes[..k + 1][..k] == bytes[..k];
      StepTwo(Run(d, bytes[..k]).d, bytes[k]);
      assert |Run(d, bytes[..k + 1]).out| == room + 1;
      hide Step, Run;
      if n <= k {
        assert bytes[..k][..n] == bytes[..n];
        OutGrows(d, bytes[..k], n);
      } else if k + 1 < n {
        assert bytes[..n - 1][..k + 1] == bytes[..k + 1];
        OutGrows(d, bytes[..n - 1], k + 1);
      }
    }
  }

  /** A character begun, then a letter, with room for one value. */
  lemma RoomExceeded()
    ensures PastRoom(Decoder(0, 0, 0), [0xc3, 0x41], 1)
  {
    var d := Decoder(0, 0, 0);
    assert [0xc3, 0x41][..1] == [0xc3];
    RunOne(d, 0xc3);
    assert Step(d, 0xc3) == Decoded(Decoder(1, 2, 3), []);
    assert OutOfPlace(d, [0xc3, 0x41], 1, 1);
  }

  // ---- The decoder as it is written ----

  /** The same, for the bytes from some position on. */
  lemma RestRead(d: Decoder, bytes: seq<byte>, from: nat, pos: nat, room: nat)
    requires from <= pos <= |bytes| && forall k :: from <= k < pos ==> IsText(bytes[k])
    requires pos == |bytes| || |Run(d, bytes[from..pos]).out| >= room || !IsText(bytes[pos])
    requires pos > from ==> |Run(d, bytes[from..pos - 1]).out| < room
    ensures |Run(d, bytes[from..pos]).out| == room + 1 <==> PastRoom(d, bytes[from..], room)
  {
    var rest, n := bytes[from..], pos - from;
    assert rest[..n] == bytes[from..pos];
    assert n > 0 ==> rest[..n - 1] == bytes[from..pos - 1];
    hide Run, PastRoom;
    RoomLeft(d, rest, room, n);
  }

  lemma ReadNone(d: Decoder, bytes: seq<byte>, from: nat, out: seq<nat>)
    requires from <= |bytes|
    ensures Run(d, bytes[from..from]) == Decoded(d, []) && out + [] == out
  {
  }

  lemma ReadOne(d: Decoder, bytes: seq<byte>, from: nat, pos: nat, out: seq<nat>)
    requires from <= pos < |bytes|
    ensures var was := Run(d, bytes[from..pos]); var now := Run(d, bytes[from..pos + 1]);
      now.d == Step(was.d, bytes[pos]).d && out + now.out == out + was.out + Step(was.d, bytes[pos]).out
  {
    hide Step;
    assert bytes[from..pos + 1][..pos - from] == bytes[from..pos];
  }

  class Utf8Decoder {
    var bytesRemaining: nat
    var bytesTotal: nat
    var thisCp: nat

    ghost function View(): Decoder
      reads this
    {
      Decoder(bytesRemaining, bytesTotal, thisCp)
    }

    constructor ()
      ensures View().remaining == 0
    {
      bytesRemaining, bytesTotal, thisCp := 0, 0, 0;
    }

    /** Takes one byte of text, and puts what is decoded at `cpi`: at most two values. */
    method Take(cp: array<nat>, cpi0: nat, c: byte) returns (cpi: nat)
      requires cpi0 + 1 < cp.Length && IsText(c)
      modifies this, cp
      ensures View() == Step(old(View()), c).d && cpi0 <= cpi <= cpi0 + 2
      ensures cp[..cpi] == old(cp[..cpi0]) + Step(old(View()), c).out
    {
      cpi := cpi0;
      if bytesRemaining > 0 && (c < 0x80 || LeadLength(c) > 0) {
        cp[cpi] := INVALID;
        cpi := cpi + 1;
      }
      if c < 0x80 {
        cp[cpi] := c;
        cpi := cpi + 1;
        bytesRemaining := 0;
      } else if c < 0xc0 && bytesRemaining > 0 {
        thisCp := thisCp * 64 + (c - 0x80);
        bytesRemaining := bytesRemaining - 1;
        if bytesRemaining == 0 {
          thisCp := Finished(thisCp, bytesTotal);
          cp[cpi] := thisCp;
          cpi := cpi + 1;
        }
      } else if LeadLength(c) > 0 {
        bytesTotal := LeadLength(c);
        bytesRemaining := bytesTotal - 1;
        thisCp := c - LeadMark(bytesTotal);
      } else {
        cp[cpi] := INVALID;
        cpi := cpi + 1;
      }
    }

    /** Decodes text up to a control, the end of the bytes, or the end of the room; a byte that
        breaks off a character may put one value more than there is room for. */
    method Decode(cp: array<nat>, cpi0: nat, cplen: nat, bytes: seq<byte>, pos0: nat) returns (cpi: nat, pos: nat)
      requires cpi0 <= cplen < cp.Length && pos0 <= |bytes|
      modifies this, cp
      ensures pos0 <= pos <= |bytes| && cpi0 <= cpi <= cplen + 1
      ensures forall k :: pos0 <= k < pos ==> IsText(bytes[k])
      ensures pos == |bytes| || cpi >= cplen || !IsText(bytes[pos])
      ensures var r := Run(old(View()), bytes[pos0..pos]); View() == r.d && cp[..cpi] == old(cp[..cpi0]) + r.out
      ensures cpi == cplen + 1 <==> PastRoom(old(View()), bytes[pos0..], cplen - cpi0)
    {
      hide Run, Step, PastRoom, IsText;
      cpi, pos := cpi0, pos0;
      ReadNone(View(), bytes, pos0, old(cp[..cpi0]));
      while pos < |bytes| && cpi < cplen && IsText(bytes[pos])
        invariant pos0 <= pos <= |bytes| && cpi0 <= cpi <= cplen + 1
        invariant forall k :: pos0 <= k < pos ==> IsText(bytes[k])
        invariant View() == Run(old(View()), bytes[pos0..pos]).d
        invariant cp[..cpi] == old(cp[..cpi0]) + Run(old(View()), bytes[pos0..pos]).out
        invariant pos > pos0 ==> cpi0 + |Run(old(View()), bytes[pos0..pos - 1]).out| < cplen
      {
        ReadOne(old(View()), bytes, pos0, pos, old(cp[..cpi0]));
        cpi := Take(cp, cpi, bytes[pos]);
        pos := pos + 1;
      }
      RestRead(old(View()), bytes, pos0, pos, cplen - cpi0);
    }

    /** Decodes text that comes in chunks, with room for `room` values at a time. */
    method DecodeChunks(chunks: seq<seq<byte>>, room: nat) returns (out: seq<nat>)
      requires room > 0 && forall i, k :: 0 <= i < |chunks| && 0 <= k < |chunks[i]| ==> IsText(chunks[i][k])
      modifies this
      ensures var r := Run(old(View()), Concat(chunks)); View() == r.d && out == r.out
    {
      out := [];
      assert Run(View(), []) == Decoded(View(), []);
      hide Run, Step;
      for i := 0 to |chunks|
        invariant Decoded(View(), out) == Run(old(View()), Concat(chunks[..i]))
      {
        var more := DecodeChunk(chunks[i], room);
        ConcatNext(chunks, i);
        RunAppend(old(View()), Concat(chunks[..i]), chunks[i]);
        out := out + more;
      }
      assert chunks[..|chunks|] == chunks;
    }

    /** Code points that were encoded come out as they were, however the bytes are cut. */
    method DecodeEncoded(chunks: seq<seq<byte>>, room: nat, ghost cps: seq<nat>) returns (out: seq<nat>)
      requires room > 0 && View().remaining == 0 && Concat(chunks) == EncodeAll(cps)
      requires forall i :: 0 <= i < |cps| ==> Shown(cps[i])
      modifies this
      ensures View().remaining == 0 && out == cps
    {
      hide Run, Step, Concat, EncodeAll, Shown, IsText;
      EncodeAllText(cps);
      forall i | 0 <= i < |chunks| {
        ChunkText(chunks, i);
      }
      RoundTrip(View(), cps);
      out := DecodeChunks(chunks, room);
    }

    method DecodeChunk(bytes: seq<byte>, room: nat) returns (out: seq<nat>)
      requires room > 0 && forall k :: 0 <= k < |bytes| ==> IsText(bytes[k])
      modifies this
      ensures Decoded(View(), out) == Run(old(View()), bytes)
    {
      out := [];
      var pos, cp := 0, new nat[room + 1];
      assert Run(View(), []) == Decoded(View(), []);
      hide Run, Step;
      while pos < |bytes|
        invariant pos <= |bytes| && fresh(cp) && cp.Length == room + 1
        invariant Decoded(View(), out) == Run(old(View()), bytes[..pos])
      {
        var was := pos;
        var cpi;
        cpi, pos := Decode(cp, 0, room, bytes, pos);
        assert cp[..0] == [];
        assert bytes[..pos] == bytes[..was] + bytes[was..pos];
        RunAppend(old(View()), bytes[..was], bytes[was..pos]);
        out := out + cp[..cpi];
      }
      assert bytes[..pos] == bytes;
    }
  }
}
