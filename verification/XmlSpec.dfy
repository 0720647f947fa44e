/** The content tokenizer of expat as one machine that takes a character at a time. The types of
    the bytes and the tests on multi-byte characters are those of an arbitrary encoding whose
    shortest characters are one byte long. */
module XmlSpec {
  import opened Bytes

  datatype ByteType =
    | NonXml | Malform | LtSign | Amp | RSqb | Lead2 | Lead3 | Lead4 | Trail | Cr | Lf | GtSign | Quot | Apos
    | Equals | Quest | Excl | Sol | Semi | Num | LSqb | Space | NmStrt | Colon | Hex | Digit | NameByte | Minus
    | Other | NonAscii | Percnt | LPar | RPar | Ast | Plus | Comma | VerBar

  /** The types of bytes, and the characters that are invalid, in names, and at the start of names. */
  datatype Encoding = Encoding(typeOf: byte -> ByteType, invalid: set<seq<byte>>, name: set<seq<byte>>,
                               nmstrt: set<seq<byte>>)

  function TypeOf(enc: Encoding, c: byte): ByteType { enc.typeOf(c) }

  /** What a scanner returns; the first five leave the next-token pointer alone. */
  datatype Token =
    | TrailingRSqb | None | TrailingCr | PartialChar | Partial
    | Invalid
    | StartTagWithAtts | StartTagNoAtts | EmptyElementWithAtts | EmptyElementNoAtts | EndTag | DataChars
    | DataNewline | CdataSectOpen | EntityRef | CharRefTok | Pi | XmlDecl | CommentTok
  {
    predicate Negative() { TrailingRSqb? || None? || TrailingCr? || PartialChar? || Partial? }

    predicate Positive() { !Negative() && !Invalid? }
  }

  /** Where a reference stands: in content, or in an attribute value with its quote. */
  datatype Place = InContent | InValue(open: ByteType)

  datatype State =
    | Start | Data
    | Lt | Bang | TagName(colon: bool) | TagColon | TagSpace | TagSlash
    | Comment | CommentBody | CommentMinus | CommentEnd
    | Cdata
    | PiStart | PiTarget(from: nat) | PiBody(tok: Token) | PiQuest(tok: Token) | PiShort(tok: Token)
    | EndStart | EndName | EndSpace
    | Ref(place: Place) | RefName(place: Place) | CharRef(place: Place) | Digits(place: Place)
    | HexRef(place: Place) | HexDigits(place: Place)
    | Atts(colon: bool) | AttColon | AttSpace | AttEquals | Value(open: ByteType) | AttEnd | AttNext | AttSlash

  predicate InTag(s: State) { s.Lt? || s.Bang? || s.TagName? || s.TagColon? || s.TagSpace? || s.TagSlash? }

  predicate InComment(s: State) { s.Comment? || s.CommentBody? || s.CommentMinus? || s.CommentEnd? }

  predicate InPi(s: State) { s.PiStart? || s.PiTarget? || s.PiBody? || s.PiQuest? || s.PiShort? }

  predicate InEnd(s: State) { s.EndStart? || s.EndName? || s.EndSpace? }

  predicate InRef(s: State) { s.Ref? || s.RefName? || s.CharRef? || s.Digits? || s.HexRef? || s.HexDigits? }

  predicate InAtts(s: State) {
    s.Atts? || s.AttColon? || s.AttSpace? || s.AttEquals? || s.Value? || s.AttEnd? || s.AttNext? || s.AttSlash?
  }

  /** What holds of a state whenever it is entered at `p`. */
  predicate StateOk(s: State, p: nat) {
    && (s.PiTarget? ==> s.from <= p)
    && (s.PiBody? || s.PiQuest? || s.PiShort? ==> s.tok in {Pi, XmlDecl})
    && (s.Value? ==> s.open in {Quot, Apos})
    && (InRef(s) && s.place.InValue? ==> s.place.open in {Quot, Apos})
  }

  datatype Move = Go(s: State, ptr: nat) | Stop(tok: Token, next: nat) | Short(tok: Token)

  const A_RSQB: byte := 0x5d
  const A_GT: byte := 0x3e
  const A_MINUS: byte := 0x2d
  const A_X: byte := 0x78

  /** What the name and character tests make of the character at hand: one of `n` bytes, one
      that is bad, one that is cut short, or one that they say nothing of. */
  datatype Check = Chars(n: nat) | Bad | Cut | Unknown

  function LeadLength(t: ByteType): nat {
    match t
    case Lead2 => 2
    case Lead3 => 3
    case Lead4 => 4
    case _ => 0
  }

  function CheckLead(enc: Encoding, bytes: seq<byte>, p: nat, n: nat, any: bool, kind: set<seq<byte>>): (c: Check)
    requires p < |bytes|
    ensures c.Chars? ==> c.n == n <= |bytes| - p
  {
    if |bytes| - p < n then Cut
    else if bytes[p..p + n] in enc.invalid || !(any || bytes[p..p + n] in kind) then Bad
    else Chars(n)
  }

  function CheckChar(enc: Encoding, bytes: seq<byte>, p: nat): (c: Check)
    requires p < |bytes|
    ensures c.Chars? ==> 1 <= c.n <= |bytes| - p
  {
    var t := TypeOf(enc, bytes[p]);
    if LeadLength(t) > 0 then CheckLead(enc, bytes, p, LeadLength(t), true, {})
    else if (t.NonXml? || t.Malform? || t.Trail?) then Bad
    else Unknown
  }

  function CheckName(enc: Encoding, bytes: seq<byte>, p: nat): (c: Check)
    requires p < |bytes|
    ensures c.Chars? ==> 1 <= c.n <= |bytes| - p
  {
    var t := TypeOf(enc, bytes[p]);
    if LeadLength(t) > 0 then CheckLead(enc, bytes, p, LeadLength(t), false, enc.name)
    else if t.NonAscii? then (if [bytes[p]] in enc.name then Chars(1) else Bad)
    else if (t.NmStrt? || t.Hex? || t.Digit? || t.NameByte? || t.Minus?) then Chars(1)
    else Unknown
  }

  function CheckNmstrt(enc: Encoding, bytes: seq<byte>, p: nat): (c: Check)
    requires p < |bytes|
    ensures c.Chars? ==> 1 <= c.n <= |bytes| - p
  {
    var t := TypeOf(enc, bytes[p]);
    if LeadLength(t) > 0 then CheckLead(enc, bytes, p, LeadLength(t), false, enc.nmstrt)
    else if t.NonAscii? then (if [bytes[p]] in enc.nmstrt then Chars(1) else Bad)
    else if (t.NmStrt? || t.Hex?) then Chars(1)
    else Unknown
  }

  /** A character that must be of the kind tested. */
  function Must(c: Check, p: nat, s: State): Move {
    match c
    case Chars(n) => Go(s, p + n)
    case Cut => Short(PartialChar)
    case _ => Stop(Invalid, p)
  }

  /** A character of a comment, an instruction or a value that ends nothing. */
  function BodyMove(enc: Encoding, bytes: seq<byte>, p: nat, s: State): Move
    requires p < |bytes|
  {
    match CheckChar(enc, bytes, p)
    case Unknown => Go(s, p + 1)
    case c => Must(c, p, s)
  }

  predicate IsSpace(t: ByteType) { t.Space? || t.Cr? || t.Lf? }

  function StepTag(enc: Encoding, bytes: seq<byte>, s: State, p: nat): Move
    requires p < |bytes| && InTag(s)
  {
    var t := TypeOf(enc, bytes[p]);
    match s
    case Lt =>
      if t.Excl? then Go(Bang, p + 1)
      else if t.Quest? then Go(PiStart, p + 1)
      else if t.Sol? then Go(EndStart, p + 1)
      else Must(CheckNmstrt(enc, bytes, p), p, TagName(false))
    case Bang =>
      if t.Minus? then Go(Comment, p + 1)
      else if t.LSqb? then Go(Cdata, p + 1)
      else Stop(Invalid, p)
    case TagName(colon) =>
      if t.Colon? then (if colon then Stop(Invalid, p) else Go(TagColon, p + 1))
      else if IsSpace(t) then Go(TagSpace, p + 1)
      else if t.GtSign? then Stop(StartTagNoAtts, p + 1)
      else if t.Sol? then Go(TagSlash, p + 1)
      else Must(CheckName(enc, bytes, p), p, s)
    case TagColon => Must(CheckNmstrt(enc, bytes, p), p, TagName(true))
    case TagSpace =>
      if t.GtSign? then Stop(StartTagNoAtts, p + 1)
      else if t.Sol? then Go(TagSlash, p + 1)
      else if IsSpace(t) then Go(TagSpace, p + 1)
      else Must(CheckNmstrt(enc, bytes, p), p, Atts(false))
    case TagSlash => if bytes[p] == A_GT then Stop(EmptyElementNoAtts, p + 1) else Stop(Invalid, p)
  }

  function StepCommentBody(enc: Encoding, bytes: seq<byte>, p: nat): Move
    requires p < |bytes|
  {
    if TypeOf(enc, bytes[p]).Minus? then Go(CommentMinus, p + 1)
    else BodyMove(enc, bytes, p, CommentBody)
  }

  function StepComment(enc: Encoding, bytes: seq<byte>, s: State, p: nat): Move
    requires p < |bytes| && InComment(s)
  {
    match s
    case Comment => if bytes[p] == A_MINUS then Go(CommentBody, p + 1) else Stop(Invalid, p)
    case CommentBody => StepCommentBody(enc, bytes, p)
    case CommentMinus => if bytes[p] == A_MINUS then Go(CommentEnd, p + 1) else StepCommentBody(enc, bytes, p)
    case CommentEnd => if bytes[p] == A_GT then Stop(CommentTok, p + 1) else Stop(Invalid, p)
  }

  const CDATA_LSQB: seq<byte> := [0x43, 0x44, 0x41, 0x54, 0x41, 0x5b]

  /** How far two texts agree. */
  function Agree(a: seq<byte>, b: seq<byte>): (n: nat)
    ensures n <= |a|
  {
    if a == [] || b == [] || a[0] != b[0] then 0 else 1 + Agree(a[1..], b[1..])
  }

  function StepCdata(bytes: seq<byte>, p: nat): Move
    requires p < |bytes|
  {
    if |bytes| - p < 6 then Short(Partial)
    else
      var n := Agree(CDATA_LSQB, bytes[p..p + 6]);
      if n < 6 then Stop(Invalid, p + n) else Stop(CdataSectOpen, p + 6)
  }

  /** A target spelt like "xml" is the XML declaration, or an error unless in small letters. */
  function PiToken(target: seq<byte>): Token {
    if |target| == 3 && target[0] in {0x78, 0x58} && target[1] in {0x6d, 0x4d} && target[2] in {0x6c, 0x4c}
    then (if target == [0x78, 0x6d, 0x6c] then XmlDecl else Invalid)
    else Pi
  }

  function StepPiBody(enc: Encoding, bytes: seq<byte>, tok: Token, p: nat): Move
    requires p < |bytes|
  {
    if TypeOf(enc, bytes[p]).Quest? then Go(PiQuest(tok), p + 1)
    else BodyMove(enc, bytes, p, PiBody(tok))
  }

  function StepPi(enc: Encoding, bytes: seq<byte>, s: State, p: nat): Move
    requires p < |bytes| && InPi(s) && StateOk(s, p)
  {
    var t := TypeOf(enc, bytes[p]);
    match s
    case PiStart => Must(CheckNmstrt(enc, bytes, p), p, PiTarget(p))
    case PiTarget(from) =>
      if IsSpace(t) || t.Quest? then
        var tok := PiToken(bytes[from..p]);
        if tok == Invalid then Stop(Invalid, p)
        else Go(if t.Quest? then PiShort(tok) else PiBody(tok), p + 1)
      else Must(CheckName(enc, bytes, p), p, s)
    case PiBody(tok) => StepPiBody(enc, bytes, tok, p)
    case PiQuest(tok) => if bytes[p] == A_GT then Stop(tok, p + 1) else StepPiBody(enc, bytes, tok, p)
    case PiShort(tok) => if bytes[p] == A_GT then Stop(tok, p + 1) else Stop(Invalid, p)
  }

  function StepEnd(enc: Encoding, bytes: seq<byte>, s: State, p: nat): Move
    requires p < |bytes| && InEnd(s)
  {
    var t := TypeOf(enc, bytes[p]);
    match s
    case EndStart => Must(CheckNmstrt(enc, bytes, p), p, EndName)
    case EndName =>
      if IsSpace(t) then Go(EndSpace, p + 1)
      else if t.Colon? then Go(EndName, p + 1)
      else if t.GtSign? then Stop(EndTag, p + 1)
      else Must(CheckName(enc, bytes, p), p, EndName)
    case EndSpace =>
      if IsSpace(t) then Go(EndSpace, p + 1)
      else if t.GtSign? then Stop(EndTag, p + 1)
      else Stop(Invalid, p)
  }

  /** A reference ends: a token in content, a part of the value otherwise. */
  function RefDone(place: Place, tok: Token, next: nat): Move {
    if place.InContent? then Stop(tok, next) else Go(Value(place.open), next)
  }

  function StepRef(enc: Encoding, bytes: seq<byte>, s: State, p: nat): Move
    requires p < |bytes| && InRef(s)
  {
    var t := TypeOf(enc, bytes[p]);
    match s
    case Ref(place) =>
      if t.Num? then Go(CharRef(place), p + 1) else Must(CheckNmstrt(enc, bytes, p), p, RefName(place))
    case RefName(place) =>
      if t.Semi? then RefDone(place, EntityRef, p + 1) else Must(CheckName(enc, bytes, p), p, s)
    case CharRef(place) =>
      if bytes[p] == A_X then Go(HexRef(place), p + 1)
      else if t.Digit? then Go(Digits(place), p + 1)
      else Stop(Invalid, p)
    case Digits(place) =>
      if t.Digit? then Go(s, p + 1)
      else if t.Semi? then RefDone(place, CharRefTok, p + 1)
      else Stop(Invalid, p)
    case HexRef(place) => if (t.Digit? || t.Hex?) then Go(HexDigits(place), p + 1) else Stop(Invalid, p)
    case HexDigits(place) =>
      if (t.Digit? || t.Hex?) then Go(s, p + 1)
      else if t.Semi? then RefDone(place, CharRefTok, p + 1)
      else Stop(Invalid, p)
  }

  function StepAttName(enc: Encoding, bytes: seq<byte>, s: State, p: nat): Move
    requires p < |bytes| && (s.Atts? || s.AttColon?)
  {
    var t := TypeOf(enc, bytes[p]);
    if s.AttColon? then Must(CheckNmstrt(enc, bytes, p), p, Atts(true))
    else if t.Colon? then (if s.colon then Stop(Invalid, p) else Go(AttColon, p + 1))
    else if IsSpace(t) then Go(AttSpace, p + 1)
    else if t.Equals? then Go(AttEquals, p + 1)
    else Must(CheckName(enc, bytes, p), p, s)
  }

  function StepEquals(enc: Encoding, bytes: seq<byte>, s: State, p: nat): Move
    requires p < |bytes| && (s.AttSpace? || s.AttEquals?)
  {
    var t := TypeOf(enc, bytes[p]);
    if IsSpace(t) then Go(s, p + 1)
    else if s.AttSpace? && t.Equals? then Go(AttEquals, p + 1)
    else if s.AttEquals? && (t.Quot? || t.Apos?) then Go(Value(t), p + 1)
    else Stop(Invalid, p)
  }

  function StepValue(enc: Encoding, bytes: seq<byte>, s: State, p: nat): Move
    requires p < |bytes| && s.Value?
  {
    var t := TypeOf(enc, bytes[p]);
    if t == s.open then Go(AttEnd, p + 1)
    else if t.Amp? then Go(Ref(InValue(s.open)), p + 1)
    else if t.LtSign? then Stop(Invalid, p)
    else BodyMove(enc, bytes, p, s)
  }

  function StepGap(enc: Encoding, bytes: seq<byte>, s: State, p: nat): Move
    requires p < |bytes| && (s.AttEnd? || s.AttNext?)
  {
    var t := TypeOf(enc, bytes[p]);
    if IsSpace(t) then Go(AttNext, p + 1)
    else if t.Sol? then Go(AttSlash, p + 1)
    else if t.GtSign? then Stop(StartTagWithAtts, p + 1)
    else if s.AttEnd? then Stop(Invalid, p)
    else Must(CheckNmstrt(enc, bytes, p), p, Atts(false))
  }

  function StepAtts(enc: Encoding, bytes: seq<byte>, s: State, p: nat): Move
    requires p < |bytes| && InAtts(s)
  {
    if s.Atts? || s.AttColon? then StepAttName(enc, bytes, s, p)
    else if s.AttSpace? || s.AttEquals? then StepEquals(enc, bytes, s, p)
    else if s.Value? then StepValue(enc, bytes, s, p)
    else if s.AttEnd? || s.AttNext? then StepGap(enc, bytes, s, p)
    else if bytes[p] == A_GT then Stop(EmptyElementWithAtts, p + 1)
    else Stop(Invalid, p)
  }

  function StepStart(enc: Encoding, bytes: seq<byte>, p: nat): Move
    requires p < |bytes|
  {
    var t, left := TypeOf(enc, bytes[p]), |bytes| - p;
    if t.LtSign? then Go(Lt, p + 1)
    else if t.Amp? then Go(Ref(InContent), p + 1)
    else if t.Cr? then
      (if left < 2 then Short(TrailingCr)
       else Stop(DataNewline, if TypeOf(enc, bytes[p + 1]).Lf? then p + 2 else p + 1))
    else if t.Lf? then Stop(DataNewline, p + 1)
    else if t.RSqb? then
      (if left < 2 then Short(TrailingRSqb)
       else if bytes[p + 1] != A_RSQB then Go(Data, p + 1)
       else if left < 3 then Short(TrailingRSqb)
       else if bytes[p + 2] != A_GT then Go(Data, p + 1)
       else Stop(Invalid, p + 2))
    else BodyMove(enc, bytes, p, Data)
  }

  function StepData(enc: Encoding, bytes: seq<byte>, p: nat): Move
    requires p < |bytes|
  {
    var t, left := TypeOf(enc, bytes[p]), |bytes| - p;
    if t.RSqb? && left >= 2 && bytes[p + 1] != A_RSQB then Go(Data, p + 1)
    else if t.RSqb? && left >= 3 && bytes[p + 2] != A_GT then Go(Data, p + 1)
    else if t.RSqb? && left >= 3 then Stop(Invalid, p + 2)
    else if (t.RSqb? || t.Amp? || t.LtSign? || t.Cr? || t.Lf?) then Stop(DataChars, p)
    else match CheckChar(enc, bytes, p)
      case Chars(n) => Go(Data, p + n)
      case Unknown => Go(Data, p + 1)
      case _ => Stop(DataChars, p)
  }

  /** What becomes of the character at `p`. */
  function Step(enc: Encoding, bytes: seq<byte>, s: State, p: nat): Move
    requires p < |bytes| && StateOk(s, p)
  {
    if s.Start? then StepStart(enc, bytes, p)
    else if s.Data? then StepData(enc, bytes, p)
    else if InTag(s) then StepTag(enc, bytes, s, p)
    else if InComment(s) then StepComment(enc, bytes, s, p)
    else if s.Cdata? then StepCdata(bytes, p)
    else if InPi(s) then StepPi(enc, bytes, s, p)
    else if InEnd(s) then StepEnd(enc, bytes, s, p)
    else if InRef(s) then StepRef(enc, bytes, s, p)
    else StepAtts(enc, bytes, s, p)
  }

  /** A move goes forward, and stops past `p` with any token but data characters. */
  predicate Forward(bytes: seq<byte>, p: nat, m: Move) {
    match m
    case Go(s, ptr) => p < ptr <= |bytes| && StateOk(s, ptr)
    case Stop(tok, next) =>
      && !tok.Negative() && p <= next <= |bytes|
      && (tok.Positive() && tok != DataChars ==> p < next)
      && (tok.Invalid? ==> next < |bytes|)
    case Short(tok) => tok.Negative()
  }

  lemma StepForward(enc: Encoding, bytes: seq<byte>, s: State, p: nat)
    requires p < |bytes| && StateOk(s, p)
    ensures Forward(bytes, p, Step(enc, bytes, s, p))
  {
    hide StepTag, StepComment, StepPi, StepEnd, StepRef, StepAtts, StepStart, StepData, StepCdata, Forward;
    if s.Start? || s.Data? || s.Cdata? { PlainForward(enc, bytes, p); }
    else if InTag(s) { TagForward(enc, bytes, s, p); }
    else if InComment(s) { CommentForward(enc, bytes, s, p); }
    else if InPi(s) { PiForward(enc, bytes, s, p); }
    else if InEnd(s) { EndForward(enc, bytes, s, p); }
    else if InRef(s) { RefForward(enc, bytes, s, p); }
    else { AttsForward(enc, bytes, s, p); }
  }

  lemma PlainForward(enc: Encoding, bytes: seq<byte>, p: nat)
    requires p < |bytes|
    ensures Forward(bytes, p, StepStart(enc, bytes, p)) && Forward(bytes, p, StepData(enc, bytes, p))
    ensures Forward(bytes, p, StepCdata(bytes, p))
  {
  }

  lemma TagForward(enc: Encoding, bytes: seq<byte>, s: State, p: nat)
    requires p < |bytes| && StateOk(s, p) && InTag(s)
    ensures Forward(bytes, p, StepTag(enc, bytes, s, p))
  {
  }

  lemma CommentForward(enc: Encoding, bytes: seq<byte>, s: State, p: nat)
    requires p < |bytes| && StateOk(s, p) && InComment(s)
    ensures Forward(bytes, p, StepComment(enc, bytes, s, p))
  {
  }

  lemma PiForward(enc: Encoding, bytes: seq<byte>, s: State, p: nat)
    requires p < |bytes| && StateOk(s, p) && InPi(s)
    ensures Forward(bytes, p, StepPi(enc, bytes, s, p))
  {
  }

  lemma EndForward(enc: Encoding, bytes: seq<byte>, s: State, p: nat)
    requires p < |bytes| && StateOk(s, p) && InEnd(s)
    ensures Forward(bytes, p, StepEnd(enc, bytes, s, p))
  {
  }

  lemma RefForward(enc: Encoding, bytes: seq<byte>, s: State, p: nat)
    requires p < |bytes| && StateOk(s, p) && InRef(s)
    ensures Forward(bytes, p, StepRef(enc, bytes, s, p))
  {
  }

  lemma AttsForward(enc: Encoding, bytes: seq<byte>, s: State, p: nat)
    requires p < |bytes| && StateOk(s, p) && InAtts(s)
    ensures Forward(bytes, p, StepAtts(enc, bytes, s, p))
  {
  }

  /** What a scanner in state `s` returns when the bytes run out before `p`. */
  function AtEnd(s: State, p: nat): Move {
    match s
    case Start => Short(None)
    case Data => Stop(DataChars, p)
    case _ => Short(Partial)
  }

  /** Scanning from state `s` at `p`: the token, and the pointer to the next one if it is set. */
  function Scan(enc: Encoding, bytes: seq<byte>, s: State, p: nat): (r: Move)
    requires p <= |bytes| && StateOk(s, p)
    ensures !r.Go?
    decreases |bytes| - p
  {
    if p == |bytes| then AtEnd(s, p)
    else
      StepForward(enc, bytes, s, p);
      match Step(enc, bytes, s, p)
      case Go(next, ptr) => Scan(enc, bytes, next, ptr)
      case r => r
  }

  lemma Unfold(enc: Encoding, bytes: seq<byte>, s: State, p: nat)
    requires p <= |bytes| && StateOk(s, p)
    ensures p == |bytes| ==> Scan(enc, bytes, s, p) == AtEnd(s, p)
    ensures p < |bytes| ==> var m := Step(enc, bytes, s, p);
      Forward(bytes, p, m) && Scan(enc, bytes, s, p) == if m.Go? then Scan(enc, bytes, m.s, m.ptr) else m
  {
    hide Step;
    if p < |bytes| {
      StepForward(enc, bytes, s, p);
    }
  }

  // ---- More input ----

  /** A move that more input cannot change. */
  predicate Settled(m: Move) {
    m.Go? || (m.Stop? && m.tok != DataChars)
  }

  lemma CheckStable(enc: Encoding, a: seq<byte>, b: seq<byte>, p: nat)
    requires p < |a|
    ensures CheckChar(enc, a, p) != Cut ==> CheckChar(enc, a + b, p) == CheckChar(enc, a, p)
    ensures CheckName(enc, a, p) != Cut ==> CheckName(enc, a + b, p) == CheckName(enc, a, p)
    ensures CheckNmstrt(enc, a, p) != Cut ==> CheckNmstrt(enc, a + b, p) == CheckNmstrt(enc, a, p)
  {
    var n := LeadLength(TypeOf(enc, a[p]));
    if p + n <= |a| {
      assert (a + b)[p..p + n] == a[p..p + n];
    }
  }

  lemma TagStable(enc: Encoding, a: seq<byte>, b: seq<byte>, s: State, p: nat)
    requires p < |a| && InTag(s) && Settled(StepTag(enc, a, s, p))
    ensures StepTag(enc, a + b, s, p) == StepTag(enc, a, s, p)
  {
    CheckStable(enc, a, b, p);
    hide CheckName, CheckNmstrt;
  }

  lemma CommentStable(enc: Encoding, a: seq<byte>, b: seq<byte>, s: State, p: nat)
    requires p < |a| && InComment(s) && Settled(StepComment(enc, a, s, p))
    ensures StepComment(enc, a + b, s, p) == StepComment(enc, a, s, p)
  {
    CheckStable(enc, a, b, p);
    hide CheckChar;
  }

  lemma PiStable(enc: Encoding, a: seq<byte>, b: seq<byte>, s: State, p: nat)
    requires p < |a| && InPi(s) && StateOk(s, p) && Settled(StepPi(enc, a, s, p))
    ensures StepPi(enc, a + b, s, p) == StepPi(enc, a, s, p)
  {
    CheckStable(enc, a, b, p);
    hide CheckChar, CheckName, CheckNmstrt, PiToken;
    if s.PiTarget? {
      assert (a + b)[s.from..p] == a[s.from..p];
    }
  }

  lemma EndStable(enc: Encoding, a: seq<byte>, b: seq<byte>, s: State, p: nat)
    requires p < |a| && InEnd(s) && Settled(StepEnd(enc, a, s, p))
    ensures StepEnd(enc, a + b, s, p) == StepEnd(enc, a, s, p)
  {
    CheckStable(enc, a, b, p);
    hide CheckName, CheckNmstrt;
  }

  lemma RefStable(enc: Encoding, a: seq<byte>, b: seq<byte>, s: State, p: nat)
    requires p < |a| && InRef(s) && Settled(StepRef(enc, a, s, p))
    ensures StepRef(enc, a + b, s, p) == StepRef(enc, a, s, p)
  {
    CheckStable(enc, a, b, p);
    hide CheckName, CheckNmstrt;
  }

  lemma AttsStable(enc: Encoding, a: seq<byte>, b: seq<byte>, s: State, p: nat)
    requires p < |a| && InAtts(s) && Settled(StepAtts(enc, a, s, p))
    ensures StepAtts(enc, a + b, s, p) == StepAtts(enc, a, s, p)
  {
    CheckStable(enc, a, b, p);
    hide CheckChar, CheckName, CheckNmstrt;
  }

  lemma PlainStable(enc: Encoding, a: seq<byte>, b: seq<byte>, p: nat)
    requires p < |a|
    ensures Settled(StepStart(enc, a, p)) ==> StepStart(enc, a + b, p) == StepStart(enc, a, p)
    ensures Settled(StepData(enc, a, p)) ==> StepData(enc, a + b, p) == StepData(enc, a, p)
    ensures Settled(StepCdata(a, p)) ==> StepCdata(a + b, p) == StepCdata(a, p)
  {
    CheckStable(enc, a, b, p);
    hide CheckChar;
    if p + 6 <= |a| {
      assert (a + b)[p..p + 6] == a[p..p + 6];
    }
  }

  lemma StepStable(enc: Encoding, a: seq<byte>, b: seq<byte>, s: State, p: nat)
    requires p < |a| && StateOk(s, p) && Settled(Step(enc, a, s, p))
    ensures Step(enc, a + b, s, p) == Step(enc, a, s, p)
  {
    hide StepTag, StepComment, StepPi, StepEnd, StepRef, StepAtts, StepStart, StepData, StepCdata;
    if s.Start? || s.Data? || s.Cdata? { PlainStable(enc, a, b, p); }
    else if InTag(s) { TagStable(enc, a, b, s, p); }
    else if InComment(s) { CommentStable(enc, a, b, s, p); }
    else if InPi(s) { PiStable(enc, a, b, s, p); }
    else if InEnd(s) { EndStable(enc, a, b, s, p); }
    else if InRef(s) { RefStable(enc, a, b, s, p); }
    else { AttsStable(enc, a, b, s, p); }
  }

  /** A token other than data characters, and the finding that there is none, stand whatever
      input follows; the token is not empty and ends within the input. */
  lemma {:induction false} ScanStable(enc: Encoding, a: seq<byte>, b: seq<byte>, s: State, p: nat)
    requires p <= |a| && StateOk(s, p) && Settled(Scan(enc, a, s, p))
    ensures Scan(enc, a + b, s, p) == Scan(enc, a, s, p)
    ensures var r := Scan(enc, a, s, p); (if r.tok.Invalid? then p <= r.next < |a| else p < r.next <= |a|)
    decreases |a| - p
  {
    hide Step, StateOk;
    StepForward(enc, a, s, p);
    StepStable(enc, a, b, s, p);
    match Step(enc, a, s, p)
    case Go(next, ptr) => ScanStable(enc, a, b, next, ptr);
    case _ =>
  }
}
