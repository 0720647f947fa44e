/** The second, unchecked pass over a start tag, which collects its attributes and relies on the
    first for every character it skips. */
module XmlAtts {
  import opened Seqs
  import opened Bytes
  import opened XmlSpec

  const A_SPACE: byte := 0x20

  datatype Att = Att(name: nat, valuePtr: nat, valueEnd: nat, normalized: bool)

  datatype Phase = Outside | InName | InValuePhase(open: ByteType)

  /** The attribute being collected; `named` says whether its name has been met. */
  datatype Slot = Slot(phase: Phase, named: bool, name: nat, normalized: bool, valuePtr: nat)

  datatype Next = More(g: Slot, ptr: nat, closed: seq<Att>) | End | Unnamed

  function NameStarts(g: Slot, p: nat): Slot {
    if g.phase.Outside? then g.(phase := InName, named := true, name := p, normalized := true) else g
  }

  function Quote(g: Slot, t: ByteType, p: nat): Next {
    if !g.phase.InValuePhase? then
      (if g.named then More(g.(phase := InValuePhase(t), valuePtr := p + 1), p + 1, []) else Unnamed)
    else if g.phase.open != t then More(g, p + 1, [])
    else More(g.(phase := Outside, named := false), p + 1, [Att(g.name, g.valuePtr, p, g.normalized)])
  }

  /** A white space character that normalization would change or drop. */
  predicate SpoilsAt(enc: Encoding, bytes: seq<byte>, p: nat, valuePtr: nat, open: ByteType)
    requires p < |bytes|
  {
    || p == valuePtr || bytes[p] != A_SPACE
    || (p + 1 < |bytes| && (bytes[p + 1] == A_SPACE || TypeOf(enc, bytes[p + 1]) == open))
  }

  predicate Spoils(enc: Encoding, bytes: seq<byte>, g: Slot, p: nat)
    requires p < |bytes| && g.phase.InValuePhase?
  {
    SpoilsAt(enc, bytes, p, g.valuePtr, g.phase.open)
  }

  /** What the pass makes of the character at `p`. */
  function Advance(enc: Encoding, bytes: seq<byte>, g: Slot, p: nat): Next
    requires p < |bytes|
  {
    var t := TypeOf(enc, bytes[p]);
    match t
    case Lead2 => More(NameStarts(g, p), p + 2, [])
    case Lead3 => More(NameStarts(g, p), p + 3, [])
    case Lead4 => More(NameStarts(g, p), p + 4, [])
    case NonAscii => More(NameStarts(g, p), p + 1, [])
    case NmStrt => More(NameStarts(g, p), p + 1, [])
    case Hex => More(NameStarts(g, p), p + 1, [])
    case Quot => Quote(g, t, p)
    case Apos => Quote(g, t, p)
    case Amp => More(g.(normalized := false), p + 1, [])
    case Space =>
      (match g.phase
       case InName => More(g.(phase := Outside), p + 1, [])
       case InValuePhase(_) => More(g.(normalized := g.normalized && !Spoils(enc, bytes, g, p)), p + 1, [])
       case Outside => More(g, p + 1, []))
    case Cr =>
      More(if g.phase.InName? then g.(phase := Outside) else g.(normalized := g.normalized && !g.phase.InValuePhase?), p + 1, [])
    case Lf =>
      More(if g.phase.InName? then g.(phase := Outside) else g.(normalized := g.normalized && !g.phase.InValuePhase?), p + 1, [])
    case GtSign => if g.phase.InValuePhase? then More(g, p + 1, []) else End
    case Sol => if g.phase.InValuePhase? then More(g, p + 1, []) else End
    case _ => More(g, p + 1, [])
  }

  datatype Collected = Collected(atts: seq<Att>, end: nat) | Lost

  /** The whole pass; it is lost if it runs out of the input or meets a value without a name. */
  function Collect(enc: Encoding, bytes: seq<byte>, g: Slot, p: nat): Collected
    decreases |bytes| - p
  {
    if p >= |bytes| then Lost
    else match Advance(enc, bytes, g, p)
      case End => Collected([], p)
      case Unnamed => Lost
      case More(next, ptr, closed) =>
        match Collect(enc, bytes, next, ptr)
        case Lost => Lost
        case Collected(atts, end) => Collected(closed + atts, end)
  }

  const BEGUN := Slot(InName, false, 0, false, 0)

  /** A name and its value, as positions. */
  datatype Range = Range(name: nat, valuePtr: nat, valueEnd: nat)

  function Ranges(atts: seq<Att>): (r: seq<Range>)
    ensures |r| == |atts|
  {
    seq(|atts|, i requires 0 <= i < |atts| => Range(atts[i].name, atts[i].valuePtr, atts[i].valueEnd))
  }

  /** Where the name or the value at hand starts after a step. */
  function NameAfter(s: State, next: State, p: nat, name: nat): nat {
    if next.Atts? && (s.TagSpace? || s.AttNext?) then p else name
  }

  function FromAfter(s: State, next: State, p: nat, from: nat): nat {
    if s.AttEquals? && next.Value? then p + 1 else from
  }

  /** The quoted values that the checked scan accepts from state `s` at `p` on, given where the
      name at hand and its value start. */
  function Accepted(enc: Encoding, bytes: seq<byte>, s: State, p: nat, name: nat, from: nat): seq<Range>
    requires p <= |bytes| && StateOk(s, p)
    decreases |bytes| - p
  {
    if p == |bytes| then []
    else
      StepForward(enc, bytes, s, p);
      match Step(enc, bytes, s, p)
      case Go(next, ptr) =>
        (if s.Value? && next.AttEnd? then [Range(name, from, p)] else []) +
        Accepted(enc, bytes, next, ptr, NameAfter(s, next, p, name), FromAfter(s, next, p, from))
      case _ => []
  }

  predicate IsTagToken(t: Token) {
    t in {StartTagWithAtts, StartTagNoAtts, EmptyElementWithAtts, EmptyElementNoAtts}
  }

  /** The states inside a start tag. */
  predicate TagState(s: State) {
    || s.TagName? || s.TagColon? || s.TagSpace? || s.TagSlash?
    || InAtts(s) || (InRef(s) && s.place.InValue?)
  }

  predicate SlashState(s: State) { s.TagSlash? || s.AttSlash? }

  /** Where the unchecked pass stands when the checked scan is in state `s`. */
  predicate Agrees(s: State, g: Slot, name: nat, from: nat) {
    match s
    case TagName(_) => g.phase == InName
    case TagColon => g.phase == InName
    case TagSpace => g.phase == Outside
    case Atts(_) => g.phase == InName && g.named && g.name == name
    case AttColon => g.phase == InName && g.named && g.name == name
    case AttSpace => g.phase == Outside && g.named && g.name == name
    case AttEquals => !g.phase.InValuePhase? && g.named && g.name == name
    case Value(open) => g.phase == InValuePhase(open) && g.named && g.name == name && g.valuePtr == from
    case AttEnd => g.phase == Outside
    case AttNext => g.phase == Outside
    case _ =>
      InRef(s) && s.place.InValue? && g.phase == InValuePhase(s.place.open) && g.named && g.name == name && g.valuePtr == from
  }

  /** One step of both passes from `s`, the checked one making move `m`. */
  ghost predicate StepAgrees(enc: Encoding, bytes: seq<byte>, s: State, p: nat, g: Slot, name: nat, from: nat, m: Move)
    requires p < |bytes|
  {
    var n := Advance(enc, bytes, g, p);
    && (m.Go? && !SlashState(m.s) ==>
          && TagState(m.s) && n.More? && n.ptr == m.ptr
          && Agrees(m.s, n.g, NameAfter(s, m.s, p, name), FromAfter(s, m.s, p, from))
          && Ranges(n.closed) == if s.Value? && m.s.AttEnd? then [Range(name, from, p)] else [])
    && (m.Go? && SlashState(m.s) ==> n == End && m.ptr == p + 1 && TypeOf(enc, bytes[p]).Sol?)
    && (m.Stop? && IsTagToken(m.tok) ==>
          n == End && m.next == p + 1 && TypeOf(enc, bytes[p]).GtSign? && IsOpen(m.tok))
  }

  lemma NameCharAgrees(enc: Encoding, bytes: seq<byte>, g: Slot, p: nat)
    requires p < |bytes|
    ensures var c := CheckNmstrt(enc, bytes, p); c.Chars? ==>
      Advance(enc, bytes, g, p) == More(NameStarts(g, p), p + c.n, [])
    ensures var c := CheckName(enc, bytes, p); c.Chars? && !g.phase.Outside? ==>
      Advance(enc, bytes, g, p) == More(g, p + c.n, [])
    ensures (TypeOf(enc, bytes[p]).NmStrt? || TypeOf(enc, bytes[p]).Hex?) ==> Advance(enc, bytes, g, p) == More(NameStarts(g, p), p + 1, [])
  {
  }

  /** The characters that are no part of a name or a value, outside a value. */
  lemma MarkAgrees(enc: Encoding, bytes: seq<byte>, g: Slot, p: nat)
    requires p < |bytes|
    ensures var t, n := TypeOf(enc, bytes[p]), Advance(enc, bytes, g, p);
      && ((t.Colon? || t.Equals? || t.Semi? || t.Num? || t.Digit?) ==> n == More(g, p + 1, []))
      && ((t.GtSign? || t.Sol?) && !g.phase.InValuePhase? ==> n == End)
      && ((t.Quot? || t.Apos?) ==> n == Quote(g, t, p))
      && (t.Amp? ==> n == More(g.(normalized := false), p + 1, []))
      && (IsSpace(t) && g.phase.InName? ==> n == More(g.(phase := Outside), p + 1, []))
      && (IsSpace(t) && g.phase.Outside? ==> n.More? && n == More(g.(normalized := n.g.normalized), p + 1, []))
    ensures Ranges([]) == []
  {
    hide TypeOf, Spoils;
  }

  lemma TagNameAgrees(enc: Encoding, bytes: seq<byte>, s: State, p: nat, g: Slot, name: nat, from: nat)
    requires p < |bytes| && (s.TagName? || s.TagColon?) && Agrees(s, g, name, from)
    ensures StepAgrees(enc, bytes, s, p, g, name, from, StepTag(enc, bytes, s, p))
  {
    NameCharAgrees(enc, bytes, g, p);
    MarkAgrees(enc, bytes, g, p);
    hide TypeOf, CheckName, CheckNmstrt, Advance, Ranges;
  }

  lemma TagSpaceAgrees(enc: Encoding, bytes: seq<byte>, s: State, p: nat, g: Slot, name: nat, from: nat)
    requires p < |bytes| && s.TagSpace? && Agrees(s, g, name, from)
    ensures StepAgrees(enc, bytes, s, p, g, name, from, StepTag(enc, bytes, s, p))
  {
    NameCharAgrees(enc, bytes, g, p);
    MarkAgrees(enc, bytes, g, p);
    hide TypeOf, CheckName, CheckNmstrt, Advance, Ranges;
  }

  lemma AttsAgree(enc: Encoding, bytes: seq<byte>, s: State, p: nat, g: Slot, name: nat, from: nat)
    requires p < |bytes| && s.Atts? && Agrees(s, g, name, from)
    ensures StepAgrees(enc, bytes, s, p, g, name, from, StepAttName(enc, bytes, s, p))
  {
    NameCharAgrees(enc, bytes, g, p);
    MarkAgrees(enc, bytes, g, p);
    hide TypeOf, CheckName, CheckNmstrt, Advance, Ranges;
  }

  lemma AttColonAgrees(enc: Encoding, bytes: seq<byte>, s: State, p: nat, g: Slot, name: nat, from: nat)
    requires p < |bytes| && s.AttColon? && Agrees(s, g, name, from)
    ensures StepAgrees(enc, bytes, s, p, g, name, from, StepAttName(enc, bytes, s, p))
  {
    NameCharAgrees(enc, bytes, g, p);
    MarkAgrees(enc, bytes, g, p);
    hide TypeOf, CheckName, CheckNmstrt, Advance, Ranges;
  }

  lemma EqualsAgrees(enc: Encoding, bytes: seq<byte>, s: State, p: nat, g: Slot, name: nat, from: nat)
    requires p < |bytes| && (s.AttSpace? || s.AttEquals?) && Agrees(s, g, name, from)
    ensures StepAgrees(enc, bytes, s, p, g, name, from, StepEquals(enc, bytes, s, p))
  {
    MarkAgrees(enc, bytes, g, p);
    hide TypeOf, Advance, Ranges;
  }

  lemma AttEndAgrees(enc: Encoding, bytes: seq<byte>, s: State, p: nat, g: Slot, name: nat, from: nat)
    requires p < |bytes| && s.AttEnd? && Agrees(s, g, name, from)
    ensures StepAgrees(enc, bytes, s, p, g, name, from, StepGap(enc, bytes, s, p))
  {
    NameCharAgrees(enc, bytes, g, p);
    MarkAgrees(enc, bytes, g, p);
    hide TypeOf, CheckName, CheckNmstrt, Advance, Ranges;
  }

  lemma AttNextAgrees(enc: Encoding, bytes: seq<byte>, s: State, p: nat, g: Slot, name: nat, from: nat)
    requires p < |bytes| && s.AttNext? && Agrees(s, g, name, from)
    ensures StepAgrees(enc, bytes, s, p, g, name, from, StepGap(enc, bytes, s, p))
  {
    NameCharAgrees(enc, bytes, g, p);
    MarkAgrees(enc, bytes, g, p);
    hide TypeOf, CheckName, CheckNmstrt, Advance, Ranges;
  }

  /** A character of a value that ends nothing. */
  lemma ValueCharAgrees(enc: Encoding, bytes: seq<byte>, s: State, p: nat, g: Slot)
    requires p < |bytes| && g.phase.InValuePhase? && TypeOf(enc, bytes[p]) != g.phase.open
    ensures var m, n := BodyMove(enc, bytes, p, s), Advance(enc, bytes, g, p);
      && (m.Go? ==> m.s == s && n.More? && n == More(g.(normalized := n.g.normalized), m.ptr, []))
      && (m.Stop? ==> m.tok == Invalid)
  {
    hide TypeOf, Spoils;
  }

  lemma ValueAgrees(enc: Encoding, bytes: seq<byte>, s: State, p: nat, g: Slot, name: nat, from: nat)
    requires p < |bytes| && s.Value? && StateOk(s, p) && Agrees(s, g, name, from)
    ensures StepAgrees(enc, bytes, s, p, g, name, from, StepValue(enc, bytes, s, p))
  {
    MarkAgrees(enc, bytes, g, p);
    if TypeOf(enc, bytes[p]) != s.open {
      ValueCharAgrees(enc, bytes, s, p, g);
    }
    hide TypeOf, BodyMove, Advance;
  }

  lemma RefNameAgrees(enc: Encoding, bytes: seq<byte>, s: State, p: nat, g: Slot, name: nat, from: nat)
    requires p < |bytes| && (s.Ref? || s.RefName?) && s.place.InValue? && StateOk(s, p) && Agrees(s, g, name, from)
    requires TypeOf(enc, A_X) == NmStrt
    ensures StepAgrees(enc, bytes, s, p, g, name, from, StepRef(enc, bytes, s, p))
  {
    NameCharAgrees(enc, bytes, g, p);
    MarkAgrees(enc, bytes, g, p);
    hide TypeOf, CheckName, CheckNmstrt, Advance, Ranges;
  }

  lemma CharRefAgrees(enc: Encoding, bytes: seq<byte>, s: State, p: nat, g: Slot, name: nat, from: nat)
    requires p < |bytes| && (s.CharRef? || s.Digits?) && s.place.InValue? && StateOk(s, p) && Agrees(s, g, name, from)
    requires TypeOf(enc, A_X) == NmStrt
    ensures StepAgrees(enc, bytes, s, p, g, name, from, StepRef(enc, bytes, s, p))
  {
    NameCharAgrees(enc, bytes, g, p);
    MarkAgrees(enc, bytes, g, p);
    hide TypeOf, CheckName, CheckNmstrt, Advance, Ranges;
  }

  lemma HexRefAgrees(enc: Encoding, bytes: seq<byte>, s: State, p: nat, g: Slot, name: nat, from: nat)
    requires p < |bytes| && (s.HexRef? || s.HexDigits?) && s.place.InValue? && StateOk(s, p) && Agrees(s, g, name, from)
    requires TypeOf(enc, A_X) == NmStrt
    ensures StepAgrees(enc, bytes, s, p, g, name, from, StepRef(enc, bytes, s, p))
  {
    NameCharAgrees(enc, bytes, g, p);
    MarkAgrees(enc, bytes, g, p);
    hide TypeOf, CheckName, CheckNmstrt, Advance, Ranges;
  }

  lemma StepsAgree(enc: Encoding, bytes: seq<byte>, s: State, p: nat, g: Slot, name: nat, from: nat)
    requires p < |bytes| && StateOk(s, p) && TagState(s) && !SlashState(s) && Agrees(s, g, name, from)
    requires TypeOf(enc, A_X) == NmStrt
    ensures StepAgrees(enc, bytes, s, p, g, name, from, Step(enc, bytes, s, p))
  {
    hide TypeOf, StepTag, StepAttName, StepValue, StepGap, StepEquals, StepRef, StepAgrees;
    if s.TagSpace? { TagSpaceAgrees(enc, bytes, s, p, g, name, from); }
    else if InTag(s) { TagNameAgrees(enc, bytes, s, p, g, name, from); }
    else if s.Ref? || s.RefName? { RefNameAgrees(enc, bytes, s, p, g, name, from); }
    else if s.CharRef? || s.Digits? { CharRefAgrees(enc, bytes, s, p, g, name, from); }
    else if InRef(s) { HexRefAgrees(enc, bytes, s, p, g, name, from); }
    else if s.Value? { ValueAgrees(enc, bytes, s, p, g, name, from); }
    else if s.AttEnd? { AttEndAgrees(enc, bytes, s, p, g, name, from); }
    else if s.AttNext? { AttNextAgrees(enc, bytes, s, p, g, name, from); }
    else if s.AttSpace? || s.AttEquals? { EqualsAgrees(enc, bytes, s, p, g, name, from); }
    else if s.Atts? { AttsAgree(enc, bytes, s, p, g, name, from); }
    else { AttColonAgrees(enc, bytes, s, p, g, name, from); }
  }

  // ---- Whole tags ----

  function CollectedRanges(c: Collected): seq<Range> {
    if c.Lost? then [] else Ranges(c.atts)
  }

  predicate IsOpen(t: Token) { t in {StartTagWithAtts, StartTagNoAtts} }

  /** The character that closes a tag: `>`, or the `/` before it. */
  function CloseOf(r: Move): int
    requires r.Stop?
  {
    if IsOpen(r.tok) then r.next - 1 else r.next - 2
  }

  /** The unchecked pass ends at the character that closes the tag. */
  predicate EndsTag(enc: Encoding, bytes: seq<byte>, r: Move, c: Collected) {
    && r.Stop? && c.Collected? && c.end < |bytes| && c.end == CloseOf(r)
    && TypeOf(enc, bytes[c.end]) == (if IsOpen(r.tok) then GtSign else Sol)
  }

  lemma SlashEnds(enc: Encoding, bytes: seq<byte>, s: State, p: nat)
    requires p <= |bytes| && SlashState(s)
    ensures var r := Scan(enc, bytes, s, p);
      r.Stop? && IsTagToken(r.tok) ==> r.next == p + 1 && !IsOpen(r.tok)
  {
    Unfold(enc, bytes, s, p);
  }

  lemma AcceptedStep(enc: Encoding, bytes: seq<byte>, s: State, p: nat, name: nat, from: nat)
    requires p < |bytes| && StateOk(s, p)
    ensures var m := Step(enc, bytes, s, p);
      && Forward(bytes, p, m)
      && Accepted(enc, bytes, s, p, name, from) ==
         if m.Go? then
           (if s.Value? && m.s.AttEnd? then [Range(name, from, p)] else []) +
           Accepted(enc, bytes, m.s, m.ptr, NameAfter(s, m.s, p, name), FromAfter(s, m.s, p, from))
         else []
  {
    hide TypeOf, Step;
    StepForward(enc, bytes, s, p);
  }

  lemma NothingAfterSlash(enc: Encoding, bytes: seq<byte>, s: State, p: nat, name: nat, from: nat)
    requires p <= |bytes| && SlashState(s)
    ensures Accepted(enc, bytes, s, p, name, from) == []
  {
  }

  lemma RangesAppend(a: seq<Att>, b: seq<Att>)
    ensures Ranges(a + b) == Ranges(a) + Ranges(b)
  {
  }

  /** On a tag that the checked scan accepts, the unchecked pass collects the same values. */
  lemma {:induction false} PassesAgree(enc: Encoding, bytes: seq<byte>, s: State, p: nat, g: Slot, name: nat, from: nat)
    requires p <= |bytes| && StateOk(s, p) && TagState(s) && !SlashState(s) && Agrees(s, g, name, from)
    requires TypeOf(enc, A_X) == NmStrt
    requires var r := Scan(enc, bytes, s, p); r.Stop? && IsTagToken(r.tok)
    ensures EndsTag(enc, bytes, Scan(enc, bytes, s, p), Collect(enc, bytes, g, p))
    ensures CollectedRanges(Collect(enc, bytes, g, p)) == Accepted(enc, bytes, s, p, name, from)
    decreases |bytes| - p
  {
    hide TypeOf, Step, Advance, Agrees, Accepted, Scan, Ranges;
    Unfold(enc, bytes, s, p);
    assert p < |bytes|;
    var m, n := Step(enc, bytes, s, p), Advance(enc, bytes, g, p);
    AcceptedStep(enc, bytes, s, p, name, from);
    StepsAgree(enc, bytes, s, p, g, name, from);
    RangesAppend([], []);
    if m.Go? && SlashState(m.s) {
      SlashEnds(enc, bytes, m.s, m.ptr);
      NothingAfterSlash(enc, bytes, m.s, m.ptr, name, from);
    } else if m.Go? {
      PassesAgree(enc, bytes, m.s, m.ptr, n.g, NameAfter(s, m.s, p, name), FromAfter(s, m.s, p, from));
      RangesAppend(n.closed, Collect(enc, bytes, n.g, m.ptr).atts);
    }
  }

  /** The states that do not lead to a start tag. */
  predicate OtherState(s: State) {
    s.Bang? || s.Cdata? || InComment(s) || InPi(s) || InEnd(s)
  }

  lemma OtherStep(enc: Encoding, bytes: seq<byte>, s: State, p: nat)
    requires p < |bytes| && StateOk(s, p) && OtherState(s)
    ensures var m := Step(enc, bytes, s, p); (m.Go? ==> OtherState(m.s)) && (m.Stop? ==> !IsTagToken(m.tok))
  {
    hide TypeOf, CheckChar, CheckName, CheckNmstrt, PiToken, Agree, StepStart, StepData, StepRef, StepAtts;
  }

  lemma {:induction false} NotATag(enc: Encoding, bytes: seq<byte>, s: State, p: nat)
    requires p <= |bytes| && StateOk(s, p) && OtherState(s)
    ensures var r := Scan(enc, bytes, s, p); r.Stop? ==> !IsTagToken(r.tok)
    decreases |bytes| - p
  {
    hide TypeOf, Step, Scan;
    Unfold(enc, bytes, s, p);
    if p < |bytes| {
      OtherStep(enc, bytes, s, p);
      var m := Step(enc, bytes, s, p);
      if m.Go? {
        NotATag(enc, bytes, m.s, m.ptr);
      }
    }
  }

  // ---- The ranges ----

  /** Names and values in order, none overlapping another, from `lo` up to but not at `hi`. */
  predicate Ordered(lo: nat, ranges: seq<Range>, hi: int)
    decreases |ranges|
  {
    ranges == [] ||
    (lo <= ranges[0].name < ranges[0].valuePtr <= ranges[0].valueEnd < hi
     && Ordered(ranges[0].valueEnd + 1, ranges[1..], hi))
  }

  /** The parts of a tag: its name, an attribute's name, the way to its value, the value. */
  datatype Part = TagPart | NamePart | EqualsPart | ValuePart | GapPart | NoPart

  function PartOf(s: State): Part {
    match s
    case TagName(_) => TagPart
    case TagColon => TagPart
    case Atts(_) => NamePart
    case AttColon => NamePart
    case AttSpace => EqualsPart
    case AttEquals => EqualsPart
    case Value(_) => ValuePart
    case TagSpace => GapPart
    case AttEnd => GapPart
    case AttNext => GapPart
    case _ => if InRef(s) && s.place.InValue? then ValuePart else NoPart
  }

  /** The moves inside a tag: from one part to the same or the next, or out at its close. */
  predicate Follows(s: State, m: Move, p: nat) {
    match m
    case Go(next, ptr) =>
      (match PartOf(next)
       case TagPart => PartOf(s) == TagPart
       case NamePart => PartOf(s) == NamePart || (PartOf(s) == GapPart && next.Atts? && !s.AttEnd?)
       case EqualsPart => PartOf(s) == NamePart || PartOf(s) == EqualsPart
       case ValuePart => PartOf(s) == ValuePart || (s.AttEquals? && next.Value? && ptr == p + 1)
       case GapPart => PartOf(s) == TagPart || PartOf(s) == GapPart || (s.Value? && next.AttEnd? && ptr == p + 1)
       case NoPart => SlashState(next) && ptr == p + 1)
    case Stop(tok, next) => IsTagToken(tok) ==> IsOpen(tok) && next == p + 1
    case Short(_) => true
  }

  lemma TagFollows(enc: Encoding, bytes: seq<byte>, s: State, p: nat)
    requires p < |bytes| && (s.TagName? || s.TagColon? || s.TagSpace?)
    ensures Follows(s, StepTag(enc, bytes, s, p), p)
  {
    hide TypeOf, CheckChar, CheckName, CheckNmstrt;
  }

  lemma RefFollows(enc: Encoding, bytes: seq<byte>, s: State, p: nat)
    requires p < |bytes| && InRef(s) && s.place.InValue?
    ensures Follows(s, StepRef(enc, bytes, s, p), p)
  {
    hide TypeOf, CheckChar, CheckName, CheckNmstrt;
  }

  lemma NameFollows(enc: Encoding, bytes: seq<byte>, s: State, p: nat)
    requires p < |bytes| && (s.Atts? || s.AttColon?)
    ensures Follows(s, StepAttName(enc, bytes, s, p), p)
  {
    hide TypeOf, CheckName, CheckNmstrt;
  }

  lemma ValueFollows(enc: Encoding, bytes: seq<byte>, s: State, p: nat)
    requires p < |bytes| && s.Value?
    ensures Follows(s, StepValue(enc, bytes, s, p), p)
  {
    hide TypeOf, CheckChar;
  }

  lemma GapFollows(enc: Encoding, bytes: seq<byte>, s: State, p: nat)
    requires p < |bytes| && (s.AttEnd? || s.AttNext?)
    ensures Follows(s, StepGap(enc, bytes, s, p), p)
  {
    hide TypeOf, CheckNmstrt;
  }

  lemma EqualsFollow(enc: Encoding, bytes: seq<byte>, s: State, p: nat)
    requires p < |bytes| && (s.AttSpace? || s.AttEquals?)
    ensures Follows(s, StepEquals(enc, bytes, s, p), p)
  {
  }

  lemma StepFollows(enc: Encoding, bytes: seq<byte>, s: State, p: nat)
    requires p < |bytes| && StateOk(s, p) && TagState(s) && !SlashState(s)
    ensures Follows(s, Step(enc, bytes, s, p), p)
  {
    hide TypeOf, StepTag, StepRef, StepAttName, StepValue, StepGap, StepEquals, Follows;
    if InTag(s) {
      TagFollows(enc, bytes, s, p);
    } else if InRef(s) {
      RefFollows(enc, bytes, s, p);
    } else if s.Value? {
      ValueFollows(enc, bytes, s, p);
    } else if s.AttEnd? || s.AttNext? {
      GapFollows(enc, bytes, s, p);
    } else if s.AttSpace? || s.AttEquals? {
      EqualsFollow(enc, bytes, s, p);
    } else {
      NameFollows(enc, bytes, s, p);
    }
  }

  /** What is known in state `s` of the name and the value at hand. */
  predicate Placed(s: State, p: nat, name: nat, from: nat, lo: nat) {
    && lo <= p
    && (PartOf(s) == NamePart || PartOf(s) == EqualsPart ==> lo <= name < p)
    && (PartOf(s) == ValuePart ==> lo <= name < from <= p)
  }

  lemma StepPlaces(enc: Encoding, bytes: seq<byte>, s: State, p: nat, name: nat, from: nat, lo: nat)
    requires p < |bytes| && StateOk(s, p) && TagState(s) && !SlashState(s) && Placed(s, p, name, from, lo)
    ensures var m := Step(enc, bytes, s, p); m.Go? && !SlashState(m.s) ==>
      && TagState(m.s)
      && Placed(m.s, m.ptr, NameAfter(s, m.s, p, name), FromAfter(s, m.s, p, from), if s.Value? && m.s.AttEnd? then p + 1 else lo)
  {
    hide TypeOf, Step;
    StepFollows(enc, bytes, s, p);
    StepForward(enc, bytes, s, p);
  }

  /** If the scan from `s` ends in a tag, its values are in order and inside it. */
  ghost predicate OrderedTag(enc: Encoding, bytes: seq<byte>, s: State, p: nat, name: nat, from: nat, lo: nat)
    requires p <= |bytes| && StateOk(s, p)
  {
    var r := Scan(enc, bytes, s, p);
    r.Stop? && IsTagToken(r.tok) ==>
      p <= CloseOf(r) && Ordered(lo, Accepted(enc, bytes, s, p, name, from), CloseOf(r))
  }

  lemma OrderedAhead(enc: Encoding, bytes: seq<byte>, s: State, p: nat, name: nat, from: nat, lo: nat, m: Move)
    requires p < |bytes| && StateOk(s, p) && m == Step(enc, bytes, s, p) && m.Go?
    requires m.ptr <= |bytes| && p < m.ptr && StateOk(m.s, m.ptr) && Placed(s, p, name, from, lo)
    requires s.Value? && m.s.AttEnd? ==> m.ptr == p + 1
    requires OrderedTag(enc, bytes, m.s, m.ptr, NameAfter(s, m.s, p, name), FromAfter(s, m.s, p, from),
                        if s.Value? && m.s.AttEnd? then p + 1 else lo)
    ensures OrderedTag(enc, bytes, s, p, name, from, lo)
  {
    hide TypeOf, Step, Scan, Accepted;
    Unfold(enc, bytes, s, p);
    AcceptedStep(enc, bytes, s, p, name, from);
    var rest := Accepted(enc, bytes, m.s, m.ptr, NameAfter(s, m.s, p, name), FromAfter(s, m.s, p, from));
    assert ([Range(name, from, p)] + rest)[1..] == rest && [] + rest == rest;
  }

  lemma OrderedEnd(enc: Encoding, bytes: seq<byte>, s: State, p: nat, name: nat, from: nat, lo: nat)
    requires p < |bytes| && StateOk(s, p) && Follows(s, Step(enc, bytes, s, p), p)
    requires var m := Step(enc, bytes, s, p); m.Go? ==> SlashState(m.s)
    ensures OrderedTag(enc, bytes, s, p, name, from, lo)
  {
    hide TypeOf, Step, Scan, Accepted;
    Unfold(enc, bytes, s, p);
    AcceptedStep(enc, bytes, s, p, name, from);
    var m := Step(enc, bytes, s, p);
    if m.Go? {
      SlashEnds(enc, bytes, m.s, m.ptr);
      NothingAfterSlash(enc, bytes, m.s, m.ptr, name, from);
    }
  }

  lemma {:induction false} RangesOrdered(enc: Encoding, bytes: seq<byte>, s: State, p: nat, name: nat, from: nat, lo: nat)
    requires p <= |bytes| && StateOk(s, p) && TagState(s) && !SlashState(s) && Placed(s, p, name, from, lo)
    ensures OrderedTag(enc, bytes, s, p, name, from, lo)
    decreases |bytes| - p
  {
    hide TypeOf, Step, OrderedTag, Follows;
    if p == |bytes| {
      OrderedNowhere(enc, bytes, s, p, name, from, lo);
    } else {
      StepPlaces(enc, bytes, s, p, name, from, lo);
      StepFollows(enc, bytes, s, p);
      StepForward(enc, bytes, s, p);
      var m := Step(enc, bytes, s, p);
      if m.Go? && !SlashState(m.s) {
        RangesOrdered(enc, bytes, m.s, m.ptr, NameAfter(s, m.s, p, name), FromAfter(s, m.s, p, from),
                      if s.Value? && m.s.AttEnd? then p + 1 else lo);
        ClosesAt(s, m, p);
        OrderedAhead(enc, bytes, s, p, name, from, lo, m);
      } else {
        OrderedEnd(enc, bytes, s, p, name, from, lo);
      }
    }
  }

  lemma ClosesAt(s: State, m: Move, p: nat)
    requires m.Go? && Follows(s, m, p) && TagState(s)
    ensures s.Value? && m.s.AttEnd? ==> m.ptr == p + 1
  {
  }

  lemma OrderedNowhere(enc: Encoding, bytes: seq<byte>, s: State, p: nat, name: nat, from: nat, lo: nat)
    requires p == |bytes| && StateOk(s, p) && TagState(s)
    ensures OrderedTag(enc, bytes, s, p, name, from, lo)
  {
  }

  // ---- The tag at `p` ----

  lemma LtStep(enc: Encoding, bytes: seq<byte>, p: nat)
    requires p < |bytes|
    ensures var m := Step(enc, bytes, Lt, p);
      && (m.Stop? ==> m.tok == Invalid)
      && (m.Go? ==> OtherState(m.s) || m.s == TagName(false))
      && (m.Go? && m.s == TagName(false) ==> forall g: Slot :: g.phase == InName ==> Advance(enc, bytes, g, p) == More(g, m.ptr, []))
  {
    forall g: Slot | g.phase == InName {
      NameCharAgrees(enc, bytes, g, p);
    }
    hide TypeOf, CheckName, CheckNmstrt, Advance;
  }

  /** The values of the tag whose `<` is at `p`. */
  function TagValues(enc: Encoding, bytes: seq<byte>, p: nat): seq<Range>
    requires p < |bytes|
  {
    Accepted(enc, bytes, Lt, p + 1, 0, 0)
  }

  lemma CollectStep(enc: Encoding, bytes: seq<byte>, g: Slot, p: nat, ptr: nat)
    requires p < |bytes| && Advance(enc, bytes, g, p) == More(g, ptr, [])
    ensures Collect(enc, bytes, g, p) == Collect(enc, bytes, g, ptr)
  {
    hide TypeOf, Advance;
    var c := Collect(enc, bytes, g, ptr);
    if c.Collected? {
      assert [] + c.atts == c.atts;
    }
  }

  /** On every start tag or empty-element tag that the checked scan accepts, the unchecked pass
      ends at the close of that tag, with just the values that were accepted, in order and
      inside the tag. */
  lemma PassesAgreeOnTags(enc: Encoding, bytes: seq<byte>, p: nat)
    requires p < |bytes| && TypeOf(enc, A_X) == NmStrt
    requires var r := Scan(enc, bytes, Lt, p + 1); r.Stop? && IsTagToken(r.tok)
    ensures var r, c := Scan(enc, bytes, Lt, p + 1), Collect(enc, bytes, BEGUN, p + 1);
      && EndsTag(enc, bytes, r, c)
      && Ranges(c.atts) == TagValues(enc, bytes, p)
      && Ordered(p + 1, TagValues(enc, bytes, p), c.end)
  {
    hide TypeOf, Step, Scan, Accepted, Advance, Ordered, Collect, Ranges;
    Unfold(enc, bytes, Lt, p + 1);
    assert p + 1 < |bytes|;
    LtStep(enc, bytes, p + 1);
    AcceptedStep(enc, bytes, Lt, p + 1, 0, 0);
    var m := Step(enc, bytes, Lt, p + 1);
    if OtherState(m.s) {
      NotATag(enc, bytes, m.s, m.ptr);
    }
    assert m.s == TagName(false);
    CollectStep(enc, bytes, BEGUN, p + 1, m.ptr);
    PassesAgree(enc, bytes, TagName(false), m.ptr, BEGUN, 0, 0);
    RangesOrdered(enc, bytes, TagName(false), m.ptr, 0, 0, p + 1);
    var values := Accepted(enc, bytes, TagName(false), m.ptr, 0, 0);
    assert [] + values == values;
  }

  // ---- The pass as it is written ----

  function Then(done: seq<Att>, c: Collected): Collected {
    if c.Lost? then Lost else Collected(done + c.atts, c.end)
  }

  /** The first `max` attributes collected are stored, and of the one at hand what is known. */
  ghost predicate Stored(atts: seq<Att>, max: nat, done: seq<Att>, g: Slot) {
    && max <= |atts|
    && (forall i :: 0 <= i < |done| && i < max ==> atts[i] == done[i])
    && (g.phase.InValuePhase? ==> g.named)
    && (|done| < max && g.named ==>
          var a := atts[|done|];
          a.name == g.name && a.normalized == g.normalized && (g.phase.InValuePhase? ==> a.valuePtr == g.valuePtr))
  }

  lemma CollectNext(enc: Encoding, bytes: seq<byte>, g: Slot, p: nat, done: seq<Att>)
    requires p < |bytes|
    ensures var n := Advance(enc, bytes, g, p);
      && (n.More? ==> Then(done, Collect(enc, bytes, g, p)) == Then(done + n.closed, Collect(enc, bytes, n.g, n.ptr)))
      && (n == End ==> Then(done, Collect(enc, bytes, g, p)) == Collected(done, p))
      && (n == Unnamed ==> Collect(enc, bytes, g, p) == Lost)
  {
    hide TypeOf, Advance;
    var n := Advance(enc, bytes, g, p);
    if n.More? {
      var c := Collect(enc, bytes, n.g, n.ptr);
      if c.Collected? {
        AppendAssoc(done, n.closed, c.atts);
      }
    } else if n == End {
      assert done + [] == done;
    }
  }

  /** Stores what the character at `ptr` means for the attribute at hand. */
  method StoreChar(enc: Encoding, bytes: seq<byte>, ptr: nat, phase: Phase, nAtts: nat, attsMax: nat, atts: array<Att>,
                   ghost g: Slot, ghost done: seq<Att>)
    returns (phase': Phase, next: nat, nAtts': nat)
    requires ptr < |bytes| && attsMax <= atts.Length && phase == g.phase && nAtts == |done|
    requires Stored(atts[..], attsMax, done, g) && Advance(enc, bytes, g, ptr).More?
    modifies atts
    ensures var n := Advance(enc, bytes, g, ptr);
      && next == n.ptr && phase' == n.g.phase && nAtts' == |done + n.closed|
      && Stored(atts[..], attsMax, done + n.closed, n.g)
  {
    phase', next, nAtts' := phase, ptr + 1, nAtts;
    var t := TypeOf(enc, bytes[ptr]);
    if (t.Lead2? || t.Lead3? || t.Lead4? || t.NonAscii? || t.NmStrt? || t.Hex?) {
      if LeadLength(t) > 0 {
        next := ptr + LeadLength(t);
      }
      if phase.Outside? {
        if nAtts < attsMax {
          atts[nAtts] := atts[nAtts].(name := ptr, normalized := true);
        }
        phase' := InName;
      }
    } else if t.Quot? || t.Apos? {
      if !phase.InValuePhase? {
        if nAtts < attsMax {
          atts[nAtts] := atts[nAtts].(valuePtr := ptr + 1);
        }
        phase' := InValuePhase(t);
      } else if phase.open == t {
        phase' := Outside;
        if nAtts < attsMax {
          atts[nAtts] := atts[nAtts].(valueEnd := ptr);
        }
        nAtts' := nAtts + 1;
      }
    } else if t.Amp? {
      if nAtts < attsMax {
        atts[nAtts] := atts[nAtts].(normalized := false);
      }
    } else if IsSpace(t) {
      if phase.InName? {
        phase' := Outside;
      } else if phase.InValuePhase? && nAtts < attsMax && atts[nAtts].normalized
                && (!t.Space? || SpoilsAt(enc, bytes, ptr, atts[nAtts].valuePtr, phase.open)) {
        atts[nAtts] := atts[nAtts].(normalized := false);
      }
    }
  }

  /** Collects the attributes of a tag, storing the first `attsMax`, and counts them all. */
  method GetAtts(enc: Encoding, bytes: seq<byte>, ptr0: nat, attsMax: nat, atts: array<Att>) returns (nAtts: nat)
    requires attsMax <= atts.Length && Collect(enc, bytes, BEGUN, ptr0 + 1).Collected?
    modifies atts
    ensures var c := Collect(enc, bytes, BEGUN, ptr0 + 1);
      nAtts == |c.atts| && forall i :: 0 <= i < nAtts && i < attsMax ==> atts[i] == c.atts[i]
  {
    hide TypeOf, Advance, Collect;
    nAtts := 0;
    var phase, ptr := InName, ptr0 + 1;
    ghost var g, done: seq<Att> := BEGUN, [];
    ghost var all := Collect(enc, bytes, BEGUN, ptr);
    assert [] + all.atts == all.atts;
    CollectedInside(enc, bytes, g, ptr);
    while Continues(enc, bytes, phase, ptr)
      invariant ptr < |bytes| && phase == g.phase && nAtts == |done|
      invariant Stored(atts[..], attsMax, done, g)
      invariant Then(done, Collect(enc, bytes, g, ptr)) == all
      decreases |bytes| - ptr
    {
      CollectNext(enc, bytes, g, ptr, done);
      Goes(enc, bytes, g, ptr);
      ghost var n := Advance(enc, bytes, g, ptr);
      phase, ptr, nAtts := StoreChar(enc, bytes, ptr, phase, nAtts, attsMax, atts, g, done);
      g, done := n.g, done + n.closed;
      CollectedInside(enc, bytes, g, ptr);
    }
    CollectNext(enc, bytes, g, ptr, done);
    Goes(enc, bytes, g, ptr);
  }

  /** The pass goes on but at the character that closes the tag. */
  predicate Continues(enc: Encoding, bytes: seq<byte>, phase: Phase, ptr: nat)
    requires ptr < |bytes|
  {
    !(TypeOf(enc, bytes[ptr]).GtSign? || TypeOf(enc, bytes[ptr]).Sol?) || phase.InValuePhase?
  }

  lemma Goes(enc: Encoding, bytes: seq<byte>, g: Slot, p: nat)
    requires p < |bytes|
    ensures Continues(enc, bytes, g.phase, p) <==> Advance(enc, bytes, g, p) != End
    ensures Advance(enc, bytes, g, p).More? ==> Advance(enc, bytes, g, p).ptr > p
  {
  }

  lemma CollectedInside(enc: Encoding, bytes: seq<byte>, g: Slot, p: nat)
    requires Collect(enc, bytes, g, p).Collected?
    ensures p < |bytes|
  {
  }
}
