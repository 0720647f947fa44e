/** The scanners as they are written, each a loop over the input, against the machine. */
module XmlTok {
  import opened Bytes
  import opened XmlSpec

  /** A reference is scanned alike in content and in a value, up to what follows it. */
  function Placed(enc: Encoding, bytes: seq<byte>, place: Place, r: Move): Move
    requires r.Stop? && r.tok.Positive() ==> r.next <= |bytes|
    requires place.InValue? ==> place.open in {Quot, Apos}
  {
    if place.InValue? && r.Stop? && r.tok.Positive() then Scan(enc, bytes, Value(place.open), r.next) else r
  }

  /** A state of scanning a reference in content, and its like in another place. */
  function Put(s: State, place: Place): State
    requires InRef(s)
  {
    match s
    case Ref(_) => Ref(place)
    case RefName(_) => RefName(place)
    case CharRef(_) => CharRef(place)
    case Digits(_) => Digits(place)
    case HexRef(_) => HexRef(place)
    case HexDigits(_) => HexDigits(place)
  }

  lemma StepPlaced(enc: Encoding, bytes: seq<byte>, s: State, place: Place, p: nat)
    requires p < |bytes| && InRef(s) && s.place.InContent?
    ensures var m := StepRef(enc, bytes, s, p);
      && (m.Go? ==> InRef(m.s) && m.s.place.InContent?) && (m.Stop? ==> m.tok != DataChars)
      && StepRef(enc, bytes, Put(s, place), p) ==
         if m.Go? then Go(Put(m.s, place), m.ptr)
         else if m.Stop? && m.tok.Positive() then RefDone(place, m.tok, m.next) else m
  {
    hide TypeOf, CheckName, CheckNmstrt;
  }

  lemma {:induction false} RefPlaced(enc: Encoding, bytes: seq<byte>, s: State, place: Place, p: nat)
    requires p <= |bytes| && InRef(s) && s.place.InContent? && (place.InValue? ==> place.open in {Quot, Apos})
    ensures var r := Scan(enc, bytes, s, p);
      (r.Stop? && r.tok.Positive() ==> p < r.next <= |bytes| && r.tok != DataChars) && Scan(enc, bytes, Put(s, place), p) == Placed(enc, bytes, place, r)
    decreases |bytes| - p
  {
    hide TypeOf, StepRef, Scan;
    Unfold(enc, bytes, s, p);
    Unfold(enc, bytes, Put(s, place), p);
    if p < |bytes| {
      StepPlaced(enc, bytes, s, place, p);
      var m := StepRef(enc, bytes, s, p);
      if m.Go? {
        RefPlaced(enc, bytes, m.s, place, m.ptr);
      }
    }
  }

  method BodyChar(enc: Encoding, bytes: seq<byte>, ptr: nat, s: State) returns (r: Move)
    requires ptr < |bytes|
    ensures r == BodyMove(enc, bytes, ptr, s)
  {
    match CheckChar(enc, bytes, ptr) {
      case Chars(n) => r := Go(s, ptr + n);
      case Unknown => r := Go(s, ptr + 1);
      case Bad => r := Stop(Invalid, ptr);
      case Cut => r := Short(PartialChar);
    }
  }

  method ScanComment(enc: Encoding, bytes: seq<byte>, ptr0: nat) returns (r: Move)
    requires ptr0 <= |bytes|
    ensures r == Scan(enc, bytes, Comment, ptr0)
  {
    hide TypeOf, StepTag, StepPi, StepEnd, StepRef, StepAtts, StepStart, StepData, StepCdata, Scan, CheckChar, CheckName, CheckNmstrt;
    Unfold(enc, bytes, Comment, ptr0);
    var ptr := ptr0;
    if ptr < |bytes| {
      if bytes[ptr] != A_MINUS {
        return Stop(Invalid, ptr);
      }
      ptr := ptr + 1;
      while ptr < |bytes|
        invariant ptr <= |bytes| && Scan(enc, bytes, CommentBody, ptr) == Scan(enc, bytes, Comment, ptr0)
      {
        Unfold(enc, bytes, CommentBody, ptr);
        if TypeOf(enc, bytes[ptr]).Minus? {
          ptr := ptr + 1;
          Unfold(enc, bytes, CommentMinus, ptr);
          if ptr == |bytes| {
            return Short(Partial);
          }
          if bytes[ptr] == A_MINUS {
            ptr := ptr + 1;
            Unfold(enc, bytes, CommentEnd, ptr);
            if ptr == |bytes| {
              return Short(Partial);
            }
            if bytes[ptr] != A_GT {
              return Stop(Invalid, ptr);
            }
            return Stop(CommentTok, ptr + 1);
          }
          Unfold(enc, bytes, CommentBody, ptr);
        } else {
          r := BodyChar(enc, bytes, ptr, CommentBody);
          if !r.Go? {
            return;
          }
          ptr := r.ptr;
        }
      }
      Unfold(enc, bytes, CommentBody, ptr);
    }
    return Short(Partial);
  }

  method ScanCdataSection(ghost enc: Encoding, bytes: seq<byte>, ptr0: nat) returns (r: Move)
    requires ptr0 <= |bytes|
    ensures r == Scan(enc, bytes, Cdata, ptr0)
  {
    hide TypeOf, StepTag, StepComment, StepPi, StepEnd, StepRef, StepAtts, StepStart, StepData, Scan, CheckChar, CheckName, CheckNmstrt;
    Unfold(enc, bytes, Cdata, ptr0);
    if |bytes| - ptr0 < 6 {
      return Short(Partial);
    }
    for i := 0 to 6
      invariant Agree(CDATA_LSQB, bytes[ptr0..ptr0 + 6]) == i + Agree(CDATA_LSQB[i..], bytes[ptr0 + i..ptr0 + 6])
    {
      if bytes[ptr0 + i] != CDATA_LSQB[i] {
        return Stop(Invalid, ptr0 + i);
      }
      assert bytes[ptr0 + i..ptr0 + 6][1..] == bytes[ptr0 + i + 1..ptr0 + 6];
      assert CDATA_LSQB[i..][1..] == CDATA_LSQB[i + 1..];
    }
    return Stop(CdataSectOpen, ptr0 + 6);
  }

  method ScanEndSpace(enc: Encoding, bytes: seq<byte>, ptr0: nat) returns (r: Move)
    requires ptr0 <= |bytes|
    ensures r == Scan(enc, bytes, EndSpace, ptr0)
  {
    hide TypeOf, StepTag, StepComment, StepPi, StepRef, StepAtts, StepStart, StepData, StepCdata, Scan;
    var ptr := ptr0;
    while ptr < |bytes|
      invariant ptr <= |bytes| && Scan(enc, bytes, EndSpace, ptr) == Scan(enc, bytes, EndSpace, ptr0)
    {
      Unfold(enc, bytes, EndSpace, ptr);
      var t := TypeOf(enc, bytes[ptr]);
      if t.GtSign? {
        return Stop(EndTag, ptr + 1);
      }
      if !IsSpace(t) {
        return Stop(Invalid, ptr);
      }
      ptr := ptr + 1;
    }
    Unfold(enc, bytes, EndSpace, ptr);
    return Short(Partial);
  }

  method ScanEndTag(enc: Encoding, bytes: seq<byte>, ptr0: nat) returns (r: Move)
    requires ptr0 <= |bytes|
    ensures r == Scan(enc, bytes, EndStart, ptr0)
  {
    hide TypeOf, StepTag, StepComment, StepPi, StepRef, StepAtts, StepStart, StepData, StepCdata, Scan, CheckChar, CheckName, CheckNmstrt;
    Unfold(enc, bytes, EndStart, ptr0);
    var ptr := ptr0;
    if ptr == |bytes| {
      return Short(Partial);
    }
    r := Must(CheckNmstrt(enc, bytes, ptr), ptr, EndName);
    if !r.Go? {
      return;
    }
    ptr := r.ptr;
    while ptr < |bytes|
      invariant ptr <= |bytes| && Scan(enc, bytes, EndName, ptr) == Scan(enc, bytes, EndStart, ptr0)
    {
      Unfold(enc, bytes, EndName, ptr);
      var t := TypeOf(enc, bytes[ptr]);
      if IsSpace(t) {
        r := ScanEndSpace(enc, bytes, ptr + 1);
        return;
      }
      if t.GtSign? {
        return Stop(EndTag, ptr + 1);
      }
      if t.Colon? {
        ptr := ptr + 1;
      } else {
        r := Must(CheckName(enc, bytes, ptr), ptr, EndName);
        if !r.Go? {
          return;
        }
        ptr := r.ptr;
      }
    }
    Unfold(enc, bytes, EndName, ptr);
    return Short(Partial);
  }

  method ScanHexCharRef(enc: Encoding, bytes: seq<byte>, ptr0: nat) returns (r: Move)
    requires ptr0 <= |bytes|
    ensures r == Scan(enc, bytes, HexRef(InContent), ptr0)
  {
    hide TypeOf, StepTag, StepComment, StepPi, StepEnd, StepAtts, StepStart, StepData, StepCdata, Scan, CheckChar, CheckName, CheckNmstrt;
    Unfold(enc, bytes, HexRef(InContent), ptr0);
    if ptr0 < |bytes| {
      if !(TypeOf(enc, bytes[ptr0]).Digit? || TypeOf(enc, bytes[ptr0]).Hex?) {
        return Stop(Invalid, ptr0);
      }
      var ptr := ptr0 + 1;
      while ptr < |bytes|
        invariant ptr <= |bytes|
        invariant Scan(enc, bytes, HexDigits(InContent), ptr) == Scan(enc, bytes, HexRef(InContent), ptr0)
      {
        Unfold(enc, bytes, HexDigits(InContent), ptr);
        var t := TypeOf(enc, bytes[ptr]);
        if t.Semi? {
          return Stop(CharRefTok, ptr + 1);
        }
        if !(t.Digit? || t.Hex?) {
          return Stop(Invalid, ptr);
        }
        ptr := ptr + 1;
      }
      Unfold(enc, bytes, HexDigits(InContent), ptr);
    }
    return Short(Partial);
  }

  method ScanCharRef(enc: Encoding, bytes: seq<byte>, ptr0: nat) returns (r: Move)
    requires ptr0 <= |bytes|
    ensures r == Scan(enc, bytes, CharRef(InContent), ptr0)
  {
    hide TypeOf, StepTag, StepComment, StepPi, StepEnd, StepAtts, StepStart, StepData, StepCdata, Scan, CheckChar, CheckName, CheckNmstrt;
    Unfold(enc, bytes, CharRef(InContent), ptr0);
    if ptr0 < |bytes| {
      if bytes[ptr0] == A_X {
        r := ScanHexCharRef(enc, bytes, ptr0 + 1);
        return;
      }
      if !TypeOf(enc, bytes[ptr0]).Digit? {
        return Stop(Invalid, ptr0);
      }
      var ptr := ptr0 + 1;
      while ptr < |bytes|
        invariant ptr <= |bytes|
        invariant Scan(enc, bytes, Digits(InContent), ptr) == Scan(enc, bytes, CharRef(InContent), ptr0)
      {
        Unfold(enc, bytes, Digits(InContent), ptr);
        var t := TypeOf(enc, bytes[ptr]);
        if t.Semi? {
          return Stop(CharRefTok, ptr + 1);
        }
        if !t.Digit? {
          return Stop(Invalid, ptr);
        }
        ptr := ptr + 1;
      }
      Unfold(enc, bytes, Digits(InContent), ptr);
    }
    return Short(Partial);
  }

  method ScanRef(enc: Encoding, bytes: seq<byte>, ptr0: nat) returns (r: Move)
    requires ptr0 <= |bytes|
    ensures r == Scan(enc, bytes, Ref(InContent), ptr0)
  {
    hide TypeOf, StepTag, StepComment, StepPi, StepEnd, StepAtts, StepStart, StepData, StepCdata, Scan, CheckChar, CheckName, CheckNmstrt;
    Unfold(enc, bytes, Ref(InContent), ptr0);
    var ptr := ptr0;
    if ptr == |bytes| {
      return Short(Partial);
    }
    if TypeOf(enc, bytes[ptr]).Num? {
      r := ScanCharRef(enc, bytes, ptr + 1);
      return;
    }
    r := Must(CheckNmstrt(enc, bytes, ptr), ptr, RefName(InContent));
    if !r.Go? {
      return;
    }
    ptr := r.ptr;
    while ptr < |bytes|
      invariant ptr <= |bytes| && Scan(enc, bytes, RefName(InContent), ptr) == Scan(enc, bytes, Ref(InContent), ptr0)
    {
      Unfold(enc, bytes, RefName(InContent), ptr);
      if TypeOf(enc, bytes[ptr]).Semi? {
        return Stop(EntityRef, ptr + 1);
      }
      r := Must(CheckName(enc, bytes, ptr), ptr, RefName(InContent));
      if !r.Go? {
        return;
      }
      ptr := r.ptr;
    }
    Unfold(enc, bytes, RefName(InContent), ptr);
    return Short(Partial);
  }

  // ---- Processing instructions ----

  method CheckPiTarget(target: seq<byte>) returns (tok: Token)
    ensures tok == PiToken(target)
  {
    var upper := false;
    if |target| != 3 {
      return XmlSpec.Pi;
    }
    if target[0] == 0x58 {
      upper := true;
    } else if target[0] != 0x78 {
      return XmlSpec.Pi;
    }
    if target[1] == 0x4d {
      upper := true;
    } else if target[1] != 0x6d {
      return XmlSpec.Pi;
    }
    if target[2] == 0x4c {
      upper := true;
    } else if target[2] != 0x6c {
      return XmlSpec.Pi;
    }
    return if upper then Invalid else XmlDecl;
  }

  method ScanPiBody(enc: Encoding, bytes: seq<byte>, ptr0: nat, tok: Token) returns (r: Move)
    requires ptr0 <= |bytes| && tok in {XmlSpec.Pi, XmlDecl}
    ensures r == Scan(enc, bytes, PiBody(tok), ptr0)
  {
    hide TypeOf, StepTag, StepComment, StepEnd, StepRef, StepAtts, StepStart, StepData, StepCdata, Scan, CheckChar, PiToken;
    var ptr := ptr0;
    while ptr < |bytes|
      invariant ptr <= |bytes| && Scan(enc, bytes, PiBody(tok), ptr) == Scan(enc, bytes, PiBody(tok), ptr0)
    {
      Unfold(enc, bytes, PiBody(tok), ptr);
      if TypeOf(enc, bytes[ptr]).Quest? {
        ptr := ptr + 1;
        Unfold(enc, bytes, PiQuest(tok), ptr);
        if ptr == |bytes| {
          return Short(Partial);
        }
        if bytes[ptr] == A_GT {
          return Stop(tok, ptr + 1);
        }
        Unfold(enc, bytes, PiBody(tok), ptr);
      } else {
        r := BodyChar(enc, bytes, ptr, PiBody(tok));
        if !r.Go? {
          return;
        }
        ptr := r.ptr;
      }
    }
    Unfold(enc, bytes, PiBody(tok), ptr);
    return Short(Partial);
  }

  method ScanPi(enc: Encoding, bytes: seq<byte>, ptr0: nat) returns (r: Move)
    requires ptr0 <= |bytes|
    ensures r == Scan(enc, bytes, PiStart, ptr0)
  {
    hide TypeOf, StepTag, StepComment, StepEnd, StepRef, StepAtts, StepStart, StepData, StepCdata, Scan, CheckName, CheckNmstrt, PiToken;
    Unfold(enc, bytes, PiStart, ptr0);
    var ptr := ptr0;
    if ptr == |bytes| {
      return Short(Partial);
    }
    r := Must(CheckNmstrt(enc, bytes, ptr), ptr, PiTarget(ptr));
    if !r.Go? {
      return;
    }
    ptr := r.ptr;
    while ptr < |bytes|
      invariant ptr0 <= ptr <= |bytes| && Scan(enc, bytes, PiTarget(ptr0), ptr) == Scan(enc, bytes, PiStart, ptr0)
    {
      Unfold(enc, bytes, PiTarget(ptr0), ptr);
      var t := TypeOf(enc, bytes[ptr]);
      if IsSpace(t) || t.Quest? {
        r := EndPiTarget(enc, bytes, ptr0, ptr);
        return;
      }
      r := Must(CheckName(enc, bytes, ptr), ptr, PiTarget(ptr0));
      if !r.Go? {
        return;
      }
      ptr := r.ptr;
    }
    Unfold(enc, bytes, PiTarget(ptr0), ptr);
    return Short(Partial);
  }

  /** At the space or question mark that ends a target. */
  method EndPiTarget(enc: Encoding, bytes: seq<byte>, from: nat, ptr0: nat) returns (r: Move)
    requires from <= ptr0 < |bytes| && (IsSpace(TypeOf(enc, bytes[ptr0])) || TypeOf(enc, bytes[ptr0]).Quest?)
    ensures r == Scan(enc, bytes, PiTarget(from), ptr0)
  {
    hide TypeOf, StepTag, StepComment, StepEnd, StepRef, StepAtts, StepStart, StepData, StepCdata, Scan, CheckName, CheckChar;
    Unfold(enc, bytes, PiTarget(from), ptr0);
    var tok := CheckPiTarget(bytes[from..ptr0]);
    if tok == Invalid {
      return Stop(Invalid, ptr0);
    }
    if !TypeOf(enc, bytes[ptr0]).Quest? {
      r := ScanPiBody(enc, bytes, ptr0 + 1, tok);
      return;
    }
    Unfold(enc, bytes, PiShort(tok), ptr0 + 1);
    if ptr0 + 1 == |bytes| {
      return Short(Partial);
    }
    return if bytes[ptr0 + 1] == A_GT then Stop(tok, ptr0 + 2) else Stop(Invalid, ptr0 + 1);
  }

  // ---- Attributes ----

  /** The scan from `s` at `p` has got to `r`, or ended there. */
  ghost predicate Leads(enc: Encoding, bytes: seq<byte>, s: State, p: nat, r: Move)
    requires p <= |bytes| && StateOk(s, p)
  {
    if r.Go? then
      p < r.ptr <= |bytes| && StateOk(r.s, r.ptr) && Scan(enc, bytes, s, p) == Scan(enc, bytes, r.s, r.ptr)
    else r == Scan(enc, bytes, s, p)
  }

  method ToEquals(enc: Encoding, bytes: seq<byte>, ptr0: nat) returns (r: Move)
    requires ptr0 <= |bytes|
    ensures Leads(enc, bytes, AttSpace, ptr0, r) && (r.Go? ==> r.s == AttEquals)
  {
    hide TypeOf, StepTag, StepComment, StepPi, StepEnd, StepRef, StepStart, StepData, StepCdata, Scan, CheckChar, CheckName, CheckNmstrt;
    var ptr := ptr0;
    while ptr < |bytes|
      invariant ptr0 <= ptr <= |bytes| && Scan(enc, bytes, AttSpace, ptr) == Scan(enc, bytes, AttSpace, ptr0)
    {
      Unfold(enc, bytes, AttSpace, ptr);
      var t := TypeOf(enc, bytes[ptr]);
      if t.Equals? {
        return Go(AttEquals, ptr + 1);
      }
      if !IsSpace(t) {
        return Stop(Invalid, ptr);
      }
      ptr := ptr + 1;
    }
    Unfold(enc, bytes, AttSpace, ptr);
    return Short(Partial);
  }

  method ToQuote(enc: Encoding, bytes: seq<byte>, ptr0: nat) returns (r: Move)
    requires ptr0 <= |bytes|
    ensures Leads(enc, bytes, AttEquals, ptr0, r) && (r.Go? ==> r.s.Value?)
  {
    hide TypeOf, StepTag, StepComment, StepPi, StepEnd, StepRef, StepStart, StepData, StepCdata, Scan, CheckChar, CheckName, CheckNmstrt;
    var ptr := ptr0;
    while ptr < |bytes|
      invariant ptr0 <= ptr <= |bytes| && Scan(enc, bytes, AttEquals, ptr) == Scan(enc, bytes, AttEquals, ptr0)
    {
      Unfold(enc, bytes, AttEquals, ptr);
      var open := TypeOf(enc, bytes[ptr]);
      if open == Quot || open == Apos {
        return Go(Value(open), ptr + 1);
      }
      if !IsSpace(open) {
        return Stop(Invalid, ptr);
      }
      ptr := ptr + 1;
    }
    Unfold(enc, bytes, AttEquals, ptr);
    return Short(Partial);
  }

  method ScanValue(enc: Encoding, bytes: seq<byte>, open: ByteType, ptr0: nat) returns (r: Move)
    requires ptr0 <= |bytes| && open in {Quot, Apos}
    ensures Leads(enc, bytes, Value(open), ptr0, r) && (r.Go? ==> r.s == AttEnd)
  {
    hide TypeOf, StepTag, StepComment, StepPi, StepEnd, StepRef, StepStart, StepData, StepCdata, Scan, CheckChar, CheckName, CheckNmstrt;
    var ptr := ptr0;
    while ptr < |bytes|
      invariant ptr0 <= ptr <= |bytes| && Scan(enc, bytes, Value(open), ptr) == Scan(enc, bytes, Value(open), ptr0)
    {
      Unfold(enc, bytes, Value(open), ptr);
      var t := TypeOf(enc, bytes[ptr]);
      if t == open {
        return Go(AttEnd, ptr + 1);
      }
      if t.Amp? {
        RefPlaced(enc, bytes, Ref(InContent), InValue(open), ptr + 1);
        r := ScanRef(enc, bytes, ptr + 1);
        if !(r.Stop? && r.tok.Positive()) {
          return;
        }
        ptr := r.next;
      } else if t.LtSign? {
        return Stop(Invalid, ptr);
      } else {
        r := BodyChar(enc, bytes, ptr, Value(open));
        if !r.Go? {
          return;
        }
        ptr := r.ptr;
      }
    }
    Unfold(enc, bytes, Value(open), ptr);
    return Short(Partial);
  }

  /** At the character after a closing quote. */
  method AfterValue(enc: Encoding, bytes: seq<byte>, ptr0: nat) returns (r: Move)
    requires ptr0 <= |bytes|
    ensures Leads(enc, bytes, AttEnd, ptr0, r) && (r.Go? ==> r.s == Atts(false))
  {
    hide TypeOf, StepTag, StepComment, StepPi, StepEnd, StepRef, StepStart, StepData, StepCdata, Scan, CheckChar, CheckName, CheckNmstrt;
    Unfold(enc, bytes, AttEnd, ptr0);
    if ptr0 == |bytes| {
      return Short(Partial);
    }
    var t := TypeOf(enc, bytes[ptr0]);
    if t.Sol? {
      r := ScanAttSlash(enc, bytes, ptr0 + 1);
      return;
    }
    if t.GtSign? {
      return Stop(StartTagWithAtts, ptr0 + 1);
    }
    if !IsSpace(t) {
      return Stop(Invalid, ptr0);
    }
    r := NextAtt(enc, bytes, ptr0 + 1);
  }

  method ScanAttSlash(enc: Encoding, bytes: seq<byte>, ptr: nat) returns (r: Move)
    requires ptr <= |bytes|
    ensures r == Scan(enc, bytes, AttSlash, ptr)
  {
    hide TypeOf, Scan;
    Unfold(enc, bytes, AttSlash, ptr);
    if ptr == |bytes| {
      return Short(Partial);
    }
    return if bytes[ptr] != A_GT then Stop(Invalid, ptr) else Stop(EmptyElementWithAtts, ptr + 1);
  }

  method NextAtt(enc: Encoding, bytes: seq<byte>, ptr0: nat) returns (r: Move)
    requires ptr0 <= |bytes|
    ensures Leads(enc, bytes, AttNext, ptr0, r) && (r.Go? ==> r.s == Atts(false))
  {
    hide TypeOf, StepTag, StepComment, StepPi, StepEnd, StepRef, StepStart, StepData, StepCdata, Scan, CheckChar, CheckName, CheckNmstrt;
    var ptr := ptr0;
    while ptr < |bytes|
      invariant ptr0 <= ptr <= |bytes| && Scan(enc, bytes, AttNext, ptr) == Scan(enc, bytes, AttNext, ptr0)
    {
      Unfold(enc, bytes, AttNext, ptr);
      var t := TypeOf(enc, bytes[ptr]);
      if t.GtSign? {
        return Stop(StartTagWithAtts, ptr + 1);
      }
      if t.Sol? {
        r := ScanAttSlash(enc, bytes, ptr + 1);
        return;
      }
      if !IsSpace(t) {
        r := Must(CheckNmstrt(enc, bytes, ptr), ptr, Atts(false));
        return;
      }
      ptr := ptr + 1;
    }
    Unfold(enc, bytes, AttNext, ptr);
    return Short(Partial);
  }

  /** From the end of an attribute's name to the start of the next name, if there is one. */
  method Attribute(enc: Encoding, bytes: seq<byte>, colon: bool, ptr: nat) returns (r: Move)
    requires ptr < |bytes| && (IsSpace(TypeOf(enc, bytes[ptr])) || TypeOf(enc, bytes[ptr]).Equals?)
    ensures Leads(enc, bytes, Atts(colon), ptr, r) && (r.Go? ==> r.s == Atts(false))
  {
    hide TypeOf, StepTag, StepComment, StepPi, StepEnd, StepRef, StepStart, StepData, StepCdata, Scan, CheckChar, CheckName, CheckNmstrt;
    Unfold(enc, bytes, Atts(colon), ptr);
    r := Go(AttEquals, ptr + 1);
    if !TypeOf(enc, bytes[ptr]).Equals? {
      r := ToEquals(enc, bytes, ptr + 1);
      if !r.Go? {
        return;
      }
    }
    r := ToQuote(enc, bytes, r.ptr);
    if !r.Go? {
      return;
    }
    r := ScanValue(enc, bytes, r.s.open, r.ptr);
    if !r.Go? {
      return;
    }
    r := AfterValue(enc, bytes, r.ptr);
  }

  method ScanAtts(enc: Encoding, bytes: seq<byte>, ptr0: nat) returns (r: Move)
    requires ptr0 <= |bytes|
    ensures r == Scan(enc, bytes, Atts(false), ptr0)
  {
    hide TypeOf, StepTag, StepComment, StepPi, StepEnd, StepRef, StepStart, StepData, StepCdata, Scan, CheckChar, CheckName, CheckNmstrt;
    var ptr, hadColon := ptr0, false;
    while ptr < |bytes|
      invariant ptr <= |bytes| && Scan(enc, bytes, Atts(hadColon), ptr) == Scan(enc, bytes, Atts(false), ptr0)
    {
      Unfold(enc, bytes, Atts(hadColon), ptr);
      var t := TypeOf(enc, bytes[ptr]);
      if IsSpace(t) || t.Equals? {
        r := Attribute(enc, bytes, hadColon, ptr);
        hadColon := false;
      } else if t.Colon? {
        if hadColon {
          return Stop(Invalid, ptr);
        }
        hadColon := true;
        r := AfterColon(enc, bytes, ptr + 1, AttColon, Atts(true));
      } else {
        r := Must(CheckName(enc, bytes, ptr), ptr, Atts(hadColon));
      }
      if !r.Go? {
        return;
      }
      ptr := r.ptr;
    }
    Unfold(enc, bytes, Atts(hadColon), ptr);
    return Short(Partial);
  }

  /** The character after a colon must start a name. */
  method AfterColon(enc: Encoding, bytes: seq<byte>, ptr: nat, s: State, next: State) returns (r: Move)
    requires ptr <= |bytes| && (s, next) in {(AttColon, Atts(true)), (TagColon, TagName(true))}
    ensures Leads(enc, bytes, s, ptr, r) && (r.Go? ==> r.s == next)
  {
    hide TypeOf, Scan, CheckNmstrt;
    Unfold(enc, bytes, s, ptr);
    if ptr == |bytes| {
      return Short(Partial);
    }
    r := Must(CheckNmstrt(enc, bytes, ptr), ptr, next);
  }

  // ---- Tags and content ----

  method ScanTagSlash(enc: Encoding, bytes: seq<byte>, ptr: nat) returns (r: Move)
    requires ptr <= |bytes|
    ensures r == Scan(enc, bytes, TagSlash, ptr)
  {
    hide TypeOf, Scan;
    Unfold(enc, bytes, TagSlash, ptr);
    if ptr == |bytes| {
      return Short(Partial);
    }
    return if bytes[ptr] != A_GT then Stop(Invalid, ptr) else Stop(EmptyElementNoAtts, ptr + 1);
  }

  method ScanTagSpace(enc: Encoding, bytes: seq<byte>, ptr0: nat) returns (r: Move)
    requires ptr0 <= |bytes|
    ensures r == Scan(enc, bytes, TagSpace, ptr0)
  {
    hide TypeOf, StepAtts, StepComment, StepPi, StepEnd, StepRef, StepStart, StepData, StepCdata, Scan, CheckChar, CheckName, CheckNmstrt;
    var ptr := ptr0;
    while ptr < |bytes|
      invariant ptr <= |bytes| && Scan(enc, bytes, TagSpace, ptr) == Scan(enc, bytes, TagSpace, ptr0)
    {
      Unfold(enc, bytes, TagSpace, ptr);
      var t := TypeOf(enc, bytes[ptr]);
      if t.GtSign? {
        return Stop(StartTagNoAtts, ptr + 1);
      }
      if t.Sol? {
        r := ScanTagSlash(enc, bytes, ptr + 1);
        return;
      }
      if !IsSpace(t) {
        r := Must(CheckNmstrt(enc, bytes, ptr), ptr, Atts(false));
        if r.Go? {
          r := ScanAtts(enc, bytes, r.ptr);
        }
        return;
      }
      ptr := ptr + 1;
    }
    Unfold(enc, bytes, TagSpace, ptr);
    return Short(Partial);
  }

  method ScanTagName(enc: Encoding, bytes: seq<byte>, ptr0: nat) returns (r: Move)
    requires ptr0 <= |bytes|
    ensures r == Scan(enc, bytes, TagName(false), ptr0)
  {
    hide TypeOf, StepAtts, StepComment, StepPi, StepEnd, StepRef, StepStart, StepData, StepCdata, Scan, CheckChar, CheckName, CheckNmstrt;
    var ptr, hadColon := ptr0, false;
    while ptr < |bytes|
      invariant ptr <= |bytes| && Scan(enc, bytes, TagName(hadColon), ptr) == Scan(enc, bytes, TagName(false), ptr0)
    {
      Unfold(enc, bytes, TagName(hadColon), ptr);
      var t := TypeOf(enc, bytes[ptr]);
      if t.Colon? {
        if hadColon {
          return Stop(Invalid, ptr);
        }
        hadColon := true;
        r := AfterColon(enc, bytes, ptr + 1, TagColon, TagName(true));
      } else if IsSpace(t) {
        r := ScanTagSpace(enc, bytes, ptr + 1);
      } else if t.GtSign? {
        r := Stop(StartTagNoAtts, ptr + 1);
      } else if t.Sol? {
        r := ScanTagSlash(enc, bytes, ptr + 1);
      } else {
        r := Must(CheckName(enc, bytes, ptr), ptr, TagName(hadColon));
      }
      if !r.Go? {
        return;
      }
      ptr := r.ptr;
    }
    Unfold(enc, bytes, TagName(hadColon), ptr);
    return Short(Partial);
  }

  method ScanBang(enc: Encoding, bytes: seq<byte>, ptr: nat) returns (r: Move)
    requires ptr <= |bytes|
    ensures r == Scan(enc, bytes, Bang, ptr)
  {
    hide TypeOf, Scan;
    Unfold(enc, bytes, Bang, ptr);
    if ptr == |bytes| {
      return Short(Partial);
    }
    var t := TypeOf(enc, bytes[ptr]);
    if t.Minus? {
      r := ScanComment(enc, bytes, ptr + 1);
    } else if t.LSqb? {
      r := ScanCdataSection(enc, bytes, ptr + 1);
    } else {
      r := Stop(Invalid, ptr);
    }
  }

  method ScanLt(enc: Encoding, bytes: seq<byte>, ptr: nat) returns (r: Move)
    requires ptr <= |bytes|
    ensures r == Scan(enc, bytes, Lt, ptr)
  {
    hide TypeOf, Scan, CheckNmstrt;
    Unfold(enc, bytes, Lt, ptr);
    if ptr == |bytes| {
      return Short(Partial);
    }
    var t := TypeOf(enc, bytes[ptr]);
    if t.Excl? {
      r := ScanBang(enc, bytes, ptr + 1);
    } else if t.Quest? {
      r := ScanPi(enc, bytes, ptr + 1);
    } else if t.Sol? {
      r := ScanEndTag(enc, bytes, ptr + 1);
    } else {
      r := Must(CheckNmstrt(enc, bytes, ptr), ptr, TagName(false));
      if r.Go? {
        r := ScanTagName(enc, bytes, r.ptr);
      }
    }
  }

  /** Data characters, as many as come together. */
  method ScanData(enc: Encoding, bytes: seq<byte>, ptr0: nat) returns (r: Move)
    requires ptr0 <= |bytes|
    ensures r == Scan(enc, bytes, Data, ptr0)
  {
    hide TypeOf, StepTag, StepAtts, StepComment, StepPi, StepEnd, StepRef, StepStart, StepCdata, Scan, CheckChar;
    var ptr := ptr0;
    while ptr < |bytes|
      invariant ptr <= |bytes| && Scan(enc, bytes, Data, ptr) == Scan(enc, bytes, Data, ptr0)
    {
      Unfold(enc, bytes, Data, ptr);
      r := DataChar(enc, bytes, ptr);
      if !r.Go? {
        return;
      }
      ptr := r.ptr;
    }
    Unfold(enc, bytes, Data, ptr);
    return Stop(DataChars, ptr);
  }

  method DataChar(enc: Encoding, bytes: seq<byte>, ptr: nat) returns (r: Move)
    requires ptr < |bytes|
    ensures r == StepData(enc, bytes, ptr)
  {
    var t := TypeOf(enc, bytes[ptr]);
    if t.RSqb? {
      if |bytes| - ptr >= 2 {
        if bytes[ptr + 1] != A_RSQB {
          return Go(Data, ptr + 1);
        }
        if |bytes| - ptr >= 3 {
          return if bytes[ptr + 2] != A_GT then Go(Data, ptr + 1) else Stop(Invalid, ptr + 2);
        }
      }
      return Stop(DataChars, ptr);
    }
    if (t.Amp? || t.LtSign? || t.Cr? || t.Lf?) {
      return Stop(DataChars, ptr);
    }
    match CheckChar(enc, bytes, ptr) {
      case Chars(n) => r := Go(Data, ptr + n);
      case Unknown => r := Go(Data, ptr + 1);
      case _ => r := Stop(DataChars, ptr);
    }
  }

  /** The first token of the content at `ptr`. */
  method ContentTok(enc: Encoding, bytes: seq<byte>, ptr: nat) returns (r: Move)
    requires ptr <= |bytes|
    ensures r == Scan(enc, bytes, Start, ptr)
  {
    hide TypeOf, Scan, CheckChar;
    Unfold(enc, bytes, Start, ptr);
    if ptr == |bytes| {
      return Short(None);
    }
    r := FirstChar(enc, bytes, ptr);
    if r.Go? {
      if r.s == Lt {
        r := ScanLt(enc, bytes, r.ptr);
      } else if r.s.Ref? {
        r := ScanRef(enc, bytes, r.ptr);
      } else {
        r := ScanData(enc, bytes, r.ptr);
      }
    }
  }

  method FirstChar(enc: Encoding, bytes: seq<byte>, ptr: nat) returns (r: Move)
    requires ptr < |bytes|
    ensures r == StepStart(enc, bytes, ptr)
    ensures r.Go? ==> r.s in {Lt, Ref(InContent), Data}
  {
    match TypeOf(enc, bytes[ptr]) {
      case LtSign => r := Go(Lt, ptr + 1);
      case Amp => r := Go(Ref(InContent), ptr + 1);
      case Cr =>
        if ptr + 1 == |bytes| {
          return Short(TrailingCr);
        }
        r := Stop(DataNewline, if TypeOf(enc, bytes[ptr + 1]).Lf? then ptr + 2 else ptr + 1);
      case Lf => r := Stop(DataNewline, ptr + 1);
      case RSqb =>
        if ptr + 1 == |bytes| {
          return Short(TrailingRSqb);
        }
        if bytes[ptr + 1] != A_RSQB {
          return Go(Data, ptr + 1);
        }
        if ptr + 2 == |bytes| {
          return Short(TrailingRSqb);
        }
        r := if bytes[ptr + 2] != A_GT then Go(Data, ptr + 1) else Stop(Invalid, ptr + 2);
      case _ => r := BodyChar(enc, bytes, ptr, Data);
    }
  }
}
