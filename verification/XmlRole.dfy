/** Element declarations: the machine that gives the tokens of a content model their roles, and
    the grammar of sections 3.2, 3.2.1 and 3.2.2 of XML 1.0 that it decides with one counter. */
module XmlRole {
  import opened Seqs

  /** Tokens between the element's name and the end of its declaration. A name may be one of
      the keywords, and a name after a number sign may be PCDATA. */
  datatype Tok =
    | Space | EmptyName | AnyName | PlainName | PrefixedName | NameQuestion | NameAsterisk | NamePlus
    | PcdataName | OtherPound | OpenParen | CloseParen | CloseParenQuestion | CloseParenAsterisk | CloseParenPlus
    | Or | Comma | DeclEnd | OtherTok

  datatype Role =
    | Error | ElementNone | ContentEmpty | ContentAny | ContentPcdata
    | GroupOpen | GroupClose | GroupCloseOpt | GroupCloseRep | GroupClosePlus | GroupSequence | GroupChoice
    | ContentElement | ContentElementOpt | ContentElementRep | ContentElementPlus

  datatype Handler =
    | Element1 | Element2 | Element3 | Element4 | Element5 | Element6 | Element7 | DeclClose | TopLevel | Failed

  datatype Machine = Machine(handler: Handler, level: int)

  datatype Out = Out(m: Machine, role: Role)

  predicate IsName(t: Tok) { t.EmptyName? || t.AnyName? || t.PlainName? || t.PrefixedName? }

  predicate IsLeaf(t: Tok) { IsName(t) || (t.NameQuestion? || t.NameAsterisk? || t.NamePlus?) }

  predicate IsClose(t: Tok) { t.CloseParen? || t.CloseParenQuestion? || t.CloseParenAsterisk? || t.CloseParenPlus? }

  function LeafRole(t: Tok): Role {
    match t
    case NameQuestion => ContentElementOpt
    case NameAsterisk => ContentElementRep
    case NamePlus => ContentElementPlus
    case _ => ContentElement
  }

  function CloseRole(t: Tok): Role {
    match t
    case CloseParenQuestion => GroupCloseOpt
    case CloseParenAsterisk => GroupCloseRep
    case CloseParenPlus => GroupClosePlus
    case _ => GroupClose
  }

  function Fail(m: Machine): Out { Out(m.(handler := Failed), Error) }

  function OnElement1(m: Machine, t: Tok): Out {
    if t.Space? then Out(m, ElementNone)
    else if t.EmptyName? then Out(m.(handler := DeclClose), ContentEmpty)
    else if t.AnyName? then Out(m.(handler := DeclClose), ContentAny)
    else if t.OpenParen? then Out(Machine(Element2, 1), GroupOpen)
    else Fail(m)
  }

  function OnElement2(m: Machine, t: Tok): Out {
    if t.Space? then Out(m, ElementNone)
    else if t.PcdataName? then Out(m.(handler := Element3), ContentPcdata)
    else if t.OpenParen? then Out(Machine(Element6, 2), GroupOpen)
    else if IsLeaf(t) then Out(m.(handler := Element7), LeafRole(t))
    else Fail(m)
  }

  function OnElement3(m: Machine, t: Tok): Out {
    if t.Space? then Out(m, ElementNone)
    else if t.CloseParen? then Out(m.(handler := DeclClose), GroupClose)
    else if t.CloseParenAsterisk? then Out(m.(handler := DeclClose), GroupCloseRep)
    else if t.Or? then Out(m.(handler := Element4), ElementNone)
    else Fail(m)
  }

  function OnElement4(m: Machine, t: Tok): Out {
    if t.Space? then Out(m, ElementNone)
    else if IsName(t) then Out(m.(handler := Element5), ContentElement)
    else Fail(m)
  }

  function OnElement5(m: Machine, t: Tok): Out {
    if t.Space? then Out(m, ElementNone)
    else if t.CloseParenAsterisk? then Out(m.(handler := DeclClose), GroupCloseRep)
    else if t.Or? then Out(m.(handler := Element4), ElementNone)
    else Fail(m)
  }

  function OnElement6(m: Machine, t: Tok): Out {
    if t.Space? then Out(m, ElementNone)
    else if t.OpenParen? then Out(m.(level := m.level + 1), GroupOpen)
    else if IsLeaf(t) then Out(m.(handler := Element7), LeafRole(t))
    else Fail(m)
  }

  function OnElement7(m: Machine, t: Tok): Out {
    if t.Space? then Out(m, ElementNone)
    else if IsClose(t) then
      Out(Machine(if m.level - 1 == 0 then DeclClose else Element7, m.level - 1), CloseRole(t))
    else if t.Comma? then Out(m.(handler := Element6), GroupSequence)
    else if t.Or? then Out(m.(handler := Element6), GroupChoice)
    else Fail(m)
  }

  function OnDeclClose(m: Machine, t: Tok): Out {
    if t.Space? then Out(m, ElementNone)
    else if t.DeclEnd? then Out(m.(handler := TopLevel), ElementNone)
    else Fail(m)
  }

  function Step(m: Machine, t: Tok): Out {
    if m.handler.Element1? then OnElement1(m, t)
    else if m.handler.Element2? then OnElement2(m, t)
    else if m.handler.Element3? then OnElement3(m, t)
    else if m.handler.Element4? then OnElement4(m, t)
    else if m.handler.Element5? then OnElement5(m, t)
    else if m.handler.Element6? then OnElement6(m, t)
    else if m.handler.Element7? then OnElement7(m, t)
    else if m.handler.DeclClose? then OnDeclClose(m, t)
    else Fail(m)
  }

  const BEGUN := Machine(Element1, 0)

  function Run(m: Machine, toks: seq<Tok>): Machine {
    if toks == [] then m else Step(Run(m, toks[..|toks| - 1]), toks[|toks| - 1]).m
  }

  function Roles(m: Machine, toks: seq<Tok>): (r: seq<Role>)
    ensures |r| == |toks|
  {
    if toks == [] then []
    else Roles(m, toks[..|toks| - 1]) + [Step(Run(m, toks[..|toks| - 1]), toks[|toks| - 1]).role]
  }

  lemma {:induction false} RunAppend(m: Machine, a: seq<Tok>, b: seq<Tok>)
    ensures Run(m, a + b) == Run(Run(m, a), b)
  {
    if b == [] {
      assert a + b == a;
    } else {
      assert (a + b)[..|a + b| - 1] == a + b[..|b| - 1];
      RunAppend(m, a, b[..|b| - 1]);
    }
  }

  lemma RunOne(m: Machine, t: Tok)
    ensures Run(m, [t]) == Step(m, t).m
  {
    assert [t][..0] == [];
  }

  lemma RunSnoc(m: Machine, a: seq<Tok>, t: Tok)
    ensures Run(m, a + [t]) == Step(Run(m, a), t).m
  {
    assert (a + [t])[..|a|] == a;
  }

  // ---- White space ----

  function Strip(toks: seq<Tok>): seq<Tok> {
    if toks == [] then []
    else Strip(toks[..|toks| - 1]) + if toks[|toks| - 1] == Space then [] else [toks[|toks| - 1]]
  }

  lemma StripSnoc(toks: seq<Tok>, t: Tok)
    ensures Strip(toks + [t]) == if t.Space? then Strip(toks) else Strip(toks) + [t]
  {
    assert (toks + [t])[..|toks|] == toks;
    assert Strip(toks) + [] == Strip(toks);
  }

  lemma StepInside(m: Machine, t: Tok)
    requires !m.handler.TopLevel?
    ensures Step(m, Space).m == m && (!t.DeclEnd? ==> !Step(m, t).m.handler.TopLevel?)
  {
  }

  /** White space changes nothing before the declaration is closed. */
  lemma {:induction false} StripRuns(toks: seq<Tok>)
    requires DeclEnd !in toks
    ensures Run(BEGUN, toks) == Run(BEGUN, Strip(toks)) && !Run(BEGUN, toks).handler.TopLevel?
    ensures DeclEnd !in Strip(toks) && Space !in Strip(toks)
  {
    if toks != [] {
      var init, t := toks[..|toks| - 1], toks[|toks| - 1];
      assert toks == init + [t];
      StripRuns(init);
      RunSnoc(BEGUN, init, t);
      RunSnoc(BEGUN, Strip(init), t);
      StripSnoc(init, t);
      StepInside(Run(BEGUN, init), t);
      hide Run, Step, Strip;
    }
  }

  // ---- The grammar ----

  /** A content particle: a name with its repetition, or a group of particles with its own. */
  datatype Cp = Leaf(tok: Tok) | Group(items: Items, close: Tok)

  datatype Items = One(cp: Cp) | Add(items: Items, sep: Tok, cp: Cp)

  predicate WellFormed(cp: Cp) {
    match cp
    case Leaf(t) => IsLeaf(t)
    case Group(items, close) => AllWellFormed(items) && IsClose(close)
  }

  predicate AllWellFormed(items: Items) {
    match items
    case One(cp) => WellFormed(cp)
    case Add(rest, sep, cp) => AllWellFormed(rest) && (sep.Comma? || sep.Or?) && WellFormed(cp)
  }

  function Spell(cp: Cp): seq<Tok> {
    match cp
    case Leaf(t) => [t]
    case Group(items, close) => [OpenParen] + SpellAll(items) + [close]
  }

  function SpellAll(items: Items): seq<Tok> {
    match items
    case One(cp) => Spell(cp)
    case Add(rest, sep, cp) => SpellAll(rest) + [sep] + Spell(cp)
  }

  function SpellNames(names: seq<Tok>): seq<Tok> {
    if names == [] then [] else SpellNames(names[..|names| - 1]) + [Or, names[|names| - 1]]
  }

  datatype Content = Empty | Any | Mixed(names: seq<Tok>, close: Tok) | Children(items: Items, close: Tok)

  /** The content specifications, but that `,` and `|` may both stand in one group. */
  predicate ValidContent(c: Content) {
    match c
    case Mixed(names, close) =>
      && (forall i :: 0 <= i < |names| ==> IsName(names[i]))
      && (close.CloseParenAsterisk? || (names == [] && close.CloseParen?))
    case Children(items, close) => AllWellFormed(items) && IsClose(close)
    case _ => true
  }

  function SpellContent(c: Content): seq<Tok> {
    match c
    case Empty => [EmptyName]
    case Any => [AnyName]
    case Mixed(names, close) => [OpenParen, PcdataName] + SpellNames(names) + [close]
    case Children(items, close) => Spell(Group(items, close))
  }

  // ---- What the grammar spells is accepted ----

  predicate Expects(m: Machine) { m.level >= 1 && (m.handler.Element6? || (m.handler.Element2? && m.level == 1)) }

  lemma StepsInGroup(m: Machine, t: Tok)
    ensures Expects(m) && IsLeaf(t) ==> Step(m, t).m == Machine(Element7, m.level)
    ensures Expects(m) && t.OpenParen? ==> Step(m, t).m == Machine(Element6, m.level + 1)
    ensures m.handler.Element7? && (t.Comma? || t.Or?) ==> Step(m, t).m == Machine(Element6, m.level)
    ensures m.handler.Element7? && IsClose(t) ==>
      Step(m, t).m == Machine(if m.level == 1 then DeclClose else Element7, m.level - 1)
  {
  }

  lemma StepsOutOfGroup(m: Machine, t: Tok)
    requires !t.Space?
    ensures m.handler.Element7? && !IsClose(t) && !t.Comma? && !t.Or? ==> Step(m, t).m.handler.Failed?
    ensures m.handler.Element6? && !IsLeaf(t) && !t.OpenParen? ==> Step(m, t).m.handler.Failed?
    ensures m.handler.Element2? && !IsLeaf(t) && !t.OpenParen? ==>
      Step(m, t).m == if t.PcdataName? then m.(handler := Element3) else m.(handler := Failed)
  {
  }

  lemma {:induction false} CpAccepted(m: Machine, cp: Cp)
    requires Expects(m) && WellFormed(cp)
    ensures Run(m, Spell(cp)) == Machine(Element7, m.level)
    decreases cp
  {
    hide Run, Step;
    match cp
    case Leaf(t) =>
      RunOne(m, t);
      StepsInGroup(m, t);
    case Group(items, close) =>
      var inner := Machine(Element6, m.level + 1);
      RunOne(m, OpenParen);
      StepsInGroup(m, OpenParen);
      ItemsAccepted(inner, items);
      RunAppend(m, [OpenParen], SpellAll(items));
      RunSnoc(m, [OpenParen] + SpellAll(items), close);
      StepsInGroup(Machine(Element7, m.level + 1), close);
  }

  lemma {:induction false} ItemsAccepted(m: Machine, items: Items)
    requires Expects(m) && AllWellFormed(items)
    ensures Run(m, SpellAll(items)) == Machine(Element7, m.level)
    decreases items
  {
    hide Run, Step;
    match items
    case One(cp) => CpAccepted(m, cp);
    case Add(rest, sep, cp) =>
      ItemsAccepted(m, rest);
      RunSnoc(m, SpellAll(rest), sep);
      StepsInGroup(Machine(Element7, m.level), sep);
      CpAccepted(Machine(Element6, m.level), cp);
      RunAppend(m, SpellAll(rest) + [sep], Spell(cp));
  }

  lemma StepsInMixed(m: Machine, t: Tok)
    ensures (m.handler.Element3? || m.handler.Element5?) && t.Or? ==> Step(m, t).m == m.(handler := Element4)
    ensures m.handler.Element4? && IsName(t) ==> Step(m, t).m == m.(handler := Element5)
    ensures (m.handler.Element3? || m.handler.Element5?) && t.CloseParenAsterisk? ==> Step(m, t).m == m.(handler := DeclClose)
    ensures m.handler.Element3? && t.CloseParen? ==> Step(m, t).m == m.(handler := DeclClose)
  {
  }

  lemma {:induction false} NamesAccepted(m: Machine, names: seq<Tok>)
    requires m.handler.Element3? && forall i :: 0 <= i < |names| ==> IsName(names[i])
    ensures Run(m, SpellNames(names)) == if names == [] then m else m.(handler := Element5)
  {
    if names != [] {
      var init, t := names[..|names| - 1], names[|names| - 1];
      NamesAccepted(m, init);
      RunSnoc(m, SpellNames(init), Or);
      StepsInMixed(Run(m, SpellNames(init)), Or);
      RunSnoc(m, SpellNames(init) + [Or], t);
      StepsInMixed(m.(handler := Element4), t);
      assert SpellNames(names) == SpellNames(init) + [Or] + [t];
      hide Run, Step, SpellNames;
    }
  }

  lemma Openings()
    ensures Step(BEGUN, EmptyName).m.handler.DeclClose? && Step(BEGUN, AnyName).m.handler.DeclClose?
    ensures Step(BEGUN, OpenParen).m == Machine(Element2, 1) && Step(Machine(Element2, 1), PcdataName).m == Machine(Element3, 1)
  {
  }

  lemma ContentAccepted(c: Content)
    requires ValidContent(c)
    ensures Run(BEGUN, SpellContent(c)).handler.DeclClose?
  {
    hide Run, Step;
    Openings();
    match c
    case Empty => RunOne(BEGUN, EmptyName);
    case Any => RunOne(BEGUN, AnyName);
    case Mixed(names, close) =>
      var head := [OpenParen, PcdataName];
      RunOne(BEGUN, OpenParen);
      RunSnoc(BEGUN, [OpenParen], PcdataName);
      assert head == [OpenParen] + [PcdataName];
      NamesAccepted(Machine(Element3, 1), names);
      RunAppend(BEGUN, head, SpellNames(names));
      RunSnoc(BEGUN, head + SpellNames(names), close);
      StepsInMixed(Run(Machine(Element3, 1), SpellNames(names)), close);
    case Children(items, close) =>
      RunOne(BEGUN, OpenParen);
      ItemsAccepted(Machine(Element2, 1), items);
      RunAppend(BEGUN, [OpenParen], SpellAll(items));
      RunSnoc(BEGUN, [OpenParen] + SpellAll(items), close);
      StepsInGroup(Machine(Element7, 1), close);
  }

  // ---- What is accepted is spelt by the grammar ----

  /** A group that is still open: nothing in it yet, its last particle complete, or one to come. */
  datatype Frame = Fresh | Full(items: Items) | Waiting(items: Items, sep: Tok)

  predicate FrameOk(f: Frame) {
    match f
    case Fresh => true
    case Full(items) => AllWellFormed(items)
    case Waiting(items, sep) => AllWellFormed(items) && (sep.Comma? || sep.Or?)
  }

  function SpellFrame(f: Frame): seq<Tok> {
    match f
    case Fresh => [OpenParen]
    case Full(items) => [OpenParen] + SpellAll(items)
    case Waiting(items, sep) => [OpenParen] + SpellAll(items) + [sep]
  }

  function SpellStack(stack: seq<Frame>): seq<Tok> {
    if stack == [] then [] else SpellStack(stack[..|stack| - 1]) + SpellFrame(stack[|stack| - 1])
  }

  /** The particle after which the frame is full again. */
  function Filled(f: Frame, cp: Cp): Items
    requires !f.Full?
  {
    match f
    case Fresh => One(cp)
    case Waiting(items, sep) => Add(items, sep, cp)
  }

  /** The groups open when the machine is in state `m`; only the innermost may be full. */
  predicate StackOf(m: Machine, stack: seq<Frame>) {
    && |stack| == m.level >= 1
    && (forall i :: 0 <= i < |stack| ==> FrameOk(stack[i]))
    && (forall i :: 0 <= i < |stack| - 1 ==> !stack[i].Full?)
    && (m.handler.Element7? <==> stack[|stack| - 1].Full?)
    && (m.handler.Element2? ==> stack == [Fresh])
    && (m.handler.Element2? || m.handler.Element6? || m.handler.Element7?)
  }

  lemma SpellTop(stack: seq<Frame>, f: Frame)
    ensures SpellStack(stack + [f]) == SpellStack(stack) + SpellFrame(f)
  {
    assert (stack + [f])[..|stack|] == stack;
  }

  /** What the tokens so far spell. */
  datatype Shape = Nothing | InGroup(stack: seq<Frame>) | InMixed(names: seq<Tok>, more: bool) | Whole(c: Content) | Other

  function SpellMixed(names: seq<Tok>, more: bool): seq<Tok> {
    [OpenParen, PcdataName] + SpellNames(names) + if more then [Or] else []
  }

  ghost predicate Spells(m: Machine, toks: seq<Tok>, shape: Shape) {
    match shape
    case Nothing => m == BEGUN && toks == []
    case InGroup(stack) => StackOf(m, stack) && toks == SpellStack(stack)
    case InMixed(names, more) =>
      && m.handler == (if more then Element4 else if names == [] then Element3 else Element5)
      && (forall i :: 0 <= i < |names| ==> IsName(names[i])) && toks == SpellMixed(names, more)
    case Whole(c) => m.handler.DeclClose? && ValidContent(c) && toks == SpellContent(c)
    case Other => (m.handler.TopLevel? || m.handler.Failed?)
  }

  function Inner(stack: seq<Frame>): Frame
    requires stack != []
  {
    stack[|stack| - 1]
  }

  /** A particle completes the innermost group's content so far. */
  lemma FillTop(m: Machine, rest: seq<Frame>, f: Frame, cp: Cp)
    requires StackOf(m, rest + [f]) && !f.Full? && WellFormed(cp)
    ensures StackOf(Machine(Element7, m.level), rest + [Full(Filled(f, cp))])
    ensures SpellStack(rest + [Full(Filled(f, cp))]) == SpellStack(rest + [f]) + Spell(cp)
  {
    var old', new' := rest + [f], rest + [Full(Filled(f, cp))];
    assert Inner(old') == f && Inner(new') == Full(Filled(f, cp));
    forall i | 0 <= i < |new'| ensures FrameOk(new'[i]) && (i < |new'| - 1 ==> !new'[i].Full?) {
      assert i < |rest| ==> new'[i] == old'[i];
    }
    SpellTop(rest, f);
    SpellTop(rest, Full(Filled(f, cp)));
    FrameFilled(f, cp);
    AppendAssoc(SpellStack(rest), SpellFrame(f), Spell(cp));
  }

  lemma FrameFilled(f: Frame, cp: Cp)
    requires !f.Full?
    ensures SpellFrame(Full(Filled(f, cp))) == SpellFrame(f) + Spell(cp)
  {
    if f.Waiting? {
      assert [OpenParen] + (SpellAll(f.items) + [f.sep] + Spell(cp)) == [OpenParen] + SpellAll(f.items) + [f.sep] + Spell(cp);
    }
  }

  /** A new frame on top. */
  lemma PushFrame(m: Machine, stack: seq<Frame>)
    requires StackOf(m, stack) && !m.handler.Element7?
    ensures StackOf(Machine(Element6, m.level + 1), stack + [Fresh])
    ensures SpellStack(stack + [Fresh]) == SpellStack(stack) + [OpenParen]
  {
    SpellTop(stack, Fresh);
  }

  lemma SeparateTop(m: Machine, rest: seq<Frame>, items: Items, sep: Tok)
    requires StackOf(m, rest + [Full(items)]) && (sep.Comma? || sep.Or?)
    ensures StackOf(Machine(Element6, m.level), rest + [Waiting(items, sep)])
    ensures SpellStack(rest + [Waiting(items, sep)]) == SpellStack(rest + [Full(items)]) + [sep]
  {
    var old', new' := rest + [Full(items)], rest + [Waiting(items, sep)];
    assert Inner(old') == Full(items) && Inner(new') == Waiting(items, sep);
    forall i | 0 <= i < |new'| ensures FrameOk(new'[i]) && (i < |new'| - 1 ==> !new'[i].Full?) {
      assert i < |rest| ==> new'[i] == old'[i];
    }
    SpellTop(rest, Full(items));
    SpellTop(rest, Waiting(items, sep));
    AppendAssoc(SpellStack(rest), SpellFrame(Full(items)), [sep]);
  }

  /** The innermost group closes and is a particle of the one around it. */
  lemma CloseTop(m: Machine, rest: seq<Frame>, f: Frame, items: Items, close: Tok)
    requires StackOf(m, rest + [f] + [Full(items)]) && IsClose(close)
    ensures !f.Full?
    ensures var cp := Group(items, close);
      && StackOf(Machine(Element7, m.level - 1), rest + [Full(Filled(f, cp))])
      && SpellStack(rest + [Full(Filled(f, cp))]) == SpellStack(rest + [f] + [Full(items)]) + [close]
  {
    var stack := rest + [f] + [Full(items)];
    assert Inner(stack) == Full(items) && stack[|rest|] == f;
    var below := Machine(if rest == [] && f == Fresh then Element2 else Element6, m.level - 1);
    forall i | 0 <= i < |rest + [f]| ensures FrameOk((rest + [f])[i]) && !(rest + [f])[i].Full? {
      assert (rest + [f])[i] == stack[i];
    }
    assert Inner(rest + [f]) == f;
    assert StackOf(below, rest + [f]);
    FillTop(below, rest, f, Group(items, close));
    SpellTop(rest + [f], Full(items));
    assert SpellFrame(Full(items)) + [close] == Spell(Group(items, close));
    AppendAssoc(SpellStack(rest + [f]), SpellFrame(Full(items)), [close]);
  }

  lemma SplitTop(stack: seq<Frame>)
    requires stack != []
    ensures stack == stack[..|stack| - 1] + [Inner(stack)]
  {
  }

  lemma FullStep(m: Machine, toks: seq<Tok>, rest: seq<Frame>, items: Items, t: Tok) returns (shape: Shape)
    requires Spells(m, toks, InGroup(rest + [Full(items)])) && !t.Space? && m.handler.Element7?
    ensures Spells(Step(m, t).m, toks + [t], shape)
  {
    StepsInGroup(m, t);
    StepsOutOfGroup(m, t);
    hide StackOf, SpellStack, SpellFrame, Step, IsClose;
    if IsClose(t) {
      shape := GroupCloses(m, toks, rest, items, t);
    } else if t.Comma? || t.Or? {
      SeparateTop(m, rest, items, t);
      shape := InGroup(rest + [Waiting(items, t)]);
    } else {
      shape := Other;
    }
  }

  lemma OpenStep(m: Machine, toks: seq<Tok>, stack: seq<Frame>, t: Tok) returns (shape: Shape)
    requires Spells(m, toks, InGroup(stack)) && !t.Space? && !m.handler.Element7? && stack != []
    ensures Spells(Step(m, t).m, toks + [t], shape)
  {
    var rest, top := stack[..|stack| - 1], Inner(stack);
    GroupFacts(m, stack);
    StepsInGroup(m, t);
    StepsOutOfGroup(m, t);
    SplitTop(stack);
    hide StackOf, SpellStack, SpellFrame, IsLeaf, LeafRole, Step, SpellMixed;
    if t.OpenParen? {
      PushFrame(m, stack);
      shape := InGroup(stack + [Fresh]);
    } else if IsLeaf(t) {
      FillTop(m, rest, top, Leaf(t));
      shape := InGroup(rest + [Full(Filled(top, Leaf(t)))]);
    } else if m.handler.Element2? && t.PcdataName? {
      MixedBegins(stack);
      shape := InMixed([], false);
    } else {
      shape := Other;
    }
  }

  lemma GroupStep(m: Machine, toks: seq<Tok>, stack: seq<Frame>, t: Tok) returns (shape: Shape)
    requires Spells(m, toks, InGroup(stack)) && !t.Space?
    ensures Spells(Step(m, t).m, toks + [t], shape)
  {
    GroupFacts(m, stack);
    SplitTop(stack);
    hide StackOf, SpellStack, SpellFrame, Step;
    if m.handler.Element7? {
      shape := FullStep(m, toks, stack[..|stack| - 1], Inner(stack).items, t);
    } else {
      shape := OpenStep(m, toks, stack, t);
    }
  }

  lemma GroupFacts(m: Machine, stack: seq<Frame>)
    requires StackOf(m, stack)
    ensures |stack| == m.level >= 1 && (m.handler.Element2? || m.handler.Element6? || m.handler.Element7?)
    ensures Inner(stack).Full? <==> m.handler.Element7?
    ensures m.handler.Element2? ==> stack == [Fresh]
    ensures FrameOk(Inner(stack))
  {
  }

  lemma MixedBegins(stack: seq<Frame>)
    requires stack == [Fresh]
    ensures SpellStack(stack) + [PcdataName] == SpellMixed([], false)
  {
    assert stack[..0] == [];
    assert SpellStack([]) + [OpenParen] == [OpenParen];
  }

  lemma GroupCloses(m: Machine, toks: seq<Tok>, rest: seq<Frame>, items: Items, t: Tok) returns (shape: Shape)
    requires Spells(m, toks, InGroup(rest + [Full(items)])) && IsClose(t) && m.handler.Element7?
    ensures Spells(Step(m, t).m, toks + [t], shape)
  {
    var stack := rest + [Full(items)];
    assert Inner(stack) == Full(items);
    GroupFacts(m, stack);
    StepsInGroup(m, t);
    hide StackOf, SpellStack, SpellFrame, SpellContent, Step;
    if rest == [] {
      LastCloses(items, t);
      assert stack == [Full(items)];
      shape := Whole(Children(items, t));
    } else {
      var below, f := rest[..|rest| - 1], Inner(rest);
      SplitTop(rest);
      CloseTop(m, below, f, items, t);
      shape := InGroup(below + [Full(Filled(f, Group(items, t)))]);
    }
  }

  lemma LastCloses(items: Items, t: Tok)
    ensures SpellStack([Full(items)]) + [t] == SpellContent(Children(items, t))
  {
    var stack := [Full(items)];
    assert stack[..0] == [] && SpellStack([]) + SpellFrame(Full(items)) == SpellFrame(Full(items));
  }

  lemma MixedStep(m: Machine, toks: seq<Tok>, names: seq<Tok>, more: bool, t: Tok) returns (shape: Shape)
    requires Spells(m, toks, InMixed(names, more)) && !t.Space?
    ensures Spells(Step(m, t).m, toks + [t], shape)
  {
    var head := [OpenParen, PcdataName];
    if more && IsName(t) {
      shape := InMixed(names + [t], false);
      assert (names + [t])[..|names|] == names;
      assert head + SpellNames(names) + [Or] + [t] == head + (SpellNames(names) + [Or, t]) + [];
    } else if !more && t.Or? {
      shape := InMixed(names, true);
      assert head + SpellNames(names) + [] + [Or] == head + SpellNames(names) + [Or];
    } else if !more && (t.CloseParenAsterisk? || (names == [] && t.CloseParen?)) {
      shape := Whole(Mixed(names, t));
      assert head + SpellNames(names) + [] + [t] == head + SpellNames(names) + [t];
    } else {
      shape := Other;
    }
  }

  lemma ShapeStep(m: Machine, toks: seq<Tok>, was: Shape, t: Tok) returns (shape: Shape)
    requires Spells(m, toks, was) && !t.Space?
    ensures Spells(Step(m, t).m, toks + [t], shape)
  {
    match was
    case InGroup(stack) => shape := GroupStep(m, toks, stack, t);
    case InMixed(names, more) => shape := MixedStep(m, toks, names, more, t);
    case Nothing => shape := FirstStep(t);
    case Whole(_) => shape := Other;
    case Other => shape := Other;
  }

  lemma FirstStep(t: Tok) returns (shape: Shape)
    requires !t.Space?
    ensures Spells(Step(BEGUN, t).m, [] + [t], shape)
  {
    shape := if t.EmptyName? then Whole(Empty) else if t.AnyName? then Whole(Any)
             else if t.OpenParen? then InGroup([Fresh]) else Other;
    SpellTop([], Fresh);
    assert [] + [Fresh] == [Fresh] && SpellStack([]) + [OpenParen] == [OpenParen];
  }

  lemma {:induction false} Trace(toks: seq<Tok>) returns (shape: Shape)
    requires Space !in toks
    ensures Spells(Run(BEGUN, toks), toks, shape)
  {
    if toks == [] {
      shape := Nothing;
    } else {
      var init, t := toks[..|toks| - 1], toks[|toks| - 1];
      assert init + [t] == toks;
      hide Spells, Step;
      var was := Trace(init);
      shape := ShapeStep(Run(BEGUN, init), init, was, t);
    }
  }

  /** The machine comes to the end of the declaration just on what the grammar spells. */
  lemma DecidesGrammar(toks: seq<Tok>)
    requires DeclEnd !in toks
    ensures Run(BEGUN, toks).handler.DeclClose? <==> exists c :: ValidContent(c) && SpellContent(c) == Strip(toks)
  {
    hide Run, Strip, Spell, SpellNames, SpellAll, SpellStack, SpellContent;
    StripRuns(toks);
    var shape := Trace(Strip(toks));
    if Run(BEGUN, toks).handler.DeclClose? {
      assert shape.Whole?;
      assert ValidContent(shape.c) && SpellContent(shape.c) == Strip(toks);
    }
    if c :| ValidContent(c) && SpellContent(c) == Strip(toks) {
      ContentAccepted(c);
    }
  }

  // ---- Roles ----

  /** Groups opened less groups closed. */
  function Depth(roles: seq<Role>): int {
    if roles == [] then 0
    else Depth(roles[..|roles| - 1]) + RoleDepth(roles[|roles| - 1])
  }

  function RoleDepth(r: Role): int {
    if r == GroupOpen then 1 else if (r == GroupClose || r == GroupCloseOpt || r == GroupCloseRep || r == GroupClosePlus) then -1 else 0
  }

  /** While a model is read, the counter is the depth of its open groups. */
  predicate Counts(m: Machine, depth: int) {
    var h := m.handler;
    if h.Element2? || h.Element6? || h.Element7? then depth == m.level && m.level >= 1
    else if h.Element3? || h.Element4? || h.Element5? then depth == 1
    else if h.Failed? then depth >= 0
    else depth == 0
  }

  ghost predicate CountsOn(m: Machine, t: Tok, depth: int) {
    var o := Step(m, t);
    Counts(o.m, depth + RoleDepth(o.role)) && (o.m.handler.Element2? ==> o.m.level == 1)
  }

  lemma RoleDepths(t: Tok)
    ensures RoleDepth(LeafRole(t)) == 0 && RoleDepth(CloseRole(t)) == -1
  {
  }

  lemma FirstCounts(m: Machine, t: Tok, depth: int)
    requires Counts(m, depth) && (m.handler.Element1? || m.handler.DeclClose?)
    ensures CountsOn(m, t, depth)
  {
    RoleDepths(t);
    hide LeafRole, CloseRole, IsLeaf, IsName, IsClose;
  }

  lemma OpenCounts(m: Machine, t: Tok, depth: int)
    requires Counts(m, depth) && m.handler.Element2? && m.level == 1
    ensures CountsOn(m, t, depth)
  {
    RoleDepths(t);
    hide LeafRole, CloseRole, IsLeaf, IsName, IsClose;
  }

  lemma MixedCounts(m: Machine, t: Tok, depth: int)
    requires Counts(m, depth) && (m.handler.Element3? || m.handler.Element4?)
    ensures CountsOn(m, t, depth)
  {
    RoleDepths(t);
    hide LeafRole, CloseRole, IsLeaf, IsName, IsClose;
  }

  lemma MoreCounts(m: Machine, t: Tok, depth: int)
    requires Counts(m, depth) && m.handler.Element5?
    ensures CountsOn(m, t, depth)
  {
    RoleDepths(t);
    hide LeafRole, CloseRole, IsLeaf, IsName, IsClose;
  }

  lemma NextCounts(m: Machine, t: Tok, depth: int)
    requires Counts(m, depth) && m.handler.Element6?
    ensures CountsOn(m, t, depth)
  {
    RoleDepths(t);
    hide LeafRole, CloseRole, IsLeaf, IsName, IsClose;
  }

  lemma FullCounts(m: Machine, t: Tok, depth: int)
    requires Counts(m, depth) && m.handler.Element7?
    ensures CountsOn(m, t, depth)
  {
    RoleDepths(t);
    assert Step(m, t) == OnElement7(m, t);
    hide LeafRole, CloseRole, IsLeaf, IsName, IsClose, Step;
  }

  lemma StepCounts(m: Machine, t: Tok, depth: int)
    requires Counts(m, depth) && depth >= 0 && (m.handler.Element2? ==> m.level == 1)
    ensures CountsOn(m, t, depth)
  {
    if m.handler.Element1? || m.handler.DeclClose? { FirstCounts(m, t, depth); }
    else if m.handler.Element2? { OpenCounts(m, t, depth); }
    else if m.handler.Element3? || m.handler.Element4? { MixedCounts(m, t, depth); }
    else if m.handler.Element5? { MoreCounts(m, t, depth); }
    else if m.handler.Element6? { NextCounts(m, t, depth); }
    else if m.handler.Element7? { FullCounts(m, t, depth); }
  }

  /** The groups that the roles open and close are balanced, and the counter never goes below
      the groups still open. */
  lemma {:induction false} RolesBalanced(toks: seq<Tok>)
    ensures Counts(Run(BEGUN, toks), Depth(Roles(BEGUN, toks))) && Depth(Roles(BEGUN, toks)) >= 0
    ensures Run(BEGUN, toks).handler.Element2? ==> Run(BEGUN, toks).level == 1
  {
    if toks != [] {
      var init, t := toks[..|toks| - 1], toks[|toks| - 1];
      RolesBalanced(init);
      StepCounts(Run(BEGUN, init), t, Depth(Roles(BEGUN, init)));
      var role := Step(Run(BEGUN, init), t).role;
      assert (Roles(BEGUN, init) + [role])[..|init|] == Roles(BEGUN, init);
      hide Step;
    }
  }

  // ---- The machine as it is written ----

  class PrologState {
    var handler: Handler
    var level: int
    var roleNone: Role

    ghost function View(): Machine
      reads this
    {
      Machine(handler, level)
    }

    /** Within an element declaration, what means nothing has the role of that. */
    ghost predicate Valid()
      reads this
    {
      handler.DeclClose? ==> roleNone.ElementNone?
    }

    constructor ()
      ensures Valid() && View() == BEGUN
    {
      handler, level, roleNone := Element1, 0, ElementNone;
    }

    method Common() returns (role: Role)
      modifies `handler
      ensures Valid() && Out(View(), role) == Fail(old(View()))
    {
      handler := Failed;
      role := Error;
    }

    method Close(closing: Role) returns (role: Role)
      modifies `handler, `roleNone
      ensures Valid() && View() == old(View()).(handler := DeclClose) && role == closing
    {
      handler, roleNone, role := DeclClose, ElementNone, closing;
    }

    method HandleElement1(tok: Tok) returns (role: Role)
      requires Valid() && handler.Element1?
      modifies this
      ensures Valid() && Out(View(), role) == OnElement1(old(View()), tok)
    {
      match tok
      case Space => role := ElementNone;
      case EmptyName => role := Close(ContentEmpty);
      case AnyName => role := Close(ContentAny);
      case OpenParen => handler, level, role := Element2, 1, GroupOpen;
      case _ => role := Common();
    }

    method HandleElement2(tok: Tok) returns (role: Role)
      requires Valid() && handler.Element2?
      modifies this
      ensures Valid() && Out(View(), role) == OnElement2(old(View()), tok)
    {
      if tok.Space? {
        role := ElementNone;
      } else if tok.PcdataName? {
        handler, role := Element3, ContentPcdata;
      } else if tok.OpenParen? {
        level, handler, role := 2, Element6, GroupOpen;
      } else if IsLeaf(tok) {
        handler, role := Element7, LeafRole(tok);
      } else {
        role := Common();
      }
    }

    method HandleElement3(tok: Tok) returns (role: Role)
      requires Valid() && handler.Element3?
      modifies this
      ensures Valid() && Out(View(), role) == OnElement3(old(View()), tok)
    {
      match tok
      case Space => role := ElementNone;
      case CloseParen => role := Close(GroupClose);
      case CloseParenAsterisk => role := Close(GroupCloseRep);
      case Or => handler, role := Element4, ElementNone;
      case _ => role := Common();
    }

    method HandleElement4(tok: Tok) returns (role: Role)
      requires Valid() && handler.Element4?
      modifies this
      ensures Valid() && Out(View(), role) == OnElement4(old(View()), tok)
    {
      if tok.Space? {
        role := ElementNone;
      } else if IsName(tok) {
        handler, role := Element5, ContentElement;
      } else {
        role := Common();
      }
    }

    method HandleElement5(tok: Tok) returns (role: Role)
      requires Valid() && handler.Element5?
      modifies this
      ensures Valid() && Out(View(), role) == OnElement5(old(View()), tok)
    {
      match tok
      case Space => role := ElementNone;
      case CloseParenAsterisk => role := Close(GroupCloseRep);
      case Or => handler, role := Element4, ElementNone;
      case _ => role := Common();
    }

    method HandleElement6(tok: Tok) returns (role: Role)
      requires Valid() && handler.Element6?
      modifies this
      ensures Valid() && Out(View(), role) == OnElement6(old(View()), tok)
    {
      if tok.Space? {
        role := ElementNone;
      } else if tok.OpenParen? {
        level, role := level + 1, GroupOpen;
      } else if IsLeaf(tok) {
        handler, role := Element7, LeafRole(tok);
      } else {
        role := Common();
      }
    }

    method HandleElement7(tok: Tok) returns (role: Role)
      requires Valid() && handler.Element7?
      modifies this
      ensures Valid() && Out(View(), role) == OnElement7(old(View()), tok)
    {
      if tok.Space? {
        role := ElementNone;
      } else if IsClose(tok) {
        level, role := level - 1, CloseRole(tok);
        if level == 0 {
          role := Close(role);
        }
      } else if tok.Comma? {
        handler, role := Element6, GroupSequence;
      } else if tok.Or? {
        handler, role := Element6, GroupChoice;
      } else {
        role := Common();
      }
    }

    method HandleDeclClose(tok: Tok) returns (role: Role)
      requires Valid() && handler.DeclClose?
      modifies this
      ensures Valid() && Out(View(), role) == OnDeclClose(old(View()), tok)
    {
      if tok.Space? {
        role := roleNone;
      } else if tok.DeclEnd? {
        handler, role := TopLevel, roleNone;
      } else {
        role := Common();
      }
    }

    /** Hands a token to the handler whose turn it is. */
    method Handle(tok: Tok) returns (role: Role)
      requires Valid()
      modifies this
      ensures Valid() && Out(View(), role) == Step(old(View()), tok)
    {
      hide OnElement1, OnElement2, OnElement3, OnElement4, OnElement5, OnElement6, OnElement7, OnDeclClose;
      match handler
      case Element1 => role := HandleElement1(tok);
      case Element2 => role := HandleElement2(tok);
      case Element3 => role := HandleElement3(tok);
      case Element4 => role := HandleElement4(tok);
      case Element5 => role := HandleElement5(tok);
      case Element6 => role := HandleElement6(tok);
      case Element7 => role := HandleElement7(tok);
      case DeclClose => role := HandleDeclClose(tok);
      case _ => role := Common();
    }

    /** Reads the tokens of a content model; it is accepted just when the grammar spells it. */
    method Read(toks: seq<Tok>) returns (roles: seq<Role>, ok: bool)
      requires Valid() && View() == BEGUN && DeclEnd !in toks
      modifies this
      ensures View() == Run(BEGUN, toks) && roles == Roles(BEGUN, toks)
      ensures ok <==> exists c :: ValidContent(c) && SpellContent(c) == Strip(toks)
    {
      hide Step, SpellContent, ValidContent, Strip;
      roles := [];
      for i := 0 to |toks|
        invariant Valid() && View() == Run(BEGUN, toks[..i]) && roles == Roles(BEGUN, toks[..i])
      {
        assert toks[..i + 1][..i] == toks[..i];
        var role := Handle(toks[i]);
        roles := roles + [role];
      }
      assert toks[..|toks|] == toks;
      DecidesGrammar(toks);
      ok := handler.DeclClose?;
    }
  }
}
