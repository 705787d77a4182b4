/** What every accepted character keeps: the automaton state, the pending type, the top
    mode, the escape flag, the saved surrogate and the token buffer stay linked. */
module JsonInvariant {
  import opened JsonTable
  import opened JsonMachine

  predicate TypeFits(s: State, ty: Type) {
    match ty
    case T_NONE => IsBareState(s) || IsCommentState(s)
    case T_STRING => IsStringState(s)
    case T_INTEGER => s == OK || s == MI || s == ZE || s == IT
    case T_FLOAT => s == OK || s == FR || s == FX || s == E1 || s == E2 || s == E3
    case T_TRUE => s == OK || s == T1 || s == T2 || s == T3
    case T_FALSE => s == OK || s == F1 || s == F2 || s == F3 || s == F4
    case T_NULL => s == OK || s == N1 || s == N2 || s == N3
  }

  predicate ModeFits(s: State, ty: Type, mode: Mode) {
    match mode
    case MODE_DONE => s == GO || (s == OK && ty.T_NONE?) || IsCommentState(s)
    case MODE_KEY => s == OB || s == KE || s == CO || IsStringState(s) || IsCommentState(s)
    case MODE_ARRAY => s != GO && s != OB && s != KE && s != CO
    case MODE_OBJECT => s != GO && s != OB && s != KE && s != CO && s != AR
  }

  /** The state to return to after a comment is one in which no value is being read. */
  predicate CommentFits(s: State, before: State, mode: Mode) {
    IsCommentState(s) ==> IsBareState(before) && ModeFits(before, T_NONE, mode)
  }

  predicate IsHex(c: int) { 0 <= c && IsHexClass(ClassOf(c)) }

  /** The buffer ends with a backslash, u and n hexadecimal digits. */
  predicate EndsInEscape(buf: seq<int>, n: nat) {
    && |buf| >= n + 2 && buf[|buf| - n - 2] == 92 && buf[|buf| - n - 1] == 117
    && forall i :: |buf| - n <= i < |buf| ==> IsHex(buf[i])
  }

  predicate BufferFits(s: State, ty: Type, buf: seq<int>) {
    if s == ES || s == D2 then buf != [] && buf[|buf| - 1] == 92
    else if s == U1 then EndsInEscape(buf, 0)
    else if s == U2 then EndsInEscape(buf, 1)
    else if s == U3 then EndsInEscape(buf, 2)
    else if s == U4 then EndsInEscape(buf, 3)
    else ty.T_NONE? ==> buf == []
  }

  predicate SurrogateFits(s: State, hi: nat) {
    && (hi != 0 ==> IsHighSurrogate(hi) && IsStringState(s) && s != ST && s != ES)
    && (s == D1 || s == D2 ==> hi != 0)
  }

  /** The link between the fields other than the stack, which enters by its top mode. */
  predicate Core(s: State, before: State, ty: Type, hi: nat, escaped: bool, comment: bool,
                 buf: seq<int>, mode: Mode) {
    && TypeFits(s, ty)
    && ModeFits(s, ty, mode)
    && CommentFits(s, before, mode)
    && BufferFits(s, ty, buf)
    && SurrogateFits(s, hi)
    && escaped == (s == ES)
    && comment == IsCommentState(s)
  }

  predicate StackFits(cfg: Config, s: seq<Mode>) {
    && 1 <= |s| <= cfg.depth + 1
    && s[0] == MODE_DONE
    && (forall i :: 1 <= i < |s| ==> s[i] != MODE_DONE)
    && (forall i :: 1 <= i < |s| - 1 ==> s[i] != MODE_KEY)
  }

  predicate Linked(cfg: Config, m: Machine) {
    && StackFits(cfg, m.stack)
    && Core(m.state, m.before, m.ty, m.hi, m.escaped, m.comment, m.buf, Top(m))
  }

  lemma StartLinked(cfg: Config)
    requires cfg.depth >= 1
    ensures Linked(cfg, Start())
  {
  }

  /** The mode stack fits before and after each of its changes. */
  lemma PushFits(cfg: Config, s: seq<Mode>, mode: Mode)
    requires StackFits(cfg, s) && s[|s| - 1] != MODE_KEY && |s| <= cfg.depth
    requires !mode.MODE_DONE?
    ensures StackFits(cfg, s + [mode])
  {
  }

  lemma PopFits(cfg: Config, s: seq<Mode>)
    requires StackFits(cfg, s) && s[|s| - 1] != MODE_DONE
    ensures StackFits(cfg, s[..|s| - 1]) && s[..|s| - 1][|s| - 2] != MODE_KEY
  {
  }

  // ----- what the table allows -----

  lemma GotoBare(s: State, k: Class, t: State)
    requires Next(s, k) == Goto(t) && IsBareState(s)
    ensures t == s && IsBlankClass(k)
  {
  }

  /** A plain move inside a string, and the characters that allow it. */
  ghost predicate StringGoto(s: State, k: Class, t: State) {
    || (t == ST && (s == ST || s == ES))
    || (t == U1 && (s == ES || s == D2) && k == C_LOW_U)
    || (t == U2 && s == U1 && IsHexClass(k))
    || (t == U3 && s == U2 && IsHexClass(k))
    || (t == U4 && s == U3 && IsHexClass(k))
    || (t == D2 && s == D1 && k == C_BACKS)
  }

  lemma GotoString(s: State, k: Class, t: State)
    requires Next(s, k) == Goto(t) && IsStringState(s)
    ensures StringGoto(s, k, t)
  {
  }

  lemma GotoComment(s: State, k: Class, t: State)
    requires Next(s, k) == Goto(t) && IsCommentState(s)
    ensures t == C2 || t == C3
  {
  }

  /** Within a number or a literal name a plain move keeps the pending type. */
  lemma GotoNumber(s: State, k: Class, t: State)
    requires Next(s, k) == Goto(t) && IsNumberState(s)
    ensures t == OK || t == ZE || t == IT || t == FR || t == E1 || t == E2 || t == E3
    ensures t == ZE || t == IT ==> s == MI || s == IT
    ensures t == FR || t == E1 || t == E2 || t == E3 ==> s != MI && s != ZE && s != IT
  {
  }

  lemma GotoWord(s: State, k: Class, t: State)
    requires Next(s, k) == Goto(t) && IsWordState(s)
    ensures || t == OK || (t == T2 && s == T1) || (t == T3 && s == T2)
            || (t == F2 && s == F1) || (t == F3 && s == F2) || (t == F4 && s == F3)
            || (t == N2 && s == N1) || (t == N3 && s == N2)
  {
  }

  /** The states and the character an action is taken on. */
  ghost predicate ActionAllowed(s: State, k: Class, a: Action) {
    match a
    case UC => s == U4 && IsHexClass(k)
    case EX => s == ST && k == C_BACKS
    case EndString => s == ST
    case DE => s == IT
    case DF => (s == ZE || s == IT) && k == C_POINT
    case CE => s == C3
    case EmptyObject => s == OB
    case Colon => s == CO
    case SB => s == OB || s == KE || s == VA || s == AR
    case MX | ZX | IX | NU | FA | TR => s == VA || s == AR
    case BeginObject | BeginArray => s == GO || s == VA || s == AR
    case EndArray => s == OK || s == AR || IsNumberState(s)
    case EndObject | Comma => s == OK || IsNumberState(s)
    case CB => !IsStringState(s) && !IsCommentState(s)
  }

  lemma ActionIsAllowed(s: State, k: Class, a: Action)
    requires Next(s, k) == Do(a)
    ensures ActionAllowed(s, k, a) && !IsBlankClass(k)
  {
  }

  lemma CharOfClass(c: nat)
    ensures ClassOf(c) == C_BACKS ==> c == 92
    ensures ClassOf(c) == C_LOW_U ==> c == 117
    ensures ClassOf(c) == C_POINT ==> c == 46
    ensures IsHexClass(ClassOf(c)) ==> c < 256
  {
  }

  // ----- one character keeps the link -----

  /** add_char_to_parse_buffer, on the fields it reads. */
  function Added(escaped: bool, comment: bool, ty: Type, buf: seq<int>, c: nat, k: Class): seq<int> {
    if escaped then Front(buf) + Unescape(c)
    else if !comment && (!ty.T_NONE? || !IsBlankClass(k)) then buf + [c % 256]
    else buf
  }

  lemma AddedIs(m: Machine, c: nat, k: Class)
    requires AddChar(m, c, k).Ok?
    ensures AddChar(m, c, k).m == m.(escaped := false, buf := Added(m.escaped, m.comment, m.ty, m.buf, c, k))
    ensures m.escaped ==> Unescape(c) != []
  {
  }

  lemma BareMove(s: State, before: State, ty: Type, hi: nat, buf: seq<int>, mode: Mode, c: nat, k: Class)
    requires Core(s, before, ty, hi, false, false, buf, mode) && IsBareState(s) && IsBlankClass(k)
    ensures Core(s, before, ty, hi, false, false, Added(false, false, ty, buf, c, k), mode)
  {
  }

  lemma StringMove(s: State, before: State, ty: Type, hi: nat, buf: seq<int>, mode: Mode, c: nat, t: State)
    requires Core(s, before, ty, hi, s == ES, false, buf, mode) && IsStringState(s)
    requires s == ES ==> Unescape(c) != []
    requires StringGoto(s, ClassOf(c), t)
    ensures Core(t, before, ty, hi, false, false, Added(s == ES, false, ty, buf, c, ClassOf(c)), mode)
  {
    CharOfClass(c);
  }

  lemma ValueMove(s: State, before: State, ty: Type, hi: nat, buf: seq<int>, mode: Mode, c: nat, k: Class, t: State)
    requires Core(s, before, ty, hi, false, false, buf, mode) && (IsNumberState(s) || IsWordState(s))
    requires TypeFits(t, ty) && (t == OK || IsNumberState(t) || IsWordState(t))
    ensures Core(t, before, ty, hi, false, false, Added(false, false, ty, buf, c, k), mode)
  {
  }

  lemma ValueGotoType(s: State, k: Class, t: State, ty: Type)
    requires Next(s, k) == Goto(t) && (IsNumberState(s) || IsWordState(s)) && TypeFits(s, ty)
    ensures TypeFits(t, ty) && (t == OK || IsNumberState(t) || IsWordState(t))
  {
    if IsNumberState(s) {
      GotoNumber(s, k, t);
    } else {
      GotoWord(s, k, t);
    }
  }

  lemma GotoKeepsLink(cfg: Config, m: Machine, c: nat, m1: Machine, s: State)
    requires Linked(cfg, m) && AddChar(m, c, ClassOf(c)) == Ok(m1)
    requires Next(m.state, ClassOf(c)) == Goto(s)
    ensures Linked(cfg, m1.(state := s))
  {
    var k := ClassOf(c);
    AddedIs(m, c, k);
    if IsBareState(m.state) {
      GotoBare(m.state, k, s);
      BareMove(m.state, m.before, m.ty, m.hi, m.buf, Top(m), c, k);
    } else if IsStringState(m.state) {
      GotoString(m.state, k, s);
      StringMove(m.state, m.before, m.ty, m.hi, m.buf, Top(m), c, s);
    } else if IsCommentState(m.state) {
      GotoComment(m.state, k, s);
    } else {
      ValueGotoType(m.state, k, s, m.ty);
      ValueMove(m.state, m.before, m.ty, m.hi, m.buf, Top(m), c, k, s);
    }
  }

  lemma PlainActionKeepsLink(cfg: Config, m: Machine, c: nat, m1: Machine, a: Action)
    requires Linked(cfg, m) && AddChar(m, c, ClassOf(c)) == Ok(m1)
    requires Next(m.state, ClassOf(c)) == Do(a)
    requires a.EX? || a.MX? || a.ZX? || a.IX? || a.DE? || a.DF? || a.SB? || a.NU? || a.FA? || a.TR? || a.CE?
    ensures Linked(cfg, Act(cfg, m1, a).m)
  {
    AddedIs(m, c, ClassOf(c));
    CharOfClass(c);
    ActionIsAllowed(m.state, ClassOf(c), a);
  }

  lemma CommentKeepsLink(cfg: Config, m: Machine, c: nat, m1: Machine)
    requires Linked(cfg, m) && AddChar(m, c, ClassOf(c)) == Ok(m1)
    requires Next(m.state, ClassOf(c)) == Do(CB) && cfg.comments
    ensures Linked(cfg, Act(cfg, m1, CB).m)
  {
    hide Next, ClassOf, DecodeUnicode;
    AddedIs(m, c, ClassOf(c));
    ActionIsAllowed(m.state, ClassOf(c), CB);
    hide AddChar;
  }

  lemma UnicodeKeepsLink(cfg: Config, m: Machine, c: nat, m1: Machine)
    requires Linked(cfg, m) && AddChar(m, c, ClassOf(c)) == Ok(m1)
    requires Next(m.state, ClassOf(c)) == Do(UC)
    requires Act(cfg, m1, UC).Ok?
    ensures Linked(cfg, Act(cfg, m1, UC).m)
  {
    AddedIs(m, c, ClassOf(c));
    ActionIsAllowed(m.state, ClassOf(c), UC);
  }

  /** What every action that is neither plain nor inside a string or a comment finds. */
  lemma ActionFound(cfg: Config, m: Machine, c: nat, m1: Machine, a: Action)
    requires Linked(cfg, m) && AddChar(m, c, ClassOf(c)) == Ok(m1)
    requires Next(m.state, ClassOf(c)) == Do(a)
    requires a.BeginObject? || a.BeginArray? || a.EmptyObject? || a.EndObject? || a.EndArray? || a.Comma? || a.Colon?
    ensures StackFits(cfg, m1.stack) && !m1.comment && !m1.escaped && m1.hi == 0
    ensures a.BeginObject? || a.BeginArray? ==> !Top(m1).MODE_KEY? && m1.ty.T_NONE? && |m1.buf| == 1
    ensures a.EmptyObject? ==> m1.ty.T_NONE?
    ensures a.Colon? ==> Top(m1).MODE_KEY? && m1.ty.T_NONE? && |m1.buf| == 1
  {
    hide Next, ClassOf;
    AddedIs(m, c, ClassOf(c));
    ActionIsAllowed(m.state, ClassOf(c), a);
    hide AddChar;
  }

  lemma BegunIsLinked(cfg: Config, m: Machine, mode: Mode, e: Event)
    requires StackFits(cfg, m.stack) && !m.comment && !m.escaped && m.hi == 0
    requires !Top(m).MODE_KEY? && m.ty.T_NONE? && |m.buf| == 1 && (mode.MODE_ARRAY? || mode.MODE_KEY?)
    ensures var r := BeginContainer(cfg, m, mode, e, if mode.MODE_ARRAY? then AR else OB);
            r.Ok? ==> Linked(cfg, r.m)
  {
    if |m.stack| <= cfg.depth {
      PushFits(cfg, m.stack, mode);
    }
    hide StackFits;
  }

  lemma EndedIsLinked(cfg: Config, m: Machine, mode: Mode, e: Event)
    requires StackFits(cfg, m.stack) && !m.comment && !m.escaped && m.hi == 0 && !mode.MODE_DONE?
    ensures EndContainer(m, mode, e).Ok? ==> Linked(cfg, EndContainer(m, mode, e).m)
  {
    hide PendingEvents;
    if Top(m) == mode {
      PopFits(cfg, m.stack);
    }
  }

  lemma EmptiedIsLinked(cfg: Config, m: Machine)
    requires StackFits(cfg, m.stack) && !m.comment && !m.escaped && m.hi == 0 && m.ty.T_NONE?
    ensures Act(cfg, m, EmptyObject).Ok? ==> Linked(cfg, Act(cfg, m, EmptyObject).m)
  {
    if Top(m) == MODE_KEY {
      PopFits(cfg, m.stack);
    }
  }

  lemma ActOnContainers(cfg: Config, m: Machine)
    ensures Act(cfg, m, BeginObject) == BeginContainer(cfg, m, MODE_KEY, ObjectBegin, OB)
    ensures Act(cfg, m, BeginArray) == BeginContainer(cfg, m, MODE_ARRAY, ArrayBegin, AR)
    ensures Act(cfg, m, EndObject) == EndContainer(m, MODE_OBJECT, ObjectEnd)
    ensures Act(cfg, m, EndArray) == EndContainer(m, MODE_ARRAY, ArrayEnd)
  {
    hide BeginContainer, EndContainer;
  }

  lemma BeginKeepsLink(cfg: Config, m: Machine, c: nat, m1: Machine, a: Action)
    requires Linked(cfg, m) && AddChar(m, c, ClassOf(c)) == Ok(m1)
    requires Next(m.state, ClassOf(c)) == Do(a)
    requires a.BeginObject? || a.BeginArray?
    requires Act(cfg, m1, a).Ok?
    ensures Linked(cfg, Act(cfg, m1, a).m)
  {
    hide *;
    ActionFound(cfg, m, c, m1, a);
    ActOnContainers(cfg, m1);
    if a.BeginArray? {
      BegunIsLinked(cfg, m1, MODE_ARRAY, ArrayBegin);
    } else {
      BegunIsLinked(cfg, m1, MODE_KEY, ObjectBegin);
    }
  }

  lemma EndKeepsLink(cfg: Config, m: Machine, c: nat, m1: Machine, a: Action)
    requires Linked(cfg, m) && AddChar(m, c, ClassOf(c)) == Ok(m1)
    requires Next(m.state, ClassOf(c)) == Do(a)
    requires a.EmptyObject? || a.EndObject? || a.EndArray?
    requires Act(cfg, m1, a).Ok?
    ensures Linked(cfg, Act(cfg, m1, a).m)
  {
    hide *;
    ActionFound(cfg, m, c, m1, a);
    ActOnContainers(cfg, m1);
    if a.EmptyObject? {
      EmptiedIsLinked(cfg, m1);
    } else if a.EndObject? {
      EndedIsLinked(cfg, m1, MODE_OBJECT, ObjectEnd);
    } else {
      EndedIsLinked(cfg, m1, MODE_ARRAY, ArrayEnd);
    }
  }

  lemma StringEndKeepsLink(cfg: Config, m: Machine, c: nat, m1: Machine)
    requires Linked(cfg, m) && AddChar(m, c, ClassOf(c)) == Ok(m1)
    requires Next(m.state, ClassOf(c)) == Do(EndString)
    ensures Act(cfg, m1, EndString).Ok? && Linked(cfg, Act(cfg, m1, EndString).m)
  {
    hide Next, ClassOf, DecodeUnicode;
    AddedIs(m, c, ClassOf(c));
    ActionIsAllowed(m.state, ClassOf(c), EndString);
    hide AddChar;
  }

  lemma FlipFits(cfg: Config, m: Machine, from: Mode, to: Mode)
    requires StackFits(cfg, m.stack) && from != MODE_DONE && to != MODE_DONE && Top(m) == from
    ensures Flip(cfg, m, from, to) == Ok(m.(stack := m.stack[..|m.stack| - 1] + [to]))
    ensures StackFits(cfg, m.stack[..|m.stack| - 1] + [to])
  {
    PopFits(cfg, m.stack);
    PushFits(cfg, m.stack[..|m.stack| - 1], to);
  }

  lemma CommaKeepsLink(cfg: Config, m: Machine)
    requires StackFits(cfg, m.stack) && !m.comment && !m.escaped && m.hi == 0
    requires AfterComma(cfg, m).Ok?
    ensures Linked(cfg, AfterComma(cfg, m).m)
  {
    if Top(m).MODE_OBJECT? {
      FlipFits(cfg, Flush(PopChar(m)), MODE_OBJECT, MODE_KEY);
    }
  }

  lemma ColonKeepsLink(cfg: Config, m: Machine)
    requires StackFits(cfg, m.stack) && !m.comment && !m.escaped && m.hi == 0
    requires Top(m).MODE_KEY? && m.ty.T_NONE? && |m.buf| == 1
    ensures Flip(cfg, PopChar(m), MODE_KEY, MODE_OBJECT).Ok?
    ensures Linked(cfg, Flip(cfg, PopChar(m), MODE_KEY, MODE_OBJECT).m.(state := VA))
  {
    FlipFits(cfg, PopChar(m), MODE_KEY, MODE_OBJECT);
  }

  lemma SeparatorKeepsLink(cfg: Config, m: Machine, c: nat, m1: Machine, a: Action)
    requires Linked(cfg, m) && AddChar(m, c, ClassOf(c)) == Ok(m1)
    requires Next(m.state, ClassOf(c)) == Do(a)
    requires a.Comma? || a.Colon?
    requires Act(cfg, m1, a).Ok?
    ensures Linked(cfg, Act(cfg, m1, a).m)
  {
    hide *;
    ActionFound(cfg, m, c, m1, a);
    ActSeparates(cfg, m1);
    if a.Comma? {
      CommaKeepsLink(cfg, m1);
    } else {
      ColonKeepsLink(cfg, m1);
    }
  }

  lemma ActSeparates(cfg: Config, m: Machine)
    ensures Act(cfg, m, Comma) == AfterComma(cfg, m)
    ensures Flip(cfg, PopChar(m), MODE_KEY, MODE_OBJECT).Ok? ==>
              Act(cfg, m, Colon) == Ok(Flip(cfg, PopChar(m), MODE_KEY, MODE_OBJECT).m.(state := VA))
  {
    hide Flip, AfterComma, PopChar;
  }

  lemma StepSplits(cfg: Config, m: Machine, c: int)
    requires Step(cfg, m, c).Ok?
    ensures c >= 0 && AddChar(m, c, ClassOf(c)).Ok? && !Next(m.state, ClassOf(c)).Bad?
    ensures match Next(m.state, ClassOf(c))
            case Goto(s) => Step(cfg, m, c).m == AddChar(m, c, ClassOf(c)).m.(state := s)
            case Do(a) => Step(cfg, m, c) == Act(cfg, AddChar(m, c, ClassOf(c)).m, a)
            case Bad => true
  {
    hide Act, Next, ClassOf;
  }

  lemma StepKeepsLink(cfg: Config, m: Machine, c: int)
    requires Linked(cfg, m) && Step(cfg, m, c).Ok?
    ensures Linked(cfg, Step(cfg, m, c).m)
  {
    hide *;
    StepSplits(cfg, m, c);
    var m1 := AddChar(m, c, ClassOf(c)).m;
    match Next(m.state, ClassOf(c))
    case Goto(s) => GotoKeepsLink(cfg, m, c, m1, s);
    case Do(a) =>
      if a.CB? {
        CommentsOn(cfg, m1);
        CommentKeepsLink(cfg, m, c, m1);
      } else if a.UC? {
        UnicodeKeepsLink(cfg, m, c, m1);
      } else if a.EndString? {
        StringEndKeepsLink(cfg, m, c, m1);
      } else if a.Comma? || a.Colon? {
        SeparatorKeepsLink(cfg, m, c, m1, a);
      } else if a.BeginObject? || a.BeginArray? {
        BeginKeepsLink(cfg, m, c, m1, a);
      } else if a.EmptyObject? || a.EndObject? || a.EndArray? {
        EndKeepsLink(cfg, m, c, m1, a);
      } else {
        PlainActionKeepsLink(cfg, m, c, m1, a);
      }
  }

  lemma CommentsOn(cfg: Config, m: Machine)
    requires Act(cfg, m, CB).Ok?
    ensures cfg.comments
  {
  }

  // ----- the assertions in the program -----

  /** The assertions on the path of an action, for the state in which it is taken. */
  predicate AssertsHold(m: Machine, a: Action) {
    match a
    case UC => |m.buf| >= 6 && forall i :: |m.buf| - 4 <= i < |m.buf| ==> 0 <= HexDigit(m.buf[i]) < 16
    case DE => !m.ty.T_STRING? && !m.ty.T_NULL? && !m.ty.T_TRUE? && !m.ty.T_FALSE?
    case DF =>
      && !m.ty.T_STRING? && !m.ty.T_NULL? && !m.ty.T_TRUE? && !m.ty.T_FALSE?
      && m.buf != [] && m.buf[|m.buf| - 1] == 46
    case SB | NU | FA | TR => m.ty.T_NONE?
    case CE => m.buf == [] && m.ty.T_NONE?
    case CB | Comma => m.buf != [] && !m.ty.T_STRING?
    case EndObject | EndArray => m.buf != []
    case BeginObject | BeginArray | Colon => m.buf != [] && m.ty.T_NONE?
    case EndString => m.buf != [] && m.ty.T_STRING? && !Top(m).MODE_DONE?
    case _ => true
  }

  lemma HexDigitBelow16(c: int)
    requires IsHex(c)
    ensures 0 <= HexDigit(c) < 16
  {
  }

  /** In every linked state each assertion reached by the next character holds; the first
      one is the assertion that the backslash of an escape is still in the buffer. */
  lemma AssertsAlwaysHold(cfg: Config, m: Machine, c: nat)
    requires Linked(cfg, m)
    ensures m.escaped ==> m.buf != []
    ensures AddChar(m, c, ClassOf(c)).Ok? && Next(m.state, ClassOf(c)).Do? ==>
              AssertsHold(AddChar(m, c, ClassOf(c)).m, Next(m.state, ClassOf(c)).a)
  {
    EscapeInBuffer(cfg, m);
    hide *;
    var k := ClassOf(c);
    if AddChar(m, c, k).Ok? && Next(m.state, k).Do? {
      AddedIs(m, c, k);
      ActionIsAllowed(m.state, k, Next(m.state, k).a);
      if Next(m.state, k).a.UC? {
        UnicodeAsserts(cfg, m, c);
      } else {
        ActionAsserts(cfg, m, c, Next(m.state, k).a);
      }
    }
  }

  lemma EscapeInBuffer(cfg: Config, m: Machine)
    requires Linked(cfg, m)
    ensures m.escaped ==> m.buf != []
  {
  }

  lemma UnicodeAsserts(cfg: Config, m: Machine, c: nat)
    requires Linked(cfg, m) && ActionAllowed(m.state, ClassOf(c), UC)
    ensures AssertsHold(m.(escaped := false, buf := Added(m.escaped, m.comment, m.ty, m.buf, c, ClassOf(c))), UC)
  {
    hide ClassOf;
    CharOfClass(c);
    var b := m.buf + [c];
    forall i | |b| - 4 <= i < |b|
      ensures 0 <= HexDigit(b[i]) < 16
    {
      HexDigitBelow16(b[i]);
    }
  }

  lemma ActionAsserts(cfg: Config, m: Machine, c: nat, a: Action)
    requires Linked(cfg, m) && ActionAllowed(m.state, ClassOf(c), a) && !IsBlankClass(ClassOf(c)) && !a.UC?
    ensures AssertsHold(m.(escaped := false, buf := Added(m.escaped, m.comment, m.ty, m.buf, c, ClassOf(c))), a)
  {
    CharOfClass(c);
    hide ClassOf, HexDigit, EndsInEscape;
  }
}
