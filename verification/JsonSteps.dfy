/** What JSON_parser_char does in each situation: the table and the actions composed. */
module JsonSteps {
  import opened JsonTable
  import opened JsonMachine
  import opened JsonText

  /** An action is taken on the machine that has the character in its buffer. */
  lemma StepDo(cfg: Config, m: Machine, c: nat, a: Action)
    requires !m.escaped && !m.comment && ClassOf(c) != C_NONE && !IsBlankClass(ClassOf(c))
    requires Next(m.state, ClassOf(c)) == Do(a)
    ensures Step(cfg, m, c) == Act(cfg, m.(buf := m.buf + [c % 256]), a)
  {
    hide Act, Next, ClassOf, IsBlankClass, SetError;
  }

  // ----- inside a string -----

  predicate StringMode(m: Machine, s: State) {
    m.state == s && m.ty.T_STRING? && !m.comment && m.escaped == (s == ES)
  }

  lemma StepPlain(cfg: Config, m: Machine, c: int)
    requires StringMode(m, ST) && c >= 32 && c != 34 && c != 92
    ensures Step(cfg, m, c) == Ok(m.(buf := m.buf + [c % 256]))
  {
    hide DecodeUnicode, Unescape, BeginContainer, EndContainer, EndOfString, AfterComma, BeginComment, Flip;
    hide PendingEvents;
  }

  lemma StepBackslash(cfg: Config, m: Machine)
    requires StringMode(m, ST)
    ensures Step(cfg, m, 92) == Ok(m.(escaped := true, state := ES, buf := m.buf + [92]))
  {
    hide DecodeUnicode, Unescape, BeginContainer, EndContainer, EndOfString, AfterComma, BeginComment, Flip;
    hide PendingEvents;
  }

  lemma StepControl(cfg: Config, m: Machine, c: int)
    requires StringMode(m, ST) && c < 32
    ensures Step(cfg, m, c).Fail?
  {
    hide DecodeUnicode, Unescape, BeginContainer, EndContainer, EndOfString, AfterComma, BeginComment, Flip;
    hide PendingEvents;
  }

  lemma StepEscape(cfg: Config, m: Machine, c: int)
    requires StringMode(m, ES) && Unescape(c) != [] && c != 117
    ensures Step(cfg, m, c) == Ok(m.(escaped := false, state := ST, buf := Front(m.buf) + Unescape(c)))
  {
    hide DecodeUnicode, BeginContainer, EndContainer, EndOfString, AfterComma, BeginComment, Flip, PendingEvents;
  }

  lemma StepUnicodeEscape(cfg: Config, m: Machine)
    requires StringMode(m, ES)
    ensures Step(cfg, m, 117) == Ok(m.(escaped := false, state := U1, buf := Front(m.buf) + [92, 117]))
  {
    hide DecodeUnicode, BeginContainer, EndContainer, EndOfString, AfterComma, BeginComment, Flip, PendingEvents;
  }

  lemma StepBadEscape(cfg: Config, m: Machine, c: int)
    requires StringMode(m, ES) && Unescape(c) == []
    ensures Step(cfg, m, c).Fail?
  {
    hide DecodeUnicode, BeginContainer, EndContainer, EndOfString, AfterComma, BeginComment, Flip, PendingEvents;
  }

  lemma StepHex(cfg: Config, m: Machine, c: int)
    requires U1 <= m.state <= U3 && StringMode(m, m.state) && IsHexDigit(c)
    ensures Step(cfg, m, c) == Ok(m.(state := m.state + 1, buf := m.buf + [c]))
  {
    hide DecodeUnicode, Unescape, BeginContainer, EndContainer, EndOfString, AfterComma, BeginComment, Flip;
    hide PendingEvents;
  }

  lemma StepLastHex(cfg: Config, m: Machine, c: int)
    requires StringMode(m, U4) && IsHexDigit(c)
    ensures match DecodeUnicode(m.(buf := m.buf + [c]))
            case Fail(_) => Step(cfg, m, c).Fail?
            case Ok(m1) => Step(cfg, m, c) == Ok(m1.(state := if m1.hi != 0 then D1 else ST))
  {
    hide DecodeUnicode, Unescape, BeginContainer, EndContainer, EndOfString, AfterComma, BeginComment, Flip;
    hide PendingEvents;
  }

  lemma StepNotHex(cfg: Config, m: Machine, c: int)
    requires U1 <= m.state <= U4 && StringMode(m, m.state) && !IsHexDigit(c)
    ensures Step(cfg, m, c).Fail?
  {
    hide DecodeUnicode, Unescape, BeginContainer, EndContainer, EndOfString, AfterComma, BeginComment, Flip;
    hide PendingEvents;
  }

  lemma StepSurrogate(cfg: Config, m: Machine, c: int)
    requires (m.state == D1 || m.state == D2) && StringMode(m, m.state)
    ensures if m.state == D1 && c == 92 then Step(cfg, m, c) == Ok(m.(state := D2, buf := m.buf + [92]))
            else if m.state == D2 && c == 117 then Step(cfg, m, c) == Ok(m.(state := U1, buf := m.buf + [117]))
            else Step(cfg, m, c).Fail?
  {
    hide DecodeUnicode, Unescape, BeginContainer, EndContainer, EndOfString, AfterComma, BeginComment, Flip;
    hide PendingEvents;
  }

  // ----- inside a number -----

  predicate ReadingValue(m: Machine) { !m.comment && !m.escaped && !m.ty.T_NONE? }

  /** The characters that end a value. */
  predicate IsDelimiter(c: int) { c == 44 || c == 93 || c == 125 || c == 47 }

  lemma StepNumber(cfg: Config, m: Machine, c: nat)
    requires IsNumberState(m.state) && ReadingValue(m) && !IsDelimiter(c)
    ensures match NumberRow(m.state, ClassOf(c))
            case Goto(s) => Step(cfg, m, c) == Ok(m.(state := s, buf := m.buf + [c]))
            case Do(a) => (a == DF && c == 46
                           && Step(cfg, m, c) == Ok(m.(ty := T_FLOAT, state := FX, buf := m.buf + [c])))
                       || (a == DE && Step(cfg, m, c) == Ok(m.(ty := T_FLOAT, state := E1, buf := m.buf + [c])))
            case Bad => Step(cfg, m, c).Fail?
  {
    hide DecodeUnicode, Unescape, BeginContainer, EndContainer, EndOfString, AfterComma, BeginComment, Flip;
    hide PendingEvents;
  }

  lemma StepNegative(cfg: Config, m: Machine, c: int)
    requires c < 0
    ensures Step(cfg, m, c).Fail?
  {
    hide DecodeUnicode, Unescape, BeginContainer, EndContainer, EndOfString, AfterComma, BeginComment, Flip;
    hide PendingEvents;
  }

  lemma NumberClasses(c: nat)
    ensures IsDigitClass(ClassOf(c)) <==> IsDigit(c)
    ensures ClassOf(c) == C_ZERO <==> c == 48
    ensures ClassOf(c) == C_POINT <==> c == 46
    ensures ClassOf(c) == C_LOW_E || ClassOf(c) == C_E <==> c == 101 || c == 69
    ensures ClassOf(c) == C_PLUS <==> c == 43
    ensures ClassOf(c) == C_MINUS <==> c == 45
    ensures IsBlankClass(ClassOf(c)) <==> IsBlank(c)
    ensures ClassOf(c) == C_RCURB || ClassOf(c) == C_RSQRB || ClassOf(c) == C_COMMA || ClassOf(c) == C_SLASH
            <==> IsDelimiter(c)
  {
  }

  // ----- between lexemes -----

  /** Nothing is pending: only blanks, punctuation or the start of a value can follow. */
  predicate Idle(m: Machine) {
    IsBareState(m.state) && m.ty.T_NONE? && m.buf == [] && m.hi == 0 && !m.comment && !m.escaped
  }

  lemma StepBlank(cfg: Config, m: Machine, c: int)
    requires Idle(m) && IsBlank(c)
    ensures Step(cfg, m, c) == Ok(m)
  {
    hide DecodeUnicode, Unescape, BeginContainer, EndContainer, EndOfString, AfterComma, BeginComment, Flip;
    hide PendingEvents;
  }

  lemma StepPendingBlank(cfg: Config, m: Machine, c: int)
    requires m.state == OK && ReadingValue(m) && IsBlank(c)
    ensures Step(cfg, m, c) == Ok(m.(buf := m.buf + [c]))
  {
    hide DecodeUnicode, Unescape, BeginContainer, EndContainer, EndOfString, AfterComma, BeginComment, Flip;
    hide PendingEvents;
  }

  lemma StepBeginNumber(cfg: Config, m: Machine, c: int)
    requires Idle(m) && (m.state == VA || m.state == AR) && (c == 45 || IsDigit(c))
    ensures Step(cfg, m, c) ==
            Ok(m.(state := if c == 45 then MI else if c == 48 then ZE else IT, ty := T_INTEGER, buf := [c]))
  {
    hide DecodeUnicode, Unescape, BeginContainer, EndContainer, EndOfString, AfterComma, BeginComment, Flip;
    hide PendingEvents;
    assert m.buf + [c] == [c];
  }

  lemma StepQuote(cfg: Config, m: Machine)
    requires Idle(m) && (m.state == VA || m.state == AR || m.state == OB || m.state == KE)
    ensures Step(cfg, m, 34) == Ok(m.(state := ST, ty := T_STRING))
  {
    hide DecodeUnicode, Unescape, BeginContainer, EndContainer, EndOfString, AfterComma, BeginComment, Flip;
    hide PendingEvents;
  }

  lemma StepEndOfValue(cfg: Config, m: Machine)
    requires StringMode(m, ST) && (Top(m).MODE_ARRAY? || Top(m).MODE_OBJECT?)
    ensures Step(cfg, m, 34) ==
            Ok(m.(state := OK, ty := T_NONE, buf := [], events := m.events + [StringValue(m.buf)]))
  {
    hide DecodeUnicode, Unescape, BeginContainer, EndContainer, AfterComma, BeginComment, Flip;
    assert Front(m.buf + [34]) == m.buf;
  }

  lemma StepEndOfKey(cfg: Config, m: Machine)
    requires StringMode(m, ST) && Top(m).MODE_KEY?
    ensures Step(cfg, m, 34) ==
            Ok(m.(state := CO, ty := T_NONE, buf := [], events := m.events + [Key(m.buf)]))
  {
    hide DecodeUnicode, Unescape, BeginContainer, EndContainer, AfterComma, BeginComment, Flip, PendingEvents;
    assert Front(m.buf + [34]) == m.buf;
  }

  lemma StepColon(cfg: Config, m: Machine)
    requires Idle(m) && m.state == CO && |m.stack| >= 1 && Top(m).MODE_KEY? && |m.stack| - 2 != cfg.depth
    ensures Step(cfg, m, 58) == Ok(m.(state := VA, stack := m.stack[..|m.stack| - 1] + [MODE_OBJECT]))
  {
    hide DecodeUnicode, Unescape, BeginContainer, EndContainer, EndOfString, AfterComma, BeginComment, PendingEvents;
    assert Front(m.buf + [58]) == m.buf;
  }

  lemma StepBegin(cfg: Config, m: Machine, inArray: bool)
    requires Idle(m) && (m.state == VA || m.state == AR || m.state == GO)
    ensures var r := Step(cfg, m, if inArray then 91 else 123);
            if |m.stack| - 1 == cfg.depth then r.Fail?
            else if inArray then
              r == Ok(m.(state := AR, stack := m.stack + [MODE_ARRAY], events := m.events + [ArrayBegin]))
            else r == Ok(m.(state := OB, stack := m.stack + [MODE_KEY], events := m.events + [ObjectBegin]))
  {
    hide DecodeUnicode, Unescape, EndContainer, EndOfString, AfterComma, BeginComment, Flip, PendingEvents;
    assert Front(m.buf + [91]) == m.buf && Front(m.buf + [123]) == m.buf;
  }

  lemma StepEmptyObject(cfg: Config, m: Machine)
    requires Idle(m) && m.state == OB && |m.stack| >= 1 && Top(m).MODE_KEY?
    ensures Step(cfg, m, 125) ==
            Ok(m.(state := OK, stack := m.stack[..|m.stack| - 1], events := m.events + [ObjectEnd]))
  {
    hide DecodeUnicode, Unescape, BeginContainer, EndContainer, EndOfString, AfterComma, BeginComment, Flip;
    hide PendingEvents;
  }

  // ----- after a value -----

  /** A value has ended or may end here: nothing is pending in state OK, a word is pending
      in state OK, or a number is. */
  predicate AtEnd(m: Machine) {
    && !m.comment && !m.escaped && !m.ty.T_STRING?
    && (m.state == OK || (IsNumberState(m.state) && m.state != MI && m.state != E1 && m.state != E2 && !m.ty.T_NONE?))
  }

  /** The token buffer and the events as a delimiter finds them. */
  function Reported(m: Machine): Machine {
    m.(buf := [], events := m.events + PendingEvents(m.ty, m.buf), ty := T_NONE)
  }

  lemma StepComma(cfg: Config, m: Machine)
    requires AtEnd(m) && |m.stack| >= 1 && |m.stack| - 2 != cfg.depth
    ensures var r := Step(cfg, m, 44);
            match Top(m)
            case MODE_ARRAY => r == Ok(Reported(m).(state := VA))
            case MODE_OBJECT => r == Ok(Reported(m).(state := KE, stack := m.stack[..|m.stack| - 1] + [MODE_KEY]))
            case _ => r.Fail?
  {
    hide DecodeUnicode, Unescape, BeginContainer, EndContainer, EndOfString, BeginComment, PendingEvents;
    assert Front(m.buf + [44]) == m.buf;
  }

  lemma StepEnd(cfg: Config, m: Machine, inArray: bool)
    requires AtEnd(m) || (inArray && Idle(m) && m.state == AR)
    requires |m.stack| >= 1
    ensures var r := Step(cfg, m, if inArray then 93 else 125);
            if Top(m) == (if inArray then MODE_ARRAY else MODE_OBJECT) then
              r == Ok(Reported(m).(state := OK, stack := m.stack[..|m.stack| - 1],
                                   events := Reported(m).events + [if inArray then ArrayEnd else ObjectEnd]))
            else r.Fail?
  {
    hide DecodeUnicode, Unescape, BeginContainer, EndOfString, AfterComma, BeginComment, Flip, PendingEvents;
    assert Front(m.buf + [93]) == m.buf && Front(m.buf + [125]) == m.buf;
  }

  // ----- words -----

  lemma StepBeginWord(cfg: Config, m: Machine, c: int)
    requires Idle(m) && (m.state == VA || m.state == AR) && (c == 116 || c == 102 || c == 110)
    ensures Step(cfg, m, c) ==
            if c == 116 then Ok(m.(state := T1, ty := T_TRUE, buf := [c]))
            else if c == 102 then Ok(m.(state := F1, ty := T_FALSE, buf := [c]))
            else Ok(m.(state := N1, ty := T_NULL, buf := [c]))
  {
    hide *;
    var a := if c == 116 then TR else if c == 102 then FA else NU;
    WordBegins(m, c);
    StepDo(cfg, m, c, a);
    WordBegun(cfg, m.(buf := m.buf + [c]), a);
    assert [] + [c] == [c];
  }

  lemma WordBegins(m: Machine, c: int)
    requires Idle(m) && (m.state == VA || m.state == AR) && (c == 116 || c == 102 || c == 110)
    ensures !m.escaped && !m.comment && m.buf == [] && ClassOf(c) != C_NONE && !IsBlankClass(ClassOf(c))
    ensures Next(m.state, ClassOf(c)) == Do(if c == 116 then TR else if c == 102 then FA else NU)
  {
  }

  lemma WordBegun(cfg: Config, m: Machine, a: Action)
    requires a.TR? || a.FA? || a.NU?
    ensures Act(cfg, m, a) ==
            if a.TR? then Ok(m.(state := T1, ty := T_TRUE))
            else if a.FA? then Ok(m.(state := F1, ty := T_FALSE))
                              else Ok(m.(state := N1, ty := T_NULL))
  {
  }

  /** The letter a word state waits for. */
  function Letter(s: State): int
    requires IsWordState(s)
  {
    if s == T1 then 114 else if s == T2 then 117 else if s == T3 then 101
    else if s == F1 then 97 else if s == F2 then 108 else if s == F3 then 115 else if s == F4 then 101
    else if s == N1 then 117 else 108
  }

  lemma StepWord(cfg: Config, m: Machine, c: int)
    requires IsWordState(m.state) && ReadingValue(m) && !(c == 47 && cfg.comments)
    ensures if c == Letter(m.state) then Step(cfg, m, c) == Ok(m.(state := WordStep(m.state).1, buf := m.buf + [c]))
            else Step(cfg, m, c).Fail?
  {
    hide DecodeUnicode, Unescape, BeginContainer, EndContainer, EndOfString, AfterComma, Flip, PendingEvents;
  }

  // ----- characters that are refused -----

  lemma StepSlash(cfg: Config, m: Machine)
    requires !cfg.comments && !IsStringState(m.state) && !IsCommentState(m.state) && !m.escaped
    ensures Step(cfg, m, 47).Fail?
  {
    hide DecodeUnicode, Unescape, BeginContainer, EndContainer, EndOfString, AfterComma, Flip, PendingEvents;
  }

  /** The characters that can start a value. */
  predicate StartsValue(c: int) {
    c == 34 || c == 45 || IsDigit(c) || c == 116 || c == 102 || c == 110 || c == 91 || c == 123
  }

  lemma StepNotValue(cfg: Config, m: Machine, c: int)
    requires Idle(m) && (m.state == VA || m.state == AR || m.state == GO)
    requires c != 47 && !IsBlank(c) && !(m.state == AR && c == 93)
    requires if m.state == GO then c != 91 && c != 123 else !StartsValue(c)
    ensures Step(cfg, m, c).Fail?
  {
    hide DecodeUnicode, Unescape, BeginContainer, EndContainer, EndOfString, AfterComma, BeginComment, Flip;
    hide PendingEvents;
  }

  lemma StepNotKey(cfg: Config, m: Machine, c: int)
    requires Idle(m) && (m.state == OB || m.state == KE)
    requires c != 47 && !IsBlank(c) && c != 34 && !(m.state == OB && c == 125)
    ensures Step(cfg, m, c).Fail?
  {
    hide DecodeUnicode, Unescape, BeginContainer, EndContainer, EndOfString, AfterComma, BeginComment, Flip;
    hide PendingEvents;
  }

  lemma StepNotColon(cfg: Config, m: Machine, c: int)
    requires Idle(m) && m.state == CO && c != 47 && !IsBlank(c) && c != 58
    ensures Step(cfg, m, c).Fail?
  {
    hide DecodeUnicode, Unescape, BeginContainer, EndContainer, EndOfString, AfterComma, BeginComment, Flip;
    hide PendingEvents;
  }

  lemma StepNotEnd(cfg: Config, m: Machine, c: int)
    requires m.state == OK && AtEnd(m) && !IsDelimiter(c) && !IsBlank(c)
    ensures Step(cfg, m, c).Fail?
  {
    hide DecodeUnicode, Unescape, BeginContainer, EndContainer, EndOfString, AfterComma, BeginComment, Flip;
    hide PendingEvents;
  }

  lemma StepTooEarly(cfg: Config, m: Machine, c: int)
    requires (m.state == MI || m.state == E1 || m.state == E2) && ReadingValue(m) && IsDelimiter(c)
    ensures Step(cfg, m, c).Fail?
  {
    hide DecodeUnicode, Unescape, BeginContainer, EndContainer, EndOfString, AfterComma, BeginComment, Flip;
    hide PendingEvents;
  }

  // ----- comments -----

  /** A slash where a comment may start. */
  predicate CommentMayStart(m: Machine) {
    || (Idle(m) && m.state != OK)
    || (AtEnd(m) && m.state != E3 && m.state != FX)
  }

  lemma StepOpenComment(cfg: Config, m: Machine)
    requires cfg.comments && CommentMayStart(m)
    ensures var b := if (Top(m).MODE_ARRAY? || Top(m).MODE_OBJECT?) && m.state != VA && m.state != AR then OK
                     else m.state;
            Step(cfg, m, 47) == Ok(Reported(m).(before := b, state := C1, comment := true))
  {
    hide *;
    SlashOpens(m);
    StepDo(cfg, m, 47, CB);
    assert 47 % 256 == 47;
    CommentOpened(cfg, m, m.(buf := m.buf + [47]));
  }

  lemma SlashOpens(m: Machine)
    requires CommentMayStart(m)
    ensures !m.escaped && !m.comment && ClassOf(47) != C_NONE && !IsBlankClass(ClassOf(47))
    ensures Next(m.state, ClassOf(47)) == Do(CB)
  {
    hide Top;
  }

  lemma CommentOpened(cfg: Config, m: Machine, m1: Machine)
    requires cfg.comments && CommentMayStart(m) && m1 == m.(buf := m.buf + [47])
    ensures var b := if (Top(m).MODE_ARRAY? || Top(m).MODE_OBJECT?) && m.state != VA && m.state != AR then OK
                     else m.state;
            Act(cfg, m1, CB) == Ok(Reported(m).(before := b, state := C1, comment := true))
  {
    hide CommentMayStart, PendingEvents;
    assert Front(m.buf + [47]) == m.buf;
  }

  predicate Legible(c: int) { c >= 0 && ClassOf(c) != C_NONE }

  lemma StepStar(cfg: Config, m: Machine)
    requires IsCommentState(m.state) && m.comment && !m.escaped
    ensures Step(cfg, m, 42) == Ok(m.(state := if m.state == C1 then C2 else C3))
  {
    hide DecodeUnicode, Unescape, BeginContainer, EndContainer, EndOfString, AfterComma, BeginComment, Flip;
    hide PendingEvents;
  }

  lemma StepInComment(cfg: Config, m: Machine, c: int)
    requires (m.state == C2 || m.state == C3) && m.comment && !m.escaped && Legible(c)
    ensures Step(cfg, m, c) ==
            if c == 42 then Ok(m.(state := C3))
            else if m.state == C3 && c == 47 then Ok(m.(comment := false, state := m.before))
            else Ok(m.(state := C2))
  {
    hide DecodeUnicode, Unescape, BeginContainer, EndContainer, EndOfString, AfterComma, BeginComment, Flip;
    hide PendingEvents;
  }
}
