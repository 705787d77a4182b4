/** The parser's state as a value and the effect of one character on it, one function
    per function of the program. The class in JsonParser is proved against these. */
module JsonMachine {
  import opened JsonTable

  datatype Error =
    | E_NONE | E_INVALID_CHAR | E_INVALID_KEYWORD | E_INVALID_ESCAPE | E_INVALID_UNICODE
    | E_INVALID_NUMBER | E_NESTING_DEPTH | E_UNBALANCED | E_EXPECTED_KEY | E_EXPECTED_COLON

  /** The pending type of the value being read. */
  datatype Type = T_NONE | T_INTEGER | T_FLOAT | T_NULL | T_TRUE | T_FALSE | T_STRING

  datatype Mode = MODE_ARRAY | MODE_DONE | MODE_KEY | MODE_OBJECT

  /** One call of the callback. Numbers carry the text of the token buffer. */
  datatype Event =
    | ArrayBegin | ArrayEnd | ObjectBegin | ObjectEnd
    | IntegerValue(text: seq<int>) | FloatValue(text: seq<int>)
    | NullValue | TrueValue | FalseValue
    | StringValue(bytes: seq<int>) | Key(bytes: seq<int>)

  datatype Config = Config(depth: nat, comments: bool)

  datatype Machine = Machine(
    state: State, before: State, ty: Type, escaped: bool, comment: bool, hi: nat, error: Error,
    stack: seq<Mode>, buf: seq<int>, events: seq<Event>)

  /** The result of a call: the program's return value and the state it leaves. */
  datatype Res = Ok(m: Machine) | Fail(m: Machine)

  function Start(): Machine {
    Machine(GO, GO, T_NONE, false, false, 0, E_NONE, [MODE_DONE], [], [])
  }

  // ----- stack and token buffer -----

  function Top(m: Machine): Mode { if m.stack == [] then MODE_DONE else m.stack[|m.stack| - 1] }

  function Push(cfg: Config, m: Machine, mode: Mode): Res {
    if |m.stack| - 1 == cfg.depth then Fail(m.(error := E_NESTING_DEPTH))
    else Ok(m.(stack := m.stack + [mode]))
  }

  function Pop(m: Machine, mode: Mode): Res {
    if m.stack == [] || Top(m) != mode then Fail(m) else Ok(m.(stack := m.stack[..|m.stack| - 1]))
  }

  function Front(s: seq<int>): seq<int> { if s == [] then [] else s[..|s| - 1] }

  function PopChar(m: Machine): Machine { m.(buf := Front(m.buf)) }

  function Emit(m: Machine, e: seq<Event>): Machine { m.(events := m.events + e) }

  function PendingEvents(ty: Type, buf: seq<int>): seq<Event> {
    match ty
    case T_NONE => []
    case T_INTEGER => [IntegerValue(buf)]
    case T_FLOAT => [FloatValue(buf)]
    case T_NULL => [NullValue]
    case T_TRUE => [TrueValue]
    case T_FALSE => [FalseValue]
    case T_STRING => [StringValue(buf)]
  }

  /** Hands the pending value to the callback and empties the token buffer. */
  function Flush(m: Machine): Machine {
    m.(buf := [], events := m.events + PendingEvents(m.ty, m.buf))
  }

  // ----- escapes -----

  function HexDigit(c: int): int {
    if c >= 97 then c - 87 else if c >= 65 then c - 55 else c - 48
  }

  function HexValue(h: seq<int>): int
    requires |h| == 4
  {
    HexDigit(h[0]) * 0x1000 + HexDigit(h[1]) * 0x100 + HexDigit(h[2]) * 0x10 + HexDigit(h[3])
  }

  predicate IsHighSurrogate(uc: int) { uc / 0x400 == 0x36 }
  predicate IsLowSurrogate(uc: int) { uc / 0x400 == 0x37 }

  function SurrogatePair(hi: int, lo: int): int { (hi % 0x400) * 0x400 + lo % 0x400 + 0x10000 }

  /** The bytes written for a code point with the given number of trailing bytes. */
  function TrailBytes(uc: int, n: nat): seq<int>
    requires n <= 3
  {
    if n == 0 then [] else if n == 1 then [uc % 0x40 + 0x80]
    else if n == 2 then [(uc / 0x40) % 0x40 + 0x80, uc % 0x40 + 0x80]
    else [(uc / 0x1000) % 0x40 + 0x80, (uc / 0x40) % 0x40 + 0x80, uc % 0x40 + 0x80]
  }

  function LeadByte(uc: int, n: nat): int
    requires n <= 3
  {
    if n == 0 then uc else if n == 1 then uc / 0x40 + 0xC0
    else if n == 2 then uc / 0x1000 + 0xE0 else uc / 0x40000 + 0xF0
  }

  function WriteCodePoint(m: Machine, uc: int, n: nat): Machine
    requires n <= 3
  {
    m.(buf := m.buf + [LeadByte(uc, n)] + TrailBytes(uc, n))
  }

  /** decode_unicode_char: the last six characters of the buffer are a backslash, u and
      four hexadecimal digits. */
  function DecodeUnicode(m0: Machine): Res {
    if |m0.buf| < 6 then Fail(m0) else
    var uc := HexValue(m0.buf[|m0.buf| - 4..]);
    var m := m0.(buf := m0.buf[..|m0.buf| - 6]);
    if m.hi != 0 then
      if IsLowSurrogate(uc) then Ok(WriteCodePoint(m.(hi := 0), SurrogatePair(m.hi, uc), 3))
      else Fail(m)
    else if uc < 0x80 then Ok(WriteCodePoint(m, uc, 0))
    else if uc < 0x800 then Ok(WriteCodePoint(m, uc, 1))
    else if IsHighSurrogate(uc) then Ok(m.(hi := uc))
    else if IsLowSurrogate(uc) then Fail(m)
    else Ok(WriteCodePoint(m, uc, 2))
  }

  /** What replaces the backslash in the buffer; empty for an illegal escape. */
  function Unescape(c: int): seq<int> {
    if c == 98 then [8] else if c == 102 then [12] else if c == 110 then [10]
    else if c == 114 then [13] else if c == 116 then [9]
    else if c == 34 then [34] else if c == 92 then [92] else if c == 47 then [47]
    else if c == 117 then [92, 117] else []
  }

  function AddEscapedChar(m: Machine, c: int): Res {
    var m1 := PopChar(m.(escaped := false));
    if Unescape(c) == [] then Fail(m1.(error := E_INVALID_ESCAPE))
    else Ok(m1.(buf := m1.buf + Unescape(c)))
  }

  function AddChar(m: Machine, c: nat, k: Class): Res {
    if m.escaped then AddEscapedChar(m, c)
    else if !m.comment && (!m.ty.T_NONE? || !IsBlankClass(k)) then
      Ok(m.(buf := m.buf + [c % 256]))
    else Ok(m)
  }

  // ----- one character -----

  function ErrorFor(s: State, c: int): Error {
    if s == GO then
      (if c == 123 || c == 125 || c == 91 || c == 93 then E_UNBALANCED else E_INVALID_CHAR)
    else if s == OB || s == KE then E_EXPECTED_KEY
    else if s == AR then E_UNBALANCED
    else if s == CO then E_EXPECTED_COLON
    else if U1 <= s <= U4 || s == D1 || s == D2 then E_INVALID_UNICODE
    else if T1 <= s <= N3 then E_INVALID_KEYWORD
    else if MI <= s <= E3 then E_INVALID_NUMBER
    else E_INVALID_CHAR
  }

  function SetError(m: Machine, c: int): Machine { m.(error := ErrorFor(m.state, c)) }

  /** The state to return to after a comment that starts in m. */
  function BeforeComment(m: Machine): State {
    if (Top(m) == MODE_ARRAY || Top(m) == MODE_OBJECT) && m.state != VA && m.state != AR then OK
    else m.state
  }

  function BeginComment(cfg: Config, m: Machine): Res {
    if !cfg.comments then Fail(m)
    else
      var m1 := Flush(PopChar(m));
      Ok(m1.(before := BeforeComment(m1), ty := T_NONE, state := C1, comment := true))
  }

  function EndContainer(m: Machine, mode: Mode, e: Event): Res {
    var m1 := Emit(Flush(PopChar(m)), [e]);
    match Pop(m1, mode)
    case Fail(m2) => Fail(m2.(error := E_UNBALANCED))
    case Ok(m2) => Ok(m2.(ty := T_NONE, state := OK))
  }

  function BeginContainer(cfg: Config, m: Machine, mode: Mode, e: Event, s: State): Res {
    match Push(cfg, Emit(PopChar(m), [e]), mode)
    case Fail(m1) => Fail(m1)
    case Ok(m1) => Ok(m1.(state := s))
  }

  function EndOfString(m: Machine): Res {
    var m1 := PopChar(m);
    match Top(m)
    case MODE_KEY => Ok(Emit(m1, [Key(m1.buf)]).(ty := T_NONE, state := CO, buf := []))
    case MODE_DONE => Fail(m1)
    case _ => Ok(Flush(m1).(ty := T_NONE, state := OK))
  }

  function Flip(cfg: Config, m: Machine, from: Mode, to: Mode): Res {
    match Pop(m, from)
    case Fail(m1) => Fail(m1)
    case Ok(m1) => Push(cfg, m1, to)
  }

  function AfterComma(cfg: Config, m: Machine): Res {
    var m1 := Flush(PopChar(m));
    match Top(m)
    case MODE_OBJECT =>
      (match Flip(cfg, m1, MODE_OBJECT, MODE_KEY)
       case Fail(m2) => Fail(m2)
       case Ok(m2) => Ok(m2.(ty := T_NONE, state := KE)))
    case MODE_ARRAY => Ok(m1.(ty := T_NONE, state := VA))
    case _ => Fail(m1)
  }

  function Act(cfg: Config, m: Machine, a: Action): Res {
    match a
    case UC =>
      (match DecodeUnicode(m)
       case Fail(m1) => Fail(m1.(error := E_INVALID_UNICODE))
       case Ok(m1) => Ok(m1.(state := if m1.hi != 0 then D1 else ST)))
    case EX => Ok(m.(escaped := true, state := ES))
    case MX => Ok(m.(ty := T_INTEGER, state := MI))
    case ZX => Ok(m.(ty := T_INTEGER, state := ZE))
    case IX => Ok(m.(ty := T_INTEGER, state := IT))
    case DE => Ok(m.(ty := T_FLOAT, state := E1))
    case DF => Ok(m.(ty := T_FLOAT, state := FX))
    case SB => Ok(m.(buf := [], ty := T_STRING, state := ST))
    case NU => Ok(m.(ty := T_NULL, state := N1))
    case FA => Ok(m.(ty := T_FALSE, state := F1))
    case TR => Ok(m.(ty := T_TRUE, state := T1))
    case CE => Ok(m.(comment := false, state := m.before))
    case CB => BeginComment(cfg, m)
    case EmptyObject =>
      (match Pop(Emit(m.(buf := []), [ObjectEnd]), MODE_KEY)
       case Fail(m1) => Fail(m1)
       case Ok(m1) => Ok(m1.(state := OK)))
    case EndObject => EndContainer(m, MODE_OBJECT, ObjectEnd)
    case EndArray => EndContainer(m, MODE_ARRAY, ArrayEnd)
    case BeginObject => BeginContainer(cfg, m, MODE_KEY, ObjectBegin, OB)
    case BeginArray => BeginContainer(cfg, m, MODE_ARRAY, ArrayBegin, AR)
    case EndString => EndOfString(m)
    case Comma => AfterComma(cfg, m)
    case Colon =>
      (match Flip(cfg, PopChar(m), MODE_KEY, MODE_OBJECT)
       case Fail(m1) => Fail(m1)
       case Ok(m1) => Ok(m1.(state := VA)))
  }

  function Transition(cfg: Config, m: Machine, c: nat, k: Class): Res {
    match Next(m.state, k)
    case Goto(s) => Ok(m.(state := s))
    case Do(a) => Act(cfg, m, a)
    case Bad => Fail(SetError(m, c))
  }

  /** JSON_parser_char */
  function Step(cfg: Config, m: Machine, c: int): Res {
    if c < 0 then Fail(m.(error := E_INVALID_CHAR))
    else if ClassOf(c) == C_NONE then Fail(SetError(m, c))
    else
      match AddChar(m, c, ClassOf(c))
      case Fail(m1) => Fail(m1)
      case Ok(m1) => Transition(cfg, m1, c, ClassOf(c))
  }

  /** Feeds a whole text, stopping at the first rejected character. */
  function Run(cfg: Config, m: Machine, s: seq<int>): Res
    decreases |s|
  {
    if s == [] then Ok(m)
    else
      match Step(cfg, m, s[0])
      case Fail(m1) => Fail(m1)
      case Ok(m1) => Run(cfg, m1, s[1..])
  }

  /** JSON_parser_done */
  function Done(m: Machine): Res {
    if (m.state == OK || m.state == GO) && Pop(m, MODE_DONE).Ok? then Pop(m, MODE_DONE)
    else Fail(m.(error := E_UNBALANCED))
  }

  /** The text is accepted when every character is, and then JSON_parser_done succeeds. */
  predicate Accepts(cfg: Config, s: seq<int>) {
    var r := Run(cfg, Start(), s);
    r.Ok? && Done(r.m).Ok?
  }

  lemma {:induction false} RunAppend(cfg: Config, m: Machine, a: seq<int>, b: seq<int>)
    ensures Run(cfg, m, a + b) ==
            (match Run(cfg, m, a) case Fail(m1) => Fail(m1) case Ok(m1) => Run(cfg, m1, b))
    decreases |a|
  {
    if a == [] {
      assert a + b == b;
    } else {
      assert (a + b)[1..] == a[1..] + b;
      match Step(cfg, m, a[0])
      case Fail(_) =>
      case Ok(m1) => RunAppend(cfg, m1, a[1..], b);
    }
  }

  lemma RunOne(cfg: Config, m: Machine, c: int)
    ensures Run(cfg, m, [c]) == Step(cfg, m, c)
  {
    match Step(cfg, m, c)
    case Fail(_) =>
    case Ok(m1) => assert [c][1..] == [];
      assert Run(cfg, m1, []) == Ok(m1);
  }
}
