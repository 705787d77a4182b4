/** The parser object with its arrays, updated in place. Each method is proved against the
    function of JsonMachine that describes it; the assertions of the program are
    preconditions of the parts that rely on them, and JsonParserChar establishes them. */
module JsonParser {
  import opened JsonTable
  import opened JsonMachine
  import opened JsonInvariant

  const STACK_SIZE := 128
  const PARSE_BUFFER_SIZE := 4096

  class Parser {
    var state: State
    var beforeCommentState: State
    var ty: Type
    var escaped: bool
    var comment: bool
    var error: Error
    var highSurrogate: nat
    const depth: nat
    const allowComments: bool

    var top: int
    const stack: array<Mode>
    var parseBuffer: array<int>
    var parseBufferCount: nat

    /** What the callback has been told. */
    var events: seq<Event>

    ghost function Cfg(): Config { Config(depth, allowComments) }

    /** The arrays are large enough: the stack for the depth limit, and the token buffer for
        its text and a terminator. */
    ghost predicate Valid()
      reads this, stack, parseBuffer
    {
      && 1 <= depth < STACK_SIZE && stack.Length == STACK_SIZE && -1 <= top <= depth
      && parseBufferCount < parseBuffer.Length && parseBuffer.Length >= PARSE_BUFFER_SIZE
    }

    /** The token text is a C string. */
    predicate Terminated()
      reads this, parseBuffer
    {
      parseBufferCount < parseBuffer.Length && parseBuffer[parseBufferCount] == 0
    }

    ghost function Abs(): Machine
      requires Valid()
      reads this, stack, parseBuffer
    {
      Machine(state, beforeCommentState, ty, escaped, comment, highSurrogate, error,
              stack[..top + 1], parseBuffer[..parseBufferCount], events)
    }

    /** new_JSON_parser with a depth limit; a limit of 0 is raised to 1. */
    constructor (configDepth: nat, comments: bool)
      requires configDepth < STACK_SIZE
      ensures Valid() && Abs() == Start()
      ensures Cfg() == Config(if configDepth == 0 then 1 else configDepth, comments)
      ensures Linked(Cfg(), Abs()) && Terminated()
      ensures fresh(stack) && fresh(parseBuffer)
    {
      var d := if configDepth == 0 then 1 else configDepth;
      depth := d;
      allowComments := comments;
      state, beforeCommentState, ty, escaped, comment := GO, GO, T_NONE, false, false;
      error, highSurrogate, events := E_NONE, 0, [];
      var s := new Mode[STACK_SIZE](_ => MODE_DONE);
      stack := s;
      top := 0;
      var b := new int[PARSE_BUFFER_SIZE](_ => 0);
      parseBuffer := b;
      parseBufferCount := 0;
      new;
      assert stack[..1] == [MODE_DONE];
    }

    method PushMode(mode: Mode) returns (ok: bool)
      requires Valid()
      modifies this`top, this`error, stack
      ensures Valid()
      ensures var r := Push(Cfg(), old(Abs()), mode); ok == r.Ok? && Abs() == r.m
    {
      if top == depth {
        error := E_NESTING_DEPTH;
        return false;
      }
      top := top + 1;
      stack[top] := mode;
      return true;
    }

    method PopMode(mode: Mode) returns (ok: bool)
      requires Valid()
      modifies this`top
      ensures Valid()
      ensures var r := Pop(old(Abs()), mode); ok == r.Ok? && Abs() == r.m
    {
      if top < 0 || stack[top] != mode {
        return false;
      }
      top := top - 1;
      return true;
    }

    // ----- the token buffer -----

    method Clear()
      requires Valid()
      modifies this`parseBufferCount, parseBuffer
      ensures Valid() && Terminated() && Abs() == old(Abs()).(buf := [])
    {
      parseBufferCount := 0;
      parseBuffer[0] := 0;
    }

    method PopBackChar()
      requires Valid() && parseBufferCount >= 1
      modifies this`parseBufferCount, parseBuffer
      ensures Valid() && Terminated() && Abs() == PopChar(old(Abs()))
      ensures parseBufferCount == old(parseBufferCount) - 1
    {
      parseBufferCount := parseBufferCount - 1;
      parseBuffer[parseBufferCount] := 0;
    }

    predicate HasSpaceFor(n: nat)
      reads this
    {
      parseBufferCount + n + 1 <= parseBuffer.Length
    }

    method PushBackChar(c: int)
      requires Valid() && HasSpaceFor(1)
      modifies this`parseBufferCount, parseBuffer
      ensures Valid() && Terminated() && Abs() == old(Abs()).(buf := old(Abs()).buf + [c])
      ensures parseBufferCount == old(parseBufferCount) + 1
    {
      parseBuffer[parseBufferCount] := c;
      parseBufferCount := parseBufferCount + 1;
      parseBuffer[parseBufferCount] := 0;
    }

    /** parse_buffer_grow: the capacity doubles; the terminator is not copied. */
    method Grow()
      requires parseBufferCount < parseBuffer.Length
      modifies this`parseBuffer
      ensures fresh(parseBuffer) && parseBuffer.Length == 2 * old(parseBuffer.Length)
      ensures parseBuffer[..parseBufferCount] == old(parseBuffer[..parseBufferCount])
    {
      var b := new int[2 * parseBuffer.Length](_ => 0);
      forall i | 0 <= i < parseBufferCount {
        b[i] := parseBuffer[i];
      }
      parseBuffer := b;
    }

    /** parse_buffer_reserve_for: afterwards there is room for n characters and the
        terminator, and the text is what it was. */
    method ReserveFor(n: nat)
      requires Valid()
      modifies this`parseBuffer
      ensures Valid() && HasSpaceFor(n) && Abs() == old(Abs())
      ensures parseBuffer == old(parseBuffer) || fresh(parseBuffer)
      ensures old(HasSpaceFor(n)) ==> parseBuffer == old(parseBuffer)
    {
      while parseBufferCount + n + 1 > parseBuffer.Length
        invariant Valid() && Abs() == old(Abs())
        invariant parseBuffer == old(parseBuffer) || (fresh(parseBuffer) && !old(HasSpaceFor(n)))
        decreases parseBufferCount + n + 1 - parseBuffer.Length
      {
        Grow();
      }
    }

    /** parse_parse_buffer: reports the pending value. */
    method ParseParseBuffer()
      requires Valid()
      modifies this`events, this`parseBufferCount, parseBuffer
      ensures Valid() && Terminated() && Abs() == Flush(old(Abs()))
    {
      events := events + PendingEvents(ty, parseBuffer[..parseBufferCount]);
      Clear();
    }

    method Report(e: Event)
      requires Valid()
      modifies this`events
      ensures Valid() && Abs() == Emit(old(Abs()), [e])
      ensures old(Terminated()) ==> Terminated()
    {
      events := events + [e];
    }

    // ----- escapes -----

    method AddEscapedChar(c: int) returns (ok: bool)
      requires Valid() && HasSpaceFor(1) && parseBufferCount >= 1
      modifies this`escaped, this`error, this`parseBufferCount, parseBuffer
      ensures Valid() && Terminated()
      ensures var r := JsonMachine.AddEscapedChar(old(Abs()), c); ok == r.Ok? && Abs() == r.m
    {
      escaped := false;
      PopBackChar();
      if c == 117 {
        PushBackChar(92);
        PushBackChar(117);
      } else if |Unescape(c)| == 1 {
        PushBackChar(Unescape(c)[0]);
      } else {
        error := E_INVALID_ESCAPE;
        return false;
      }
      return true;
    }

    /** add_char_to_parse_buffer */
    method AddCharToParseBuffer(c: nat, k: Class) returns (ok: bool)
      requires Valid() && Terminated() && (escaped ==> parseBufferCount >= 1)
      requires comment || ty.T_NONE? ==> parseBufferCount == 0
      modifies this`parseBuffer, this`escaped, this`error, this`parseBufferCount, parseBuffer
      ensures Valid() && Terminated()
      ensures parseBuffer == old(parseBuffer) || fresh(parseBuffer)
      ensures var r := AddChar(old(Abs()), c, k); ok == r.Ok? && Abs() == r.m
    {
      ReserveFor(1);
      if escaped {
        ok := this.AddEscapedChar(c);
        return;
      }
      if !comment && (!ty.T_NONE? || !IsBlankClass(k)) {
        PushBackChar(c % 256);
      }
      return true;
    }

    /** decode_unicode_char, the first loop: the value of the last four characters. */
    method HexOfTail() returns (uc: int)
      requires Valid() && parseBufferCount >= 6
      requires forall i :: parseBufferCount - 4 <= i < parseBufferCount ==> 0 <= HexDigit(parseBuffer[i]) < 16
      ensures uc == HexValue(parseBuffer[parseBufferCount - 4..parseBufferCount])
      ensures 0 <= uc <= 0xFFFF
    {
      uc := 0;
      var p := parseBufferCount - 4;
      var weight := 0x1000;
      ghost var h := parseBuffer[p..parseBufferCount];
      for k := 0 to 4
        invariant weight == if k == 0 then 0x1000 else if k == 1 then 0x100 else if k == 2 then 0x10
                  else if k == 3 then 1 else 0
        invariant uc == (if k > 0 then HexDigit(h[0]) * 0x1000 else 0) + (if k > 1 then HexDigit(h[1]) * 0x100 else 0)
                        + (if k > 2 then HexDigit(h[2]) * 0x10 else 0) + (if k > 3 then HexDigit(h[3]) else 0)
      {
        var x := HexDigit(parseBuffer[p + k]);
        assert 0 <= x < 16;
        assert parseBuffer[p + k] == h[k];
        uc := uc + x * weight;
        weight := weight / 16;
      }
    }

    /** decode_unicode_char, the second loop: a code point as a leading byte and n trailing
        bytes. */
    method WriteUtf8(uc: int, n: nat)
      requires Valid() && n <= 3 && parseBufferCount + n + 2 <= parseBuffer.Length
      modifies this`parseBufferCount, parseBuffer
      ensures Valid() && Terminated() && Abs() == WriteCodePoint(old(Abs()), uc, n)
    {
      ghost var base := parseBuffer[..parseBufferCount];
      parseBuffer[parseBufferCount] := LeadByte(uc, n);
      parseBufferCount := parseBufferCount + 1;
      var j := n;
      while j > 0
        invariant 0 <= j <= n
        invariant parseBufferCount == |base| + 1 + n - j < parseBuffer.Length
        invariant parseBuffer[..parseBufferCount] == base + [LeadByte(uc, n)] + TrailBytes(uc, n)[..n - j]
      {
        j := j - 1;
        TrailByteAt(uc, n, j);
        parseBuffer[parseBufferCount] := (uc / Shift(j)) % 0x40 + 0x80;
        parseBufferCount := parseBufferCount + 1;
      }
      parseBuffer[parseBufferCount] := 0;
    }

    method DecodeUnicodeChar() returns (ok: bool)
      requires Valid() && parseBufferCount >= 6
      requires forall i :: parseBufferCount - 4 <= i < parseBufferCount ==> 0 <= HexDigit(parseBuffer[i]) < 16
      modifies this`parseBufferCount, this`highSurrogate, parseBuffer
      ensures Valid() && Terminated()
      ensures var r := DecodeUnicode(old(Abs())); ok == r.Ok? && Abs() == r.m
    {
      hide HexValue;
      var uc := HexOfTail();
      ghost var buf := parseBuffer[..parseBufferCount];
      assert buf[|buf| - 4..] == parseBuffer[parseBufferCount - 4..parseBufferCount];
      parseBufferCount := parseBufferCount - 6;
      parseBuffer[parseBufferCount] := 0;
      assert parseBuffer[..parseBufferCount] == buf[..|buf| - 6];
      if highSurrogate != 0 {
        if !IsLowSurrogate(uc) {
          return false;
        }
        uc := SurrogatePair(highSurrogate, uc);
        highSurrogate := 0;
        WriteUtf8(uc, 3);
      } else if uc < 0x80 {
        WriteUtf8(uc, 0);
      } else if uc < 0x800 {
        WriteUtf8(uc, 1);
      } else if IsHighSurrogate(uc) {
        highSurrogate := uc;
      } else if IsLowSurrogate(uc) {
        return false;
      } else {
        WriteUtf8(uc, 2);
      }
      return true;
    }

    // ----- actions -----

    method DoUnicode() returns (ok: bool)
      requires Valid() && AssertsHold(Abs(), UC)
      modifies this`parseBufferCount, this`highSurrogate, this`state, this`error, parseBuffer
      ensures Valid() && Terminated()
      ensures var r := Act(Cfg(), old(Abs()), UC); ok == r.Ok? && Abs() == r.m
    {
      hide DecodeUnicode;
      assert forall i :: parseBufferCount - 4 <= i < parseBufferCount ==> parseBuffer[i] == Abs().buf[i];
      ok := DecodeUnicodeChar();
      if !ok {
        error := E_INVALID_UNICODE;
        return;
      }
      state := if highSurrogate != 0 then D1 else ST;
    }

    method DoComment() returns (ok: bool)
      requires Valid() && Terminated() && AssertsHold(Abs(), CB) && top >= 0
      modifies this`parseBufferCount, this`events, this`beforeCommentState, this`ty, this`state, this`comment,
               parseBuffer
      ensures Valid() && Terminated()
      ensures var r := BeginComment(Cfg(), old(Abs())); ok == r.Ok? && Abs() == r.m
    {
      hide PendingEvents, Front;
      if !allowComments {
        return false;
      }
      PopBackChar();
      ParseParseBuffer();
      assert parseBufferCount == 0 && !ty.T_STRING?;
      match stack[top] {
        case MODE_ARRAY | MODE_OBJECT =>
          beforeCommentState := if state == VA || state == AR then state else OK;
        case _ => beforeCommentState := state;
      }
      ty := T_NONE;
      state := C1;
      comment := true;
      return true;
    }

    method DoEmptyObject() returns (ok: bool)
      requires Valid()
      modifies this`parseBufferCount, this`events, this`top, this`state, parseBuffer
      ensures Valid() && Terminated()
      ensures var r := Act(Cfg(), old(Abs()), EmptyObject); ok == r.Ok? && Abs() == r.m
    {
      Clear();
      Report(ObjectEnd);
      ok := PopMode(MODE_KEY);
      if ok {
        state := OK;
      }
    }

    method DoEndContainer(mode: Mode, e: Event) returns (ok: bool)
      requires Valid() && parseBufferCount >= 1
      modifies this`parseBufferCount, this`events, this`top, this`ty, this`state, this`error, parseBuffer
      ensures Valid() && Terminated()
      ensures var r := EndContainer(old(Abs()), mode, e); ok == r.Ok? && Abs() == r.m
    {
      hide PendingEvents, Front;
      PopBackChar();
      ParseParseBuffer();
      Report(e);
      ok := PopMode(mode);
      if !ok {
        error := E_UNBALANCED;
        return;
      }
      ty := T_NONE;
      state := OK;
    }

    method DoBeginContainer(mode: Mode, e: Event, s: State) returns (ok: bool)
      requires Valid() && parseBufferCount >= 1 && ty.T_NONE?
      modifies this`parseBufferCount, this`events, this`top, this`state, this`error, stack, parseBuffer
      ensures Valid() && Terminated()
      ensures var r := BeginContainer(Cfg(), old(Abs()), mode, e, s); ok == r.Ok? && Abs() == r.m
    {
      PopBackChar();
      Report(e);
      ok := PushMode(mode);
      if ok {
        assert ty.T_NONE?;
        state := s;
      }
    }

    method DoEndString() returns (ok: bool)
      requires Valid() && AssertsHold(Abs(), EndString) && top >= 0
      modifies this`parseBufferCount, this`events, this`ty, this`state, parseBuffer
      ensures Valid() && Terminated()
      ensures var r := EndOfString(old(Abs())); ok == r.Ok? && Abs() == r.m
    {
      PopBackChar();
      match stack[top]
      case MODE_KEY =>
        assert ty.T_STRING?;
        ty := T_NONE;
        state := CO;
        Report(Key(parseBuffer[..parseBufferCount]));
        Clear();
        return true;
      case MODE_ARRAY | MODE_OBJECT =>
        assert ty.T_STRING?;
        ParseParseBuffer();
        ty := T_NONE;
        state := OK;
        return true;
      case MODE_DONE => return false;
    }

    method DoComma() returns (ok: bool)
      requires Valid() && AssertsHold(Abs(), Comma) && top >= 0
      modifies this`parseBufferCount, this`events, this`ty, this`state, this`top, this`error, stack, parseBuffer
      ensures Valid() && Terminated()
      ensures var r := AfterComma(Cfg(), old(Abs())); ok == r.Ok? && Abs() == r.m
    {
      hide PendingEvents, Front;
      PopBackChar();
      ParseParseBuffer();
      match stack[top]
      case MODE_OBJECT =>
        ok := PopMode(MODE_OBJECT);
        if ok {
          ok := PushMode(MODE_KEY);
        }
        if ok {
          assert !ty.T_STRING?;
          ty := T_NONE;
          state := KE;
        }
      case MODE_ARRAY =>
        assert !ty.T_STRING?;
        ty := T_NONE;
        state := VA;
        return true;
      case _ => return false;
    }

    method DoColon() returns (ok: bool)
      requires Valid() && AssertsHold(Abs(), Colon)
      modifies this`parseBufferCount, this`state, this`top, this`error, stack, parseBuffer
      ensures Valid() && Terminated()
      ensures var r := Act(Cfg(), old(Abs()), Colon); ok == r.Ok? && Abs() == r.m
    {
      PopBackChar();
      ok := PopMode(MODE_KEY);
      if ok {
        ok := PushMode(MODE_OBJECT);
      }
      if ok {
        assert ty.T_NONE?;
        state := VA;
      }
    }

    /** The actions that only start a value, note its type, or end a comment. */
    method DoPlain(a: Action)
      requires Valid() && Terminated() && AssertsHold(Abs(), a) && top >= 0
      requires a.EX? || a.MX? || a.ZX? || a.IX? || a.DE? || a.DF? || a.SB? || a.NU? || a.FA? || a.TR? || a.CE?
      modifies this`parseBufferCount, this`ty, this`state, this`comment, this`escaped, parseBuffer
      ensures Valid() && Terminated() && Act(Cfg(), old(Abs()), a) == Ok(Abs())
    {
      match a
      case EX => escaped := true; state := ES;
      case MX => ty := T_INTEGER; state := MI;
      case ZX => ty := T_INTEGER; state := ZE;
      case IX => ty := T_INTEGER; state := IT;
      case DE =>
        assert !ty.T_STRING? && !ty.T_NULL? && !ty.T_TRUE? && !ty.T_FALSE?;
        ty := T_FLOAT;
        state := E1;
      case DF =>
        assert !ty.T_STRING? && !ty.T_NULL? && !ty.T_TRUE? && !ty.T_FALSE?;
        // the decimal point is written back as itself
        assert parseBuffer[parseBufferCount - 1] == Abs().buf[parseBufferCount - 1] == 46;
        ty := T_FLOAT;
        state := FX;
      case SB =>
        Clear();
        assert ty.T_NONE?;
        ty := T_STRING;
        state := ST;
      case NU => assert ty.T_NONE?; ty := T_NULL; state := N1;
      case FA => assert ty.T_NONE?; ty := T_FALSE; state := F1;
      case TR => assert ty.T_NONE?; ty := T_TRUE; state := T1;
      case CE =>
        comment := false;
        assert |Abs().buf| == 0;
        assert parseBufferCount == 0 && ty.T_NONE?;
        state := beforeCommentState;
    }

    /** The switch of JSON_parser_char. */
    method Perform(a: Action) returns (ok: bool)
      requires Valid() && Terminated() && AssertsHold(Abs(), a) && top >= 0
      modifies this`parseBufferCount, this`events, this`beforeCommentState, this`ty, this`state, this`comment,
               this`escaped, this`highSurrogate, this`top, this`error, stack, parseBuffer
      ensures Valid() && Terminated()
      ensures var r := Act(Cfg(), old(Abs()), a); ok == r.Ok? && Abs() == r.m
    {
      hide Emit, Flush, Push, Pop, PendingEvents, DecodeUnicode, BeginContainer, EndContainer, EndOfString, AfterComma;
      ok := true;
      match a
      case UC => ok := DoUnicode();
      case CB => ok := DoComment();
      case EmptyObject => ok := DoEmptyObject();
      case EndObject => ok := DoEndContainer(MODE_OBJECT, ObjectEnd);
      case EndArray => ok := DoEndContainer(MODE_ARRAY, ArrayEnd);
      case BeginObject => ok := DoBeginContainer(MODE_KEY, ObjectBegin, OB);
      case BeginArray => ok := DoBeginContainer(MODE_ARRAY, ArrayBegin, AR);
      case EndString => ok := DoEndString();
      case Comma => ok := DoComma();
      case Colon => ok := DoColon();
      case _ => DoPlain(a);
    }

    /** JSON_parser_char: one character, with every assertion met on the way. */
    method JsonParserChar(c: int) returns (ok: bool)
      requires Valid() && Terminated() && Linked(Cfg(), Abs())
      modifies this, stack, parseBuffer
      ensures Valid() && Terminated()
      ensures parseBuffer == old(parseBuffer) || fresh(parseBuffer)
      ensures var r := Step(Cfg(), old(Abs()), c); ok == r.Ok? && Abs() == r.m
      ensures ok ==> Linked(Cfg(), Abs())
    {
      hide Act, Linked, ErrorFor, Next, ClassOf, AddChar, AssertsHold, Added, IsBlankClass;
      ghost var m := Abs();
      if c < 0 {
        error := E_INVALID_CHAR;
        return false;
      }
      var k := ClassOf(c);
      if k == C_NONE {
        error := ErrorFor(state, c);
        return false;
      }
      AssertsAlwaysHold(Cfg(), m, c);
      EmptyUnlessReading(Cfg(), m);
      ok := AddCharToParseBuffer(c, k);
      if !ok {
        return;
      }
      AddedIs(m, c, k);
      match Next(state, k) {
        case Goto(s) => state := s;
        case Bad =>
          error := ErrorFor(state, c);
          ok := false;
        case Do(a) => ok := Perform(a);
      }
      if ok {
        StepKeepsLink(Cfg(), m, c);
      }
    }

    /** JSON_parser_done */
    method JsonParserDone() returns (ok: bool)
      requires Valid()
      modifies this`top, this`error
      ensures Valid()
      ensures var r := Done(old(Abs())); ok == r.Ok? && Abs() == r.m
    {
      if state == OK || state == GO {
        ok := PopMode(MODE_DONE);
        if ok {
          return;
        }
      }
      error := E_UNBALANCED;
      return false;
    }
  }

  lemma EmptyUnlessReading(cfg: Config, m: Machine)
    requires Linked(cfg, m)
    ensures m.comment || m.ty.T_NONE? ==> m.buf == []
    ensures m.stack != []
  {
  }

  /** Dividing by this is a shift right by 6 * j bits. */
  function Shift(j: nat): int
    requires j <= 3
    ensures Shift(j) > 0
  {
    if j == 0 then 1 else if j == 1 then 0x40 else if j == 2 then 0x1000 else 0x40000
  }

  lemma TrailByteAt(uc: int, n: nat, j: nat)
    requires j < n <= 3
    ensures |TrailBytes(uc, n)| == n
    ensures TrailBytes(uc, n)[n - 1 - j] == (uc / Shift(j)) % 0x40 + 0x80
  {
  }
}
