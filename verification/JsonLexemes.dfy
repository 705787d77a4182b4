/** How the automaton reads the two unbounded lexemes, strings and numbers: each state of
    the automaton inside a lexeme corresponds to a part of the lexeme already read, and a
    character is accepted exactly when it continues that part. */
module JsonLexemes {
  import opened JsonTable
  import opened JsonMachine
  import opened JsonSteps
  import opened JsonText
  import opened UtfCodec
  import opened Optional

  // ----- UTF-8 -----

  /** The parser's bytes are those of the standard. */
  lemma WritesUtf8(m: Machine, cp: int, n: nat)
    requires n == if cp < 0x80 then 0 else if cp < 0x800 then 1 else if cp < 0x10000 then 2 else 3
    ensures WriteCodePoint(m, cp, n) == m.(buf := m.buf + Utf8(cp))
  {
    assert [LeadByte(cp, n)] + TrailBytes(cp, n) == Utf8(cp);
    assert m.buf + [LeadByte(cp, n)] + TrailBytes(cp, n) == m.buf + ([LeadByte(cp, n)] + TrailBytes(cp, n));
  }

  /** Every \u escape and every surrogate pair of a string yields bytes that decode to the
      code point the escapes denote. */
  lemma EscapesDecode(p: Piece)
    requires PieceOk(p)
    ensures p.Unicode? ==> Utf8Decode(PieceBytes(p)) == Some(CodeUnit(p.h))
    ensures p.Pair? ==>
              && Utf8Decode(PieceBytes(p)) == Some(PairCodePoint(CodeUnit(p.h), CodeUnit(p.l)))
              && 0x10000 <= PairCodePoint(CodeUnit(p.h), CodeUnit(p.l)) <= 0x10FFFF
  {
    match p
    case Unicode(h) => HexRange(h); Utf8RoundTrip(CodeUnit(h));
    case Pair(h, l) => Utf8RoundTrip(PairCodePoint(CodeUnit(h), CodeUnit(l)));
    case _ =>
  }

  lemma HexRange(h: seq<int>)
    requires IsHex4(h)
    ensures 0 <= CodeUnit(h) <= 0xFFFF
  {
    CodeUnitIs(h);
  }

  /** The program's value of four digits is the number they spell. */
  lemma CodeUnitIs(h: seq<int>)
    requires IsHex4(h)
    ensures HexValue(h) == CodeUnit(h)
  {
    var a, b, c := h[..3], h[..2], h[..1];
    assert a[..2] == b && b[..1] == c && c[..0] == [];
    assert CodeUnit(c) == HexDigit(h[0]);
    assert CodeUnit(b) == 16 * CodeUnit(c) + HexDigit(h[1]);
    assert CodeUnit(a) == 16 * CodeUnit(b) + HexDigit(h[2]);
    assert CodeUnit(h) == 16 * CodeUnit(a) + HexDigit(h[3]);
  }

  // ----- strings -----

  /** The part of a piece that has been read. */
  datatype Tail =
    | Between | Escape | Hex(h: seq<int>)
    | High(h: seq<int>) | HighBack(h: seq<int>) | HighHex(h: seq<int>, l: seq<int>)

  predicate IsHighHex(h: seq<int>) { IsHex4(h) && 0xD800 <= CodeUnit(h) < 0xDC00 }

  predicate TailOk(t: Tail) {
    match t
    case Between => true
    case Escape => true
    case Hex(h) => |h| <= 3 && AllHex(h)
    case High(h) => IsHighHex(h)
    case HighBack(h) => IsHighHex(h)
    case HighHex(h, l) => IsHighHex(h) && |l| <= 3 && AllHex(l)
  }

  function TailText(t: Tail): seq<int> {
    match t
    case Between => []
    case Escape => [92]
    case Hex(h) => [92, 117] + h
    case High(h) => [92, 117] + h
    case HighBack(h) => [92, 117] + h + [92]
    case HighHex(h, l) => [92, 117] + h + [92, 117] + l
  }

  function TailBuffer(t: Tail): seq<int> {
    match t
    case Between => []
    case Escape => [92]
    case Hex(h) => [92, 117] + h
    case High(h) => []
    case HighBack(h) => [92]
    case HighHex(h, l) => [92, 117] + l
  }

  function TailState(t: Tail): State
    requires TailOk(t)
  {
    match t
    case Between => ST
    case Escape => ES
    case Hex(h) => U1 + |h|
    case High(h) => D1
    case HighBack(h) => D2
    case HighHex(h, l) => U1 + |l|
  }

  function TailHigh(t: Tail): nat
    requires TailOk(t)
  {
    match t
    case Between => 0
    case Escape => 0
    case Hex(h) => 0
    case High(h) => CodeUnit(h)
    case HighBack(h) => CodeUnit(h)
    case HighHex(h, l) => CodeUnit(h)
  }

  /** The parser after the opening quote, the pieces ps and the tail t. */
  function InString(m: Machine, ps: seq<Piece>, t: Tail): Machine
    requires TailOk(t)
  {
    m.(state := TailState(t), ty := T_STRING, escaped := t.Escape?, comment := false,
       hi := TailHigh(t), buf := PiecesBytes(ps) + TailBuffer(t))
  }

  datatype StringPart = StringPart(ps: seq<Piece>, t: Tail)

  predicate PartOk(p: StringPart) { PiecesOk(p.ps) && TailOk(p.t) }

  function PartText(p: StringPart): seq<int> { PiecesText(p.ps) + TailText(p.t) }

  /** How a character other than the closing quote continues a string. */
  function Continue(p: StringPart, c: int): Option<StringPart>
    requires PartOk(p)
  {
    match p.t
    case Between =>
      if c == 92 then Some(p.(t := Escape))
      else if c >= 32 && c != 34 then Some(StringPart(p.ps + [Plain(c)], Between))
      else None
    case Escape =>
      if c == 117 then Some(p.(t := Hex([])))
      else if ShortMeaning(c).Some? then Some(StringPart(p.ps + [Short(c)], Between))
      else None
    case Hex(h) =>
      if !IsHexDigit(c) then None
      else if |h| < 3 then Some(p.(t := Hex(h + [c])))
      else if 0xD800 <= CodeUnit(h + [c]) < 0xDC00 then Some(p.(t := High(h + [c])))
      else if 0xDC00 <= CodeUnit(h + [c]) < 0xE000 then None
      else Some(StringPart(p.ps + [Unicode(h + [c])], Between))
    case High(h) => if c == 92 then Some(p.(t := HighBack(h))) else None
    case HighBack(h) => if c == 117 then Some(p.(t := HighHex(h, []))) else None
    case HighHex(h, l) =>
      if !IsHexDigit(c) then None
      else if |l| < 3 then Some(p.(t := HighHex(h, l + [c])))
      else if 0xDC00 <= CodeUnit(l + [c]) < 0xE000 then
        Some(StringPart(p.ps + [Pair(h, l + [c])], Between))
      else None
  }

  lemma PiecesSnoc(ps: seq<Piece>, p: Piece)
    ensures PiecesText(ps + [p]) == PiecesText(ps) + PieceText(p)
    ensures PiecesBytes(ps + [p]) == PiecesBytes(ps) + PieceBytes(p)
  {
    assert (ps + [p])[..|ps|] == ps;
  }

  /** When the character completes a piece, tail and character together spell it. */
  lemma ContinueTail(p: StringPart, c: int)
    requires PartOk(p) && Continue(p, c).Some?
    ensures var q := Continue(p, c).value;
            || (q.ps == p.ps && TailOk(q.t) && TailText(q.t) == TailText(p.t) + [c])
            || (q.t == Between && exists x :: PieceOk(x) && q.ps == p.ps + [x] && PieceText(x) == TailText(p.t) + [c])
  {
    hide CodeUnit, ShortMeaning;
    var q := Continue(p, c).value;
    match p.t
    case Between =>
      if c != 92 {
        assert PieceOk(Plain(c)) && PieceText(Plain(c)) == TailText(p.t) + [c];
      }
    case Escape =>
      if c != 117 {
        assert PieceOk(Short(c)) && PieceText(Short(c)) == TailText(p.t) + [c];
      }
    case Hex(h) =>
      assert [92, 117] + (h + [c]) == TailText(p.t) + [c];
      if q.ps != p.ps {
        assert PieceOk(Unicode(h + [c])) && PieceText(Unicode(h + [c])) == TailText(p.t) + [c];
      }
    case High(h) =>
    case HighBack(h) => assert TailText(q.t) == TailText(p.t) + [c];
    case HighHex(h, l) =>
      assert [92, 117] + h + [92, 117] + (l + [c]) == TailText(p.t) + [c];
      if q.ps != p.ps {
        assert PieceOk(Pair(h, l + [c])) && PieceText(Pair(h, l + [c])) == TailText(p.t) + [c];
      }
  }

  lemma ContinueText(p: StringPart, c: int)
    requires PartOk(p) && Continue(p, c).Some?
    ensures var q := Continue(p, c).value; PartOk(q) && PartText(q) == PartText(p) + [c]
  {
    var q := Continue(p, c).value;
    ContinueTail(p, c);
    if q.ps != p.ps {
      var x :| PieceOk(x) && q.ps == p.ps + [x] && PieceText(x) == TailText(p.t) + [c];
      PiecesSnoc(p.ps, x);
    }
    assert PartText(p) + [c] == PiecesText(p.ps) + (TailText(p.t) + [c]);
  }

  /** What one character does inside a string. */
  ghost predicate StringStep(cfg: Config, m: Machine, p: StringPart, c: int)
    requires PartOk(p)
  {
    match Continue(p, c)
    case None => Step(cfg, InString(m, p.ps, p.t), c).Fail?
    case Some(q) => PartOk(q) && Step(cfg, InString(m, p.ps, p.t), c) == Ok(InString(m, q.ps, q.t))
  }

  lemma BetweenStep(cfg: Config, m: Machine, ps: seq<Piece>, c: int)
    requires PiecesOk(ps) && c != 34
    ensures StringStep(cfg, m, StringPart(ps, Between), c)
  {
    var x := InString(m, ps, Between);
    assert x.buf == PiecesBytes(ps);
    if c == 92 {
      StepBackslash(cfg, x);
    } else if c < 32 {
      StepControl(cfg, x, c);
    } else {
      StepPlain(cfg, x, c);
      PiecesSnoc(ps, Plain(c));
      assert InString(m, ps + [Plain(c)], Between).buf == PiecesBytes(ps + [Plain(c)]);
    }
  }

  lemma EscapeStep(cfg: Config, m: Machine, ps: seq<Piece>, c: int)
    requires PiecesOk(ps)
    ensures StringStep(cfg, m, StringPart(ps, Escape), c)
  {
    hide *;
    if c == 117 {
      UnicodeEscapeStep(cfg, m, ps);
    } else if ShortMeaning(c).None? {
      BadEscapeStep(cfg, m, ps, c);
    } else {
      ShortEscapeStep(cfg, m, ps, c);
    }
  }

  /** What the program writes for a two-character escape is what the escape stands for. */
  lemma UnescapeIsMeaning(c: int)
    requires c != 117
    ensures Unescape(c) == match ShortMeaning(c) case None => [] case Some(b) => [b]
  {
  }

  lemma ShortPiece(c: int)
    requires c != 117 && ShortMeaning(c).Some?
    ensures Unescape(c) != [] && PieceOk(Short(c)) && PieceBytes(Short(c)) == Unescape(c)
  {
    UnescapeIsMeaning(c);
    hide Unescape, ShortMeaning;
  }

  lemma ShortContinues(ps: seq<Piece>, c: int)
    requires PiecesOk(ps) && c != 117 && ShortMeaning(c).Some? && PieceOk(Short(c))
    ensures var q := StringPart(ps + [Short(c)], Between);
            PartOk(StringPart(ps, Escape)) && Continue(StringPart(ps, Escape), c) == Some(q) && PartOk(q)
  {
    hide ShortMeaning, PieceOk;
  }

  lemma EscapeMachine(m: Machine, ps: seq<Piece>)
    ensures TailOk(Escape) && StringMode(InString(m, ps, Escape), ES) && InString(m, ps, Escape).escaped
    ensures Front(InString(m, ps, Escape).buf) == PiecesBytes(ps)
    ensures forall b :: InString(m, ps, Escape).(escaped := false, state := ST, buf := b)
                     == m.(state := ST, ty := T_STRING, escaped := false, comment := false, hi := 0, buf := b)
  {
    hide PiecesBytes;
    assert InString(m, ps, Escape).buf == PiecesBytes(ps) + [92];
  }

  lemma BetweenMachine(m: Machine, ps: seq<Piece>)
    ensures TailOk(Between)
    ensures InString(m, ps, Between)
         == m.(state := ST, ty := T_STRING, escaped := false, comment := false, hi := 0, buf := PiecesBytes(ps))
  {
    hide PiecesBytes;
    assert PiecesBytes(ps) + [] == PiecesBytes(ps);
  }

  lemma IsStringStep(cfg: Config, m: Machine, p: StringPart, c: int, q: StringPart)
    requires PartOk(p) && Continue(p, c) == Some(q) && PartOk(q) && TailOk(p.t) && TailOk(q.t)
    requires Step(cfg, InString(m, p.ps, p.t), c) == Ok(InString(m, q.ps, q.t))
    ensures StringStep(cfg, m, p, c)
  {
    hide Step, Continue, PartOk, InString;
  }

  lemma UnicodeEscapeStep(cfg: Config, m: Machine, ps: seq<Piece>)
    requires PiecesOk(ps)
    ensures StringStep(cfg, m, StringPart(ps, Escape), 117)
  {
    hide Step, Unescape, CodeUnit, PiecesBytes;
    var x := InString(m, ps, Escape);
    assert Front(x.buf) == PiecesBytes(ps);
    StepUnicodeEscape(cfg, x);
    assert InString(m, ps, Hex([])).buf == PiecesBytes(ps) + [92, 117];
  }

  lemma BadEscapeStep(cfg: Config, m: Machine, ps: seq<Piece>, c: int)
    requires PiecesOk(ps) && c != 117 && ShortMeaning(c).None?
    ensures StringStep(cfg, m, StringPart(ps, Escape), c)
  {
    UnescapeIsMeaning(c);
    hide Step, Unescape, CodeUnit, PiecesBytes;
    StepBadEscape(cfg, InString(m, ps, Escape), c);
  }

  lemma ShortEscapeStep(cfg: Config, m: Machine, ps: seq<Piece>, c: int)
    requires PiecesOk(ps) && c != 117 && ShortMeaning(c).Some?
    ensures StringStep(cfg, m, StringPart(ps, Escape), c)
  {
    hide *;
    ShortPiece(c);
    ShortContinues(ps, c);
    EscapeMachine(m, ps);
    var x := InString(m, ps, Escape);
    BetweenMachine(m, ps + [Short(c)]);
    StepEscape(cfg, x, c);
    PiecesSnoc(ps, Short(c));
    IsStringStep(cfg, m, StringPart(ps, Escape), c, StringPart(ps + [Short(c)], Between));
  }

  lemma DecodeLow(x: Machine, b: seq<int>, h: seq<int>)
    requires IsHex4(h) && x.buf == b + [92, 117] + h
    ensures x.buf[|x.buf| - 4..] == h && x.buf[..|x.buf| - 6] == b
  {
  }

  lemma HexStep(cfg: Config, m: Machine, ps: seq<Piece>, h: seq<int>, c: int)
    requires PiecesOk(ps) && TailOk(Hex(h))
    ensures StringStep(cfg, m, StringPart(ps, Hex(h)), c)
  {
    hide Step, DecodeUnicode, CodeUnit, PieceBytes;
    var x := InString(m, ps, Hex(h));
    if !IsHexDigit(c) {
      StepNotHex(cfg, x, c);
    } else if |h| < 3 {
      StepHex(cfg, x, c);
      assert InString(m, ps, Hex(h + [c])).buf == x.buf + [c];
    } else {
      LastHexStep(cfg, m, ps, h, c);
    }
  }

  lemma LastHexStep(cfg: Config, m: Machine, ps: seq<Piece>, h: seq<int>, c: int)
    requires PiecesOk(ps) && TailOk(Hex(h)) && IsHexDigit(c) && |h| == 3
    ensures StringStep(cfg, m, StringPart(ps, Hex(h)), c)
  {
    hide Step, DecodeUnicode, CodeUnit, PieceBytes, PiecesBytes;
    var x := InString(m, ps, Hex(h));
    StepLastHex(cfg, x, c);
    var y := x.(buf := x.buf + [c]);
    assert y.buf == PiecesBytes(ps) + [92, 117] + (h + [c]);
    UnicodeDecoded(m, ps, y, h + [c]);
    assert InString(m, ps + [Unicode(h + [c])], Between).buf == PiecesBytes(ps + [Unicode(h + [c])]);
    if 0xD800 <= CodeUnit(h + [c]) < 0xDC00 {
      assert InString(m, ps, High(h + [c])).buf == PiecesBytes(ps);
    }
  }

  lemma UnicodeBytes(h: seq<int>)
    ensures PieceBytes(Unicode(h)) == Utf8(CodeUnit(h))
  {
  }

  lemma DecodedOutside(y: Machine, b: seq<int>, h: seq<int>)
    requires IsHex4(h) && y.hi == 0 && y.buf == b + [92, 117] + h && 0 <= HexValue(h) <= 0xFFFF
    ensures var v := HexValue(h);
            if 0xD800 <= v < 0xDC00 then DecodeUnicode(y) == Ok(y.(hi := v, buf := b))
            else if 0xDC00 <= v < 0xE000 then DecodeUnicode(y).Fail?
            else DecodeUnicode(y) == Ok(y.(buf := b + Utf8(v)))
  {
    hide HexValue, WriteCodePoint, Utf8;
    var v := HexValue(h);
    DecodeLow(y, b, h);
    WritesUtf8(y.(buf := b), v, if v < 0x80 then 0 else if v < 0x800 then 1 else 2);
  }

  /** decode_unicode_char outside a pair. */
  lemma UnicodeDecoded(m: Machine, ps: seq<Piece>, y: Machine, h: seq<int>)
    requires IsHex4(h) && y.hi == 0 && y.buf == PiecesBytes(ps) + [92, 117] + h
    ensures var v := CodeUnit(h);
            if 0xD800 <= v < 0xDC00 then DecodeUnicode(y) == Ok(y.(hi := v, buf := PiecesBytes(ps)))
            else if 0xDC00 <= v < 0xE000 then DecodeUnicode(y).Fail?
            else DecodeUnicode(y) == Ok(y.(buf := PiecesBytes(ps + [Unicode(h)])))
  {
    hide *;
    CodeUnitIs(h);
    HexRange(h);
    PiecesSnoc(ps, Unicode(h));
    UnicodeBytes(h);
    DecodedOutside(y, PiecesBytes(ps), h);
  }

  lemma PairOfSurrogates(h: int, l: int)
    requires 0xD800 <= h < 0xDC00 && 0xDC00 <= l < 0xE000
    ensures SurrogatePair(h, l) == PairCodePoint(h, l) >= 0x10000
  {
    assert h % 0x400 == h - 0xD800 && l % 0x400 == l - 0xDC00;
  }

  /** decode_unicode_char with a saved high surrogate. */
  lemma PairDecoded(ps: seq<Piece>, y: Machine, h: seq<int>, l: seq<int>)
    requires IsHighHex(h) && IsHex4(l) && y.hi == CodeUnit(h) && y.buf == PiecesBytes(ps) + [92, 117] + l
    ensures if 0xDC00 <= CodeUnit(l) < 0xE000
            then DecodeUnicode(y) == Ok(y.(hi := 0, buf := PiecesBytes(ps + [Pair(h, l)])))
            else DecodeUnicode(y).Fail?
  {
    hide CodeUnit, HexValue, PiecesBytes;
    var v := CodeUnit(l);
    DecodeLow(y, PiecesBytes(ps), l);
    HexRange(l);
    CodeUnitIs(l);
    assert IsLowSurrogate(v) <==> 0xDC00 <= v < 0xE000;
    if 0xDC00 <= v < 0xE000 {
      PairOfSurrogates(CodeUnit(h), v);
      PiecesSnoc(ps, Pair(h, l));
      WritesUtf8(y.(hi := 0, buf := PiecesBytes(ps)), SurrogatePair(CodeUnit(h), v), 3);
    }
  }

  lemma HighStep(cfg: Config, m: Machine, ps: seq<Piece>, t: Tail, c: int)
    requires PiecesOk(ps) && TailOk(t) && (t.High? || t.HighBack?)
    ensures StringStep(cfg, m, StringPart(ps, t), c)
  {
    var x := InString(m, ps, t);
    StepSurrogate(cfg, x, c);
    if t.High? && c == 92 {
      assert InString(m, ps, HighBack(t.h)).buf == x.buf + [92];
    } else if t.HighBack? && c == 117 {
      assert InString(m, ps, HighHex(t.h, [])).buf == x.buf + [117];
    }
  }

  lemma HighHexStep(cfg: Config, m: Machine, ps: seq<Piece>, h: seq<int>, l: seq<int>, c: int)
    requires PiecesOk(ps) && TailOk(HighHex(h, l))
    ensures StringStep(cfg, m, StringPart(ps, HighHex(h, l)), c)
  {
    hide Step, DecodeUnicode, CodeUnit, PieceBytes;
    var x := InString(m, ps, HighHex(h, l));
    if !IsHexDigit(c) {
      StepNotHex(cfg, x, c);
    } else if |l| < 3 {
      StepHex(cfg, x, c);
      assert InString(m, ps, HighHex(h, l + [c])).buf == x.buf + [c];
    } else {
      StepLastHex(cfg, x, c);
      var y := x.(buf := x.buf + [c]);
      assert y.buf == PiecesBytes(ps) + [92, 117] + (l + [c]);
      PairDecoded(ps, y, h, l + [c]);
      assert InString(m, ps + [Pair(h, l + [c])], Between).buf == PiecesBytes(ps + [Pair(h, l + [c])]);
    }
  }

  lemma StringSteps(cfg: Config, m: Machine, p: StringPart, c: int)
    requires PartOk(p) && (p.t.Between? ==> c != 34)
    ensures StringStep(cfg, m, p, c)
  {
    match p.t
    case Between => BetweenStep(cfg, m, p.ps, c);
    case Escape => EscapeStep(cfg, m, p.ps, c);
    case Hex(h) => HexStep(cfg, m, p.ps, h, c);
    case HighHex(h, l) => HighHexStep(cfg, m, p.ps, h, l, c);
    case _ => HighStep(cfg, m, p.ps, p.t, c);
  }

  /** An accepted character continues the string. */
  lemma StringGoesOn(cfg: Config, m: Machine, p: StringPart, c: int) returns (q: StringPart)
    requires PartOk(p) && (p.t.Between? ==> c != 34) && Step(cfg, InString(m, p.ps, p.t), c).Ok?
    ensures PartOk(q) && Step(cfg, InString(m, p.ps, p.t), c) == Ok(InString(m, q.ps, q.t))
    ensures PartText(q) == PartText(p) + [c]
  {
    hide Step, InString, PartOk, Continue, PartText;
    StringSteps(cfg, m, p, c);
    q := Continue(p, c).value;
    ContinueText(p, c);
  }

  /** A whole string, fed between its quotes. */
  lemma {:induction false} FeedPart(cfg: Config, m: Machine, p: StringPart, s: seq<int>, q: StringPart)
    requires PartOk(p) && ContinueAll(p, s) == Some(q)
    ensures PartOk(q) && Run(cfg, InString(m, p.ps, p.t), s) == Ok(InString(m, q.ps, q.t))
    decreases |s|
  {
    if s != [] {
      StringSteps(cfg, m, p, s[0]);
      FeedPart(cfg, m, Continue(p, s[0]).value, s[1..], q);
    }
  }

  function ContinueAll(p: StringPart, s: seq<int>): Option<StringPart>
    requires PartOk(p)
    decreases |s|
  {
    if s == [] then Some(p)
    else
      match Continue(p, s[0])
      case None => None
      case Some(q) => ContinueText(p, s[0]); ContinueAll(q, s[1..])
  }

  lemma ContinueHex(ps: seq<Piece>, h: seq<int>, done: nat, t: Tail)
    requires PiecesOk(ps) && IsHex4(h) && done <= 3
    requires t == Hex(h[..done]) || (t.HighHex? && IsHighHex(t.h) && t.l == h[..done])
    ensures ContinueAll(StringPart(ps, t), h[done..])
         == Continue(StringPart(ps, if t.Hex? then Hex(h[..3]) else HighHex(t.h, h[..3])), h[3])
    decreases 3 - done
  {
    var p := StringPart(ps, t);
    assert h[..done] + [h[done]] == h[..done + 1];
    if done < 3 {
      assert h[done..][1..] == h[done + 1..];
      ContinueHex(ps, h, done + 1, if t.Hex? then Hex(h[..done + 1]) else HighHex(t.h, h[..done + 1]));
    } else {
      assert h[3..] == [h[3]] && [h[3]][1..] == [];
    }
  }

  lemma ContinueAllAppend(p: StringPart, a: seq<int>, b: seq<int>, q: StringPart)
    requires PartOk(p) && ContinueAll(p, a) == Some(q)
    ensures PartOk(q) && ContinueAll(p, a + b) == ContinueAll(q, b)
    decreases |a|
  {
    if a == [] {
      assert a + b == b;
    } else {
      assert (a + b)[1..] == a[1..] + b;
      ContinueText(p, a[0]);
      ContinueAllAppend(Continue(p, a[0]).value, a[1..], b, q);
    }
  }

  lemma ContinueTwo(p: StringPart, a: int, b: int)
    requires PartOk(p) && Continue(p, a).Some?
    ensures PartOk(Continue(p, a).value)
    ensures ContinueAll(p, [a, b]) == Continue(Continue(p, a).value, b)
  {
    ContinueText(p, a);
    var q := Continue(p, a).value;
    assert [a, b][1..] == [b] && [b][1..] == [];
    assert ContinueAll(p, [a, b]) == ContinueAll(q, [b]);
    if Continue(q, b).Some? {
      ContinueText(q, b);
      assert ContinueAll(Continue(q, b).value, []) == Continue(q, b);
    }
  }

  lemma ContinueUnicode(ps: seq<Piece>, h: seq<int>)
    requires PiecesOk(ps) && IsHex4(h)
    ensures ContinueAll(StringPart(ps, Between), [92, 117] + h) == Continue(StringPart(ps, Hex(h[..3])), h[3])
  {
    ContinueTwo(StringPart(ps, Between), 92, 117);
    ContinueAllAppend(StringPart(ps, Between), [92, 117], h, StringPart(ps, Hex([])));
    assert h[..0] == [] && h[0..] == h;
    ContinueHex(ps, h, 0, Hex([]));
  }

  lemma ContinuePiece(ps: seq<Piece>, x: Piece)
    requires PiecesOk(ps) && PieceOk(x)
    ensures ContinueAll(StringPart(ps, Between), PieceText(x)) == Some(StringPart(ps + [x], Between))
  {
    var p := StringPart(ps, Between);
    match x
    case Plain(c) =>
      ContinueText(p, c);
      assert [c][1..] == [];
      assert ContinueAll(Continue(p, c).value, []) == Continue(p, c);
    case Short(c) => ContinueTwo(p, 92, c);
    case Unicode(h) =>
      ContinueUnicode(ps, h);
      assert h[..3] + [h[3]] == h;
    case Pair(h, l) =>
      ContinueUnicode(ps, h);
      assert h[..3] + [h[3]] == h && l[..3] + [l[3]] == l && l[..0] == [] && l[0..] == l;
      var q := StringPart(ps, High(h));
      assert [92, 117] + h + [92, 117] + l == ([92, 117] + h) + ([92, 117] + l);
      ContinueAllAppend(p, [92, 117] + h, [92, 117] + l, q);
      ContinueTwo(q, 92, 117);
      ContinueAllAppend(q, [92, 117], l, StringPart(ps, HighHex(h, [])));
      ContinueHex(ps, l, 0, HighHex(h, []));
  }

  lemma {:induction false} ContinuePieces(ps: seq<Piece>)
    requires PiecesOk(ps)
    ensures ContinueAll(StringPart([], Between), PiecesText(ps)) == Some(StringPart(ps, Between))
  {
    hide Continue, PieceText, PieceOk;
    if ps != [] {
      var init, x := ps[..|ps| - 1], ps[|ps| - 1];
      ContinuePieces(init);
      ContinueAllAppend(StringPart([], Between), PiecesText(init), PieceText(x), StringPart(init, Between));
      ContinuePiece(init, x);
      assert init + [x] == ps;
    }
  }

  /** The characters of a string literal are all accepted and leave its meaning in the
      token buffer. */
  lemma FeedPieces(cfg: Config, m: Machine, ps: seq<Piece>)
    requires PiecesOk(ps)
    ensures Run(cfg, InString(m, [], Between), PiecesText(ps)) == Ok(InString(m, ps, Between))
  {
    ContinuePieces(ps);
    FeedPart(cfg, m, StringPart([], Between), PiecesText(ps), StringPart(ps, Between));
  }

  // ----- numbers -----

  function NumberState(n: Number): State {
    if n.exp.Some? then
      (if n.exp.value.digits != [] then E3 else if n.exp.value.sign != [] then E2 else E1)
    else if n.frac.Some? then (if n.frac.value == [] then FX else FR)
    else if n.whole == [] then MI
    else if IsZero(n.whole) then ZE
    else IT
  }

  function NumberType(n: Number): Type { if IsFloat(n) then T_FLOAT else T_INTEGER }

  /** The parser after the beginning n of a number. */
  function InNumber(m: Machine, n: Number): Machine {
    m.(state := NumberState(n), ty := NumberType(n), buf := NumberText(n))
  }

  /** How a character continues a number. */
  function Extend(n: Number, c: int): Option<Number> {
    if n.exp.Some? then
      var e := n.exp.value;
      if IsDigit(c) then Some(n.(exp := Some(e.(digits := e.digits + [c]))))
      else if e.sign == [] && e.digits == [] && (c == 43 || c == 45) then Some(n.(exp := Some(e.(sign := [c]))))
      else None
    else if IsDigit(c) then
      if n.frac.Some? then Some(n.(frac := Some(n.frac.value + [c])))
      else if IsZero(n.whole) then None
      else Some(n.(whole := n.whole + [c]))
    else if n.whole == [] then None
    else if c == 46 && n.frac.None? then Some(n.(frac := Some([])))
    else if (c == 101 || c == 69) && (!IsZero(n.whole) || n.frac.Some?) then Some(n.(exp := Some(Exponent(c, [], []))))
    else None
  }

  lemma ExtendBegun(n: Number, c: int)
    requires NumberBegun(n) && Extend(n, c).Some?
    ensures NumberBegun(Extend(n, c).value)
  {
  }

  lemma LastPart(sign: seq<int>, whole: seq<int>, fraction: seq<int>, exponent: seq<int>, c: int)
    ensures sign + whole + fraction + (exponent + [c]) == sign + whole + fraction + exponent + [c]
    ensures sign + whole + (fraction + [c]) + [] == sign + whole + fraction + [] + [c]
    ensures sign + (whole + [c]) + [] + [] == sign + whole + [] + [] + [c]
  {
  }

  lemma ExtendText(n: Number, c: int)
    requires NumberBegun(n) && Extend(n, c).Some?
    ensures NumberBegun(Extend(n, c).value)
    ensures NumberText(Extend(n, c).value) == NumberText(n) + [c]
  {
    ExtendBegun(n, c);
    hide NumberBegun;
    var k := Extend(n, c).value;
    LastPart(if n.neg then [45] else [], n.whole, FractionText(n.frac), ExponentText(n.exp), c);
    if n.exp.Some? || k.exp.Some? {
      assert ExponentText(k.exp) == ExponentText(n.exp) + [c];
    } else if n.frac.Some? || k.frac.Some? {
      assert FractionText(k.frac) == FractionText(n.frac) + [c];
    }
  }

  lemma NumberStep(cfg: Config, m: Machine, n: Number, c: int)
    requires NumberBegun(n) && (n.whole == [] ==> n.neg) && !IsDelimiter(c)
    requires !m.comment && !m.escaped
    ensures match Extend(n, c)
            case Some(k) => Step(cfg, InNumber(m, n), c) == Ok(InNumber(m, k))
            case None =>
              if NumberOk(n) && IsBlank(c) then
                Step(cfg, InNumber(m, n), c) == Ok(InNumber(m, n).(state := OK, buf := NumberText(n) + [c]))
              else Step(cfg, InNumber(m, n), c).Fail?
  {
    if c < 0 {
      StepNegative(cfg, InNumber(m, n), c);
    } else {
      StepNumber(cfg, InNumber(m, n), c);
      NumberClasses(c);
      if Extend(n, c).Some? {
        ExtendText(n, c);
      }
    }
  }

  /** A number without its last character. */
  function Shrink(n: Number): Number {
    if n.exp.Some? then
      var e := n.exp.value;
      if e.digits != [] then n.(exp := Some(e.(digits := e.digits[..|e.digits| - 1])))
      else if e.sign != [] then n.(exp := Some(e.(sign := [])))
      else n.(exp := None)
    else if n.frac.Some? then
      if n.frac.value != [] then n.(frac := Some(n.frac.value[..|n.frac.value| - 1])) else n.(frac := None)
    else if n.whole != [] then n.(whole := n.whole[..|n.whole| - 1])
    else n
  }

  function LastOf(n: Number): int
    requires NumberBegun(n) && n.whole != []
  {
    if n.exp.Some? then
      var e := n.exp.value;
      if e.digits != [] then e.digits[|e.digits| - 1] else if e.sign != [] then e.sign[0] else e.mark
    else if n.frac.Some? then
      if n.frac.value != [] then n.frac.value[|n.frac.value| - 1] else 46
    else n.whole[|n.whole| - 1]
  }

  lemma ShrinkExtend(n: Number)
    requires NumberBegun(n) && n.whole != []
    ensures NumberBegun(Shrink(n)) && Extend(Shrink(n), LastOf(n)) == Some(n)
  {
    hide *;
    if n.exp.Some? {
      ShrinkExponent(n);
    } else if n.frac.Some? {
      ShrinkFraction(n);
    } else {
      ShrinkWhole(n);
    }
  }

  lemma ShrinkExponent(n: Number)
    requires NumberBegun(n) && n.whole != [] && n.exp.Some?
    ensures NumberBegun(Shrink(n)) && Extend(Shrink(n), LastOf(n)) == Some(n)
  {
    var e := n.exp.value;
    if e.digits != [] {
      assert e.digits == e.digits[..|e.digits| - 1] + [LastOf(n)];
    }
  }

  lemma ShrinkFraction(n: Number)
    requires NumberBegun(n) && n.whole != [] && n.exp.None? && n.frac.Some?
    ensures NumberBegun(Shrink(n)) && Extend(Shrink(n), LastOf(n)) == Some(n)
  {
    if n.frac.value != [] {
      assert n.frac.value == n.frac.value[..|n.frac.value| - 1] + [LastOf(n)];
    }
  }

  lemma ShrinkWhole(n: Number)
    requires NumberBegun(n) && n.whole != [] && n.exp.None? && n.frac.None?
    ensures NumberBegun(Shrink(n)) && Extend(Shrink(n), LastOf(n)) == Some(n)
  {
    assert n.whole == n.whole[..|n.whole| - 1] + [LastOf(n)];
  }
}
