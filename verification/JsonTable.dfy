/** Character classes, automaton states and the transition table of the streaming
    JSON parser. Characters are the integers handed to the parser one at a time. */
module JsonTable {

  /** The class codes, in the program's order; the last is the error code of the class table. */
  type Class = k: int | 0 <= k <= 32
  const C_SPACE: Class := 0
  const C_WHITE: Class := 1
  const C_LCURB: Class := 2
  const C_RCURB: Class := 3
  const C_LSQRB: Class := 4
  const C_RSQRB: Class := 5
  const C_COLON: Class := 6
  const C_COMMA: Class := 7
  const C_QUOTE: Class := 8
  const C_BACKS: Class := 9
  const C_SLASH: Class := 10
  const C_PLUS: Class := 11
  const C_MINUS: Class := 12
  const C_POINT: Class := 13
  const C_ZERO: Class := 14
  const C_DIGIT: Class := 15
  const C_LOW_A: Class := 16
  const C_LOW_B: Class := 17
  const C_LOW_C: Class := 18
  const C_LOW_D: Class := 19
  const C_LOW_E: Class := 20
  const C_LOW_F: Class := 21
  const C_LOW_L: Class := 22
  const C_LOW_N: Class := 23
  const C_LOW_R: Class := 24
  const C_LOW_S: Class := 25
  const C_LOW_T: Class := 26
  const C_LOW_U: Class := 27
  const C_ABCDF: Class := 28
  const C_E: Class := 29
  const C_ETC: Class := 30
  const C_STAR: Class := 31
  const C_NONE: Class := 32

  /** The state codes, in the program's order. */
  type State = s: int | 0 <= s <= 35
  const GO: State := 0
  const OK: State := 1
  const OB: State := 2
  const KE: State := 3
  const CO: State := 4
  const VA: State := 5
  const AR: State := 6
  const ST: State := 7
  const ES: State := 8
  const U1: State := 9
  const U2: State := 10
  const U3: State := 11
  const U4: State := 12
  const MI: State := 13
  const ZE: State := 14
  const IT: State := 15
  const FR: State := 16
  const E1: State := 17
  const E2: State := 18
  const E3: State := 19
  const T1: State := 20
  const T2: State := 21
  const T3: State := 22
  const F1: State := 23
  const F2: State := 24
  const F3: State := 25
  const F4: State := 26
  const N1: State := 27
  const N2: State := 28
  const N3: State := 29
  const C1: State := 30
  const C2: State := 31
  const C3: State := 32
  const FX: State := 33
  const D1: State := 34
  const D2: State := 35

  /** The negative table entries. The last eight are the entries -9 to -2. */
  datatype Action =
    | CB | CE | FA | TR | NU | DE | DF | SB | MX | ZX | IX | EX | UC
    | EmptyObject | EndObject | EndArray | BeginObject | BeginArray | EndString | Comma | Colon

  datatype Move = Goto(s: State) | Do(a: Action) | Bad

  function ClassOf(c: nat): Class {
    if c >= 128 then C_ETC
    else if c < 32 then (if c == 9 || c == 10 || c == 13 then C_WHITE else C_NONE)
    else if c == 32 then C_SPACE
    else if c == 34 then C_QUOTE
    else if c == 42 then C_STAR
    else if c == 43 then C_PLUS
    else if c == 44 then C_COMMA
    else if c == 45 then C_MINUS
    else if c == 46 then C_POINT
    else if c == 47 then C_SLASH
    else if c == 48 then C_ZERO
    else if 49 <= c <= 57 then C_DIGIT
    else if c == 58 then C_COLON
    else if c == 69 then C_E
    else if 65 <= c <= 70 then C_ABCDF
    else if c == 91 then C_LSQRB
    else if c == 92 then C_BACKS
    else if c == 93 then C_RSQRB
    else if c == 97 then C_LOW_A
    else if c == 98 then C_LOW_B
    else if c == 99 then C_LOW_C
    else if c == 100 then C_LOW_D
    else if c == 101 then C_LOW_E
    else if c == 102 then C_LOW_F
    else if c == 108 then C_LOW_L
    else if c == 110 then C_LOW_N
    else if c == 114 then C_LOW_R
    else if c == 115 then C_LOW_S
    else if c == 116 then C_LOW_T
    else if c == 117 then C_LOW_U
    else if c == 123 then C_LCURB
    else if c == 125 then C_RCURB
    else C_ETC
  }

  predicate IsBlankClass(k: Class) { k == C_SPACE || k == C_WHITE }

  predicate IsHexClass(k: Class) {
    k == C_ZERO || k == C_DIGIT || k == C_LOW_A || k == C_LOW_B || k == C_LOW_C || k == C_LOW_D
    || k == C_LOW_E || k == C_LOW_F || k == C_ABCDF || k == C_E
  }

  predicate IsDigitClass(k: Class) { k == C_ZERO || k == C_DIGIT }

  // ----- the rows of the table, by the kind of state -----

  predicate IsStringState(s: State) { ST <= s <= U4 || s == D1 || s == D2 }
  predicate IsNumberState(s: State) { MI <= s <= E3 || s == FX }
  predicate IsWordState(s: State) { T1 <= s <= N3 }
  predicate IsCommentState(s: State) { C1 <= s <= C3 }

  /** The states in which no value is being read, comments aside. */
  predicate IsBareState(s: State) { GO <= s <= AR }

  /** The entries shared by the rows in which a value may end; the rows E3 and FX have no
      comment entry. */
  function AfterValueRow(k: Class, comment: bool): Move {
    if IsBlankClass(k) then Goto(OK)
    else if k == C_RCURB then Do(EndObject)
    else if k == C_RSQRB then Do(EndArray)
    else if k == C_COMMA then Do(Comma)
    else if comment && k == C_SLASH then Do(CB)
    else Bad
  }

  /** The entries of the rows VA and AR that start a value or a comment. */
  function ValueRow(k: Class): Move {
    if k == C_LCURB then Do(BeginObject)
    else if k == C_LSQRB then Do(BeginArray)
    else if k == C_QUOTE then Do(SB)
    else if k == C_SLASH then Do(CB)
    else if k == C_MINUS then Do(MX)
    else if k == C_ZERO then Do(ZX)
    else if k == C_DIGIT then Do(IX)
    else if k == C_LOW_F then Do(FA)
    else if k == C_LOW_N then Do(NU)
    else if k == C_LOW_T then Do(TR)
    else Bad
  }

  function BareRow(s: State, k: Class): Move {
    if s == OK then AfterValueRow(k, true)
    else if IsBlankClass(k) then Goto(s)
    else if s == VA then ValueRow(k)
    else if s == AR then (if k == C_RSQRB then Do(EndArray) else ValueRow(k))
    else if k == C_SLASH then Do(CB)
    else if s == GO then
      (if k == C_LCURB then Do(BeginObject) else if k == C_LSQRB then Do(BeginArray) else Bad)
    else if s == OB then
      (if k == C_RCURB then Do(EmptyObject) else if k == C_QUOTE then Do(SB) else Bad)
    else if s == KE then (if k == C_QUOTE then Do(SB) else Bad)
    else (if k == C_COLON then Do(Colon) else Bad)  // CO
  }

  function StringRow(s: State, k: Class): Move {
    if s == ST then
      (if k == C_WHITE || k == C_NONE then Bad
       else if k == C_QUOTE then Do(EndString)
       else if k == C_BACKS then Do(EX)
       else Goto(ST))
    else if s == ES then
      (if k == C_QUOTE || k == C_BACKS || k == C_SLASH || k == C_LOW_B || k == C_LOW_F
          || k == C_LOW_N || k == C_LOW_R || k == C_LOW_T then Goto(ST)
       else if k == C_LOW_U then Goto(U1)
       else Bad)
    else if s == D1 then (if k == C_BACKS then Goto(D2) else Bad)
    else if s == D2 then (if k == C_LOW_U then Goto(U1) else Bad)
    else if !IsHexClass(k) then Bad
    else if s == U1 then Goto(U2)
    else if s == U2 then Goto(U3)
    else if s == U3 then Goto(U4)
    else Do(UC)  // U4
  }

  function NumberRow(s: State, k: Class): Move {
    if s == MI then (if k == C_ZERO then Goto(ZE) else if k == C_DIGIT then Goto(IT) else Bad)
    else if s == ZE then (if k == C_POINT then Do(DF) else AfterValueRow(k, true))
    else if s == IT then
      (if k == C_POINT then Do(DF) else if IsDigitClass(k) then Goto(IT)
       else if k == C_LOW_E || k == C_E then Do(DE) else AfterValueRow(k, true))
    else if s == FX || s == FR then
      (if IsDigitClass(k) then Goto(FR) else if k == C_LOW_E || k == C_E then Goto(E1)
       else AfterValueRow(k, s == FR))
    else if IsDigitClass(k) then Goto(E3)
    else if s == E1 then (if k == C_PLUS || k == C_MINUS then Goto(E2) else Bad)
    else if s == E2 then Bad
    else AfterValueRow(k, false)  // E3
  }

  /** The letter a word state waits for, and the state it leads to. */
  function WordStep(s: State): (Class, State) {
    if s == T1 then (C_LOW_R, T2) else if s == T2 then (C_LOW_U, T3) else if s == T3 then (C_LOW_E, OK)
    else if s == F1 then (C_LOW_A, F2) else if s == F2 then (C_LOW_L, F3)
    else if s == F3 then (C_LOW_S, F4) else if s == F4 then (C_LOW_E, OK)
    else if s == N1 then (C_LOW_U, N2) else if s == N2 then (C_LOW_L, N3) else (C_LOW_L, OK)  // N3
  }

  function WordRow(s: State, k: Class): Move {
    if k == WordStep(s).0 then Goto(WordStep(s).1)
    else if (s == T3 || s == F4 || s == N3) && k == C_SLASH then Do(CB)
    else Bad
  }

  function CommentRow(s: State, k: Class): Move {
    if s == C1 then (if k == C_STAR then Goto(C2) else Bad)
    else if k == C_NONE then Bad
    else if k == C_STAR then Goto(C3)
    else if s == C3 && k == C_SLASH then Do(CE)
    else Goto(C2)
  }

  /** The state transition table. */
  function Next(s: State, k: Class): Move {
    if IsBareState(s) then BareRow(s, k)
    else if IsStringState(s) then StringRow(s, k)
    else if IsNumberState(s) then NumberRow(s, k)
    else if IsWordState(s) then WordRow(s, k)
    else CommentRow(s, k)
  }
}
