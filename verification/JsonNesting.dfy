/** The events reported so far are always well nested, keys and values alternate inside
    every object, and the open levels are the ones on the mode stack. */
module JsonNesting {
  import opened JsonTable
  import opened JsonMachine
  import opened JsonInvariant
  import opened Optional

  /** An open container, and for an object what may be reported next in it. */
  datatype Level = InArray | WantKey | WantValue

  /** The levels left open when a value is reported inside l. */
  function AfterValue(l: seq<Level>): Option<seq<Level>> {
    if l == [] then None
    else match l[|l| - 1]
      case InArray => Some(l)
      case WantKey => None
      case WantValue => Some(l[..|l| - 1] + [WantKey])
  }

  function Open(l: seq<Level>, level: Level): Option<seq<Level>> {
    if l == [] then Some([level])
    else match AfterValue(l)
      case None => None
      case Some(l1) => Some(l1 + [level])
  }

  function Close(l: seq<Level>, level: Level): Option<seq<Level>> {
    if l != [] && l[|l| - 1] == level then Some(l[..|l| - 1]) else None
  }

  function Report(l: seq<Level>, e: Event): Option<seq<Level>> {
    match e
    case ArrayBegin => Open(l, InArray)
    case ObjectBegin => Open(l, WantKey)
    case ArrayEnd => Close(l, InArray)
    case ObjectEnd => Close(l, WantKey)
    case Key(_) =>
      (match Close(l, WantKey) case None => None case Some(l1) => Some(l1 + [WantValue]))
    case _ => AfterValue(l)
  }

  /** The levels open after a list of events; None when the list is not well nested. */
  function Levels(ev: seq<Event>): Option<seq<Level>> {
    if ev == [] then Some([])
    else match Levels(ev[..|ev| - 1])
      case None => None
      case Some(l) => Report(l, ev[|ev| - 1])
  }

  lemma LevelsSnoc(ev: seq<Event>, e: Event)
    ensures Levels(ev + [e]) == (match Levels(ev) case None => None case Some(l) => Report(l, e))
  {
    assert (ev + [e])[..|ev|] == ev;
  }

  function LevelOf(mode: Mode): Level { if mode.MODE_ARRAY? then InArray else WantKey }

  /** The state the parser is in once a comment, if any, is over. */
  function Effective(m: Machine): State { if m.comment then m.before else m.state }

  /** What the innermost container waits for. */
  function Innermost(m: Machine): Level {
    match Top(m)
    case MODE_ARRAY => InArray
    case MODE_KEY => if Effective(m) == CO then WantValue else WantKey
    case _ => if Effective(m) == OK && m.ty.T_NONE? then WantKey else WantValue
  }

  /** The levels of a mode stack whose innermost container waits for `inner`; the outer
      containers have each just been given the value that is open inside them. */
  function LevelsOf(s: seq<Mode>, inner: Level): seq<Level> {
    if |s| <= 1 then [] else LevelsOf(s[..|s| - 1], LevelOf(s[|s| - 2])) + [inner]
  }

  /** The open levels according to the mode stack. */
  function StackLevels(m: Machine): seq<Level> { LevelsOf(m.stack, Innermost(m)) }

  predicate Nested(m: Machine) { Levels(m.events) == Some(StackLevels(m)) }

  lemma StartNested()
    ensures Nested(Start())
  {
  }

  lemma InnermostLast(s: seq<Mode>, inner: Level)
    requires |s| >= 2
    ensures var l := LevelsOf(s, inner);
            && l != [] && l[|l| - 1] == inner
            && l[..|l| - 1] == LevelsOf(s[..|s| - 1], LevelOf(s[|s| - 2]))
  {
  }

  /** Flushing reports the pending value, if there is one, in the innermost container. */
  lemma FlushLevels(ev: seq<Event>, ty: Type, buf: seq<int>, s: seq<Mode>, inner: Level)
    requires Levels(ev) == Some(LevelsOf(s, inner))
    requires ty.T_NONE? || (|s| >= 2 && (inner == InArray || inner == WantValue))
    ensures Levels(ev + PendingEvents(ty, buf)) == Some(
              LevelsOf(s, if ty.T_NONE? || inner == InArray then inner else WantKey))
  {
    var e := PendingEvents(ty, buf);
    if ty.T_NONE? {
      assert ev + e == ev;
    } else {
      LevelsSnoc(ev, e[0]);
    }
  }

  /** Opening a container counts as the value the innermost level waits for. */
  lemma OpenLevels(s: seq<Mode>, inner: Level, level: Level)
    requires |s| >= 2
    requires if s[|s| - 1].MODE_ARRAY? then inner == InArray else inner == WantValue
    ensures Open(LevelsOf(s, inner), level) == Some(LevelsOf(s, LevelOf(s[|s| - 1])) + [level])
  {
    InnermostLast(s, inner);
  }

  lemma BeginLevels(ev: seq<Event>, s: seq<Mode>, inner: Level, mode: Mode)
    requires s != [] && Levels(ev) == Some(LevelsOf(s, inner))
    requires mode.MODE_ARRAY? || mode.MODE_KEY?
    requires |s| >= 2 ==> if s[|s| - 1].MODE_ARRAY? then inner == InArray else inner == WantValue
    ensures Levels(ev + [if mode.MODE_ARRAY? then ArrayBegin else ObjectBegin])
         == Some(LevelsOf(s + [mode], LevelOf(mode)))
  {
    var t := s + [mode];
    LevelsSnoc(ev, if mode.MODE_ARRAY? then ArrayBegin else ObjectBegin);
    assert t[..|t| - 1] == s;
    assert LevelsOf(t, LevelOf(mode)) == LevelsOf(s, LevelOf(s[|s| - 1])) + [LevelOf(mode)];
    if |s| >= 2 {
      OpenLevels(s, inner, LevelOf(mode));
    } else {
      assert [] + [LevelOf(mode)] == [LevelOf(mode)];
    }
  }

  lemma EndLevels(ev: seq<Event>, s: seq<Mode>, inner: Level)
    requires |s| >= 2 && Levels(ev) == Some(LevelsOf(s, inner)) && inner != WantValue
    ensures Levels(ev + [if inner == InArray then ArrayEnd else ObjectEnd])
         == Some(LevelsOf(s[..|s| - 1], LevelOf(s[|s| - 2])))
  {
    hide Levels;
    LevelsSnoc(ev, if inner == InArray then ArrayEnd else ObjectEnd);
  }

  lemma FlipLevels(s: seq<Mode>, mode: Mode, inner: Level)
    requires |s| >= 2
    ensures LevelsOf(s[..|s| - 1] + [mode], inner) == LevelsOf(s, inner)
  {
    assert (s[..|s| - 1] + [mode])[..|s| - 1] == s[..|s| - 1];
  }

  /** A step that reports nothing and leaves the stack alone. */
  lemma QuietStep(m: Machine, m1: Machine)
    requires Nested(m)
    requires m1.events == m.events && m1.stack == m.stack
    requires (Effective(m) == CO) == (Effective(m1) == CO)
    requires (Effective(m) == OK && m.ty.T_NONE?) == (Effective(m1) == OK && m1.ty.T_NONE?)
    ensures Nested(m1)
  {
  }

  lemma GotoNested(cfg: Config, m: Machine, k: Class, s: State)
    requires Nested(m) && TypeFits(m.state, m.ty) && m.comment == IsCommentState(m.state)
    requires Next(m.state, k) == Goto(s)
    ensures Nested(m.(state := s))
  {
    if IsBareState(m.state) {
      GotoBare(m.state, k, s);
    } else if IsStringState(m.state) {
      GotoString(m.state, k, s);
    } else if !IsCommentState(m.state) {
      ValueGotoType(m.state, k, s, m.ty);
    }
    QuietStep(m, m.(state := s));
  }

  predicate IsPlain(a: Action) {
    a.EX? || a.MX? || a.ZX? || a.IX? || a.DE? || a.DF? || a.SB? || a.NU? || a.FA? || a.TR? || a.CE? || a.UC?
  }

  lemma PlainNested(cfg: Config, m: Machine, k: Class, a: Action)
    requires Nested(m) && TypeFits(m.state, m.ty) && m.comment == IsCommentState(m.state)
    requires ActionAllowed(m.state, k, a) && IsPlain(a) && Act(cfg, m, a).Ok?
    ensures Nested(Act(cfg, m, a).m)
  {
    QuietStep(m, Act(cfg, m, a).m);
  }

  lemma CommentNested(cfg: Config, m: Machine)
    requires Nested(m) && !m.comment && cfg.comments && !IsStringState(m.state) && !IsCommentState(m.state)
    requires TypeFits(m.state, m.ty) && ModeFits(m.state, m.ty, Top(m)) && m.stack != []
    requires |m.stack| == 1 ==> Top(m).MODE_DONE?
    ensures Nested(BeginComment(cfg, m).m)
  {
    hide Levels, LevelsOf;
    FlushLevels(m.events, m.ty, PopChar(m).buf, m.stack, Innermost(m));
  }

  lemma BeginNested(cfg: Config, m: Machine, mode: Mode, s: State)
    requires Nested(m) && !m.comment && m.ty.T_NONE? && (m.state == GO || m.state == VA || m.state == AR)
    requires ModeFits(m.state, m.ty, Top(m)) && m.stack != []
    requires |m.stack| == 1 <==> Top(m).MODE_DONE?
    requires (mode.MODE_KEY? && s == OB) || (mode.MODE_ARRAY? && s == AR)
    requires |m.stack| - 1 != cfg.depth
    ensures Nested(BeginContainer(cfg, m, mode, if mode.MODE_ARRAY? then ArrayBegin else ObjectBegin, s).m)
  {
    hide Levels, LevelsOf;
    BeginLevels(m.events, m.stack, Innermost(m), mode);
    var m1 := BeginContainer(cfg, m, mode, if mode.MODE_ARRAY? then ArrayBegin else ObjectBegin, s).m;
    assert Innermost(m1) == LevelOf(mode);
  }

  /** After a container is closed, the one around it has just been given a value. */
  lemma ClosedNested(m: Machine, s: seq<Mode>)
    requires |s| >= 2 && m.stack == s[..|s| - 1] && !m.comment && m.state == OK && m.ty.T_NONE?
    requires s[|s| - 2] != MODE_KEY
    requires Levels(m.events) == Some(LevelsOf(m.stack, LevelOf(s[|s| - 2])))
    ensures Nested(m)
  {
  }

  lemma EndNested(m: Machine, mode: Mode)
    requires Nested(m) && !m.comment && |m.stack| >= 2 && m.stack[|m.stack| - 2] != MODE_KEY
    requires (mode.MODE_ARRAY? || mode.MODE_OBJECT?) && Top(m) == mode
    requires m.ty.T_NONE? && mode.MODE_OBJECT? ==> m.state == OK
    ensures Nested(EndContainer(m, mode, if mode.MODE_ARRAY? then ArrayEnd else ObjectEnd).m)
  {
    hide Levels, LevelsOf;
    var buf := PopChar(m).buf;
    var e := if mode.MODE_ARRAY? then ArrayEnd else ObjectEnd;
    FlushLevels(m.events, m.ty, buf, m.stack, Innermost(m));
    EndLevels(m.events + PendingEvents(m.ty, buf), m.stack, LevelOf(mode));
    ClosedNested(EndContainer(m, mode, e).m, m.stack);
  }

  lemma EmptyNested(cfg: Config, m: Machine)
    requires Nested(m) && !m.comment && |m.stack| >= 2 && m.stack[|m.stack| - 2] != MODE_KEY
    requires m.state == OB && m.ty.T_NONE? && Top(m).MODE_KEY?
    ensures Act(cfg, m, EmptyObject).Ok? ==> Nested(Act(cfg, m, EmptyObject).m)
  {
    hide Levels, LevelsOf;
    EndLevels(m.events, m.stack, WantKey);
    ClosedNested(Act(cfg, m, EmptyObject).m, m.stack);
  }

  lemma KeyLevels(ev: seq<Event>, bytes: seq<int>, s: seq<Mode>)
    requires |s| >= 2 && Levels(ev) == Some(LevelsOf(s, WantKey))
    ensures Levels(ev + [Key(bytes)]) == Some(LevelsOf(s, WantValue))
  {
    hide Levels;
    LevelsSnoc(ev, Key(bytes));
  }

  lemma StringEndNested(m: Machine)
    requires Nested(m) && !m.comment && m.state == ST && m.ty.T_STRING? && |m.stack| >= 2
    ensures EndOfString(m).Ok? ==> Nested(EndOfString(m).m)
  {
    hide Levels, LevelsOf, PendingEvents;
    if Top(m).MODE_KEY? {
      KeyLevels(m.events, PopChar(m).buf, m.stack);
    } else {
      FlushLevels(m.events, T_STRING, PopChar(m).buf, m.stack, Innermost(m));
    }
  }

  lemma CommaNested(cfg: Config, m: Machine)
    requires Nested(m) && !m.comment && |m.stack| >= 2 && !m.ty.T_STRING? && StackFits(cfg, m.stack)
    requires m.ty.T_NONE? ==> m.state == OK
    ensures AfterComma(cfg, m).Ok? ==> Nested(AfterComma(cfg, m).m)
  {
    hide Levels, LevelsOf;
    var m1 := Flush(PopChar(m));
    if Top(m).MODE_OBJECT? {
      FlushLevels(m.events, m.ty, PopChar(m).buf, m.stack, Innermost(m));
      FlipFits(cfg, m1, MODE_OBJECT, MODE_KEY);
      FlipLevels(m.stack, MODE_KEY, WantKey);
    } else if Top(m).MODE_ARRAY? {
      FlushLevels(m.events, m.ty, PopChar(m).buf, m.stack, Innermost(m));
    }
  }

  lemma ColonNested(cfg: Config, m: Machine)
    requires Nested(m) && !m.comment && |m.stack| >= 2 && m.state == CO && Top(m).MODE_KEY?
    ensures Act(cfg, m, Colon).Ok? ==> Nested(Act(cfg, m, Colon).m)
  {
    FlipLevels(m.stack, MODE_OBJECT, WantValue);
  }

  lemma ActionNested(cfg: Config, m: Machine, k: Class, a: Action)
    requires Nested(m) && StackFits(cfg, m.stack)
    requires TypeFits(m.state, m.ty) && ModeFits(m.state, m.ty, Top(m)) && m.comment == IsCommentState(m.state)
    requires ActionAllowed(m.state, k, a) && Act(cfg, m, a).Ok?
    ensures Nested(Act(cfg, m, a).m)
  {
    if |m.stack| >= 2 {
      PopFits(cfg, m.stack);
    }
    match a
    case CB => CommentNested(cfg, m);
    case EndString => StringEndNested(m);
    case Comma => CommaNested(cfg, m);
    case Colon => ColonNested(cfg, m);
    case BeginObject => BeginNested(cfg, m, MODE_KEY, OB);
    case BeginArray => BeginNested(cfg, m, MODE_ARRAY, AR);
    case EndObject => EndNested(m, MODE_OBJECT);
    case EndArray => EndNested(m, MODE_ARRAY);
    case EmptyObject => EmptyNested(cfg, m);
    case _ => PlainNested(cfg, m, k, a);
  }

  lemma StepKeepsNesting(cfg: Config, m: Machine, c: int)
    requires Linked(cfg, m) && Nested(m) && Step(cfg, m, c).Ok?
    ensures Nested(Step(cfg, m, c).m)
  {
    var k := ClassOf(c);
    AddedIs(m, c, k);
    var m1 := AddChar(m, c, k).m;
    QuietStep(m, m1);
    match Next(m.state, k)
    case Goto(s) => GotoNested(cfg, m1, k, s);
    case Do(a) =>
      ActionIsAllowed(m.state, k, a);
      ActionNested(cfg, m1, k, a);
  }

  /** Every state reachable by accepted characters, with comments on or off, is linked, and
      the events reported on the way are well nested with the stack's levels open. */
  lemma {:induction false} RunKeeps(cfg: Config, m: Machine, text: seq<int>)
    requires Linked(cfg, m) && Nested(m) && Run(cfg, m, text).Ok?
    ensures Linked(cfg, Run(cfg, m, text).m) && Nested(Run(cfg, m, text).m)
    decreases |text|
  {
    if text != [] {
      StepKeepsLink(cfg, m, text[0]);
      StepKeepsNesting(cfg, m, text[0]);
      RunKeeps(cfg, Step(cfg, m, text[0]).m, text[1..]);
    }
  }

  lemma EveryPrefixIsLinkedAndNested(cfg: Config, text: seq<int>)
    requires cfg.depth >= 1 && Run(cfg, Start(), text).Ok?
    ensures Linked(cfg, Run(cfg, Start(), text).m) && Nested(Run(cfg, Start(), text).m)
  {
    StartLinked(cfg);
    StartNested();
    RunKeeps(cfg, Start(), text);
  }
}
