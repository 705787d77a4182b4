/** Which error a refused character leaves: it is decided by the place of the partial parse where
    the character comes, with comments off. */
module JsonErrors {
  import opened JsonTable
  import opened JsonMachine
  import opened JsonSteps
  import opened JsonText
  import opened JsonLexemes
  import opened JsonCompleteness
  import opened JsonSoundness
  import opened Optional

  /** Where a value may start: a bracket that opens a container is only refused for its depth. At
      the beginning of an array whatever else is refused is called unbalanced, and a slash leaves
      no error. */
  function ValueComplaint(x: Context, c: int): Error {
    if c == 47 then E_NONE
    else if c == 91 || c == 123 then E_NESTING_DEPTH
    else if x.Root? then if c == 93 || c == 125 then E_UNBALANCED else E_INVALID_CHAR
    else if x.InArr? && x.items.None? then E_UNBALANCED
    else E_INVALID_CHAR
  }

  /** Inside a string. */
  function StringComplaint(t: Tail, c: int): Error {
    match t
    case Between => E_INVALID_CHAR
    case Escape => if c < 32 && !IsBlank(c) then E_INVALID_CHAR else E_INVALID_ESCAPE
    case _ => E_INVALID_UNICODE
  }

  /** Inside a number: a bracket behind a whole number does not match, and a misfit right behind
      the point is not called a wrong number. */
  function NumberComplaint(n: Number, c: int): Error {
    if NumberOk(n) && (c == 93 || c == 125) then E_UNBALANCED
    else if n.frac == Some([]) && n.exp.None? then E_INVALID_CHAR
    else if c == 47 && NumberOk(n) && n.exp.None? then E_NONE
    else E_INVALID_NUMBER
  }

  function Complaint(x: Context, u: Cursor, c: int): Error {
    if c < 0 then E_INVALID_CHAR
    else
      match u
      case AtVal => ValueComplaint(x, c)
      case InStr(p) => StringComplaint(p.t, c)
      case InKey(_, _, p) => StringComplaint(p.t, c)
      case InNum(n) => NumberComplaint(n, c)
      case InWrd(w, k) => if c == 47 && k + 1 == |ValueText(w)| then E_NONE else E_INVALID_KEYWORD
      case AfterVal(_, _) =>
        if c == 44 || c == 47 then E_NONE else if c == 93 || c == 125 then E_UNBALANCED else E_INVALID_CHAR
      case AtKey(_, _) => if c == 47 then E_NONE else E_EXPECTED_KEY
      case AfterKey(_, _, _, _) => if c == 47 then E_NONE else E_EXPECTED_COLON
  }

  /** The step is refused with an error. */
  predicate Refused(cfg: Config, m: Machine, c: int, e: Error) {
    Step(cfg, m, c).Ok? || Step(cfg, m, c).m.error == e
  }

  // ----- characters that the table refuses -----

  lemma Negative(cfg: Config, m: Machine, c: int)
    requires c < 0
    ensures Refused(cfg, m, c, E_INVALID_CHAR)
  {
  }

  lemma Misfit(cfg: Config, m: Machine, c: nat)
    requires ClassOf(c) == C_NONE || (!m.escaped && Next(m.state, ClassOf(c)).Bad?)
    ensures Refused(cfg, m, c, ErrorFor(m.state, c))
  {
    hide Next, ClassOf, Act, ErrorFor, IsBlankClass;
  }

  /** A slash that could begin a comment. */
  lemma Slash(cfg: Config, m: Machine)
    requires !cfg.comments && CommentMayStart(m) && m.error == E_NONE
    ensures Refused(cfg, m, 47, E_NONE)
  {
    hide *;
    SlashOpens(m);
    StepDo(cfg, m, 47, CB);
    NoComment(cfg, m.(buf := m.buf + [47 % 256]));
    IsRefused(cfg, m, 47, E_NONE);
  }

  lemma NoComment(cfg: Config, m: Machine)
    requires !cfg.comments
    ensures Act(cfg, m, CB) == Fail(m)
  {
  }

  lemma IsRefused(cfg: Config, m: Machine, c: int, e: Error)
    ensures Refused(cfg, m, c, e) <==> Step(cfg, m, c).Ok? || Step(cfg, m, c).m.error == e
  {
    hide Step;
  }

  // ----- at each place -----

  lemma AtValue(cfg: Config, x: Context, c: nat)
    requires !cfg.comments && ContextOk(cfg.depth, x)
    ensures Refused(cfg, Base(x), c, ValueComplaint(x, c))
  {
    var m := Base(x);
    if c == 47 {
      Slash(cfg, m);
    } else if c == 91 || c == 123 {
      StackOfContext(x);
      TooDeep(cfg, m, c);
    } else if Next(m.state, ClassOf(c)).Bad? {
      Misfit(cfg, m, c);
    } else {
      ValueBegins(cfg, x, c);
    }
  }

  lemma TooDeep(cfg: Config, m: Machine, c: nat)
    requires Idle(m) && (m.state == VA || m.state == AR || m.state == GO) && (c == 91 || c == 123)
    ensures Refused(cfg, m, c, E_NESTING_DEPTH)
  {
    hide Front, PendingEvents;
  }

  lemma ValueBegins(cfg: Config, x: Context, c: nat)
    requires !cfg.comments && ContextOk(cfg.depth, x) && c != 47 && c != 91 && c != 123
    requires !Next(Base(x).state, ClassOf(c)).Bad?
    ensures Step(cfg, Base(x), c).Ok?
  {
    hide Step;
    var m := Base(x);
    if IsBlank(c) {
      StepBlank(cfg, m, c);
    } else if c == 93 {
      StackOfContext(x);
      StepEnd(cfg, m, true);
    } else if c == 34 {
      StepQuote(cfg, m);
    } else if c == 45 || IsDigit(c) {
      StepBeginNumber(cfg, m, c);
    } else {
      StepBeginWord(cfg, m, c);
    }
  }

  lemma InsideString(cfg: Config, m: Machine, p: StringPart, c: nat)
    requires PartOk(p) && (p.t.Between? ==> c != 34) && m.error == E_NONE
    ensures Refused(cfg, InString(m, p.ps, p.t), c, StringComplaint(p.t, c))
  {
    var y := InString(m, p.ps, p.t);
    if ClassOf(c) == C_NONE || (!y.escaped && Next(y.state, ClassOf(c)).Bad?) {
      Misfit(cfg, y, c);
    } else if p.t.Escape? {
      BadEscape(cfg, y, c);
    } else {
      NotAUnit(cfg, y, c);
    }
  }

  lemma BadEscape(cfg: Config, y: Machine, c: nat)
    requires StringMode(y, ES) && ClassOf(c) != C_NONE
    ensures Refused(cfg, y, c, E_INVALID_ESCAPE)
  {
    hide PendingEvents;
  }

  /** The only action inside a string that can fail is the decoding of four digits. */
  lemma NotAUnit(cfg: Config, y: Machine, c: nat)
    requires IsStringState(y.state) && y.state != ES && StringMode(y, y.state) && c != 34
    requires !Next(y.state, ClassOf(c)).Bad?
    ensures Refused(cfg, y, c, E_INVALID_UNICODE)
  {
    hide DecodeUnicode, PendingEvents;
  }

  lemma InsideNumber(cfg: Config, x: Context, n: Number, c: nat)
    requires !cfg.comments && ParseOk(cfg.depth, x, InNum(n))
    ensures Refused(cfg, InNumber(Base(x), n), c, NumberComplaint(n, c))
  {
    hide ContextOk, NumberText, ContextEvents, ContextStack;
    var m := InNumber(Base(x), n);
    if Next(m.state, ClassOf(c)).Bad? {
      Misfit(cfg, m, c);
    } else if c == 47 {
      Slash(cfg, m);
    } else if IsDelimiter(c) {
      assert NumberOk(n);
      Delimiter(cfg, x, m, c);
    } else {
      NumberClasses(c);
      StepNumber(cfg, m, c);
    }
  }

  /** A delimiter after a value that is inside a container. */
  lemma Delimiter(cfg: Config, x: Context, m: Machine, c: nat)
    requires ContextOk(cfg.depth, x) && AtEnd(m) && m.stack == ContextStack(x) && m.error == E_NONE
    requires c == 44 || c == 93 || c == 125
    ensures Refused(cfg, m, c, if c == 44 then E_NONE else E_UNBALANCED)
    ensures c == 44 && !x.Root? ==> Step(cfg, m, c).Ok?
  {
    StackOfContext(x);
    LevelFits(cfg.depth, x);
    hide ContextOk, ContextStack;
    if c == 44 {
      AtComma(cfg, m);
      StepComma(cfg, m);
    } else {
      AtBracket(cfg, m, c);
    }
  }

  lemma AtComma(cfg: Config, m: Machine)
    requires AtEnd(m) && |m.stack| >= 1 && |m.stack| - 2 != cfg.depth && m.error == E_NONE
    ensures Refused(cfg, m, 44, E_NONE)
  {
    hide PendingEvents, Front;
  }

  lemma AtBracket(cfg: Config, m: Machine, c: nat)
    requires AtEnd(m) && (c == 93 || c == 125)
    ensures Refused(cfg, m, c, E_UNBALANCED)
  {
    hide PendingEvents, Front;
  }

  lemma InsideWord(cfg: Config, x: Context, w: Value, k: nat, c: nat)
    requires !cfg.comments && ParseOk(cfg.depth, x, InWrd(w, k))
    ensures Refused(cfg, InWord(Base(x), w, k), c, Complaint(x, InWrd(w, k), c))
  {
    hide ContextOk, ContextEvents, ContextStack;
    var m := InWord(Base(x), w, k);
    if ClassOf(c) == C_NONE || Next(m.state, ClassOf(c)).Bad? {
      Misfit(cfg, m, c);
    } else if c == 47 {
      SlashInWord(cfg, m);
    } else {
      StepWord(cfg, m, c);
    }
  }

  lemma SlashInWord(cfg: Config, m: Machine)
    requires !cfg.comments && IsWordState(m.state) && ReadingValue(m) && Next(m.state, ClassOf(47)) == Do(CB)
    requires m.error == E_NONE
    ensures Refused(cfg, m, 47, E_NONE)
  {
    StepDo(cfg, m, 47, CB);
    NoComment(cfg, m.(buf := m.buf + [47 % 256]));
    hide Step;
  }

  lemma AfterValue(cfg: Config, x: Context, v: Value, post: seq<int>, c: nat)
    requires !cfg.comments && ParseOk(cfg.depth, x, AfterVal(v, post))
    ensures Refused(cfg, After(Base(x), v, post), c, Complaint(x, AfterVal(v, post), c))
  {
    hide ContextOk, ContextEvents, ContextStack, ValueText, ItemEvents, NumberText;
    var m := After(Base(x), v, post);
    if c == 44 || c == 93 || c == 125 {
      Delimiter(cfg, x, m, c);
    } else if c == 47 {
      Slash(cfg, m);
    } else if ClassOf(c) == C_NONE || Next(m.state, ClassOf(c)).Bad? {
      Misfit(cfg, m, c);
    } else {
      assert IsBlank(c);
      BlankAfter(cfg, m, c);
    }
  }

  lemma BlankAfter(cfg: Config, m: Machine, c: nat)
    requires m.state == OK && AtEnd(m) && IsBlank(c)
    ensures Step(cfg, m, c).Ok?
  {
  }

  lemma AtAKey(cfg: Config, x: Context, u: Cursor, c: nat)
    requires !cfg.comments && ParseOk(cfg.depth, x, u) && (u.AtKey? || u.AfterKey?)
    ensures Refused(cfg, Image(x, u), c, Complaint(x, u, c))
  {
    hide ContextOk, ContextEvents, MembersEvents, PiecesBytes, MembersFit;
    var m := Image(x, u);
    if c == 47 {
      Slash(cfg, m);
    } else if Next(m.state, ClassOf(c)).Bad? {
      Misfit(cfg, m, c);
    } else {
      KeyGoesOn(cfg, x, u, c);
    }
  }

  lemma KeyGoesOn(cfg: Config, x: Context, u: Cursor, c: nat)
    requires !cfg.comments && ParseOk(cfg.depth, x, u) && (u.AtKey? || u.AfterKey?) && c != 47
    requires !Next(Image(x, u).state, ClassOf(c)).Bad?
    ensures Step(cfg, Image(x, u), c).Ok?
  {
    hide Step, ContextOk, ContextEvents, MembersEvents, PiecesBytes, MembersFit;
    var m := Image(x, u);
    StackOfContext(x);
    if IsBlank(c) {
      StepBlank(cfg, m, c);
    } else if c == 34 {
      StepQuote(cfg, m);
    } else if c == 125 {
      StepEmptyObject(cfg, m);
    } else {
      StepColon(cfg, m);
    }
  }

  lemma AtCursor(cfg: Config, x: Context, u: Cursor, c: int)
    requires !cfg.comments && ParseOk(cfg.depth, x, u) && CursorOk(x, u) && Step(cfg, Image(x, u), c).Fail?
    ensures Refused(cfg, Image(x, u), c, Complaint(x, u, c))
  {
    hide Step, ContextOk, InNumber, InWord, InString, After, Refused, Base, KeyBase, ValueComplaint, StringComplaint;
    hide NumberComplaint;
    if c < 0 {
      Negative(cfg, Image(x, u), c);
    } else {
      match u
      case AtVal => AtValue(cfg, x, c);
      case InStr(p) => InAString(cfg, x, u, c);
      case InKey(_, _, p) => InAString(cfg, x, u, c);
      case InNum(n) => InsideNumber(cfg, x, n, c);
      case InWrd(w, k) => InsideWord(cfg, x, w, k, c);
      case AfterVal(v, post) => AfterValue(cfg, x, v, post, c);
      case _ => AtAKey(cfg, x, u, c);
    }
  }

  lemma InAString(cfg: Config, x: Context, u: Cursor, c: nat)
    requires (u.InStr? || u.InKey?) && ParseOk(cfg.depth, x, u) && Step(cfg, Image(x, u), c).Fail?
    ensures Refused(cfg, Image(x, u), c, StringComplaint(u.p.t, c))
  {
    hide Step, InString, PartOk, Refused, ContextEvents, ContextStack, MembersEvents, StringComplaint;
    if u.p.t.Between? && c == 34 {
      hide *;
      ParseOkMeans(cfg.depth, x, u);
      if u.InStr? {
        StringEnds(cfg, x, u.p);
      } else {
        KeyEnds(cfg, x, u);
      }
    } else {
      InsideString(cfg, if u.InStr? then Base(x) else KeyBase(x, u.members), u.p, c);
    }
  }

  /** Every refused character leaves the error of the place where the accepted text has led. */
  lemma RefusalIsExplained(cfg: Config, text: seq<int>, c: int) returns (x: Context, u: Cursor)
    requires !cfg.comments && Run(cfg, Start(), text).Ok? && Step(cfg, Run(cfg, Start(), text).m, c).Fail?
    ensures ParseOk(cfg.depth, x, u) && ParseText(x, u) == text
    ensures Step(cfg, Run(cfg, Start(), text).m, c).m.error == Complaint(x, u, c)
  {
    hide *;
    x, u := RunIsImage(cfg, text);
    ParseOkMeans(cfg.depth, x, u);
    AtCursor(cfg, x, u, c);
    IsRefused(cfg, Image(x, u), c, Complaint(x, u, c));
  }
}
