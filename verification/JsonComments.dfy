/** With comments on, a comment may stand wherever a blank may stand between two lexemes,
    and is then interchangeable with one space. */
module JsonComments {
  import opened JsonTable
  import opened JsonMachine
  import opened JsonInvariant
  import opened JsonNesting
  import opened JsonSteps
  import opened JsonText
  import opened JsonCompleteness

  // ----- events up to the blanks that follow a number -----

  function Trim(s: seq<int>): seq<int> {
    if s != [] && IsBlank(s[|s| - 1]) then Trim(s[..|s| - 1]) else s
  }

  predicate SameEvent(e: Event, f: Event) {
    || e == f
    || (e.IntegerValue? && f.IntegerValue? && Trim(e.text) == Trim(f.text))
    || (e.FloatValue? && f.FloatValue? && Trim(e.text) == Trim(f.text))
  }

  predicate SameEvents(e: seq<Event>, f: seq<Event>) {
    |e| == |f| && forall i :: 0 <= i < |e| ==> SameEvent(e[i], f[i])
  }

  lemma SameEventsAppend(e: seq<Event>, f: seq<Event>, d: seq<Event>, g: seq<Event>)
    requires SameEvents(e, f) && SameEvents(d, g)
    ensures SameEvents(e + d, f + g)
  {
  }

  // ----- two parsers that cannot be told apart -----

  /** The same state, but for the events already reported and a stale saved state. */
  predicate Alike(a: Machine, b: Machine) {
    && b == a.(events := b.events, before := b.before)
    && (a.comment ==> a.before == b.before)
    && SameEvents(a.events, b.events)
  }

  /** a has already reported a value that is still pending in b. */
  predicate Ahead(a: Machine, b: Machine) {
    && a == b.(events := a.events, before := a.before, ty := T_NONE, buf := [])
    && b.state == OK && ReadingValue(b) && !b.ty.T_STRING? && b.hi == 0
    && b.stack != [] && (Top(b).MODE_ARRAY? || Top(b).MODE_OBJECT?)
    && SameEvents(a.events, b.events + PendingEvents(b.ty, b.buf))
  }

  ghost predicate SameResult(r: Res, q: Res) {
    && r.Ok? == q.Ok?
    && (r.Ok? ==> Alike(r.m, q.m) || Ahead(r.m, q.m))
  }

  lemma AlikeEmit(a: Machine, b: Machine, e: seq<Event>)
    requires Alike(a, b)
    ensures Alike(Emit(a, e), Emit(b, e))
  {
    SameEventsAppend(a.events, b.events, e, e);
  }

  lemma PlainAlike(cfg: Config, a: Machine, b: Machine, act: Action)
    requires Alike(a, b) && IsPlain(act) && (act.CE? ==> a.comment)
    ensures SameResult(Act(cfg, a, act), Act(cfg, b, act))
  {
    if act.UC? {
      hide HexValue, WriteCodePoint;
      UnicodeAlike(a, b);
    }
  }

  lemma UnicodeAlike(a: Machine, b: Machine)
    requires Alike(a, b)
    ensures var r, q := DecodeUnicode(a), DecodeUnicode(b);
            r.Ok? == q.Ok? && (r.Ok? ==> r.m.comment == a.comment && Alike(r.m, q.m))
  {
    hide HexValue;
  }

  lemma CommentAlike(cfg: Config, a: Machine, b: Machine)
    requires Alike(a, b) && !a.comment
    ensures SameResult(BeginComment(cfg, a), BeginComment(cfg, b))
  {
    AlikeEmit(a, b, PendingEvents(a.ty, PopChar(a).buf));
  }

  lemma EndAlike(cfg: Config, a: Machine, b: Machine, act: Action)
    requires Alike(a, b) && !a.comment && (act.EmptyObject? || act.EndObject? || act.EndArray?)
    ensures SameResult(Act(cfg, a, act), Act(cfg, b, act))
  {
    var e := if act.EndArray? then ArrayEnd else ObjectEnd;
    AlikeEmit(a, b, [e]);
    var p := PendingEvents(a.ty, PopChar(a).buf);
    AlikeEmit(a, b, p);
    AlikeEmit(Emit(a, p), Emit(b, p), [e]);
  }

  lemma BeginAlike(cfg: Config, a: Machine, b: Machine, act: Action)
    requires Alike(a, b) && !a.comment && (act.BeginObject? || act.BeginArray?)
    ensures SameResult(Act(cfg, a, act), Act(cfg, b, act))
  {
    AlikeEmit(a, b, [if act.BeginArray? then ArrayBegin else ObjectBegin]);
  }

  lemma PunctuationAlike(cfg: Config, a: Machine, b: Machine, act: Action)
    requires Alike(a, b) && !a.comment && (act.EndString? || act.Comma? || act.Colon?)
    ensures SameResult(Act(cfg, a, act), Act(cfg, b, act))
  {
    if act.EndString? {
      StringEndAlike(cfg, a, b);
    } else {
      hide PendingEvents;
      AlikeEmit(a, b, PendingEvents(a.ty, PopChar(a).buf));
    }
  }

  lemma StringEndAlike(cfg: Config, a: Machine, b: Machine)
    requires Alike(a, b) && !a.comment
    ensures SameResult(Act(cfg, a, EndString), Act(cfg, b, EndString))
  {
    hide PendingEvents;
    var buf := PopChar(a).buf;
    AlikeEmit(a, b, PendingEvents(a.ty, buf));
    AlikeEmit(a, b, [Key(buf)]);
  }

  lemma StepAlike(cfg: Config, a: Machine, b: Machine, c: int)
    requires Linked(cfg, a) && Alike(a, b)
    ensures SameResult(Step(cfg, a, c), Step(cfg, b, c))
  {
    hide Act;
    if Legible(c) && AddChar(a, c, ClassOf(c)).Ok? {
      AddedIs(a, c, ClassOf(c));
      AddedIs(b, c, ClassOf(c));
      var x, y := AddChar(a, c, ClassOf(c)).m, AddChar(b, c, ClassOf(c)).m;
      match Next(a.state, ClassOf(c))
      case Goto(s) =>
      case Bad =>
      case Do(act) =>
        ActionIsAllowed(a.state, ClassOf(c), act);
        ActAlike(cfg, x, y, ClassOf(c), act);
    }
  }

  lemma ActAlike(cfg: Config, a: Machine, b: Machine, k: Class, act: Action)
    requires Alike(a, b) && a.comment == IsCommentState(a.state) && ActionAllowed(a.state, k, act)
    ensures SameResult(Act(cfg, a, act), Act(cfg, b, act))
  {
    if IsPlain(act) {
      PlainAlike(cfg, a, b, act);
    } else if act.CB? {
      CommentAlike(cfg, a, b);
    } else if act.EmptyObject? || act.EndObject? || act.EndArray? {
      EndAlike(cfg, a, b, act);
    } else if act.BeginObject? || act.BeginArray? {
      BeginAlike(cfg, a, b, act);
    } else {
      PunctuationAlike(cfg, a, b, act);
    }
  }

  // ----- a value reported early -----

  lemma TrimBlank(s: seq<int>, c: int)
    requires IsBlank(c)
    ensures Trim(s + [c]) == Trim(s)
  {
    assert (s + [c])[..|s|] == s;
  }

  /** One more blank after a pending number changes its event only in trailing blanks. */
  lemma PendingBlank(e: seq<Event>, f: seq<Event>, ty: Type, buf: seq<int>, c: int)
    requires IsBlank(c) && ty != T_NONE && ty != T_STRING
    requires SameEvents(e, f + PendingEvents(ty, buf))
    ensures SameEvents(e, f + PendingEvents(ty, buf + [c]))
  {
    TrimBlank(buf, c);
    var g, h := f + PendingEvents(ty, buf), f + PendingEvents(ty, buf + [c]);
    assert forall i :: 0 <= i < |f| ==> g[i] == h[i];
  }

  lemma ReportedAlike(a: Machine, b: Machine)
    requires Ahead(a, b)
    ensures Alike(Reported(a), Reported(b))
  {
    assert a.events + [] == a.events;
  }

  lemma StepAhead(cfg: Config, a: Machine, b: Machine, c: int)
    requires Ahead(a, b) && |b.stack| - 1 <= cfg.depth && cfg.comments
    ensures SameResult(Step(cfg, a, c), Step(cfg, b, c))
  {
    hide Step;
    ReportedAlike(a, b);
    if IsBlank(c) {
      StepBlank(cfg, a, c);
      StepPendingBlank(cfg, b, c);
      PendingBlank(a.events, b.events, b.ty, b.buf, c);
    } else if c == 44 {
      StepComma(cfg, a);
      StepComma(cfg, b);
    } else if c == 93 || c == 125 {
      StepEnd(cfg, a, c == 93);
      StepEnd(cfg, b, c == 93);
      var e := [if c == 93 then ArrayEnd else ObjectEnd];
      SameEventsAppend(Reported(a).events, Reported(b).events, e, e);
    } else if c == 47 {
      StepOpenComment(cfg, a);
      StepOpenComment(cfg, b);
    } else {
      StepNotEnd(cfg, a, c);
      StepNotEnd(cfg, b, c);
    }
  }

  /** Two parsers that cannot be told apart accept the same continuations. */
  lemma {:induction false} RunAlike(cfg: Config, a: Machine, b: Machine, s: seq<int>)
    requires Linked(cfg, a) && Linked(cfg, b) && cfg.comments && (Alike(a, b) || Ahead(a, b))
    ensures SameResult(Run(cfg, a, s), Run(cfg, b, s))
    ensures Run(cfg, a, s).Ok? ==> Linked(cfg, Run(cfg, a, s).m) && Linked(cfg, Run(cfg, b, s).m)
    decreases |s|
  {
    hide Step;
    if s != [] {
      if Alike(a, b) {
        StepAlike(cfg, a, b, s[0]);
      } else {
        StepAhead(cfg, a, b, s[0]);
      }
      if Step(cfg, a, s[0]).Ok? {
        StepKeepsLink(cfg, a, s[0]);
        StepKeepsLink(cfg, b, s[0]);
        RunAlike(cfg, Step(cfg, a, s[0]).m, Step(cfg, b, s[0]).m, s[1..]);
      }
    }
  }

  // ----- the text of a comment -----

  /** The body of a comment: legal characters in which no star is followed by a slash,
      even when the closing star and slash are counted in. */
  predicate IsCommentBody(s: seq<int>) {
    && (forall i :: 0 <= i < |s| ==> Legible(s[i]))
    && (forall i :: 0 <= i < |s| ==> !((s + [42, 47])[i] == 42 && (s + [42, 47])[i + 1] == 47))
  }

  function Comment(body: seq<int>): seq<int> { [47, 42] + body + [42, 47] }

  lemma {:induction false} FeedBody(cfg: Config, m: Machine, body: seq<int>)
    requires (m.state == C2 || m.state == C3) && m.comment && !m.escaped
    requires IsCommentBody(body) && (m.state == C3 && body != [] ==> body[0] != 47)
    ensures Run(cfg, m, body + [42, 47]) == Ok(m.(comment := false, state := m.before))
    decreases |body|
  {
    hide Step;
    var s := body + [42, 47];
    if body == [] {
      assert s[1..] == [47] && s[1..][1..] == [];
      StepStar(cfg, m);
      StepInComment(cfg, m.(state := C3), 47);
      assert Run(cfg, m, s) == Run(cfg, m.(state := C3), [47]);
      RunOne(cfg, m.(state := C3), 47);
    } else {
      var rest := body[1..];
      assert s[1..] == rest + [42, 47];
      forall i | 0 <= i < |rest|
        ensures !((rest + [42, 47])[i] == 42 && (rest + [42, 47])[i + 1] == 47)
      {
        assert s[i + 1] == (rest + [42, 47])[i] && s[i + 2] == (rest + [42, 47])[i + 1];
      }
      StepInComment(cfg, m, body[0]);
      if body[0] == 42 && rest != [] {
        assert s[0] == 42 && s[1] == rest[0];
      }
      FeedBody(cfg, Step(cfg, m, body[0]).m, rest);
    }
  }

  /** Once the slash has opened a comment, its end returns to where it says. */
  lemma FeedOpened(cfg: Config, m: Machine, x: Machine, body: seq<int>)
    requires Step(cfg, m, 47) == Ok(x) && x.state == C1 && x.comment && !x.escaped && IsCommentBody(body)
    ensures Run(cfg, m, Comment(body)) == Ok(x.(comment := false, state := x.before))
  {
    hide Step;
    StepStar(cfg, x);
    RunOne(cfg, m, 47);
    RunThenStep(cfg, m, [47], x, 42);
    assert [47] + [42] == [47, 42];
    FeedBody(cfg, x.(state := C2), body);
    RunThen(cfg, m, [47, 42], x.(state := C2), body + [42, 47]);
    assert Comment(body) == [47, 42] + (body + [42, 47]);
  }

  lemma FeedComment(cfg: Config, m: Machine, body: seq<int>)
    requires cfg.comments && CommentMayStart(m) && IsCommentBody(body)
    ensures var r := Run(cfg, m, Comment(body));
            var x := Step(cfg, m, 47);
            x.Ok? && r == Ok(x.m.(comment := false, state := x.m.before))
  {
    hide Step;
    StepOpenComment(cfg, m);
    FeedOpened(cfg, m, Step(cfg, m, 47).m, body);
  }

  /** The states named by the table in which a comment acts like a blank. */
  predicate BlankState(s: State) { IsBareState(s) || s == ZE || s == IT || s == FR }

  lemma CommentLikeBlank(cfg: Config, m: Machine, body: seq<int>)
    requires Linked(cfg, m) && cfg.comments && BlankState(m.state) && IsCommentBody(body)
    ensures SameResult(Run(cfg, m, Comment(body)), Step(cfg, m, 32))
    ensures Run(cfg, m, Comment(body)).Ok? && Step(cfg, m, 32).Ok?
    ensures Linked(cfg, Run(cfg, m, Comment(body)).m) && Linked(cfg, Step(cfg, m, 32).m)
  {
    hide Step;
    FeedComment(cfg, m, body);
    StepOpenComment(cfg, m);
    var a := Run(cfg, m, Comment(body)).m;
    RunKeepsLink(cfg, m, Comment(body));
    if m.ty.T_NONE? {
      StepBlank(cfg, m, 32);
      assert m.events + [] == m.events;
    } else {
      if m.state == OK {
        StepPendingBlank(cfg, m, 32);
      } else {
        StepNumber(cfg, m, 32);
      }
      PendingBlank(a.events, m.events, m.ty, m.buf, 32);
    }
    StepKeepsLink(cfg, m, 32);
  }

  lemma {:induction false} RunKeepsLink(cfg: Config, m: Machine, s: seq<int>)
    requires Linked(cfg, m) && Run(cfg, m, s).Ok?
    ensures Linked(cfg, Run(cfg, m, s).m)
    decreases |s|
  {
    hide Step;
    if s != [] {
      StepKeepsLink(cfg, m, s[0]);
      RunKeepsLink(cfg, Step(cfg, m, s[0]).m, s[1..]);
    }
  }

  /** A comment and a space between two texts are accepted alike, as beginnings and as whole
      texts, and then give the same events up to the blanks after a number. */
  ghost predicate Interchangeable(cfg: Config, before: seq<int>, body: seq<int>, rest: seq<int>) {
    var r, q := Run(cfg, Start(), before + Comment(body) + rest), Run(cfg, Start(), before + [32] + rest);
    && r.Ok? == q.Ok?
    && Accepts(cfg, before + Comment(body) + rest) == Accepts(cfg, before + [32] + rest)
    && (Accepts(cfg, before + [32] + rest) ==> SameEvents(r.m.events, q.m.events))
  }

  /** With comments on, after any accepted text that stops where a blank may stand, a
      comment and one space accept the same continuations, and the complete texts give the
      same events up to the blanks after a number. */
  lemma CommentIsASpace(cfg: Config, before: seq<int>, body: seq<int>, rest: seq<int>)
    requires cfg.comments && cfg.depth >= 1 && IsCommentBody(body)
    requires Run(cfg, Start(), before).Ok? && BlankState(Run(cfg, Start(), before).m.state)
    ensures Interchangeable(cfg, before, body, rest)
  {
    hide Step;
    var m := Run(cfg, Start(), before).m;
    StartLinked(cfg);
    RunKeepsLink(cfg, Start(), before);
    CommentLikeBlank(cfg, m, body);
    var a, b := Run(cfg, m, Comment(body)).m, Step(cfg, m, 32).m;
    RunThen(cfg, Start(), before, m, Comment(body));
    RunThen(cfg, Start(), before + Comment(body), a, rest);
    RunThenStep(cfg, Start(), before, m, 32);
    RunThen(cfg, Start(), before + [32], b, rest);
    RunAlike(cfg, a, b, rest);
  }

  // ----- inside a literal name -----

  /** All but the last letter of true, false or null has been read. */
  predicate OneLetterShort(s: State) { s == T3 || s == F4 || s == N3 }

  lemma SlashCutsWord(m: Machine)
    requires OneLetterShort(m.state) && ReadingValue(m)
    ensures ClassOf(47) != C_NONE && !IsBlankClass(ClassOf(47)) && Next(m.state, ClassOf(47)) == Do(CB)
  {
  }

  lemma WordReported(cfg: Config, m: Machine)
    requires cfg.comments && OneLetterShort(m.state) && (Top(m).MODE_ARRAY? || Top(m).MODE_OBJECT?)
    ensures Act(cfg, m.(buf := m.buf + [47]), CB) == Ok(Reported(m).(before := OK, state := C1, comment := true))
  {
    hide PendingEvents;
    assert Front(m.buf + [47]) == m.buf;
  }

  /** Before the last letter of a literal name a comment is not like a space: the value is
      reported as if the name were complete. */
  lemma CommentCompletesWord(cfg: Config, m: Machine, body: seq<int>)
    requires cfg.comments && OneLetterShort(m.state) && ReadingValue(m) && (Top(m).MODE_ARRAY? || Top(m).MODE_OBJECT?)
    requires IsCommentBody(body)
    ensures Run(cfg, m, Comment(body)) == Ok(Reported(m).(before := OK, state := OK, comment := false))
    ensures Step(cfg, m, 32).Fail?
  {
    SlashCutsWord(m);
    StepDo(cfg, m, 47, CB);
    WordReported(cfg, m);
    hide Step, Act;
    assert 47 % 256 == 47;
    FeedOpened(cfg, m, Reported(m).(before := OK, state := C1, comment := true), body);
    StepWord(cfg, m, 32);
  }

  // ----- exactly where a comment is a space -----

  /** The number ends at a space, but its row has no entry for a comment. */
  predicate NumberRefusesComment(s: State) { s == E3 || s == FX }

  predicate OutsideStrings(s: State) { !IsStringState(s) && !IsCommentState(s) }

  /** Where a comment neither acts like a blank nor completes a name it is refused. */
  lemma SlashRefused(cfg: Config, m: Machine)
    requires Linked(cfg, m) && OutsideStrings(m.state) && !BlankState(m.state) && !OneLetterShort(m.state)
    ensures Step(cfg, m, 47).Fail?
    ensures Step(cfg, m, 32).Ok? <==> NumberRefusesComment(m.state)
  {
    hide DecodeUnicode, Unescape, BeginContainer, EndContainer, EndOfString, AfterComma, BeginComment, Flip;
    hide PendingEvents;
  }

  /** In every state outside strings and comments a comment and a space have the same result
      unless the state is after a number's exponent, after its point, or one letter short of a
      literal name. */
  lemma CommentLikeBlankExactly(cfg: Config, m: Machine, body: seq<int>)
    requires Linked(cfg, m) && cfg.comments && OutsideStrings(m.state) && IsCommentBody(body)
    ensures SameResult(Run(cfg, m, Comment(body)), Step(cfg, m, 32)) <==>
            !NumberRefusesComment(m.state) && !OneLetterShort(m.state)
  {
    hide Step;
    if BlankState(m.state) {
      CommentLikeBlank(cfg, m, body);
    } else if OneLetterShort(m.state) {
      CommentCompletesWord(cfg, m, body);
    } else {
      SlashRefused(cfg, m);
      assert Comment(body)[0] == 47;
    }
  }

  /** After any accepted text that stops outside strings and comments, a comment is a space for
      all continuations exactly in the other states. */
  lemma CommentIsASpaceExactly(cfg: Config, before: seq<int>, body: seq<int>)
    requires cfg.comments && cfg.depth >= 1 && IsCommentBody(body)
    requires Run(cfg, Start(), before).Ok? && OutsideStrings(Run(cfg, Start(), before).m.state)
    ensures var s := Run(cfg, Start(), before).m.state;
            (forall rest :: Interchangeable(cfg, before, body, rest)) <==>
            !NumberRefusesComment(s) && !OneLetterShort(s)
  {
    hide Step;
    var m := Run(cfg, Start(), before).m;
    StartLinked(cfg);
    RunKeepsLink(cfg, Start(), before);
    CommentLikeBlankExactly(cfg, m, body);
    RunThen(cfg, Start(), before, m, Comment(body));
    RunThenStep(cfg, Start(), before, m, 32);
    if BlankState(m.state) {
      forall rest
        ensures Interchangeable(cfg, before, body, rest)
      {
        CommentIsASpace(cfg, before, body, rest);
      }
    } else if NumberRefusesComment(m.state) || OneLetterShort(m.state) {
      NotInterchangeable(cfg, before, m, body);
    } else {
      forall rest
        ensures Interchangeable(cfg, before, body, rest)
      {
        BothRefused(cfg, before, m, body, rest);
      }
    }
  }

  lemma NotInterchangeable(cfg: Config, before: seq<int>, m: Machine, body: seq<int>)
    requires cfg.comments && IsCommentBody(body) && Linked(cfg, m) && Run(cfg, Start(), before) == Ok(m)
    requires NumberRefusesComment(m.state) || OneLetterShort(m.state)
    ensures !Interchangeable(cfg, before, body, [])
  {
    hide Step;
    RunThen(cfg, Start(), before, m, Comment(body));
    RunThenStep(cfg, Start(), before, m, 32);
    assert before + Comment(body) + [] == before + Comment(body) && before + [32] + [] == before + [32];
    if OneLetterShort(m.state) {
      CommentCompletesWord(cfg, m, body);
    } else {
      SlashRefused(cfg, m);
      assert Comment(body)[0] == 47;
    }
  }

  lemma BothRefused(cfg: Config, before: seq<int>, m: Machine, body: seq<int>, rest: seq<int>)
    requires Linked(cfg, m) && Run(cfg, Start(), before) == Ok(m) && OutsideStrings(m.state)
    requires !BlankState(m.state) && !OneLetterShort(m.state) && !NumberRefusesComment(m.state)
    ensures Interchangeable(cfg, before, body, rest)
  {
    hide Step;
    SlashRefused(cfg, m);
    RunAppend(cfg, Start(), before, Comment(body) + rest);
    RunAppend(cfg, Start(), before, [32] + rest);
    assert before + Comment(body) + rest == before + (Comment(body) + rest);
    assert before + [32] + rest == before + ([32] + rest);
    assert (Comment(body) + rest)[0] == 47 && ([32] + rest)[0] == 32;
  }
}
