/** Every text of the grammar, nested no deeper than the limit, is accepted, and the
    callback is told its events. */
module JsonCompleteness {
  import opened JsonTable
  import opened JsonMachine
  import opened JsonSteps
  import opened JsonText
  import opened JsonLexemes
  import opened Optional

  predicate AtValue(m: Machine) { Idle(m) && (m.state == VA || m.state == AR) && m.stack != [] }

  /** Running over a text in two pieces. */
  lemma RunThen(cfg: Config, m: Machine, a: seq<int>, m1: Machine, b: seq<int>)
    requires Run(cfg, m, a) == Ok(m1)
    ensures Run(cfg, m, a + b) == Run(cfg, m1, b)
  {
    RunAppend(cfg, m, a, b);
  }

  lemma RunThenStep(cfg: Config, m: Machine, a: seq<int>, m1: Machine, c: int)
    requires Run(cfg, m, a) == Ok(m1)
    ensures Run(cfg, m, a + [c]) == Step(cfg, m1, c)
  {
    RunAppend(cfg, m, a, [c]);
    RunOne(cfg, m1, c);
  }

  lemma {:induction false} FeedBlanks(cfg: Config, m: Machine, ws: seq<int>)
    requires Idle(m) && AllBlank(ws)
    ensures Run(cfg, m, ws) == Ok(m)
    decreases |ws|
  {
    hide Step;
    if ws != [] {
      StepBlank(cfg, m, ws[0]);
      FeedBlanks(cfg, m, ws[1..]);
    }
  }

  lemma {:induction false} FeedPendingBlanks(cfg: Config, m: Machine, ws: seq<int>)
    requires m.state == OK && ReadingValue(m) && AllBlank(ws)
    ensures Run(cfg, m, ws) == Ok(m.(buf := m.buf + ws))
    decreases |ws|
  {
    hide Step;
    if ws == [] {
      assert m.buf + ws == m.buf;
    } else {
      StepPendingBlank(cfg, m, ws[0]);
      FeedPendingBlanks(cfg, m.(buf := m.buf + [ws[0]]), ws[1..]);
      assert m.buf + [ws[0]] + ws[1..] == m.buf + ws;
    }
  }

  // ----- scalars -----

  lemma {:induction false} FeedNumber(cfg: Config, m: Machine, n: Number)
    requires AtValue(m) && NumberBegun(n) && (n.whole != [] || n.neg)
    ensures Run(cfg, m, NumberText(n)) == Ok(InNumber(m, n))
    decreases |NumberText(n)|
  {
    hide *;
    ValueMachine(m);
    if n.whole == [] {
      NumberStarts(cfg, m, n, 45);
    } else {
      var k, c := Shrink(n), LastOf(n);
      ShrinkExtend(n);
      ExtendText(k, c);
      ShrunkMeans(n);
      if k.whole == [] && !k.neg {
        NumberStarts(cfg, m, n, c);
      } else {
        FeedNumber(cfg, m, k);
        NumberStep(cfg, m, k, c);
        RunThenStep(cfg, m, NumberText(k), InNumber(m, k), c);
      }
    }
  }

  lemma ValueMachine(m: Machine)
    requires AtValue(m)
    ensures !m.comment && !m.escaped
  {
  }

  lemma ShrunkMeans(n: Number)
    requires NumberBegun(n) && n.whole != []
    ensures Shrink(n).whole == [] && !Shrink(n).neg ==>
            NumberText(n) == [LastOf(n)] && Shrink(n).exp.None? && Shrink(n).frac.None?
    ensures Shrink(n).whole == [] && !Shrink(n).neg ==> !n.neg && n.whole == [LastOf(n)] && n.frac.None? && n.exp.None?
    ensures !IsDelimiter(LastOf(n))
  {
  }

  /** The first character of a number. */
  lemma NumberStarts(cfg: Config, m: Machine, n: Number, c: int)
    requires AtValue(m) && NumberBegun(n) && (n.whole != [] ==> n.frac.None? && n.exp.None?)
    requires if n.neg then c == 45 && n.whole == [] else n.whole == [c]
    ensures Run(cfg, m, NumberText(n)) == Ok(InNumber(m, n))
  {
    hide Step, Run;
    assert n.whole != [] ==> IsDigit(n.whole[0]);
    assert NumberText(n) == [c];
    StepBeginNumber(cfg, m, c);
    RunOne(cfg, m, c);
  }

  lemma FeedString(cfg: Config, m: Machine, ps: seq<Piece>)
    requires Idle(m) && PiecesOk(ps) && m.stack != []
    requires m.state == VA || m.state == AR || m.state == OB || m.state == KE
    ensures Run(cfg, m, [34] + PiecesText(ps)) == Ok(InString(m, ps, Between))
  {
    hide Step;
    StepQuote(cfg, m);
    RunOne(cfg, m, 34);
    assert InString(m, [], Between).buf == [];
    FeedPieces(cfg, m, ps);
    RunThen(cfg, m, [34], InString(m, [], Between), PiecesText(ps));
  }

  lemma FeedValueString(cfg: Config, m: Machine, ps: seq<Piece>)
    requires AtValue(m) && PiecesOk(ps) && (Top(m).MODE_ARRAY? || Top(m).MODE_OBJECT?)
    ensures Run(cfg, m, Quoted(ps)) == Ok(m.(state := OK, events := m.events + [StringValue(PiecesBytes(ps))]))
  {
    hide Step;
    var x := InString(m, ps, Between);
    FeedString(cfg, m, ps);
    assert x.buf == PiecesBytes(ps);
    StepEndOfValue(cfg, x);
    RunThenStep(cfg, m, [34] + PiecesText(ps), x, 34);
  }

  lemma FeedKeyString(cfg: Config, m: Machine, ps: seq<Piece>)
    requires Idle(m) && PiecesOk(ps) && m.stack != [] && Top(m).MODE_KEY?
    requires m.state == OB || m.state == KE
    ensures Run(cfg, m, Quoted(ps)) == Ok(m.(state := CO, events := m.events + [Key(PiecesBytes(ps))]))
  {
    hide Step;
    var x := InString(m, ps, Between);
    FeedString(cfg, m, ps);
    assert x.buf == PiecesBytes(ps);
    StepEndOfKey(cfg, x);
    RunThenStep(cfg, m, [34] + PiecesText(ps), x, 34);
  }

  predicate IsWord(v: Value) { v.True? || v.False? || v.Null? }

  function WordType(v: Value): Type { if v.True? then T_TRUE else if v.False? then T_FALSE else T_NULL }

  /** The state after k letters of a word. */
  function WordState(v: Value, k: nat): State
    requires IsWord(v) && 1 <= k <= |ValueText(v)|
  {
    if k == |ValueText(v)| then OK else (if v.True? then T1 else if v.False? then F1 else N1) + k - 1
  }

  function InWord(m: Machine, v: Value, k: nat): Machine
    requires IsWord(v) && 1 <= k <= |ValueText(v)|
  {
    m.(state := WordState(v, k), ty := WordType(v), buf := ValueText(v)[..k])
  }

  lemma WordSteps(cfg: Config, m: Machine, v: Value, k: nat, c: int)
    requires Idle(m) && IsWord(v) && 1 <= k < |ValueText(v)| && !(c == 47 && cfg.comments)
    ensures if c == ValueText(v)[k] then Step(cfg, InWord(m, v, k), c) == Ok(InWord(m, v, k + 1))
            else Step(cfg, InWord(m, v, k), c).Fail?
  {
    hide Step;
    StepWord(cfg, InWord(m, v, k), c);
    assert Letter(WordState(v, k)) == ValueText(v)[k];
    assert ValueText(v)[..k] + [ValueText(v)[k]] == ValueText(v)[..k + 1];
    assert WordStep(WordState(v, k)).1 == WordState(v, k + 1);
  }

  lemma {:induction false} FeedWord(cfg: Config, m: Machine, v: Value, k: nat)
    requires AtValue(m) && IsWord(v) && 1 <= k <= |ValueText(v)|
    ensures Run(cfg, m, ValueText(v)[..k]) == Ok(InWord(m, v, k))
  {
    hide Step;
    var s := ValueText(v);
    if k == 1 {
      assert s[..1] == [s[0]];
      StepBeginWord(cfg, m, s[0]);
      RunOne(cfg, m, s[0]);
    } else {
      FeedWord(cfg, m, v, k - 1);
      NotSlash(v, k - 1);
      WordSteps(cfg, m, v, k - 1, s[k - 1]);
      RunThenStep(cfg, m, s[..k - 1], InWord(m, v, k - 1), s[k - 1]);
      assert s[..k] == s[..k - 1] + [s[k - 1]];
    }
  }

  lemma NotSlash(v: Value, k: nat)
    requires IsWord(v) && k < |ValueText(v)|
    ensures ValueText(v)[k] != 47
  {
  }

  // ----- after a value -----

  /** The parser after a value and the blanks `post`, when it was m before the value. A
      number or a word is still pending; the next delimiter reports it. */
  function After(m: Machine, v: Value, post: seq<int>): Machine {
    match v
    case Num(n) => InNumber(m, n).(state := if post == [] then NumberState(n) else OK, buf := NumberText(n) + post)
    case True => m.(state := OK, ty := T_TRUE, buf := ValueText(v) + post)
    case False => m.(state := OK, ty := T_FALSE, buf := ValueText(v) + post)
    case Null => m.(state := OK, ty := T_NULL, buf := ValueText(v) + post)
    case _ => m.(state := OK, events := m.events + ItemEvents(Item([], v, post)))
  }

  lemma AfterReports(m: Machine, v: Value, post: seq<int>)
    requires Idle(m) && ValueOk(v)
    ensures AtEnd(After(m, v, post))
    ensures Reported(After(m, v, post)) == m.(state := After(m, v, post).state,
                                             events := m.events + ItemEvents(Item([], v, post)))
  {
    var e := ItemEvents(Item([], v, post));
    if !v.Num? && !IsWord(v) {
      assert m.events + e + [] == m.events + e;
    }
  }

  lemma AfterBlank(cfg: Config, m: Machine, v: Value, post: seq<int>, c: int)
    requires Idle(m) && ValueOk(v) && AllBlank(post) && IsBlank(c)
    ensures Step(cfg, After(m, v, post), c) == Ok(After(m, v, post + [c]))
  {
    hide Step;
    var x := After(m, v, post);
    if v.Num? && post == [] {
      assert NumberText(v.n) + [] == NumberText(v.n);
      assert x == InNumber(m, v.n);
      assert Extend(v.n, c).None?;
      NumberStep(cfg, m, v.n, c);
      assert post + [c] == [c];
    } else if v.Num? || IsWord(v) {
      StepPendingBlank(cfg, x, c);
      assert x.buf + [c] == After(m, v, post + [c]).buf;
    } else {
      StepBlank(cfg, x, c);
    }
  }

  lemma {:induction false} FeedPost(cfg: Config, m: Machine, v: Value, post: seq<int>)
    requires Idle(m) && ValueOk(v) && AllBlank(post)
    ensures Run(cfg, After(m, v, []), post) == Ok(After(m, v, post))
  {
    hide Step;
    if post != [] {
      var init, c := post[..|post| - 1], post[|post| - 1];
      FeedPost(cfg, m, v, init);
      AfterBlank(cfg, m, v, init, c);
      RunThenStep(cfg, After(m, v, []), init, After(m, v, init), c);
      assert init + [c] == post;
    }
  }

  // ----- containers -----

  function LastItem(items: Items): Item {
    match items case OneItem(it) => it case MoreItems(_, it) => it
  }

  function EarlierItems(items: Items): seq<Event> {
    match items case OneItem(_) => [] case MoreItems(init, _) => ItemsEvents(init)
  }

  function LastMember(members: Members): Member {
    match members case OneMember(mem) => mem case MoreMembers(_, mem) => mem
  }

  function EarlierMembers(members: Members): seq<Event> {
    match members case OneMember(_) => [] case MoreMembers(init, _) => MembersEvents(init)
  }

  predicate Room(cfg: Config, m: Machine, depth: nat) { |m.stack| >= 1 && |m.stack| - 1 + depth <= cfg.depth }

  /** Where a value may start: inside a container, or at the top for a container. */
  predicate Expects(m: Machine, v: Value) {
    && Idle(m) && m.stack != []
    && ((AtValue(m) && (Top(m).MODE_ARRAY? || Top(m).MODE_OBJECT?)) || (m.state == GO && IsContainer(v)))
  }

  lemma FeedValue(cfg: Config, m: Machine, v: Value)
    requires Expects(m, v) && ValueOk(v) && Room(cfg, m, Depth(v))
    ensures Run(cfg, m, ValueText(v)) == Ok(After(m, v, []))
    decreases v, 0
  {
    hide Step;
    match v
    case Str(ps) => FeedValueString(cfg, m, ps);
    case Num(n) =>
      FeedNumber(cfg, m, n);
      assert NumberText(n) + [] == NumberText(n);
    case EmptyArr(ws) => FeedEmptyArray(cfg, m, ws);
    case EmptyObj(ws) => FeedEmptyObject(cfg, m, ws);
    case Arr(items) => FeedArray(cfg, m, items);
    case Obj(members) => FeedObject(cfg, m, members);
    case _ =>
      var s := ValueText(v);
      FeedWord(cfg, m, v, |s|);
      assert s[..|s|] == s && s + [] == s;
  }

  lemma FeedItem(cfg: Config, m: Machine, it: Item)
    requires Expects(m, it.v) && ItemOk(it) && Room(cfg, m, Depth(it.v))
    ensures Run(cfg, m, ItemText(it)) == Ok(After(m, it.v, it.post))
    decreases it, 1
  {
    hide Step;
    FeedBlanks(cfg, m, it.pre);
    FeedValue(cfg, m, it.v);
    RunThen(cfg, m, it.pre, m, ValueText(it.v));
    FeedPost(cfg, m, it.v, it.post);
    RunThen(cfg, m, it.pre + ValueText(it.v), After(m, it.v, []), it.post);
  }

  lemma AfterState(m: Machine, s: State, v: Value, post: seq<int>)
    requires ValueOk(v)
    ensures After(m.(state := s), v, post) == After(m, v, post)
  {
  }

  lemma FeedItems(cfg: Config, m: Machine, items: Items)
    requires AtValue(m) && Top(m).MODE_ARRAY? && ItemsOk(items) && Room(cfg, m, ItemsDepth(items))
    ensures Run(cfg, m, ItemsText(items)) ==
            Ok(After(m.(events := m.events + EarlierItems(items)), LastItem(items).v, LastItem(items).post))
    decreases items, 2
  {
    hide Step;
    match items
    case OneItem(it) =>
      assert m.events + [] == m.events;
      FeedItem(cfg, m, it);
    case MoreItems(init, it) =>
      FeedItems(cfg, m, init);
      var m1 := m.(events := m.events + EarlierItems(init));
      var x := After(m1, LastItem(init).v, LastItem(init).post);
      ItemsReported(m, init);
      StepComma(cfg, x);
      RunThenStep(cfg, m, ItemsText(init), x, 44);
      var m2 := m.(state := VA, events := m.events + ItemsEvents(init));
      FeedItem(cfg, m2, it);
      RunThen(cfg, m, ItemsText(init) + [44], m2, ItemText(it));
      AfterState(m.(events := m.events + ItemsEvents(init)), VA, it.v, it.post);
  }

  lemma ItemsSplit(items: Items)
    requires ItemsOk(items)
    ensures EarlierItems(items) + ItemEvents(LastItem(items)) == ItemsEvents(items)
    ensures ItemOk(LastItem(items))
  {
    if items.OneItem? {
      assert [] + ItemEvents(items.it) == ItemEvents(items.it);
    }
  }

  lemma MembersSplit(members: Members)
    requires MembersOk(members)
    ensures EarlierMembers(members) + MemberEvents(LastMember(members)) == MembersEvents(members)
    ensures MemberOk(LastMember(members))
  {
    if members.OneMember? {
      assert [] + MemberEvents(members.mem) == MemberEvents(members.mem);
    }
  }

  /** What a delimiter after an item finds. */
  lemma ItemReported(m: Machine, earlier: seq<Event>, it: Item)
    requires Idle(m) && ItemOk(it)
    ensures var x := After(m.(events := m.events + earlier), it.v, it.post);
            AtEnd(x) && x.stack == m.stack
            && Reported(x) == m.(state := x.state, events := m.events + (earlier + ItemEvents(it)))
  {
    AfterReports(m.(events := m.events + earlier), it.v, it.post);
    assert ItemEvents(Item([], it.v, it.post)) == ItemEvents(it);
    assert m.events + earlier + ItemEvents(it) == m.events + (earlier + ItemEvents(it));
  }

  lemma ItemsReported(m: Machine, items: Items)
    requires Idle(m) && ItemsOk(items)
    ensures var x := After(m.(events := m.events + EarlierItems(items)), LastItem(items).v, LastItem(items).post);
            AtEnd(x) && x.stack == m.stack
            && Reported(x) == m.(state := x.state, events := m.events + ItemsEvents(items))
  {
    hide After;
    ItemsSplit(items);
    ItemReported(m, EarlierItems(items), LastItem(items));
  }

  lemma FeedArray(cfg: Config, m: Machine, items: Items)
    requires Expects(m, Arr(items)) && ItemsOk(items) && Room(cfg, m, 1 + ItemsDepth(items))
    ensures Run(cfg, m, ValueText(Arr(items))) == Ok(After(m, Arr(items), []))
    decreases items, 3
  {
    hide Step;
    StepBegin(cfg, m, true);
    RunOne(cfg, m, 91);
    var m1 := m.(state := AR, stack := m.stack + [MODE_ARRAY], events := m.events + [ArrayBegin]);
    FeedItems(cfg, m1, items);
    var x := After(m1.(events := m1.events + EarlierItems(items)), LastItem(items).v, LastItem(items).post);
    RunThen(cfg, m, [91], m1, ItemsText(items));
    ItemsReported(m1, items);
    StepEnd(cfg, x, true);
    RunThenStep(cfg, m, [91] + ItemsText(items), x, 93);
    assert m1.stack[..|m1.stack| - 1] == m.stack;
    assert m.events + [ArrayBegin] + ItemsEvents(items) + [ArrayEnd]
        == m.events + ([ArrayBegin] + ItemsEvents(items) + [ArrayEnd]);
  }

  lemma FeedEmptyArray(cfg: Config, m: Machine, ws: seq<int>)
    requires Expects(m, EmptyArr(ws)) && AllBlank(ws) && Room(cfg, m, 1)
    ensures Run(cfg, m, ValueText(EmptyArr(ws))) == Ok(After(m, EmptyArr(ws), []))
  {
    hide Step;
    StepBegin(cfg, m, true);
    RunOne(cfg, m, 91);
    var m1 := m.(state := AR, stack := m.stack + [MODE_ARRAY], events := m.events + [ArrayBegin]);
    FeedBlanks(cfg, m1, ws);
    RunThen(cfg, m, [91], m1, ws);
    StepEnd(cfg, m1, true);
    RunThenStep(cfg, m, [91] + ws, m1, 93);
    assert m1.stack[..|m1.stack| - 1] == m.stack;
    assert m1.events + [] + [ArrayEnd] == m.events + [ArrayBegin, ArrayEnd];
  }

  lemma FeedEmptyObject(cfg: Config, m: Machine, ws: seq<int>)
    requires Expects(m, EmptyObj(ws)) && AllBlank(ws) && Room(cfg, m, 1)
    ensures Run(cfg, m, ValueText(EmptyObj(ws))) == Ok(After(m, EmptyObj(ws), []))
  {
    hide Step;
    StepBegin(cfg, m, false);
    RunOne(cfg, m, 123);
    var m1 := m.(state := OB, stack := m.stack + [MODE_KEY], events := m.events + [ObjectBegin]);
    FeedBlanks(cfg, m1, ws);
    RunThen(cfg, m, [123], m1, ws);
    StepEmptyObject(cfg, m1);
    RunThenStep(cfg, m, [123] + ws, m1, 125);
    assert m1.stack[..|m1.stack| - 1] == m.stack;
    assert m1.events + [ObjectEnd] == m.events + [ObjectBegin, ObjectEnd];
  }

  // ----- objects -----

  /** The parser once the key of a member has been read, at its value. */
  function AtMemberValue(m: Machine, key: seq<Piece>): Machine {
    m.(state := VA, stack := Front'(m.stack) + [MODE_OBJECT], events := m.events + [Key(PiecesBytes(key))])
  }

  function Front'(s: seq<Mode>): seq<Mode> { if s == [] then [] else s[..|s| - 1] }

  lemma FeedMember(cfg: Config, m: Machine, mem: Member)
    requires Idle(m) && (m.state == OB || m.state == KE) && m.stack != [] && Top(m).MODE_KEY?
    requires MemberOk(mem) && Room(cfg, m, Depth(mem.it.v))
    ensures Run(cfg, m, MemberText(mem)) == Ok(After(AtMemberValue(m, mem.key), mem.it.v, mem.it.post))
    decreases mem, 2
  {
    hide Step;
    FeedBlanks(cfg, m, mem.pre);
    FeedKeyString(cfg, m, mem.key);
    RunThen(cfg, m, mem.pre, m, Quoted(mem.key));
    var m1 := m.(state := CO, events := m.events + [Key(PiecesBytes(mem.key))]);
    FeedBlanks(cfg, m1, mem.mid);
    RunThen(cfg, m, mem.pre + Quoted(mem.key), m1, mem.mid);
    StepColon(cfg, m1);
    RunThenStep(cfg, m, mem.pre + Quoted(mem.key) + mem.mid, m1, 58);
    var m2 := AtMemberValue(m, mem.key);
    FeedItem(cfg, m2, mem.it);
    RunThen(cfg, m, mem.pre + Quoted(mem.key) + mem.mid + [58], m2, ItemText(mem.it));
  }

  lemma MemberReported(m: Machine, earlier: seq<Event>, mem: Member)
    requires Idle(m) && MemberOk(mem) && m.stack != []
    ensures var x := After(AtMemberValue(m.(events := m.events + earlier), mem.key), mem.it.v, mem.it.post);
            && AtEnd(x) && x.stack == Front'(m.stack) + [MODE_OBJECT]
            && Reported(x) == m.(state := x.state, stack := x.stack, events := m.events + (earlier + MemberEvents(mem)))
  {
    hide After, PiecesBytes, ItemEvents;
    var m1 := AtMemberValue(m, mem.key).(events := m.events);
    var key := [Key(PiecesBytes(mem.key))];
    ItemReported(m1, earlier + key, mem.it);
    assert m1.(events := m1.events + (earlier + key)) == AtMemberValue(m.(events := m.events + earlier), mem.key) by {
      assert m.events + (earlier + key) == m.events + earlier + key;
    }
    assert earlier + key + ItemEvents(mem.it) == earlier + MemberEvents(mem);
  }

  lemma MembersReported(m: Machine, members: Members)
    requires Idle(m) && MembersOk(members) && m.stack != []
    ensures var mem := LastMember(members);
            var x := After(AtMemberValue(m.(events := m.events + EarlierMembers(members)), mem.key), mem.it.v,
                     mem.it.post);
            && AtEnd(x) && x.stack == Front'(m.stack) + [MODE_OBJECT]
            && Reported(x) == m.(state := x.state, stack := x.stack, events := m.events + MembersEvents(members))
  {
    hide After, AtMemberValue;
    MembersSplit(members);
    MemberReported(m, EarlierMembers(members), LastMember(members));
  }

  lemma FeedMembers(cfg: Config, m: Machine, members: Members)
    requires Idle(m) && m.state == OB && m.stack != [] && Top(m).MODE_KEY?
    requires MembersOk(members) && Room(cfg, m, MembersDepth(members))
    ensures var mem := LastMember(members);
            Run(cfg, m, MembersText(members)) ==
            Ok(After(AtMemberValue(m.(events := m.events + EarlierMembers(members)), mem.key), mem.it.v, mem.it.post))
    decreases members, 3
  {
    hide Step;
    match members
    case OneMember(mem) =>
      assert m.events + [] == m.events;
      FeedMember(cfg, m, mem);
    case MoreMembers(init, mem) =>
      FeedMembers(cfg, m, init);
      var mem0 := LastMember(init);
      var x := After(AtMemberValue(m.(events := m.events + EarlierMembers(init)), mem0.key), mem0.it.v, mem0.it.post);
      MembersReported(m, init);
      StepComma(cfg, x);
      RunThenStep(cfg, m, MembersText(init), x, 44);
      var m2 := m.(state := KE, events := m.events + MembersEvents(init));
      assert x.stack[..|x.stack| - 1] + [MODE_KEY] == m.stack;
      FeedMember(cfg, m2, mem);
      RunThen(cfg, m, MembersText(init) + [44], m2, MemberText(mem));
  }

  lemma FeedObject(cfg: Config, m: Machine, members: Members)
    requires Expects(m, Obj(members)) && MembersOk(members) && Room(cfg, m, 1 + MembersDepth(members))
    ensures Run(cfg, m, ValueText(Obj(members))) == Ok(After(m, Obj(members), []))
    decreases members, 4
  {
    hide Step, After, Reported, AtEnd, AtMemberValue, MembersText, MembersEvents, MembersOk, EarlierMembers, LastMember;
    StepBegin(cfg, m, false);
    RunOne(cfg, m, 123);
    var m1 := m.(state := OB, stack := m.stack + [MODE_KEY], events := m.events + [ObjectBegin]);
    FeedMembers(cfg, m1, members);
    var mem := LastMember(members);
    var x := After(AtMemberValue(m1.(events := m1.events + EarlierMembers(members)), mem.key), mem.it.v, mem.it.post);
    RunThen(cfg, m, [123], m1, MembersText(members));
    MembersReported(m1, members);
    StepEnd(cfg, x, false);
    RunThenStep(cfg, m, [123] + MembersText(members), x, 125);
    assert x.stack[..|x.stack| - 1] == m.stack;
    assert m.events + [ObjectBegin] + MembersEvents(members) + [ObjectEnd]
        == m.events + ([ObjectBegin] + MembersEvents(members) + [ObjectEnd]);
    AfterContainer(m, Obj(members));
    AfterState(m, OK, Obj(members), []);
  }

  lemma AfterContainer(m: Machine, v: Value)
    requires IsContainer(v)
    ensures After(m, v, []) == m.(state := OK, events := m.events + ItemEvents(Item([], v, [])))
  {
  }

  /** Every text of the grammar within the depth limit is accepted, with the events of its
      tree in pre-order. Comments may be on or off. */
  lemma GrammarIsAccepted(cfg: Config, it: Item)
    requires DocumentOk(it, cfg.depth)
    ensures Accepts(cfg, ItemText(it))
    ensures Run(cfg, Start(), ItemText(it)).m.events == ItemEvents(it)
  {
    hide Step;
    FeedItem(cfg, Start(), it);
    assert [] + ItemEvents(Item([], it.v, it.post)) == ItemEvents(it);
  }

  lemma BlankIsAccepted(cfg: Config, ws: seq<int>)
    requires AllBlank(ws)
    ensures Accepts(cfg, ws) && Run(cfg, Start(), ws).m.events == []
  {
    hide Step;
    FeedBlanks(cfg, Start(), ws);
  }
}
