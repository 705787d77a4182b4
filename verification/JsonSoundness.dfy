/** With comments off, only texts of the grammar are accepted. Every state reached by
    accepted characters is the image of a partial parse: a stack of open containers with
    the items already read in them, and a cursor inside the innermost one. */
module JsonSoundness {
  import opened JsonTable
  import opened JsonMachine
  import opened JsonSteps
  import opened JsonText
  import opened JsonLexemes
  import opened JsonCompleteness
  import opened Optional

  /** Where the next value goes. */
  datatype Context =
    | Root(pre: seq<int>)
    | InArr(up: Context, items: Option<Items>, pre: seq<int>)
    | InObj(up: Context, members: Option<Members>, kpre: seq<int>, key: seq<Piece>, mid: seq<int>, pre: seq<int>)

  datatype Cursor =
    | AtVal
    | InStr(p: StringPart)
    | InNum(n: Number)
    | InWrd(w: Value, k: nat)
    | AfterVal(v: Value, post: seq<int>)
    | AtKey(members: Option<Members>, kpre: seq<int>)
    | InKey(members: Option<Members>, kpre: seq<int>, p: StringPart)
    | AfterKey(members: Option<Members>, kpre: seq<int>, key: seq<Piece>, mid: seq<int>)

  // ----- the text read so far -----

  function OpenArray(items: Option<Items>): seq<int> {
    if items.None? then [91] else [91] + ItemsText(items.value) + [44]
  }

  function OpenObject(members: Option<Members>): seq<int> {
    if members.None? then [123] else [123] + MembersText(members.value) + [44]
  }

  function ContextText(x: Context): seq<int> {
    match x
    case Root(pre) => pre
    case InArr(up, items, pre) => ContextText(up) + OpenArray(items) + pre
    case InObj(up, members, kpre, key, mid, pre) =>
      ContextText(up) + OpenObject(members) + kpre + Quoted(key) + mid + [58] + pre
  }

  function CursorText(u: Cursor): seq<int> {
    match u
    case AtVal => []
    case InStr(p) => [34] + PartText(p)
    case InNum(n) => NumberText(n)
    case InWrd(w, k) => if k <= |ValueText(w)| then ValueText(w)[..k] else []
    case AfterVal(v, post) => ValueText(v) + post
    case AtKey(members, kpre) => OpenObject(members) + kpre
    case InKey(members, kpre, p) => OpenObject(members) + kpre + [34] + PartText(p)
    case AfterKey(members, kpre, key, mid) => OpenObject(members) + kpre + Quoted(key) + mid
  }

  function ParseText(x: Context, u: Cursor): seq<int> { ContextText(x) + CursorText(u) }

  // ----- the parser's state -----

  function ContextStack(x: Context): seq<Mode> {
    match x
    case Root(_) => [MODE_DONE]
    case InArr(up, _, _) => ContextStack(up) + [MODE_ARRAY]
    case InObj(up, _, _, _, _, _) => ContextStack(up) + [MODE_OBJECT]
  }

  function ItemsSoFar(items: Option<Items>): seq<Event> {
    if items.None? then [] else ItemsEvents(items.value)
  }

  function MembersSoFar(members: Option<Members>): seq<Event> {
    if members.None? then [] else MembersEvents(members.value)
  }

  function ContextEvents(x: Context): seq<Event> {
    match x
    case Root(_) => []
    case InArr(up, items, _) => ContextEvents(up) + [ArrayBegin] + ItemsSoFar(items)
    case InObj(up, members, _, key, _, _) =>
      ContextEvents(up) + [ObjectBegin] + MembersSoFar(members) + [Key(PiecesBytes(key))]
  }

  function ValueState(x: Context): State {
    if x.Root? then GO else if x.InArr? && x.items.None? then AR else VA
  }

  function Base(x: Context): Machine {
    Start().(state := ValueState(x), stack := ContextStack(x), events := ContextEvents(x))
  }

  function KeyBase(x: Context, members: Option<Members>): Machine {
    Start().(state := if members.None? then OB else KE, stack := ContextStack(x) + [MODE_KEY],
             events := ContextEvents(x) + [ObjectBegin] + MembersSoFar(members))
  }

  function Image(x: Context, u: Cursor): Machine
    requires CursorOk(x, u)
  {
    match u
    case AtVal => Base(x)
    case InStr(p) => InString(Base(x), p.ps, p.t)
    case InNum(n) => InNumber(Base(x), n)
    case InWrd(w, k) => InWord(Base(x), w, k)
    case AfterVal(v, post) => After(Base(x), v, post)
    case AtKey(members, _) => KeyBase(x, members)
    case InKey(members, _, p) => InString(KeyBase(x, members), p.ps, p.t)
    case AfterKey(members, _, key, _) =>
      var m := KeyBase(x, members);
      m.(state := CO, events := m.events + [Key(PiecesBytes(key))])
  }

  // ----- well-formed partial parses -----

  function Level(x: Context): nat {
    match x
    case Root(_) => 0
    case InArr(up, _, _) => Level(up) + 1
    case InObj(up, _, _, _, _, _) => Level(up) + 1
  }

  predicate ItemsFit(items: Option<Items>, room: int) {
    items.Some? ==> ItemsOk(items.value) && ItemsDepth(items.value) <= room
  }

  predicate MembersFit(members: Option<Members>, room: int) {
    members.Some? ==> MembersOk(members.value) && MembersDepth(members.value) <= room
  }

  predicate ContextOk(depth: nat, x: Context) {
    && AllBlank(x.pre) && Level(x) <= depth
    && match x
       case Root(_) => true
       case InArr(up, items, _) => ContextOk(depth, up) && ItemsFit(items, depth - Level(x))
       case InObj(up, members, kpre, key, mid, _) =>
         && ContextOk(depth, up) && MembersFit(members, depth - Level(x))
         && AllBlank(kpre) && PiecesOk(key) && AllBlank(mid)
  }

  predicate CursorOk(x: Context, u: Cursor) {
    match u
    case AtVal => true
    case InStr(p) => PartOk(p) && !x.Root?
    case InNum(n) => NumberBegun(n) && (n.whole == [] ==> n.neg) && !x.Root?
    case InWrd(w, k) => IsWord(w) && 1 <= k < |ValueText(w)| && !x.Root?
    case AfterVal(v, post) =>
      && ValueOk(v) && AllBlank(post) && (x.Root? ==> IsContainer(v)) && (v.Num? ==> post != [])
    case AtKey(members, kpre) => AllBlank(kpre)
    case InKey(members, kpre, p) => AllBlank(kpre) && PartOk(p)
    case AfterKey(members, kpre, key, mid) => AllBlank(kpre) && PiecesOk(key) && AllBlank(mid)
  }

  /** The containers of the cursor fit under the depth limit. */
  predicate CursorFits(depth: nat, x: Context, u: Cursor) {
    match u
    case AfterVal(v, _) => Level(x) + Depth(v) <= depth
    case AtKey(members, _) => Level(x) + 1 <= depth && MembersFit(members, depth - Level(x) - 1)
    case InKey(members, _, _) => Level(x) + 1 <= depth && MembersFit(members, depth - Level(x) - 1)
    case AfterKey(members, _, _, _) => Level(x) + 1 <= depth && MembersFit(members, depth - Level(x) - 1)
    case _ => true
  }

  predicate ParseOk(depth: nat, x: Context, u: Cursor) {
    ContextOk(depth, x) && CursorOk(x, u) && CursorFits(depth, x, u)
  }

  lemma StackOfContext(x: Context)
    ensures |ContextStack(x)| == Level(x) + 1
    ensures ContextStack(x)[Level(x)] ==
            if x.Root? then MODE_DONE else if x.InArr? then MODE_ARRAY else MODE_OBJECT
  {
  }

  lemma LevelFits(depth: nat, x: Context)
    requires ContextOk(depth, x)
    ensures Level(x) <= depth
  {
  }

  /** What is to be shown of each accepted character: (y, w) is the partial parse it leads to. */
  ghost predicate Leads(cfg: Config, x: Context, u: Cursor, c: int, y: Context, w: Cursor)
    requires CursorOk(x, u)
  {
    && ParseOk(cfg.depth, y, w)
    && Step(cfg, Image(x, u), c) == Ok(Image(y, w))
    && ParseText(y, w) == ParseText(x, u) + [c]
  }

  // ----- where a value may start -----

  /** One more blank before the value. */
  function WithBlank(x: Context, c: int): Context { x.(pre := x.pre + [c]) }

  lemma WithBlankSame(depth: nat, x: Context, c: int)
    requires ContextOk(depth, x) && IsBlank(c)
    ensures ContextOk(depth, WithBlank(x, c)) && Base(WithBlank(x, c)) == Base(x)
    ensures ContextText(WithBlank(x, c)) == ContextText(x) + [c]
  {
  }

  lemma ValueLeads(cfg: Config, x: Context, c: int) returns (y: Context, w: Cursor)
    requires !cfg.comments && ContextOk(cfg.depth, x) && Step(cfg, Base(x), c).Ok?
    ensures Leads(cfg, x, AtVal, c, y, w)
  {
    hide Step, ValueOk;
    var m := Base(x);
    assert ParseText(x, AtVal) == ContextText(x);
    if IsBlank(c) {
      y, w := WithBlank(x, c), AtVal;
      WithBlankSame(cfg.depth, x, c);
      StepBlank(cfg, m, c);
    } else if c == 47 {
      StepSlash(cfg, m);
    } else if c == 93 && m.state == AR {
      y, w := EmptyArrayEnds(cfg, x);
    } else if c == 91 || c == 123 {
      y, w := ContainerBegins(cfg, x, c);
    } else if x.Root? || !StartsValue(c) {
      StepNotValue(cfg, m, c);
    } else {
      y, w := ScalarBegins(cfg, x, c);
    }
  }

  lemma ScalarBegins(cfg: Config, x: Context, c: int) returns (y: Context, w: Cursor)
    requires ContextOk(cfg.depth, x) && !x.Root? && StartsValue(c) && c != 91 && c != 123
    ensures Leads(cfg, x, AtVal, c, y, w)
  {
    hide Step, ContextOk, ContextText, ContextEvents, ContextStack, ValueOk;
    var m := Base(x);
    y := x;
    if c == 34 {
      w := InStr(StringPart([], Between));
      StepQuote(cfg, m);
      assert InString(m, [], Between).buf == [];
    } else if c == 45 || IsDigit(c) {
      var n := if c == 45 then Number(true, [], None, None) else Number(false, [c], None, None);
      w := InNum(n);
      StepBeginNumber(cfg, m, c);
      assert NumberText(n) == [c];
    } else {
      var v := if c == 116 then True else if c == 102 then False else Null;
      w := InWrd(v, 1);
      StepBeginWord(cfg, m, c);
      assert ValueText(v)[..1] == [c];
    }
    assert CursorText(w) == [c];
    assert ContextText(x) + [] + [c] == ContextText(x) + [c];
  }

  lemma ContainerBegins(cfg: Config, x: Context, c: int) returns (y: Context, w: Cursor)
    requires ContextOk(cfg.depth, x) && (c == 91 || c == 123) && Step(cfg, Base(x), c).Ok?
    ensures Leads(cfg, x, AtVal, c, y, w)
  {
    hide Step, PiecesOk, PiecesBytes, ItemsOk, MembersOk, ItemsText, MembersText, MembersEvents, ItemsEvents;
    var m := Base(x);
    StackOfContext(x);
    StepBegin(cfg, m, c == 91);
    if c == 91 {
      y, w := InArr(x, None, []), AtVal;
      assert ContextEvents(x) + [ArrayBegin] + [] == ContextEvents(x) + [ArrayBegin];
      assert ContextText(x) + [91] + [] == ContextText(x) + [] + [91];
    } else {
      y, w := x, AtKey(None, []);
      assert ContextEvents(x) + [ObjectBegin] + [] == ContextEvents(x) + [ObjectBegin];
      assert [123] + [] == [123];
    }
  }

  lemma EmptyArrayEnds(cfg: Config, x: Context) returns (y: Context, w: Cursor)
    requires ContextOk(cfg.depth, x) && x.InArr? && x.items.None?
    ensures Leads(cfg, x, AtVal, 93, y, w)
  {
    hide Step;
    y, w := x.up, AfterVal(EmptyArr(x.pre), []);
    StackOfContext(x);
    StepEnd(cfg, Base(x), true);
    assert ContextStack(x)[..Level(x)] == ContextStack(x.up);
    EmptyArrayEvents(x);
    EmptyArrayText(x);
  }

  lemma EmptyArrayEvents(x: Context)
    requires x.InArr? && x.items.None?
    ensures Reported(Base(x)).events + [ArrayEnd] == ContextEvents(x.up) + [ArrayBegin, ArrayEnd]
  {
  }

  lemma EmptyArrayText(x: Context)
    requires x.InArr? && x.items.None?
    ensures ParseText(x.up, AfterVal(EmptyArr(x.pre), [])) == ParseText(x, AtVal) + [93]
  {
  }

  // ----- inside scalars -----

  /** A step that stays at the same place of the same containers. */
  lemma SameContext(cfg: Config, x: Context, u: Cursor, c: int, w: Cursor)
    requires ContextOk(cfg.depth, x) && CursorOk(x, u) && CursorOk(x, w) && CursorFits(cfg.depth, x, w)
    requires Step(cfg, Image(x, u), c) == Ok(Image(x, w)) && CursorText(w) == CursorText(u) + [c]
    ensures Leads(cfg, x, u, c, x, w)
  {
    hide Step, ContextOk, CursorOk, CursorFits, ContextText, CursorText, Image;
    assert ContextText(x) + (CursorText(u) + [c]) == ContextText(x) + CursorText(u) + [c];
  }

  lemma StringLeads(cfg: Config, x: Context, p: StringPart, c: int) returns (y: Context, w: Cursor)
    requires ParseOk(cfg.depth, x, InStr(p)) && Step(cfg, Image(x, InStr(p)), c).Ok?
    ensures Leads(cfg, x, InStr(p), c, y, w)
  {
    hide *;
    ParseOkMeans(cfg.depth, x, InStr(p));
    InStrMeans(x, p);
    y := x;
    if p.t.Between? && c == 34 {
      w := AfterVal(Str(p.ps), []);
      StringEnds(cfg, x, p);
    } else {
      var q := StringGoesOn(cfg, Base(x), p, c);
      w := InStr(q);
      InStrMeans(x, q);
      InStrText(p, q, c);
    }
    SameContext(cfg, x, InStr(p), c, w);
  }

  lemma InStrMeans(x: Context, p: StringPart)
    ensures CursorOk(x, InStr(p)) <==> PartOk(p) && !x.Root?
    ensures CursorOk(x, InStr(p)) ==> Image(x, InStr(p)) == InString(Base(x), p.ps, p.t)
    ensures forall depth: nat :: CursorFits(depth, x, InStr(p))
  {
    hide PartOk, InString, Base;
  }

  lemma InStrText(p: StringPart, q: StringPart, c: int)
    requires PartText(q) == PartText(p) + [c]
    ensures CursorText(InStr(q)) == CursorText(InStr(p)) + [c]
  {
    hide PartText;
  }

  /** The closing quote of a value. */
  lemma StringEnds(cfg: Config, x: Context, p: StringPart)
    requires ContextOk(cfg.depth, x) && CursorOk(x, InStr(p)) && p.t.Between?
    ensures var w := AfterVal(Str(p.ps), []);
            && CursorOk(x, w) && CursorFits(cfg.depth, x, w) && CursorText(w) == CursorText(InStr(p)) + [34]
            && Step(cfg, Image(x, InStr(p)), 34) == Ok(Image(x, w))
  {
    hide Step, ContextText, ContextEvents, PiecesText, PiecesBytes;
    LevelFits(cfg.depth, x);
    hide ContextOk;
    StackOfContext(x);
    assert PartText(p) == PiecesText(p.ps);
    assert InString(Base(x), p.ps, p.t).buf == PiecesBytes(p.ps);
    StepEndOfValue(cfg, InString(Base(x), p.ps, p.t));
  }

  lemma WordLeads(cfg: Config, x: Context, v: Value, k: nat, c: int) returns (y: Context, w: Cursor)
    requires !cfg.comments && ParseOk(cfg.depth, x, InWrd(v, k)) && Step(cfg, Image(x, InWrd(v, k)), c).Ok?
    ensures Leads(cfg, x, InWrd(v, k), c, y, w)
  {
    hide Step, ContextOk, ContextText, ContextEvents;
    LevelFits(cfg.depth, x);
    var m := Base(x);
    y := x;
    WordSteps(cfg, m, v, k, c);
    assert ValueText(v)[..k] + [c] == ValueText(v)[..k + 1];
    if k + 1 == |ValueText(v)| {
      w := AfterVal(v, []);
      assert ValueText(v)[..k + 1] == ValueText(v) && ValueText(v) + [] == ValueText(v);
    } else {
      w := InWrd(v, k + 1);
    }
    assert CursorText(w) == CursorText(InWrd(v, k)) + [c];
    assert ContextText(x) + (CursorText(InWrd(v, k)) + [c]) == ContextText(x) + CursorText(InWrd(v, k)) + [c];
  }

  // ----- after a value -----

  /** The items of an array once one more has ended. */
  function AddItem(items: Option<Items>, it: Item): Items {
    if items.None? then OneItem(it) else MoreItems(items.value, it)
  }

  function AddMember(members: Option<Members>, mem: Member): Members {
    if members.None? then OneMember(mem) else MoreMembers(members.value, mem)
  }

  lemma ItemAdded(depth: nat, x: Context, v: Value, post: seq<int>)
    requires ContextOk(depth, x) && x.InArr? && ValueOk(v) && AllBlank(post) && Level(x) + Depth(v) <= depth
    ensures var items := AddItem(x.items, Item(x.pre, v, post));
            && ItemsFit(Some(items), depth - Level(x))
            && ContextText(x.up) + [91] + ItemsText(items) == ContextText(x) + (ValueText(v) + post)
            && ContextEvents(x.up) + [ArrayBegin] + ItemsEvents(items)
               == ContextEvents(x) + ItemEvents(Item([], v, post))
  {
    ItemFits(depth, x, v, post);
    hide *;
    ItemTexts(x, v, post);
    ItemEventsAdded(x, v, post);
  }

  lemma ItemFits(depth: nat, x: Context, v: Value, post: seq<int>)
    requires ContextOk(depth, x) && x.InArr? && ValueOk(v) && AllBlank(post) && Level(x) + Depth(v) <= depth
    ensures ItemsFit(Some(AddItem(x.items, Item(x.pre, v, post))), depth - Level(x))
  {
    assert ItemOk(Item(x.pre, v, post));
  }

  lemma ItemTexts(x: Context, v: Value, post: seq<int>)
    requires x.InArr?
    ensures ContextText(x.up) + [91] + ItemsText(AddItem(x.items, Item(x.pre, v, post)))
            == ContextText(x) + (ValueText(v) + post)
  {
    hide ValueText;
  }

  lemma ItemEventsAdded(x: Context, v: Value, post: seq<int>)
    requires x.InArr?
    ensures ContextEvents(x.up) + [ArrayBegin] + ItemsEvents(AddItem(x.items, Item(x.pre, v, post)))
         == ContextEvents(x) + ItemEvents(Item([], v, post))
  {
    var it := Item(x.pre, v, post);
    assert ItemEvents(it) == ItemEvents(Item([], v, post));
    hide ItemEvents;
    if x.items.None? {
      assert ContextEvents(x.up) + [ArrayBegin] + [] == ContextEvents(x.up) + [ArrayBegin];
    }
  }

  /** The member that ends with the value v. */
  function MemberOf(x: Context, v: Value, post: seq<int>): Member
    requires x.InObj?
  {
    Member(x.kpre, x.key, x.mid, Item(x.pre, v, post))
  }

  lemma MemberFits(depth: nat, x: Context, v: Value, post: seq<int>)
    requires ContextOk(depth, x) && x.InObj? && ValueOk(v) && AllBlank(post) && Level(x) + Depth(v) <= depth
    ensures MembersFit(Some(AddMember(x.members, MemberOf(x, v, post))), depth - Level(x))
  {
    assert ItemOk(Item(x.pre, v, post));
    assert MemberOk(MemberOf(x, v, post));
  }

  lemma MemberTexts(x: Context, v: Value, post: seq<int>)
    requires x.InObj?
    ensures ContextText(x.up) + [123] + MembersText(AddMember(x.members, MemberOf(x, v, post)))
         == ContextText(x) + (ValueText(v) + post)
  {
    hide Quoted, ValueText, MemberText;
    var mem := MemberOf(x, v, post);
    if x.members.None? {
      MemberTextIs(ContextText(x.up) + [123], mem);
    } else {
      var s := MembersText(x.members.value);
      MemberTextIs(ContextText(x.up) + [123] + s + [44], mem);
      assert ContextText(x.up) + [123] + (s + [44] + MemberText(mem))
          == ContextText(x.up) + [123] + s + [44] + MemberText(mem);
      assert ContextText(x.up) + ([123] + s + [44]) == ContextText(x.up) + [123] + s + [44];
    }
  }

  lemma MemberEventsAdded(x: Context, v: Value, post: seq<int>)
    requires x.InObj?
    ensures ContextEvents(x.up) + [ObjectBegin] + MembersEvents(AddMember(x.members, MemberOf(x, v, post)))
         == ContextEvents(x) + ItemEvents(Item([], v, post))
  {
    hide PiecesBytes;
    var it := Item(x.pre, v, post);
    assert ItemEvents(it) == ItemEvents(Item([], v, post));
    hide ItemEvents;
    var b := ContextEvents(x.up) + [ObjectBegin];
    var k := [Key(PiecesBytes(x.key))];
    var e := MembersSoFar(x.members);
    assert b + (e + (k + ItemEvents(it))) == b + e + k + ItemEvents(it);
    if x.members.None? {
      assert e + (k + ItemEvents(it)) == k + ItemEvents(it);
    }
  }

  lemma MemberTextIs(a: seq<int>, mem: Member)
    ensures a + MemberText(mem)
         == a + mem.pre + Quoted(mem.key) + mem.mid + [58] + mem.it.pre + (ValueText(mem.it.v) + mem.it.post)
  {
    hide Quoted, ValueText;
    assert MemberText(mem)
        == mem.pre + Quoted(mem.key) + mem.mid + [58] + mem.it.pre + (ValueText(mem.it.v) + mem.it.post);
  }

  lemma ArrayGoesOn(depth: nat, x: Context, items: Items) returns (y: Context, w: Cursor)
    requires ContextOk(depth, x) && x.InArr? && ItemsFit(Some(items), depth - Level(x))
    ensures y == InArr(x.up, Some(items), []) && w == AtVal && ParseOk(depth, y, w)
    ensures ParseText(y, w) == ContextText(x.up) + [91] + ItemsText(items) + [44]
    ensures Image(y, w) == Base(x).(state := VA, events := ContextEvents(x.up) + [ArrayBegin] + ItemsEvents(items))
  {
    y, w := InArr(x.up, Some(items), []), AtVal;
    assert ContextText(x.up) + ([91] + ItemsText(items) + [44]) + []
           == ContextText(x.up) + [91] + ItemsText(items) + [44];
  }

  lemma ObjectGoesOn(depth: nat, x: Context, members: Members) returns (y: Context, w: Cursor)
    requires ContextOk(depth, x) && x.InObj? && MembersFit(Some(members), depth - Level(x))
    ensures y == x.up && w == AtKey(Some(members), []) && ParseOk(depth, y, w)
    ensures ParseText(y, w) == ContextText(x.up) + [123] + MembersText(members) + [44]
    ensures Image(y, w) == Base(x).(state := KE, stack := ContextStack(x.up) + [MODE_KEY],
                                    events := ContextEvents(x.up) + [ObjectBegin] + MembersEvents(members))
  {
    hide MembersText, MembersEvents, MembersOk, MembersDepth, PiecesOk, ValueOk, PiecesBytes;
    y, w := x.up, AtKey(Some(members), []);
    assert ContextText(x.up) + ([123] + MembersText(members) + [44] + [])
        == ContextText(x.up) + [123] + MembersText(members) + [44];
  }

  lemma CommaLeads(cfg: Config, x: Context, v: Value, post: seq<int>, from: Cursor) returns (y: Context, w: Cursor)
    requires ContextOk(cfg.depth, x) && ValueOk(v) && AllBlank(post) && Level(x) + Depth(v) <= cfg.depth
    requires CursorOk(x, from) && Image(x, from) == After(Base(x), v, post) && CursorText(from) == ValueText(v) + post
    requires Step(cfg, Image(x, from), 44).Ok?
    ensures Leads(cfg, x, from, 44, y, w)
  {
    hide Step, After, ValueOk, ValueText, ContextText, ContextEvents, ItemsText, MembersText, MembersEvents,
         ItemsEvents;
    hide AddItem, AddMember, ItemEvents, MemberOf, Image, CursorText, CursorOk, CursorFits, ContextOk;
    LevelFits(cfg.depth, x);
    StackOfContext(x);
    AfterReports(Base(x), v, post);
    StepComma(cfg, After(Base(x), v, post));
    if x.InArr? {
      ItemAdded(cfg.depth, x, v, post);
      y, w := ArrayGoesOn(cfg.depth, x, AddItem(x.items, Item(x.pre, v, post)));
    } else {
      MemberFits(cfg.depth, x, v, post);
      MemberTexts(x, v, post);
      MemberEventsAdded(x, v, post);
      y, w := ObjectGoesOn(cfg.depth, x, AddMember(x.members, MemberOf(x, v, post)));
      assert ContextStack(x)[..Level(x)] == ContextStack(x.up);
    }
    assert ContextText(x) + (ValueText(v) + post) + [44] == ParseText(x, from) + [44];
  }

  lemma EndLeads(cfg: Config, x: Context, v: Value, post: seq<int>, from: Cursor, c: int)
    returns (y: Context, w: Cursor)
    requires ContextOk(cfg.depth, x) && ValueOk(v) && AllBlank(post) && Level(x) + Depth(v) <= cfg.depth
    requires CursorOk(x, from) && Image(x, from) == After(Base(x), v, post) && CursorText(from) == ValueText(v) + post
    requires (c == 93 || c == 125) && Step(cfg, Image(x, from), c).Ok?
    ensures Leads(cfg, x, from, c, y, w)
  {
    hide Step, After, ValueOk, ValueText, ContextText, ContextEvents, ItemsText, MembersText, MembersEvents,
         ItemsEvents;
    hide AddItem, AddMember, ItemEvents, MemberOf, Image, CursorText, CursorOk, CursorFits, ContextOk;
    LevelFits(cfg.depth, x);
    var m := After(Base(x), v, post);
    StackOfContext(x);
    AfterReports(Base(x), v, post);
    StepEnd(cfg, m, c == 93);
    if c == 93 {
      ItemAdded(cfg.depth, x, v, post);
      y, w := ArrayEnds(cfg.depth, x, AddItem(x.items, Item(x.pre, v, post)));
    } else {
      MemberFits(cfg.depth, x, v, post);
      MemberTexts(x, v, post);
      MemberEventsAdded(x, v, post);
      y, w := ObjectEnds(cfg.depth, x, AddMember(x.members, MemberOf(x, v, post)));
    }
    assert ContextStack(x)[..Level(x)] == ContextStack(x.up);
    assert ContextText(x) + (ValueText(v) + post) + [c] == ParseText(x, from) + [c];
  }

  lemma ArrayEnds(depth: nat, x: Context, items: Items) returns (y: Context, w: Cursor)
    requires ContextOk(depth, x) && x.InArr? && ItemsFit(Some(items), depth - Level(x))
    ensures y == x.up && w == AfterVal(Arr(items), []) && ParseOk(depth, y, w)
    ensures ParseText(y, w) == ContextText(x.up) + [91] + ItemsText(items) + [93]
    ensures Image(y, w) == Base(y).(state := OK,
                                    events := ContextEvents(x.up) + [ArrayBegin] + ItemsEvents(items) + [ArrayEnd])
  {
    y, w := x.up, AfterVal(Arr(items), []);
    assert CursorText(w) == [91] + ItemsText(items) + [93];
    assert ContextEvents(y) + ([ArrayBegin] + ItemsEvents(items) + [ArrayEnd])
        == ContextEvents(y) + [ArrayBegin] + ItemsEvents(items) + [ArrayEnd];
    assert ContextText(y) + ([91] + ItemsText(items) + [93]) == ContextText(y) + [91] + ItemsText(items) + [93];
  }

  lemma ObjectEnds(depth: nat, x: Context, members: Members) returns (y: Context, w: Cursor)
    requires ContextOk(depth, x) && x.InObj? && MembersFit(Some(members), depth - Level(x))
    ensures y == x.up && w == AfterVal(Obj(members), []) && ParseOk(depth, y, w)
    ensures ParseText(y, w) == ContextText(x.up) + [123] + MembersText(members) + [125]
    ensures Image(y, w) == Base(y).(state := OK,
                                    events := ContextEvents(x.up) + [ObjectBegin] + MembersEvents(members)
                                              + [ObjectEnd])
  {
    y, w := x.up, AfterVal(Obj(members), []);
    assert CursorText(w) == [123] + MembersText(members) + [125];
    assert ContextEvents(y) + ([ObjectBegin] + MembersEvents(members) + [ObjectEnd])
        == ContextEvents(y) + [ObjectBegin] + MembersEvents(members) + [ObjectEnd];
    assert ContextText(y) + ([123] + MembersText(members) + [125])
        == ContextText(y) + [123] + MembersText(members) + [125];
  }

  lemma AfterLeads(cfg: Config, x: Context, v: Value, post: seq<int>, c: int) returns (y: Context, w: Cursor)
    requires !cfg.comments && ParseOk(cfg.depth, x, AfterVal(v, post))
    requires Step(cfg, Image(x, AfterVal(v, post)), c).Ok?
    ensures Leads(cfg, x, AfterVal(v, post), c, y, w)
  {
    hide Step, ContextOk, ContextEvents, ContextStack, ValueOk;
    var u := AfterVal(v, post);
    var m := After(Base(x), v, post);
    AfterReports(Base(x), v, post);
    if IsBlank(c) {
      y, w := x, AfterVal(v, post + [c]);
      AfterBlank(cfg, Base(x), v, post, c);
      assert ContextText(x) + (ValueText(v) + (post + [c])) == ContextText(x) + (ValueText(v) + post) + [c];
    } else if c == 44 {
      y, w := CommaLeads(cfg, x, v, post, u);
    } else if c == 93 || c == 125 {
      y, w := EndLeads(cfg, x, v, post, u, c);
    } else if c == 47 {
      StepSlash(cfg, m);
    } else {
      StepNotEnd(cfg, m, c);
    }
  }

  lemma NumberLeads(cfg: Config, x: Context, n: Number, c: int) returns (y: Context, w: Cursor)
    requires !cfg.comments && ParseOk(cfg.depth, x, InNum(n)) && Step(cfg, Image(x, InNum(n)), c).Ok?
    ensures Leads(cfg, x, InNum(n), c, y, w)
  {
    hide Step, ContextOk;
    LevelFits(cfg.depth, x);
    var m := InNumber(Base(x), n);
    if !IsDelimiter(c) {
      NumberStep(cfg, Base(x), n, c);
      match Extend(n, c)
      case Some(k) =>
        ExtendText(n, c);
        y, w := x, InNum(k);
        assert ContextText(x) + (NumberText(n) + [c]) == ContextText(x) + NumberText(n) + [c];
      case None =>
        y, w := x, AfterVal(Num(n), [c]);
        assert ContextText(x) + (NumberText(n) + [c]) == ContextText(x) + NumberText(n) + [c];
    } else if c == 47 {
      StepSlash(cfg, m);
    } else if !NumberOk(n) {
      StepTooEarly(cfg, m, c);
    } else {
      y, w := NumberEnds(cfg, x, n, c);
    }
  }

  lemma NumberEnds(cfg: Config, x: Context, n: Number, c: int) returns (y: Context, w: Cursor)
    requires !cfg.comments && ParseOk(cfg.depth, x, InNum(n)) && Step(cfg, Image(x, InNum(n)), c).Ok?
    requires NumberOk(n) && (c == 44 || c == 93 || c == 125)
    ensures Leads(cfg, x, InNum(n), c, y, w)
  {
    hide Step, ContextOk;
    LevelFits(cfg.depth, x);
    assert NumberText(n) + [] == NumberText(n);
    if c == 44 {
      y, w := CommaLeads(cfg, x, Num(n), [], InNum(n));
    } else {
      y, w := EndLeads(cfg, x, Num(n), [], InNum(n), c);
    }
  }

  // ----- keys -----

  lemma KeyBegins(cfg: Config, m: Machine)
    requires (m.state == OB || m.state == KE) && m == Start().(state := m.state, stack := m.stack, events := m.events)
    ensures Step(cfg, m, 34) == Ok(InString(m, [], Between))
  {
    hide Step;
    StepQuote(cfg, m);
    assert InString(m, [], Between).buf == [];
  }

  lemma KeyLeads(cfg: Config, x: Context, u: Cursor, c: int) returns (y: Context, w: Cursor)
    requires !cfg.comments && u.AtKey? && ParseOk(cfg.depth, x, u) && Step(cfg, Image(x, u), c).Ok?
    ensures Leads(cfg, x, u, c, y, w)
  {
    hide Step, ContextOk, ContextText, ContextEvents, InString, MembersText, MembersEvents, MembersFit;
    var m := KeyBase(x, u.members);
    y := x;
    if IsBlank(c) {
      w := AtKey(u.members, u.kpre + [c]);
      StepBlank(cfg, m, c);
    } else if c == 34 {
      w := InKey(u.members, u.kpre, StringPart([], Between));
      KeyBegins(cfg, m);
    } else if c == 125 && u.members.None? {
      w := AfterVal(EmptyObj(u.kpre), []);
      StepEmptyObject(cfg, m);
      assert m.stack[..|m.stack| - 1] == ContextStack(x);
      assert ContextEvents(x) + [ObjectBegin] + [] + [ObjectEnd] == ContextEvents(x) + [ObjectBegin, ObjectEnd];
    } else if c == 47 {
      StepSlash(cfg, m);
    } else {
      StepNotKey(cfg, m, c);
    }
    assert CursorText(w) == CursorText(u) + [c];
    assert ContextText(x) + (CursorText(u) + [c]) == ContextText(x) + CursorText(u) + [c];
  }

  lemma InKeyLeads(cfg: Config, x: Context, u: Cursor, c: int) returns (y: Context, w: Cursor)
    requires u.InKey? && ParseOk(cfg.depth, x, u) && Step(cfg, Image(x, u), c).Ok?
    ensures Leads(cfg, x, u, c, y, w)
  {
    hide *;
    ParseOkMeans(cfg.depth, x, u);
    InKeyMeans(x, u);
    y := x;
    if u.p.t.Between? && c == 34 {
      w := AfterKey(u.members, u.kpre, u.p.ps, []);
      KeyEnds(cfg, x, u);
      KeyEndText(u);
    } else {
      var q := StringGoesOn(cfg, KeyBase(x, u.members), u.p, c);
      w := InKey(u.members, u.kpre, q);
      InKeyMeans(x, w);
      KeyKept(cfg.depth, x, u, w);
      KeyText(u, q, c);
    }
    SameContext(cfg, x, u, c, w);
  }

  lemma InKeyMeans(x: Context, u: Cursor)
    requires u.InKey?
    ensures CursorOk(x, u) <==> AllBlank(u.kpre) && PartOk(u.p)
    ensures CursorOk(x, u) ==> Image(x, u) == InString(KeyBase(x, u.members), u.p.ps, u.p.t)
  {
    hide PartOk, InString, KeyBase;
  }

  lemma KeyKept(depth: nat, x: Context, u: Cursor, w: Cursor)
    requires u.InKey? && w.InKey? && w.members == u.members && CursorFits(depth, x, u)
    ensures CursorFits(depth, x, w)
  {
    hide MembersFit;
  }

  /** The closing quote of a key. */
  lemma KeyEnds(cfg: Config, x: Context, u: Cursor)
    requires ContextOk(cfg.depth, x) && u.InKey? && CursorOk(x, u) && CursorFits(cfg.depth, x, u) && u.p.t.Between?
    ensures var w := AfterKey(u.members, u.kpre, u.p.ps, []);
            CursorOk(x, w) && CursorFits(cfg.depth, x, w) && Step(cfg, Image(x, u), 34) == Ok(Image(x, w))
  {
    hide Step, ContextOk, ContextText, ContextEvents, PiecesText, PiecesBytes, MembersFit;
    var m, p := KeyBase(x, u.members), u.p;
    assert InString(m, p.ps, p.t).buf == PiecesBytes(p.ps);
    StepEndOfKey(cfg, InString(m, p.ps, p.t));
  }

  lemma KeyText(u: Cursor, p: StringPart, c: int)
    requires u.InKey? && PartText(p) == PartText(u.p) + [c]
    ensures CursorText(InKey(u.members, u.kpre, p)) == CursorText(u) + [c]
  {
    hide OpenObject, PartText;
  }

  lemma KeyEndText(u: Cursor)
    requires u.InKey? && u.p.t.Between?
    ensures CursorText(AfterKey(u.members, u.kpre, u.p.ps, [])) == CursorText(u) + [34]
  {
    hide OpenObject, PiecesText;
    assert PartText(u.p) == PiecesText(u.p.ps);
  }

  lemma AfterKeyLeads(cfg: Config, x: Context, u: Cursor, c: int) returns (y: Context, w: Cursor)
    requires !cfg.comments && u.AfterKey? && ParseOk(cfg.depth, x, u) && Step(cfg, Image(x, u), c).Ok?
    ensures Leads(cfg, x, u, c, y, w)
  {
    hide Step, Quoted, PiecesOk, PiecesBytes, ItemsFit, MembersFit;
    var m := Image(x, u);
    StackOfContext(x);
    if IsBlank(c) {
      y, w := x, AfterKey(u.members, u.kpre, u.key, u.mid + [c]);
      StepBlank(cfg, m, c);
      assert CursorText(w) == CursorText(u) + [c];
      assert ContextText(x) + (CursorText(u) + [c]) == ContextText(x) + CursorText(u) + [c];
    } else if c == 47 {
      StepSlash(cfg, m);
    } else if c != 58 {
      StepNotColon(cfg, m, c);
    } else {
      y, w := InObj(x, u.members, u.kpre, u.key, u.mid, []), AtVal;
      StepColon(cfg, m);
      assert m.stack[..|m.stack| - 1] == ContextStack(x);
      ColonText(x, u);
    }
  }

  lemma ColonText(x: Context, u: Cursor)
    requires u.AfterKey?
    ensures ParseText(InObj(x, u.members, u.kpre, u.key, u.mid, []), AtVal) == ParseText(x, u) + [58]
  {
    hide Quoted, OpenObject, ItemsText, MembersText, PiecesText, ValueText, PartText, NumberText;
    assert ContextText(x) + (OpenObject(u.members) + u.kpre + Quoted(u.key) + u.mid) + [58]
        == ContextText(x) + OpenObject(u.members) + u.kpre + Quoted(u.key) + u.mid + [58] + [] + [];
  }

  // ----- every accepted text -----

  lemma CursorLeads(cfg: Config, x: Context, u: Cursor, c: int) returns (y: Context, w: Cursor)
    requires !cfg.comments && ParseOk(cfg.depth, x, u) && Step(cfg, Image(x, u), c).Ok?
    ensures Leads(cfg, x, u, c, y, w)
  {
    hide Step, ContextOk;
    match u
    case AtVal => y, w := ValueLeads(cfg, x, c);
    case InStr(p) => y, w := StringLeads(cfg, x, p, c);
    case InNum(n) => y, w := NumberLeads(cfg, x, n, c);
    case InWrd(v, k) => y, w := WordLeads(cfg, x, v, k, c);
    case AfterVal(v, post) => y, w := AfterLeads(cfg, x, v, post, c);
    case AtKey(_, _) => y, w := KeyLeads(cfg, x, u, c);
    case InKey(_, _, _) => y, w := InKeyLeads(cfg, x, u, c);
    case AfterKey(_, _, _, _) => y, w := AfterKeyLeads(cfg, x, u, c);
  }

  /** Every accepted text is the text of a partial parse whose image is the state reached. */
  lemma {:induction false} RunIsImage(cfg: Config, text: seq<int>) returns (x: Context, u: Cursor)
    requires !cfg.comments && Run(cfg, Start(), text).Ok?
    ensures ParseOk(cfg.depth, x, u) && ParseText(x, u) == text
    ensures Run(cfg, Start(), text) == Ok(Image(x, u))
  {
    hide Step;
    if text == [] {
      x, u := Root([]), AtVal;
    } else {
      var init, c := text[..|text| - 1], text[|text| - 1];
      assert init + [c] == text;
      RunAppend(cfg, Start(), init, [c]);
      x, u := RunIsImage(cfg, init);
      RunOne(cfg, Image(x, u), c);
      x, u := CursorLeads(cfg, x, u, c);
    }
  }

  /** With comments off, an accepted text is blank or spells a tree no deeper than the
      limit, and the callback has been told exactly the events of the tree. */
  lemma AcceptedIsGrammar(cfg: Config, text: seq<int>) returns (it: Option<Item>)
    requires !cfg.comments && Accepts(cfg, text)
    ensures var ev := Run(cfg, Start(), text).m.events;
            match it
            case None => AllBlank(text) && ev == []
            case Some(d) => DocumentOk(d, cfg.depth) && ItemText(d) == text && ItemEvents(d) == ev
  {
    hide *;
    AcceptsMeans(cfg, text);
    var x, u := RunIsImage(cfg, text);
    ParseOkMeans(cfg.depth, x, u);
    if Image(x, u).state == GO {
      it := None;
      NothingRead(cfg.depth, x, u);
    } else {
      DoneIsAfterRoot(x, u);
      it := Some(Item(x.pre, u.v, u.post));
      DocumentRead(cfg.depth, x, u.v, u.post);
    }
  }

  lemma ParseOkMeans(depth: nat, x: Context, u: Cursor)
    ensures ParseOk(depth, x, u) <==> ContextOk(depth, x) && CursorOk(x, u) && CursorFits(depth, x, u)
  {
  }

  lemma AcceptsMeans(cfg: Config, text: seq<int>)
    requires Accepts(cfg, text)
    ensures var r := Run(cfg, Start(), text); r.Ok? && (r.m.state == OK || r.m.state == GO) && Top(r.m).MODE_DONE?
  {
    hide Step;
  }

  lemma NothingRead(depth: nat, x: Context, u: Cursor)
    requires ParseOk(depth, x, u) && Image(x, u).state == GO && Top(Image(x, u)).MODE_DONE?
    ensures AllBlank(ParseText(x, u)) && Image(x, u).events == []
  {
    StackOfContext(x);
    assert u.AtVal? && x.Root?;
  }

  lemma DocumentRead(depth: nat, x: Context, v: Value, post: seq<int>)
    requires x.Root? && ParseOk(depth, x, AfterVal(v, post))
    ensures var d := Item(x.pre, v, post);
            DocumentOk(d, depth) && ItemText(d) == ParseText(x, AfterVal(v, post))
            && ItemEvents(d) == Image(x, AfterVal(v, post)).events
  {
    assert x.pre + (ValueText(v) + post) == x.pre + ValueText(v) + post;
    assert [] + ItemEvents(Item([], v, post)) == ItemEvents(Item(x.pre, v, post));
  }

  lemma DoneIsAfterRoot(x: Context, u: Cursor)
    requires CursorOk(x, u) && Image(x, u).state == OK && Top(Image(x, u)).MODE_DONE?
    ensures u.AfterVal? && x.Root?
  {
    StackOfContext(x);
  }

  /** Acceptance: with comments off a text is accepted exactly when it is blank or is one
      array or object of the grammar, nested no deeper than the limit. */
  lemma AcceptsExactlyTheGrammar(cfg: Config, text: seq<int>)
    requires !cfg.comments
    ensures Accepts(cfg, text) <==>
            AllBlank(text) || exists d: Item :: DocumentOk(d, cfg.depth) && ItemText(d) == text
  {
    hide Step;
    if Accepts(cfg, text) {
      var it := AcceptedIsGrammar(cfg, text);
    }
    if AllBlank(text) {
      BlankIsAccepted(cfg, text);
    }
    forall d: Item | DocumentOk(d, cfg.depth) && ItemText(d) == text
      ensures Accepts(cfg, text)
    {
      GrammarIsAccepted(cfg, d);
    }
  }
}
