/** The texts the parser accepts, as trees of concrete syntax: a tree keeps its blanks,
    the spelling of its numbers and the escapes of its strings. `Text` spells a tree,
    `Events` is what the callback must be told about it, and neither mentions the parser's
    automaton. The grammar is that of section 2 of RFC 4627, except that a fraction may
    have no digits and that 0 may be followed by an exponent only after a point. */
module JsonText {
  import opened Ints
  import opened JsonMachine
  import opened UtfCodec
  import opened Optional

  // ----- blanks and digits -----

  predicate IsBlank(c: int) { c == 32 || c == 9 || c == 10 || c == 13 }
  predicate IsDigit(c: int) { 48 <= c <= 57 }
  predicate IsHexDigit(c: int) { IsDigit(c) || 65 <= c <= 70 || 97 <= c <= 102 }

  predicate AllBlank(s: seq<int>) { forall i :: 0 <= i < |s| ==> IsBlank(s[i]) }
  predicate AllDigits(s: seq<int>) { forall i :: 0 <= i < |s| ==> IsDigit(s[i]) }
  predicate AllHex(s: seq<int>) { forall i :: 0 <= i < |s| ==> IsHexDigit(s[i]) }

  // ----- strings -----

  /** The characters that may follow a backslash, and what they then stand for (section 2.5 of
      RFC 4627): quotation mark, reverse solidus, solidus, backspace, form feed, line feed, carriage
      return and tab. */
  function ShortMeaning(c: int): Option<int> {
    match c
    case 34 => Some(34)
    case 92 => Some(92)
    case 47 => Some(47)
    case 98 => Some(8)
    case 102 => Some(12)
    case 110 => Some(10)
    case 114 => Some(13)
    case 116 => Some(9)
    case _ => None
  }

  /** The number that hexadecimal digits spell. */
  function CodeUnit(h: seq<int>): int {
    if h == [] then 0
    else
      var c := h[|h| - 1];
      16 * CodeUnit(h[..|h| - 1]) + if IsDigit(c) then c - 48 else if 97 <= c <= 102 then c - 97 + 10 else c - 65 + 10
  }

  /** One character of a string: itself, a two-character escape, a \u escape, or two \u
      escapes that form a surrogate pair. */
  datatype Piece = Plain(c: int) | Short(c: int) | Unicode(h: seq<int>) | Pair(h: seq<int>, l: seq<int>)

  predicate IsHex4(h: seq<int>) { |h| == 4 && AllHex(h) }

  predicate PieceOk(p: Piece) {
    match p
    case Plain(c) => c >= 32 && c != 34 && c != 92
    case Short(c) => ShortMeaning(c).Some?
    case Unicode(h) => IsHex4(h) && !(0xD800 <= CodeUnit(h) < 0xE000)
    case Pair(h, l) =>
      IsHex4(h) && IsHex4(l) && 0xD800 <= CodeUnit(h) < 0xDC00 && 0xDC00 <= CodeUnit(l) < 0xE000
  }

  function PieceText(p: Piece): seq<int> {
    match p
    case Plain(c) => [c]
    case Short(c) => [92, c]
    case Unicode(h) => [92, 117] + h
    case Pair(h, l) => [92, 117] + h + [92, 117] + l
  }

  /** Section 2.2 of RFC 2781. */
  function PairCodePoint(h: int, l: int): int { 0x10000 + (h - 0xD800) * 0x400 + (l - 0xDC00) }

  /** The bytes a piece stands for; a character that was not escaped is kept as it came,
      cut to one byte. */
  function PieceBytes(p: Piece): seq<int> {
    match p
    case Plain(c) => [c % 256]
    case Short(c) => if ShortMeaning(c).Some? then [ShortMeaning(c).value] else []
    case Unicode(h) => Utf8(CodeUnit(h))
    case Pair(h, l) => Utf8(PairCodePoint(CodeUnit(h), CodeUnit(l)))
  }

  predicate PiecesOk(ps: seq<Piece>) { forall i :: 0 <= i < |ps| ==> PieceOk(ps[i]) }

  function PiecesText(ps: seq<Piece>): seq<int> {
    if ps == [] then [] else PiecesText(ps[..|ps| - 1]) + PieceText(ps[|ps| - 1])
  }

  function PiecesBytes(ps: seq<Piece>): seq<int> {
    if ps == [] then [] else PiecesBytes(ps[..|ps| - 1]) + PieceBytes(ps[|ps| - 1])
  }

  function Quoted(ps: seq<Piece>): seq<int> { [34] + PiecesText(ps) + [34] }

  // ----- numbers -----

  datatype Exponent = Exponent(mark: int, sign: seq<int>, digits: seq<int>)

  datatype Number = Number(neg: bool, whole: seq<int>, frac: Option<seq<int>>, exp: Option<Exponent>)

  predicate IsZero(s: seq<int>) { |s| == 1 && s[0] == 48 }

  /** A number, or the beginning of one. */
  predicate NumberBegun(n: Number) {
    && AllDigits(n.whole)
    && (n.whole == [] ==> n.frac.None? && n.exp.None?)
    && (|n.whole| > 1 ==> n.whole[0] != 48)
    && (n.frac.Some? ==> AllDigits(n.frac.value))
    && (n.exp.Some? ==>
          && (n.exp.value.mark == 101 || n.exp.value.mark == 69)
          && (n.exp.value.sign == [] || n.exp.value.sign == [43] || n.exp.value.sign == [45])
          && AllDigits(n.exp.value.digits)
          && (IsZero(n.whole) ==> n.frac.Some?))
  }

  predicate NumberOk(n: Number) {
    NumberBegun(n) && n.whole != [] && (n.exp.Some? ==> n.exp.value.digits != [])
  }

  function FractionText(f: Option<seq<int>>): seq<int> { if f.None? then [] else [46] + f.value }

  function ExponentText(e: Option<Exponent>): seq<int> {
    if e.None? then [] else [e.value.mark] + e.value.sign + e.value.digits
  }

  function NumberText(n: Number): seq<int> {
    (if n.neg then [45] else []) + n.whole + FractionText(n.frac) + ExponentText(n.exp)
  }

  predicate IsFloat(n: Number) { n.frac.Some? || n.exp.Some? }

  // ----- values -----

  datatype Value =
    | Str(ps: seq<Piece>) | Num(n: Number) | True | False | Null
    | EmptyArr(ws: seq<int>) | Arr(items: Items)
    | EmptyObj(ws: seq<int>) | Obj(members: Members)

  /** A value with the blanks around it. */
  datatype Item = Item(pre: seq<int>, v: Value, post: seq<int>)
  datatype Items = OneItem(it: Item) | MoreItems(init: Items, it: Item)

  /** A key with the blanks around it, and after the colon the value. */
  datatype Member = Member(pre: seq<int>, key: seq<Piece>, mid: seq<int>, it: Item)
  datatype Members = OneMember(mem: Member) | MoreMembers(init: Members, mem: Member)

  predicate IsContainer(v: Value) { v.EmptyArr? || v.Arr? || v.EmptyObj? || v.Obj? }

  predicate ValueOk(v: Value) {
    match v
    case Str(ps) => PiecesOk(ps)
    case Num(n) => NumberOk(n)
    case True => true
    case False => true
    case Null => true
    case EmptyArr(ws) => AllBlank(ws)
    case Arr(items) => ItemsOk(items)
    case EmptyObj(ws) => AllBlank(ws)
    case Obj(members) => MembersOk(members)
  }

  predicate ItemOk(it: Item) { AllBlank(it.pre) && ValueOk(it.v) && AllBlank(it.post) }

  predicate ItemsOk(items: Items) {
    match items
    case OneItem(it) => ItemOk(it)
    case MoreItems(init, it) => ItemsOk(init) && ItemOk(it)
  }

  predicate MemberOk(mem: Member) {
    AllBlank(mem.pre) && PiecesOk(mem.key) && AllBlank(mem.mid) && ItemOk(mem.it)
  }

  predicate MembersOk(members: Members) {
    match members
    case OneMember(mem) => MemberOk(mem)
    case MoreMembers(init, mem) => MembersOk(init) && MemberOk(mem)
  }

  function ValueText(v: Value): seq<int> {
    match v
    case Str(ps) => Quoted(ps)
    case Num(n) => NumberText(n)
    case True => [116, 114, 117, 101]
    case False => [102, 97, 108, 115, 101]
    case Null => [110, 117, 108, 108]
    case EmptyArr(ws) => [91] + ws + [93]
    case Arr(items) => [91] + ItemsText(items) + [93]
    case EmptyObj(ws) => [123] + ws + [125]
    case Obj(members) => [123] + MembersText(members) + [125]
  }

  function ItemText(it: Item): seq<int> { it.pre + ValueText(it.v) + it.post }

  function ItemsText(items: Items): seq<int> {
    match items
    case OneItem(it) => ItemText(it)
    case MoreItems(init, it) => ItemsText(init) + [44] + ItemText(it)
  }

  function MemberText(mem: Member): seq<int> {
    mem.pre + Quoted(mem.key) + mem.mid + [58] + ItemText(mem.it)
  }

  function MembersText(members: Members): seq<int> {
    match members
    case OneMember(mem) => MemberText(mem)
    case MoreMembers(init, mem) => MembersText(init) + [44] + MemberText(mem)
  }

  /** How deep containers are nested in a value. */
  function Depth(v: Value): nat {
    match v
    case Arr(items) => 1 + ItemsDepth(items)
    case Obj(members) => 1 + MembersDepth(members)
    case EmptyArr(_) => 1
    case EmptyObj(_) => 1
    case _ => 0
  }

  function ItemsDepth(items: Items): nat {
    match items
    case OneItem(it) => Depth(it.v)
    case MoreItems(init, it) => Max(ItemsDepth(init), Depth(it.v))
  }

  function MembersDepth(members: Members): nat {
    match members
    case OneMember(mem) => Depth(mem.it.v)
    case MoreMembers(init, mem) => Max(MembersDepth(init), Depth(mem.it.v))
  }

  /** The events of an item, in pre-order. A number is reported with its spelling, and the
      blanks that follow it stay in that text. */
  function ItemEvents(it: Item): seq<Event> {
    match it.v
    case Str(ps) => [StringValue(PiecesBytes(ps))]
    case Num(n) => if IsFloat(n) then [FloatValue(NumberText(n) + it.post)] else [IntegerValue(NumberText(n) + it.post)]
    case True => [TrueValue]
    case False => [FalseValue]
    case Null => [NullValue]
    case EmptyArr(_) => [ArrayBegin, ArrayEnd]
    case Arr(items) => [ArrayBegin] + ItemsEvents(items) + [ArrayEnd]
    case EmptyObj(_) => [ObjectBegin, ObjectEnd]
    case Obj(members) => [ObjectBegin] + MembersEvents(members) + [ObjectEnd]
  }

  function ItemsEvents(items: Items): seq<Event> {
    match items
    case OneItem(it) => ItemEvents(it)
    case MoreItems(init, it) => ItemsEvents(init) + ItemEvents(it)
  }

  function MemberEvents(mem: Member): seq<Event> {
    [Key(PiecesBytes(mem.key))] + ItemEvents(mem.it)
  }

  function MembersEvents(members: Members): seq<Event> {
    match members
    case OneMember(mem) => MemberEvents(mem)
    case MoreMembers(init, mem) => MembersEvents(init) + MemberEvents(mem)
  }

  /** A whole text: one container with blanks around it. */
  predicate DocumentOk(it: Item, depth: nat) { ItemOk(it) && IsContainer(it.v) && Depth(it.v) <= depth }
}
