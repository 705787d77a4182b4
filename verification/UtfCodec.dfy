/** UTF-8 as section 3 of RFC 3629 defines it, and its inverse. */
module UtfCodec {
  import opened Optional

  /** Section 3 of RFC 3629. */
  function Utf8(cp: int): seq<int> {
    if cp < 0x80 then [cp]
    else if cp < 0x800 then [0xC0 + cp / 0x40, 0x80 + cp % 0x40]
    else if cp < 0x10000 then [0xE0 + cp / 0x1000, 0x80 + cp / 0x40 % 0x40, 0x80 + cp % 0x40]
    else [0xF0 + cp / 0x40000, 0x80 + cp / 0x1000 % 0x40, 0x80 + cp / 0x40 % 0x40, 0x80 + cp % 0x40]
  }

  predicate IsScalarValue(cp: int) { 0 <= cp <= 0x10FFFF && !(0xD800 <= cp < 0xE000) }

  predicate IsTrail(b: int) { 0x80 <= b < 0xC0 }

  /** The inverse of Utf8, refusing overlong forms and surrogates (section 3 of RFC 3629). */
  function Utf8Decode(b: seq<int>): Option<int> {
    if |b| == 1 && 0 <= b[0] < 0x80 then Some(b[0])
    else if |b| == 2 && 0xC2 <= b[0] < 0xE0 && IsTrail(b[1]) then
      Some((b[0] - 0xC0) * 0x40 + (b[1] - 0x80))
    else if |b| == 3 && 0xE0 <= b[0] < 0xF0 && IsTrail(b[1]) && IsTrail(b[2]) then
      var cp := (b[0] - 0xE0) * 0x1000 + (b[1] - 0x80) * 0x40 + (b[2] - 0x80);
      if cp >= 0x800 && IsScalarValue(cp) then Some(cp) else None
    else if |b| == 4 && 0xF0 <= b[0] < 0xF5 && IsTrail(b[1]) && IsTrail(b[2]) && IsTrail(b[3]) then
      var cp := (b[0] - 0xF0) * 0x40000 + (b[1] - 0x80) * 0x1000 + (b[2] - 0x80) * 0x40 + (b[3] - 0x80);
      if cp >= 0x10000 && IsScalarValue(cp) then Some(cp) else None
    else None
  }

  lemma SixBitDigits(cp: int)
    requires 0 <= cp <= 0x10FFFF
    ensures cp == cp / 0x40 * 0x40 + cp % 0x40
    ensures cp / 0x40 == cp / 0x1000 * 0x40 + cp / 0x40 % 0x40
    ensures cp / 0x1000 == cp / 0x40000 * 0x40 + cp / 0x1000 % 0x40
    ensures 0 <= cp / 0x40000 <= 4
  {
    assert cp / 0x1000 == cp / 0x40 / 0x40;
    assert cp / 0x40000 == cp / 0x1000 / 0x40;
  }

  lemma Utf8RoundTrip(cp: int)
    requires IsScalarValue(cp)
    ensures Utf8Decode(Utf8(cp)) == Some(cp)
    ensures forall i :: 0 <= i < |Utf8(cp)| ==> 0 <= Utf8(cp)[i] < 256
  {
    SixBitDigits(cp);
    var a, b, c, d := cp / 0x40000, cp / 0x1000 % 0x40, cp / 0x40 % 0x40, cp % 0x40;
    if cp < 0x80 {
    } else if cp < 0x800 {
      assert Utf8(cp) == [0xC0 + cp / 0x40, 0x80 + d];
    } else if cp < 0x10000 {
      assert Utf8(cp) == [0xE0 + cp / 0x1000, 0x80 + c, 0x80 + d];
    } else {
      assert Utf8(cp) == [0xF0 + a, 0x80 + b, 0x80 + c, 0x80 + d];
    }
  }
}
