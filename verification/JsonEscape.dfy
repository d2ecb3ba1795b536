/** \u escapes: hexadecimal digits, UTF-16 units, and their UTF-8 encoding written in place. */
module JsonEscape {
  import opened Bytes

  const QUOTE: byte := 0x22
  const BACKSLASH: byte := 0x5C
  const LETTER_U: byte := 0x75

  // ----- four hexadecimal digits

  predicate IsHex(c: byte) {
    0x30 <= c <= 0x39 || 0x41 <= c <= 0x46 || 0x61 <= c <= 0x66
  }

  function HexValue(c: byte): (v: nat)
    requires IsHex(c)
    ensures v < 16
  {
    if c <= 0x39 then c - 0x30 else if c <= 0x46 then 10 + c - 0x41 else 10 + c - 0x61
  }

  predicate HexDigits(c: bytes, at: nat)
    requires at + 4 <= |c|
  {
    forall i :: at <= i < at + 4 ==> IsHex(c[i])
  }

  /** The number four hex digits denote; 0 when one of the four bytes is no hex digit. */
  function Hex4(c: bytes, at: nat): (v: nat)
    requires at + 4 <= |c|
    ensures v < 0x10000
  {
    if HexDigits(c, at) then
      0x1000 * HexValue(c[at]) + 0x100 * HexValue(c[at + 1]) + 0x10 * HexValue(c[at + 2]) + HexValue(c[at + 3])
    else 0
  }

  function HexPrefix(c: bytes, at: nat, n: nat): nat
    requires at + n <= |c|
    requires forall j :: at <= j < at + n ==> IsHex(c[j])
  {
    if n == 0 then 0 else 16 * HexPrefix(c, at, n - 1) + HexValue(c[at + n - 1])
  }

  /** parse_hex4: one digit a turn, shifted left before the next. */
  method ParseHex4(c: bytes, at: nat) returns (h: nat)
    requires at + 4 <= |c|
    ensures h == Hex4(c, at)
  {
    h := 0;
    var i := 0;
    while i < 4
      invariant 0 <= i <= 4
      invariant forall j :: at <= j < at + i ==> IsHex(c[j])
      invariant h == HexPrefix(c, at, i) * (if i < 4 then 16 else 1)
    {
      var d := c[at + i];
      if 0x30 <= d <= 0x39 {
        h := h + d - 0x30;
      } else if 0x41 <= d <= 0x46 {
        h := h + 10 + d - 0x41;
      } else if 0x61 <= d <= 0x66 {
        h := h + 10 + d - 0x61;
      } else {
        return 0;
      }
      if i < 3 {
        h := h * 16;
      }
      i := i + 1;
    }
    assert HexDigits(c, at);
    assert HexPrefix(c, at, 2) == 16 * HexPrefix(c, at, 1) + HexValue(c[at + 1]);
  }

  // ----- UTF-16 literals

  /** Unicode scalar values: code points that are no surrogates. */
  predicate IsScalar(cp: int) {
    0 <= cp <= 0x10FFFF && !(0xD800 <= cp <= 0xDFFF)
  }

  /** The UTF-16 code units of a scalar value. */
  function Utf16(cp: nat): seq<nat>
    requires IsScalar(cp)
  {
    if cp < 0x10000 then [cp]
    else [0xD800 + (cp - 0x10000) / 0x400, 0xDC00 + (cp - 0x10000) % 0x400]
  }

  /** `\uXXXX` at `p`, lying before `end`, with value `unit`. */
  predicate UnitAt(c: bytes, p: nat, end: nat, unit: nat) {
    && p + 6 <= end <= |c|
    && c[p] == BACKSLASH && c[p + 1] == LETTER_U
    && HexDigits(c, p + 2) && Hex4(c, p + 2) == unit
  }

  /** What utf16_literal_to_utf8 reads at `p`: the code point and how many bytes it spans. */
  function Literal(c: bytes, p: nat, end: nat): (r: Option<(nat, nat)>)
    requires p <= end <= |c|
    ensures r.Some? ==> IsScalar(r.value.0) && (r.value.1 == 6 || r.value.1 == 12) && p + r.value.1 <= end
    ensures r.Some? ==> (r.value.1 == 12 <==> r.value.0 >= 0x10000)
  {
    if end - p < 6 then None
    else
      var first := Hex4(c, p + 2);
      if 0xDC00 <= first <= 0xDFFF then None
      else if 0xD800 <= first <= 0xDBFF then
        if end - (p + 6) < 6 then None
        else if c[p + 6] != BACKSLASH || c[p + 7] != LETTER_U then None
        else
          var second := Hex4(c, p + 8);
          if second < 0xDC00 || second > 0xDFFF then None
          else Some((0x10000 + first % 0x400 * 0x400 + second % 0x400, 12))
      else Some((first, 6))
  }

  ghost predicate Spells(c: bytes, p: nat, end: nat, units: seq<nat>) {
    forall i :: 0 <= i < |units| ==> UnitAt(c, p + 6 * i, end, units[i])
  }

  /** With hex digits after the first `\u`, the literal is read as scalar cp exactly when the text
      spells the UTF-16 units of cp: truncation and lone surrogates are what is rejected, nothing else. */
  lemma LiteralIsUtf16(c: bytes, p: nat, end: nat, cp: nat, len: nat)
    requires p + 2 <= end <= |c| && c[p] == BACKSLASH && c[p + 1] == LETTER_U
    requires p + 6 <= end ==> HexDigits(c, p + 2)
    ensures Literal(c, p, end) == Some((cp, len)) <==>
            IsScalar(cp) && Spells(c, p, end, Utf16(cp)) && len == 6 * |Utf16(cp)|
  {
    if p + 12 <= end {
      SurrogatePair(Hex4(c, p + 2), Hex4(c, p + 8), cp);
    }
    if IsScalar(cp) {
      SpellsUnfold(c, p, end, cp);
    }
  }

  lemma SpellsUnfold(c: bytes, p: nat, end: nat, cp: nat)
    requires IsScalar(cp)
    ensures Spells(c, p, end, Utf16(cp)) <==>
            UnitAt(c, p, end, Utf16(cp)[0]) && (cp >= 0x10000 ==> UnitAt(c, p + 6, end, Utf16(cp)[1]))
  {
    var units := Utf16(cp);
    if Spells(c, p, end, units) {
      assert UnitAt(c, p + 6 * 0, end, units[0]);
      if cp >= 0x10000 {
        assert UnitAt(c, p + 6 * 1, end, units[1]);
      }
    }
  }

  /** The arithmetic of combining two surrogates inverts the arithmetic of splitting. */
  lemma SurrogatePair(high: nat, low: nat, cp: nat)
    ensures 0xD800 <= high <= 0xDBFF && 0xDC00 <= low <= 0xDFFF ==>
              (0x10000 + high % 0x400 * 0x400 + low % 0x400 == cp <==> 0x10000 <= cp <= 0x10FFFF && Utf16(cp) == [high, low])
  {
    if 0xD800 <= high <= 0xDBFF && 0xDC00 <= low <= 0xDFFF {
      assert high % 0x400 == high - 0xD800 && low % 0x400 == low - 0xDC00;
      var sum := 0x10000 + (high - 0xD800) * 0x400 + (low - 0xDC00);
      assert (sum - 0x10000) / 0x400 == high - 0xD800 && (sum - 0x10000) % 0x400 == low - 0xDC00;
    }
  }

  /** When a digit is no hex digit the first unit counts as U+0000, and six bytes are consumed all the same. */
  lemma BadDigitsReadAsZero(c: bytes, p: nat, end: nat)
    requires p + 6 <= end <= |c| && !HexDigits(c, p + 2)
    ensures Literal(c, p, end) == Some((0, 6))
  {
  }

  // ----- UTF-8, RFC 3629 section 3

  function Utf8(cp: nat): (r: bytes)
    requires IsScalar(cp)
    ensures 1 <= |r| <= 4
  {
    if cp < 0x80 then [cp]
    else if cp < 0x800 then [0xC0 + cp / 0x40, Tail(cp)]
    else if cp < 0x10000 then [0xE0 + cp / 0x1000, Tail(cp / 0x40), Tail(cp)]
    else [0xF0 + cp / 0x40000, Tail(cp / 0x1000), Tail(cp / 0x40), Tail(cp)]
  }

  function Tail(cp: nat): byte {
    0x80 + cp % 0x40
  }

  predicate IsTail(b: byte) {
    0x80 <= b <= 0xBF
  }

  /** A strict decoder: one well-formed sequence, shortest form, no surrogates. */
  function DecodeUtf8(s: bytes): Option<nat> {
    var cp: int :=
      if |s| == 1 && s[0] < 0x80 then s[0] as int
      else if |s| == 2 && 0xC2 <= s[0] <= 0xDF && IsTail(s[1]) then (s[0] as int - 0xC0) * 0x40 + (s[1] as int - 0x80)
      else if |s| == 3 && 0xE0 <= s[0] <= 0xEF && IsTail(s[1]) && IsTail(s[2]) then
        (s[0] as int - 0xE0) * 0x1000 + (s[1] as int - 0x80) * 0x40 + (s[2] as int - 0x80)
      else if |s| == 4 && 0xF0 <= s[0] <= 0xF4 && IsTail(s[1]) && IsTail(s[2]) && IsTail(s[3]) then
        (s[0] as int - 0xF0) * 0x40000 + (s[1] as int - 0x80) * 0x1000 + (s[2] as int - 0x80) * 0x40 + (s[3] as int - 0x80)
      else -1;
    if IsScalar(cp) && (|s| == 3 ==> cp >= 0x800) && (|s| == 4 ==> cp >= 0x10000) then Some(cp) else None
  }

  lemma Utf8RoundTrip(cp: nat)
    requires IsScalar(cp)
    ensures DecodeUtf8(Utf8(cp)) == Some(cp)
  {
    Recompose(cp);
  }

  lemma Recompose(cp: nat)
    ensures cp == cp / 0x40 * 0x40 + cp % 0x40
    ensures cp == cp / 0x1000 * 0x1000 + cp / 0x40 % 0x40 * 0x40 + cp % 0x40
    ensures cp == cp / 0x40000 * 0x40000 + cp / 0x1000 % 0x40 * 0x1000 + cp / 0x40 % 0x40 * 0x40 + cp % 0x40
    ensures cp < 0x110000 ==> cp / 0x40000 <= 4
  {
    assert cp / 0x1000 == cp / 0x40 / 0x40;
    assert cp / 0x40000 == cp / 0x1000 / 0x40;
  }

  lemma Utf8Decodes(s: bytes, cp: nat)
    requires DecodeUtf8(s) == Some(cp)
    ensures Utf8(cp) == s
  {
    if |s| == 2 {
      Split(0, 0, s[0] - 0xC0, s[1] - 0x80);
    } else if |s| == 3 {
      Split(0, s[0] - 0xE0, s[1] - 0x80, s[2] - 0x80);
    } else if |s| == 4 {
      Split(s[0] - 0xF0, s[1] - 0x80, s[2] - 0x80, s[3] - 0x80);
    }
  }

  lemma Split(a: nat, b: nat, c: nat, d: nat)
    requires b < 0x40 && c < 0x40 && d < 0x40
    ensures var n := a * 0x40000 + b * 0x1000 + c * 0x40 + d;
            && n % 0x40 == d && n / 0x40 % 0x40 == c && n / 0x40 == a * 0x1000 + b * 0x40 + c
            && n / 0x1000 % 0x40 == b && n / 0x1000 == a * 0x40 + b && n / 0x40000 == a
  {
    var n := a * 0x40000 + b * 0x1000 + c * 0x40 + d;
    assert n / 0x40 == a * 0x1000 + b * 0x40 + c;
    assert n / 0x1000 == a * 0x40 + b;
  }

  /** `(unsigned char)((codepoint | 0x80) & 0xBF)`: only the low byte of the code point matters. */
  method ContinuationByte(cp: nat) returns (r: byte)
    ensures r == Tail(cp)
  {
    r := SixLowBits(cp % 256);
    assert cp == 256 * (cp / 256) + cp % 256;
  }

  method SixLowBits(b: byte) returns (r: byte)
    ensures r == if b < 0x40 then 0x80 + b else if b < 0x80 then 0x40 + b else if b < 0xC0 then b else b - 0x40
  {
    r := ((b as bv8 | 0x80) & 0xBF) as int;
    assert b < 0x40 ==> r == 0x80 + b;
    assert 0x40 <= b < 0x80 ==> r == 0x40 + b;
    assert 0x80 <= b < 0xC0 ==> r == b;
    assert 0xC0 <= b ==> r == b - 0x40;
  }

  /** `(unsigned char)((codepoint | mark) & 0xFF)` */
  method LeadByte(cp: nat, mark: byte) returns (r: byte)
    requires (mark == 0xC0 && cp < 0x20) || (mark == 0xE0 && cp < 0x10) || (mark == 0xF0 && cp < 0x08)
    ensures r == mark + cp
  {
    r := ((cp as bv8) | (mark as bv8)) as int;
  }

  function Shifted(cp: nat, k: nat): nat {
    if k == 0 then cp else Shifted(cp, k - 1) / 0x40
  }

  /** How far the code point is shifted before its first byte is written, and that byte's mark. */
  function Utf8Length(cp: nat): nat {
    if cp < 0x80 then 1 else if cp < 0x800 then 2 else if cp < 0x10000 then 3 else 4
  }

  function Utf8Mark(cp: nat): byte {
    if cp < 0x80 then 0 else if cp < 0x800 then 0xC0 else if cp < 0x10000 then 0xE0 else 0xF0
  }

  /** Repeated shifts by six bits produce the RFC's encoding, byte by byte. */
  lemma Utf8ByShifts(cp: nat, s: bytes)
    requires IsScalar(cp)
    requires |s| == Utf8Length(cp)
    requires forall i :: 1 <= i < |s| ==> s[i] == Tail(Shifted(cp, |s| - 1 - i))
    requires s[0] == Utf8Mark(cp) + Shifted(cp, |s| - 1)
    ensures s == Utf8(cp)
  {
    ShiftedValues(cp);
  }

  lemma ShiftedValues(cp: nat)
    ensures Shifted(cp, 0) == cp && Shifted(cp, 1) == cp / 0x40
    ensures Shifted(cp, 2) == cp / 0x1000 && Shifted(cp, 3) == cp / 0x40000
  {
  }

  /** utf16_literal_to_utf8: writes the encoding at out[w..], last byte first, and returns the
      bytes consumed (0 for failure) and the advanced output position. */
  method Utf16LiteralToUtf8(c: bytes, p: nat, end: nat, out: array<byte>, w: nat) returns (len: nat, w': nat)
    requires p <= end <= |c|
    requires w <= out.Length
    requires Literal(c, p, end).Some? ==> w + |Utf8(Literal(c, p, end).value.0)| <= out.Length
    modifies out
    ensures Literal(c, p, end).None? ==> len == 0 && w' == w && out[..] == old(out[..])
    ensures Literal(c, p, end).Some? ==>
              && len == Literal(c, p, end).value.1
              && w' == w + |Utf8(Literal(c, p, end).value.0)|
              && out[..w'] == old(out[..w]) + Utf8(Literal(c, p, end).value.0)
              && out[w'..] == old(out[w'..])
  {
    len, w' := 0, w;
    if end - p < 6 {
      return;
    }
    var first := ParseHex4(c, p + 2);
    if 0xDC00 <= first <= 0xDFFF {
      return;
    }
    var codepoint: nat;
    var span;
    if 0xD800 <= first <= 0xDBFF {
      span := 12;
      if end - (p + 6) < 6 || c[p + 6] != BACKSLASH || c[p + 7] != LETTER_U {
        return;
      }
      var second := ParseHex4(c, p + 8);
      if second < 0xDC00 || second > 0xDFFF {
        return;
      }
      codepoint := 0x10000 + first % 0x400 * 0x400 + second % 0x400;
    } else {
      span := 6;
      codepoint := first;
    }
    assert Literal(c, p, end) == Some((codepoint, span));
    w' := EncodeUtf8(codepoint, out, w);
    len := span;
  }

  method EncodeUtf8(cp: nat, out: array<byte>, w: nat) returns (w': nat)
    requires IsScalar(cp)
    requires w + |Utf8(cp)| <= out.Length
    modifies out
    ensures w' == w + |Utf8(cp)|
    ensures out[..w'] == old(out[..w]) + Utf8(cp)
    ensures out[w'..] == old(out[w'..])
  {
    var length, mark: byte := 1, 0;
    if cp < 0x80 {
    } else if cp < 0x800 {
      length, mark := 2, 0xC0;
    } else if cp < 0x10000 {
      length, mark := 3, 0xE0;
    } else {
      length, mark := 4, 0xF0;
    }
    assert length == Utf8Length(cp) == |Utf8(cp)| && mark == Utf8Mark(cp);
    var codepoint := EncodeTail(cp, length, out, w);
    ShiftedValues(cp);
    if length > 1 {
      var b := LeadByte(codepoint, mark);
      out[w] := b;
    } else {
      out[w] := codepoint;
    }
    w' := w + length;
    Utf8ByShifts(cp, out[w..w']);
    assert out[..w'] == out[..w] + out[w..w'];
    assert out[..w] == old(out[..w]);
  }

  /** The loop that fills all but the first byte, from the back. */
  method EncodeTail(cp: nat, length: nat, out: array<byte>, w: nat) returns (codepoint: nat)
    requires 1 <= length && w + length <= out.Length
    modifies out
    ensures codepoint == Shifted(cp, length - 1)
    ensures forall i :: w < i < w + length ==> out[i] == Tail(Shifted(cp, length - 1 - (i - w)))
    ensures forall i :: 0 <= i < w || w + length <= i < out.Length ==> out[i] == old(out[i])
  {
    codepoint := cp;
    var position := length - 1;
    while position > 0
      invariant 0 <= position < length
      invariant codepoint == Shifted(cp, length - 1 - position)
      invariant forall i :: w + position < i < w + length ==> out[i] == Tail(Shifted(cp, length - 1 - (i - w)))
      invariant forall i :: 0 <= i < w || w + length <= i < out.Length ==> out[i] == old(out[i])
    {
      var b := ContinuationByte(codepoint);
      out[w + position] := b;
      codepoint := codepoint / 0x40;
      position := position - 1;
    }
  }
}
