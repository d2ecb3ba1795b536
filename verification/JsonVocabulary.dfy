/** The characters, escapes, limits and layout of JSON texts written out, for the parser and the printer. */
module JsonVocabulary {
  import opened Bytes
  import opened JsonTree
  import opened JsonEscape
  import opened JsonParser
  import opened JsonGrammar
  import C = JsonCompare
  import P = JsonPrinter

  // ----- characters

  lemma Tokens()
    ensures NULL_TEXT == Ascii("null") && TRUE_TEXT == Ascii("true") && FALSE_TEXT == Ascii("false")
    ensures [OPEN_ARRAY, CLOSE_ARRAY, OPEN_OBJECT, CLOSE_OBJECT, COMMA, COLON, QUOTE, BACKSLASH, MINUS] == Ascii("[]{},:\"\\-")
    ensures NESTING_LIMIT == 1000 && CIRCULAR_LIMIT == 10000
  {
  }

  const NUMBER_BYTES: string := "0123456789+-eE."

  /** What can stand in a number. */
  lemma NumberBytes(c: byte)
    ensures IsNumberByte(c) <==> c in Ascii(NUMBER_BYTES)
  {
    var s := Ascii(NUMBER_BYTES);
    assert s == [0x30, 0x31, 0x32, 0x33, 0x34, 0x35, 0x36, 0x37, 0x38, 0x39, 0x2B, 0x2D, 0x65, 0x45, 0x2E];
  }

  lemma SmallDigits()
    ensures Ascii("0123456789abcdef")
         == [0x30, 0x31, 0x32, 0x33, 0x34, 0x35, 0x36, 0x37, 0x38, 0x39, 0x61, 0x62, 0x63, 0x64, 0x65, 0x66]
  {
  }

  lemma CapitalDigits()
    ensures Ascii("0123456789ABCDEF")
         == [0x30, 0x31, 0x32, 0x33, 0x34, 0x35, 0x36, 0x37, 0x38, 0x39, 0x41, 0x42, 0x43, 0x44, 0x45, 0x46]
  {
  }

  /** Hexadecimal digits in both cases. */
  lemma HexDigitValues(v: nat)
    requires v < 16
    ensures IsHex(Ascii("0123456789abcdef")[v]) && HexValue(Ascii("0123456789abcdef")[v]) == v
    ensures IsHex(Ascii("0123456789ABCDEF")[v]) && HexValue(Ascii("0123456789ABCDEF")[v]) == v
  {
    SmallDigits();
    CapitalDigits();
    hide Ascii;
  }

  /** There are no others. */
  lemma OnlyHexDigits(c: byte)
    requires IsHex(c)
    ensures c == Ascii("0123456789abcdef")[HexValue(c)] || c == Ascii("0123456789ABCDEF")[HexValue(c)]
  {
    HexDigitValues(HexValue(c));
  }

  /** Four of them make a number, the first the most significant. */
  lemma FourDigits(c: bytes, at: nat, a: nat, b: nat, d: nat, e: nat)
    requires at + 4 <= |c| && a < 16 && b < 16 && d < 16 && e < 16
    requires c[at] == Ascii("0123456789abcdef")[a] && c[at + 1] == Ascii("0123456789abcdef")[b]
    requires c[at + 2] == Ascii("0123456789abcdef")[d] && c[at + 3] == Ascii("0123456789abcdef")[e]
    ensures Hex4(c, at) == 4096 * a + 256 * b + 16 * d + e
  {
    HexDigitValues(a);
    HexDigitValues(b);
    HexDigitValues(d);
    HexDigitValues(e);
    hide Ascii;
  }

  /** A surrogate pair, as RFC 8259 section 7 has it for U+1D11E. */
  lemma SurrogatePair(high: nat, low: nat)
    requires 0xD800 <= high <= 0xDBFF && 0xDC00 <= low <= 0xDFFF
    ensures var cp := 0x10000 + 1024 * (high - 0xD800) + (low - 0xDC00); IsScalar(cp) && Utf16(cp) == [high, low]
    ensures Utf16(0x1D11E) == [0xD834, 0xDD1E]
  {
  }

  /** The eight one-letter escapes and the bytes they stand for. */
  const LETTERS: string := "\"\\/bfnrt"
  const MEANINGS: bytes := [0x22, 0x5C, 0x2F, 8, 12, 10, 13, 9]

  lemma LettersRead(i: nat)
    requires i < 8
    ensures Unescaped(Ascii(LETTERS)[i]) == Some(MEANINGS[i])
  {
    assert Ascii(LETTERS) == [0x22, 0x5C, 0x2F, 0x62, 0x66, 0x6E, 0x72, 0x74];
  }

  lemma OnlyLettersRead(c: byte)
    ensures Unescaped(c).Some? <==> c in Ascii(LETTERS)
  {
    assert Ascii(LETTERS) == [0x22, 0x5C, 0x2F, 0x62, 0x66, 0x6E, 0x72, 0x74];
  }

  /** The printer writes all of these but the slash; other control characters as \u00 and two digits, the rest as is. */
  lemma LettersPrinted(i: nat)
    requires i < 8
    ensures P.EscapeByte(MEANINGS[i]) == if i == 2 then Ascii("/") else [0x5C, Ascii(LETTERS)[i]]
  {
    assert Ascii(LETTERS) == [0x22, 0x5C, 0x2F, 0x62, 0x66, 0x6E, 0x72, 0x74];
  }

  lemma OthersPrinted(b: byte)
    requires b != 0 && b !in MEANINGS
    ensures P.EscapeByte(b)
         == if b >= 32 then [b] else Ascii("\\u00") + [Ascii("0123456789abcdef")[b / 16], Ascii("0123456789abcdef")[b % 16]]
  {
    assert Ascii("\\u00") == [0x5C, 0x75, 0x30, 0x30];
    assert MEANINGS[0] == 0x22 && MEANINGS[1] == 0x5C && MEANINGS[3] == 8 && MEANINGS[4] == 12 && MEANINGS[5] == 10;
    assert MEANINGS[6] == 13 && MEANINGS[7] == 9;
    SmallDigits();
    hide Ascii;
  }

  /** Lookups that ignore case take the capitals of ASCII for the small letters, and nothing else. */
  lemma CapitalsLowered(c: byte)
    ensures 0x41 <= c <= 0x5A ==> C.Lower(c) == Ascii("abcdefghijklmnopqrstuvwxyz")[c - 0x41]
    ensures !(0x41 <= c <= 0x5A) ==> C.Lower(c) == c
  {
  }

  /** Numbers are equal up to 2^-52 of the larger one. */
  lemma Precision()
    ensures C.DBL_EPSILON * (0x10_0000_0000_0000 as real) == 1.0
  {
  }

  /** Values without items: numbers up to that precision, texts byte for byte, and never one kind with another. */
  lemma ScalarsCompared(x: real, y: real, s: cstring, u: cstring, caseSensitive: bool)
    ensures C.Same(Number(x), Number(y), caseSensitive)
       <==> Abs(x - y) * (0x10_0000_0000_0000 as real) <= (if Abs(x) > Abs(y) then Abs(x) else Abs(y))
    ensures C.Same(String(s), String(u), caseSensitive) <==> s == u
    ensures C.Same(Raw(s), Raw(u), caseSensitive) <==> s == u
    ensures !C.Same(String(s), Raw(u), caseSensitive) && !C.Same(Number(x), String(s), caseSensitive)
    ensures C.Same(Null, Null, caseSensitive) && C.Same(Bool(true), Bool(true), caseSensitive)
    ensures !C.Same(Bool(true), Bool(false), caseSensitive) && !C.Same(Null, Bool(false), caseSensitive)
  {
    var p := 0x10_0000_0000_0000 as real;
    var m := if C.Abs(x) > C.Abs(y) then C.Abs(x) else C.Abs(y);
    assert C.Abs(x) == Abs(x) && C.Abs(y) == Abs(y) && C.Abs(x - y) == Abs(x - y);
    assert m * C.DBL_EPSILON * p == m;
  }

  function Abs(d: real): real {
    if d < 0.0 then -d else d
  }

  // ----- where parsing gives up

  lemma PieceFirst(c: bytes, p: nat, x: Piece, end: nat)
    requires PieceOk(x) && At(c, p, PieceText(x)) && p + |PieceText(x)| <= end < |c|
    ensures Unescape(c, p, end) == Prepend(PieceValue(x), Unescape(c, p + |PieceText(x)|, end))
  {
    PieceUnescaped(c, p, x, end);
    hide EscapeAt, At, PieceText, PieceValue, PieceOk;
  }

  lemma {:induction false} PiecesFirst(c: bytes, p: nat, xs: seq<Piece>, end: nat)
    requires PiecesOk(xs) && At(c, p, PiecesText(xs)) && p + |PiecesText(xs)| <= end < |c|
    ensures Unescape(c, p, end) == Prepend(PiecesValue(xs), Unescape(c, p + |PiecesText(xs)|, end))
    decreases xs
  {
    hide *;
    var rest := Unescape(c, p + |PiecesText(xs)|, end);
    PiecesUnfolded(xs);
    if xs == [] {
      PrependPrepend([], [], rest);
    } else {
      var x, more := xs[0], xs[1..];
      AtSplit(c, p, PieceText(x), PiecesText(more));
      PieceFirst(c, p, x, end);
      PiecesFirst(c, p + |PieceText(x)|, more, end);
      PrependPrepend(PieceValue(x), PiecesValue(more), rest);
    }
  }

  lemma PiecesUnfolded(xs: seq<Piece>)
    requires PiecesOk(xs)
    ensures xs == [] ==> PiecesText(xs) == [] && PiecesValue(xs) == []
    ensures xs != [] ==>
              && PieceOk(xs[0]) && PiecesOk(xs[1..]) && PiecesText(xs) == PieceText(xs[0]) + PiecesText(xs[1..])
              && PiecesValue(xs) == PieceValue(xs[0]) + PiecesValue(xs[1..])
  {
    hide PieceOk, PieceText, PieceValue;
  }

  /** Behind an opening quote stand pieces, then a backslash with a letter behind it that is none of an escape. */
  ghost predicate BadEscape(c: bytes, o: nat, xs: seq<Piece>, end: nat) {
    var p := o + 1 + |PiecesText(xs)|;
    && p < end < |c| && c[o] == QUOTE && StringEnd(c, o + 1) == Some(end) && PiecesOk(xs) && At(c, o + 1, PiecesText(xs))
    && c[p] == BACKSLASH && c[p + 1] != LETTER_U && c[p + 1] !in Ascii(LETTERS)
  }

  /** A string is refused at the first such backslash. */
  lemma EscapeRefused(c: bytes, o: nat, xs: seq<Piece>, end: nat)
    requires BadEscape(c, o, xs, end)
    ensures StringAt(c, o) == Bad(o + 1 + |PiecesText(xs)|)
  {
    var p := o + 1 + |PiecesText(xs)|;
    OnlyLettersRead(c[p + 1]);
    assert Unescape(c, p, end) == Bad(p);
    hide Unescape, StringEnd, At, Ascii, PieceOk, PiecesText, PiecesValue, PiecesOk;
    PiecesFirst(c, o + 1, xs, end);
    assert Unescape(c, o + 1, end) == Bad(p);
  }

  /** It is refused behind the opening quote if nothing closes it. */
  lemma OpenStringRefused(c: bytes, o: nat)
    requires o < |c| && c[o] == 0x22 && StringEnd(c, o + 1) == None
    ensures StringAt(c, o) == Bad(o + 1)
  {
  }

  const VALUE_STARTS: string := "\"-0123456789[{"

  lemma StartsOfValues(b: byte)
    requires b !in Ascii(VALUE_STARTS)
    ensures b != QUOTE && b != MINUS && !IsDigit(b) && b != OPEN_ARRAY && b != OPEN_OBJECT
  {
    var s := Ascii(VALUE_STARTS);
    assert s == [0x22, 0x2D, 0x30, 0x31, 0x32, 0x33, 0x34, 0x35, 0x36, 0x37, 0x38, 0x39, 0x5B, 0x7B];
  }

  /** A value is refused at its first byte if none begins with that, */
  lemma ValueRefused(c: bytes, o: nat, depth: nat, strtod: Strtod)
    requires o < |c| && depth <= 1000 && c[o] !in Ascii(VALUE_STARTS)
    requires !At(c, o, Ascii("null")) && !At(c, o, Ascii("true")) && !At(c, o, Ascii("false"))
    ensures ValueAt(c, o, depth, strtod) == Bad(o)
  {
    Tokens();
    hide StringAt, NumberAt, At, ArrayAt, ObjectAt, Ascii;
    StartsOfValues(c[o]);
  }

  /** and if it is the 1001st container. */
  lemma ContainerRefused(c: bytes, o: nat, strtod: Strtod)
    requires o < |c| && (c[o] == 0x5B || c[o] == 0x7B)
    ensures ValueAt(c, o, 1000, strtod) == Bad(o)
  {
    FirstByte(c, o);
    hide StringAt, NumberAt, At, ItemsAt, MembersAt;
  }

  lemma FirstByte(c: bytes, o: nat)
    requires o < |c| && (c[o] == 0x5B || c[o] == 0x7B)
    ensures !At(c, o, NULL_TEXT) && !At(c, o, TRUE_TEXT) && !At(c, o, FALSE_TEXT)
  {
    assert forall text: bytes :: |text| > 0 && At(c, o, text) ==> c[o..o + |text|][0] == text[0];
  }

  // ----- layout

  function Join(parts: seq<bytes>, separator: bytes): bytes {
    if parts == [] then [] else if |parts| == 1 then parts[0] else parts[0] + (separator + Join(parts[1..], separator))
  }

  function ItemParts(items: seq<Json>, format: bool, depth: nat, realText: P.RealText): (r: seq<bytes>)
    ensures |r| == |items|
  {
    seq(|items|, i requires 0 <= i < |items| => P.Render(items[i], format, depth, realText))
  }

  /** An array is its items with commas between them, and spaces if formatted. */
  lemma ArrayPrinted(items: seq<Json>, format: bool, depth: nat, realText: P.RealText)
    ensures P.Render(Array(items), format, depth, realText)
         == Ascii("[") + Join(ItemParts(items, format, depth + 1, realText), Ascii(if format then ", " else ",")) + Ascii("]")
  {
    assert Ascii("[") == [0x5B] && Ascii("]") == [0x5D];
    ItemsJoined(items, format, depth + 1, realText);
  }

  lemma {:induction false} ItemsJoined(items: seq<Json>, format: bool, depth: nat, realText: P.RealText)
    ensures P.RenderItems(items, format, depth, realText)
         == Join(ItemParts(items, format, depth, realText), Ascii(if format then ", " else ","))
  {
    var parts := ItemParts(items, format, depth, realText);
    assert Ascii(", ") == [0x2C, 0x20] && Ascii(",") == [0x2C];
    if |items| > 1 {
      ItemsJoined(items[1..], format, depth, realText);
      hide P.Render;
      assert parts[1..] == ItemParts(items[1..], format, depth, realText);
    }
  }

  /** A member on one line of its own, indented by tabs, when formatted. */
  function MemberPart(m: Member, format: bool, depth: nat, realText: P.RealText): bytes {
    if format then seq(depth, _ => 9) + (P.RenderString(m.name) + (Ascii(":\t") + P.Render(m.value, true, depth, realText)))
    else P.RenderString(m.name) + (Ascii(":") + P.Render(m.value, false, depth, realText))
  }

  function MemberParts(members: seq<Member>, format: bool, depth: nat, realText: P.RealText): (r: seq<bytes>)
    ensures |r| == |members|
  {
    seq(|members|, i requires 0 <= i < |members| => MemberPart(members[i], format, depth, realText))
  }

  /** An object is its members with commas between them; formatted, its braces close a block of lines. */
  lemma ObjectPrinted(members: seq<Member>, depth: nat, realText: P.RealText)
    ensures P.Render(Object(members), false, depth, realText)
         == Ascii("{") + Join(MemberParts(members, false, depth + 1, realText), Ascii(",")) + Ascii("}")
    ensures P.Render(Object(members), true, depth, realText)
         == Ascii("{\n") + (Join(MemberParts(members, true, depth + 1, realText), Ascii(",\n"))
                            + (if members == [] then [] else Ascii("\n"))) + (seq(depth, _ => 9) + Ascii("}"))
  {
    assert Ascii("{") == [0x7B] && Ascii("}") == [0x7D] && Ascii("{\n") == [0x7B, 0x0A] && Ascii("\n") == [0x0A];
    assert P.Tabs(depth) == seq(depth, _ => 9);
    hide P.RenderMembers, Join, MemberParts, Ascii;
    MembersJoined(members, false, depth + 1, realText);
    MembersJoined(members, true, depth + 1, realText);
  }

  lemma {:induction false} MembersJoined(members: seq<Member>, format: bool, depth: nat, realText: P.RealText)
    ensures P.RenderMembers(members, format, depth, realText)
         == Join(MemberParts(members, format, depth, realText), Ascii(if format then ",\n" else ","))
            + (if members != [] && format then Ascii("\n") else [])
  {
    var parts := MemberParts(members, format, depth, realText);
    if members != [] {
      var last, m := |members| == 1, members[0];
      var sep := Ascii(if format then ",\n" else ",");
      var rest := P.RenderMembers(members[1..], format, depth, realText);
      var tail := if !last && format then Ascii("\n") else [];
      assert P.RenderMembers(members, format, depth, realText)
          == P.KeyText(m.name, format, depth) + (P.Render(m.value, format, depth, realText) + (P.MemberEnd(last, format) + rest));
      MemberText(m, format, depth, realText);
      MemberEnds(last, format);
      MembersJoined(members[1..], format, depth, realText);
      assert parts[1..] == MemberParts(members[1..], format, depth, realText);
      assert last ==> rest == [];
      assert parts[0] == MemberPart(m, format, depth, realText);
      hide P.Render, P.RenderMembers, P.KeyText, P.MemberEnd, MemberPart, Ascii, MemberParts;
      Assembled(P.KeyText(m.name, format, depth), P.Render(m.value, format, depth, realText), P.MemberEnd(last, format), rest,
                parts, sep, tail);
    }
  }

  lemma MemberEnds(last: bool, format: bool)
    ensures P.MemberEnd(last, format) == (if last then (if format then Ascii("\n") else []) else Ascii(if format then ",\n" else ","))
  {
    assert Ascii(",\n") == [0x2C, 0x0A] && Ascii(",") == [0x2C] && Ascii("\n") == [0x0A];
  }

  lemma Assembled(key: bytes, value: bytes, end: bytes, rest: bytes, parts: seq<bytes>, separator: bytes, tail: bytes)
    requires parts != [] && key + value == parts[0]
    requires if |parts| == 1 then rest == [] else end == separator && rest == Join(parts[1..], separator) + tail
    ensures key + (value + (end + rest)) == Join(parts, separator) + (if |parts| == 1 then end else tail)
  {
    assert key + (value + (end + rest)) == parts[0] + (end + rest);
    if |parts| > 1 {
      assert parts[0] + (separator + (Join(parts[1..], separator) + tail))
          == parts[0] + (separator + Join(parts[1..], separator)) + tail;
    } else {
      assert end + rest == end;
    }
  }

  lemma MemberText(m: Member, format: bool, depth: nat, realText: P.RealText)
    ensures P.KeyText(m.name, format, depth) + P.Render(m.value, format, depth, realText)
         == MemberPart(m, format, depth, realText)
  {
    assert Ascii(":\t") == [0x3A, 9] && Ascii(":") == [0x3A];
    hide P.Render, P.RenderString, Ascii;
    assert P.Tabs(depth) == seq(depth, _ => 9);
  }
}
