/** The texts the parser accepts and what they mean: those RFC 8259 derives, and what it leaves open or
    forbids but the parser takes. The parser reads every one of them as what it means. */
module JsonGrammar {
  import opened Bytes
  import opened JsonTree
  import opened JsonEscape
  import opened JsonParser

  // ----- strings

  /** One character of a string literal: itself, a one-letter escape, or a \u escape (two of them
      for a scalar outside the basic plane). */
  datatype Piece = Plain(b: byte) | Short(c: byte) | Unicode(cp: nat, text: bytes)

  ghost predicate PieceOk(x: Piece) {
    match x
    case Plain(b) => b != QUOTE && b != BACKSLASH
    case Short(c) => Unescaped(c).Some?
    case Unicode(cp, text) => IsScalar(cp) && |text| == 6 * |Utf16(cp)| && Spells(text, 0, |text|, Utf16(cp))
  }

  function PieceText(x: Piece): (r: bytes)
    ensures !x.Unicode? ==> |r| > 0
  {
    match x
    case Plain(b) => [b]
    case Short(c) => [BACKSLASH, c]
    case Unicode(_, text) => text
  }

  function PieceValue(x: Piece): bytes
  {
    match x
    case Plain(b) => [b]
    case Short(c) => (match Unescaped(c) case Some(b) => [b] case None => [])
    case Unicode(cp, _) => if IsScalar(cp) then Utf8(cp) else []
  }

  ghost predicate PiecesOk(xs: seq<Piece>) {
    forall i :: 0 <= i < |xs| ==> PieceOk(xs[i])
  }

  function PiecesText(xs: seq<Piece>): bytes {
    if xs == [] then [] else PieceText(xs[0]) + PiecesText(xs[1..])
  }

  function PiecesValue(xs: seq<Piece>): bytes {
    if xs == [] then [] else PieceValue(xs[0]) + PiecesValue(xs[1..])
  }

  /** What stands between two quotes, and the C string that the parser makes of it. */
  datatype Quoted = Quoted(body: bytes, s: cstring)

  /** The body ends at the closing quote and its escapes can be decoded. */
  predicate QuotedOk(q: Quoted) {
    var c := q.body + [QUOTE];
    && StringEnd(c, 0) == Some(|q.body|)
    && Unescape(c, 0, |q.body|).Ok? && CString(Unescape(c, 0, |q.body|).value) == q.s
  }

  function OfPieces(xs: seq<Piece>): Quoted {
    Quoted(PiecesText(xs), CString(PiecesValue(xs)))
  }

  // ----- texts

  /** The text of a number, which strtod has to read whole. */
  type NumberText = s: bytes | IsNumber(s) witness [0x30]

  predicate IsNumber(s: bytes) {
    0 < |s| <= 63 && (s[0] == MINUS || IsDigit(s[0])) && forall i :: 0 <= i < |s| ==> IsNumberByte(s[i])
  }

  datatype Text =
    | TNull
    | TBool(b: bool)
    | TNumber(text: NumberText, d: real)
    | TString(q: Quoted)
    | TArray(ws: bytes, items: seq<TextItem>)
    | TObject(ws: bytes, members: seq<TextMember>)

  datatype TextItem = TextItem(before: bytes, value: Text, after: bytes)

  datatype TextMember = TextMember(before: bytes, name: Quoted, ws0: bytes, ws1: bytes, value: Text, after: bytes)

  predicate IsWs(s: bytes) {
    forall i :: 0 <= i < |s| ==> s[i] <= 32
  }

  predicate WellFormed(t: Text, strtod: Strtod)
    decreases t
  {
    match t
    case TNumber(text, d) => strtod(text) == (|text|, d)
    case TString(q) => QuotedOk(q)
    case TArray(ws, items) => IsWs(ws) && ItemsOk(items, strtod)
    case TObject(ws, members) => IsWs(ws) && MembersOk(members, strtod)
    case _ => true
  }

  predicate ItemsOk(items: seq<TextItem>, strtod: Strtod)
    decreases items
  {
    items == [] ||
    (IsWs(items[0].before) && IsWs(items[0].after) && WellFormed(items[0].value, strtod) && ItemsOk(items[1..], strtod))
  }

  predicate MembersOk(members: seq<TextMember>, strtod: Strtod)
    decreases members
  {
    members == [] || (MemberOk(members[0], strtod) && MembersOk(members[1..], strtod))
  }

  predicate MemberOk(m: TextMember, strtod: Strtod)
    decreases m
  {
    && IsWs(m.before) && IsWs(m.ws0) && IsWs(m.ws1) && IsWs(m.after)
    && QuotedOk(m.name) && WellFormed(m.value, strtod)
  }

  function StringText(q: Quoted): (r: bytes)
    ensures |r| >= 2 && r[0] == QUOTE
  {
    [QUOTE] + (q.body + [QUOTE])
  }

  /** The bytes of a text. */
  function Spelling(t: Text): (r: bytes)
    ensures |r| > 0 && r[0] > 32 && r[0] != CLOSE_ARRAY && r[0] != CLOSE_OBJECT
    decreases t
  {
    match t
    case TNull => NULL_TEXT
    case TBool(b) => if b then TRUE_TEXT else FALSE_TEXT
    case TNumber(text, _) => text
    case TString(q) => StringText(q)
    case TArray(ws, items) => [OPEN_ARRAY] + (if items == [] then ws + [CLOSE_ARRAY] else items[0].before + ItemsSpelling(items))
    case TObject(ws, members) => [OPEN_OBJECT] + (if members == [] then ws + [CLOSE_OBJECT] else members[0].before + MembersSpelling(members))
  }

  /** From the first byte of the first value to the closing bracket. */
  function ItemsSpelling(items: seq<TextItem>): (r: bytes)
    requires items != []
    ensures |r| > 0 && r[0] > 32 && r[0] != CLOSE_ARRAY
    decreases items
  {
    Spelling(items[0].value) + (items[0].after +
    (if |items| == 1 then [CLOSE_ARRAY] else [COMMA] + (items[1].before + ItemsSpelling(items[1..]))))
  }

  function MembersSpelling(members: seq<TextMember>): (r: bytes)
    requires members != []
    ensures |r| > 0 && r[0] == QUOTE
    decreases members
  {
    StringText(members[0].name) + (members[0].ws0 + ([COLON] + (members[0].ws1 +
    (Spelling(members[0].value) + (members[0].after +
    (if |members| == 1 then [CLOSE_OBJECT] else [COMMA] + (members[1].before + MembersSpelling(members[1..]))))))))
  }

  /** The tree a text denotes. */
  function Meaning(t: Text): Json
    decreases t
  {
    match t
    case TNull => Null
    case TBool(b) => Bool(b)
    case TNumber(_, d) => Number(d)
    case TString(q) => String(q.s)
    case TArray(_, items) => Array(ItemsMeaning(items))
    case TObject(_, members) => Object(MembersMeaning(members))
  }

  function ItemsMeaning(items: seq<TextItem>): seq<Json>
    decreases items
  {
    if items == [] then [] else [Meaning(items[0].value)] + ItemsMeaning(items[1..])
  }

  function MembersMeaning(members: seq<TextMember>): seq<Member>
    decreases members
  {
    if members == [] then []
    else [MemberMeaning(members[0])] + MembersMeaning(members[1..])
  }

  function MemberMeaning(m: TextMember): Member
    decreases m
  {
    Member(m.name.s, Meaning(m.value))
  }

  // ----- the parser on whitespace and strings

  lemma SkipsWs(c: bytes, p: nat, ws: bytes)
    requires At(c, p, ws) && IsWs(ws)
    requires p + |ws| < |c| && c[p + |ws|] > 32
    ensures SkipWs(c, p) == p + |ws|
  {
    var k := WsEnd(c, p);
    assert forall i :: p <= i < p + |ws| ==> c[i] == ws[i - p];
  }

  /** Bytes that are neither quotes nor backslashes do not stop the first pass. */
  lemma StringEndSkips(c: bytes, p: nat, k: nat)
    requires p + k <= |c|
    requires forall i :: p <= i < p + k ==> c[i] != QUOTE && c[i] != BACKSLASH
    ensures StringEnd(c, p) == StringEnd(c, p + k)
    decreases k
  {
    if k > 0 {
      StringEndSkips(c, p + 1, k - 1);
    }
  }

  lemma UnitSkipped(c: bytes, p: nat, unit: nat)
    requires UnitAt(c, p, |c|, unit)
    ensures StringEnd(c, p) == StringEnd(c, p + 6)
  {
    StringEndSkips(c, p + 2, 4);
  }

  /** A spelled scalar moves to any place its text occurs. */
  lemma SpellsMoves(c: bytes, p: nat, text: bytes, units: seq<nat>)
    requires At(c, p, text) && |text| == 6 * |units| && Spells(text, 0, |text|, units)
    ensures Spells(c, p, p + |text|, units)
  {
    forall i | 0 <= i < |units| ensures UnitAt(c, p + 6 * i, p + |text|, units[i]) {
      assert UnitAt(text, 0 + 6 * i, |text|, units[i]);
      assert forall j :: p + 6 * i <= j < p + 6 * i + 6 ==> c[j] == text[j - p];
      assert forall j :: p + 6 * i + 2 <= j < p + 6 * i + 6 ==> c[j] == text[j - p];
    }
  }

  lemma PieceSkipped(c: bytes, p: nat, x: Piece)
    requires PieceOk(x) && At(c, p, PieceText(x))
    ensures StringEnd(c, p) == StringEnd(c, p + |PieceText(x)|)
  {
    var text := PieceText(x);
    assert forall j :: 0 <= j < |text| ==> c[p + j] == text[j];
    if x.Unicode? {
      var units := Utf16(x.cp);
      SpellsMoves(c, p, text, units);
      assert UnitAt(c, p + 6 * 0, p + |text|, units[0]);
      UnitSkipped(c, p, units[0]);
      if |units| == 2 {
        assert UnitAt(c, p + 6 * 1, p + |text|, units[1]);
        UnitSkipped(c, p + 6, units[1]);
      }
    }
  }

  lemma {:induction false} PiecesSkipped(c: bytes, p: nat, xs: seq<Piece>)
    requires PiecesOk(xs) && At(c, p, PiecesText(xs))
    ensures StringEnd(c, p) == StringEnd(c, p + |PiecesText(xs)|)
    decreases xs
  {
    if xs != [] {
      AtSplit(c, p, PieceText(xs[0]), PiecesText(xs[1..]));
      PieceSkipped(c, p, xs[0]);
      PiecesSkipped(c, p + |PieceText(xs[0])|, xs[1..]);
    }
  }

  lemma {:induction false} PiecesUnescaped(c: bytes, p: nat, xs: seq<Piece>, end: nat)
    requires PiecesOk(xs) && At(c, p, PiecesText(xs)) && p + |PiecesText(xs)| == end < |c|
    ensures Unescape(c, p, end) == Ok(PiecesValue(xs), end)
    decreases xs
  {
    hide EscapeAt, At, PieceText, PieceValue, PieceOk;
    if xs != [] {
      var text := PieceText(xs[0]);
      AtSplit(c, p, text, PiecesText(xs[1..]));
      PieceUnescaped(c, p, xs[0], end);
      PiecesUnescaped(c, p + |text|, xs[1..], end);
      assert Unescape(c, p, end) == Prepend(PieceValue(xs[0]), Unescape(c, p + |text|, end));
    }
  }

  lemma PieceUnescaped(c: bytes, p: nat, x: Piece, end: nat)
    requires PieceOk(x) && At(c, p, PieceText(x)) && p + |PieceText(x)| <= end < |c|
    ensures p < end
    ensures x.Plain? ==> c[p] != BACKSLASH && [c[p]] == PieceValue(x)
    ensures x.Plain? ==> |PieceText(x)| == 1
    ensures !x.Plain? ==> c[p] == BACKSLASH && EscapeAt(c, p, end) == Some((PieceValue(x), |PieceText(x)|))
  {
    var text := PieceText(x);
    assert forall j :: p <= j < p + |text| ==> c[j] == text[j - p];
    if x.Unicode? {
      SpellsMoves(c, p, text, Utf16(x.cp));
      assert UnitAt(c, p + 6 * 0, p + |text|, Utf16(x.cp)[0]);
      LiteralAt(c, p, end, x.cp);
    }
  }

  lemma LiteralAt(c: bytes, p: nat, end: nat, cp: nat)
    requires IsScalar(cp) && p + 6 * |Utf16(cp)| <= end <= |c| && Spells(c, p, p + 6 * |Utf16(cp)|, Utf16(cp))
    ensures Literal(c, p, end) == Some((cp, 6 * |Utf16(cp)|))
  {
    forall i | 0 <= i < |Utf16(cp)| ensures UnitAt(c, p + 6 * i, end, Utf16(cp)[i]) {
      assert UnitAt(c, p + 6 * i, p + 6 * |Utf16(cp)|, Utf16(cp)[i]);
    }
    assert UnitAt(c, p + 6 * 0, end, Utf16(cp)[0]);
    LiteralIsUtf16(c, p, end, cp, 6 * |Utf16(cp)|);
  }

  /** A string spelt with plain bytes, short escapes and \\u escapes of scalar values denotes these. */
  lemma StringOfPieces(xs: seq<Piece>)
    requires PiecesOk(xs)
    ensures QuotedOk(OfPieces(xs))
  {
    var text := PiecesText(xs);
    var c := text + [QUOTE];
    assert At(c, 0, text) && c[|text|] == QUOTE;
    PiecesSkipped(c, 0, xs);
    PiecesUnescaped(c, 0, xs, |text|);
  }

  // ----- strings depend on nothing around them

  /** c from a to e. */
  predicate Cut(q: bytes, c: bytes, a: nat, e: nat) {
    a <= e < |c| && q == c[a..e + 1]
  }

  lemma {:induction false} StringEndLocal(q: bytes, c: bytes, a: nat, e: nat, p: nat)
    requires Cut(q, c, a, e) && a <= p <= e + 1 && c[e] == QUOTE
    ensures StringEnd(c, p) == Some(e) <==> StringEnd(q, p - a) == Some(e - a)
    decreases e + 1 - p
  {
    if p <= e {
      assert c[p] == q[p - a];
      if c[p] == BACKSLASH {
        StringEndLocal(q, c, a, e, p + 2);
      } else if c[p] != QUOTE {
        StringEndLocal(q, c, a, e, p + 1);
      }
    }
  }

  lemma HexLocal(q: bytes, c: bytes, a: nat, e: nat, p: nat)
    requires Cut(q, c, a, e) && a <= p && p + 4 <= e + 1
    ensures Hex4(c, p) == Hex4(q, p - a)
  {
    assert forall i :: p <= i < p + 4 ==> c[i] == q[i - a];
    assert HexDigits(c, p) ==> HexDigits(q, p - a) by { assert forall j :: p - a <= j < p - a + 4 ==> q[j] == c[j + a]; }
    assert HexDigits(q, p - a) ==> HexDigits(c, p);
  }

  lemma EscapeLocal(q: bytes, c: bytes, a: nat, e: nat, p: nat)
    requires Cut(q, c, a, e) && a <= p < e
    ensures EscapeAt(c, p, e) == EscapeAt(q, p - a, e - a)
  {
    assert c[p + 1] == q[p + 1 - a];
    if e - p >= 6 {
      HexLocal(q, c, a, e, p + 2);
      if e - p >= 12 {
        assert c[p + 6] == q[p + 6 - a] && c[p + 7] == q[p + 7 - a];
        HexLocal(q, c, a, e, p + 8);
      }
    }
    hide Hex4, Utf8;
    assert c[p + 1] == LETTER_U ==> Literal(c, p, e) == Literal(q, p - a, e - a);
  }

  /** The same decoding, at another place. */
  function Moved(r: Parse<bytes>, n: nat): Parse<bytes> {
    match r
    case Ok(s, end) => Ok(s, end + n)
    case Bad(at) => Bad(at + n)
  }

  lemma {:induction false} UnescapeLocal(q: bytes, c: bytes, a: nat, e: nat, p: nat)
    requires Cut(q, c, a, e) && a <= p
    ensures Unescape(c, p, e) == Moved(Unescape(q, p - a, e - a), a)
    decreases e - p
  {
    hide EscapeAt;
    if p < e {
      assert c[p] == q[p - a];
      if c[p] != BACKSLASH {
        UnescapeLocal(q, c, a, e, p + 1);
      } else {
        EscapeLocal(q, c, a, e, p);
        var x := EscapeAt(c, p, e);
        if x.Some? {
          UnescapeLocal(q, c, a, e, p + x.value.1);
        }
      }
    }
  }

  /** parse_string accepts exactly the quoted texts, as what they denote. */
  lemma StringExactly(c: bytes, o: nat, e: nat, s: cstring)
    requires o < e < |c| && c[o] == QUOTE && c[e] == QUOTE
    ensures StringAt(c, o) == Ok(s, e + 1) <==> QuotedOk(Quoted(c[o + 1..e], s))
  {
    var q := c[o + 1..e + 1];
    assert q == c[o + 1..e] + [QUOTE];
    StringEndLocal(q, c, o + 1, e, o + 1);
    UnescapeLocal(q, c, o + 1, e, o + 1);
    hide Unescape, CString;
  }

  lemma StringParses(c: bytes, o: nat, q: Quoted)
    requires QuotedOk(q) && At(c, o, StringText(q))
    ensures StringAt(c, o) == Ok(q.s, o + |StringText(q)|)
  {
    var e := o + 1 + |q.body|;
    AtSplit(c, o, [QUOTE], q.body + [QUOTE]);
    AtSplit(c, o + 1, q.body, [QUOTE]);
    assert c[o] == [QUOTE][0] && c[e] == [QUOTE][0];
    assert Quoted(c[o + 1..e], q.s) == q;
    StringExactly(c, o, e, q.s);
  }

  // ----- the parser on values

  /** What may follow a number. */
  predicate Delimited(c: bytes, o: nat) {
    o >= |c| || !IsNumberByte(c[o])
  }

  lemma NumberParses(c: bytes, o: nat, text: NumberText, d: real, strtod: Strtod)
    requires strtod(text) == (|text|, d) && At(c, o, text) && Delimited(c, o + |text|)
    ensures NumberAt(c, o, strtod) == Ok(Number(d), o + |text|)
  {
    var end := o + |text|;
    assert forall j :: o <= j < end ==> c[j] == text[j - o];
    NumberTokenIs(c, o, NumberLimit(c, o), end);
  }

  /** The decimal text of an int is such a number. */
  lemma IntIsNumber(n: int)
    requires INT_MIN <= n <= INT_MAX
    ensures IsNumber(IntText(n))
  {
    IntTextShort(n);
    hide IntText;
  }

  lemma IntParses(c: bytes, o: nat, n: int, strtod: Strtod)
    requires INT_MIN <= n <= INT_MAX && ReadsInts(strtod)
    requires At(c, o, IntText(n)) && Delimited(c, o + |IntText(n)|)
    ensures NumberAt(c, o, strtod) == Ok(Number(n as real), o + |IntText(n)|)
  {
    IntIsNumber(n);
    NumberParses(c, o, IntText(n), n as real, strtod);
  }

  function TextHeight(t: Text): nat {
    Height(Meaning(t))
  }

  /** Completeness: wherever a text stands in a buffer, at a depth that leaves room for its
      nesting, the parser reads it whole, as the tree it denotes. */
  lemma {:induction false} ValueParses(c: bytes, o: nat, t: Text, depth: nat, strtod: Strtod)
    requires WellFormed(t, strtod) && depth + TextHeight(t) <= NESTING_LIMIT
    requires At(c, o, Spelling(t)) && Delimited(c, o + |Spelling(t)|)
    ensures ValueAt(c, o, depth, strtod) == Ok(Meaning(t), o + |Spelling(t)|)
    decreases t
  {
    hide At, ArrayAt, ObjectAt, StringAt, NumberAt, StringText, IntText, WellFormed, Height, ItemsSpelling, MembersSpelling;
    AtHead(c, o, Spelling(t));
    NotBoth(c, o, Spelling(t));
    match t
    case TNull =>
    case TBool(b) =>
    case TNumber(text, d) =>
      assert strtod(text) == (|text|, d) by { NumberRead(t, strtod); }
      NumberParses(c, o, text, d, strtod);
    case TString(q) =>
      assert QuotedOk(q) by { StringQuoted(t, strtod); }
      StringParses(c, o, q);
    case TArray(ws, items) => ArrayParses(c, o, t, depth, strtod);
    case TObject(ws, members) => ObjectParses(c, o, t, depth, strtod);
  }

  lemma NumberRead(t: Text, strtod: Strtod)
    requires t.TNumber? && WellFormed(t, strtod)
    ensures strtod(t.text) == (|t.text|, t.d)
  {
  }

  lemma StringQuoted(t: Text, strtod: Strtod)
    requires t.TString? && WellFormed(t, strtod)
    ensures QuotedOk(t.q)
  {
  }

  /** The three literals differ in their first byte. */
  lemma NotBoth(c: bytes, o: nat, text: bytes)
    requires |text| > 0 && At(c, o, text)
    ensures text[0] != NULL_TEXT[0] ==> !At(c, o, NULL_TEXT)
    ensures text[0] != FALSE_TEXT[0] ==> !At(c, o, FALSE_TEXT)
    ensures text[0] != TRUE_TEXT[0] ==> !At(c, o, TRUE_TEXT)
  {
    assert c[o..o + |text|][0] == c[o];
    assert o + 4 <= |c| ==> c[o..o + 4][0] == c[o];
    assert o + 5 <= |c| ==> c[o..o + 5][0] == c[o];
  }

  lemma {:induction false} ArrayParses(c: bytes, o: nat, t: Text, depth: nat, strtod: Strtod)
    requires t.TArray? && WellFormed(t, strtod) && depth + TextHeight(t) <= NESTING_LIMIT
    requires At(c, o, Spelling(t)) && IsAt(c, o, OPEN_ARRAY)
    ensures ArrayAt(c, o, depth, strtod) == Ok(Meaning(t), o + |Spelling(t)|)
    decreases t, 0
  {
    hide At, Spelling, ItemsSpelling, Meaning, ItemsMeaning, ItemsAt, Height, HeightOfItems, WellFormed, ItemsOk, SkipWs, IsWs;
    var items := t.items;
    ArrayUnfolded(t, strtod);
    if items == [] {
      EmptyContainer(c, o, OPEN_ARRAY, t.ws, CLOSE_ARRAY);
    } else {
      var first := FirstInside(c, o, OPEN_ARRAY, items[0].before, ItemsSpelling(items));
      ItemsParse(c, first - 1, items, depth + 1, strtod);
    }
  }

  lemma ArrayUnfolded(t: Text, strtod: Strtod)
    requires t.TArray? && WellFormed(t, strtod)
    ensures Meaning(t) == Array(ItemsMeaning(t.items)) && TextHeight(t) == 1 + HeightOfItems(ItemsMeaning(t.items))
    ensures t.items == [] ==> Spelling(t) == [OPEN_ARRAY] + (t.ws + [CLOSE_ARRAY]) && ItemsMeaning(t.items) == [] && IsWs(t.ws)
    ensures t.items != [] ==>
              && Spelling(t) == [OPEN_ARRAY] + (t.items[0].before + ItemsSpelling(t.items))
              && ItemsOk(t.items, strtod) && IsWs(t.items[0].before)
  {
  }

  lemma EmptyContainer(c: bytes, o: nat, open: byte, ws: bytes, close: byte)
    requires At(c, o, [open] + (ws + [close])) && IsWs(ws) && close > 32
    ensures o + 1 <= |c| && SkipWs(c, o + 1) == o + 1 + |ws| && IsAt(c, o + 1 + |ws|, close)
  {
    AtSplit(c, o, [open], ws + [close]);
    AtSplit(c, o + 1, ws, [close]);
    AtHead(c, o + 1 + |ws|, [close]);
    SkipsWs(c, o + 1, ws);
  }

  /** Where the text inside a bracket begins; skipping from there goes nowhere. */
  lemma FirstInside(c: bytes, o: nat, open: byte, before: bytes, inner: bytes) returns (first: nat)
    requires At(c, o, [open] + (before + inner)) && IsWs(before) && |inner| > 0 && inner[0] > 32
    ensures first == o + 1 + |before| < |c| && c[first] == inner[0]
    ensures SkipWs(c, o + 1) == first == SkipWs(c, first) && At(c, first, inner)
  {
    first := o + 1 + |before|;
    AtSplit(c, o, [open], before + inner);
    AtSplit(c, o + 1, before, inner);
    AtHead(c, first, inner);
    SkipsWs(c, o + 1, before);
    SkipsWs(c, first, []);
  }

  lemma {:induction false} ItemsParse(c: bytes, o: nat, items: seq<TextItem>, depth: nat, strtod: Strtod)
    requires items != [] && ItemsOk(items, strtod)
    requires depth + HeightOfItems(ItemsMeaning(items)) <= NESTING_LIMIT
    requires o < |c| && At(c, SkipWs(c, o + 1), ItemsSpelling(items))
    ensures ItemsAt(c, o, depth, strtod) == Ok(ItemsMeaning(items), SkipWs(c, o + 1) + |ItemsSpelling(items)|)
    decreases items
  {
    hide At, Spelling, ItemsSpelling, Meaning, ItemsMeaning, ValueAt, Height, HeightOfItems, WellFormed, ItemsOk, SkipWs, IsWs;
    var item, s := items[0], SkipWs(c, o + 1);
    var next := ItemsUnfolded(items, strtod);
    var end := s + |Spelling(item.value)|;
    var stop := end + |item.after|;
    AtSplit(c, s, Spelling(item.value), item.after + next);
    AtSplit(c, end, item.after, next);
    AfterValue(c, end, item.after, next);
    ValueParses(c, s, item.value, depth, strtod);
    if |items| > 1 {
      NextItem(c, stop, items[1].before, ItemsSpelling(items[1..]));
      ItemsParse(c, stop, items[1..], depth, strtod);
    }
  }

  lemma ItemsUnfolded(items: seq<TextItem>, strtod: Strtod) returns (next: bytes)
    requires items != [] && ItemsOk(items, strtod)
    ensures next == if |items| == 1 then [CLOSE_ARRAY] else [COMMA] + (items[1].before + ItemsSpelling(items[1..]))
    ensures next[0] in [COMMA, CLOSE_ARRAY]
    ensures ItemsSpelling(items) == Spelling(items[0].value) + (items[0].after + next)
    ensures WellFormed(items[0].value, strtod) && IsWs(items[0].after)
    ensures |items| == 1 ==> ItemsMeaning(items) == [Meaning(items[0].value)]
    ensures |items| > 1 ==> IsWs(items[1].before) && ItemsOk(items[1..], strtod)
    ensures |items| > 1 ==> ItemsMeaning(items) == [Meaning(items[0].value)] + ItemsMeaning(items[1..])
    ensures TextHeight(items[0].value) <= HeightOfItems(ItemsMeaning(items))
    ensures HeightOfItems(ItemsMeaning(items[1..])) <= HeightOfItems(ItemsMeaning(items))
  {
    next := if |items| == 1 then [CLOSE_ARRAY] else [COMMA] + (items[1].before + ItemsSpelling(items[1..]));
    assert ItemsMeaning(items)[1..] == ItemsMeaning(items[1..]);
  }

  /** Skipping what follows a comma finds the next item. */
  lemma NextItem(c: bytes, comma: nat, before: bytes, rest: bytes)
    requires At(c, comma, [COMMA] + (before + rest)) && IsWs(before) && |rest| > 0 && rest[0] > 32
    ensures comma + 1 < |c| && SkipWs(c, comma + 1) == comma + 1 + |before|
    ensures At(c, comma + 1 + |before|, rest)
  {
    AtSplit(c, comma, [COMMA], before + rest);
    AtSplit(c, comma + 1, before, rest);
    AtHead(c, comma + 1 + |before|, rest);
    SkipsWs(c, comma + 1, before);
  }

  /** Behind a value stand whitespace and a separator: a number ends there, and skipping finds the separator. */
  lemma AfterValue(c: bytes, end: nat, ws: bytes, next: bytes)
    requires At(c, end, ws) && IsWs(ws) && At(c, end + |ws|, next)
    requires |next| > 0 && next[0] in [COMMA, CLOSE_ARRAY, CLOSE_OBJECT, COLON]
    ensures Delimited(c, end)
    ensures end + |ws| < |c| && c[end + |ws|] == next[0] && SkipWs(c, end) == end + |ws|
  {
    AtHead(c, end + |ws|, next);
    if |ws| > 0 {
      AtHead(c, end, ws);
    }
    SkipsWs(c, end, ws);
  }

  lemma {:induction false} ObjectParses(c: bytes, o: nat, t: Text, depth: nat, strtod: Strtod)
    requires t.TObject? && WellFormed(t, strtod) && depth + TextHeight(t) <= NESTING_LIMIT
    requires At(c, o, Spelling(t)) && IsAt(c, o, OPEN_OBJECT)
    ensures ObjectAt(c, o, depth, strtod) == Ok(Meaning(t), o + |Spelling(t)|)
    decreases t, 0
  {
    hide At, Spelling, MembersSpelling, Meaning, MembersMeaning, MembersAt, Height, HeightOfMembers, WellFormed, MembersOk, SkipWs, IsWs;
    var members := t.members;
    ObjectUnfolded(t, strtod);
    if members == [] {
      EmptyContainer(c, o, OPEN_OBJECT, t.ws, CLOSE_OBJECT);
    } else {
      var first := FirstInside(c, o, OPEN_OBJECT, members[0].before, MembersSpelling(members));
      MembersParse(c, first - 1, members, depth + 1, strtod);
    }
  }

  lemma ObjectUnfolded(t: Text, strtod: Strtod)
    requires t.TObject? && WellFormed(t, strtod)
    ensures Meaning(t) == Object(MembersMeaning(t.members)) && TextHeight(t) == 1 + HeightOfMembers(MembersMeaning(t.members))
    ensures t.members == [] ==> Spelling(t) == [OPEN_OBJECT] + (t.ws + [CLOSE_OBJECT]) && MembersMeaning(t.members) == [] && IsWs(t.ws)
    ensures t.members != [] ==>
              && Spelling(t) == [OPEN_OBJECT] + (t.members[0].before + MembersSpelling(t.members))
              && MembersOk(t.members, strtod) && IsWs(t.members[0].before)
  {
    assert t.members != [] ==> MembersOk(t.members, strtod) && MemberOk(t.members[0], strtod);
  }

  lemma {:induction false} MembersParse(c: bytes, o: nat, members: seq<TextMember>, depth: nat, strtod: Strtod)
    requires members != [] && MembersOk(members, strtod)
    requires depth + HeightOfMembers(MembersMeaning(members)) <= NESTING_LIMIT
    requires o + 1 < |c| && At(c, SkipWs(c, o + 1), MembersSpelling(members))
    ensures MembersAt(c, o, depth, strtod) == Ok(MembersMeaning(members), SkipWs(c, o + 1) + |MembersSpelling(members)|)
    decreases members
  {
    hide At, Spelling, MembersSpelling, MembersMeaning, MemberAt, Height, HeightOfMembers, MemberOk, MembersOk, SkipWs, IsWs, StringText;
    var next := MembersUnfolded(members, strtod);
    var stop := MemberParses(c, o, members[0], next, depth, strtod);
    if |members| > 1 {
      NextItem(c, stop, members[1].before, MembersSpelling(members[1..]));
      MembersParse(c, stop, members[1..], depth, strtod);
    }
  }

  lemma MembersUnfolded(members: seq<TextMember>, strtod: Strtod) returns (next: bytes)
    requires members != [] && MembersOk(members, strtod)
    ensures next == if |members| == 1 then [CLOSE_OBJECT] else [COMMA] + (members[1].before + MembersSpelling(members[1..]))
    ensures next[0] in [COMMA, CLOSE_OBJECT]
    ensures var m := members[0];
            && MemberOk(m, strtod) && TextHeight(m.value) <= HeightOfMembers(MembersMeaning(members))
            && MembersSpelling(members) == StringText(m.name) + (m.ws0 + ([COLON] + (m.ws1 + (Spelling(m.value) + (m.after + next)))))
    ensures |members| == 1 ==> MembersMeaning(members) == [MemberMeaning(members[0])]
    ensures |members| > 1 ==> IsWs(members[1].before) && MembersOk(members[1..], strtod)
    ensures |members| > 1 ==> MembersMeaning(members) == [MemberMeaning(members[0])] + MembersMeaning(members[1..])
    ensures HeightOfMembers(MembersMeaning(members[1..])) <= HeightOfMembers(MembersMeaning(members))
  {
    next := if |members| == 1 then [CLOSE_OBJECT] else [COMMA] + (members[1].before + MembersSpelling(members[1..]));
    assert |members| > 1 ==> MembersOk(members[1..], strtod) && MemberOk(members[1], strtod);
    assert MembersMeaning(members)[1..] == MembersMeaning(members[1..]);
  }

  /** One member, up to the separator behind it. */
  lemma {:induction false} MemberParses(c: bytes, o: nat, m: TextMember, next: bytes, depth: nat, strtod: Strtod) returns (stop: nat)
    requires MemberOk(m, strtod) && depth + TextHeight(m.value) <= NESTING_LIMIT
    requires |next| > 0 && next[0] in [COMMA, CLOSE_OBJECT]
    requires o + 1 < |c|
    requires At(c, SkipWs(c, o + 1), StringText(m.name) + (m.ws0 + ([COLON] + (m.ws1 + (Spelling(m.value) + (m.after + next))))))
    ensures stop == SkipWs(c, o + 1) + |StringText(m.name)| + |m.ws0| + 1 + |m.ws1| + |Spelling(m.value)| + |m.after|
    ensures stop < |c| && c[stop] == next[0] && At(c, stop, next)
    ensures MemberAt(c, o, depth, strtod) == Ok(MemberMeaning(m), stop - |m.after|)
    ensures SkipWs(c, stop - |m.after|) == stop
    decreases m
  {
    hide At, Spelling, Meaning, ValueAt, NameAt, Height, SkipWs, IsWs, StringText, QuotedOk, WellFormed;
    var s := SkipWs(c, o + 1);
    var valueText := m.ws1 + (Spelling(m.value) + (m.after + next));
    var colon := s + |StringText(m.name)| + |m.ws0|;
    var start := colon + 1 + |m.ws1|;
    var end := start + |Spelling(m.value)|;
    stop := end + |m.after|;
    AtSplit(c, s, StringText(m.name), m.ws0 + ([COLON] + valueText));
    AtSplit(c, s + |StringText(m.name)|, m.ws0, [COLON] + valueText);
    AtSplit(c, colon, [COLON], valueText);
    AtSplit(c, colon + 1, m.ws1, Spelling(m.value) + (m.after + next));
    AtSplit(c, start, Spelling(m.value), m.after + next);
    AtSplit(c, end, m.after, next);
    NameParses(c, o, m);
    AtHead(c, start, Spelling(m.value));
    SkipsWs(c, colon + 1, m.ws1);
    AfterValue(c, end, m.after, next);
    ValueParses(c, start, m.value, depth, strtod);
  }

  lemma NameParses(c: bytes, o: nat, m: TextMember)
    requires o + 1 < |c| && QuotedOk(m.name) && IsWs(m.ws0)
    requires At(c, SkipWs(c, o + 1), StringText(m.name))
    requires At(c, SkipWs(c, o + 1) + |StringText(m.name)|, m.ws0)
    requires At(c, SkipWs(c, o + 1) + |StringText(m.name)| + |m.ws0|, [COLON])
    ensures NameAt(c, o) == Ok(m.name.s, SkipWs(c, o + 1) + |StringText(m.name)| + |m.ws0| + 1)
  {
    hide SkipWs, WsEnd, StringText, QuotedOk, IsWs, StringAt, At;
    var s := SkipWs(c, o + 1);
    StringParses(c, s, m.name);
    AfterValue(c, s + |StringText(m.name)|, m.ws0, [COLON]);
  }
}
