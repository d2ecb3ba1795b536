/** Printing and parsing back: what cJSON prints is a text of the grammar that denotes the printed
    tree, so the parser returns that tree. */
module JsonRoundTrip {
  import opened Bytes
  import opened JsonTree
  import opened JsonEscape
  import opened JsonParser
  import opened JsonGrammar
  import P = JsonPrinter

  /** cJSON_Parse accepts every text of the grammar between whitespace, and nothing deeper than the limit. */
  lemma DocumentParses(before: bytes, t: Text, after: bytes, requireNul: bool, strtod: Strtod)
    requires WellFormed(t, strtod) && TextHeight(t) <= NESTING_LIMIT
    requires IsWs(before) && IsWs(after)
    ensures var c := before + (Spelling(t) + (after + [0]));
            Document(c, requireNul, strtod) ==
              Ok(Meaning(t), |before| + |Spelling(t)| + (if requireNul then |after| else 0))
  {
    hide At, Spelling, Meaning, WellFormed, Height, ValueAt, SkipWs, WsEnd;
    var text, tail := Spelling(t), after + [0];
    var c := before + (text + tail);
    var end := |before| + |text|;
    assert At(c, 0, c) by { AtWhole(c); }
    AtSplit(c, 0, before, text + tail);
    AtSplit(c, |before|, text, tail);
    AtHead(c, |before|, text);
    AtHead(c, end, tail);
    SkipsWs(c, 0, before);
    assert IsWs(tail);
    SkipsToEnd(c, end, tail);
    NotBom(c, before, t);
    ValueParses(c, |before|, t, 0, strtod);
  }

  /** So it does behind a byte order mark. */
  lemma MarkedDocumentParses(before: bytes, t: Text, after: bytes, requireNul: bool, strtod: Strtod)
    requires WellFormed(t, strtod) && TextHeight(t) <= NESTING_LIMIT
    requires IsWs(before) && IsWs(after)
    ensures var c := [0xEF, 0xBB, 0xBF] + (before + (Spelling(t) + (after + [0])));
            Document(c, requireNul, strtod) ==
              Ok(Meaning(t), 3 + |before| + |Spelling(t)| + (if requireNul then |after| else 0))
  {
    hide At, Spelling, Meaning, WellFormed, Height, ValueAt, SkipWs, WsEnd;
    var text, tail, mark := Spelling(t), after + [0], [0xEF, 0xBB, 0xBF];
    var c := mark + (before + (text + tail));
    var start := 3 + |before|;
    var end := start + |text|;
    assert At(c, 0, c) by { AtWhole(c); }
    AtSplit(c, 0, mark, before + (text + tail));
    AtSplit(c, 3, before, text + tail);
    AtSplit(c, start, text, tail);
    AtHead(c, start, text);
    AtHead(c, end, tail);
    SkipsWs(c, 3, before);
    assert IsWs(tail);
    SkipsToEnd(c, end, tail);
    assert At(c, 0, BOM);
    ValueParses(c, start, t, 0, strtod);
  }

  lemma AtWhole(c: bytes)
    ensures At(c, 0, c)
  {
  }

  /** Skipping whitespace that runs to the end of the buffer steps back onto its last byte, the NUL. */
  lemma SkipsToEnd(c: bytes, p: nat, ws: bytes)
    requires At(c, p, ws) && IsWs(ws) && |ws| > 0 && p + |ws| == |c|
    ensures SkipWs(c, p) == |c| - 1 && c[|c| - 1] == ws[|ws| - 1]
  {
    assert forall i :: p <= i < |c| ==> c[i] == ws[i - p];
    assert WsEnd(c, p) == |c|;
  }

  lemma NotBom(c: bytes, before: bytes, t: Text)
    requires IsWs(before) && |before| < |c| && At(c, 0, before) && c[|before|] == Spelling(t)[0]
    ensures !At(c, 0, BOM)
  {
    assert Spelling(t)[0] < 0x80;
    assert |before| > 0 ==> c[0] == c[0..|before|][0];
    assert |c| >= 3 ==> c[0..3][0] == c[0];
  }

  // ----- the text of a tree

  function PieceOf(b: byte): Piece
    requires b != 0
  {
    if P.OneLetter(b) then Short(P.Letter(b))
    else if b < 32 then Unicode(b, P.EscapeByte(b))
    else Plain(b)
  }

  function PiecesOf(s: cstring): seq<Piece> {
    if s == [] then [] else [PieceOf(s[0])] + PiecesOf(s[1..])
  }

  lemma PieceOfByte(b: byte)
    requires b != 0
    ensures PieceOk(PieceOf(b)) && PieceText(PieceOf(b)) == P.EscapeByte(b) && PieceValue(PieceOf(b)) == [b]
  {
    if !P.OneLetter(b) && b < 32 {
      var text := P.EscapeByte(b);
      assert HexDigits(text, 2);
      assert UnitAt(text, 0 + 6 * 0, 6, b);
    }
  }

  function QuotedOf(s: cstring): Quoted {
    OfPieces(PiecesOf(s))
  }

  lemma QuotedOfString(s: cstring)
    ensures QuotedOk(QuotedOf(s)) && QuotedOf(s).s == s && StringText(QuotedOf(s)) == P.RenderString(s)
  {
    PiecesOfString(s);
    StringOfPieces(PiecesOf(s));
    WholeCString(s);
  }

  lemma {:induction false} WholeCString(s: cstring)
    ensures CString(s) == s
  {
    if s != [] {
      WholeCString(s[1..]);
    }
  }

  lemma {:induction false} PiecesOfString(s: cstring)
    ensures PiecesOk(PiecesOf(s)) && PiecesText(PiecesOf(s)) == P.Escaped(s) && PiecesValue(PiecesOf(s)) == s
  {
    if s != [] {
      PieceOfByte(s[0]);
      PiecesOfString(s[1..]);
      assert PiecesOf(s)[1..] == PiecesOf(s[1..]);
    }
  }

  function NewLine(format: bool): bytes {
    if format then [P.NEWLINE] else []
  }

  function Line(format: bool, depth: nat): (r: bytes)
    ensures IsWs(r)
  {
    if format then [P.NEWLINE] + P.Tabs(depth) else []
  }

  function TextOf(t: Json, format: bool, depth: nat): Text
    decreases t, 1
  {
    match t
    case Null => TNull
    case Bool(b) => TBool(b)
    case Number(d) => (IntIsNumber(ValueInt(d)); TNumber(IntText(ValueInt(d)), d))
    case Raw(_) => TNull
    case String(s) => TString(QuotedOf(s))
    case Array(items) => TArray([], TextItems(items, true, format, depth + 1))
    case Object(members) => TObject(Line(format, depth), TextMembers(members, format, depth + 1))
  }

  function TextItems(items: seq<Json>, first: bool, format: bool, depth: nat): (r: seq<TextItem>)
    ensures |r| == |items|
    decreases items, 0
  {
    if items == [] then []
    else [TextItem(if format && !first then [P.SPACE] else [], TextOf(items[0], format, depth), [])]
         + TextItems(items[1..], false, format, depth)
  }

  function TextMembers(members: seq<Member>, format: bool, depth: nat): (r: seq<TextMember>)
    requires depth > 0
    ensures |r| == |members|
    decreases members, 0
  {
    if members == [] then []
    else
      [TextMember(Line(format, depth), QuotedOf(members[0].name), [], if format then [P.TAB] else [],
                  TextOf(members[0].value, format, depth), if |members| == 1 then Line(format, depth - 1) else [])]
      + TextMembers(members[1..], format, depth)
  }

  /** The text is what the printer prints, */
  lemma {:induction false} TextPrinted(t: Json, format: bool, depth: nat, realText: P.RealText)
    requires IntegerTree(t)
    ensures Spelling(TextOf(t, format, depth)) == P.Render(t, format, depth, realText)
    decreases t
  {
    match t
    case String(s) => QuotedOfString(s);
    case Array(items) => ArrayPrinted(t, format, depth, realText);
    case Object(members) => ObjectPrinted(t, format, depth, realText);
    case _ =>
  }

  lemma {:induction false} ArrayPrinted(t: Json, format: bool, depth: nat, realText: P.RealText)
    requires t.Array? && IntegerTree(t)
    ensures Spelling(TextOf(t, format, depth)) == P.Render(t, format, depth, realText)
    decreases t, 0
  {
    hide P.RenderItems, ItemsSpelling, TextItems;
    var ts := TextItems(t.items, true, format, depth + 1);
    var inner := P.RenderItems(t.items, format, depth + 1, realText);
    if t.items == [] {
      NothingInside(format, depth, realText);
    } else {
      ItemsPrinted(t.items, true, format, depth + 1, realText);
      FirstBefore(t, format, depth);
      assert Spelling(TArray([], ts)) == [OPEN_ARRAY] + ([] + (inner + [CLOSE_ARRAY]));
      assert [OPEN_ARRAY] + ([] + (inner + [CLOSE_ARRAY])) == [OPEN_ARRAY] + inner + [CLOSE_ARRAY];
    }
  }

  lemma FirstBefore(t: Json, format: bool, depth: nat)
    requires t.Array? && t.items != []
    ensures TextItems(t.items, true, format, depth + 1)[0].before == []
  {
  }

  lemma NothingInside(format: bool, depth: nat, realText: P.RealText)
    ensures TextItems([], true, format, depth + 1) == [] && TextMembers([], format, depth + 1) == []
    ensures P.RenderItems([], format, depth + 1, realText) == [] == P.RenderMembers([], format, depth + 1, realText)
    ensures [OPEN_OBJECT] + (Line(format, depth) + [CLOSE_OBJECT]) == P.OpenObject(format) + [] + P.CloseObject(format, depth)
  {
  }

  lemma {:induction false} ObjectPrinted(t: Json, format: bool, depth: nat, realText: P.RealText)
    requires t.Object? && IntegerTree(t)
    ensures Spelling(TextOf(t, format, depth)) == P.Render(t, format, depth, realText)
    decreases t, 0
  {
    hide P.RenderMembers, MembersSpelling, TextMembers, P.CloseObject, Line;
    var ts := TextMembers(t.members, format, depth + 1);
    var inner, close := P.RenderMembers(t.members, format, depth + 1, realText), P.CloseObject(format, depth);
    if t.members == [] {
      NothingInside(format, depth, realText);
    } else {
      MembersPrinted(t.members, format, depth + 1, realText);
      assert [OPEN_OBJECT] + (NewLine(format) + (inner + close)) == P.OpenObject(format) + inner + close;
    }
  }

  lemma {:induction false} ItemsPrinted(items: seq<Json>, first: bool, format: bool, depth: nat, realText: P.RealText)
    requires items != [] && forall i :: 0 <= i < |items| ==> IntegerTree(items[i])
    ensures ItemsSpelling(TextItems(items, first, format, depth)) == P.RenderItems(items, format, depth, realText) + [CLOSE_ARRAY]
    decreases items
  {
    hide TextOf, Spelling, P.Render, IntegerTree;
    TextPrinted(items[0], format, depth, realText);
    var ts := TextItems(items, first, format, depth);
    var value := P.Render(items[0], format, depth, realText);
    if |items| == 1 {
      assert ItemsSpelling(ts) == value + ([] + [CLOSE_ARRAY]);
    } else {
      ItemsPrinted(items[1..], false, format, depth, realText);
      var rest := P.RenderItems(items[1..], format, depth, realText);
      assert ts[1..] == TextItems(items[1..], false, format, depth);
      assert ItemsSpelling(ts) == value + ([] + ([COMMA] + (ts[1].before + (rest + [CLOSE_ARRAY]))));
      assert P.Separator(format) == [COMMA] + ts[1].before;
      Regroup(value, [COMMA], ts[1].before, rest, [CLOSE_ARRAY]);
    }
  }

  lemma Regroup(a: bytes, b: bytes, c: bytes, d: bytes, e: bytes)
    ensures a + ([] + (b + (c + (d + e)))) == a + ((b + c) + d) + e
  {
  }

  lemma {:induction false} MembersPrinted(members: seq<Member>, format: bool, depth: nat, realText: P.RealText)
    requires members != [] && depth > 0 && forall i :: 0 <= i < |members| ==> IntegerTree(members[i].value)
    ensures var ts := TextMembers(members, format, depth);
            ts[0].before + MembersSpelling(ts)
            == NewLine(format) + (P.RenderMembers(members, format, depth, realText) + P.CloseObject(format, depth - 1))
    decreases members
  {
    hide TextOf, Spelling, P.Render, IntegerTree, QuotedOf, StringText, P.RenderString, P.Tabs;
    var ts := TextMembers(members, format, depth);
    QuotedOfString(members[0].name);
    TextPrinted(members[0].value, format, depth, realText);
    var m, rest := ts[0], P.RenderMembers(members[1..], format, depth, realText);
    var value, close := P.Render(members[0].value, format, depth, realText), P.CloseObject(format, depth - 1);
    var key := P.RenderString(members[0].name);
    assert P.KeyText(members[0].name, format, depth) == Indent(format, depth) + (key + ([COLON] + Gap(format)));
    assert m.ws1 == Gap(format);
    if |members| == 1 {
      assert MembersSpelling(ts) == key + ([] + ([COLON] + (m.ws1 + (value + (m.after + [CLOSE_OBJECT])))));
      LastMember(format, depth, key, value);
    } else {
      MembersPrinted(members[1..], format, depth, realText);
      assert ts[1..] == TextMembers(members[1..], format, depth);
      assert MembersSpelling(ts) == key + ([] + ([COLON] + (m.ws1 + (value + ([] + ([COMMA] + (NewLine(format) + (rest + close))))))));
      NextMember(format, depth, key, value, rest, close);
    }
  }

  /** it is one of the grammar, and it denotes the tree. */
  lemma {:induction false} TextMeans(t: Json, format: bool, depth: nat, strtod: Strtod)
    requires IntegerTree(t) && ReadsInts(strtod)
    ensures WellFormed(TextOf(t, format, depth), strtod) && Meaning(TextOf(t, format, depth)) == t
    decreases t, 1
  {
    hide ReadsInts, IntText, QuotedOk, QuotedOf, ItemsOk, MembersOk, ItemsMeaning, MembersMeaning, TextItems, TextMembers, Line;
    match t
    case Number(d) => NumberMeans(t, format, depth, strtod);
    case String(s) => QuotedOfString(s);
    case Array(items) => ItemsMean(items, true, format, depth + 1, strtod);
    case Object(members) => MembersMean(members, format, depth + 1, strtod);
    case _ =>
  }

  lemma NumberMeans(t: Json, format: bool, depth: nat, strtod: Strtod)
    requires t.Number? && IntegerTree(t) && ReadsInts(strtod)
    ensures WellFormed(TextOf(t, format, depth), strtod) && Meaning(TextOf(t, format, depth)) == t
  {
    hide IntText;
  }

  lemma {:induction false} ItemsMean(items: seq<Json>, first: bool, format: bool, depth: nat, strtod: Strtod)
    requires (forall i :: 0 <= i < |items| ==> IntegerTree(items[i])) && ReadsInts(strtod)
    ensures ItemsOk(TextItems(items, first, format, depth), strtod) && ItemsMeaning(TextItems(items, first, format, depth)) == items
    decreases items, 0
  {
    hide ReadsInts, TextOf, WellFormed, Meaning, IntegerTree;
    if items != [] {
      TextMeans(items[0], format, depth, strtod);
      ItemsMean(items[1..], false, format, depth, strtod);
      assert TextItems(items, first, format, depth)[1..] == TextItems(items[1..], false, format, depth);
    }
  }

  lemma {:induction false} MembersMean(members: seq<Member>, format: bool, depth: nat, strtod: Strtod)
    requires (forall i :: 0 <= i < |members| ==> IntegerTree(members[i].value)) && depth > 0 && ReadsInts(strtod)
    ensures var ts := TextMembers(members, format, depth);
            MembersOk(ts, strtod) && MembersMeaning(ts) == members
    decreases members, 1
  {
    hide ReadsInts, TextOf, WellFormed, Meaning, IntegerTree, QuotedOf, QuotedOk, Line, IsWs;
    if members != [] {
      MemberMeans(members, format, depth, strtod);
      MembersMean(members[1..], format, depth, strtod);
      hide MemberOk, MemberMeaning, ReadsInts;
      assert TextMembers(members, format, depth)[1..] == TextMembers(members[1..], format, depth);
    }
  }

  lemma MemberMeans(members: seq<Member>, format: bool, depth: nat, strtod: Strtod)
    requires members != [] && depth > 0 && IntegerTree(members[0].value) && ReadsInts(strtod)
    ensures var m := TextMembers(members, format, depth)[0];
            MemberOk(m, strtod) && MemberMeaning(m) == members[0]
    decreases members, 0
  {
    hide ReadsInts, TextOf, WellFormed, Meaning, IntegerTree, QuotedOf, QuotedOk, IsWs;
    QuotedOfString(members[0].name);
    TextMeans(members[0].value, format, depth, strtod);
    assert IsWs([]) && IsWs([P.TAB]) by { SomeWs(); }
  }

  lemma SomeWs()
    ensures IsWs([]) && IsWs([P.TAB])
  {
  }

  /** Where the grammar puts a line break and its tabs in front of a key or a brace, the printer
      puts the break behind the previous comma or value. */
  lemma LastMember(format: bool, depth: nat, key: bytes, value: bytes)
    requires depth > 0
    ensures Line(format, depth) + (key + ([] + ([COLON] + (Gap(format) + (value + (Line(format, depth - 1) + [CLOSE_OBJECT]))))))
         == NewLine(format) + (((Indent(format, depth) + (key + ([COLON] + Gap(format)))) + (value + (P.MemberEnd(true, format) + []))) + P.CloseObject(format, depth - 1))
  {
    var nl, close := NewLine(format), P.CloseObject(format, depth - 1);
    assert Line(format, depth) == nl + Indent(format, depth) && P.MemberEnd(true, format) == nl;
    assert Line(format, depth - 1) + [CLOSE_OBJECT] == nl + close;
    hide *;
    RegroupKey(nl, Indent(format, depth), key, [COLON], Gap(format), value + (nl + close));
    RegroupValue(nl, Indent(format, depth) + (key + ([COLON] + Gap(format))), value, nl, [], close);
    assert [] + close == close;
  }

  lemma NextMember(format: bool, depth: nat, key: bytes, value: bytes, rest: bytes, close: bytes)
    ensures Line(format, depth) + (key + ([] + ([COLON] + (Gap(format) + (value + ([] + ([COMMA] + (NewLine(format) + (rest + close)))))))))
         == NewLine(format) + (((Indent(format, depth) + (key + ([COLON] + Gap(format)))) + (value + (P.MemberEnd(false, format) + rest))) + close)
  {
    var nl := NewLine(format);
    assert Line(format, depth) == nl + Indent(format, depth) && P.MemberEnd(false, format) == [COMMA] + nl;
    hide *;
    assert [] + ([COMMA] + (nl + (rest + close))) == ([COMMA] + nl) + (rest + close);
    RegroupKey(nl, Indent(format, depth), key, [COLON], Gap(format), value + (([COMMA] + nl) + (rest + close)));
    RegroupValue(nl, Indent(format, depth) + (key + ([COLON] + Gap(format))), value, [COMMA] + nl, rest, close);
  }

  lemma RegroupKey(nl: bytes, indent: bytes, key: bytes, colon: bytes, gap: bytes, rest: bytes)
    ensures (nl + indent) + (key + ([] + (colon + (gap + rest)))) == nl + ((indent + (key + (colon + gap))) + rest)
  {
  }

  lemma RegroupValue(nl: bytes, key: bytes, value: bytes, end: bytes, rest: bytes, close: bytes)
    ensures nl + (key + (value + (end + (rest + close)))) == nl + ((key + (value + (end + rest))) + close)
  {
  }

  function Gap(format: bool): bytes {
    if format then [P.TAB] else []
  }

  function Indent(format: bool, depth: nat): bytes {
    if format then P.Tabs(depth) else []
  }

  // ----- the round trip

  /** For every tree of null, booleans, ints, NUL-free strings, arrays and objects, formatted or
      not: parsing the printed text gives back that very tree (order and duplicate names included)
      exactly when it nests at most 1000 containers deep. */
  lemma RoundTrip(t: Json, format: bool, requireNul: bool, realText: P.RealText, strtod: Strtod)
    requires IntegerTree(t) && ReadsInts(strtod)
    ensures var text := P.Render(t, format, 0, realText);
            Document(text + [0], requireNul, strtod) == Ok(t, |text|) <==> Height(t) <= NESTING_LIMIT
  {
    hide P.Render, Spelling, Meaning, WellFormed, TextOf, ValueAt, SkipWs, At;
    var text := P.Render(t, format, 0, realText);
    TextPrinted(t, format, 0, realText);
    TextMeans(t, format, 0, strtod);
    if Height(t) <= NESTING_LIMIT {
      NothingAround(text);
      DocumentParses([], TextOf(t, format, 0), [], requireNul, strtod);
    } else {
      var c := text + [0];
      var start := if |c| > 4 && At(c, 0, BOM) then 3 else 0;
      ValueDepth(c, SkipWs(c, start), 0, strtod);
    }
  }

  lemma NothingAround(text: bytes)
    ensures [] + (text + ([] + [0])) == text + [0] && IsWs([])
  {
  }
}
