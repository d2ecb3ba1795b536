/** Nothing but the texts of the grammar is accepted, each as what it means. */
module JsonAccepted {
  import opened Bytes
  import opened JsonTree
  import opened JsonEscape
  import opened JsonParser
  import opened JsonGrammar

  // ----- pieces of the buffer

  lemma Joined(c: bytes, a: nat, b: nat, d: nat)
    requires a <= b <= d <= |c|
    ensures c[a..b] + c[b..d] == c[a..d]
  {
  }

  lemma OneByte(c: bytes, a: nat)
    requires a < |c|
    ensures c[a..a + 1] == [c[a]]
  {
  }

  /** Skipping that ends on something has only skipped whitespace. */
  lemma Skipped(c: bytes, o: nat)
    requires o <= |c| && SkipWs(c, o) < |c| && c[SkipWs(c, o)] > 32
    ensures IsWs(c[o..SkipWs(c, o)])
    ensures o < SkipWs(c, o) ==> c[o] <= 32
  {
    assert c[o..SkipWs(c, o)] == [] || forall i :: o <= i < SkipWs(c, o) ==> c[i] <= 32;
  }

  /** A value does not begin with whitespace. */
  lemma ValueBegins(c: bytes, o: nat, depth: nat, strtod: Strtod)
    requires o <= |c| && depth <= NESTING_LIMIT && ValueAt(c, o, depth, strtod).Ok?
    ensures o < |c| && c[o] > 32
  {
    assert o + 4 <= |c| ==> c[o..o + 4] == NULL_TEXT ==> c[o] == NULL_TEXT[0];
    assert o + 5 <= |c| ==> c[o..o + 5] == FALSE_TEXT ==> c[o] == FALSE_TEXT[0];
    assert o + 4 <= |c| ==> c[o..o + 4] == TRUE_TEXT ==> c[o] == TRUE_TEXT[0];
  }

  /** After a value with a separator behind it, the whitespace before that separator. */
  lemma Separated(c: bytes, end: nat)
    requires end <= |c| && SkipWs(c, end) < |c| && c[SkipWs(c, end)] in [COMMA, CLOSE_ARRAY, CLOSE_OBJECT, COLON]
    ensures IsWs(c[end..SkipWs(c, end)]) && Delimited(c, end)
  {
    Skipped(c, end);
  }

  // ----- what is accepted is a text

  lemma {:induction false} ValueIsText(c: bytes, o: nat, depth: nat, strtod: Strtod) returns (t: Text)
    requires o <= |c| && depth <= NESTING_LIMIT && ValueAt(c, o, depth, strtod).Ok?
    requires Delimited(c, ValueAt(c, o, depth, strtod).end)
    ensures var r := ValueAt(c, o, depth, strtod);
            WellFormed(t, strtod) && Spelling(t) == c[o..r.end] && Meaning(t) == r.value
    decreases |c| - o, 3
  {
    hide ArrayAt, ObjectAt, StringAt, NumberAt;
    if At(c, o, NULL_TEXT) {
      t := TNull;
    } else if At(c, o, FALSE_TEXT) {
      t := TBool(false);
    } else if At(c, o, TRUE_TEXT) {
      t := TBool(true);
    } else if IsAt(c, o, QUOTE) {
      var q := QuotedAt(c, o);
      t := TString(q);
    } else if c[o] == MINUS || IsDigit(c[o]) {
      t := NumberIsText(c, o, strtod);
    } else if IsAt(c, o, OPEN_ARRAY) {
      t := ArrayIsText(c, o, depth, strtod);
    } else {
      t := ObjectIsText(c, o, depth, strtod);
    }
  }

  lemma QuotedAt(c: bytes, o: nat) returns (q: Quoted)
    requires o < |c| && StringAt(c, o).Ok?
    ensures var r := StringAt(c, o);
            QuotedOk(q) && q.s == r.value && StringText(q) == c[o..r.end]
  {
    var e := StringAt(c, o).end - 1;
    q := Quoted(c[o + 1..e], StringAt(c, o).value);
    StringExactly(c, o, e, q.s);
    hide QuotedOk, StringAt;
    assert c[o..e + 1] == [c[o]] + (c[o + 1..e] + [c[e]]);
  }

  /** A number that no number byte follows has been read whole. */
  lemma NumberEnds(c: bytes, o: nat, token: bytes, used: nat)
    requires o + |token| <= |c| && token == c[o..o + |token|] && used <= |token| && Delimited(c, o + used)
    requires forall i :: 0 <= i < |token| ==> IsNumberByte(token[i])
    ensures used == |token|
  {
    hide IsNumberByte;
  }

  lemma NumberIsText(c: bytes, o: nat, strtod: Strtod) returns (t: Text)
    requires o < |c| && (c[o] == MINUS || IsDigit(c[o])) && NumberAt(c, o, strtod).Ok?
    requires Delimited(c, NumberAt(c, o, strtod).end)
    ensures var r := NumberAt(c, o, strtod);
            WellFormed(t, strtod) && Spelling(t) == c[o..r.end] && Meaning(t) == r.value
  {
    var token := NumberToken(c, o, NumberLimit(c, o));
    var (used, d) := strtod(token);
    assert used == |token| by { NumberEnds(c, o, token, used); }
    t := TNumber(token, d);
  }

  lemma {:induction false} ArrayIsText(c: bytes, o: nat, depth: nat, strtod: Strtod) returns (t: Text)
    requires IsAt(c, o, OPEN_ARRAY) && depth <= NESTING_LIMIT && ArrayAt(c, o, depth, strtod).Ok?
    ensures var r := ArrayAt(c, o, depth, strtod);
            WellFormed(t, strtod) && Spelling(t) == c[o..r.end] && Meaning(t) == r.value
    decreases |c| - o, 2
  {
    ArrayParts(c, o, depth, strtod);
    hide *;
    var first := SkipWs(c, o + 1);
    if IsAt(c, first, CLOSE_ARRAY) {
      t := EmptyArrayText(c, o, strtod);
    } else {
      t := ArrayInsideIsText(c, o, first, depth + 1, strtod);
    }
  }

  lemma {:induction false} ArrayInsideIsText(c: bytes, o: nat, first: nat, depth: nat, strtod: Strtod) returns (t: Text)
    requires IsAt(c, o, OPEN_ARRAY) && first == SkipWs(c, o + 1) && o < first < |c|
    requires depth <= NESTING_LIMIT && ItemsAt(c, first - 1, depth, strtod).Ok?
    ensures var r := ItemsAt(c, first - 1, depth, strtod);
            first <= r.end && WellFormed(t, strtod) && Spelling(t) == c[o..r.end] && Meaning(t) == Array(r.value)
    decreases |c| - o, 1
  {
    hide *;
    Inside(c, o + 1, depth, strtod);
    var before := c[o + 1..first];
    var r := ItemsAt(c, first - 1, depth, strtod);
    var items := ItemsAreTexts(c, first - 1, before, depth, strtod);
    t := TArray([], items);
    ArrayFilled(c, o, first, r.end, items, strtod);
  }

  lemma ArrayParts(c: bytes, o: nat, depth: nat, strtod: Strtod)
    requires IsAt(c, o, OPEN_ARRAY) && depth <= NESTING_LIMIT && ArrayAt(c, o, depth, strtod).Ok?
    ensures o < |c| && o < SkipWs(c, o + 1) <= |c| && depth < NESTING_LIMIT
    ensures var r, first := ArrayAt(c, o, depth, strtod), SkipWs(c, o + 1);
            if IsAt(c, first, CLOSE_ARRAY) then r.value == Array([]) && r.end == first + 1
            else
              && first < |c| && ItemsAt(c, first - 1, depth + 1, strtod).Ok? && first <= r.end <= |c|
              && r.value == Array(ItemsAt(c, first - 1, depth + 1, strtod).value) && r.end == ItemsAt(c, first - 1, depth + 1, strtod).end
  {
    hide ItemsAt;
  }

  lemma EmptyArrayText(c: bytes, o: nat, strtod: Strtod) returns (t: Text)
    requires IsAt(c, o, OPEN_ARRAY) && IsAt(c, SkipWs(c, o + 1), CLOSE_ARRAY)
    ensures WellFormed(t, strtod) && Spelling(t) == c[o..SkipWs(c, o + 1) + 1] && Meaning(t) == Array([])
  {
    var first := SkipWs(c, o + 1);
    Skipped(c, o + 1);
    t := TArray(c[o + 1..first], []);
    ArrayText(c[o + 1..first], [], strtod);
    hide SkipWs, IsWs, WellFormed, Spelling, Meaning;
    Bracketed(c, o, first);
  }

  lemma ArrayFilled(c: bytes, o: nat, first: nat, end: nat, items: seq<TextItem>, strtod: Strtod)
    requires IsAt(c, o, OPEN_ARRAY) && o < first <= end <= |c| && items != [] && ItemsOk(items, strtod)
    requires items[0].before == c[o + 1..first] && ItemsSpelling(items) == c[first..end]
    ensures var t := TArray([], items);
            WellFormed(t, strtod) && Spelling(t) == c[o..end] && Meaning(t) == Array(ItemsMeaning(items))
  {
    NoWs();
    ArrayText([], items, strtod);
    hide IsWs, WellFormed, Spelling, Meaning, ItemsOk, ItemsSpelling, ItemsMeaning;
    Filled(c, o, first, end);
  }

  lemma Bracketed(c: bytes, o: nat, last: nat)
    requires o < last < |c|
    ensures c[o..last + 1] == [c[o]] + (c[o + 1..last] + [c[last]])
  {
  }

  lemma Filled(c: bytes, o: nat, first: nat, end: nat)
    requires o < first <= end <= |c|
    ensures c[o..end] == [c[o]] + (c[o + 1..first] + c[first..end])
  {
  }

  lemma ArrayText(ws: bytes, items: seq<TextItem>, strtod: Strtod)
    ensures WellFormed(TArray(ws, items), strtod) <==> IsWs(ws) && ItemsOk(items, strtod)
    ensures Meaning(TArray(ws, items)) == Array(ItemsMeaning(items)) && ItemsOk([], strtod) && ItemsMeaning([]) == []
    ensures Spelling(TArray(ws, items))
         == [OPEN_ARRAY] + (if items == [] then ws + [CLOSE_ARRAY] else items[0].before + ItemsSpelling(items))
  {
  }

  lemma ObjectText(ws: bytes, members: seq<TextMember>, strtod: Strtod)
    ensures WellFormed(TObject(ws, members), strtod) <==> IsWs(ws) && MembersOk(members, strtod)
    ensures Meaning(TObject(ws, members)) == Object(MembersMeaning(members)) && MembersOk([], strtod) && MembersMeaning([]) == []
    ensures Spelling(TObject(ws, members))
         == [OPEN_OBJECT] + (if members == [] then ws + [CLOSE_OBJECT] else members[0].before + MembersSpelling(members))
  {
  }

  lemma NoWs()
    ensures IsWs([])
  {
  }

  /** What is inside an array or object begins where skipping has stopped. */
  lemma Inside(c: bytes, o: nat, depth: nat, strtod: Strtod)
    requires o <= |c| && SkipWs(c, o) < |c| && depth <= NESTING_LIMIT
    requires 0 < SkipWs(c, o) && (ItemsAt(c, SkipWs(c, o) - 1, depth, strtod).Ok? || MembersAt(c, SkipWs(c, o) - 1, depth, strtod).Ok?)
    ensures IsWs(c[o..SkipWs(c, o)]) && SkipWs(c, SkipWs(c, o)) == SkipWs(c, o)
  {
    var first := SkipWs(c, o);
    if ItemsAt(c, first - 1, depth, strtod).Ok? {
      ValueBegins(c, SkipWs(c, first), depth, strtod);
    }
    hide ItemsAt, MembersAt, ValueAt, MemberAt, StringAt;
    Skipped(c, o);
  }

  lemma {:induction false} ItemsAreTexts(c: bytes, o: nat, before: bytes, depth: nat, strtod: Strtod) returns (ts: seq<TextItem>)
    requires o < |c| && depth <= NESTING_LIMIT && ItemsAt(c, o, depth, strtod).Ok? && IsWs(before)
    ensures var r := ItemsAt(c, o, depth, strtod);
            && ts != [] && ts[0].before == before && ItemsOk(ts, strtod) && ItemsMeaning(ts) == r.value
            && SkipWs(c, o + 1) <= r.end && ItemsSpelling(ts) == c[SkipWs(c, o + 1)..r.end]
    decreases |c| - o, 0, 1
  {
    hide ValueAt, SkipWs, IsWs, WellFormed, Spelling, Meaning;
    var s := SkipWs(c, o + 1);
    var v := ValueAt(c, s, depth, strtod);
    var next := SkipWs(c, v.end);
    Separated(c, v.end);
    var t := ValueIsText(c, s, depth, strtod);
    var item := TextItem(before, t, c[v.end..next]);
    OneByte(c, next);
    if IsAt(c, next, COMMA) {
      var s2 := SkipWs(c, next + 1);
      ItemBegins(c, next, depth, strtod);
      var rest := ItemsAreTexts(c, next, c[next + 1..s2], depth, strtod);
      ts := [item] + rest;
      assert ts[1..] == rest;
      var end := ItemsAt(c, next, depth, strtod).end;
      ItemsText(ts, strtod);
      hide ItemsOk, ItemsMeaning, ItemsSpelling, ItemsAt;
      Listed(c, s, v.end, next, s2, end);
    } else {
      ts := [item];
      assert ts[1..] == [];
      ItemsText(ts, strtod);
      hide ItemsOk, ItemsMeaning, ItemsSpelling, ItemsAt;
      Joined(c, v.end, next, next + 1);
      Joined(c, s, v.end, next + 1);
    }
  }

  lemma ItemsText(ts: seq<TextItem>, strtod: Strtod)
    requires ts != []
    ensures ItemsOk(ts, strtod)
       <==> IsWs(ts[0].before) && IsWs(ts[0].after) && WellFormed(ts[0].value, strtod) && ItemsOk(ts[1..], strtod)
    ensures ItemsMeaning(ts) == [Meaning(ts[0].value)] + ItemsMeaning(ts[1..]) && ItemsMeaning([]) == [] && ItemsOk([], strtod)
    ensures ItemsSpelling(ts)
         == Spelling(ts[0].value) + (ts[0].after + (if |ts| == 1 then [CLOSE_ARRAY] else [COMMA] + (ts[1].before + ItemsSpelling(ts[1..]))))
  {
  }

  lemma Listed(c: bytes, s: nat, a: nat, b: nat, d: nat, e: nat)
    requires s <= a <= b < d <= e <= |c|
    ensures c[s..a] + (c[a..b] + ([c[b]] + (c[b + 1..d] + c[d..e]))) == c[s..e]
  {
    Filled(c, b, d, e);
    Joined(c, a, b, e);
    Joined(c, s, a, e);
  }

  lemma ItemBegins(c: bytes, o: nat, depth: nat, strtod: Strtod)
    requires o < |c| && depth <= NESTING_LIMIT && ItemsAt(c, o, depth, strtod).Ok?
    ensures IsWs(c[o + 1..SkipWs(c, o + 1)]) && SkipWs(c, o + 1) < |c|
  {
    ValueBegins(c, SkipWs(c, o + 1), depth, strtod);
    hide ItemsAt, ValueAt;
    Skipped(c, o + 1);
  }

  lemma {:induction false} ObjectIsText(c: bytes, o: nat, depth: nat, strtod: Strtod) returns (t: Text)
    requires IsAt(c, o, OPEN_OBJECT) && depth <= NESTING_LIMIT && ObjectAt(c, o, depth, strtod).Ok?
    ensures var r := ObjectAt(c, o, depth, strtod);
            WellFormed(t, strtod) && Spelling(t) == c[o..r.end] && Meaning(t) == r.value
    decreases |c| - o, 2
  {
    ObjectParts(c, o, depth, strtod);
    hide *;
    var first := SkipWs(c, o + 1);
    if IsAt(c, first, CLOSE_OBJECT) {
      t := EmptyObjectText(c, o, strtod);
    } else {
      t := ObjectInsideIsText(c, o, first, depth + 1, strtod);
    }
  }

  lemma {:induction false} ObjectInsideIsText(c: bytes, o: nat, first: nat, depth: nat, strtod: Strtod) returns (t: Text)
    requires IsAt(c, o, OPEN_OBJECT) && first == SkipWs(c, o + 1) && o < first < |c|
    requires depth <= NESTING_LIMIT && MembersAt(c, first - 1, depth, strtod).Ok?
    ensures var r := MembersAt(c, first - 1, depth, strtod);
            first <= r.end && WellFormed(t, strtod) && Spelling(t) == c[o..r.end] && Meaning(t) == Object(r.value)
    decreases |c| - o, 1
  {
    hide *;
    Inside(c, o + 1, depth, strtod);
    var before := c[o + 1..first];
    var r := MembersAt(c, first - 1, depth, strtod);
    var members := MembersAreTexts(c, first - 1, before, depth, strtod);
    t := TObject([], members);
    ObjectFilled(c, o, first, r.end, members, strtod);
  }

  lemma ObjectParts(c: bytes, o: nat, depth: nat, strtod: Strtod)
    requires IsAt(c, o, OPEN_OBJECT) && depth <= NESTING_LIMIT && ObjectAt(c, o, depth, strtod).Ok?
    ensures o < |c| && o < SkipWs(c, o + 1) <= |c| && depth < NESTING_LIMIT
    ensures var r, first := ObjectAt(c, o, depth, strtod), SkipWs(c, o + 1);
            if IsAt(c, first, CLOSE_OBJECT) then r.value == Object([]) && r.end == first + 1
            else
              && first < |c| && MembersAt(c, first - 1, depth + 1, strtod).Ok? && first <= r.end <= |c|
              && r.value == Object(MembersAt(c, first - 1, depth + 1, strtod).value) && r.end == MembersAt(c, first - 1, depth + 1, strtod).end
  {
    hide MembersAt;
  }

  lemma EmptyObjectText(c: bytes, o: nat, strtod: Strtod) returns (t: Text)
    requires IsAt(c, o, OPEN_OBJECT) && IsAt(c, SkipWs(c, o + 1), CLOSE_OBJECT)
    ensures WellFormed(t, strtod) && Spelling(t) == c[o..SkipWs(c, o + 1) + 1] && Meaning(t) == Object([])
  {
    var first := SkipWs(c, o + 1);
    Skipped(c, o + 1);
    t := TObject(c[o + 1..first], []);
    ObjectText(c[o + 1..first], [], strtod);
    hide SkipWs, IsWs, WellFormed, Spelling, Meaning;
    Bracketed(c, o, first);
  }

  lemma ObjectFilled(c: bytes, o: nat, first: nat, end: nat, members: seq<TextMember>, strtod: Strtod)
    requires IsAt(c, o, OPEN_OBJECT) && o < first <= end <= |c| && members != [] && MembersOk(members, strtod)
    requires members[0].before == c[o + 1..first] && MembersSpelling(members) == c[first..end]
    ensures var t := TObject([], members);
            WellFormed(t, strtod) && Spelling(t) == c[o..end] && Meaning(t) == Object(MembersMeaning(members))
  {
    NoWs();
    ObjectText([], members, strtod);
    hide IsWs, WellFormed, Spelling, Meaning, MembersOk, MembersSpelling, MembersMeaning;
    Filled(c, o, first, end);
  }

  lemma {:induction false} MembersAreTexts(c: bytes, o: nat, before: bytes, depth: nat, strtod: Strtod)
    returns (ts: seq<TextMember>)
    requires o < |c| && depth <= NESTING_LIMIT && MembersAt(c, o, depth, strtod).Ok? && IsWs(before)
    ensures var r := MembersAt(c, o, depth, strtod);
            && ts != [] && ts[0].before == before && MembersOk(ts, strtod) && MembersMeaning(ts) == r.value
            && SkipWs(c, o + 1) <= r.end && MembersSpelling(ts) == c[SkipWs(c, o + 1)..r.end]
    decreases |c| - o, 0, 1
  {
    hide MemberAt, SkipWs, IsWs, MemberOk, Spelling, Meaning, MemberMeaning, StringText, MembersOk, MembersMeaning, MembersSpelling;
    var s := SkipWs(c, o + 1);
    var v := MemberAt(c, o, depth, strtod);
    var next := SkipWs(c, v.end);
    Separated(c, v.end);
    var m := MemberIsText(c, o, before, c[v.end..next], depth, strtod);
    OneByte(c, next);
    if IsAt(c, next, COMMA) {
      var s2 := SkipWs(c, next + 1);
      MemberBegins(c, next, depth, strtod);
      var rest := MembersAreTexts(c, next, c[next + 1..s2], depth, strtod);
      ts := [m] + rest;
      assert ts[1..] == rest;
      MembersText(ts, strtod);
      var end := MembersAt(c, next, depth, strtod).end;
      hide MembersAt, MemberText;
      Filled(c, next, s2, end);
      Joined(c, v.end, next, end);
      MemberThen(c, s, m, v.end, c[v.end..end], end);
    } else {
      ts := [m];
      assert ts[1..] == [];
      MembersText(ts, strtod);
      hide MembersAt, MemberText;
      Joined(c, v.end, next, next + 1);
      MemberThen(c, s, m, v.end, c[v.end..next + 1], next + 1);
    }
  }

  lemma MembersText(ts: seq<TextMember>, strtod: Strtod)
    requires ts != []
    ensures MembersOk(ts, strtod) <==> MemberOk(ts[0], strtod) && MembersOk(ts[1..], strtod)
    ensures MembersMeaning(ts) == [MemberMeaning(ts[0])] + MembersMeaning(ts[1..])
    ensures MembersOk([], strtod) && MembersMeaning([]) == []
    ensures var m := ts[0];
            var next := if |ts| == 1 then [CLOSE_OBJECT] else [COMMA] + (ts[1].before + MembersSpelling(ts[1..]));
            MembersSpelling(ts) == StringText(m.name) + (m.ws0 + ([COLON] + (m.ws1 + (Spelling(m.value) + (m.after + next)))))
  {
  }

  /** The text of a member up to the end of its value. */
  function MemberText(m: TextMember): bytes {
    StringText(m.name) + (m.ws0 + ([COLON] + (m.ws1 + Spelling(m.value))))
  }

  lemma MemberThen(c: bytes, s: nat, m: TextMember, end: nat, rest: bytes, stop: nat)
    requires s <= end <= stop <= |c| && MemberText(m) == c[s..end] && rest == c[end..stop]
    ensures StringText(m.name) + (m.ws0 + ([COLON] + (m.ws1 + (Spelling(m.value) + rest)))) == c[s..stop]
  {
    Joined(c, s, end, stop);
    var a, b, d, e := StringText(m.name), m.ws0, m.ws1, Spelling(m.value);
    hide Spelling, StringText;
    assert a + (b + ([COLON] + (d + (e + rest)))) == (a + (b + ([COLON] + (d + e)))) + rest;
  }

  lemma MemberBegins(c: bytes, o: nat, depth: nat, strtod: Strtod)
    requires o < |c| && depth <= NESTING_LIMIT && MembersAt(c, o, depth, strtod).Ok?
    ensures IsWs(c[o + 1..SkipWs(c, o + 1)]) && SkipWs(c, o + 1) < |c|
  {
    assert MemberAt(c, o, depth, strtod).Ok? && NameAt(c, o).Ok?;
    hide MembersAt, ValueAt, MemberAt;
    Skipped(c, o + 1);
  }

  lemma {:induction false} MemberIsText(c: bytes, o: nat, before: bytes, after: bytes, depth: nat, strtod: Strtod)
    returns (m: TextMember)
    requires o < |c| && depth <= NESTING_LIMIT && MemberAt(c, o, depth, strtod).Ok? && IsWs(before) && IsWs(after)
    requires Delimited(c, MemberAt(c, o, depth, strtod).end)
    ensures var r := MemberAt(c, o, depth, strtod);
            && m.before == before && m.after == after && MemberOk(m, strtod) && MemberMeaning(m) == r.value
            && SkipWs(c, o + 1) <= r.end && MemberText(m) == c[SkipWs(c, o + 1)..r.end]
    decreases |c| - o, 0, 0
  {
    hide *;
    var s, name, colon, from, v := MemberParts(c, o, depth, strtod);
    var q := QuotedAt(c, s);
    var t := ValueIsText(c, from, depth, strtod);
    m := TextMember(before, q, c[name.end..colon], c[colon + 1..from], t, after);
    MemberSpelt(m, v.value, strtod);
    Filled(c, colon, from, v.end);
    Joined(c, name.end, colon, v.end);
    Joined(c, s, name.end, v.end);
  }

  /** Where the parts of a member are: the name, behind it the colon, and the value. */
  lemma MemberParts(c: bytes, o: nat, depth: nat, strtod: Strtod)
    returns (s: nat, name: Parse<cstring>, colon: nat, from: nat, v: Parse<Json>)
    requires o < |c| && depth <= NESTING_LIMIT && MemberAt(c, o, depth, strtod).Ok?
    ensures name.Ok? && v.Ok? && o < s < name.end <= colon < from < v.end <= |c|
    ensures s == SkipWs(c, o + 1) && name == StringAt(c, s)
    ensures c[colon] == COLON && IsWs(c[name.end..colon])
    ensures IsWs(c[colon + 1..from]) && v == ValueAt(c, from, depth, strtod)
    ensures MemberAt(c, o, depth, strtod) == Ok(Member(name.value, v.value), v.end)
  {
    hide ValueAt, SkipWs, IsWs, StringAt;
    s := SkipWs(c, o + 1);
    name := StringAt(c, s);
    colon := SkipWs(c, name.end);
    from := SkipWs(c, colon + 1);
    v := ValueAt(c, from, depth, strtod);
    Separated(c, name.end);
    ValueBegins(c, from, depth, strtod);
    Skipped(c, colon + 1);
  }

  lemma MemberSpelt(m: TextMember, v: Json, strtod: Strtod)
    requires QuotedOk(m.name) && WellFormed(m.value, strtod) && Meaning(m.value) == v
    requires IsWs(m.before) && IsWs(m.ws0) && IsWs(m.ws1) && IsWs(m.after)
    ensures MemberOk(m, strtod) && MemberMeaning(m) == Member(m.name.s, v)
    ensures MemberText(m) == StringText(m.name) + (m.ws0 + ([COLON] + (m.ws1 + Spelling(m.value))))
  {
  }

  /** The bytes from o to end are the spelling of t, which means v. */
  predicate Stands(c: bytes, o: nat, t: Text, v: Json, end: nat, strtod: Strtod) {
    WellFormed(t, strtod) && At(c, o, Spelling(t)) && o + |Spelling(t)| == end && Meaning(t) == v
  }

  /** The parser accepts exactly the texts of the grammar: where a value ends and no number goes on, it has
      read v exactly if what stands there is the spelling of a text that means v and v does not nest
      too deep. */
  lemma ParsesExactly(c: bytes, o: nat, v: Json, end: nat, depth: nat, strtod: Strtod)
    requires o <= |c| && depth <= NESTING_LIMIT && Delimited(c, end)
    ensures ValueAt(c, o, depth, strtod) == Ok(v, end)
       <==> depth + Height(v) <= NESTING_LIMIT && exists t :: Stands(c, o, t, v, end, strtod)
  {
    ValueDepth(c, o, depth, strtod);
    hide ValueAt, WellFormed, Spelling, Meaning, Height;
    if ValueAt(c, o, depth, strtod) == Ok(v, end) {
      var t := ValueIsText(c, o, depth, strtod);
      assert Stands(c, o, t, v, end, strtod);
    } else if depth + Height(v) <= NESTING_LIMIT {
      forall t ensures !Stands(c, o, t, v, end, strtod) {
        if Stands(c, o, t, v, end, strtod) {
          ValueParses(c, o, t, depth, strtod);
        }
      }
    }
  }
}
