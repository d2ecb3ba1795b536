/** The cJSON printer: the text of a tree as a function, and the routines that write it into a
    buffer in place, growing the buffer or, for a preallocated one, giving up. */
module JsonPrinter {
  import opened Bytes
  import opened JsonTree
  import opened JsonEscape

  /** What "%1.15g" or "%1.17g" prints for a number that is no int. */
  type RealText = real -> cstring

  const TAB: byte := 0x09
  const NEWLINE: byte := 0x0A
  const SPACE: byte := 0x20

  // ----- the text

  function HexDigit(n: nat): (r: byte)
    requires n < 16
    ensures IsHex(r) && HexValue(r) == n
  {
    if n < 10 then 0x30 + n else 0x61 + n - 10
  }

  predicate OneLetter(b: byte) {
    b in [QUOTE, BACKSLASH, 0x08, 0x09, 0x0A, 0x0C, 0x0D]
  }

  /** The letter of a one-letter escape. */
  function Letter(b: byte): (r: byte)
    requires OneLetter(b)
    ensures r != 0
  {
    if b == 0x08 then 0x62 else if b == 0x09 then 0x74 else if b == 0x0A then 0x6E
    else if b == 0x0C then 0x66 else if b == 0x0D then 0x72 else b
  }

  function EscapeByte(b: byte): (r: bytes)
    requires b != 0
    ensures 0 !in r && 1 <= |r| <= 6
  {
    if OneLetter(b) then [BACKSLASH, Letter(b)]
    else if b < 32 then [BACKSLASH, LETTER_U, 0x30, 0x30, HexDigit(b / 16), HexDigit(b % 16)]
    else [b]
  }

  function Escaped(s: cstring): (r: bytes)
    ensures 0 !in r && |r| >= |s|
  {
    if s == [] then [] else EscapeByte(s[0]) + Escaped(s[1..])
  }

  function RenderString(s: cstring): (r: bytes)
    ensures 0 !in r && |r| >= 2
  {
    [QUOTE] + Escaped(s) + [QUOTE]
  }

  function NumberText(d: real, realText: RealText): (r: cstring) {
    if IsInt(d) then IntText(ValueInt(d)) else realText(d)
  }

  function Tabs(k: nat): (r: bytes)
    ensures |r| == k && 0 !in r
  {
    seq(k, _ => TAB)
  }

  function Separator(format: bool): (r: bytes)
    ensures 0 !in r
  {
    if format then [COMMA, SPACE] else [COMMA]
  }

  /** The text cJSON prints for a tree nested in `depth` containers. */
  function Render(t: Json, format: bool, depth: nat, realText: RealText): (r: bytes)
    ensures 0 !in r
    decreases t, 1
  {
    match t
    case Null => [0x6E, 0x75, 0x6C, 0x6C]
    case Bool(b) => if b then [0x74, 0x72, 0x75, 0x65] else [0x66, 0x61, 0x6C, 0x73, 0x65]
    case Number(d) => NumberText(d, realText)
    case Raw(raw) => raw
    case String(s) => RenderString(s)
    case Array(items) => [0x5B] + RenderItems(items, format, depth + 1, realText) + [0x5D]
    case Object(members) =>
      OpenObject(format) + RenderMembers(members, format, depth + 1, realText) + CloseObject(format, depth)
  }

  function OpenObject(format: bool): (r: bytes)
    ensures 0 !in r
  {
    if format then [0x7B, NEWLINE] else [0x7B]
  }

  function CloseObject(format: bool, depth: nat): (r: bytes)
    ensures 0 !in r && |r| >= 1
  {
    if format then Tabs(depth) + [0x7D] else [0x7D]
  }

  function RenderItems(items: seq<Json>, format: bool, depth: nat, realText: RealText): (r: bytes)
    ensures 0 !in r
    decreases items, 0
  {
    if items == [] then []
    else if |items| == 1 then Render(items[0], format, depth, realText)
    else Render(items[0], format, depth, realText) + (Separator(format) + RenderItems(items[1..], format, depth, realText))
  }

  function KeyText(name: cstring, format: bool, depth: nat): (r: bytes)
    ensures 0 !in r
  {
    (if format then Tabs(depth) else []) + (RenderString(name) + (if format then [COLON, TAB] else [COLON]))
  }

  function MemberEnd(last: bool, format: bool): (r: bytes)
    ensures 0 !in r
  {
    (if last then [] else [COMMA]) + (if format then [NEWLINE] else [])
  }

  function RenderMembers(members: seq<Member>, format: bool, depth: nat, realText: RealText): (r: bytes)
    ensures 0 !in r
    decreases members, 0
  {
    if members == [] then []
    else
      KeyText(members[0].name, format, depth) + (Render(members[0].value, format, depth, realText)
      + (MemberEnd(|members| == 1, format) + RenderMembers(members[1..], format, depth, realText)))
  }

  /** No number needs more than the 25 bytes print_number has for it. */
  predicate NumbersFit(t: Json, realText: RealText)
    decreases t
  {
    match t
    case Number(d) => |NumberText(d, realText)| <= 25
    case Array(items) => forall i :: 0 <= i < |items| ==> NumbersFit(items[i], realText)
    case Object(members) => forall i :: 0 <= i < |members| ==> NumbersFit(members[i].value, realText)
    case _ => true
  }

  // ----- lengths and concatenations the printing loops rely on

  /** The bytes that escaping adds. */
  function Extra(b: byte): nat {
    if OneLetter(b) then 1 else if b < 32 then 5 else 0
  }

  function ExtraOf(s: cstring): nat {
    if s == [] then 0 else Extra(s[0]) + ExtraOf(s[1..])
  }

  lemma EscapedLength(s: cstring)
    ensures |Escaped(s)| == |s| + ExtraOf(s)
  {
  }

  lemma NothingToEscape(s: cstring)
    requires ExtraOf(s) == 0
    ensures Escaped(s) == s
  {
  }

  lemma ExtraOfPrefix(s: cstring, i: nat)
    requires i < |s|
    ensures s[i..][1..] == s[i + 1..] && ExtraOf(s[i..]) == Extra(s[i]) + ExtraOf(s[i + 1..])
    ensures Escaped(s[i..]) == EscapeByte(s[i]) + Escaped(s[i + 1..])
  {
    assert s[i..][1..] == s[i + 1..];
  }

  function ItemText(item: Json, last: bool, format: bool, depth: nat, realText: RealText): (r: bytes)
    ensures 0 !in r
  {
    Render(item, format, depth, realText) + (if last then [] else Separator(format))
  }

  lemma RestOfItems(items: seq<Json>, i: nat, format: bool, depth: nat, realText: RealText)
    requires i < |items|
    ensures RenderItems(items[i..], format, depth, realText)
         == ItemText(items[i], i + 1 == |items|, format, depth, realText) + RenderItems(items[i + 1..], format, depth, realText)
  {
    assert items[i..][1..] == items[i + 1..];
    var a, b, rest := Render(items[i], format, depth, realText), Separator(format), RenderItems(items[i + 1..], format, depth, realText);
    assert a + (b + rest) == a + b + rest;
    assert a + [] + [] == a;
  }

  function MemberText(m: Member, last: bool, format: bool, depth: nat, realText: RealText): (r: bytes)
    ensures 0 !in r
  {
    KeyText(m.name, format, depth) + (Render(m.value, format, depth, realText) + MemberEnd(last, format))
  }

  lemma RestOfMembers(members: seq<Member>, i: nat, format: bool, depth: nat, realText: RealText)
    requires i < |members|
    ensures RenderMembers(members[i..], format, depth, realText)
         == MemberText(members[i], i + 1 == |members|, format, depth, realText) + RenderMembers(members[i + 1..], format, depth, realText)
  {
    assert members[i..][1..] == members[i + 1..];
    var m, last := members[i], i + 1 == |members|;
    var a, b, c := KeyText(m.name, format, depth), Render(m.value, format, depth, realText), MemberEnd(last, format);
    var rest := RenderMembers(members[i + 1..], format, depth, realText);
    assert a + (b + (c + rest)) == a + (b + c) + rest;
  }

  // ----- the buffer

  class PrintBuffer {
    var buffer: array<byte>
    var offset: nat
    var depth: nat
    const noalloc: bool
    const format: bool
    const realText: RealText

    ghost predicate Valid()
      reads this
    {
      buffer.Length <= INT_MAX && (offset < buffer.Length || offset == buffer.Length == 0)
    }

    /** The largest size the buffer can take on. */
    ghost function Cap(): nat
      reads this
    {
      if noalloc then buffer.Length else INT_MAX
    }

    constructor (buffer: array<byte>, noalloc: bool, format: bool, realText: RealText)
      requires buffer.Length <= INT_MAX
      ensures Valid() && this.buffer == buffer && offset == 0 && depth == 0
      ensures this.noalloc == noalloc && this.format == format && this.realText == realText
    {
      this.buffer, this.noalloc, this.format, this.realText := buffer, noalloc, format, realText;
      offset, depth := 0, 0;
    }

    /** Only the buffer and what hangs on it may have changed. */
    twostate predicate SameBuffer()
      reads this
    {
      (buffer == old(buffer) || fresh(buffer)) && (noalloc ==> buffer == old(buffer))
    }

    /** The text so far ends at the offset. */
    ghost predicate Written(text: bytes)
      reads this, buffer
    {
      offset == |text| <= buffer.Length && buffer[..offset] == text
    }

    /** The text is in the buffer with a NUL behind it; the offset may still lag behind. */
    ghost predicate Printed(from: nat, text: bytes)
      reads this, buffer
    {
      from <= offset <= |text| < buffer.Length && buffer[..|text|] == text && buffer[|text|] == 0
    }

    /** ensure: makes room for `needed` bytes and a NUL behind the offset. */
    method Ensure(needed: nat) returns (ok: bool)
      requires Valid()
      modifies this`buffer
      ensures Valid() && SameBuffer()
      ensures ok <==> offset + needed + 1 <= old(Cap())
      ensures ok ==> offset + needed < buffer.Length
      ensures buffer.Length >= old(buffer.Length) && buffer[..offset] == old(buffer[..offset])
    {
      if buffer.Length > 0 && offset >= buffer.Length {
        return false;
      }
      if needed > INT_MAX {
        return false;
      }
      var total := needed + offset + 1;
      if total <= buffer.Length {
        return true;
      }
      if noalloc {
        return false;
      }
      var newSize;
      if total > INT_MAX / 2 {
        if total <= INT_MAX {
          newSize := INT_MAX;
        } else {
          return false;
        }
      } else {
        newSize := total * 2;
      }
      var newBuffer := new byte[newSize];
      forall i | 0 <= i < buffer.Length {
        newBuffer[i] := buffer[i];
      }
      assert newBuffer[..offset] == buffer[..offset];
      buffer := newBuffer;
      ok := true;
    }

    /** update_offset: moves to the NUL behind the text just printed. */
    method UpdateOffset(ghost from: nat, ghost text: bytes)
      requires Valid() && Printed(from, text) && 0 !in text[from..]
      modifies this`offset
      ensures Valid() && Written(text) && offset < buffer.Length && buffer[offset] == 0
    {
      assert forall i :: from <= i < |text| ==> buffer[i] == text[i] == text[from..][i - from];
      while buffer[offset] != 0
        invariant from <= offset <= |text|
        invariant Printed(from, text)
        decreases |text| - offset
      {
        offset := offset + 1;
      }
    }

    /** strcpy or memcpy to the place `at`. */
    method Put(at: nat, s: bytes)
      requires at + |s| <= buffer.Length
      modifies buffer
      ensures buffer[..at + |s|] == old(buffer[..at]) + s
    {
      forall i | 0 <= i < |s| {
        buffer[at + i] := s[i];
      }
    }

    /** A text of fixed length: reserve, copy with its NUL. */
    method PrintText(text: bytes) returns (ok: bool)
      requires Valid() && 0 !in text
      modifies this`buffer, buffer
      ensures Valid() && SameBuffer() && Cap() == old(Cap())
      ensures ok <==> offset + |text| + 2 <= old(Cap())
      ensures ok ==> Printed(offset, old(buffer[..offset]) + text)
    {
      ok := Ensure(|text| + 1);
      if ok {
        Put(offset, text + [0]);
        assert buffer[..offset + |text|] == buffer[..offset + |text| + 1][..offset + |text|];
      }
    }

    method PrintNumber(d: real) returns (ok: bool)
      requires Valid()
      modifies this`buffer, this`offset, buffer
      ensures Valid() && SameBuffer() && Cap() == old(Cap())
      ensures ok <==> |NumberText(d, realText)| <= 25 && old(offset) + |NumberText(d, realText)| + 2 <= old(Cap())
      ensures ok ==> Printed(old(offset), old(buffer[..offset]) + NumberText(d, realText))
    {
      var number := if d == ValueInt(d) as real then IntText(ValueInt(d)) else realText(d);
      if |number| > 25 {
        return false;
      }
      ok := PrintText(number);
      if ok {
        offset := offset + |number|;
      }
    }

    /** First loop of print_string_ptr. */
    method CountEscapes(s: cstring) returns (extra: nat)
      ensures extra == ExtraOf(s)
    {
      extra := 0;
      var i := 0;
      while i < |s|
        invariant 0 <= i <= |s|
        invariant extra + ExtraOf(s[i..]) == ExtraOf(s)
      {
        ExtraOfPrefix(s, i);
        if s[i] in [QUOTE, BACKSLASH, 0x08, 0x0C, 0x0A, 0x0D, 0x09] {
          extra := extra + 1;
        } else if s[i] < 32 {
          extra := extra + 5;
        }
        i := i + 1;
      }
    }

    method PrintString(s: cstring) returns (ok: bool)
      requires Valid()
      modifies this`buffer, buffer
      ensures Valid() && SameBuffer() && Cap() == old(Cap())
      ensures ok <==> offset + |RenderString(s)| + 2 <= old(Cap())
      ensures ok ==> Printed(offset, old(buffer[..offset]) + RenderString(s))
    {
      var extra := CountEscapes(s);
      var outputLength := |s| + extra;
      EscapedLength(s);
      ok := Ensure(outputLength + 3);
      if ok {
        WriteString(s, extra, offset);
        PlusNul(buffer[..offset + outputLength + 3], old(buffer[..offset]) + RenderString(s));
      }
    }

    lemma PlusNul(whole: bytes, s: bytes)
      requires whole == s + [0]
      ensures |whole| == |s| + 1 && whole[..|s|] == s && whole[|s|] == 0
    {
    }

    /** The quoted and escaped string with its NUL; nothing to escape means a plain copy. */
    method WriteString(s: cstring, extra: nat, at: nat)
      requires extra == ExtraOf(s) && at + |RenderString(s)| + 1 <= buffer.Length
      modifies buffer
      ensures buffer[..at + |RenderString(s)| + 1] == old(buffer[..at]) + RenderString(s) + [0]
    {
      hide Escaped, ExtraOf;
      EscapedLength(s);
      ghost var base := buffer[..at];
      var end := at + 1 + |s| + extra;
      Put(at, [QUOTE]);
      if extra == 0 {
        NothingToEscape(s);
        Put(at + 1, s);
      } else {
        WriteEscaped(s, at + 1);
      }
      Put(end, [QUOTE, 0]);
      assert base + [QUOTE] + Escaped(s) + [QUOTE, 0] == base + ([QUOTE] + Escaped(s) + [QUOTE]) + [0];
    }

    /** Second loop of print_string_ptr. */
    method WriteEscaped(s: cstring, at: nat)
      requires at + |Escaped(s)| <= buffer.Length
      modifies buffer
      ensures buffer[..at + |Escaped(s)|] == old(buffer[..at]) + Escaped(s)
    {
      var i, out := 0, at;
      while i < |s|
        invariant 0 <= i <= |s| && at <= out
        invariant out + |Escaped(s[i..])| == at + |Escaped(s)|
        invariant buffer[..out] + Escaped(s[i..]) == old(buffer[..at]) + Escaped(s)
      {
        hide Escaped;
        ExtraOfPrefix(s, i);
        ghost var before, rest := buffer[..out], Escaped(s[i + 1..]);
        out := WriteEscape(s[i], out);
        Associate(before, EscapeByte(s[i]), rest);
        i := i + 1;
      }
      assert buffer[..out] + [] == buffer[..out];
    }

    /** One turn of that loop. */
    method WriteEscape(b: byte, at: nat) returns (out: nat)
      requires b != 0 && at + |EscapeByte(b)| <= buffer.Length
      modifies buffer
      ensures out == at + |EscapeByte(b)|
      ensures buffer[..out] == old(buffer[..at]) + EscapeByte(b)
    {
      if b > 31 && b != QUOTE && b != BACKSLASH {
        Put(at, [b]);
        out := at + 1;
      } else if OneLetter(b) {
        Put(at, [BACKSLASH, Letter(b)]);
        out := at + 2;
      } else {
        Put(at, [BACKSLASH, LETTER_U, 0x30, 0x30, HexDigit(b / 16), HexDigit(b % 16)]);
        out := at + 6;
      }
    }

    method PrintValue(t: Json) returns (ok: bool)
      requires Valid()
      modifies this`buffer, this`offset, this`depth, buffer
      ensures Valid() && SameBuffer() && Cap() == old(Cap())
      ensures ok <==> NumbersFit(t, realText) && old(offset) + |Render(t, format, old(depth), realText)| + 2 <= old(Cap())
      ensures ok ==> Printed(old(offset), old(buffer[..offset]) + Render(t, format, old(depth), realText)) && depth == old(depth)
      decreases t, 2
    {
      match t
      case Null => ok := PrintText([0x6E, 0x75, 0x6C, 0x6C]);
      case Bool(b) => ok := PrintText(if b then [0x74, 0x72, 0x75, 0x65] else [0x66, 0x61, 0x6C, 0x73, 0x65]);
      case Number(d) => ok := PrintNumber(d);
      case Raw(raw) => ok := PrintText(raw);
      case String(s) => ok := PrintString(s);
      case Array(items) => ok := PrintArray(t);
      case Object(members) => ok := PrintObject(t);
    }

    /** Writes a fixed text behind the offset and moves over it. */
    method Append(text: bytes, reserve: nat) returns (ok: bool)
      requires Valid() && reserve >= |text|
      modifies this`buffer, this`offset, buffer
      ensures Valid() && SameBuffer() && Cap() == old(Cap())
      ensures ok <==> old(offset) + reserve + 1 <= old(Cap())
      ensures ok ==> Written(old(buffer[..offset]) + text)
      ensures !ok ==> offset == old(offset)
    {
      ok := Ensure(reserve);
      if ok {
        Put(offset, text);
        offset := offset + |text|;
      }
    }

    method PrintArray(t: Json) returns (ok: bool)
      requires Valid() && t.Array?
      modifies this`buffer, this`offset, this`depth, buffer
      ensures Valid() && SameBuffer() && Cap() == old(Cap())
      ensures ok <==> NumbersFit(t, realText) && old(offset) + |Render(t, format, old(depth), realText)| + 2 <= old(Cap())
      ensures ok ==> Printed(old(offset), old(buffer[..offset]) + Render(t, format, old(depth), realText)) && depth == old(depth)
      decreases t, 1
    {
      hide RenderItems;
      ghost var base, inner := buffer[..offset], RenderItems(t.items, format, depth + 1, realText);
      assert base + [0x5B] + inner + [0x5D] == base + Render(t, format, depth, realText);
      ok := Append([0x5B], 1);
      if !ok {
        return;
      }
      depth := depth + 1;
      ok := PrintItems(t.items);
      if !ok {
        return;
      }
      ok := PrintText([0x5D]);
      depth := depth - 1;
    }

    /** The loop of print_array. */
    method PrintItems(items: seq<Json>) returns (ok: bool)
      requires Valid()
      modifies this`buffer, this`offset, this`depth, buffer
      ensures Valid() && SameBuffer() && Cap() == old(Cap())
      ensures ok <==>
                && (forall i :: 0 <= i < |items| ==> NumbersFit(items[i], realText))
                && (items != [] ==> old(offset) + |RenderItems(items, format, old(depth), realText)| + 2 <= old(Cap()))
      ensures ok ==> Written(old(buffer[..offset]) + RenderItems(items, format, old(depth), realText)) && depth == old(depth)
      decreases items, 0
    {
      hide Render, RenderItems, NumbersFit, ItemText;
      ghost var base, d, cap := buffer[..offset], depth, Cap();
      ghost var whole := base + RenderItems(items, format, d, realText);
      ghost var done := base;
      var i := 0;
      assert items[0..] == items;
      while i < |items|
        invariant 0 <= i <= |items|
        invariant Valid() && SameBuffer() && Cap() == cap && depth == d
        invariant Written(done) && done + RenderItems(items[i..], format, d, realText) == whole
        invariant forall j :: 0 <= j < i ==> NumbersFit(items[j], realText)
        invariant i > 0 ==> |done| + 2 <= cap
      {
        RestOfItems(items, i, format, d, realText);
        ghost var text := ItemText(items[i], i + 1 == |items|, format, d, realText);
        assert done + (text + RenderItems(items[i + 1..], format, d, realText))
            == done + text + RenderItems(items[i + 1..], format, d, realText);
        ok := PrintItem(items[i], i + 1 == |items|);
        if !ok {
          return;
        }
        done := done + text;
        i := i + 1;
      }
      ok := true;
      assert items[i..] == [];
      assert done + RenderItems([], format, d, realText) == done by { NoItems(format, d); }
    }

    lemma NoItems(format: bool, d: nat)
      ensures RenderItems([], format, d, realText) == [] == RenderMembers([], format, d, realText)
    {
    }

    /** An element, and the separator unless it is the last. */
    method PrintItem(item: Json, last: bool) returns (ok: bool)
      requires Valid()
      modifies this`buffer, this`offset, this`depth, buffer
      ensures Valid() && SameBuffer() && Cap() == old(Cap())
      ensures var text := ItemText(item, last, format, old(depth), realText);
              && (ok <==> NumbersFit(item, realText) && old(offset) + |text| + 2 <= old(Cap()))
              && (ok ==> Written(old(buffer[..offset]) + text) && depth == old(depth))
      decreases item, 3
    {
      hide Render, NumbersFit;
      ghost var base, text := buffer[..offset], Render(item, format, depth, realText);
      ok := PrintValue(item);
      if !ok {
        return;
      }
      assert (base + text)[|base|..] == text;
      UpdateOffset(|base|, base + text);
      if !last {
        ok := Append(Separator(format), |Separator(format)| + 1);
      }
      assert base + text + Separator(format) == base + (text + Separator(format));
      assert base + (text + []) == base + text;
    }

    method PrintObject(t: Json) returns (ok: bool)
      requires Valid() && t.Object?
      modifies this`buffer, this`offset, this`depth, buffer
      ensures Valid() && SameBuffer() && Cap() == old(Cap())
      ensures ok <==> NumbersFit(t, realText) && old(offset) + |Render(t, format, old(depth), realText)| + 2 <= old(Cap())
      ensures ok ==> Printed(old(offset), old(buffer[..offset]) + Render(t, format, old(depth), realText)) && depth == old(depth)
      decreases t, 1
    {
      hide RenderMembers;
      ghost var base, inner := buffer[..offset], RenderMembers(t.members, format, depth + 1, realText);
      assert base + OpenObject(format) + inner + CloseObject(format, depth) == base + Render(t, format, depth, realText);
      ok := Append(OpenObject(format), |OpenObject(format)| + 1);
      if !ok {
        return;
      }
      depth := depth + 1;
      ok := PrintMembers(t.members);
      if !ok {
        return;
      }
      ok := PrintText(CloseObject(format, depth - 1));
      depth := depth - 1;
    }

    /** The loop of print_object. */
    method PrintMembers(members: seq<Member>) returns (ok: bool)
      requires Valid()
      modifies this`buffer, this`offset, this`depth, buffer
      ensures Valid() && SameBuffer() && Cap() == old(Cap())
      ensures ok <==>
                && (forall i :: 0 <= i < |members| ==> NumbersFit(members[i].value, realText))
                && (members != [] ==> old(offset) + |RenderMembers(members, format, old(depth), realText)| + 2 <= old(Cap()))
      ensures ok ==> Written(old(buffer[..offset]) + RenderMembers(members, format, old(depth), realText)) && depth == old(depth)
      decreases members, 0
    {
      hide Render, RenderMembers, NumbersFit, MemberText;
      ghost var base, d, cap := buffer[..offset], depth, Cap();
      ghost var whole := base + RenderMembers(members, format, d, realText);
      ghost var done := base;
      var i := 0;
      assert members[0..] == members;
      while i < |members|
        invariant 0 <= i <= |members|
        invariant Valid() && SameBuffer() && Cap() == cap && depth == d
        invariant Written(done) && done + RenderMembers(members[i..], format, d, realText) == whole
        invariant forall j :: 0 <= j < i ==> NumbersFit(members[j].value, realText)
        invariant i > 0 ==> |done| + 2 <= cap
      {
        RestOfMembers(members, i, format, d, realText);
        ghost var text := MemberText(members[i], i + 1 == |members|, format, d, realText);
        assert done + (text + RenderMembers(members[i + 1..], format, d, realText))
            == done + text + RenderMembers(members[i + 1..], format, d, realText);
        ok := PrintMember(members[i], i + 1 == |members|);
        if !ok {
          return;
        }
        done := done + text;
        i := i + 1;
      }
      ok := true;
      assert members[i..] == [];
      assert done + RenderMembers([], format, d, realText) == done by { NoItems(format, d); }
    }

    /** Indentation, key, colon, value, comma and newline. */
    method PrintMember(m: Member, last: bool) returns (ok: bool)
      requires Valid()
      modifies this`buffer, this`offset, this`depth, buffer
      ensures Valid() && SameBuffer() && Cap() == old(Cap())
      ensures var text := MemberText(m, last, format, old(depth), realText);
              && (ok <==> NumbersFit(m.value, realText) && old(offset) + |text| + 2 <= old(Cap()))
              && (ok ==> Written(old(buffer[..offset]) + text) && depth == old(depth))
      decreases m, 4
    {
      hide Render, NumbersFit, KeyText, MemberEnd;
      ghost var base, key, value := buffer[..offset], KeyText(m.name, format, depth), Render(m.value, format, depth, realText);
      ghost var end := MemberEnd(last, format);
      assert base + key + value + end == base + MemberText(m, last, format, depth, realText);
      ok := PrintKey(m.name);
      if !ok {
        return;
      }
      ok := PrintValue(m.value);
      if !ok {
        return;
      }
      assert (base + key + value)[|base + key|..] == value;
      UpdateOffset(|base + key|, base + key + value);
      ok := Append(MemberEnd(last, format), |MemberEnd(last, format)| + 1);
    }

    method PrintKey(name: cstring) returns (ok: bool)
      requires Valid()
      modifies this`buffer, this`offset, buffer
      ensures Valid() && SameBuffer() && Cap() == old(Cap())
      ensures var text := KeyText(name, format, depth);
              && (ok <==> old(offset) + |text| + 1 <= old(Cap()))
              && (ok ==> Written(old(buffer[..offset]) + text))
    {
      hide RenderString, Tabs;
      ghost var base, quoted := buffer[..offset], RenderString(name);
      ghost var indent := if format then Tabs(depth) else [];
      ghost var colon := if format then [COLON, TAB] else [COLON];
      assert base + indent + quoted + colon == base + KeyText(name, format, depth);
      if format {
        ok := AppendTabs();
        if !ok {
          return;
        }
      }
      assert base + [] == base;
      ok := PrintString(name);
      if !ok {
        return;
      }
      assert (base + indent + quoted)[|base + indent|..] == quoted;
      UpdateOffset(|base + indent|, base + indent + quoted);
      ok := Append(if format then [COLON, TAB] else [COLON], if format then 2 else 1);
    }

    method AppendTabs() returns (ok: bool)
      requires Valid()
      modifies this`buffer, this`offset, buffer
      ensures Valid() && SameBuffer() && Cap() == old(Cap())
      ensures ok <==> old(offset) + depth + 1 <= old(Cap())
      ensures ok ==> Written(old(buffer[..offset]) + Tabs(depth))
    {
      ok := Ensure(depth);
      if !ok {
        return;
      }
      var i := 0;
      while i < depth
        invariant 0 <= i <= depth
        invariant Valid() && SameBuffer() && Cap() == old(Cap()) && offset + depth < buffer.Length
        invariant buffer[..offset + i] == old(buffer[..offset]) + Tabs(i)
      {
        Put(offset + i, [TAB]);
        assert Tabs(i + 1) == Tabs(i) + [TAB];
        i := i + 1;
      }
      offset := offset + depth;
    }
  }

  // ----- entry points

  /** print: cJSON_Print and cJSON_PrintUnformatted. The text with its NUL, in a block of just that size. */
  method Print(t: Json, format: bool, realText: RealText) returns (printed: Option<array<byte>>)
    ensures printed.Some? <==> NumbersFit(t, realText) && |Render(t, format, 0, realText)| + 2 <= INT_MAX
    ensures printed.Some? ==> fresh(printed.value) && printed.value[..] == Render(t, format, 0, realText) + [0]
  {
    hide Render, NumbersFit;
    ghost var text := Render(t, format, 0, realText);
    var start := new byte[256];
    var p := new PrintBuffer(start, false, format, realText);
    assert p.buffer[..p.offset] == [] && [] + text == text;
    var ok := p.PrintValue(t);
    if !ok {
      return None;
    }
    assert text[0..] == text;
    p.UpdateOffset(0, text);
    var block := new byte[p.offset + 1];
    forall i | 0 <= i < block.Length {
      block[i] := p.buffer[i];
    }
    assert block[..] == text + [0];
    printed := Some(block);
  }

  /** cJSON_PrintBuffered: the caller's guess of the size only saves reallocations. */
  method PrintBuffered(t: Json, prebuffer: int, format: bool, realText: RealText) returns (printed: Option<array<byte>>)
    requires prebuffer <= INT_MAX
    ensures printed.Some? <==> prebuffer >= 0 && NumbersFit(t, realText) && |Render(t, format, 0, realText)| + 2 <= INT_MAX
    ensures printed.Some? ==>
              var text := Render(t, format, 0, realText);
              |text| < printed.value.Length && printed.value[..|text|] == text && printed.value[|text|] == 0
  {
    hide Render, NumbersFit;
    if prebuffer < 0 {
      return None;
    }
    var start := new byte[prebuffer];
    var p := new PrintBuffer(start, false, format, realText);
    assert p.buffer[..p.offset] == [] && [] + Render(t, format, 0, realText) == Render(t, format, 0, realText);
    var ok := p.PrintValue(t);
    printed := if ok then Some(p.buffer) else None;
  }

  /** cJSON_PrintPreallocated: true means that the text and its NUL stand in the caller's buffer,
      and one byte more than they need is all the room that is ever asked for. */
  method PrintPreallocated(t: Json, buffer: array<byte>, format: bool, realText: RealText) returns (ok: bool)
    requires buffer.Length <= INT_MAX
    modifies buffer
    ensures ok <==> NumbersFit(t, realText) && |Render(t, format, 0, realText)| + 2 <= buffer.Length
    ensures ok ==>
              var text := Render(t, format, 0, realText);
              buffer[..|text|] == text && buffer[|text|] == 0
  {
    hide Render, NumbersFit;
    var p := new PrintBuffer(buffer, true, format, realText);
    assert p.buffer[..p.offset] == [] && [] + Render(t, format, 0, realText) == Render(t, format, 0, realText);
    ok := p.PrintValue(t);
  }
}
