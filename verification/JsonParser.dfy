/** The cJSON parser: what each routine reads at an offset, as functions on the buffer, and the
    routines themselves, advancing the offset and depth of a parse buffer in place. */
module JsonParser {
  import opened Bytes
  import opened JsonTree
  import opened JsonEscape

  /** A value and the offset after it, or the offset where parsing gave up. */
  datatype Parse<+T> = Ok(value: T, end: nat) | Bad(at: nat)

  /** strtod on a C string: how many bytes it used, and the number. */
  type Strtod = f: bytes -> (nat, real) | forall s :: f(s).0 <= |s| witness (s: bytes) => (0, 0.0)

  /** strtod reads the decimal text of an int in full, as that int. */
  ghost predicate ReadsInts(strtod: Strtod) {
    forall n :: INT_MIN <= n <= INT_MAX ==> strtod(IntText(n)) == (|IntText(n)|, n as real)
  }

  function Prepend<T>(front: seq<T>, r: Parse<seq<T>>): Parse<seq<T>> {
    match r
    case Ok(rest, end) => Ok(front + rest, end)
    case Bad(at) => Bad(at)
  }

  lemma PrependPrepend<T>(a: seq<T>, b: seq<T>, r: Parse<seq<T>>)
    ensures Prepend(a, Prepend(b, r)) == Prepend(a + b, r)
    ensures Prepend([], r) == r
  {
    match r
    case Ok(rest, end) => assert a + (b + rest) == (a + b) + rest; assert [] + rest == rest;
    case Bad(at) =>
  }

  // ----- whitespace

  /** The first byte from `o` on that is above 32. */
  function WsEnd(c: bytes, o: nat): (k: nat)
    requires o <= |c|
    ensures o <= k <= |c|
    ensures forall i :: o <= i < k ==> c[i] <= 32
    ensures k < |c| ==> c[k] > 32
    decreases |c| - o
  {
    if o < |c| && c[o] <= 32 then WsEnd(c, o + 1) else o
  }

  /** Where buffer_skip_whitespace leaves the offset: one back when it ran into the end. */
  function SkipWs(c: bytes, o: nat): (k: nat)
    requires o <= |c|
    ensures o <= k <= |c|
    ensures o < |c| ==> k < |c|
  {
    if o == |c| then o
    else if WsEnd(c, o) == |c| then |c| - 1
    else WsEnd(c, o)
  }

  // ----- strings

  /** First pass: the closing quote, skipping the byte after each backslash. */
  function StringEnd(c: bytes, p: nat): (r: Option<nat>)
    requires p <= |c|
    ensures r.Some? ==> p <= r.value < |c| && c[r.value] == QUOTE
    decreases |c| - p
  {
    if p == |c| then None
    else if c[p] == QUOTE then Some(p)
    else if c[p] == BACKSLASH then
      if p + 1 == |c| then None else StringEnd(c, p + 2)
    else StringEnd(c, p + 1)
  }

  /** The byte that a one-letter escape stands for. */
  function Unescaped(c: byte): Option<byte> {
    if c == 0x62 then Some(0x08)
    else if c == 0x66 then Some(0x0C)
    else if c == 0x6E then Some(0x0A)
    else if c == 0x72 then Some(0x0D)
    else if c == 0x74 then Some(0x09)
    else if c == QUOTE || c == BACKSLASH || c == 0x2F then Some(c)
    else None
  }

  /** The escape sequence at `p`: the bytes it stands for, and how far the second pass steps. */
  function EscapeAt(c: bytes, p: nat, end: nat): (r: Option<(bytes, nat)>)
    requires p < end < |c|
    ensures r.Some? ==> 1 <= |r.value.0| && 2 * |r.value.0| <= r.value.1
    ensures r.Some? ==> r.value.1 in [2, 6, 12]
    ensures r.Some? ==> p + r.value.1 <= end + 1
  {
    if c[p + 1] == LETTER_U then
      match Literal(c, p, end)
      case Some((cp, len)) => Some((Utf8(cp), len))
      case None => None
    else
      match Unescaped(c[p + 1])
      case Some(b) => Some(([b], 2))
      case None => None
  }

  /** Second pass: the decoded bytes from `p` up to the closing quote at `end`. */
  function Unescape(c: bytes, p: nat, end: nat): (r: Parse<bytes>)
    requires end < |c|
    ensures r.Bad? ==> p <= r.at < end
    decreases end - p
  {
    if p >= end then Ok([], p)
    else if c[p] != BACKSLASH then Prepend([c[p]], Unescape(c, p + 1, end))
    else
      match EscapeAt(c, p, end)
      case Some((decoded, len)) => Prepend(decoded, Unescape(c, p + len, end))
      case None => Bad(p)
  }

  /** The whole of parse_string at `o`. */
  function StringAt(c: bytes, o: nat): (r: Parse<cstring>)
    requires o < |c|
    ensures r.Ok? ==> o + 1 < r.end <= |c|
    ensures r.Bad? ==> o <= r.at <= |c|
  {
    if c[o] != QUOTE then Bad(o + 1)
    else
      match StringEnd(c, o + 1)
      case None => Bad(o + 1)
      case Some(end) =>
        match Unescape(c, o + 1, end)
        case Ok(s, _) => Ok(CString(s), end + 1)
        case Bad(at) => Bad(at)
  }

  // ----- numbers

  predicate IsNumberByte(c: byte) {
    IsDigit(c) || c == 0x2B || c == 0x2D || c == 0x65 || c == 0x45 || c == 0x2E
  }

  /** The number bytes from `o` on, up to `limit`. */
  function NumberToken(c: bytes, o: nat, limit: nat): (r: bytes)
    requires o <= limit <= |c|
    ensures o + |r| <= limit && r == c[o..o + |r|]
    ensures forall i :: 0 <= i < |r| ==> IsNumberByte(r[i])
    ensures o + |r| < limit ==> !IsNumberByte(c[o + |r|])
    decreases limit - o
  {
    if o == limit || !IsNumberByte(c[o]) then []
    else [c[o]] + NumberToken(c, o + 1, limit)
  }

  lemma NumberTokenIs(c: bytes, o: nat, limit: nat, end: nat)
    requires o <= end <= limit <= |c|
    requires forall j :: o <= j < end ==> IsNumberByte(c[j])
    requires end < limit ==> !IsNumberByte(c[end])
    ensures NumberToken(c, o, limit) == c[o..end]
    decreases end - o
  {
    if o < end {
      NumberTokenIs(c, o + 1, limit, end);
    }
  }

  /** Where copying into the 64-byte buffer that strtod reads has to stop. */
  function NumberLimit(c: bytes, o: nat): (limit: nat)
    requires o <= |c|
    ensures o <= limit <= |c|
  {
    if o + 63 <= |c| then o + 63 else |c|
  }

  function NumberAt(c: bytes, o: nat, strtod: Strtod): (r: Parse<Json>)
    requires o <= |c|
    ensures r.Ok? ==> o < r.end <= |c| && r.value.Number?
    ensures r.Bad? ==> o <= r.at <= |c|
  {
    var (used, d) := strtod(NumberToken(c, o, NumberLimit(c, o)));
    if used == 0 then Bad(o) else Ok(Number(d), o + used)
  }

  // ----- values

  const NULL_TEXT: bytes := [0x6E, 0x75, 0x6C, 0x6C]
  const TRUE_TEXT: bytes := [0x74, 0x72, 0x75, 0x65]
  const FALSE_TEXT: bytes := [0x66, 0x61, 0x6C, 0x73, 0x65]
  const OPEN_ARRAY: byte := 0x5B
  const CLOSE_ARRAY: byte := 0x5D
  const OPEN_OBJECT: byte := 0x7B
  const CLOSE_OBJECT: byte := 0x7D

  predicate IsAt(c: bytes, o: nat, b: byte) {
    o < |c| && c[o] == b
  }

  /** The whole of parse_value at `o`, inside `depth` open containers. On success something was
      read, nothing past the end, and no container lies deeper than the limit. */
  function ValueAt(c: bytes, o: nat, depth: nat, strtod: Strtod): (r: Parse<Json>)
    requires o <= |c| && depth <= NESTING_LIMIT
    ensures r.Ok? ==> o < r.end <= |c|
    ensures r.Bad? ==> o <= r.at <= |c|
    decreases |c| - o, 3
  {
    if At(c, o, NULL_TEXT) then Ok(Null, o + 4)
    else if At(c, o, FALSE_TEXT) then Ok(Bool(false), o + 5)
    else if At(c, o, TRUE_TEXT) then Ok(Bool(true), o + 4)
    else if IsAt(c, o, QUOTE) then
      match StringAt(c, o)
      case Ok(s, end) => Ok(String(s), end)
      case Bad(at) => Bad(at)
    else if o < |c| && (c[o] == MINUS || IsDigit(c[o])) then NumberAt(c, o, strtod)
    else if IsAt(c, o, OPEN_ARRAY) then ArrayAt(c, o, depth, strtod)
    else if IsAt(c, o, OPEN_OBJECT) then ObjectAt(c, o, depth, strtod)
    else Bad(o)
  }

  function ArrayAt(c: bytes, o: nat, depth: nat, strtod: Strtod): (r: Parse<Json>)
    requires IsAt(c, o, OPEN_ARRAY) && depth <= NESTING_LIMIT
    ensures r.Ok? ==> o < r.end <= |c| && r.value.Array?
    ensures r.Bad? ==> o <= r.at <= |c|
    decreases |c| - o, 2
  {
    if depth >= NESTING_LIMIT then Bad(o)
    else
      var first := SkipWs(c, o + 1);
      if IsAt(c, first, CLOSE_ARRAY) then Ok(Array([]), first + 1)
      else if first >= |c| then Bad(first - 1)
      else
        match ItemsAt(c, first - 1, depth + 1, strtod)
        case Ok(items, end) => Ok(Array(items), end)
        case Bad(at) => Bad(at)
  }

  /** The element loop of parse_array, from the byte before an element to behind the bracket. */
  function ItemsAt(c: bytes, o: nat, depth: nat, strtod: Strtod): (r: Parse<seq<Json>>)
    requires o < |c| && depth <= NESTING_LIMIT
    ensures r.Ok? ==> o < r.end <= |c|
    ensures r.Bad? ==> o <= r.at <= |c|
    decreases |c| - o, 1
  {
    match ValueAt(c, SkipWs(c, o + 1), depth, strtod)
    case Bad(at) => Bad(at)
    case Ok(v, end) =>
      var next := SkipWs(c, end);
      if IsAt(c, next, COMMA) then Prepend([v], ItemsAt(c, next, depth, strtod))
      else if IsAt(c, next, CLOSE_ARRAY) then Ok([v], next + 1)
      else Bad(next)
  }

  function ObjectAt(c: bytes, o: nat, depth: nat, strtod: Strtod): (r: Parse<Json>)
    requires IsAt(c, o, OPEN_OBJECT) && depth <= NESTING_LIMIT
    ensures r.Ok? ==> o < r.end <= |c| && r.value.Object?
    ensures r.Bad? ==> o <= r.at <= |c|
    decreases |c| - o, 2
  {
    if depth >= NESTING_LIMIT then Bad(o)
    else
      var first := SkipWs(c, o + 1);
      if IsAt(c, first, CLOSE_OBJECT) then Ok(Object([]), first + 1)
      else if first >= |c| then Bad(first - 1)
      else
        match MembersAt(c, first - 1, depth + 1, strtod)
        case Ok(members, end) => Ok(Object(members), end)
        case Bad(at) => Bad(at)
  }

  /** A member name and its colon. */
  function NameAt(c: bytes, o: nat): (r: Parse<cstring>)
    requires o < |c|
    ensures r.Ok? ==> o < r.end <= |c|
    ensures r.Bad? ==> o <= r.at <= |c|
  {
    if o + 1 >= |c| then Bad(o)
    else
      match StringAt(c, SkipWs(c, o + 1))
      case Bad(at) => Bad(at)
      case Ok(name, end) =>
        var colon := SkipWs(c, end);
        if IsAt(c, colon, COLON) then Ok(name, colon + 1) else Bad(colon)
  }

  /** A name, its colon and its value: one turn of the loop of parse_object. */
  function MemberAt(c: bytes, o: nat, depth: nat, strtod: Strtod): (r: Parse<Member>)
    requires o < |c| && depth <= NESTING_LIMIT
    ensures r.Ok? ==> o < r.end <= |c|
    ensures r.Bad? ==> o <= r.at <= |c|
    decreases |c| - o, 0
  {
    match NameAt(c, o)
    case Bad(at) => Bad(at)
    case Ok(name, end) =>
      match ValueAt(c, SkipWs(c, end), depth, strtod)
      case Ok(v, end) => Ok(Member(name, v), end)
      case Bad(at) => Bad(at)
  }

  function MembersAt(c: bytes, o: nat, depth: nat, strtod: Strtod): (r: Parse<seq<Member>>)
    requires o < |c| && depth <= NESTING_LIMIT
    ensures r.Ok? ==> o < r.end <= |c|
    ensures r.Bad? ==> o <= r.at <= |c|
    decreases |c| - o, 1
  {
    match MemberAt(c, o, depth, strtod)
    case Bad(at) => Bad(at)
    case Ok(m, end) =>
      var next := SkipWs(c, end);
      if IsAt(c, next, COMMA) then Prepend([m], MembersAt(c, next, depth, strtod))
      else if IsAt(c, next, CLOSE_OBJECT) then Ok([m], next + 1)
      else Bad(next)
  }

  const BOM: bytes := [0xEF, 0xBB, 0xBF]

  /** cJSON_ParseWithLengthOpts: the item and *return_parse_end, or the error position. */
  function Document(c: bytes, requireNul: bool, strtod: Strtod): (r: Parse<Json>)
    ensures r.Ok? ==> r.end <= |c|
    ensures r.Bad? && |c| > 0 ==> r.at < |c|
  {
    if |c| == 0 then Bad(0)
    else
      var start := if |c| > 4 && At(c, 0, BOM) then 3 else 0;
      match ValueAt(c, SkipWs(c, start), 0, strtod)
      case Bad(at) => Bad(ErrorPosition(c, at))
      case Ok(v, end) =>
        if !requireNul then Ok(v, end)
        else if IsAt(c, SkipWs(c, end), 0) then Ok(v, SkipWs(c, end))
        else Bad(ErrorPosition(c, SkipWs(c, end)))
  }

  function ErrorPosition(c: bytes, at: nat): nat
    requires |c| > 0
  {
    if at < |c| then at else |c| - 1
  }

  // ----- nesting

  /** What is parsed inside `depth` containers never nests past the limit; a finished parse ends behind where
      it began, a failed one not before it. */
  lemma {:induction false} ValueDepth(c: bytes, o: nat, depth: nat, strtod: Strtod)
    requires o <= |c| && depth <= NESTING_LIMIT
    ensures var r := ValueAt(c, o, depth, strtod); r.Ok? ==> depth + Height(r.value) <= NESTING_LIMIT && o < r.end <= |c|
    ensures var r := ValueAt(c, o, depth, strtod); r.Bad? ==> o <= r.at <= |c|
    decreases |c| - o, 3
  {
    hide ItemsAt, MembersAt, StringAt;
    var r := ValueAt(c, o, depth, strtod);
    if r.Ok? && r.value.Array? {
      assert r == ArrayAt(c, o, depth, strtod);
      if r.value.items != [] {
        ItemsDepth(c, SkipWs(c, o + 1) - 1, depth + 1, strtod);
      }
    } else if r.Ok? && r.value.Object? {
      assert r == ObjectAt(c, o, depth, strtod);
      if r.value.members != [] {
        MembersDepth(c, SkipWs(c, o + 1) - 1, depth + 1, strtod);
      }
    }
  }

  lemma {:induction false} ItemsDepth(c: bytes, o: nat, depth: nat, strtod: Strtod)
    requires o < |c| && depth <= NESTING_LIMIT
    ensures var r := ItemsAt(c, o, depth, strtod); r.Ok? ==> depth + HeightOfItems(r.value) <= NESTING_LIMIT
    decreases |c| - o, 1
  {
    hide ValueAt;
    var first := ValueAt(c, SkipWs(c, o + 1), depth, strtod);
    ValueDepth(c, SkipWs(c, o + 1), depth, strtod);
    if first.Ok? && IsAt(c, SkipWs(c, first.end), COMMA) {
      ItemsDepth(c, SkipWs(c, first.end), depth, strtod);
      var rest := ItemsAt(c, SkipWs(c, first.end), depth, strtod);
      assert rest.Ok? ==> ([first.value] + rest.value)[1..] == rest.value;
    }
  }

  lemma {:induction false} MembersDepth(c: bytes, o: nat, depth: nat, strtod: Strtod)
    requires o < |c| && depth <= NESTING_LIMIT
    ensures var r := MembersAt(c, o, depth, strtod); r.Ok? ==> depth + HeightOfMembers(r.value) <= NESTING_LIMIT
    decreases |c| - o, 1
  {
    hide ValueAt, NameAt;
    var first := MemberAt(c, o, depth, strtod);
    if first.Ok? {
      ValueDepth(c, SkipWs(c, NameAt(c, o).end), depth, strtod);
      if IsAt(c, SkipWs(c, first.end), COMMA) {
        MembersDepth(c, SkipWs(c, first.end), depth, strtod);
        var rest := MembersAt(c, SkipWs(c, first.end), depth, strtod);
        assert rest.Ok? ==> ([first.value] + rest.value)[1..] == rest.value;
      }
    }
  }

  // ----- the size of the decoded string

  /** How many units (single bytes, or a backslash with the byte after it) the first pass counts from p. */
  function Units(c: bytes, p: nat, end: nat): nat
    requires end <= |c|
    decreases end - p
  {
    if p >= end then 0 else 1 + Units(c, if c[p] == BACKSLASH then p + 2 else p + 1, end)
  }

  /** A first-pass scan that stands at p reaches `end` without jumping over it. */
  predicate Aligned(c: bytes, p: nat, end: nat)
    requires end <= |c|
    decreases end - p
  {
    p == end || (p < end && Aligned(c, if c[p] == BACKSLASH then p + 2 else p + 1, end))
  }

  lemma StringEndAligned(c: bytes, p: nat)
    requires p <= |c| && StringEnd(c, p).Some?
    ensures Aligned(c, p, StringEnd(c, p).value)
    decreases |c| - p
  {
    if c[p] != QUOTE {
      StringEndAligned(c, if c[p] == BACKSLASH then p + 2 else p + 1);
    }
  }

  /** From unit boundary q the first pass has a boundary at `target` or one further, and its units
      cover at most two bytes each. */
  lemma NextBoundary(c: bytes, q: nat, end: nat, target: nat) returns (q': nat)
    requires end <= |c| && q <= target <= end && Aligned(c, q, end)
    ensures q' == target || q' == target + 1
    ensures q' <= end && Aligned(c, q', end)
    ensures q' - q <= 2 * (Units(c, q, end) - Units(c, q', end))
    decreases target - q
  {
    if q == target {
      q' := q;
    } else {
      var n := if c[q] == BACKSLASH then q + 2 else q + 1;
      if n <= target {
        q' := NextBoundary(c, n, end, target);
      } else {
        q' := n;
      }
    }
  }

  /** The first pass stands at q, at or one byte behind where the second pass stands at p, with
      `w` bytes written; counting the byte it is ahead, its remaining units are room enough. */
  ghost predicate InStep(c: bytes, p: nat, q: nat, end: nat, w: nat, total: nat)
    requires end <= |c|
  {
    && (p <= q <= p + 1 || (p == end + 1 && q == end))
    && q <= end && Aligned(c, q, end)
    && w + Units(c, q, end) + (q - p) <= total && w <= total
  }

  /** A plain byte keeps the passes in step. */
  lemma PlainFits(c: bytes, p: nat, q: nat, end: nat, w: nat, total: nat)
    requires p < end < |c| && c[p] != BACKSLASH && InStep(c, p, q, end, w, total)
    ensures InStep(c, p + 1, p + 1, end, w + 1, total)
  {
  }

  /** So does an escape, whatever follows the backslash: the bytes written are at most half of the
      bytes consumed, and the first pass counts at least every second of those. */
  lemma EscapeFits(c: bytes, p: nat, q: nat, end: nat, w: nat, total: nat) returns (q': nat)
    requires p < end < |c| && c[p] == BACKSLASH && InStep(c, p, q, end, w, total)
    requires EscapeAt(c, p, end).Some?
    ensures var (decoded, len) := EscapeAt(c, p, end).value;
            InStep(c, p + len, q', end, w + |decoded|, total)
  {
    var len := EscapeAt(c, p, end).value.1;
    q' := NextBoundary(c, q, end, if p + len <= end then p + len else end);
  }

  // ----- the parser

  class ParseBuffer {
    const content: bytes
    const strtod: Strtod
    var offset: nat
    var depth: nat

    predicate Valid()
      reads this
    {
      offset <= |content| && depth <= NESTING_LIMIT
    }

    constructor (content: bytes, strtod: Strtod)
      ensures Valid() && this.content == content && this.strtod == strtod
      ensures offset == 0 && depth == 0
    {
      this.content, this.strtod := content, strtod;
      offset, depth := 0, 0;
    }

    /** The routine returned what `spec` says and left the offset where it says. */
    ghost predicate Follows<T>(r: Option<T>, spec: Parse<T>)
      reads this
    {
      match spec
      case Ok(v, end) => r == Some(v) && offset == end
      case Bad(at) => r == None && offset == at
    }

    method SkipWhitespace()
      requires Valid()
      modifies this`offset
      ensures Valid() && offset == SkipWs(content, old(offset))
    {
      if offset >= |content| {
        return;
      }
      while offset < |content| && content[offset] <= 32
        invariant offset <= |content|
        invariant WsEnd(content, offset) == WsEnd(content, old(offset))
      {
        offset := offset + 1;
      }
      if offset == |content| {
        offset := offset - 1;
      }
    }

    method ParseNumber() returns (r: Option<Json>)
      requires Valid()
      modifies this`offset
      ensures Valid() && Follows(r, NumberAt(content, old(offset), strtod))
    {
      var token := CopyNumber();
      var (used, d) := strtod(token);
      if used == 0 {
        return None;
      }
      offset := offset + used;
      r := Some(Number(d));
    }

    /** The loop of parse_number that fills the 64-byte buffer. */
    method CopyNumber() returns (token: bytes)
      requires Valid()
      ensures token == NumberToken(content, offset, NumberLimit(content, offset))
    {
      token := [];
      var i := 0;
      while i < 63 && offset + i < |content| && IsNumberByte(content[offset + i])
        invariant 0 <= i <= 63 && offset + i <= |content|
        invariant token == content[offset..offset + i]
        invariant forall j :: offset <= j < offset + i ==> IsNumberByte(content[j])
      {
        token := token + [content[offset + i]];
        i := i + 1;
      }
      NumberTokenIs(content, offset, NumberLimit(content, offset), offset + i);
    }

    /** First pass of parse_string: the closing quote and the number of bytes skipped. */
    method FindStringEnd() returns (r: Option<(nat, nat)>)
      requires Valid() && offset < |content|
      ensures r.None? <==> StringEnd(content, offset + 1).None?
      ensures r.Some? ==>
                && StringEnd(content, offset + 1) == Some(r.value.0)
                && r.value.0 - (offset + 1) - r.value.1 == Units(content, offset + 1, r.value.0)
    {
      var end, skipped := offset + 1, 0;
      while end < |content| && content[end] != QUOTE
        invariant offset + 1 <= end <= |content|
        invariant StringEnd(content, end) == StringEnd(content, offset + 1)
        invariant var e := StringEnd(content, end);
                  e.Some? ==> end - (offset + 1) - skipped + Units(content, end, e.value) == Units(content, offset + 1, e.value)
      {
        if content[end] == BACKSLASH {
          if end + 1 >= |content| {
            return None;
          }
          skipped := skipped + 1;
          end := end + 1;
        }
        end := end + 1;
      }
      if end >= |content| {
        return None;
      }
      r := Some((end, skipped));
    }

    /** The switch of parse_string's second pass: decodes the escape at p to output[w..] and
        returns its length in the text (0 for failure). */
    method DecodeEscape(p: nat, end: nat, output: array<byte>, w: nat) returns (len: nat, w': nat)
      requires p < end < |content| && w < output.Length
      requires EscapeAt(content, p, end).Some? ==> w + |EscapeAt(content, p, end).value.0| < output.Length
      modifies output
      ensures EscapeAt(content, p, end).None? ==> len == 0
      ensures EscapeAt(content, p, end).Some? ==>
                && len == EscapeAt(content, p, end).value.1
                && w' == w + |EscapeAt(content, p, end).value.0|
                && output[..w'] == old(output[..w]) + EscapeAt(content, p, end).value.0
    {
      len, w' := 0, w;
      if content[p + 1] == LETTER_U {
        len, w' := Utf16LiteralToUtf8(content, p, end, output, w);
      } else {
        var b := Unescaped(content[p + 1]);
        if b.Some? {
          output[w] := b.value;
          len, w' := 2, w + 1;
          assert output[..w'] == old(output[..w]) + [b.value];
        }
      }
    }

    /** Second pass of parse_string, writing to `output`: how far it read and wrote. The bytes it
        writes and their NUL fit a buffer sized by the first pass, even where a malformed \u makes
        the two passes lose step. */
    method DecodeString(start: nat, end: nat, output: array<byte>) returns (ok: bool, p: nat, w: nat)
      requires start <= end < |content| && Aligned(content, start, end)
      requires output.Length >= Units(content, start, end) + 1
      modifies output
      ensures ok ==> w < output.Length && Unescape(content, start, end) == Ok(output[..w], p)
      ensures !ok ==> Unescape(content, start, end) == Bad(p)
    {
      hide EscapeAt, Aligned, Units;
      p, w := start, 0;
      ghost var q: nat := start;
      ghost var total := Units(content, start, end);
      PrependPrepend<byte>([], [], Unescape(content, start, end));
      assert output[..0] == [];
      while p < end
        invariant InStep(content, p, q, end, w, total)
        invariant Unescape(content, start, end) == Prepend(output[..w], Unescape(content, p, end))
        decreases end - p
      {
        ghost var before := output[..w];
        if content[p] != BACKSLASH {
          PlainFits(content, p, q, end, w, total);
          PrependPrepend(before, [content[p]], Unescape(content, p + 1, end));
          q := p + 1;
          output[w] := content[p];
          assert output[..w + 1] == before + [content[p]];
          w := w + 1;
          p := p + 1;
        } else {
          ghost var escape := EscapeAt(content, p, end);
          if escape.Some? {
            q := EscapeFits(content, p, q, end, w, total);
            PrependPrepend(before, escape.value.0, Unescape(content, p + escape.value.1, end));
          }
          var len, w' := DecodeEscape(p, end, output, w);
          if len == 0 {
            return false, p, w;
          }
          w := w';
          p := p + len;
        }
      }
      ok := true;
      assert output[..w] + [] == output[..w];
    }

    method ParseString() returns (r: Option<cstring>)
      requires Valid() && offset < |content|
      modifies this`offset
      ensures Valid() && Follows(r, StringAt(content, old(offset)))
    {
      ghost var spec := StringAt(content, offset);
      var start := offset + 1;
      if content[offset] != QUOTE {
        offset := start;
        assert spec == Bad(start);
        return None;
      }
      var found := FindStringEnd();
      if found.None? {
        offset := start;
        assert spec == Bad(start);
        return None;
      }
      var (end, skipped) := found.value;
      var allocation := end - offset - skipped;
      var output := new byte[allocation + 1];
      StringEndAligned(content, start);
      var ok, p, w := DecodeString(start, end, output);
      if !ok {
        offset := p;
        return None;
      }
      r := Some(CString(output[..w]));
      output[w] := 0;
      offset := end + 1;
    }

    /** Does the literal stand at the offset? (can_read and strncmp) */
    predicate Looking(text: bytes)
      requires Valid()
      reads this
    {
      At(content, offset, text)
    }

    method ParseValue() returns (r: Option<Json>)
      requires Valid()
      modifies this
      ensures Valid() && Follows(r, ValueAt(content, old(offset), old(depth), strtod))
      ensures r.Some? ==> depth == old(depth)
      decreases |content| - offset, 5
    {
      if Looking(NULL_TEXT) {
        offset := offset + 4;
        return Some(Null);
      }
      if Looking(FALSE_TEXT) {
        offset := offset + 5;
        return Some(Bool(false));
      }
      if Looking(TRUE_TEXT) {
        offset := offset + 4;
        return Some(Bool(true));
      }
      if offset < |content| && content[offset] == QUOTE {
        var s := ParseString();
        return if s.Some? then Some(String(s.value)) else None;
      }
      if offset < |content| && (content[offset] == MINUS || IsDigit(content[offset])) {
        r := ParseNumber();
        return;
      }
      if offset < |content| && content[offset] == OPEN_ARRAY {
        r := ParseArray();
        return;
      }
      if offset < |content| && content[offset] == OPEN_OBJECT {
        r := ParseObject();
        return;
      }
      r := None;
    }

    method ParseArray() returns (r: Option<Json>)
      requires Valid() && IsAt(content, offset, OPEN_ARRAY)
      modifies this
      ensures Valid() && Follows(r, ArrayAt(content, old(offset), old(depth), strtod))
      ensures r.Some? ==> depth == old(depth)
      decreases |content| - offset, 4
    {
      hide ItemsAt, ValueAt;
      ghost var spec := ArrayAt(content, offset, depth, strtod);
      if depth >= NESTING_LIMIT {
        assert spec == Bad(offset);
        return None;
      }
      depth := depth + 1;
      offset := offset + 1;
      SkipWhitespace();
      if offset < |content| && content[offset] == CLOSE_ARRAY {
        depth := depth - 1;
        offset := offset + 1;
        assert spec == Ok(Array([]), offset);
        return Some(Array([]));
      }
      if offset >= |content| {
        offset := offset - 1;
        assert spec == Bad(offset);
        return None;
      }
      offset := offset - 1;
      ghost var inner := ItemsAt(content, offset, depth, strtod);
      assert spec == match inner case Ok(items, end) => Ok(Array(items), end) case Bad(at) => Bad(at);
      var items := ParseItems();
      if items.None? {
        return None;
      }
      depth := depth - 1;
      r := Some(Array(items.value));
    }

    /** The loop of parse_array, up to and including the closing bracket. */
    method ParseItems() returns (r: Option<seq<Json>>)
      requires Valid() && offset < |content|
      modifies this
      ensures Valid() && Follows(r, ItemsAt(content, old(offset), old(depth), strtod))
      ensures r.Some? ==> depth == old(depth)
      decreases |content| - offset, 2
    {
      hide ValueAt, SkipWs, WsEnd;
      ghost var d, start := depth, offset;
      var items: seq<Json> := [];
      PrependPrepend<Json>([], [], ItemsAt(content, start, d, strtod));
      while true
        invariant Valid() && start <= offset < |content| && depth == d
        invariant ItemsAt(content, start, d, strtod) == Prepend(items, ItemsAt(content, offset, d, strtod))
        decreases |content| - offset
      {
        offset := offset + 1;
        SkipWhitespace();
        var v := ParseValue();
        if v.None? {
          return None;
        }
        SkipWhitespace();
        if offset >= |content| || content[offset] != COMMA {
          if offset >= |content| || content[offset] != CLOSE_ARRAY {
            return None;
          }
          offset := offset + 1;
          return Some(items + [v.value]);
        }
        PrependPrepend(items, [v.value], ItemsAt(content, offset, d, strtod));
        items := items + [v.value];
      }
    }

    method ParseObject() returns (r: Option<Json>)
      requires Valid() && IsAt(content, offset, OPEN_OBJECT)
      modifies this
      ensures Valid() && Follows(r, ObjectAt(content, old(offset), old(depth), strtod))
      ensures r.Some? ==> depth == old(depth)
      decreases |content| - offset, 4
    {
      hide MembersAt, ValueAt;
      ghost var spec := ObjectAt(content, offset, depth, strtod);
      if depth >= NESTING_LIMIT {
        assert spec == Bad(offset);
        return None;
      }
      depth := depth + 1;
      offset := offset + 1;
      SkipWhitespace();
      if offset < |content| && content[offset] == CLOSE_OBJECT {
        depth := depth - 1;
        offset := offset + 1;
        assert spec == Ok(Object([]), offset);
        return Some(Object([]));
      }
      if offset >= |content| {
        offset := offset - 1;
        assert spec == Bad(offset);
        return None;
      }
      offset := offset - 1;
      ghost var inner := MembersAt(content, offset, depth, strtod);
      assert spec == match inner case Ok(members, end) => Ok(Object(members), end) case Bad(at) => Bad(at);
      var members := ParseMembers();
      if members.None? {
        return None;
      }
      depth := depth - 1;
      r := Some(Object(members.value));
    }

    /** The loop of parse_object, up to and including the closing brace. */
    method ParseMembers() returns (r: Option<seq<Member>>)
      requires Valid() && offset < |content|
      modifies this
      ensures Valid() && Follows(r, MembersAt(content, old(offset), old(depth), strtod))
      ensures r.Some? ==> depth == old(depth)
      decreases |content| - offset, 3
    {
      hide MemberAt;
      ghost var d, start := depth, offset;
      var members: seq<Member> := [];
      PrependPrepend<Member>([], [], MembersAt(content, start, d, strtod));
      while true
        invariant Valid() && start <= offset < |content| && depth == d
        invariant MembersAt(content, start, d, strtod) == Prepend(members, MembersAt(content, offset, d, strtod))
        decreases |content| - offset
      {
        var m := ParseMember();
        if m.None? {
          return None;
        }
        SkipWhitespace();
        if offset >= |content| || content[offset] != COMMA {
          if offset >= |content| || content[offset] != CLOSE_OBJECT {
            return None;
          }
          offset := offset + 1;
          return Some(members + [m.value]);
        }
        PrependPrepend(members, [m.value], MembersAt(content, offset, d, strtod));
        members := members + [m.value];
      }
    }

    method ParseMember() returns (r: Option<Member>)
      requires Valid() && offset < |content|
      modifies this
      ensures Valid() && Follows(r, MemberAt(content, old(offset), old(depth), strtod))
      ensures r.Some? ==> depth == old(depth)
      decreases |content| - offset, 2
    {
      hide NameAt, ValueAt;
      ghost var spec := MemberAt(content, offset, depth, strtod);
      var name := ParseName();
      if name.None? {
        assert spec == Bad(offset);
        return None;
      }
      SkipWhitespace();
      ghost var inner := ValueAt(content, offset, depth, strtod);
      assert spec == match inner case Ok(v, end) => Ok(Member(name.value, v), end) case Bad(at) => Bad(at);
      var v := ParseValue();
      r := if v.Some? then Some(Member(name.value, v.value)) else None;
    }

    method ParseName() returns (r: Option<cstring>)
      requires Valid() && offset < |content|
      modifies this`offset
      ensures Valid() && Follows(r, NameAt(content, old(offset)))
    {
      hide StringAt;
      if offset + 1 >= |content| {
        return None;
      }
      offset := offset + 1;
      SkipWhitespace();
      var name := ParseString();
      if name.None? {
        return None;
      }
      SkipWhitespace();
      if offset >= |content| || content[offset] != COLON {
        return None;
      }
      offset := offset + 1;
      r := name;
    }
  }

  /** cJSON_ParseWithLengthOpts: the item with *return_parse_end, or the error position. */
  method ParseWithLengthOpts(value: bytes, strtod: Strtod, requireNul: bool) returns (item: Option<Json>, parseEnd: nat)
    ensures match Document(value, requireNul, strtod)
            case Ok(v, end) => item == Some(v) && parseEnd == end
            case Bad(at) => item == None && parseEnd == at
  {
    if |value| == 0 {
      return None, 0;
    }
    var buffer := new ParseBuffer(value, strtod);
    if 4 < |value| && value[0] == 0xEF && value[1] == 0xBB && value[2] == 0xBF {
      assert value[..3] == BOM;
      buffer.offset := 3;
    }
    assert buffer.offset == 3 <==> |value| > 4 && At(value, 0, BOM);
    buffer.SkipWhitespace();
    item := buffer.ParseValue();
    if item.Some? && requireNul {
      buffer.SkipWhitespace();
      if buffer.offset >= |value| || value[buffer.offset] != 0 {
        item := None;
      }
    }
    parseEnd := if item.Some? || buffer.offset < |value| then buffer.offset else |value| - 1;
  }
}
