/** The cJSON parser building its items: values parsed at the offset become trees of linked items. */
module JsonItems {
  import opened Bytes
  import opened JsonTree
  import opened JsonEscape
  import opened JsonParser
  import opened JsonChildList

  // ----- the items of a value

  /** cJSON_False, cJSON_True and so on: one bit each. */
  function Kind(t: Json): int {
    match t
    case Bool(b) => if b then 2 else 1
    case Null => 4
    case Number(_) => 8
    case String(_) => 16
    case Array(_) => 32
    case Object(_) => 64
    case Raw(_) => 128
  }

  /** The bits are those of the header: false, true, null, number, string, array, object, raw. */
  lemma KindBits(d: real, s: cstring, items: seq<Json>, members: seq<Member>)
    ensures [Kind(Bool(false)), Kind(Bool(true)), Kind(Null), Kind(Number(d)), Kind(String(s)), Kind(Array(items)),
             Kind(Object(members)), Kind(Raw(s))] == [0x01, 0x02, 0x04, 0x08, 0x10, 0x20, 0x40, 0x80]
  {
  }

  function DataOf(t: Json, name: Option<cstring>): Data {
    Data(Kind(t), if t.String? then t.s else if t.Raw? then t.raw else [], if t.Number? then t.d else 0.0, name)
  }

  function TreeOf(t: Json, name: Option<cstring>): Tree
    decreases t
  {
    Tree(DataOf(t, name),
         match t
         case Array(items) => TreesOfItems(items)
         case Object(members) => TreesOfMembers(members)
         case _ => [])
  }

  function TreesOfItems(items: seq<Json>): (r: seq<Tree>)
    ensures |r| == |items|
    decreases items
  {
    if items == [] then [] else TreesOfItems(items[..|items| - 1]) + [TreeOf(items[|items| - 1], None)]
  }

  function TreesOfMembers(members: seq<Member>): (r: seq<Tree>)
    ensures |r| == |members|
    decreases members
  {
    if members == [] then []
    else
      var m := members[|members| - 1];
      TreesOfMembers(members[..|members| - 1]) + [TreeOf(m.value, Some(m.name))]
  }

  /** Items hold all of a value: no two values, or names, have the same items. */
  lemma {:induction false} ItemsDetermine(t: Json, u: Json, name: Option<cstring>, other: Option<cstring>)
    requires TreeOf(t, name) == TreeOf(u, other)
    ensures t == u && name == other
    decreases t, 1
  {
    assert DataOf(t, name) == DataOf(u, other);
    if t.Array? {
      assert TreesOfItems(t.items) == TreesOfItems(u.items);
      ListsDetermine(t.items, u.items);
    } else if t.Object? {
      assert TreesOfMembers(t.members) == TreesOfMembers(u.members);
      MembersDetermine(t.members, u.members);
    }
  }

  lemma {:induction false} ListsDetermine(xs: seq<Json>, ys: seq<Json>)
    requires TreesOfItems(xs) == TreesOfItems(ys)
    ensures xs == ys
    decreases xs, 0
  {
    if xs != [] {
      var n := |xs| - 1;
      assert |ys| == |TreesOfItems(ys)| == |xs|;
      LastEqual(TreesOfItems(xs[..n]), TreeOf(xs[n], None), TreesOfItems(ys[..n]), TreeOf(ys[n], None));
      ListsDetermine(xs[..n], ys[..n]);
      ItemsDetermine(xs[n], ys[n], None, None);
      assert xs == xs[..n] + [xs[n]] && ys == ys[..n] + [ys[n]];
    }
  }

  lemma {:induction false} MembersDetermine(xs: seq<Member>, ys: seq<Member>)
    requires TreesOfMembers(xs) == TreesOfMembers(ys)
    ensures xs == ys
    decreases xs, 0
  {
    if xs != [] {
      var n := |xs| - 1;
      assert |ys| == |TreesOfMembers(ys)| == |xs|;
      LastEqual(TreesOfMembers(xs[..n]), TreeOf(xs[n].value, Some(xs[n].name)),
                TreesOfMembers(ys[..n]), TreeOf(ys[n].value, Some(ys[n].name)));
      MembersDetermine(xs[..n], ys[..n]);
      ItemsDetermine(xs[n].value, ys[n].value, Some(xs[n].name), Some(ys[n].name));
      assert xs == xs[..n] + [xs[n]] && ys == ys[..n] + [ys[n]];
    }
  }

  lemma LastEqual(a: seq<Tree>, x: Tree, b: seq<Tree>, y: Tree)
    requires a + [x] == b + [y]
    ensures a == b && x == y
  {
    assert |a| == |b| && (a + [x])[|a|] == x && (b + [y])[|b|] == y;
    assert (a + [x])[..|a|] == a && (b + [y])[..|b|] == b;
  }

  lemma TreesSnoc(items: seq<Json>, v: Json)
    ensures TreesOfItems(items + [v]) == TreesOfItems(items) + [TreeOf(v, None)]
  {
    hide TreeOf;
    assert (items + [v])[..|items|] == items;
  }

  lemma MemberTreesSnoc(members: seq<Member>, m: Member)
    ensures TreesOfMembers(members + [m]) == TreesOfMembers(members) + [TreeOf(m.value, Some(m.name))]
  {
    hide TreeOf;
    assert (members + [m])[..|members|] == members;
  }

  /** A new item holding all that was parsed. */
  ghost predicate Holds(r: Item?, t: Json, name: Option<cstring>)
    reads r, if r == null then {} else r.repr
  {
    r != null && r in r.repr && r.Shape(TreeOf(t, name)) && r.next == null && r.prev == null
  }

  /** The buffer stands where the reference parser stops, and there is an item exactly if it succeeds. */
  ghost predicate Parsed(buf: ParseBuffer, r: Item?, spec: Parse<Json>, name: Option<cstring>)
    reads buf, r, if r == null then {} else r.repr
  {
    match spec
    case Ok(v, end) => buf.offset == end && Holds(r, v, name)
    case Bad(at) => buf.offset == at && r == null
  }

  lemma ItemsHeld(item: Item, items: seq<Json>, name: Option<cstring>)
    requires item.data == DataOf(Array([]), name) && item.Shape(Tree(item.data, TreesOfItems(items)))
    requires item in item.repr && item.next == null && item.prev == null
    ensures Holds(item, Array(items), name)
  {
  }

  lemma MembersHeld(item: Item, members: seq<Member>, name: Option<cstring>)
    requires item.data == DataOf(Object([]), name) && item.Shape(Tree(item.data, TreesOfMembers(members)))
    requires item in item.repr && item.next == null && item.prev == null
    ensures Holds(item, Object(members), name)
  {
  }

  method Scalar(t: Json, name: Option<cstring>) returns (r: Item)
    requires !t.Array? && !t.Object?
    ensures fresh(r.repr) && Holds(r, t, name)
  {
    r := new Item(DataOf(t, name));
    Childless(r);
  }

  // ----- the parser

  /** parse_value into a new item of the given name. */
  method ParseValueItem(buf: ParseBuffer, name: Option<cstring>) returns (r: Item?)
    requires buf.Valid()
    modifies buf
    ensures buf.Valid() && Parsed(buf, r, ValueAt(buf.content, old(buf.offset), old(buf.depth), buf.strtod), name)
    ensures r != null ==> fresh(r.repr) && buf.depth == old(buf.depth)
    decreases |buf.content| - buf.offset, 5
  {
    hide Holds, StringAt, NumberAt, ArrayAt, ObjectAt;
    if IsAt(buf.content, buf.offset, OPEN_ARRAY) {
      ContainerHere(buf.content, buf.offset);
      r := ParseArrayItem(buf, name);
      return;
    }
    if IsAt(buf.content, buf.offset, OPEN_OBJECT) {
      ContainerHere(buf.content, buf.offset);
      r := ParseObjectItem(buf, name);
      return;
    }
    NoContainer(buf.content, buf.offset, buf.depth, buf.strtod);
    var v := buf.ParseValue();
    if v == None {
      return null;
    }
    r := Scalar(v.value, name);
  }

  lemma ContainerHere(c: bytes, o: nat)
    requires IsAt(c, o, OPEN_ARRAY) || IsAt(c, o, OPEN_OBJECT)
    ensures !At(c, o, NULL_TEXT) && !At(c, o, FALSE_TEXT) && !At(c, o, TRUE_TEXT)
  {
    assert o + 4 <= |c| ==> c[o..o + 4][0] == c[o];
    assert o + 5 <= |c| ==> c[o..o + 5][0] == c[o];
  }

  lemma NoContainer(c: bytes, o: nat, depth: nat, strtod: Strtod)
    requires o <= |c| && depth <= NESTING_LIMIT && !IsAt(c, o, OPEN_ARRAY) && !IsAt(c, o, OPEN_OBJECT)
    ensures var r := ValueAt(c, o, depth, strtod); r.Ok? ==> !r.value.Array? && !r.value.Object?
  {
  }

  /** What stands behind an opening bracket: the closing one, something to parse, or the end of the buffer. */
  datatype Entered = Empty | Inside | Nowhere

  /** The beginning of parse_array and parse_object: into the brackets, up to the byte before what is inside,
      or out of them again. */
  method Enter(buf: ParseBuffer, close: byte) returns (e: Entered)
    requires buf.Valid() && buf.offset < |buf.content| && buf.depth < NESTING_LIMIT
    modifies buf
    ensures buf.Valid()
    ensures var first := SkipWs(buf.content, old(buf.offset) + 1);
            && old(buf.offset) < first <= |buf.content|
            && match e
               case Empty => IsAt(buf.content, first, close) && buf.offset == first + 1 && buf.depth == old(buf.depth)
               case Inside =>
                 && !IsAt(buf.content, first, close) && first < |buf.content|
                 && buf.offset == first - 1 && buf.depth == old(buf.depth) + 1
               case Nowhere => !IsAt(buf.content, first, close) && first >= |buf.content| && buf.offset == first - 1
  {
    buf.depth := buf.depth + 1;
    buf.offset := buf.offset + 1;
    buf.SkipWhitespace();
    if IsAt(buf.content, buf.offset, close) {
      buf.depth := buf.depth - 1;
      buf.offset := buf.offset + 1;
      return Empty;
    }
    e := if buf.offset >= |buf.content| then Nowhere else Inside;
    buf.offset := buf.offset - 1;
  }

  lemma EmptyArray(item: Item, name: Option<cstring>)
    requires item.data == DataOf(Array([]), name) && item.children == [] && item.repr == {item} && item.child == null
    requires item.next == null && item.prev == null
    ensures Holds(item, Array([]), name)
  {
    Childless(item);
  }

  lemma EmptyObject(item: Item, name: Option<cstring>)
    requires item.data == DataOf(Object([]), name) && item.children == [] && item.repr == {item} && item.child == null
    requires item.next == null && item.prev == null
    ensures Holds(item, Object([]), name)
  {
    Childless(item);
  }

  /** parse_array */
  method ParseArrayItem(buf: ParseBuffer, name: Option<cstring>) returns (r: Item?)
    requires buf.Valid() && IsAt(buf.content, buf.offset, OPEN_ARRAY)
    modifies buf
    ensures buf.Valid() && Parsed(buf, r, ArrayAt(buf.content, old(buf.offset), old(buf.depth), buf.strtod), name)
    ensures r != null ==> fresh(r.repr) && buf.depth == old(buf.depth)
    decreases |buf.content| - buf.offset, 4
  {
    hide ItemsAt, SkipWs, Item.Shape, Built, TreeOf;
    if buf.depth >= NESTING_LIMIT {
      return null;
    }
    var entered := Enter(buf, CLOSE_ARRAY);
    if entered == Nowhere {
      return null;
    }
    if entered == Empty {
      r := new Item(DataOf(Array([]), name));
      EmptyArray(r, name);
      hide Holds;
      return;
    }
    hide Holds;
    r := ParseInsideArray(buf, name);
  }

  /** What is inside the brackets, and the links that are set in the end. */
  method ParseInsideArray(buf: ParseBuffer, name: Option<cstring>) returns (r: Item?)
    requires buf.Valid() && 0 < buf.depth && buf.offset < |buf.content|
    modifies buf
    ensures buf.Valid()
    ensures match ItemsAt(buf.content, old(buf.offset), old(buf.depth), buf.strtod)
            case Ok(items, end) => buf.offset == end && Holds(r, Array(items), name) && fresh(r.repr)
            case Bad(at) => buf.offset == at && r == null
    ensures r != null ==> buf.depth == old(buf.depth) - 1
    decreases |buf.content| - buf.offset, 3, 1
  {
    hide ItemsAt, Item.Shape, Built, TreesOfItems;
    ghost var inner := ItemsAt(buf.content, buf.offset, buf.depth, buf.strtod);
    var item := new Item(DataOf(Array([]), name));
    var ok, last, kids, all := ParseElements(buf, item);
    if !ok {
      return null;
    }
    buf.depth := buf.depth - 1;
    Adopt(item, kids, last, TreesOfItems(inner.value), all);
    ItemsHeld(item, inner.value, name);
    r := item;
  }

  /** One turn of that loop. */
  lemma ItemsTurn(c: bytes, o: nat, d: nat, strtod: Strtod)
    requires o < |c| && d <= NESTING_LIMIT
    ensures ItemsAt(c, o, d, strtod)
         == match ValueAt(c, SkipWs(c, o + 1), d, strtod)
            case Bad(at) => Bad(at)
            case Ok(v, end) =>
              var next := SkipWs(c, end);
              if IsAt(c, next, COMMA) then Prepend([v], ItemsAt(c, next, d, strtod))
              else if IsAt(c, next, CLOSE_ARRAY) then Ok([v], next + 1)
              else Bad(next)
  {
    hide ValueAt, SkipWs;
  }

  /** The loop of parse_array: every element is parsed and hung behind the one before. The source hangs the
      new item before it parses the value into it, which looks at no links. */
  method ParseElements(buf: ParseBuffer, parent: Item)
    returns (ok: bool, last: Item?, ghost kids: seq<Item>, ghost all: set<Item>)
    requires buf.Valid() && buf.offset < |buf.content| && parent.child == null
    modifies buf, parent`child
    ensures buf.Valid()
    ensures var spec := ItemsAt(buf.content, old(buf.offset), old(buf.depth), buf.strtod);
            match spec
            case Ok(items, end) =>
              && ok && buf.offset == end && buf.depth == old(buf.depth) && fresh(all)
              && Built(parent, kids, last, TreesOfItems(items), all) && (parent.child != null ==> parent.child in all)
            case Bad(at) => !ok && buf.offset == at
    decreases |buf.content| - buf.offset, 2
  {
    hide ValueAt, ItemsAt, SkipWs, WsEnd, TreesOfItems, TreeOf, Item.Shape, Built, Shapes, Chain;
    ghost var c, d, start, strtod := buf.content, buf.depth, buf.offset, buf.strtod;
    ghost var items: seq<Json> := [];
    kids, all, last := [], {}, null;
    NothingYet(parent);
    NoTrees();
    PrependPrepend<Json>([], [], ItemsAt(c, start, d, strtod));
    while true
      invariant buf.Valid() && start <= buf.offset < |c| && buf.depth == d
      invariant ItemsAt(c, start, d, strtod) == Prepend(items, ItemsAt(c, buf.offset, d, strtod))
      invariant fresh(all) && (last != null ==> last in all) && (parent.child != null ==> parent.child in all)
      invariant Built(parent, kids, last, TreesOfItems(items), all)
      modifies buf, parent`child
      decreases |c| - buf.offset
    {
      ItemsTurn(c, buf.offset, d, strtod);
      buf.offset := buf.offset + 1;
      buf.SkipWhitespace();
      ghost var v := ValueAt(c, buf.offset, d, strtod);
      var copy := ParseValueItem(buf, None);
      if copy == null {
        ok := false;
        return;
      }
      AppendCopy(parent, last, copy, kids, TreesOfItems(items), TreeOf(v.value, None), all);
      TreesSnoc(items, v.value);
      last, kids, all := copy, kids + [copy], all + copy.repr;
      buf.SkipWhitespace();
      if !IsAt(buf.content, buf.offset, COMMA) {
        ok := IsAt(buf.content, buf.offset, CLOSE_ARRAY);
        if ok {
          buf.offset := buf.offset + 1;
        }
        return;
      }
      PrependPrepend(items, [v.value], ItemsAt(c, buf.offset, d, strtod));
      items := items + [v.value];
    }
  }

  /** parse_object */
  method ParseObjectItem(buf: ParseBuffer, name: Option<cstring>) returns (r: Item?)
    requires buf.Valid() && IsAt(buf.content, buf.offset, OPEN_OBJECT)
    modifies buf
    ensures buf.Valid() && Parsed(buf, r, ObjectAt(buf.content, old(buf.offset), old(buf.depth), buf.strtod), name)
    ensures r != null ==> fresh(r.repr) && buf.depth == old(buf.depth)
    decreases |buf.content| - buf.offset, 4
  {
    hide MembersAt, SkipWs, Item.Shape, Built, TreeOf;
    if buf.depth >= NESTING_LIMIT {
      return null;
    }
    var entered := Enter(buf, CLOSE_OBJECT);
    if entered == Nowhere {
      return null;
    }
    if entered == Empty {
      r := new Item(DataOf(Object([]), name));
      EmptyObject(r, name);
      hide Holds;
      return;
    }
    hide Holds;
    r := ParseInsideObject(buf, name);
  }

  /** What is inside the brackets, and the links that are set in the end. */
  method ParseInsideObject(buf: ParseBuffer, name: Option<cstring>) returns (r: Item?)
    requires buf.Valid() && 0 < buf.depth && buf.offset < |buf.content|
    modifies buf
    ensures buf.Valid()
    ensures match MembersAt(buf.content, old(buf.offset), old(buf.depth), buf.strtod)
            case Ok(members, end) => buf.offset == end && Holds(r, Object(members), name) && fresh(r.repr)
            case Bad(at) => buf.offset == at && r == null
    ensures r != null ==> buf.depth == old(buf.depth) - 1
    decreases |buf.content| - buf.offset, 3, 1
  {
    hide MembersAt, Item.Shape, Built, TreesOfMembers;
    ghost var inner := MembersAt(buf.content, buf.offset, buf.depth, buf.strtod);
    var item := new Item(DataOf(Object([]), name));
    var ok, last, kids, all := ParseMemberItems(buf, item);
    if !ok {
      return null;
    }
    buf.depth := buf.depth - 1;
    Adopt(item, kids, last, TreesOfMembers(inner.value), all);
    MembersHeld(item, inner.value, name);
    r := item;
  }

  /** The loop of parse_object: the same for members. */
  method ParseMemberItems(buf: ParseBuffer, parent: Item)
    returns (ok: bool, last: Item?, ghost kids: seq<Item>, ghost all: set<Item>)
    requires buf.Valid() && buf.offset < |buf.content| && parent.child == null
    modifies buf, parent`child
    ensures buf.Valid()
    ensures var spec := MembersAt(buf.content, old(buf.offset), old(buf.depth), buf.strtod);
            match spec
            case Ok(members, end) =>
              && ok && buf.offset == end && buf.depth == old(buf.depth) && fresh(all)
              && Built(parent, kids, last, TreesOfMembers(members), all) && (parent.child != null ==> parent.child in all)
            case Bad(at) => !ok && buf.offset == at
    decreases |buf.content| - buf.offset, 3, 0
  {
    hide MemberAt, SkipWs, WsEnd, TreesOfMembers, TreeOf, Item.Shape, Built, Shapes, Chain;
    ghost var c, d, start, strtod := buf.content, buf.depth, buf.offset, buf.strtod;
    ghost var members: seq<Member> := [];
    kids, all, last := [], {}, null;
    NothingYet(parent);
    NoTrees();
    PrependPrepend<Member>([], [], MembersAt(c, start, d, strtod));
    while true
      invariant buf.Valid() && start <= buf.offset < |c| && buf.depth == d
      invariant MembersAt(c, start, d, strtod) == Prepend(members, MembersAt(c, buf.offset, d, strtod))
      invariant fresh(all) && (last != null ==> last in all) && (parent.child != null ==> parent.child in all)
      invariant Built(parent, kids, last, TreesOfMembers(members), all)
      modifies buf, parent`child
      decreases |c| - buf.offset
    {
      ghost var m := MemberAt(c, buf.offset, d, strtod);
      var copy := ParseMemberItem(buf);
      if copy == null {
        ok := false;
        return;
      }
      AppendCopy(parent, last, copy, kids, TreesOfMembers(members), TreeOf(m.value.value, Some(m.value.name)), all);
      MemberTreesSnoc(members, m.value);
      last, kids, all := copy, kids + [copy], all + copy.repr;
      buf.SkipWhitespace();
      if !IsAt(buf.content, buf.offset, COMMA) {
        ok := IsAt(buf.content, buf.offset, CLOSE_OBJECT);
        if ok {
          buf.offset := buf.offset + 1;
        }
        return;
      }
      PrependPrepend(members, [m.value], MembersAt(c, buf.offset, d, strtod));
      members := members + [m.value];
    }
  }

  /** One turn of the loop of parse_object up to the value, which becomes an item with the member's name. */
  method ParseMemberItem(buf: ParseBuffer) returns (r: Item?)
    requires buf.Valid() && buf.offset < |buf.content|
    modifies buf
    ensures buf.Valid()
    ensures match MemberAt(buf.content, old(buf.offset), old(buf.depth), buf.strtod)
            case Ok(m, end) => buf.offset == end && Holds(r, m.value, Some(m.name))
            case Bad(at) => buf.offset == at && r == null
    ensures r != null ==> fresh(r.repr) && buf.depth == old(buf.depth)
    decreases |buf.content| - buf.offset, 2
  {
    hide Holds, NameAt, ValueAt;
    var name := buf.ParseName();
    if name == None {
      return null;
    }
    buf.SkipWhitespace();
    r := ParseValueItem(buf, name);
  }

  /** cJSON_ParseWithLengthOpts: the items of the whole document, or none. */
  method ParseDocument(value: bytes, strtod: Strtod, requireNul: bool) returns (item: Item?)
    ensures match Document(value, requireNul, strtod)
            case Ok(v, _) => Holds(item, v, None) && fresh(item.repr)
            case Bad(_) => item == null
  {
    hide Item.Shape, ValueAt;
    if |value| == 0 {
      return null;
    }
    var buf := new ParseBuffer(value, strtod);
    if 4 < |value| && value[0] == 0xEF && value[1] == 0xBB && value[2] == 0xBF {
      assert value[..3] == BOM;
      buf.offset := 3;
    }
    assert buf.offset == 3 <==> |value| > 4 && At(value, 0, BOM);
    buf.SkipWhitespace();
    item := ParseValueItem(buf, None);
    if item != null && requireNul {
      buf.SkipWhitespace();
      if !IsAt(value, buf.offset, 0) {
        item := null;
      }
    }
  }

  lemma NoTrees()
    ensures TreesOfItems([]) == [] && TreesOfMembers([]) == []
  {
  }
}
