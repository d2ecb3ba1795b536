/** cJSON_Compare and the member lookup it rests on, against trees read as values. */
module JsonCompare {
  import opened Bytes
  import opened JsonTree

  // ----- names

  /** tolower in the C locale */
  function Lower(c: byte): (r: byte) {
    if 0x41 <= c <= 0x5A then c + 0x20 else c
  }

  function LowerAll(s: cstring): (r: cstring)
    ensures |r| == |s|
    ensures forall i :: 0 <= i < |s| ==> r[i] == Lower(s[i])
  {
    seq(|s|, i requires 0 <= i < |s| => Lower(s[i]))
  }

  /** What a lookup compares of a name. */
  function Key(name: cstring, caseSensitive: bool): cstring {
    if caseSensitive then name else LowerAll(name)
  }

  /** case_insensitive_strcmp: the difference at the first byte where the lower-cased strings differ. */
  method CaseInsensitiveStrcmp(a: cstring, b: cstring) returns (r: int)
    ensures r == 0 <==> LowerAll(a) == LowerAll(b)
  {
    var i := 0;
    while i < |a| && i < |b| && Lower(a[i]) == Lower(b[i])
      invariant 0 <= i <= |a| && i <= |b|
      invariant forall j :: 0 <= j < i ==> Lower(a[j]) == Lower(b[j])
    {
      i := i + 1;
    }
    var x := if i < |a| then Lower(a[i]) else 0;
    var y := if i < |b| then Lower(b[i]) else 0;
    r := x - y;
    if i < |a| && i < |b| {
      assert LowerAll(a)[i] != LowerAll(b)[i];
    } else if i < |a| || i < |b| {
      assert |LowerAll(a)| != |LowerAll(b)|;
    } else {
      assert LowerAll(a) == LowerAll(b);
    }
  }

  /** The first member whose name matches. */
  function Find(members: seq<Member>, name: cstring, caseSensitive: bool): (r: Option<nat>)
    ensures r.Some? ==>
              && r.value < |members| && Key(members[r.value].name, caseSensitive) == Key(name, caseSensitive)
              && forall j :: 0 <= j < r.value ==> Key(members[j].name, caseSensitive) != Key(name, caseSensitive)
    ensures r.None? ==> forall j :: 0 <= j < |members| ==> Key(members[j].name, caseSensitive) != Key(name, caseSensitive)
  {
    if members == [] then None
    else if Key(members[0].name, caseSensitive) == Key(name, caseSensitive) then Some(0)
    else
      match Find(members[1..], name, caseSensitive)
      case Some(i) => Some(i + 1)
      case None => None
  }

  /** get_object_item */
  method GetObjectItem(members: seq<Member>, name: cstring, caseSensitive: bool) returns (r: Option<nat>)
    ensures r == Find(members, name, caseSensitive)
  {
    var i := 0;
    while i < |members|
      invariant 0 <= i <= |members|
      invariant forall j :: 0 <= j < i ==> Key(members[j].name, caseSensitive) != Key(name, caseSensitive)
    {
      var matches;
      if caseSensitive {
        matches := name == members[i].name;
      } else {
        var order := CaseInsensitiveStrcmp(name, members[i].name);
        matches := order == 0;
      }
      if matches {
        return Some(i);
      }
      i := i + 1;
    }
    r := None;
  }

  // ----- comparison

  const DBL_EPSILON: real := 1.0 / 4503599627370496.0

  function Abs(d: real): real {
    if d < 0.0 then -d else d
  }

  /** compare_double, over the reals. */
  predicate CompareDouble(a: real, b: real) {
    var maxVal := if Abs(a) > Abs(b) then Abs(a) else Abs(b);
    Abs(a - b) <= maxVal * DBL_EPSILON
  }

  lemma ItemHeight(items: seq<Json>, i: nat)
    requires i < |items|
    ensures Height(items[i]) <= HeightOfItems(items)
  {
    if i > 0 {
      assert items[1..][i - 1] == items[i];
      ItemHeight(items[1..], i - 1);
    }
  }

  lemma MemberHeight(members: seq<Member>, i: nat)
    requires i < |members|
    ensures Height(members[i].value) <= HeightOfMembers(members)
  {
    if i > 0 {
      assert members[1..][i - 1] == members[i];
      MemberHeight(members[1..], i - 1);
    }
  }

  /** When cJSON_Compare answers true. Comparing members back the other way swaps the arguments,
      so the measure is the height of both trees together. */
  predicate Same(a: Json, b: Json, caseSensitive: bool)
    decreases Height(a) + Height(b), 1
  {
    match (a, b)
    case (Array(xs), Array(ys)) =>
      && |xs| == |ys|
      && forall i :: 0 <= i < |xs| ==> (ItemHeight(xs, i); ItemHeight(ys, i); Same(xs[i], ys[i], caseSensitive))
    case (Object(xs), Object(ys)) => Matched(xs, ys, caseSensitive) && Matched(ys, xs, caseSensitive)
    case _ => SameScalars(a, b)
  }

  predicate SameScalars(a: Json, b: Json) {
    match (a, b)
    case (Null, Null) => true
    case (Bool(x), Bool(y)) => x == y
    case (Number(x), Number(y)) => CompareDouble(x, y)
    case (Raw(x), Raw(y)) => x == y
    case (String(x), String(y)) => x == y
    case _ => false
  }

  /** Every member of xs finds its equal in ys. */
  predicate Matched(xs: seq<Member>, ys: seq<Member>, caseSensitive: bool)
    decreases HeightOfMembers(xs) + HeightOfMembers(ys) + 2, 0
  {
    forall i :: 0 <= i < |xs| ==>
      var j := Find(ys, xs[i].name, caseSensitive);
      j.Some? && (MemberHeight(xs, i); MemberHeight(ys, j.value); Same(xs[i].value, ys[j.value].value, caseSensitive))
  }

  /** cJSON_Compare. The arguments may be one and the same item; children of different items are
      different items. */
  method Compare(a: Json, b: Json, identical: bool, caseSensitive: bool) returns (r: bool)
    requires identical ==> a == b
    ensures r <==> identical || Same(a, b, caseSensitive)
    decreases Height(a) + Height(b), 1
  {
    hide Matched;
    if identical {
      return true;
    }
    match (a, b)
    case (Null, Null) => r := true;
    case (Bool(x), Bool(y)) => r := x == y;
    case (Number(x), Number(y)) => r := CompareDouble(x, y);
    case (Raw(x), Raw(y)) => r := x == y;
    case (String(x), String(y)) => r := x == y;
    case (Array(xs), Array(ys)) => r := CompareItems(xs, ys, caseSensitive);
    case (Object(xs), Object(ys)) =>
      r := CompareMembers(xs, ys, caseSensitive);
      if r {
        r := CompareMembers(ys, xs, caseSensitive);
      }
    case _ => r := false;
  }

  /** The loop over two arrays, which stops at the shorter one. */
  method CompareItems(xs: seq<Json>, ys: seq<Json>, caseSensitive: bool) returns (r: bool)
    ensures r <==> |xs| == |ys| && forall i :: 0 <= i < |xs| ==> Same(xs[i], ys[i], caseSensitive)
    decreases HeightOfItems(xs) + HeightOfItems(ys) + 2, 0
  {
    var i := 0;
    while i < |xs| && i < |ys|
      invariant 0 <= i <= |xs| && i <= |ys|
      invariant forall k :: 0 <= k < i ==> Same(xs[k], ys[k], caseSensitive)
    {
      ItemHeight(xs, i);
      ItemHeight(ys, i);
      var same := Compare(xs[i], ys[i], false, caseSensitive);
      if !same {
        return false;
      }
      i := i + 1;
    }
    r := i == |xs| == |ys|;
  }

  /** One of the two loops over an object. */
  method CompareMembers(xs: seq<Member>, ys: seq<Member>, caseSensitive: bool) returns (r: bool)
    ensures r == Matched(xs, ys, caseSensitive)
    decreases HeightOfMembers(xs) + HeightOfMembers(ys) + 2, 0
  {
    hide Same, Find;
    var i := 0;
    while i < |xs|
      invariant 0 <= i <= |xs|
      invariant forall k :: 0 <= k < i ==>
                  var j := Find(ys, xs[k].name, caseSensitive);
                  j.Some? && Same(xs[k].value, ys[j.value].value, caseSensitive)
    {
      var j := GetObjectItem(ys, xs[i].name, caseSensitive);
      if j.None? {
        return false;
      }
      MemberHeight(xs, i);
      MemberHeight(ys, j.value);
      var same := Compare(xs[i].value, ys[j.value].value, false, caseSensitive);
      if !same {
        return false;
      }
      i := i + 1;
    }
    r := true;
  }

  /** The answer does not depend on the order of the arguments, whatever the trees. */
  lemma {:induction false} CompareSymmetric(a: Json, b: Json, caseSensitive: bool)
    ensures Same(a, b, caseSensitive) == Same(b, a, caseSensitive)
    decreases Height(a) + Height(b)
  {
    match (a, b)
    case (Array(xs), Array(ys)) =>
      if |xs| == |ys| {
        forall i | 0 <= i < |xs| ensures Same(xs[i], ys[i], caseSensitive) == Same(ys[i], xs[i], caseSensitive) {
          ItemHeight(xs, i);
          ItemHeight(ys, i);
          CompareSymmetric(xs[i], ys[i], caseSensitive);
        }
      }
    case _ =>
  }

  // ----- trees as values

  /** A JSON value: arrays are sequences, objects are maps from names. */
  datatype Value =
    | VNull
    | VBool(b: bool)
    | VInt(n: int)
    | VString(s: cstring)
    | VArray(items: seq<Value>)
    | VObject(members: map<cstring, Value>)

  function ValueOf(t: Json, caseSensitive: bool): Value
    decreases t
  {
    match t
    case Null => VNull
    case Bool(b) => VBool(b)
    case Number(d) => VInt(ValueInt(d))
    case Raw(s) => VString(s)
    case String(s) => VString(s)
    case Array(items) => VArray(seq(|items|, i requires 0 <= i < |items| => ValueOf(items[i], caseSensitive)))
    case Object(members) => VObject(MapOf(members, caseSensitive))
  }

  function MapOf(members: seq<Member>, caseSensitive: bool): map<cstring, Value>
    decreases members
  {
    if members == [] then map[]
    else
      MapOf(members[1..], caseSensitive)[Key(members[0].name, caseSensitive) := ValueOf(members[0].value, caseSensitive)]
  }

  /** A name that an object repeats has the same value each time, here and below. */
  predicate Consistent(t: Json, caseSensitive: bool)
    decreases t
  {
    match t
    case Array(items) => forall i :: 0 <= i < |items| ==> Consistent(items[i], caseSensitive)
    case Object(members) =>
      && (forall i :: 0 <= i < |members| ==> Consistent(members[i].value, caseSensitive))
      && forall i :: 0 <= i < |members| ==> KeepsFirst(members, i, caseSensitive)
    case _ => true
  }

  /** The value of a member is that of the first one with its name. */
  predicate KeepsFirst(members: seq<Member>, i: nat, caseSensitive: bool)
    requires i < |members|
    decreases members
  {
    var k := Key(members[i].name, caseSensitive);
    k in MapOf(members, caseSensitive) && MapOf(members, caseSensitive)[k] == ValueOf(members[i].value, caseSensitive)
  }

  /** A lookup finds what the map holds. */
  lemma {:induction false} FindIsMapOf(members: seq<Member>, name: cstring, caseSensitive: bool)
    ensures var j := Find(members, name, caseSensitive);
            var k := Key(name, caseSensitive);
            && (j.Some? <==> k in MapOf(members, caseSensitive))
            && (j.Some? ==> MapOf(members, caseSensitive)[k] == ValueOf(members[j.value].value, caseSensitive))
  {
    if members != [] && Key(members[0].name, caseSensitive) != Key(name, caseSensitive) {
      FindIsMapOf(members[1..], name, caseSensitive);
    }
  }

  /** No object repeats a name. */
  predicate Distinct(t: Json, caseSensitive: bool)
    decreases t
  {
    match t
    case Array(items) => forall i :: 0 <= i < |items| ==> Distinct(items[i], caseSensitive)
    case Object(members) =>
      && DistinctKeys(members, caseSensitive)
      && forall i :: 0 <= i < |members| ==> Distinct(members[i].value, caseSensitive)
    case _ => true
  }

  predicate DistinctKeys(members: seq<Member>, caseSensitive: bool) {
    forall i, j :: 0 <= i < j < |members| ==> Key(members[i].name, caseSensitive) != Key(members[j].name, caseSensitive)
  }

  /** Names that are not repeated cannot disagree. */
  lemma {:induction false} DistinctIsConsistent(t: Json, caseSensitive: bool)
    requires Distinct(t, caseSensitive)
    ensures Consistent(t, caseSensitive)
    decreases t
  {
    match t
    case Array(items) =>
      forall i | 0 <= i < |items| ensures Consistent(items[i], caseSensitive) {
        DistinctIsConsistent(items[i], caseSensitive);
      }
    case Object(members) =>
      forall i | 0 <= i < |members|
        ensures Consistent(members[i].value, caseSensitive) && KeepsFirst(members, i, caseSensitive)
      {
        DistinctIsConsistent(members[i].value, caseSensitive);
        FindIsMapOf(members, members[i].name, caseSensitive);
        assert Find(members, members[i].name, caseSensitive) == Some(i);
      }
    case _ =>
  }

  lemma {:induction false} MapOfKey(members: seq<Member>, k: cstring, caseSensitive: bool) returns (i: nat)
    requires k in MapOf(members, caseSensitive)
    ensures i < |members| && Key(members[i].name, caseSensitive) == k
  {
    if Key(members[0].name, caseSensitive) == k {
      i := 0;
    } else {
      i := MapOfKey(members[1..], k, caseSensitive);
      i := i + 1;
    }
  }

  lemma IntsCompareExactly(a: real, b: real)
    requires IsInt(a) && IsInt(b)
    ensures CompareDouble(a, b) <==> ValueInt(a) == ValueInt(b)
  {
    var m, n := ValueInt(a), ValueInt(b);
    assert Abs(a) <= 2147483648.0 && Abs(b) <= 2147483648.0;
    if m != n {
      assert Abs(a - b) >= 1.0;
    }
  }

  /** On integer trees cJSON_Compare decides equality of values, objects as unordered maps and arrays as
      sequences, exactly where repeated names do not disagree; where they do, it answers false. */
  lemma {:induction false} CompareDecidesEquality(a: Json, b: Json, caseSensitive: bool)
    requires IntegerTree(a) && IntegerTree(b)
    ensures Same(a, b, caseSensitive)
       <==> && Consistent(a, caseSensitive) && Consistent(b, caseSensitive)
            && ValueOf(a, caseSensitive) == ValueOf(b, caseSensitive)
    decreases Height(a) + Height(b), 1
  {
    match (a, b)
    case (Number(x), Number(y)) => IntsCompareExactly(x, y);
    case (Array(xs), Array(ys)) => CompareArrays(xs, ys, caseSensitive);
    case (Object(xs), Object(ys)) =>
      hide MapOf, Find, Matched, Included, KeepsFirst;
      MembersMatched(xs, ys, caseSensitive);
      MembersMatched(ys, xs, caseSensitive);
      AgreesIncluded(xs, MapOf(ys, caseSensitive), caseSensitive);
      AgreesIncluded(ys, MapOf(xs, caseSensitive), caseSensitive);
      AgreesIncluded(xs, MapOf(xs, caseSensitive), caseSensitive);
      MapsEqual(MapOf(xs, caseSensitive), MapOf(ys, caseSensitive));
      hide Agrees;
    case _ =>
  }

  lemma {:induction false} CompareArrays(xs: seq<Json>, ys: seq<Json>, caseSensitive: bool)
    requires IntegerTree(Array(xs)) && IntegerTree(Array(ys))
    ensures Same(Array(xs), Array(ys), caseSensitive)
       <==> && Consistent(Array(xs), caseSensitive) && Consistent(Array(ys), caseSensitive)
            && ValueOf(Array(xs), caseSensitive) == ValueOf(Array(ys), caseSensitive)
    decreases HeightOfItems(xs) + HeightOfItems(ys) + 2, 0
  {
    var vs, ws := ValueOf(Array(xs), caseSensitive).items, ValueOf(Array(ys), caseSensitive).items;
    if |xs| == |ys| {
      forall i | 0 <= i < |xs|
        ensures Same(xs[i], ys[i], caseSensitive)
           <==> Consistent(xs[i], caseSensitive) && Consistent(ys[i], caseSensitive) && vs[i] == ws[i]
      {
        ItemHeight(xs, i);
        ItemHeight(ys, i);
        CompareDecidesEquality(xs[i], ys[i], caseSensitive);
      }
    }
    assert vs == ws <==> |xs| == |ys| && forall i :: 0 <= i < |xs| ==> vs[i] == ws[i];
  }

  /** What one direction of the object comparison asks of a member. */
  lemma {:induction false} MemberMatched(xs: seq<Member>, ys: seq<Member>, i: nat, caseSensitive: bool)
    requires i < |xs| && IntegerTree(Object(xs)) && IntegerTree(Object(ys))
    ensures var j := Find(ys, xs[i].name, caseSensitive);
            var k := Key(xs[i].name, caseSensitive);
            var my := MapOf(ys, caseSensitive);
            && (j.Some? <==> k in my)
            && (j.Some? ==>
                  (Same(xs[i].value, ys[j.value].value, caseSensitive)
                   <==> && my[k] == ValueOf(xs[i].value, caseSensitive)
                        && Consistent(xs[i].value, caseSensitive) && Consistent(ys[j.value].value, caseSensitive)))
    decreases HeightOfMembers(xs) + HeightOfMembers(ys) + 1, 0
  {
    var j := Find(ys, xs[i].name, caseSensitive);
    FindIsMapOf(ys, xs[i].name, caseSensitive);
    hide MapOf, Find;
    if j.Some? {
      MemberHeight(xs, i);
      MemberHeight(ys, j.value);
      CompareDecidesEquality(xs[i].value, ys[j.value].value, caseSensitive);
    }
  }
  /** Every member has the value that the map holds for its name. */
  ghost predicate Agrees(members: seq<Member>, m: map<cstring, Value>, caseSensitive: bool) {
    forall i :: 0 <= i < |members| ==> AgreesAt(members[i], m, caseSensitive)
  }

  ghost predicate AgreesAt(x: Member, m: map<cstring, Value>, caseSensitive: bool) {
    Key(x.name, caseSensitive) in m && m[Key(x.name, caseSensitive)] == ValueOf(x.value, caseSensitive)
  }

  ghost predicate AllConsistent(members: seq<Member>, caseSensitive: bool) {
    forall i :: 0 <= i < |members| ==> Consistent(members[i].value, caseSensitive)
  }

  lemma {:induction false} MembersMatched(xs: seq<Member>, ys: seq<Member>, caseSensitive: bool)
    requires IntegerTree(Object(xs)) && IntegerTree(Object(ys))
    ensures Matched(xs, ys, caseSensitive) ==>
              Agrees(xs, MapOf(ys, caseSensitive), caseSensitive) && AllConsistent(xs, caseSensitive)
    ensures Agrees(xs, MapOf(ys, caseSensitive), caseSensitive) ==>
              (AllConsistent(xs, caseSensitive) && AllConsistent(ys, caseSensitive) ==> Matched(xs, ys, caseSensitive))
    decreases HeightOfMembers(xs) + HeightOfMembers(ys) + 2, 0
  {
    var my := MapOf(ys, caseSensitive);
    forall i | 0 <= i < |xs|
      ensures var j := Find(ys, xs[i].name, caseSensitive);
              && (AgreesAt(xs[i], my, caseSensitive) ==> j.Some?)
              && (j.Some? ==>
                    (Same(xs[i].value, ys[j.value].value, caseSensitive)
                     <==> && AgreesAt(xs[i], my, caseSensitive)
                          && Consistent(xs[i].value, caseSensitive) && Consistent(ys[j.value].value, caseSensitive)))
    {
      MemberMatched(xs, ys, i, caseSensitive);
    }
    hide MapOf, Find, Same, Consistent, AgreesAt;
  }

  /** Agreeing with a map is being consistent and included in it. */
  lemma AgreesIncluded(members: seq<Member>, m: map<cstring, Value>, caseSensitive: bool)
    ensures Agrees(members, m, caseSensitive)
       <==> && Included(MapOf(members, caseSensitive), m)
            && forall i :: 0 <= i < |members| ==> KeepsFirst(members, i, caseSensitive)
  {
    var own := MapOf(members, caseSensitive);
    forall i | 0 <= i < |members| ensures Key(members[i].name, caseSensitive) in own {
      FindIsMapOf(members, members[i].name, caseSensitive);
    }
    forall k | k in own
      ensures exists i :: 0 <= i < |members| && Key(members[i].name, caseSensitive) == k
                          && own[k] == ValueOf(members[i].value, caseSensitive)
    {
      var i := MapOfKey(members, k, caseSensitive);
      FindIsMapOf(members, members[i].name, caseSensitive);
      var j := Find(members, members[i].name, caseSensitive);
      assert Key(members[j.value].name, caseSensitive) == k;
    }
    hide MapOf, ValueOf;
    if Agrees(members, m, caseSensitive) {
      forall k | k in own ensures k in m && own[k] == m[k] {
        var i :| 0 <= i < |members| && Key(members[i].name, caseSensitive) == k
                 && own[k] == ValueOf(members[i].value, caseSensitive);
        assert AgreesAt(members[i], m, caseSensitive);
      }
      forall i | 0 <= i < |members| ensures KeepsFirst(members, i, caseSensitive) {
        assert AgreesAt(members[i], m, caseSensitive);
      }
    } else {
      var i :| 0 <= i < |members| && !AgreesAt(members[i], m, caseSensitive);
      assert Included(own, m) && KeepsFirst(members, i, caseSensitive) ==> AgreesAt(members[i], m, caseSensitive);
    }
  }

  ghost predicate Included(m: map<cstring, Value>, n: map<cstring, Value>) {
    forall k :: k in m ==> k in n && m[k] == n[k]
  }

  lemma MapsEqual(m: map<cstring, Value>, n: map<cstring, Value>)
    ensures Included(m, n) && Included(n, m) <==> m == n
  {
  }

  /** An integer tree equals its own copy exactly when its repeated names do not disagree. */
  lemma EqualsItsCopy(t: Json, caseSensitive: bool)
    requires IntegerTree(t)
    ensures Same(t, t, caseSensitive) <==> Consistent(t, caseSensitive)
  {
    CompareDecidesEquality(t, t, caseSensitive);
  }

  /** Such as this one does not: the lookup only ever sees the first of the two. */
  lemma RepeatedNamesBreakReflexivity()
    ensures var t := Object([Member([0x78], Null), Member([0x78], Bool(true))]);
            IntegerTree(t) && !Consistent(t, true) && !Same(t, t, true)
  {
    var ms := [Member([0x78], Null), Member([0x78], Bool(true))];
    assert Find(ms, ms[1].name, true) == Some(0);
    EqualsItsCopy(Object(ms), true);
  }
}
