/** The values a cJSON item can hold, and their numbers as text. */
module JsonTree {
  import opened Bytes

  const INT_MAX := 0x7FFF_FFFF
  const INT_MIN := -0x8000_0000

  /** CJSON_NESTING_LIMIT */
  const NESTING_LIMIT := 1000

  /** CJSON_CIRCULAR_LIMIT */
  const CIRCULAR_LIMIT := 10000

  const COMMA: byte := 0x2C
  const COLON: byte := 0x3A

  datatype Json =
    | Null
    | Bool(b: bool)
    | Number(d: real)
    | Raw(raw: cstring)
    | String(s: cstring)
    | Array(items: seq<Json>)
    | Object(members: seq<Member>)

  datatype Member = Member(name: cstring, value: Json)

  /** How many containers enclose the innermost value. */
  function Height(t: Json): nat
    decreases t
  {
    match t
    case Array(items) => 1 + HeightOfItems(items)
    case Object(members) => 1 + HeightOfMembers(members)
    case _ => 0
  }

  function HeightOfItems(items: seq<Json>): nat
    decreases items
  {
    if items == [] then 0 else Max(Height(items[0]), HeightOfItems(items[1..]))
  }

  function HeightOfMembers(members: seq<Member>): nat
    decreases members
  {
    if members == [] then 0 else Max(Height(members[0].value), HeightOfMembers(members[1..]))
  }

  function Max(a: nat, b: nat): nat {
    if a < b then b else a
  }

  /** The C conversion of a double to int: towards zero, saturated at the ends of int. */
  function ValueInt(d: real): (n: int)
    ensures INT_MIN <= n <= INT_MAX
  {
    if d >= INT_MAX as real then INT_MAX
    else if d <= INT_MIN as real then INT_MIN
    else if d >= 0.0 then d.Floor else -(-d).Floor
  }

  predicate IsInt(d: real) {
    d == ValueInt(d) as real
  }

  /** Every number is an integer in int range, and there is no raw text. */
  predicate IntegerTree(t: Json)
    decreases t
  {
    match t
    case Number(d) => IsInt(d)
    case Raw(_) => false
    case Array(items) => forall i :: 0 <= i < |items| ==> IntegerTree(items[i])
    case Object(members) => forall i :: 0 <= i < |members| ==> IntegerTree(members[i].value)
    case _ => true
  }

  // ----- decimal text

  const MINUS: byte := 0x2D

  predicate IsDigit(c: byte) {
    0x30 <= c <= 0x39
  }

  function NatText(n: nat): (r: bytes)
    ensures |r| > 0
    ensures forall i :: 0 <= i < |r| ==> IsDigit(r[i])
  {
    if n < 10 then [0x30 + n] else NatText(n / 10) + [0x30 + n % 10]
  }

  /** printf("%d", n) */
  function IntText(n: int): (r: bytes)
    ensures |r| > 0
    ensures r[0] == MINUS || IsDigit(r[0])
    ensures forall i :: 1 <= i < |r| ==> IsDigit(r[i])
  {
    if n < 0 then [MINUS] + NatText(-n) else NatText(n)
  }

  lemma NatTextShort(n: nat, k: nat, bound: nat)
    requires n < bound && k > 0
    requires k == 1 ==> bound <= 10
    requires k > 1 ==> bound <= Pow10(k)
    ensures |NatText(n)| <= k
    decreases k
  {
    if n >= 10 {
      NatTextShort(n / 10, k - 1, Pow10(k - 1));
    }
  }

  function Pow10(k: nat): nat {
    if k == 0 then 1 else 10 * Pow10(k - 1)
  }

  /** The text of an int needs at most 11 bytes. */
  lemma IntTextShort(n: int)
    requires INT_MIN <= n <= INT_MAX
    ensures |IntText(n)| <= 11
  {
    assert Pow10(10) == 10_000_000_000 by {
      assert Pow10(5) == 100_000;
    }
    NatTextShort(if n < 0 then -n else n, 10, Pow10(10));
  }
}
