/** Bytes, C strings and the small vocabulary every component shares. */
module Bytes {

  type byte = b: int | 0 <= b < 256

  type bytes = seq<byte>

  /** A C string, without its terminating NUL. */
  type cstring = s: bytes | 0 !in s

  datatype Option<+T> = None | Some(value: T)

  /** What strlen and strcmp see of a buffer: everything before the first NUL. */
  function CString(s: bytes): (r: cstring)
    ensures r <= s
    ensures 0 !in s ==> r == s
    ensures |r| < |s| ==> s[|r|] == 0
  {
    if s == [] || s[0] == 0 then [] else [s[0]] + CString(s[1..])
  }

  /** The bytes of a text in ASCII. */
  function Ascii(text: string): (r: bytes)
    ensures |r| == |text|
    ensures forall i :: 0 <= i < |text| ==> r[i] == text[i] as int % 256
  {
    seq(|text|, i requires 0 <= i < |text| => text[i] as int % 256)
  }

  /** `text` occurs in `s` at position `at`. */
  predicate At(s: bytes, at: nat, text: bytes) {
    at + |text| <= |s| && s[at..at + |text|] == text
  }

  lemma AtSplit(s: bytes, at: nat, a: bytes, b: bytes)
    ensures At(s, at, a + b) <==> At(s, at, a) && At(s, at + |a|, b)
    ensures At(s, at, a + b) ==> at + |a| + |b| <= |s|
  {
    if at + |a| + |b| <= |s| {
      var whole := s[at..at + |a| + |b|];
      assert whole[..|a|] == s[at..at + |a|];
      assert whole[|a|..] == s[at + |a|..at + |a| + |b|];
      assert (a + b)[..|a|] == a && (a + b)[|a|..] == b;
      if whole[..|a|] == a && whole[|a|..] == b {
        assert whole == whole[..|a|] + whole[|a|..];
      }
    }
  }

  lemma AtHead(s: bytes, at: nat, text: bytes)
    requires At(s, at, text) && |text| > 0
    ensures at + |text| <= |s| && s[at] == text[0]
  {
    assert s[at..at + |text|][0] == s[at];
  }

  /** The `k` low-order base-256 digits of `n`, least significant first. */
  function LittleEndian(n: nat, k: nat): (r: bytes)
    ensures |r| == k
  {
    if k == 0 then [] else [n % 256] + LittleEndian(n / 256, k - 1)
  }

  function FromLittleEndian(s: bytes): nat {
    if s == [] then 0 else s[0] + 256 * FromLittleEndian(s[1..])
  }

  function Pow256(k: nat): (r: nat)
    ensures r > 0
  {
    if k == 0 then 1 else 256 * Pow256(k - 1)
  }

  /** Byte i is digit i, counted from the low-order end. */
  lemma {:induction false} LittleEndianDigits(n: nat, k: nat, i: nat)
    requires i < k
    ensures LittleEndian(n, k)[i] == n / Pow256(i) % 256
  {
    if i > 0 {
      LittleEndianDigits(n / 256, k - 1, i - 1);
      ModStep(n, Pow256(i - 1));
    }
  }

  function Pow2(k: nat): (r: nat)
    ensures r > 0
  {
    if k == 0 then 1 else 2 * Pow2(k - 1)
  }

  lemma {:induction false} Pow2Bytes(k: nat)
    ensures Pow2(8 * k) == Pow256(k)
  {
    if k > 0 {
      Pow2Bytes(k - 1);
      var j := 8 * k - 8;
      assert Pow2(j + 8) == 2 * Pow2(j + 7) && Pow2(j + 7) == 2 * Pow2(j + 6) && Pow2(j + 6) == 2 * Pow2(j + 5);
      assert Pow2(j + 5) == 2 * Pow2(j + 4) && Pow2(j + 4) == 2 * Pow2(j + 3) && Pow2(j + 3) == 2 * Pow2(j + 2);
      assert Pow2(j + 2) == 2 * Pow2(j + 1) && Pow2(j + 1) == 2 * Pow2(j);
    }
  }

  lemma {:induction false} Pow2Grows(j: nat, k: nat)
    requires j <= k
    ensures Pow2(j) <= Pow2(k)
  {
    if j < k {
      Pow2Grows(j, k - 1);
    }
  }

  /** Storing n in k bytes keeps it modulo 256^k, which is how C truncates to a narrower field. */
  lemma {:induction false} LittleEndianValue(n: nat, k: nat)
    ensures FromLittleEndian(LittleEndian(n, k)) == n % Pow256(k)
  {
    if k > 0 {
      LittleEndianValue(n / 256, k - 1);
      assert LittleEndian(n, k)[1..] == LittleEndian(n / 256, k - 1);
      ModStep(n, Pow256(k - 1));
    }
  }

  /** A number that fits is read back unchanged. */
  lemma LittleEndianExact(n: nat, k: nat)
    requires n < Pow256(k)
    ensures FromLittleEndian(LittleEndian(n, k)) == n
  {
    LittleEndianValue(n, k);
  }

  lemma Pow256Eight()
    ensures Pow256(8) == 0x1_0000_0000_0000_0000
  {
    assert Pow256(4) == 0x1_0000_0000;
  }

  lemma ModStep(n: nat, m: nat)
    requires m > 0
    ensures n % (256 * m) == n % 256 + 256 * (n / 256 % m) && n / (256 * m) == n / 256 / m
  {
    var q, r := n / 256 / m, n / 256 % m;
    assert n / 256 == m * q + r;
    assert (256 * m) * q == 256 * (m * q);
    DivModUnique(n, 256 * m, q, 256 * r + n % 256);
  }

  lemma DivModUnique(n: int, d: int, q: int, r: int)
    requires 0 <= r < d && n == d * q + r
    ensures n / d == q && n % d == r
  {
    var k := n / d - q;
    assert d * k == r - n % d;
    MultipleOutside(d, k);
  }

  lemma MultipleOutside(d: int, k: int)
    requires d > 0
    ensures k >= 1 ==> d * k >= d
    ensures k <= -1 ==> d * k <= -d
  {
  }

  lemma {:induction false} LittleEndianInjective(a: nat, b: nat, k: nat)
    requires LittleEndian(a, k) == LittleEndian(b, k)
    ensures a % Pow256(k) == b % Pow256(k)
  {
    LittleEndianValue(a, k);
    LittleEndianValue(b, k);
  }

  function Zeros(k: nat): (r: bytes)
    ensures |r| == k
    ensures forall i :: 0 <= i < k ==> r[i] == 0
  {
    seq(k, _ => 0)
  }

  type Digest = d: bytes | |d| == 32 witness Zeros(32)

  /** SHA-256, of which nothing is assumed. */
  type Hash = bytes -> Digest

  /** A little-endian field of n bytes. */
  function Le(s: bytes, at: nat, n: nat): nat
    requires at + n <= |s|
  {
    FromLittleEndian(s[at..at + n])
  }

  /** s with some bytes overwritten. */
  function Patched(s: bytes, at: nat, field: bytes): (r: bytes)
    requires at + |field| <= |s|
    ensures |r| == |s|
  {
    s[..at] + field + s[at + |field|..]
  }

  lemma Associate(a: bytes, b: bytes, c: bytes)
    ensures a + b + c == a + (b + c)
  {
  }

  /** Concatenations with first parts of the same length are equal exactly when the parts are. */
  lemma SplitEqual(a: bytes, x: bytes, b: bytes, y: bytes)
    requires |a| == |b|
    ensures a + x == b + y <==> a == b && x == y
  {
    assert (a + x)[..|a|] == a && (a + x)[|a|..] == x;
    assert (b + y)[..|b|] == b && (b + y)[|b|..] == y;
  }
}
