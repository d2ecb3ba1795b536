/** A cursor over a binary blob; a read past the end gives zero and does not move. */
module BinaryBlob {
  import opened Bytes

  /** A little-endian number of n bytes and the position after it. */
  function GetUint(blob: bytes, pos: nat, n: nat): (nat, nat) {
    if pos + n > |blob| then (0, pos) else (Le(blob, pos, n), pos + n)
  }

  function GetBytes(blob: bytes, pos: nat, count: nat): (bytes, nat) {
    if pos + count > |blob| then (Zeros(count), pos) else (blob[pos..pos + count], pos + count)
  }

  /** What is encoded at the position is read, and the position is then that of what follows. */
  lemma ReadsUint(blob: bytes, pos: nat, n: nat, k: nat, rest: bytes)
    requires At(blob, pos, LittleEndian(n, k) + rest) && n < Pow256(k)
    ensures GetUint(blob, pos, k) == (n, pos + k) && At(blob, pos + k, rest)
  {
    AtSplit(blob, pos, LittleEndian(n, k), rest);
    LittleEndianExact(n, k);
  }

  lemma ReadsBytes(blob: bytes, pos: nat, text: bytes, rest: bytes)
    requires At(blob, pos, text + rest)
    ensures GetBytes(blob, pos, |text|) == (text, pos + |text|) && At(blob, pos + |text|, rest)
  {
    AtSplit(blob, pos, text, rest);
  }

  class Cursor {
    const blob: bytes
    var pos: nat

    constructor (blob: bytes)
      ensures this.blob == blob && pos == 0
    {
      this.blob, pos := blob, 0;
    }

    method CheckBoundary(size: nat) returns (ok: bool)
      ensures ok <==> pos + size <= |blob|
    {
      ok := !(pos + size > |blob|);
    }

    method Uint8() returns (value: nat)
      modifies this
      ensures (value, pos) == GetUint(blob, old(pos), 1)
    {
      var ok := CheckBoundary(1);
      if !ok {
        return 0;
      }
      value := blob[pos];
      OneByte(blob[pos..pos + 1]);
      pos := pos + 1;
    }

    method Uint16() returns (value: nat)
      modifies this
      ensures (value, pos) == GetUint(blob, old(pos), 2)
    {
      var ok := CheckBoundary(2);
      if !ok {
        return 0;
      }
      value := blob[pos] as int + 256 * (blob[pos + 1] as int);
      TwoBytes(blob[pos..pos + 2]);
      pos := pos + 2;
    }

    /** A copy into a 32-bit variable of a little-endian machine. */
    method Uint32() returns (value: nat)
      modifies this
      ensures (value, pos) == GetUint(blob, old(pos), 4)
    {
      var ok := CheckBoundary(4);
      if !ok {
        return 0;
      }
      value := Le(blob, pos, 4);
      pos := pos + 4;
    }

    method Bytes(count: nat) returns (out: bytes)
      modifies this
      ensures (out, pos) == GetBytes(blob, old(pos), count)
    {
      var ok := CheckBoundary(count);
      if !ok {
        return Zeros(count);
      }
      out := blob[pos..pos + count];
      pos := pos + count;
    }

    method Skip(count: nat)
      modifies this
      ensures pos == old(pos) + count
    {
      pos := pos + count;
    }
  }

  lemma OneByte(s: bytes)
    requires |s| == 1
    ensures FromLittleEndian(s) == s[0]
  {
    assert s[1..] == [];
  }

  lemma TwoBytes(s: bytes)
    requires |s| == 2
    ensures FromLittleEndian(s) == s[0] as int + 256 * (s[1] as int)
  {
    OneByte(s[1..]);
  }
}
