/** Replacing a DER signature in a COSE_Sign1 message by the fixed-width r and s that COSE requires
    (RFC 9053 section 2.1). */
module TokenValidate {
  import opened Bytes
  import opened Cbor

  datatype Curve = P256 | P384 | P521 | OtherCurve

  /** The field size the conversion uses, and the one the callers allocate for. */
  function FieldSize(c: Curve): nat {
    match c
    case P521 => 66
    case P384 => 48
    case _ => 32
  }

  /** d2i_ECDSA_SIG: the two numbers of a DER signature, if it is one. Nothing is assumed of it. */
  type Der = bytes -> Option<(nat, nat)>

  // ----- signature_is_der_format

  /** The length an ASN.1 value declares in its second byte, or in one or two bytes after it. */
  function DeclaredLength(sig: bytes): Option<nat>
    requires |sig| >= 6
  {
    if sig[1] < 0x80 then Some(sig[1])
    else if sig[1] == 0x81 then Some(sig[2])
    else if sig[1] == 0x82 then Some(256 * sig[2] as int + sig[3])
    else None
  }

  predicate LooksLikeDer(sig: bytes) {
    |sig| >= 6 && sig[0] == 0x30 && DeclaredLength(sig).Some? && DeclaredLength(sig).value + 2 <= |sig|
  }

  /** A SEQUENCE of n bytes: the length in one byte below 128, or in one or two bytes after 0x81 or 0x82. */
  predicate BeginsSequence(sig: bytes, n: nat) {
    || (n < 0x80 && At(sig, 0, [0x30, n]))
    || (n < 0x100 && At(sig, 0, [0x30, 0x81, n]))
    || (n < 0x1_0000 && At(sig, 0, [0x30, 0x82, n / 256, n % 256]))
  }

  lemma LooksLikeDerExactly(sig: bytes)
    ensures LooksLikeDer(sig) <==> |sig| >= 6 && exists n: nat :: BeginsSequence(sig, n) && n + 2 <= |sig|
  {
    if |sig| >= 6 {
      assert sig[0..2] == [sig[0], sig[1]] && sig[0..3] == [sig[0], sig[1], sig[2]];
      assert sig[0..4] == [sig[0], sig[1], sig[2], sig[3]];
      if LooksLikeDer(sig) {
        assert BeginsSequence(sig, DeclaredLength(sig).value);
      }
    }
  }

  method SignatureIsDerFormat(sig: bytes) returns (r: bool)
    ensures r <==> LooksLikeDer(sig)
  {
    if |sig| < 6 || sig[0] != 0x30 {
      return false;
    }
    var declaredLen: nat := sig[1];
    if sig[1] >= 0x80 {
      var lenBytes := sig[1] - 0x80;
      if lenBytes > 2 || lenBytes == 0 {
        return false;
      }
      declaredLen := 0;
      var i := 0;
      while i < lenBytes
        invariant 0 <= i <= lenBytes <= 2
        invariant declaredLen == if i == 0 then 0 else if i == 1 then sig[2] else 256 * sig[2] as int + sig[3]
      {
        declaredLen := declaredLen * 256 + sig[2 + i];
        i := i + 1;
      }
    }
    r := declaredLen + 2 <= |sig|;
  }

  /** ASN.1 DER: an unsigned number in as few bytes as it takes, with a zero byte when the top bit is set. */
  function DerInteger(n: nat): bytes
    requires NumBytes(n) < 126
  {
    var m := BigEndian(n, NumBytes(n));
    var content := if m == [] || m[0] >= 0x80 then [0] + m else m;
    [0x02, |content|] + content
  }

  function DerSignature(r: nat, s: nat): (d: bytes)
    requires NumBytes(r) <= 66 && NumBytes(s) <= 66
  {
    var content := DerInteger(r) + DerInteger(s);
    (if |content| < 0x80 then [0x30, |content|] else [0x30, 0x81, |content|]) + content
  }

  /** Every DER signature of the supported curves is recognised, and its length fits one byte. */
  lemma DerSignaturesRecognised(r: nat, s: nat)
    requires NumBytes(r) <= 66 && NumBytes(s) <= 66
    ensures LooksLikeDer(DerSignature(r, s)) && |DerSignature(r, s)| <= 141
  {
    hide BigEndian, NumBytes;
  }

  // ----- ecdsa_signature_der_to_cose

  /** BN_num_bytes */
  function NumBytes(n: nat): nat {
    if n == 0 then 0 else 1 + NumBytes(n / 256)
  }

  lemma {:induction false} NumBytesFits(n: nat, k: nat)
    ensures NumBytes(n) <= k <==> n < Pow256(k)
  {
    if n > 0 && k > 0 {
      NumBytesFits(n / 256, k - 1);
    }
  }

  /** Writing a number in its own length behind zeros is writing it in a fixed width. */
  lemma {:induction false} ZeroPadded(n: nat, k: nat)
    requires NumBytes(n) <= k
    ensures BigEndian(n, k) == Zeros(k - NumBytes(n)) + BigEndian(n, NumBytes(n))
  {
    if n == 0 {
      ZeroBytes(k);
    } else {
      ZeroPadded(n / 256, k - 1);
    }
  }

  lemma {:induction false} ZeroBytes(k: nat)
    ensures BigEndian(0, k) == Zeros(k)
  {
    if k > 0 {
      ZeroBytes(k - 1);
    }
  }

  /** r and s in fixed width, one after the other. */
  function RawSignature(r: nat, s: nat, field: nat): (x: bytes)
    ensures |x| == 2 * field
  {
    BigEndian(r, field) + BigEndian(s, field)
  }

  function Reencoded(der: Der, sig: bytes, c: Curve): (x: Option<bytes>)
    ensures x.Some? ==> |x.value| == 2 * FieldSize(c)
  {
    match der(sig)
    case None => None
    case Some((r, s)) =>
      if c != OtherCurve && r < Pow256(FieldSize(c)) && s < Pow256(FieldSize(c)) then Some(RawSignature(r, s, FieldSize(c)))
      else None
  }

  /** A number copied right-aligned into zeros. */
  method WriteNumber(a: array<byte>, at: nat, field: nat, n: nat)
    requires at + field <= a.Length && NumBytes(n) <= field
    requires forall i :: at <= i < at + field ==> a[i] == 0
    modifies a
    ensures a[at..at + field] == BigEndian(n, field)
    ensures forall i :: 0 <= i < a.Length && !(at <= i < at + field) ==> a[i] == old(a[i])
  {
    ZeroPadded(n, field);
    var bytes := BigEndian(n, NumBytes(n));
    hide BigEndian, NumBytes;
    forall i | 0 <= i < |bytes| {
      a[at + field - |bytes| + i] := bytes[i];
    }
    assert a[at..at + field] == Zeros(field - |bytes|) + bytes;
  }

  /** The buffer has room for the result. */
  method EcdsaSignatureDerToCose(der: Der, sig: bytes, c: Curve, coseSig: array<byte>) returns (ok: bool)
    modifies coseSig
    ensures ok <==> coseSig.Length >= 2 * FieldSize(c) && Reencoded(der, sig, c).Some?
    ensures ok ==> coseSig[..2 * FieldSize(c)] == Reencoded(der, sig, c).value
  {
    if c == OtherCurve {
      return false;
    }
    var fieldSize := FieldSize(c);
    if coseSig.Length < fieldSize * 2 {
      return false;
    }
    var parsed := der(sig);
    if parsed == None {
      return false;
    }
    var (r, s) := parsed.value;
    NumBytesFits(r, fieldSize);
    NumBytesFits(s, fieldSize);
    hide Pow256, NumBytes, BigEndian;
    forall i | 0 <= i < fieldSize * 2 {
      coseSig[i] := 0;
    }
    if NumBytes(r) > fieldSize {
      return false;
    }
    WriteNumber(coseSig, 0, fieldSize, r);
    if NumBytes(s) > fieldSize {
      return false;
    }
    ghost var first := coseSig[..fieldSize];
    WriteNumber(coseSig, fieldSize, fieldSize, s);
    assert coseSig[..fieldSize] == first;
    assert coseSig[..2 * fieldSize] == coseSig[..fieldSize] + coseSig[fieldSize..2 * fieldSize];
    ok := true;
  }

  /** The halves of the new signature are r and s. */
  lemma RawSignatureHalves(r: nat, s: nat, field: nat)
    requires r < Pow256(field) && s < Pow256(field)
    ensures FromBigEndian(RawSignature(r, s, field)[..field]) == r
    ensures FromBigEndian(RawSignature(r, s, field)[field..]) == s
  {
    BigEndianExact(r, field);
    BigEndianExact(s, field);
    hide BigEndian, FromBigEndian;
    assert RawSignature(r, s, field)[..field] == BigEndian(r, field);
    assert RawSignature(r, s, field)[field..] == BigEndian(s, field);
  }

  /** The bits of the curve's numbers, as its name says. */
  function CurveBits(c: Curve): nat
    requires c != OtherCurve
  {
    match c
    case P256 => 256
    case P384 => 384
    case P521 => 521
  }

  /** The digits of n, the most significant byte first. */
  predicate AreDigits(x: bytes, n: nat) {
    forall i :: 0 <= i < |x| ==> x[i] == n / Pow256(|x| - 1 - i) % 256
  }

  /** RFC 9053 section 2.1: r and s, each in as many bytes as the bits of the curve take. */
  predicate IsCoseSignature(x: bytes, bits: nat, r: nat, s: nat) {
    var n := (bits + 7) / 8;
    && |x| == 2 * n && AreDigits(x[..n], r) && AreDigits(x[n..], s)
    && FromBigEndian(x[..n]) == r && FromBigEndian(x[n..]) == s
  }

  lemma BigEndianIsDigits(x: bytes, n: nat)
    ensures AreDigits(x, n) <==> x == BigEndian(n, |x|)
  {
    hide Pow256, BigEndian;
    forall i | 0 <= i < |x| ensures BigEndian(n, |x|)[i] == n / Pow256(|x| - 1 - i) % 256 {
      BigEndianDigits(n, |x|, i);
    }
  }

  lemma IsCoseSignatureUnique(x: bytes, c: Curve, r: nat, s: nat)
    requires c != OtherCurve && r < Pow256(FieldSize(c)) && s < Pow256(FieldSize(c))
    ensures IsCoseSignature(x, CurveBits(c), r, s) <==> x == RawSignature(r, s, FieldSize(c))
  {
    hide Pow256, BigEndian, FromBigEndian, AreDigits;
    var n := FieldSize(c);
    RawSignatureHalves(r, s, n);
    if |x| == 2 * n {
      BigEndianIsDigits(x[..n], r);
      BigEndianIsDigits(x[n..], s);
      assert x == x[..n] + x[n..];
      SplitEqual(x[..n], x[n..], BigEndian(r, n), BigEndian(s, n));
    }
  }

  lemma NumbersFit(c: Curve, r: nat)
    requires c != OtherCurve
    ensures r < Pow256(FieldSize(c)) <==> r < Pow2((CurveBits(c) + 7) / 8 * 8)
    ensures r < Pow2(CurveBits(c)) ==> r < Pow256(FieldSize(c))
  {
    hide Pow256, Pow2;
    Pow2Bytes(FieldSize(c));
    Pow2Grows(CurveBits(c), 8 * FieldSize(c));
  }

  /** A signature is converted for one of the three curves and numbers that fit the bytes of the curve, hence
      always for numbers in the range of the curve, and then to 64, 96 or 132 bytes. */
  lemma CurveWidths(der: Der, sig: bytes, c: Curve, r: nat, s: nat)
    requires der(sig) == Some((r, s))
    ensures Reencoded(der, sig, c).Some?
            <==> c != OtherCurve && r < Pow2((CurveBits(c) + 7) / 8 * 8) && s < Pow2((CurveBits(c) + 7) / 8 * 8)
    ensures Reencoded(der, sig, c).Some? ==> IsCoseSignature(Reencoded(der, sig, c).value, CurveBits(c), r, s)
    ensures c != OtherCurve && r < Pow2(CurveBits(c)) && s < Pow2(CurveBits(c)) ==> Reencoded(der, sig, c).Some?
    ensures Reencoded(der, sig, c).Some? ==>
              |Reencoded(der, sig, c).value| == match c case P256 => 64 case P384 => 96 case P521 => 132
  {
    if c != OtherCurve {
      NumbersFit(c, r);
      NumbersFit(c, s);
      hide Pow256, Pow2, RawSignature, IsCoseSignature;
      if Reencoded(der, sig, c).Some? {
        IsCoseSignatureUnique(RawSignature(r, s, FieldSize(c)), c, r, s);
      }
    }
  }

  // ----- the splice

  /** The signature replaced, and the last byte before it overwritten with the new length. */
  function Spliced(b: bytes, at: nat, size: nat, cose: bytes): (r: bytes)
    requires 1 <= at && at + size <= |b| && |cose| < 256
    ensures |r| == |b| - size + |cose|
  {
    b[..at - 1] + [|cose|] + cose + b[at + size..]
  }

  lemma SignatureInside(b: bytes)
    requires Decode(b).Some?
    ensures var l := Decode(b).value; 1 <= l.signatureAt && l.signatureAt + |l.message.signature| <= |b|
  {
    hide FromBigEndian;
  }

  /** What the verification is done on. */
  function Converted(b: bytes, der: Der, c: Curve): bytes {
    match Decode(b)
    case None => b
    case Some(l) =>
      SignatureInside(b);
      var sig := l.message.signature;
      if LooksLikeDer(sig) && Reencoded(der, sig, c).Some?
      then Spliced(b, l.signatureAt, |sig|, Reencoded(der, sig, c).value)
      else b
  }

  method Splice(b: bytes, at: nat, size: nat, cose: bytes) returns (r: bytes)
    requires 1 <= at && at + size <= |b| && |cose| < 256
    ensures r == Spliced(b, at, size, cose)
  {
    var converted := new byte[|b| - size + |cose|](_ => 0);
    forall i | 0 <= i < at {
      converted[i] := b[i];
    }
    converted[at - 1] := |cose|;
    forall i | 0 <= i < |cose| {
      converted[at + i] := cose[i];
    }
    var remaining := |b| - at - size;
    if remaining > 0 {
      forall i | 0 <= i < remaining {
        converted[at + |cose| + i] := b[at + size + i];
      }
    }
    r := converted[..];
    assert r == Spliced(b, at, size, cose);
  }

  /** The conversion in verify_cvm_cose_sign and verify_plat_cose_sign, for an elliptic-curve key. */
  method ConvertSignature(b: bytes, der: Der, c: Curve) returns (r: bytes)
    ensures r == Converted(b, der, c)
  {
    hide Decode, LooksLikeDer, Spliced;
    var located := Decode(b);
    if located == None {
      return b;
    }
    var sig := located.value.message.signature;
    var isDer := SignatureIsDerFormat(sig);
    if !isDer {
      return b;
    }
    var cose := new byte[2 * FieldSize(c)](_ => 0);
    var ok := EcdsaSignatureDerToCose(der, sig, c, cose);
    if !ok {
      return b;
    }
    SignatureInside(b);
    assert cose[..] == cose[..2 * FieldSize(c)];
    r := Splice(b, located.value.signatureAt, |sig|, cose[..]);
  }

  // ----- what becomes of the message

  /** The head of the signature after the splice. */
  function PatchedHead(w: nat, size: nat, n: nat): bytes
    requires HeadFits(w, size) && n < 256
  {
    Head(2, w, size)[..w] + [n]
  }

  lemma SplicedMessage(front: bytes, h: bytes, sig: bytes, rest: bytes, cose: bytes)
    requires |h| > 0 && |cose| < 256
    ensures Spliced(front + (h + sig + rest), |front| + |h|, |sig|, cose)
         == front + ((h[..|h| - 1] + [|cose|]) + cose + rest)
  {
    var b := front + (h + sig + rest);
    assert b[..|front| + |h| - 1] == front + h[..|h| - 1] && b[|front| + |h| + |sig|..] == rest;
  }

  /** An explicit argument with its last byte replaced. */
  lemma PatchedExplicit(w: nat, size: nat, n: nat)
    requires HeadFits(w, size) && w > 0 && n < 256
    ensures HeadFits(w, size / 256 * 256 + n) && PatchedHead(w, size, n) == Head(2, w, size / 256 * 256 + n)
  {
    var m := size / 256 * 256 + n;
    assert m / 256 == size / 256 && m % 256 == n;
    assert size / 256 < Pow256(w - 1) && m < Pow256(w) by {
      NumBytesFits(size / 256, w - 1);
      NumBytesFits(m, w);
      NumBytesFits(size, w);
    }
    assert BigEndian(size, w)[..w - 1] == BigEndian(size / 256, w - 1);
    hide Pow256;
    assert Head(2, w, size)[..w] == [64 + Info(w)] + BigEndian(size / 256, w - 1);
  }

  /** An argument in the first byte: that byte is overwritten, and is then no head of a byte string, or one of an empty one. */
  lemma PatchedInline(b: bytes, at: nat, c: Curve)
    requires at < |b| && b[at] == 2 * FieldSize(c)
    ensures ReadBytes(b, at).Some? ==> ReadBytes(b, at).value.0 == []
  {
    hide FromBigEndian;
  }

  /** A signature the conversion applies to, with its two numbers. */
  predicate IsDerSignature(sig: bytes, der: Der, c: Curve, r: nat, s: nat) {
    && LooksLikeDer(sig) && der(sig) == Some((r, s))
    && c != OtherCurve && r < Pow256(FieldSize(c)) && s < Pow256(FieldSize(c))
  }

  /** b decodes to the message u. */
  predicate Carries(b: bytes, u: Sign1) {
    Decode(b).Some? && Decode(b).value.message == u
  }

  lemma ConvertedAt(b: bytes, l: Located, der: Der, c: Curve, r: nat, s: nat)
    requires Decode(b) == Some(l) && IsDerSignature(l.message.signature, der, c, r, s)
    ensures 1 <= l.signatureAt && l.signatureAt + |l.message.signature| <= |b|
    ensures Converted(b, der, c) == Spliced(b, l.signatureAt, |l.message.signature|, RawSignature(r, s, FieldSize(c)))
  {
    hide Decode, LooksLikeDer, Spliced, RawSignature, Pow256;
    SignatureInside(b);
  }

  /** What is verified for an encoded message. */
  lemma ConvertedMessage(t: Sign1, w: Widths, der: Der, c: Curve, r: nat, s: nat)
    requires WidthsFit(t, w) && IsDerSignature(t.signature, der, c, r, s)
    ensures HeadFits(w.signature, |t.signature|) && HeadFits(w.protected, |t.protected|) && HeadFits(w.payload, |t.payload|)
    ensures var cose := RawSignature(r, s, FieldSize(c));
            |cose| < 256 && Converted(Encode(t, w), der, c) == SplicedForm(t, w, cose)
  {
    hide Decode, Front, HeadFits, Spliced, RawSignature, Head, IsDerSignature, Converted;
    DecodesEncoded(t, w);
    ConvertedAt(Encode(t, w), Located(t, |Front(t, w)| + 1 + w.signature), der, c, r, s);
    SplicedMessage(Front(t, w), Head(2, w.signature, |t.signature|), t.signature, t.rest, RawSignature(r, s, FieldSize(c)));
  }

  /** The rewritten message decodes to the same header, payload and trailing bytes with r and s in fixed
      width as its signature, exactly when the length of the DER signature is written in bytes of its own
      and is less than 256: only the last length byte is rewritten. */
  lemma SpliceRoundTrip(t: Sign1, w: Widths, der: Der, c: Curve, r: nat, s: nat)
    requires WidthsFit(t, w) && IsDerSignature(t.signature, der, c, r, s)
    ensures Carries(Converted(Encode(t, w), der, c), t.(signature := RawSignature(r, s, FieldSize(c))))
            <==> w.signature > 0 && |t.signature| < 256
  {
    var f := FieldSize(c);
    assert 0 < 2 * f < 256;
    hide *;
    ConvertedMessage(t, w, der, c, r, s);
    SpliceCases(t, w, RawSignature(r, s, f), c);
  }

  /** The message after the splice. */
  function SplicedForm(t: Sign1, w: Widths, cose: bytes): bytes
    requires HeadFits(w.signature, |t.signature|) && HeadFits(w.protected, |t.protected|) && HeadFits(w.payload, |t.payload|)
    requires |cose| < 256
  {
    Front(t, w) + (PatchedHead(w.signature, |t.signature|, |cose|) + cose + t.rest)
  }

  lemma SpliceCases(t: Sign1, w: Widths, cose: bytes, c: Curve)
    requires WidthsFit(t, w) && |cose| == 2 * FieldSize(c) < 256
    requires HeadFits(w.signature, |t.signature|) && HeadFits(w.protected, |t.protected|) && HeadFits(w.payload, |t.payload|)
    ensures Carries(SplicedForm(t, w, cose), t.(signature := cose)) <==> w.signature > 0 && |t.signature| < 256
  {
    hide *;
    if w.signature == 0 {
      SplicedFormUnfolded(t, w, cose);
      Overwritten(t, w, c, cose, SplicedForm(t, w, cose));
    } else if |t.signature| < 256 {
      SpliceShort(t, w, cose);
    } else {
      SplicedFormUnfolded(t, w, cose);
      PatchedExplicit(w.signature, |t.signature|, |cose|);
      TooLong(t, w, |t.signature| / 256 * 256 + |cose|, cose, SplicedForm(t, w, cose));
    }
  }

  lemma SplicedFormUnfolded(t: Sign1, w: Widths, cose: bytes)
    requires HeadFits(w.signature, |t.signature|) && HeadFits(w.protected, |t.protected|) && HeadFits(w.payload, |t.payload|)
    requires |cose| < 256
    ensures SplicedForm(t, w, cose) == Front(t, w) + (PatchedHead(w.signature, |t.signature|, |cose|) + cose + t.rest)
  {
    hide Front, PatchedHead, HeadFits;
  }

  lemma SpliceShort(t: Sign1, w: Widths, cose: bytes)
    requires WidthsFit(t, w) && |cose| < 256 && w.signature > 0 && |t.signature| < 256
    requires HeadFits(w.signature, |t.signature|) && HeadFits(w.protected, |t.protected|) && HeadFits(w.payload, |t.payload|)
    ensures Carries(SplicedForm(t, w, cose), t.(signature := cose))
  {
    hide *;
    var u := t.(signature := cose);
    SplicedFormUnfolded(t, w, cose);
    PatchedExplicit(w.signature, |t.signature|, |cose|);
    SameFront(t, u, w);
    Repacked(u, w, SplicedForm(t, w, cose));
  }

  lemma SameFront(t: Sign1, u: Sign1, w: Widths)
    requires WidthsFit(t, w) && u == t.(signature := u.signature)
    ensures HeadFits(w.protected, |u.protected|) && HeadFits(w.payload, |u.payload|) && Front(u, w) == Front(t, w)
  {
  }

  lemma Repacked(u: Sign1, w: Widths, b: bytes)
    requires HeadFits(w.protected, |u.protected|) && HeadFits(w.payload, |u.payload|) && HeadFits(w.signature, |u.signature|)
    requires b == Front(u, w) + (Head(2, w.signature, |u.signature|) + u.signature + u.rest)
    ensures Carries(b, u)
  {
    hide HeadFits, Front, Decode;
    DecodesEncoded(u, w);
  }

  /** A length of 256 or more stays one. */
  lemma TooLong(t: Sign1, w: Widths, n: nat, cose: bytes, b: bytes)
    requires WidthsFit(t, w) && HeadFits(w.signature, n) && n >= 256 > |cose|
    requires b == Front(t, w) + (Head(2, w.signature, n) + cose + t.rest)
    ensures !Carries(b, t.(signature := cose))
  {
    var front, h := Front(t, w), Head(2, w.signature, n);
    DecodesFront(t, w, h + cose + t.rest);
    hide Front, HeadFits, Decode, Head;
    assert At(b, |front|, h);
    ReadsHead(b, |front|, 2, w.signature, n);
    hide ReadHead;
  }

  lemma Overwritten(t: Sign1, w: Widths, c: Curve, cose: bytes, b: bytes)
    requires WidthsFit(t, w) && w.signature == 0 && |cose| == 2 * FieldSize(c)
    requires b == Front(t, w) + (PatchedHead(0, |t.signature|, |cose|) + cose + t.rest)
    ensures !Carries(b, t.(signature := cose))
  {
    var front, h := Front(t, w), PatchedHead(0, |t.signature|, |cose|);
    DecodesFront(t, w, h + cose + t.rest);
    assert h == [|cose|];
    hide Front, HeadFits, Decode, Head, PatchedHead;
    assert b[|front|] == |cose|;
    PatchedInline(b, |front|, c);
    hide ReadBytes;
  }

  /** The width of the shortest encoding of a length. */
  function Shortest(n: nat): nat {
    if n < 24 then 0 else if n < 256 then 1 else if n < 0x1_0000 then 2 else if n < 0x1_0000_0000 then 4 else 8
  }

  lemma ShortestFits(n: nat)
    ensures Shortest(n) > 0 && n < 256 <==> 24 <= n <= 255
  {
  }

  /** With the shortest encoding, which COSE libraries write, the condition is a signature of 24 to 255 bytes. */
  lemma SpliceRoundTripShortest(t: Sign1, w: Widths, der: Der, c: Curve, r: nat, s: nat)
    requires WidthsFit(t, w) && w.signature == Shortest(|t.signature|)
    requires IsDerSignature(t.signature, der, c, r, s)
    ensures Carries(Converted(Encode(t, w), der, c), t.(signature := RawSignature(r, s, FieldSize(c))))
            <==> 24 <= |t.signature| <= 255
  {
    ShortestFits(|t.signature|);
    hide *;
    SpliceRoundTrip(t, w, der, c, r, s);
  }

  /** So for numbers in the range of the curve, a DER signature with its length in bytes of its own and below 256
      becomes one of 64, 96 or 132 bytes that holds them. */
  lemma MessageOfCurve(t: Sign1, w: Widths, der: Der, c: Curve, r: nat, s: nat)
    requires WidthsFit(t, w) && LooksLikeDer(t.signature) && der(t.signature) == Some((r, s))
    requires c != OtherCurve && r < Pow2(CurveBits(c)) && s < Pow2(CurveBits(c))
    ensures (exists x :: IsCoseSignature(x, CurveBits(c), r, s) && Carries(Converted(Encode(t, w), der, c), t.(signature := x)))
            <==> w.signature > 0 && |t.signature| < 256
  {
    NumbersFit(c, r);
    NumbersFit(c, s);
    hide *;
    SpliceRoundTrip(t, w, der, c, r, s);
    forall x ensures IsCoseSignature(x, CurveBits(c), r, s) <==> x == RawSignature(r, s, FieldSize(c)) {
      IsCoseSignatureUnique(x, c, r, s);
    }
  }

  /** Any other message is verified as it is: one that is not decoded, whose signature does not look like DER or does
      not parse, or whose numbers do not fit; and all with a key of another curve. */
  lemma LeftAlone(b: bytes, der: Der, c: Curve)
    ensures Decode(b) == None ==> Converted(b, der, c) == b
    ensures Decode(b).Some? ==>
              var sig := Decode(b).value.message.signature;
              !LooksLikeDer(sig) || der(sig) == None || c == OtherCurve ==> Converted(b, der, c) == b
  {
    hide Decode, LooksLikeDer;
  }
}
