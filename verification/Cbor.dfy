/** The part of CBOR that a COSE_Sign1 message is made of (RFC 8949 section 3, RFC 9052 section 4.2). */
module Cbor {
  import opened Bytes

  function BigEndian(n: nat, k: nat): (r: bytes)
    ensures |r| == k
  {
    if k == 0 then [] else BigEndian(n / 256, k - 1) + [n % 256]
  }

  function FromBigEndian(s: bytes): nat {
    if s == [] then 0 else 256 * FromBigEndian(s[..|s| - 1]) + s[|s| - 1]
  }

  lemma {:induction false} BigEndianExact(n: nat, k: nat)
    requires n < Pow256(k)
    ensures FromBigEndian(BigEndian(n, k)) == n
  {
    if k > 0 {
      BigEndianExact(n / 256, k - 1);
      assert BigEndian(n, k)[..k - 1] == BigEndian(n / 256, k - 1);
    }
  }

  /** Byte i is digit i, counted from the high-order end. */
  lemma {:induction false} BigEndianDigits(n: nat, k: nat, i: nat)
    requires i < k
    ensures BigEndian(n, k)[i] == n / Pow256(k - 1 - i) % 256
  {
    if i < k - 1 {
      BigEndianDigits(n / 256, k - 1, i);
      ModStep(n, Pow256(k - 2 - i));
    }
  }

  // ----- heads: a major type and an argument, in the first byte or in 1, 2, 4 or 8 bytes after it

  predicate Width(w: nat) {
    w == 0 || w == 1 || w == 2 || w == 4 || w == 8
  }

  /** The additional information that announces w argument bytes. */
  function Info(w: nat): nat
    requires Width(w) && w > 0
  {
    if w == 1 then 24 else if w == 2 then 25 else if w == 4 then 26 else 27
  }

  predicate HeadFits(w: nat, n: nat) {
    Width(w) && (if w == 0 then n < 24 else n < Pow256(w))
  }

  function Head(major: nat, w: nat, n: nat): (r: bytes)
    requires major < 8 && HeadFits(w, n)
    ensures |r| == 1 + w
  {
    if w == 0 then [32 * major + n] else [32 * major + Info(w)] + BigEndian(n, w)
  }

  /** Major type, argument and the position after the head. */
  function ReadHead(b: bytes, at: nat): Option<(nat, nat, nat)> {
    if at >= |b| then None
    else
      var info := b[at] % 32;
      if info < 24 then Some((b[at] / 32, info, at + 1))
      else if info > 27 then None
      else
        var w := if info == 24 then 1 else if info == 25 then 2 else if info == 26 then 4 else 8;
        if at + 1 + w > |b| then None else Some((b[at] / 32, FromBigEndian(b[at + 1..at + 1 + w]), at + 1 + w))
  }

  lemma FirstByte(major: nat, info: nat)
    requires major < 8 && info < 32
    ensures (32 * major + info) / 32 == major && (32 * major + info) % 32 == info
  {
  }

  lemma ReadsExplicitHead(b: bytes, at: nat, major: nat, w: nat, n: nat)
    requires major < 8 && Width(w) && w > 0 && n < Pow256(w)
    requires at + 1 + w <= |b| && b[at] == 32 * major + Info(w) && b[at + 1..at + 1 + w] == BigEndian(n, w)
    ensures ReadHead(b, at) == Some((major, n, at + 1 + w))
  {
    hide FromBigEndian, BigEndian, Pow256;
    BigEndianExact(n, w);
    FirstByte(major, Info(w));
  }

  lemma HeadPlaces(b: bytes, at: nat, first: byte, rest: bytes)
    requires At(b, at, [first] + rest)
    ensures at + 1 + |rest| <= |b| && b[at] == first && b[at + 1..at + 1 + |rest|] == rest
  {
    var text := b[at..at + 1 + |rest|];
    assert text[0] == first && text[1..] == rest;
  }

  lemma ReadsHead(b: bytes, at: nat, major: nat, w: nat, n: nat)
    requires major < 8 && HeadFits(w, n) && At(b, at, Head(major, w, n))
    ensures ReadHead(b, at) == Some((major, n, at + 1 + w))
  {
    hide FromBigEndian, BigEndian, Pow256, At, ReadHead;
    if w == 0 {
      assert [32 * major + n] == [32 * major + n] + [];
      HeadPlaces(b, at, 32 * major + n, []);
      ReadsInlineHead(b, at, major, n);
    } else {
      HeadPlaces(b, at, 32 * major + Info(w), BigEndian(n, w));
      ReadsExplicitHead(b, at, major, w, n);
    }
  }

  lemma ReadsInlineHead(b: bytes, at: nat, major: nat, n: nat)
    requires major < 8 && n < 24 && at < |b| && b[at] == 32 * major + n
    ensures ReadHead(b, at) == Some((major, n, at + 1))
  {
    FirstByte(major, n);
  }

  function ReadBytes(b: bytes, at: nat): Option<(bytes, nat)> {
    match ReadHead(b, at)
    case Some((major, n, next)) =>
      if major == 2 && next + n <= |b| then Some((b[next..next + n], next + n)) else None
    case None => None
  }

  // ----- COSE_Sign1 with an empty unprotected header

  datatype Sign1 = Sign1(tagged: bool, protected: bytes, payload: bytes, signature: bytes, rest: bytes)

  /** How the lengths of the three byte strings are written; any width that fits is well-formed. */
  datatype Widths = Widths(protected: nat, payload: nat, signature: nat)

  const TAG_SIGN1: byte := 0xD2
  const ARRAY_OF_4: byte := 0x84
  const EMPTY_MAP: byte := 0xA0

  predicate WidthsFit(t: Sign1, w: Widths) {
    HeadFits(w.protected, |t.protected|) && HeadFits(w.payload, |t.payload|) && HeadFits(w.signature, |t.signature|)
  }

  function Start(tagged: bool): (r: bytes)
    ensures |r| > 0 && r[|r| - 1] == ARRAY_OF_4 && (tagged <==> r[0] == TAG_SIGN1) && |r| == if tagged then 2 else 1
  {
    if tagged then [TAG_SIGN1, ARRAY_OF_4] else [ARRAY_OF_4]
  }

  function Text(w: nat, text: bytes): (r: bytes)
    requires HeadFits(w, |text|)
    ensures |r| == 1 + w + |text|
  {
    Head(2, w, |text|) + text
  }

  /** Everything before the signature. */
  function Front(t: Sign1, w: Widths): bytes
    requires HeadFits(w.protected, |t.protected|) && HeadFits(w.payload, |t.payload|)
  {
    Start(t.tagged) + (Text(w.protected, t.protected) + ([EMPTY_MAP] + Text(w.payload, t.payload)))
  }

  function Encode(t: Sign1, w: Widths): bytes
    requires WidthsFit(t, w)
  {
    Front(t, w) + (Text(w.signature, t.signature) + t.rest)
  }

  /** A decoded message and the position of its signature's first byte. */
  datatype Located = Located(message: Sign1, signatureAt: nat)

  function DecodeSignature(b: bytes, tagged: bool, protected: bytes, payload: bytes, at: nat): Option<Located> {
    match ReadBytes(b, at)
    case None => None
    case Some((signature, end)) =>
      if end > |b| || |signature| > end then None
      else Some(Located(Sign1(tagged, protected, payload, signature, b[end..]), end - |signature|))
  }

  function DecodePayload(b: bytes, tagged: bool, protected: bytes, at: nat): Option<Located> {
    if at >= |b| || b[at] != EMPTY_MAP then None
    else
      match ReadBytes(b, at + 1)
      case None => None
      case Some((payload, next)) => DecodeSignature(b, tagged, protected, payload, next)
  }

  /** The tag is optional; the message may be followed by other bytes. */
  function Decode(b: bytes): Option<Located> {
    var tagged := |b| > 0 && b[0] == TAG_SIGN1;
    var at := if tagged then 1 else 0;
    if at >= |b| || b[at] != ARRAY_OF_4 then None
    else
      match ReadBytes(b, at + 1)
      case None => None
      case Some((protected, next)) => DecodePayload(b, tagged, protected, next)
  }

  lemma ReadsAfterHead(b: bytes, at: nat, next: nat, text: bytes)
    requires ReadHead(b, at) == Some((2, |text|, next)) && At(b, next, text)
    ensures ReadBytes(b, at) == Some((text, next + |text|))
  {
    hide ReadHead;
  }

  lemma TextParts(b: bytes, at: nat, w: nat, text: bytes)
    requires HeadFits(w, |text|) && At(b, at, Text(w, text))
    ensures At(b, at, Head(2, w, |text|)) && At(b, at + 1 + w, text)
  {
    hide HeadFits, Head, At;
    AtSplit(b, at, Head(2, w, |text|), text);
  }

  lemma ReadsBytes(b: bytes, at: nat, w: nat, text: bytes)
    requires HeadFits(w, |text|) && At(b, at, Text(w, text))
    ensures ReadBytes(b, at) == Some((text, at + 1 + w + |text|))
  {
    hide *;
    TextParts(b, at, w, text);
    ReadsHead(b, at, 2, w, |text|);
    ReadsAfterHead(b, at, at + 1 + w, text);
  }

  lemma StartBytes(tagged: bool)
    ensures var s := Start(tagged); |s| == (if tagged then 2 else 1) && s[|s| - 1] == ARRAY_OF_4
    ensures tagged <==> Start(tagged)[0] == TAG_SIGN1
  {
  }

  lemma FrontUnfolded(t: Sign1, w: Widths)
    requires HeadFits(w.protected, |t.protected|) && HeadFits(w.payload, |t.payload|)
    ensures Front(t, w) == Start(t.tagged) + (Text(w.protected, t.protected) + ([EMPTY_MAP] + Text(w.payload, t.payload)))
  {
  }

  lemma DecodeThrough(b: bytes, tagged: bool, protected: bytes, n: nat, payload: bytes, m: nat)
    requires |b| > 0 && (b[0] == TAG_SIGN1 <==> tagged)
    requires var at := if tagged then 1 else 0;
             at < |b| && b[at] == ARRAY_OF_4 && ReadBytes(b, at + 1) == Some((protected, n))
    requires n < |b| && b[n] == EMPTY_MAP && ReadBytes(b, n + 1) == Some((payload, m))
    ensures Decode(b) == DecodeSignature(b, tagged, protected, payload, m)
  {
    hide ReadBytes, DecodeSignature;
  }

  lemma FrontPlaces(start: bytes, p: bytes, q: bytes, tail: bytes)
    requires |start| > 0
    ensures var b := start + (p + ([EMPTY_MAP] + q)) + tail;
            && At(b, |start|, p) && At(b, |start| + |p| + 1, q)
            && |b| > |start| + |p| && b[|start| + |p|] == EMPTY_MAP && b[0] == start[0] && b[|start| - 1] == start[|start| - 1]
  {
  }

  /** Decoding gets through the front of a message whatever follows it. */
  lemma DecodesFront(t: Sign1, w: Widths, tail: bytes)
    requires HeadFits(w.protected, |t.protected|) && HeadFits(w.payload, |t.payload|)
    ensures Decode(Front(t, w) + tail)
         == DecodeSignature(Front(t, w) + tail, t.tagged, t.protected, t.payload, |Front(t, w)|)
  {
    hide *;
    var b, n := Front(t, w) + tail, |Start(t.tagged)|;
    var p, q := Text(w.protected, t.protected), Text(w.payload, t.payload);
    FrontUnfolded(t, w);
    StartBytes(t.tagged);
    FrontPlaces(Start(t.tagged), p, q, tail);
    ReadsBytes(b, n, w.protected, t.protected);
    ReadsBytes(b, n + |p| + 1, w.payload, t.payload);
    DecodeThrough(b, t.tagged, t.protected, n + |p|, t.payload, n + |p| + 1 + |q|);
  }

  lemma SignaturePlaces(front: bytes, text: bytes, rest: bytes)
    ensures var b := front + (text + rest);
            At(b, |front|, text) && |b| == |front| + |text| + |rest| && b[|front| + |text|..] == rest
  {
  }

  lemma SignatureDecoded(front: bytes, t: Sign1, w: nat)
    requires HeadFits(w, |t.signature|)
    ensures DecodeSignature(front + (Text(w, t.signature) + t.rest), t.tagged, t.protected, t.payload, |front|)
         == Some(Located(t, |front| + 1 + w))
  {
    hide Text, HeadFits, At, ReadBytes;
    var b := front + (Text(w, t.signature) + t.rest);
    SignaturePlaces(front, Text(w, t.signature), t.rest);
    ReadsBytes(b, |front|, w, t.signature);
  }

  /** Decoding undoes encoding, whatever widths are used. */
  lemma DecodesEncoded(t: Sign1, w: Widths)
    requires WidthsFit(t, w)
    ensures Decode(Encode(t, w)) == Some(Located(t, |Front(t, w)| + 1 + w.signature))
  {
    hide Decode, DecodeSignature, Front, HeadFits, Text;
    DecodesFront(t, w, Text(w.signature, t.signature) + t.rest);
    SignatureDecoded(Front(t, w), t, w.signature);
  }

  // ----- and encoding undoes decoding

  lemma {:induction false} FromBigEndianExact(s: bytes)
    ensures FromBigEndian(s) < Pow256(|s|) && BigEndian(FromBigEndian(s), |s|) == s
  {
    if s != [] {
      var front, last := s[..|s| - 1], s[|s| - 1];
      FromBigEndianExact(front);
      assert s == front + [last];
      assert FromBigEndian(s) / 256 == FromBigEndian(front) && FromBigEndian(s) % 256 == last;
    }
  }

  /** The head that was read. */
  lemma HeadRead(b: bytes, at: nat) returns (w: nat)
    requires ReadHead(b, at).Some?
    ensures var (major, n, next) := ReadHead(b, at).value;
            major < 8 && next == at + 1 + w <= |b| && HeadFits(w, n) && b[at..next] == Head(major, w, n)
  {
    var (major, n, next) := ReadHead(b, at).value;
    w := next - at - 1;
    assert b[at..next] == [b[at]] + b[at + 1..next];
    if w > 0 {
      FromBigEndianExact(b[at + 1..next]);
      hide FromBigEndian, BigEndian, Pow256;
    } else {
      hide FromBigEndian, BigEndian, Pow256;
      assert b[at + 1..next] == [];
    }
  }

  lemma BytesRead(b: bytes, at: nat) returns (w: nat)
    requires ReadBytes(b, at).Some?
    ensures var (text, next) := ReadBytes(b, at).value;
            HeadFits(w, |text|) && next == at + 1 + w + |text| <= |b| && b[at..next] == Text(w, text)
  {
    w := HeadRead(b, at);
    hide ReadHead, Head, HeadFits;
    var (text, next) := ReadBytes(b, at).value;
    assert b[at..next] == b[at..at + 1 + w] + b[at + 1 + w..next];
  }

  /** The parts of a message that was decoded, and where they end. */
  lemma DecodeParts(b: bytes, l: Located) returns (n: nat, m: nat, end: nat)
    requires Decode(b) == Some(l)
    ensures var t, at := l.message, |Start(l.message.tagged)|;
            && at <= n < m <= end <= |b| && b[..at] == Start(t.tagged) && b[n] == EMPTY_MAP
            && ReadBytes(b, at) == Some((t.protected, n)) && ReadBytes(b, n + 1) == Some((t.payload, m))
            && ReadBytes(b, m) == Some((t.signature, end)) && t.rest == b[end..] && l.signatureAt == end - |t.signature|
  {
    hide ReadBytes, HeadFits, Text, FromBigEndian;
    var at := |Start(l.message.tagged)|;
    StartRead(b, l.message.tagged);
    n := ReadBytes(b, at).value.1;
    m := ReadBytes(b, n + 1).value.1;
    end := ReadBytes(b, m).value.1;
    var w := BytesRead(b, at);
    w := BytesRead(b, n + 1);
    w := BytesRead(b, m);
  }

  lemma StartRead(b: bytes, tagged: bool)
    requires |b| > 0 && (tagged <==> b[0] == TAG_SIGN1)
    ensures |Start(tagged)| == if tagged then 2 else 1
    ensures |b| >= |Start(tagged)| && b[|Start(tagged)| - 1] == ARRAY_OF_4 ==> b[..|Start(tagged)|] == Start(tagged)
  {
  }

  /** Whatever is decoded was encoded so. */
  lemma DecodedIsEncoded(b: bytes) returns (w: Widths)
    requires Decode(b).Some?
    ensures var l := Decode(b).value;
            && WidthsFit(l.message, w) && b == Encode(l.message, w)
            && l.signatureAt == |b| - |l.message.rest| - |l.message.signature|
  {
    hide *;
    var l := Decode(b).value;
    var t := l.message;
    var n, m, end := DecodeParts(b, l);
    var at := |Start(t.tagged)|;
    var w1 := BytesRead(b, at);
    var w2 := BytesRead(b, n + 1);
    var w3 := BytesRead(b, m);
    w := Widths(w1, w2, w3);
    Cut(b, at, n, m, end);
    Assembled(t, w);
  }

  lemma Assembled(t: Sign1, w: Widths)
    requires HeadFits(w.protected, |t.protected|) && HeadFits(w.payload, |t.payload|) && HeadFits(w.signature, |t.signature|)
    ensures WidthsFit(t, w)
    ensures Encode(t, w) == Start(t.tagged) + (Text(w.protected, t.protected) + ([EMPTY_MAP] + Text(w.payload, t.payload)))
                            + (Text(w.signature, t.signature) + t.rest)
  {
    hide Text, HeadFits;
  }

  lemma Cut(b: bytes, at: nat, n: nat, m: nat, end: nat)
    requires at <= n < m <= end <= |b|
    ensures b == b[..at] + (b[at..n] + ([b[n]] + b[n + 1..m])) + (b[m..end] + b[end..])
  {
  }

  /** The first bytes of such messages and of their byte strings. */
  lemma FirstBytes(t: Sign1, w: Widths, k: nat, n: nat)
    requires WidthsFit(t, w) && HeadFits(k, n)
    ensures Encode(t, w)
         == (if t.tagged then [0xD2, 0x84] else [0x84])
            + (Text(w.protected, t.protected) + ([0xA0] + Text(w.payload, t.payload))) + (Text(w.signature, t.signature) + t.rest)
    ensures Head(2, k, n)
         == (match k case 0 => [0x40 + n] case 1 => [0x58] case 2 => [0x59] case 4 => [0x5A] case _ => [0x5B]) + BigEndian(n, k)
  {
    hide BigEndian, Text;
    assert k == 0 ==> BigEndian(n, k) == [];
  }
}
