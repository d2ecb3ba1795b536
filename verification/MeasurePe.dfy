/** The Authenticode measurement of a PE image: the bytes fed to the hash, in order. */
module MeasurePe {
  import opened Bytes

  // ----- headers

  /** A section header as far as the measurement reads it. */
  datatype Section = Section(pointer: nat, size: nat)

  const MZ: bytes := [0x4D, 0x5A]
  const PE_SIGNATURE: bytes := [0x50, 0x45, 0, 0]
  const PE32_MAGIC := 0x10b
  const DIRECTORY_ENTRY_SECURITY: nat := 4

  predicate HasDosHeader(image: bytes) {
    |image| >= 2 && (image[..2] == MZ ==> |image| >= 64)
  }

  function PeOffset(image: bytes): nat
    requires HasDosHeader(image)
  {
    if image[..2] == MZ then Le(image, 0x3c, 4) else 0
  }

  predicate HasSignature(image: bytes) {
    HasDosHeader(image) && PeOffset(image) + 4 <= |image|
  }

  predicate IsPe(image: bytes)
    requires HasSignature(image)
  {
    At(image, PeOffset(image), PE_SIGNATURE)
  }

  /** The fields of the headers up to the end of the fixed part of the optional header. */
  predicate HasFixedHeader(image: bytes) {
    && HasSignature(image) && PeOffset(image) + 24 + 96 <= |image|
    && (!IsPe32(image) ==> PeOffset(image) + 24 + 112 <= |image|)
  }

  predicate IsPe32(image: bytes)
    requires HasSignature(image) && PeOffset(image) + 24 + 96 <= |image|
  {
    Le(image, PeOffset(image) + 24, 2) == PE32_MAGIC
  }

  function ChecksumAt(image: bytes): nat
    requires HasSignature(image)
  {
    PeOffset(image) + 24 + 64
  }

  function NumberOfRvaAndSizes(image: bytes): nat
    requires HasFixedHeader(image)
  {
    Le(image, PeOffset(image) + 24 + (if IsPe32(image) then 92 else 108), 4)
  }

  function SizeOfHeaders(image: bytes): nat
    requires HasFixedHeader(image)
  {
    Le(image, PeOffset(image) + 24 + 60, 4)
  }

  /** The entry of the certificate table in the data directory. */
  function SecurityAt(image: bytes): nat
    requires HasFixedHeader(image)
  {
    PeOffset(image) + 24 + (if IsPe32(image) then 96 else 112) + 8 * DIRECTORY_ENTRY_SECURITY
  }

  predicate HasSecurityEntry(image: bytes)
    requires HasFixedHeader(image)
  {
    NumberOfRvaAndSizes(image) > DIRECTORY_ENTRY_SECURITY
  }

  function NumberOfSections(image: bytes): nat
    requires HasFixedHeader(image)
  {
    Le(image, PeOffset(image) + 6, 2)
  }

  function SectionTableAt(image: bytes): nat
    requires HasFixedHeader(image)
  {
    PeOffset(image) + 24 + Le(image, PeOffset(image) + 20, 2)
  }

  /** The parts of the headers that a measurement relies on lie inside the image. The source does not
      check this. */
  predicate HasHeaders(image: bytes) {
    && HasFixedHeader(image)
    && (HasSecurityEntry(image) ==> SecurityAt(image) + 8 <= |image|)
    && SkipEnd(image) <= SizeOfHeaders(image) <= |image|
    && SectionTableAt(image) + 40 * NumberOfSections(image) <= |image|
  }

  /** Where hashing of the headers resumes for the last time. */
  function SkipEnd(image: bytes): nat
    requires HasFixedHeader(image)
  {
    if HasSecurityEntry(image) then SecurityAt(image) + 8 else ChecksumAt(image) + 4
  }

  function CertificateSize(image: bytes): nat
    requires HasHeaders(image)
  {
    if HasSecurityEntry(image) then Le(image, SecurityAt(image) + 4, 4) else 0
  }

  function SectionAt(image: bytes, i: nat): Section
    requires HasHeaders(image) && i < NumberOfSections(image)
  {
    var at := SectionTableAt(image) + 40 * i;
    Section(Le(image, at + 20, 4), Le(image, at + 16, 4))
  }

  function Sections(image: bytes): (r: seq<Section>)
    requires HasHeaders(image)
    ensures |r| == NumberOfSections(image)
    ensures forall i :: 0 <= i < |r| ==> r[i] == SectionAt(image, i)
  {
    seq(NumberOfSections(image), i requires 0 <= i < NumberOfSections(image) => SectionAt(image, i))
  }

  predicate Inside(s: Section, size: nat) {
    s.size == 0 || s.pointer + s.size <= size
  }

  predicate AllInside(ss: seq<Section>, size: nat) {
    forall s :: s in ss ==> Inside(s, size)
  }

  predicate Bounded(image: bytes) {
    && HasSignature(image)
    && (IsPe(image) ==> HasHeaders(image) && AllInside(Sections(image), |image|))
  }

  // ----- sorting the sections

  /** Stable insertion from the right. */
  function Insert(s: seq<Section>, x: Section): (r: seq<Section>)
    ensures |r| == |s| + 1
  {
    if s == [] || s[|s| - 1].pointer <= x.pointer then s + [x]
    else Insert(s[..|s| - 1], x) + [s[|s| - 1]]
  }

  function Sorted(s: seq<Section>): (r: seq<Section>)
    ensures |r| == |s|
  {
    if s == [] then [] else Insert(Sorted(s[..|s| - 1]), s[|s| - 1])
  }

  predicate Ascending(s: seq<Section>) {
    forall i, j :: 0 <= i < j < |s| ==> s[i].pointer <= s[j].pointer
  }

  /** The sections at a file offset, in order. */
  function AtPointer(s: seq<Section>, p: nat): seq<Section> {
    if s == [] then []
    else AtPointer(s[..|s| - 1], p) + (if s[|s| - 1].pointer == p then [s[|s| - 1]] else [])
  }

  lemma AtPointerSnoc(s: seq<Section>, x: Section, p: nat)
    ensures AtPointer(s + [x], p) == AtPointer(s, p) + (if x.pointer == p then [x] else [])
  {
    assert (s + [x])[..|s|] == s;
  }

  lemma {:induction false} NoneAbove(s: seq<Section>, p: nat)
    requires forall x :: x in s ==> x.pointer != p
    ensures AtPointer(s, p) == []
  {
    if s != [] {
      NoneAbove(s[..|s| - 1], p);
    }
  }

  lemma {:induction false} InsertAscending(s: seq<Section>, x: Section)
    requires Ascending(s)
    ensures Ascending(Insert(s, x))
    ensures forall y :: y in Insert(s, x) <==> y == x || y in s
  {
    if s != [] {
      var front, last := s[..|s| - 1], s[|s| - 1];
      assert s == front + [last];
      if last.pointer > x.pointer {
        InsertAscending(front, x);
        assert forall y :: y in Insert(front, x) ==> y.pointer <= last.pointer;
      }
    }
  }

  lemma {:induction false} InsertStable(s: seq<Section>, x: Section, p: nat)
    ensures AtPointer(Insert(s, x), p) == AtPointer(s + [x], p)
  {
    AtPointerSnoc(s, x, p);
    if s != [] {
      var front, last := s[..|s| - 1], s[|s| - 1];
      assert s == front + [last];
      if last.pointer > x.pointer {
        InsertStable(front, x, p);
        assert Insert(s, x) == Insert(front, x) + [last];
        hide Insert, AtPointer;
        AtPointerSnoc(Insert(front, x), last, p);
        AtPointerSnoc(front, x, p);
        AtPointerSnoc(front, last, p);
      }
    }
  }

  /** The sort is a stable sort: ascending, and sections at the same offset keep their order. */
  lemma {:induction false} SortedHolds(s: seq<Section>, p: nat)
    ensures Ascending(Sorted(s))
    ensures forall y :: y in Sorted(s) <==> y in s
    ensures AtPointer(Sorted(s), p) == AtPointer(s, p)
  {
    if s != [] {
      var front, last := s[..|s| - 1], s[|s| - 1];
      assert s == front + [last];
      SortedHolds(front, p);
      InsertAscending(Sorted(front), last);
      InsertStable(Sorted(front), last, p);
      hide Insert, Ascending;
      AtPointerSnoc(Sorted(front), last, p);
      AtPointerSnoc(front, last, p);
    }
  }

  lemma LastIsThere(t: seq<Section>)
    ensures t != [] ==> AtPointer(t, t[|t| - 1].pointer) != []
  {
  }

  /** There is only one such order. */
  lemma {:induction false} StableSortUnique(s: seq<Section>, t: seq<Section>)
    requires Ascending(s) && Ascending(t) && forall p :: AtPointer(s, p) == AtPointer(t, p)
    ensures s == t
  {
    if s == [] {
      LastIsThere(t);
    } else {
      var x := s[|s| - 1];
      var front := s[..|s| - 1];
      assert s == front + [x];
      AtPointerSnoc(front, x, x.pointer);
      LastOfPointer(t, x.pointer);
      LastOfPointer(s, t[|t| - 1].pointer);
      var y := t[|t| - 1];
      var back := t[..|t| - 1];
      assert t == back + [y];
      AtPointerSnoc(back, y, y.pointer);
      assert x == y by {
        assert AtPointer(s, x.pointer)[|AtPointer(s, x.pointer)| - 1] == x;
        assert AtPointer(t, y.pointer)[|AtPointer(t, y.pointer)| - 1] == y;
      }
      forall p ensures AtPointer(front, p) == AtPointer(back, p) {
        AtPointerSnoc(front, x, p);
        AtPointerSnoc(back, x, p);
        assert AtPointer(s, p) == AtPointer(t, p);
        assert AtPointer(front, p) == AtPointer(s, p)[..|AtPointer(front, p)|];
        assert AtPointer(back, p) == AtPointer(t, p)[..|AtPointer(back, p)|];
      }
      StableSortUnique(front, back);
    }
  }

  /** If some section is at p, the last offset is at least p. */
  lemma {:induction false} LastOfPointer(t: seq<Section>, p: nat)
    requires Ascending(t) && AtPointer(t, p) != []
    ensures t != [] && t[|t| - 1].pointer >= p
  {
    if t[|t| - 1].pointer < p {
      NoneAbove(t, p);
    }
  }

  /** The insertion sort of copy_and_sort_sections, in place. */
  method SortSections(a: array<Section>)
    modifies a
    ensures a[..] == Sorted(old(a[..]))
  {
    ghost var was := a[..];
    var i := 1;
    if a.Length == 0 {
      return;
    }
    assert Sorted(was[..1]) == was[..1] by { assert was[..1][..0] == []; assert was[..1] == [was[0]]; }
    while i < a.Length
      invariant 1 <= i <= a.Length
      invariant a[..i] == Sorted(was[..i]) && a[i..] == was[i..]
    {
      InsertInPlace(a, i);
      assert was[..i + 1][..i] == was[..i] && was[..i + 1][i] == was[i];
      i := i + 1;
    }
    assert a[..] == a[..i] && was[..i] == was;
  }

  lemma InsertPast(s: seq<Section>, x: Section, j: nat)
    requires 0 < j <= |s| && s[j - 1].pointer > x.pointer
    ensures Insert(s[..j], x) + s[j..] == Insert(s[..j - 1], x) + s[j - 1..]
  {
    assert s[..j][..j - 1] == s[..j - 1];
    assert s[j - 1..] == [s[j - 1]] + s[j..];
  }

  /** The inner loop: a[i] moves left past every section with a higher offset. */
  method InsertInPlace(a: array<Section>, i: nat)
    requires 1 <= i < a.Length
    modifies a
    ensures a[..i + 1] == Insert(old(a[..i]), old(a[i])) && a[i + 1..] == old(a[i + 1..])
  {
    hide Insert;
    ghost var s := a[..i];
    var temp := a[i];
    var j := i;
    assert s[..i] == s && s[i..] == [] && Insert(s, temp) + [] == Insert(s, temp);
    while j > 0 && a[j - 1].pointer > temp.pointer
      invariant 0 <= j <= i
      invariant forall k :: 0 <= k < j ==> a[k] == s[k]
      invariant forall k :: j < k <= i ==> a[k] == s[k - 1]
      invariant forall k :: i < k < a.Length ==> a[k] == old(a[k])
      invariant Insert(s, temp) == Insert(s[..j], temp) + s[j..]
    {
      InsertPast(s, temp, j);
      a[j] := a[j - 1];
      j := j - 1;
    }
    a[j] := temp;
    InsertHere(s, temp, j);
    Placed(old(a[..]), a[..], s, temp, i, j);
    assert a[..i + 1] == a[..][..i + 1] && a[i + 1..] == a[..][i + 1..];
  }

  lemma InsertHere(s: seq<Section>, x: Section, j: nat)
    requires j <= |s| && (j > 0 ==> s[j - 1].pointer <= x.pointer)
    ensures Insert(s[..j], x) == s[..j] + [x]
  {
  }

  lemma Placed(before: seq<Section>, after: seq<Section>, s: seq<Section>, x: Section, i: nat, j: nat)
    requires |before| == |after| && |s| == i < |after| && j <= i && after[j] == x
    requires (forall k :: 0 <= k < j ==> after[k] == s[k]) && (forall k :: j < k <= i ==> after[k] == s[k - 1])
    requires forall k :: i < k < |after| ==> after[k] == before[k]
    ensures after[..i + 1] == s[..j] + [x] + s[j..] && after[i + 1..] == before[i + 1..]
  {
  }

  // ----- what is hashed

  /** The headers without the checksum and without the directory entry of the certificate table. */
  function HeaderBytes(image: bytes): bytes
    requires HasHeaders(image)
  {
    if HasSecurityEntry(image) then
      image[..ChecksumAt(image)] + image[ChecksumAt(image) + 4..SecurityAt(image)]
      + image[SecurityAt(image) + 8..SizeOfHeaders(image)]
    else
      image[..ChecksumAt(image)] + image[ChecksumAt(image) + 4..SizeOfHeaders(image)]
  }

  function RawData(image: bytes, s: Section): bytes
    requires Inside(s, |image|)
  {
    if s.size == 0 then [] else image[s.pointer..s.pointer + s.size]
  }

  function SectionBytes(image: bytes, ss: seq<Section>): bytes
    requires AllInside(ss, |image|)
  {
    if ss == [] then []
    else
      var s := ss[|ss| - 1];
      assert Inside(s, |image|);
      SectionBytes(image, ss[..|ss| - 1]) + RawData(image, s)
  }

  function TotalSize(ss: seq<Section>): nat {
    if ss == [] then 0 else TotalSize(ss[..|ss| - 1]) + ss[|ss| - 1].size
  }

  /** What follows the headers and sections, up to the certificate table at the end. */
  function TrailingBytes(image: bytes, summed: nat, certificate: nat): bytes {
    if |image| > summed + certificate then image[summed..|image| - certificate] else []
  }

  lemma SortedInside(ss: seq<Section>, size: nat)
    requires AllInside(ss, size)
    ensures AllInside(Sorted(ss), size)
  {
    SortedHolds(ss, 0);
  }

  function Joined3(header: bytes, sections: bytes, trailing: bytes): bytes {
    header + sections + trailing
  }

  function StreamOf(image: bytes, ss: seq<Section>): bytes
    requires HasHeaders(image) && AllInside(ss, |image|)
  {
    Joined3(HeaderBytes(image), SectionBytes(image, ss),
            TrailingBytes(image, SizeOfHeaders(image) + TotalSize(ss), CertificateSize(image)))
  }

  /** The byte stream of the measurement. */
  function Stream(image: bytes): bytes
    requires Bounded(image) && IsPe(image)
  {
    SortedInside(Sections(image), |image|);
    StreamOf(image, Sorted(Sections(image)))
  }

  /** An EVP digest context: data is absorbed piece by piece, the digest is that of all of it. */
  class HashContext {
    const H: Hash
    var absorbed: bytes

    constructor (H: Hash)
      ensures this.H == H && absorbed == []
    {
      this.H, absorbed := H, [];
    }

    method Update(data: bytes)
      modifies this
      ensures absorbed == old(absorbed) + data
    {
      absorbed := absorbed + data;
    }
  }

  /** The pieces that are hashed one after the other; the last may be empty and is then left out. */
  lemma HeaderPieces(image: bytes)
    requires HasHeaders(image)
    ensures var c, d, size := ChecksumAt(image), SecurityAt(image), SizeOfHeaders(image);
            && c + 4 <= d && (if HasSecurityEntry(image) then d + 8 <= size else c + 4 <= size) && size <= |image|
            && HeaderBytes(image) == (if HasSecurityEntry(image)
                                      then image[..c] + image[c + 4..d] + image[d + 8..size]
                                      else image[..c] + image[c + 4..size])
            && (d + 8 == size ==> image[d + 8..size] == []) && (c + 4 == size ==> image[c + 4..size] == [])
  {
    hide Le;
  }

  method HashOptionalHeaderPart(ctx: HashContext, image: bytes) returns (sumHashed: nat)
    requires HasHeaders(image)
    modifies ctx
    ensures ctx.absorbed == old(ctx.absorbed) + HeaderBytes(image)
    ensures sumHashed == SizeOfHeaders(image)
  {
    hide Le, IsPe, HeaderBytes;
    HeaderPieces(image);
    var optional := PeOffset(image) + 24;
    var isPe32 := Le(image, optional, 2) == PE32_MAGIC;
    var numberOfRva := if isPe32 then Le(image, optional + 92, 4) else Le(image, optional + 108, 4);
    var headerSize := Le(image, optional + 60, 4);
    ghost var before := ctx.absorbed;
    ctx.Update(image[..optional + 64]);
    var postChecksum := optional + 68;
    if numberOfRva <= DIRECTORY_ENTRY_SECURITY {
      var hashSize := headerSize - postChecksum;
      if hashSize > 0 {
        ctx.Update(image[postChecksum..postChecksum + hashSize]);
      }
      Regrouped(before, image[..optional + 64], [], image[postChecksum..headerSize]);
    } else {
      var security := if isPe32 then optional + 128 else optional + 144;
      ctx.Update(image[postChecksum..security]);
      var hashSize := headerSize - (security + 8);
      if hashSize > 0 {
        ctx.Update(image[security + 8..security + 8 + hashSize]);
      }
      Regrouped(before, image[..optional + 64], image[postChecksum..security], image[security + 8..headerSize]);
    }
    sumHashed := headerSize;
  }

  lemma Regrouped(a: bytes, x: bytes, y: bytes, z: bytes)
    ensures a + x + y + z == a + (x + y + z)
    ensures y == [] ==> a + x + z == a + (x + z)
    ensures z == [] ==> a + x + y == a + (x + y + z) && (y == [] ==> a + x == a + (x + z))
  {
  }

  method CopyAndSortSections(image: bytes) returns (sections: array<Section>)
    requires HasHeaders(image)
    ensures fresh(sections) && sections[..] == Sorted(Sections(image))
  {
    var n := NumberOfSections(image);
    sections := new Section[n](i requires 0 <= i < n => SectionAt(image, i));
    assert sections[..] == Sections(image);
    SortSections(sections);
  }

  method HashSectionData(ctx: HashContext, sections: array<Section>, image: bytes, summed: nat) returns (sumHashed: nat)
    requires AllInside(sections[..], |image|)
    modifies ctx
    ensures ctx.absorbed == old(ctx.absorbed) + SectionBytes(image, sections[..])
    ensures sumHashed == summed + TotalSize(sections[..])
  {
    ghost var ss := sections[..];
    sumHashed := summed;
    var i := 0;
    while i < sections.Length
      invariant 0 <= i <= sections.Length && sections[..] == ss
      invariant ctx.absorbed == old(ctx.absorbed) + SectionBytes(image, ss[..i])
      invariant sumHashed == summed + TotalSize(ss[..i])
    {
      assert ss[..i + 1][..i] == ss[..i] && ss[i] in ss;
      if sections[i].size != 0 {
        ctx.Update(image[sections[i].pointer..sections[i].pointer + sections[i].size]);
        sumHashed := sumHashed + sections[i].size;
      }
      i := i + 1;
    }
    assert ss[..i] == ss;
  }

  method ProcessTrailingData(ctx: HashContext, image: bytes, sumHashed: nat)
    requires HasHeaders(image)
    modifies ctx
    ensures ctx.absorbed == old(ctx.absorbed) + TrailingBytes(image, sumHashed, CertificateSize(image))
  {
    hide Le, IsPe;
    var optional := PeOffset(image) + 24;
    var isPe32 := Le(image, optional, 2) == PE32_MAGIC;
    var numberOfRva := if isPe32 then Le(image, optional + 92, 4) else Le(image, optional + 108, 4);
    var certSize := 0;
    if numberOfRva > DIRECTORY_ENTRY_SECURITY {
      certSize := if isPe32 then Le(image, optional + 132, 4) else Le(image, optional + 148, 4);
    }
    if |image| > sumHashed + certSize {
      ctx.Update(image[sumHashed..|image| - certSize]);
    }
  }

  method ParsePeHeaders(image: bytes) returns (ok: bool, peCoffOffset: nat)
    requires HasSignature(image)
    ensures ok == IsPe(image) && peCoffOffset == PeOffset(image)
    ensures peCoffOffset == if image[0] == 0x4D && image[1] == 0x5A then FromLittleEndian(image[60..64]) else 0
    ensures ok <==> image[peCoffOffset..peCoffOffset + 4] == [0x50, 0x45, 0, 0]
  {
    assert image[..2] == [image[0], image[1]];
    peCoffOffset := 0;
    if image[..2] == MZ {
      peCoffOffset := Le(image, 0x3c, 4);
    }
    ok := image[peCoffOffset..peCoffOffset + 4] == PE_SIGNATURE;
  }

  /** measure_pe_image_and_extend: None is EFI_UNSUPPORTED. */
  method MeasurePeImage(H: Hash, image: bytes) returns (r: Option<Digest>)
    requires Bounded(image)
    ensures r == if IsPe(image) then Some(H(Stream(image))) else None
  {
    hide HasSignature, HasHeaders, IsPe, Sorted, SectionBytes, TotalSize, HeaderBytes, TrailingBytes, CertificateSize, Sections;
    hide StreamOf, Inside, NumberOfSections, SizeOfHeaders;
    var ok, peCoffOffset := ParsePeHeaders(image);
    if !ok {
      return None;
    }
    var ctx := new HashContext(H);
    var sumHashed := HashOptionalHeaderPart(ctx, image);
    var sections := CopyAndSortSections(image);
    ghost var ss := sections[..];
    SortedInside(Sections(image), |image|);
    sumHashed := HashSectionData(ctx, sections, image, sumHashed);
    ProcessTrailingData(ctx, image, sumHashed);
    StreamUnfolded(image, ss);
    assert [] + HeaderBytes(image) == HeaderBytes(image);
    return Some(ctx.H(ctx.absorbed));
  }

  lemma StreamUnfolded(image: bytes, ss: seq<Section>)
    requires HasHeaders(image) && AllInside(ss, |image|)
    ensures StreamOf(image, ss)
         == Joined3(HeaderBytes(image), SectionBytes(image, ss),
                    TrailingBytes(image, SizeOfHeaders(image) + TotalSize(ss), CertificateSize(image)))
  {
    hide HasHeaders, SectionBytes, TotalSize, HeaderBytes, TrailingBytes, CertificateSize;
  }

  // ----- signing does not change the measurement

  /** The bytes that signing rewrites: the checksum at c, the directory entry at d. */
  predicate Rewritten(c: nat, d: nat, i: int) {
    c <= i < c + 4 || d <= i < d + 8
  }

  predicate Agrees(a: bytes, b: bytes, c: nat, d: nat) {
    |a| <= |b| && forall i :: 0 <= i < |a| && !Rewritten(c, d, i) ==> a[i] == b[i]
  }

  /** An unsigned image with room for a certificate table in its directory, its sections listed after that. */
  predicate Signable(image: bytes) {
    && Bounded(image) && IsPe(image) && HasSecurityEntry(image) && CertificateSize(image) == 0
    && (NumberOfSections(image) > 0 ==> SecurityAt(image) + 8 <= SectionTableAt(image))
  }

  predicate SignatureParts(checksum: bytes, address: bytes, certificate: bytes) {
    |checksum| == 4 && |address| == 4 && |certificate| < 0x1_0000_0000
  }

  /** A signed image: new checksum, directory entry filled in, certificate table appended. */
  function Signed(image: bytes, checksum: bytes, address: bytes, certificate: bytes): (r: bytes)
    requires Signable(image) && SignatureParts(checksum, address, certificate)
    ensures |r| == |image| + |certificate|
  {
    Patched(Patched(image, ChecksumAt(image), checksum), SecurityAt(image), address + LittleEndian(|certificate|, 4))
    + certificate
  }

  lemma PatchedTwice(s: bytes, i: nat, x: bytes, j: nat, y: bytes, z: bytes)
    requires i + |x| <= j && j + |y| <= |s|
    ensures var r := Patched(Patched(s, i, x), j, y) + z;
            && r[i..i + |x|] == x && r[j..j + |y|] == y
            && (forall k :: 0 <= k < |s| && !(i <= k < i + |x|) && !(j <= k < j + |y|) ==> r[k] == s[k])
  {
  }

  lemma FieldOrder(image: bytes)
    requires HasHeaders(image) && HasSecurityEntry(image)
    ensures ChecksumAt(image) + 4 <= SecurityAt(image) && SecurityAt(image) + 8 <= SizeOfHeaders(image) <= |image|
  {
    hide Le;
  }

  /** b is a, but for the rewritten fields and what is appended. */
  predicate Carries(a: bytes, b: bytes, c: nat, d: nat, checksum: bytes, address: bytes, size: bytes) {
    && Agrees(a, b, c, d) && c + 4 <= d && d + 8 <= |a|
    && b[c..c + 4] == checksum && b[d..d + 4] == address && b[d + 4..d + 8] == size
  }

  lemma PatchedFields(s: bytes, c: nat, x: bytes, d: nat, y: bytes, size: bytes, z: bytes)
    requires c + 4 <= d && d + 8 <= |s| && |x| == |y| == |size| == 4
    ensures Carries(s, Patched(Patched(s, c, x), d, y + size) + z, c, d, x, y, size)
  {
    hide Patched;
    var r := Patched(Patched(s, c, x), d, y + size) + z;
    PatchedTwice(s, c, x, d, y + size, z);
    assert r[d..d + 4] == r[d..d + 8][..4] && r[d + 4..d + 8] == r[d..d + 8][4..];
    assert (y + size)[..4] == y && (y + size)[4..] == size;
  }

  lemma SignedCarries(image: bytes, checksum: bytes, address: bytes, certificate: bytes)
    requires Signable(image) && SignatureParts(checksum, address, certificate)
    ensures Carries(image, Signed(image, checksum, address, certificate), ChecksumAt(image), SecurityAt(image),
                    checksum, address, LittleEndian(|certificate|, 4))
  {
    FieldOrder(image);
    hide HasFixedHeader, HasSecurityEntry, ChecksumAt, SecurityAt, LittleEndian, Patched, Carries, Bounded, Le;
    PatchedFields(image, ChecksumAt(image), checksum, SecurityAt(image), address, LittleEndian(|certificate|, 4), certificate);
  }

  lemma LeAgrees(a: bytes, b: bytes, c: nat, d: nat, at: nat, n: nat)
    requires Agrees(a, b, c, d) && at + n <= |a|
    requires forall i :: at <= i < at + n ==> !Rewritten(c, d, i)
    ensures a[at..at + n] == b[at..at + n] && Le(a, at, n) == Le(b, at, n)
  {
  }

  /** The rewritten bytes decide nothing about where things are. */
  lemma SameHeaders(a: bytes, b: bytes)
    requires HasHeaders(a) && Agrees(a, b, ChecksumAt(a), SecurityAt(a)) && HasSecurityEntry(a)
    ensures HasHeaders(b) && PeOffset(b) == PeOffset(a) && IsPe(b) == IsPe(a) && IsPe32(b) == IsPe32(a)
    ensures HasSecurityEntry(b) && SizeOfHeaders(b) == SizeOfHeaders(a)
    ensures NumberOfSections(b) == NumberOfSections(a) && SectionTableAt(b) == SectionTableAt(a)
  {
    hide Le;
    var c, d, pe := ChecksumAt(a), SecurityAt(a), PeOffset(a);
    assert a[0] == b[0] && a[1] == b[1];
    assert a[..2] == [a[0], a[1]] && b[..2] == [b[0], b[1]];
    if a[..2] == MZ {
      LeAgrees(a, b, c, d, 0x3c, 4);
    }
    LeAgrees(a, b, c, d, pe, 4);
    LeAgrees(a, b, c, d, pe + 6, 2);
    LeAgrees(a, b, c, d, pe + 20, 2);
    LeAgrees(a, b, c, d, pe + 24, 2);
    LeAgrees(a, b, c, d, pe + 24 + 60, 4);
    LeAgrees(a, b, c, d, pe + 24 + (if IsPe32(a) then 92 else 108), 4);
  }

  lemma SameSections(a: bytes, b: bytes)
    requires HasHeaders(a) && Agrees(a, b, ChecksumAt(a), SecurityAt(a)) && HasSecurityEntry(a)
    requires NumberOfSections(a) > 0 ==> SecurityAt(a) + 8 <= SectionTableAt(a)
    ensures HasHeaders(b) && Sections(b) == Sections(a)
  {
    SameHeaders(a, b);
    forall i | 0 <= i < NumberOfSections(a) ensures SectionAt(a, i) == SectionAt(b, i) {
      var at := SectionTableAt(a) + 40 * i;
      hide Le;
      LeAgrees(a, b, ChecksumAt(a), SecurityAt(a), at + 16, 4);
      LeAgrees(a, b, ChecksumAt(a), SecurityAt(a), at + 20, 4);
    }
  }

  lemma SameHeaderBytes(a: bytes, b: bytes)
    requires HasHeaders(a) && Agrees(a, b, ChecksumAt(a), SecurityAt(a)) && HasSecurityEntry(a)
    ensures HasHeaders(b) && HeaderBytes(b) == HeaderBytes(a)
  {
    SameHeaders(a, b);
    hide Le, HasHeaders;
    assert a[..ChecksumAt(a)] == b[..ChecksumAt(a)];
    assert a[ChecksumAt(a) + 4..SecurityAt(a)] == b[ChecksumAt(a) + 4..SecurityAt(a)];
    assert a[SecurityAt(a) + 8..SizeOfHeaders(a)] == b[SecurityAt(a) + 8..SizeOfHeaders(a)];
  }

  /** The data of no section contains a rewritten byte. */
  predicate SectionsAvoid(ss: seq<Section>, c: nat, d: nat) {
    forall s, i :: s in ss && s.pointer <= i < s.pointer + s.size ==> !Rewritten(c, d, i)
  }

  lemma SectionBytesSnoc(image: bytes, front: seq<Section>, s: Section)
    requires (AllInside(front, |image|)) && Inside(s, |image|)
    ensures SectionBytes(image, front + [s]) == SectionBytes(image, front) + RawData(image, s)
  {
    assert (front + [s])[..|front|] == front;
  }

  lemma SameRawData(a: bytes, b: bytes, c: nat, d: nat, s: Section)
    requires Agrees(a, b, c, d) && Inside(s, |a|) && Inside(s, |b|)
    ensures |RawData(a, s)| == |RawData(b, s)|
    ensures SectionsAvoid([s], c, d) ==> RawData(a, s) == RawData(b, s)
  {
    assert s in [s];
  }

  lemma {:induction false} SameSectionBytes(a: bytes, b: bytes, c: nat, d: nat, ss: seq<Section>)
    requires Agrees(a, b, c, d) && AllInside(ss, |a|) && AllInside(ss, |b|)
    ensures SectionsAvoid(ss, c, d) ==> SectionBytes(a, ss) == SectionBytes(b, ss)
    ensures |SectionBytes(a, ss)| == |SectionBytes(b, ss)|
    ensures SectionBytes(a, ss) == SectionBytes(b, ss) ==> forall s :: s in ss ==> RawData(a, s) == RawData(b, s)
  {
    if ss != [] {
      var front, s := ss[..|ss| - 1], ss[|ss| - 1];
      assert ss == front + [s];
      SameSectionBytes(a, b, c, d, front);
      SameRawData(a, b, c, d, s);
      SectionBytesSnoc(a, front, s);
      SectionBytesSnoc(b, front, s);
      hide Agrees, SectionBytes, RawData, Inside;
      SplitEqual(SectionBytes(a, front), RawData(a, s), SectionBytes(b, front), RawData(b, s));
    }
  }

  ghost predicate Measures(b: bytes, stream: bytes) {
    Bounded(b) && IsPe(b) && Stream(b) == stream
  }

  lemma SignedBounded(a: bytes, b: bytes)
    requires Signable(a) && Agrees(a, b, ChecksumAt(a), SecurityAt(a))
    ensures Bounded(b) && IsPe(b) && Sections(b) == Sections(a)
  {
    SameHeaders(a, b);
    SameSections(a, b);
    hide HasHeaders, HasFixedHeader, Le, Sections;
  }

  lemma StreamParts(image: bytes, ss: seq<Section>)
    requires Bounded(image) && IsPe(image) && ss == Sorted(Sections(image))
    ensures AllInside(ss, |image|)
    ensures Stream(image)
         == Joined3(HeaderBytes(image), SectionBytes(image, ss),
                    TrailingBytes(image, SizeOfHeaders(image) + TotalSize(ss), CertificateSize(image)))
  {
    hide HasHeaders, IsPe, Sorted, SectionBytes, TotalSize, HeaderBytes, TrailingBytes, CertificateSize, Sections;
    hide SizeOfHeaders, StreamOf;
    SortedInside(Sections(image), |image|);
    StreamUnfolded(image, ss);
  }

  /** With the sections sorted the same way, only section data can make a difference. */
  lemma SignedStream(a: bytes, checksum: bytes, address: bytes, certificate: bytes)
    requires Signable(a) && SignatureParts(checksum, address, certificate)
    ensures var b, ss := Signed(a, checksum, address, certificate), Sorted(Sections(a));
            && (AllInside(ss, |a|) && AllInside(ss, |b|))
            && (Measures(b, Stream(a)) <==> SectionBytes(a, ss) == SectionBytes(b, ss))
  {
    SignedCarries(a, checksum, address, certificate);
    SameStream(a, Signed(a, checksum, address, certificate), |certificate|);
  }

  lemma SignableUnfolded(a: bytes)
    requires Signable(a)
    ensures Bounded(a) && IsPe(a) && HasHeaders(a) && HasFixedHeader(a) && HasSignature(a)
    ensures HasSecurityEntry(a) && CertificateSize(a) == 0
  {
    hide Le, IsPe, HasSecurityEntry, CertificateSize;
  }

  /** b is a with new fields and `size` bytes appended. */
  predicate SignedFrom(a: bytes, b: bytes, size: nat) {
    && Signable(a) && Agrees(a, b, ChecksumAt(a), SecurityAt(a)) && size < 0x1_0000_0000 && |b| == |a| + size
    && SecurityAt(a) + 8 <= |a| && b[SecurityAt(a) + 4..SecurityAt(a) + 8] == LittleEndian(size, 4)
  }

  lemma SignedFromUnfolded(a: bytes, b: bytes, size: nat)
    requires SignedFrom(a, b, size)
    ensures Signable(a) && HasHeaders(a) && HasFixedHeader(a) && HasSignature(a) && HasSecurityEntry(a) && Bounded(a) && IsPe(a)
    ensures CertificateSize(a) == 0 && HasHeaders(b) && HasFixedHeader(b) && Bounded(b) && IsPe(b)
    ensures Sections(b) == Sections(a) && HeaderBytes(b) == HeaderBytes(a) && SizeOfHeaders(b) == SizeOfHeaders(a)
    ensures CertificateSize(b) == size && Agrees(a, b, ChecksumAt(a), SecurityAt(a)) && |b| == |a| + size
  {
    SignableUnfolded(a);
    hide HasHeaders, HasFixedHeader, HasSignature, IsPe, Le, Sections, Signable, HeaderBytes, CertificateSize, SizeOfHeaders;
    SignedBounded(a, b);
    BoundedHeaders(b);
    SameHeaders(a, b);
    SameHeaderBytes(a, b);
    SignedCertificateSize(a, b, size);
  }

  /** A signed image has the stream of the original, but for what the sections contribute. */
  lemma SignedParts(a: bytes, b: bytes, size: nat, ss: seq<Section>)
    requires SignedFrom(a, b, size) && Signable(a) && HasHeaders(a) && ss == Sorted(Sections(a))
    ensures Bounded(b) && IsPe(b) && AllInside(ss, |b|)
    ensures Stream(b) == Joined3(HeaderBytes(a), SectionBytes(b, ss), TrailingBytes(a, SizeOfHeaders(a) + TotalSize(ss), 0))
  {
    hide *;
    SignedFromUnfolded(a, b, size);
    SameTrailing(a, b, SizeOfHeaders(a) + TotalSize(ss), size);
    StreamParts(b, ss);
  }

  lemma SameStream(a: bytes, b: bytes, size: nat)
    requires SignedFrom(a, b, size) && Signable(a) && HasHeaders(a)
    ensures AllInside(Sorted(Sections(a)), |a|) && AllInside(Sorted(Sections(a)), |b|)
    ensures Measures(b, Stream(a)) <==> SectionBytes(a, Sorted(Sections(a))) == SectionBytes(b, Sorted(Sections(a)))
  {
    hide *;
    SignedFromUnfolded(a, b, size);
    var ss := Sorted(Sections(a));
    StreamParts(a, ss);
    SignedParts(a, b, size, ss);
    SameSectionBytes(a, b, ChecksumAt(a), SecurityAt(a), ss);
    CancelAround(HeaderBytes(a), SectionBytes(a, ss), SectionBytes(b, ss),
                 TrailingBytes(a, SizeOfHeaders(a) + TotalSize(ss), 0));
    MeasuresUnfolded(b, Stream(a));
  }

  lemma CancelAround(h: bytes, x: bytes, y: bytes, t: bytes)
    requires |x| == |y|
    ensures Joined3(h, x, t) == Joined3(h, y, t) <==> x == y
  {
    SplitEqual(h, x, h, y);
    SplitEqual(h + x, t, h + y, t);
  }

  lemma MeasuresUnfolded(b: bytes, stream: bytes)
    requires Bounded(b) && IsPe(b)
    ensures Measures(b, stream) <==> Stream(b) == stream
  {
    hide Bounded, IsPe, Stream;
  }

  lemma SameTrailing(a: bytes, b: bytes, summed: nat, size: nat)
    requires HasHeaders(a) && HasSecurityEntry(a) && Agrees(a, b, ChecksumAt(a), SecurityAt(a))
    requires |b| == |a| + size && SizeOfHeaders(a) <= summed
    ensures TrailingBytes(a, summed, 0) == TrailingBytes(b, summed, size)
  {
    hide Le;
  }

  lemma SignedCertificateSize(a: bytes, b: bytes, size: nat)
    requires HasHeaders(a) && HasHeaders(b) && PeOffset(a) == PeOffset(b) && IsPe32(a) == IsPe32(b)
    requires HasSecurityEntry(b) && size < 0x1_0000_0000
    requires b[SecurityAt(a) + 4..SecurityAt(a) + 8] == LittleEndian(size, 4)
    ensures CertificateSize(b) == size
  {
    hide HasHeaders, HasFixedHeader, HasSignature;
    LittleEndianValue(size, 4);
    assert Pow256(4) == 0x1_0000_0000;
  }

  /** Signing leaves the measured bytes unchanged, whatever the checksum, address and certificate,
      exactly when no section's data covers the fields that signing rewrites. */
  lemma SigningInvariance(image: bytes)
    requires Signable(image)
    ensures (forall checksum, address, certificate :: SignatureParts(checksum, address, certificate) ==>
               Measures(Signed(image, checksum, address, certificate), Stream(image)))
            <==> SectionsAvoid(Sections(image), ChecksumAt(image), SecurityAt(image))
  {
    if SectionsAvoid(Sections(image), ChecksumAt(image), SecurityAt(image)) {
      forall checksum, address, certificate | SignatureParts(checksum, address, certificate)
        ensures Measures(Signed(image, checksum, address, certificate), Stream(image))
      {
        AvoidingSignature(image, checksum, address, certificate);
      }
    } else {
      var checksum, address, certificate := TellingSignature(image);
    }
  }

  lemma AvoidingSignature(image: bytes, checksum: bytes, address: bytes, certificate: bytes)
    requires Signable(image) && SignatureParts(checksum, address, certificate)
    requires SectionsAvoid(Sections(image), ChecksumAt(image), SecurityAt(image))
    ensures Measures(Signed(image, checksum, address, certificate), Stream(image))
  {
    SortedHolds(Sections(image), 0);
    SignedStream(image, checksum, address, certificate);
    SignedCarries(image, checksum, address, certificate);
    var b, c, d, ss := Signed(image, checksum, address, certificate), ChecksumAt(image), SecurityAt(image), Sections(image);
    hide *;
    AvoidSorted(ss, c, d);
    SameSectionBytes(image, b, c, d, Sorted(ss));
  }

  lemma AvoidSorted(ss: seq<Section>, c: nat, d: nat)
    requires SectionsAvoid(ss, c, d)
    ensures SectionsAvoid(Sorted(ss), c, d)
  {
    SortedHolds(ss, 0);
    hide Sorted;
  }

  /** When a section covers a rewritten byte, a signature that changes that byte changes the stream. */
  lemma TellingSignature(image: bytes) returns (checksum: bytes, address: bytes, certificate: bytes)
    requires Signable(image) && !SectionsAvoid(Sections(image), ChecksumAt(image), SecurityAt(image))
    ensures SignatureParts(checksum, address, certificate)
    ensures !Measures(Signed(image, checksum, address, certificate), Stream(image))
  {
    var s, i :| s in Sections(image) && s.pointer <= i < s.pointer + s.size
                && Rewritten(ChecksumAt(image), SecurityAt(image), i);
    checksum, address, certificate := ChangedByte(image, i);
    SortedHolds(Sections(image), 0);
    SignedStream(image, checksum, address, certificate);
    SignedCarries(image, checksum, address, certificate);
    var b, c, d, ss := Signed(image, checksum, address, certificate), ChecksumAt(image), SecurityAt(image), Sections(image);
    hide *;
    SameSectionBytes(image, b, c, d, Sorted(ss));
    RawDataAt(image, s, i);
    RawDataAt(b, s, i);
  }

  lemma RawDataAt(image: bytes, s: Section, i: nat)
    requires Inside(s, |image|) && s.pointer <= i < s.pointer + s.size
    ensures i - s.pointer < |RawData(image, s)| && i < |image| && RawData(image, s)[i - s.pointer] == image[i]
  {
  }

  /** Every rewritten byte can be changed by some signature. */
  lemma ChangedByte(image: bytes, i: nat) returns (checksum: bytes, address: bytes, certificate: bytes)
    requires Signable(image) && Rewritten(ChecksumAt(image), SecurityAt(image), i)
    ensures SignatureParts(checksum, address, certificate) && i < |image|
    ensures Signed(image, checksum, address, certificate)[i] != image[i]
  {
    FieldOrder(image);
    var c, d := ChecksumAt(image), SecurityAt(image);
    checksum, address, certificate := image[c..c + 4], image[d..d + 4], [];
    var other: byte := if image[i] == 0 then 1 else 0;
    if i < c + 4 {
      checksum := checksum[i - c := other];
    } else if i < d + 4 {
      address := address[i - d := other];
    } else {
      var j := i - d - 4;
      PowersBelow(j);
      certificate := Zeros(Pow256(j));
      DigitOfPower(j, 4);
      assert FromLittleEndian(image[d + 4..d + 8]) == 0;
      AllZero(image[d + 4..d + 8], j);
    }
    SignedCarries(image, checksum, address, certificate);
    var b := Signed(image, checksum, address, certificate);
    hide *;
    if i < c + 4 {
      assert b[c..c + 4][i - c] == b[i];
    } else if i < d + 4 {
      assert b[d..d + 4][i - d] == b[i];
    } else {
      assert b[d + 4..d + 8][i - d - 4] == b[i];
    }
  }

  lemma PowersBelow(j: nat)
    requires j < 4
    ensures Pow256(j) < 0x1_0000_0000
  {
    assert Pow256(0) == 1 && Pow256(1) == 0x100 && Pow256(2) == 0x1_0000 && Pow256(3) == 0x100_0000;
  }

  lemma {:induction false} DigitOfPower(j: nat, k: nat)
    requires j < k
    ensures LittleEndian(Pow256(j), k)[j] == 1
  {
    if j > 0 {
      assert Pow256(j) / 256 == Pow256(j - 1);
      DigitOfPower(j - 1, k - 1);
    }
  }

  lemma {:induction false} AllZero(s: bytes, j: nat)
    requires FromLittleEndian(s) == 0 && j < |s|
    ensures s[j] == 0
  {
    if j > 0 {
      AllZero(s[1..], j - 1);
    }
  }

  // ----- contiguous sections

  /** Sections that follow each other without gap or overlap, the first at offset `from`. */
  predicate Contiguous(ss: seq<Section>, from: nat) {
    if ss == [] then true
    else
      var front, s := ss[..|ss| - 1], ss[|ss| - 1];
      Contiguous(front, from) && (s.size > 0 ==> s.pointer == from + TotalSize(front))
  }

  lemma ContiguousParts(front: seq<Section>, s: Section, from: nat)
    requires Contiguous(front + [s], from)
    ensures Contiguous(front, from) && (s.size > 0 ==> s.pointer == from + TotalSize(front))
    ensures TotalSize(front + [s]) == TotalSize(front) + s.size
  {
    assert (front + [s])[..|front|] == front;
  }

  lemma RawDataFrom(image: bytes, s: Section, at: nat)
    requires Inside(s, |image|) && at <= |image| && (s.size > 0 ==> s.pointer == at)
    ensures at + s.size <= |image| && RawData(image, s) == image[at..at + s.size]
  {
  }

  lemma InsideParts(front: seq<Section>, s: Section, size: nat)
    requires AllInside(front + [s], size)
    ensures AllInside(front, size) && Inside(s, size)
  {
    hide Inside;
    assert forall t :: t in front ==> t in front + [s];
    assert s in front + [s];
  }

  lemma ContiguousStep(image: bytes, front: seq<Section>, s: Section, from: nat)
    requires AllInside(front, |image|) && Inside(s, |image|) && from + TotalSize(front) <= |image|
    requires SectionBytes(image, front) == image[from..from + TotalSize(front)]
    requires s.size > 0 ==> s.pointer == from + TotalSize(front)
    ensures AllInside(front + [s], |image|) && from + TotalSize(front) + s.size <= |image|
    ensures SectionBytes(image, front + [s]) == image[from..from + TotalSize(front) + s.size]
  {
    hide SectionBytes, TotalSize, Inside, RawData;
    SectionBytesSnoc(image, front, s);
    var to := from + TotalSize(front);
    RawDataFrom(image, s, to);
    Joined(image, from, to, to + s.size);
  }

  lemma {:induction false} ContiguousBytes(image: bytes, ss: seq<Section>, from: nat)
    requires AllInside(ss, |image|) && Contiguous(ss, from) && from <= |image|
    ensures from + TotalSize(ss) <= |image| && SectionBytes(image, ss) == image[from..from + TotalSize(ss)]
  {
    hide SectionBytes, TotalSize, Inside, RawData, Contiguous, AllInside;
    if ss == [] {
      NoSections(image, from);
    } else {
      var front, s := ss[..|ss| - 1], ss[|ss| - 1];
      assert ss == front + [s];
      InsideParts(front, s, |image|);
      ContiguousParts(front, s, from);
      ContiguousBytes(image, front, from);
      ContiguousStep(image, front, s, from);
    }
  }

  lemma NoSections(image: bytes, from: nat)
    requires from <= |image|
    ensures AllInside([], |image|) && TotalSize([]) == 0 && SectionBytes(image, []) == image[from..from]
  {
  }

  lemma Joined(s: bytes, a: nat, b: nat, c: nat)
    requires a <= b <= c <= |s|
    ensures s[a..b] + s[b..c] == s[a..c]
  {
  }

  /** The file without the checksum, the directory entry and the certificate table. */
  function WithoutSignature(image: bytes): bytes
    requires HasHeaders(image) && HasSecurityEntry(image)
    requires SecurityAt(image) + 8 <= |image| - CertificateSize(image)
  {
    image[..ChecksumAt(image)] + image[ChecksumAt(image) + 4..SecurityAt(image)]
    + image[SecurityAt(image) + 8..|image| - CertificateSize(image)]
  }

  /** When the sections follow the headers without gaps, the measured bytes are those of the file
      without what signing rewrites. */
  lemma ContiguousStream(image: bytes)
    requires Bounded(image) && IsPe(image) && HasSecurityEntry(image)
    requires Contiguous(Sorted(Sections(image)), SizeOfHeaders(image))
    requires SizeOfHeaders(image) + TotalSize(Sorted(Sections(image))) + CertificateSize(image) <= |image|
    ensures SecurityAt(image) + 8 <= |image| - CertificateSize(image) && Stream(image) == WithoutSignature(image)
  {
    hide *;
    BoundedHeaders(image);
    var ss := Sorted(Sections(image));
    FieldOrder(image);
    StreamParts(image, ss);
    ContiguousBytes(image, ss, SizeOfHeaders(image));
    HeaderPieces(image);
    CutOut(image, ChecksumAt(image), SecurityAt(image), SizeOfHeaders(image), SizeOfHeaders(image) + TotalSize(ss),
           CertificateSize(image));
    WithoutSignatureUnfolded(image);
  }

  lemma BoundedHeaders(image: bytes)
    requires Bounded(image) && IsPe(image)
    ensures HasHeaders(image) && HasFixedHeader(image) && HasSignature(image)
  {
    hide IsPe, Le;
  }

  lemma CutOut(s: bytes, c: nat, d: nat, from: nat, to: nat, certificate: nat)
    requires c + 4 <= d && d + 8 <= from <= to && to + certificate <= |s|
    ensures Joined3(s[..c] + s[c + 4..d] + s[d + 8..from], s[from..to], TrailingBytes(s, to, certificate))
         == s[..c] + s[c + 4..d] + s[d + 8..|s| - certificate]
  {
    var m := |s| - certificate;
    assert TrailingBytes(s, to, certificate) == s[to..m];
    Joined(s, d + 8, from, to);
    Joined(s, d + 8, to, m);
    var h := s[..c] + s[c + 4..d];
    assert h + s[d + 8..from] + s[from..to] + s[to..m] == h + (s[d + 8..from] + s[from..to] + s[to..m]);
  }

  lemma WithoutSignatureUnfolded(image: bytes)
    requires HasHeaders(image) && HasSecurityEntry(image)
    requires SecurityAt(image) + 8 <= |image| - CertificateSize(image)
    ensures WithoutSignature(image) == image[..ChecksumAt(image)] + image[ChecksumAt(image) + 4..SecurityAt(image)]
                                       + image[SecurityAt(image) + 8..|image| - CertificateSize(image)]
  {
    hide Le;
  }
}
