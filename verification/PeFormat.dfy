/** PE headers as the format writes them, field after field, and what the measurement reads of them. */
module PeFormat {
  import opened Bytes
  import opened MeasurePe

  // ----- structures without padding

  /** The bytes of fields of these widths, one after the other. */
  function Packed(widths: seq<nat>, values: seq<nat>): (r: bytes)
    requires |widths| == |values|
    ensures |r| == Total(widths)
  {
    if widths == [] then []
    else Packed(widths[..|widths| - 1], values[..|values| - 1]) + LittleEndian(values[|values| - 1], widths[|widths| - 1])
  }

  function Total(widths: seq<nat>): nat {
    if widths == [] then 0 else Total(widths[..|widths| - 1]) + widths[|widths| - 1]
  }

  /** Running totals. */
  lemma {:induction false} RunningTotal(widths: seq<nat>, sums: seq<nat>, i: nat)
    requires |sums| == |widths| + 1 && sums[0] == 0 && i <= |widths|
    requires forall j :: 0 <= j < |widths| ==> sums[j + 1] == sums[j] + widths[j]
    ensures Total(widths[..i]) == sums[i]
  {
    if i > 0 {
      RunningTotal(widths, sums, i - 1);
      assert widths[..i][..i - 1] == widths[..i - 1];
    }
  }

  /** Every field is found behind those before it. */
  lemma {:induction false} PackedReads(s: bytes, at: nat, widths: seq<nat>, values: seq<nat>, i: nat)
    requires |widths| == |values| && i < |widths| && At(s, at, Packed(widths, values))
    ensures Total(widths[..i]) + widths[i] <= Total(widths)
    ensures at + Total(widths) <= |s| && At(s, at + Total(widths[..i]), LittleEndian(values[i], widths[i]))
    ensures Le(s, at + Total(widths[..i]), widths[i]) == values[i] % Pow256(widths[i])
  {
    var n := |widths| - 1;
    AtSplit(s, at, Packed(widths[..n], values[..n]), LittleEndian(values[n], widths[n]));
    if i < n {
      PackedReads(s, at, widths[..n], values[..n], i);
      assert widths[..n][..i] == widths[..i];
    } else {
      LittleEndianValue(values[i], widths[i]);
    }
  }

  // ----- the headers

  const DOS_WIDTHS: seq<nat> := [2, 2, 2, 2, 2, 2, 2, 2, 2, 2, 2, 2, 2, 2, 2, 2, 2, 2, 2, 2, 2, 2, 2, 2, 2, 2, 2, 2, 2, 4]

  lemma DosOffsets()
    ensures Total(DOS_WIDTHS[..29]) == 58 && Total(DOS_WIDTHS) == 62
  {
    var sums: seq<nat> := seq(30, i => 2 * i) + [62];
    RunningTotal(DOS_WIDTHS, sums, 29);
    RunningTotal(DOS_WIDTHS, sums, 30);
    assert DOS_WIDTHS[..30] == DOS_WIDTHS;
  }

  /** The DOS header: its magic, 58 bytes and the offset of the PE header. */
  function DosHeader(words: seq<nat>, lfanew: nat): bytes
    requires |words| == 29
  {
    [0x4D, 0x5A] + Packed(DOS_WIDTHS, words + [lfanew])
  }

  datatype FileHeader = FileHeader(machine: nat, numberOfSections: nat, timeDateStamp: nat, pointerToSymbolTable: nat,
                                   numberOfSymbols: nat, sizeOfOptionalHeader: nat, characteristics: nat)

  const FILE_WIDTHS: seq<nat> := [2, 2, 4, 4, 4, 2, 2]

  lemma FileOffsets()
    ensures Total(FILE_WIDTHS[..1]) == 2 && Total(FILE_WIDTHS[..5]) == 16 && Total(FILE_WIDTHS) == 20
  {
    var sums := [0, 2, 4, 8, 12, 16, 18, 20];
    RunningTotal(FILE_WIDTHS, sums, 1);
    RunningTotal(FILE_WIDTHS, sums, 5);
    RunningTotal(FILE_WIDTHS, sums, 7);
    assert FILE_WIDTHS[..7] == FILE_WIDTHS;
  }

  function FileHeaderBytes(h: FileHeader): bytes {
    Packed(FILE_WIDTHS,
           [h.machine, h.numberOfSections, h.timeDateStamp, h.pointerToSymbolTable, h.numberOfSymbols,
            h.sizeOfOptionalHeader, h.characteristics])
  }

  /** The optional header: magic, linker version, sizes and bases, alignments, versions, sizes, checksum,
      subsystem, stack and heap, flags and the number of directories. PE32+ has no base of data, and wider
      addresses. */
  const PE32_WIDTHS: seq<nat> :=
    [2, 1, 1, 4, 4, 4, 4, 4, 4, 4, 4, 4, 2, 2, 2, 2, 2, 2, 4, 4, 4, 4, 2, 2, 4, 4, 4, 4, 4, 4]
  const PE32_PLUS_WIDTHS: seq<nat> :=
    [2, 1, 1, 4, 4, 4, 4, 4, 8, 4, 4, 2, 2, 2, 2, 2, 2, 4, 4, 4, 4, 2, 2, 8, 8, 8, 8, 4, 4]

  /** Where each field starts. */
  const PE32_OFFSETS: seq<nat> :=
    [0, 2, 3, 4, 8, 12, 16, 20, 24, 28, 32, 36, 40, 42, 44, 46, 48, 50, 52, 56, 60, 64, 68, 70, 72, 76, 80, 84, 88, 92, 96]
  const PE32_PLUS_OFFSETS: seq<nat> :=
    [0, 2, 3, 4, 8, 12, 16, 20, 24, 32, 36, 40, 42, 44, 46, 48, 50, 52, 56, 60, 64, 68, 70, 72, 80, 88, 96, 104, 108, 112]

  lemma Pe32Sums()
    ensures forall j :: 0 <= j < |PE32_WIDTHS| ==> PE32_OFFSETS[j + 1] == PE32_OFFSETS[j] + PE32_WIDTHS[j]
  {
  }

  lemma Pe32PlusSums()
    ensures forall j :: 0 <= j < |PE32_PLUS_WIDTHS| ==> PE32_PLUS_OFFSETS[j + 1] == PE32_PLUS_OFFSETS[j] + PE32_PLUS_WIDTHS[j]
  {
  }

  lemma Pe32Offsets()
    ensures Total(PE32_WIDTHS[..20]) == 60 && Total(PE32_WIDTHS[..21]) == 64
    ensures Total(PE32_WIDTHS[..29]) == 92 && Total(PE32_WIDTHS) == 96
  {
    assert |PE32_WIDTHS| == 30 && |PE32_OFFSETS| == 31 && PE32_OFFSETS[0] == 0 && PE32_OFFSETS[20] == 60;
    assert PE32_OFFSETS[21] == 64 && PE32_OFFSETS[29] == 92 && PE32_OFFSETS[30] == 96;
    hide *;
    Pe32Sums();
    RunningTotal(PE32_WIDTHS, PE32_OFFSETS, 20);
    RunningTotal(PE32_WIDTHS, PE32_OFFSETS, 21);
    RunningTotal(PE32_WIDTHS, PE32_OFFSETS, 29);
    RunningTotal(PE32_WIDTHS, PE32_OFFSETS, 30);
    assert PE32_WIDTHS[..30] == PE32_WIDTHS;
  }

  lemma Pe32PlusOffsets()
    ensures Total(PE32_PLUS_WIDTHS[..19]) == 60 && Total(PE32_PLUS_WIDTHS[..20]) == 64
    ensures Total(PE32_PLUS_WIDTHS[..28]) == 108 && Total(PE32_PLUS_WIDTHS) == 112
  {
    assert |PE32_PLUS_WIDTHS| == 29 && |PE32_PLUS_OFFSETS| == 30 && PE32_PLUS_OFFSETS[0] == 0 && PE32_PLUS_OFFSETS[19] == 60;
    assert PE32_PLUS_OFFSETS[20] == 64 && PE32_PLUS_OFFSETS[28] == 108 && PE32_PLUS_OFFSETS[29] == 112;
    hide *;
    Pe32PlusSums();
    RunningTotal(PE32_PLUS_WIDTHS, PE32_PLUS_OFFSETS, 19);
    RunningTotal(PE32_PLUS_WIDTHS, PE32_PLUS_OFFSETS, 20);
    RunningTotal(PE32_PLUS_WIDTHS, PE32_PLUS_OFFSETS, 28);
    RunningTotal(PE32_PLUS_WIDTHS, PE32_PLUS_OFFSETS, 29);
    assert PE32_PLUS_WIDTHS[..29] == PE32_PLUS_WIDTHS;
  }

  datatype Optional = Optional(plus: bool, front: seq<nat>, sizeOfHeaders: nat, checksum: nat, back: seq<nat>, directories: nat)

  predicate OptionalOk(o: Optional) {
    |o.front| == (if o.plus then 18 else 19) && |o.back| == 7
  }

  function Widths(o: Optional): (r: seq<nat>)
    ensures |r| == if o.plus then 29 else 30
  {
    if o.plus then PE32_PLUS_WIDTHS else PE32_WIDTHS
  }

  function Values(o: Optional): (r: seq<nat>)
    requires OptionalOk(o)
    ensures |r| == if o.plus then 29 else 30
  {
    [if o.plus then 0x20b else 0x10b] + o.front + [o.sizeOfHeaders, o.checksum] + o.back + [o.directories]
  }

  function OptionalBytes(o: Optional): bytes
    requires OptionalOk(o)
  {
    Packed(Widths(o), Values(o))
  }

  const DIRECTORY_WIDTHS: seq<nat> := [4, 4]

  lemma DirectoryOffsets()
    ensures Total(DIRECTORY_WIDTHS[..1]) == 4 && Total(DIRECTORY_WIDTHS) == 8
  {
    RunningTotal(DIRECTORY_WIDTHS, [0, 4, 8], 1);
    RunningTotal(DIRECTORY_WIDTHS, [0, 4, 8], 2);
    assert DIRECTORY_WIDTHS[..2] == DIRECTORY_WIDTHS;
  }

  datatype Directory = Directory(virtualAddress: nat, size: nat)

  function DirectoryBytes(d: Directory): (r: bytes)
    ensures |r| == 8
  {
    DirectoryOffsets();
    Packed(DIRECTORY_WIDTHS, [d.virtualAddress, d.size])
  }

  function DirectoriesBytes(ds: seq<Directory>): (r: bytes)
    ensures |r| == 8 * |ds|
  {
    if ds == [] then [] else DirectoriesBytes(ds[..|ds| - 1]) + DirectoryBytes(ds[|ds| - 1])
  }

  /** The eight bytes of the name and the fields behind it. */
  const SECTION_WIDTHS: seq<nat> := [1, 1, 1, 1, 1, 1, 1, 1, 4, 4, 4, 4, 4, 4, 2, 2, 4]

  lemma SectionOffsets()
    ensures Total(SECTION_WIDTHS[..10]) == 16 && Total(SECTION_WIDTHS[..11]) == 20 && Total(SECTION_WIDTHS) == 40
  {
    var sums := [0, 1, 2, 3, 4, 5, 6, 7, 8, 12, 16, 20, 24, 28, 32, 34, 36, 40];
    RunningTotal(SECTION_WIDTHS, sums, 10);
    RunningTotal(SECTION_WIDTHS, sums, 11);
    RunningTotal(SECTION_WIDTHS, sums, 17);
    assert SECTION_WIDTHS[..17] == SECTION_WIDTHS;
  }

  datatype SectionHeader = SectionHeader(name: seq<nat>, virtualSize: nat, virtualAddress: nat, sizeOfRawData: nat,
                                         pointerToRawData: nat, pointerToRelocations: nat, pointerToLinenumbers: nat,
                                         numberOfRelocations: nat, numberOfLinenumbers: nat, characteristics: nat)

  function SectionHeaderBytes(s: SectionHeader): (r: bytes)
    requires |s.name| == 8
    ensures |r| == 40
  {
    SectionOffsets();
    Packed(SECTION_WIDTHS,
           s.name + [s.virtualSize, s.virtualAddress, s.sizeOfRawData, s.pointerToRawData, s.pointerToRelocations,
                     s.pointerToLinenumbers, s.numberOfRelocations, s.numberOfLinenumbers, s.characteristics])
  }

  function SectionTableBytes(ss: seq<SectionHeader>): (r: bytes)
    requires forall s :: s in ss ==> |s.name| == 8
    ensures |r| == 40 * |ss|
  {
    if ss == [] then []
    else
      var s := ss[|ss| - 1];
      assert s in ss;
      SectionTableBytes(ss[..|ss| - 1]) + SectionHeaderBytes(s)
  }

  // ----- an image that holds them

  /** The DOS header may be missing; the PE header is then at the start. */
  datatype Written = Written(dos: bool, dosWords: seq<nat>, lfanew: nat, file: FileHeader, optional: Optional,
                             directories: seq<Directory>, sections: seq<SectionHeader>)

  predicate WrittenOk(w: Written) {
    && |w.dosWords| == 29 && w.lfanew < 0x1_0000_0000 && (!w.dos ==> w.lfanew == 0) && OptionalOk(w.optional)
    && w.file.numberOfSections == |w.sections| < 0x1_0000 && w.file.sizeOfOptionalHeader < 0x1_0000
    && w.optional.sizeOfHeaders < 0x1_0000_0000 && w.optional.directories == |w.directories| < 0x1_0000_0000
    && (forall d :: d in w.directories ==> d.size < 0x1_0000_0000)
    && (forall s :: s in w.sections ==> |s.name| == 8 && s.sizeOfRawData < 0x1_0000_0000 && s.pointerToRawData < 0x1_0000_0000)
  }

  /** The headers stand where the format puts them; whatever else is in the image. */
  predicate Holds(image: bytes, w: Written)
    requires WrittenOk(w)
  {
    var p := w.lfanew;
    && (w.dos ==> At(image, 0, DosHeader(w.dosWords, p))) && At(image, p, [0x50, 0x45, 0, 0])
    && At(image, p + 4, FileHeaderBytes(w.file)) && At(image, p + 24, OptionalBytes(w.optional))
    && At(image, p + 24 + Total(Widths(w.optional)), DirectoriesBytes(w.directories))
    && At(image, p + 24 + w.file.sizeOfOptionalHeader, SectionTableBytes(w.sections))
  }

  // ----- what the measurement reads

  lemma LfanewRead(image: bytes, w: Written)
    requires WrittenOk(w) && Holds(image, w) && HasDosHeader(image)
    ensures PeOffset(image) == w.lfanew
  {
    if w.dos {
      var words := w.dosWords + [w.lfanew];
      DosOffsets();
      AtSplit(image, 0, [0x4D, 0x5A], Packed(DOS_WIDTHS, words));
      PackedReads(image, 2, DOS_WIDTHS, words, 29);
      assert Pow256(4) == 0x1_0000_0000;
    } else {
      AtHead(image, 0, [0x50, 0x45, 0, 0]);
    }
  }

  lemma FileHeaderRead(image: bytes, at: nat, h: FileHeader)
    requires At(image, at, FileHeaderBytes(h)) && h.numberOfSections < 0x1_0000 && h.sizeOfOptionalHeader < 0x1_0000
    ensures at + 20 <= |image| && Le(image, at + 2, 2) == h.numberOfSections && Le(image, at + 16, 2) == h.sizeOfOptionalHeader
  {
    var values := [h.machine, h.numberOfSections, h.timeDateStamp, h.pointerToSymbolTable, h.numberOfSymbols,
                   h.sizeOfOptionalHeader, h.characteristics];
    FileOffsets();
    PackedReads(image, at, FILE_WIDTHS, values, 1);
    PackedReads(image, at, FILE_WIDTHS, values, 5);
    assert Pow256(2) == 0x1_0000;
  }

  lemma FieldRead(s: bytes, at: nat, widths: seq<nat>, values: seq<nat>, i: nat, offset: nat, width: nat)
    requires |widths| == |values| && i < |widths| && At(s, at, Packed(widths, values))
    requires Total(widths[..i]) == offset && widths[i] == width
    ensures at + Total(widths) <= |s| && offset + width <= Total(widths) && At(s, at + offset, LittleEndian(values[i], width))
    ensures values[i] < Pow256(width) ==> Le(s, at + offset, width) == values[i]
  {
    hide *;
    PackedReads(s, at, widths, values, i);
    var v, m := values[i], Pow256(width);
    assert Le(s, at + offset, width) == v % m;
    if v < m {
      SmallModulo(v, m);
    }
  }

  lemma SmallModulo(v: nat, m: nat)
    requires v < m
    ensures v % m == v
  {
  }

  /** The fields of the optional header that are read: their places, widths and values. */
  lemma OptionalFields(o: Optional) returns (k: nat, n: nat)
    requires OptionalOk(o)
    ensures 0 < k && k + 1 < n - 1 < n == |Widths(o)| == |Values(o)|
    ensures Widths(o)[0] == 2 && Widths(o)[k] == Widths(o)[k + 1] == Widths(o)[n - 1] == 4
    ensures Values(o)[0] == (if o.plus then 0x20b else 0x10b) && Values(o)[k] == o.sizeOfHeaders
    ensures Values(o)[k + 1] == o.checksum && Values(o)[n - 1] == o.directories
    ensures Total(Widths(o)[..0]) == 0 && Total(Widths(o)[..k]) == 60 && Total(Widths(o)[..k + 1]) == 64
    ensures Total(Widths(o)[..n - 1]) == (if o.plus then 108 else 92) && Total(Widths(o)) == (if o.plus then 112 else 96)
  {
    k, n := |o.front| + 1, |Widths(o)|;
    Pe32Offsets();
    Pe32PlusOffsets();
    hide Packed, LittleEndian;
  }

  lemma OptionalRead(image: bytes, at: nat, o: Optional)
    requires OptionalOk(o) && At(image, at, OptionalBytes(o)) && o.sizeOfHeaders < 0x1_0000_0000 && o.directories < 0x1_0000_0000
    ensures at + Total(Widths(o)) <= |image| && Total(Widths(o)) == (if o.plus then 112 else 96)
    ensures Le(image, at, 2) == (if o.plus then 0x20b else 0x10b)
    ensures Le(image, at + 60, 4) == o.sizeOfHeaders && At(image, at + 64, LittleEndian(o.checksum, 4))
    ensures Le(image, at + (if o.plus then 108 else 92), 4) == o.directories
  {
    hide Widths, Values, OptionalOk, Packed, Total, At, Le;
    var k, n := OptionalFields(o);
    FieldRead(image, at, Widths(o), Values(o), 0, 0, 2);
    FieldRead(image, at, Widths(o), Values(o), k, 60, 4);
    FieldRead(image, at, Widths(o), Values(o), k + 1, 64, 4);
    FieldRead(image, at, Widths(o), Values(o), n - 1, if o.plus then 108 else 92, 4);
  }

  lemma {:induction false} DirectoryAt(image: bytes, at: nat, ds: seq<Directory>, i: nat)
    requires At(image, at, DirectoriesBytes(ds)) && i < |ds|
    ensures At(image, at + 8 * i, DirectoryBytes(ds[i]))
  {
    var n := |ds| - 1;
    AtSplit(image, at, DirectoriesBytes(ds[..n]), DirectoryBytes(ds[n]));
    if i < n {
      DirectoryAt(image, at, ds[..n], i);
    }
  }

  lemma DirectoryRead(image: bytes, at: nat, d: Directory)
    requires At(image, at, DirectoryBytes(d)) && d.size < 0x1_0000_0000
    ensures Le(image, at + 4, 4) == d.size
  {
    DirectoryOffsets();
    PackedReads(image, at, DIRECTORY_WIDTHS, [d.virtualAddress, d.size], 1);
    assert Pow256(4) == 0x1_0000_0000;
  }

  lemma {:induction false} SectionHeaderAt(image: bytes, at: nat, ss: seq<SectionHeader>, i: nat)
    requires (forall s :: s in ss ==> |s.name| == 8) && At(image, at, SectionTableBytes(ss)) && i < |ss|
    ensures ss[i] in ss && At(image, at + 40 * i, SectionHeaderBytes(ss[i]))
  {
    var n := |ss| - 1;
    AtSplit(image, at, SectionTableBytes(ss[..n]), SectionHeaderBytes(ss[n]));
    if i < n {
      SectionHeaderAt(image, at, ss[..n], i);
    }
  }

  lemma SectionHeaderRead(image: bytes, at: nat, s: SectionHeader)
    requires |s.name| == 8 && At(image, at, SectionHeaderBytes(s))
    requires s.sizeOfRawData < 0x1_0000_0000 && s.pointerToRawData < 0x1_0000_0000
    ensures at + 40 <= |image|
    ensures Le(image, at + 16, 4) == s.sizeOfRawData && Le(image, at + 20, 4) == s.pointerToRawData
  {
    var values := s.name + [s.virtualSize, s.virtualAddress, s.sizeOfRawData, s.pointerToRawData, s.pointerToRelocations,
                            s.pointerToLinenumbers, s.numberOfRelocations, s.numberOfLinenumbers, s.characteristics];
    SectionOffsets();
    PackedReads(image, at, SECTION_WIDTHS, values, 10);
    PackedReads(image, at, SECTION_WIDTHS, values, 11);
    assert Pow256(4) == 0x1_0000_0000;
  }

  /** Of an image whose headers are written as the format says, the measurement reads what was written. */
  lemma HeadersRead(image: bytes, w: Written)
    requires WrittenOk(w) && Holds(image, w) && HasDosHeader(image) && HasFixedHeader(image) && HasHeaders(image)
    ensures IsPe(image) && PeOffset(image) == w.lfanew && SizeOfHeaders(image) == w.optional.sizeOfHeaders
    ensures ChecksumAt(image) == w.lfanew + 88 && SecurityAt(image) == w.lfanew + (if w.optional.plus then 168 else 152)
    ensures At(image, ChecksumAt(image), LittleEndian(w.optional.checksum, 4))
    ensures HasSecurityEntry(image) <==> |w.directories| > 4
    ensures |w.directories| > 4 ==>
              At(image, SecurityAt(image), DirectoryBytes(w.directories[4])) && CertificateSize(image) == w.directories[4].size
    ensures |w.directories| <= 4 ==> CertificateSize(image) == 0
    ensures |Sections(image)| == |w.sections|
    ensures forall i :: 0 <= i < |w.sections| ==>
                          Sections(image)[i] == Section(w.sections[i].pointerToRawData, w.sections[i].sizeOfRawData)
  {
    LfanewRead(image, w);
    FixedRead(image, w);
    hide *;
    SecurityRead(image, w);
    SectionsRead(image, w);
  }

  lemma FixedRead(image: bytes, w: Written)
    requires WrittenOk(w) && Holds(image, w) && HasDosHeader(image) && HasFixedHeader(image) && HasHeaders(image)
    requires PeOffset(image) == w.lfanew
    ensures IsPe(image) && SizeOfHeaders(image) == w.optional.sizeOfHeaders && NumberOfSections(image) == |w.sections|
    ensures At(image, ChecksumAt(image), LittleEndian(w.optional.checksum, 4))
    ensures HasSecurityEntry(image) <==> |w.directories| > 4
    ensures IsPe32(image) <==> !w.optional.plus
    ensures ChecksumAt(image) == w.lfanew + 88 && SecurityAt(image) == w.lfanew + (if w.optional.plus then 168 else 152)
    ensures SectionTableAt(image) == w.lfanew + 24 + w.file.sizeOfOptionalHeader
  {
    hide Packed, Total, Le, FileHeaderBytes, OptionalBytes, DirectoriesBytes, SectionTableBytes, DosHeader;
    FileHeaderRead(image, w.lfanew + 4, w.file);
    OptionalRead(image, w.lfanew + 24, w.optional);
  }

  lemma SecurityRead(image: bytes, w: Written)
    requires WrittenOk(w) && Holds(image, w) && HasDosHeader(image) && HasFixedHeader(image) && HasHeaders(image)
    requires PeOffset(image) == w.lfanew && (IsPe32(image) <==> !w.optional.plus)
    requires HasSecurityEntry(image) <==> |w.directories| > 4
    ensures |w.directories| > 4 ==>
              At(image, SecurityAt(image), DirectoryBytes(w.directories[4])) && CertificateSize(image) == w.directories[4].size
    ensures |w.directories| <= 4 ==> CertificateSize(image) == 0
  {
    Pe32Offsets();
    Pe32PlusOffsets();
    hide Packed, Total, Le, FileHeaderBytes, OptionalBytes, DirectoriesBytes, SectionTableBytes, DosHeader, DirectoryBytes;
    if |w.directories| > 4 {
      DirectoryAt(image, w.lfanew + 24 + (if w.optional.plus then 112 else 96), w.directories, 4);
      DirectoryRead(image, SecurityAt(image), w.directories[4]);
    }
  }

  lemma SectionsRead(image: bytes, w: Written)
    requires WrittenOk(w) && Holds(image, w) && HasDosHeader(image) && HasFixedHeader(image) && HasHeaders(image)
    requires NumberOfSections(image) == |w.sections|
    requires SectionTableAt(image) == w.lfanew + 24 + w.file.sizeOfOptionalHeader
    ensures |Sections(image)| == |w.sections|
    ensures forall i :: 0 <= i < |w.sections| ==>
                          Sections(image)[i] == Section(w.sections[i].pointerToRawData, w.sections[i].sizeOfRawData)
  {
    hide Packed, Total, Le, FileHeaderBytes, OptionalBytes, DirectoriesBytes, SectionTableBytes, DosHeader, SectionTableAt;
    hide NumberOfSections, HasHeaders, HasFixedHeader, HasDosHeader;
    var at := SectionTableAt(image);
    forall i | 0 <= i < |w.sections|
      ensures SectionAt(image, i) == Section(w.sections[i].pointerToRawData, w.sections[i].sizeOfRawData)
    {
      SectionHeaderAt(image, at, w.sections, i);
      SectionHeaderRead(image, at + 40 * i, w.sections[i]);
    }
  }

  /** The sections as the table lists them. */
  function Listed(ss: seq<SectionHeader>): (r: seq<Section>)
    ensures |r| == |ss|
  {
    seq(|ss|, i requires 0 <= i < |ss| => Section(ss[i].pointerToRawData, ss[i].sizeOfRawData))
  }

  /** The measurement of the format's signing specification: the image up to the checksum at c, from there to the
      directory entry of the certificate table if there is one, the rest of the headers, the data of the sections,
      and what is left behind as many bytes as these up to the certificate table. */
  function Authenticode(image: bytes, c: nat, entry: Option<nat>, size: nat, sections: bytes, summed: nat, table: nat): bytes
    requires size <= |image| && (if entry.Some? then c + 4 <= entry.value && entry.value + 8 <= size else c + 4 <= size)
  {
    (if entry.Some? then image[..c] + image[c + 4..entry.value] + image[entry.value + 8..size] else image[..c] + image[c + 4..size])
    + sections
    + (if |image| > summed + table then image[summed..|image| - table] else [])
  }

  /** The checksum is 88 bytes into the PE header, the entry at 152 or in PE32+ at 168, if there are more than four;
      the sections are in the one order that is ascending in their offsets and keeps that of the table at equal offsets. */
  lemma MeasuredBytes(image: bytes, w: Written, ss: seq<Section>)
    requires WrittenOk(w) && Holds(image, w) && Bounded(image) && HasHeaders(image)
    requires (forall i, j :: 0 <= i < j < |ss| ==> ss[i].pointer <= ss[j].pointer)
    requires forall p :: AtPointer(ss, p) == AtPointer(Listed(w.sections), p)
    ensures IsPe(image) && AllInside(ss, |image|)
    ensures var c, size := w.lfanew + 88, w.optional.sizeOfHeaders;
            var entry := if |w.directories| > 4 then Some(w.lfanew + (if w.optional.plus then 168 else 152)) else None;
            var table := if |w.directories| > 4 then w.directories[4].size else 0;
            && size <= |image| && (if entry.Some? then c + 4 <= entry.value && entry.value + 8 <= size else c + 4 <= size)
            && Stream(image) == Authenticode(image, c, entry, size, SectionBytes(image, ss), size + TotalSize(ss), table)
  {
    hide *;
    HeadersNested(image);
    HeadersRead(image, w);
    SectionsOrdered(image, w, ss);
    StreamParts(image, ss);
    HeaderPieces(image);
    var entry := if |w.directories| > 4 then Some(SecurityAt(image)) else None;
    Pieces(image, ChecksumAt(image), entry, SizeOfHeaders(image), SectionBytes(image, ss), SizeOfHeaders(image) + TotalSize(ss),
           CertificateSize(image), HeaderBytes(image));
  }

  lemma Pieces(image: bytes, c: nat, entry: Option<nat>, size: nat, sections: bytes, summed: nat, table: nat, header: bytes)
    requires size <= |image| && (if entry.Some? then c + 4 <= entry.value && entry.value + 8 <= size else c + 4 <= size)
    requires header == if entry.Some? then image[..c] + image[c + 4..entry.value] + image[entry.value + 8..size]
                       else image[..c] + image[c + 4..size]
    ensures Joined3(header, sections, TrailingBytes(image, summed, table))
         == Authenticode(image, c, entry, size, sections, summed, table)
  {
  }

  lemma HeadersNested(image: bytes)
    requires HasHeaders(image)
    ensures HasFixedHeader(image) && HasSignature(image) && HasDosHeader(image)
  {
    hide Le;
  }

  lemma SectionsOrdered(image: bytes, w: Written, ss: seq<Section>)
    requires HasHeaders(image) && |Sections(image)| == |w.sections|
    requires forall i :: 0 <= i < |w.sections| ==>
                           Sections(image)[i] == Section(w.sections[i].pointerToRawData, w.sections[i].sizeOfRawData)
    requires (forall i, j :: 0 <= i < j < |ss| ==> ss[i].pointer <= ss[j].pointer)
    requires forall p :: AtPointer(ss, p) == AtPointer(Listed(w.sections), p)
    ensures ss == Sorted(Sections(image))
  {
    hide AtPointer, Sorted, HasHeaders;
    assert Sections(image) == Listed(w.sections);
    forall p ensures AtPointer(ss, p) == AtPointer(Sorted(Sections(image)), p) {
      SortedHolds(Sections(image), p);
    }
    SortedHolds(Sections(image), 0);
    StableSortUnique(ss, Sorted(Sections(image)));
  }
}
