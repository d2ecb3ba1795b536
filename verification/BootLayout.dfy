/** The boot images as blobs: their sizes, their addresses and the granules they are measured in. */
module BootLayout {
  import opened Bytes
  import opened BlobList
  import G = GenRimRef

  const TWO_64: nat := 0x1_0000_0000_0000_0000
  const L2_GRANULE: nat := 0x20_0000
  const GIB: nat := 0x4000_0000
  const KERNEL_START: nat := G.LOADER_START_ADDR + 0x20_0000
  const INITRD_START: nat := G.LOADER_START_ADDR + 0x800_0000
  const UEFI_LOAD_SIZE: nat := 0x800_0000

  // ----- round_up

  function Or(a: nat, b: nat): nat {
    if a == 0 && b == 0 then 0
    else (if a % 2 == 1 || b % 2 == 1 then 1 else 0) + 2 * Or(a / 2, b / 2)
  }

  /** The macro in 64-bit unsigned arithmetic: subtract one, set the mask, add one. */
  function RoundUp(x: nat, y: nat): nat
    requires y > 0
  {
    Wrap(Or(Wrap(x - 1), y - 1) + 1)
  }

  /** Unsigned 64-bit wrap-around. */
  function Wrap(x: int): nat {
    x % TWO_64
  }

  lemma WrapCases(x: int)
    ensures 0 <= x < TWO_64 ==> Wrap(x) == x
    ensures x == -1 ==> Wrap(x) == TWO_64 - 1
    ensures x == TWO_64 ==> Wrap(x) == 0
  {
  }

  lemma {:induction false} OrZero(x: nat)
    ensures Or(x, 0) == x
  {
    if x > 0 {
      OrZero(x / 2);
    }
  }

  /** Setting the k low bits. */
  lemma {:induction false} OrMask(x: nat, k: nat)
    ensures Or(x, Pow2(k) - 1) == x - x % Pow2(k) + Pow2(k) - 1
  {
    if k == 0 {
      OrZero(x);
    } else {
      var p := Pow2(k - 1);
      assert Pow2(k) == 2 * p;
      OrMask(x / 2, k - 1);
      hide Or, Pow2;
      OrOdd(x, p - 1);
      MaskOfHalf(x, p);
    }
  }

  lemma MaskOfHalf(x: nat, p: nat)
    requires p > 0
    ensures 1 + 2 * (x / 2 - x / 2 % p + p - 1) == x - x % (2 * p) + 2 * p - 1
  {
    HalfMod(x, p);
    var m := x / 2 % p;
    assert x == 2 * (x / 2) + x % 2;
  }

  lemma OrOdd(x: nat, m: nat)
    ensures Or(x, 2 * m + 1) == 1 + 2 * Or(x / 2, m)
  {
    assert (2 * m + 1) / 2 == m;
  }

  lemma HalfMod(x: nat, m: nat)
    requires m > 0
    ensures x % (2 * m) == x % 2 + 2 * (x / 2 % m)
  {
    var q, r := x / 2 / m, x / 2 % m;
    assert x / 2 == m * q + r;
    assert (2 * m) * q == 2 * (m * q);
    DivModUnique(x, 2 * m, q, 2 * r + x % 2);
  }

  predicate Divides(y: nat, p: nat)
    requires y > 0
  {
    p % y == 0
  }

  /** The multiple of y at or below t, and the next. */
  lemma Floor(t: nat, y: nat) returns (p: nat)
    requires y > 0
    ensures p == t - t % y && p <= t < p + y && Divides(y, p) && Divides(y, p + y)
  {
    var q := t / y;
    p := y * q;
    assert t == p + t % y;
    DivModUnique(p, y, q, 0);
    assert y * (q + 1) == p + y;
    DivModUnique(p + y, y, q + 1, 0);
  }

  /** Setting the low bits and adding one moves to the next multiple. */
  lemma MaskPlusOne(t: nat, k: nat, y: nat) returns (p: nat)
    requires y == Pow2(k)
    ensures p <= t < p + y && Divides(y, p + y) && Or(t, y - 1) + 1 == p + y
  {
    hide Or, Pow2, Divides;
    OrMask(t, k);
    p := Floor(t, y);
  }

  /** Two multiples of y less than y apart are the same. */
  lemma SameMultiple(p: nat, r: nat, y: nat)
    requires y > 0 && Divides(y, p) && Divides(y, r) && p < r + y && r < p + y
    ensures p == r
  {
    var q, w := p / y, r / y;
    assert p == y * q && r == y * w;
    assert y * (q - w) == p - r;
    MultipleOutside(y, q - w);
  }

  /** For every power of two the macro gives the least multiple that is at least x, unless x is 0 or
      that multiple does not fit 64 bits; then it gives 0. */
  lemma RoundUpIsLeastMultiple(x: nat, k: nat, y: nat)
    requires x < TWO_64 && y == Pow2(k) && y <= TWO_64 && Divides(y, TWO_64)
    ensures Divides(y, RoundUp(x, y))
    ensures 0 < x <= TWO_64 - y ==> x <= RoundUp(x, y) < x + y
    ensures !(0 < x <= TWO_64 - y) ==> RoundUp(x, y) == 0
  {
    assert Divides(y, 0);
    hide Or, Pow2, Divides, Wrap;
    WrapCases(x - 1);
    var p := MaskPlusOne(Wrap(x - 1), k, y);
    WrapCases(p + y);
    if x == 0 || x > TWO_64 - y {
      SameMultiple(p + y, TWO_64, y);
    }
  }

  lemma PowersUsed()
    ensures Pow2(12) == G.L3_GRANULE && Pow2(21) == L2_GRANULE
  {
    assert Pow2(10) == 0x400;
    assert Pow2(20) == 0x10_0000;
  }

  // ----- load_file_data

  datatype FileType = Kernel | Uefi | Default

  /** What reading a path gives: main leaves optional paths empty. */
  datatype Path = Unset | Unreadable | Readable(file: bytes)

  const ARM64_MAGIC: bytes := [0x41, 0x52, 0x4D, 0x64]

  predicate IsArm64Image(file: bytes) {
    |file| > 60 && file[56..60] == ARM64_MAGIC
  }

  /** The image_size field of the arm64 kernel header. */
  function ImageSize(file: bytes): nat
    requires IsArm64Image(file)
  {
    FromLittleEndian(file[16..24])
  }

  /** The size of the buffer, 0 when the file is not acceptable. */
  function BufferSize(file: bytes, kind: FileType): nat {
    match kind
    case Kernel => if IsArm64Image(file) then RoundUp(ImageSize(file), G.L3_GRANULE) else 0
    case Uefi => if |file| > UEFI_LOAD_SIZE then 0 else UEFI_LOAD_SIZE
    case Default => RoundUp(Wrap(|file| + 1), L2_GRANULE)
  }

  predicate Accepted(path: Path, kind: FileType): (r: bool)
    ensures r ==> path.Readable?
  {
    path.Readable? && 0 < BufferSize(path.file, kind) <= GIB
  }

  /** What a zeroed buffer holds after copying a file to it: the file and zeros behind it, or as much
      of the file as there is room for. */
  function Padded(file: bytes, size: nat): (r: bytes)
    ensures |r| == size
  {
    if |file| <= size then file + Zeros(size - |file|) else file[..size]
  }

  /** The copy goes on behind the end of the buffer. */
  predicate Overruns(path: Path, kind: FileType) {
    Accepted(path, kind) && |path.file| > BufferSize(path.file, kind)
  }

  lemma {:induction false} FromLittleEndianBound(s: bytes)
    ensures FromLittleEndian(s) < Pow256(|s|)
  {
    if s != [] {
      FromLittleEndianBound(s[1..]);
    }
  }

  lemma ImageSizeBound(file: bytes)
    requires IsArm64Image(file)
    ensures ImageSize(file) < TWO_64
  {
    FromLittleEndianBound(file[16..24]);
    Pow256Eight();
  }

  /** Device trees and initial ramdisks get a zero byte at least, and whole 2 MiB blocks. */
  lemma DefaultSize(file: bytes)
    requires |file| < TWO_64 && Accepted(Readable(file), Default)
    ensures |file| < BufferSize(file, Default) <= |file| + L2_GRANULE && Divides(L2_GRANULE, BufferSize(file, Default))
    ensures Divides(G.L3_GRANULE, BufferSize(file, Default))
  {
    PowersUsed();
    assert Divides(L2_GRANULE, TWO_64);
    var size := BufferSize(file, Default);
    WrapCases(|file| + 1);
    assert size == RoundUp(Wrap(|file| + 1), L2_GRANULE);
    BlocksArePages(size);
    hide RoundUp, Wrap, Pow2, Divides;
    RoundUpIsLeastMultiple(Wrap(|file| + 1), 21, L2_GRANULE);
  }

  lemma BlocksArePages(size: nat)
    ensures Divides(L2_GRANULE, size) ==> Divides(G.L3_GRANULE, size)
  {
  }

  /** Kernels get the size their header states, in whole pages. */
  lemma KernelSize(file: bytes)
    requires Accepted(Readable(file), Kernel)
    ensures IsArm64Image(file) && Divides(G.L3_GRANULE, BufferSize(file, Kernel))
    ensures ImageSize(file) <= BufferSize(file, Kernel) < ImageSize(file) + G.L3_GRANULE
  {
    PowersUsed();
    ImageSizeBound(file);
    assert Divides(G.L3_GRANULE, TWO_64);
    assert BufferSize(file, Kernel) == RoundUp(ImageSize(file), G.L3_GRANULE);
    hide RoundUp, Pow2, Divides, ImageSize;
    RoundUpIsLeastMultiple(ImageSize(file), 12, G.L3_GRANULE);
  }

  predicate Sized(path: Path) {
    path.Readable? ==> |path.file| < TWO_64
  }

  /** The file of a kernel is longer than the size its header states, in whole pages, and that size is one
      that is accepted. */
  predicate LongerThanStated(file: bytes) {
    IsArm64Image(file) && 0 < ImageSize(file) <= GIB && |file| > PagesNeeded(ImageSize(file))
  }

  function PagesNeeded(n: nat): nat {
    (n + G.L3_GRANULE - 1) / G.L3_GRANULE * G.L3_GRANULE
  }

  lemma PagesFor(n: nat, r: nat)
    requires Divides(G.L3_GRANULE, r) && n <= r < n + G.L3_GRANULE
    ensures r == PagesNeeded(n)
  {
  }

  /** The copy leaves the buffer exactly for kernels whose files are longer than their headers state. */
  lemma OnlyKernelsOverrun(path: Path, kind: FileType)
    requires Sized(path)
    ensures Overruns(path, kind) <==> kind == Kernel && path.Readable? && LongerThanStated(path.file)
  {
    if kind == Default && Accepted(path, kind) {
      DefaultSize(path.file);
    } else if kind == Kernel && path.Readable? && IsArm64Image(path.file) {
      KernelOverruns(path.file);
    }
  }

  lemma KernelOverruns(file: bytes)
    requires IsArm64Image(file)
    ensures Overruns(Readable(file), Kernel) <==> LongerThanStated(file)
  {
    ImageSizeBound(file);
    hide RoundUp, FromLittleEndian, PagesNeeded;
    PagesOverrun(ImageSize(file), |file|);
    assert BufferSize(file, Kernel) == RoundUp(ImageSize(file), G.L3_GRANULE);
  }

  lemma PagesOverrun(n: nat, length: nat)
    requires n < TWO_64
    ensures (0 < RoundUp(n, G.L3_GRANULE) <= GIB && length > RoundUp(n, G.L3_GRANULE))
       <==> (0 < n <= GIB && length > PagesNeeded(n))
  {
    PagesAccepted(n);
    if 0 < n <= GIB {
      PowersUsed();
      hide RoundUp, Pow2;
      assert Divides(G.L3_GRANULE, TWO_64);
      RoundUpIsLeastMultiple(n, 12, G.L3_GRANULE);
      PagesFor(n, RoundUp(n, G.L3_GRANULE));
    }
  }

  /** A file of any length above one page is such a kernel, if its header says so. */
  lemma OverrunningKernel(file: bytes)
    requires |file| > G.L3_GRANULE && file[16..24] == LittleEndian(1, 8) && file[56..60] == ARM64_MAGIC
    ensures Overruns(Readable(file), Kernel)
  {
    LittleEndianExact(1, 8);
    Pow256Eight();
    KernelOverruns(file);
  }

  /** load_file_data: what the buffer holds after the copy, and whether the copy went on behind it. What
      it overwrote there is not part of this model. */
  method LoadFileData(path: Path, kind: FileType) returns (r: Option<bytes>, overrun: bool)
    requires Sized(path)
    ensures r == if Accepted(path, kind) then Some(Padded(path.file, BufferSize(path.file, kind))) else None
    ensures overrun <==> kind == Kernel && path.Readable? && LongerThanStated(path.file)
  {
    OnlyKernelsOverrun(path, kind);
    hide LongerThanStated;
    overrun := false;
    if !path.Readable? {
      return None, overrun;
    }
    var file := path.file;
    var size := 0;
    match kind {
      case Kernel =>
        if |file| > 60 && file[56..60] == ARM64_MAGIC {
          size := RoundUp(FromLittleEndian(file[16..24]), G.L3_GRANULE);
        }
      case Uefi =>
        if |file| > UEFI_LOAD_SIZE {
          return None, overrun;
        }
        size := UEFI_LOAD_SIZE;
      case Default =>
        size := RoundUp(Wrap(|file| + 1), L2_GRANULE);
    }
    if size == 0 || size > GIB {
      return None, overrun;
    }
    var data := new byte[size](_ => 0);
    overrun := |file| > size;
    forall i | 0 <= i < |file| && i < size {
      data[i] := file[i];
    }
    assert data[..] == Padded(file, size);
    return Some(data[..]), overrun;
  }

  // ----- get_bootloader_aarch64

  function Words(ws: seq<nat>): (r: bytes)
    ensures |r| == 4 * |ws|
  {
    if ws == [] then [] else LittleEndian(ws[0], 4) + Words(ws[1..])
  }

  /** Six instructions and the two addresses they load; each address is split in 32-bit halves. */
  function LoaderWords(kernelStart: nat, dtbStart: nat): seq<nat> {
    [0x580000c0, 0xaa1f03e1, 0xaa1f03e2, 0xaa1f03e3, 0x58000084, 0xd61f0080,
     dtbStart, dtbStart / 0x1_0000_0000, kernelStart, kernelStart / 0x1_0000_0000]
  }

  function Loader(kernelStart: nat, dtbStart: nat): (r: bytes)
    ensures |r| == L2_GRANULE
  {
    Padded(Words(LoaderWords(kernelStart, dtbStart)), L2_GRANULE)
  }

  lemma {:induction false} WordsAt(ws: seq<nat>, i: nat)
    requires i < |ws|
    ensures Words(ws)[4 * i..4 * i + 4] == LittleEndian(ws[i], 4)
  {
    if i > 0 {
      WordsAt(ws[1..], i - 1);
      assert Words(ws)[4 * i..4 * i + 4] == Words(ws[1..])[4 * (i - 1)..4 * (i - 1) + 4];
    }
  }

  /** n without its low bytes. */
  function Shifted(n: nat, a: nat): nat {
    if a == 0 then n else Shifted(n / 256, a - 1)
  }

  lemma {:induction false} LittleEndianSplit(n: nat, a: nat, b: nat)
    ensures LittleEndian(n, a + b) == LittleEndian(n, a) + LittleEndian(Shifted(n, a), b)
  {
    if a > 0 {
      LittleEndianSplit(n / 256, a - 1, b);
    }
  }

  lemma ShiftedWord(n: nat)
    ensures Shifted(n, 4) == n / 0x1_0000_0000
  {
    assert Shifted(n, 4) == Shifted(n / 256, 3) == Shifted(n / 256 / 256, 2) == Shifted(n / 256 / 256 / 256, 1);
    assert Shifted(n / 256 / 256 / 256, 1) == n / 256 / 256 / 256 / 256;
  }

  /** An address stored as two words. */
  lemma Halves(n: nat)
    requires n < TWO_64
    ensures FromLittleEndian(LittleEndian(n, 4) + LittleEndian(n / 0x1_0000_0000, 4)) == n
  {
    LittleEndianSplit(n, 4, 4);
    ShiftedWord(n);
    LittleEndianValue(n, 8);
    Pow256Eight();
  }

  /** The loads of the first and the fifth instruction, 24 and 16 bytes ahead of themselves, read the
      addresses of the device tree and of the kernel. */
  lemma LoaderAddresses(kernelStart: nat, dtbStart: nat)
    requires kernelStart < TWO_64 && dtbStart < TWO_64
    ensures FromLittleEndian(Loader(kernelStart, dtbStart)[24..32]) == dtbStart
    ensures FromLittleEndian(Loader(kernelStart, dtbStart)[32..40]) == kernelStart
  {
    var ws := LoaderWords(kernelStart, dtbStart);
    var all := Loader(kernelStart, dtbStart);
    hide Words, LittleEndian, FromLittleEndian;
    WordsAt(ws, 6);
    WordsAt(ws, 7);
    WordsAt(ws, 8);
    WordsAt(ws, 9);
    assert all[24..32] == Words(ws)[24..28] + Words(ws)[28..32];
    assert all[32..40] == Words(ws)[32..36] + Words(ws)[36..40];
    Halves(dtbStart);
    Halves(kernelStart);
  }

  // ----- build_kernel_blobs

  predicate KernelBootAccepted(kernel: Path, initrd: Path, dtb: Path) {
    Accepted(kernel, Kernel) && (initrd.Unset? || Accepted(initrd, Default)) && Accepted(dtb, Default)
  }

  function Image(path: Path, kind: FileType): (r: bytes)
    requires Accepted(path, kind)
    ensures |r| == BufferSize(path.file, kind) > 0
  {
    Padded(path.file, BufferSize(path.file, kind))
  }

  /** The device tree follows the initial ramdisk, or takes its place. */
  function DtbStart(initrd: Path): nat {
    if initrd.Readable? then INITRD_START + BufferSize(initrd.file, Default) else INITRD_START
  }

  function KernelAndInitrd(kernel: Path, initrd: Path): seq<Entry>
    requires Accepted(kernel, Kernel)
    requires initrd.Unset? || Accepted(initrd, Default)
  {
    [Entry(KERNEL_START, Image(kernel, Kernel))]
    + (if initrd.Unset? then [] else [Entry(INITRD_START, Image(initrd, Default))])
  }

  /** What a direct kernel boot measures, in ascending order. */
  function KernelLayout(kernel: Path, initrd: Path, dtb: Path): seq<Entry>
    requires KernelBootAccepted(kernel, initrd, dtb)
  {
    [Entry(G.LOADER_START_ADDR, Loader(KERNEL_START, DtbStart(initrd)))]
    + (KernelAndInitrd(kernel, initrd) + [Entry(DtbStart(initrd), Image(dtb, Default))])
  }

  method LoadDataToBlobs(list: List, path: Path, kind: FileType, start: nat) returns (r: Blob?, overrun: bool)
    requires list.Valid() && Sized(path)
    modifies list, list.blobs
    ensures list.Valid()
    ensures r != null <==> Accepted(path, kind) && !Taken(old(list.Entries()), start)
    ensures r == null ==> list.blobs == old(list.blobs)
    ensures r != null ==> r.data == Image(path, kind)
    ensures r != null ==> list.Entries() == Insert(old(list.Entries()), Entry(start, Image(path, kind)))
    ensures forall b :: b in list.blobs ==> b in old(list.blobs) || fresh(b)
    ensures overrun <==> kind == Kernel && path.Readable? && LongerThanStated(path.file)
  {
    hide Accepted, Insert, BufferSize, LongerThanStated;
    var image;
    image, overrun := LoadFileData(path, kind);
    if image == None {
      return null, overrun;
    }
    ghost var k, before := 0, list.blobs;
    r, k := list.AddRimBlob(start, image.value);
    if r != null {
      forall b | b in list.blobs ensures b in before || fresh(b) {
        SplicedElements(before, k, r, b);
      }
    }
  }

  /** The first half of build_kernel_blobs: the kernel and, when one is given, the initial ramdisk. */
  method LoadKernelAndInitrd(list: List, kernel: Path, initrd: Path) returns (ok: bool, dtbStart: nat, overrun: bool)
    requires list.Valid() && list.blobs == []
    requires Sized(kernel) && Sized(initrd)
    modifies list
    ensures list.Valid() && forall b :: b in list.blobs ==> fresh(b)
    ensures ok <==> Accepted(kernel, Kernel) && (initrd.Unset? || Accepted(initrd, Default))
    ensures ok ==> dtbStart == DtbStart(initrd) && list.Entries() == KernelAndInitrd(kernel, initrd)
    ensures overrun <==> kernel.Readable? && LongerThanStated(kernel.file)
  {
    hide LongerThanStated, BufferSize, Accepted, Insert, Taken, Sized, EntriesOf, Image;
    ghost var es: seq<Entry> := [];
    NotAbove(es, KERNEL_START);
    dtbStart := INITRD_START;
    var blob;
    blob, overrun := LoadDataToBlobs(list, kernel, Kernel, KERNEL_START);
    if blob == null {
      return false, dtbStart, overrun;
    }
    InsertLast(es, Entry(KERNEL_START, Image(kernel, Kernel)));
    es := [Entry(KERNEL_START, Image(kernel, Kernel))];
    assert list.Entries() == es && fresh(set b | b in list.blobs);
    if !initrd.Unset? {
      NotAbove(es, INITRD_START);
      var never;
      blob, never := LoadDataToBlobs(list, initrd, Default, INITRD_START);
      if blob == null {
        return false, dtbStart, overrun;
      }
      InsertLast(es, Entry(INITRD_START, Image(initrd, Default)));
      dtbStart := dtbStart + |blob.data|;
    }
    ok := true;
  }

  /** build_kernel_blobs on the list main has just initialised. */
  method BuildKernelBlobs(list: List, kernel: Path, initrd: Path, dtb: Path) returns (ok: bool, overrun: bool)
    requires list.Valid() && list.blobs == []
    requires Sized(kernel) && Sized(initrd) && Sized(dtb)
    modifies list
    ensures list.Valid()
    ensures overrun <==> kernel.Readable? && LongerThanStated(kernel.file)
    ensures ok <==> KernelBootAccepted(kernel, initrd, dtb)
    ensures list.Entries() == if ok then KernelLayout(kernel, initrd, dtb) else []
  {
    var dtbStart;
    ok, dtbStart, overrun := LoadKernelAndInitrd(list, kernel, initrd);
    if !ok {
      list.Free();
      return;
    }
    ghost var es := KernelAndInitrd(kernel, initrd);
    StartsBelow(kernel, initrd);
    hide LongerThanStated, Loader, BufferSize, Accepted, Insert, Padded, Taken, Sized, EntriesOf, Image, KernelLayout, KernelAndInitrd;
    assert fresh(set b | b in list.blobs);
    var blob, never := LoadDataToBlobs(list, dtb, Default, dtbStart);
    if blob == null {
      list.Free();
      return false, overrun;
    }
    var d, l := Entry(dtbStart, Image(dtb, Default)), Entry(G.LOADER_START_ADDR, Loader(KERNEL_START, dtbStart));
    InsertLast(es, d);
    InsertFirst(es + [d], l);
    ghost var k;
    blob, k := list.AddRimBlob(G.LOADER_START_ADDR, l.data);
    KernelLayoutUnfolded(kernel, initrd, dtb);
  }

  lemma StartsBelow(kernel: Path, initrd: Path)
    requires Accepted(kernel, Kernel)
    requires initrd.Unset? || Accepted(initrd, Default)
    ensures KernelAndInitrd(kernel, initrd) != [] && KernelAndInitrd(kernel, initrd)[0].start == KERNEL_START
    ensures forall i :: 0 <= i < |KernelAndInitrd(kernel, initrd)| ==>
                          KernelAndInitrd(kernel, initrd)[i].start < DtbStart(initrd)
    ensures !Taken(KernelAndInitrd(kernel, initrd), DtbStart(initrd))
  {
  }

  lemma KernelLayoutUnfolded(kernel: Path, initrd: Path, dtb: Path)
    requires KernelBootAccepted(kernel, initrd, dtb)
    ensures KernelLayout(kernel, initrd, dtb)
         == [Entry(G.LOADER_START_ADDR, Loader(KERNEL_START, DtbStart(initrd)))]
            + (KernelAndInitrd(kernel, initrd) + [Entry(DtbStart(initrd), Image(dtb, Default))])
  {
  }

  lemma NotAbove(es: seq<Entry>, start: nat)
    requires forall i :: 0 <= i < |es| ==> es[i].start < start
    ensures !Taken(es, start)
  {
  }

  lemma InsertFirst(es: seq<Entry>, e: Entry)
    requires es != [] && e.start < es[0].start
    ensures Insert(es, e) == [e] + es
  {
  }

  // ----- each granule is measured once

  const MIB: nat := 0x10_0000

  /** The granules are at ascending addresses and do not overlap. */
  predicate Separate(steps: seq<G.Step>) {
    && (forall i :: 0 <= i < |steps| ==> steps[i].Data?)
    && (forall i, j :: 0 <= i < j < |steps| ==> steps[i].ipa + G.L3_GRANULE <= steps[j].ipa)
  }

  predicate Apart(es: seq<Entry>) {
    forall i, j :: 0 <= i < j < |es| ==> es[i].start + |es[i].data| <= es[j].start
  }

  predicate Paged(e: Entry) {
    |e.data| > 0 && Divides(G.L3_GRANULE, |e.data|) && e.start + |e.data| <= TWO_64
  }

  lemma GranuleAddress(e: Entry, i: nat)
    requires Paged(e) && i < |e.data| / G.L3_GRANULE
    ensures G.Granule(e, i).ipa == e.start + i * G.L3_GRANULE
    ensures e.start <= G.Granule(e, i).ipa && G.Granule(e, i).ipa + G.L3_GRANULE <= e.start + |e.data|
  {
    Pow256Eight();
  }

  /** Every granule lies inside one of the blobs. */
  lemma {:induction false} GranuleInside(es: seq<Entry>, s: G.Step) returns (k: nat)
    requires (forall e :: e in es ==> Paged(e)) && s in G.Granules(es)
    ensures k < |es| && s.Data? && es[k].start <= s.ipa && s.ipa + G.L3_GRANULE <= es[k].start + |es[k].data|
  {
    hide G.Granule, Paged;
    var head := G.GranulesFrom(es[0], 0);
    if s in head {
      var i :| 0 <= i < |head| && head[i] == s;
      GranuleAddress(es[0], i);
      k := 0;
    } else {
      k := GranuleInside(es[1..], s);
      k := k + 1;
    }
  }

  /** The first granule of every blob is measured. */
  lemma {:induction false} FirstGranule(es: seq<Entry>, k: nat)
    requires (forall e :: e in es ==> Paged(e)) && k < |es|
    ensures 0 < |es[k].data| / G.L3_GRANULE && G.Granule(es[k], 0) in G.Granules(es)
  {
    assert Paged(es[k]);
    hide G.Granule, Paged;
    if k == 0 {
      assert G.GranulesFrom(es[0], 0)[0] == G.Granule(es[0], 0);
    } else {
      FirstGranule(es[1..], k - 1);
    }
  }

  lemma SeparateSplit(a: seq<G.Step>, b: seq<G.Step>)
    ensures Separate(a + b) <==>
              Separate(a) && Separate(b) && forall x, y :: x in a && y in b ==> x.ipa + G.L3_GRANULE <= y.ipa
  {
    var c := a + b;
    assert forall i :: 0 <= i < |a| ==> c[i] == a[i];
    assert forall i :: 0 <= i < |b| ==> c[|a| + i] == b[i];
  }

  lemma BlobSeparate(e: Entry)
    requires Paged(e)
    ensures Separate(G.GranulesFrom(e, 0))
  {
    var r := G.GranulesFrom(e, 0);
    forall i | 0 <= i < |r| ensures r[i].Data? && r[i].ipa == e.start + i * G.L3_GRANULE {
      GranuleAddress(e, i);
    }
  }

  lemma {:induction false} SeparateIffApart(es: seq<Entry>)
    requires (forall e :: e in es ==> Paged(e)) && Ascending(es)
    ensures Separate(G.Granules(es)) <==> Apart(es)
  {
    if es != [] {
      var head, rest := G.GranulesFrom(es[0], 0), G.Granules(es[1..]);
      assert forall e :: e in es[1..] ==> e in es;
      assert es[0] in es;
      SeparateIffApart(es[1..]);
      BlobSeparate(es[0]);
      SeparateSplit(head, rest);
      if Apart(es) {
        ApartTail(es);
        HeadBelow(es);
      } else if Separate(G.Granules(es)) {
        BlobsApart(es);
      }
    }
  }

  lemma ApartTail(es: seq<Entry>)
    requires es != []
    ensures Apart(es) <==> Apart(es[1..]) && forall j :: 1 <= j < |es| ==> es[0].start + |es[0].data| <= es[j].start
  {
    if Apart(es[1..]) && forall j :: 1 <= j < |es| ==> es[0].start + |es[0].data| <= es[j].start {
      forall i, j | 0 <= i < j < |es| ensures es[i].start + |es[i].data| <= es[j].start {
        if i > 0 {
          assert es[i] == es[1..][i - 1] && es[j] == es[1..][j - 1];
        }
      }
    }
  }

  lemma HeadBelow(es: seq<Entry>)
    requires es != [] && (forall e :: e in es ==> Paged(e)) && Apart(es)
    ensures forall x, y :: x in G.GranulesFrom(es[0], 0) && y in G.Granules(es[1..]) ==> x.ipa + G.L3_GRANULE <= y.ipa
  {
    var head := G.GranulesFrom(es[0], 0);
    forall x, y | x in head && y in G.Granules(es[1..]) ensures x.ipa + G.L3_GRANULE <= y.ipa {
      var i :| 0 <= i < |head| && head[i] == x;
      GranuleAddress(es[0], i);
      var k := GranuleInside(es[1..], y);
      assert es[1..][k] == es[k + 1];
    }
  }

  lemma BlobsApart(es: seq<Entry>)
    requires es != [] && (forall e :: e in es ==> Paged(e))
    requires forall x, y :: x in G.GranulesFrom(es[0], 0) && y in G.Granules(es[1..]) ==> x.ipa + G.L3_GRANULE <= y.ipa
    requires Apart(es[1..])
    ensures Apart(es)
  {
    assert Paged(es[0]);
    var n := |es[0].data| / G.L3_GRANULE;
    var head := G.GranulesFrom(es[0], 0);
    forall j | 1 <= j < |es| ensures es[0].start + |es[0].data| <= es[j].start {
      FirstGranule(es[1..], j - 1);
      GranuleAddress(es[j], 0);
      GranuleAddress(es[0], n - 1);
      assert head[n - 1] in head;
    }
    ApartTail(es);
  }

  /** The blobs touch each other except where the kernel meets the address of the initial ramdisk. */
  lemma OnlyTheKernelCanOverlap(es: seq<Entry>)
    requires 3 <= |es| <= 4 && forall e :: e in es ==> |e.data| > 0
    requires es[0].start + |es[0].data| == es[1].start == KERNEL_START && es[2].start == INITRD_START
    requires |es| == 4 ==> es[2].start + |es[2].data| == es[3].start
    ensures Ascending(es) && (Apart(es) <==> |es[1].data| <= 126 * MIB)
  {
  }

  /** A direct kernel boot measures every granule once, at ascending addresses, exactly when the kernel
      fits the 126 MiB below the initial ramdisk; otherwise two measured granules share addresses. */
  lemma KernelLayoutSeparate(kernel: Path, initrd: Path, dtb: Path)
    requires KernelBootAccepted(kernel, initrd, dtb)
    requires Sized(kernel) && Sized(initrd) && Sized(dtb)
    ensures Ascending(KernelLayout(kernel, initrd, dtb))
    ensures Separate(G.Granules(KernelLayout(kernel, initrd, dtb))) <==> BufferSize(kernel.file, Kernel) <= 126 * MIB
  {
    KernelSize(kernel.file);
    DefaultSize(dtb.file);
    if initrd.Readable? {
      DefaultSize(initrd.file);
    }
    BlocksArePages(L2_GRANULE);
    assert Divides(L2_GRANULE, L2_GRANULE);
    hide BufferSize, Loader, G.Granules, Separate, Image, Divides, Apart, Ascending;
    var es := KernelLayout(kernel, initrd, dtb);
    OnlyTheKernelCanOverlap(es);
    assert forall e :: e in es ==> Paged(e);
    hide Paged;
    SeparateIffApart(es);
  }

  // ----- sizes, contents and addresses in numbers

  /** A buffer holds the file, cut off at its end, and zeros behind it. */
  lemma BufferHolds(path: Path, kind: FileType, j: nat)
    requires Accepted(path, kind) && j < |Image(path, kind)|
    ensures Image(path, kind)[j] == if j < |path.file| then path.file[j] else 0
  {
  }

  /** A kernel is accepted that has the arm64 magic at offset 56 and states a size from 1 to 1 GiB at offset 16. */
  lemma KernelsAccepted(file: bytes)
    requires |file| < TWO_64
    ensures Accepted(Readable(file), Kernel)
       <==> && |file| > 60 && file[56..60] == Ascii("ARMd")
            && 0 < FromLittleEndian(file[16..24]) <= 0x4000_0000
  {
    assert ARM64_MAGIC == Ascii("ARMd");
    if IsArm64Image(file) {
      ImageSizeBound(file);
      hide RoundUp, FromLittleEndian, Ascii;
      PagesAccepted(ImageSize(file));
    }
  }

  lemma PagesAccepted(n: nat)
    requires n < TWO_64
    ensures 0 < RoundUp(n, G.L3_GRANULE) <= GIB <==> 0 < n <= GIB
  {
    PowersUsed();
    hide RoundUp, Pow2;
    assert Divides(G.L3_GRANULE, TWO_64) && Divides(G.L3_GRANULE, GIB);
    RoundUpIsLeastMultiple(n, 12, G.L3_GRANULE);
  }

  /** A device tree or ramdisk is accepted that is smaller than 1 GiB, a firmware image of at most 128 MiB, which gets a
      buffer of that size. */
  lemma OthersAccepted(file: bytes)
    requires |file| < TWO_64
    ensures Accepted(Readable(file), Default) <==> |file| < 0x4000_0000
    ensures Accepted(Readable(file), Uefi) <==> |file| <= 0x800_0000
    ensures Accepted(Readable(file), Uefi) ==> BufferSize(file, Uefi) == 0x800_0000
  {
    PowersUsed();
    var x := Wrap(|file| + 1);
    WrapCases(|file| + 1);
    hide RoundUp, Pow2, Wrap;
    assert Divides(L2_GRANULE, TWO_64) && Divides(L2_GRANULE, GIB);
    RoundUpIsLeastMultiple(x, 21, L2_GRANULE);
  }

  /** The loader's six instructions, and zeros behind the two addresses. */
  lemma LoaderBytes(kernelStart: nat, dtbStart: nat)
    ensures Loader(kernelStart, dtbStart)[..24]
         == [0xC0, 0x00, 0x00, 0x58, 0xE1, 0x03, 0x1F, 0xAA, 0xE2, 0x03, 0x1F, 0xAA,
             0xE3, 0x03, 0x1F, 0xAA, 0x84, 0x00, 0x00, 0x58, 0x80, 0x00, 0x1F, 0xD6]
    ensures Loader(kernelStart, dtbStart)[40..] == Zeros(0x1F_FFD8)
  {
    var ws := LoaderWords(kernelStart, dtbStart);
    InstructionBytes();
    hide LittleEndian;
    assert |Words(ws)| == 40 by { hide Words; }
    hide Words;
    WordsAt(ws, 0);
    WordsAt(ws, 1);
    WordsAt(ws, 2);
    WordsAt(ws, 3);
    WordsAt(ws, 4);
    WordsAt(ws, 5);
    var all := Loader(kernelStart, dtbStart);
    assert all[..24] == Words(ws)[0..4] + Words(ws)[4..8] + Words(ws)[8..12] + Words(ws)[12..16] + Words(ws)[16..20] + Words(ws)[20..24];
  }

  lemma FourBytes(a: byte, b: byte, c: byte, d: byte)
    ensures LittleEndian(a + 256 * (b + 256 * (c + 256 * d)), 4) == [a, b, c, d]
  {
    assert LittleEndian(d, 1) == [d];
    assert LittleEndian(c + 256 * d, 2) == [c] + LittleEndian(d, 1);
    assert LittleEndian(b + 256 * (c + 256 * d), 3) == [b] + LittleEndian(c + 256 * d, 2);
  }

  lemma InstructionBytes()
    ensures LittleEndian(0x580000c0, 4) == [0xC0, 0x00, 0x00, 0x58] && LittleEndian(0xaa1f03e1, 4) == [0xE1, 0x03, 0x1F, 0xAA]
    ensures LittleEndian(0xaa1f03e2, 4) == [0xE2, 0x03, 0x1F, 0xAA] && LittleEndian(0xaa1f03e3, 4) == [0xE3, 0x03, 0x1F, 0xAA]
    ensures LittleEndian(0x58000084, 4) == [0x84, 0x00, 0x00, 0x58] && LittleEndian(0xd61f0080, 4) == [0x80, 0x00, 0x1F, 0xD6]
  {
    hide LittleEndian;
    FourBytes(0xC0, 0x00, 0x00, 0x58);
    FourBytes(0xE1, 0x03, 0x1F, 0xAA);
    FourBytes(0xE2, 0x03, 0x1F, 0xAA);
    FourBytes(0xE3, 0x03, 0x1F, 0xAA);
    FourBytes(0x84, 0x00, 0x00, 0x58);
    FourBytes(0x80, 0x00, 0x1F, 0xD6);
  }

  /** The loader is at 1 GiB, the kernel 2 MiB behind it, the ramdisk 128 MiB behind it and the device tree behind
      that, or in its place. */
  lemma LayoutAddresses(kernel: Path, initrd: Path, dtb: Path)
    requires KernelBootAccepted(kernel, initrd, dtb)
    ensures var es := KernelLayout(kernel, initrd, dtb);
            var tree := if initrd.Unset? then 0x4800_0000 else 0x4800_0000 + |Image(initrd, Default)|;
            && |es| == (if initrd.Unset? then 3 else 4)
            && es[0] == Entry(0x4000_0000, Loader(0x4020_0000, tree)) && es[1] == Entry(0x4020_0000, Image(kernel, Kernel))
            && (!initrd.Unset? ==> es[2] == Entry(0x4800_0000, Image(initrd, Default)))
            && es[|es| - 1] == Entry(tree, Image(dtb, Default))
  {
    hide BufferSize, Accepted, Loader, Padded;
    if initrd.Unset? {
      assert initrd != Readable([]);
    } else {
      assert initrd.Readable? by { AcceptedReadable(initrd); }
    }
  }

  lemma AcceptedReadable(path: Path)
    requires Accepted(path, Default)
    ensures path.Readable?
  {
  }
}
