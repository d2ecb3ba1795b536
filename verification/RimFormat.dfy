/** What the reference measurement hashes, byte for byte. */
module RimFormat {
  import opened Bytes
  import opened GenRimRef
  import BlobList

  // ----- structures written out

  /** The fields one behind the other, with zeros in the gaps. */
  function Flat(fields: seq<Field>, size: nat): (r: bytes)
    requires Laid(fields, size)
    ensures |r| <= size && (if fields == [] then r == [] else |r| == fields[|fields| - 1].at + |fields[|fields| - 1].value|)
  {
    if fields == [] then []
    else
      var front, f := fields[..|fields| - 1], fields[|fields| - 1];
      Flat(front, size) + Zeros(f.at - |Flat(front, size)|) + f.value
  }

  lemma {:induction false} StructIsFlat(fields: seq<Field>, size: nat)
    requires Laid(fields, size)
    ensures Struct(fields, size) == Flat(fields, size) + Zeros(size - |Flat(fields, size)|)
  {
    if fields != [] {
      var front, f := fields[..|fields| - 1], fields[|fields| - 1];
      StructIsFlat(front, size);
      assert Struct(fields, size) == Patched(Struct(front, size), f.at, f.value);
      assert Flat(fields, size) == Flat(front, size) + Zeros(f.at - |Flat(front, size)|) + f.value;
      hide *;
      PatchedZeros(Flat(front, size), size, f.at, f.value);
    }
  }

  lemma PatchedZeros(x: bytes, size: nat, at: nat, value: bytes)
    requires |x| <= at && at + |value| <= size
    ensures Patched(x + Zeros(size - |x|), at, value) == x + Zeros(at - |x|) + value + Zeros(size - at - |value|)
  {
  }

  lemma FlatSnoc(fields: seq<Field>, k: nat, size: nat, x: bytes, gap: nat)
    requires Laid(fields, size) && k < |fields| && Laid(fields[..k], size)
    requires Flat(fields[..k], size) == x && fields[k].at == |x| + gap
    ensures Laid(fields[..k + 1], size) && Flat(fields[..k + 1], size) == x + Zeros(gap) + fields[k].value
    ensures gap == 0 ==> Flat(fields[..k + 1], size) == x + fields[k].value
  {
    assert fields[..k + 1][..k] == fields[..k];
    assert gap == 0 ==> x + Zeros(gap) == x;
  }

  lemma WrittenOut(fields: seq<Field>, size: nat, x: bytes)
    requires Laid(fields, size) && Laid(fields[..|fields|], size) && Flat(fields[..|fields|], size) == x
    ensures |x| <= size && Struct(fields, size) == x + Zeros(size - |x|)
  {
    assert fields[..|fields|] == fields;
    hide Laid, Struct;
    StructIsFlat(fields, size);
  }

  /** The parameters of a vCPU: eight registers, entry point and flags, eight bytes each. */
  lemma TecParamsAre(pc: nat, flags: nat)
    ensures TecParams(pc, flags) == Zeros(64) + LittleEndian(pc, 8) + LittleEndian(flags, 8)
  {
    var fs := TecParamFields(pc, flags);
    hide Laid, LittleEndian, Struct;
    FlatSnoc(fs, 0, 80, [], 64);
    FlatSnoc(fs, 1, 80, Zeros(64) + LittleEndian(pc, 8), 0);
    WrittenOut(fs, 80, Zeros(64) + LittleEndian(pc, 8) + LittleEndian(flags, 8));
  }

  /** The descriptor of a granule: its type, length, the RIM so far, address, flags and the digest of the content. */
  lemma DataDescriptorIs(rim: Digest, ipa: nat, content: Digest)
    ensures DataDescriptor(rim, ipa, 1, content)
         == [0] + Zeros(7) + LittleEndian(0x100, 8) + rim + Zeros(0x20) + LittleEndian(ipa, 8) + LittleEndian(1, 8) + content
            + Zeros(0x80)
  {
    var fs := DataFields(rim, ipa, 1, content);
    assert |fs| == 6 && fs[0] == Field(0, [0]) && fs[1] == Field(8, LittleEndian(0x100, 8)) && fs[2] == Field(0x10, rim);
    assert fs[3] == Field(0x50, LittleEndian(ipa, 8)) && fs[4] == Field(0x58, LittleEndian(1, 8)) && fs[5] == Field(0x60, content);
    assert Laid(fs[..0], 0x100) && Flat(fs[..0], 0x100) == [];
    hide Laid, LittleEndian, Struct, Flat, DataFields;
    var x1 := [0] + Zeros(7) + LittleEndian(0x100, 8);
    var x2 := x1 + rim;
    var x3 := x2 + Zeros(0x20) + LittleEndian(ipa, 8);
    var x4 := x3 + LittleEndian(1, 8);
    FlatSnoc(fs, 0, 0x100, [], 0);
    FlatSnoc(fs, 1, 0x100, [0], 7);
    FlatSnoc(fs, 2, 0x100, x1, 0);
    FlatSnoc(fs, 3, 0x100, x2, 0x20);
    FlatSnoc(fs, 4, 0x100, x3, 0);
    FlatSnoc(fs, 5, 0x100, x4, 0);
    WrittenOut(fs, 0x100, x4 + content);
  }

  /** The descriptor of a vCPU: its type, length, the RIM so far and the digest of the parameters. */
  lemma TecDescriptorIs(rim: Digest, content: Digest)
    ensures TecDescriptor(rim, content) == [1] + Zeros(7) + LittleEndian(0x100, 8) + rim + Zeros(0x20) + content + Zeros(0x90)
  {
    var fs := TecFields(rim, content);
    assert |fs| == 4 && fs[0] == Field(0, [1]) && fs[1] == Field(8, LittleEndian(0x100, 8)) && fs[2] == Field(0x10, rim);
    assert fs[3] == Field(0x50, content) && Laid(fs[..0], 0x100) && Flat(fs[..0], 0x100) == [];
    hide Laid, LittleEndian, Struct, Flat, TecFields;
    var x1 := [1] + Zeros(7) + LittleEndian(0x100, 8);
    var x2 := x1 + rim;
    FlatSnoc(fs, 0, 0x100, [], 0);
    FlatSnoc(fs, 1, 0x100, [1], 7);
    FlatSnoc(fs, 2, 0x100, x1, 0);
    FlatSnoc(fs, 3, 0x100, x2, 0x20);
    WrittenOut(fs, 0x100, x2 + Zeros(0x20) + content);
  }

  // ----- the parameters of the CVM

  lemma CvmDescriptorIs(p: CvmParams)
    ensures CvmDescriptor(p)
         == LittleEndian(p.flags, 8) + LittleEndian(p.s2sz, 4) + Zeros(4) + LittleEndian(p.sveVl, 4) + Zeros(4)
            + LittleEndian(p.numBps, 4) + Zeros(4) + LittleEndian(p.numWps, 4) + Zeros(4) + LittleEndian(p.pmuNumCnts, 4) + Zeros(4)
            + LittleEndian(p.algo, 1) + Zeros(0xFCF)
  {
    var fs := CvmFields(p);
    CvmFieldsAre(p);
    hide *;
    var x1 := LittleEndian(p.flags, 8);
    var x2 := x1 + LittleEndian(p.s2sz, 4);
    var x3 := x2 + Zeros(4) + LittleEndian(p.sveVl, 4);
    var x4 := x3 + Zeros(4) + LittleEndian(p.numBps, 4);
    var x5 := x4 + Zeros(4) + LittleEndian(p.numWps, 4);
    var x6 := x5 + Zeros(4) + LittleEndian(p.pmuNumCnts, 4);
    FlatSnoc(fs, 0, 0x1000, [], 0);
    assert [] + x1 == x1;
    FlatSnoc(fs, 1, 0x1000, x1, 0);
    FlatSnoc(fs, 2, 0x1000, x2, 4);
    FlatSnoc(fs, 3, 0x1000, x3, 4);
    FlatSnoc(fs, 4, 0x1000, x4, 4);
    FlatSnoc(fs, 5, 0x1000, x5, 4);
    FlatSnoc(fs, 6, 0x1000, x6, 4);
    WrittenOut(fs, 0x1000, x6 + Zeros(4) + LittleEndian(p.algo, 1));
    DescriptorIsStruct(p);
  }

  lemma CvmFieldsAre(p: CvmParams)
    ensures var fs := CvmFields(p);
            && |fs| == 7 && Laid(fs, 0x1000) && Laid(fs[..0], 0x1000) && Flat(fs[..0], 0x1000) == []
            && fs[0] == Field(0, LittleEndian(p.flags, 8)) && fs[1] == Field(8, LittleEndian(p.s2sz, 4))
            && fs[2] == Field(0x10, LittleEndian(p.sveVl, 4)) && fs[3] == Field(0x18, LittleEndian(p.numBps, 4))
            && fs[4] == Field(0x20, LittleEndian(p.numWps, 4)) && fs[5] == Field(0x28, LittleEndian(p.pmuNumCnts, 4))
            && fs[6] == Field(0x30, LittleEndian(p.algo, 1))
  {
    hide LittleEndian;
  }

  lemma DescriptorIsStruct(p: CvmParams)
    ensures Laid(CvmFields(p), 0x1000) && CvmDescriptor(p) == Struct(CvmFields(p), 0x1000)
  {
    hide Struct, CvmFields;
  }

  lemma {:induction false} ZeroBytes(k: nat)
    ensures LittleEndian(0, k) == Zeros(k)
  {
    if k > 0 {
      ZeroBytes(k - 1);
    }
  }

  lemma JoinedZeros(x: bytes, y: bytes)
    ensures x + Zeros(4) + Zeros(4) + Zeros(4) + Zeros(4) + Zeros(4) + y + Zeros(4) + Zeros(1) + Zeros(0xFCF)
         == x + Zeros(0x14) + y + Zeros(0xFD4)
  {
    assert Zeros(0x14) == Zeros(4) + Zeros(4) + Zeros(4) + Zeros(4) + Zeros(4);
    assert Zeros(0xFD4) == Zeros(4) + Zeros(1) + Zeros(0xFCF);
  }

  /** The RIM is the last value of the chain over these inputs. The first: bit 1 of the flags for SVE and bit 2 for the PMU, an IPA width of 40, the vector length in
      units of 128 bits and the number of counters; zeros otherwise. */
  lemma CvmHashed(H: Hash, a: Args)
    ensures RimOf(H, a) == Chain(H, CvmDescriptor(ParamsOf(a)), StepsOf(a))
    ensures CvmDescriptor(ParamsOf(a))
         == LittleEndian((if a.sveVectorSize > 0 then 2 else 0) + (if a.pmuCounterNum > 0 then 4 else 0), 8) + LittleEndian(40, 4)
            + Zeros(4) + LittleEndian(a.sveVectorSize / 128, 4) + Zeros(0x14) + LittleEndian(a.pmuCounterNum, 4) + Zeros(0xFD4)
  {
    var flags := (if a.sveVectorSize > 0 then 2 else 0) + (if a.pmuCounterNum > 0 then 4 else 0);
    var p := CvmParams(flags, 40, a.sveVectorSize / 128, 0, 0, a.pmuCounterNum, 0);
    assert ParamsOf(a) == p;
    assert RimOf(H, a) == Chain(H, CvmDescriptor(ParamsOf(a)), StepsOf(a));
    hide *;
    CvmDescriptorIs(p);
    ZeroBytes(4);
    ZeroBytes(1);
    var x := LittleEndian(flags, 8) + LittleEndian(40, 4) + Zeros(4) + LittleEndian(a.sveVectorSize / 128, 4);
    JoinedZeros(x, LittleEndian(a.pmuCounterNum, 4));
  }

  // ----- the steps

  /** Behind the granules, one input for every vCPU, the number of which is taken modulo 2^32: the first has the
      entry point, 1 GiB without firmware, and is marked runnable, every other has zeros throughout. */
  lemma VcpuHashed(a: Args, i: nat)
    requires i < a.tecNum % 0x1_0000_0000
    ensures |StepsOf(a)| == |Granules(a.blobs)| + a.tecNum % 0x1_0000_0000
    ensures StepsOf(a)[|Granules(a.blobs)| + i]
         == Tec(if i > 0 then Zeros(80)
                else Zeros(64) + LittleEndian(if a.useFirmware then 0 else 0x4000_0000, 8) + [1, 0, 0, 0, 0, 0, 0, 0])
  {
    var pc, flags := if i == 0 then EntryPoint(a) else 0, if i == 0 then 1 else 0;
    TecParamsAre(pc, flags);
    if i == 0 {
      assert LittleEndian(1, 8) == [1] + LittleEndian(0, 7);
      ZeroBytes(7);
    } else {
      ZeroBytes(8);
      hide LittleEndian, TecParams;
      assert Zeros(64) + Zeros(8) + Zeros(8) == Zeros(80);
    }
  }

  /** Before them the granules of the blobs, in the order of the list. */
  lemma GranuleHashed(a: Args, k: nat, i: nat)
    requires k < |a.blobs| && 0x1000 * (i + 1) <= |a.blobs[k].data|
    ensures |Granules(a.blobs[..k])| + i < |Granules(a.blobs)| <= |StepsOf(a)|
    ensures StepsOf(a)[|Granules(a.blobs[..k])| + i]
         == Data((a.blobs[k].start + 0x1000 * i) % 0x1_0000_0000_0000_0000, a.blobs[k].data[0x1000 * i..0x1000 * (i + 1)])
    ensures |Granules(a.blobs[..k + 1])| == |Granules(a.blobs[..k])| + |a.blobs[k].data| / 0x1000
  {
    hide Pow256, StepOk, TecSteps, GranulesFrom, Granule, Granules;
    GranuleIs(a.blobs[k], i);
    GranulesSnoc(a.blobs, k);
    GranulesPrefix(a.blobs, k + 1);
    InPrefix(Granules(a.blobs[..k]), GranulesFrom(a.blobs[k], 0), Granules(a.blobs), StepsOf(a), i);
  }

  lemma GranuleIs(e: BlobList.Entry, i: nat)
    requires 0x1000 * (i + 1) <= |e.data|
    ensures i < |e.data| / 0x1000 == |GranulesFrom(e, 0)|
    ensures GranulesFrom(e, 0)[i] == Data((e.start + 0x1000 * i) % 0x1_0000_0000_0000_0000, e.data[0x1000 * i..0x1000 * (i + 1)])
  {
    Pow256Eight();
    hide Pow256;
    assert GranulesFrom(e, 0)[i] == Granule(e, 0 + i);
  }

  lemma InPrefix(front: seq<Step>, next: seq<Step>, all: seq<Step>, longer: seq<Step>, i: nat)
    requires front + next <= all <= longer && i < |next|
    ensures |front| + i < |all| <= |longer| && longer[|front| + i] == next[i]
  {
    assert (front + next)[|front| + i] == next[i];
  }

  lemma {:induction false} GranulesPrefix(es: seq<BlobList.Entry>, k: nat)
    requires k <= |es|
    ensures Granules(es[..k]) <= Granules(es)
    decreases |es| - k
  {
    hide Granule, StepOk;
    if k < |es| {
      GranulesSnoc(es, k);
      GranulesPrefix(es, k + 1);
    } else {
      assert es[..k] == es;
    }
  }

  /** The digest of the first input, and for every further step the digest of its descriptor, which holds the
      value so far and the digest of the step's input. */
  lemma ChainHashed(H: Hash, cvm: bytes, steps: seq<Step>, s: Step)
    ensures Chain(H, cvm, []) == H(cvm)
    ensures s.Data? ==>
              Chain(H, cvm, steps + [s]) == H([0] + Zeros(7) + LittleEndian(0x100, 8) + Chain(H, cvm, steps) + Zeros(0x20)
                                              + LittleEndian(s.ipa, 8) + LittleEndian(1, 8) + H(s.content) + Zeros(0x80))
    ensures s.Tec? ==>
              Chain(H, cvm, steps + [s]) == H([1] + Zeros(7) + LittleEndian(0x100, 8) + Chain(H, cvm, steps) + Zeros(0x20)
                                              + H(s.params) + Zeros(0x90))
  {
    var rim := Chain(H, cvm, steps);
    ChainSnoc(H, cvm, steps, s);
    ChainStart(H, cvm);
    hide Chain, DataDescriptor, TecDescriptor, LittleEndian;
    if s.Data? {
      DataDescriptorIs(rim, s.ipa, H(s.content));
    } else {
      TecDescriptorIs(rim, H(s.params));
    }
  }
}
