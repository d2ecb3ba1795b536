/** The reference value of the Realm Initial Measurement: descriptors hashed into a chain. */
module GenRimRef {
  import opened Bytes
  import BlobList

  const L3_GRANULE := 0x1000
  const LOADER_START_ADDR := 0x4000_0000

  // ----- structures

  /** A value stored at an offset of a zeroed structure. */
  datatype Field = Field(at: nat, value: bytes)

  /** Fields in the order of their offsets, none overlapping the next or the end. */
  predicate Laid(fields: seq<Field>, size: nat) {
    && (forall i :: 0 <= i < |fields| ==> fields[i].at + |fields[i].value| <= size)
    && (forall i, j :: 0 <= i < j < |fields| ==> fields[i].at + |fields[i].value| <= fields[j].at)
  }

  /** The bytes of the structure after storing the fields one by one. */
  function Struct(fields: seq<Field>, size: nat): (r: bytes)
    requires Laid(fields, size)
    ensures |r| == size
  {
    if fields == [] then Zeros(size)
    else
      var front, f := fields[..|fields| - 1], fields[|fields| - 1];
      Patched(Struct(front, size), f.at, f.value)
  }

  /** Every field can be read back. */
  lemma {:induction false} FieldReads(fields: seq<Field>, size: nat, i: nat)
    requires Laid(fields, size) && i < |fields|
    ensures Struct(fields, size)[fields[i].at..fields[i].at + |fields[i].value|] == fields[i].value
  {
    var front := fields[..|fields| - 1];
    if i < |front| {
      assert front[i] == fields[i];
      FieldReads(front, size, i);
    }
  }

  /** Structures with fields in the same places and equal bytes have equal fields. */
  lemma StructInjective(f: seq<Field>, g: seq<Field>, size: nat, i: nat)
    requires Laid(f, size) && Laid(g, size) && Struct(f, size) == Struct(g, size)
    requires i < |f| && i < |g| && f[i].at == g[i].at && |f[i].value| == |g[i].value|
    ensures f[i].value == g[i].value
  {
    FieldReads(f, size, i);
    FieldReads(g, size, i);
  }

  // ----- measurement descriptors

  /** What the descriptor keeps of tmi_cvm_create_params_t; wider fields are truncated when stored. */
  datatype CvmParams = CvmParams(flags: nat, s2sz: nat, sveVl: nat, numBps: nat, numWps: nat, pmuNumCnts: nat, algo: nat)

  function CvmFields(p: CvmParams): (r: seq<Field>)
    ensures Laid(r, 0x1000)
  {
    [Field(0x0, LittleEndian(p.flags, 8)), Field(0x8, LittleEndian(p.s2sz, 4)), Field(0x10, LittleEndian(p.sveVl, 4)),
     Field(0x18, LittleEndian(p.numBps, 4)), Field(0x20, LittleEndian(p.numWps, 4)),
     Field(0x28, LittleEndian(p.pmuNumCnts, 4)), Field(0x30, LittleEndian(p.algo, 1))]
  }

  function CvmDescriptor(p: CvmParams): (r: bytes)
    ensures |r| == 0x1000
  {
    Struct(CvmFields(p), 0x1000)
  }

  const DESC_TYPE_DATA: nat := 0
  const DESC_TYPE_REC: nat := 1

  function DataFields(rim: Digest, ipa: nat, flags: nat, content: Digest): (r: seq<Field>)
    ensures Laid(r, 0x100)
  {
    [Field(0x0, LittleEndian(DESC_TYPE_DATA, 1)), Field(0x8, LittleEndian(0x100, 8)), Field(0x10, rim),
     Field(0x50, LittleEndian(ipa, 8)), Field(0x58, LittleEndian(flags, 8)), Field(0x60, content)]
  }

  function DataDescriptor(rim: Digest, ipa: nat, flags: nat, content: Digest): (r: bytes)
    ensures |r| == 0x100
  {
    Struct(DataFields(rim, ipa, flags, content), 0x100)
  }

  function TecFields(rim: Digest, content: Digest): (r: seq<Field>)
    ensures Laid(r, 0x100)
  {
    [Field(0x0, LittleEndian(DESC_TYPE_REC, 1)), Field(0x8, LittleEndian(0x100, 8)), Field(0x10, rim), Field(0x50, content)]
  }

  function TecDescriptor(rim: Digest, content: Digest): (r: bytes)
    ensures |r| == 0x100
  {
    Struct(TecFields(rim, content), 0x100)
  }

  /** tmi_tec_params_t with zero general-purpose registers, as every caller passes it. */
  function TecParamFields(pc: nat, flags: nat): (r: seq<Field>)
    ensures Laid(r, 80)
  {
    [Field(64, LittleEndian(pc, 8)), Field(72, LittleEndian(flags, 8))]
  }

  function TecParams(pc: nat, flags: nat): (r: bytes)
    ensures |r| == 80
  {
    Struct(TecParamFields(pc, flags), 80)
  }

  // ----- the chain

  datatype Step = Data(ipa: nat, content: bytes) | Tec(params: bytes)

  predicate StepOk(s: Step) {
    match s
    case Data(ipa, content) => ipa < Pow256(8) && |content| == L3_GRANULE
    case Tec(params) => |params| == 80
  }

  /** The bytes whose digest goes into the descriptor of a step. */
  function Inner(s: Step): bytes {
    match s
    case Data(_, content) => content
    case Tec(params) => params
  }

  function Descriptor(rim: Digest, s: Step, digest: Digest): (r: bytes)
    ensures |r| == 0x100
  {
    match s
    case Data(ipa, _) => DataDescriptor(rim, ipa, 1, digest)
    case Tec(_) => TecDescriptor(rim, digest)
  }

  function Extend(H: Hash, rim: Digest, s: Step): Digest {
    H(Descriptor(rim, s, H(Inner(s))))
  }

  /** The RIM: the digest of the CVM descriptor, extended by every step. */
  function Chain(H: Hash, cvm: bytes, steps: seq<Step>): Digest {
    if steps == [] then H(cvm)
    else Extend(H, Chain(H, cvm, steps[..|steps| - 1]), steps[|steps| - 1])
  }

  /** Everything a run hashes. */
  function Hashed(H: Hash, cvm: bytes, steps: seq<Step>): seq<bytes> {
    if steps == [] then [cvm]
    else
      var front, s := steps[..|steps| - 1], steps[|steps| - 1];
      Hashed(H, cvm, front) + [Inner(s), Descriptor(Chain(H, cvm, front), s, H(Inner(s)))]
  }

  /** Two different inputs, one hashed by each run, with the same digest. */
  ghost predicate Collision(H: Hash, xs: seq<bytes>, ys: seq<bytes>) {
    exists x, y :: x in xs && y in ys && x != y && H(x) == H(y)
  }

  lemma CollisionIn(H: Hash, xs: seq<bytes>, ys: seq<bytes>, xs': seq<bytes>, ys': seq<bytes>)
    requires Collision(H, xs, ys)
    requires xs <= xs' && ys <= ys'
    ensures Collision(H, xs', ys')
  {
    var x, y :| x in xs && y in ys && x != y && H(x) == H(y);
    assert x in xs' && y in ys';
  }

  // ----- descriptors determine what they are made of

  lemma DescriptorInjective(rim1: Digest, s1: Step, d1: Digest, rim2: Digest, s2: Step, d2: Digest)
    requires StepOk(s1) && StepOk(s2)
    requires Descriptor(rim1, s1, d1) == Descriptor(rim2, s2, d2)
    ensures rim1 == rim2 && d1 == d2 && s1.Data? == s2.Data? && (s1.Data? ==> s1.ipa == s2.ipa)
  {
    var f := if s1.Data? then DataFields(rim1, s1.ipa, 1, d1) else TecFields(rim1, d1);
    var g := if s2.Data? then DataFields(rim2, s2.ipa, 1, d2) else TecFields(rim2, d2);
    hide Laid, Struct, StepOk;
    assert Struct(f, 0x100) == Struct(g, 0x100);
    StructInjective(f, g, 0x100, 0);
    StructInjective(f, g, 0x100, 2);
    OneByte();
    if s1.Data? {
      StructInjective(f, g, 0x100, 3);
      StructInjective(f, g, 0x100, 5);
      AddressInjective(s1, s2);
    } else {
      StructInjective(f, g, 0x100, 3);
    }
  }

  lemma OneByte()
    ensures LittleEndian(DESC_TYPE_DATA, 1) != LittleEndian(DESC_TYPE_REC, 1)
  {
    assert LittleEndian(0, 1)[0] == 0 && LittleEndian(1, 1)[0] == 1;
  }

  lemma AddressInjective(s1: Step, s2: Step)
    requires s1.Data? && s2.Data? && StepOk(s1) && StepOk(s2)
    requires LittleEndian(s1.ipa, 8) == LittleEndian(s2.ipa, 8)
    ensures s1.ipa == s2.ipa
  {
    Pow256Eight();
    hide Pow256, LittleEndian;
    LittleEndianInjective(s1.ipa, s2.ipa, 8);
    assert s1.ipa % Pow256(8) == s1.ipa && s2.ipa % Pow256(8) == s2.ipa;
  }

  // ----- binding of the chain

  /** Equal chain values come from equal descriptors and equal steps, or exhibit a collision. Chains
      of different length end in inputs of different size. */
  lemma {:induction false} ChainBinds(H: Hash, cvm1: bytes, steps1: seq<Step>, cvm2: bytes, steps2: seq<Step>)
    requires |cvm1| == |cvm2| == 0x1000
    requires forall i :: 0 <= i < |steps1| ==> StepOk(steps1[i])
    requires forall i :: 0 <= i < |steps2| ==> StepOk(steps2[i])
    requires Chain(H, cvm1, steps1) == Chain(H, cvm2, steps2)
    ensures (cvm1 == cvm2 && steps1 == steps2) || Collision(H, Hashed(H, cvm1, steps1), Hashed(H, cvm2, steps2))
    decreases |steps1| + |steps2|
  {
    hide CvmDescriptor, Descriptor, Chain, Hashed, StepOk, Inner;
    var x := LastHashed(H, cvm1, steps1);
    var y := LastHashed(H, cvm2, steps2);
    if x == y && steps1 != [] && steps2 != [] {
      var front1, s1 := steps1[..|steps1| - 1], steps1[|steps1| - 1];
      var front2, s2 := steps2[..|steps2| - 1], steps2[|steps2| - 1];
      DescriptorInjective(Chain(H, cvm1, front1), s1, H(Inner(s1)), Chain(H, cvm2, front2), s2, H(Inner(s2)));
      if Inner(s1) == Inner(s2) {
        ChainBinds(H, cvm1, front1, cvm2, front2);
        SameStep(s1, s2);
        assert steps1 == front1 + [s1] && steps2 == front2 + [s2];
        if Collision(H, Hashed(H, cvm1, front1), Hashed(H, cvm2, front2)) {
          CollisionIn(H, Hashed(H, cvm1, front1), Hashed(H, cvm2, front2), Hashed(H, cvm1, steps1), Hashed(H, cvm2, steps2));
        }
      }
    }
  }

  lemma SameStep(s1: Step, s2: Step)
    requires s1.Data? == s2.Data? && (s1.Data? ==> s1.ipa == s2.ipa) && Inner(s1) == Inner(s2)
    ensures s1 == s2
  {
  }

  lemma LastHashed(H: Hash, cvm: bytes, steps: seq<Step>) returns (x: bytes)
    requires |cvm| == 0x1000
    ensures x in Hashed(H, cvm, steps) && H(x) == Chain(H, cvm, steps)
    ensures |x| == if steps == [] then 0x1000 else 0x100
    ensures steps == [] ==> x == cvm
    ensures steps != [] ==>
              var front, s := steps[..|steps| - 1], steps[|steps| - 1];
              && x == Descriptor(Chain(H, cvm, front), s, H(Inner(s)))
              && Inner(s) in Hashed(H, cvm, steps) && Hashed(H, cvm, front) <= Hashed(H, cvm, steps)
  {
    hide Descriptor, Inner;
    var all := Hashed(H, cvm, steps);
    x := all[|all| - 1];
  }

  // ----- a whole run

  /** The granules of a blob, in order: 4 KiB each at consecutive addresses (modulo 2^64); a
      remainder smaller than a granule is not measured. */
  function GranulesFrom(e: BlobList.Entry, i: nat): (r: seq<Step>)
    requires i <= |e.data| / L3_GRANULE
    ensures |r| == |e.data| / L3_GRANULE - i
    ensures forall j :: 0 <= j < |r| ==> r[j] == Granule(e, i + j)
    decreases |e.data| / L3_GRANULE - i
  {
    if i == |e.data| / L3_GRANULE then [] else [Granule(e, i)] + GranulesFrom(e, i + 1)
  }

  function Granule(e: BlobList.Entry, i: nat): (s: Step)
    requires i < |e.data| / L3_GRANULE
    ensures s.Data? && StepOk(s)
  {
    Pow256Eight();
    Data((e.start + i * L3_GRANULE) % Pow256(8), e.data[i * L3_GRANULE..(i + 1) * L3_GRANULE])
  }

  function Granules(es: seq<BlobList.Entry>): (r: seq<Step>)
    ensures forall j :: 0 <= j < |r| ==> r[j].Data? && StepOk(r[j])
  {
    if es == [] then [] else GranulesFrom(es[0], 0) + Granules(es[1..])
  }

  /** The parameters hashed for vCPU i: only the first has an entry point and is runnable. */
  function TecStep(pc: nat, i: nat): (s: Step)
    ensures s.Tec? && StepOk(s)
  {
    Tec(TecParams(if i == 0 then pc else 0, if i == 0 then 1 else 0))
  }

  function TecSteps(pc: nat, n: nat): (r: seq<Step>)
    ensures |r| == n
    ensures forall j :: 0 <= j < n ==> r[j] == TecStep(pc, j)
  {
    seq(n, i requires 0 <= i < n => TecStep(pc, i))
  }

  datatype Args = Args(tecNum: nat, sveVectorSize: nat, pmuCounterNum: nat, blobs: seq<BlobList.Entry>, useFirmware: bool)

  function ParamsOf(a: Args): CvmParams {
    CvmParams((if a.sveVectorSize > 0 then 2 else 0) + (if a.pmuCounterNum > 0 then 4 else 0), 40,
              if a.sveVectorSize > 0 then a.sveVectorSize / 128 else 0, 0, 0, a.pmuCounterNum, 0)
  }

  /** measure_create_tecs takes an unsigned int. */
  function TecCount(a: Args): nat {
    a.tecNum % 0x1_0000_0000
  }

  function EntryPoint(a: Args): nat {
    if a.useFirmware then 0 else LOADER_START_ADDR
  }

  function StepsOf(a: Args): (r: seq<Step>)
    ensures forall j :: 0 <= j < |r| ==> StepOk(r[j])
  {
    Granules(a.blobs) + TecSteps(EntryPoint(a), TecCount(a))
  }

  /** generate_rim_reference as a function of its arguments. */
  function RimOf(H: Hash, a: Args): Digest {
    Chain(H, CvmDescriptor(ParamsOf(a)), StepsOf(a))
  }

  function HashedBy(H: Hash, a: Args): seq<bytes> {
    Hashed(H, CvmDescriptor(ParamsOf(a)), StepsOf(a))
  }

  /** What the descriptor keeps of the parameters. */
  ghost predicate SameStored(p: CvmParams, q: CvmParams) {
    && p.flags % Pow256(8) == q.flags % Pow256(8)
    && p.s2sz % Pow256(4) == q.s2sz % Pow256(4) && p.sveVl % Pow256(4) == q.sveVl % Pow256(4)
    && p.numBps % Pow256(4) == q.numBps % Pow256(4) && p.numWps % Pow256(4) == q.numWps % Pow256(4)
    && p.pmuNumCnts % Pow256(4) == q.pmuNumCnts % Pow256(4) && p.algo % Pow256(1) == q.algo % Pow256(1)
  }

  /** The CVM descriptor binds the parameters up to the truncation of its fields. */
  lemma CvmDescriptorBinds(p: CvmParams, q: CvmParams)
    requires CvmDescriptor(p) == CvmDescriptor(q)
    ensures SameStored(p, q)
  {
    hide Laid, Struct, LittleEndian, Pow256;
    forall i | 0 <= i < 7 ensures CvmFields(p)[i].value == CvmFields(q)[i].value {
      StructInjective(CvmFields(p), CvmFields(q), 0x1000, i);
    }
    assert CvmFields(p)[0].value == CvmFields(q)[0].value && CvmFields(p)[1].value == CvmFields(q)[1].value;
    assert CvmFields(p)[2].value == CvmFields(q)[2].value && CvmFields(p)[3].value == CvmFields(q)[3].value;
    assert CvmFields(p)[4].value == CvmFields(q)[4].value && CvmFields(p)[5].value == CvmFields(q)[5].value;
    assert CvmFields(p)[6].value == CvmFields(q)[6].value;
    LittleEndianInjective(p.flags, q.flags, 8);
    LittleEndianInjective(p.s2sz, q.s2sz, 4);
    LittleEndianInjective(p.sveVl, q.sveVl, 4);
    LittleEndianInjective(p.numBps, q.numBps, 4);
    LittleEndianInjective(p.numWps, q.numWps, 4);
    LittleEndianInjective(p.pmuNumCnts, q.pmuNumCnts, 4);
    LittleEndianInjective(p.algo, q.algo, 1);
  }

  /** The number of leading data steps. */
  function Leading(s: seq<Step>): nat {
    if s == [] || !s[0].Data? then 0 else 1 + Leading(s[1..])
  }

  lemma {:induction false} LeadingData(d: seq<Step>, t: seq<Step>)
    requires (forall s :: s in d ==> s.Data?) && (forall s :: s in t ==> s.Tec?)
    ensures Leading(d + t) == |d|
  {
    if d == [] {
      assert d + t == t && (t != [] ==> t[0] in t);
    } else {
      assert (d + t)[1..] == d[1..] + t;
      LeadingData(d[1..], t);
    }
  }

  /** Granules and vCPUs are told apart, so their common sequence splits in one way only. */
  lemma StepsSplit(d1: seq<Step>, t1: seq<Step>, d2: seq<Step>, t2: seq<Step>)
    requires d1 + t1 == d2 + t2
    requires forall s :: s in d1 || s in d2 ==> s.Data?
    requires forall s :: s in t1 || s in t2 ==> s.Tec?
    ensures d1 == d2 && t1 == t2
  {
    LeadingData(d1, t1);
    LeadingData(d2, t2);
    assert d1 == (d1 + t1)[..|d1|] && t1 == (d1 + t1)[|d1|..];
    assert d2 == (d2 + t2)[..|d2|] && t2 == (d2 + t2)[|d2|..];
  }

  lemma TecStepsBind(pc1: nat, n1: nat, pc2: nat, n2: nat)
    requires pc1 < Pow256(8) && pc2 < Pow256(8) && TecSteps(pc1, n1) == TecSteps(pc2, n2)
    ensures n1 == n2 && (n1 > 0 ==> pc1 == pc2)
  {
    assert |TecSteps(pc1, n1)| == n1 && |TecSteps(pc2, n2)| == n2;
    if n1 > 0 {
      assert TecSteps(pc1, n1)[0] == TecSteps(pc2, n2)[0];
      FirstTecBinds(pc1, pc2);
    }
  }

  lemma FirstTec(pc: nat)
    ensures TecStep(pc, 0) == Tec(Struct(TecParamFields(pc, 1), 80))
  {
    hide Struct, TecParamFields;
  }

  lemma FirstTecBinds(pc1: nat, pc2: nat)
    requires pc1 < Pow256(8) && pc2 < Pow256(8) && TecStep(pc1, 0) == TecStep(pc2, 0)
    ensures pc1 == pc2
  {
    FirstTec(pc1);
    FirstTec(pc2);
    hide TecStep, Struct, Laid, LittleEndian, Pow256;
    StructInjective(TecParamFields(pc1, 1), TecParamFields(pc2, 1), 80, 0);
    LittleEndianInjective(pc1, pc2, 8);
  }

  /** The reference value binds what it measures. Two runs with the same RIM agree on whether SVE and
      PMU are on and on their sizes as stored (32 bits), on the ordered list of granules with their
      addresses, on the number of vCPUs and, if there are any, on the kind of boot; or they hashed
      two different inputs to the same digest. */
  lemma RimBinds(H: Hash, a: Args, b: Args)
    requires RimOf(H, a) == RimOf(H, b)
    ensures Collision(H, HashedBy(H, a), HashedBy(H, b))
         || (&& (a.sveVectorSize > 0 <==> b.sveVectorSize > 0) && (a.pmuCounterNum > 0 <==> b.pmuCounterNum > 0)
             && ParamsOf(a).sveVl % Pow256(4) == ParamsOf(b).sveVl % Pow256(4)
             && a.pmuCounterNum % Pow256(4) == b.pmuCounterNum % Pow256(4)
             && Granules(a.blobs) == Granules(b.blobs)
             && TecCount(a) == TecCount(b) && (TecCount(a) > 0 ==> a.useFirmware == b.useFirmware))
  {
    var da, ta := Granules(a.blobs), TecSteps(EntryPoint(a), TecCount(a));
    var db, tb := Granules(b.blobs), TecSteps(EntryPoint(b), TecCount(b));
    hide CvmDescriptor, Chain, Hashed, Granules, TecSteps;
    ChainBinds(H, CvmDescriptor(ParamsOf(a)), StepsOf(a), CvmDescriptor(ParamsOf(b)), StepsOf(b));
    if !Collision(H, HashedBy(H, a), HashedBy(H, b)) {
      CvmDescriptorBinds(ParamsOf(a), ParamsOf(b));
      StepsSplit(da, ta, db, tb);
      Pow256Eight();
      TecStepsBind(EntryPoint(a), TecCount(a), EntryPoint(b), TecCount(b));
    }
  }

  // ----- the measurement, in place

  /** A field store: an assignment to a struct member or a memcpy into one. */
  method Store(a: array<byte>, at: nat, value: bytes)
    requires at + |value| <= a.Length
    modifies a
    ensures a[..] == Patched(old(a[..]), at, value)
  {
    forall i | 0 <= i < |value| {
      a[at + i] := value[i];
    }
  }

  method StoreField(a: array<byte>, at: nat, value: bytes, ghost fields: seq<Field>)
    requires Laid(fields + [Field(at, value)], a.Length) && Laid(fields, a.Length) && a[..] == Struct(fields, a.Length)
    modifies a
    ensures a[..] == Struct(fields + [Field(at, value)], a.Length)
  {
    ghost var all := fields + [Field(at, value)];
    assert all[..|fields|] == fields && all[|fields|] == Field(at, value);
    Store(a, at, value);
  }

  /** Zeroed memory for a structure. */
  method Zeroed(size: nat) returns (a: array<byte>)
    ensures fresh(a) && a.Length == size && a[..] == Struct([], size)
  {
    a := new byte[size](_ => 0);
    assert a[..] == Zeros(size);
  }

  lemma LaidPrefix(fields: seq<Field>, size: nat, k: nat)
    requires Laid(fields, size) && k < |fields|
    ensures Laid(fields[..k], size) && Laid(fields[..k] + [fields[k]], size)
    ensures fields[..k] + [fields[k]] == fields[..k + 1]
  {
    assert fields[..k] + [fields[k]] == fields[..k + 1];
  }

  class Measurement {
    const H: Hash
    const rim: array<byte>

    constructor (H: Hash)
      ensures fresh(rim) && Valid() && this.H == H
    {
      this.H := H;
      rim := new byte[64](_ => 0);
    }

    ghost predicate Valid() {
      rim.Length == 64
    }

    ghost function Value(): Digest
      requires Valid()
      reads this, rim
    {
      rim[..32]
    }

    /** do_hash into meas->rim: the digest goes to the first 32 of its 64 bytes. */
    method SetRim(data: bytes)
      requires Valid()
      modifies rim
      ensures Value() == H(data)
    {
      Store(rim, 0, H(data));
    }

    method MeasureTmiCvmCreate(p: CvmParams)
      requires Valid()
      modifies rim
      ensures Value() == H(CvmDescriptor(p))
    {
      hide Struct, Laid, LittleEndian, Patched, Pow256, StepOk;
      ghost var fs := CvmFields(p);
      var buffer := Zeroed(0x1000);
      assert fs[..0] == [] && fs[..7] == fs;
      LaidPrefix(fs, 0x1000, 0);
      StoreField(buffer, 0x0, LittleEndian(p.flags, 8), fs[..0]);
      LaidPrefix(fs, 0x1000, 1);
      StoreField(buffer, 0x8, LittleEndian(p.s2sz, 4), fs[..1]);
      LaidPrefix(fs, 0x1000, 2);
      StoreField(buffer, 0x10, LittleEndian(p.sveVl, 4), fs[..2]);
      LaidPrefix(fs, 0x1000, 3);
      StoreField(buffer, 0x18, LittleEndian(p.numBps, 4), fs[..3]);
      LaidPrefix(fs, 0x1000, 4);
      StoreField(buffer, 0x20, LittleEndian(p.numWps, 4), fs[..4]);
      LaidPrefix(fs, 0x1000, 5);
      StoreField(buffer, 0x28, LittleEndian(p.pmuNumCnts, 4), fs[..5]);
      LaidPrefix(fs, 0x1000, 6);
      StoreField(buffer, 0x30, LittleEndian(p.algo, 1), fs[..6]);
      SetRim(buffer[..]);
    }

    /** measure_tmi_data_create with the flags every caller passes: content is measured. */
    method MeasureTmiDataCreate(ipa: nat, data: bytes)
      requires Valid()
      modifies rim
      ensures Value() == Extend(H, old(Value()), Data(ipa, data))
    {
      hide Struct, Laid, LittleEndian, Patched;
      var before, content := rim[..32], H(data);
      ghost var fs := DataFields(before, ipa, 1, content);
      var desc := Zeroed(0x100);
      assert fs[..0] == [] && fs[..6] == fs;
      LaidPrefix(fs, 0x100, 0);
      StoreField(desc, 0x0, LittleEndian(DESC_TYPE_DATA, 1), fs[..0]);
      LaidPrefix(fs, 0x100, 1);
      StoreField(desc, 0x8, LittleEndian(0x100, 8), fs[..1]);
      LaidPrefix(fs, 0x100, 2);
      StoreField(desc, 0x10, before, fs[..2]);
      LaidPrefix(fs, 0x100, 3);
      StoreField(desc, 0x50, LittleEndian(ipa, 8), fs[..3]);
      LaidPrefix(fs, 0x100, 4);
      StoreField(desc, 0x58, LittleEndian(1, 8), fs[..4]);
      LaidPrefix(fs, 0x100, 5);
      StoreField(desc, 0x60, content, fs[..5]);
      SetRim(desc[..]);
    }

    method MeasureTmiTecCreate(pc: nat, flags: nat)
      requires Valid()
      modifies rim
      ensures Value() == Extend(H, old(Value()), Tec(TecParams(pc, flags)))
    {
      hide Struct, Laid, LittleEndian, Patched;
      var before := rim[..32];
      ghost var ps := TecParamFields(pc, flags);
      var params := Zeroed(80);
      assert ps[..0] == [] && ps[..2] == ps;
      LaidPrefix(ps, 80, 0);
      StoreField(params, 64, LittleEndian(pc, 8), ps[..0]);
      LaidPrefix(ps, 80, 1);
      StoreField(params, 72, LittleEndian(flags, 8), ps[..1]);
      var content := H(params[..]);
      ghost var fs := TecFields(before, content);
      var desc := Zeroed(0x100);
      assert fs[..0] == [] && fs[..4] == fs;
      LaidPrefix(fs, 0x100, 0);
      StoreField(desc, 0x0, LittleEndian(DESC_TYPE_REC, 1), fs[..0]);
      LaidPrefix(fs, 0x100, 1);
      StoreField(desc, 0x8, LittleEndian(0x100, 8), fs[..1]);
      LaidPrefix(fs, 0x100, 2);
      StoreField(desc, 0x10, before, fs[..2]);
      LaidPrefix(fs, 0x100, 3);
      StoreField(desc, 0x50, content, fs[..3]);
      SetRim(desc[..]);
    }

    method MeasureCreateTecs(loaderStart: nat, tecNum: nat, ghost cvm: bytes, ghost steps: seq<Step>)
      requires Valid() && Value() == Chain(H, cvm, steps)
      modifies rim
      ensures Value() == Chain(H, cvm, steps + TecSteps(loaderStart, tecNum % 0x1_0000_0000))
    {
      hide Struct, TecParamFields, Extend, Chain, StepOk, Pow256;
      var n := tecNum % 0x1_0000_0000;
      var i := 0;
      assert steps + TecSteps(loaderStart, 0) == steps;
      while i < n
        invariant 0 <= i <= n
        invariant Value() == Chain(H, cvm, steps + TecSteps(loaderStart, i))
      {
        MeasureTmiTecCreate(if i == 0 then loaderStart else 0, if i == 0 then 1 else 0);
        ChainSnoc(H, cvm, steps + TecSteps(loaderStart, i), TecStep(loaderStart, i));
        assert steps + TecSteps(loaderStart, i) + [TecStep(loaderStart, i)] == steps + TecSteps(loaderStart, i + 1);
        i := i + 1;
      }
    }

    method MeasureRimBlobs(list: BlobList.List, ghost cvm: bytes)
      requires Valid() && list.Valid() && Value() == Chain(H, cvm, [])
      modifies rim
      ensures list.Valid() && Value() == Chain(H, cvm, Granules(list.Entries()))
    {
      hide Struct, Extend, Granule;
      var curr := list.head;
      ghost var es, k := list.Entries(), 0;
      assert es[..0] == [];
      while curr != null
        invariant 0 <= k <= |list.blobs| && list.Valid() && es == list.Entries()
        invariant curr == if k < |list.blobs| then list.blobs[k] else null
        invariant Value() == Chain(H, cvm, Granules(es[..k]))
        decreases |list.blobs| - k
      {
        MeasureBlob(curr, cvm, Granules(es[..k]));
        GranulesSnoc(es, k);
        curr := curr.next;
        k := k + 1;
      }
      assert es[..k] == es;
    }

    /** The inner loop of measure_rim_blobs. */
    method MeasureBlob(b: BlobList.Blob, ghost cvm: bytes, ghost steps: seq<Step>)
      requires Valid() && Value() == Chain(H, cvm, steps)
      modifies rim
      ensures Value() == Chain(H, cvm, steps + GranulesFrom(b.AsEntry(), 0))
    {
      hide Struct, Extend, StepOk, Chain, Pow256;
      ghost var e := b.AsEntry();
      var n := |b.data| / L3_GRANULE;
      var i := 0;
      ghost var done := steps;
      while i < n
        invariant 0 <= i <= n
        invariant done + GranulesFrom(e, i) == steps + GranulesFrom(e, 0)
        invariant Value() == Chain(H, cvm, done)
      {
        MeasureTmiDataCreate((b.guestStart + i * L3_GRANULE) % Pow256(8), b.data[i * L3_GRANULE..(i + 1) * L3_GRANULE]);
        ChainSnoc(H, cvm, done, Granule(e, i));
        assert done + ([Granule(e, i)] + GranulesFrom(e, i + 1)) == done + [Granule(e, i)] + GranulesFrom(e, i + 1);
        done := done + [Granule(e, i)];
        i := i + 1;
      }
      assert done + [] == done;
    }
  }

  lemma ChainStart(H: Hash, cvm: bytes)
    ensures Chain(H, cvm, []) == H(cvm)
  {
  }

  lemma ChainSnoc(H: Hash, cvm: bytes, steps: seq<Step>, s: Step)
    ensures Chain(H, cvm, steps + [s]) == Extend(H, Chain(H, cvm, steps), s)
  {
    hide Extend;
    assert (steps + [s])[..|steps|] == steps;
  }

  lemma {:induction false} GranulesSnoc(es: seq<BlobList.Entry>, k: nat)
    requires k < |es|
    ensures Granules(es[..k + 1]) == Granules(es[..k]) + GranulesFrom(es[k], 0)
  {
    hide Granule, StepOk, GranulesFrom;
    var first := GranulesFrom(es[0], 0);
    assert es[..k + 1][0] == es[0] && es[..k + 1][1..] == es[1..][..k];
    assert Granules(es[..k + 1]) == first + Granules(es[1..][..k]);
    if k == 0 {
      assert es[1..][..0] == [] && first + [] == first && [] + first == first;
    } else {
      GranulesSnoc(es[1..], k - 1);
      assert es[..k][0] == es[0] && es[..k][1..] == es[1..][..k - 1];
      assert Granules(es[..k]) == first + Granules(es[1..][..k - 1]);
      hide Granules;
      assert first + (Granules(es[1..][..k - 1]) + GranulesFrom(es[k], 0)) == first + Granules(es[1..][..k - 1]) + GranulesFrom(es[k], 0);
    }
  }

  lemma RimOfUnfolded(H: Hash, a: Args)
    ensures RimOf(H, a)
         == Chain(H, CvmDescriptor(ParamsOf(a)), Granules(a.blobs) + TecSteps(EntryPoint(a), a.tecNum % 0x1_0000_0000))
  {
  }

  /** generate_rim_reference */
  method GenerateRimReference(H: Hash, tecNum: nat, sveVectorSize: nat, pmuCounterNum: nat, list: BlobList.List, useFirmware: bool)
    returns (rim: Digest)
    requires list.Valid()
    ensures rim == RimOf(H, Args(tecNum, sveVectorSize, pmuCounterNum, list.Entries(), useFirmware))
  {
    hide CvmDescriptor, Granules, TecSteps, Chain, StepOk, RimOf;
    ghost var a := Args(tecNum, sveVectorSize, pmuCounterNum, list.Entries(), useFirmware);
    var sveEnable, pmuEnable := sveVectorSize > 0, pmuCounterNum > 0;
    var flags := 0;
    if sveEnable {
      flags := flags + 2;
    }
    if pmuEnable {
      flags := flags + 4;
    }
    var meas := new Measurement(H);
    var params := CvmParams(flags, 40, if sveEnable then sveVectorSize / 128 else 0, 0, 0, pmuCounterNum, 0);
    assert params == ParamsOf(a);
    RimOfUnfolded(H, a);
    meas.MeasureTmiCvmCreate(params);
    ChainStart(H, CvmDescriptor(params));
    meas.MeasureRimBlobs(list, CvmDescriptor(params));
    var pc := if useFirmware then 0 else LOADER_START_ADDR;
    meas.MeasureCreateTecs(pc, tecNum, CvmDescriptor(params), Granules(list.Entries()));
    rim := meas.rim[..32];
  }
}
