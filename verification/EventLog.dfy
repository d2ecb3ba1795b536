/** The measurement event log: decoding of its entries and replay into the measurement registers. */
module EventLog {
  import opened Bytes
  import opened BinaryBlob

  const EV_NO_ACTION: nat := 3
  const EVENT_LOG_MAGIC: nat := 0xFFFF_FFFF
  const DIGEST_LENGTH: nat := 32
  const MAX_EVENT_DATA: nat := 10240
  const REM_COUNT: nat := 4

  // ----- the parser

  datatype Algorithm = Algorithm(id: nat, size: nat)

  datatype Entry = Entry(
    remIndex: nat,
    eventType: nat,
    digestCount: nat,
    algIds: seq<nat>,
    digests: bytes,      // all digests, 32 bytes each
    event: bytes,        // the whole entry as it stands in the log
    algorithms: seq<Algorithm>)

  function ReadAlgorithms(blob: bytes, pos: nat, n: nat): (seq<Algorithm>, nat) {
    if n == 0 then ([], pos)
    else
      var (algs, p) := ReadAlgorithms(blob, pos, n - 1);
      var (id, q) := GetUint(blob, p, 2);
      var (size, r) := GetUint(blob, q, 2);
      (algs + [Algorithm(id, size)], r)
  }

  function ReadDigests(blob: bytes, pos: nat, n: nat): (seq<nat>, bytes, nat) {
    if n == 0 then ([], [], pos)
    else
      var (ids, digests, p) := ReadDigests(blob, pos, n - 1);
      var (id, q) := GetUint(blob, p, 2);
      var (digest, r) := GetBytes(blob, q, DIGEST_LENGTH);
      (ids + [id], digests + digest, r)
  }

  /** A copy out of the blob. For a log cut short the source would read past its end. */
  function Copied(blob: bytes, from: nat, to: nat): bytes {
    if from <= to <= |blob| then blob[from..to] else []
  }

  /** The Spec ID event, after type and digest count: its digest and size are skipped. */
  function ParseHeader(blob: bytes, start: nat, pos: nat, register: nat, count: nat): (Entry, nat) {
    var (_, p) := GetBytes(blob, pos + 20, 24);
    var (n, q) := GetUint(blob, p, 4);
    var (algs, r) := ReadAlgorithms(blob, q, n);
    var (vendor, t) := GetUint(blob, r, 1);
    (Entry(register, EV_NO_ACTION, count, [], [], Copied(blob, start, t + vendor), algs), t + vendor)
  }

  function ParseEvent(blob: bytes, start: nat, pos: nat, register: nat, eventType: nat, count: nat): Option<(Entry, nat)> {
    var (ids, digests, p) := ReadDigests(blob, pos, count);
    var (size, q) := GetUint(blob, p, 4);
    if size > MAX_EVENT_DATA then None
    else
      var (data, r) := GetBytes(blob, q, size);
      Some((Entry(register, eventType, count, ids, digests, Copied(blob, start, q) + data, []), r))
  }

  /** The entry at a position and the position after it; None at the end of the log and on an event
      whose data is too large. */
  function ParseEntry(blob: bytes, start: nat): Option<(Entry, nat)> {
    if start >= |blob| then None
    else
      var (register, p) := GetUint(blob, start, 4);
      var (eventType, q) := GetUint(blob, p, 4);
      if register == EVENT_LOG_MAGIC && eventType == EVENT_LOG_MAGIC then None
      else
        var remIndex := if register > 0 then register - 1 else 0;
        var (count, r) := GetUint(blob, q, 4);
        if eventType == EV_NO_ACTION then Some(ParseHeader(blob, start, r, remIndex, count))
        else ParseEvent(blob, start, r, remIndex, eventType, count)
  }

  /** The loop over the algorithms of the Spec ID event. */
  method AlgorithmList(cursor: Cursor, n: nat) returns (algs: seq<Algorithm>)
    modifies cursor
    ensures (algs, cursor.pos) == ReadAlgorithms(cursor.blob, old(cursor.pos), n)
  {
    algs := [];
    var i := 0;
    while i < n
      invariant 0 <= i <= n
      invariant (algs, cursor.pos) == ReadAlgorithms(cursor.blob, old(cursor.pos), i)
    {
      var id := cursor.Uint16();
      var size := cursor.Uint16();
      algs := algs + [Algorithm(id, size)];
      i := i + 1;
    }
  }

  /** The loop over the digests of an event. */
  method DigestList(cursor: Cursor, n: nat) returns (ids: seq<nat>, digests: bytes)
    modifies cursor
    ensures (ids, digests, cursor.pos) == ReadDigests(cursor.blob, old(cursor.pos), n)
  {
    ids, digests := [], [];
    var i := 0;
    while i < n
      invariant 0 <= i <= n
      invariant (ids, digests, cursor.pos) == ReadDigests(cursor.blob, old(cursor.pos), i)
    {
      var id := cursor.Uint16();
      var digest := cursor.Bytes(DIGEST_LENGTH);
      ids, digests := ids + [id], digests + digest;
      i := i + 1;
    }
  }

  method HeaderEntry(cursor: Cursor, start: nat, remIndex: nat, count: nat) returns (entry: Entry)
    modifies cursor
    ensures (entry, cursor.pos) == ParseHeader(cursor.blob, start, old(cursor.pos), remIndex, count)
  {
    hide GetUint, GetBytes, ReadAlgorithms;
    cursor.Skip(20);
    var specId := cursor.Bytes(24);
    var n := cursor.Uint32();
    var algs := AlgorithmList(cursor, n);
    var vendorSize := cursor.Uint8();
    cursor.Skip(vendorSize);
    entry := Entry(remIndex, EV_NO_ACTION, count, [], [], Copied(cursor.blob, start, cursor.pos), algs);
  }

  method EventEntry(cursor: Cursor, start: nat, remIndex: nat, eventType: nat, count: nat) returns (entry: Option<Entry>)
    modifies cursor
    ensures var r := ParseEvent(cursor.blob, start, old(cursor.pos), remIndex, eventType, count);
            entry.Some? == r.Some? && (entry.Some? ==> r == Some((entry.value, cursor.pos)))
  {
    hide GetUint, GetBytes, ReadDigests;
    var ids, digests := DigestList(cursor, count);
    var size := cursor.Uint32();
    if size > MAX_EVENT_DATA {
      return None;
    }
    var event := Copied(cursor.blob, start, cursor.pos);
    var data := cursor.Bytes(size);
    entry := Some(Entry(remIndex, eventType, count, ids, digests, event + data, []));
  }

  /** process_event_log_entry: the next entry, the cursor moved past it; None is a result of false. */
  method ProcessEventLogEntry(cursor: Cursor) returns (entry: Option<Entry>)
    modifies cursor
    ensures var r := ParseEntry(cursor.blob, old(cursor.pos));
            entry.Some? == r.Some? && (entry.Some? ==> r == Some((entry.value, cursor.pos)))
  {
    hide GetUint, ParseHeader, ParseEvent;
    if cursor.pos >= |cursor.blob| {
      return None;
    }
    var start := cursor.pos;
    var register := cursor.Uint32();
    var eventType := cursor.Uint32();
    if register == EVENT_LOG_MAGIC && eventType == EVENT_LOG_MAGIC {
      return None;
    }
    var remIndex := if register > 0 then register - 1 else 0;
    var count := cursor.Uint32();
    if eventType == EV_NO_ACTION {
      var header := HeaderEntry(cursor, start, remIndex, count);
      return Some(header);
    }
    entry := EventEntry(cursor, start, remIndex, eventType, count);
  }

  // ----- logs as they are written

  datatype AlgDigest = AlgDigest(alg: nat, digest: Digest)

  /** The Spec ID event with a zero digest, and events with SHA-256 digests. */
  datatype LogEvent =
    | Header(register: nat, size: nat, specId: bytes, algorithms: seq<Algorithm>, vendor: bytes)
    | Event(register: nat, eventType: nat, digests: seq<AlgDigest>, data: bytes)

  predicate EventOk(e: LogEvent) {
    match e
    case Header(register, size, specId, algs, vendor) =>
      && register < Pow256(4) && size < Pow256(4) && |specId| == 24 && |algs| < Pow256(4) && |vendor| < Pow256(1)
      && forall i :: 0 <= i < |algs| ==> algs[i].id < Pow256(2) && algs[i].size < Pow256(2)
    case Event(register, eventType, digests, data) =>
      && register < Pow256(4) && eventType < Pow256(4) && eventType != EV_NO_ACTION
      && !(register == EVENT_LOG_MAGIC && eventType == EVENT_LOG_MAGIC)
      && |digests| < Pow256(4) && |data| <= MAX_EVENT_DATA
      && forall i :: 0 <= i < |digests| ==> digests[i].alg < Pow256(2)
  }

  function EncodeAlgorithms(algs: seq<Algorithm>): bytes {
    if algs == [] then []
    else
      var a := algs[|algs| - 1];
      EncodeAlgorithms(algs[..|algs| - 1]) + (LittleEndian(a.id, 2) + LittleEndian(a.size, 2))
  }

  function EncodeDigests(ds: seq<AlgDigest>): bytes {
    if ds == [] then []
    else
      var d := ds[|ds| - 1];
      EncodeDigests(ds[..|ds| - 1]) + (LittleEndian(d.alg, 2) + d.digest)
  }

  function EncodeHeaderRest(e: LogEvent): bytes
    requires e.Header?
  {
    e.specId + (LittleEndian(|e.algorithms|, 4) + (EncodeAlgorithms(e.algorithms) + (LittleEndian(|e.vendor|, 1) + e.vendor)))
  }

  function Encode(e: LogEvent): bytes {
    match e
    case Header(register, size, specId, algs, vendor) =>
      LittleEndian(register, 4) + (LittleEndian(EV_NO_ACTION, 4)
      + (LittleEndian(0, 4) + ((Zeros(16) + LittleEndian(size, 4)) + EncodeHeaderRest(e))))
    case Event(register, eventType, digests, data) =>
      LittleEndian(register, 4) + (LittleEndian(eventType, 4)
      + (LittleEndian(|digests|, 4) + (EncodeDigests(digests) + (LittleEndian(|data|, 4) + data))))
  }

  function AlgIds(ds: seq<AlgDigest>): seq<nat> {
    if ds == [] then [] else AlgIds(ds[..|ds| - 1]) + [ds[|ds| - 1].alg]
  }

  function DigestBytes(ds: seq<AlgDigest>): (r: bytes)
    ensures |r| == DIGEST_LENGTH * |ds|
    ensures ds != [] ==> r[..DIGEST_LENGTH] == ds[0].digest
  {
    if ds == [] then [] else DigestBytes(ds[..|ds| - 1]) + ds[|ds| - 1].digest
  }

  function RemIndex(e: LogEvent): nat {
    if e.register > 0 then e.register - 1 else 0
  }

  /** What the parser makes of an event. */
  function EntryOf(e: LogEvent): Entry {
    match e
    case Header(_, _, _, algs, _) => Entry(RemIndex(e), EV_NO_ACTION, 0, [], [], Encode(e), algs)
    case Event(_, eventType, digests, _) =>
      Entry(RemIndex(e), eventType, |digests|, AlgIds(digests), DigestBytes(digests), Encode(e), [])
  }

  // ----- every event is decoded

  lemma Regrouped(a: bytes, b: bytes, c: bytes, d: bytes)
    ensures a + (b + c) + d == a + (b + (c + d))
  {
  }

  lemma {:induction false} ReadsAlgorithms(blob: bytes, pos: nat, algs: seq<Algorithm>, rest: bytes)
    requires At(blob, pos, EncodeAlgorithms(algs) + rest)
    requires forall i :: 0 <= i < |algs| ==> algs[i].id < Pow256(2) && algs[i].size < Pow256(2)
    ensures ReadAlgorithms(blob, pos, |algs|) == (algs, pos + |EncodeAlgorithms(algs)|)
    ensures At(blob, pos + |EncodeAlgorithms(algs)|, rest)
  {
    hide Pow256, LittleEndian, GetUint, At;
    if algs == [] {
      assert [] + rest == rest;
    } else {
      var front, a := algs[..|algs| - 1], algs[|algs| - 1];
      var x, y := LittleEndian(a.id, 2), LittleEndian(a.size, 2);
      assert algs == front + [a];
      Regrouped(EncodeAlgorithms(front), x, y, rest);
      ReadsAlgorithms(blob, pos, front, x + (y + rest));
      var p := pos + |EncodeAlgorithms(front)|;
      ReadsUint(blob, p, a.id, 2, y + rest);
      ReadsUint(blob, p + 2, a.size, 2, rest);
    }
  }

  lemma {:induction false} ReadsDigests(blob: bytes, pos: nat, ds: seq<AlgDigest>, rest: bytes)
    requires At(blob, pos, EncodeDigests(ds) + rest)
    requires forall i :: 0 <= i < |ds| ==> ds[i].alg < Pow256(2)
    ensures ReadDigests(blob, pos, |ds|) == (AlgIds(ds), DigestBytes(ds), pos + |EncodeDigests(ds)|)
    ensures At(blob, pos + |EncodeDigests(ds)|, rest)
  {
    hide Pow256, LittleEndian, GetUint, GetBytes, At;
    if ds == [] {
      assert [] + rest == rest;
    } else {
      var front, d := ds[..|ds| - 1], ds[|ds| - 1];
      var x := LittleEndian(d.alg, 2);
      assert ds == front + [d];
      Regrouped(EncodeDigests(front), x, d.digest, rest);
      ReadsDigests(blob, pos, front, x + (d.digest + rest));
      var p := pos + |EncodeDigests(front)|;
      ReadsUint(blob, p, d.alg, 2, d.digest + rest);
      ReadsBytes(blob, p + 2, d.digest, rest);
    }
  }

  lemma HeaderRestThen(e: LogEvent, rest: bytes)
    requires e.Header?
    ensures EncodeHeaderRest(e) + rest
         == e.specId + (LittleEndian(|e.algorithms|, 4) + (EncodeAlgorithms(e.algorithms)
            + (LittleEndian(|e.vendor|, 1) + (e.vendor + rest))))
    ensures |EncodeHeaderRest(e)| == |e.specId| + 5 + |EncodeAlgorithms(e.algorithms)| + |e.vendor|
  {
    hide LittleEndian, EncodeAlgorithms;
  }

  lemma EntryOfHeader(e: LogEvent)
    requires e.Header? && EventOk(e)
    ensures EntryOf(e) == Entry(RemIndex(e), EV_NO_ACTION, 0, [], [], Encode(e), e.algorithms)
    ensures |e.specId| == 24 && |e.algorithms| < Pow256(4) && |e.vendor| < Pow256(1)
    ensures forall i :: 0 <= i < |e.algorithms| ==> e.algorithms[i].id < Pow256(2) && e.algorithms[i].size < Pow256(2)
  {
    hide Encode;
  }

  lemma ParseHeaderUnfolded(blob: bytes, start: nat, pos: nat, e: LogEvent, r: nat)
    requires e.Header? && GetBytes(blob, pos + 20, 24) == (e.specId, pos + 44)
    requires GetUint(blob, pos + 44, 4) == (|e.algorithms|, pos + 48)
    requires ReadAlgorithms(blob, pos + 48, |e.algorithms|) == (e.algorithms, r) && GetUint(blob, r, 1) == (|e.vendor|, r + 1)
    requires start <= r + 1 + |e.vendor| <= |blob| && blob[start..r + 1 + |e.vendor|] == Encode(e)
    ensures ParseHeader(blob, start, pos, RemIndex(e), 0)
         == (Entry(RemIndex(e), EV_NO_ACTION, 0, [], [], Encode(e), e.algorithms), r + 1 + |e.vendor|)
  {
    hide ReadAlgorithms, GetUint, GetBytes, Encode;
  }

  lemma HeaderDecoded(blob: bytes, start: nat, pos: nat, e: LogEvent, rest: bytes)
    requires e.Header? && EventOk(e)
    requires At(blob, pos, (Zeros(16) + LittleEndian(e.size, 4)) + (EncodeHeaderRest(e) + rest))
    requires start <= pos + 20 + |EncodeHeaderRest(e)| <= |blob|
    requires blob[start..pos + 20 + |EncodeHeaderRest(e)|] == Encode(e)
    ensures ParseHeader(blob, start, pos, RemIndex(e), 0) == (EntryOf(e), pos + 20 + |EncodeHeaderRest(e)|)
  {
    hide *;
    var algs, n, v := e.algorithms, LittleEndian(|e.algorithms|, 4), LittleEndian(|e.vendor|, 1);
    var enc := EncodeAlgorithms(algs);
    EntryOfHeader(e);
    HeaderRestThen(e, rest);
    AtSplit(blob, pos, Zeros(16) + LittleEndian(e.size, 4), EncodeHeaderRest(e) + rest);
    ReadsBytes(blob, pos + 20, e.specId, n + (enc + (v + (e.vendor + rest))));
    ReadsUint(blob, pos + 44, |algs|, 4, enc + (v + (e.vendor + rest)));
    ReadsAlgorithms(blob, pos + 48, algs, v + (e.vendor + rest));
    ReadsUint(blob, pos + 48 + |enc|, |e.vendor|, 1, e.vendor + rest);
    ParseHeaderUnfolded(blob, start, pos, e, pos + 48 + |enc|);
  }

  lemma EventDecoded(blob: bytes, start: nat, pos: nat, e: LogEvent, rest: bytes)
    requires e.Event? && EventOk(e)
    requires At(blob, pos, EncodeDigests(e.digests) + (LittleEndian(|e.data|, 4) + (e.data + rest)))
    requires start <= pos && pos + |EncodeDigests(e.digests)| + 4 + |e.data| <= |blob|
    requires blob[start..pos + |EncodeDigests(e.digests)| + 4 + |e.data|] == Encode(e)
    ensures ParseEvent(blob, start, pos, RemIndex(e), e.eventType, |e.digests|)
         == Some((EntryOf(e), pos + |EncodeDigests(e.digests)| + 4 + |e.data|))
  {
    hide *;
    var p := pos + |EncodeDigests(e.digests)|;
    EntryOfEvent(e);
    EventParts(blob, pos, e, rest, p);
    assert p + 4 + |e.data| == pos + |EncodeDigests(e.digests)| + 4 + |e.data|;
    DataCopied(blob, start, p + 4, e.data, rest);
    ParseEventUnfolded(blob, start, pos, e, p);
  }

  lemma EventParts(blob: bytes, pos: nat, e: LogEvent, rest: bytes, p: nat)
    requires e.Event? && |e.data| < Pow256(4) && forall i :: 0 <= i < |e.digests| ==> e.digests[i].alg < Pow256(2)
    requires At(blob, pos, EncodeDigests(e.digests) + (LittleEndian(|e.data|, 4) + (e.data + rest)))
    requires p == pos + |EncodeDigests(e.digests)|
    ensures ReadDigests(blob, pos, |e.digests|) == (AlgIds(e.digests), DigestBytes(e.digests), p)
    ensures GetUint(blob, p, 4) == (|e.data|, p + 4) && GetBytes(blob, p + 4, |e.data|) == (e.data, p + 4 + |e.data|)
    ensures At(blob, p + 4, e.data + rest)
  {
    hide *;
    ReadsDigests(blob, pos, e.digests, LittleEndian(|e.data|, 4) + (e.data + rest));
    ReadsUint(blob, p, |e.data|, 4, e.data + rest);
    ReadsBytes(blob, p + 4, e.data, rest);
  }

  lemma EntryOfEvent(e: LogEvent)
    requires e.Event? && EventOk(e)
    ensures EntryOf(e) == Entry(RemIndex(e), e.eventType, |e.digests|, AlgIds(e.digests), DigestBytes(e.digests), Encode(e), [])
    ensures |e.data| < Pow256(4) && |e.data| <= MAX_EVENT_DATA && forall i :: 0 <= i < |e.digests| ==> e.digests[i].alg < Pow256(2)
  {
    hide Encode;
    assert MAX_EVENT_DATA < Pow256(4);
  }

  lemma ParseEventUnfolded(blob: bytes, start: nat, pos: nat, e: LogEvent, p: nat)
    requires e.Event? && |e.data| <= MAX_EVENT_DATA
    requires ReadDigests(blob, pos, |e.digests|) == (AlgIds(e.digests), DigestBytes(e.digests), p)
    requires GetUint(blob, p, 4) == (|e.data|, p + 4) && GetBytes(blob, p + 4, |e.data|) == (e.data, p + 4 + |e.data|)
    requires Copied(blob, start, p + 4) + e.data == Encode(e)
    ensures ParseEvent(blob, start, pos, RemIndex(e), e.eventType, |e.digests|)
         == Some((Entry(RemIndex(e), e.eventType, |e.digests|, AlgIds(e.digests), DigestBytes(e.digests), Encode(e), []),
                  p + 4 + |e.data|))
  {
    hide ReadDigests, GetUint, GetBytes, Copied, Encode, AlgIds, DigestBytes;
  }

  lemma DataCopied(blob: bytes, from: nat, to: nat, data: bytes, rest: bytes)
    requires from <= to && At(blob, to, data + rest)
    ensures to + |data| <= |blob| && Copied(blob, from, to) + data == blob[from..to + |data|]
  {
    AtSplit(blob, to, data, rest);
    CopyAndData(blob, from, to, data);
  }

  lemma CopyAndData(blob: bytes, from: nat, to: nat, data: bytes)
    requires from <= to && to + |data| <= |blob| && blob[to..to + |data|] == data
    ensures Copied(blob, from, to) + data == blob[from..to + |data|]
  {
  }

  lemma EncodeEvent(e: LogEvent, rest: bytes)
    requires e.Event?
    ensures Encode(e) + rest
         == LittleEndian(e.register, 4) + (LittleEndian(e.eventType, 4) + (LittleEndian(|e.digests|, 4)
            + (EncodeDigests(e.digests) + (LittleEndian(|e.data|, 4) + (e.data + rest)))))
    ensures |Encode(e)| == 12 + |EncodeDigests(e.digests)| + 4 + |e.data|
  {
    hide LittleEndian, EncodeDigests;
  }

  lemma EncodeHeader(e: LogEvent, rest: bytes)
    requires e.Header?
    ensures Encode(e) + rest
         == LittleEndian(e.register, 4) + (LittleEndian(EV_NO_ACTION, 4) + (LittleEndian(0, 4)
            + ((Zeros(16) + LittleEndian(e.size, 4)) + (EncodeHeaderRest(e) + rest))))
    ensures |Encode(e)| == 32 + |EncodeHeaderRest(e)|
  {
    hide LittleEndian, EncodeHeaderRest;
  }

  /** The three words every entry begins with. */
  predicate StartsWith(blob: bytes, start: nat, register: nat, eventType: nat, count: nat) {
    && start < |blob|
    && GetUint(blob, start, 4) == (register, start + 4) && GetUint(blob, start + 4, 4) == (eventType, start + 8)
    && GetUint(blob, start + 8, 4) == (count, start + 12)
  }

  lemma ReadsStart(blob: bytes, start: nat, register: nat, eventType: nat, count: nat, tail: bytes)
    requires register < Pow256(4) && eventType < Pow256(4) && count < Pow256(4)
    requires At(blob, start, LittleEndian(register, 4) + (LittleEndian(eventType, 4) + (LittleEndian(count, 4) + tail)))
    ensures StartsWith(blob, start, register, eventType, count) && At(blob, start + 12, tail)
  {
    EntryAt(blob, start, LittleEndian(register, 4) + (LittleEndian(eventType, 4) + (LittleEndian(count, 4) + tail)));
    hide LittleEndian, GetUint, At, Pow256;
    ReadsUint(blob, start, register, 4, LittleEndian(eventType, 4) + (LittleEndian(count, 4) + tail));
    ReadsUint(blob, start + 4, eventType, 4, LittleEndian(count, 4) + tail);
    ReadsUint(blob, start + 8, count, 4, tail);
  }

  lemma ParseFromStart(blob: bytes, start: nat, e: LogEvent, eventType: nat, count: nat)
    requires StartsWith(blob, start, e.register, eventType, count)
    requires !(e.register == EVENT_LOG_MAGIC && eventType == EVENT_LOG_MAGIC)
    ensures eventType == EV_NO_ACTION ==>
              ParseEntry(blob, start) == Some(ParseHeader(blob, start, start + 12, RemIndex(e), count))
    ensures eventType != EV_NO_ACTION ==>
              ParseEntry(blob, start) == ParseEvent(blob, start, start + 12, RemIndex(e), eventType, count)
  {
    hide GetUint, ParseHeader, ParseEvent;
  }

  lemma EventEntryDecoded(blob: bytes, start: nat, e: LogEvent, rest: bytes)
    requires e.Event? && EventOk(e) && At(blob, start, Encode(e) + rest)
    ensures ParseEntry(blob, start) == Some((EntryOf(e), start + |Encode(e)|))
  {
    hide *;
    EventOkBounds(e);
    EncodeEvent(e, rest);
    AtSplit(blob, start, Encode(e), rest);
    EntryAt(blob, start, Encode(e));
    ReadsStart(blob, start, e.register, e.eventType, |e.digests|,
               EncodeDigests(e.digests) + (LittleEndian(|e.data|, 4) + (e.data + rest)));
    ParseFromStart(blob, start, e, e.eventType, |e.digests|);
    EventDecoded(blob, start, start + 12, e, rest);
  }

  lemma HeaderEntryDecoded(blob: bytes, start: nat, e: LogEvent, rest: bytes)
    requires e.Header? && EventOk(e) && At(blob, start, Encode(e) + rest)
    ensures ParseEntry(blob, start) == Some((EntryOf(e), start + |Encode(e)|))
  {
    hide *;
    EventOkBounds(e);
    EncodeHeader(e, rest);
    AtSplit(blob, start, Encode(e), rest);
    EntryAt(blob, start, Encode(e));
    ReadsStart(blob, start, e.register, EV_NO_ACTION, 0,
               (Zeros(16) + LittleEndian(e.size, 4)) + (EncodeHeaderRest(e) + rest));
    ParseFromStart(blob, start, e, EV_NO_ACTION, 0);
    HeaderDecoded(blob, start, start + 12, e, rest);
  }

  /** Every entry of a log is decoded to exactly what was written, and the cursor then stands at the next. */
  lemma EntryDecoded(blob: bytes, start: nat, e: LogEvent, rest: bytes)
    requires EventOk(e) && At(blob, start, Encode(e) + rest)
    ensures ParseEntry(blob, start) == Some((EntryOf(e), start + |Encode(e)|))
    ensures At(blob, start + |Encode(e)|, rest)
  {
    AtSplit(blob, start, Encode(e), rest);
    hide *;
    if e.Event? {
      EventEntryDecoded(blob, start, e, rest);
    } else {
      HeaderEntryDecoded(blob, start, e, rest);
    }
  }

  lemma EntryAt(blob: bytes, start: nat, text: bytes)
    requires At(blob, start, text)
    ensures start + |text| <= |blob| && blob[start..start + |text|] == text
  {
  }

  lemma NotEmpty(e: LogEvent)
    ensures |Encode(e)| > 0
  {
    hide LittleEndian;
  }

  lemma EventOkBounds(e: LogEvent)
    requires EventOk(e)
    ensures e.register < Pow256(4) && EV_NO_ACTION < Pow256(4) && 0 < Pow256(4) && EV_NO_ACTION != EVENT_LOG_MAGIC
    ensures e.Event? ==> e.eventType < Pow256(4) && |e.digests| < Pow256(4) && e.eventType != EV_NO_ACTION
    ensures e.Event? ==> !(e.register == EVENT_LOG_MAGIC && e.eventType == EVENT_LOG_MAGIC)
  {
    assert Pow256(4) == 0x1_0000_0000;
  }

  // ----- whole logs

  function EncodeAll(es: seq<LogEvent>): bytes {
    if es == [] then [] else EncodeAll(es[..|es| - 1]) + Encode(es[|es| - 1])
  }

  /** A log ends with its last entry, or the rest of the blob is filled with 0xFF. */
  predicate Fill(tail: bytes) {
    tail == [] || (|tail| >= 8 && forall i :: 0 <= i < |tail| ==> tail[i] == 0xFF)
  }

  ghost predicate IsLog(blob: bytes, es: seq<LogEvent>) {
    && (forall i :: 0 <= i < |es| ==> EventOk(es[i]))
    && EncodeAll(es) <= blob && Fill(blob[|EncodeAll(es)|..])
  }

  function PositionOf(es: seq<LogEvent>, k: nat): nat
    requires k <= |es|
  {
    |EncodeAll(es[..k])|
  }

  lemma {:induction false} EncodeAllSplit(es: seq<LogEvent>, k: nat)
    requires k < |es|
    ensures EncodeAll(es[..k]) + Encode(es[k]) == EncodeAll(es[..k + 1]) <= EncodeAll(es)
    decreases |es|
  {
    hide Encode;
    var front := es[..|es| - 1];
    if k < |front| {
      EncodeAllSplit(front, k);
      assert front[..k] == es[..k] && front[..k + 1] == es[..k + 1];
    } else {
      assert es[..k] == front && es[..k + 1] == es;
    }
  }

  lemma EntryInLog(blob: bytes, es: seq<LogEvent>, k: nat)
    requires IsLog(blob, es) && k < |es|
    ensures EventOk(es[k]) && At(blob, PositionOf(es, k), Encode(es[k]) + [])
    ensures PositionOf(es, k + 1) == PositionOf(es, k) + |Encode(es[k])|
  {
    EncodeAllSplit(es, k);
    hide EventOk, Encode, EncodeAll, Fill, At;
    PrefixAt(blob, EncodeAll(es[..k]), Encode(es[k]));
  }

  /** Walking a log entry by entry visits exactly its events, in order, and then stops. */
  lemma LogDecoded(blob: bytes, es: seq<LogEvent>, k: nat)
    requires IsLog(blob, es) && k <= |es|
    ensures k < |es| ==> ParseEntry(blob, PositionOf(es, k)) == Some((EntryOf(es[k]), PositionOf(es, k + 1)))
    ensures k == |es| ==> ParseEntry(blob, PositionOf(es, k)) == None
  {
    if k < |es| {
      hide *;
      EntryInLog(blob, es, k);
      EntryDecoded(blob, PositionOf(es, k), es[k], []);
    } else {
      hide Encode, ParseEntry, EncodeAll, EntryOf;
      assert es[..k] == es;
      FillEnds(blob, |EncodeAll(es)|);
    }
  }

  lemma PrefixAt(blob: bytes, a: bytes, b: bytes)
    requires a + b <= blob
    ensures At(blob, |a|, b + [])
  {
    assert b + [] == b && blob[|a|..|a| + |b|] == b;
  }

  lemma FillEnds(blob: bytes, p: nat)
    requires p <= |blob| && Fill(blob[p..])
    ensures ParseEntry(blob, p) == None
  {
    if p < |blob| {
      var tail := blob[p..];
      assert forall i :: p <= i < |blob| ==> blob[i] == tail[i - p];
      AllOnes(blob[p..p + 4]);
      AllOnes(blob[p + 4..p + 8]);
      assert Pow256(4) == 0x1_0000_0000;
      hide FromLittleEndian, ParseEvent, ParseHeader;
    }
  }

  lemma {:induction false} AllOnes(s: bytes)
    requires forall i :: 0 <= i < |s| ==> s[i] == 0xFF
    ensures FromLittleEndian(s) == Pow256(|s|) - 1
  {
    if s != [] {
      AllOnes(s[1..]);
    }
  }

  // ----- replay

  /** The digest that extends a register. */
  predicate Extends(e: LogEvent, r: nat) {
    e.Event? && RemIndex(e) == r && |e.digests| > 0
  }

  /** A register after a log: one left fold of the hash over the first digests of its events. */
  function RemAfter(H: Hash, es: seq<LogEvent>, r: nat): Digest {
    if es == [] then Zeros(32)
    else
      var before, e := RemAfter(H, es[..|es| - 1], r), es[|es| - 1];
      if Extends(e, r) then H(before + e.digests[0].digest) else before
  }

  class Log {
    const H: Hash
    const blob: bytes
    const rems: array<Digest>

    constructor (H: Hash, blob: bytes)
      ensures this.H == H && this.blob == blob && fresh(rems) && rems.Length == REM_COUNT
    {
      this.H, this.blob := H, blob;
      rems := new Digest[REM_COUNT](_ => Zeros(32));
    }

    method UpdateRem(i: nat, digest: Digest)
      requires i < rems.Length
      modifies rems
      ensures rems[..] == old(rems[..])[i := H(old(rems[i]) + digest)]
    {
      rems[i] := H(rems[i] + digest);
    }

    /** The body of a replay loop: an entry of the kind the pass looks for extends its register. */
    method Extend(e: Entry, noAction: bool)
      requires rems.Length == REM_COUNT && (e.digestCount > 0 ==> |e.digests| >= DIGEST_LENGTH)
      modifies rems
      ensures forall r :: 0 <= r < REM_COUNT ==>
                rems[r] == if (e.eventType == EV_NO_ACTION) == noAction && e.remIndex == r && e.digestCount > 0
                           then H(old(rems[r]) + e.digests[..DIGEST_LENGTH]) else old(rems[r])
    {
      if (e.eventType == EV_NO_ACTION) == noAction {
        if e.remIndex < REM_COUNT && e.digestCount > 0 {
          UpdateRem(e.remIndex, e.digests[..DIGEST_LENGTH]);
        }
      }
    }

    /** One pass of event_log_replay: over the Spec ID events or over all others. */
    method Pass(noAction: bool, ghost es: seq<LogEvent>)
      requires rems.Length == REM_COUNT && IsLog(blob, es)
      requires forall r :: 0 <= r < REM_COUNT ==> rems[r] == RemAfter(H, [], r)
      modifies rems
      ensures forall r :: 0 <= r < REM_COUNT ==> rems[r] == RemAfter(H, if noAction then [] else es, r)
    {
      hide IsLog, ParseEntry, EntryOf, EncodeAll, RemAfter, Extends;
      var cursor := new Cursor(blob);
      ghost var k := 0;
      assert es[..0] == [];
      EmptyPosition(es);
      var more := true;
      while cursor.pos < |blob| && more
        invariant k <= |es| && (more ==> cursor.pos == PositionOf(es, k)) && (!more ==> k == |es|)
        invariant cursor.blob == blob && fresh(cursor)
        invariant forall r :: 0 <= r < REM_COUNT ==> rems[r] == RemAfter(H, if noAction then [] else es[..k], r)
        decreases |es| - k, more
      {
        LogDecoded(blob, es, k);
        var entry := ProcessEventLogEntry(cursor);
        if entry == None {
          more := false;
        } else {
          EntryShows(blob, es, k);
          Extend(entry.value, noAction);
          RemStep(H, es, k);
          k := k + 1;
        }
      }
      if more {
        LogLength(blob, es, k);
      }
      assert es[..k] == es;
    }

    /** event_log_replay: both passes together leave in every register the fold over its events. */
    method Replay(ghost es: seq<LogEvent>)
      requires rems.Length == REM_COUNT && IsLog(blob, es)
      modifies rems
      ensures forall r :: 0 <= r < REM_COUNT ==> rems[r] == RemAfter(H, es, r)
    {
      forall r | 0 <= r < REM_COUNT {
        rems[r] := Zeros(32);
      }
      Pass(true, es);
      Pass(false, es);
    }
  }

  lemma EmptyPosition(es: seq<LogEvent>)
    ensures PositionOf(es, 0) == 0
  {
    assert es[..0] == [];
  }

  /** What the replay looks at in an entry. */
  lemma EntryShows(blob: bytes, es: seq<LogEvent>, k: nat)
    requires IsLog(blob, es) && k < |es|
    ensures var e, entry := es[k], EntryOf(es[k]);
            && (entry.digestCount > 0 ==> |entry.digests| >= DIGEST_LENGTH)
            && (entry.eventType == EV_NO_ACTION ==> entry.digestCount == 0)
            && (forall r :: Extends(e, r) <==> entry.remIndex == r && entry.digestCount > 0)
            && (entry.digestCount > 0 ==> e.Event? && e.digests != [] && entry.digests[..DIGEST_LENGTH] == e.digests[0].digest)
  {
    assert EventOk(es[k]);
    hide Encode;
  }

  lemma RemStep(H: Hash, es: seq<LogEvent>, k: nat)
    requires k < |es|
    ensures forall r :: 0 <= r < REM_COUNT ==>
              RemAfter(H, es[..k + 1], r)
              == if Extends(es[k], r) then H(RemAfter(H, es[..k], r) + es[k].digests[0].digest) else RemAfter(H, es[..k], r)
  {
    assert es[..k + 1][..k] == es[..k] && es[..k + 1][k] == es[k];
  }

  lemma LogLength(blob: bytes, es: seq<LogEvent>, k: nat)
    requires IsLog(blob, es) && k <= |es| && PositionOf(es, k) >= |blob|
    ensures k == |es|
  {
    if k < |es| {
      EncodeAllSplit(es, k);
      NotEmpty(es[k]);
    }
  }

  // ----- the limits and registers in numbers

  /** An event as it can be written: its numbers fit their fields, its type is not that of the Spec ID event, and it
      does not begin like the fill. */
  predicate Writable(e: LogEvent) {
    && e.Event? && e.register < 0x1_0000_0000 && e.eventType < 0x1_0000_0000 && e.eventType != 3
    && !(e.register == 0xFFFF_FFFF && e.eventType == 0xFFFF_FFFF)
    && |e.digests| < 0x1_0000_0000 && |e.data| < 0x1_0000_0000
    && forall i :: 0 <= i < |e.digests| ==> e.digests[i].alg < 0x1_0000
  }

  /** Such an event is decoded exactly if its data is at most 10240 bytes long. */
  lemma DecodedExactly(blob: bytes, start: nat, e: LogEvent, rest: bytes)
    requires Writable(e) && At(blob, start, Encode(e) + rest)
    ensures ParseEntry(blob, start).Some? <==> |e.data| <= 10240
  {
    assert Pow256(4) == 0x1_0000_0000 && Pow256(2) == 0x1_0000;
    if |e.data| <= 10240 {
      assert EventOk(e);
      hide *;
      EntryDecoded(blob, start, e, rest);
    } else {
      EncodeEvent(e, rest);
      hide LittleEndian, Encode, ParseEntry, Pow256, At, EncodeDigests, ParseEvent;
      ReadsStart(blob, start, e.register, e.eventType, |e.digests|,
                 EncodeDigests(e.digests) + (LittleEndian(|e.data|, 4) + (e.data + rest)));
      ParseFromStart(blob, start, e, e.eventType, |e.digests|);
      TooLarge(blob, start, start + 12, e, rest);
    }
  }

  lemma TooLarge(blob: bytes, start: nat, pos: nat, e: LogEvent, rest: bytes)
    requires Writable(e) && |e.data| > 10240
    requires At(blob, pos, EncodeDigests(e.digests) + (LittleEndian(|e.data|, 4) + (e.data + rest)))
    ensures ParseEvent(blob, start, pos, RemIndex(e), e.eventType, |e.digests|) == None
  {
    assert Pow256(4) == 0x1_0000_0000 && Pow256(2) == 0x1_0000;
    hide LittleEndian, Pow256, At, EncodeDigests, ReadDigests, GetUint, GetBytes, Copied;
    EventParts(blob, pos, e, rest, pos + |EncodeDigests(e.digests)|);
  }

  /** The Spec ID event has type 3 behind its register, and no digest. */
  lemma HeaderBytes(e: LogEvent)
    requires e.Header?
    ensures Encode(e)[..12] == LittleEndian(e.register, 4) + [3, 0, 0, 0, 0, 0, 0, 0]
  {
    assert LittleEndian(3, 4) == [3] + LittleEndian(0, 3) && LittleEndian(0, 3) == [0] + LittleEndian(0, 2);
    assert LittleEndian(0, 2) == [0] + LittleEndian(0, 1) && LittleEndian(0, 1) == [0];
    assert LittleEndian(0, 4) == [0] + LittleEndian(0, 3);
    hide LittleEndian, EncodeHeaderRest;
  }

  /** The four registers start at zero; register n of an event, counted from 1, is the one of index n - 1 and 0 goes with 1. An
      event with a digest extends it by its first digest, any other leaves it. */
  lemma RegistersFolded(H: Hash, es: seq<LogEvent>, e: LogEvent, r: nat)
    ensures REM_COUNT == 4 && RemAfter(H, [], r) == Zeros(32)
    ensures RemAfter(H, es + [e], r)
         == if e.Event? && |e.digests| > 0 && r == (if e.register <= 1 then 0 else e.register - 1)
            then H(RemAfter(H, es, r) + e.digests[0].digest) else RemAfter(H, es, r)
  {
    assert (es + [e])[..|es|] == es;
  }
}
