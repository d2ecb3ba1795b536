/** A whole attested session: what the server answers to a client, and what the client makes of the answers. */
module KeySession {
  import opened Bytes
  import opened KeyHandover

  /** The words of the protocol. */
  lemma RequestTexts()
    ensures REQUEST_CCEL_TABLE == Ascii("REQUEST_CCEL_TABLE") && REQUEST_EVENT_LOG == Ascii("REQUEST_EVENT_LOG")
    ensures REQUEST_IMA_LOG == Ascii("REQUEST_IMA_LOG") && ENABLE_FDE_TOKEN == Ascii("ENABLE_FDE_TOKEN")
  {
  }

  lemma KeyTexts()
    ensures TOKEN == Ascii("ATTESTATION_PASS") && MSK_SEND == Ascii("MSK_SEND") && MSK_ACK == Ascii("MSK_ACK")
  {
  }

  lemma PassedText()
    ensures PASSED == Ascii("Attestation Passed, Swtiching Root.....")
  {
  }

  lemma RefusedText()
    ensures REFUSED == Ascii("Attestation Failed, Continue.....")
  {
  }

  /** The sizes of the list of bound guests and of the buffers. */
  lemma Sizes()
    ensures MAX_BIND_VM == 256 && REQUEST_BUFFER == 256 && MAX_BUFFER == 4096 && PACKAGE == 80
  {
  }

  /** Key, vector and tag, in that order, in 32, 32 and 16 bytes. */
  lemma PackageLayout(k: Key)
    requires KeyOk(k)
    ensures |Package(k)| == 80 && Package(k)[..32] == k.msk && Package(k)[32..64] == k.randIv && Package(k)[64..] == k.tag
  {
  }

  // ----- what the server answers

  /** The table goes out as it is, a log behind its size in eight bytes; an empty log of the IMA is not answered. */
  function AnswerTo(r: Request, f: Files): seq<bytes>
    requires FilesOk(f)
  {
    match r
    case CcelTable => [f.ccel.value]
    case EventLog => [LittleEndian(|f.eventLog.value|, 8)] + (if f.eventLog.value == [] then [] else [f.eventLog.value])
    case ImaLog => if f.ima.value == [] then [] else [LittleEndian(|f.ima.value|, 8), f.ima.value]
  }

  function Answers(reqs: seq<Request>, f: Files): seq<bytes>
    requires FilesOk(f)
  {
    if reqs == [] then [] else AnswerTo(reqs[0], f) + Answers(reqs[1..], f)
  }

  lemma RequestAnswered(c: Channel, r: Request, rest: seq<bytes>, f: Files, installs: bool)
    requires c.reliable && c.incoming == [Word(r)] + rest && FilesOk(f)
    ensures Served(c, f, installs) == Served(c.(incoming := rest, outgoing := c.outgoing + AnswerTo(r, f)), f, installs)
  {
    var d := c.(incoming := rest);
    ReceiveReliable(c, REQUEST_BUFFER, Word(r), rest);
    Recognised(Word(r), Word(r));
    assert d.outgoing + [] == d.outgoing;
    match r
    case CcelTable =>
      SendReliable(d, f.ccel.value);
      hide AfterSend, SentOf, Reply, ReceivedOf, AfterReceive;
    case EventLog =>
      SizedReliable(d, f.eventLog.value);
      hide AfterSend, SentOf, SizedAnswer, LittleEndian, Reply, ReceivedOf, AfterReceive;
    case ImaLog =>
      SizedReliable(d, f.ima.value);
      hide AfterSend, SentOf, SizedAnswer, LittleEndian, Reply, ReceivedOf, AfterReceive;
      if f.ima.value != [] {
        assert SizedRecords(f.ima.value) == AnswerTo(r, f);
      }
  }

  /** "MSK_ACK" in a buffer of 256 bytes. */
  const ACKNOWLEDGEMENT: bytes := [0x4D, 0x53, 0x4B, 0x5F, 0x41, 0x43, 0x4B] + Zeros(249)

  lemma ReplyToKey()
    ensures Reply(MSK_SEND, MSK_ACK) == ACKNOWLEDGEMENT
  {
  }

  lemma KeyAnswered(c: Channel, k: Key, f: Files, installs: bool)
    requires KeyOk(k) && c.reliable && c.incoming == [MSK_SEND, Package(k)]
    ensures Served(c, f, installs)
         == (c.(incoming := [], outgoing := c.outgoing + [ACKNOWLEDGEMENT]), if installs then Success else Error)
  {
    var d := c.(incoming := [Package(k)]);
    assert c.incoming == [MSK_SEND] + [Package(k)] && d.incoming == [Package(k)] + [];
    ReceiveReliable(c, REQUEST_BUFFER, MSK_SEND, [Package(k)]);
    Recognised(MSK_SEND, MSK_SEND);
    ReplyToKey();
    SendReliable(d, ACKNOWLEDGEMENT);
    var e := d.(outgoing := d.outgoing + [ACKNOWLEDGEMENT]);
    ReceiveReliable(e, PACKAGE, Package(k), []);
    hide AfterSend, SentOf, Reply, ReceivedOf, AfterReceive, Package;
  }

  lemma DiskAnswered(c: Channel, disk: Disk, k: Key, f: Files, installs: bool)
    requires KeyOk(k) && c.reliable && c.incoming == KeyRecords(disk, k) && DiskRead(disk) && f.saveOk
    ensures Served(c, f, installs)
         == (c.(incoming := [], outgoing := c.outgoing + [ACKNOWLEDGEMENT]),
             if !installs then Error else if disk == NoDisk then Success else DiskKeySaved)
  {
    hide Package;
    match disk
    case NoDisk =>
      assert c.incoming == [MSK_SEND, Package(k)];
      hide Served;
      KeyAnswered(c, k, f, installs);
    case DiskKey(file) =>
      var rest := [file.value, MSK_SEND, Package(k)];
      assert c.incoming == [ENABLE_FDE_TOKEN] + rest && rest == [file.value] + [MSK_SEND, Package(k)];
      ReceiveReliable(c, REQUEST_BUFFER, ENABLE_FDE_TOKEN, rest);
      Recognised(ENABLE_FDE_TOKEN, ENABLE_FDE_TOKEN);
      ReceiveReliable(c.(incoming := rest), MAX_BUFFER, file.value, [MSK_SEND, Package(k)]);
      KeyAnswered(c.(incoming := [MSK_SEND, Package(k)]), k, f, installs);
      hide AfterSend, SentOf, Reply, ReceivedOf, AfterReceive;
  }

  /** All the server answers to what a client sends, and how the session ends there. */
  lemma {:induction false} ServerAnswers(c: Channel, reqs: seq<Request>, disk: Disk, k: Key, f: Files, installs: bool)
    requires KeyOk(k) && DiskRead(disk) && FilesOk(f) && c.reliable && c.incoming == ClientRecords(reqs, disk, k)
    ensures Served(c, f, installs)
         == (c.(incoming := [], outgoing := c.outgoing + Answers(reqs, f) + [ACKNOWLEDGEMENT]),
             if !installs then Error else if disk == NoDisk then Success else DiskKeySaved)
    decreases |reqs|
  {
    hide Package, Served, AnswerTo;
    if reqs == [] {
      assert c.outgoing + [] == c.outgoing && c.incoming == KeyRecords(disk, k);
      DiskAnswered(c, disk, k, f, installs);
    } else {
      var rest := ClientRecords(reqs[1..], disk, k);
      assert c.incoming == [Word(reqs[0])] + rest;
      RequestAnswered(c, reqs[0], rest, f, installs);
      ServerAnswers(c.(incoming := rest, outgoing := c.outgoing + AnswerTo(reqs[0], f)), reqs[1..], disk, k, f, installs);
      assert c.outgoing + AnswerTo(reqs[0], f) + Answers(reqs[1..], f) == c.outgoing + Answers(reqs, f);
    }
  }

  /** The text goes out in the buffer that holds the request. */
  function Answered(c: Channel, request: bytes, rest: seq<bytes>, text: string): Channel
    requires |text| < 256
  {
    c.(incoming := rest, outgoing := c.outgoing + [Patched(Buffer(request), 0, Ascii(text) + [0])])
  }

  /** The remaining answers: after a pass the session is over, after anything that is no request it has failed. */
  lemma OthersAnswered(c: Channel, request: bytes, rest: seq<bytes>, f: Files, installs: bool)
    requires c.reliable && c.incoming == [request] + rest && |request| <= 256
    ensures Ascii("ATTESTATION_PASS") <= request ==>
              Served(c, f, installs) == (Answered(c, request, rest, "Attestation Passed, Swtiching Root....."), Success)
    ensures (forall word :: IsRequest(word) ==> !(word <= request)) ==>
              Served(c, f, installs) == (Answered(c, request, rest, "Attestation Failed, Continue....."), Error)
  {
    var d := c.(incoming := rest);
    ReceiveReliable(c, REQUEST_BUFFER, request, rest);
    KeyTexts();
    PassedText();
    RefusedText();
    SendReliable(d, Reply(request, PASSED));
    SendReliable(d, Reply(request, REFUSED));
    assert IsRequest(REQUEST_CCEL_TABLE) && IsRequest(REQUEST_EVENT_LOG) && IsRequest(TOKEN);
    assert IsRequest(REQUEST_IMA_LOG) && IsRequest(ENABLE_FDE_TOKEN) && IsRequest(MSK_SEND);
    assert TOKEN[0] == 0x41 && REQUEST_CCEL_TABLE[0] == 0x52 && REQUEST_EVENT_LOG[0] == 0x52;
    hide AfterSend, SentOf, ReceivedOf, AfterReceive, Ascii;
  }

  // ----- channels that cut records short or fail

  function Joined(records: seq<bytes>): bytes {
    if records == [] then [] else records[0] + Joined(records[1..])
  }

  /** Whatever the channel does, the records of a log's data are together all of the data if sending succeeds, and
      otherwise not all of it. */
  lemma {:induction false} LogInRecords(c: Channel, data: bytes)
    ensures c.outgoing <= InRecords(c, data).0.outgoing
    ensures var sent := Joined(InRecords(c, data).0.outgoing[|c.outgoing|..]);
            sent <= data && (InRecords(c, data).1 <==> sent == data)
    decreases |data|, |c.answers|
  {
    var all := InRecords(c, data).0.outgoing;
    if data == [] {
      assert all[|c.outgoing|..] == [];
    } else if SentOf(c, data) == None {
      assert all[|c.outgoing|..] == [];
    } else {
      var n := SentOf(c, data).value;
      var d := AfterSend(c, data);
      LogInRecords(d, data[n..]);
      assert data == data[..n] + data[n..];
      var more := all[|d.outgoing|..];
      assert all[|c.outgoing|..] == [data[..n]] + more && ([data[..n]] + more)[1..] == more;
    }
  }

  /** When a table is not sent whole, the session has failed and nothing more is received. */
  lemma TableCutShort(rest: seq<bytes>, n: nat, more: seq<Answer>, f: Files, installs: bool)
    requires f.ccel.Some? && n < |f.ccel.value|
    ensures Served(Channel(false, [REQUEST_CCEL_TABLE] + rest, [], [Sends(256), Sends(n)] + more), f, installs)
         == (Channel(false, rest, [f.ccel.value[..n]], more), Error)
  {
    var c := Channel(false, [REQUEST_CCEL_TABLE] + rest, [], [Sends(256), Sends(n)] + more);
    var d := Channel(false, rest, [], [Sends(n)] + more);
    assert c.answers[1..] == d.answers && d.answers[1..] == more && c.incoming[1..] == rest;
    assert ReceivedOf(c, REQUEST_BUFFER) == Some(REQUEST_CCEL_TABLE) && AfterReceive(c, REQUEST_BUFFER) == d;
    assert SentOf(d, f.ccel.value) == Some(n);
    assert AfterSend(d, f.ccel.value) == Channel(false, rest, [f.ccel.value[..n]], more);
    hide AfterSend, SentOf, ReceivedOf, AfterReceive;
  }

  // ----- what the client makes of the answers

  /** What a client with these options asks for. */
  function Requests(o: Options): seq<Request> {
    (if o.ima then [ImaLog] else []) + (if o.firmware then [CcelTable, EventLog] else [])
  }

  /** The files have sizes that the client takes: a log of the IMA that is not empty, at most 1 GiB, a table of
      1 to 4096 bytes and an event log of at most 2 MiB. */
  predicate FilesFit(o: Options, f: Files)
    requires FilesOk(f)
  {
    && (o.ima ==> 0 < |f.ima.value| <= 0x4000_0000)
    && (o.firmware ==> 0 < |f.ccel.value| <= 4096 && |f.eventLog.value| <= 0x20_0000)
  }

  lemma CollectReliable(c: Channel, data: bytes, rest: seq<bytes>)
    requires c.reliable && c.incoming == [data] + rest && data != []
    ensures Collected(c, |data|) == Part(c.(incoming := rest), None)
  {
    ReceiveReliable(c, |data|, data, rest);
    assert Collected(c.(incoming := rest), 0) == Part(c.(incoming := rest), None);
  }

  /** The size that comes before a log. */
  lemma SizeRead(n: nat)
    requires n <= 0x4000_0000
    ensures FromLittleEndian(LittleEndian(n, 8)) == n
  {
    Pow256Eight();
    LittleEndianExact(n, 8);
  }

  /** A request is sent and the size of its answer received. */
  lemma SizeReceived(c: Channel, request: bytes, n: nat, rest: seq<bytes>)
    requires c.reliable && n <= 0x4000_0000 && c.incoming == [LittleEndian(n, 8)] + rest
    ensures SentOf(c, request) == Some(|request|)
    ensures ReceivedOf(AfterSend(c, request), 8) == Some(LittleEndian(n, 8)) && FromLittleEndian(LittleEndian(n, 8)) == n
    ensures AfterReceive(AfterSend(c, request), 8) == c.(incoming := rest, outgoing := c.outgoing + [request])
  {
    SendReliable(c, request);
    SizeRead(n);
    hide LittleEndian;
    ReceiveReliable(c.(outgoing := c.outgoing + [request]), 8, LittleEndian(n, 8), rest);
  }

  lemma ImaReceived(c: Channel, o: Options, s: Checks, f: Files, rest: seq<bytes>)
    requires c.reliable && FilesOk(f) && FilesFit(o, f) && o.ima && c.incoming == AnswerTo(ImaLog, f) + rest
    ensures ImaPart(c, o, s) == Result(c.(incoming := rest, outgoing := c.outgoing + [REQUEST_IMA_LOG]), s.imaOk)
  {
    var data := f.ima.value;
    assert c.incoming == [LittleEndian(|data|, 8)] + ([data] + rest);
    SizeReceived(c, REQUEST_IMA_LOG, |data|, [data] + rest);
    CollectReliable(c.(incoming := [data] + rest, outgoing := c.outgoing + [REQUEST_IMA_LOG]), data, rest);
    hide LittleEndian, FromLittleEndian, Collected, AfterSend, SentOf, ReceivedOf, AfterReceive;
  }

  lemma EventLogReceived(c: Channel, s: Checks, f: Files, rest: seq<bytes>)
    requires c.reliable && FilesOk(f) && |f.eventLog.value| <= 0x20_0000 && c.incoming == AnswerTo(EventLog, f) + rest
    ensures EventLogPart(c, s) == Result(c.(incoming := rest, outgoing := c.outgoing + [REQUEST_EVENT_LOG]),
                                         f.eventLog.value == [] || s.logSaved)
  {
    var data := f.eventLog.value;
    if data == [] {
      assert c.incoming == [LittleEndian(0, 8)] + rest;
      SizeReceived(c, REQUEST_EVENT_LOG, 0, rest);
      hide LittleEndian, FromLittleEndian, Collected, AfterSend, SentOf, ReceivedOf, AfterReceive;
    } else {
      assert c.incoming == [LittleEndian(|data|, 8)] + ([data] + rest);
      SizeReceived(c, REQUEST_EVENT_LOG, |data|, [data] + rest);
      CollectReliable(c.(incoming := [data] + rest, outgoing := c.outgoing + [REQUEST_EVENT_LOG]), data, rest);
      hide LittleEndian, FromLittleEndian, Collected, AfterSend, SentOf, ReceivedOf, AfterReceive;
    }
  }

  lemma LogsReceived(c: Channel, s: Checks, f: Files, rest: seq<bytes>)
    requires c.reliable && FilesOk(f) && 0 < |f.ccel.value| <= 4096 && |f.eventLog.value| <= 0x20_0000
    requires c.incoming == AnswerTo(CcelTable, f) + (AnswerTo(EventLog, f) + rest) && s.ccelSaved
    ensures LogsPart(c, s)
         == Result(c.(incoming := rest, outgoing := c.outgoing + [REQUEST_CCEL_TABLE, REQUEST_EVENT_LOG]),
                   f.eventLog.value == [] || s.logSaved)
  {
    var more := AnswerTo(EventLog, f) + rest;
    var d := c.(outgoing := c.outgoing + [REQUEST_CCEL_TABLE]);
    SendReliable(c, REQUEST_CCEL_TABLE);
    ReceiveReliable(d, MAX_BUFFER, f.ccel.value, more);
    EventLogReceived(d.(incoming := more), s, f, rest);
    assert c.outgoing + [REQUEST_CCEL_TABLE] + [REQUEST_EVENT_LOG] == c.outgoing + [REQUEST_CCEL_TABLE, REQUEST_EVENT_LOG];
    hide EventLogPart, AfterSend, SentOf, ReceivedOf, AfterReceive, AnswerTo;
  }

  lemma TableNotSaved(c: Channel, s: Checks, f: Files, rest: seq<bytes>)
    requires c.reliable && FilesOk(f) && 0 < |f.ccel.value| <= 4096 && c.incoming == AnswerTo(CcelTable, f) + rest && !s.ccelSaved
    ensures LogsPart(c, s).end == Some(Failure)
  {
    SendReliable(c, REQUEST_CCEL_TABLE);
    ReceiveReliable(c.(outgoing := c.outgoing + [REQUEST_CCEL_TABLE]), MAX_BUFFER, f.ccel.value, rest);
    hide EventLogPart, AfterSend, SentOf, ReceivedOf, AfterReceive;
  }

  lemma KeySent(c: Channel, k: Key)
    requires c.reliable && KeyOk(k) && c.incoming == [ACKNOWLEDGEMENT]
    ensures KeyPart(c, k) == (c.(incoming := [], outgoing := c.outgoing + [MSK_SEND, Package(k)]), PackageSent(80))
  {
    var d := c.(outgoing := c.outgoing + [MSK_SEND]);
    SendReliable(c, MSK_SEND);
    assert d.incoming == [ACKNOWLEDGEMENT] + [];
    ReceiveReliable(d, REQUEST_BUFFER, ACKNOWLEDGEMENT, []);
    assert Acknowledged(ACKNOWLEDGEMENT);
    SendReliable(d.(incoming := []), Package(k));
    assert c.outgoing + [MSK_SEND] + [Package(k)] == c.outgoing + [MSK_SEND, Package(k)];
    hide Package, AfterSend, SentOf, ReceivedOf, AfterReceive, Acknowledged;
  }

  lemma DiskSent(c: Channel, disk: Disk)
    requires c.reliable
    ensures DiskPart(c, disk) == Part(c.(outgoing := c.outgoing + DiskRecords(disk)), None)
  {
    SendReliable(c, ENABLE_FDE_TOKEN);
    if disk == NoDisk {
      assert c.outgoing + [] == c.outgoing;
    } else if disk.file.Some? {
      SendReliable(c.(outgoing := c.outgoing + [ENABLE_FDE_TOKEN]), disk.file.value);
      assert c.outgoing + [ENABLE_FDE_TOKEN] + [disk.file.value] == c.outgoing + DiskRecords(disk);
    }
    hide AfterSend, SentOf;
  }

  lemma ImaStage(c: Channel, o: Options, s: Checks, f: Files, rest: seq<bytes>)
    requires c.reliable && FilesOk(f) && FilesFit(o, f) && c.incoming == (if o.ima then AnswerTo(ImaLog, f) else []) + rest
    ensures ImaPart(c, o, s)
         == Result(c.(incoming := rest, outgoing := c.outgoing + (if o.ima then [REQUEST_IMA_LOG] else [])), o.ima ==> s.imaOk)
  {
    if o.ima {
      ImaReceived(c, o, s, f, rest);
    } else {
      assert [] + rest == rest && c.outgoing + [] == c.outgoing;
    }
  }

  /** Whether the checks of the logs are passed. */
  predicate LogsPass(s: Checks, f: Files)
    requires FilesOk(f)
  {
    s.ccelSaved && (f.eventLog.value == [] || s.logSaved) && s.firmwareOk
  }

  lemma FirmwareStage(c: Channel, o: Options, s: Checks, f: Files, rest: seq<bytes>)
    requires c.reliable && FilesOk(f) && FilesFit(o, f) && !o.dump
    requires c.incoming == (if o.firmware then AnswerTo(CcelTable, f) + (AnswerTo(EventLog, f) + rest) else rest)
    ensures var p := FirmwarePart(c, o, s);
            if o.firmware && !LogsPass(s, f) then p.end == Some(Failure)
            else p == Part(c.(incoming := rest,
                              outgoing := c.outgoing + (if o.firmware then [REQUEST_CCEL_TABLE, REQUEST_EVENT_LOG] else [])), None)
  {
    if o.firmware {
      if s.ccelSaved {
        LogsReceived(c, s, f, rest);
      } else {
        TableNotSaved(c, s, f, AnswerTo(EventLog, f) + rest);
      }
      hide LogsPart, AnswerTo;
    } else {
      assert c.outgoing + [] == c.outgoing;
    }
  }

  lemma AnswersOf(o: Options, f: Files)
    requires FilesOk(f)
    ensures Answers(Requests(o), f) + [ACKNOWLEDGEMENT]
         == (if o.ima then AnswerTo(ImaLog, f) else [])
            + (if o.firmware then AnswerTo(CcelTable, f) + (AnswerTo(EventLog, f) + [ACKNOWLEDGEMENT]) else [ACKNOWLEDGEMENT])
  {
    var logs := Answers([CcelTable, EventLog], f);
    hide AnswerTo;
    assert [CcelTable, EventLog][1..] == [EventLog] && [EventLog][1..] == [];
    assert Answers([EventLog], f) == AnswerTo(EventLog, f) + [];
    assert logs + [ACKNOWLEDGEMENT] == AnswerTo(CcelTable, f) + (AnswerTo(EventLog, f) + [ACKNOWLEDGEMENT]);
    assert Answers([], f) + [ACKNOWLEDGEMENT] == [ACKNOWLEDGEMENT];
    var rest := if o.firmware then [CcelTable, EventLog] else [];
    if o.ima {
      assert Requests(o)[1..] == rest;
      Associate3(AnswerTo(ImaLog, f), Answers(rest, f), [ACKNOWLEDGEMENT]);
    } else {
      assert Requests(o) == rest;
      Associate3([], Answers(rest, f), [ACKNOWLEDGEMENT]);
    }
  }

  lemma Associate3(a: seq<bytes>, b: seq<bytes>, c: seq<bytes>)
    ensures a + b + c == a + (b + c)
    ensures a == [] ==> a + (b + c) == b + c
  {
  }

  /** The records of such a client. */
  lemma RecordsOf(o: Options, k: Key)
    requires KeyOk(k)
    ensures ClientRecords(Requests(o), o.disk, k)
         == (if o.ima then [REQUEST_IMA_LOG] else [])
            + (if o.firmware then [REQUEST_CCEL_TABLE, REQUEST_EVENT_LOG] else [])
            + DiskRecords(o.disk) + [MSK_SEND, Package(k)]
  {
    hide Package, KeyOk, DiskRecords;
    var x := (if o.ima then [REQUEST_IMA_LOG] else []) + (if o.firmware then [REQUEST_CCEL_TABLE, REQUEST_EVENT_LOG] else []);
    assert Words(Requests(o)) == x;
    assert x + (DiskRecords(o.disk) + [MSK_SEND, Package(k)]) == x + DiskRecords(o.disk) + [MSK_SEND, Package(k)];
  }

  lemma ClientEnds(o: Options, s: Checks, k: Key, f: Files)
    requires KeyOk(k) && FilesOk(f) && FilesFit(o, f) && !o.dump
    ensures var (d, e) := StartupOf(Channel(true, Answers(Requests(o), f) + [ACKNOWLEDGEMENT], [], []), o, s, k);
            if s.connected && (o.ima ==> s.imaOk) && (o.firmware ==> LogsPass(s, f))
            then d == Channel(true, [], ClientRecords(Requests(o), o.disk, k), []) && e == PackageSent(80)
            else e == Failure
  {
    var c := Channel(true, Answers(Requests(o), f) + [ACKNOWLEDGEMENT], [], []);
    var rest := if o.firmware then AnswerTo(CcelTable, f) + (AnswerTo(EventLog, f) + [ACKNOWLEDGEMENT]) else [ACKNOWLEDGEMENT];
    var x := if o.ima then [REQUEST_IMA_LOG] else [];
    var y := if o.firmware then [REQUEST_CCEL_TABLE, REQUEST_EVENT_LOG] else [];
    AnswersOf(o, f);
    RecordsOf(o, k);
    ImaStage(c, o, s, f, rest);
    var c1 := Channel(true, rest, x, []);
    assert [] + x == x;
    FirmwareStage(c1, o, s, f, [ACKNOWLEDGEMENT]);
    var c2 := Channel(true, [ACKNOWLEDGEMENT], x + y, []);
    DiskSent(c2, o.disk);
    KeySent(c2.(outgoing := x + y + DiskRecords(o.disk)), k);
    hide Answers, AnswerTo, ImaPart, FirmwarePart, DiskPart, KeyPart, Package, KeyOk, DiskRecords, ClientRecords, FilesFit;
  }

  /** The session as a whole, on channels that fail in nothing: given what the server answers to the records of the
      client, the client sends just these records and ends with the whole package sent, exactly when its checks
      pass; and the server ends with the key, exactly when it can install it. */
  lemma SessionCompletes(o: Options, s: Checks, k: Key, f: Files, installs: bool)
    requires KeyOk(k) && DiskRead(o.disk) && FilesOk(f) && FilesFit(o, f) && !o.dump
    ensures var sent := ClientRecords(Requests(o), o.disk, k);
            var (c, r) := Served(Channel(true, sent, [], []), f, installs);
            var (d, e) := StartupOf(Channel(true, c.outgoing, [], []), o, s, k);
            && (e == PackageSent(80) <==> s.connected && (o.ima ==> s.imaOk) && (o.firmware ==> LogsPass(s, f)))
            && (e == PackageSent(80) ==> d.outgoing == sent && d.incoming == [])
            && r == (if !installs then Error else if o.disk == NoDisk then Success else DiskKeySaved)
  {
    var sent := ClientRecords(Requests(o), o.disk, k);
    hide Answers, Served, StartupOf, Package, KeyOk, ClientRecords, FilesFit, LogsPass;
    ServerAnswers(Channel(true, sent, [], []), Requests(o), o.disk, k, f, installs);
    assert [] + Answers(Requests(o), f) == Answers(Requests(o), f);
    ClientEnds(o, s, k, f);
  }

  /** On any channel the key goes out only to a server that is connected, with the log of the IMA and the firmware
      found good, if these are asked for, and never when the logs are only to be dumped. */
  lemma SentOnlyIfChecked(c: Channel, o: Options, s: Checks, k: Key)
    requires KeyOk(k) && StartupOf(c, o, s, k).1.PackageSent?
    ensures s.connected && (o.ima ==> s.imaOk) && !o.dump && (o.firmware ==> s.firmwareOk)
  {
    hide LogsPart, DiskPart, KeyPart, Collected;
    ImaAdds(c, o, s);
    FirmwareAdds(ImaPart(c, o, s).c, o, s);
    DiskAdds(FirmwarePart(ImaPart(c, o, s).c, o, s).c, o.disk);
    if o.ima {
      ImaChecked(c, o, s);
    }
  }

  lemma ImaChecked(c: Channel, o: Options, s: Checks)
    requires o.ima && ImaPart(c, o, s).end == None
    ensures s.imaOk
  {
    hide Collected, FromLittleEndian;
  }

  // ----- sizes that the client does not take, on channels that fail in nothing

  /** A log of the IMA announced with a size of 0 or more than 1 GiB ends the session. */
  lemma ImaRefused(c: Channel, o: Options, s: Checks, word: bytes, rest: seq<bytes>)
    requires c.reliable && o.ima && c.incoming == [word] + rest && |word| <= 8
    requires |word| != 8 || FromLittleEndian(word) == 0 || FromLittleEndian(word) > 0x4000_0000
    ensures ImaPart(c, o, s) == Part(c.(incoming := rest, outgoing := c.outgoing + [REQUEST_IMA_LOG]), Some(Failure))
  {
    SendReliable(c, REQUEST_IMA_LOG);
    ReceiveReliable(c.(outgoing := c.outgoing + [REQUEST_IMA_LOG]), 8, word, rest);
    hide FromLittleEndian, Collected, AfterSend, SentOf, ReceivedOf, AfterReceive;
  }

  /** An event log announced with a size of 0 or more than 2 MiB is passed over, and so is it after an empty table. */
  lemma LogPassedOver(c: Channel, s: Checks, word: bytes, rest: seq<bytes>)
    requires c.reliable && c.incoming == [word] + rest && |word| <= 8
    ensures FromLittleEndian(word) == 0 || FromLittleEndian(word) > 0x20_0000 ==>
              EventLogPart(c, s) == Part(c.(incoming := rest, outgoing := c.outgoing + [REQUEST_EVENT_LOG]), None)
    ensures word == [] ==> LogsPart(c, s) == Part(c.(incoming := rest, outgoing := c.outgoing + [REQUEST_CCEL_TABLE]), None)
  {
    SendReliable(c, REQUEST_EVENT_LOG);
    SendReliable(c, REQUEST_CCEL_TABLE);
    ReceiveReliable(c.(outgoing := c.outgoing + [REQUEST_EVENT_LOG]), 8, word, rest);
    ReceiveReliable(c.(outgoing := c.outgoing + [REQUEST_CCEL_TABLE]), MAX_BUFFER, word, rest);
    hide FromLittleEndian, Collected, AfterSend, SentOf, ReceivedOf, AfterReceive;
  }

  /** When the logs are to be dumped the session ends with that, however it goes, and what was checked is not asked. */
  lemma DumpEnds(c: Channel, o: Options, s: Checks, f: Files, rest: seq<bytes>)
    requires c.reliable && FilesOk(f) && 0 < |f.ccel.value| <= 4096 && |f.eventLog.value| <= 0x20_0000 && o.dump
    requires c.incoming == AnswerTo(CcelTable, f) + (AnswerTo(EventLog, f) + rest)
    ensures var p := FirmwarePart(c, o, s);
            if s.ccelSaved && (f.eventLog.value == [] || s.logSaved) && s.dumped then p.end == Some(Dumped) && p.c.incoming == rest
            else p.end == Some(Failure)
  {
    if s.ccelSaved {
      LogsReceived(c, s, f, rest);
    } else {
      TableNotSaved(c, s, f, AnswerTo(EventLog, f) + rest);
    }
    hide LogsPart, AnswerTo;
  }
}
