/** The attested session that installs a migration key: requests and answers over a channel of records. */
module KeyHandover {
  import opened Bytes

  const MAX_BIND_VM: nat := 256
  const REQUEST_BUFFER: nat := 256
  const MAX_BUFFER: nat := 4096
  const MAX_LOG: nat := 0x20_0000
  const MAX_IMA_LOG: nat := 0x4000_0000
  const PACKAGE: nat := 80

  /** "REQUEST_CCEL_TABLE", "REQUEST_EVENT_LOG", "ATTESTATION_PASS", "REQUEST_IMA_LOG", "ENABLE_FDE_TOKEN",
      "MSK_SEND" and "MSK_ACK" */
  const REQUEST_CCEL_TABLE: bytes := [0x52, 0x45, 0x51, 0x55, 0x45, 0x53, 0x54, 0x5F, 0x43, 0x43, 0x45, 0x4C, 0x5F, 0x54, 0x41, 0x42, 0x4C, 0x45]
  const REQUEST_EVENT_LOG: bytes := [0x52, 0x45, 0x51, 0x55, 0x45, 0x53, 0x54, 0x5F, 0x45, 0x56, 0x45, 0x4E, 0x54, 0x5F, 0x4C, 0x4F, 0x47]
  const TOKEN: bytes := [0x41, 0x54, 0x54, 0x45, 0x53, 0x54, 0x41, 0x54, 0x49, 0x4F, 0x4E, 0x5F, 0x50, 0x41, 0x53, 0x53]
  const REQUEST_IMA_LOG: bytes := [0x52, 0x45, 0x51, 0x55, 0x45, 0x53, 0x54, 0x5F, 0x49, 0x4D, 0x41, 0x5F, 0x4C, 0x4F, 0x47]
  const ENABLE_FDE_TOKEN: bytes := [0x45, 0x4E, 0x41, 0x42, 0x4C, 0x45, 0x5F, 0x46, 0x44, 0x45, 0x5F, 0x54, 0x4F, 0x4B, 0x45, 0x4E]
  const MSK_SEND: bytes := [0x4D, 0x53, 0x4B, 0x5F, 0x53, 0x45, 0x4E, 0x44]
  const MSK_ACK: bytes := [0x4D, 0x53, 0x4B, 0x5F, 0x41, 0x43, 0x4B]

  /** "Attestation Passed, Swtiching Root....." and "Attestation Failed, Continue....." */
  const PASSED: bytes :=
    [0x41, 0x74, 0x74, 0x65, 0x73, 0x74, 0x61, 0x74, 0x69, 0x6F, 0x6E, 0x20, 0x50, 0x61, 0x73, 0x73, 0x65, 0x64,
     0x2C, 0x20, 0x53, 0x77, 0x74, 0x69, 0x63, 0x68, 0x69, 0x6E, 0x67, 0x20, 0x52, 0x6F, 0x6F, 0x74, 0x2E, 0x2E,
     0x2E, 0x2E, 0x2E]
  const REFUSED: bytes :=
    [0x41, 0x74, 0x74, 0x65, 0x73, 0x74, 0x61, 0x74, 0x69, 0x6F, 0x6E, 0x20, 0x46, 0x61, 0x69, 0x6C, 0x65, 0x64,
     0x2C, 0x20, 0x43, 0x6F, 0x6E, 0x74, 0x69, 0x6E, 0x75, 0x65, 0x2E, 0x2E, 0x2E, 0x2E, 0x2E]

  /** The server's buffer with a request in it; the last byte is always a NUL. */
  function Buffer(request: bytes): (r: bytes)
    ensures |r| == REQUEST_BUFFER
  {
    if |request| < REQUEST_BUFFER then request + Zeros(REQUEST_BUFFER - |request|)
    else request[..REQUEST_BUFFER - 1] + [0]
  }

  /** A reply is the whole buffer, with the text and its NUL copied over the request. */
  function Reply(request: bytes, text: bytes): (r: bytes)
    requires |text| < REQUEST_BUFFER
    ensures |r| == REQUEST_BUFFER && text + [0] <= r
  {
    Patched(Buffer(request), 0, text + [0])
  }

  /** A migration key as one agent fetches it and the other installs it. */
  datatype Key = Key(msk: bytes, randIv: bytes, tag: bytes)

  predicate KeyOk(k: Key) {
    |k.msk| == 32 && |k.randIv| == 32 && |k.tag| == 16
  }

  function Package(k: Key): (r: bytes)
    requires KeyOk(k)
    ensures |r| == PACKAGE
  {
    k.msk + k.randIv + k.tag
  }

  function Unpack(p: bytes): (k: Key)
    requires |p| == PACKAGE
    ensures KeyOk(k)
  {
    Key(p[..32], p[32..64], p[64..])
  }

  lemma UnpackPackage(k: Key)
    requires KeyOk(k)
    ensures Unpack(Package(k)) == k
  {
  }

  /** A slot set to READY for a guest with a key. */
  datatype Slot = Slot(guestRd: nat, key: Key)

  // ----- the channel, the TSI and the agent's arguments

  /** How the channel answers a call: an error, or how much of a record it sends at most. */
  datatype Answer = Failed | Sends(n: nat)

  /** A channel of records: those that will arrive, those sent, and the answers to come. A reliable one
      never fails and sends records whole; the answers of any other are whatever they are, and when there
      is none left, calls fail. */
  datatype Channel = Channel(reliable: bool, incoming: seq<bytes>, outgoing: seq<bytes>, answers: seq<Answer>)

  /** The answer to a call with so many bytes. */
  function AnswerOf(c: Channel, size: nat): Answer {
    if c.reliable then Sends(size) else if c.answers == [] then Failed else c.answers[0]
  }

  function Answered(c: Channel): Channel {
    if c.reliable || c.answers == [] then c else c.(answers := c.answers[1..])
  }

  /** rats_tls_transmit: how much of the record was sent, if it was. */
  function SentOf(c: Channel, data: bytes): (r: Option<nat>)
    ensures r.Some? ==> r.value <= |data|
  {
    match AnswerOf(c, |data|)
    case Failed => None
    case Sends(n) => Some(if n < |data| then n else |data|)
  }

  function AfterSend(c: Channel, data: bytes): Channel {
    match SentOf(c, data)
    case None => Answered(c)
    case Some(n) => Answered(c).(outgoing := c.outgoing + [data[..n]])
  }

  /** rats_tls_receive: at most size bytes of the next record; what is left of it stays. */
  function ReceivedOf(c: Channel, size: nat): Option<bytes> {
    if AnswerOf(c, size) == Failed || c.incoming == [] then None else Some(Taken(c.incoming, size))
  }

  function AfterReceive(c: Channel, size: nat): Channel
    requires size > 0
  {
    if ReceivedOf(c, size) == None then Answered(c) else Answered(c).(incoming := Left(c.incoming, size))
  }

  class Session {
    const reliable: bool
    var incoming: seq<bytes>
    var outgoing: seq<bytes>
    var answers: seq<Answer>

    constructor (reliable: bool, incoming: seq<bytes>, answers: seq<Answer>)
      ensures Now() == Channel(reliable, incoming, [], answers)
    {
      this.reliable, this.incoming, outgoing, this.answers := reliable, incoming, [], answers;
    }

    ghost function Now(): Channel
      reads this
    {
      Channel(reliable, incoming, outgoing, answers)
    }

    method NextAnswer(size: nat) returns (a: Answer)
      modifies `answers
      ensures a == AnswerOf(old(Now()), size) && Now() == Answered(old(Now()))
      ensures !reliable && a.Sends? ==> |answers| < |old(answers)|
    {
      a := Failed;
      if reliable {
        a := Sends(size);
      } else if answers != [] {
        a := answers[0];
        answers := answers[1..];
      }
    }

    method Transmit(data: bytes) returns (ok: bool, n: nat)
      modifies `outgoing, `answers
      ensures SentOf(old(Now()), data) == (if ok then Some(n) else None) && Now() == AfterSend(old(Now()), data)
      ensures n <= |data| && (reliable ==> ok && n == |data|)
      ensures ok && n == 0 && data != [] ==> |answers| < |old(answers)|
    {
      var a := NextAnswer(|data|);
      if a == Failed {
        return false, 0;
      }
      ok, n := true, if a.n < |data| then a.n else |data|;
      outgoing := outgoing + [data[..n]];
    }

    method Receive(size: nat) returns (ok: bool, data: bytes)
      requires size > 0
      modifies `incoming, `answers
      ensures ReceivedOf(old(Now()), size) == (if ok then Some(data) else None) && Now() == AfterReceive(old(Now()), size)
      ensures ok ==> old(incoming) != [] && data == Taken(old(incoming), size) && incoming == Left(old(incoming), size)
      ensures !ok ==> incoming == old(incoming)
      ensures reliable && old(incoming) != [] ==> ok
    {
      var a := NextAnswer(size);
      if a == Failed || incoming == [] {
        return false, [];
      }
      ok, data := true, Taken(incoming, size);
      incoming := Left(incoming, size);
    }
  }

  function Taken(records: seq<bytes>, size: nat): bytes
    requires records != []
  {
    if |records[0]| <= size then records[0] else records[0][..size]
  }

  function Left(records: seq<bytes>, size: nat): (r: seq<bytes>)
    requires records != [] && size > 0
    ensures Weight(r) < Weight(records)
  {
    if |records[0]| <= size then records[1..] else [records[0][size..]] + records[1..]
  }

  function Weight(records: seq<bytes>): nat {
    if records == [] then 0 else 1 + |records[0]| + Weight(records[1..])
  }

  class Tsi {
    /** The guests bound to this agent, if they can be asked for, and whether setting a slot succeeds. */
    const bound: Option<seq<nat>>
    const setOk: bool
    /** Every slot the agent has asked to be set to READY. */
    var ready: seq<Slot>

    constructor (bound: Option<seq<nat>>, setOk: bool)
      ensures this.bound == bound && this.setOk == setOk && ready == []
    {
      this.bound, this.setOk, ready := bound, setOk, [];
    }

    method SetReady(slot: Slot) returns (ok: bool)
      modifies this
      ensures ready == old(ready) + [slot] && ok == setOk
    {
      ready := ready + [slot];
      ok := setOk;
    }
  }

  predicate Bound(tsi: Tsi, guestRd: nat) {
    tsi.bound.Some? && guestRd in tsi.bound.value
  }

  class Args {
    var guestRd: nat
    var key: Key

    constructor (guestRd: nat, key: Key)
      ensures this.guestRd == guestRd && this.key == key
    {
      this.guestRd, this.key := guestRd, key;
    }

    method Clear()
      modifies this
      ensures guestRd == 0 && key == Key(Zeros(32), Zeros(32), Zeros(16))
    {
      guestRd, key := 0, Key(Zeros(32), Zeros(32), Zeros(16));
    }
  }

  /** The loop over the list of bound guests. */
  method IsBound(tsi: Tsi, guestRd: nat) returns (legal: bool)
    requires tsi.bound.Some? ==> |tsi.bound.value| == MAX_BIND_VM
    ensures legal <==> Bound(tsi, guestRd)
  {
    legal := false;
    if tsi.bound == None {
      return;
    }
    var i := 0;
    while i < MAX_BIND_VM
      invariant 0 <= i <= MAX_BIND_VM && !legal
      invariant forall j :: 0 <= j < i ==> tsi.bound.value[j] != guestRd
    {
      if tsi.bound.value[i] == guestRd {
        return true;
      }
      i := i + 1;
    }
  }

  // ----- the server

  /** What deal_client_req returns: 0, 0x68 after a disk key, or an error. */
  datatype Ret = Success | DiskKeySaved | Error

  /** The package a server comes to from these records, if every call succeeds. */
  function Offered(records: seq<bytes>): Option<bytes>
    decreases Weight(records)
  {
    if records == [] then None
    else
      var request, rest := Taken(records, REQUEST_BUFFER), Left(records, REQUEST_BUFFER);
      if REQUEST_CCEL_TABLE <= request || REQUEST_EVENT_LOG <= request then Offered(rest)
      else if TOKEN <= request then None
      else if REQUEST_IMA_LOG <= request then Offered(rest)
      else if ENABLE_FDE_TOKEN <= request then (if rest == [] then None else Offered(Left(rest, MAX_BUFFER)))
      else if MSK_SEND <= request && rest != [] && |Taken(rest, PACKAGE)| == PACKAGE then Some(Taken(rest, PACKAGE))
      else None
  }

  /** The agent's files and whether the disk key can be saved. */
  datatype Files = Files(ccel: Option<bytes>, eventLog: Option<bytes>, ima: Option<bytes>, saveOk: bool)

  /** The answer to a request for the table: all of it in one record. */
  function TableAnswer(c: Channel, f: Files): (Channel, bool) {
    match f.ccel
    case None => (c, false)
    case Some(data) => (AfterSend(c, data), SentOf(c, data) == Some(|data|))
  }

  /** The answer to a request for a log: its size, then the data in as many records as it takes. */
  function SizedAnswer(c: Channel, data: bytes): (Channel, bool) {
    var size := LittleEndian(|data|, 8);
    if SentOf(c, size) != Some(8) then (AfterSend(c, size), false) else InRecords(AfterSend(c, size), data)
  }

  function InRecords(c: Channel, data: bytes): (Channel, bool)
    decreases |data|, |c.answers|
  {
    if data == [] then (c, true)
    else
      match SentOf(c, data)
      case None => (AfterSend(c, data), false)
      case Some(n) => InRecords(AfterSend(c, data), data[n..])
  }

  function LogAnswer(c: Channel, log: Option<bytes>): (Channel, bool) {
    if log == None then (c, false) else SizedAnswer(c, log.value)
  }

  /** An empty log is not announced. */
  function ImaAnswer(c: Channel, log: Option<bytes>): (Channel, bool) {
    if log == Some([]) then (c, true) else LogAnswer(c, log)
  }

  lemma {:induction false} InRecordsKeeps(c: Channel, data: bytes)
    ensures InRecords(c, data).0.incoming == c.incoming
    decreases |data|, |c.answers|
  {
    if data != [] && SentOf(c, data).Some? {
      InRecordsKeeps(AfterSend(c, data), data[SentOf(c, data).value..]);
    }
  }

  lemma AnswersKeep(c: Channel, f: Files)
    ensures TableAnswer(c, f).0.incoming == c.incoming
    ensures LogAnswer(c, f.eventLog).0.incoming == c.incoming && ImaAnswer(c, f.ima).0.incoming == c.incoming
  {
    if f.eventLog.Some? {
      InRecordsKeeps(AfterSend(c, LittleEndian(|f.eventLog.value|, 8)), f.eventLog.value);
    }
    if f.ima.Some? {
      InRecordsKeeps(AfterSend(c, LittleEndian(|f.ima.value|, 8)), f.ima.value);
    }
    hide LittleEndian;
  }

  /** What a session leaves at the server, and how it ends there; a key that comes can be installed or not. */
  function Served(c: Channel, f: Files, installs: bool): (Channel, Ret)
    decreases Weight(c.incoming)
  {
    var d := AfterReceive(c, REQUEST_BUFFER);
    match ReceivedOf(c, REQUEST_BUFFER)
    case None => (d, Error)
    case Some(request) =>
      AnswersKeep(d, f);
      if REQUEST_CCEL_TABLE <= request then
        if TableAnswer(d, f).1 then Served(TableAnswer(d, f).0, f, installs) else (TableAnswer(d, f).0, Error)
      else if REQUEST_EVENT_LOG <= request then
        if LogAnswer(d, f.eventLog).1 then Served(LogAnswer(d, f.eventLog).0, f, installs)
        else (LogAnswer(d, f.eventLog).0, Error)
      else if TOKEN <= request then
        (AfterSend(d, Reply(request, PASSED)), if SentOf(d, Reply(request, PASSED)).Some? then Success else Error)
      else if REQUEST_IMA_LOG <= request then
        if ImaAnswer(d, f.ima).1 then Served(ImaAnswer(d, f.ima).0, f, installs) else (ImaAnswer(d, f.ima).0, Error)
      else if ENABLE_FDE_TOKEN <= request then
        var e := AfterReceive(d, MAX_BUFFER);
        if ReceivedOf(d, MAX_BUFFER) == None || !f.saveOk then (e, Error)
        else
          var (g, r) := Served(e, f, installs);
          (g, if r == Success then DiskKeySaved else r)
      else if MSK_SEND <= request then
        var e := AfterSend(d, Reply(request, MSK_ACK));
        if SentOf(d, Reply(request, MSK_ACK)) == None then (e, Error)
        else (AfterReceive(e, PACKAGE), if installs && PackageCame(e) then Success else Error)
      else (AfterSend(d, Reply(request, REFUSED)), Error)
  }

  /** A whole package is the next to be received. */
  predicate PackageCame(c: Channel) {
    ReceivedOf(c, PACKAGE).Some? && |ReceivedOf(c, PACKAGE).value| == PACKAGE
  }

  /** The agent's files can be read and written. */
  predicate FilesOk(f: Files) {
    f.ccel.Some? && f.eventLog.Some? && f.ima.Some? && f.saveOk
  }

  // ----- reliable channels

  lemma SendReliable(c: Channel, data: bytes)
    requires c.reliable
    ensures SentOf(c, data) == Some(|data|) && AfterSend(c, data) == c.(outgoing := c.outgoing + [data])
  {
    assert data[..|data|] == data;
  }

  lemma ReceiveReliable(c: Channel, size: nat, x: bytes, rest: seq<bytes>)
    requires c.reliable && c.incoming == [x] + rest && 0 < size && |x| <= size
    ensures ReceivedOf(c, size) == Some(x) && AfterReceive(c, size) == c.(incoming := rest)
  {
  }

  /** The records of an answer. */
  function SizedRecords(data: bytes): seq<bytes> {
    [LittleEndian(|data|, 8)] + (if data == [] then [] else [data])
  }

  lemma SizedReliable(c: Channel, data: bytes)
    requires c.reliable
    ensures SizedAnswer(c, data) == (c.(outgoing := c.outgoing + SizedRecords(data)), true)
  {
    var size := LittleEndian(|data|, 8);
    SendReliable(c, size);
    var d := c.(outgoing := c.outgoing + [size]);
    hide LittleEndian;
    if data == [] {
      assert [size] + [] == [size];
    } else {
      SendReliable(d, data);
      assert data[|data|..] == [];
      assert InRecords(d, data) == (d.(outgoing := d.outgoing + [data]), true);
      assert c.outgoing + [size] + [data] == c.outgoing + ([size] + [data]);
    }
  }

  /** With everything well, a session in which a package comes ends without error. */
  lemma {:induction false} ServedWell(c: Channel, f: Files)
    requires c.reliable && FilesOk(f) && Offered(c.incoming).Some?
    ensures Served(c, f, true).1 != Error
    decreases Weight(c.incoming)
  {
    var d := AfterReceive(c, REQUEST_BUFFER);
    var request := ReceivedOf(c, REQUEST_BUFFER).value;
    SendReliable(d, f.ccel.value);
    SizedReliable(d, f.eventLog.value);
    SizedReliable(d, f.ima.value);
    SendReliable(d, Reply(request, MSK_ACK));
    AnswersKeep(d, f);
    hide AfterSend, SentOf, SizedAnswer, Reply, SizedRecords;
    if REQUEST_CCEL_TABLE <= request {
      ServedWell(TableAnswer(d, f).0, f);
    } else if REQUEST_EVENT_LOG <= request {
      ServedWell(LogAnswer(d, f.eventLog).0, f);
    } else if REQUEST_IMA_LOG <= request {
      ServedWell(ImaAnswer(d, f.ima).0, f);
    } else if ENABLE_FDE_TOKEN <= request {
      ServedWell(AfterReceive(d, MAX_BUFFER), f);
    }
  }

  class Server {
    const session: Session
    const tsi: Tsi
    const args: Args
    const files: Files

    constructor (session: Session, tsi: Tsi, args: Args, files: Files)
      ensures this.session == session && this.tsi == tsi && this.args == args && this.files == files
    {
      this.session, this.tsi, this.args, this.files := session, tsi, args, files;
    }

    ghost predicate Valid() {
      tsi.bound.Some? ==> |tsi.bound.value| == MAX_BIND_VM
    }

    /** Nothing outside the agent fails. */
    predicate AllWell() {
      session.reliable && tsi.setOk && FilesOk(files)
    }

    /** send_ccel_data: all in one record. */
    method SendCcelData() returns (ok: bool)
      modifies session`outgoing, session`answers
      ensures (session.Now(), ok) == TableAnswer(old(session.Now()), files)
    {
      if files.ccel == None {
        return false;
      }
      var n;
      ok, n := session.Transmit(files.ccel.value);
      ok := ok && n == |files.ccel.value|;
    }

    /** send_event_log and send_ima_log: the size, then the data in as many records as it takes. */
    method SendSized(data: bytes) returns (ok: bool)
      modifies session`outgoing, session`answers
      ensures (session.Now(), ok) == SizedAnswer(old(session.Now()), data)
    {
      hide LittleEndian;
      var n;
      ok, n := session.Transmit(LittleEndian(|data|, 8));
      if !ok || n != 8 {
        return false;
      }
      var sendSize: nat := 0;
      assert data[0..] == data;
      while sendSize < |data|
        invariant sendSize <= |data|
        invariant InRecords(session.Now(), data[sendSize..]) == SizedAnswer(old(session.Now()), data)
        modifies session`outgoing, session`answers
        decreases |data| - sendSize, |session.answers|
      {
        ok, n := session.Transmit(data[sendSize..]);
        if !ok {
          return;
        }
        assert data[sendSize..][n..] == data[sendSize + n..];
        sendSize := sendSize + n;
      }
      ok := true;
    }

    /** The slot is set to READY exactly when a whole package has come and the guest is bound; afterwards nothing
        is left of the arguments. */
    method ReceiveAndSaveMsk() returns (r: Ret)
      requires Valid()
      modifies session`incoming, session`answers, tsi, args
      ensures args.guestRd == 0 && args.key == Key(Zeros(32), Zeros(32), Zeros(16))
      ensures session.Now() == AfterReceive(old(session.Now()), PACKAGE)
      ensures tsi.ready == if old(PackageCame(session.Now())) && Bound(tsi, old(args.guestRd))
                           then old(tsi.ready) + [Slot(old(args.guestRd), Unpack(ReceivedOf(old(session.Now()), PACKAGE).value))]
                           else old(tsi.ready)
      ensures r == if old(PackageCame(session.Now())) && Bound(tsi, old(args.guestRd)) && tsi.setOk then Success else Error
    {
      var ok, p := session.Receive(PACKAGE);
      if !ok || |p| != PACKAGE {
        args.Clear();
        return Error;
      }
      var legal := IsBound(tsi, args.guestRd);
      if !legal {
        args.Clear();
        return Error;
      }
      ok := tsi.SetReady(Slot(args.guestRd, Key(p[..32], p[32..64], p[64..])));
      args.Clear();
      r := if ok then Success else Error;
    }

    /** Whether a key that comes is installed. */
    predicate Installs(guestRd: nat) {
      Bound(tsi, guestRd) && tsi.setOk
    }

    /** deal_client_req. Whatever comes before it, a slot is set to READY at most once, for the guest of the
        session, which is bound, with the key of the package that follows the request to send it. What is
        answered, and how the session ends, is as Served says. */
    method DealClientReq() returns (r: Ret)
      requires Valid()
      modifies session, tsi, args
      ensures (session.Now(), r) == Served(old(session.Now()), files, Installs(old(args.guestRd)))
      ensures tsi.ready == old(tsi.ready)
           || (&& Offered(old(session.incoming)).Some? && |Offered(old(session.incoming)).value| == PACKAGE
               && Bound(tsi, old(args.guestRd))
               && tsi.ready == old(tsi.ready) + [Slot(old(args.guestRd), Unpack(Offered(old(session.incoming)).value))])
      ensures r != Error && Offered(old(session.incoming)).Some? ==> tsi.ready != old(tsi.ready)
      decreases Weight(session.incoming)
    {
      hide LittleEndian, Reply, TableAnswer, LogAnswer, SizedAnswer, InRecords;
      var ok, request := session.Receive(REQUEST_BUFFER);
      if !ok {
        return Error;
      }
      AnswersKeep(session.Now(), files);
      if REQUEST_CCEL_TABLE <= request {
        ok := SendCcelData();
        if !ok {
          return Error;
        }
        r := DealClientReq();
        return;
      }
      if REQUEST_EVENT_LOG <= request {
        ok := SendLog(files.eventLog);
        if !ok {
          return Error;
        }
        r := DealClientReq();
        return;
      }
      var n;
      if TOKEN <= request {
        ok, n := session.Transmit(Reply(request, PASSED));
        return if ok then Success else Error;
      }
      if REQUEST_IMA_LOG <= request {
        ok := true;
        if files.ima != Some([]) {
          ok := SendLog(files.ima);
        }
        if !ok {
          return Error;
        }
        r := DealClientReq();
        return;
      }
      if ENABLE_FDE_TOKEN <= request {
        var key;
        ok, key := session.Receive(MAX_BUFFER);
        if !ok || !files.saveOk {
          return Error;
        }
        r := DealClientReq();
        return if r == Success then DiskKeySaved else r;
      }
      if MSK_SEND <= request {
        ok, n := session.Transmit(Reply(request, MSK_ACK));
        if !ok {
          return Error;
        }
        r := ReceiveAndSaveMsk();
        return;
      }
      ok, n := session.Transmit(Reply(request, REFUSED));
      r := Error;
    }

    /** A log that can be read is sent. */
    method SendLog(log: Option<bytes>) returns (ok: bool)
      modifies session`outgoing, session`answers
      ensures (session.Now(), ok) == LogAnswer(old(session.Now()), log)
    {
      if log == None {
        return false;
      }
      ok := SendSized(log.value);
    }
  }

  // ----- what a client sends

  /** What a client may ask for before it hands over the key. */
  datatype Request = CcelTable | EventLog | ImaLog

  /** The disk key it may hand over before that: the client announces it before it reads the file. */
  datatype Disk = NoDisk | DiskKey(file: Option<bytes>)

  function Word(r: Request): bytes {
    match r
    case CcelTable => REQUEST_CCEL_TABLE
    case EventLog => REQUEST_EVENT_LOG
    case ImaLog => REQUEST_IMA_LOG
  }

  function DiskRecords(disk: Disk): seq<bytes> {
    match disk
    case NoDisk => []
    case DiskKey(file) => [ENABLE_FDE_TOKEN] + (if file.Some? then [file.value] else [])
  }

  function KeyRecords(disk: Disk, k: Key): seq<bytes>
    requires KeyOk(k)
  {
    DiskRecords(disk) + [MSK_SEND, Package(k)]
  }

  /** All a client sends in a session: its requests, the disk key, then the migration key. */
  function ClientRecords(reqs: seq<Request>, disk: Disk, k: Key): seq<bytes>
    requires KeyOk(k)
  {
    Words(reqs) + KeyRecords(disk, k)
  }

  function Words(reqs: seq<Request>): (r: seq<bytes>)
    ensures |r| == |reqs|
  {
    seq(|reqs|, i requires 0 <= i < |reqs| => Word(reqs[i]))
  }

  /** Not all records have been sent or have arrived, and any may have been cut short. */
  predicate CutShort(records: seq<bytes>, full: seq<bytes>) {
    |records| <= |full| && forall i :: 0 <= i < |records| ==> records[i] <= full[i]
  }

  lemma CutShortFurther(a: seq<bytes>, b: seq<bytes>, c: seq<bytes>)
    requires CutShort(a, b) && CutShort(b, c)
    ensures CutShort(a, c)
  {
    forall i | 0 <= i < |a| ensures a[i] <= c[i] {
      assert a[i] <= b[i] && b[i] <= c[i];
    }
  }

  // ----- what the server makes of a client's records

  predicate IsRequest(word: bytes) {
    || word == REQUEST_CCEL_TABLE || word == REQUEST_EVENT_LOG || word == TOKEN
    || word == REQUEST_IMA_LOG || word == ENABLE_FDE_TOKEN || word == MSK_SEND
  }

  /** No request is the beginning of another. */
  lemma RequestsDiffer(a: bytes, b: bytes, text: bytes)
    requires IsRequest(a) && IsRequest(b) && a <= text && text <= b
    ensures a == b && text == b
  {
    assert text[0] == a[0] == b[0];
    assert |a| > 8 ==> text[8] == a[8] == b[8];
  }

  /** Exactly the request `word` is recognised in the text. */
  predicate Only(text: bytes, word: bytes, candidate: bytes) {
    candidate <= text <==> candidate == word == text
  }

  /** A record that is cut short is no request, a whole one only itself. */
  lemma Recognised(text: bytes, word: bytes)
    requires IsRequest(word) && text <= word
    ensures Only(text, word, REQUEST_CCEL_TABLE) && Only(text, word, REQUEST_EVENT_LOG) && Only(text, word, TOKEN)
    ensures Only(text, word, REQUEST_IMA_LOG) && Only(text, word, ENABLE_FDE_TOKEN) && Only(text, word, MSK_SEND)
  {
    forall w | IsRequest(w) ensures Only(text, word, w) {
      if w <= text {
        RequestsDiffer(w, word, text);
      }
    }
    assert IsRequest(REQUEST_CCEL_TABLE) && IsRequest(REQUEST_EVENT_LOG) && IsRequest(TOKEN);
    assert IsRequest(REQUEST_IMA_LOG) && IsRequest(ENABLE_FDE_TOKEN) && IsRequest(MSK_SEND);
  }

  /** One request from records that may be cut short. */
  lemma OfferedStep(records: seq<bytes>, word: bytes)
    requires records != [] && IsRequest(word) && records[0] <= word
    ensures records[0] != word ==> Offered(records) == None
    ensures records[0] == word && (word == REQUEST_CCEL_TABLE || word == REQUEST_EVENT_LOG || word == REQUEST_IMA_LOG) ==>
              Offered(records) == Offered(records[1..])
    ensures records[0] == word == ENABLE_FDE_TOKEN ==>
              Offered(records) == if |records| == 1 then None else Offered(Left(records[1..], MAX_BUFFER))
    ensures records[0] == word == MSK_SEND && |records| > 1 && |records[1]| <= PACKAGE ==>
              Offered(records) == if |records[1]| == PACKAGE then Some(records[1]) else None
    ensures records[0] == word == MSK_SEND && |records| == 1 ==> Offered(records) == None
  {
    Recognised(records[0], word);
    assert Taken(records, REQUEST_BUFFER) == records[0] && Left(records, REQUEST_BUFFER) == records[1..];
  }

  /** The server reads at most MAX_BUFFER bytes of a disk key's file and takes the rest for requests. From
      this length on a file has room for a whole request of its own and a package behind it. */
  const FILE_WITH_PACKAGE: nat := MAX_BUFFER + REQUEST_BUFFER + PACKAGE

  predicate DiskOk(disk: Disk) {
    disk.DiskKey? && disk.file.Some? ==> |disk.file.value| < FILE_WITH_PACKAGE
  }

  /** The client has announced no disk key, or the file can be read, by itself and by the server at once. */
  predicate DiskRead(disk: Disk) {
    disk.DiskKey? ==> disk.file.Some? && |disk.file.value| <= MAX_BUFFER
  }

  /** Whatever requests come first and whatever is lost or cut short, the only package a server comes to is
      the client's; and it comes to it when everything arrives and the disk key's file is read. When the
      client cannot read that file, the request to send the key is taken for it. */
  lemma {:induction false} OnlyTheClientsKey(reqs: seq<Request>, disk: Disk, k: Key, records: seq<bytes>)
    requires KeyOk(k) && DiskOk(disk) && CutShort(records, ClientRecords(reqs, disk, k))
    ensures Offered(records).Some? ==> Offered(records).value == Package(k)
    ensures records == ClientRecords(reqs, disk, k) && DiskRead(disk) ==> Offered(records).Some?
    ensures disk == DiskKey(None) ==> Offered(records) == None
    decreases |reqs|
  {
    hide Package, KeyOk, Offered, Left, Taken;
    var full := ClientRecords(reqs, disk, k);
    if records == [] {
      NothingOffered();
      assert full != [];
    } else if reqs == [] {
      OnlyKeyLeft(disk, k, records);
    } else {
      FirstCutShort(records, full);
      OfferedStep(records, full[0]);
      var rest := ClientRecords(reqs[1..], disk, k);
      assert full[1..] == rest;
      TailCutShort(records, full, rest, 1);
      OnlyTheClientsKey(reqs[1..], disk, k, records[1..]);
    }
  }

  lemma OnlyKeyLeft(disk: Disk, k: Key, records: seq<bytes>)
    requires KeyOk(k) && DiskOk(disk) && records != [] && CutShort(records, KeyRecords(disk, k))
    ensures Offered(records).Some? ==> Offered(records).value == Package(k)
    ensures records == KeyRecords(disk, k) && DiskRead(disk) ==> Offered(records).Some?
    ensures disk == DiskKey(None) ==> Offered(records) == None
  {
    hide Package, KeyOk, Offered, Left, Taken;
    var full := KeyRecords(disk, k);
    FirstCutShort(records, full);
    match disk
    case NoDisk =>
      assert full == [MSK_SEND, Package(k)];
      OnlyPackageLeft(k, records);
    case DiskKey(Some(file)) =>
      OfferedStep(records, ENABLE_FDE_TOKEN);
      if |records| > 1 {
        assert full[1] == file && records[1] <= full[1];
        TailCutShort(records, full, [MSK_SEND, Package(k)], 2);
        if |records[1]| <= MAX_BUFFER {
          FileTaken(records, full);
          OnlyPackageLeft(k, records[2..]);
        } else {
          FileCut(records);
          RestOfFileRead(records[1][MAX_BUFFER..], k, records[2..]);
        }
      }
    case DiskKey(None) =>
      OfferedStep(records, ENABLE_FDE_TOKEN);
      if |records| > 1 {
        assert full[1] == MSK_SEND;
        FileTaken(records, full);
        PackageIsNoRequest(records[2..]);
      }
  }

  /** A package read as a request has nothing behind it. */
  lemma PackageIsNoRequest(records: seq<bytes>)
    requires |records| <= 1 && (records != [] ==> |records[0]| <= PACKAGE)
    ensures Offered(records) == None
  {
    if records != [] {
      var rest := Left(records, REQUEST_BUFFER);
      assert rest == [];
      assert Offered(rest) == None;
    }
  }

  lemma FirstCutShort(records: seq<bytes>, full: seq<bytes>)
    requires CutShort(records, full) && records != []
    ensures records[0] <= full[0]
  {
  }

  lemma FileTaken(records: seq<bytes>, full: seq<bytes>)
    requires CutShort(records, full) && |records| > 1 && |records[1]| <= MAX_BUFFER
    ensures Left(records[1..], MAX_BUFFER) == records[2..]
  {
  }

  lemma FileCut(records: seq<bytes>)
    requires |records| > 1 && |records[1]| > MAX_BUFFER
    ensures Left(records[1..], MAX_BUFFER) == [records[1][MAX_BUFFER..]] + records[2..]
  {
  }

  /** What is left of a disk key's file is taken for requests, but too short for one and a package. */
  lemma RestOfFileRead(x: bytes, k: Key, rest: seq<bytes>)
    requires KeyOk(k) && |x| < REQUEST_BUFFER + PACKAGE && CutShort(rest, [MSK_SEND, Package(k)])
    ensures Offered([x] + rest).Some? ==> Offered([x] + rest).value == Package(k)
    decreases |x|
  {
    hide Package, KeyOk;
    var all := [x] + rest;
    OnlyPackageLeft(k, rest);
    if |x| <= REQUEST_BUFFER {
      assert Left(all, REQUEST_BUFFER) == rest;
      if rest != [] {
        FirstCutShort(rest, [MSK_SEND, Package(k)]);
        assert Left(rest, MAX_BUFFER) == rest[1..];
        TailCutShort(rest, [MSK_SEND, Package(k)], [Package(k)], 1);
        assert rest[1..] != [] ==> rest[1..][0] <= Package(k);
        PackageIsNoRequest(rest[1..]);
      }
    } else {
      var y := x[REQUEST_BUFFER..];
      assert Left(all, REQUEST_BUFFER) == [y] + rest && Left([y] + rest, MAX_BUFFER) == rest;
      RestOfFileRead(y, k, rest);
    }
  }

  /** From FILE_WITH_PACKAGE on, for every length there is a file whose end the server takes for the key. */
  lemma LongFileOffersItself(n: nat, p: bytes, k: Key) returns (file: bytes)
    requires n >= FILE_WITH_PACKAGE && |p| == PACKAGE && KeyOk(k)
    ensures |file| == n && Offered(ClientRecords([], DiskKey(Some(file)), k)) == Some(p)
  {
    var request, tail := Buffer(MSK_SEND), p + Zeros(n - FILE_WITH_PACKAGE);
    file := Zeros(MAX_BUFFER) + (request + tail);
    var last := [MSK_SEND, Package(k)];
    var records := ClientRecords([], DiskKey(Some(file)), k);
    assert records == [ENABLE_FDE_TOKEN, file] + last && records[1..] == [file] + last;
    assert file[MAX_BUFFER..] == request + tail;
    hide Package, Offered, Buffer;
    OfferedStep(records, ENABLE_FDE_TOKEN);
    FileCut(records);
    assert records[2..] == last;
    MskSendRead(request, tail, p, last);
  }

  lemma MskSendRead(request: bytes, tail: bytes, p: bytes, last: seq<bytes>)
    requires request == Buffer(MSK_SEND) && p <= tail && |p| == PACKAGE
    ensures Offered([request + tail] + last) == Some(p)
  {
    var x, all := request + tail, [request + tail] + last;
    assert x[..REQUEST_BUFFER] == request && x[REQUEST_BUFFER..] == tail;
    assert Taken(all, REQUEST_BUFFER) == request && Left(all, REQUEST_BUFFER) == [tail] + last;
    assert request[0] == 0x4D && MSK_SEND <= request;
    assert Taken([tail] + last, PACKAGE) == p;
  }

  lemma OnlyPackageLeft(k: Key, records: seq<bytes>)
    requires KeyOk(k) && CutShort(records, [MSK_SEND, Package(k)])
    ensures Offered(records).Some? ==> Offered(records).value == Package(k)
    ensures records == [MSK_SEND, Package(k)] ==> Offered(records).Some?
  {
    hide Package, KeyOk, Offered;
    if records == [] {
      NothingOffered();
    } else {
      assert records[0] <= MSK_SEND;
      OfferedStep(records, MSK_SEND);
      assert |records| > 1 ==> records[1] <= Package(k);
    }
  }

  lemma NothingOffered()
    ensures Offered([]) == None
  {
  }

  lemma TailCutShort(records: seq<bytes>, full: seq<bytes>, rest: seq<bytes>, n: nat)
    requires CutShort(records, full) && n <= |records| && full[n..] == rest
    ensures CutShort(records[n..], rest) && (records == full ==> records[n..] == rest)
  {
    forall i | 0 <= i < |records| - n ensures records[n..][i] <= rest[i] {
      assert records[n + i] <= full[n + i];
    }
  }

  /** The server's part of a session with a client that has sent `sent`, of which some has arrived: at most
      one slot is set to READY, that of the guest the session is for, which is bound, and with the key the
      client fetched. */
  method ServeClient(server: Server, ghost reqs: seq<Request>, ghost disk: Disk, ghost k: Key, ghost sent: seq<bytes>)
    returns (r: Ret)
    requires server.Valid() && KeyOk(k) && DiskOk(disk)
    requires CutShort(sent, ClientRecords(reqs, disk, k)) && CutShort(server.session.incoming, sent)
    modifies server.session, server.tsi, server.args
    ensures server.tsi.ready == old(server.tsi.ready)
         || (&& Bound(server.tsi, old(server.args.guestRd)) && disk != DiskKey(None)
             && server.tsi.ready == old(server.tsi.ready) + [Slot(old(server.args.guestRd), k)])
    ensures old(server.session.incoming) == ClientRecords(reqs, disk, k) && DiskRead(disk) ==>
              && (r != Error ==> server.tsi.ready == old(server.tsi.ready) + [Slot(old(server.args.guestRd), k)])
              && (server.AllWell() && Bound(server.tsi, old(server.args.guestRd)) ==> r != Error)
  {
    CutShortFurther(server.session.incoming, sent, ClientRecords(reqs, disk, k));
    OnlyTheClientsKey(reqs, disk, k, server.session.incoming);
    UnpackPackage(k);
    if server.session.reliable && FilesOk(server.files) && Offered(server.session.incoming).Some? {
      ServedWell(server.session.Now(), server.files);
    }
    hide Served, Offered;
    r := server.DealClientReq();
  }

  // ----- the client's part

  /** What the client has been told to do. */
  datatype Options = Options(ima: bool, firmware: bool, dump: bool, disk: Disk)

  /** The results of foreign code: connecting and negotiating with what is checked there, checking the IMA
      log, saving and dumping the logs, checking the firmware. */
  datatype Checks = Checks(connected: bool, imaOk: bool, ccelSaved: bool, logSaved: bool, dumped: bool, firmwareOk: bool)

  /** How a session ends for the client. Everything but a failure is reported as success. */
  datatype Ending =
    | Failure
    | Dumped             // the event log was to be dumped, no more
    | RequestCutShort    // the request to send the key was not sent whole
    | NotAcknowledged    // the answer was another one
    | PackageSent(n: nat)

  /** What a part of the session leaves: the channel, and how the session ends there if it does. */
  datatype Part = Part(c: Channel, end: Option<Ending>)

  function Result(c: Channel, ok: bool): Part {
    Part(c, if ok then None else Some(Failure))
  }

  /** Receiving until so many bytes have come. */
  function Collected(c: Channel, size: nat): Part
    decreases size, Weight(c.incoming)
  {
    if size == 0 then Result(c, true)
    else
      match ReceivedOf(c, size)
      case None => Result(AfterReceive(c, size), false)
      case Some(data) => Collected(AfterReceive(c, size), size - |data|)
  }

  /** deal_ima */
  function ImaPart(c: Channel, o: Options, f: Checks): Part {
    if !o.ima then Result(c, true)
    else if SentOf(c, REQUEST_IMA_LOG) != Some(|REQUEST_IMA_LOG|) then Result(AfterSend(c, REQUEST_IMA_LOG), false)
    else
      var d := AfterSend(c, REQUEST_IMA_LOG);
      match ReceivedOf(d, 8)
      case None => Result(AfterReceive(d, 8), false)
      case Some(word) =>
        var size := FromLittleEndian(word);
        if |word| != 8 || size == 0 || size > MAX_IMA_LOG then Result(AfterReceive(d, 8), false)
        else
          var all := Collected(AfterReceive(d, 8), size);
          if all.end == None then Result(all.c, f.imaOk) else all
  }

  /** The second half of request_and_save_firmware_data. */
  function EventLogPart(c: Channel, f: Checks): Part {
    var d := AfterSend(c, REQUEST_EVENT_LOG);
    if SentOf(c, REQUEST_EVENT_LOG) == None then Result(d, false)
    else
      match ReceivedOf(d, 8)
      case None => Result(AfterReceive(d, 8), false)
      case Some(word) =>
        var size := FromLittleEndian(word);
        if size == 0 || size > MAX_LOG then Result(AfterReceive(d, 8), true)
        else
          var all := Collected(AfterReceive(d, 8), size);
          if all.end == None then Result(all.c, f.logSaved) else all
  }

  /** Whether an empty answer ends request_and_save_firmware_data, which does not take it for an error. */
  predicate NoTable(c: Channel) {
    && SentOf(c, REQUEST_CCEL_TABLE).Some?
    && ReceivedOf(AfterSend(c, REQUEST_CCEL_TABLE), MAX_BUFFER) == Some([])
  }

  /** request_and_save_firmware_data */
  function LogsPart(c: Channel, f: Checks): Part {
    var d := AfterSend(c, REQUEST_CCEL_TABLE);
    if SentOf(c, REQUEST_CCEL_TABLE) == None then Result(d, false)
    else
      var e := AfterReceive(d, MAX_BUFFER);
      match ReceivedOf(d, MAX_BUFFER)
      case None => Result(e, false)
      case Some(table) =>
        if table == [] then Result(e, true)
        else if !f.ccelSaved then Result(e, false)
        else EventLogPart(e, f)
  }

  function FirmwarePart(c: Channel, o: Options, f: Checks): Part {
    if !o.firmware && !o.dump then Result(c, true)
    else
      var logs := LogsPart(c, f);
      if logs.end != None then logs
      else if o.dump then Part(logs.c, Some(if f.dumped then Dumped else Failure))
      else Result(logs.c, f.firmwareOk)
  }

  /** deal_fde_key */
  function DiskPart(c: Channel, disk: Disk): Part {
    if disk == NoDisk then Result(c, true)
    else
      var d := AfterSend(c, ENABLE_FDE_TOKEN);
      if SentOf(c, ENABLE_FDE_TOKEN) != Some(|ENABLE_FDE_TOKEN|) then Result(d, false)
      else if disk.file == None then Result(d, true)
      else Result(AfterSend(d, disk.file.value), SentOf(d, disk.file.value).Some?)
  }

  /** Whether the key is asked for. */
  predicate Acknowledged(ack: bytes) {
    MSK_ACK <= ack
  }

  /** The end of rats_tls_client_startup. */
  function KeyPart(c: Channel, k: Key): (Channel, Ending)
    requires KeyOk(k)
  {
    var d := AfterSend(c, MSK_SEND);
    match SentOf(c, MSK_SEND)
    case None => (d, Failure)
    case Some(n) =>
      if n < |MSK_SEND| then (d, RequestCutShort)
      else
        var e := AfterReceive(d, REQUEST_BUFFER);
        match ReceivedOf(d, REQUEST_BUFFER)
        case None => (e, Failure)
        case Some(ack) =>
          if !Acknowledged(ack) then (e, NotAcknowledged)
          else
            match SentOf(e, Package(k))
            case None => (AfterSend(e, Package(k)), Failure)
            case Some(m) => (AfterSend(e, Package(k)), PackageSent(m))
  }

  /** rats_tls_client_startup */
  function StartupOf(c: Channel, o: Options, f: Checks, k: Key): (Channel, Ending)
    requires KeyOk(k)
  {
    if !f.connected then (c, Failure)
    else
      var ima := ImaPart(c, o, f);
      if ima.end.Some? then (ima.c, ima.end.value)
      else
        var firmware := FirmwarePart(ima.c, o, f);
        if firmware.end.Some? then (firmware.c, firmware.end.value)
        else
          var disk := DiskPart(firmware.c, o.disk);
          if disk.end.Some? then (disk.c, disk.end.value) else KeyPart(disk.c, k)
  }

  /** The requests a client makes, if it comes so far. */
  function Asks(c: Channel, o: Options, f: Checks): seq<Request> {
    (if o.ima then [ImaLog] else [])
    + (if !o.firmware && !o.dump then []
       else if NoTable(ImaPart(c, o, f).c) then [CcelTable]
       else [CcelTable, EventLog])
  }

  // ----- what a client's session comes to

  /** From c to d some of these records were sent; all of them, if so said, though perhaps cut short. */
  predicate Adds(c: Channel, d: Channel, records: seq<bytes>, all: bool) {
    && c.outgoing <= d.outgoing && CutShort(d.outgoing[|c.outgoing|..], records)
    && (all ==> |d.outgoing| == |c.outgoing| + |records|)
  }

  lemma AddsMore(c: Channel, d: Channel, e: Channel, first: seq<bytes>, second: seq<bytes>, all: bool)
    requires Adds(c, d, first, true) && Adds(d, e, second, all)
    ensures Adds(c, e, first + second, all)
  {
    var n := |c.outgoing|;
    forall i | 0 <= i < |e.outgoing| - n ensures e.outgoing[n..][i] <= (first + second)[i] {
      if i < |first| {
        assert e.outgoing[n..][i] == d.outgoing[n..][i];
      } else {
        assert e.outgoing[n..][i] == e.outgoing[|d.outgoing|..][i - |first|];
      }
    }
  }

  /** Stopping early adds to any longer list of records too. */
  lemma AddsPart(c: Channel, d: Channel, records: seq<bytes>, more: seq<bytes>)
    requires Adds(c, d, records, false)
    ensures Adds(c, d, records + more, false)
  {
  }

  lemma SendAdds(c: Channel, data: bytes)
    ensures Adds(c, AfterSend(c, data), [data], SentOf(c, data).Some?)
    ensures SentOf(c, data).None? ==> AfterSend(c, data).outgoing == c.outgoing
  {
  }

  lemma {:induction false} CollectedSendsNothing(c: Channel, size: nat)
    ensures Collected(c, size).c.outgoing == c.outgoing
    decreases size, Weight(c.incoming)
  {
    if size > 0 && ReceivedOf(c, size).Some? {
      CollectedSendsNothing(AfterReceive(c, size), size - |ReceivedOf(c, size).value|);
    }
  }

  lemma ImaAdds(c: Channel, o: Options, f: Checks)
    ensures var p := ImaPart(c, o, f);
            && Adds(c, p.c, if o.ima then [REQUEST_IMA_LOG] else [], p.end == None) && (p.end.Some? ==> p.end.value == Failure)
  {
    SendAdds(c, REQUEST_IMA_LOG);
    var d := AfterSend(c, REQUEST_IMA_LOG);
    var size := if ReceivedOf(d, 8).Some? then FromLittleEndian(ReceivedOf(d, 8).value) else 0;
    CollectedSendsNothing(AfterReceive(d, 8), size);
    CollectedEnds(AfterReceive(d, 8), size);
    hide Collected, FromLittleEndian, AfterSend, SentOf;
  }

  lemma {:induction false} CollectedEnds(c: Channel, size: nat)
    ensures var p := Collected(c, size); p.end.Some? ==> p.end.value == Failure
    decreases size, Weight(c.incoming)
  {
    if size > 0 && ReceivedOf(c, size).Some? {
      CollectedEnds(AfterReceive(c, size), size - |ReceivedOf(c, size).value|);
    }
  }

  lemma EventLogAdds(c: Channel, f: Checks)
    ensures var p := EventLogPart(c, f);
            Adds(c, p.c, [REQUEST_EVENT_LOG], p.end == None) && (p.end.Some? ==> p.end.value == Failure)
  {
    SendAdds(c, REQUEST_EVENT_LOG);
    var d := AfterSend(c, REQUEST_EVENT_LOG);
    var size := if ReceivedOf(d, 8).Some? then FromLittleEndian(ReceivedOf(d, 8).value) else 0;
    CollectedSendsNothing(AfterReceive(d, 8), size);
    CollectedEnds(AfterReceive(d, 8), size);
    hide Collected, FromLittleEndian, AfterSend, SentOf;
  }

  function LogRecords(c: Channel): seq<bytes> {
    if NoTable(c) then [REQUEST_CCEL_TABLE] else [REQUEST_CCEL_TABLE, REQUEST_EVENT_LOG]
  }

  lemma LogsAdd(c: Channel, f: Checks)
    ensures var p := LogsPart(c, f);
            Adds(c, p.c, LogRecords(c), p.end == None) && (p.end.Some? ==> p.end.value == Failure)
  {
    var d := AfterSend(c, REQUEST_CCEL_TABLE);
    var e := AfterReceive(d, MAX_BUFFER);
    SendAdds(c, REQUEST_CCEL_TABLE);
    EventLogAdds(e, f);
    assert [REQUEST_CCEL_TABLE] + [REQUEST_EVENT_LOG] == [REQUEST_CCEL_TABLE, REQUEST_EVENT_LOG];
    hide EventLogPart, AfterSend, SentOf;
    if SentOf(c, REQUEST_CCEL_TABLE).Some? {
      assert Adds(c, e, [REQUEST_CCEL_TABLE], true);
      AddsMore(c, e, EventLogPart(e, f).c, [REQUEST_CCEL_TABLE], [REQUEST_EVENT_LOG], EventLogPart(e, f).end == None);
    }
    AddsPart(c, d, [REQUEST_CCEL_TABLE], [REQUEST_EVENT_LOG]);
    AddsPart(c, e, [REQUEST_CCEL_TABLE], [REQUEST_EVENT_LOG]);
  }

  lemma FirmwareAdds(c: Channel, o: Options, f: Checks)
    ensures var p := FirmwarePart(c, o, f);
            && Adds(c, p.c, if o.firmware || o.dump then LogRecords(c) else [], p.end == None)
            && (p.end.Some? ==> p.end.value == Failure || p.end.value == Dumped)
  {
    LogsAdd(c, f);
    hide LogsPart, LogRecords;
  }

  lemma DiskAdds(c: Channel, disk: Disk)
    ensures var p := DiskPart(c, disk);
            Adds(c, p.c, DiskRecords(disk), p.end == None) && (p.end.Some? ==> p.end.value == Failure)
  {
    var d := AfterSend(c, ENABLE_FDE_TOKEN);
    SendAdds(c, ENABLE_FDE_TOKEN);
    if disk.DiskKey? && disk.file.Some? {
      SendAdds(d, disk.file.value);
      hide AfterSend, SentOf;
      AddsPart(c, d, [ENABLE_FDE_TOKEN], [disk.file.value]);
      if SentOf(c, ENABLE_FDE_TOKEN).Some? {
        AddsMore(c, d, AfterSend(d, disk.file.value), [ENABLE_FDE_TOKEN], [disk.file.value],
                 SentOf(d, disk.file.value).Some?);
      }
    }
  }

  /** What goes out at the end of a session tells how it ended. */
  predicate EndsWith(c: Channel, d: Channel, k: Key, e: Ending)
    requires KeyOk(k)
  {
    match e
    case Failure => Adds(c, d, [MSK_SEND, Package(k)], false) && |d.outgoing| < |c.outgoing| + 2
    case Dumped => false
    case RequestCutShort => exists n :: 0 <= n < |MSK_SEND| && d.outgoing == c.outgoing + [MSK_SEND[..n]]
    case NotAcknowledged => d.outgoing == c.outgoing + [MSK_SEND]
    case PackageSent(n) => n <= PACKAGE && d.outgoing == c.outgoing + [MSK_SEND, Package(k)[..n]]
  }

  lemma KeyEnds(c: Channel, k: Key)
    requires KeyOk(k)
    ensures EndsWith(c, KeyPart(c, k).0, k, KeyPart(c, k).1)
  {
    var d := AfterSend(c, MSK_SEND);
    var e := AfterReceive(d, REQUEST_BUFFER);
    assert MSK_SEND[..|MSK_SEND|] == MSK_SEND;
    hide Package;
    if SentOf(c, MSK_SEND) == Some(|MSK_SEND|) {
      assert d.outgoing == c.outgoing + [MSK_SEND] == e.outgoing;
    }
  }

  lemma EndAdds(c: Channel, d: Channel, k: Key, e: Ending)
    requires KeyOk(k) && EndsWith(c, d, k, e)
    ensures Adds(c, d, [MSK_SEND, Package(k)], e.PackageSent?)
    ensures !e.PackageSent? ==> |d.outgoing| < |c.outgoing| + 2
  {
    hide Package;
  }

  lemma AsksUnfolded(c: Channel, o: Options, f: Checks, k: Key)
    requires KeyOk(k)
    ensures ClientRecords(Asks(c, o, f), o.disk, k)
         == (if o.ima then [REQUEST_IMA_LOG] else [])
            + ((if o.firmware || o.dump then LogRecords(ImaPart(c, o, f).c) else [])
               + (DiskRecords(o.disk) + [MSK_SEND, Package(k)]))
  {
    var end := KeyRecords(o.disk, k);
    hide Package, KeyOk, ImaPart, NoTable, KeyRecords;
    var ima := if o.ima then [REQUEST_IMA_LOG] else [];
    var logs := if o.firmware || o.dump then LogRecords(ImaPart(c, o, f).c) else [];
    assert Words(Asks(c, o, f)) == ima + logs;
    assert ima + logs + end == ima + (logs + end);
  }

  /** What a client whose records would be `full` has sent tells how its session has ended. */
  predicate Tells(sent: seq<bytes>, full: seq<bytes>, k: Key, e: Ending)
    requires KeyOk(k) && |full| >= 2
  {
    && CutShort(sent, full)
    && (e.PackageSent? <==> |sent| == |full|)
    && (e.PackageSent? ==> e.n <= PACKAGE && sent[|full| - 1] == Package(k)[..e.n])
    && (e == NotAcknowledged ==> |sent| == |full| - 1 && sent[|full| - 2] == MSK_SEND)
    && (e == RequestCutShort ==> |sent| == |full| - 1 && sent[|full| - 2] < MSK_SEND)
    && (e == Dumped ==> |sent| <= |full| - 2)
  }

  /** A client sends its requests in order, then the disk key, then the key, perhaps not to the end and
      each perhaps cut short; how its session ends, and so what it reports, can be told from that. */
  lemma StartupSends(c: Channel, o: Options, f: Checks, k: Key)
    requires KeyOk(k) && c.outgoing == []
    ensures var (d, e) := StartupOf(c, o, f, k);
            Tells(d.outgoing, ClientRecords(Asks(c, o, f), o.disk, k), k, e) && (e == Dumped ==> o.dump)
  {
    var ima := ImaPart(c, o, f);
    var firmware := FirmwarePart(ima.c, o, f);
    var disk := DiskPart(firmware.c, o.disk);
    var imaRecords := if o.ima then [REQUEST_IMA_LOG] else [];
    var logRecords := if o.firmware || o.dump then LogRecords(ima.c) else [];
    var diskRecords, keyRecords := DiskRecords(o.disk), [MSK_SEND, Package(k)];
    ImaAdds(c, o, f);
    FirmwareAdds(ima.c, o, f);
    OnlyDumped(ima.c, o, f);
    DiskAdds(firmware.c, o.disk);
    AsksUnfolded(c, o, f, k);
    KeyEnds(disk.c, k);
    AddsNothing(c);
    var full := imaRecords + (logRecords + (diskRecords + keyRecords));
    hide Package, KeyOk, ImaPart, FirmwarePart, DiskPart, KeyPart, ClientRecords, Asks, LogRecords, DiskRecords;
    hide Adds, EndsWith, Tells, LogsPart;
    if !f.connected {
      StoppedIn(c, c, [], full[..|full| - 2], k, Failure);
      assert full == [] + full[..|full| - 2] + keyRecords;
    } else {
      InOrder(c, ima, firmware, disk, KeyPart(disk.c, k), k, imaRecords, logRecords, diskRecords);
    }
  }

  /** Of the parts of a session the first that ends it is the last that sends. */
  lemma InOrder(c: Channel, p: Part, q: Part, r: Part, s: (Channel, Ending), k: Key,
                a: seq<bytes>, b: seq<bytes>, d: seq<bytes>)
    requires KeyOk(k) && c.outgoing == [] && EndsWith(r.c, s.0, k, s.1)
    requires Adds(c, p.c, a, p.end == None) && (p.end.Some? ==> p.end.value == Failure)
    requires Adds(p.c, q.c, b, q.end == None) && (q.end.Some? ==> q.end.value == Failure || q.end.value == Dumped)
    requires Adds(q.c, r.c, d, r.end == None) && (r.end.Some? ==> r.end.value == Failure)
    ensures var full := a + (b + (d + [MSK_SEND, Package(k)]));
            if p.end.Some? then Tells(p.c.outgoing, full, k, p.end.value)
            else if q.end.Some? then Tells(q.c.outgoing, full, k, q.end.value)
            else if r.end.Some? then Tells(r.c.outgoing, full, k, r.end.value)
            else Tells(s.0.outgoing, full, k, s.1) && s.1 != Dumped
  {
    var end := [MSK_SEND, Package(k)];
    hide Adds, EndsWith, Tells, Package, KeyOk;
    if p.end.Some? {
      StoppedIn(c, p.c, a, b + d, k, Failure);
      assert a + (b + (d + end)) == a + (b + d) + end;
    } else if q.end.Some? {
      AddsMore(c, p.c, q.c, a, b, false);
      StoppedIn(c, q.c, a + b, d, k, q.end.value);
      assert a + (b + (d + end)) == a + b + d + end;
    } else {
      AddsMore(c, p.c, q.c, a, b, true);
      AddsMore(c, q.c, r.c, a + b, d, r.end == None);
      assert a + (b + (d + end)) == a + b + d + end;
      if r.end.Some? {
        StoppedIn(c, r.c, a + b + d, [], k, Failure);
        assert a + b + d + [] == a + b + d;
      } else {
        EndSeen(c, r.c, s.0, k, s.1, a + b + d);
      }
    }
  }

  lemma AddsNothing(c: Channel)
    ensures Adds(c, c, [], false)
  {
  }

  /** What is sent when the session stops before the end. */
  lemma StoppedIn(c: Channel, d: Channel, records: seq<bytes>, rest: seq<bytes>, k: Key, e: Ending)
    requires KeyOk(k) && Adds(c, d, records, false) && c.outgoing == [] && (e == Failure || e == Dumped)
    ensures Tells(d.outgoing, records + rest + [MSK_SEND, Package(k)], k, e)
  {
    assert d.outgoing[0..] == d.outgoing;
    hide Package, KeyOk;
  }

  lemma EndSeen(c: Channel, x: Channel, d: Channel, k: Key, e: Ending, records: seq<bytes>)
    requires KeyOk(k) && c.outgoing == [] && Adds(c, x, records, true) && EndsWith(x, d, k, e)
    ensures Tells(d.outgoing, records + [MSK_SEND, Package(k)], k, e) && e != Dumped
  {
    EndAdds(x, d, k, e);
    AddsMore(c, x, d, records, [MSK_SEND, Package(k)], e.PackageSent?);
    assert d.outgoing[0..] == d.outgoing && |x.outgoing| == |records|;
    hide Package, KeyOk;
  }

  lemma OnlyDumped(c: Channel, o: Options, f: Checks)
    ensures FirmwarePart(c, o, f).end == Some(Dumped) ==> o.dump
  {
    LogsAdd(c, f);
    hide LogsPart;
  }

  class Client {
    const session: Session
    const tsi: Tsi
    const args: Args
    const options: Options
    const checks: Checks
    /** The key the TSI of the source gives for a guest, if it does. */
    const fetched: Option<Key>

    constructor (session: Session, tsi: Tsi, args: Args, options: Options, checks: Checks, fetched: Option<Key>)
      ensures this.session == session && this.tsi == tsi && this.args == args
      ensures this.options == options && this.checks == checks && this.fetched == fetched
    {
      this.session, this.tsi, this.args := session, tsi, args;
      this.options, this.checks, this.fetched := options, checks, fetched;
    }

    ghost predicate Valid() {
      && (tsi.bound.Some? ==> |tsi.bound.value| == MAX_BIND_VM)
      && (fetched.Some? ==> KeyOk(fetched.value))
    }

    /** The loops that receive a log of a known size. */
    method Collect(size: nat) returns (ok: bool)
      modifies session
      ensures Collected(old(session.Now()), size) == Result(session.Now(), ok)
    {
      var received: nat := 0;
      while received < size
        invariant received <= size
        invariant Collected(old(session.Now()), size) == Collected(session.Now(), size - received)
        decreases size - received, Weight(session.incoming)
      {
        var data;
        ok, data := session.Receive(size - received);
        if !ok {
          return;
        }
        received := received + |data|;
      }
      ok := true;
    }

    /** deal_ima with verify_ima_log */
    method DealIma() returns (ok: bool)
      modifies session
      ensures ImaPart(old(session.Now()), options, checks) == Result(session.Now(), ok)
    {
      if !options.ima {
        return true;
      }
      var n, word;
      ok, n := session.Transmit(REQUEST_IMA_LOG);
      if !ok || n != |REQUEST_IMA_LOG| {
        return false;
      }
      ok, word := session.Receive(8);
      if !ok || |word| != 8 {
        return false;
      }
      var size := FromLittleEndian(word);
      if size == 0 || size > MAX_IMA_LOG {
        return false;
      }
      ok := Collect(size);
      ok := ok && checks.imaOk;
    }

    /** The event log's half of request_and_save_firmware_data. */
    method RequestEventLog() returns (ok: bool)
      modifies session
      ensures EventLogPart(old(session.Now()), checks) == Result(session.Now(), ok)
    {
      var n, word;
      ok, n := session.Transmit(REQUEST_EVENT_LOG);
      if !ok {
        return;
      }
      ok, word := session.Receive(8);
      if !ok {
        return;
      }
      var size := FromLittleEndian(word);
      if size == 0 || size > MAX_LOG {
        return true;
      }
      ok := Collect(size);
      ok := ok && checks.logSaved;
    }

    /** request_and_save_firmware_data: an empty table and an event log of no or too large a size are
        errors that are reported as success. */
    method RequestAndSaveFirmwareData() returns (ok: bool)
      modifies session
      ensures LogsPart(old(session.Now()), checks) == Result(session.Now(), ok)
    {
      var n, table;
      ok, n := session.Transmit(REQUEST_CCEL_TABLE);
      if !ok {
        return;
      }
      ok, table := session.Receive(MAX_BUFFER);
      if !ok || table == [] {
        return;
      }
      if !checks.ccelSaved {
        return false;
      }
      ok := RequestEventLog();
    }

    /** deal_fde_key: a key file that cannot be read is reported as success. */
    method DealFdeKey() returns (ok: bool)
      modifies session
      ensures DiskPart(old(session.Now()), options.disk) == Result(session.Now(), ok)
    {
      if options.disk == NoDisk {
        return true;
      }
      var n;
      ok, n := session.Transmit(ENABLE_FDE_TOKEN);
      if !ok || n != |ENABLE_FDE_TOKEN| {
        return false;
      }
      if options.disk.file == None {
        return true;
      }
      ok, n := session.Transmit(options.disk.file.value);
    }

    /** The key exchange at the end of rats_tls_client_startup; a request cut short is reported as success. */
    method SendKey() returns (ok: bool)
      requires KeyOk(args.key)
      modifies session
      ensures session.Now() == KeyPart(old(session.Now()), args.key).0
      ensures ok <==> KeyPart(old(session.Now()), args.key).1 != Failure
    {
      var n, ack;
      ok, n := session.Transmit(MSK_SEND);
      if !ok || n != |MSK_SEND| {
        return;
      }
      ok, ack := session.Receive(REQUEST_BUFFER);
      if !ok {
        return;
      }
      if MSK_ACK <= ack {
        var p := args.key.msk + args.key.randIv + args.key.tag;
        ok, n := session.Transmit(p);
      }
    }

    /** rats_tls_client_startup */
    method Startup() returns (ok: bool)
      requires KeyOk(args.key)
      modifies session
      ensures session.Now() == StartupOf(old(session.Now()), options, checks, args.key).0
      ensures ok <==> StartupOf(old(session.Now()), options, checks, args.key).1 != Failure
    {
      hide ImaPart, LogsPart, DiskPart, KeyPart, KeyOk;
      if !checks.connected {
        return false;
      }
      ok := DealIma();
      if !ok {
        return;
      }
      if options.firmware || options.dump {
        ok := RequestAndSaveFirmwareData();
        if !ok {
          return;
        }
        if options.dump {
          return checks.dumped;
        }
        if !checks.firmwareOk {
          return false;
        }
      }
      ok := DealFdeKey();
      if !ok {
        return;
      }
      ok := SendKey();
    }

    /** Whether a session is started for a guest. */
    predicate Started(guestRd: nat) {
      guestRd != 0 && Bound(tsi, guestRd) && fetched.Some?
    }

    /** How the session ends that the client would start now, and what it leaves. */
    ghost function EndingNow(): Ending
      requires Valid()
      reads session
    {
      if fetched == None then Failure else StartupOf(session.Now(), options, checks, fetched.value).1
    }

    ghost function After(): Channel
      requires Valid()
      reads session
    {
      if fetched == None then session.Now() else StartupOf(session.Now(), options, checks, fetched.value).0
    }

    /** ras_tls_handler_client: the key is fetched only for a bound guest, and what is sent is what is fetched.
        The source's own slot is asked to be READY once, exactly after a session that did not fail; the key
        has gone out whole exactly when that session ended with the package, which it need not have. */
    method Handle() returns (ok: bool)
      requires Valid() && session.outgoing == []
      modifies session, tsi, args
      ensures Started(old(args.guestRd)) && old(EndingNow()) != Failure ==>
                tsi.ready == old(tsi.ready) + [Slot(old(args.guestRd), fetched.value)] && ok == tsi.setOk
      ensures !Started(old(args.guestRd)) || old(EndingNow()) == Failure ==> tsi.ready == old(tsi.ready) && !ok
      ensures session.Now() == if Started(old(args.guestRd)) then old(After()) else old(session.Now())
      ensures args.guestRd == 0 && args.key == Key(Zeros(32), Zeros(32), Zeros(16))
    {
      ok := false;
      if args.guestRd != 0 {
        ok := IsBound(tsi, args.guestRd);
      }
      if ok && fetched.Some? {
        args.key := fetched.value;
        ok := Startup();
        if ok {
          ok := tsi.SetReady(Slot(args.guestRd, fetched.value));
        }
      } else {
        ok := false;
      }
      args.Clear();
    }
  }

  const PLAIN: Options := Options(false, false, false, NoDisk)
  const PASSED_ALL: Checks := Checks(true, true, true, true, true, true)

  /** The client also reports success, and its slot is set to READY, when no package went out: when its
      request is cut short, */
  lemma ReadyWhenCutShort(k: Key, n: nat)
    requires KeyOk(k) && n < |MSK_SEND|
    ensures StartupOf(Channel(false, [], [], [Sends(n)]), PLAIN, PASSED_ALL, k)
         == (Channel(false, [], [MSK_SEND[..n]], []), RequestCutShort)
  {
    var c := Channel(false, [], [], [Sends(n)]);
    assert SentOf(c, MSK_SEND) == Some(n);
    assert AfterSend(c, MSK_SEND) == Channel(false, [], [MSK_SEND[..n]], []);
  }

  /** when the answer to it is another one, */
  lemma ReadyWhenRefused(k: Key, reply: bytes)
    requires KeyOk(k) && |reply| <= REQUEST_BUFFER && !Acknowledged(reply)
    ensures StartupOf(Channel(true, [reply], [], []), PLAIN, PASSED_ALL, k)
         == (Channel(true, [], [MSK_SEND], []), NotAcknowledged)
  {
    var c := Channel(true, [reply], [], []);
    var d := Channel(true, [reply], [MSK_SEND], []);
    assert MSK_SEND[..|MSK_SEND|] == MSK_SEND;
    assert SentOf(c, MSK_SEND) == Some(|MSK_SEND|) && AfterSend(c, MSK_SEND) == d;
    assert ReceivedOf(d, REQUEST_BUFFER) == Some(reply) && AfterReceive(d, REQUEST_BUFFER) == d.(incoming := []);
  }

  /** and when it only dumps the event log, here after an answer without a table. */
  lemma ReadyWhenDumped(k: Key)
    requires KeyOk(k)
    ensures StartupOf(Channel(true, [[]], [], []), PLAIN.(dump := true), PASSED_ALL, k)
         == (Channel(true, [], [REQUEST_CCEL_TABLE], []), Dumped)
  {
    var c := Channel(true, [[]], [], []);
    var d := Channel(true, [[]], [REQUEST_CCEL_TABLE], []);
    assert REQUEST_CCEL_TABLE[..|REQUEST_CCEL_TABLE|] == REQUEST_CCEL_TABLE;
    assert SentOf(c, REQUEST_CCEL_TABLE).Some? && AfterSend(c, REQUEST_CCEL_TABLE) == d;
    assert ReceivedOf(d, MAX_BUFFER) == Some([]) && AfterReceive(d, MAX_BUFFER) == d.(incoming := []);
  }
}
