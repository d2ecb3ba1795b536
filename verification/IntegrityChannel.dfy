/** The migration integrity channel: two agents with shared queues, framing over a byte channel that may
    split every read and write, as a machine of interleaved steps. */
module IntegrityChannel {
  import opened Bytes

  const QUEUE_SIZE: nat := 64 * 1024 - 16

  /** "CLOSE_NOTIFY" */
  const CLOSE: bytes := [0x43, 0x4C, 0x4F, 0x53, 0x45, 0x5F, 0x4E, 0x4F, 0x54, 0x49, 0x46, 0x59]

  // ----- framing

  /** A 64-bit length and that many bytes. */
  function Frame(data: bytes): (r: bytes)
    ensures |r| == 8 + |data|
  {
    LittleEndian(|data|, 8) + data
  }

  function Frames(fs: seq<bytes>): bytes {
    if fs == [] then [] else Frame(fs[0]) + Frames(fs[1..])
  }

  function Concat(fs: seq<bytes>): bytes {
    if fs == [] then [] else fs[0] + Concat(fs[1..])
  }

  lemma {:induction false} FramesSnoc(fs: seq<bytes>, f: bytes)
    ensures Frames(fs + [f]) == Frames(fs) + Frame(f) && Concat(fs + [f]) == Concat(fs) + f
  {
    hide Frame;
    if fs == [] {
      assert [] + [f] == [f] && [f][1..] == [];
      assert Frames([f]) == Frame(f) + [] && Concat([f]) == f + [];
    } else {
      assert (fs + [f])[1..] == fs[1..] + [f] && (fs + [f])[0] == fs[0];
      FramesSnoc(fs[1..], f);
      Associate(Frame(fs[0]), Frames(fs[1..]), Frame(f));
      Associate(fs[0], Concat(fs[1..]), f);
    }
  }

  function Length(header: bytes): nat {
    FromLittleEndian(header)
  }

  lemma FrameLength(data: bytes)
    requires |data| <= QUEUE_SIZE
    ensures Length(LittleEndian(|data|, 8)) == |data|
  {
    Pow256Eight();
    hide FromLittleEndian, LittleEndian, Pow256;
    LittleEndianExact(|data|, 8);
  }

  // ----- agents

  /** What the ioctl into the TMM returns. */
  datatype Tsi = Success | ErrorInput | ErrorState | Incomplete | ErrorFailed | Notify | Errno

  /** Who called send_queue_data. */
  datatype Caller = MainLoop | ReceiveLoop

  /** Where the I/O thread is. */
  datatype Pc =
    | Ioctl                 // at the ioctl of the main loop
    | Dispatch(ret: Tsi)    // it has returned
    | SendCheck             // before the test of send_offset
    | Sending(caller: Caller)
    | Poll
    | ReceiveHeader
    | ReceiveRoom(ret: Tsi) // at the test for room in the receive queue
    | ReceiveIoctl          // at the ioctl inside that loop
    | ReceivePayload(ret: Tsi)
    | Notifying             // waking the slaves after that
    | CloseHeader           // in send_close_notification
    | CloseMessage
    | Done

  datatype Agent = Agent(
    isServer: bool,
    pc: Pc,
    sendq: bytes,      // send_buf up to send_offset
    recvq: bytes,      // recv_buf up to recv_offset
    header: bytes,     // what is received of the length
    payload: bytes,    // what is received of the data
    framing: bool,     // a frame holding sendq is on its way
    unsent: bytes,     // the rest of that frame
    dead: bool,        // a transmission has failed
    closing: bytes,    // what send_close_notification has written
    desynced: bool,    // went on after a TMM failure with a payload unread
    produced: bytes,   // history: all the TMM has queued
    consumed: bytes)   // history: all the TMM has taken

  /** What happens in a step: the nondeterminism of the TMM, the channel and the kernel. */
  datatype Event =
    | Tmm(ret: Tsi, taken: nat, queued: bytes)
    | Move             // the thread goes on by itself
    | Fails            // a call into the system or the channel fails, or waking the slaves does
    | Count(n: nat)    // a transmit or receive handles n bytes
    | Ready(readable: bool)

  /** An agent with what it has on the wire and what is arriving. */
  datatype Local = Local(x: Agent, out: bytes, arriving: bytes)

  function Go(l: Local, pc: Pc): Option<Local> {
    Some(l.(x := l.x.(pc := pc)))
  }

  /** The TMM takes data from the receive queue and queues data for sending. */
  function TmmActs(x: Agent, taken: nat, queued: bytes): Agent
    requires taken <= |x.recvq|
  {
    x.(consumed := x.consumed + x.recvq[..taken], recvq := x.recvq[taken..],
       produced := x.produced + queued, sendq := x.sendq + queued)
  }

  /** The test for ending the loop after a call into the TMM. */
  predicate Ends(isServer: bool, ret: Tsi) {
    (!isServer && (ret == ErrorFailed || ret == Success)) || ret == ErrorInput
  }

  /** Entering send_queue_data with data queued. */
  function StartSending(l: Local, caller: Caller): Option<Local> {
    if |l.x.sendq| > QUEUE_SIZE then Go(l, SendFailed(caller))
    else Some(l.(x := l.x.(pc := Sending(caller), framing := true, unsent := Frame(l.x.sendq))))
  }

  /** The main loop just ends; the receive loop reports an error, which is answered by a close. */
  function SendFailed(caller: Caller): Pc {
    if caller == MainLoop then Done else CloseHeader
  }

  function IsClose(payload: bytes): bool {
    |payload| >= 12 && payload[..12] == CLOSE
  }

  /** The end of handle_recv_event: the payload is complete. */
  function Finish(l: Local, ret: Tsi): Option<Local> {
    var x := l.x.(header := [], payload := []);
    if IsClose(l.x.payload) then Go(l.(x := x), Done)
    else if |x.recvq| >= QUEUE_SIZE then Go(l.(x := x), CloseHeader)
    else
      var y := x.(recvq := x.recvq + l.x.payload);
      Go(l.(x := y), if |y.recvq| >= QUEUE_SIZE then CloseHeader else AfterReceiving(x.isServer, ret))
  }

  /** What handle_recv_event's result leads to: it is that of the last ioctl while waiting for room, and the
      negative one ends the loop as well. */
  function AfterReceiving(isServer: bool, ret: Tsi): Pc {
    if Ends(isServer, ret) || ret == Errno then CloseHeader else if ret == Notify then Notifying else Ioctl
  }

  /** n bytes of what is arriving. */
  function Receive(l: Local, n: nat): Option<Local> {
    if n > |l.arriving| then None
    else
      match l.x.pc
      case ReceiveHeader =>
        if |l.x.header| + n > 8 then None
        else Some(l.(x := l.x.(header := l.x.header + l.arriving[..n]), arriving := l.arriving[n..]))
      case ReceivePayload(_) =>
        if |l.x.payload| + n > Length(l.x.header) then None
        else Some(l.(x := l.x.(payload := l.x.payload + l.arriving[..n]), arriving := l.arriving[n..]))
      case _ => None
  }

  /** n bytes are accepted by the channel; a channel that has failed accepts none. */
  function Transmit(l: Local, n: nat): Option<Local> {
    if l.x.dead then None
    else
      match l.x.pc
      case Sending(_) =>
        if n > |l.x.unsent| then None
        else Some(l.(x := l.x.(unsent := l.x.unsent[n..]), out := l.out + l.x.unsent[..n]))
      case CloseHeader =>
        if n > 8 then None
        else
          var sent := LittleEndian(12, 8)[..n];
          Some(l.(x := l.x.(pc := CloseMessage, closing := sent), out := l.out + sent))
      case CloseMessage =>
        if n > 12 then None
        else Some(l.(x := l.x.(pc := Done, closing := l.x.closing + CLOSE[..n]), out := l.out + CLOSE[..n]))
      case _ => None
  }

  /** An ioctl into the TMM, from the main loop or while waiting for room. */
  function TmmStep(l: Local, ret: Tsi, taken: nat, queued: bytes): Option<Local> {
    if taken > |l.x.recvq| then None
    else
      var m := l.(x := TmmActs(l.x, taken, queued));
      if l.x.pc == Ioctl then Go(m, Dispatch(ret))
      else if l.x.pc != ReceiveIoctl then None
      else if ret != ErrorFailed then Go(m, ReceiveRoom(ret))
      else if Ends(l.x.isServer, ret) then Go(m, CloseHeader)
      else Go(m.(x := m.x.(header := [], desynced := true)), Ioctl)
  }

  function MoveStep(l: Local): Option<Local> {
    match l.x.pc
    case Dispatch(ret) => Go(l, if Ends(l.x.isServer, ret) then CloseHeader else SendCheck)
    case SendCheck => if |l.x.sendq| > 0 then StartSending(l, MainLoop) else Go(l, Poll)
    case Sending(caller) =>
      if l.x.unsent != [] then None
      else Go(l.(x := l.x.(sendq := [], framing := false)), if caller == MainLoop then Poll else ReceiveIoctl)
    case ReceiveHeader =>
      if |l.x.header| < 8 then None
      else Go(l, if Length(l.x.header) > QUEUE_SIZE - 8 then CloseHeader else ReceiveRoom(Incomplete))
    case ReceiveRoom(ret) =>
      if Length(l.x.header) <= QUEUE_SIZE - |l.x.recvq| then Go(l, ReceivePayload(ret))
      else if |l.x.sendq| > 0 then StartSending(l, ReceiveLoop)
      else Go(l, ReceiveIoctl)
    case ReceivePayload(ret) => if |l.x.payload| < Length(l.x.header) then None else Finish(l, ret)
    case Notifying => Go(l, Ioctl)
    case _ => None
  }

  function FailStep(l: Local): Option<Local> {
    match l.x.pc
    case Ioctl => Go(l, Done)
    case Dispatch(ret) => if ret == Notify then Go(l, Done) else None
    case SendCheck => if |l.x.sendq| > 0 then Go(l, Done) else None
    case Poll => Go(l, Done)
    case Sending(caller) =>
      if l.x.unsent == [] then Go(l.(x := l.x.(sendq := [], framing := false)), SendFailed(caller))
      else Go(l.(x := l.x.(dead := true)), SendFailed(caller))
    case ReceiveHeader => Go(l, CloseHeader)
    case ReceiveRoom(_) => Go(l, CloseHeader)
    case ReceivePayload(_) => Go(l, CloseHeader)
    case Notifying => Go(l, Done)
    case CloseHeader => Go(l, Done)
    case CloseMessage => Go(l, Done)
    case _ => None
  }

  predicate Reading(pc: Pc) {
    pc.ReceiveHeader? || pc.ReceivePayload?
  }

  /** The step an event causes; None when it cannot happen there. */
  function Step(l: Local, e: Event): Option<Local> {
    match e
    case Tmm(ret, taken, queued) => TmmStep(l, ret, taken, queued)
    case Move => MoveStep(l)
    case Fails => FailStep(l)
    case Count(n) => if Reading(l.x.pc) then Receive(l, n) else Transmit(l, n)
    case Ready(readable) => if l.x.pc != Poll then None else Go(l, if readable then ReceiveHeader else Ioctl)
  }

  // ----- what every step keeps

  predicate Running(x: Agent) {
    x.pc != CloseHeader && x.pc != CloseMessage && x.pc != Done
  }

  /** Inside the loop of handle_recv_event that waits for room. */
  predicate WaitsForRoom(pc: Pc) {
    pc.ReceiveRoom? || pc == ReceiveIoctl || pc == Sending(ReceiveLoop)
  }

  /** What a close notification leaves on the wire: both transmissions may be cut short. */
  ghost predicate CloseBytes(c: bytes) {
    exists n, m :: 0 <= n <= 8 && 0 <= m <= 12 && c == LittleEndian(12, 8)[..n] + CLOSE[..m]
  }

  ghost predicate Valid(x: Agent) {
    && |x.recvq| <= QUEUE_SIZE
    && SenderValid(x) && ReceiverValid(x)
  }

  ghost predicate SenderValid(x: Agent) {
    && (x.pc.Sending? ==> x.framing && |x.sendq| <= QUEUE_SIZE)
    && (!x.framing ==> x.unsent == [])
    && (x.framing ==> x.pc.Sending? || (x.dead && !Running(x)))
    && (Running(x) ==> !x.dead)
    && (Running(x) || x.pc == CloseHeader ==> x.closing == [])
    && (x.pc == CloseMessage ==> !x.dead && exists n :: 0 <= n <= 8 && x.closing == LittleEndian(12, 8)[..n])
    && CloseBytes(x.closing) && (x.closing != [] ==> !x.dead)
  }

  ghost predicate ReceiverValid(x: Agent) {
    && (Running(x) ==> x.closing == [] && |x.header| <= 8)
    && (Running(x) && !x.pc.ReceivePayload? ==> x.payload == [])
    && (Running(x) && !x.pc.ReceivePayload? && !x.pc.ReceiveHeader? && !WaitsForRoom(x.pc) ==> x.header == [])
    && (WaitsForRoom(x.pc) ==> |x.header| == 8 && Length(x.header) <= QUEUE_SIZE - 8)
    && (x.pc.ReceivePayload? ==> |x.header| == 8 && |x.payload| <= Length(x.header) <= QUEUE_SIZE - |x.recvq|)
  }

  /** What is queued and not yet in a frame. */
  function Queued(x: Agent): bytes {
    if x.framing then [] else x.sendq
  }

  /** What the sender has started to transmit and the receiver has not finished reading. */
  function InFlight(s: Agent, wire: bytes, r: Agent): bytes {
    r.header + r.payload + wire + s.unsent
  }

  function Delivered(r: Agent): bytes {
    r.consumed + r.recvq
  }

  /** The bytes in flight are the frames fs, followed by what a close notification wrote; the bytes
      produced are those delivered, the payload in flight and those queued. */
  ghost predicate Adds(flight: bytes, closing: bytes, produced: bytes, delivered: bytes, queued: bytes, fs: seq<bytes>) {
    && (forall i :: 0 <= i < |fs| ==> |fs[i]| <= QUEUE_SIZE)
    && flight == Frames(fs) + closing
    && produced == delivered + Concat(fs) + queued
  }

  ghost predicate Balance(s: Agent, wire: bytes, r: Agent, fs: seq<bytes>) {
    Adds(InFlight(s, wire, r), s.closing, s.produced, Delivered(r), Queued(s), fs)
  }

  ghost predicate Conserved(s: Agent, wire: bytes, r: Agent) {
    exists fs :: Balance(s, wire, r, fs)
  }

  /** The stream from s to r: nothing is lost, duplicated or reordered while r runs, and what r delivers
      is always a prefix of what s produced. */
  ghost predicate Flow(s: Agent, wire: bytes, r: Agent) {
    !r.desynced ==> (Running(r) ==> Conserved(s, wire, r)) && Delivered(r) <= s.produced
  }

  lemma CloseBytesOf(n: nat, m: nat)
    requires n <= 8 && m <= 12
    ensures CloseBytes(LittleEndian(12, 8)[..n] + CLOSE[..m])
  {
  }

  lemma EmptyClose()
    ensures CloseBytes([])
  {
    CloseBytesOf(0, 0);
    assert LittleEndian(12, 8)[..0] + CLOSE[..0] == [];
  }

  lemma SenderStaysValid(l: Local, e: Event)
    requires Valid(l.x) && Step(l, e).Some?
    ensures SenderValid(Step(l, e).value.x)
  {
    hide LittleEndian, Frame, CloseBytes, Finish;
    EmptyClose();
    var y := Step(l, e).value.x;
    if e.Count? && l.x.pc == CloseHeader {
      CloseBytesOf(e.n, 0);
      assert LittleEndian(12, 8)[..e.n] + CLOSE[..0] == LittleEndian(12, 8)[..e.n];
    } else if e.Count? && l.x.pc == CloseMessage {
      var n :| 0 <= n <= 8 && l.x.closing == LittleEndian(12, 8)[..n];
      CloseBytesOf(n, e.n);
    } else if e.Move? && l.x.pc.ReceivePayload? {
      FinishKeeps(l, l.x.pc.ret);
    }
  }

  lemma FinishKeeps(l: Local, ret: Tsi)
    ensures Finish(l, ret).Some?
    ensures var m := Finish(l, ret).value;
            && m.x.sendq == l.x.sendq && m.x.framing == l.x.framing && m.x.unsent == l.x.unsent && m.x.dead == l.x.dead
            && m.x.closing == l.x.closing && (m.x.pc == Done || m.x.pc == CloseHeader || m.x.pc == Ioctl || m.x.pc == Notifying)
            && m.x.produced == l.x.produced && m.out == l.out && m.arriving == l.arriving && m.x.desynced == l.x.desynced
  {
  }

  ghost predicate ReceiverFine(x: Agent) {
    ReceiverValid(x) && |x.recvq| <= QUEUE_SIZE
  }

  lemma ReceiverStaysValid(l: Local, e: Event)
    requires ReceiverFine(l.x) && Step(l, e).Some?
    ensures ReceiverFine(Step(l, e).value.x)
  {
    hide ReceiverFine, TmmStep, MoveStep, FailStep, Receive, Transmit;
    match e
    case Tmm(ret, taken, queued) => TmmKeepsReceiver(l, ret, taken, queued);
    case Move => MoveKeepsReceiver(l);
    case Fails => FailKeepsReceiver(l);
    case Count(n) => if Reading(l.x.pc) { ReadKeepsReceiver(l, n); } else { TransmitKeepsReceiver(l, n); }
    case Ready(readable) => ReadyKeepsReceiver(l, readable);
  }

  lemma TmmKeepsReceiver(l: Local, ret: Tsi, taken: nat, queued: bytes)
    requires ReceiverFine(l.x) && TmmStep(l, ret, taken, queued).Some?
    ensures ReceiverFine(TmmStep(l, ret, taken, queued).value.x)
  {
    hide Length;
  }

  lemma MoveKeepsReceiver(l: Local)
    requires ReceiverFine(l.x) && MoveStep(l).Some?
    ensures ReceiverFine(MoveStep(l).value.x)
  {
    hide Frame, Length, Finish, StartSending;
    if l.x.pc.ReceivePayload? {
      FinishKeepsReceiver(l, l.x.pc.ret);
      hide ReceiverFine;
    } else {
      StartKeepsReceiver(l, if l.x.pc == SendCheck then MainLoop else ReceiveLoop);
    }
  }

  lemma StartKeepsReceiver(l: Local, caller: Caller)
    requires ReceiverFine(l.x)
    ensures caller == MainLoop && l.x.pc == SendCheck ==>
              StartSending(l, caller).Some? && ReceiverFine(StartSending(l, caller).value.x)
    ensures caller == ReceiveLoop && l.x.pc.ReceiveRoom? ==>
              StartSending(l, caller).Some? && ReceiverFine(StartSending(l, caller).value.x)
  {
    hide Frame, Length;
  }

  lemma FinishKeepsReceiver(l: Local, ret: Tsi)
    requires ReceiverFine(l.x) && l.x.pc == ReceivePayload(ret) && |l.x.payload| >= Length(l.x.header)
    ensures ReceiverFine(Finish(l, ret).value.x)
  {
    hide Length;
  }

  lemma FailKeepsReceiver(l: Local)
    requires ReceiverFine(l.x) && FailStep(l).Some?
    ensures ReceiverFine(FailStep(l).value.x)
  {
    hide Length;
  }

  lemma ReadKeepsReceiver(l: Local, n: nat)
    requires ReceiverFine(l.x) && Receive(l, n).Some?
    ensures ReceiverFine(Receive(l, n).value.x)
  {
    hide Length;
  }

  lemma TransmitKeepsReceiver(l: Local, n: nat)
    requires ReceiverFine(l.x) && Transmit(l, n).Some?
    ensures ReceiverFine(Transmit(l, n).value.x)
  {
    hide Length, LittleEndian;
  }

  lemma ReadyKeepsReceiver(l: Local, readable: bool)
    requires ReceiverFine(l.x) && l.x.pc == Poll
    ensures ReceiverFine(l.x.(pc := if readable then ReceiveHeader else Ioctl))
  {
    hide Length;
  }

  // ----- the sender's steps

  lemma Extends(s: Agent, wire: bytes, r: Agent, fs: seq<bytes>)
    requires Balance(s, wire, r, fs)
    ensures Delivered(r) <= s.produced
  {
    hide Frames, Concat, InFlight, Delivered, Queued;
  }

  lemma SenderKeepsFlow(l: Local, e: Event, r: Agent)
    requires Valid(l.x) && Step(l, e).Some? && Flow(l.x, l.out, r)
    ensures Flow(Step(l, e).value.x, Step(l, e).value.out, r)
  {
    var m := Step(l, e).value;
    SenderOnlyProduces(l, e);
    if !r.desynced && Running(r) {
      var fs :| Balance(l.x, l.out, r, fs);
      var gs := SenderKeepsBalance(l, e, r, fs);
    }
  }

  lemma SenderOnlyProduces(l: Local, e: Event)
    requires Step(l, e).Some?
    ensures l.x.produced <= Step(l, e).value.x.produced
  {
    if e.Move? {
      hide Frame, Length, Finish;
      if l.x.pc.ReceivePayload? {
        FinishKeeps(l, l.x.pc.ret);
      }
    } else {
      hide MoveStep, LittleEndian;
    }
  }

  lemma AddsProduced(flight: bytes, closing: bytes, produced: bytes, delivered: bytes, queued: bytes, fs: seq<bytes>, x: bytes)
    requires Adds(flight, closing, produced, delivered, queued, fs)
    ensures Adds(flight, closing, produced + x, delivered, queued + x, fs)
  {
    hide Frames, Concat;
  }

  lemma AddsFrame(flight: bytes, produced: bytes, delivered: bytes, queued: bytes, fs: seq<bytes>)
    requires Adds(flight, [], produced, delivered, queued, fs) && |queued| <= QUEUE_SIZE
    ensures Adds(flight + Frame(queued), [], produced, delivered, [], fs + [queued])
  {
    FramesSnoc(fs, queued);
    hide Frames, Concat, Frame;
    assert delivered + (Concat(fs) + queued) + [] == delivered + Concat(fs) + queued;
  }

  lemma AddsClosing(flight: bytes, closing: bytes, produced: bytes, delivered: bytes, queued: bytes, fs: seq<bytes>, x: bytes)
    requires Adds(flight, closing, produced, delivered, queued, fs)
    ensures Adds(flight + x, closing + x, produced, delivered, queued, fs)
  {
    hide Frames, Concat;
  }

  /** The oldest frame has been read. */
  lemma AddsDelivered(flight: bytes, rest: bytes, closing: bytes, produced: bytes, delivered: bytes, queued: bytes,
                      fs: seq<bytes>)
    requires Adds(flight, closing, produced, delivered, queued, fs) && fs != []
    requires rest == Frames(fs[1..]) + closing
    ensures Adds(rest, closing, produced, delivered + fs[0], queued, fs[1..])
  {
    assert Concat(fs) == fs[0] + Concat(fs[1..]);
    hide Frames, Concat;
    assert delivered + fs[0] + Concat(fs[1..]) == delivered + (fs[0] + Concat(fs[1..]));
  }

  /** Moving bytes from the agent to the wire. */
  lemma FlightSent(s: Agent, t: Agent, wire: bytes, r: Agent, n: nat)
    requires n <= |s.unsent| && t.unsent == s.unsent[n..]
    ensures InFlight(t, wire + s.unsent[..n], r) == InFlight(s, wire, r)
  {
    assert s.unsent == s.unsent[..n] + s.unsent[n..];
  }

  lemma FlightGrows(s: Agent, t: Agent, wire: bytes, r: Agent, x: bytes)
    requires s.unsent == []
    ensures t.unsent == x ==> InFlight(t, wire, r) == InFlight(s, wire, r) + x
    ensures t.unsent == [] ==> InFlight(t, wire + x, r) == InFlight(s, wire, r) + x
  {
  }

  lemma SenderKeepsBalance(l: Local, e: Event, r: Agent, fs: seq<bytes>) returns (gs: seq<bytes>)
    requires Valid(l.x) && Step(l, e).Some? && Balance(l.x, l.out, r, fs)
    ensures Balance(Step(l, e).value.x, Step(l, e).value.out, r, gs)
  {
    var m := Step(l, e).value;
    gs := fs;
    if e.Count? && !Reading(l.x.pc) {
      TransmitKeepsBalance(l, e.n, r, fs);
    } else if e.Tmm? {
      TmmKeepsBalance(l, e, r, fs);
    } else if e.Move? && m.x.pc.Sending? {
      gs := fs + [l.x.sendq];
      StartKeepsBalance(l, e, r, fs);
    } else {
      SenderUntouched(l, e);
      hide Adds, Step;
    }
  }

  lemma SenderUntouched(l: Local, e: Event)
    requires Valid(l.x) && Step(l, e).Some? && !e.Tmm? && !(e.Move? && Step(l, e).value.x.pc.Sending?)
    requires e.Count? ==> Reading(l.x.pc)
    ensures var m := Step(l, e).value;
            && m.x.produced == l.x.produced && Queued(m.x) == Queued(l.x) && m.x.unsent == l.x.unsent
            && m.x.closing == l.x.closing && m.out == l.out
  {
    hide CloseBytes, Length, Finish, Frame, LittleEndian;
    if e.Move? && l.x.pc.ReceivePayload? {
      FinishKeeps(l, l.x.pc.ret);
    }
  }

  lemma TmmKeepsBalance(l: Local, e: Event, r: Agent, fs: seq<bytes>)
    requires Valid(l.x) && e.Tmm? && Step(l, e).Some? && Balance(l.x, l.out, r, fs)
    ensures Balance(Step(l, e).value.x, Step(l, e).value.out, r, fs)
  {
    var m := Step(l, e).value;
    assert m.x.produced == l.x.produced + e.queued && Queued(m.x) == Queued(l.x) + e.queued;
    assert m.x.unsent == l.x.unsent && m.x.closing == l.x.closing && m.out == l.out;
    hide Adds, Step, Valid, Queued, Delivered;
    assert InFlight(m.x, m.out, r) == InFlight(l.x, l.out, r);
    AddsProduced(InFlight(l.x, l.out, r), l.x.closing, l.x.produced, Delivered(r), Queued(l.x), fs, e.queued);
  }

  lemma StartKeepsBalance(l: Local, e: Event, r: Agent, fs: seq<bytes>)
    requires Valid(l.x) && e.Move? && Step(l, e).Some? && Step(l, e).value.x.pc.Sending? && Balance(l.x, l.out, r, fs)
    ensures Balance(Step(l, e).value.x, Step(l, e).value.out, r, fs + [l.x.sendq])
  {
    var m := Step(l, e).value;
    Started(l, e);
    hide Adds, Step, Valid, Queued, Frame, Delivered, InFlight;
    FlightGrows(l.x, m.x, l.out, r, Frame(l.x.sendq));
    AddsFrame(InFlight(l.x, l.out, r), l.x.produced, Delivered(r), l.x.sendq, fs);
  }

  lemma Started(l: Local, e: Event)
    requires Valid(l.x) && e.Move? && Step(l, e).Some? && Step(l, e).value.x.pc.Sending?
    ensures var m := Step(l, e).value;
            && m.x.closing == [] == l.x.closing && l.x.unsent == [] && m.x.unsent == Frame(l.x.sendq) && m.out == l.out
            && Queued(m.x) == [] && Queued(l.x) == l.x.sendq && |l.x.sendq| <= QUEUE_SIZE && m.x.produced == l.x.produced
  {
    hide Frame, Length, CloseBytes, LittleEndian;
  }

  lemma TransmitKeepsBalance(l: Local, n: nat, r: Agent, fs: seq<bytes>)
    requires Valid(l.x) && Transmit(l, n).Some? && Balance(l.x, l.out, r, fs)
    ensures Balance(Transmit(l, n).value.x, Transmit(l, n).value.out, r, fs)
  {
    var m := Transmit(l, n).value;
    if l.x.pc.Sending? {
      assert m.out == l.out + l.x.unsent[..n] && m.x.unsent == l.x.unsent[n..] && m.x.closing == l.x.closing;
      assert Queued(m.x) == Queued(l.x) && m.x.produced == l.x.produced;
      hide Adds, Transmit, Valid, Queued, InFlight, Delivered;
      FlightSent(l.x, m.x, l.out, r, n);
    } else {
      ClosingAppends(l, n);
      var more := m.out[|l.out|..];
      hide Adds, Transmit, Valid, Queued, InFlight, Delivered;
      FlightGrows(l.x, m.x, l.out, r, more);
      AddsClosing(InFlight(l.x, l.out, r), l.x.closing, l.x.produced, Delivered(r), Queued(l.x), fs, more);
    }
  }

  lemma ClosingAppends(l: Local, n: nat)
    requires Valid(l.x) && Transmit(l, n).Some? && !l.x.pc.Sending?
    ensures var m := Transmit(l, n).value;
            && l.x.unsent == [] == m.x.unsent && Queued(m.x) == Queued(l.x) && m.x.produced == l.x.produced
            && |m.out| >= |l.out| && m.out == l.out + m.out[|l.out|..] && m.x.closing == l.x.closing + m.out[|l.out|..]
  {
    hide LittleEndian, CloseBytes, Length;
  }

  // ----- the receiver's steps

  lemma {:induction false} AtLeastDigit(s: bytes, i: nat)
    requires i < |s|
    ensures FromLittleEndian(s) >= s[i] * Pow256(i)
  {
    if i > 0 {
      AtLeastDigit(s[1..], i - 1);
      assert 256 * (s[i] * Pow256(i - 1)) == s[i] * Pow256(i);
    }
  }

  lemma LargeLength(h: bytes)
    requires |h| == 8 && h[7] >= 1
    ensures Length(h) > QUEUE_SIZE
  {
    AtLeastDigit(h, 7);
    SeventhPower();
    assert h[7] * Pow256(7) >= Pow256(7) by { AtLeastFactor(h[7], Pow256(7)); }
  }

  lemma AtLeastFactor(a: nat, b: nat)
    requires a >= 1
    ensures a * b >= b
  {
  }

  lemma SeventhPower()
    ensures Pow256(7) >= 0x1_0000_0000
  {
    assert Pow256(4) == 0x1_0000_0000;
  }

  lemma ClosePieces(x: bytes, n: nat, m: nat, closing: bytes)
    requires |x| == 8 && n <= 8 && m <= 12 && closing == x[..n] + CLOSE[..m] && |closing| >= 8
    ensures n < 8 ==> closing[..8][7] == CLOSE[7 - n]
    ensures n == 8 ==> closing[..8] == x && (|closing| >= 20 ==> closing[8..20] == CLOSE)
  {
  }

  /** The remains of a close notification are never taken for a frame of data: a length cut short is
      filled up from the message and is far too large. */
  lemma CloseIsNoData(closing: bytes)
    requires CloseBytes(closing) && |closing| >= 8 && Length(closing[..8]) <= QUEUE_SIZE
    ensures Length(closing[..8]) == 12 && (|closing| >= 20 ==> closing[8..20] == CLOSE)
  {
    var n, m :| 0 <= n <= 8 && 0 <= m <= 12 && closing == LittleEndian(12, 8)[..n] + CLOSE[..m];
    FrameLength(CLOSE);
    hide Length, LittleEndian;
    ClosePieces(LittleEndian(12, 8), n, m, closing);
    if n < 8 {
      LargeLength(closing[..8]);
    }
  }

  lemma FramesHead(fs: seq<bytes>, closing: bytes)
    requires fs != []
    ensures Frames(fs) + closing == LittleEndian(|fs[0]|, 8) + (fs[0] + (Frames(fs[1..]) + closing))
  {
    Associate(Frame(fs[0]), Frames(fs[1..]), closing);
    Associate(LittleEndian(|fs[0]|, 8), fs[0], Frames(fs[1..]) + closing);
  }

  lemma FirstFrame(h: bytes, p: bytes, rest: bytes, closing: bytes, fs: seq<bytes>)
    requires h + p + rest == Frames(fs) + closing && fs != [] && |fs[0]| <= QUEUE_SIZE
    requires |h| == 8 && |p| == Length(h)
    ensures p == fs[0] && rest == Frames(fs[1..]) + closing
  {
    FrameLength(fs[0]);
    FramesHead(fs, closing);
    Associate(h, p, rest);
    hide Frames, Length, LittleEndian;
    SplitEqual(h, p + rest, LittleEndian(|fs[0]|, 8), fs[0] + (Frames(fs[1..]) + closing));
    SplitEqual(p, rest, fs[0], Frames(fs[1..]) + closing);
  }

  lemma OnlyClosing(h: bytes, p: bytes, rest: bytes, closing: bytes)
    requires h + p + rest == closing && CloseBytes(closing)
    requires |h| == 8 && |p| == Length(h) <= QUEUE_SIZE
    ensures IsClose(p)
  {
    hide CloseBytes, Length;
    assert (h + p + rest)[..8] == h && (h + p + rest)[8..8 + |p|] == p;
    CloseIsNoData(closing);
  }

  /** A complete payload is that of the oldest frame, or a close notification. */
  lemma PayloadIsOldestFrame(s: Agent, wire: bytes, r: Agent, fs: seq<bytes>)
    requires Balance(s, wire, r, fs) && CloseBytes(s.closing)
    requires |r.header| == 8 && |r.payload| == Length(r.header) <= QUEUE_SIZE
    ensures fs == [] ==> IsClose(r.payload)
    ensures fs != [] ==> r.payload == fs[0] && wire + s.unsent == Frames(fs[1..]) + s.closing
  {
    hide Length, CloseBytes, Concat, IsClose;
    assert r.header + r.payload + (wire + s.unsent) == InFlight(s, wire, r);
    if fs == [] {
      assert Frames(fs) + s.closing == s.closing;
      OnlyClosing(r.header, r.payload, wire + s.unsent, s.closing);
    } else {
      hide Frames;
      FirstFrame(r.header, r.payload, wire + s.unsent, s.closing, fs);
    }
  }

  lemma FinishDelivers(l: Local, ret: Tsi)
    ensures Finish(l, ret).Some?
    ensures var m := Finish(l, ret).value;
            if IsClose(l.x.payload) || |l.x.recvq| >= QUEUE_SIZE then !Running(m.x) && Delivered(m.x) == Delivered(l.x)
            else m.x.header == [] && m.x.payload == [] && m.arriving == l.arriving
                 && Delivered(m.x) == Delivered(l.x) + l.x.payload
  {
  }

  lemma FinishKeepsFlow(s: Agent, l: Local, ret: Tsi, fs: seq<bytes>)
    requires Balance(s, l.arriving, l.x, fs) && CloseBytes(s.closing) && ReceiverValid(l.x) && !l.x.desynced
    requires l.x.pc == ReceivePayload(ret) && |l.x.payload| == Length(l.x.header)
    ensures Flow(s, Finish(l, ret).value.arriving, Finish(l, ret).value.x)
  {
    hide Finish, AfterReceiving;
    PayloadIsOldestFrame(s, l.arriving, l.x, fs);
    FinishDelivers(l, ret);
    var m := Finish(l, ret).value;
    hide Frames, CloseBytes, Length, ReceiverValid, IsClose, Queued, Adds, Delivered;
    Extends(s, l.arriving, l.x, fs);
    if !IsClose(l.x.payload) && |l.x.recvq| < QUEUE_SIZE {
      assert InFlight(s, m.arriving, m.x) == m.arriving + s.unsent;
      hide InFlight;
      AddsDelivered(InFlight(s, l.arriving, l.x), m.arriving + s.unsent, s.closing, s.produced, Delivered(l.x), Queued(s), fs);
      assert Balance(s, m.arriving, m.x, fs[1..]);
      Extends(s, m.arriving, m.x, fs[1..]);
    }
  }

  lemma ReceiverKeepsFlow(s: Agent, l: Local, e: Event)
    requires Valid(l.x) && CloseBytes(s.closing) && Step(l, e).Some? && Flow(s, l.arriving, l.x)
    ensures Flow(s, Step(l, e).value.arriving, Step(l, e).value.x)
  {
    var m := Step(l, e).value;
    if l.x.desynced {
      StaysDesynced(l, e);
    } else if Running(l.x) {
      var fs :| Balance(s, l.arriving, l.x, fs);
      if e.Move? && l.x.pc.ReceivePayload? {
        FinishKeepsFlow(s, l, l.x.pc.ret, fs);
      } else {
        ReceiverKeepsBalance(s, l, e, fs);
      }
    } else {
      StoppedStaysStopped(l, e);
    }
  }

  lemma StaysDesynced(l: Local, e: Event)
    requires Step(l, e).Some? && l.x.desynced
    ensures Step(l, e).value.x.desynced
  {
    hide LittleEndian, Frame, Length, Finish, TmmActs;
    if e.Move? && l.x.pc.ReceivePayload? {
      FinishKeeps(l, l.x.pc.ret);
    } else if e.Tmm? && e.taken <= |l.x.recvq| {
      assert TmmActs(l.x, e.taken, e.queued).desynced by { TmmKeepsDelivered(l.x, e.taken, e.queued); }
    }
  }

  lemma StoppedStaysStopped(l: Local, e: Event)
    requires Step(l, e).Some? && !Running(l.x)
    ensures var m := Step(l, e).value;
            !Running(m.x) && Delivered(m.x) == Delivered(l.x)
  {
    hide LittleEndian, Frame, Length;
  }

  lemma ReceiverKeepsBalance(s: Agent, l: Local, e: Event, fs: seq<bytes>)
    requires Valid(l.x) && Running(l.x) && Step(l, e).Some? && Balance(s, l.arriving, l.x, fs) && !l.x.desynced
    requires !(e.Move? && l.x.pc.ReceivePayload?)
    ensures Flow(s, Step(l, e).value.arriving, Step(l, e).value.x)
  {
    var m := Step(l, e).value;
    Extends(s, l.arriving, l.x, fs);
    if !m.x.desynced {
      if e.Count? && Reading(l.x.pc) {
        ReceiveKeepsInFlight(s, l, e.n);
      } else {
        ReceiverUntouched(l, e);
      }
      hide Adds, Step, Valid, Delivered;
      assert Balance(s, m.arriving, m.x, fs);
    } else {
      ReceiverUntouchedByFailure(l, e);
    }
  }

  lemma ReceiveKeepsInFlight(s: Agent, l: Local, n: nat)
    requires Valid(l.x) && Receive(l, n).Some?
    ensures var m := Receive(l, n).value;
            InFlight(s, m.arriving, m.x) == InFlight(s, l.arriving, l.x) && Delivered(m.x) == Delivered(l.x)
  {
    var a, h, p := l.arriving, l.x.header, l.x.payload;
    assert a == a[..n] + a[n..];
    hide Length, CloseBytes;
    if l.x.pc.ReceiveHeader? {
      assert h + a[..n] + [] + a[n..] == h + [] + (a[..n] + a[n..]);
    } else {
      assert h + (p + a[..n]) + a[n..] == h + p + (a[..n] + a[n..]);
    }
  }

  lemma ReceiverUntouched(l: Local, e: Event)
    requires Step(l, e).Some? && !Step(l, e).value.x.desynced && !(e.Move? && l.x.pc.ReceivePayload?)
    requires !(e.Count? && Reading(l.x.pc))
    ensures SameReceiver(l, Step(l, e).value)
  {
    hide TmmStep, MoveStep, SameReceiver;
    if e.Tmm? {
      ReceiverKeptByTmm(l, e.ret, e.taken, e.queued);
    } else if e.Move? {
      ReceiverKeptByMove(l);
    } else {
      ReceiverKeptByOther(l, e);
    }
  }

  predicate SameReceiver(l: Local, m: Local) {
    m.x.header == l.x.header && m.x.payload == l.x.payload && m.arriving == l.arriving && Delivered(m.x) == Delivered(l.x)
  }

  lemma ReceiverKeptByTmm(l: Local, ret: Tsi, taken: nat, queued: bytes)
    requires TmmStep(l, ret, taken, queued).Some? && !TmmStep(l, ret, taken, queued).value.x.desynced
    ensures SameReceiver(l, TmmStep(l, ret, taken, queued).value)
  {
    hide Delivered, TmmActs;
    TmmKeepsDelivered(l.x, taken, queued);
    SameDelivered(TmmActs(l.x, taken, queued), TmmStep(l, ret, taken, queued).value.x);
  }

  lemma ReceiverKeptByMove(l: Local)
    requires MoveStep(l).Some? && !l.x.pc.ReceivePayload?
    ensures SameReceiver(l, MoveStep(l).value)
  {
    StartIsSame(l, if l.x.pc == SendCheck then MainLoop else ReceiveLoop);
    hide Delivered, Length, Finish, StartSending;
    SameDelivered(l.x, MoveStep(l).value.x);
  }

  lemma StartIsSame(l: Local, caller: Caller)
    ensures StartSending(l, caller).Some? && SameReceiver(l, StartSending(l, caller).value)
  {
    hide Frame;
  }

  lemma ReceiverKeptByOther(l: Local, e: Event)
    requires Step(l, e).Some? && !e.Tmm? && !e.Move? && !(e.Count? && Reading(l.x.pc))
    ensures SameReceiver(l, Step(l, e).value)
  {
    hide Delivered, TmmStep, MoveStep, LittleEndian;
    SameDelivered(l.x, Step(l, e).value.x);
  }

  lemma SameDelivered(x: Agent, y: Agent)
    ensures y.consumed == x.consumed && y.recvq == x.recvq ==> Delivered(y) == Delivered(x)
  {
  }

  lemma TmmKeepsDelivered(x: Agent, taken: nat, queued: bytes)
    requires taken <= |x.recvq|
    ensures var y := TmmActs(x, taken, queued);
            y.header == x.header && y.payload == x.payload && Delivered(y) == Delivered(x) && y.desynced == x.desynced
  {
    assert x.recvq == x.recvq[..taken] + x.recvq[taken..];
  }

  lemma ReceiverUntouchedByFailure(l: Local, e: Event)
    requires Step(l, e).Some? && Step(l, e).value.x.desynced && !l.x.desynced
    ensures e == Tmm(ErrorFailed, e.taken, e.queued) && l.x.pc == ReceiveIoctl && l.x.isServer
  {
    hide Length, LittleEndian, Frame;
  }

  // ----- whole runs

  datatype World = World(a: Agent, b: Agent, ab: bytes, ba: bytes)

  function Fresh(isServer: bool): Agent {
    Agent(isServer, Ioctl, [], [], [], [], false, [], false, [], false, [], [])
  }

  function Initial(aIsServer: bool, bIsServer: bool): World {
    World(Fresh(aIsServer), Fresh(bIsServer), [], [])
  }

  datatype Action = AtA(e: Event) | AtB(e: Event)

  function Next(w: World, action: Action): Option<World> {
    match action
    case AtA(e) =>
      (match Step(Local(w.a, w.ab, w.ba), e)
       case None => None
       case Some(m) => Some(World(m.x, w.b, m.out, m.arriving)))
    case AtB(e) =>
      (match Step(Local(w.b, w.ba, w.ab), e)
       case None => None
       case Some(m) => Some(World(w.a, m.x, m.arriving, m.out)))
  }

  function Run(w: World, actions: seq<Action>): Option<World> {
    if actions == [] then Some(w)
    else
      match Run(w, actions[..|actions| - 1])
      case None => None
      case Some(v) => Next(v, actions[|actions| - 1])
  }

  ghost predicate Inv(w: World) {
    Valid(w.a) && Valid(w.b) && Flow(w.a, w.ab, w.b) && Flow(w.b, w.ba, w.a)
  }

  lemma NextKeepsInv(w: World, action: Action)
    requires Inv(w) && Next(w, action).Some?
    ensures Inv(Next(w, action).value)
  {
    var l := if action.AtA? then Local(w.a, w.ab, w.ba) else Local(w.b, w.ba, w.ab);
    var other := if action.AtA? then w.b else w.a;
    assert CloseBytes(other.closing);
    hide Step, Flow;
    SenderStaysValid(l, action.e);
    ReceiverStaysValid(l, action.e);
    SenderKeepsFlow(l, action.e, other);
    ReceiverKeepsFlow(other, l, action.e);
  }

  /** Over every interleaving and every short read or write: the receive queue never exceeds its size;
      while a receiver runs, what was queued at the source is what the destination has consumed, then its
      receive queue, then the payload of the frames in flight, then the source's send queue; and what
      is delivered is always a prefix of what was queued. The one exception is a server that carries on
      after the TMM has failed while it waited for room. */
  lemma {:induction false} EveryRunIsSafe(aIsServer: bool, bIsServer: bool, actions: seq<Action>)
    requires Run(Initial(aIsServer, bIsServer), actions).Some?
    ensures Inv(Run(Initial(aIsServer, bIsServer), actions).value)
  {
    var w := Initial(aIsServer, bIsServer);
    if actions == [] {
      EmptyClose();
      assert Balance(w.a, w.ab, w.b, []) && Balance(w.b, w.ba, w.a, []);
    } else {
      var front := actions[..|actions| - 1];
      hide Inv;
      EveryRunIsSafe(aIsServer, bIsServer, front);
      NextKeepsInv(Run(w, front).value, actions[|actions| - 1]);
    }
  }
}
