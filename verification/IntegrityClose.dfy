/** When an agent of the migration integrity channel stops, and how its peer is told. */
module IntegrityClose {
  import opened Bytes
  import opened IntegrityChannel
  import opened IntegrityRuns

  function AgentOf(w: World, server: bool): Agent {
    if server then w.b else w.a
  }

  function At(server: bool, e: Event): Action {
    if server then AtB(e) else AtA(e)
  }

  /** In some run from here the agent makes another ioctl. */
  ghost predicate FurtherIoctl(w: World, server: bool) {
    exists acts, e: Event :: e.Tmm? && Run(w, acts + [At(server, e)]).Some?
  }

  // ----- what holds of an agent in every run

  /** P stays true whatever the agent does, and whatever the other puts on the wire or takes from it. */
  ghost predicate Kept(P: Local -> bool) {
    && (forall l, e: Event :: P(l) && Step(l, e).Some? ==> P(Step(l, e).value))
    && (forall l, m: Local :: P(l) && m.x == l.x && l.arriving <= m.arriving ==> P(m))
  }

  lemma KeptStep(P: Local -> bool, l: Local, e: Event)
    requires Kept(P) && P(l) && Step(l, e).Some?
    ensures P(Step(l, e).value)
  {
    hide Step;
  }

  lemma KeptByOther(P: Local -> bool, l: Local, m: Local)
    requires Kept(P) && P(l) && m.x == l.x && l.arriving <= m.arriving
    ensures P(m)
  {
    hide Step;
  }

  lemma KeptNext(P: Local -> bool, w: World, server: bool, action: Action)
    requires Kept(P) && P(LocalOf(w, server)) && Next(w, action).Some?
    ensures P(LocalOf(Next(w, action).value, server))
  {
    hide Step, Kept;
    if action.AtB? == server {
      KeptStep(P, LocalOf(w, server), action.e);
    } else {
      OutGrows(LocalOf(w, !server), action.e);
      KeptByOther(P, LocalOf(w, server), LocalOf(Next(w, action).value, server));
    }
  }

  lemma {:induction false} KeptInRuns(P: Local -> bool, w: World, server: bool, acts: seq<Action>)
    requires Kept(P) && P(LocalOf(w, server)) && Run(w, acts).Some?
    ensures P(LocalOf(Run(w, acts).value, server))
    decreases |acts|
  {
    hide Kept, Next, LocalOf;
    if acts != [] {
      var front := acts[..|acts| - 1];
      KeptInRuns(P, w, server, front);
      KeptNext(P, Run(w, front).value, server, acts[|acts| - 1]);
    }
  }

  /** If it can never be at an ioctl, no ioctl follows. */
  lemma NoIoctl(P: Local -> bool, w: World, server: bool)
    requires Kept(P) && P(LocalOf(w, server))
    requires forall l, e: Event :: P(l) && e.Tmm? ==> Step(l, e) == None
    ensures !FurtherIoctl(w, server)
  {
    hide Kept, Step;
    forall acts, e: Event | e.Tmm? ensures Run(w, acts + [At(server, e)]) == None {
      var all := acts + [At(server, e)];
      assert all[..|all| - 1] == acts && all[|all| - 1] == At(server, e);
      if Run(w, acts).Some? {
        KeptInRuns(P, w, server, acts);
        assert Step(LocalOf(Run(w, acts).value, server), e) == None;
      }
    }
  }

  lemma OneIoctl(w: World, server: bool, es: seq<Event>, e: Event)
    requires Steps(LocalOf(w, server), es + [e]).Some? && e.Tmm?
    ensures FurtherIoctl(w, server)
  {
    StepsAreRuns(w, server, es + [e]);
    hide Run, Steps;
    assert AtAll(server, es + [e]) == AtAll(server, es) + [At(server, e)];
  }

  // ----- the main loop

  /** The ioctl has returned ret, or the agent has left its loop. */
  ghost predicate Stopping(l: Local, isServer: bool, ret: Tsi) {
    l.x.isServer == isServer && (l.x.pc == Dispatch(ret) || !Running(l.x))
  }

  lemma StoppingStep(l: Local, isServer: bool, ret: Tsi, e: Event)
    requires ret == ErrorInput || (!isServer && (ret == Success || ret == ErrorFailed))
    requires Stopping(l, isServer, ret) && Step(l, e).Some?
    ensures !e.Tmm? && Stopping(Step(l, e).value, isServer, ret)
  {
    hide LittleEndian, Frame, Length, Finish;
  }

  lemma StoppingKept(isServer: bool, ret: Tsi)
    requires ret == ErrorInput || (!isServer && (ret == Success || ret == ErrorFailed))
    ensures Kept(l => Stopping(l, isServer, ret))
    ensures forall l, e: Event :: Stopping(l, isServer, ret) && e.Tmm? ==> Step(l, e) == None
  {
    hide Step;
    forall l, e | Stopping(l, isServer, ret) && Step(l, e).Some?
      ensures !e.Tmm? && Stopping(Step(l, e).value, isServer, ret)
    {
      StoppingStep(l, isServer, ret, e);
    }
  }

  /** More is queued than a frame can hold. */
  ghost predicate Overfull(l: Local) {
    !Running(l.x) || ((l.x.pc.Dispatch? || l.x.pc == SendCheck) && |l.x.sendq| > QUEUE_SIZE)
  }

  lemma OverfullStep(l: Local, e: Event)
    requires Overfull(l) && Step(l, e).Some?
    ensures !e.Tmm? && Overfull(Step(l, e).value)
  {
    hide LittleEndian, Frame, Length, Finish;
  }

  lemma OverfullKept()
    ensures Kept(l => Overfull(l)) && forall l, e: Event :: Overfull(l) && e.Tmm? ==> Step(l, e) == None
  {
    hide Step;
    forall l, e | Overfull(l) && Step(l, e).Some? ensures !e.Tmm? && Overfull(Step(l, e).value) {
      OverfullStep(l, e);
    }
  }

  const ASKS: Event := Tmm(Incomplete, 0, [])

  lemma Asks(l: Local)
    requires l.x.pc == Ioctl
    ensures Steps(l, [ASKS]).Some?
  {
    SingleStep(l, ASKS);
  }

  /** From the test of what is queued round to the next ioctl. */
  lemma GoesRound(l: Local) returns (es: seq<Event>)
    requires l.x.pc == SendCheck && !l.x.dead && |l.x.sendq| <= QUEUE_SIZE
    ensures Steps(l, es + [ASKS]).Some?
  {
    var n := |l.x.sendq|;
    var m: Local;
    if n == 0 {
      var l2, l3 := l.(x := l.x.(pc := Poll)), l.(x := l.x.(pc := Ioctl));
      es, m := [Move, Ready(false)], l3;
      assert Step(l, Move) == Some(l2) && Step(l2, Ready(false)) == Some(l3);
      TwoSteps(l, l2, l3, Move, Ready(false));
    } else {
      es, m := SendsRound(l);
    }
    Asks(m);
    hide Steps;
    StepsThen(l, es, [ASKS]);
  }

  lemma SendsRound(l: Local) returns (es: seq<Event>, m: Local)
    requires l.x.pc == SendCheck && !l.x.dead && 0 < |l.x.sendq| <= QUEUE_SIZE
    ensures m.x.pc == Ioctl && Steps(l, es) == Some(m)
  {
    var d := l.x.sendq;
    var l2 := l.(x := l.x.(pc := Sending(MainLoop), framing := true, unsent := Frame(d)));
    var l3 := l.(x := l2.x.(unsent := []), out := l.out + Frame(d));
    var l4 := l3.(x := l3.x.(sendq := [], framing := false, pc := Poll));
    m := l4.(x := l4.x.(pc := Ioctl));
    es := [Move, Count(8 + |d|), Move, Ready(false)];
    SentWhole(l2, d);
    hide Frame;
    assert Step(l, Move) == Some(l2) && Step(l3, Move) == Some(l4) && Step(l4, Ready(false)) == Some(m);
    hide Step;
    FourSteps(l, l2, l3, l4, m, Move, Count(8 + |d|), Move, Ready(false));
  }

  lemma LoopGoesOn(w: World, server: bool, ret: Tsi)
    requires AgentOf(w, server).pc == Dispatch(ret) && !AgentOf(w, server).dead && |AgentOf(w, server).sendq| <= QUEUE_SIZE
    requires ret != ErrorInput && (AgentOf(w, server).isServer || (ret != Success && ret != ErrorFailed))
    ensures FurtherIoctl(w, server)
  {
    var l := LocalOf(w, server);
    var m := l.(x := l.x.(pc := SendCheck));
    assert Step(l, Move) == Some(m);
    SingleStep(l, Move);
    hide Step;
    var es := GoesRound(m);
    StepsThen(l, [Move], es + [ASKS]);
    hide Steps;
    assert [Move] + (es + [ASKS]) == [Move] + es + [ASKS];
    OneIoctl(w, server, [Move] + es, ASKS);
  }

  /** An ioctl of the main loop is the agent's last exactly when it returns an input error, or at a client success
      or failure, or leaves more queued than a frame holds: after any other return there are runs to the next,
      after these there is none in any run. */
  lemma LastIoctlExactly(w: World, server: bool, ret: Tsi, taken: nat, queued: bytes)
    requires AgentOf(w, server).pc == Ioctl && !AgentOf(w, server).dead
    requires Next(w, At(server, Tmm(ret, taken, queued))).Some?
    ensures FurtherIoctl(Next(w, At(server, Tmm(ret, taken, queued))).value, server)
       <==> (&& ret != ErrorInput && (AgentOf(w, server).isServer || (ret != Success && ret != ErrorFailed))
             && |AgentOf(w, server).sendq| + |queued| <= QUEUE_SIZE)
  {
    var x, v := AgentOf(w, server), Next(w, At(server, Tmm(ret, taken, queued))).value;
    assert AgentOf(v, server) == TmmActs(x, taken, queued).(pc := Dispatch(ret));
    hide Kept, FurtherIoctl, Step, Next;
    if ret == ErrorInput || (!x.isServer && (ret == Success || ret == ErrorFailed)) {
      StoppingKept(x.isServer, ret);
      NoIoctl(l => Stopping(l, x.isServer, ret), v, server);
    } else if |x.sendq| + |queued| > QUEUE_SIZE {
      OverfullKept();
      NoIoctl(l => Overfull(l), v, server);
    } else {
      LoopGoesOn(v, server, ret);
    }
  }

  // ----- the notification

  /** The text CLOSE_NOTIFY behind its length. */
  const NOTIFICATION: bytes := [12, 0, 0, 0, 0, 0, 0, 0, 0x43, 0x4C, 0x4F, 0x53, 0x45, 0x5F, 0x4E, 0x4F, 0x54, 0x49, 0x46, 0x59]

  lemma NotificationParts()
    ensures NOTIFICATION == LittleEndian(12, 8) + CLOSE == Frame(CLOSE)
  {
    EightBytes(12, 12, 0);
    hide LittleEndian;
    assert NOTIFICATION[..8] == [12, 0, 0, 0, 0, 0, 0, 0] && NOTIFICATION[8..] == CLOSE;
  }

  /** The queues are 16 bytes short of 64 KiB. */
  lemma QueueSize()
    ensures QUEUE_SIZE == 65520 && CLOSE == Ascii("CLOSE_NOTIFY")
  {
  }

  /** Each part is given to the channel once, which may take less of it. */
  lemma CloseCutShort(l: Local, n: nat, m: nat)
    requires l.x.pc == CloseHeader && !l.x.dead && n <= 8 && m <= 12
    ensures Steps(l, [Count(n), Count(m)]).Some?
    ensures var v := Steps(l, [Count(n), Count(m)]).value;
            v.x.pc == Done && v.out == l.out + (NOTIFICATION[..n] + NOTIFICATION[8..8 + m]) && v.arriving == l.arriving
  {
    NotificationParts();
    var h, t := LittleEndian(12, 8)[..n], CLOSE[..m];
    assert NOTIFICATION[..n] == h && NOTIFICATION[8..8 + m] == t;
    hide LittleEndian;
    var l2 := l.(x := l.x.(pc := CloseMessage, closing := h), out := l.out + h);
    var l3 := l2.(x := l2.x.(pc := Done, closing := h + t), out := l.out + h + t);
    assert Step(l, Count(n)) == Some(l2) && Step(l2, Count(m)) == Some(l3);
    TwoSteps(l, l2, l3, Count(n), Count(m));
    Associate(l.out, h, t);
  }

  /** The channel takes both parts. */
  lemma CloseSent(l: Local)
    requires l.x.pc == CloseHeader && !l.x.dead
    ensures Steps(l, [Count(8), Count(12)]).Some?
    ensures var m := Steps(l, [Count(8), Count(12)]).value;
            m.x.pc == Done && m.out == l.out + NOTIFICATION && m.arriving == l.arriving
  {
    CloseCutShort(l, 8, 12);
    hide Steps;
    assert NOTIFICATION[..8] + NOTIFICATION[8..20] == NOTIFICATION;
  }

  /** Such an agent tells its peer, on a channel that takes what it is given, and has then stopped. */
  lemma LastIoctlCloses(l: Local, ret: Tsi, taken: nat, queued: bytes)
    requires l.x.pc == Ioctl && !l.x.dead && taken <= |l.x.recvq|
    requires ret == ErrorInput || (!l.x.isServer && (ret == Success || ret == ErrorFailed))
    ensures Steps(l, [Tmm(ret, taken, queued), Move] + [Count(8), Count(12)]).Some?
    ensures var m := Steps(l, [Tmm(ret, taken, queued), Move] + [Count(8), Count(12)]).value;
            m.x.pc == Done && m.out == l.out + NOTIFICATION && m.arriving == l.arriving
  {
    var e := Tmm(ret, taken, queued);
    var l1 := l.(x := TmmActs(l.x, taken, queued).(pc := Dispatch(ret)));
    var l2 := l1.(x := l1.x.(pc := CloseHeader));
    assert Step(l, e) == Some(l1) && Step(l1, Move) == Some(l2);
    hide Step;
    TwoSteps(l, l1, l2, e, Move);
    CloseSent(l2);
    StepsThen(l, [e, Move], [Count(8), Count(12)]);
  }

  // ----- the last message

  predicate BeginsClose(f: bytes) {
    |f| >= 12 && f[..12] == NOTIFICATION[8..]
  }

  lemma BeginsCloseIsClose(f: bytes)
    ensures BeginsClose(f) <==> IsClose(f)
  {
    NotificationParts();
    assert NOTIFICATION[8..] == CLOSE;
  }

  /** The return value ret, that of the last ioctl while waiting for room, or none, ends the loop. */
  predicate EndsReceiving(isServer: bool, ret: Tsi) {
    ret == ErrorInput || ret == Errno || (!isServer && (ret == Success || ret == ErrorFailed))
  }

  /** A frame of f is before the agent, or partly read, and there is room for it; ret is the return value. */
  ghost predicate HeaderAhead(l: Local, f: bytes) {
    l.x.pc == ReceiveHeader && l.x.payload == [] && |l.x.header| <= 8 && LittleEndian(|f|, 8) + f <= l.x.header + l.arriving
  }

  ghost predicate PayloadAhead(l: Local, ret: Tsi, f: bytes) {
    && (l.x.pc == ReceivePayload(ret) || (l.x.pc == ReceiveRoom(ret) && l.x.payload == []))
    && l.x.header == LittleEndian(|f|, 8) && |l.x.payload| <= |f| && f <= l.x.payload + l.arriving
  }

  ghost predicate LastMessage(l: Local, isServer: bool, ret: Tsi, f: bytes, q: nat) {
    && l.x.isServer == isServer && |f| <= QUEUE_SIZE - 8 && q + |f| <= QUEUE_SIZE
    && (!Running(l.x) || (|l.x.recvq| == q && ((ret == Incomplete && HeaderAhead(l, f)) || PayloadAhead(l, ret, f))))
  }

  lemma HeaderStep(l: Local, isServer: bool, f: bytes, q: nat, e: Event)
    requires LastMessage(l, isServer, Incomplete, f, q) && HeaderAhead(l, f) && Step(l, e).Some?
    ensures !e.Tmm? && LastMessage(Step(l, e).value, isServer, Incomplete, f, q)
  {
    FrameLength(f);
    var h := LittleEndian(|f|, 8);
    hide LittleEndian, Frame, Length, Transmit, Finish;
    if e.Count? && e.n <= |l.arriving| {
      Split(l.x.header, l.arriving, e.n);
    } else if e.Move? && |l.x.header| == 8 {
      Begins(h, f, l.x.header, l.arriving);
    }
  }

  lemma Begins(h: bytes, f: bytes, x: bytes, y: bytes)
    requires h + f <= x + y && |h| == |x|
    ensures h == x && f <= y
  {
    assert (x + y)[..|x|] == x && (x + y)[|x|..] == y;
    assert (x + y)[..|x|] == (h + f)[..|x|] == h;
    assert y[..|f|] == (x + y)[|x|..|x| + |f|] == (h + f)[|x|..] == f;
  }

  lemma PayloadStep(l: Local, isServer: bool, ret: Tsi, f: bytes, q: nat, e: Event)
    requires IsClose(f) || q + |f| >= QUEUE_SIZE || EndsReceiving(isServer, ret)
    requires LastMessage(l, isServer, ret, f, q) && PayloadAhead(l, ret, f) && Step(l, e).Some?
    ensures !e.Tmm? && LastMessage(Step(l, e).value, isServer, ret, f, q)
  {
    FrameLength(f);
    hide LittleEndian, Frame, Length, Transmit, IsClose, StartSending, Finish, EndsReceiving;
    if e.Move? && l.x.pc.ReceivePayload? {
      assert Length(l.x.header) == |f| && |l.x.payload| == |f|;
      assert l.x.payload == f by { Begins(f, [], l.x.payload, l.arriving); }
      FinishEnds(l, ret, f);
    } else if l.x.pc.ReceivePayload? && e.Count? && e.n <= |l.arriving| {
      Split(l.x.payload, l.arriving, e.n);
    }
  }

  lemma FinishEnds(l: Local, ret: Tsi, f: bytes)
    requires l.x.pc == ReceivePayload(ret) && l.x.payload == f
    requires IsClose(f) || |l.x.recvq| + |f| >= QUEUE_SIZE || EndsReceiving(l.x.isServer, ret)
    ensures !Running(Finish(l, ret).value.x) && Finish(l, ret).value.x.isServer == l.x.isServer
  {
    hide IsClose;
  }

  lemma LastMessageStep(l: Local, isServer: bool, ret: Tsi, f: bytes, q: nat, e: Event)
    requires IsClose(f) || q + |f| >= QUEUE_SIZE || EndsReceiving(isServer, ret)
    requires LastMessage(l, isServer, ret, f, q) && Step(l, e).Some?
    ensures !e.Tmm? && LastMessage(Step(l, e).value, isServer, ret, f, q)
  {
    hide HeaderAhead, PayloadAhead, IsClose, EndsReceiving;
    if !Running(l.x) {
      StoppedStep(l, e);
      hide Step;
    } else if HeaderAhead(l, f) && ret == Incomplete {
      hide Step, LastMessage;
      HeaderStep(l, isServer, f, q, e);
    } else {
      hide Step;
      PayloadStep(l, isServer, ret, f, q, e);
    }
  }

  lemma StoppedStep(l: Local, e: Event)
    requires Step(l, e).Some? && !Running(l.x)
    ensures !e.Tmm? && !Running(Step(l, e).value.x) && Step(l, e).value.x.isServer == l.x.isServer
  {
    hide LittleEndian, Frame, Length, Finish;
  }

  lemma LastMessageKept(isServer: bool, ret: Tsi, f: bytes, q: nat)
    requires IsClose(f) || q + |f| >= QUEUE_SIZE || EndsReceiving(isServer, ret)
    ensures Kept(l => LastMessage(l, isServer, ret, f, q))
    ensures forall l, e: Event :: LastMessage(l, isServer, ret, f, q) && e.Tmm? ==> Step(l, e) == None
  {
    hide Step, IsClose, EndsReceiving, LastMessage;
    forall l, e | LastMessage(l, isServer, ret, f, q) && Step(l, e).Some?
      ensures !e.Tmm? && LastMessage(Step(l, e).value, isServer, ret, f, q)
    {
      LastMessageStep(l, isServer, ret, f, q, e);
    }
    forall l, m: Local | LastMessage(l, isServer, ret, f, q) && m.x == l.x && l.arriving <= m.arriving
      ensures LastMessage(m, isServer, ret, f, q)
    {
      LastMessageGrows(l, m, isServer, ret, f, q);
    }
  }

  lemma LastMessageGrows(l: Local, m: Local, isServer: bool, ret: Tsi, f: bytes, q: nat)
    requires LastMessage(l, isServer, ret, f, q) && m.x == l.x && l.arriving <= m.arriving
    ensures LastMessage(m, isServer, ret, f, q)
  {
    hide LittleEndian;
    assert l.x.header + l.arriving <= m.x.header + m.arriving;
    assert l.x.payload + l.arriving <= m.x.payload + m.arriving;
  }

  /** What follows a message depends on its text and on the last return value. */
  lemma Finished(l: Local, ret: Tsi, f: bytes)
    requires l.x.pc == ReceivePayload(ret) && l.x.payload == f && |l.x.recvq| + |f| <= QUEUE_SIZE
    ensures Finish(l, ret).Some?
    ensures var m := Finish(l, ret).value;
            && m.x.pc == (if BeginsClose(f) then Done
                          else if |l.x.recvq| + |f| >= QUEUE_SIZE || EndsReceiving(l.x.isServer, ret) then CloseHeader
                          else if ret == Notify then Notifying else Ioctl)
            && m.x.dead == l.x.dead && m.out == l.out && m.arriving == l.arriving
  {
    BeginsCloseIsClose(f);
    hide IsClose, BeginsClose;
  }

  lemma MessageRead(l: Local, ret: Tsi, f: bytes) returns (m: Local)
    requires l.x.pc == ReceiveRoom(ret) && l.x.payload == [] && l.x.header == LittleEndian(|f|, 8) && f <= l.arriving
    requires |f| <= QUEUE_SIZE - 8 && |l.x.recvq| + |f| <= QUEUE_SIZE
    ensures Steps(l, [Move, Count(|f|), Move]) == Some(m)
    ensures m.x.pc == (if BeginsClose(f) then Done
                       else if |l.x.recvq| + |f| >= QUEUE_SIZE || EndsReceiving(l.x.isServer, ret) then CloseHeader
                       else if ret == Notify then Notifying else Ioctl)
    ensures m.x.dead == l.x.dead && m.out == l.out && m.arriving == l.arriving[|f|..]
  {
    FrameLength(f);
    hide LittleEndian, Length, IsClose, BeginsClose, Frame, Finish, EndsReceiving, Steps;
    var l1 := l.(x := l.x.(pc := ReceivePayload(ret)));
    var l2 := l1.(x := l1.x.(payload := f), arriving := l.arriving[|f|..]);
    assert Step(l, Move) == Some(l1);
    assert Step(l1, Count(|f|)) == Some(l2) by { assert l.arriving[..|f|] == f && [] + f == f; }
    Finished(l2, ret, f);
    m := Finish(l2, ret).value;
    assert Step(l2, Move) == Some(m);
    ThreeSteps(l, l1, l2, m, Move, Count(|f|), Move);
  }

  /** A message of f is before the agent, behind its length, and there is room for it. */
  ghost predicate MessageHere(l: Local, ret: Tsi, f: bytes) {
    && l.x.pc == ReceiveRoom(ret) && l.x.payload == [] && l.x.header == LittleEndian(|f|, 8) && f <= l.arriving
    && |f| <= QUEUE_SIZE - 8 && |l.x.recvq| + |f| <= QUEUE_SIZE && !l.x.dead
  }

  /** There are runs to another ioctl exactly when the message is no close and does not fill the queue, and the
      last return value was none that ends the loop; otherwise there is none in any run. */
  lemma LastReceiveExactly(w: World, server: bool, ret: Tsi, f: bytes)
    requires MessageHere(LocalOf(w, server), ret, f)
    ensures FurtherIoctl(w, server)
       <==> (&& !BeginsClose(f) && |AgentOf(w, server).recvq| + |f| < QUEUE_SIZE && ret != ErrorInput && ret != Errno
             && (AgentOf(w, server).isServer || (ret != Success && ret != ErrorFailed)))
  {
    var l := LocalOf(w, server);
    BeginsCloseIsClose(f);
    hide Kept, FurtherIoctl, Step, Next, Steps, IsClose, BeginsClose, LittleEndian;
    if BeginsClose(f) || |l.x.recvq| + |f| >= QUEUE_SIZE || EndsReceiving(l.x.isServer, ret) {
      LastMessageKept(l.x.isServer, ret, f, |l.x.recvq|);
      assert [] + l.arriving == l.arriving;
      NoIoctl(l' => LastMessage(l', l.x.isServer, ret, f, |l.x.recvq|), w, server);
    } else {
      var m := MessageRead(l, ret, f);
      ReceiverGoesOn(w, server, [Move, Count(|f|), Move], m);
    }
  }

  /** An agent that makes no further one tells its peer, unless that has told it. */
  lemma LastReceiveCloses(l: Local, ret: Tsi, f: bytes)
    requires MessageHere(l, ret, f)
    requires || BeginsClose(f) || |l.x.recvq| + |f| >= QUEUE_SIZE || ret == ErrorInput || ret == Errno
             || (!l.x.isServer && (ret == Success || ret == ErrorFailed))
    ensures var es := [Move, Count(|f|), Move] + (if BeginsClose(f) then [] else [Count(8), Count(12)]);
            && Steps(l, es).Some? && Steps(l, es).value.x.pc == Done
            && Steps(l, es).value.out == l.out + (if BeginsClose(f) then [] else NOTIFICATION)
  {
    var m := MessageRead(l, ret, f);
    hide Step, Steps, BeginsClose, LittleEndian;
    if BeginsClose(f) {
      assert [Move, Count(|f|), Move] + [] == [Move, Count(|f|), Move] && l.out + [] == l.out;
    } else {
      CloseSent(m);
      StepsThen(l, [Move, Count(|f|), Move], [Count(8), Count(12)]);
    }
  }

  lemma ReceiverGoesOn(w: World, server: bool, es: seq<Event>, m: Local)
    requires Steps(LocalOf(w, server), es) == Some(m) && (m.x.pc == Notifying || m.x.pc == Ioctl)
    ensures FurtherIoctl(w, server)
  {
    var l := LocalOf(w, server);
    if m.x.pc == Ioctl {
      Asks(m);
      StepsThen(l, es, [ASKS]);
      OneIoctl(w, server, es, ASKS);
    } else {
      var n := m.(x := m.x.(pc := Ioctl));
      assert Step(m, Move) == Some(n);
      SingleStep(m, Move);
      StepsThen(l, es, [Move]);
      Asks(n);
      hide Steps, Step;
      StepsThen(l, es + [Move], [ASKS]);
      OneIoctl(w, server, es + [Move], ASKS);
    }
  }

  /** While it waits for room, a client stops when the TMM fails, and a server asks it again in its main loop; any
      other return is looked at when there is room. */
  lemma WaitingExactly(w: World, server: bool, ret: Tsi, taken: nat, queued: bytes)
    requires AgentOf(w, server).pc == ReceiveIoctl && Next(w, At(server, Tmm(ret, taken, queued))).Some?
    ensures var v := Next(w, At(server, Tmm(ret, taken, queued))).value;
            if ret != ErrorFailed then AgentOf(v, server).pc == ReceiveRoom(ret)
            else FurtherIoctl(v, server) <==> AgentOf(w, server).isServer
  {
    var v := Next(w, At(server, Tmm(ret, taken, queued))).value;
    var x := AgentOf(v, server);
    assert if ret != ErrorFailed then x.pc == ReceiveRoom(ret)
           else x.isServer == AgentOf(w, server).isServer && x.pc == if x.isServer then Ioctl else CloseHeader;
    hide FurtherIoctl, Step, Next;
    if ret == ErrorFailed && x.isServer {
      Asks(LocalOf(v, server));
      assert [] + [ASKS] == [ASKS];
      OneIoctl(w := v, server := server, es := [], e := ASKS);
    } else if ret == ErrorFailed {
      NoneAfterEnd(v, server);
    }
  }

  /** Before asking for room it sends what is queued, as one frame. */
  lemma WaitingSends(l: Local, ret: Tsi)
    requires l.x.pc == ReceiveRoom(ret) && Length(l.x.header) > QUEUE_SIZE - |l.x.recvq| && !l.x.dead && |l.x.sendq| <= QUEUE_SIZE
    ensures var es := if l.x.sendq == [] then [Move] else [Move, Count(8 + |l.x.sendq|), Move];
            && Steps(l, es).Some? && Steps(l, es).value.x.pc == ReceiveIoctl && Steps(l, es).value.x.sendq == []
            && Steps(l, es).value.out == l.out + (if l.x.sendq == [] then [] else LittleEndian(|l.x.sendq|, 8) + l.x.sendq)
  {
    var d := l.x.sendq;
    hide Length;
    if d == [] {
      SingleStep(l, Move);
      assert l.out + [] == l.out;
    } else {
      var l1 := l.(x := l.x.(pc := Sending(ReceiveLoop), framing := true, unsent := Frame(d)));
      var l2 := l1.(x := l1.x.(unsent := []), out := l.out + Frame(d));
      var l3 := l2.(x := l2.x.(sendq := [], framing := false, pc := ReceiveIoctl));
      assert Frame(d) == LittleEndian(|d|, 8) + d;
      hide Frame, LittleEndian;
      assert Step(l, Move) == Some(l1) && Step(l2, Move) == Some(l3);
      assert Step(l1, Count(8 + |d|)) == Some(l2) by {
        assert Frame(d)[..8 + |d|] == Frame(d) && Frame(d)[8 + |d|..] == [];
      }
      hide Step;
      ThreeSteps(l, l1, l2, l3, Move, Count(8 + |d|), Move);
    }
  }

  lemma NoneAfterEnd(w: World, server: bool)
    requires !Running(AgentOf(w, server))
    ensures !FurtherIoctl(w, server)
  {
    hide Kept, FurtherIoctl, Step;
    var x := AgentOf(w, server);
    StoppingKept(x.isServer, ErrorInput);
    NoIoctl(l => Stopping(l, x.isServer, ErrorInput), w, server);
  }

  /** The agent can bring exactly this text on the wire. */
  ghost predicate CanWrite(l: Local, text: bytes) {
    exists es :: Steps(l, es).Some? && Steps(l, es).value.out == l.out + text
  }

  /** A failing call ends the loop wherever it happens. The peer is told exactly if it happened while receiving,
      and not on a channel that has just failed to transmit. */
  lemma FailureExactly(w: World, server: bool)
    requires Next(w, At(server, Fails)).Some? && !AgentOf(w, server).dead
    ensures !FurtherIoctl(Next(w, At(server, Fails)).value, server)
    ensures CanWrite(LocalOf(Next(w, At(server, Fails)).value, server), NOTIFICATION)
       <==> (|| AgentOf(w, server).pc == ReceiveHeader || AgentOf(w, server).pc.ReceiveRoom?
             || AgentOf(w, server).pc.ReceivePayload?
             || (AgentOf(w, server).pc == Sending(ReceiveLoop) && AgentOf(w, server).unsent == []))
  {
    var l, m := LocalOf(w, server), LocalOf(Next(w, At(server, Fails)).value, server);
    Failed(l, m);
    NoneAfterEnd(Next(w, At(server, Fails)).value, server);
    hide FurtherIoctl, Step, Next;
    if m.x.pc == CloseHeader && !m.x.dead {
      CloseSent(m);
    } else {
      forall es | Steps(m, es).Some? ensures Steps(m, es).value.out == m.out {
        NothingWritten(m, es);
      }
      assert |m.out + NOTIFICATION| != |m.out|;
    }
  }

  lemma Failed(l: Local, m: Local)
    requires Step(l, Fails) == Some(m) && !l.x.dead
    ensures !Running(m.x) && m.out == l.out && (m.x.pc == Done || m.x.pc == CloseHeader)
    ensures m.x.pc == CloseHeader && !m.x.dead
       <==> (|| l.x.pc == ReceiveHeader || l.x.pc.ReceiveRoom? || l.x.pc.ReceivePayload?
             || (l.x.pc == Sending(ReceiveLoop) && l.x.unsent == []))
  {
  }

  lemma {:induction false} NothingWritten(l: Local, es: seq<Event>)
    requires (l.x.pc == Done || (l.x.pc == CloseHeader && l.x.dead)) && Steps(l, es).Some?
    ensures Steps(l, es).value.out == l.out
    decreases es
  {
    if es != [] {
      var m := Step(l, es[0]).value;
      assert m.out == l.out && (m.x.pc == Done || (m.x.pc == CloseHeader && m.x.dead)) by { hide LittleEndian; }
      hide Step;
      NothingWritten(m, es[1..]);
    }
  }

  /** An agent to which a notification comes. */
  ghost predicate NotificationHere(l: Local, rest: bytes) {
    && l.x.pc == ReceiveHeader && l.x.header == [] && l.x.payload == [] && l.arriving == NOTIFICATION + rest
    && |l.x.recvq| + 12 <= QUEUE_SIZE && !l.x.dead
  }

  lemma NotificationRead(l: Local, rest: bytes)
    requires NotificationHere(l, rest)
    ensures Steps(l, [Count(8), Move] + [Move, Count(12), Move]).Some?
    ensures var m := Steps(l, [Count(8), Move] + [Move, Count(12), Move]).value;
            m.x.pc == Done && m.arriving == rest && m.out == l.out
  {
    var h := LittleEndian(12, 8);
    NotificationParts();
    FrameLength(CLOSE);
    BeginsCloseIsClose(CLOSE);
    assert CLOSE[..12] == CLOSE && CLOSE + rest == (CLOSE + rest)[..12] + rest && (CLOSE + rest)[12..] == rest;
    Associate(h, CLOSE, rest);
    hide LittleEndian, Length, Frame;
    var l1 := l.(x := l.x.(header := h), arriving := CLOSE + rest);
    var l2 := l1.(x := l1.x.(pc := ReceiveRoom(Incomplete)));
    EightRead(l, h, CLOSE + rest);
    assert Step(l1, Move) == Some(l2);
    hide Step, IsClose, BeginsClose;
    TwoSteps(l, l1, l2, Count(8), Move);
    var m := MessageRead(l2, Incomplete, CLOSE);
    StepsThen(l, [Count(8), Move], [Move, Count(12), Move]);
  }

  lemma NotificationAhead(l: Local, rest: bytes)
    requires NotificationHere(l, rest)
    ensures LastMessage(l, l.x.isServer, Incomplete, CLOSE, |l.x.recvq|) && IsClose(CLOSE)
  {
    NotificationParts();
    hide LittleEndian, Frame;
    assert [] + l.arriving == l.arriving && CLOSE[..12] == CLOSE;
  }

  /** It can read it and be done, and makes no further ioctl in any run. */
  lemma NotificationEnds(w: World, server: bool, rest: bytes)
    requires NotificationHere(LocalOf(w, server), rest)
    ensures !FurtherIoctl(w, server)
  {
    var l := LocalOf(w, server);
    NotificationAhead(l, rest);
    hide Kept, FurtherIoctl, Step, NotificationHere, LastMessage;
    LastMessageKept(l.x.isServer, Incomplete, CLOSE, |l.x.recvq|);
    NoIoctl(l' => LastMessage(l', l.x.isServer, Incomplete, CLOSE, |l.x.recvq|), w, server);
  }

  lemma ClientEnds(w: World, ret: Tsi) returns (acts: seq<Action>, v: World)
    requires Idle(w.a) && !w.a.isServer && w.ab == [] && (ret == Success || ret == ErrorFailed)
    ensures Run(w, [AtA(Tmm(ret, 0, []))] + acts) == Some(v)
    ensures v.a.pc == Done && v.b == w.b && v.ab == NOTIFICATION && v.ba == w.ba
  {
    var closes := [Tmm(ret, 0, []), Move] + [Count(8), Count(12)];
    LastIoctlCloses(LocalOf(w, false), ret, 0, []);
    StepsAreRuns(w, false, closes);
    v := Run(w, AtAll(false, closes)).value;
    hide Steps, Run;
    assert [] + NOTIFICATION == NOTIFICATION;
    acts := AtAll(false, closes)[1..];
    assert [AtA(Tmm(ret, 0, []))] + acts == AtAll(false, closes);
  }

  lemma ToldServerEnds(w: World) returns (acts: seq<Action>, v: World)
    requires Idle(w.b) && w.ab == NOTIFICATION && |w.b.recvq| + 12 <= QUEUE_SIZE
    ensures Run(w, acts) == Some(v) && v.b.pc == Done && v.a == w.a && v.ab == [] && v.ba == w.ba
  {
    var r := LocalOf(w, true);
    var r1 := r.(x := r.x.(pc := ReceiveHeader));
    assert NOTIFICATION + [] == NOTIFICATION;
    ToReceiveHeader(r);
    NotificationRead(r1, []);
    hide Steps;
    var more := [Count(8), Move] + [Move, Count(12), Move];
    StepsThen(r, AROUND, more);
    StepsAreRuns(w, true, AROUND + more);
    acts := AtAll(true, AROUND + more);
    v := Run(w, acts).value;
  }

  /** The ordinary end of a migration: the client's ioctl succeeds, it tells the server, and both are done. */
  lemma BothEnd(w: World, ret: Tsi) returns (acts: seq<Action>, v: World)
    requires Idle(w.a) && Idle(w.b) && !w.a.isServer && w.ab == [] && |w.b.recvq| + 12 <= QUEUE_SIZE
    requires ret == Success || ret == ErrorFailed
    ensures Run(w, [AtA(Tmm(ret, 0, []))] + acts) == Some(v) && v.a.pc == Done && v.b.pc == Done && v.ab == [] && v.ba == w.ba
    ensures !FurtherIoctl(v, false) && !FurtherIoctl(v, true)
  {
    hide Run, FurtherIoctl;
    var first, u := ClientEnds(w, ret);
    var second, z := ToldServerEnds(u);
    RunThen(w, [AtA(Tmm(ret, 0, []))] + first, second);
    acts, v := first + second, z;
    assert [AtA(Tmm(ret, 0, []))] + acts == [AtA(Tmm(ret, 0, []))] + first + second;
    NoneAfterEnd(v, false);
    NoneAfterEnd(v, true);
  }
}
