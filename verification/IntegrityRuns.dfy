/** What the agents of the migration integrity channel can be brought to do: which frames are delivered, and
    how a server loses the framing. */
module IntegrityRuns {
  import opened Bytes
  import opened IntegrityChannel

  // ----- several steps of one agent

  function Steps(l: Local, es: seq<Event>): Option<Local>
    decreases es
  {
    if es == [] then Some(l)
    else
      match Step(l, es[0])
      case None => None
      case Some(m) => Steps(m, es[1..])
  }

  lemma {:induction false} StepsThen(l: Local, a: seq<Event>, b: seq<Event>)
    requires Steps(l, a).Some?
    ensures Steps(l, a + b) == Steps(Steps(l, a).value, b)
    decreases a
  {
    hide Step;
    if a == [] {
      assert a + b == b;
    } else {
      assert (a + b)[0] == a[0] && (a + b)[1..] == a[1..] + b;
      StepsThen(Step(l, a[0]).value, a[1..], b);
    }
  }

  lemma FourSteps(a: Local, b: Local, c: Local, d: Local, f: Local, e1: Event, e2: Event, e3: Event, e4: Event)
    requires Step(a, e1) == Some(b) && Step(b, e2) == Some(c) && Step(c, e3) == Some(d) && Step(d, e4) == Some(f)
    ensures Steps(a, [e1, e2, e3, e4]) == Some(f)
  {
    hide Step;
    TwoSteps(a, b, c, e1, e2);
    TwoSteps(c, d, f, e3, e4);
    StepsThen(a, [e1, e2], [e3, e4]);
    assert [e1, e2] + [e3, e4] == [e1, e2, e3, e4];
  }

  lemma NothingHappens(x: Agent)
    ensures TmmActs(x, 0, []) == x
  {
    assert x.recvq[0..] == x.recvq && x.consumed + x.recvq[..0] == x.consumed;
    assert x.produced + [] == x.produced && x.sendq + [] == x.sendq;
  }

  lemma ToReceiveHeader(l: Local)
    requires l.x.pc == Ioctl && l.x.sendq == []
    ensures Steps(l, [Tmm(Incomplete, 0, []), Move, Move, Ready(true)]) == Some(l.(x := l.x.(pc := ReceiveHeader)))
  {
    NothingHappens(l.x);
    var l2 := l.(x := l.x.(pc := Dispatch(Incomplete)));
    var l3 := l.(x := l.x.(pc := SendCheck));
    var l4 := l.(x := l.x.(pc := Poll));
    var l5 := l.(x := l.x.(pc := ReceiveHeader));
    assert Step(l, Tmm(Incomplete, 0, [])) == Some(l2) && Step(l2, Move) == Some(l3);
    assert Step(l3, Move) == Some(l4) && Step(l4, Ready(true)) == Some(l5);
    FourSteps(l, l2, l3, l4, l5, Tmm(Incomplete, 0, []), Move, Move, Ready(true));
  }

  // ----- loops over short reads and writes

  function Total(counts: seq<nat>): nat {
    if counts == [] then 0 else counts[0] + Total(counts[1..])
  }

  function Counts(counts: seq<nat>): seq<Event> {
    if counts == [] then [] else [Count(counts[0])] + Counts(counts[1..])
  }

  lemma {:induction false} TotalSnoc(counts: seq<nat>, n: nat)
    ensures Total(counts + [n]) == Total(counts) + n
  {
    if counts == [] {
      assert [] + [n] == [n] && [n][1..] == [];
    } else {
      assert (counts + [n])[1..] == counts[1..] + [n];
      TotalSnoc(counts[1..], n);
    }
  }

  /** About to read n bytes of what is arriving, of a length or of a payload, with some of them read. */
  predicate Reads(l: Local, n: nat, sofar: bytes) {
    || (l.x.pc == ReceiveHeader && l.x.header == sofar && n == 8)
    || (l.x.pc.ReceivePayload? && l.x.payload == sofar && n == Length(l.x.header))
  }

  function Read(l: Local, all: bytes, rest: bytes): Local {
    if l.x.pc == ReceiveHeader then l.(x := l.x.(header := all), arriving := rest)
    else l.(x := l.x.(payload := all), arriving := rest)
  }

  /** Short reads are steps of the machine. */
  lemma {:induction false} ReadsAreSteps(l: Local, n: nat, sofar: bytes, data: bytes, rest: bytes, counts: seq<nat>)
    requires Reads(l, n, sofar) && |sofar| + |data| <= n && l.arriving == data + rest && Total(counts) == |data|
    ensures Steps(l, Counts(counts)) == Some(Read(l, sofar + data, rest))
    decreases counts
  {
    hide Length;
    if counts == [] {
      assert data + rest == rest && sofar + data == sofar;
      assert Read(l, sofar, rest) == l;
    } else {
      var k := counts[0];
      var m := Read(l, sofar + data[..k], data[k..] + rest);
      assert (data + rest)[..k] == data[..k] && (data + rest)[k..] == data[k..] + rest;
      assert Step(l, Count(k)) == Some(m);
      ReadsAreSteps(m, n, sofar + data[..k], data[k..], rest, counts[1..]);
      Split(sofar, data, k);
      hide Step, Reads;
      assert Counts(counts)[0] == Count(k) && Counts(counts)[1..] == Counts(counts[1..]);
    }
  }

  /** So are short writes of a frame. */
  lemma {:induction false} WritesAreSteps(l: Local, n: nat, counts: seq<nat>)
    requires l.x.pc.Sending? && !l.x.dead && Total(counts) == n <= |l.x.unsent|
    ensures Steps(l, Counts(counts)) == Some(l.(x := l.x.(unsent := l.x.unsent[n..]), out := l.out + l.x.unsent[..n]))
    decreases counts
  {
    var u := l.x.unsent;
    if counts == [] {
      assert u[0..] == u && l.out + u[..0] == l.out;
    } else {
      var k := counts[0];
      var m := l.(x := l.x.(unsent := u[k..]), out := l.out + u[..k]);
      assert Step(l, Count(k)) == Some(m);
      WritesAreSteps(m, n - k, counts[1..]);
      assert u[k..][n - k..] == u[n..] && l.out + u[..k] + u[k..][..n - k] == l.out + u[..n];
      hide Step;
      assert Counts(counts)[0] == Count(k) && Counts(counts)[1..] == Counts(counts[1..]);
    }
  }

  // ----- which frames are delivered

  /** Reading a frame of n bytes for which there is room. */
  function ReadsFrame(n: nat): seq<Event> {
    [Count(8), Move, Move, Count(n)] + [Move]
  }

  /** A receiver about to read a frame. */
  predicate AtFrame(l: Local, f: bytes, rest: bytes) {
    && l.x.pc == ReceiveHeader && l.x.header == [] && l.x.payload == []
    && l.arriving == Frame(f) + rest && |l.x.recvq| + |f| <= QUEUE_SIZE
  }

  /** The frame has been received. */
  function Got(l: Local, f: bytes, rest: bytes): Local {
    var q := l.x.recvq + f;
    l.(x := l.x.(recvq := q, pc := if |q| >= QUEUE_SIZE then CloseHeader else Ioctl), arriving := rest)
  }

  lemma FrameRead(l: Local, f: bytes, rest: bytes)
    requires AtFrame(l, f, rest) && f != [] && |f| <= QUEUE_SIZE - 8 && !IsClose(f)
    ensures Steps(l, ReadsFrame(|f|)) == Some(Got(l, f, rest))
  {
    var h := LittleEndian(|f|, 8);
    var l1 := l.(x := l.x.(header := h), arriving := f + rest);
    var l2 := l1.(x := l1.x.(pc := ReceiveRoom(Incomplete)));
    var l3 := l1.(x := l1.x.(pc := ReceivePayload(Incomplete)));
    var l4 := l3.(x := l3.x.(payload := f), arriving := rest);
    FrameLength(f);
    HeaderRead(l, f, rest);
    hide LittleEndian, Length, Frame, Step, IsClose;
    RoomFound(l1, |f|);
    PayloadRead(l3, f, rest);
    PayloadKept(l4, f);
    FourSteps(l, l1, l2, l3, l4, Count(8), Move, Move, Count(|f|));
    assert Steps(l4, [Move]) == Some(Got(l, f, rest)) by { assert [Move][1..] == []; }
    StepsThen(l, [Count(8), Move, Move, Count(|f|)], [Move]);
  }

  lemma HeaderRead(l: Local, f: bytes, rest: bytes)
    requires AtFrame(l, f, rest)
    ensures Step(l, Count(8)) == Some(l.(x := l.x.(header := LittleEndian(|f|, 8)), arriving := f + rest))
  {
    FrameBegins(f, rest);
    hide Step, LittleEndian, Frame;
    EightRead(l, LittleEndian(|f|, 8), f + rest);
  }

  lemma EightRead(l: Local, h: bytes, y: bytes)
    requires l.x.pc == ReceiveHeader && l.x.header == [] && |h| == 8 && l.arriving == h + y
    ensures Step(l, Count(8)) == Some(l.(x := l.x.(header := h), arriving := y))
  {
    Takes(l.arriving, h, y);
  }

  lemma FrameBegins(f: bytes, rest: bytes)
    ensures Frame(f) + rest == LittleEndian(|f|, 8) + (f + rest)
  {
    Associate(LittleEndian(|f|, 8), f, rest);
  }

  lemma Takes(all: bytes, a: bytes, b: bytes)
    requires all == a + b
    ensures all[..|a|] == a && all[|a|..] == b && [] + a == a
  {
  }

  lemma RoomFound(l: Local, n: nat)
    requires l.x.pc == ReceiveHeader && |l.x.header| == 8 && Length(l.x.header) == n
    requires n <= QUEUE_SIZE - 8 && |l.x.recvq| + n <= QUEUE_SIZE
    ensures Step(l, Move) == Some(l.(x := l.x.(pc := ReceiveRoom(Incomplete))))
    ensures Step(l.(x := l.x.(pc := ReceiveRoom(Incomplete))), Move) == Some(l.(x := l.x.(pc := ReceivePayload(Incomplete))))
  {
    hide Length, Frame, Finish;
  }

  lemma PayloadRead(l: Local, f: bytes, rest: bytes)
    requires l.x.pc == ReceivePayload(Incomplete) && l.x.payload == [] && l.arriving == f + rest && Length(l.x.header) == |f|
    ensures Step(l, Count(|f|)) == Some(l.(x := l.x.(payload := f), arriving := rest))
  {
    hide Length;
    Takes(l.arriving, f, rest);
  }

  lemma PayloadKept(l: Local, f: bytes)
    requires l.x.pc == ReceivePayload(Incomplete) && l.x.payload == f && Length(l.x.header) == |f|
    requires f != [] && |l.x.recvq| + |f| <= QUEUE_SIZE && !IsClose(f)
    ensures Step(l, Move)
         == Some(l.(x := l.x.(pc := if |l.x.recvq + f| >= QUEUE_SIZE then CloseHeader else Ioctl, header := [], payload := [],
                              recvq := l.x.recvq + f)))
  {
    hide Length, IsClose;
  }

  /** In the main loop, up to reading the length of a frame. */
  predicate BeforeFrame(pc: Pc) {
    pc == Ioctl || pc.Dispatch? || pc == SendCheck || pc == Sending(MainLoop) || pc == Poll || pc == ReceiveHeader
  }

  /** A receiver that has room for a frame f and has stopped, or has f still before it, or has begun to read
      the f that is taken for a close. */
  predicate Refusing(l: Local, f: bytes, rest: bytes) {
    || !Running(l.x)
    || (&& BeforeFrame(l.x.pc) && l.x.payload == [] && |l.x.header| <= 8 && (l.x.pc != ReceiveHeader ==> l.x.header == [])
        && l.x.header + l.arriving == LittleEndian(|f|, 8) + (f + rest) && |l.x.recvq| + |f| <= QUEUE_SIZE)
    || (&& IsClose(f) && (l.x.pc == ReceiveRoom(Incomplete) || l.x.pc == ReceivePayload(Incomplete))
        && |l.x.payload| <= |f| && l.x.header == LittleEndian(|f|, 8) && l.x.payload + l.arriving == f + rest
        && (l.x.pc == ReceiveRoom(Incomplete) ==> l.x.payload == []) && |l.x.recvq| + |f| <= QUEUE_SIZE)
  }

  predicate Refused(f: bytes) {
    |f| > QUEUE_SIZE - 8 || IsClose(f)
  }

  lemma RefusingStep(l: Local, f: bytes, rest: bytes, e: Event)
    requires Refusing(l, f, rest) && Refused(f) && Step(l, e).Some?
    ensures var m := Step(l, e).value;
            Refusing(m, f, rest) && Delivered(m.x) == Delivered(l.x)
  {
    if !Running(l.x) {
      StoppedStaysStopped(l, e);
    } else if l.x.pc == ReceiveHeader {
      HeaderRefused(l, f, rest, e);
    } else if BeforeFrame(l.x.pc) {
      NothingRead(l, f, rest, e);
    } else {
      PayloadRefused(l, f, rest, e);
    }
    hide *;
  }

  lemma NothingRead(l: Local, f: bytes, rest: bytes, e: Event)
    requires Refusing(l, f, rest) && Step(l, e).Some? && BeforeFrame(l.x.pc) && l.x.pc != ReceiveHeader
    ensures var m := Step(l, e).value;
            Refusing(m, f, rest) && Delivered(m.x) == Delivered(l.x)
  {
    hide LittleEndian, Length, Frame, IsClose, Receive, Finish;
    if e.Tmm? {
      TmmKeepsDelivered(l.x, e.taken, e.queued);
    }
  }

  lemma HeaderRefused(l: Local, f: bytes, rest: bytes, e: Event)
    requires Refusing(l, f, rest) && Refused(f) && Step(l, e).Some? && l.x.pc == ReceiveHeader
    ensures var m := Step(l, e).value;
            Refusing(m, f, rest) && Delivered(m.x) == Delivered(l.x)
  {
    FrameLength(f);
    hide LittleEndian, Length, Frame, IsClose, Transmit, Finish;
    if e.Count? {
      Split(l.x.header, l.arriving, e.n);
    } else if e.Move? {
      SplitEqual(l.x.header, l.arriving, LittleEndian(|f|, 8), f + rest);
    }
  }

  lemma PayloadRefused(l: Local, f: bytes, rest: bytes, e: Event)
    requires Refusing(l, f, rest) && Step(l, e).Some? && Running(l.x) && !BeforeFrame(l.x.pc)
    ensures var m := Step(l, e).value;
            Refusing(m, f, rest) && Delivered(m.x) == Delivered(l.x)
  {
    FrameLength(f);
    hide LittleEndian, Length, Frame, IsClose, Transmit, StartSending;
    if l.x.pc == ReceivePayload(Incomplete) && e.Count? && e.n <= |l.arriving| {
      Split(l.x.payload, l.arriving, e.n);
    } else if l.x.pc == ReceivePayload(Incomplete) && e.Move? {
      SplitEqual(l.x.payload, l.arriving, f, rest);
    }
  }

  lemma Split(x: bytes, y: bytes, n: nat)
    requires n <= |y|
    ensures x + y[..n] + y[n..] == x + y
  {
  }

  lemma {:induction false} NeverDelivered(l: Local, f: bytes, rest: bytes, es: seq<Event>)
    requires Refusing(l, f, rest) && Refused(f) && Steps(l, es).Some?
    ensures Delivered(Steps(l, es).value.x) == Delivered(l.x)
    decreases es
  {
    hide Refusing, Step, Refused;
    if es != [] {
      RefusingStep(l, f, rest, es[0]);
      NeverDelivered(Step(l, es[0]).value, f, rest, es[1..]);
    }
  }

  /** A frame that has come to a receiver with room for it can be delivered exactly if it is at least 8 bytes
      shorter than the queue, although frames as long as that are sent, and does not read as a close;
      otherwise nothing is delivered any more, whatever happens. */
  lemma DeliveredExactly(l: Local, f: bytes, rest: bytes)
    requires AtFrame(l, f, rest) && f != []
    ensures (exists es :: Steps(l, es).Some? && Delivered(Steps(l, es).value.x) == Delivered(l.x) + f)
       <==> !Refused(f)
    ensures Refused(f) ==>
              forall es :: Steps(l, es).Some? ==> Delivered(Steps(l, es).value.x) == Delivered(l.x)
  {
    if !Refused(f) {
      FrameRead(l, f, rest);
      GotDelivers(l, f, rest);
    } else {
      FrameBegins(f, rest);
      BeginsRefusing(l, f, rest);
      hide Refusing, Steps, Delivered, Refused;
      forall es | Steps(l, es).Some? ensures Delivered(Steps(l, es).value.x) == Delivered(l.x) {
        NeverDelivered(l, f, rest, es);
      }
      assert |Delivered(l.x) + f| != |Delivered(l.x)|;
    }
  }

  lemma BeginsRefusing(l: Local, f: bytes, rest: bytes)
    requires AtFrame(l, f, rest) && Frame(f) + rest == LittleEndian(|f|, 8) + (f + rest)
    ensures Refusing(l, f, rest)
  {
    hide Frame, LittleEndian, IsClose;
    assert [] + l.arriving == l.arriving;
  }

  lemma GotDelivers(l: Local, f: bytes, rest: bytes)
    ensures Delivered(Got(l, f, rest).x) == Delivered(l.x) + f
  {
  }

  // ----- steps of one agent as runs of both

  function AtAll(server: bool, es: seq<Event>): (r: seq<Action>)
    ensures |r| == |es|
  {
    seq(|es|, i requires 0 <= i < |es| => if server then AtB(es[i]) else AtA(es[i]))
  }

  function LocalOf(w: World, server: bool): Local {
    if server then Local(w.b, w.ba, w.ab) else Local(w.a, w.ab, w.ba)
  }

  function WithLocal(w: World, server: bool, m: Local): World {
    if server then World(w.a, m.x, m.arriving, m.out) else World(m.x, w.b, m.out, m.arriving)
  }

  lemma {:induction false} StepsAreRuns(w: World, server: bool, es: seq<Event>)
    requires Steps(LocalOf(w, server), es).Some?
    ensures Run(w, AtAll(server, es)) == Some(WithLocal(w, server, Steps(LocalOf(w, server), es).value))
    decreases |es|
  {
    hide Step;
    var l := LocalOf(w, server);
    if es != [] {
      var front, last := es[..|es| - 1], es[|es| - 1];
      assert es == front + [last];
      StepsBefore(l, front, [last]);
      StepsThen(l, front, [last]);
      StepsAreRuns(w, server, front);
      assert Steps(Steps(l, front).value, [last]) == Step(Steps(l, front).value, last) by { SingleStep(Steps(l, front).value, last); }
      var acts := AtAll(server, es);
      assert acts[..|acts| - 1] == AtAll(server, front);
    }
  }

  lemma SingleStep(l: Local, e: Event)
    ensures Steps(l, [e]) == Step(l, e)
  {
    hide Step;
    assert [e][1..] == [];
  }

  lemma {:induction false} StepsBefore(l: Local, a: seq<Event>, b: seq<Event>)
    requires Steps(l, a + b).Some?
    ensures Steps(l, a).Some?
    decreases a
  {
    hide Step;
    if a != [] {
      assert (a + b)[0] == a[0] && (a + b)[1..] == a[1..] + b;
      StepsBefore(Step(l, a[0]).value, a[1..], b);
    }
  }

  lemma {:induction false} RunThen(w: World, x: seq<Action>, y: seq<Action>)
    requires Run(w, x).Some?
    ensures Run(w, x + y) == Run(Run(w, x).value, y)
    decreases |y|
  {
    hide Next;
    if y == [] {
      assert x + y == x;
    } else {
      var front := y[..|y| - 1];
      assert (x + y)[..|x + y| - 1] == x + front && (x + y)[|x + y| - 1] == y[|y| - 1];
      RunThen(w, x, front);
    }
  }

  // ----- a frame from one agent to the other

  predicate Idle(x: Agent) {
    && x.pc == Ioctl && x.sendq == [] && x.header == [] && x.payload == []
    && !x.framing && x.unsent == [] && !x.dead
  }

  /** The TMM queues d and all of its frame is sent at once. */
  function Sends(d: bytes): seq<Event> {
    [Tmm(Incomplete, 0, d), Move, Move, Count(8 + |d|)] + [Move, Ready(false)]
  }

  lemma FrameSent(l: Local, d: bytes)
    requires Idle(l.x) && 0 < |d| <= QUEUE_SIZE
    ensures Steps(l, Sends(d)) == Some(l.(x := l.x.(produced := l.x.produced + d), out := l.out + Frame(d)))
  {
    var x := l.x.(produced := l.x.produced + d);
    var l1 := l.(x := x.(sendq := d, pc := Dispatch(Incomplete)));
    var l2 := l.(x := x.(sendq := d, pc := SendCheck));
    var l3 := l.(x := x.(sendq := d, pc := Sending(MainLoop), framing := true, unsent := Frame(d)));
    var l4 := l.(x := l3.x.(unsent := []), out := l.out + Frame(d));
    var l5 := l4.(x := x.(pc := Poll));
    var l6 := l4.(x := x);
    TmmQueues(l, d);
    SentWhole(l3, d);
    hide Frame;
    assert Step(l1, Move) == Some(l2) && Step(l2, Move) == Some(l3) && Step(l4, Move) == Some(l5);
    assert Step(l5, Ready(false)) == Some(l6);
    hide Step;
    FourSteps(l, l1, l2, l3, l4, Tmm(Incomplete, 0, d), Move, Move, Count(8 + |d|));
    TwoSteps(l4, l5, l6, Move, Ready(false));
    StepsThen(l, [Tmm(Incomplete, 0, d), Move, Move, Count(8 + |d|)], [Move, Ready(false)]);
  }

  lemma TwoSteps(a: Local, b: Local, c: Local, e1: Event, e2: Event)
    requires Step(a, e1) == Some(b) && Step(b, e2) == Some(c)
    ensures Steps(a, [e1, e2]) == Some(c)
  {
    hide Step;
    SingleStep(b, e2);
    assert [e1, e2][1..] == [e2];
  }

  lemma TmmQueues(l: Local, d: bytes)
    requires Idle(l.x)
    ensures Step(l, Tmm(Incomplete, 0, d))
         == Some(l.(x := l.x.(produced := l.x.produced + d, sendq := d, pc := Dispatch(Incomplete))))
  {
    assert l.x.recvq[0..] == l.x.recvq && l.x.consumed + l.x.recvq[..0] == l.x.consumed && [] + d == d;
  }

  lemma SentWhole(l: Local, d: bytes)
    requires l.x.pc == Sending(MainLoop) && l.x.unsent == Frame(d) && !l.x.dead
    ensures Step(l, Count(8 + |d|)) == Some(l.(x := l.x.(unsent := []), out := l.out + Frame(d)))
  {
    var f := Frame(d);
    hide Frame;
    assert f[..|f|] == f && f[|f|..] == [];
  }

  /** The agent goes round its loop and finds the socket readable. */
  const AROUND: seq<Event> := [Tmm(Incomplete, 0, []), Move, Move, Ready(true)]

  lemma FrameReceived(l: Local, f: bytes)
    requires Idle(l.x) && l.arriving == Frame(f) && f != [] && |f| <= QUEUE_SIZE - 8 && !IsClose(f)
    requires |l.x.recvq| + |f| <= QUEUE_SIZE
    ensures Steps(l, AROUND + ReadsFrame(|f|)) == Some(Got(l, f, []))
  {
    var l1 := l.(x := l.x.(pc := ReceiveHeader));
    ToReceiveHeader(l);
    assert Frame(f) + [] == Frame(f);
    FrameRead(l1, f, []);
    hide Steps, Frame, IsClose;
    StepsThen(l, AROUND, ReadsFrame(|f|));
  }

  function Delivery(d: bytes): seq<Action> {
    AtAll(false, Sends(d)) + AtAll(true, AROUND + ReadsFrame(|d|))
  }

  /** What is queued in one piece can be delivered. */
  lemma Delivers(w: World, d: bytes)
    requires Idle(w.a) && Idle(w.b) && w.ab == [] && d != [] && |d| <= QUEUE_SIZE - 8 && !IsClose(d)
    requires |w.b.recvq| + |d| < QUEUE_SIZE
    ensures Run(w, Delivery(d))
         == Some(w.(a := w.a.(produced := w.a.produced + d), b := w.b.(recvq := w.b.recvq + d)))
  {
    var v := w.(a := w.a.(produced := w.a.produced + d), ab := Frame(d));
    FrameSent(LocalOf(w, false), d);
    assert [] + Frame(d) == Frame(d);
    StepsAreRuns(w, false, Sends(d));
    FrameReceived(LocalOf(v, true), d);
    StepsAreRuns(v, true, AROUND + ReadsFrame(|d|));
    hide Run, Steps, Frame, IsClose, Sends, ReadsFrame, AtAll;
    RunThen(w, AtAll(false, Sends(d)), AtAll(true, AROUND + ReadsFrame(|d|)));
  }

  lemma OutGrows(l: Local, e: Event)
    requires Step(l, e).Some?
    ensures l.out <= Step(l, e).value.out
  {
    hide LittleEndian, Frame, Length, Finish;
    if e.Move? && l.x.pc.ReceivePayload? {
      FinishKeeps(l, l.x.pc.ret);
    }
  }

  lemma RefusingMore(l: Local, f: bytes, rest: bytes, x: bytes)
    requires Refusing(l, f, rest)
    ensures Refusing(l.(arriving := l.arriving + x), f, rest + x)
  {
    hide LittleEndian, IsClose;
    Associate(l.x.header, l.arriving, x);
    Associate(l.x.payload, l.arriving, x);
    Associate(LittleEndian(|f|, 8), f + rest, x);
    Associate(f, rest, x);
  }

  lemma RefusingNext(w: World, f: bytes, rest: bytes, action: Action) returns (more: bytes)
    requires Refusing(LocalOf(w, true), f, rest) && Refused(f) && Next(w, action).Some?
    ensures var v := Next(w, action).value;
            Refusing(LocalOf(v, true), f, more) && Delivered(v.b) == Delivered(w.b)
  {
    var v := Next(w, action).value;
    more := rest;
    hide Refusing, Step, Refused, Delivered;
    if action.AtB? {
      RefusingStep(LocalOf(w, true), f, rest, action.e);
    } else {
      OutGrows(LocalOf(w, false), action.e);
      var x := v.ab[|w.ab|..];
      assert v.ab == w.ab + x;
      RefusingMore(LocalOf(w, true), f, rest, x);
      more := rest + x;
      RefusingLooksAt(LocalOf(w, true).(arriving := v.ab), LocalOf(v, true), f, more);
    }
  }

  lemma RefusingLooksAt(l: Local, m: Local, f: bytes, rest: bytes)
    requires Refusing(l, f, rest) && m.x == l.x && m.arriving == l.arriving
    ensures Refusing(m, f, rest)
  {
    hide LittleEndian, IsClose;
  }

  lemma {:induction false} RefusedForEver(w: World, f: bytes, rest: bytes, actions: seq<Action>) returns (more: bytes)
    requires Refusing(LocalOf(w, true), f, rest) && Refused(f) && Run(w, actions).Some?
    ensures var v := Run(w, actions).value;
            Refusing(LocalOf(v, true), f, more) && Delivered(v.b) == Delivered(w.b)
    decreases |actions|
  {
    hide Refusing, Refused, Delivered, Next;
    more := rest;
    if actions != [] {
      var front := actions[..|actions| - 1];
      more := RefusedForEver(w, f, rest, front);
      more := RefusingNext(Run(w, front).value, f, more, actions[|actions| - 1]);
    }
  }

  /** The sender takes up to QUEUE_SIZE bytes for a frame. What it has sent as one frame to a receiver with
      room for it can be delivered exactly if it is not refused; else nothing will be delivered any more,
      whatever the two agents do. */
  lemma SentDeliverableExactly(w: World, d: bytes)
    requires Idle(w.a) && Idle(w.b) && w.ab == [] && d != [] && |w.b.recvq| + |d| <= QUEUE_SIZE
    ensures Run(w, AtAll(false, Sends(d))).Some?
    ensures var v := Run(w, AtAll(false, Sends(d))).value;
            && ((exists acts :: Run(v, acts).Some? && Delivered(Run(v, acts).value.b) == Delivered(w.b) + d) <==> !Refused(d))
            && (Refused(d) ==> forall acts :: Run(v, acts).Some? ==> Delivered(Run(v, acts).value.b) == Delivered(w.b))
  {
    var v := w.(a := w.a.(produced := w.a.produced + d), ab := Frame(d));
    FrameSent(LocalOf(w, false), d);
    assert [] + Frame(d) == Frame(d);
    StepsAreRuns(w, false, Sends(d));
    if !Refused(d) {
      FrameReceived(LocalOf(v, true), d);
      GotDelivers(LocalOf(v, true), d, []);
      StepsAreRuns(v, true, AROUND + ReadsFrame(|d|));
    } else {
      BeginsIdle(LocalOf(v, true), d);
      hide Refusing, Run, Delivered, Refused, Sends, Frame;
      forall acts | Run(v, acts).Some? ensures Delivered(Run(v, acts).value.b) == Delivered(w.b) {
        var more := RefusedForEver(v, d, [], acts);
      }
      assert |Delivered(w.b) + d| != |Delivered(w.b)|;
    }
  }

  lemma BeginsIdle(l: Local, f: bytes)
    requires Idle(l.x) && l.arriving == Frame(f) && |l.x.recvq| + |f| <= QUEUE_SIZE
    ensures Refusing(l, f, [])
  {
    FrameBegins(f, []);
    hide LittleEndian, Frame, IsClose;
    assert l.arriving == Frame(f) + [] && [] + l.arriving == l.arriving;
  }

  // ----- a server that loses the framing

  /** The step that EveryRunIsSafe excepts. */
  lemma DesyncedExactly(l: Local, e: Event)
    requires Step(l, e).Some?
    ensures Step(l, e).value.x.desynced
       <==> l.x.desynced || (e.Tmm? && e.ret == ErrorFailed && l.x.pc == ReceiveIoctl && l.x.isServer)
  {
    hide LittleEndian, Frame, Length, Finish;
    if e.Move? && l.x.pc.ReceivePayload? {
      FinishKeeps(l, l.x.pc.ret);
    }
  }

  /** The rest of the frame fs[0], whose header is dropped, and the frames behind it read as the frames gs,
      and these hold the same data. */
  ghost predicate Respells(gs: seq<bytes>, fs: seq<bytes>)
    requires fs != []
  {
    && (forall i :: 0 <= i < |gs| ==> |gs[i]| <= QUEUE_SIZE)
    && Frames(gs) == fs[0] + Frames(fs[1..]) && Concat(gs) == Concat(fs)
  }

  /** When the TMM fails while a server waits for room, the server goes on with the payload unread. Then
      conservation is lost at once, unless what is in flight happens to read as other frames with the same
      data; and always when no other frame is in flight. */
  lemma ConservationAfterFailure(s: Agent, l: Local, e: Event, fs: seq<bytes>)
    requires Valid(l.x) && Balance(s, l.arriving, l.x, fs)
    requires l.x.pc == ReceiveIoctl && l.x.isServer && e.Tmm? && e.ret == ErrorFailed && Step(l, e).Some?
    ensures var m := Step(l, e).value;
            && (Conserved(s, m.arriving, m.x) <==> fs != [] && exists gs :: Respells(gs, fs))
            && (|fs| <= 1 && Length(l.x.header) > 0 ==> !Conserved(s, m.arriving, m.x))
  {
    var m := Step(l, e).value;
    var rest := l.arriving + s.unsent;
    HeaderDropped(s, l, e);
    hide Valid, Step, Frames, Concat, Length;
    if fs == [] {
      OnlyCloseInFlight(l.x.header, rest, s.closing);
      forall gs ensures !Balance(s, m.arriving, m.x, gs) {
        assert |Frames(gs) + s.closing| >= |s.closing|;
      }
    } else {
      RestOfFrames(l.x.header, rest, fs, s.closing);
      forall gs ensures Balance(s, m.arriving, m.x, gs) <==> Respells(gs, fs) {
        Cancel(fs[0] + Frames(fs[1..]), Frames(gs), s.closing);
        CancelAround(Delivered(l.x), Concat(fs), Concat(gs), Queued(s));
      }
      if |fs| == 1 && Length(l.x.header) > 0 {
        forall gs ensures !Respells(gs, fs) {
          OneFrameLost(gs, fs);
        }
      }
    }
  }

  lemma HeaderDropped(s: Agent, l: Local, e: Event)
    requires Valid(l.x) && l.x.pc == ReceiveIoctl && l.x.isServer && e.Tmm? && e.ret == ErrorFailed && Step(l, e).Some?
    ensures var m := Step(l, e).value;
            && Delivered(m.x) == Delivered(l.x) && |l.x.header| == 8
            && InFlight(s, l.arriving, l.x) == l.x.header + (l.arriving + s.unsent)
            && InFlight(s, m.arriving, m.x) == l.arriving + s.unsent
  {
    hide Length, SenderValid;
    TmmKeepsDelivered(l.x, e.taken, e.queued);
    Associate(l.x.header, l.arriving, s.unsent);
  }

  lemma OnlyCloseInFlight(h: bytes, rest: bytes, closing: bytes)
    requires h + rest == Frames([]) + closing && |h| == 8
    ensures |rest| < |closing|
  {
  }

  lemma RestOfFrames(h: bytes, rest: bytes, fs: seq<bytes>, closing: bytes)
    requires h + rest == Frames(fs) + closing && |h| == 8 && fs != [] && |fs[0]| <= QUEUE_SIZE
    ensures rest == fs[0] + Frames(fs[1..]) + closing && Length(h) == |fs[0]|
  {
    FramesHead(fs, closing);
    FrameLength(fs[0]);
    hide Frames, LittleEndian, Length;
    SplitEqual(h, rest, LittleEndian(|fs[0]|, 8), fs[0] + (Frames(fs[1..]) + closing));
  }

  lemma Cancel(a: bytes, b: bytes, x: bytes)
    ensures a + x == b + x <==> a == b
  {
    if a + x == b + x {
      assert (a + x)[..|a|] == a && (b + x)[..|b|] == b;
    }
  }

  lemma CancelAround(d: bytes, a: bytes, b: bytes, q: bytes)
    ensures d + a + q == d + b + q <==> a == b
  {
    Cancel(d + a, d + b, q);
    if d + a == d + b {
      assert (d + a)[|d|..] == a && (d + b)[|d|..] == b;
    }
  }

  lemma {:induction false} FramesSize(fs: seq<bytes>)
    ensures |Frames(fs)| == 8 * |fs| + |Concat(fs)|
  {
    if fs != [] {
      FramesSize(fs[1..]);
    }
  }

  lemma OneFrameLost(gs: seq<bytes>, fs: seq<bytes>)
    requires |fs| == 1 && fs[0] != []
    ensures !Respells(gs, fs)
  {
    FramesSize(gs);
    FramesSize(fs);
    assert Frames(fs[1..]) == [];
  }

  /** Other frames with the same data: k times the length 1792 and a zero byte. */
  function Periodic(k: nat): (r: bytes)
    ensures |r| == 8 * k + 1
  {
    if k == 0 then [0] else LittleEndian(1792, 8) + Periodic(k - 1)
  }

  lemma {:induction false} PeriodicShifts(k: nat)
    ensures LittleEndian(1792, 8) + Periodic(k) == Periodic(k) + LittleEndian(7, 8)
  {
    var h, g := LittleEndian(1792, 8), LittleEndian(7, 8);
    if k == 0 {
      Lengths();
    } else {
      PeriodicShifts(k - 1);
      hide LittleEndian;
      Associate(h, Periodic(k - 1), g);
    }
  }

  lemma Lengths()
    ensures LittleEndian(1792, 8) + [0] == [0] + LittleEndian(7, 8)
  {
    assert LittleEndian(1792, 8) == [0, 7, 0, 0, 0, 0, 0, 0] by { EightBytes(1792, 0, 7); }
    assert LittleEndian(7, 8) == [7, 0, 0, 0, 0, 0, 0, 0] by { EightBytes(7, 7, 0); }
  }

  lemma EightBytes(n: nat, a: byte, b: byte)
    requires n == a + 256 * b
    ensures LittleEndian(n, 8) == [a, b, 0, 0, 0, 0, 0, 0]
  {
    ZeroBytes(6);
    LowByte(b, 6);
    LowByte(n, 7);
  }

  lemma LowByte(n: nat, k: nat)
    ensures LittleEndian(n, k + 1) == [n % 256] + LittleEndian(n / 256, k)
  {
  }

  lemma {:induction false} ZeroBytes(k: nat)
    ensures LittleEndian(0, k) == Zeros(k)
  {
    if k > 0 {
      ZeroBytes(k - 1);
      LowByte(0, k - 1);
    }
  }

  /** There are such frames, so that a loss of the framing can remain without effect. */
  lemma LossCanStayHidden(f: bytes) returns (gs: seq<bytes>, fs: seq<bytes>)
    requires |f| == 7
    ensures fs == [Periodic(223), f] && Respells(gs, fs)
  {
    var p := Periodic(223);
    gs, fs := [p + f], [p, f];
    PeriodicShifts(223);
    hide LittleEndian, Periodic;
    assert Frames(gs) == LittleEndian(1792, 8) + (p + f) + [] && Concat(gs) == p + f + [];
    assert fs[1..] == [f] && Frames([f]) == LittleEndian(7, 8) + f + [] && Concat([f]) == f + [];
    Associate(LittleEndian(1792, 8), p, f);
    Associate(p, LittleEndian(7, 8), f);
  }

  const FAILURE: Event := Tmm(ErrorFailed, 0, [])

  /** The server reads a header, finds no room and nothing to send, and asks the TMM for room. */
  const WAITS: seq<Event> := [Count(8), Move, Move]

  /** A server waiting for room for a payload that is itself a frame, of one byte. */
  function Waiting(before: bytes): Agent {
    Fresh(true).(pc := ReceiveIoctl, recvq := before, header := LittleEndian(9, 8))
  }

  lemma ServerWaits(l: Local, before: bytes)
    requires |before| == QUEUE_SIZE - 5
    requires l.x == Fresh(true).(recvq := before) && l.arriving == Frame(Frame([88]))
    ensures Steps(l, AROUND + WAITS) == Some(l.(x := Waiting(before), arriving := Frame([88])))
  {
    var f := Frame([88]);
    var h := LittleEndian(9, 8);
    var l1 := l.(x := l.x.(pc := ReceiveHeader));
    var l2 := l1.(x := l1.x.(header := h), arriving := f);
    var l3 := l2.(x := l2.x.(pc := ReceiveRoom(Incomplete)));
    var l4 := l2.(x := l2.x.(pc := ReceiveIoctl));
    ToReceiveHeader(l);
    FrameLength(f);
    hide LittleEndian, Length, Steps;
    assert Step(l1, Count(8)) == Some(l2) by { HeaderOnly(l1, f); }
    NoRoom(l2);
    hide Step, Frame;
    ThreeSteps(l1, l2, l3, l4, Count(8), Move, Move);
    StepsThen(l, AROUND, WAITS);
  }

  lemma HeaderOnly(l: Local, f: bytes)
    requires l.x.pc == ReceiveHeader && l.x.header == [] && l.arriving == Frame(f)
    ensures Step(l, Count(8)) == Some(l.(x := l.x.(header := LittleEndian(|f|, 8)), arriving := f))
  {
    assert Frame(f) == LittleEndian(|f|, 8) + f;
    hide Step, LittleEndian, Frame;
    EightRead(l, LittleEndian(|f|, 8), f);
  }

  lemma NoRoom(l: Local)
    requires l.x.pc == ReceiveHeader && |l.x.header| == 8 && Length(l.x.header) == 9 && |l.x.recvq| == QUEUE_SIZE - 5
    requires l.x.sendq == []
    ensures Step(l, Move) == Some(l.(x := l.x.(pc := ReceiveRoom(Incomplete))))
    ensures Step(l.(x := l.x.(pc := ReceiveRoom(Incomplete))), Move) == Some(l.(x := l.x.(pc := ReceiveIoctl)))
  {
    hide Length, Frame, Finish;
  }

  lemma ThreeSteps(a: Local, b: Local, c: Local, d: Local, e1: Event, e2: Event, e3: Event)
    requires Step(a, e1) == Some(b) && Step(b, e2) == Some(c) && Step(c, e3) == Some(d)
    ensures Steps(a, [e1, e2, e3]) == Some(d)
  {
    hide Step;
    TwoSteps(b, c, d, e2, e3);
    assert [e1, e2, e3][1..] == [e2, e3];
  }

  lemma FailureDropsHeader(l: Local)
    requires l.x.pc == ReceiveIoctl && l.x.isServer
    ensures Step(l, FAILURE) == Some(l.(x := l.x.(header := [], desynced := true, pc := Ioctl)))
  {
    NothingHappens(l.x);
  }

  /** After the failure it delivers the one byte in place of the payload. */
  lemma DeliversEmbedded(l: Local, before: bytes)
    requires |before| == QUEUE_SIZE - 5 && l.arriving == Frame([88])
    requires l.x == Fresh(true).(recvq := before, desynced := true)
    ensures Steps(l, AROUND + ReadsFrame(1)) == Some(l.(x := l.x.(recvq := before + [88]), arriving := []))
  {
    assert !IsClose([88]);
    FrameReceived(l, [88]);
  }

  lemma OtherBytes(before: bytes, x: Agent)
    requires x.consumed == [] && x.recvq == before + [88]
    ensures !(Delivered(x) <= before + Frame([88]))
  {
    var n, produced := |before|, before + Frame([88]);
    assert LittleEndian(1, 8)[0] == 1;
    hide LittleEndian;
    assert produced[n] == 1 && Delivered(x)[n] == 88;
  }

  /** Two frames that leave 5 bytes of the server's queue, then one of 9 bytes. */
  function Fill(): bytes {
    Zeros(QUEUE_SIZE - 8) + Zeros(3)
  }

  function Filled(): World {
    World(Fresh(false).(produced := Fill()), Fresh(true).(recvq := Fill()), [], [])
  }

  lemma QueueFilled()
    ensures Run(Initial(false, true), Delivery(Zeros(QUEUE_SIZE - 8)) + Delivery(Zeros(3))) == Some(Filled())
  {
    var d1, d2 := Zeros(QUEUE_SIZE - 8), Zeros(3);
    var w := Initial(false, true);
    var v := w.(a := w.a.(produced := d1), b := w.b.(recvq := d1));
    assert d1[..12][0] == 0 && CLOSE[0] != 0;
    Delivers(w, d1);
    assert [] + d1 == d1;
    Delivers(v, d2);
    hide Run, Delivery, Zeros, IsClose;
    RunThen(w, Delivery(d1), Delivery(d2));
  }

  /** Filling the queue, sending the frame, and the server's waiting for room. */
  function Front(): seq<Action> {
    Delivery(Zeros(QUEUE_SIZE - 8)) + Delivery(Zeros(3)) + (AtAll(false, Sends(Frame([88]))) + AtAll(true, AROUND + WAITS))
  }

  function AtFailure(): World {
    World(Fresh(false).(produced := Fill() + Frame([88])), Waiting(Fill()), Frame([88]), [])
  }

  lemma FrontReached()
    ensures Run(Initial(false, true), Front()) == Some(AtFailure())
  {
    var f := Frame([88]);
    var v := Filled();
    var u := v.(a := v.a.(produced := v.a.produced + f), ab := Frame(f));
    FrameSent(LocalOf(v, false), f);
    assert [] + Frame(f) == Frame(f);
    StepsAreRuns(v, false, Sends(f));
    ServerWaits(LocalOf(u, true), Fill());
    StepsAreRuns(u, true, AROUND + WAITS);
    QueueFilled();
    hide Run, Steps, Frame, Sends, AtAll, Delivery, Fill, Zeros, LittleEndian;
    RunThen(v, AtAll(false, Sends(f)), AtAll(true, AROUND + WAITS));
    RunThen(Initial(false, true), Delivery(Zeros(QUEUE_SIZE - 8)) + Delivery(Zeros(3)),
            AtAll(false, Sends(f)) + AtAll(true, AROUND + WAITS));
  }

  /** The server after the failure, and the world around it. */
  function AfterFailure(): World {
    AtFailure().(b := Fresh(true).(recvq := Fill(), desynced := true))
  }

  lemma FailureHappens()
    ensures Next(AtFailure(), AtB(FAILURE)) == Some(AfterFailure())
  {
    hide LittleEndian, Fill, Frame;
    FailureDropsHeader(LocalOf(AtFailure(), true));
  }

  lemma SizesAtFailure(fs: seq<bytes>)
    requires Balance(AtFailure().a, AtFailure().ab, AtFailure().b, fs)
    ensures |fs| == 1
  {
    var v := AtFailure();
    FramesSize(fs);
    hide LittleEndian, Frames, Concat, Fill;
    assert |InFlight(v.a, v.ab, v.b)| == 17 && v.a.closing == [];
    assert |v.a.produced| == |Fill()| + 9 && |Delivered(v.b)| == |Fill()| && Queued(v.a) == [];
  }

  lemma NineAtFailure()
    ensures Length(AtFailure().b.header) == 9
  {
    FrameLength(Frame([88]));
  }

  lemma FailureStep()
    ensures var v, u := AtFailure(), AfterFailure();
            && Step(LocalOf(v, true), FAILURE).Some? && v.b.pc == ReceiveIoctl && v.b.isServer && !v.b.desynced && Running(v.b)
            && Step(LocalOf(v, true), FAILURE).value.x == u.b && Step(LocalOf(v, true), FAILURE).value.arriving == u.ab
            && u.a == v.a && LocalOf(v, true).x == v.b && LocalOf(v, true).arriving == v.ab
  {
    hide LittleEndian, Fill, Frame, Step;
    FailureDropsHeader(LocalOf(AtFailure(), true));
  }

  lemma FailureLosesConservation()
    requires Inv(AtFailure())
    ensures var u := AfterFailure(); !Conserved(u.a, u.ab, u.b)
  {
    assert FAILURE.Tmm? && FAILURE.ret == ErrorFailed;
    hide *;
    var v := AtFailure();
    FailureStep();
    BalancedRunning(v);
    var fs :| Balance(v.a, v.ab, v.b, fs);
    SizesAtFailure(fs);
    NineAtFailure();
    ConservationAfterFailure(v.a, LocalOf(v, true), FAILURE, fs);
  }

  lemma BalancedRunning(w: World)
    requires Inv(w) && Running(w.b) && !w.b.desynced
    ensures Valid(w.b) && exists fs :: Balance(w.a, w.ab, w.b, fs)
  {
    hide Valid, Balance;
  }

  lemma BackReached(back: seq<Action>, w: World)
    requires back == AtAll(true, AROUND + ReadsFrame(1))
    requires w == World(AfterFailure().a, AfterFailure().b.(recvq := Fill() + [88]), [], [])
    ensures Run(AfterFailure(), back) == Some(w)
  {
    var u := AfterFailure();
    assert |Fill()| == QUEUE_SIZE - 5;
    hide Fill, Frame, LittleEndian;
    DeliversEmbedded(LocalOf(u, true), Fill());
    hide Steps, ReadsFrame;
    StepsAreRuns(u, true, AROUND + ReadsFrame(1));
  }

  /** From the start there is a run in which a server loses the framing, and with it conservation, when the
      TMM fails, and then delivers a byte that is not the next one of those produced. */
  lemma DesyncedServerDeliversOtherBytes() returns (v: World, u: World, w: World, back: seq<Action>)
    ensures Run(Initial(false, true), Front()) == Some(v) && Inv(v) && !v.b.desynced
    ensures Next(v, AtB(FAILURE)) == Some(u) && !Conserved(u.a, u.ab, u.b)
    ensures Run(Initial(false, true), Front() + ([AtB(FAILURE)] + back)) == Some(w) && !(Delivered(w.b) <= w.a.produced)
  {
    var start := Initial(false, true);
    v, u, back := AtFailure(), AfterFailure(), AtAll(true, AROUND + ReadsFrame(1));
    w := World(u.a, u.b.(recvq := Fill() + [88]), [], []);
    FrontReached();
    EveryRunIsSafe(false, true, Front());
    FailureHappens();
    FailureLosesConservation();
    BackReached(back, w);
    OtherBytes(Fill(), w.b);
    assert Run(v, [AtB(FAILURE)]) == Some(u) by { OneAction(v, AtB(FAILURE)); }
    hide Front, Fill, Run, Inv, Delivered, AtAll, ReadsFrame, Conserved, Next, LittleEndian, Frame;
    RunThen(v, [AtB(FAILURE)], back);
    RunThen(start, Front(), [AtB(FAILURE)] + back);
  }

  lemma OneAction(w: World, action: Action)
    ensures Run(w, [action]) == Next(w, action)
  {
    hide Next;
    assert [action][..0] == [] && Run(w, []) == Some(w);
  }
}
