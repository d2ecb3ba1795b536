/** The queues shared with the TMM, and the loops that move their contents over a channel whose reads
    and writes may be short. */
module ShareQueue {
  import opened Bytes
  import opened IntegrityChannel
  import opened IntegrityRuns

  /** How the channel answers a call: an error, or how many bytes it handles at most. */
  datatype Answer = Error | Handles(n: nat)

  /** A TLS session. Its answers are whatever they are; after the last one every call fails. A reliable
      one never fails while there is something to handle, but still may handle less than it is given. */
  class Channel {
    const reliable: bool
    var sent: bytes
    var arriving: bytes
    var answers: seq<Answer>

    constructor (reliable: bool, arriving: bytes, answers: seq<Answer>)
      ensures this.reliable == reliable && sent == [] && this.arriving == arriving && this.answers == answers
    {
      this.reliable, sent, this.arriving, this.answers := reliable, [], arriving, answers;
    }

    /** How many of at most `size` bytes a call handles. */
    method Handled(size: nat) returns (ok: bool, n: nat)
      modifies `answers
      ensures n <= size && (!ok ==> n == 0)
      ensures reliable && size > 0 ==> ok && n > 0
      ensures ok && n == 0 && size > 0 ==> |answers| < |old(answers)|
    {
      ok, n := false, 0;
      if answers != [] && answers[0].Handles? {
        ok, n := true, if answers[0].n < size then answers[0].n else size;
      }
      if answers != [] {
        answers := answers[1..];
      }
      if reliable && n == 0 && size > 0 {
        ok, n := true, 1;
      }
    }

    /** rats_tls_transmit: how many of the bytes were accepted. */
    method Transmit(data: bytes) returns (ok: bool, n: nat)
      modifies this
      ensures n <= |data| && sent == old(sent) + data[..n] && arriving == old(arriving)
      ensures !ok ==> n == 0
      ensures reliable && data != [] ==> ok && n > 0
      ensures ok && n == 0 && data != [] ==> |answers| < |old(answers)|
    {
      ok, n := Handled(|data|);
      sent := sent + data[..n];
    }

    /** rats_tls_receive of at most size bytes. */
    method Receive(size: nat) returns (ok: bool, data: bytes)
      modifies this
      ensures |data| <= size && old(arriving) == data + arriving && sent == old(sent)
      ensures !ok ==> data == []
      ensures reliable && size > 0 && old(arriving) != [] ==> ok && data != []
      ensures ok && data == [] && size > 0 ==> |answers| < |old(answers)|
    {
      var n;
      ok, n := Handled(if size < |arriving| then size else |arriving|);
      if arriving == [] {
        return false, [];
      }
      data := arriving[..n];
      arriving := arriving[n..];
    }
  }

  /** The receive loops of handle_recv_event: exactly n bytes, in as many reads as it takes. Each of the
      reads is a step of the agent that is at this loop. */
  method ReceiveAll(ch: Channel, n: nat) returns (ok: bool, data: bytes, ghost counts: seq<nat>)
    modifies ch
    ensures forall l :: Reads(l, n, []) && l.arriving == old(ch.arriving) ==>
                          Steps(l, Counts(counts)) == Some(Read(l, data, ch.arriving))
    ensures old(ch.arriving) == data + ch.arriving && ch.sent == old(ch.sent)
    ensures |data| <= n && (ok ==> |data| == n)
    ensures ch.reliable && |old(ch.arriving)| >= n ==> ok
  {
    data, counts := [], [];
    ghost var before := ch.arriving;
    while |data| < n
      invariant Total(counts) == |data|
      invariant |data| <= n && old(ch.arriving) == data + ch.arriving && ch.sent == old(ch.sent)
      decreases n - |data|, |ch.answers|
    {
      var more;
      ok, more := ch.Receive(n - |data|);
      if !ok {
        ReceivedBySteps(n, before, data, ch.arriving, counts);
        return;
      }
      TotalSnoc(counts, |more|);
      data, counts := data + more, counts + [|more|];
    }
    ok := true;
    ReceivedBySteps(n, before, data, ch.arriving, counts);
  }

  lemma ReceivedBySteps(n: nat, before: bytes, data: bytes, rest: bytes, counts: seq<nat>)
    requires before == data + rest && Total(counts) == |data| <= n
    ensures forall l :: Reads(l, n, []) && l.arriving == before ==> Steps(l, Counts(counts)) == Some(Read(l, data, rest))
  {
    assert [] + data == data;
    hide Steps, Reads;
    forall l | Reads(l, n, []) && l.arriving == before ensures Steps(l, Counts(counts)) == Some(Read(l, data, rest)) {
      ReadsAreSteps(l, n, [], data, rest, counts);
    }
  }

  /** The loop of send_queue_data: all of the data, in as many writes as it takes. Each of the writes is a
      step of the agent that is sending. */
  method TransmitAll(ch: Channel, data: bytes) returns (ok: bool, ghost writes: seq<nat>)
    modifies ch
    ensures Total(writes) <= |data| && ch.sent == old(ch.sent) + data[..Total(writes)]
    ensures forall l :: SendsAll(l, data) && l.out == old(ch.sent) ==>
                          Steps(l, Counts(writes)) == Some(Written(l, data[Total(writes)..], ch.sent))
    ensures ch.arriving == old(ch.arriving)
    ensures ok ==> ch.sent == old(ch.sent) + data && Total(writes) == |data|
    ensures !ok ==> exists n :: 0 <= n < |data| && ch.sent == old(ch.sent) + data[..n]
    ensures ch.reliable ==> ok
  {
    var totalSent: nat := 0;
    writes := [];
    ghost var before := ch.sent;
    while totalSent < |data|
      invariant Total(writes) == totalSent <= |data|
      invariant ch.sent == old(ch.sent) + data[..totalSent] && ch.arriving == old(ch.arriving)
      decreases |data| - totalSent, |ch.answers|
    {
      var n;
      ok, n := ch.Transmit(data[totalSent..]);
      if !ok {
        assert ch.sent == old(ch.sent) + data[..totalSent];
        SentBySteps(data, before, writes);
        return;
      }
      Longer(data, totalSent, n);
      TotalSnoc(writes, n);
      totalSent, writes := totalSent + n, writes + [n];
    }
    assert data[..totalSent] == data;
    SentBySteps(data, before, writes);
    ok := true;
  }

  predicate SendsAll(l: Local, data: bytes) {
    l.x.pc.Sending? && !l.x.dead && l.x.unsent == data
  }

  function Written(l: Local, rest: bytes, out: bytes): Local {
    l.(x := l.x.(unsent := rest), out := out)
  }

  lemma SentBySteps(data: bytes, before: bytes, writes: seq<nat>)
    requires Total(writes) <= |data|
    ensures forall l :: SendsAll(l, data) && l.out == before ==>
                          Steps(l, Counts(writes)) == Some(Written(l, data[Total(writes)..], before + data[..Total(writes)]))
  {
    hide Steps;
    forall l | SendsAll(l, data) && l.out == before
      ensures Steps(l, Counts(writes)) == Some(Written(l, data[Total(writes)..], before + data[..Total(writes)]))
    {
      WritesAreSteps(l, Total(writes), writes);
    }
  }

  class Queue {
    /** 64 bits of length, then the send queue. */
    const sendMemory: array<byte>
    const recvBuf: array<byte>
    var sendOffset: nat
    var recvOffset: nat

    constructor ()
      ensures Valid() && fresh(sendMemory) && fresh(recvBuf) && sendOffset == 0 && recvOffset == 0
    {
      sendMemory := new byte[8 + QUEUE_SIZE](_ => 0);
      recvBuf := new byte[QUEUE_SIZE](_ => 0);
      sendOffset, recvOffset := 0, 0;
    }

    ghost predicate Valid()
      reads this
    {
      && sendMemory.Length == 8 + QUEUE_SIZE && recvBuf.Length == QUEUE_SIZE && sendMemory != recvBuf
      && recvOffset <= QUEUE_SIZE
    }

    /** What the TMM has queued for sending. */
    ghost function ToSend(): bytes
      requires Valid() && sendOffset <= QUEUE_SIZE
      reads this, sendMemory
    {
      sendMemory[8..8 + sendOffset]
    }

    /** What the TMM finds received. */
    ghost function Received(): (r: bytes)
      requires Valid()
      reads this, recvBuf
    {
      recvBuf[..recvOffset]
    }

    /** is_recv_queue_full */
    method IsRecvQueueFull(len: nat) returns (full: bool)
      requires Valid()
      ensures full <==> |Received()| + len > QUEUE_SIZE
    {
      full := len > QUEUE_SIZE - recvOffset;
    }

    /** enqueue_recv_data, called with room for the data: -1 when the queue was full or now is. */
    method EnqueueRecvData(buffer: bytes) returns (r: int)
      requires Valid() && |Received()| + |buffer| <= QUEUE_SIZE
      modifies this`recvOffset, recvBuf
      ensures Valid() && Received() == old(Received()) + buffer
      ensures r == if |Received()| >= QUEUE_SIZE then -1 else 1
    {
      if recvOffset >= QUEUE_SIZE {
        assert buffer == [];
        return -1;
      }
      ghost var before := Received();
      forall i | 0 <= i < |buffer| {
        recvBuf[recvOffset + i] := buffer[i];
      }
      recvOffset := recvOffset + |buffer|;
      assert Received() == before + buffer;
      r := if recvOffset >= QUEUE_SIZE then -1 else 1;
    }

    /** The length is written in front of the queued data. */
    method StoreLength(len: nat)
      requires Valid() && len == sendOffset <= QUEUE_SIZE
      modifies sendMemory
      ensures sendMemory[..8 + len] == Frame(old(ToSend()))
    {
      ghost var data := ToSend();
      var word := LittleEndian(len, 8);
      forall i | 0 <= i < 8 {
        sendMemory[i] := word[i];
      }
      hide LittleEndian;
      assert sendMemory[..8] == word && sendMemory[8..8 + len] == data;
      assert sendMemory[..8 + len] == sendMemory[..8] + sendMemory[8..8 + len];
    }

    /** send_queue_data: the frame of what is queued goes out whole, in as many writes as it takes, and the
        queue is emptied and wiped; on an error a part of the frame has gone out and the queue stays. */
    method SendQueueData(ch: Channel) returns (ok: bool, ghost writes: seq<nat>)
      requires Valid()
      modifies this`sendOffset, sendMemory, ch
      ensures Valid() && ch.arriving == old(ch.arriving)
      ensures old(sendOffset) <= QUEUE_SIZE ==>
                && Total(writes) <= |Frame(old(ToSend()))| && (ok ==> Total(writes) == |Frame(old(ToSend()))|)
                && forall l :: SendsAll(l, Frame(old(ToSend()))) && l.out == old(ch.sent) ==>
                     Steps(l, Counts(writes)) == Some(Written(l, Frame(old(ToSend()))[Total(writes)..], ch.sent))
      ensures ch.reliable && old(sendOffset) <= QUEUE_SIZE ==> ok
      ensures old(sendOffset) > QUEUE_SIZE ==> !ok && ch.sent == old(ch.sent) && sendOffset == old(sendOffset)
      ensures old(sendOffset) <= QUEUE_SIZE && ok ==>
                && ch.sent == old(ch.sent) + Frame(old(ToSend())) && sendOffset == 0
                && forall i :: 0 <= i < 8 + old(sendOffset) ==> sendMemory[i] == 0
      ensures old(sendOffset) <= QUEUE_SIZE && !ok ==>
                && sendOffset == old(sendOffset) && ToSend() == old(ToSend())
                && exists n :: 0 <= n < |Frame(old(ToSend()))| && ch.sent == old(ch.sent) + Frame(old(ToSend()))[..n]
    {
      writes := [];
      if sendOffset > QUEUE_SIZE {
        return false, writes;
      }
      ghost var data := ToSend();
      StoreLength(sendOffset);
      PayloadOf(data);
      hide Frame;
      var sendLen := sendOffset + 8;
      assert sendMemory[8..sendLen] == sendMemory[..sendLen][8..];
      ok, writes := TransmitAll(ch, sendMemory[..sendLen]);
      if !ok {
        return;
      }
      forall i | 0 <= i < sendLen {
        sendMemory[i] := 0;
      }
      sendOffset := 0;
    }
  }

  lemma PayloadOf(data: bytes)
    ensures Frame(data)[8..] == data
  {
  }

  lemma Longer(frame: bytes, k: nat, n: nat)
    requires k + n <= |frame|
    ensures frame[..k] + frame[k..][..n] == frame[..k + n]
  {
  }
}
