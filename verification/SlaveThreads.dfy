/** The slave threads of the integrity check: woken by semaphores, stopped by a flag and a last post. */
module SlaveThreads {
  import opened Bytes

  datatype Pc = Test | Wait | Round | Left

  datatype Slave = Slave(
    created: bool,
    pc: Pc,
    sem: nat,          // the value of wake_sem
    posts: nat,        // history: posts to wake_sem
    begun: nat,        // history: rounds begun
    stopPosted: bool,  // history: the stop has posted to it
    begunSince: nat)   // history: rounds begun after that

  /** The thread that creates, wakes and stops the slaves. */
  datatype Master =
    | Creating(i: nat)
    | Unwinding(i: nat, count: nat)  // creation failed: post to slave i
    | Joining(i: nat, count: nat)    // and wait for it to leave
    | Idle
    | Notifying(i: nat)
    | Stopping(i: nat)
    | Over

  datatype World = World(shouldExit: bool, master: Master, slaves: seq<Slave>)

  /** What the ioctl of a slave reports. */
  datatype Tsi = Success | FatalError | Other

  datatype Action =
    | Create(ok: bool)
    | Advance                // the master goes on
    | Notify                 // the master begins to wake all slaves
    | PostFails              // sem_post fails while it does
    | Stop                   // the master begins to stop all slaves
    | Check(i: nat)          // slave i tests the flag
    | Take(i: nat)           // sem_wait of slave i returns
    | Tmm(i: nat, ret: Tsi)  // an ioctl of slave i returns

  function NotCreated(): Slave {
    Slave(false, Test, 0, 0, 0, false, 0)
  }

  function Initial(n: nat): World {
    World(false, Creating(0), seq(n, _ => NotCreated()))
  }

  function Set(w: World, i: nat, s: Slave): World
    requires i < |w.slaves|
  {
    w.(slaves := w.slaves[i := s])
  }

  /** sem_post, for a slave that was created. */
  function Post(w: World, i: nat, stop: bool): World
    requires i < |w.slaves|
  {
    var s := w.slaves[i];
    if !s.created then w
    else Set(w, i, s.(sem := s.sem + 1, posts := s.posts + 1, stopPosted := s.stopPosted || stop))
  }

  function MasterStep(w: World, a: Action): Option<World> {
    match w.master
    case Creating(i) =>
      if i >= |w.slaves| then (if a == Advance then Some(w.(master := Idle)) else None)
      else if a == Create(true) then Some(Set(w, i, NotCreated().(created := true)).(master := Creating(i + 1)))
      else if a == Create(false) then Some(w.(shouldExit := true, master := Unwinding(0, i)))
      else None
    case Unwinding(i, count) =>
      if a != Advance then None
      else if i < count && i < |w.slaves| then Some(Post(w, i, true).(master := Joining(i, count)))
      else Some(w.(master := Over))
    case Joining(i, count) =>
      if a == Advance && i < |w.slaves| && w.slaves[i].pc == Left
      then Some(Set(w, i, w.slaves[i].(created := false)).(master := Unwinding(i + 1, count)))
      else None
    case Idle =>
      if a == Notify then Some(w.(master := Notifying(0)))
      else if a == Stop then Some(w.(shouldExit := true, master := Stopping(0)))
      else None
    case Notifying(i) =>
      if a == PostFails then Some(w.(shouldExit := true, master := Stopping(0)))
      else if a != Advance then None
      else if i < |w.slaves| then Some(Post(w, i, false).(master := Notifying(i + 1)))
      else Some(w.(master := Idle))
    case Stopping(i) =>
      if a != Advance then None
      else if i < |w.slaves| then Some(Post(w, i, true).(master := Stopping(i + 1)))
      else Some(w.(master := Over))
    case Over => None
  }

  predicate OfSlave(a: Action) {
    a.Check? || a.Take? || a.Tmm?
  }

  /** A step of slave_io_thread. */
  function SlaveStep(w: World, a: Action): Option<World>
    requires OfSlave(a)
  {
    if a.i >= |w.slaves| || !w.slaves[a.i].created then None
    else
      var s := w.slaves[a.i];
      match a
      case Check(i) => if s.pc != Test then None else Some(Set(w, i, s.(pc := if w.shouldExit then Left else Wait)))
      case Take(i) =>
        if s.pc != Wait || s.sem == 0 then None
        else Some(Set(w, i, s.(pc := Round, sem := s.sem - 1, begun := s.begun + 1,
                               begunSince := s.begunSince + (if s.stopPosted then 1 else 0))))
      case Tmm(i, ret) =>
        if s.pc != Round then None
        else if ret == Other then Some(w)
        else Some(Set(w, i, s.(pc := Test)).(shouldExit := w.shouldExit || ret == FatalError))
  }

  function Next(w: World, a: Action): Option<World> {
    if OfSlave(a) then SlaveStep(w, a) else MasterStep(w, a)
  }

  function Run(w: World, actions: seq<Action>): Option<World> {
    if actions == [] then Some(w)
    else
      match Run(w, actions[..|actions| - 1])
      case None => None
      case Some(v) => Next(v, actions[|actions| - 1])
  }

  // ----- what every step keeps

  /** No wake-up is lost or invented; and once the stop has posted, a slave that waits can go on, begins
      no second round and finds the flag set. */
  predicate SlaveOk(s: Slave, shouldExit: bool) {
    && s.posts == s.sem + s.begun
    && (s.stopPosted ==> shouldExit && s.begunSince <= 1 && s.sem + s.begunSince >= 1)
    && (s.stopPosted && s.begunSince == 1 ==> s.pc != Wait)
    && (!s.stopPosted ==> s.begunSince == 0)
  }

  predicate Inv(w: World) {
    && (forall i :: 0 <= i < |w.slaves| ==> SlaveOk(w.slaves[i], w.shouldExit))
    && (w.master.Stopping? || w.master.Unwinding? || w.master.Joining? ==> w.shouldExit)
    && (w.master.Stopping? ==> forall i :: 0 <= i < |w.slaves| && i < w.master.i && w.slaves[i].created ==> w.slaves[i].stopPosted)
    && (w.master.Joining? ==>
          forall i :: i == w.master.i && 0 <= i < |w.slaves| && w.slaves[i].created ==> w.slaves[i].stopPosted)
    && (w.master == Over ==> forall i :: 0 <= i < |w.slaves| && w.slaves[i].created ==> w.slaves[i].stopPosted)
    && (w.master.Creating? ==> forall i :: w.master.i <= i < |w.slaves| ==> !w.slaves[i].created)
    && (w.master.Unwinding? || w.master.Joining? ==>
          forall i :: 0 <= i < |w.slaves| && (i < w.master.i || w.master.count <= i) ==> !w.slaves[i].created)
  }

  lemma SlaveStepKeepsInv(w: World, a: Action)
    requires Inv(w) && OfSlave(a) && SlaveStep(w, a).Some?
    ensures Inv(SlaveStep(w, a).value)
  {
    assert SlaveOk(w.slaves[a.i], w.shouldExit);
  }

  lemma MasterStepKeepsInv(w: World, a: Action)
    requires Inv(w) && MasterStep(w, a).Some?
    ensures Inv(MasterStep(w, a).value)
  {
    if w.master != Idle && w.master != Over && w.master.i < |w.slaves| {
      assert SlaveOk(w.slaves[w.master.i], w.shouldExit);
    }
  }

  /** For any number of slaves and any interleaving: posts to a slave are the value of its semaphore plus
      the rounds it has begun; once the stop has posted to it, a slave at the wait has a positive semaphore
      and begins at most one more round; a slave that is waited for when creation has failed has been posted to;
      and when the stop is over it has posted to every slave. */
  lemma {:induction false} EveryRunIsSafe(n: nat, actions: seq<Action>)
    requires Run(Initial(n), actions).Some?
    ensures Inv(Run(Initial(n), actions).value)
    ensures forall i :: 0 <= i < |Run(Initial(n), actions).value.slaves| ==>
              var s := Run(Initial(n), actions).value.slaves[i];
              && s.posts == s.sem + s.begun && s.begunSince <= 1
              && (s.stopPosted && s.pc == Wait ==> s.sem > 0)
              && (Run(Initial(n), actions).value.master == Over && s.created ==> s.stopPosted)
              && (Run(Initial(n), actions).value.master.Joining? && Run(Initial(n), actions).value.master.i == i && s.created ==>
                    s.stopPosted)
  {
    if actions != [] {
      var w, a := Run(Initial(n), actions[..|actions| - 1]).value, actions[|actions| - 1];
      EveryRunIsSafe(n, actions[..|actions| - 1]);
      if OfSlave(a) {
        SlaveStepKeepsInv(w, a);
      } else {
        MasterStepKeepsInv(w, a);
      }
    }
    var v := Run(Initial(n), actions).value;
    forall i | 0 <= i < |v.slaves|
      ensures v.slaves[i].posts == v.slaves[i].sem + v.slaves[i].begun && v.slaves[i].begunSince <= 1
      ensures v.slaves[i].stopPosted && v.slaves[i].pc == Wait ==> v.slaves[i].sem > 0
    {
      assert SlaveOk(v.slaves[i], v.shouldExit);
    }
  }

  // ----- a stopped slave leaves

  /** Steps to the end of the thread, once the flag is set. */
  function ToGo(s: Slave): nat {
    match s.pc
    case Wait => 3
    case Round => 2
    case Test => 1
    case Left => 0
  }

  /** A slave to which the stop has posted is never blocked, and every step of it other than another turn
      of the ioctl loop brings it closer to leaving. */
  lemma StoppedSlaveLeaves(w: World, i: nat)
    requires Inv(w) && i < |w.slaves| && w.slaves[i].created && w.slaves[i].stopPosted && w.slaves[i].pc != Left
    ensures exists a: Action :: (a == Check(i) || a == Take(i) || a == Tmm(i, Success)) && Next(w, a).Some?
    ensures forall a: Action :: OfSlave(a) && a.i == i && Next(w, a).Some? ==>
              || (a.Tmm? && a.ret == Other)
              || ToGo(Next(w, a).value.slaves[i]) < ToGo(w.slaves[i])
  {
    var s := w.slaves[i];
    assert SlaveOk(s, w.shouldExit);
    var a := if s.pc == Test then Check(i) else if s.pc == Wait then Take(i) else Tmm(i, Success);
    assert Next(w, a).Some?;
  }

  // ----- a notification wakes every slave

  /** Since w, at the start of a notification, the slaves before i have each had one post. */
  predicate Posted(w: World, v: World, i: nat) {
    && |v.slaves| == |w.slaves|
    && forall j :: 0 <= j < |w.slaves| ==>
         && v.slaves[j].created == w.slaves[j].created
         && v.slaves[j].posts == w.slaves[j].posts + (if j < i && w.slaves[j].created then 1 else 0)
  }

  predicate NotifiedSoFar(w: World, v: World) {
    match v.master
    case Notifying(i) => Posted(w, v, i)
    case Idle => Posted(w, v, |w.slaves|)
    case Stopping(_) => true
    case Over => true
    case _ => false
  }

  lemma NotifyingStep(w: World, v: World, a: Action)
    requires NotifiedSoFar(w, v) && a != Notify && Next(v, a).Some?
    ensures NotifiedSoFar(w, Next(v, a).value)
  {
  }

  /** When the master is back from waking the slaves, whatever these did meanwhile, it has posted once to every one
      that was created and to no other. */
  lemma {:induction false} NotifyWakesAll(w: World, acts: seq<Action>)
    requires w.master == Idle && Notify !in acts && Run(w, [Notify] + acts).Some?
    ensures NotifiedSoFar(w, Run(w, [Notify] + acts).value)
    ensures var v := Run(w, [Notify] + acts).value;
            v.master == Idle ==>
              && |v.slaves| == |w.slaves|
              && forall i :: 0 <= i < |w.slaves| ==>
                   v.slaves[i].posts == w.slaves[i].posts + (if w.slaves[i].created then 1 else 0)
    decreases |acts|
  {
    var all := [Notify] + acts;
    if acts == [] {
      assert all[..0] == [] && Run(w, []) == Some(w);
    } else {
      var front := acts[..|acts| - 1];
      assert all[..|all| - 1] == [Notify] + front && all[|all| - 1] == acts[|acts| - 1];
      NotifyWakesAll(w, front);
      hide Next;
      NotifyingStep(w, Run(w, [Notify] + front).value, acts[|acts| - 1]);
    }
  }

  // ----- a fatal error stops every slave

  /** The flag is set, and this slave has begun at most b rounds before, or is waiting for the last. */
  predicate Ending(w: World, i: nat, b: nat) {
    && w.shouldExit && i < |w.slaves| && w.slaves[i].begun + (if w.slaves[i].pc == Wait then 1 else 0) <= b + 1
  }

  lemma EndingStep(w: World, i: nat, b: nat, a: Action)
    requires Ending(w, i, b) && Next(w, a).Some?
    ensures Ending(Next(w, a).value, i, b)
  {
  }

  /** Once an ioctl of any slave has reported a fatal error, or the stop has begun, no slave begins more than one
      further round in any run. */
  lemma {:induction false} LastRound(w: World, acts: seq<Action>, i: nat)
    requires w.shouldExit && i < |w.slaves| && Run(w, acts).Some?
    ensures Ending(Run(w, acts).value, i, w.slaves[i].begun)
    ensures var v := Run(w, acts).value; i < |v.slaves| && v.slaves[i].begun <= w.slaves[i].begun + 1
    decreases |acts|
  {
    if acts != [] {
      var front := acts[..|acts| - 1];
      LastRound(w, front, i);
      hide Next;
      EndingStep(Run(w, front).value, i, w.slaves[i].begun, acts[|acts| - 1]);
    }
  }

  lemma FatalErrorStops(w: World, k: nat, acts: seq<Action>, i: nat)
    requires Next(w, Tmm(k, FatalError)).Some? && i < |w.slaves|
    requires Run(Next(w, Tmm(k, FatalError)).value, acts).Some?
    ensures var v := Run(Next(w, Tmm(k, FatalError)).value, acts).value;
            i < |v.slaves| && v.slaves[i].begun <= w.slaves[i].begun + 1
  {
    LastRound(Next(w, Tmm(k, FatalError)).value, acts, i);
  }

  /** A round lasts until the ioctl reports success or a fatal error, and only the latter sets the flag. */
  lemma RoundEnds(w: World, i: nat, ret: Tsi)
    requires i < |w.slaves| && w.slaves[i].created && w.slaves[i].pc == Round
    ensures Next(w, Tmm(i, ret)).Some?
    ensures var v := Next(w, Tmm(i, ret)).value;
            && v.slaves[i].pc == (if ret == Other then Round else Test)
            && (v.shouldExit <==> w.shouldExit || ret == FatalError)
  {
  }
}
