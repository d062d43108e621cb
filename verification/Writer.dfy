/**
 The database writer actor as a state machine: one lazily started worker behind a queue
 bounded by the admission capacity.  Unlike the read pool it decides under its lock that
 STOP is due and puts STOP into the queue after leaving the lock, so the two are separate
 actions here.  Catastrophic failure of the worker thread is not modelled.
 */
module Writer {
  import opened Seqs
  import opened Admission

  datatype Item = Req(ticket: nat) | StopToken

  datatype Activity = NotStarted | Idle | Serving(ticket: nat) | Stopping | Exited

  datatype Life = Open | Closing | Closed

  datatype Actor = Actor(
    gate: Gate,
    life: Life,
    stopFlag: bool,          // the decision to stop has been taken
    stopsDue: nat,           // callers that still have to put STOP
    stopsPut: nat,           // history: STOPs put so far
    queue: seq<Item>,        // bounded by gate.capacity
    activity: Activity
  )

  datatype Action =
    | Submit(threadStarts: bool) | Consume(ticket: nat) | Withdraw(ticket: nat)
    | DeliverGrant(ticket: nat, settled: bool) | Dispatch(ticket: nat) | PutStop
    | Take | Finish | Exit | RequestClose

  predicate IsReq(x: Item) { x.Req? }

  function SetLife(s: Actor, l: Life): (r: Actor) {
    s.(life := l, gate := s.gate.(open := l.Open?))
  }

  function PrepareStop(s: Actor): (r: Actor) {
    if s.life.Closing? && s.gate.outstanding == 0 && !s.stopFlag
    then s.(stopFlag := true, stopsDue := s.stopsDue + 1) else s
  }

  /** When a put that does not wait would be refused. */
  predicate Full(s: Actor) {
    |s.queue| >= s.gate.capacity
  }

  ghost function DispatchStep(s: Actor, t: nat): (r: Actor)
    requires WellFormed(s.gate) && t < |s.gate.phase|
  {
    if !s.life.Open? then PrepareStop(s.(gate := GiveBack(s.gate, t)))
    else if Full(s) then PrepareStop(s.(gate := Release(s.gate, t)))
    else s.(gate := Hand(s.gate, t, Queued(0)), queue := s.queue + [Req(t)])
  }

  ghost function TakeStep(s: Actor): (r: Actor)
    requires s.queue != []
  {
    var x, p := s.queue[0], s.(queue := s.queue[1..]);
    if x.StopToken? then p.(activity := Stopping)
    else if x.ticket < |s.gate.phase| then
      p.(activity := Serving(x.ticket), gate := Hand(s.gate, x.ticket, Running(0)))
    else p
  }

  ghost function CloseStep(s: Actor): (r: Actor)
    requires WellFormed(s.gate)
  {
    var c := s.(life := Closing, gate := Shut(s.gate));
    if c.gate.outstanding == 0 && !c.stopFlag then
      if c.activity.NotStarted? then c.(life := Closed)
      else c.(stopFlag := true, stopsDue := c.stopsDue + 1)
    else c
  }

  ghost predicate Enabled(s: Actor, a: Action) {
    && WellFormed(s.gate)
    && match a
       case Submit(threadStarts) => s.life.Open? && (threadStarts || s.activity.NotStarted?)
       case Consume(t) => t < |s.gate.phase| && s.gate.phase[t].Granted?
       case Withdraw(t) => t < |s.gate.phase|
       case DeliverGrant(t, _) => t < |s.gate.phase|
       case Dispatch(t) => t < |s.gate.phase| && s.gate.phase[t].Held?
       case PutStop => s.stopsDue > 0
       case Take => s.activity.Idle? && s.queue != []
       case Finish => s.activity.Serving? && s.activity.ticket < |s.gate.phase|
       case Exit => s.activity.Stopping?
       case RequestClose => s.life.Open?
  }

  ghost function Next(s: Actor, a: Action): (r: Actor)
    requires Enabled(s, a)
  {
    match a
    case Submit(threadStarts) =>
      if threadStarts then
        s.(activity := if s.activity.NotStarted? then Idle else s.activity, gate := Arrive(s.gate).0)
      else SetLife(s, Closed)
    case Consume(t) => s.(gate := Hand(s.gate, t, Held))
    case Withdraw(t) => PrepareStop(s.(gate := Cancel(s.gate, t)))
    case DeliverGrant(t, settled) =>
      if s.gate.phase[t].Granted? && settled then PrepareStop(s.(gate := Release(s.gate, t))) else s
    case Dispatch(t) => DispatchStep(s, t)
    case PutStop =>
      if Full(s) then s.(stopsDue := s.stopsDue - 1)
      else s.(stopsDue := s.stopsDue - 1, stopsPut := s.stopsPut + 1, queue := s.queue + [StopToken])
    case Take => TakeStep(s)
    case Finish => PrepareStop(s.(activity := Idle, gate := Release(s.gate, s.activity.ticket)))
    case Exit => SetLife(s, Closed).(activity := Exited)
    case RequestClose => CloseStep(s)
  }

  function Initial(capacity: nat, maxWaiters: nat): (s: Actor) {
    Actor(Gate(capacity, maxWaiters, true, 0, [], [], [], []), Open, false, 0, 0, [], NotStarted)
  }

  // ----- invariant -----

  ghost predicate Books(phase: seq<Phase>, queue: seq<Item>, activity: Activity) {
    && (forall i :: 0 <= i < |queue| && queue[i].Req? ==>
          queue[i].ticket < |phase| && phase[queue[i].ticket] == Queued(0))
    && (forall i, j :: 0 <= i < j < |queue| && queue[i].Req? ==> queue[i] != queue[j])
    && (forall t :: 0 <= t < |phase| && phase[t].Queued? ==> Req(t) in queue)
    && (forall t :: 0 <= t < |phase| && phase[t].Running? ==> activity == Serving(t))
    && (activity.Serving? ==> activity.ticket < |phase| && phase[activity.ticket] == Running(0))
  }

  ghost predicate LifeOk(s: Actor) {
    var idle := s.gate.outstanding == 0;
    && s.gate.capacity >= 1
    && s.gate.open == s.life.Open?
    && (s.stopFlag ==> s.stopsDue + s.stopsPut == 1 && idle && !s.life.Open? && !s.activity.NotStarted?)
    && (!s.stopFlag ==> s.stopsDue == 0 && s.stopsPut == 0)
    && (s.life.Closing? ==> !s.activity.NotStarted? && (idle ==> s.stopFlag))
    && (s.activity.NotStarted? ==> idle && s.queue == [])
    && (StopToken in s.queue || s.activity.Stopping? || s.activity.Exited? ==> s.stopsPut == 1)
    && (StopToken in s.queue ==> s.queue == [StopToken] && s.activity.Idle?)
    && (s.activity.Stopping? || s.activity.Exited? ==> s.queue == [])
    && (s.life.Closed? ==> s.activity.NotStarted? || s.activity.Exited?)
    && (s.activity.Exited? ==> s.life.Closed?)
    && (s.stopsPut == 1 ==> StopToken in s.queue || s.activity.Stopping? || s.activity.Exited?)
  }

  ghost predicate ActorInv(s: Actor) {
    Books(s.gate.phase, s.queue, s.activity) && LifeOk(s)
  }

  ghost predicate WriterInv(s: Actor) {
    Inv(s.gate) && ActorInv(s)
  }

  // ----- preservation -----

  predicate NoWork(p: Phase) {
    !p.Queued? && !p.Running?
  }

  lemma GateFrame(g: Gate, h: Gate, queue: seq<Item>, activity: Activity)
    requires Books(g.phase, queue, activity) && |h.phase| >= |g.phase|
    requires forall t :: 0 <= t < |h.phase| ==>
               (t < |g.phase| && h.phase[t] == g.phase[t])
               || (NoWork(h.phase[t]) && (t < |g.phase| ==> NoWork(g.phase[t])))
    ensures Books(h.phase, queue, activity)
  {
  }

  /** With no slot outstanding the queue holds no request and the worker serves none. */
  lemma IdleMeansNoRequests(s: Actor)
    requires Inv(s.gate) && Books(s.gate.phase, s.queue, s.activity) && s.gate.outstanding == 0
    ensures !s.activity.Serving?
    ensures forall i :: 0 <= i < |s.queue| ==> s.queue[i].StopToken?
  {
    hide Count;
    ZeroMeansNoOwner(s.gate);
  }

  /** The slot of `t` has left the queue and the worker; what remains is bookkeeping of the stop. */
  lemma AfterReturn(s: Actor, g: Gate)
    requires LifeOk(s) && Books(g.phase, s.queue, s.activity)
    requires s.gate.outstanding > 0 && g.capacity == s.gate.capacity && g.open == s.gate.open
    ensures ActorInv(PrepareStop(s.(gate := g))) && PrepareStop(s.(gate := g)).gate == g
  {
  }

  lemma SubmitInv(s: Actor, threadStarts: bool)
    requires WriterInv(s) && Enabled(s, Submit(threadStarts))
    ensures WriterInv(Next(s, Submit(threadStarts)))
  {
    hide Count;
    if threadStarts {
      ArriveInv(s.gate);
      hide Books, Arrive, SlotsOk;
      GateFrame(s.gate, Arrive(s.gate).0, s.queue, s.activity);
    } else {
      ReopenCore(s.gate, false);
      hide Books, Core;
    }
  }

  lemma WithdrawInv(s: Actor, t: nat)
    requires WriterInv(s) && t < |s.gate.phase|
    ensures WriterInv(PrepareStop(s.(gate := Cancel(s.gate, t))))
  {
    hide Count;
    var h := Cancel(s.gate, t);
    CancelInv(s.gate, t);
    GateFrame(s.gate, h, s.queue, s.activity);
    if s.gate.outstanding == 0 {
      ZeroMeansNoOwner(s.gate);
      IdleCancel(s.gate, t);
    }
  }

  /** Cancelling at an idle gate leaves it idle. */
  lemma IdleCancel(g: Gate, t: nat)
    requires Inv(g) && g.outstanding == 0 && g.capacity >= 1 && t < |g.phase|
    ensures Cancel(g, t).outstanding == 0
  {
    hide Count;
    CancelInv(g, t);
    ZeroMeansNoOwner(g);
    ZeroMeansNoOwner(Cancel(g, t));
  }

  lemma DeliverInv(s: Actor, t: nat)
    requires WriterInv(s) && t < |s.gate.phase| && s.gate.phase[t].Granted?
    ensures WriterInv(PrepareStop(s.(gate := Release(s.gate, t))))
  {
    hide Count;
    ReleaseInv(s.gate, t);
    ZeroMeansNoOwner(s.gate);
    Conservation(s.gate);
    GateFrame(s.gate, Release(s.gate, t), s.queue, s.activity);
    AfterReturn(s, Release(s.gate, t));
  }

  lemma {:induction false} TicketsFit(q: seq<Item>, phase: seq<Phase>)
    requires forall i :: 0 <= i < |q| ==> q[i].Req? && q[i].ticket < |phase| && phase[q[i].ticket].Queued?
    requires forall i, j :: 0 <= i < j < |q| ==> q[i] != q[j]
    ensures |q| <= Count(phase, IsQueued)
  {
    if q != [] {
      var n := |q| - 1;
      var t := q[n].ticket;
      CountUpdate(phase, t, Returned, IsQueued);
      TicketsFit(q[..n], phase[t := Returned]);
    }
  }

  /** The bounded queue has room whenever a submission that holds a slot dispatches. */
  lemma RoomToDispatch(s: Actor, t: nat)
    requires WriterInv(s) && s.life.Open? && t < |s.gate.phase| && s.gate.phase[t].Held?
    ensures !Full(s)
  {
    hide Count;
    assert StopToken !in s.queue;
    TicketsFit(s.queue, s.gate.phase);
    OwnersSplit(s.gate.phase);
    CountZero(s.gate.phase, IsHeld);
  }

  lemma AppendBooks(phase: seq<Phase>, queue: seq<Item>, activity: Activity, t: nat)
    requires Books(phase, queue, activity) && t < |phase| && phase[t].Held?
    ensures Books(phase[t := Queued(0)], queue + [Req(t)], activity)
  {
    hide Count;
    assert (queue + [Req(t)])[|queue|] == Req(t);
  }

  lemma DispatchInv(s: Actor, t: nat)
    requires WriterInv(s) && t < |s.gate.phase| && s.gate.phase[t].Held?
    ensures WriterInv(DispatchStep(s, t))
    ensures s.life.Open? ==> !Full(s)
  {
    hide Count;
    ZeroMeansNoOwner(s.gate);
    Conservation(s.gate);
    if s.life.Open? {
      RoomToDispatch(s, t);
      HandInv(s.gate, t, Queued(0));
      AppendBooks(s.gate.phase, s.queue, s.activity, t);
      assert StopToken !in s.queue + [Req(t)];
    } else {
      var h := GiveBack(s.gate, t);
      GiveBackCore(s.gate, t);
      GateFrame(s.gate, h, s.queue, s.activity);
      AfterReturn(s, h);
    }
  }

  /** When STOP is due the queue is empty, so putting it never fails. */
  lemma RoomToStop(s: Actor)
    requires WriterInv(s) && s.stopsDue > 0
    ensures s.queue == [] && !Full(s)
  {
    hide Count;
    IdleMeansNoRequests(s);
    EmptyIfExcluded(s.queue, StopToken);
  }

  lemma PutStopInv(s: Actor)
    requires WriterInv(s) && s.stopsDue > 0
    ensures WriterInv(Next(s, PutStop))
  {
    hide Count;
    RoomToStop(s);
    IdleMeansNoRequests(s);
    assert s.queue + [StopToken] == [StopToken];
  }

  lemma TakeBooks(phase: seq<Phase>, queue: seq<Item>, activity: Activity)
    requires Books(phase, queue, activity) && queue != [] && activity.Idle?
    ensures queue[0].StopToken? ==> Books(phase, queue[1..], Stopping)
    ensures queue[0].Req? ==> queue[0].ticket < |phase|
                              && Books(phase[queue[0].ticket := Running(0)], queue[1..], Serving(queue[0].ticket))
  {
    hide Count;
    assert queue == [queue[0]] + queue[1..];
  }

  lemma TakeInv(s: Actor)
    requires WriterInv(s) && s.activity.Idle? && s.queue != []
    ensures WriterInv(TakeStep(s))
  {
    hide Count;
    assert s.queue == [s.queue[0]] + s.queue[1..];
    TakeBooks(s.gate.phase, s.queue, s.activity);
    if s.queue[0].Req? {
      HandInv(s.gate, s.queue[0].ticket, Running(0));
    } else {
      assert StopToken in s.queue;
    }
  }

  lemma FinishInv(s: Actor)
    requires WriterInv(s) && s.activity.Serving?
    ensures WriterInv(Next(s, Finish))
  {
    hide Count;
    var t := s.activity.ticket;
    var h := Release(s.gate, t);
    ReleaseInv(s.gate, t);
    ZeroMeansNoOwner(s.gate);
    Conservation(s.gate);
    assert Books(s.gate.phase[t := Returned], s.queue, Idle);
    GateFrame(Hand(s.gate, t, Returned), h, s.queue, Idle);
    AfterReturn(s.(activity := Idle), h);
  }

  lemma ExitInv(s: Actor)
    requires WriterInv(s) && s.activity.Stopping?
    ensures WriterInv(Next(s, Exit))
  {
    hide Count;
    ZeroMeansNoOwner(s.gate);
  }

  lemma CloseInv(s: Actor)
    requires WriterInv(s) && s.life.Open?
    ensures WriterInv(CloseStep(s))
  {
    hide Count;
    ShutInv(s.gate);
    GateFrame(s.gate, Shut(s.gate), s.queue, s.activity);
  }

  lemma StepInv(s: Actor, a: Action)
    requires WriterInv(s) && Enabled(s, a)
    ensures WriterInv(Next(s, a))
  {
    hide Count;
    match a
    case Submit(b) => SubmitInv(s, b);
    case Consume(t) =>
      HandInv(s.gate, t, Held);
      GateFrame(s.gate, Hand(s.gate, t, Held), s.queue, s.activity);
    case Withdraw(t) => WithdrawInv(s, t);
    case DeliverGrant(t, settled) => if s.gate.phase[t].Granted? && settled { DeliverInv(s, t); }
    case Dispatch(t) => DispatchInv(s, t);
    case PutStop => PutStopInv(s);
    case Take => TakeInv(s);
    case Finish => FinishInv(s);
    case Exit => ExitInv(s);
    case RequestClose => CloseInv(s);
  }

  // ----- runs -----

  ghost predicate Reaches(s: Actor, acts: seq<Action>, r: Actor)
    decreases |acts|
  {
    if acts == [] then r == s
    else Enabled(s, acts[0]) && Reaches(Next(s, acts[0]), acts[1..], r)
  }

  lemma {:induction false} RunInv(s: Actor, acts: seq<Action>, r: Actor)
    requires WriterInv(s) && Reaches(s, acts, r)
    ensures WriterInv(r)
    decreases |acts|
  {
    if acts != [] {
      StepInv(s, acts[0]);
      RunInv(Next(s, acts[0]), acts[1..], r);
    }
  }

  lemma ReachableInv(capacity: nat, maxWaiters: nat, acts: seq<Action>, s: Actor)
    requires capacity >= 1 && Reaches(Initial(capacity, maxWaiters), acts, s)
    ensures WriterInv(s)
  {
    hide Count;
    RunInv(Initial(capacity, maxWaiters), acts, s);
  }

  /** In every reachable state neither put that does not wait can find the bounded queue full. */
  lemma PutsNeverFull(capacity: nat, maxWaiters: nat, acts: seq<Action>, s: Actor, t: nat)
    requires capacity >= 1 && Reaches(Initial(capacity, maxWaiters), acts, s)
    ensures s.life.Open? && t < |s.gate.phase| && s.gate.phase[t].Held? ==> !Full(s)
    ensures s.stopsDue > 0 ==> !Full(s)
  {
    hide Count;
    ReachableInv(capacity, maxWaiters, acts, s);
    if s.life.Open? && t < |s.gate.phase| && s.gate.phase[t].Held? { RoomToDispatch(s, t); }
    if s.stopsDue > 0 { RoomToStop(s); }
  }

  /**
   STOP goes out at most once, only when no submission owns a slot any more, alone in the
   queue; and a close with nothing left to wait for has decided to send it.
   */
  lemma StopOnce(capacity: nat, maxWaiters: nat, acts: seq<Action>, s: Actor)
    requires capacity >= 1 && Reaches(Initial(capacity, maxWaiters), acts, s)
    ensures s.stopsPut + s.stopsDue <= 1
    ensures s.stopsPut + s.stopsDue == 1 ==> forall t :: 0 <= t < |s.gate.phase| ==> !Owns(s.gate.phase[t])
    ensures StopToken in s.queue ==> s.queue == [StopToken]
    ensures s.life.Closing? && s.gate.outstanding == 0 ==> s.stopFlag
    ensures s.activity.Exited? ==> s.stopsPut == 1 && s.life.Closed?
  {
    hide Count;
    ReachableInv(capacity, maxWaiters, acts, s);
    ZeroMeansNoOwner(s.gate);
  }

  ghost function BusySlots(a: Activity): (n: nat) {
    if a.Serving? then 1 else 0
  }

  /** The counter is the granted waiters, the undispatched holders, the queued requests and the running one. */
  lemma SlotConservation(capacity: nat, maxWaiters: nat, acts: seq<Action>, s: Actor)
    requires capacity >= 1 && Reaches(Initial(capacity, maxWaiters), acts, s)
    ensures s.gate.outstanding == Count(s.gate.phase, IsGranted) + Count(s.gate.phase, IsHeld)
                                  + Count(s.queue, IsReq) + BusySlots(s.activity)
    ensures 0 <= s.gate.outstanding <= s.gate.capacity
    ensures |s.gate.freed| == |s.gate.phase|
    ensures forall t :: 0 <= t < |s.gate.phase| ==> s.gate.freed[t] == if s.gate.phase[t].Returned? then 1 else 0
  {
    hide Count;
    ReachableInv(capacity, maxWaiters, acts, s);
    OwnersSplit(s.gate.phase);
    QueuedSize(s.queue, s.gate.phase);
    RunningSize(s.gate.phase, s.activity);
  }

  lemma {:induction false} QueuedSize(q: seq<Item>, phase: seq<Phase>)
    requires forall i :: 0 <= i < |q| && q[i].Req? ==> q[i].ticket < |phase| && phase[q[i].ticket].Queued?
    requires forall i, j :: 0 <= i < j < |q| && q[i].Req? ==> q[i] != q[j]
    requires forall t :: 0 <= t < |phase| && phase[t].Queued? ==> Req(t) in q
    ensures Count(q, IsReq) == Count(phase, IsQueued)
    decreases |q|
  {
    if q == [] {
      CountZero(phase, IsQueued);
    } else {
      var n := |q| - 1;
      assert q == q[..n] + [q[n]];
      if q[n].Req? {
        var t := q[n].ticket;
        CountUpdate(phase, t, Returned, IsQueued);
        QueuedSize(q[..n], phase[t := Returned]);
      } else {
        QueuedSize(q[..n], phase);
      }
    }
  }

  lemma RunningSize(phase: seq<Phase>, a: Activity)
    requires forall t :: 0 <= t < |phase| && phase[t].Running? ==> a == Serving(t)
    requires a.Serving? ==> a.ticket < |phase| && phase[a.ticket].Running?
    ensures Count(phase, IsRunning) == BusySlots(a)
  {
    hide Count;
    if a.Serving? {
      CountUpdate(phase, a.ticket, Returned, IsRunning);
      CountZero(phase[a.ticket := Returned], IsRunning);
    } else {
      CountZero(phase, IsRunning);
    }
  }

  /** Work conservation, arrival order and the waiter bound, in every reachable state. */
  lemma AdmissionOrder(capacity: nat, maxWaiters: nat, acts: seq<Action>, s: Actor)
    requires capacity >= 1 && Reaches(Initial(capacity, maxWaiters), acts, s)
    ensures s.life.Open? ==> s.gate.outstanding == s.gate.capacity || NoneWaiting(s.gate)
    ensures !s.life.Open? ==> NoneWaiting(s.gate)
    ensures Ascending(s.gate.grants)
    ensures forall t :: 0 <= t < |s.gate.phase| && s.gate.phase[t].Waiting? ==> AfterAllGrants(s.gate, t)
    ensures forall t, u :: (0 <= t < |s.gate.phase| && 0 <= u < |s.gate.phase| && s.gate.phase[t].Waiting?
                            && (Owns(s.gate.phase[u]) || s.gate.phase[u].Returned?)) ==> u < t
    ensures Count(s.gate.phase, IsWaiting) <= s.gate.maxWaiters
  {
    hide Count;
    ReachableInv(capacity, maxWaiters, acts, s);
  }
}
