/**
 What a close of the writer leads to, and in which order transactions run: the worker
 executes requests in the order of dispatch, and after a close it takes a bounded number
 of steps, the last of which closes the writer.
 */
module WriterLife {
  import opened Seqs
  import opened Admission
  import opened Writer

  /** A close turns exactly the waiting submissions away, and with nothing owned decides the STOP or is done at once. */
  lemma CloseBegins(s: Actor)
    requires WriterInv(s) && s.life.Open?
    ensures Enabled(s, RequestClose)
    ensures var r, idle := Next(s, RequestClose), s.gate.outstanding == 0;
            && r.life == (if idle && s.activity.NotStarted? then Closed else Closing)
            && r.stopsDue == (if idle && !s.activity.NotStarted? then 1 else 0)
            && r.queue == s.queue && r.activity == s.activity && r.stopsPut == s.stopsPut == 0
            && !r.gate.open && r.gate.outstanding == s.gate.outstanding && r.gate.waiters == []
            && |r.gate.phase| == |s.gate.phase|
            && forall t :: 0 <= t < |s.gate.phase| ==>
                 r.gate.phase[t] == if s.gate.phase[t].Waiting? then Rejected else s.gate.phase[t]
  {
    hide Count;
    ShutInv(s.gate);
    hide Shut, Core;
  }

  // ----- the worker after a close -----

  function Rank(a: Activity): (n: nat) {
    match a
    case NotStarted => 0
    case Exited => 0
    case Stopping => 1
    case Idle => 1
    case Serving(_) => 2
  }

  /** A bound on the worker's steps once the writer is no longer open: its queue, its activity and the STOP to come. */
  function StepsLeft(s: Actor): (n: int) {
    3 * |s.queue| + Rank(s.activity) + 4 * (1 - s.stopsPut)
  }

  /** The steps that move the worker on, the put of STOP included. */
  predicate Own(a: Action) { a.Take? || a.Finish? || a.Exit? || a.PutStop? }

  ghost predicate Shutting(s: Actor) { WriterInv(s) && !s.life.Open? }

  lemma StepLeft(s: Actor, a: Action)
    requires Shutting(s) && Enabled(s, a)
    ensures Shutting(Next(s, a)) && StepsLeft(Next(s, a)) + (if Own(a) then 1 else 0) <= StepsLeft(s)
  {
    hide Count;
    StepInv(s, a);
    if a.PutStop? { RoomToStop(s); }
    hide WellFormed, Inv, Books, Cancel, Release, Shut;
  }

  ghost function OwnSteps(acts: seq<Action>): (n: nat) {
    if acts == [] then 0 else (if Own(acts[0]) then 1 else 0) + OwnSteps(acts[1..])
  }

  lemma {:induction false} RunLeft(s: Actor, acts: seq<Action>, r: Actor)
    requires Shutting(s) && Reaches(s, acts, r)
    ensures Shutting(r) && OwnSteps(acts) + StepsLeft(r) <= StepsLeft(s)
    decreases |acts|
  {
    if acts != [] {
      StepLeft(s, acts[0]);
      hide Shutting, Next, Enabled, StepsLeft;
      RunLeft(Next(s, acts[0]), acts[1..], r);
    }
  }

  lemma MovesOn(s: Actor)
    requires Shutting(s) && !s.life.Closed?
    requires s.gate.outstanding == 0 || s.queue != [] || s.activity.Serving?
    ensures Enabled(s, PutStop) || Enabled(s, Take) || Enabled(s, Finish) || Enabled(s, Exit)
  {
    hide Count;
    assert s.life.Closing?;
    if s.gate.outstanding == 0 { IdleMeansNoRequests(s); }
  }

  /**
   A close completes: from any reachable open writer and in every run after the request, the
   writer is closing or closed and never lets another submission in, its worker takes a bounded
   number of steps, one is possible while there is anything queued, running or nothing owned,
   and the writer is closed exactly when its worker has left or never was started.
   */
  lemma CloseCompletes(capacity: nat, maxWaiters: nat, before: seq<Action>, s: Actor, acts: seq<Action>, r: Actor)
    requires capacity >= 1 && Reaches(Initial(capacity, maxWaiters), before, s) && s.life.Open?
    requires Reaches(s, [RequestClose] + acts, r)
    ensures r.life.Closing? || r.life.Closed?
    ensures |r.gate.phase| == |s.gate.phase|
    ensures OwnSteps(acts) <= 3 * |s.queue| + Rank(s.activity) + 4
    ensures !r.life.Closed? && (r.gate.outstanding == 0 || r.queue != [] || r.activity.Serving?) ==>
              Enabled(r, PutStop) || Enabled(r, Take) || Enabled(r, Finish) || Enabled(r, Exit)
    ensures r.life.Closed? <==> r.activity.Exited? || r.activity.NotStarted?
  {
    hide Count, WriterInv, Next, Enabled;
    ReachableInv(capacity, maxWaiters, before, s);
    assert ([RequestClose] + acts)[0] == RequestClose && ([RequestClose] + acts)[1..] == acts;
    var m := Next(s, RequestClose);
    assert Enabled(s, RequestClose) && Reaches(m, acts, r);
    hide Reaches;
    CloseBegins(s);
    StepInv(s, RequestClose);
    RunLeft(m, acts, r);
    NobodyEnters(m, acts, r);
    if !r.life.Closed? && (r.gate.outstanding == 0 || r.queue != [] || r.activity.Serving?) { MovesOn(r); }
    ClosedIff(r);
  }

  lemma ClosedIff(s: Actor)
    requires Shutting(s)
    ensures s.life.Closed? <==> s.activity.Exited? || s.activity.NotStarted?
    ensures StepsLeft(s) >= 0
  {
    hide Count, Books, Inv;
  }

  lemma StepEnters(s: Actor, a: Action)
    requires Shutting(s) && Enabled(s, a)
    ensures |Next(s, a).gate.phase| == |s.gate.phase|
  {
    hide Count;
    if a.Withdraw? { CancelInv(s.gate, a.ticket); }
    if a.DeliverGrant? && s.gate.phase[a.ticket].Granted? { ReleaseInv(s.gate, a.ticket); }
    if a.Finish? { ReleaseInv(s.gate, s.activity.ticket); }
    hide Cancel, Release, Inv, Core;
  }

  lemma {:induction false} NobodyEnters(s: Actor, acts: seq<Action>, r: Actor)
    requires Shutting(s) && Reaches(s, acts, r)
    ensures |r.gate.phase| == |s.gate.phase|
    decreases |acts|
  {
    if acts != [] {
      StepLeft(s, acts[0]);
      StepEnters(s, acts[0]);
      hide Shutting, Next, Enabled;
      NobodyEnters(Next(s, acts[0]), acts[1..], r);
    }
  }

  // ----- the order of transactions -----

  function Tickets(q: seq<Item>): (r: seq<nat>) {
    if q == [] then []
    else Tickets(q[..|q| - 1]) + if q[|q| - 1].Req? then [q[|q| - 1].ticket] else []
  }

  lemma TicketsPut(q: seq<Item>, x: Item)
    ensures Tickets(q + [x]) == Tickets(q) + if x.Req? then [x.ticket] else []
  {
    assert (q + [x])[..|q|] == q;
  }

  lemma {:induction false} TicketsTail(q: seq<Item>)
    requires q != []
    ensures Tickets(q) == (if q[0].Req? then [q[0].ticket] else []) + Tickets(q[1..])
  {
    if |q| > 1 {
      var n := |q| - 1;
      TicketsTail(q[..n]);
      assert q[..n][1..] == q[1..][..n - 1] && q[..n][0] == q[0];
    }
  }

  /** Tickets dispatched into the open writer, in order. */
  ghost function Dispatched(s: Actor, acts: seq<Action>): (r: seq<nat>)
    decreases |acts|
  {
    if acts == [] || !Enabled(s, acts[0]) then []
    else DispatchedBy(s, acts[0]) + Dispatched(Next(s, acts[0]), acts[1..])
  }

  ghost function DispatchedBy(s: Actor, a: Action): (r: seq<nat>) {
    if a.Dispatch? && s.life.Open? then [a.ticket] else []
  }

  /** Tickets whose execution begins, in order. */
  ghost function Begun(s: Actor, acts: seq<Action>): (r: seq<nat>)
    decreases |acts|
  {
    if acts == [] || !Enabled(s, acts[0]) then [] else BegunBy(s, acts[0]) + Begun(Next(s, acts[0]), acts[1..])
  }

  /** The worker begins a request when it was idle before the step and serves it after. */
  ghost function BegunBy(s: Actor, a: Action): (r: seq<nat>)
    requires Enabled(s, a)
  {
    var n := Next(s, a);
    if !s.activity.Serving? && n.activity.Serving? then [n.activity.ticket] else []
  }

  lemma DispatchOrder(s: Actor, t: nat)
    requires WriterInv(s) && Enabled(s, Dispatch(t))
    ensures Tickets(Next(s, Dispatch(t)).queue) == Tickets(s.queue) + DispatchedBy(s, Dispatch(t))
    ensures Next(s, Dispatch(t)).activity == s.activity
  {
    hide Count, Tickets;
    DispatchInv(s, t);
    TicketsPut(s.queue, Req(t));
    hide Release, GiveBack, Inv, Books;
  }

  lemma TakeOrder(s: Actor)
    requires WriterInv(s) && Enabled(s, Take)
    ensures Tickets(s.queue) == BegunBy(s, Take) + Tickets(Next(s, Take).queue)
  {
    hide Count, Tickets;
    TicketsTail(s.queue);
    assert s.queue[0].Req? ==> s.queue[0].ticket < |s.gate.phase|;
    hide Inv, Books, Hand;
  }

  lemma OtherOrder(s: Actor, a: Action)
    requires WriterInv(s) && Enabled(s, a) && !a.Dispatch? && !a.Take?
    ensures Tickets(Next(s, a).queue) == Tickets(s.queue) && BegunBy(s, a) == [] && DispatchedBy(s, a) == []
  {
    hide Count, Tickets;
    TicketsPut(s.queue, StopToken);
    hide WriterInv, WellFormed, Arrive, Cancel, Release, Shut;
  }

  lemma StepOrder(s: Actor, a: Action)
    requires WriterInv(s) && Enabled(s, a)
    ensures Tickets(s.queue) + DispatchedBy(s, a) == BegunBy(s, a) + Tickets(Next(s, a).queue)
  {
    hide Tickets;
    EmptyIsUnit(Tickets(s.queue));
    if a.Dispatch? {
      DispatchOrder(s, a.ticket);
      hide Next, Enabled;
      EmptyIsUnit(Tickets(Next(s, a).queue));
    } else if a.Take? {
      TakeOrder(s);
      hide Next, Enabled;
    } else {
      OtherOrder(s, a);
      hide Next, Enabled;
    }
  }

  /** In every run transactions begin in the order in which they were dispatched. */
  lemma {:induction false} RunsInOrder(s: Actor, acts: seq<Action>, r: Actor)
    requires WriterInv(s) && Reaches(s, acts, r)
    ensures Tickets(s.queue) + Dispatched(s, acts) == Begun(s, acts) + Tickets(r.queue)
    decreases |acts|
  {
    if acts == [] {
      EmptyIsUnit(Tickets(s.queue));
    } else {
      var a, m := acts[0], Next(s, acts[0]);
      StepOrder(s, a);
      StepInv(s, a);
      hide WriterInv, Next, Enabled, Tickets, DispatchedBy, BegunBy;
      RunsInOrder(m, acts[1..], r);
      Rearranged(Tickets(s.queue), DispatchedBy(s, a), BegunBy(s, a), Tickets(m.queue),
                 Dispatched(m, acts[1..]), Begun(m, acts[1..]), Tickets(r.queue));
    }
  }

  /** From the start: what has begun is a prefix of what was dispatched, and the rest is queued. */
  lemma FirstInFirstOut(capacity: nat, maxWaiters: nat, acts: seq<Action>, s: Actor)
    requires capacity >= 1 && Reaches(Initial(capacity, maxWaiters), acts, s)
    ensures Dispatched(Initial(capacity, maxWaiters), acts) == Begun(Initial(capacity, maxWaiters), acts) + Tickets(s.queue)
  {
    var i := Initial(capacity, maxWaiters);
    ReachableInv(capacity, maxWaiters, [], i);
    hide WriterInv;
    RunsInOrder(i, acts, s);
    EmptyIsUnit(Dispatched(i, acts));
    assert Tickets(i.queue) == [];
  }

  // ----- where a submission goes -----

  /** Only `t` moves, except that waiting submissions behind a returned slot may be granted one. */
  ghost predicate OnlyMoved(g: Gate, h: Gate, t: nat, p: Phase) {
    && |h.phase| == |g.phase| && t < |h.phase| && h.phase[t] == p
    && forall s :: 0 <= s < |g.phase| && s != t ==> h.phase[s] == g.phase[s] || (g.phase[s].Waiting? && h.phase[s].Granted?)
  }

  /** An accepted request goes behind the queue, a refused one gives its slot back; nobody else is touched. */
  lemma DispatchIs(s: Actor, t: nat)
    requires WriterInv(s) && Enabled(s, Dispatch(t))
    ensures var r := Next(s, Dispatch(t));
            if s.life.Open? then r == s.(queue := s.queue + [Req(t)], gate := r.gate) && r.gate == s.gate.(phase := s.gate.phase[t := Queued(0)])
            else
              && r.queue == s.queue && r.activity == s.activity && r.life == s.life
              && r.gate.phase == s.gate.phase[t := Returned] && r.gate.outstanding == s.gate.outstanding - 1
  {
    hide Count;
    DispatchInv(s, t);
    hide Inv, Books, Release;
  }

  /** A grant is consumed, withdrawn, or taken back from a settled future; a withdrawn waiter just leaves. */
  lemma CallerIs(s: Actor, a: Action)
    requires WriterInv(s) && Enabled(s, a) && (a.Consume? || a.Withdraw? || a.DeliverGrant?)
    ensures var r, p := Next(s, a), s.gate.phase[a.ticket];
            && r.queue == s.queue && r.activity == s.activity && r.life == s.life
            && (a.Consume? ==> OnlyMoved(s.gate, r.gate, a.ticket, Held) && r.gate.outstanding == s.gate.outstanding)
            && (a.Withdraw? ==>
                  OnlyMoved(s.gate, r.gate, a.ticket, if p.Waiting? then Cancelled else if p.Granted? then Returned else p))
            && (a.DeliverGrant? && p.Granted? && a.settled ==> OnlyMoved(s.gate, r.gate, a.ticket, Returned))
            && (a.DeliverGrant? && !(p.Granted? && a.settled) ==> r == s)
  {
    hide Count;
    if a.Withdraw? { CancelInv(s.gate, a.ticket); }
    if a.DeliverGrant? && s.gate.phase[a.ticket].Granted? { ReleaseInv(s.gate, a.ticket); }
    hide Cancel, Release, Inv, Core, Books, LifeOk;
  }

  /** The worker serves the front of the queue and gives the slot back when it is through; at STOP it leaves and the writer is closed. */
  lemma WorkerIs(s: Actor, a: Action)
    requires WriterInv(s) && Enabled(s, a) && (a.Take? || a.Finish? || a.Exit? || a.PutStop?)
    ensures var r := Next(s, a);
            && (a.Take? ==>
                  && s.queue == [s.queue[0]] + r.queue && r.life == s.life
                  && (s.queue[0].Req? ==> r.activity == Serving(s.queue[0].ticket) && OnlyMoved(s.gate, r.gate, s.queue[0].ticket, Running(0)))
                  && (s.queue[0].StopToken? ==> r.activity == Stopping && r.gate == s.gate))
            && (a.Finish? ==> r.activity == Idle && r.queue == s.queue && OnlyMoved(s.gate, r.gate, s.activity.ticket, Returned))
            && (a.Exit? ==> r.activity == Exited && r.life == Closed && r.queue == s.queue)
            && (a.PutStop? ==> r.queue == [StopToken] && s.queue == [] && r.activity == s.activity && r.stopsDue == s.stopsDue - 1)
  {
    hide Count;
    if a.Finish? { ReleaseInv(s.gate, s.activity.ticket); }
    if a.PutStop? { RoomToStop(s); assert [] + [StopToken] == [StopToken]; }
    if a.Take? { assert s.queue[0].Req? ==> s.queue[0].ticket < |s.gate.phase|; }
    hide Release, Inv, Core, Books;
  }

  /** A submission enters an open writer, which starts its worker with the first; a thread that cannot start closes it. */
  lemma SubmitIs(s: Actor, threadStarts: bool)
    requires WriterInv(s) && s.life.Open? && (threadStarts || s.activity.NotStarted?)
    ensures Enabled(s, Submit(threadStarts))
    ensures var r := Next(s, Submit(threadStarts));
            && r.queue == s.queue
            && (threadStarts ==>
                  && r.life.Open? && r.activity == (if s.activity.NotStarted? then Idle else s.activity)
                  && var n := |s.gate.phase|;
                     if s.gate.outstanding < s.gate.capacity then |r.gate.phase| == n + 1 && r.gate.phase[n] == Held
                     else if Count(s.gate.phase, IsWaiting) < s.gate.maxWaiters then |r.gate.phase| == n + 1 && r.gate.phase[n] == Waiting
                     else r.gate.phase == s.gate.phase)
            && (!threadStarts ==> r.life.Closed? && r.gate == s.gate.(open := false) && r.activity.NotStarted?)
  {
    hide Count;
    ArriveInv(s.gate);
    hide Arrive, Inv, Core, Books;
  }
}
