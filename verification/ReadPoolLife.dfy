/**
 What a pause, a resume and a close lead to.  Once admission is shut, every worker has a
 bounded number of steps left; a pause ends with every worker acknowledged and the pool
 paused, from where it reopens empty, and a close ends with every worker stopped.
 */
module ReadPoolLife {
  import opened Seqs
  import opened Admission
  import opened ReadPool

  // ----- what the requests do at once -----

  /** Exactly the waiting submissions are turned away; slots stay where they are. */
  ghost predicate WaitersRejected(g: Gate, h: Gate) {
    && |h.phase| == |g.phase| && h.outstanding == g.outstanding && h.waiters == [] && !h.open
    && forall t :: 0 <= t < |g.phase| ==> h.phase[t] == if g.phase[t].Waiting? then Rejected else g.phase[t]
  }

  /** Every worker has `x` behind what it had, or is as it was. */
  ghost predicate Told(a: seq<Worker>, b: seq<Worker>, x: Item, told: bool) {
    && |b| == |a|
    && forall w :: 0 <= w < |a| ==> b[w] == if told then a[w].(queue := a[w].queue + [x]) else a[w]
  }

  /** A pause shuts admission and, if nothing is owned, sends PAUSE to every worker. */
  lemma PauseBegins(s: Pool)
    requires PoolInv(s) && s.life.Open?
    ensures Enabled(s, RequestPause)
    ensures var r := Next(s, RequestPause);
            && r.life.Pausing? && WaitersRejected(s.gate, r.gate)
            && r.pauseEnqueued == (s.gate.outstanding == 0)
            && Told(s.workers, r.workers, PauseToken, s.gate.outstanding == 0)
  {
    hide Count;
    ShutInv(s.gate);
    hide Shut, Core, Inv;
  }

  /** A close shuts admission for good and, if nothing is owned, sends STOP to every worker. */
  lemma CloseBegins(s: Pool)
    requires PoolInv(s) && Enabled(s, RequestClose)
    ensures var r := Next(s, RequestClose);
            if s.life.New? then r == s.(life := Closed, gate := s.gate.(open := false))
            else
              && r.life.Closing? && WaitersRejected(s.gate, r.gate)
              && r.stopEnqueued == (s.stopEnqueued || s.gate.outstanding == 0)
              && Told(s.workers, r.workers, StopToken, s.gate.outstanding == 0 && !s.stopEnqueued)
  {
    hide Count;
    ShutInv(s.gate);
    hide Shut, Core, Inv;
  }

  // ----- work left while admission is shut -----

  /** A submission that has a slot and may still be dispatched. */
  predicate Undispatched(p: Phase) { p.Granted? || p.Held? }

  /** A bound on the steps a worker has left: its queue, its activity, tokens and requests that may still be put. */
  ghost function StepsLeft(s: Pool, w: nat): (n: nat)
    requires w < |s.workers|
  {
    4 * |s.workers[w].queue| + Rank(s.workers[w].activity)
    + (if s.pauseEnqueued then 0 else 4) + (if s.stopEnqueued then 0 else 4) + 4 * Count(s.gate.phase, Undispatched)
  }

  /** Admission is shut and start() is over. */
  ghost predicate Shutting(s: Pool) {
    PoolInv(s) && !s.gate.open && !s.starter && !s.life.New?
  }

  ghost predicate LeftLess(s: Pool, a: Action, r: Pool, w: nat)
    requires w < |s.workers|
  {
    |r.workers| == |s.workers| && StepsLeft(r, w) + (if Own(a, w) then 1 else 0) <= StepsLeft(s, w)
  }

  lemma AdvanceLeft(s: Pool, w: nat)
    requires w < |s.workers|
    ensures StepsLeft(Advance(s), w) == StepsLeft(s, w)
  {
    hide Count;
  }

  lemma ReturnLeft(s: Pool, t: nat, w: nat)
    requires w < |s.workers| && Core(s.gate) && !s.gate.open && t < |s.gate.phase| && Owns(s.gate.phase[t])
    ensures WellFormed(s.gate) && StepsLeft(ReturnSlot(s, t), w) <= StepsLeft(s, w)
  {
    hide Count;
    ReleaseInv(s.gate, t);
    assert Release(s.gate, t).phase == s.gate.phase[t := Returned];
    CountUpdate(s.gate.phase, t, Returned, Undispatched);
    hide Release, Core, Inv;
    AdvanceLeft(s.(gate := Release(s.gate, t)), w);
  }

  lemma PhaseLeft(s: Pool, t: nat, p: Phase, w: nat)
    requires w < |s.workers| && t < |s.gate.phase|
    ensures StepsLeft(s.(gate := s.gate.(phase := s.gate.phase[t := p])), w)
            == StepsLeft(s, w) - (if Undispatched(s.gate.phase[t]) then 4 else 0) + (if Undispatched(p) then 4 else 0)
  {
    hide Count;
    CountUpdate(s.gate.phase, t, p, Undispatched);
  }

  /** One worker moves on; which submissions may still be dispatched does not change. */
  lemma AloneLeft(s: Pool, a: Action, r: Pool, v: nat, w: nat)
    requires v < |s.workers| == |r.workers| && w < |s.workers| && r.workers == s.workers[v := r.workers[v]]
    requires r.pauseEnqueued == s.pauseEnqueued && r.stopEnqueued == s.stopEnqueued && (Own(a, w) ==> w == v)
    requires Count(r.gate.phase, Undispatched) == Count(s.gate.phase, Undispatched)
    requires 4 * |r.workers[v].queue| + Rank(r.workers[v].activity) + (if Own(a, v) then 1 else 0)
             <= 4 * |s.workers[v].queue| + Rank(s.workers[v].activity)
    ensures LeftLess(s, a, r, w)
  {
    hide Count;
  }

  lemma TakeStepLeft(s: Pool, v: nat, w: nat)
    requires PoolInv(s) && Enabled(s, Take(v)) && w < |s.workers|
    ensures LeftLess(s, Take(v), TakeStep(s, v), w)
  {
    hide Count;
    var r, x := TakeStep(s, v), s.workers[v].queue[0];
    assert WorkerOk(FlagsOf(s), s.gate.phase, v, s.workers[v]);
    if x.Req? { CountUpdate(s.gate.phase, x.ticket, Running(v), Undispatched); }
    assert r.workers == s.workers[v := r.workers[v]];
    TakeLeft(s, v);
    assert Count(r.gate.phase, Undispatched) == Count(s.gate.phase, Undispatched);
    hide PoolInv, TakeStep;
    AloneLeft(s, Take(v), r, v, w);
  }

  lemma FinishStepLeft(s: Pool, a: Action, w: nat)
    requires Shutting(s) && Enabled(s, a) && (a.Finish? || a.FailRelease?) && w < |s.workers|
    ensures LeftLess(s, a, Next(s, a), w)
  {
    hide Count;
    var v := a.worker;
    var t, p := s.workers[v].activity.ticket, SetActivity(s, v, if a.Finish? then Idle else Draining);
    assert WorkerOk(FlagsOf(s), s.gate.phase, v, s.workers[v]);
    AloneLeft(s, a, p, v, w);
    ReturnLeft(p, t, w);
    hide ReturnSlot, PoolInv, StepsLeft;
  }

  lemma DrainStepLeft(s: Pool, v: nat, w: nat)
    requires Shutting(s) && Enabled(s, Drain(v)) && w < |s.workers|
    ensures LeftLess(s, Drain(v), DrainStep(s, v), w)
  {
    hide Count;
    var x, p := s.workers[v].queue[0], SetWorker(s, v, s.workers[v].(queue := s.workers[v].queue[1..]));
    assert WorkerOk(FlagsOf(s), s.gate.phase, v, s.workers[v]);
    AloneLeft(s, Drain(v), p, v, w);
    if x.Req? { ReturnLeft(p, x.ticket, w); }
    hide ReturnSlot, PoolInv, StepsLeft;
  }

  lemma ShutKeepsUndispatched(g: Gate)
    requires Core(g)
    ensures Count(Shut(g).phase, Undispatched) == Count(g.phase, Undispatched)
  {
    hide Count;
    ShutInv(g);
    hide Shut, Core, Inv;
    CountSame(g.phase, Shut(g).phase, Undispatched);
  }

  lemma FailStepLeft(s: Pool, v: nat, w: nat)
    requires PoolInv(s) && Enabled(s, Fail(v)) && w < |s.workers|
    ensures LeftLess(s, Fail(v), FailStep(s, v), w)
  {
    hide Count;
    ShutKeepsUndispatched(s.gate);
    hide Shut, Core, Inv, ActorInv;
    var r := FailStep(s, v);
    assert r.workers[v].activity == AfterFailure(s.workers[v].activity) && r.workers[v].queue == s.workers[v].queue;
    if w != v {
      assert r.workers[w].activity == s.workers[w].activity;
      assert |r.workers[w].queue| == |s.workers[w].queue| + if s.fatal || s.stopEnqueued then 0 else 1;
    }
    assert Count(r.gate.phase, Undispatched) == Count(s.gate.phase, Undispatched);
    assert r.pauseEnqueued == s.pauseEnqueued && (r.stopEnqueued == s.stopEnqueued || (!s.fatal && r.stopEnqueued));
    hide FailStep;
  }

  lemma TokenStepLeft(s: Pool, a: Action, w: nat)
    requires Enabled(s, a) && w < |s.workers| && (a.Connect? || a.Disconnect? || a.PauseClose? || a.DrainDone?)
    ensures LeftLess(s, a, Next(s, a), w)
  {
    hide Count, WellFormed, ReturnSlot, FailStep, TakeStep, DrainStep, AckStep, ExitStep;
    var r, v := Next(s, a), a.worker;
    assert r.workers == s.workers[v := r.workers[v]] && r.gate.phase == s.gate.phase;
    hide LeftLess;
    AloneLeft(s, a, r, v, w);
  }

  lemma AckStepLeft(s: Pool, v: nat, w: nat)
    requires v < |s.workers| && s.workers[v].activity.PauseClosed? && w < |s.workers|
    ensures LeftLess(s, PauseAck(v), AckStep(s, v), w)
  {
    hide Count, LeftLess;
    AloneLeft(s, PauseAck(v), AckStep(s, v), v, w);
  }

  lemma ExitDoes(s: Pool, v: nat)
    requires v < |s.workers|
    ensures var r := ExitStep(s, v);
            && |r.workers| == |s.workers| && r.workers == s.workers[v := r.workers[v]] && r.gate.phase == s.gate.phase
            && r.workers[v].activity.Stopped? && r.workers[v].queue == s.workers[v].queue
            && r.pauseEnqueued == s.pauseEnqueued && r.stopEnqueued == s.stopEnqueued
  {
  }

  lemma ExitStepLeft(s: Pool, v: nat, w: nat)
    requires v < |s.workers| && s.workers[v].activity.Exiting? && w < |s.workers|
    ensures LeftLess(s, Exit(v), ExitStep(s, v), w)
  {
    hide Count, LeftLess;
    ExitDoes(s, v);
    hide ExitStep;
    AloneLeft(s, Exit(v), ExitStep(s, v), v, w);
  }

  lemma WorkerStepLeft(s: Pool, a: Action, w: nat)
    requires Shutting(s) && Enabled(s, a) && OfWorker(a) && w < |s.workers|
    ensures LeftLess(s, a, Next(s, a), w)
  {
    hide Count;
    hide LeftLess;
    match a {
      case Take(v) => TakeStepLeft(s, v, w);
      case Finish(_) => FinishStepLeft(s, a, w);
      case FailRelease(_) => FinishStepLeft(s, a, w);
      case Drain(v) => DrainStepLeft(s, v, w);
      case Fail(v) => FailStepLeft(s, v, w);
      case PauseAck(v) => AckStepLeft(s, v, w);
      case Exit(v) => ExitStepLeft(s, v, w);
      case _ => TokenStepLeft(s, a, w);
    }
  }

  lemma WithdrawLeft(s: Pool, t: nat, w: nat)
    requires Shutting(s) && Enabled(s, Withdraw(t)) && w < |s.workers|
    ensures LeftLess(s, Withdraw(t), Next(s, Withdraw(t)), w)
  {
    hide Count;
    CancelInv(s.gate, t);
    var g := Cancel(s.gate, t);
    assert g.phase == s.gate.phase[t := g.phase[t]];
    CountUpdate(s.gate.phase, t, g.phase[t], Undispatched);
    hide Cancel, Core, Inv;
    AdvanceLeft(s.(gate := g), w);
    hide Advance;
  }

  lemma DispatchLeft(s: Pool, t: nat, w: nat)
    requires Shutting(s) && Enabled(s, Dispatch(t)) && w < |s.workers|
    ensures LeftLess(s, Dispatch(t), Next(s, Dispatch(t)), w)
  {
    hide Count;
    CountUpdate(s.gate.phase, t, Returned, Undispatched);
    CountUpdate(s.gate.phase, t, Queued(s.next), Undispatched);
    hide PoolInv;
    if s.fatal || s.life.Closed? { AdvanceLeft(s.(gate := GiveBack(s.gate, t)), w); }
    hide Advance;
  }

  /** Once admission is shut no step gives a worker more to do, and its own steps leave it less. */
  lemma StepLeft(s: Pool, a: Action, w: nat)
    requires Shutting(s) && Enabled(s, a) && !a.Resume? && w < |s.workers|
    ensures LeftLess(s, a, Next(s, a), w)
  {
    hide Count;
    if OfWorker(a) {
      WorkerStepLeft(s, a, w);
    } else {
      match a
      case Consume(t) => PhaseLeft(s, t, Held, w);
      case Withdraw(t) => WithdrawLeft(s, t, w);
      case DeliverGrant(t, settled) => if s.gate.phase[t].Granted? && settled { ReturnLeft(s, t, w); }
      case Dispatch(t) => DispatchLeft(s, t, w);
      case RequestClose => ShutKeepsUndispatched(s.gate); AdvanceLeft(ShutTo(s, Closing), w);
      case _ =>
    }
    hide WellFormed, Books, Core, Inv, Arrive, Cancel, Shut, Advance, ReturnSlot, Push, StepsLeft;
  }

  lemma ShuttingStep(s: Pool, a: Action)
    requires Shutting(s) && Enabled(s, a) && !a.Resume?
    ensures Shutting(Next(s, a))
  {
    hide Count;
    assert Undisturbed(s, a);
    StepInv(s, a);
    NeverRestarted(s, a);
    StaysShut(s, a);
    hide Next, Enabled, GateOk, Books;
  }

  lemma StaysShut(s: Pool, a: Action)
    requires Shutting(s) && Enabled(s, a) && !a.Resume?
    ensures !Next(s, a).life.Open?
  {
    hide Count, Books, GateOk;
    hide WellFormed, Arrive, Cancel, Shut, Advance, ReturnSlot, DispatchStep, TakeStep, DrainStep;
  }

  /** Over any run that does not resume the pool, a worker's own steps are bounded. */
  lemma {:induction false} RunLeft(s: Pool, acts: seq<Action>, r: Pool, w: nat)
    requires Shutting(s) && w < |s.workers| && Reaches(s, acts, r)
    requires forall i :: 0 <= i < |acts| ==> !acts[i].Resume?
    ensures Shutting(r) && |r.workers| == |s.workers| && OwnSteps(acts, w) + StepsLeft(r, w) <= StepsLeft(s, w)
    decreases |acts|
  {
    hide Count;
    if acts != [] {
      assert !acts[0].Resume?;
      ShuttingStep(s, acts[0]);
      StepLeft(s, acts[0], w);
      hide Shutting, Next, Enabled, StepsLeft;
      RunLeft(Next(s, acts[0]), acts[1..], r, w);
    }
  }

  // ----- a pause runs its course -----

  /** Nothing but the pause happens to the pool: no close, no worker failure, no resume yet. */
  predicate Calm(a: Action) { !a.RequestClose? && !a.Fail? && !a.Resume? }

  /** A worker that PAUSE has reached: it is in its queue, in its hands, or acknowledged. */
  predicate Reached(wk: Worker) {
    PauseToken in wk.queue || wk.activity.PauseTaken? || wk.activity.PauseClosed? || wk.acked
  }

  ghost predicate AllReached(s: Pool) {
    s.pauseEnqueued ==> forall w :: 0 <= w < |s.workers| ==> Reached(s.workers[w])
  }

  ghost predicate Winding(s: Pool) {
    && Shutting(s) && !s.fatal && AllReached(s)
    && (s.life.Paused? || (s.life.Pausing? && s.pauseAcks < |s.workers|))
  }

  lemma WindingBegins(s: Pool)
    requires PoolInv(s) && s.life.Open? && !s.fatal
    ensures Enabled(s, RequestPause) && Winding(Next(s, RequestPause))
  {
    hide Count;
    PauseBegins(s);
    StepInv(s, RequestPause);
    var r := Next(s, RequestPause);
    hide Next, Enabled;
    forall w | 0 <= w < |s.workers| ensures !IsAcked(r.workers[w]) {
      assert WorkerOk(FlagsOf(s), s.gate.phase, w, s.workers[w]);
    }
    CountZero(r.workers, IsAcked);
    forall w | 0 <= w < |r.workers| && r.pauseEnqueued ensures Reached(r.workers[w]) {
      var q := s.workers[w].queue;
      assert r.workers[w].queue[|q|] == PauseToken;
    }
  }

  /** While a pause winds down, no worker fails, stops or leaves. */
  lemma NobodyLeaves(s: Pool, a: Action)
    requires Winding(s) && Enabled(s, a) && Calm(a)
    ensures a.Consume? || a.Withdraw? || a.DeliverGrant? || a.Dispatch?
            || a.Take? || a.Connect? || a.Disconnect? || a.Finish? || a.PauseClose? || a.PauseAck?
    ensures a.Take? ==> !s.workers[a.worker].queue[0].StopToken?
  {
    hide Count, GateOk;
    if a.FailRelease? || a.Drain? || a.DrainDone? || a.Exit? || a.Take? {
      assert WorkerOk(FlagsOf(s), s.gate.phase, a.worker, s.workers[a.worker]);
      if a.Take? { HeadIn(s.workers[a.worker].queue); }
    }
  }

  lemma AdvanceReaches(s: Pool)
    requires AllReached(s)
    ensures AllReached(Advance(s))
  {
    hide Count;
    var r := Advance(s);
    if r.pauseEnqueued && !s.pauseEnqueued {
      forall w | 0 <= w < |r.workers| ensures Reached(r.workers[w]) {
        assert r.workers[w].queue[|s.workers[w].queue|] == PauseToken;
      }
    } else if r.workers != s.workers {
      forall w | 0 <= w < |r.workers| && r.pauseEnqueued ensures Reached(r.workers[w]) {
        MoreIsIn(s.workers[w].queue, StopToken, PauseToken);
      }
    }
  }

  lemma MoreIsIn(q: seq<Item>, x: Item, y: Item)
    ensures y in q ==> y in q + [x]
  {
  }

  lemma OneReached(s: Pool, r: Pool, v: nat)
    requires AllReached(s) && v < |s.workers| == |r.workers| && r.workers == s.workers[v := r.workers[v]]
    requires r.pauseEnqueued == s.pauseEnqueued && (Reached(s.workers[v]) ==> Reached(r.workers[v]))
    ensures AllReached(r)
  {
  }

  lemma TakeReached(s: Pool, v: nat)
    requires AllReached(s) && Enabled(s, Take(v)) && !s.workers[v].queue[0].StopToken?
    ensures AllReached(TakeStep(s, v))
  {
    hide Count, WellFormed;
    var q, r := s.workers[v].queue, TakeStep(s, v);
    assert |r.workers| == |s.workers| && r.workers == s.workers[v := r.workers[v]] && r.pauseEnqueued == s.pauseEnqueued;
    assert r.workers[v].queue == q[1..] && r.workers[v].acked == s.workers[v].acked && s.workers[v].activity.Idle?;
    assert q[0].PauseToken? ==> r.workers[v].activity.PauseTaken?;
    hide TakeStep, Enabled, AllReached;
    if PauseToken in q && q[0] != PauseToken {
      var i :| 0 <= i < |q| && q[i] == PauseToken;
      assert q[1..][i - 1] == PauseToken;
    }
    OneReached(s, r, v);
  }

  lemma StepReached(s: Pool, a: Action)
    requires Winding(s) && Enabled(s, a) && Calm(a)
    ensures AllReached(Next(s, a))
  {
    hide Count;
    NobodyLeaves(s, a);
    assert AllReached(s) && !s.fatal && !s.life.Closed?;
    hide Winding, WellFormed;
    match a {
      case Take(v) => TakeReached(s, v); hide TakeStep;
      case Withdraw(t) => AdvanceReaches(s.(gate := Cancel(s.gate, t))); hide Cancel, Advance;
      case DeliverGrant(t, _) => AdvanceReaches(s.(gate := Release(s.gate, t))); hide Release, Advance;
      case Dispatch(t) =>
        MoreIsIn(s.workers[s.next].queue, Req(t), PauseToken);
        OneReached(s, Next(s, a), s.next);
      case Finish(v) =>
        var t, p := s.workers[v].activity.ticket, SetActivity(s, v, Idle);
        OneReached(s, p, v);
        AdvanceReaches(p.(gate := Release(p.gate, t)));
        hide Release, Advance, AllReached;
      case PauseAck(v) => OneReached(s, Next(s, a), v);
      case PauseClose(v) => OneReached(s, Next(s, a), v);
      case Connect(v) => OneReached(s, Next(s, a), v);
      case Disconnect(v) => OneReached(s, Next(s, a), v);
      case _ =>
    }
  }

  lemma CalmLife(s: Pool, a: Action)
    requires Winding(s) && Enabled(s, a) && Calm(a)
    ensures var r := Next(s, a);
            && !r.fatal && |r.workers| == |s.workers|
            && (s.life.Paused? ==> r.life.Paused?)
            && (s.life.Pausing? ==> r.life.Paused? || (r.life.Pausing? && r.pauseAcks < |r.workers|))
  {
    hide Count;
    NobodyLeaves(s, a);
    hide Shutting, AllReached, WellFormed, Cancel, Release, Push, TakeStep, FailStep, DrainStep, ExitStep;
  }

  lemma WindingStep(s: Pool, a: Action)
    requires Winding(s) && Enabled(s, a) && Calm(a)
    ensures Winding(Next(s, a))
  {
    ShuttingStep(s, a);
    StepReached(s, a);
    CalmLife(s, a);
    hide Shutting, AllReached, Next, Enabled;
  }

  lemma {:induction false} WindingRun(s: Pool, acts: seq<Action>, r: Pool)
    requires Winding(s) && Reaches(s, acts, r) && forall i :: 0 <= i < |acts| ==> Calm(acts[i])
    ensures Winding(r)
    decreases |acts|
  {
    if acts != [] {
      WindingStep(s, acts[0]);
      hide Winding, Next, Enabled;
      WindingRun(Next(s, acts[0]), acts[1..], r);
    }
  }

  /** A worker that has not acknowledged can move on, unless it has nothing and must wait for slots still owned. */
  lemma WorkerMovesOn(s: Pool, w: nat)
    requires Winding(s) && w < |s.workers| && !s.workers[w].acked
    requires s.gate.outstanding == 0 || s.workers[w].queue != [] || !s.workers[w].activity.Idle?
    ensures Enabled(s, OwnStep(s, w)) && Own(OwnStep(s, w), w)
  {
    hide Count;
    assert WorkerOk(FlagsOf(s), s.gate.phase, w, s.workers[w]);
    if s.life.Paused? { CountAll(s.workers, IsAcked); }
    if s.gate.outstanding == 0 { assert s.life.Pausing? ==> Reached(s.workers[w]); }
    hide GateOk;
  }

  lemma PausedIffAcked(s: Pool)
    requires Winding(s)
    ensures s.life.Paused? <==> forall w :: 0 <= w < |s.workers| ==> s.workers[w].acked
  {
    hide Count, GateOk, Books;
    CountAll(s.workers, IsAcked);
  }

  lemma PauseLeft(s: Pool, w: nat)
    requires PoolInv(s) && s.life.Open? && !s.fatal && w < |s.workers| && Enabled(s, RequestPause)
    ensures var r := Next(s, RequestPause);
            w < |r.workers| && StepsLeft(r, w) <= 4 * |s.workers[w].queue| + Rank(s.workers[w].activity) + 8
                                                  + 4 * Count(s.gate.phase, Undispatched)
  {
    hide Count;
    ShutKeepsUndispatched(s.gate);
    AdvanceLeft(ShutTo(s, Pausing), w);
    hide Shut, Core, Inv, Advance, Books;
  }

  /**
   A pause completes: from any reachable open pool without a failure, and in every run after
   the request without a close, a failure or a resume, the pool is pausing or paused, each
   worker takes a bounded number of steps and can take one while it has something to do, and
   the pool is paused exactly when every worker has acknowledged. Then it is quiet.
   */
  lemma PauseCompletes(n: nat, capacity: nat, maxWaiters: nat, before: seq<Action>, s: Pool, acts: seq<Action>, r: Pool, w: nat)
    requires n >= 1 && Reaches(Initial(n, capacity, maxWaiters), before, s) && s.life.Open? && !s.fatal && w < |s.workers|
    requires Reaches(s, [RequestPause] + acts, r) && forall i :: 0 <= i < |acts| ==> Calm(acts[i])
    ensures r.life.Pausing? || r.life.Paused?
    ensures |r.workers| == |s.workers|
    ensures OwnSteps(acts, w) <= 4 * |s.workers[w].queue| + Rank(s.workers[w].activity) + 8 + 4 * Count(s.gate.phase, Undispatched)
    ensures !r.workers[w].acked && (r.gate.outstanding == 0 || r.workers[w].queue != [] || !r.workers[w].activity.Idle?) ==>
              Enabled(r, OwnStep(r, w)) && Own(OwnStep(r, w), w)
    ensures r.life.Paused? <==> forall v :: 0 <= v < |r.workers| ==> r.workers[v].acked
    ensures r.life.Paused? ==> Quiet(r)
  {
    hide Count, PoolInv, Next, Enabled, StepsLeft;
    ReachableInv(n, capacity, maxWaiters, before, s);
    assert ([RequestPause] + acts)[0] == RequestPause && ([RequestPause] + acts)[1..] == acts;
    var m := Next(s, RequestPause);
    assert Reaches(m, acts, r);
    hide Reaches;
    WindingBegins(s);
    PauseLeft(s, w);
    assert forall i :: 0 <= i < |acts| ==> !acts[i].Resume?;
    RunLeft(m, acts, r, w);
    WindingRun(m, acts, r);
    PausedIffAcked(r);
    if !r.workers[w].acked && (r.gate.outstanding == 0 || r.workers[w].queue != [] || !r.workers[w].activity.Idle?) {
      WorkerMovesOn(r, w);
    }
    TokensFollow(r);
    PauseKeepsCount(s);
  }

  lemma PauseKeepsCount(s: Pool)
    requires PoolInv(s) && s.life.Open?
    ensures Enabled(s, RequestPause) && |Next(s, RequestPause).workers| == |s.workers|
  {
    PauseBegins(s);
    hide Next, Enabled, PoolInv;
  }

  lemma ReachableInv(n: nat, capacity: nat, maxWaiters: nat, acts: seq<Action>, s: Pool)
    requires n >= 1 && Reaches(Initial(n, capacity, maxWaiters), acts, s)
    ensures PoolInv(s)
  {
    hide PoolInv, Reaches;
    InitialInv(n, capacity, maxWaiters);
    RunInv(Initial(n, capacity, maxWaiters), acts, s);
  }

  // ----- and back -----

  /** Resuming gives an open pool in which nothing is pending: every worker idle, unacknowledged, its queue empty. */
  lemma ResumeReopens(s: Pool)
    requires PoolInv(s) && s.life.Paused?
    ensures Enabled(s, Resume)
    ensures var r := Next(s, Resume);
            && r.life.Open? && r.gate == s.gate.(open := true) && r.gate.outstanding == 0
            && !r.pauseEnqueued && r.pauseAcks == 0 && |r.workers| == |s.workers|
            && forall w :: 0 <= w < |r.workers| ==> r.workers[w] == Worker([], false, Idle, false)
  {
    hide Count;
    TokensFollow(s);
    CountAll(s.workers, IsAcked);
    forall w | 0 <= w < |s.workers| ensures s.workers[w] == Worker([], false, Idle, true) {
      assert WorkerOk(FlagsOf(s), s.gate.phase, w, s.workers[w]);
    }
    hide GateOk, Books;
  }

  /** The next submission is admitted at once, and its request is alone in the queue it is dispatched to. */
  lemma ResumedServes(s: Pool)
    requires PoolInv(s) && s.life.Paused? && s.gate.capacity >= 1
    ensures Enabled(s, Resume) && Enabled(Next(s, Resume), Submit)
    ensures var r := Next(s, Resume); var t, y := |r.gate.phase|, Next(r, Submit);
            && y.gate.phase == r.gate.phase + [Held] && y.gate.outstanding == 1
            && Enabled(y, Dispatch(t)) && Next(y, Dispatch(t)).workers[r.next].queue == [Req(t)]
  {
    hide Count;
    ResumeReopens(s);
    var r := Next(s, Resume);
    StepInv(s, Resume);
    hide Next;
    SubmitAlone(r);
  }

  lemma SubmitAlone(r: Pool)
    requires PoolInv(r) && r.life.Open? && r.gate.open && r.gate.outstanding == 0 && r.gate.capacity >= 1 && !r.fatal
    requires forall w :: 0 <= w < |r.workers| ==> r.workers[w] == Worker([], false, Idle, false)
    ensures Enabled(r, Submit)
    ensures var t, y := |r.gate.phase|, Next(r, Submit);
            && y.gate.phase == r.gate.phase + [Held] && y.gate.outstanding == 1
            && Enabled(y, Dispatch(t)) && Next(y, Dispatch(t)).workers[r.next].queue == [Req(t)]
  {
    hide Count;
    ArriveInv(r.gate);
    assert Ready(r);
    OneMore(r);
    var y := Next(r, Submit);
    assert y.gate.phase == r.gate.phase + [Held];
    hide PoolInv, Inv, Arrive, Ready, Fuller;
  }

  // ----- a close runs its course -----

  /** The pool is closing, and closed exactly when every worker has stopped. */
  ghost predicate ClosingDown(s: Pool) {
    && Shutting(s) && (s.life.Closing? || s.life.Closed?) && s.started == |s.workers|
    && (s.life.Closed? <==> s.stoppedCount == |s.workers|)
  }

  /** In use: open, pausing or paused, and no worker has failed. */
  ghost predicate InUse(s: Pool) {
    !s.fatal && (s.life.Open? || s.life.Pausing? || s.life.Paused?)
  }

  lemma NobodyStopped(s: Pool)
    requires PoolInv(s) && InUse(s)
    ensures s.stoppedCount == 0 && !s.starter && s.started == |s.workers| > 0
  {
    hide Count;
    forall w | 0 <= w < |s.workers| ensures !IsStopped(s.workers[w]) {
      assert WorkerOk(FlagsOf(s), s.gate.phase, w, s.workers[w]);
    }
    CountZero(s.workers, IsStopped);
    hide GateOk, Books;
  }

  lemma ClosingBegins(s: Pool, a: Action)
    requires PoolInv(s) && InUse(s) && Enabled(s, a) && (a.RequestClose? || a.Fail?)
    ensures ClosingDown(Next(s, a)) && |Next(s, a).workers| == |s.workers|
  {
    hide Count;
    if a.RequestClose? { CloseBegins(s); } else { FailureCloses(s, a.worker); }
    NobodyStopped(s);
    assert Undisturbed(s, a);
    StepInv(s, a);
    StopsKept(s, a);
    NeverRestarted(s, a);
    hide Next, Enabled, GateOk, Books;
  }

  /** The first failure of a worker closes the pool: it shuts admission and stops the others. */
  lemma FailureCloses(s: Pool, v: nat)
    requires PoolInv(s) && InUse(s) && Enabled(s, Fail(v))
    ensures var r := Next(s, Fail(v));
            && r.life.Closing? && r.fatal && r.stopEnqueued && WaitersRejected(s.gate, r.gate)
            && |r.workers| == |s.workers|
            && (forall w :: 0 <= w < |s.workers| && w != v ==> r.workers[w] == s.workers[w].(queue := s.workers[w].queue + [StopToken]))
            && r.workers[v] == s.workers[v].(activity := if s.workers[v].activity.Serving? then Failing(s.workers[v].activity.ticket) else Draining)
  {
    hide Count;
    ShutInv(s.gate);
    assert !s.stopEnqueued;
    hide Shut, Core, Inv, ActorInv;
  }

  lemma StaysClosing(s: Pool, a: Action)
    requires ClosingDown(s) && Enabled(s, a) && !a.Exit?
    ensures Next(s, a).life == s.life && !a.Resume?
  {
    hide Count;
    if s.life.Closed? {
      CountAll(s.workers, IsStopped);
      ClosedStays(s, a);
    } else {
      hide Shutting, WellFormed, Arrive, Cancel, Shut, Advance, ReturnSlot, DispatchStep, TakeStep, DrainStep;
    }
  }

  lemma ClosingExit(s: Pool, v: nat)
    requires ClosingDown(s) && Enabled(s, Exit(v))
    ensures var r := Next(s, Exit(v));
            (r.life.Closing? || r.life.Closed?) && (r.life.Closed? <==> r.stoppedCount == |r.workers|)
  {
    hide Count;
    CountAll(s.workers, IsStopped);
    hide WellFormed, GateOk, Books;
  }

  lemma ClosingStep(s: Pool, a: Action)
    requires ClosingDown(s) && Enabled(s, a)
    ensures ClosingDown(Next(s, a)) && !a.Resume?
  {
    hide Count;
    if a.Exit? { ClosingExit(s, a.worker); } else { StaysClosing(s, a); StopsKept(s, a); }
    ShuttingStep(s, a);
    NeverRestarted(s, a);
    if a.Exit? { StepLeft(s, a, 0); }
    hide Shutting, Next, Enabled;
  }

  lemma {:induction false} ClosingRun(s: Pool, acts: seq<Action>, r: Pool)
    requires ClosingDown(s) && Reaches(s, acts, r)
    ensures ClosingDown(r) && forall i :: 0 <= i < |acts| ==> !acts[i].Resume?
    decreases |acts|
  {
    if acts != [] {
      ClosingStep(s, acts[0]);
      hide ClosingDown, Next, Enabled;
      ClosingRun(Next(s, acts[0]), acts[1..], r);
      forall i | 0 <= i < |acts| ensures !acts[i].Resume? { if i > 0 { assert acts[i] == acts[1..][i - 1]; } }
    }
  }

  lemma CloseLeft(s: Pool, a: Action, w: nat)
    requires PoolInv(s) && InUse(s) && w < |s.workers| && Enabled(s, a) && (a.RequestClose? || a.Fail?)
    ensures var r := Next(s, a); w < |r.workers| && StepsLeft(r, w) <= StepsLeft(s, w)
  {
    hide Count;
    if a.Fail? {
      FailStepLeft(s, a.worker, w);
      hide FailStep, StepsLeft;
    } else {
      ShutKeepsUndispatched(s.gate);
      AdvanceLeft(ShutTo(s, Closing), w);
      hide Shut, Core, Inv, Advance, Books;
    }
  }

  lemma WorkerStops(s: Pool, w: nat)
    requires ClosingDown(s) && w < |s.workers| && !s.workers[w].activity.Stopped? && s.gate.outstanding == 0
    ensures Enabled(s, OwnStep(s, w)) && Own(OwnStep(s, w), w)
  {
    hide Count;
    CountAll(s.workers, IsStopped);
    OwnStepEnabled(s, w);
    hide GateOk, Books;
  }

  lemma ClosedIffStopped(s: Pool)
    requires ClosingDown(s)
    ensures s.life.Closed? <==> forall w :: 0 <= w < |s.workers| ==> s.workers[w].activity.Stopped?
  {
    hide Count, GateOk, Books;
    CountAll(s.workers, IsStopped);
  }

  /**
   A close completes, and so does the shutdown after a failed worker: from any reachable pool
   in use, and in every run after the close request or the failure, further failures included,
   the pool is closing or closed, each worker takes a bounded number of steps, can take one
   once nothing is owned until it has stopped, and the pool is closed exactly when every
   worker has stopped.
   */
  lemma CloseCompletes(n: nat, capacity: nat, maxWaiters: nat, before: seq<Action>, s: Pool, a: Action, acts: seq<Action>,
                       r: Pool, w: nat)
    requires n >= 1 && Reaches(Initial(n, capacity, maxWaiters), before, s) && InUse(s) && w < |s.workers|
    requires (a.RequestClose? || a.Fail?) && Reaches(s, [a] + acts, r)
    ensures r.life.Closing? || r.life.Closed?
    ensures |r.workers| == |s.workers| && OwnSteps(acts, w) <= StepsLeft(s, w)
    ensures r.gate.outstanding == 0 && !r.workers[w].activity.Stopped? ==> Enabled(r, OwnStep(r, w)) && Own(OwnStep(r, w), w)
    ensures r.life.Closed? <==> forall v :: 0 <= v < |r.workers| ==> r.workers[v].activity.Stopped?
  {
    hide Count, PoolInv, Next, Enabled, StepsLeft;
    ReachableInv(n, capacity, maxWaiters, before, s);
    assert ([a] + acts)[0] == a && ([a] + acts)[1..] == acts;
    var m := Next(s, a);
    assert Enabled(s, a) && Reaches(m, acts, r);
    hide Reaches;
    ClosingBegins(s, a);
    CloseLeft(s, a, w);
    ClosingRun(m, acts, r);
    RunLeft(m, acts, r, w);
    ClosedIffStopped(r);
    if r.gate.outstanding == 0 && !r.workers[w].activity.Stopped? { WorkerStops(r, w); }
  }

  // ----- dispatch -----

  /** The tickets of the requests in a queue, in order. */
  function Tickets(q: seq<Item>): (r: seq<nat>) {
    if q == [] then []
    else Tickets(q[..|q| - 1]) + if q[|q| - 1].Req? then [q[|q| - 1].ticket] else []
  }

  /** The ticket the action puts into the queue of `w`: requests go to the workers in turn. */
  ghost function PutBy(s: Pool, a: Action, turn: nat, w: nat): (r: seq<nat>) {
    if a.Dispatch? && !s.fatal && !s.life.Closed? && turn == w then [a.ticket] else []
  }

  /** The ticket that `w` takes out of its queue, to serve or to fail it. */
  ghost function TakenBy(s: Pool, a: Action, w: nat): (r: seq<nat>) {
    if (a.Take? || a.Drain?) && a.worker == w && w < |s.workers| && s.workers[w].queue != [] && s.workers[w].queue[0].Req?
    then [s.workers[w].queue[0].ticket] else []
  }

  /** Whose turn it is after the action. */
  ghost function TurnAfter(s: Pool, a: Action, turn: nat): (r: nat) {
    if a.Dispatch? && !s.fatal && !s.life.Closed? && |s.workers| > 0 then (turn + 1) % |s.workers| else turn
  }

  ghost function AllPut(s: Pool, acts: seq<Action>, turn: nat, w: nat): (r: seq<nat>)
    decreases |acts|
  {
    if acts == [] || !Enabled(s, acts[0]) then []
    else PutBy(s, acts[0], turn, w) + AllPut(Next(s, acts[0]), acts[1..], TurnAfter(s, acts[0], turn), w)
  }

  ghost function AllTaken(s: Pool, acts: seq<Action>, w: nat): (r: seq<nat>)
    decreases |acts|
  {
    if acts == [] || !Enabled(s, acts[0]) then [] else TakenBy(s, acts[0], w) + AllTaken(Next(s, acts[0]), acts[1..], w)
  }

  lemma TicketsPut(q: seq<Item>, x: Item)
    ensures Tickets(q + [x]) == Tickets(q) + if x.Req? then [x.ticket] else []
  {
    assert (q + [x])[..|q|] == q;
  }

  lemma {:induction false} TicketsTail(q: seq<Item>)
    requires q != []
    ensures Tickets(q) == (if q[0].Req? then [q[0].ticket] else []) + Tickets(q[1..])
  {
    if |q| > 1 {
      var n := |q| - 1;
      TicketsTail(q[..n]);
      assert q[..n][1..] == q[1..][..n - 1] && q[..n][0] == q[0];
    }
  }

  ghost predicate QueueMoved(s: Pool, a: Action, r: Pool, w: nat)
    requires w < |s.workers|
  {
    && |r.workers| == |s.workers|
    && Tickets(s.workers[w].queue) + PutBy(s, a, s.next, w) == TakenBy(s, a, w) + Tickets(r.workers[w].queue)
    && r.next == TurnAfter(s, a, s.next)
  }

  /** Putting a token behind a queue leaves its requests alone. */
  lemma TokenPut(q: seq<Item>, x: Item)
    requires !x.Req?
    ensures Tickets(q + [x]) == Tickets(q)
  {
    TicketsPut(q, x);
  }

  /** Only tokens are added by lifecycle steps. */
  lemma AdvanceQueues(s: Pool, w: nat)
    requires w < |s.workers|
    ensures Tickets(Advance(s).workers[w].queue) == Tickets(s.workers[w].queue) && Advance(s).next == s.next
  {
    hide Tickets;
    TokenPut(s.workers[w].queue, PauseToken);
    TokenPut(s.workers[w].queue, StopToken);
  }

  lemma ReturnQueues(s: Pool, t: nat, w: nat)
    requires w < |s.workers| && WellFormed(s.gate) && t < |s.gate.phase|
    ensures Tickets(ReturnSlot(s, t).workers[w].queue) == Tickets(s.workers[w].queue) && ReturnSlot(s, t).next == s.next
  {
    hide Tickets, Advance, Release;
    AdvanceQueues(s.(gate := Release(s.gate, t)), w);
  }

  /** The queue is untouched, or only tokens were added. */
  lemma QueueStays(s: Pool, a: Action, r: Pool, w: nat)
    requires w < |s.workers| == |r.workers| && Tickets(r.workers[w].queue) == Tickets(s.workers[w].queue) && r.next == s.next
    requires !a.Dispatch? && !a.Take? && !a.Drain?
    ensures QueueMoved(s, a, r, w)
  {
    hide Tickets;
    EmptyIsUnit(Tickets(s.workers[w].queue));
  }

  lemma TakeQueues(s: Pool, v: nat, w: nat)
    requires Enabled(s, Take(v)) && w < |s.workers|
    ensures QueueMoved(s, Take(v), TakeStep(s, v), w)
  {
    hide Tickets, Hand;
    TicketsTail(s.workers[v].queue);
    EmptyIsUnit(Tickets(s.workers[w].queue));
  }

  lemma DrainQueues(s: Pool, v: nat, w: nat)
    requires Enabled(s, Drain(v)) && w < |s.workers|
    ensures QueueMoved(s, Drain(v), DrainStep(s, v), w)
  {
    hide Tickets, ReturnSlot;
    var x, p := s.workers[v].queue[0], SetWorker(s, v, s.workers[v].(queue := s.workers[v].queue[1..]));
    TicketsTail(s.workers[v].queue);
    EmptyIsUnit(Tickets(s.workers[w].queue));
    if x.Req? && x.ticket < |s.gate.phase| { ReturnQueues(p, x.ticket, w); }
  }

  lemma DispatchQueues(s: Pool, t: nat, w: nat)
    requires Enabled(s, Dispatch(t)) && w < |s.workers|
    ensures QueueMoved(s, Dispatch(t), DispatchStep(s, t), w)
  {
    hide Tickets, Advance, Hand, GiveBack;
    EmptyIsUnit(Tickets(s.workers[w].queue));
    TicketsPut(s.workers[w].queue, Req(t));
    if s.fatal || s.life.Closed? { AdvanceQueues(s.(gate := GiveBack(s.gate, t)), w); }
  }

  lemma FailQueues(s: Pool, v: nat, w: nat)
    requires Enabled(s, Fail(v)) && w < |s.workers|
    ensures Tickets(FailStep(s, v).workers[w].queue) == Tickets(s.workers[w].queue) && FailStep(s, v).next == s.next
  {
    hide Tickets, Shut;
    TokenPut(s.workers[w].queue, StopToken);
  }

  lemma PushQueues(workers: seq<Worker>, targets: nat -> bool, w: nat)
    requires w < |workers|
    ensures Tickets(Push(workers, StopToken, targets)[w].queue) == Tickets(workers[w].queue)
  {
    hide Tickets;
    TokenPut(workers[w].queue, StopToken);
  }

  ghost predicate SameQueue(s: Pool, r: Pool, w: nat)
    requires w < |s.workers|
  {
    |r.workers| == |s.workers| && Tickets(r.workers[w].queue) == Tickets(s.workers[w].queue) && r.next == s.next
  }

  lemma ReleaseQueues(s: Pool, a: Action, w: nat)
    requires Enabled(s, a) && w < |s.workers| && (a.Withdraw? || a.DeliverGrant? || a.Finish? || a.FailRelease?)
    ensures SameQueue(s, Next(s, a), w)
  {
    hide Tickets, WellFormed, Cancel, Release, Advance, ReturnSlot;
    match a {
      case Withdraw(t) => AdvanceQueues(s.(gate := Cancel(s.gate, t)), w);
      case DeliverGrant(t, _) => ReturnQueues(s, t, w);
      case Finish(v) => ReturnQueues(SetActivity(s, v, Idle), s.workers[v].activity.ticket, w);
      case FailRelease(v) => ReturnQueues(SetActivity(s, v, Draining), s.workers[v].activity.ticket, w);
    }
  }

  lemma ControlQueues(s: Pool, a: Action, w: nat)
    requires Enabled(s, a) && w < |s.workers| && (a.Fail? || a.RequestPause? || a.RequestClose? || a.StartFail?)
    ensures SameQueue(s, Next(s, a), w)
  {
    hide Tickets, WellFormed, Shut, Advance, FailStep, Push;
    match a {
      case Fail(v) => FailQueues(s, v, w);
      case RequestPause => AdvanceQueues(ShutTo(s, Pausing), w);
      case RequestClose => if !s.life.New? { AdvanceQueues(ShutTo(s, Closing), w); }
      case StartFail => PushQueues(s.workers, v => v < s.started, w);
    }
  }

  lemma OwnerQueues(s: Pool, a: Action, w: nat)
    requires Enabled(s, a) && w < |s.workers|
    requires a.StartBegin? || a.StartThread? || a.StartDone? || a.StartFailDone? || a.Submit? || a.Consume? || a.Resume?
    ensures SameQueue(s, Next(s, a), w)
  {
    hide Tickets, WellFormed, Arrive, AckStep, ExitStep, DispatchStep, TakeStep, FailStep, DrainStep, ReturnSlot, Advance;
  }

  lemma WorkerQueues(s: Pool, a: Action, w: nat)
    requires Enabled(s, a) && w < |s.workers|
    requires a.Connect? || a.Disconnect? || a.PauseClose? || a.DrainDone?
    ensures SameQueue(s, Next(s, a), w)
  {
    hide Tickets, WellFormed, Arrive, AckStep, ExitStep, DispatchStep, TakeStep, FailStep, DrainStep, ReturnSlot, Advance;
  }

  lemma AckQueues(s: Pool, a: Action, w: nat)
    requires Enabled(s, a) && w < |s.workers| && (a.PauseAck? || a.Exit?)
    ensures SameQueue(s, Next(s, a), w)
  {
    hide Tickets, WellFormed, Arrive, DispatchStep, TakeStep, FailStep, DrainStep, ReturnSlot, Advance;
  }

  /** Every other step leaves the requests in the queues alone. */
  lemma OtherQueues(s: Pool, a: Action, w: nat)
    requires Enabled(s, a) && w < |s.workers| && !a.Dispatch? && !a.Take? && !a.Drain?
    ensures SameQueue(s, Next(s, a), w)
  {
    hide SameQueue, Next, Enabled;
    if a.Withdraw? || a.DeliverGrant? || a.Finish? || a.FailRelease? {
      ReleaseQueues(s, a, w);
    } else if a.Fail? || a.RequestPause? || a.RequestClose? || a.StartFail? {
      ControlQueues(s, a, w);
    } else if a.Connect? || a.Disconnect? || a.PauseClose? || a.DrainDone? {
      WorkerQueues(s, a, w);
    } else if a.PauseAck? || a.Exit? {
      AckQueues(s, a, w);
    } else {
      OwnerQueues(s, a, w);
    }
  }

  lemma StepQueues(s: Pool, a: Action, w: nat)
    requires Enabled(s, a) && w < |s.workers|
    ensures QueueMoved(s, a, Next(s, a), w)
  {
    hide QueueMoved, TakeStep, DrainStep, DispatchStep;
    if a.Take? {
      TakeQueues(s, a.worker, w);
    } else if a.Drain? {
      DrainQueues(s, a.worker, w);
    } else if a.Dispatch? {
      DispatchQueues(s, a.ticket, w);
    } else {
      OtherQueues(s, a, w);
      hide Next, Enabled;
      QueueStays(s, a, Next(s, a), w);
    }
  }

  /**
   Dispatch in every run: requests go to the workers in turn, and each worker takes the
   requests dispatched to it in the order in which they were dispatched.
   */
  lemma {:induction false} ServedInOrder(s: Pool, acts: seq<Action>, r: Pool, w: nat)
    requires Reaches(s, acts, r) && w < |s.workers|
    ensures |r.workers| == |s.workers|
    ensures Tickets(s.workers[w].queue) + AllPut(s, acts, s.next, w) == AllTaken(s, acts, w) + Tickets(r.workers[w].queue)
    decreases |acts|
  {
    if acts == [] {
      EmptyIsUnit(Tickets(s.workers[w].queue));
    } else {
      var a, m := acts[0], Next(s, acts[0]);
      StepQueues(s, a, w);
      hide Next, Enabled, Tickets, PutBy, TakenBy, TurnAfter;
      ServedInOrder(m, acts[1..], r, w);
      Rearranged(Tickets(s.workers[w].queue), PutBy(s, a, s.next, w), TakenBy(s, a, w), Tickets(m.workers[w].queue),
                 AllPut(m, acts[1..], m.next, w), AllTaken(m, acts[1..], w), Tickets(r.workers[w].queue));
    }
  }

  // ----- where a submission goes -----

  /** Only `t` moves, except that waiting submissions behind a returned slot may be granted one. */
  ghost predicate OnlyMoved(g: Gate, h: Gate, t: nat, p: Phase) {
    && |h.phase| == |g.phase| && t < |h.phase| && h.phase[t] == p
    && forall s :: 0 <= s < |g.phase| && s != t ==> h.phase[s] == g.phase[s] || (g.phase[s].Waiting? && h.phase[s].Granted?)
  }

  /** An accepted request goes behind the queue of the worker whose turn it is, a refused one gives its slot back. */
  lemma DispatchIs(s: Pool, t: nat)
    requires PoolInv(s) && Enabled(s, Dispatch(t))
    ensures var r, w := Next(s, Dispatch(t)), s.next;
            if !s.fatal && !s.life.Closed? then
              && r.gate == s.gate.(phase := s.gate.phase[t := Queued(w)]) && r.life == s.life
              && r.workers == s.workers[w := s.workers[w].(queue := s.workers[w].queue + [Req(t)])]
              && r.next == (if w + 1 == |s.workers| then 0 else w + 1)
            else
              && r.gate.phase == s.gate.phase[t := Returned] && r.gate.outstanding == s.gate.outstanding - 1
              && r.next == w && r.life == s.life
  {
    hide Count, Advance, GateOk, ActorInv;
    TurnIs(s.next, |s.workers|);
    if s.fatal || s.life.Closed? { AdvanceKeeps(s.(gate := GiveBack(s.gate, t))); }
    hide WellFormed;
  }

  lemma TurnIs(w: nat, n: nat)
    requires w < n
    ensures (w + 1) % n == if w + 1 == n then 0 else w + 1
  {
  }

  /** The slot of `t` comes back; workers keep what they do, and get at most a token. */
  lemma ReturnIs(s: Pool, t: nat)
    requires Core(s.gate) && t < |s.gate.phase| && Owns(s.gate.phase[t])
    ensures WellFormed(s.gate)
    ensures var r := ReturnSlot(s, t);
            && OnlyMoved(s.gate, r.gate, t, Returned) && r.life == s.life && r.next == s.next && |r.workers| == |s.workers|
            && forall w :: 0 <= w < |s.workers| ==> r.workers[w] == s.workers[w].(queue := r.workers[w].queue)
  {
    hide Count;
    ReleaseInv(s.gate, t);
    AdvanceKeeps(s.(gate := Release(s.gate, t)));
    hide Release, Core, Inv, Advance;
  }

  lemma AdvanceKeeps(s: Pool)
    ensures var r := Advance(s);
            && r.gate == s.gate && r.life == s.life && r.next == s.next && |r.workers| == |s.workers|
            && forall w :: 0 <= w < |s.workers| ==> r.workers[w] == s.workers[w].(queue := r.workers[w].queue)
  {
  }

  /** A grant is consumed, or taken back from a future that was settled already. */
  lemma GrantIs(s: Pool, t: nat, settled: bool)
    requires PoolInv(s) && Enabled(s, DeliverGrant(t, settled))
    ensures s.gate.phase[t].Granted? ==>
              && Enabled(s, Consume(t))
              && Next(s, Consume(t)) == s.(gate := s.gate.(phase := s.gate.phase[t := Held]))
    ensures var r := Next(s, DeliverGrant(t, settled));
            if s.gate.phase[t].Granted? && settled then OnlyMoved(s.gate, r.gate, t, Returned) && r.life == s.life && r.next == s.next
            else r == s
  {
    hide Count;
    if s.gate.phase[t].Granted? { ReturnIs(s, t); }
    hide ReturnSlot, ActorInv, Core, Inv, OnlyMoved;
  }

  /** A waiter that gives up leaves, and one that was granted a slot gives it back. */
  lemma WithdrawIs(s: Pool, t: nat)
    requires PoolInv(s) && Enabled(s, Withdraw(t))
    ensures var r, p := Next(s, Withdraw(t)), s.gate.phase[t];
            && r.life == s.life && r.next == s.next
            && OnlyMoved(s.gate, r.gate, t, if p.Waiting? then Cancelled else if p.Granted? then Returned else p)
  {
    hide Count;
    CancelInv(s.gate, t);
    hide Cancel, Inv, Core, ActorInv, Push;
  }

  /** The worker takes the front of its queue: it serves a request, closes for a PAUSE, or leaves at a STOP. */
  lemma TakeIs(s: Pool, w: nat)
    requires PoolInv(s) && Enabled(s, Take(w))
    ensures var x, wk, r := s.workers[w].queue[0], s.workers[w], Next(s, Take(w));
            && |r.workers| == |s.workers|
            && r.workers[w].queue == wk.queue[1..] && r.workers[w].connectionOpen == wk.connectionOpen
            && (forall v :: 0 <= v < |s.workers| && v != w ==> r.workers[v] == s.workers[v])
            && (x.Req? ==> r.workers[w].activity == Serving(x.ticket) && OnlyMoved(s.gate, r.gate, x.ticket, Running(w)))
            && (x.PauseToken? ==> r.workers[w].activity == PauseTaken && r.gate == s.gate)
            && (x.StopToken? ==> r.workers[w].activity == Exiting && r.gate == s.gate)
  {
    hide Count;
    assert WorkerOk(FlagsOf(s), s.gate.phase, w, s.workers[w]);
    hide GateOk, ActorInv;
  }

  /** A request that is through gives its slot back and its worker is idle again; after a failure it drains its queue. */
  lemma FinishIs(s: Pool, a: Action)
    requires PoolInv(s) && Enabled(s, a) && (a.Finish? || a.FailRelease?)
    ensures var r, w := Next(s, a), a.worker;
            && |r.workers| == |s.workers| && r.life == s.life
            && r.workers[w].activity == (if a.Finish? then Idle else Draining)
            && OnlyMoved(s.gate, r.gate, s.workers[w].activity.ticket, Returned)
  {
    hide Count;
    var w := a.worker;
    assert WorkerOk(FlagsOf(s), s.gate.phase, w, s.workers[w]);
    ReturnIs(SetActivity(s, w, if a.Finish? then Idle else Draining), s.workers[w].activity.ticket);
    hide ReturnSlot, Inv, Core, ActorInv, OnlyMoved;
  }

  /** Connections open for a request and close for a pause. */
  lemma ConnectionIs(s: Pool, w: nat)
    requires w < |s.workers|
    ensures Enabled(s, Connect(w)) ==>
              Next(s, Connect(w)) == s.(workers := s.workers[w := s.workers[w].(connectionOpen := true)])
    ensures Enabled(s, Disconnect(w)) ==>
              Next(s, Disconnect(w)) == s.(workers := s.workers[w := s.workers[w].(connectionOpen := false)])
    ensures Enabled(s, PauseClose(w)) ==>
              Next(s, PauseClose(w)) == s.(workers := s.workers[w := s.workers[w].(activity := PauseClosed, connectionOpen := false)])
    ensures Enabled(s, DrainDone(w)) ==>
              Next(s, DrainDone(w)) == s.(workers := s.workers[w := s.workers[w].(activity := Exiting)])
  {
    hide WellFormed, ReturnSlot, FailStep, TakeStep, DrainStep, AckStep, ExitStep;
  }

  // ----- starting -----

  /**
   start() marks the pool as starting, creates its threads one by one and opens it; if a thread
   cannot be created, the ones there are told to stop, and when they have the pool is closed
   and failed.
   */
  lemma StartIs(s: Pool, a: Action)
    requires PoolInv(s) && Enabled(s, a) && (a.StartBegin? || a.StartThread? || a.StartDone? || a.StartFail? || a.StartFailDone?)
    ensures var r := Next(s, a);
            && r.gate == s.gate.(open := r.life.Open?) && r.next == s.next && r.pauseEnqueued == s.pauseEnqueued
            && (a.StartBegin? ==> s.life.New? && r.life.Starting? && r.starter && r.workers == s.workers && r.started == 0)
            && (a.StartThread? ==> r.life == s.life && r.starter && r.workers == s.workers && r.started == s.started + 1)
            && (a.StartDone? ==> r.life.Open? && !r.starter && r.workers == s.workers && s.started == |s.workers|)
            && (a.StartFail? ==>
                  && r.life == s.life && r.starter && r.startFailed && |r.workers| == |s.workers|
                  && forall w :: 0 <= w < |s.workers| ==>
                       r.workers[w] == if w < s.started then s.workers[w].(queue := s.workers[w].queue + [StopToken]) else s.workers[w])
            && (a.StartFailDone? ==>
                  && r.life.Closed? && r.fatal && !r.starter && r.workers == s.workers
                  && forall w :: 0 <= w < s.started ==> s.workers[w].activity.Stopped?)
  {
    hide Count, GateOk, Books;
  }
}
