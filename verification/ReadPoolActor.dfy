/**
 The read pool object.  Each method is one region the source runs under the pool lock,
 loops included, and is proved to be the corresponding action of the state machine.
 */
module ReadPoolActor {
  import opened Admission
  import opened ReadPool

  datatype Refusal = Accepted | PausedError | ClosedError | NotPausedError

  class SQLiteReadPool {
    const slots: Slots
    var life: Life
    var workers: seq<Worker>
    var next: nat
    var pauseEnqueued: bool
    var pauseAcks: nat
    var stopEnqueued: bool
    var stoppedCount: nat
    var fatal: bool
    var starter: bool
    var startFailed: bool
    var started: nat
    ghost var overwritten: bool

    ghost function View(): (s: Pool)
      reads this, slots
    {
      Pool(slots.View(), life, workers, next, pauseEnqueued, pauseAcks, stopEnqueued, stoppedCount,
           fatal, starter, startFailed, started, overwritten)
    }

    constructor (maxConnections: nat, queueCapacity: nat, maxWaiters: nat)
      ensures fresh(slots) && View() == Initial(maxConnections, queueCapacity, maxWaiters)
    {
      slots := new Slots(queueCapacity, maxWaiters, false);
      life, next, pauseAcks, stoppedCount := New, 0, 0, 0;
      workers := seq(maxConnections, i => Worker([], false, Idle, false));
      pauseEnqueued, stopEnqueued, fatal, starter, startFailed := false, false, false, false, false;
      started, overwritten := 0, false;
    }

    /** Puts a control token into the queue of every worker but `skip`. */
    method PutAll(x: Item, skip: int)
      modifies this`workers
      ensures workers == Push(old(workers), x, w => w != skip)
    {
      var i := 0;
      while i < |workers|
        invariant 0 <= i <= |workers| == |old(workers)|
        invariant forall w :: 0 <= w < |workers| ==>
                    workers[w] == if w < i && w != skip
                                  then old(workers)[w].(queue := old(workers)[w].queue + [x]) else old(workers)[w]
      {
        if i != skip {
          workers := workers[i := workers[i].(queue := workers[i].queue + [x])];
        }
        i := i + 1;
      }
    }

    /** The first locked region of `start`. */
    method BeginStart() returns (r: Refusal)
      requires WellFormed(slots.View()) && next < |workers|
      modifies this, slots`open
      ensures r == if old(life).Open? || old(life).New? then Accepted else ClosedError
      ensures View() == if old(life).New? then Next(old(View()), StartBegin) else old(View())
    {
      if life.Open? { return Accepted; }
      if !life.New? { return ClosedError; }
      life, starter, slots.open := Starting, true, false;
      r := Accepted;
    }

    /** The last locked region of `start`: it does not look at what the state became meanwhile. */
    method FinishStart()
      requires WellFormed(slots.View()) && next < |workers| && starter && !startFailed && started == |workers|
      modifies this, slots`open
      ensures View() == Next(old(View()), StartDone)
    {
      overwritten := fatal;
      life, starter, slots.open := Open, false, true;
    }

    method AdvanceLifecycle()
      modifies this
      ensures View() == Advance(old(View()))
    {
      if slots.outstanding != 0 { return; }
      if life.Pausing? && !pauseEnqueued {
        pauseEnqueued := true;
        PutAll(PauseToken, -1);
      } else if life.Closing? && !stopEnqueued {
        stopEnqueued := true;
        PutAll(StopToken, -1);
      }
    }

    /** Shuts admission and turns every waiter away. */
    method Shutter(l: Life) returns (rejected: seq<nat>)
      requires WellFormed(slots.View()) && !l.Open?
      modifies this`life, slots
      ensures View() == ShutTo(old(View()), l)
    {
      life := l;
      slots.open := false;
      rejected := slots.RejectWaiters();
    }

    method PauseAndDrain() returns (r: Refusal)
      requires WellFormed(slots.View()) && next < |workers|
      modifies this, slots
      ensures r == if old(life).Open? || old(life).Pausing? || old(life).Paused? then Accepted else ClosedError
      ensures View() == if old(life).Open? then Next(old(View()), RequestPause) else old(View())
      ensures life == if old(life).Open? then Pausing else old(life)
    {
      match life
      case Paused => r := Accepted;
      case Pausing => r := Accepted;
      case Open =>
        var _ := Shutter(Pausing);
        AdvanceLifecycle();
        r := Accepted;
      case _ => r := ClosedError;
    }

    /** The state and the gate's door, which follows it. */
    method SetLife(l: Life)
      modifies this`life, slots`open
      ensures View() == ReadPool.SetLife(old(View()), l)
    {
      life, slots.open := l, l.Open?;
    }

    method Resume() returns (r: Refusal)
      requires WellFormed(slots.View()) && next < |workers|
      modifies this, slots`open
      ensures View() == if old(life).Paused? then Next(old(View()), ReadPool.Resume) else old(View())
      ensures r == if old(life).New? || old(life).Starting? || old(life).Pausing? then NotPausedError else Accepted
      ensures life == if old(life).Paused? then Open else old(life)
    {
      if life.Paused? { ResumeIs(View()); }
      hide Next, Enabled, WellFormed, ClearAcks;
      match life
      case Paused =>
        pauseEnqueued, pauseAcks, workers := false, 0, ClearAcks(workers);
        assert View() == old(View()).(pauseEnqueued := false, pauseAcks := 0, workers := ClearAcks(old(workers)));
        SetLife(Open);
        r := Accepted;
      case Closing => r := Accepted;
      case Closed => r := Accepted;
      case Open => r := Accepted;
      case _ => r := NotPausedError;
    }

    method Close()
      requires WellFormed(slots.View()) && next < |workers|
      modifies this, slots
      ensures View() == if old(life).Closing? || old(life).Closed? then old(View())
                        else Next(old(View()), RequestClose)
      ensures life == if old(life).New? || old(life).Closed? then Closed else Closing
    {
      hide ClearAcks, Push, Arrive, Cancel, ReturnSlot, DispatchStep, TakeStep, FailStep, DrainStep, AckStep, ExitStep;
      if life.New? {
        life := Closed;
        slots.open := false;
      } else if !life.Closing? && !life.Closed? {
        var _ := Shutter(Closing);
        AdvanceLifecycle();
      }
    }

    /** The locked part of `_acquire_capacity`. */
    method Acquire() returns (r: Refusal, a: Arrival)
      requires PoolInv(View())
      modifies slots
      ensures r == if old(life).Pausing? || old(life).Paused? then PausedError
                   else if old(life).Open? then Accepted else ClosedError
      ensures r.Accepted? ==> View() == Next(old(View()), Submit) && a == Arrive(old(slots.View())).1
      ensures !r.Accepted? ==> View() == old(View())
    {
      a := Overloaded;
      if life.Pausing? || life.Paused? { return PausedError, a; }
      if !life.Open? { return ClosedError, a; }
      var granted;
      a, granted := slots.Acquire();
      r := Accepted;
    }

    method CancelAdmission(t: nat)
      requires WellFormed(slots.View()) && next < |workers| && t < |slots.phase|
      modifies this, slots
      ensures View() == Next(old(View()), Withdraw(t))
    {
      var _ := slots.CancelAdmission(t);
      AdvanceLifecycle();
    }

    method ReleaseCapacity(t: nat)
      requires WellFormed(slots.View()) && t < |slots.phase|
      modifies this, slots
      ensures View() == ReturnSlot(old(View()), t)
    {
      var _ := slots.ReleaseCapacity(t);
      AdvanceLifecycle();
    }

    method DeliverAdmissionGrant(t: nat, settled: bool)
      requires WellFormed(slots.View()) && next < |workers| && t < |slots.phase|
      modifies this, slots
      ensures View() == Next(old(View()), DeliverGrant(t, settled))
    {
      if slots.phase[t].Granted? && settled {
        ReleaseCapacity(t);
      }
    }

    /** The locked part of `_submit`: queue the request or give the slot back. */
    method DispatchRequest(t: nat) returns (r: Refusal)
      requires WellFormed(slots.View()) && next < |workers| && t < |slots.phase| && slots.phase[t].Held?
      modifies this, slots
      ensures View() == Next(old(View()), Dispatch(t))
      ensures r == if old(fatal) || old(life).Closed? then ClosedError else Accepted
    {
      if fatal || life.Closed? {
        slots.ReturnSlot(t);
        AdvanceLifecycle();
        return ClosedError;
      }
      var w := next;
      next := (next + 1) % |workers|;
      workers := workers[w := workers[w].(queue := workers[w].queue + [Req(t)])];
      slots.phase := slots.phase[t := Queued(w)];
      r := Accepted;
    }

    method AcknowledgePause(w: nat)
      requires w < |workers| && WellFormed(slots.View()) && next < |workers| && workers[w].activity.PauseClosed?
      requires life.Pausing? ==> !slots.open
      modifies this
      ensures View() == Next(old(View()), PauseAck(w))
    {
      workers := workers[w := workers[w].(activity := Idle, acked := true)];
      pauseAcks := pauseAcks + 1;
      if pauseAcks != |workers| { return; }
      if life.Pausing? { life := Paused; }
    }

    /** A worker thread dies; only the first failure shuts the pool. */
    method BeginWorkerFailure(w: nat)
      requires WellFormed(slots.View()) && w < |workers|
      modifies this, slots
      ensures View() == BeginFailure(old(View()), w)
    {
      if fatal { return; }
      var _ := Shutter(Closing);
      fatal := true;
      if !stopEnqueued {
        stopEnqueued := true;
        PutAll(StopToken, w);
      }
    }

    method DrainOne(w: nat)
      requires w < |workers| && WellFormed(slots.View()) && workers[w].queue != []
      modifies this, slots
      ensures View() == DrainStep(old(View()), w)
    {
      var x := workers[w].queue[0];
      workers := workers[w := workers[w].(queue := workers[w].queue[1..])];
      if x.Req? && x.ticket < |slots.phase| {
        ReleaseCapacity(x.ticket);
      }
    }

    /** A dead worker fails everything left in its queue, returning one slot per request. */
    method FailWorkerQueue(w: nat)
      requires PoolInv(View()) && w < |workers| && workers[w].activity.Draining?
      modifies this, slots
      ensures PoolInv(View()) && w < |workers| && workers[w].queue == []
      ensures exists acts :: Reaches(old(View()), acts, View()) && |acts| == |old(workers)[w].queue|
    {
      ghost var acts := [];
      ghost var start := View();
      assert Reaches(start, [], View());
      while workers[w].queue != []
        invariant Drained(start, acts, View(), w)
        decreases |workers[w].queue|
      {
        DrainAgain(start, acts, View(), w);
        DrainOne(w);
        acts := acts + [Drain(w)];
      }
    }

    method WorkerStopped(w: nat)
      requires w < |workers| && WellFormed(slots.View()) && next < |workers| && workers[w].activity.Exiting?
      modifies this, slots`open
      ensures View() == Next(old(View()), Exit(w))
    {
      ExitIs(View(), w);
      hide Next, Enabled, WellFormed;
      workers := workers[w := workers[w].(activity := Stopped, connectionOpen := false)];
      stoppedCount := stoppedCount + 1;
      assert View() == old(View()).(workers := workers, stoppedCount := old(stoppedCount) + 1);
      if stoppedCount == |workers| {
        SetLife(Closed);
      }
    }
  }

  /** `r` is what remains of `s` after the failed worker `w` drained one item per action. */
  ghost predicate Drained(s: Pool, acts: seq<Action>, r: Pool, w: nat) {
    && PoolInv(r) && Reaches(s, acts, r)
    && w < |r.workers| == |s.workers| && r.workers[w].activity.Draining?
    && |acts| + |r.workers[w].queue| == |s.workers[w].queue|
  }

  /** A failed worker gets no more tokens while it drains. */
  lemma DrainShortens(s: Pool, w: nat)
    requires PoolInv(s) && w < |s.workers| && s.workers[w].activity.Draining? && s.workers[w].queue != []
    ensures DrainStep(s, w).workers[w] == s.workers[w].(queue := s.workers[w].queue[1..])
    ensures WellFormed(s.gate) && s.next < |s.workers|
  {
    assert WorkerOk(FlagsOf(s), s.gate.phase, w, s.workers[w]);
  }

  lemma DrainAgain(s: Pool, acts: seq<Action>, r: Pool, w: nat)
    requires Drained(s, acts, r, w) && r.workers[w].queue != []
    ensures Drained(s, acts + [Drain(w)], DrainStep(r, w), w)
    ensures |DrainStep(r, w).workers[w].queue| < |r.workers[w].queue|
  {
    hide PoolInv, Reaches, WellFormed;
    DrainShortens(r, w);
    DrainInv(r, w);
    assert Enabled(r, Drain(w)) && Next(r, Drain(w)) == DrainStep(r, w) && Undisturbed(r, Drain(w));
    hide Next, Enabled, DrainStep, Undisturbed;
    ReachesSnoc(s, acts, r, Drain(w));
  }

  lemma ResumeIs(s: Pool)
    requires Enabled(s, ReadPool.Resume)
    ensures Next(s, ReadPool.Resume)
            == SetLife(s.(pauseEnqueued := false, pauseAcks := 0, workers := ClearAcks(s.workers)), Open)
  {
  }

  lemma ExitIs(s: Pool, w: nat)
    requires Enabled(s, Exit(w))
    ensures Next(s, Exit(w)) == ExitStep(s, w)
  {
  }

  lemma {:induction false} ReachesSnoc(s: Pool, acts: seq<Action>, r: Pool, a: Action)
    requires Reaches(s, acts, r) && Enabled(r, a) && Undisturbed(r, a)
    ensures Reaches(s, acts + [a], Next(r, a))
    decreases |acts|
  {
    hide Enabled, Undisturbed, Next;
    if acts == [] {
      assert ([a])[1..] == [];
      assert acts + [a] == [a];
    } else {
      ReachesSnoc(Next(s, acts[0]), acts[1..], r, a);
      assert (acts + [a])[1..] == acts[1..] + [a];
    }
  }
}
