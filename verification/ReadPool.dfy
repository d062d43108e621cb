/**
 The SQLite read pool as a state machine.  One action is one region the source runs
 under the pool's lock, or one private step of a worker thread between such regions;
 a run is any interleaving of enabled actions of callers, event loops, workers and
 the owner that starts, pauses, resumes and closes the pool.
 */
module ReadPool {
  import opened Seqs
  import opened Admission

  datatype Item = Req(ticket: nat) | PauseToken | StopToken

  /** What a worker thread is doing. */
  datatype Activity =
    | Idle
    | Serving(ticket: nat)     // executing a request whose slot it owns
    | PauseTaken               // took PAUSE, connection not closed yet
    | PauseClosed              // connection closed, PAUSE not acknowledged yet
    | Failing(ticket: nat)     // failure declared, slot of the active request still owned
    | Draining                 // failure declared, failing the rest of its queue
    | Exiting
    | Stopped

  datatype Worker = Worker(queue: seq<Item>, connectionOpen: bool, activity: Activity, acked: bool)

  datatype Life = New | Starting | Open | Pausing | Paused | Closing | Closed

  datatype Pool = Pool(
    gate: Gate,
    life: Life,
    workers: seq<Worker>,
    next: nat,                 // round-robin dispatch position
    pauseEnqueued: bool,
    pauseAcks: nat,
    stopEnqueued: bool,
    stoppedCount: nat,
    fatal: bool,
    starter: bool,             // a start() call is between its two locked regions
    startFailed: bool,         // thread creation failed; the started prefix was told to stop
    started: nat,              // how many worker threads exist; they are created in order
    overwritten: bool          // history: start() opened the pool although a worker had failed
  )

  datatype Action =
    | StartBegin | StartThread | StartDone | StartFail | StartFailDone
    | Submit | Consume(ticket: nat) | Withdraw(ticket: nat) | DeliverGrant(ticket: nat, settled: bool)
    | Dispatch(ticket: nat)
    | Take(worker: nat) | Connect(worker: nat) | Disconnect(worker: nat) | Finish(worker: nat)
    | PauseClose(worker: nat) | PauseAck(worker: nat)
    | Fail(worker: nat) | FailRelease(worker: nat) | Drain(worker: nat) | DrainDone(worker: nat)
    | Exit(worker: nat)
    | RequestPause | Resume | RequestClose

  predicate IsReq(x: Item) { x.Req? }

  predicate IsStopped(w: Worker) { w.activity.Stopped? }

  predicate IsAcked(w: Worker) { w.acked }

  predicate IsBusy(w: Worker) { w.activity.Serving? || w.activity.Failing? }

  predicate Retired(a: Activity) { a.Exiting? || a.Stopped? }

  // ----- steps -----

  function Push(workers: seq<Worker>, x: Item, targets: nat -> bool): (r: seq<Worker>)
    ensures |r| == |workers|
    ensures forall w :: 0 <= w < |r| ==>
              r[w] == if targets(w) then workers[w].(queue := workers[w].queue + [x]) else workers[w]
  {
    seq(|workers|, w requires 0 <= w < |workers| =>
      if targets(w) then workers[w].(queue := workers[w].queue + [x]) else workers[w])
  }

  function ClearAcks(workers: seq<Worker>): (r: seq<Worker>) {
    seq(|workers|, w requires 0 <= w < |workers| => workers[w].(acked := false))
  }

  /** What only start() changes. */
  predicate SameStart(s: Pool, r: Pool) {
    r.starter == s.starter && r.startFailed == s.startFailed && r.started == s.started && r.overwritten == s.overwritten
  }

  /** What only an exiting worker changes. */
  predicate SameStops(s: Pool, r: Pool) {
    |r.workers| == |s.workers| && r.stoppedCount == s.stoppedCount
  }

  /** Once no slot is outstanding, a pending pause or close sends its control token to every worker. */
  function Advance(s: Pool): (r: Pool)
    ensures SameStart(s, r) && SameStops(s, r) && r.life == s.life
  {
    if s.gate.outstanding != 0 then s
    else if s.life.Pausing? && !s.pauseEnqueued then
      s.(pauseEnqueued := true, workers := Push(s.workers, PauseToken, w => true))
    else if s.life.Closing? && !s.stopEnqueued then
      s.(stopEnqueued := true, workers := Push(s.workers, StopToken, w => true))
    else s
  }

  function SetWorker(s: Pool, w: nat, wk: Worker): (r: Pool)
    requires w < |s.workers|
  {
    s.(workers := s.workers[w := wk])
  }

  function SetActivity(s: Pool, w: nat, a: Activity): (r: Pool)
    requires w < |s.workers|
  {
    SetWorker(s, w, s.workers[w].(activity := a))
  }

  function SetLife(s: Pool, l: Life): (r: Pool) {
    s.(life := l, gate := s.gate.(open := l.Open?))
  }

  ghost function ShutTo(s: Pool, l: Life): (r: Pool)
    requires WellFormed(s.gate)
  {
    s.(life := l, gate := Shut(s.gate))
  }

  /** The slot of `t` is returned to admission. */
  ghost function ReturnSlot(s: Pool, t: nat): (r: Pool)
    requires WellFormed(s.gate) && t < |s.gate.phase|
    ensures SameStart(s, r) && SameStops(s, r) && r.life == s.life
  {
    Advance(s.(gate := Release(s.gate, t)))
  }

  ghost function BeginFailure(s: Pool, w: nat): (r: Pool)
    requires WellFormed(s.gate) && w < |s.workers|
    ensures |r.workers| == |s.workers|
  {
    if s.fatal then s
    else
      var c := ShutTo(s, Closing).(fatal := true);
      if c.stopEnqueued then c
      else c.(stopEnqueued := true, workers := Push(c.workers, StopToken, v => v != w))
  }

  function AfterFailure(a: Activity): (r: Activity) {
    if a.Serving? then Failing(a.ticket) else Draining
  }

  ghost function FailStep(s: Pool, w: nat): (r: Pool)
    requires WellFormed(s.gate) && w < |s.workers|
    ensures SameStart(s, r) && SameStops(s, r) && (s.life.New? || !r.life.New?)
  {
    SetActivity(BeginFailure(s, w), w, AfterFailure(s.workers[w].activity))
  }

  ghost function DispatchStep(s: Pool, t: nat): (r: Pool)
    requires WellFormed(s.gate) && t < |s.gate.phase| && s.next < |s.workers|
    ensures SameStart(s, r) && SameStops(s, r) && r.life == s.life
  {
    if s.fatal || s.life.Closed? then
      Advance(s.(gate := GiveBack(s.gate, t)))
    else
      var wk := s.workers[s.next];
      SetWorker(s, s.next, wk.(queue := wk.queue + [Req(t)]))
        .(gate := Hand(s.gate, t, Queued(s.next)), next := (s.next + 1) % |s.workers|)
  }

  ghost function TakeStep(s: Pool, w: nat): (r: Pool)
    requires w < |s.workers| && s.workers[w].queue != []
    ensures SameStart(s, r) && SameStops(s, r) && r.life == s.life
  {
    var wk := s.workers[w];
    var p := SetWorker(s, w, wk.(queue := wk.queue[1..],
                                 activity := match wk.queue[0]
                                             case StopToken => Exiting
                                             case PauseToken => PauseTaken
                                             case Req(t) => Serving(t)));
    match wk.queue[0]
    case Req(t) => if t < |s.gate.phase| then p.(gate := Hand(s.gate, t, Running(w))) else p
    case _ => p
  }

  ghost function AckStep(s: Pool, w: nat): (r: Pool)
    requires w < |s.workers|
    ensures SameStart(s, r) && SameStops(s, r) && (s.life.New? || !r.life.New?)
  {
    var p := SetWorker(s, w, s.workers[w].(activity := Idle, acked := true)).(pauseAcks := s.pauseAcks + 1);
    if p.pauseAcks == |p.workers| && p.life.Pausing? then SetLife(p, Paused) else p
  }

  ghost function DrainStep(s: Pool, w: nat): (r: Pool)
    requires WellFormed(s.gate) && w < |s.workers| && s.workers[w].queue != []
    ensures SameStart(s, r) && SameStops(s, r) && r.life == s.life
  {
    var wk := s.workers[w];
    var p := SetWorker(s, w, wk.(queue := wk.queue[1..]));
    match wk.queue[0]
    case Req(t) => if t < |s.gate.phase| then ReturnSlot(p, t) else p
    case _ => p
  }

  ghost function ExitStep(s: Pool, w: nat): (r: Pool)
    requires w < |s.workers|
    ensures SameStart(s, r) && (s.life.New? || !r.life.New?)
  {
    var p := SetWorker(s, w, s.workers[w].(activity := Stopped, connectionOpen := false))
             .(stoppedCount := s.stoppedCount + 1);
    if p.stoppedCount == |p.workers| then SetLife(p, Closed) else p
  }

  ghost predicate LiveTicket(s: Pool, t: nat) {
    t < |s.gate.phase|
  }

  ghost predicate Enabled(s: Pool, a: Action) {
    && WellFormed(s.gate) && s.next < |s.workers|
    && match a
       case StartBegin => s.life.New?
       case StartThread => s.starter && !s.startFailed && s.started < |s.workers|
       case StartDone => s.starter && !s.startFailed && s.started == |s.workers|
       case StartFail => s.starter && !s.startFailed && s.started < |s.workers|
       case StartFailDone =>
         s.starter && s.startFailed
         && forall w :: 0 <= w < |s.workers| && w < s.started ==> s.workers[w].activity.Stopped?
       case Submit => s.life.Open?
       case Consume(t) => LiveTicket(s, t) && s.gate.phase[t].Granted?
       case Withdraw(t) => LiveTicket(s, t)
       case DeliverGrant(t, _) => LiveTicket(s, t)
       case Dispatch(t) => LiveTicket(s, t) && s.gate.phase[t].Held?
       case Take(w) => w < |s.workers| && w < s.started && s.workers[w].activity.Idle? && s.workers[w].queue != []
       case Connect(w) => w < |s.workers| && s.workers[w].activity.Serving?
       case Disconnect(w) => w < |s.workers|
       case Finish(w) => w < |s.workers| && s.workers[w].activity.Serving? && LiveTicket(s, s.workers[w].activity.ticket)
       case PauseClose(w) => w < |s.workers| && s.workers[w].activity.PauseTaken?
       case PauseAck(w) => w < |s.workers| && s.workers[w].activity.PauseClosed?
       case Fail(w) =>
         w < |s.workers| && w < s.started &&
         var x := s.workers[w].activity; x.Idle? || x.Serving? || x.PauseTaken? || x.PauseClosed?
       case FailRelease(w) =>
         w < |s.workers| && s.workers[w].activity.Failing? && LiveTicket(s, s.workers[w].activity.ticket)
       case Drain(w) => w < |s.workers| && s.workers[w].activity.Draining? && s.workers[w].queue != []
       case DrainDone(w) => w < |s.workers| && s.workers[w].activity.Draining? && s.workers[w].queue == []
       case Exit(w) => w < |s.workers| && s.workers[w].activity.Exiting?
       case RequestPause => s.life.Open?
       case Resume => s.life.Paused?
       case RequestClose => !s.life.Closing? && !s.life.Closed?
  }

  /** The actions of worker threads. */
  predicate OfWorker(a: Action) {
    a.Take? || a.Connect? || a.Disconnect? || a.Finish? || a.PauseClose? || a.PauseAck?
    || a.Fail? || a.FailRelease? || a.Drain? || a.DrainDone? || a.Exit?
  }

  /** Nobody closes the pool from another thread while start() is creating its threads. */
  predicate Undisturbed(s: Pool, a: Action) {
    !(s.starter && !s.startFailed && a.RequestClose?)
  }

  ghost function Next(s: Pool, a: Action): (r: Pool)
    requires Enabled(s, a)
  {
    match a
    case StartBegin => SetLife(s, Starting).(starter := true)
    case StartDone =>                                          // overwrites whatever the state became
      SetLife(s, Open).(starter := false, overwritten := s.fatal)
    case StartThread => s.(started := s.started + 1)
    case StartFail => s.(startFailed := true, workers := Push(s.workers, StopToken, w => w < s.started))
    case StartFailDone => SetLife(s, Closed).(fatal := true, starter := false)
    case Submit => s.(gate := Arrive(s.gate).0)
    case Consume(t) => s.(gate := Hand(s.gate, t, Held))
    case Withdraw(t) => Advance(s.(gate := Cancel(s.gate, t)))
    case DeliverGrant(t, settled) =>
      if s.gate.phase[t].Granted? && settled then ReturnSlot(s, t) else s
    case Dispatch(t) => DispatchStep(s, t)
    case Take(w) => TakeStep(s, w)
    case Connect(w) => SetWorker(s, w, s.workers[w].(connectionOpen := true))
    case Disconnect(w) => SetWorker(s, w, s.workers[w].(connectionOpen := false))
    case Finish(w) => ReturnSlot(SetActivity(s, w, Idle), s.workers[w].activity.ticket)
    case PauseClose(w) => SetWorker(s, w, s.workers[w].(activity := PauseClosed, connectionOpen := false))
    case PauseAck(w) => AckStep(s, w)
    case Fail(w) => FailStep(s, w)
    case FailRelease(w) => ReturnSlot(SetActivity(s, w, Draining), s.workers[w].activity.ticket)
    case Drain(w) => DrainStep(s, w)
    case DrainDone(w) => SetActivity(s, w, Exiting)
    case Exit(w) => ExitStep(s, w)
    case RequestPause => Advance(ShutTo(s, Pausing))
    case Resume =>
      SetLife(s, Open).(pauseEnqueued := false, pauseAcks := 0, workers := ClearAcks(s.workers))
    case RequestClose => if s.life.New? then SetLife(s, Closed) else Advance(ShutTo(s, Closing))
  }

  function Initial(workers: nat, capacity: nat, maxWaiters: nat): (s: Pool) {
    Pool(Gate(capacity, maxWaiters, false, 0, [], [], [], []), New,
         seq(workers, i => Worker([], false, Idle, false)), 0, false, 0, false, 0, false, false, false, 0, false)
  }

  // ----- invariant -----

  /** The requests of worker `w` are exactly where the ticket phases say. */
  ghost predicate Located(phase: seq<Phase>, w: nat, wk: Worker) {
    && (forall i :: 0 <= i < |wk.queue| && wk.queue[i].Req? ==>
          wk.queue[i].ticket < |phase| && phase[wk.queue[i].ticket] == Queued(w))
    && (forall i, j :: 0 <= i < j < |wk.queue| && wk.queue[i].Req? ==> wk.queue[i] != wk.queue[j])
    && (IsBusy(wk) ==> wk.activity.ticket < |phase| && phase[wk.activity.ticket] == Running(w))
  }

  /** The worker that the phase of `t` names really has the request. */
  ghost predicate Placed(workers: seq<Worker>, t: nat, p: Phase) {
    match p
    case Queued(w) => w < |workers| && Req(t) in workers[w].queue
    case Running(w) => w < |workers| && IsBusy(workers[w]) && workers[w].activity.ticket == t
    case _ => true
  }

  /** No request sits behind STOP, and a worker that leaves abandons no request. */
  ghost predicate StopLast(wk: Worker) {
    && (forall i, j :: 0 <= i < j < |wk.queue| && wk.queue[i].StopToken? ==> !wk.queue[j].Req?)
    && (Retired(wk.activity) ==> forall i :: 0 <= i < |wk.queue| ==> !wk.queue[i].Req?)
  }

  /** The lifecycle flags that the workers' books must agree with. */
  datatype Flags = Flags(pause: bool, stop: bool, fatal: bool, startFailed: bool, overwritten: bool)

  function FlagsOf(s: Pool): Flags {
    Flags(s.pauseEnqueued, s.stopEnqueued, s.fatal, s.startFailed, s.overwritten)
  }

  ghost predicate StopFlags(f: Flags, wk: Worker) {
    && (StopToken in wk.queue || Retired(wk.activity) ==> f.stop || f.startFailed)
    && (wk.activity.Failing? || wk.activity.Draining? ==> f.fatal)
    && (f.stop ==>
          StopToken in wk.queue || wk.activity.Failing? || wk.activity.Draining? || Retired(wk.activity))
  }

  /** Of a pending PAUSE, its handling and its acknowledgement, at most one is true of a worker. */
  ghost predicate PauseOnce(f: Flags, wk: Worker) {
    var handling := wk.activity.PauseTaken? || wk.activity.PauseClosed?;
    && (PauseToken in wk.queue || handling || wk.acked ==> f.pause)
    && (forall i, j :: 0 <= i < j < |wk.queue| && wk.queue[i].PauseToken? ==> !wk.queue[j].PauseToken?)
    && (PauseToken in wk.queue ==> !handling && !wk.acked)
    && (handling ==> !wk.acked)
    && (wk.activity.PauseClosed? || wk.acked ==> !wk.connectionOpen)
  }

  /** In a pool opened after a failure no worker ever gets a request, and STOP is in front of any PAUSE. */
  ghost predicate DoomedWorker(f: Flags, wk: Worker) {
    f.overwritten ==>
      && f.stop && !wk.acked
      && (wk.activity.Idle? || wk.activity.Draining? || Retired(wk.activity))
      && (forall i :: 0 <= i < |wk.queue| ==> !wk.queue[i].Req?)
      && (forall i, j :: 0 <= i < j < |wk.queue| && wk.queue[i].PauseToken? ==> !wk.queue[j].StopToken?)
  }

  ghost predicate WorkerOk(f: Flags, phase: seq<Phase>, w: nat, wk: Worker) {
    Located(phase, w, wk) && StopLast(wk) && StopFlags(f, wk) && PauseOnce(f, wk) && DoomedWorker(f, wk)
  }

  /** What a worker without a thread looks like: nothing but STOPs can have reached it. */
  ghost predicate Untouched(wk: Worker) {
    && wk == Worker(wk.queue, false, Idle, false)
    && forall i :: 0 <= i < |wk.queue| ==> wk.queue[i].StopToken?
  }

  ghost predicate Books(f: Flags, phase: seq<Phase>, workers: seq<Worker>) {
    && (forall w :: 0 <= w < |workers| ==> WorkerOk(f, phase, w, workers[w]))
    && (forall t :: 0 <= t < |phase| ==> Placed(workers, t, phase[t]))
  }

  ghost predicate WorkersOk(s: Pool) {
    Books(FlagsOf(s), s.gate.phase, s.workers)
  }

  /** Before all threads exist, and while start() runs, nothing was admitted yet. */
  ghost predicate StartOk(s: Pool) {
    var n, idle := |s.workers|, s.gate.outstanding == 0;
    && s.started <= n
    && (s.life.New? ==> s.started == 0 && !s.starter && !s.startFailed)
    && (s.life.Starting? ==> s.starter)
    && (s.life.New? || s.life.Starting? ==> !s.stopEnqueued && !s.fatal)
    && (s.starter || s.life.New? || s.started < n ==>
          idle && !s.pauseEnqueued && !s.life.Open? && !s.life.Pausing? && !s.life.Paused?)
    && (s.startFailed ==> s.started < n)
    && (s.starter && !s.life.Starting? ==> s.fatal || s.startFailed)
    && (s.overwritten ==> s.fatal && s.stopEnqueued && s.started == n && !s.starter)
    && (s.started < n && !s.starter ==>
          s.startFailed || (s.started == 0 && !s.stopEnqueued && (s.life.New? || s.life.Closed?)))
    && (forall w :: s.started <= w < n ==> Untouched(s.workers[w]))
  }

  ghost predicate LifeBase(s: Pool) {
    var n, idle := |s.workers|, s.gate.outstanding == 0;
    && s.next < n
    && s.gate.open == s.life.Open?
    && StartOk(s)
    && (s.life.Open? ==> !s.pauseEnqueued)
    && (s.life.Open? || s.life.Pausing? ==> s.stopEnqueued == s.fatal == s.overwritten)
    && (s.life.Paused? ==> s.pauseAcks == n && s.pauseEnqueued && !s.stopEnqueued && !s.fatal)
    && (s.pauseEnqueued ==> idle)
    && (s.stopEnqueued ==> s.fatal || idle)
    && (s.fatal ==> s.stopEnqueued || s.startFailed)
    && s.pauseAcks == Count(s.workers, IsAcked)
    && s.stoppedCount == Count(s.workers, IsStopped)
  }

  /** A pause or close that has nothing left to wait for has already sent its tokens. */
  ghost predicate TokensSent(s: Pool) {
    s.gate.outstanding == 0 ==> (s.life.Pausing? ==> s.pauseEnqueued) && (s.life.Closing? ==> s.stopEnqueued)
  }

  ghost predicate ActorInv(s: Pool) {
    WorkersOk(s) && LifeBase(s) && TokensSent(s)
  }

  /** Only a pool opened after a failure may leave submissions waiting for nothing. */
  ghost predicate GateOk(s: Pool) {
    Core(s.gate) && (!s.overwritten ==> Inv(s.gate))
  }

  ghost predicate PoolInv(s: Pool) {
    GateOk(s) && ActorInv(s)
  }

  // ----- preservation -----

  lemma InitialInv(workers: nat, capacity: nat, maxWaiters: nat)
    requires workers >= 1
    ensures PoolInv(Initial(workers, capacity, maxWaiters))
  {
    hide Count;
    var s := Initial(workers, capacity, maxWaiters);
    CountZero(s.workers, IsAcked);
    CountZero(s.workers, IsStopped);
  }

  predicate NoWork(p: Phase) {
    !p.Queued? && !p.Running?
  }

  /** Admission moves that touch no dispatched request leave the workers' books right. */
  lemma GateFrame(s: Pool, h: Gate)
    requires WorkersOk(s) && |h.phase| >= |s.gate.phase|
    requires forall t :: 0 <= t < |h.phase| ==>
               (t < |s.gate.phase| && h.phase[t] == s.gate.phase[t])
               || (NoWork(h.phase[t]) && (t < |s.gate.phase| ==> NoWork(s.gate.phase[t])))
    ensures WorkersOk(s.(gate := h))
  {
  }

  /** With no slot outstanding no worker queue holds a request and no worker serves one. */
  lemma IdleMeansNoRequests(s: Pool)
    requires Core(s.gate) && WorkersOk(s) && s.gate.outstanding == 0
    ensures forall w :: 0 <= w < |s.workers| ==> !IsBusy(s.workers[w])
    ensures forall w, i :: 0 <= w < |s.workers| && 0 <= i < |s.workers[w].queue| ==> !s.workers[w].queue[i].Req?
  {
    hide Count;
    ZeroMeansNoOwner(s.gate);
  }

  /** Appending a control token keeps one worker's books right. */
  lemma PushOne(phase: seq<Phase>, w: nat, wk: Worker, x: Item)
    requires Located(phase, w, wk) && StopLast(wk)
    requires !x.Req?
    ensures var k := wk.(queue := wk.queue + [x]);
            Located(phase, w, k) && StopLast(k)
  {
  }

  lemma PushBooks(s: Pool, x: Item)
    requires WorkersOk(s)
    requires (x == PauseToken && !s.pauseEnqueued) || (x == StopToken && !s.stopEnqueued)
    ensures Books(if x.PauseToken? then FlagsOf(s).(pause := true) else FlagsOf(s).(stop := true),
                  s.gate.phase, Push(s.workers, x, w => true))
  {
    hide Count;
    var f := if x.PauseToken? then FlagsOf(s).(pause := true) else FlagsOf(s).(stop := true);
    var r := Push(s.workers, x, w => true);
    forall w | 0 <= w < |r| ensures WorkerOk(f, s.gate.phase, w, r[w]) {
      assert WorkerOk(FlagsOf(s), s.gate.phase, w, s.workers[w]);
      PushOne(s.gate.phase, w, s.workers[w], x);
      assert r[w].queue[|s.workers[w].queue|] == x;
    }
    forall t | 0 <= t < |s.gate.phase| ensures Placed(r, t, s.gate.phase[t]) {
      assert Placed(s.workers, t, s.gate.phase[t]);
    }
  }

  /** A token that goes to everybody leaves the threads that do not exist yet untouched. */
  lemma PushUntouched(s: Pool, x: Item)
    requires StartOk(s) && (x.StopToken? || s.started == |s.workers|)
    ensures var r := Push(s.workers, x, w => true);
            forall w :: s.started <= w < |r| ==> Untouched(r[w])
  {
  }

  lemma AdvanceInv(s: Pool)
    requires WorkersOk(s) && LifeBase(s)
    ensures ActorInv(Advance(s)) && Advance(s).gate == s.gate
  {
    hide Count;
    hide Books;
    if s.gate.outstanding == 0 {
      var r := Advance(s);
      if s.life.Pausing? && !s.pauseEnqueued {
        PushBooks(s, PauseToken);
        PushUntouched(s, PauseToken);
      } else if s.life.Closing? && !s.stopEnqueued {
        PushBooks(s, StopToken);
        PushUntouched(s, StopToken);
      }
      CountSame(s.workers, r.workers, IsAcked);
      CountSame(s.workers, r.workers, IsStopped);
      hide Untouched;
    }
  }

  lemma SubmitGate(s: Pool)
    requires GateOk(s) && s.gate.open
    ensures var h := Arrive(s.gate).0;
            GateOk(s.(gate := h)) && SameLimits(s.gate, h) && Extended(s.gate.phase, h.phase)
  {
    hide Count;
    ArriveCore(s.gate);
    if !s.overwritten { ArriveInv(s.gate); }
    hide Core, WorkConserving, NoneWaiting, Arrive, Extended;
  }

  lemma SubmitInv(s: Pool)
    requires PoolInv(s) && s.life.Open?
    ensures PoolInv(s.(gate := Arrive(s.gate).0))
  {
    hide Count;
    SubmitGate(s);
    hide Books, Core, Inv, Arrive;
    GateFrame(s, Arrive(s.gate).0);
  }

  lemma ConsumeInv(s: Pool, t: nat)
    requires PoolInv(s) && t < |s.gate.phase| && s.gate.phase[t].Granted?
    ensures PoolInv(s.(gate := Hand(s.gate, t, Held)))
  {
    hide Count;
    HandInv(s.gate, t, Held);
    GateFrame(s, Hand(s.gate, t, Held));
  }

  lemma WithdrawInv(s: Pool, t: nat)
    requires PoolInv(s) && t < |s.gate.phase|
    ensures PoolInv(Advance(s.(gate := Cancel(s.gate, t))))
  {
    hide Count;
    hide Books, SlotsOk;
    CancelInv(s.gate, t);
    var h := Cancel(s.gate, t);
    GateFrame(s, h);
    if !s.gate.open && s.gate.outstanding == 0 {
      ZeroMeansNoOwner(s.gate);
      IdleStays(s.gate, h, t);
    }
    AdvanceInv(s.(gate := h));
  }

  /** On a shut gate, moving `t` out of its phase creates no new owner. */
  lemma IdleStays(g: Gate, h: Gate, t: nat)
    requires Core(g) && Core(h) && !g.open && g.outstanding == 0 && |h.phase| == |g.phase| && t < |g.phase|
    requires forall u :: 0 <= u < |g.phase| && u != t ==> h.phase[u] == g.phase[u]
    requires !Owns(h.phase[t])
    ensures h.outstanding == 0
  {
    hide Count;
    ZeroMeansNoOwner(g);
    ZeroMeansNoOwner(h);
  }

  /** Returning the slot of `t`, once the workers no longer account for `t`. */
  lemma ReturnSlotInv(s: Pool, t: nat)
    requires GateOk(s) && LifeBase(s) && t < |s.gate.phase| && Owns(s.gate.phase[t])
    requires WorkersOk(s.(gate := Hand(s.gate, t, Returned)))
    ensures PoolInv(ReturnSlot(s, t))
  {
    hide Count;
    ReleaseInv(s.gate, t);
    ZeroMeansNoOwner(s.gate);
    GateFrame(s.(gate := Hand(s.gate, t, Returned)), Release(s.gate, t));
    AdvanceInv(s.(gate := Release(s.gate, t)));
  }

  lemma DeliverInv(s: Pool, t: nat)
    requires PoolInv(s) && t < |s.gate.phase| && s.gate.phase[t].Granted?
    ensures PoolInv(ReturnSlot(s, t))
  {
    hide Count;
    GateFrame(s, Hand(s.gate, t, Returned));
    ReturnSlotInv(s, t);
  }

  /** Worker `w` becomes `wk` while at most submission `t` moves, and moves only to or from `w`. */
  lemma OneWorker(s: Pool, w: nat, wk: Worker, t: nat, p: Phase)
    requires WorkersOk(s) && w < |s.workers| && t < |s.gate.phase|
    requires WorkerOk(FlagsOf(s), s.gate.phase[t := p], w, wk)
    requires NoWork(s.gate.phase[t]) || s.gate.phase[t].worker == w
    requires (NoWork(p) || p.worker == w) && Placed(s.workers[w := wk], t, p)
    requires forall u :: 0 <= u < |s.gate.phase| && u != t && s.gate.phase[u] == Queued(w) ==> Req(u) in wk.queue
    requires forall u :: 0 <= u < |s.gate.phase| && u != t && s.gate.phase[u] == Running(w) ==>
               IsBusy(wk) && wk.activity.ticket == u
    ensures WorkersOk(SetWorker(s, w, wk).(gate := Hand(s.gate, t, p)))
  {
    hide Count, StopLast, StopFlags, PauseOnce, DoomedWorker;
    var phase, workers := s.gate.phase[t := p], s.workers[w := wk];
    forall v | 0 <= v < |workers| ensures WorkerOk(FlagsOf(s), phase, v, workers[v]) {
      if v != w { ElsewhereOk(FlagsOf(s), s.gate.phase, t, p, w, v, s.workers[v]); }
    }
    forall u | 0 <= u < |phase| ensures Placed(workers, u, phase[u]) {
      if u != t { assert Placed(s.workers, u, s.gate.phase[u]); }
    }
  }

  /** A submission that moves only to or from worker `w` leaves the books of another worker right. */
  lemma ElsewhereOk(f: Flags, phase: seq<Phase>, t: nat, p: Phase, w: nat, v: nat, wk: Worker)
    requires WorkerOk(f, phase, v, wk) && v != w && t < |phase|
    requires NoWork(phase[t]) || phase[t].worker == w
    ensures WorkerOk(f, phase[t := p], v, wk)
  {
    hide StopLast, StopFlags, PauseOnce, DoomedWorker;
  }

  /** The same when no submission moves. */
  lemma OnlyWorker(s: Pool, w: nat, wk: Worker)
    requires WorkersOk(s) && w < |s.workers|
    requires WorkerOk(FlagsOf(s), s.gate.phase, w, wk)
    requires forall u :: 0 <= u < |s.gate.phase| && s.gate.phase[u] == Queued(w) ==> Req(u) in wk.queue
    requires forall u :: 0 <= u < |s.gate.phase| && s.gate.phase[u] == Running(w) ==>
               IsBusy(wk) && wk.activity.ticket == u
    ensures WorkersOk(SetWorker(s, w, wk))
  {
  }

  lemma CountsKept(s: Pool, w: nat, wk: Worker)
    requires w < |s.workers| && IsAcked(wk) == IsAcked(s.workers[w]) && IsStopped(wk) == IsStopped(s.workers[w])
    ensures Count(s.workers[w := wk], IsAcked) == Count(s.workers, IsAcked)
    ensures Count(s.workers[w := wk], IsStopped) == Count(s.workers, IsStopped)
  {
    hide Count;
    CountUpdate(s.workers, w, wk, IsAcked);
    CountUpdate(s.workers, w, wk, IsStopped);
  }

  /** One worker's books change and nothing else does. */
  lemma SwapWorker(s: Pool, w: nat, wk: Worker)
    requires ActorInv(s) && w < |s.workers|
    requires WorkerOk(FlagsOf(s), s.gate.phase, w, wk)
    requires forall u :: 0 <= u < |s.gate.phase| && s.gate.phase[u] == Queued(w) ==> Req(u) in wk.queue
    requires IsBusy(wk) == IsBusy(s.workers[w]) && (IsBusy(wk) ==> wk.activity.ticket == s.workers[w].activity.ticket)
    requires IsAcked(wk) == IsAcked(s.workers[w]) && IsStopped(wk) == IsStopped(s.workers[w])
    requires w < s.started || wk == s.workers[w]
    ensures ActorInv(SetWorker(s, w, wk))
  {
    hide Count;
    assert WorkersOk(SetWorker(s, w, wk)) by { OnlyWorker(s, w, wk); }
    CountsKept(s, w, wk);
  }

  lemma AppendReqOk(s: Pool, w: nat, wk: Worker, t: nat)
    requires WorkerOk(FlagsOf(s), s.gate.phase, w, wk) && t < |s.gate.phase| && s.gate.phase[t].Held?
    requires StopToken !in wk.queue && PauseToken !in wk.queue && !Retired(wk.activity) && !s.overwritten
    ensures WorkerOk(FlagsOf(s), s.gate.phase[t := Queued(w)], w, wk.(queue := wk.queue + [Req(t)]))
  {
    hide Count;
    var q := wk.queue + [Req(t)];
    assert forall i :: 0 <= i < |wk.queue| ==> q[i] == wk.queue[i];
    assert q[|wk.queue|] == Req(t);
  }

  /** A slot handed to a live worker's queue: no STOP and no PAUSE can be in front of it. */
  lemma EnqueueBooks(s: Pool, t: nat)
    requires WorkersOk(s) && WellFormed(s.gate) && t < |s.gate.phase| && s.gate.phase[t].Held? && s.next < |s.workers|
    requires !s.stopEnqueued && !s.startFailed && !s.pauseEnqueued && !s.fatal && !s.overwritten && !s.life.Closed?
    ensures WorkersOk(DispatchStep(s, t))
  {
    hide Count;
    var w, wk := s.next, s.workers[s.next];
    assert WorkerOk(FlagsOf(s), s.gate.phase, w, wk);
    AppendReqOk(s, w, wk, t);
    var k := wk.(queue := wk.queue + [Req(t)]);
    assert k.queue[|wk.queue|] == Req(t);
    OneWorker(s, w, k, t, Queued(w));
  }

  lemma EnqueueInv(s: Pool, t: nat)
    requires PoolInv(s) && t < |s.gate.phase| && s.gate.phase[t].Held? && !s.fatal && !s.life.Closed?
    ensures PoolInv(DispatchStep(s, t))
  {
    hide Count;
    assert s.gate.outstanding > 0 by { ZeroMeansNoOwner(s.gate); }
    EnqueueBooks(s, t);
    HandInv(s.gate, t, Queued(s.next));
    var wk := s.workers[s.next];
    CountsKept(s, s.next, wk.(queue := wk.queue + [Req(t)]));
  }

  lemma DispatchInv(s: Pool, t: nat)
    requires PoolInv(s) && t < |s.gate.phase| && s.gate.phase[t].Held?
    ensures PoolInv(DispatchStep(s, t))
  {
    hide Count;
    if s.fatal || s.life.Closed? {
      var h := GiveBack(s.gate, t);
      ZeroMeansNoOwner(s.gate);
      GiveBackCore(s.gate, t);
      GateFrame(s, h);
      AdvanceInv(s.(gate := h));
    } else {
      EnqueueInv(s, t);
    }
  }

  /** Taking the front item leaves the rest of the queue in order. */
  lemma TailOk(q: seq<Item>, x: Item, rest: seq<Item>)
    requires q == [x] + rest
    ensures forall i :: 0 <= i < |rest| ==> rest[i] == q[i + 1]
    ensures forall y :: y in q <==> y == x || y in rest
  {
    hide Count;
    assert forall y :: y in [x] <==> y == x;
  }

  /** The rest of a queue keeps its order and holds each request once. */
  lemma PopOrder(phase: seq<Phase>, w: nat, wk: Worker, k: Worker)
    requires Located(phase, w, wk) && StopLast(wk) && wk.queue != [] && k.queue == wk.queue[1..] && !IsBusy(k)
    requires Retired(k.activity) ==> wk.queue[0].StopToken?
    ensures Located(phase, w, k) && StopLast(k)
    ensures wk.queue[0].Req? ==> wk.queue[0] !in k.queue
  {
    assert forall i :: 0 <= i < |k.queue| ==> k.queue[i] == wk.queue[i + 1];
  }

  lemma PopTokenFlags(f: Flags, wk: Worker, k: Worker)
    requires StopFlags(f, wk) && PauseOnce(f, wk) && DoomedWorker(f, wk) && wk.queue != [] && wk.activity.Idle?
    requires k == wk.(queue := wk.queue[1..], activity := if wk.queue[0].PauseToken? then PauseTaken else Exiting)
    requires !wk.queue[0].Req?
    ensures StopFlags(f, k) && PauseOnce(f, k) && DoomedWorker(f, k)
  {
    assert wk.queue == [wk.queue[0]] + k.queue;
    TailOk(wk.queue, wk.queue[0], k.queue);
  }

  lemma PopTokenOk(s: Pool, w: nat, wk: Worker, a: Activity)
    requires WorkerOk(FlagsOf(s), s.gate.phase, w, wk) && wk.queue != [] && wk.activity.Idle?
    requires (wk.queue[0] == PauseToken && a == PauseTaken) || (wk.queue[0] == StopToken && a == Exiting)
    ensures WorkerOk(FlagsOf(s), s.gate.phase, w, wk.(queue := wk.queue[1..], activity := a))
  {
    var k := wk.(queue := wk.queue[1..], activity := a);
    hide Located, StopLast, StopFlags, PauseOnce, DoomedWorker;
    PopOrder(s.gate.phase, w, wk, k);
    PopTokenFlags(FlagsOf(s), wk, k);
  }

  lemma PopReqFlags(f: Flags, wk: Worker, k: Worker)
    requires StopFlags(f, wk) && PauseOnce(f, wk) && DoomedWorker(f, wk) && wk.queue != [] && wk.activity.Idle?
    requires wk.queue[0].Req? && k == wk.(queue := wk.queue[1..], activity := Serving(wk.queue[0].ticket))
    ensures StopFlags(f, k) && PauseOnce(f, k) && DoomedWorker(f, k)
  {
    assert wk.queue == [wk.queue[0]] + k.queue;
    TailOk(wk.queue, wk.queue[0], k.queue);
  }

  /** The request in front starts to run: its ticket is nowhere else in the queue. */
  lemma PopReqLocated(phase: seq<Phase>, w: nat, wk: Worker, t: nat)
    requires Located(phase, w, wk) && StopLast(wk) && wk.queue != [] && wk.activity.Idle? && wk.queue[0] == Req(t)
    ensures t < |phase| && phase[t] == Queued(w)
    ensures var k := wk.(queue := wk.queue[1..], activity := Serving(t));
            Located(phase[t := Running(w)], w, k) && StopLast(k)
  {
    var k := wk.(queue := wk.queue[1..], activity := Serving(t));
    assert forall i :: 0 <= i < |k.queue| ==> k.queue[i] == wk.queue[i + 1];
  }

  lemma PopReqOk(s: Pool, w: nat, wk: Worker, t: nat)
    requires WorkerOk(FlagsOf(s), s.gate.phase, w, wk) && wk.queue != [] && wk.activity.Idle? && wk.queue[0] == Req(t)
    ensures t < |s.gate.phase|
    ensures WorkerOk(FlagsOf(s), s.gate.phase[t := Running(w)], w, wk.(queue := wk.queue[1..], activity := Serving(t)))
  {
    hide Located, StopLast, StopFlags, PauseOnce, DoomedWorker;
    PopReqLocated(s.gate.phase, w, wk, t);
    PopReqFlags(FlagsOf(s), wk, wk.(queue := wk.queue[1..], activity := Serving(t)));
  }

  lemma TakeReqBooks(s: Pool, w: nat)
    requires WorkersOk(s) && w < |s.workers| && s.workers[w].queue != [] && s.workers[w].queue[0].Req?
    requires s.workers[w].activity.Idle?
    ensures WorkersOk(TakeStep(s, w))
    ensures s.workers[w].queue[0].ticket < |s.gate.phase| && s.gate.phase[s.workers[w].queue[0].ticket] == Queued(w)
  {
    hide Count;
    var wk := s.workers[w];
    var t, k := wk.queue[0].ticket, wk.(queue := wk.queue[1..], activity := Serving(wk.queue[0].ticket));
    assert WorkerOk(FlagsOf(s), s.gate.phase, w, wk);
    PopReqOk(s, w, wk, t);
    assert wk.queue == [wk.queue[0]] + wk.queue[1..];
    OneWorker(s, w, k, t, Running(w));
  }

  lemma TakeReqInv(s: Pool, w: nat)
    requires PoolInv(s) && Enabled(s, Take(w)) && s.workers[w].queue[0].Req?
    ensures PoolInv(TakeStep(s, w))
  {
    hide Count;
    hide Books;
    var wk := s.workers[w];
    var t := wk.queue[0].ticket;
    TakeReqBooks(s, w);
    assert s.gate.outstanding != 0 by { ZeroMeansNoOwner(s.gate); }
    HandInv(s.gate, t, Running(w));
    CountsKept(s, w, wk.(queue := wk.queue[1..], activity := Serving(t)));
  }

  lemma TakeTokenInv(s: Pool, w: nat)
    requires ActorInv(s) && w < |s.workers| && w < s.started && s.workers[w].activity.Idle? && s.workers[w].queue != []
    requires !s.workers[w].queue[0].Req?
    ensures ActorInv(TakeStep(s, w))
  {
    hide Count;
    var wk := s.workers[w];
    var a := if wk.queue[0].PauseToken? then PauseTaken else Exiting;
    assert wk.queue == [wk.queue[0]] + wk.queue[1..];
    assert WorkerOk(FlagsOf(s), s.gate.phase, w, wk);
    PopTokenOk(s, w, wk, a);
    SwapWorker(s, w, wk.(queue := wk.queue[1..], activity := a));
  }

  lemma TakeInv(s: Pool, w: nat)
    requires PoolInv(s) && Enabled(s, Take(w))
    ensures PoolInv(TakeStep(s, w))
  {
    hide Count;
    if s.workers[w].queue[0].Req? {
      TakeReqInv(s, w);
    } else {
      TakeTokenInv(s, w);
    }
  }

  lemma ConnectInv(s: Pool, w: nat, open: bool)
    requires ActorInv(s) && w < |s.workers| && (open ==> s.workers[w].activity.Serving? && s.gate.outstanding != 0)
    ensures ActorInv(SetWorker(s, w, s.workers[w].(connectionOpen := open)))
  {
    hide Count;
    assert WorkerOk(FlagsOf(s), s.gate.phase, w, s.workers[w]);
    SwapWorker(s, w, s.workers[w].(connectionOpen := open));
  }

  lemma FinishBooks(s: Pool, w: nat, k: Worker)
    requires WorkersOk(s) && w < |s.workers| && IsBusy(s.workers[w])
    requires k == s.workers[w].(activity := if s.workers[w].activity.Serving? then Idle else Draining)
    ensures var t := s.workers[w].activity.ticket;
            && t < |s.gate.phase| && s.gate.phase[t] == Running(w)
            && WorkersOk(SetWorker(s, w, k).(gate := Hand(s.gate, t, Returned)))
  {
    hide Count;
    assert WorkerOk(FlagsOf(s), s.gate.phase, w, s.workers[w]);
    OneWorker(s, w, k, s.workers[w].activity.ticket, Returned);
  }

  lemma FinishInv(s: Pool, w: nat)
    requires PoolInv(s) && w < |s.workers| && IsBusy(s.workers[w])
    ensures PoolInv(ReturnSlot(SetActivity(s, w, if s.workers[w].activity.Serving? then Idle else Draining),
                               s.workers[w].activity.ticket))
  {
    hide Count;
    hide Books, DequeOk, SlotsOk;
    var wk := s.workers[w];
    var t, k := wk.activity.ticket, wk.(activity := if wk.activity.Serving? then Idle else Draining);
    FinishBooks(s, w, k);
    CountsKept(s, w, k);
    hide WorkersOk, WellFormed;
    ReturnSlotInv(SetWorker(s, w, k), t);
  }

  lemma PauseCloseInv(s: Pool, w: nat)
    requires ActorInv(s) && w < |s.workers| && s.workers[w].activity.PauseTaken?
    ensures ActorInv(SetWorker(s, w, s.workers[w].(activity := PauseClosed, connectionOpen := false)))
  {
    hide Count;
    assert WorkerOk(FlagsOf(s), s.gate.phase, w, s.workers[w]);
    SwapWorker(s, w, s.workers[w].(activity := PauseClosed, connectionOpen := false));
  }

  lemma AckBooks(s: Pool, w: nat, k: Worker)
    requires WorkersOk(s) && w < |s.workers| && s.workers[w].activity.PauseClosed?
    requires k == s.workers[w].(activity := Idle, acked := true)
    ensures WorkersOk(SetWorker(s, w, k)) && s.pauseEnqueued && !s.workers[w].acked
  {
    hide Count;
    assert WorkerOk(FlagsOf(s), s.gate.phase, w, s.workers[w]);
    OnlyWorker(s, w, k);
  }

  lemma AckInv(s: Pool, w: nat)
    requires ActorInv(s) && w < |s.workers| && s.workers[w].activity.PauseClosed?
    ensures ActorInv(AckStep(s, w)) && AckStep(s, w).gate == s.gate
  {
    hide Count;
    var k := s.workers[w].(activity := Idle, acked := true);
    AckBooks(s, w, k);
    CountUpdate(s.workers, w, k, IsAcked);
    CountUpdate(s.workers, w, k, IsStopped);
  }

  /** Flags may be raised as long as every worker's books still agree with them. */
  lemma Reflag(s: Pool, r: Pool)
    requires WorkersOk(s) && r.workers == s.workers && r.gate.phase == s.gate.phase
    requires forall w :: 0 <= w < |s.workers| ==>
               StopFlags(FlagsOf(r), s.workers[w]) && PauseOnce(FlagsOf(r), s.workers[w]) && DoomedWorker(FlagsOf(r), s.workers[w])
    ensures WorkersOk(r)
  {
  }

  /** Shutting admission for a pause, a close or a failure. */
  lemma ShutWorkers(s: Pool)
    requires PoolInv(s)
    ensures Inv(Shut(s.gate)) && WorkersOk(s.(gate := Shut(s.gate)))
    ensures Shut(s.gate).outstanding == s.gate.outstanding && !Shut(s.gate).open
  {
    hide Count;
    ShutInv(s.gate);
    GateFrame(s, Shut(s.gate));
  }

  lemma RequestPauseInv(s: Pool)
    requires PoolInv(s) && s.life.Open?
    ensures PoolInv(Advance(ShutTo(s, Pausing)))
  {
    hide Count;
    ShutWorkers(s);
    AdvanceInv(ShutTo(s, Pausing));
  }

  lemma RequestCloseInv(s: Pool)
    requires PoolInv(s) && Undisturbed(s, RequestClose) && Enabled(s, RequestClose)
    ensures PoolInv(Next(s, RequestClose))
  {
    hide Count;
    if s.life.New? {
    } else {
      ShutWorkers(s);
      AdvanceInv(ShutTo(s, Closing));
    }
  }

  lemma ResumeBooks(s: Pool)
    requires PoolInv(s) && s.life.Paused?
    ensures WorkersOk(Next(s, Resume))
  {
    hide Count;
    var r := Next(s, Resume);
    CountAll(s.workers, IsAcked);
    forall w | 0 <= w < |s.workers| ensures WorkerOk(FlagsOf(r), r.gate.phase, w, r.workers[w]) {
      assert WorkerOk(FlagsOf(s), s.gate.phase, w, s.workers[w]);
    }
  }

  lemma ResumeInv(s: Pool)
    requires PoolInv(s) && s.life.Paused?
    ensures PoolInv(Next(s, Resume))
  {
    hide Count;
    hide Books;
    var r := Next(s, Resume);
    ResumeBooks(s);
    ReopenCore(s.gate, true);
    CountZero(r.workers, IsAcked);
    CountSame(s.workers, r.workers, IsStopped);
  }

  lemma StartInv(s: Pool, a: Action)
    requires PoolInv(s) && Enabled(s, a) && (a.StartBegin? || a.StartThread? || a.StartDone? || a.StartFailDone?)
    ensures PoolInv(Next(s, a))
  {
    hide Count;
    if s.starter { IdleMeansNoRequests(s); }
    ReopenCore(s.gate, a.StartDone?);
    Reflag(s, Next(s, a));
  }

  lemma StartFailBooks(s: Pool)
    requires PoolInv(s) && Enabled(s, StartFail)
    ensures WorkersOk(Next(s, StartFail))
  {
    hide Count;
    var r := Next(s, StartFail);
    IdleMeansNoRequests(s);
    ZeroMeansNoOwner(s.gate);
    forall w | 0 <= w < |s.workers| ensures WorkerOk(FlagsOf(r), r.gate.phase, w, r.workers[w]) {
      assert WorkerOk(FlagsOf(s), s.gate.phase, w, s.workers[w]);
      PushOne(s.gate.phase, w, s.workers[w], StopToken);
    }
  }

  lemma StartFailInv(s: Pool)
    requires PoolInv(s) && Enabled(s, StartFail)
    ensures PoolInv(Next(s, StartFail))
  {
    hide Count;
    hide Books;
    var r := Next(s, StartFail);
    StartFailBooks(s);
    CountSame(s.workers, r.workers, IsAcked);
    CountSame(s.workers, r.workers, IsStopped);
  }

  /** A failing worker drops the front of its queue. */
  lemma DropFrontOk(s: Pool, w: nat, wk: Worker, phase: seq<Phase>)
    requires WorkerOk(FlagsOf(s), s.gate.phase, w, wk) && wk.queue != [] && wk.activity.Draining?
    requires phase == if wk.queue[0].Req? then s.gate.phase[wk.queue[0].ticket := Returned] else s.gate.phase
    ensures WorkerOk(FlagsOf(s), phase, w, wk.(queue := wk.queue[1..]))
  {
    hide Count;
    var k := wk.(queue := wk.queue[1..]);
    assert wk.queue == [wk.queue[0]] + k.queue;
    TailOk(wk.queue, wk.queue[0], k.queue);
    PopOrder(s.gate.phase, w, wk, k);
    assert StopFlags(FlagsOf(s), k) && PauseOnce(FlagsOf(s), k) && DoomedWorker(FlagsOf(s), k) by { hide Located, StopLast; }
    hide StopLast, StopFlags, PauseOnce, DoomedWorker;
  }

  lemma DrainReqBooks(s: Pool, w: nat, k: Worker)
    requires WorkersOk(s) && w < |s.workers| && s.workers[w].activity.Draining?
    requires s.workers[w].queue != [] && s.workers[w].queue[0].Req? && k == s.workers[w].(queue := s.workers[w].queue[1..])
    ensures var t := s.workers[w].queue[0].ticket;
            && t < |s.gate.phase| && s.gate.phase[t] == Queued(w)
            && WorkersOk(SetWorker(s, w, k).(gate := Hand(s.gate, t, Returned)))
  {
    hide Count;
    var wk := s.workers[w];
    var t := wk.queue[0].ticket;
    assert wk.queue == [wk.queue[0]] + k.queue;
    assert WorkerOk(FlagsOf(s), s.gate.phase, w, wk);
    DropFrontOk(s, w, wk, s.gate.phase[t := Returned]);
    OneWorker(s, w, k, t, Returned);
  }

  lemma DrainReqInv(s: Pool, w: nat)
    requires PoolInv(s) && Enabled(s, Drain(w)) && s.workers[w].queue[0].Req?
    ensures PoolInv(DrainStep(s, w))
  {
    hide Count;
    hide Books, DequeOk, SlotsOk;
    var wk := s.workers[w];
    var t, k := wk.queue[0].ticket, wk.(queue := wk.queue[1..]);
    DrainReqBooks(s, w, k);
    CountsKept(s, w, k);
    ReturnSlotInv(SetWorker(s, w, k), t);
  }

  lemma DrainTokenInv(s: Pool, w: nat)
    requires ActorInv(s) && w < |s.workers| && s.workers[w].activity.Draining? && s.workers[w].queue != []
    requires !s.workers[w].queue[0].Req?
    ensures ActorInv(SetWorker(s, w, s.workers[w].(queue := s.workers[w].queue[1..])))
  {
    hide Count;
    var wk := s.workers[w];
    assert wk.queue == [wk.queue[0]] + wk.queue[1..];
    assert WorkerOk(FlagsOf(s), s.gate.phase, w, wk);
    DropFrontOk(s, w, wk, s.gate.phase);
    SwapWorker(s, w, wk.(queue := wk.queue[1..]));
  }

  lemma DrainInv(s: Pool, w: nat)
    requires PoolInv(s) && Enabled(s, Drain(w))
    ensures PoolInv(DrainStep(s, w))
  {
    hide Count;
    var wk := s.workers[w];
    if wk.queue[0].Req? {
      DrainReqInv(s, w);
    } else {
      DrainTokenInv(s, w);
    }
  }

  lemma DrainDoneInv(s: Pool, w: nat)
    requires ActorInv(s) && w < |s.workers| && s.workers[w].activity.Draining? && s.workers[w].queue == []
    ensures ActorInv(SetActivity(s, w, Exiting))
  {
    hide Count;
    assert WorkerOk(FlagsOf(s), s.gate.phase, w, s.workers[w]);
    SwapWorker(s, w, s.workers[w].(activity := Exiting));
  }

  /** The last worker to stop is the one after which no worker runs. */
  lemma ExitCounts(s: Pool, w: nat)
    requires LifeBase(s) && w < |s.workers| && s.workers[w].activity.Exiting?
    ensures var r := ExitStep(s, w);
            && r.pauseAcks == Count(r.workers, IsAcked) && r.stoppedCount == Count(r.workers, IsStopped)
            && (r.stoppedCount == |r.workers| ==> s.started == |s.workers|)
  {
    hide Count;
    var k := s.workers[w].(activity := Stopped, connectionOpen := false);
    CountUpdate(s.workers, w, k, IsAcked);
    CountUpdate(s.workers, w, k, IsStopped);
    CountAll(s.workers[w := k], IsStopped);
    if s.started < |s.workers| {
      assert Untouched(s.workers[s.started]) && s.started != w;
      assert !IsStopped(s.workers[w := k][s.started]);
    }
  }

  lemma ExitBooks(s: Pool, w: nat)
    requires ActorInv(s) && w < |s.workers| && s.workers[w].activity.Exiting?
    ensures WorkersOk(SetWorker(s, w, s.workers[w].(activity := Stopped, connectionOpen := false)))
    ensures s.stopEnqueued || s.startFailed
  {
    hide Count;
    assert WorkerOk(FlagsOf(s), s.gate.phase, w, s.workers[w]);
    OnlyWorker(s, w, s.workers[w].(activity := Stopped, connectionOpen := false));
  }

  lemma ExitInv(s: Pool, w: nat)
    requires PoolInv(s) && w < |s.workers| && s.workers[w].activity.Exiting?
    ensures PoolInv(ExitStep(s, w))
  {
    hide Count;
    hide Books;
    ExitBooks(s, w);
    ExitCounts(s, w);
    ReopenCore(s.gate, false);
  }

  /** The first failure shuts admission, records itself and stops the other workers. */
  lemma FirstFailureBooks(s: Pool, w: nat, r: Pool)
    requires WorkersOk(s) && w < |s.workers| && !s.fatal && !s.overwritten && FlagsOf(r) == FlagsOf(s).(stop := true, fatal := true)
    requires |r.workers| == |s.workers| && r.gate.phase == s.gate.phase
    requires var x := s.workers[w].activity; x.Idle? || x.Serving? || x.PauseTaken? || x.PauseClosed?
    requires forall v :: 0 <= v < |s.workers| && v != w ==>
               r.workers[v] == if s.stopEnqueued then s.workers[v]
                               else s.workers[v].(queue := s.workers[v].queue + [StopToken])
    requires r.workers[w] == s.workers[w].(activity := AfterFailure(s.workers[w].activity))
    ensures WorkersOk(r)
  {
    hide Count, Located, StopLast, StopFlags, PauseOnce, DoomedWorker;
    forall v | 0 <= v < |s.workers| ensures WorkerOk(FlagsOf(r), r.gate.phase, v, r.workers[v]) {
      assert WorkerOk(FlagsOf(s), s.gate.phase, v, s.workers[v]);
      if v == w { FailedWorkerOk(FlagsOf(s), s.gate.phase, w, s.workers[w]); }
      else { OtherWorkerOk(FlagsOf(s), s.gate.phase, v, s.workers[v]); }
    }
    forall t | 0 <= t < |r.gate.phase| ensures Placed(r.workers, t, r.gate.phase[t]) {
      assert Placed(s.workers, t, s.gate.phase[t]);
    }
  }

  lemma FailedWorkerOk(f: Flags, phase: seq<Phase>, w: nat, wk: Worker)
    requires WorkerOk(f, phase, w, wk) && !f.overwritten
    requires var x := wk.activity; x.Idle? || x.Serving? || x.PauseTaken? || x.PauseClosed?
    ensures WorkerOk(f.(stop := true, fatal := true), phase, w, wk.(activity := AfterFailure(wk.activity)))
  {
  }

  /** STOP reaches a worker, unless it went out before. */
  lemma OtherWorkerOk(f: Flags, phase: seq<Phase>, v: nat, wk: Worker)
    requires WorkerOk(f, phase, v, wk) && !f.overwritten
    ensures var k := if f.stop then wk else wk.(queue := wk.queue + [StopToken]);
            WorkerOk(f.(stop := true, fatal := true), phase, v, k)
  {
    if !f.stop {
      PushOne(phase, v, wk, StopToken);
      assert (wk.queue + [StopToken])[|wk.queue|] == StopToken;
      hide Located, StopLast;
    }
  }

  lemma FirstFailureCounts(a: seq<Worker>, w: nat, b: seq<Worker>)
    requires w < |a| == |b| && !IsStopped(a[w]) && !IsStopped(b[w])
    requires forall v :: 0 <= v < |a| ==> b[v].acked == a[v].acked
    requires forall v :: 0 <= v < |a| && v != w ==> b[v].activity == a[v].activity
    ensures Count(a, IsAcked) == Count(b, IsAcked)
    ensures Count(a, IsStopped) == Count(b, IsStopped) < |a|
  {
    hide Count;
    CountSame(a, b, IsAcked);
    CountSame(a, b, IsStopped);
    CountAll(a, IsStopped);
  }

  lemma FirstFailureLife(s: Pool, w: nat, r: Pool)
    requires WorkersOk(s) && LifeBase(s.(gate := s.gate.(open := s.life.Open?))) && !s.gate.open
    requires w < |s.workers| && w < s.started && !s.fatal
    requires var x := s.workers[w].activity; x.Idle? || x.Serving? || x.PauseTaken? || x.PauseClosed?
    requires |r.workers| == |s.workers|
    requires r == s.(life := Closing, fatal := true, stopEnqueued := true, workers := r.workers)
    requires forall v :: 0 <= v < |s.workers| && v != w ==>
               r.workers[v] == if s.stopEnqueued then s.workers[v]
                               else s.workers[v].(queue := s.workers[v].queue + [StopToken])
    requires r.workers[w] == s.workers[w].(activity := AfterFailure(s.workers[w].activity))
    ensures ActorInv(r)
  {
    hide Count;
    hide Books;
    FirstFailureBooks(s, w, r);
    FirstFailureCounts(s.workers, w, r.workers);
  }

  lemma FirstFailureInv(s: Pool, w: nat)
    requires PoolInv(s) && w < |s.workers| && w < s.started && !s.fatal
    requires var x := s.workers[w].activity; x.Idle? || x.Serving? || x.PauseTaken? || x.PauseClosed?
    ensures PoolInv(FailStep(s, w))
  {
    hide Count;
    var r, c := FailStep(s, w), s.(gate := Shut(s.gate));
    ShutWorkers(s);
    assert r.gate == c.gate;
    assert c.gate.(open := c.life.Open?).outstanding == s.gate.outstanding;
    FirstFailureLife(c, w, r);
  }

  lemma LaterFailureInv(s: Pool, w: nat)
    requires ActorInv(s) && w < |s.workers| && w < s.started && s.fatal
    requires var x := s.workers[w].activity; x.Idle? || x.Serving? || x.PauseTaken? || x.PauseClosed?
    ensures ActorInv(SetActivity(s, w, AfterFailure(s.workers[w].activity)))
  {
    hide Count;
    var k := s.workers[w].(activity := AfterFailure(s.workers[w].activity));
    assert WorkersOk(SetWorker(s, w, k)) by {
      assert WorkerOk(FlagsOf(s), s.gate.phase, w, s.workers[w]);
      OnlyWorker(s, w, k);
    }
    CountsKept(s, w, k);
  }

  lemma FailInv(s: Pool, w: nat)
    requires PoolInv(s) && Enabled(s, Fail(w))
    ensures PoolInv(Next(s, Fail(w)))
  {
    hide Count;
    if s.fatal {
      LaterFailureInv(s, w);
    } else {
      FirstFailureInv(s, w);
    }
  }

  // ----- runs -----

  lemma BusyMeansOwned(s: Pool, w: nat)
    requires PoolInv(s) && w < |s.workers| && IsBusy(s.workers[w])
    ensures s.gate.outstanding != 0
  {
    hide Count;
    if s.gate.outstanding == 0 {
      IdleMeansNoRequests(s);
    }
  }

  /** Steps of a worker that leave the gate alone. */
  lemma AloneStepInv(s: Pool, a: Action)
    requires PoolInv(s) && Enabled(s, a) && (a.Connect? || a.Disconnect? || a.PauseClose? || a.PauseAck? || a.DrainDone?)
    ensures PoolInv(Next(s, a))
  {
    hide Count, ActorInv, Core;
    match a
    case Connect(w) => BusyMeansOwned(s, w); ConnectInv(s, w, true);
    case Disconnect(w) => ConnectInv(s, w, false);
    case PauseClose(w) => PauseCloseInv(s, w);
    case PauseAck(w) => AckInv(s, w);
    case DrainDone(w) => DrainDoneInv(s, w);
  }

  lemma WorkerStepInv(s: Pool, a: Action)
    requires PoolInv(s) && Enabled(s, a) && OfWorker(a)
    ensures PoolInv(Next(s, a))
  {
    hide Count, PoolInv;
    match a
    case Take(w) => TakeInv(s, w);
    case Finish(w) => FinishInv(s, w);
    case Fail(w) => FailInv(s, w);
    case FailRelease(w) => FinishInv(s, w);
    case Drain(w) => DrainInv(s, w);
    case Exit(w) => ExitInv(s, w);
    case _ => AloneStepInv(s, a);
  }

  lemma StepInv(s: Pool, a: Action)
    requires PoolInv(s) && Enabled(s, a) && Undisturbed(s, a)
    ensures PoolInv(Next(s, a))
  {
    hide Count;
    hide PoolInv;
    match a
    case StartBegin => StartInv(s, a);
    case StartThread => StartInv(s, a);
    case StartDone => StartInv(s, a);
    case StartFail => StartFailInv(s);
    case StartFailDone => StartInv(s, a);
    case Submit => SubmitInv(s);
    case Consume(t) => ConsumeInv(s, t);
    case Withdraw(t) => WithdrawInv(s, t);
    case DeliverGrant(t, settled) => if s.gate.phase[t].Granted? && settled { DeliverInv(s, t); }
    case Dispatch(t) => DispatchInv(s, t);
    case RequestPause => RequestPauseInv(s);
    case Resume => ResumeInv(s);
    case RequestClose => RequestCloseInv(s);
    case _ => WorkerStepInv(s, a);
  }

  /** `r` is reached from `s` by the enabled actions `acts`, in order, with every start() undisturbed. */
  ghost predicate Reaches(s: Pool, acts: seq<Action>, r: Pool)
    decreases |acts|
  {
    if acts == [] then r == s
    else Enabled(s, acts[0]) && Undisturbed(s, acts[0]) && Reaches(Next(s, acts[0]), acts[1..], r)
  }

  lemma {:induction false} RunInv(s: Pool, acts: seq<Action>, r: Pool)
    requires PoolInv(s) && Reaches(s, acts, r)
    ensures PoolInv(r)
    decreases |acts|
  {
    if acts != [] {
      StepInv(s, acts[0]);
      RunInv(Next(s, acts[0]), acts[1..], r);
    }
  }

  // ----- what holds in every reachable state -----

  ghost predicate NoRequestBehindStop(s: Pool) {
    forall w, i, j :: 0 <= w < |s.workers| && 0 <= i < j < |s.workers[w].queue| && s.workers[w].queue[i].StopToken? ==>
                        !s.workers[w].queue[j].Req?
  }

  ghost predicate NoPauseWithRequest(s: Pool) {
    forall w, i, j :: (0 <= w < |s.workers| && 0 <= i < |s.workers[w].queue| && 0 <= j < |s.workers[w].queue|
                       && s.workers[w].queue[i].PauseToken?) ==> !s.workers[w].queue[j].Req?
  }

  /** Nothing owned, nothing queued, nothing running, every connection closed. */
  ghost predicate Quiet(s: Pool) {
    && s.gate.outstanding == 0
    && (forall w :: 0 <= w < |s.workers| ==> s.workers[w].queue == [] && !s.workers[w].connectionOpen
                                             && !IsBusy(s.workers[w]))
  }

  /** Lifecycle tokens, for every run of every pool size, including worker failures. */
  lemma LifecycleTokens(n: nat, capacity: nat, maxWaiters: nat, acts: seq<Action>, s: Pool)
    requires n >= 1 && Reaches(Initial(n, capacity, maxWaiters), acts, s)
    ensures NoRequestBehindStop(s) && NoPauseWithRequest(s)
    ensures s.life.Paused? ==> Quiet(s)
  {
    hide Count;
    InitialInv(n, capacity, maxWaiters);
    RunInv(Initial(n, capacity, maxWaiters), acts, s);
    TokensFollow(s);
  }

  lemma TokensFollow(s: Pool)
    requires PoolInv(s)
    ensures NoRequestBehindStop(s) && NoPauseWithRequest(s)
    ensures s.life.Paused? ==> Quiet(s)
  {
    hide Count;
    forall w, i, j | 0 <= w < |s.workers| && 0 <= i < j < |s.workers[w].queue| && s.workers[w].queue[i].StopToken?
      ensures !s.workers[w].queue[j].Req?
    {
      assert WorkerOk(FlagsOf(s), s.gate.phase, w, s.workers[w]);
    }
    if s.pauseEnqueued {
      IdleMeansNoRequests(s);
    }
    forall w, i, j | 0 <= w < |s.workers| && 0 <= i < |s.workers[w].queue| && 0 <= j < |s.workers[w].queue|
                     && s.workers[w].queue[i].PauseToken?
      ensures !s.workers[w].queue[j].Req?
    {
      assert WorkerOk(FlagsOf(s), s.gate.phase, w, s.workers[w]);
    }
    if s.life.Paused? {
      CountAll(s.workers, IsAcked);
      forall w | 0 <= w < |s.workers| ensures s.workers[w].queue == [] && !s.workers[w].connectionOpen {
        assert WorkerOk(FlagsOf(s), s.gate.phase, w, s.workers[w]);
        EmptyIfExcluded(s.workers[w].queue, PauseToken);
      }
    }
  }

  // ----- slot accounting -----

  /** Requests sitting in the workers' queues. */
  ghost function QueuedRequests(workers: seq<Worker>): (n: nat) {
    if workers == [] then 0
    else QueuedRequests(workers[..|workers| - 1]) + Count(workers[|workers| - 1].queue, IsReq)
  }

  ghost function TicketsIn(q: seq<Item>): (r: set<nat>) {
    set x | x in q && x.Req? :: x.ticket
  }

  lemma {:induction false} TicketsSize(q: seq<Item>)
    requires forall i, j :: 0 <= i < j < |q| && q[i].Req? ==> q[i] != q[j]
    ensures |TicketsIn(q)| == Count(q, IsReq)
  {
    if q != [] {
      var n := |q| - 1;
      var init, x := q[..n], q[n];
      TicketsSize(init);
      assert q == init + [x];
      if x.Req? {
        assert x !in init;
        assert TicketsIn(q) == TicketsIn(init) + {x.ticket} by {
          forall t | t in TicketsIn(init) ensures t in TicketsIn(q) { assert Req(t) in q; }
        }
      } else {
        assert TicketsIn(q) == TicketsIn(init);
      }
    }
  }

  ghost function QueuedBelow(phase: seq<Phase>, k: nat): (r: set<nat>) {
    set t: nat | t < |phase| && phase[t].Queued? && phase[t].worker < k
  }

  ghost function RunningBelow(phase: seq<Phase>, k: nat): (r: set<nat>) {
    set t: nat | t < |phase| && phase[t].Running? && phase[t].worker < k
  }

  ghost function At(phase: seq<Phase>, p: Phase): (r: set<nat>) {
    set t: nat | t < |phase| && phase[t] == p
  }

  /** The tickets in a worker's queue are the submissions whose phase points there. */
  lemma QueueIsPhase(f: Flags, phase: seq<Phase>, workers: seq<Worker>, w: nat)
    requires Books(f, phase, workers) && w < |workers|
    ensures At(phase, Queued(w)) == TicketsIn(workers[w].queue)
    ensures |At(phase, Queued(w))| == Count(workers[w].queue, IsReq)
  {
    hide Count;
    assert WorkerOk(f, phase, w, workers[w]);
    forall t | t in At(phase, Queued(w)) ensures t in TicketsIn(workers[w].queue) {
      assert Placed(workers, t, phase[t]);
    }
    TicketsSize(workers[w].queue);
  }

  lemma BusyIsPhase(f: Flags, phase: seq<Phase>, workers: seq<Worker>, w: nat)
    requires Books(f, phase, workers) && w < |workers|
    ensures At(phase, Running(w)) == if IsBusy(workers[w]) then {workers[w].activity.ticket} else {}
  {
    hide Count;
    assert WorkerOk(f, phase, w, workers[w]);
    forall t | t in At(phase, Running(w)) ensures IsBusy(workers[w]) && t == workers[w].activity.ticket {
      assert Placed(workers, t, phase[t]);
    }
  }

  lemma DisjointSize(a: set<nat>, b: set<nat>)
    requires a !! b
    ensures |a + b| == |a| + |b|
  {
  }

  lemma QueuedSplits(phase: seq<Phase>, k: nat)
    requires k > 0
    ensures QueuedBelow(phase, k) == QueuedBelow(phase, k - 1) + At(phase, Queued(k - 1))
    ensures QueuedBelow(phase, k - 1) !! At(phase, Queued(k - 1))
  {
  }

  lemma RunningSplits(phase: seq<Phase>, k: nat)
    requires k > 0
    ensures RunningBelow(phase, k) == RunningBelow(phase, k - 1) + At(phase, Running(k - 1))
    ensures RunningBelow(phase, k - 1) !! At(phase, Running(k - 1))
  {
  }

  lemma {:induction false} QueuedSize(f: Flags, phase: seq<Phase>, workers: seq<Worker>, k: nat)
    requires Books(f, phase, workers) && k <= |workers|
    ensures |QueuedBelow(phase, k)| == QueuedRequests(workers[..k])
  {
    if k == 0 {
      assert QueuedBelow(phase, 0) == {};
    } else {
      hide Books, Count, QueuedBelow, At;
      QueuedSize(f, phase, workers, k - 1);
      QueueIsPhase(f, phase, workers, k - 1);
      assert workers[..k][..k - 1] == workers[..k - 1];
      QueuedSplits(phase, k);
      DisjointSize(QueuedBelow(phase, k - 1), At(phase, Queued(k - 1)));
    }
  }

  lemma BusySize(f: Flags, phase: seq<Phase>, workers: seq<Worker>, w: nat)
    requires Books(f, phase, workers) && w < |workers|
    ensures |At(phase, Running(w))| == if IsBusy(workers[w]) then 1 else 0
  {
    hide Books, Count;
    BusyIsPhase(f, phase, workers, w);
    hide At;
  }

  lemma NothingBelow(phase: seq<Phase>, workers: seq<Worker>)
    ensures |RunningBelow(phase, 0)| == 0 == Count(workers[..0], IsBusy)
  {
    assert RunningBelow(phase, 0) == {};
  }

  lemma {:induction false} RunningSize(f: Flags, phase: seq<Phase>, workers: seq<Worker>, k: nat)
    requires Books(f, phase, workers) && k <= |workers|
    ensures |RunningBelow(phase, k)| == Count(workers[..k], IsBusy)
  {
    hide Books, Count, RunningBelow, At, IsBusy;
    if k == 0 {
      NothingBelow(phase, workers);
    } else {
      RunningSize(f, phase, workers, k - 1);
      BusySize(f, phase, workers, k - 1);
      CountAppend(workers[..k - 1], workers[k - 1], IsBusy);
      RunningSplits(phase, k);
      DisjointSize(RunningBelow(phase, k - 1), At(phase, Running(k - 1)));
      assert workers[..k] == workers[..k - 1] + [workers[k - 1]];
    }
  }

  /**
   Slot conservation in every reachable state: the counter is the granted waiters, plus the
   submissions that hold a slot and have not dispatched, plus the requests in the queues,
   plus the workers executing one; it stays within capacity, and no ticket ever gives a
   slot back twice.
   */
  lemma SlotConservation(n: nat, capacity: nat, maxWaiters: nat, acts: seq<Action>, s: Pool)
    requires n >= 1 && Reaches(Initial(n, capacity, maxWaiters), acts, s)
    ensures s.gate.outstanding == Count(s.gate.phase, IsGranted) + Count(s.gate.phase, IsHeld)
                                  + QueuedRequests(s.workers) + Count(s.workers, IsBusy)
    ensures 0 <= s.gate.outstanding <= s.gate.capacity
    ensures |s.gate.freed| == |s.gate.phase|
    ensures forall t :: 0 <= t < |s.gate.phase| ==> s.gate.freed[t] == if s.gate.phase[t].Returned? then 1 else 0
  {
    hide Count;
    InitialInv(n, capacity, maxWaiters);
    RunInv(Initial(n, capacity, maxWaiters), acts, s);
    SlotsFollow(s);
  }

  lemma SlotsFollow(s: Pool)
    requires PoolInv(s)
    ensures s.gate.outstanding == Count(s.gate.phase, IsGranted) + Count(s.gate.phase, IsHeld)
                                  + QueuedRequests(s.workers) + Count(s.workers, IsBusy)
  {
    hide Count;
    var phase, k := s.gate.phase, |s.workers|;
    OwnersSplit(phase);
    CountIsSize(phase, IsQueued);
    CountIsSize(phase, IsRunning);
    QueuedSize(FlagsOf(s), phase, s.workers, k);
    RunningSize(FlagsOf(s), phase, s.workers, k);
    assert s.workers[..k] == s.workers;
    assert Positions(phase, IsQueued) == QueuedBelow(phase, k) by {
      forall t | t in Positions(phase, IsQueued) ensures t in QueuedBelow(phase, k) {
        assert Placed(s.workers, t, phase[t]);
      }
    }
    assert Positions(phase, IsRunning) == RunningBelow(phase, k) by {
      forall t | t in Positions(phase, IsRunning) ensures t in RunningBelow(phase, k) {
        assert Placed(s.workers, t, phase[t]);
      }
    }
  }

  /**
   Admission in every reachable state: slots were handed out in arrival order, the waiter
   list is bounded, nobody waits on a shut pool, and while no worker has failed an open
   pool uses all its capacity or has nobody waiting.
   */
  lemma AdmissionOrder(n: nat, capacity: nat, maxWaiters: nat, acts: seq<Action>, s: Pool)
    requires n >= 1 && Reaches(Initial(n, capacity, maxWaiters), acts, s)
    ensures s.life.Open? && !s.overwritten ==> s.gate.outstanding == s.gate.capacity || NoneWaiting(s.gate)
    ensures !s.life.Open? && !s.overwritten ==> NoneWaiting(s.gate)
    ensures Ascending(s.gate.grants)
    ensures forall t :: 0 <= t < |s.gate.phase| && s.gate.phase[t].Waiting? ==> AfterAllGrants(s.gate, t)
    ensures forall t, u :: (0 <= t < |s.gate.phase| && 0 <= u < |s.gate.phase| && s.gate.phase[t].Waiting?
                            && (Owns(s.gate.phase[u]) || s.gate.phase[u].Returned?)) ==> u < t
    ensures Count(s.gate.phase, IsWaiting) <= s.gate.maxWaiters
  {
    hide Count;
    InitialInv(n, capacity, maxWaiters);
    RunInv(Initial(n, capacity, maxWaiters), acts, s);
  }

  // ----- shutdown reaches every worker -----

  /** The step worker `w` takes by itself next. */
  ghost function OwnStep(s: Pool, w: nat): (a: Action)
    requires w < |s.workers|
  {
    match s.workers[w].activity
    case Idle => Take(w)
    case Serving(_) => Finish(w)
    case PauseTaken => PauseClose(w)
    case PauseClosed => PauseAck(w)
    case Failing(_) => FailRelease(w)
    case Draining => if s.workers[w].queue == [] then DrainDone(w) else Drain(w)
    case Exiting => Exit(w)
    case Stopped => Disconnect(w)
  }

  /** The actions by which worker `w` moves on. */
  predicate Own(a: Action, w: nat) {
    && (a.Take? || a.Finish? || a.PauseClose? || a.PauseAck? || a.Fail? || a.FailRelease? || a.Drain? || a.DrainDone? || a.Exit?)
    && a.worker == w
  }

  function Rank(a: Activity): (n: nat) {
    match a
    case Stopped => 0
    case Exiting => 1
    case Draining => 2
    case Idle => 3
    case PauseClosed => 4
    case Failing(_) => 4
    case PauseTaken => 5
    case Serving(_) => 5
  }

  /** A bound on the steps worker `w` has left: its queue, its activity, and the tokens that may still be put. */
  function Work(s: Pool, w: nat): (n: nat)
    requires w < |s.workers|
  {
    4 * |s.workers[w].queue| + Rank(s.workers[w].activity)
    + (if s.pauseEnqueued then 0 else 4) + (if s.startFailed then 0 else 4)
  }

  lemma AdvanceWork(s: Pool, w: nat)
    requires s.stopEnqueued && w < |s.workers|
    ensures Advance(s).stopEnqueued && Work(Advance(s), w) == Work(s, w)
  {
  }

  lemma ReturnWork(s: Pool, t: nat, w: nat)
    requires s.stopEnqueued && w < |s.workers| && WellFormed(s.gate) && t < |s.gate.phase|
    ensures ReturnSlot(s, t).stopEnqueued && Work(ReturnSlot(s, t), w) == Work(s, w)
  {
    hide Count;
    AdvanceWork(s.(gate := Release(s.gate, t)), w);
  }

  ghost predicate WorkDone(s: Pool, a: Action, r: Pool, w: nat)
    requires w < |s.workers|
  {
    r.stopEnqueued && |r.workers| == |s.workers| && Work(r, w) + (if Own(a, w) then 1 else 0) <= Work(s, w)
  }

  lemma DrainWork(s: Pool, v: nat, w: nat)
    requires Enabled(s, Drain(v)) && s.stopEnqueued && w < |s.workers|
    ensures WorkDone(s, Drain(v), DrainStep(s, v), w)
  {
    hide Count;
    var p := SetWorker(s, v, s.workers[v].(queue := s.workers[v].queue[1..]));
    if s.workers[v].queue[0].Req? && s.workers[v].queue[0].ticket < |s.gate.phase| {
      ReturnWork(p, s.workers[v].queue[0].ticket, w);
    }
    hide ReturnSlot;
  }

  lemma ReleaseWork(s: Pool, a: Action, w: nat)
    requires (a.Finish? || a.FailRelease?) && Enabled(s, a) && s.stopEnqueued && w < |s.workers|
    ensures WorkDone(s, a, Next(s, a), w)
  {
    hide Count;
    ReturnWork(SetActivity(s, a.worker, if a.Finish? then Idle else Draining), s.workers[a.worker].activity.ticket, w);
    hide ReturnSlot;
  }

  function Left(wk: Worker): (n: nat) {
    4 * |wk.queue| + Rank(wk.activity)
  }

  /** One worker moves on by itself. */
  lemma AloneWork(s: Pool, a: Action, r: Pool, v: nat, k: Worker, w: nat)
    requires s.stopEnqueued && r.stopEnqueued && v < |s.workers| && w < |s.workers| && r.workers == s.workers[v := k]
    requires r.pauseEnqueued == s.pauseEnqueued && r.startFailed == s.startFailed
    requires Left(k) + (if Own(a, v) then 1 else 0) <= Left(s.workers[v]) && (Own(a, w) ==> w == v)
    ensures WorkDone(s, a, r, w)
  {
  }

  ghost predicate Alone(s: Pool, a: Action, r: Pool, v: nat) {
    && v < |s.workers| == |r.workers| && r.workers == s.workers[v := r.workers[v]]
    && r.stopEnqueued && r.pauseEnqueued == s.pauseEnqueued && r.startFailed == s.startFailed
    && Left(r.workers[v]) + (if Own(a, v) then 1 else 0) <= Left(s.workers[v])
  }

  lemma TakeLeft(s: Pool, v: nat)
    requires Enabled(s, Take(v))
    ensures Left(TakeStep(s, v).workers[v]) + (if Own(Take(v), v) then 1 else 0) <= Left(s.workers[v])
  {
    hide Count, WellFormed;
  }

  lemma TakeAlone(s: Pool, v: nat)
    requires Enabled(s, Take(v)) && s.stopEnqueued
    ensures Alone(s, Take(v), TakeStep(s, v), v)
  {
    hide Count, Own, Left;
    var r := TakeStep(s, v);
    TakeLeft(s, v);
    assert r.workers == s.workers[v := r.workers[v]];
    assert r.stopEnqueued && r.pauseEnqueued == s.pauseEnqueued && r.startFailed == s.startFailed;
  }

  lemma FailAlone(s: Pool, v: nat)
    requires Enabled(s, Fail(v)) && s.stopEnqueued
    ensures Alone(s, Fail(v), FailStep(s, v), v)
  {
    hide Count;
    var k := s.workers[v].(activity := AfterFailure(s.workers[v].activity));
    assert FailStep(s, v).workers == s.workers[v := k];
  }

  lemma TokenAlone(s: Pool, a: Action)
    requires Enabled(s, a) && s.stopEnqueued
    requires a.Connect? || a.Disconnect? || a.PauseClose? || a.DrainDone?
    ensures Alone(s, a, Next(s, a), a.worker)
  {
    var r, v := Next(s, a), a.worker;
    assert r.workers == s.workers[v := r.workers[v]];
    hide WellFormed, ReturnSlot, FailStep, TakeStep, DrainStep, AckStep, ExitStep;
  }

  lemma AckAlone(s: Pool, v: nat)
    requires Enabled(s, PauseAck(v)) && s.stopEnqueued
    ensures Alone(s, PauseAck(v), AckStep(s, v), v)
  {
    assert AckStep(s, v).workers == s.workers[v := s.workers[v].(activity := Idle, acked := true)];
  }

  lemma ExitAlone(s: Pool, v: nat)
    requires Enabled(s, Exit(v)) && s.stopEnqueued
    ensures Alone(s, Exit(v), ExitStep(s, v), v)
  {
    assert ExitStep(s, v).workers == s.workers[v := s.workers[v].(activity := Stopped, connectionOpen := false)];
  }

  lemma WorkerWork(s: Pool, a: Action, w: nat)
    requires OfWorker(a) && Enabled(s, a) && s.stopEnqueued && w < |s.workers|
    ensures WorkDone(s, a, Next(s, a), w)
  {
    hide Count;
    if a.Finish? || a.FailRelease? {
      ReleaseWork(s, a, w);
    } else if a.Drain? {
      DrainWork(s, a.worker, w);
    } else {
      var v := a.worker;
      if a.Take? { TakeAlone(s, v); }
      else if a.Fail? { FailAlone(s, v); }
      else if a.PauseAck? { AckAlone(s, v); }
      else if a.Exit? { ExitAlone(s, v); }
      else { TokenAlone(s, a); }
      AloneWork(s, a, Next(s, a), v, Next(s, a).workers[v], w);
    }
    hide WorkDone, Left, TakeStep, FailStep, DrainStep, AckStep, ExitStep, ReturnSlot;
  }

  /** Once STOP went out, no step gives a worker more to do, and its own steps leave it less. */
  lemma StepWork(s: Pool, a: Action, w: nat)
    requires PoolInv(s) && Enabled(s, a) && s.stopEnqueued && w < |s.workers|
    ensures WorkDone(s, a, Next(s, a), w)
  {
    hide Count;
    if OfWorker(a) {
      WorkerWork(s, a, w);
    } else {
      match a
      case Withdraw(t) => AdvanceWork(s.(gate := Cancel(s.gate, t)), w);
      case DeliverGrant(t, settled) => if s.gate.phase[t].Granted? && settled { ReturnWork(s, t, w); }
      case Dispatch(t) => ZeroMeansNoOwner(s.gate); AdvanceWork(s.(gate := GiveBack(s.gate, t)), w);
      case RequestPause => AdvanceWork(ShutTo(s, Pausing), w);
      case RequestClose => AdvanceWork(ShutTo(s, Closing), w);
      case _ =>
    }
    hide Books, Arrive, Cancel, Shut, Advance, ReturnSlot;
  }

  ghost function OwnSteps(acts: seq<Action>, w: nat): (n: nat) {
    if acts == [] then 0 else (if Own(acts[0], w) then 1 else 0) + OwnSteps(acts[1..], w)
  }

  lemma {:induction false} RunWork(s: Pool, acts: seq<Action>, r: Pool, w: nat)
    requires PoolInv(s) && s.stopEnqueued && w < |s.workers| && Reaches(s, acts, r)
    ensures |r.workers| == |s.workers| && r.stopEnqueued && PoolInv(r)
    ensures OwnSteps(acts, w) + Work(r, w) <= Work(s, w)
    decreases |acts|
  {
    if acts != [] {
      StepInv(s, acts[0]);
      StepWork(s, acts[0], w);
      hide PoolInv, Next, Enabled, Work;
      RunWork(Next(s, acts[0]), acts[1..], r, w);
    }
  }

  lemma OwnStepEnabled(s: Pool, w: nat)
    requires PoolInv(s) && w < |s.workers| && w < s.started && s.stopEnqueued
    ensures Enabled(s, OwnStep(s, w)) && (Own(OwnStep(s, w), w) || s.workers[w].activity.Stopped?)
  {
    hide Count;
    assert WorkerOk(FlagsOf(s), s.gate.phase, w, s.workers[w]);
  }

  /** start() is over, and if every worker has stopped the pool is closed. */
  ghost predicate EndsClosed(s: Pool) {
    !s.starter && !s.life.New? && (s.stoppedCount == |s.workers| ==> s.life.Closed?)
  }

  lemma StopsKept(s: Pool, a: Action)
    requires Enabled(s, a) && !a.Exit?
    ensures SameStops(s, Next(s, a))
  {
    hide Count;
    hide Arrive, Cancel, Shut, Advance, ReturnSlot, FailStep, TakeStep, AckStep, DrainStep, ExitStep, DispatchStep;
  }

  lemma EndsClosedStep(s: Pool, a: Action)
    requires PoolInv(s) && Enabled(s, a) && EndsClosed(s)
    ensures EndsClosed(Next(s, a))
  {
    hide Count;
    NeverRestarted(s, a);
    CountAll(s.workers, IsStopped);
    if !a.Exit? {
      StopsKept(s, a);
      if s.stoppedCount == |s.workers| { ClosedStays(s, a); }
      hide Next;
    }
  }

  lemma ClosedStays(s: Pool, a: Action)
    requires Enabled(s, a) && s.life.Closed? && !s.starter
    requires forall w :: 0 <= w < |s.workers| ==> IsStopped(s.workers[w])
    ensures Next(s, a).life.Closed?
  {
    hide Count;
    if OfWorker(a) {
      assert a.Disconnect? && a.worker < |s.workers|;
    }
    hide WellFormed, Arrive, Cancel, Shut, Advance, ReturnSlot, DispatchStep, FailStep, TakeStep, AckStep, DrainStep, ExitStep;
  }

  /**
   Shutdown completes: from any reachable state in which STOP went out and start() is over,
   every worker takes only a bounded number of further steps of its own, can take one as long
   as it has not stopped, and when all have stopped the pool is closed, unless they all had
   stopped before start() opened it.
   */
  lemma ShutdownCompletes(n: nat, capacity: nat, maxWaiters: nat, before: seq<Action>, s: Pool, acts: seq<Action>, r: Pool, w: nat)
    requires n >= 1 && Reaches(Initial(n, capacity, maxWaiters), before, s) && Reaches(s, acts, r) && w < |s.workers|
    requires s.stopEnqueued && !s.starter && !s.startFailed && EndsClosed(s)
    ensures |r.workers| == |s.workers| && OwnSteps(acts, w) + Work(r, w) <= Work(s, w)
    ensures r.workers[w].activity.Stopped? || (Enabled(r, OwnStep(r, w)) && Own(OwnStep(r, w), w))
    ensures (forall v :: 0 <= v < |r.workers| ==> r.workers[v].activity.Stopped?) ==> r.life.Closed?
  {
    hide Count;
    InitialInv(n, capacity, maxWaiters);
    RunInv(Initial(n, capacity, maxWaiters), before, s);
    RunWork(s, acts, r, w);
    RunEndsClosed(s, acts, r);
    OwnStepEnabled(r, w);
    CountAll(r.workers, IsStopped);
    hide Reaches, Books, Work;
  }

  lemma {:induction false} RunEndsClosed(s: Pool, acts: seq<Action>, r: Pool)
    requires PoolInv(s) && EndsClosed(s) && Reaches(s, acts, r)
    ensures EndsClosed(r) && r.started == s.started
    decreases |acts|
  {
    if acts != [] {
      StepInv(s, acts[0]);
      EndsClosedStep(s, acts[0]);
      NeverRestarted(s, acts[0]);
      hide PoolInv, Next, Enabled, EndsClosed;
      RunEndsClosed(Next(s, acts[0]), acts[1..], r);
    }
  }

  lemma NotClosedStep(s: Pool, a: Action)
    requires PoolInv(s) && Enabled(s, a) && !s.starter && !s.life.New? && !s.life.Closed? && s.stoppedCount == |s.workers|
    ensures var r := Next(s, a); !r.starter && !r.life.New? && !r.life.Closed? && r.stoppedCount == |r.workers|
  {
    hide Count;
    NeverRestarted(s, a);
    CountAll(s.workers, IsStopped);
    StopsKept(s, a);
    StaysUnclosed(s, a);
    hide Next, PoolInv;
  }

  lemma StaysUnclosed(s: Pool, a: Action)
    requires Enabled(s, a) && !s.life.Closed? && !s.life.New? && !s.starter
    requires forall w :: 0 <= w < |s.workers| ==> IsStopped(s.workers[w])
    ensures !Next(s, a).life.Closed?
  {
    hide Count;
    if OfWorker(a) {
      assert a.Disconnect? && a.worker < |s.workers|;
    }
    hide WellFormed, Arrive, Cancel, Shut, Advance, ReturnSlot, DispatchStep, FailStep, TakeStep, AckStep, DrainStep, ExitStep;
  }

  /** A pool that start() opened after all its workers had stopped never closes. */
  lemma {:induction false} NeverCloses(s: Pool, acts: seq<Action>, r: Pool)
    requires PoolInv(s) && !s.starter && !s.life.New? && !EndsClosed(s) && Reaches(s, acts, r)
    ensures !r.life.Closed?
    decreases |acts|
  {
    if acts != [] {
      StepInv(s, acts[0]);
      NotClosedStep(s, acts[0]);
      hide PoolInv, Next, Enabled;
      NeverCloses(Next(s, acts[0]), acts[1..], r);
    }
  }

  /** A close with nothing owned has sent STOP. */
  lemma CloseSendsStop(n: nat, capacity: nat, maxWaiters: nat, acts: seq<Action>, s: Pool)
    requires n >= 1 && Reaches(Initial(n, capacity, maxWaiters), acts, s)
    ensures s.life.Closing? && s.gate.outstanding == 0 ==> s.stopEnqueued
  {
    hide Count;
    InitialInv(n, capacity, maxWaiters);
    RunInv(Initial(n, capacity, maxWaiters), acts, s);
  }

  // ----- the two ways to disturb start() -----

  lemma ReachesCons(s: Pool, a: Action, acts: seq<Action>, r: Pool)
    requires Enabled(s, a) && Undisturbed(s, a) && Reaches(Next(s, a), acts, r)
    ensures Reaches(s, [a] + acts, r)
  {
    hide Count;
    assert ([a] + acts)[1..] == acts;
    hide Enabled, Undisturbed, Next;
  }

  lemma {:induction false} ReachesConcat(s: Pool, a: seq<Action>, m: Pool, b: seq<Action>, r: Pool)
    requires Reaches(s, a, m) && Reaches(m, b, r)
    ensures Reaches(s, a + b, r)
    decreases |a|
  {
    hide Enabled, Undisturbed, Next;
    if a == [] {
      assert a + b == b;
    } else {
      assert (a + b)[0] == a[0] && (a + b)[1..] == a[1..] + b;
      ReachesConcat(Next(s, a[0]), a[1..], m, b, r);
    }
  }

  /** start() can always go on to create all its threads. */
  lemma {:induction false} ThreadsStart(s: Pool) returns (acts: seq<Action>)
    requires WellFormed(s.gate) && s.next < |s.workers| && s.starter && !s.startFailed && s.started <= |s.workers|
    ensures Reaches(s, acts, s.(started := |s.workers|))
    decreases |s.workers| - s.started
  {
    if s.started == |s.workers| {
      acts := [];
      assert s == s.(started := |s.workers|);
    } else {
      acts := ThreadsStart(Next(s, StartThread));
      ReachesCons(s, StartThread, acts, s.(started := |s.workers|));
      acts := [StartThread] + acts;
    }
  }

  /** No undisturbed continuation of `s` puts a request behind STOP. */
  ghost predicate SafeFrom(s: Pool) {
    forall acts, r :: Reaches(s, acts, r) ==> NoRequestBehindStop(r)
  }

  /** A close during start() puts STOP into every queue of a pool that start() then opens. */
  lemma OverwrittenClose(s: Pool)
    requires PoolInv(s) && s.starter && !s.startFailed && Enabled(s, RequestClose)
    ensures var c := Next(s, RequestClose);
            && c.starter && !c.startFailed && !c.fatal && WellFormed(c.gate) && c.started <= |c.workers|
            && c.gate.capacity == s.gate.capacity && c.gate.outstanding == 0 && c.gate.waiters == []
            && c.next < |c.workers| && StopToken in c.workers[c.next].queue
  {
    hide Count;
    ShutInv(s.gate);
    var c := Next(s, RequestClose);
    var q := s.workers[s.next].queue;
    assert c.workers[s.next].queue == q + [StopToken];
    assert c.workers[s.next].queue[|q|] == StopToken;
  }

  /** An open pool with STOP in the next queue lets a request in behind it. */
  lemma RequestAfterStop(o: Pool) returns (acts: seq<Action>, r: Pool)
    requires o.life.Open? && o.gate.open && o.gate.capacity >= 1 && WellFormed(o.gate)
    requires o.gate.outstanding == 0 && o.gate.waiters == [] && !o.fatal
    requires o.next < |o.workers| && StopToken in o.workers[o.next].queue
    ensures Reaches(o, acts, r) && !NoRequestBehindStop(r)
  {
    hide Count;
    var p := o.(gate := Admit(o.gate));
    assert Arrive(o.gate) == (Admit(o.gate), Admitted(|o.gate.phase|));
    assert Next(o, Submit) == p;
    var t := |o.gate.phase|;
    r := DispatchStep(p, t);
    assert Next(p, Dispatch(t)) == r;
    acts := [Submit, Dispatch(t)];
    assert acts[1..] == [Dispatch(t)] && acts[1..][1..] == [];
    assert Reaches(r, [], r);
    assert Reaches(p, acts[1..], r);
    var q := o.workers[o.next].queue;
    var i :| 0 <= i < |q| && q[i] == StopToken;
    assert r.workers[o.next].queue == q + [Req(t)];
    assert r.workers[o.next].queue[i] == StopToken && r.workers[o.next].queue[|q|] == Req(t);
  }

  /** start() writes its final state over a close that struck meanwhile, so the STOPs precede new work. */
  lemma DisturbedStart(s: Pool) returns (acts: seq<Action>, r: Pool)
    requires PoolInv(s) && s.starter && !s.startFailed && Enabled(s, RequestClose) && s.gate.capacity >= 1
    ensures Reaches(Next(s, RequestClose), acts, r) && !NoRequestBehindStop(r)
  {
    hide Count;
    OverwrittenClose(s);
    hide NoRequestBehindStop, PoolInv;
    var c := Next(s, RequestClose);
    var threads := ThreadsStart(c);
    var d := c.(started := |c.workers|);
    var more;
    more, r := RequestAfterStop(Next(d, StartDone));
    ReachesCons(d, StartDone, more, r);
    ReachesConcat(c, threads, d, [StartDone] + more, r);
    acts := threads + ([StartDone] + more);
  }

  /** Among all actions from any reachable state, only a close while start() creates its threads is unsafe. */
  lemma CloseDuringStartIsTheHazard(s: Pool, a: Action)
    requires PoolInv(s) && Enabled(s, a) && s.gate.capacity >= 1
    ensures SafeFrom(Next(s, a)) <==> !(s.starter && !s.startFailed && a.RequestClose?)
  {
    hide Count;
    if Undisturbed(s, a) {
      StepInv(s, a);
      forall acts, r | Reaches(Next(s, a), acts, r) ensures NoRequestBehindStop(r) {
        RunInv(Next(s, a), acts, r);
        TokensFollow(r);
      }
    } else {
      var acts, r := DisturbedStart(s);
    }
  }

  /** In no undisturbed continuation does a submission wait beside free capacity. */
  ghost predicate AlwaysConserving(s: Pool) {
    forall acts, r :: Reaches(s, acts, r) ==> WorkConserving(r.gate)
  }

  lemma {:induction false} NotOverwritten(s: Pool, acts: seq<Action>, r: Pool)
    requires !s.starter && !s.life.New? && !s.overwritten && Reaches(s, acts, r)
    ensures !r.overwritten
    decreases |acts|
  {
    if acts != [] {
      NeverRestarted(s, acts[0]);
      hide Next;
      NotOverwritten(Next(s, acts[0]), acts[1..], r);
    }
  }

  lemma WorkerKeepsStart(s: Pool, a: Action)
    requires OfWorker(a) && Enabled(s, a)
    ensures SameStart(s, Next(s, a)) && (s.life.New? || !Next(s, a).life.New?)
  {
    hide Count;
    hide ReturnSlot, FailStep, TakeStep, AckStep, DrainStep, ExitStep;
  }

  lemma NeverRestarted(s: Pool, a: Action)
    requires !s.starter && !s.life.New? && Enabled(s, a)
    ensures !Next(s, a).starter && !Next(s, a).life.New? && SameStart(s, Next(s, a))
  {
    hide Count;
    if OfWorker(a) {
      WorkerKeepsStart(s, a);
      hide Next;
    } else {
      hide WellFormed, Push, ClearAcks, Arrive, Cancel, Shut, Advance, ReturnSlot, DispatchStep;
    }
  }

  /** An open pool where nobody waits. */
  ghost predicate Ready(s: Pool) {
    Inv(s.gate) && s.life.Open? && s.gate.open && s.next < |s.workers| && NoneWaiting(s.gate)
  }

  /** `r` is `s` after further submissions that all got a slot. */
  ghost predicate Fuller(s: Pool, r: Pool) {
    && r == s.(gate := r.gate) && Ready(r) && SameLimits(s.gate, r.gate)
    && (r == s || (r.gate.phase != [] && r.gate.phase[|r.gate.phase| - 1].Held?))
  }

  lemma FullerTransitive(s: Pool, m: Pool, r: Pool)
    requires Fuller(s, m) && Fuller(m, r)
    ensures Fuller(s, r)
  {
    hide Ready;
  }

  /** An open pool without waiters can be filled to capacity. */
  lemma {:induction false} FillUp(s: Pool) returns (acts: seq<Action>, r: Pool)
    requires Ready(s)
    ensures Reaches(s, acts, r) && Fuller(s, r) && r.gate.outstanding == r.gate.capacity
    decreases s.gate.capacity - s.gate.outstanding
  {
    assert s.gate.outstanding <= s.gate.capacity && Reaches(s, [], s) && Fuller(s, s);
    hide Inv, Ready, Next, Arrive, Enabled, Reaches, Count, Fuller;
    if s.gate.outstanding == s.gate.capacity {
      acts, r := [], s;
    } else {
      OneMore(s);
      acts, r := FillUp(Next(s, Submit));
      FullerTransitive(s, Next(s, Submit), r);
      ReachesCons(s, Submit, acts, r);
      acts := [Submit] + acts;
    }
  }

  lemma OneMore(s: Pool)
    requires Ready(s) && s.gate.outstanding < s.gate.capacity
    ensures Enabled(s, Submit) && Undisturbed(s, Submit) && Ready(Next(s, Submit)) && Fuller(s, Next(s, Submit))
    ensures Next(s, Submit).gate.outstanding == s.gate.outstanding + 1
    ensures Next(s, Submit).gate.capacity == s.gate.capacity
  {
    hide Count;
    ArriveInv(s.gate);
    DiscardInv(s.gate);
    var d := Discard(s.gate);
    assert d.waiters == [];
    AdmitInv(d);
  }

  /** On a full pool one more submission waits. */
  lemma OneWaits(f: Pool)
    requires Ready(f) && f.gate.outstanding == f.gate.capacity && f.gate.maxWaiters >= 1
    ensures Enabled(f, Submit)
    ensures var p, u := Next(f, Submit), |f.gate.phase|;
            && p == f.(gate := p.gate) && WellFormed(p.gate) && |p.gate.phase| == u + 1 && p.gate.phase[u].Waiting?
            && (forall t :: 0 <= t < u ==> p.gate.phase[t] == f.gate.phase[t])
            && p.gate.open && p.gate.outstanding <= p.gate.capacity
  {
    CountZero(f.gate.phase, IsWaiting);
    hide Count;
    ArriveInv(f.gate);
  }

  /** A pool opened after a failure: a full pool lets one more submission wait, and a refused dispatch strands it. */
  lemma StrandedWaiter(o: Pool) returns (acts: seq<Action>, r: Pool)
    requires Ready(o) && o.fatal && o.gate.outstanding == 0 && o.gate.capacity >= 1 && o.gate.maxWaiters >= 1
    ensures Reaches(o, acts, r) && r.life.Open? && !WorkConserving(r.gate)
  {
    var fill, f := FillUp(o);
    var t, u := |f.gate.phase| - 1, |f.gate.phase|;
    OneWaits(f);
    hide Count, Inv, Arrive, Reaches;
    var p := Next(f, Submit);
    assert p.gate.phase[t].Held? && p.gate.phase[u].Waiting?;
    r := Next(p, Dispatch(t));
    assert r.gate == GiveBack(p.gate, t);
    assert r.gate.phase[u].Waiting?;
    hide Next, Ready, WorkConserving;
    NoSteps(r);
    ReachesCons(p, Dispatch(t), [], r);
    ReachesCons(f, Submit, [Dispatch(t)] + [], r);
    ReachesConcat(o, fill, f, [Submit] + ([Dispatch(t)] + []), r);
    acts := fill + ([Submit] + ([Dispatch(t)] + []));
  }

  lemma NoSteps(r: Pool)
    ensures Reaches(r, [], r)
  {
  }

  /**
   Work conservation from the moment start() opens the pool: it holds in every continuation
   exactly when no worker has failed by then.
   */
  lemma ConservingIffNoEarlyFailure(s: Pool)
    requires PoolInv(s) && Enabled(s, StartDone) && s.gate.capacity >= 1 && s.gate.maxWaiters >= 1
    ensures AlwaysConserving(Next(s, StartDone)) <==> !s.fatal
  {
    hide Count;
    var o := Next(s, StartDone);
    StepInv(s, StartDone);
    if s.fatal {
      ReopenCore(s.gate, true);
      var acts, r := StrandedWaiter(o);
    } else {
      forall acts, r | Reaches(o, acts, r) ensures WorkConserving(r.gate) {
        NotOverwritten(o, acts, r);
        RunInv(o, acts, r);
      }
    }
  }

  /** Such a failure is possible in a pool of any size: a run that strands a submission in an open pool with free capacity. */
  lemma EarlyFailureStrands(n: nat, capacity: nat, maxWaiters: nat) returns (acts: seq<Action>, s: Pool)
    requires n >= 1 && capacity >= 1 && maxWaiters >= 1
    ensures Reaches(Initial(n, capacity, maxWaiters), acts, s) && s.life.Open? && !WorkConserving(s.gate)
  {
    hide Count, Reaches, Push, Arrive, Cancel, ReturnSlot, DispatchStep, TakeStep, DrainStep, AckStep, ExitStep;
    var i := Initial(n, capacity, maxWaiters);
    InitialInv(n, capacity, maxWaiters);
    StepInv(i, StartBegin);
    var b := Next(i, StartBegin);
    var threads := ThreadsStart(b);
    var d := b.(started := n);
    RunInv(b, threads, d);
    StepInv(d, Fail(0));
    var f := Next(d, Fail(0));
    StepInv(f, StartDone);
    ReopenCore(f.gate, true);
    var more;
    more, s := StrandedWaiter(Next(f, StartDone));
    hide PoolInv, WorkConserving;
    ReachesCons(f, StartDone, more, s);
    ReachesCons(d, Fail(0), [StartDone] + more, s);
    ReachesConcat(b, threads, d, [Fail(0)] + ([StartDone] + more), s);
    acts := threads + ([Fail(0)] + ([StartDone] + more));
    ReachesCons(i, StartBegin, acts, s);
    acts := [StartBegin] + acts;
  }
}
