/**
 What the parse queue does for its callers: exactly when a task is taken in, in which order
 tasks begin, and that a stop never gets stuck.
 */
module ParseQueueLife {
  import opened Seqs
  import opened ParseQueue

  // ----- who gets in -----

  /** One more task of this size is within both budgets, and its id is not held yet. */
  ghost predicate Fits(q: Queue, t: Task) {
    && !Queued(q.items, t.id) && !Running(q.workers, t.id)
    && ItemsTotal(q.items, Messages) + WorkersTotal(q.workers, Messages) + 1 <= q.maxMessages
    && ItemsTotal(q.items, Bytes) + WorkersTotal(q.workers, Bytes) + t.size <= q.maxBytes
  }

  /** The task is the last in the queue, reserved and counted; nothing else changes. */
  function TakenIn(q: Queue, t: Task): (r: Queue) {
    Queue(q.maxMessages, q.maxBytes, q.items + [Work(t)], q.workers, q.tasks, q.reserved + {t.id}, q.active,
          q.messages + 1, q.bytes + t.size, q.signals, q.callers, q.stops)
  }

  /** A task is enqueued at once exactly when it fits; otherwise nothing happens. */
  lemma TryPutExact(q: Queue, t: Task)
    requires Inv(q)
    ensures TryEnqueue(q, t) == if Fits(q, t) then TakenIn(q, t) else q
  {
    hide ItemsTotal, WorkersTotal, NoRepeats;
  }

  /**
   A caller of the waiting form is answered yes exactly when its task fits, no exactly when the
   id is held, and waits otherwise.
   */
  lemma CallExact(q: Queue, t: Task)
    requires Inv(q) && t.size <= q.maxBytes
    ensures var held := Queued(q.items, t.id) || Running(q.workers, t.id);
            Enqueue(q, t) ==
              if held then q.(callers := q.callers + [Answered(false)])
              else if Fits(q, t) then TakenIn(q, t).(callers := q.callers + [Answered(true)])
              else q.(callers := q.callers + [Blocked(t, q.signals)])
  {
    hide ItemsTotal, WorkersTotal, NoRepeats;
  }

  /** A caller that was signalled looks again and is answered in the same way. */
  lemma WakeExact(q: Queue, c: nat)
    requires Inv(q) && c < |q.callers| && q.callers[c].Blocked? && q.callers[c].at < q.signals
    ensures Enabled(q, Wake(c))
    ensures var t := q.callers[c].task; var held := Queued(q.items, t.id) || Running(q.workers, t.id);
            Next(q, Wake(c)) ==
              if held then q.(callers := q.callers[c := Answered(false)])
              else if Fits(q, t) then TakenIn(q, t).(callers := q.callers[c := Answered(true)])
              else q.(callers := q.callers[c := Blocked(t, q.signals)])
  {
    assert q.callers[c].task.size <= q.maxBytes;
    hide ItemsTotal, WorkersTotal, NoRepeats, RemovePending, Discard, BeginStop, EndStop;
  }

  /** A finished task frees its id and its share of both budgets, and signals everybody who waits. */
  lemma FinishExact(q: Queue, w: nat, cancelled: bool)
    requires Inv(q) && w < |q.workers| && q.workers[w].Busy?
    ensures Enabled(q, FinishOne(w, cancelled))
    ensures var t, r := q.workers[w].task, Next(q, FinishOne(w, cancelled));
            && r == q.(workers := q.workers[w := if cancelled then Done else Idle], reserved := q.reserved - {t.id},
                       active := q.active - {t.id}, messages := q.messages - 1, bytes := q.bytes - t.size,
                       signals := q.signals + 1)
            && forall c :: 0 <= c < |r.callers| && r.callers[c].Blocked? ==> Enabled(r, Wake(c))
  {
    hide IdsOk, ItemsTotal, WorkersTotal, RemovePending, Discard, BeginStop, EndStop;
  }

  // ----- in which order tasks begin -----

  /** The tasks among the items, in order. */
  ghost function Tasks(items: seq<Item>): (r: seq<Task>) {
    if items == [] then []
    else Tasks(items[..|items| - 1]) + if items[|items| - 1].Work? then [items[|items| - 1].task] else []
  }

  lemma TasksPut(items: seq<Item>, x: Item)
    ensures Tasks(items + [x]) == Tasks(items) + if x.Work? then [x.task] else []
  {
    assert (items + [x])[..|items|] == items;
  }

  lemma {:induction false} TasksTail(items: seq<Item>)
    requires items != []
    ensures Tasks(items) == (if items[0].Work? then [items[0].task] else []) + Tasks(items[1..])
  {
    if |items| > 1 {
      var n := |items| - 1;
      TasksTail(items[..n]);
      assert items[..n][1..] == items[1..][..n - 1] && items[..n][0] == items[0];
    }
  }

  lemma {:induction false} TasksSentinels(items: seq<Item>, n: nat)
    ensures Tasks(items + Repeat(Sentinel, n)) == Tasks(items)
  {
    if n == 0 {
      assert items + Repeat(Sentinel, 0) == items;
    } else {
      TasksSentinels(items, n - 1);
      TasksPut(items + Repeat(Sentinel, n - 1), Sentinel);
      assert (items + Repeat(Sentinel, n - 1)) + [Sentinel] == items + Repeat(Sentinel, n);
    }
  }

  /** Operations that take tasks off the queue without running them. */
  predicate Drops(op: Op) { op.Remove? || op.StopIdle? || op.StopEnd? || (op.StopBegin? && op.discard) }

  /** The task a step puts into the queue: it was not held before and is after. */
  ghost function PutIn(q: Queue, op: Op): (r: seq<Task>)
    requires Enabled(q, op)
  {
    var t := match op case TryPut(t) => t case Call(t) => t case Wake(c) => q.callers[c].task case _ => Task(0, 0);
    if (op.TryPut? || op.Call? || op.Wake?) && t.id !in q.reserved && t.id in Next(q, op).reserved then [t] else []
  }

  /** The task a worker begins: it was not running before and is after. */
  ghost function BegunBy(q: Queue, op: Op): (r: seq<Task>)
    requires Enabled(q, op)
  {
    if op.TakeOne? && Next(q, op).workers[op.worker].Busy? then [Next(q, op).workers[op.worker].task] else []
  }

  ghost function AllPut(q: Queue, ops: seq<Op>): (r: seq<Task>)
    decreases |ops|
  {
    if ops == [] || !Enabled(q, ops[0]) then [] else PutIn(q, ops[0]) + AllPut(Next(q, ops[0]), ops[1..])
  }

  ghost function AllBegun(q: Queue, ops: seq<Op>): (r: seq<Task>)
    decreases |ops|
  {
    if ops == [] || !Enabled(q, ops[0]) then [] else BegunBy(q, ops[0]) + AllBegun(Next(q, ops[0]), ops[1..])
  }

  lemma PutOrder(q: Queue, op: Op)
    requires Enabled(q, op) && (op.TryPut? || op.Call? || op.Wake?)
    ensures Tasks(Next(q, op).items) == Tasks(q.items) + PutIn(q, op) && BegunBy(q, op) == []
  {
    hide Tasks, RemovePending, Discard, BeginStop, EndStop;
    var t := match op case TryPut(t) => t case Call(t) => t case Wake(c) => q.callers[c].task;
    TasksPut(q.items, Work(t));
    EmptyIsUnit(Tasks(q.items));
  }

  lemma TakeOrder(q: Queue, w: nat)
    requires Enabled(q, TakeOne(w))
    ensures Tasks(q.items) == BegunBy(q, TakeOne(w)) + Tasks(Next(q, TakeOne(w)).items) && PutIn(q, TakeOne(w)) == []
  {
    hide Tasks, RemovePending, Discard, BeginStop, EndStop;
    TasksTail(q.items);
    EmptyIsUnit(Tasks(q.items[1..]));
  }

  lemma QuietOrder(q: Queue, op: Op)
    requires Enabled(q, op) && !Drops(op) && !(op.TryPut? || op.Call? || op.Wake?) && !op.TakeOne?
    ensures Tasks(Next(q, op).items) == Tasks(q.items) && PutIn(q, op) == [] && BegunBy(q, op) == []
  {
    hide Tasks, RemovePending, Discard, EndStop;
    if op.StopBegin? { TasksSentinels(q.items, |q.tasks|); }
  }

  lemma StepOrder(q: Queue, op: Op)
    requires Enabled(q, op) && !Drops(op)
    ensures Tasks(q.items) + PutIn(q, op) == BegunBy(q, op) + Tasks(Next(q, op).items)
  {
    EmptyIsUnit(Tasks(q.items));
    EmptyIsUnit(Tasks(Next(q, op).items));
    if op.TryPut? || op.Call? || op.Wake? {
      PutOrder(q, op);
    } else if op.TakeOne? {
      TakeOrder(q, op.worker);
    } else {
      QuietOrder(q, op);
    }
    hide Tasks, Next, PutIn, BegunBy;
  }

  /** First in, first out: as long as nothing is removed or discarded, tasks begin in the order in which they were taken in. */
  lemma {:induction false} FirstInFirstOut(q: Queue, ops: seq<Op>, r: Queue)
    requires Reaches(q, ops, r) && forall i :: 0 <= i < |ops| ==> !Drops(ops[i])
    ensures Tasks(q.items) + AllPut(q, ops) == AllBegun(q, ops) + Tasks(r.items)
    decreases |ops|
  {
    if ops == [] {
      EmptyIsUnit(Tasks(q.items));
    } else {
      var op, m := ops[0], Next(q, ops[0]);
      StepOrder(q, op);
      hide Next, Enabled, Tasks, PutIn, BegunBy, Drops;
      FirstInFirstOut(m, ops[1..], r);
      Rearranged(Tasks(q.items), PutIn(q, op), BegunBy(q, op), Tasks(m.items), AllPut(m, ops[1..]), AllBegun(m, ops[1..]), Tasks(r.items));
    }
  }

  // ----- removing -----

  ghost predicate Earlier(items: seq<Item>, a: Item, b: Item) {
    exists i, j :: 0 <= i < j < |items| && items[i] == a && items[j] == b
  }

  lemma EarlierPut(items: seq<Item>, x: Item, a: Item, b: Item)
    ensures Earlier(items + [x], a, b) <==> Earlier(items, a, b) || (a in items && b == x)
  {
    var more := items + [x];
    if i, j :| 0 <= i < j < |items| && items[i] == a && items[j] == b {
      assert more[i] == a && more[j] == b;
    }
    if a in items && b == x {
      var i :| 0 <= i < |items| && items[i] == a;
      assert more[i] == a && more[|items|] == b;
    }
    if i, j :| 0 <= i < j < |more| && more[i] == a && more[j] == b {
      assert items[i] == a;
      if j < |items| { assert items[j] == b; }
    }
  }

  /** Whether the removal leaves the item. */
  predicate Stays(x: Item, gone: set<int>) { x.Sentinel? || x.task.id !in gone }

  lemma {:induction false} KeepIs(items: seq<Item>, gone: set<int>, a: Item, b: Item)
    ensures a in Keep(items, gone) <==> a in items && Stays(a, gone)
    ensures Stays(a, gone) && Stays(b, gone) ==> (Earlier(Keep(items, gone), a, b) <==> Earlier(items, a, b))
    ensures Count(Keep(items, gone), IsSentinel) == Count(items, IsSentinel)
  {
    if items != [] {
      hide Earlier, Count;
      var n := |items| - 1;
      var front, x := items[..n], items[n];
      assert items == front + [x];
      KeepIs(front, gone, a, b);
      var kept := Keep(front, gone);
      assert Keep(items, gone) == if Stays(x, gone) then kept + [x] else kept;
      hide Keep;
      EarlierPut(front, x, a, b);
      EarlierPut(kept, x, a, b);
      CountAppend(front, x, IsSentinel);
      CountAppend(kept, x, IsSentinel);
    }
  }

  predicate IsSentinel(x: Item) { x.Sentinel? }

  /** A removal takes exactly the named tasks off the queue and frees their reservations; the rest keeps its order. */
  lemma RemoveExact(q: Queue, gone: set<int>, a: Item, b: Item, id: int)
    requires Inv(q)
    ensures var r := Next(q, Remove(gone));
            && r == q.(items := r.items, reserved := r.reserved, messages := r.messages, bytes := r.bytes, signals := r.signals)
            && (a in r.items <==> a in q.items && (a.Work? ==> a.task.id !in gone))
            && (a in r.items && b in r.items ==> (Earlier(r.items, a, b) <==> Earlier(q.items, a, b)))
            && (id in r.reserved <==> id in q.reserved && !(Queued(q.items, id) && id in gone))
            && Inv(r)
  {
    hide Count, Earlier;
    RemovePendingInv(q, gone);
    KeepIs(q.items, gone, a, b);
    KeepIs(q.items, gone, b, a);
    var r := RemovePending(q, gone);
    hide RemovePending, Discard, BeginStop, EndStop, Keep, CountsOk, CallersOk;
    forall x ensures x in r.items <==> x in q.items && Stays(x, gone) {
      KeepIs(q.items, gone, x, x);
    }
    QueuedAfter(q, r, gone, id);
  }

  lemma QueuedAfter(q: Queue, r: Queue, gone: set<int>, id: int)
    requires IdsOk(q.items, q.workers, q.reserved, q.active) && IdsOk(r.items, r.workers, r.reserved, r.active)
    requires r.workers == q.workers && forall x :: x in r.items <==> x in q.items && Stays(x, gone)
    ensures id in r.reserved <==> id in q.reserved && !(Queued(q.items, id) && id in gone)
  {
    assert Queued(q.items, id) ==> !Running(q.workers, id);
    if Queued(q.items, id) && id !in gone {
      var i :| 0 <= i < |q.items| && q.items[i].Work? && q.items[i].task.id == id;
      assert q.items[i] in r.items;
      assert Queued(r.items, id);
    }
    if Queued(r.items, id) {
      var i :| 0 <= i < |r.items| && r.items[i].Work? && r.items[i].task.id == id;
      assert r.items[i] in q.items;
      var j :| 0 <= j < |q.items| && q.items[j] == r.items[i];
      assert Queued(q.items, id) && id !in gone;
    }
  }

  // ----- starting and stopping -----

  /** A start without known workers creates `n` idle ones and knows exactly those; otherwise it does nothing. */
  lemma StartExact(q: Queue, n: nat, w: nat)
    requires n >= 1
    ensures Enabled(q, StartWorkers(n))
    ensures var r := Next(q, StartWorkers(n));
            if q.tasks != [] then r == q
            else
              && r == q.(workers := r.workers, tasks := r.tasks) && |r.workers| == |q.workers| + n
              && r.workers[..|q.workers|] == q.workers
              && (w in r.tasks <==> |q.workers| <= w < |q.workers| + n)
              && (w in r.tasks ==> r.workers[w] == Idle)
  {
    hide RemovePending, Discard, BeginStop, EndStop;
    var fleet := From(|q.workers|, n);
    if |q.workers| <= w < |q.workers| + n { assert fleet[w - |q.workers|] == w; }
  }

  /**
   A stop waits for the known workers and puts one sentinel for each behind what is queued,
   or, if it discards, behind nothing.
   */
  lemma StopBeginExact(q: Queue, s: nat, discard: bool)
    requires Inv(q) && Enabled(q, StopBegin(s, discard))
    ensures var r := Next(q, StopBegin(s, discard));
            && r.stops == q.stops[s := q.tasks] && r.tasks == q.tasks && r.workers == q.workers
            && (!discard ==> r.items == q.items + Repeat(Sentinel, |q.tasks|) && r.reserved == q.reserved)
            && (discard ==> (forall i :: 0 <= i < |r.items| ==> r.items[i] == Sentinel) && r.reserved == q.active)
            && Count(r.items, IsSentinel) == Count(q.items, IsSentinel) + |q.tasks|
  {
    hide Count, Inv, Keep, RemovePending, Discard, EndStop;
    RemovePendingInv(q, q.reserved);
    var p := if discard then RemovePending(q, q.reserved) else q;
    SentinelsPut(p.items, |q.tasks|);
    KeepIs(q.items, q.reserved, Sentinel, Sentinel);
    if discard { NothingLeft(q, p); }
  }

  lemma SentinelsPut(items: seq<Item>, n: nat)
    ensures Count(items + Repeat(Sentinel, n), IsSentinel) == Count(items, IsSentinel) + n
  {
    var more := Repeat(Sentinel, n);
    CountConcat(items, more, IsSentinel);
    CountAll(more, IsSentinel);
    hide Count;
  }

  lemma NothingLeft(q: Queue, p: Queue)
    requires Inv(q) && Inv(p) && p.items == Keep(q.items, q.reserved) && p.workers == q.workers && p.active == q.active
    ensures p.reserved == p.active && forall i :: 0 <= i < |p.items| ==> p.items[i] == Sentinel
  {
    hide CountsOk, CallersOk;
    forall j | 0 <= j < |q.items| && q.items[j].Work? ensures !Stays(q.items[j], q.reserved) {
      assert Queued(q.items, q.items[j].task.id);
    }
    forall i | 0 <= i < |p.items| ensures p.items[i] == Sentinel {
      KeepIs(q.items, q.reserved, p.items[i], p.items[i]);
      assert p.items[i] in q.items;
    }
    forall id ensures id in p.reserved <==> id in p.active {
      assert !Queued(p.items, id);
    }
  }

  // ----- a stop never gets stuck -----

  predicate IsLive(w: Worker) { !w.Done? }

  /** While a stop is in progress there is a sentinel for every live worker. */
  ghost predicate Provided(q: Queue) {
    q.stops != map[] ==> Count(q.workers, IsLive) <= Count(q.items, IsSentinel)
  }

  ghost function Members(s: seq<nat>): (r: set<nat>)
    ensures forall x :: x in r <==> x in s
  {
    set x | x in s
  }

  lemma {:induction false} MembersSize(s: seq<nat>)
    ensures |Members(s)| <= |s|
  {
    if s == [] {
      assert Members(s) == {};
    } else {
      MembersSize(s[1..]);
      assert Members(s) == {s[0]} + Members(s[1..]);
    }
  }

  lemma LiveAreKnown(q: Queue)
    requires Known(q)
    ensures Count(q.workers, IsLive) <= |q.tasks|
  {
    CountIsSize(q.workers, IsLive);
    MembersSize(q.tasks);
    hide Count;
    forall w | w in Positions(q.workers, IsLive) ensures w in Members(q.tasks) { assert Live(q, w); }
    SubsetSize(Positions(q.workers, IsLive), Members(q.tasks));
  }

  lemma NobodyLives(q: Queue)
    requires forall w: nat :: !Live(q, w)
    ensures Count(q.workers, IsLive) == 0
  {
    forall w | 0 <= w < |q.workers| ensures !IsLive(q.workers[w]) { assert !Live(q, w); }
    CountZero(q.workers, IsLive);
    hide Count;
  }

  lemma {:induction false} SentinelTail(items: seq<Item>)
    requires items != []
    ensures Count(items, IsSentinel) == (if items[0].Sentinel? then 1 else 0) + Count(items[1..], IsSentinel)
  {
    assert items == [items[0]] + items[1..];
    CountConcat([items[0]], items[1..], IsSentinel);
    assert [items[0]][..0] == [];
  }

  lemma WorkerProvided(q: Queue, op: Op)
    requires Provided(q) && Enabled(q, op) && (op.TakeOne? || op.FinishOne? || op.CancelIdle?)
    ensures Provided(Next(q, op))
  {
    hide RemovePending, Discard, BeginStop, EndStop;
    if op.TakeOne? { SentinelTail(q.items); }
    CountUpdate(q.workers, op.worker, Next(q, op).workers[op.worker], IsLive);
    hide Count;
  }

  lemma CallerProvided(q: Queue, op: Op)
    requires Provided(q) && Enabled(q, op) && (op.TryPut? || op.Call? || op.Wake? || op.Leave?)
    ensures Provided(Next(q, op))
  {
    hide Count, RemovePending, Discard, BeginStop, EndStop;
    var t := match op case TryPut(t) => t case Call(t) => t case Wake(c) => q.callers[c].task case Leave(_) => Task(0, 0);
    CountAppend(q.items, Work(t), IsSentinel);
  }

  lemma ProvidedStep(q: Queue, op: Op)
    requires Inv(q) && Known(q) && Provided(q) && Enabled(q, op) && Disciplined(q, op)
    ensures Provided(Next(q, op))
  {
    hide Count, Inv;
    match op {
      case TakeOne(_) => WorkerProvided(q, op);
      case FinishOne(_, _) => WorkerProvided(q, op);
      case CancelIdle(_) => WorkerProvided(q, op);
      case Remove(gone) => RemovePendingInv(q, gone); KeepIs(q.items, gone, Sentinel, Sentinel);
      case StopBegin(s, discard) => StopBeginExact(q, s, discard); LiveAreKnown(q);
      case StopEnd(s) =>
        EndStopInv(q, s);
        forall w: nat ensures !Live(q, w) { NobodyLive(q, s, w); }
        NobodyLives(q);
      case StopIdle =>
        DiscardInv(q);
        assert forall w: nat :: !Live(q, w);
        NobodyLives(q);
      case StartWorkers(_) =>
      case StopAbandon(_) =>
      case _ => CallerProvided(q, op);
    }
    hide RemovePending, Discard, BeginStop, EndStop, Keep, Known;
  }

  lemma {:induction false} ProvidedRun(q: Queue, ops: seq<Op>, r: Queue)
    requires Inv(q) && Known(q) && Provided(q) && DisciplinedRun(q, ops, r)
    ensures Inv(r) && Known(r) && Provided(r)
    decreases |ops|
  {
    if ops != [] {
      StepInv(q, ops[0]);
      KnownStep(q, ops[0]);
      ProvidedStep(q, ops[0]);
      hide Inv, Known, Provided, Next, Enabled;
      ProvidedRun(Next(q, ops[0]), ops[1..], r);
    }
  }

  /**
   A stop never gets stuck: in every disciplined run, as long as a worker that a stop waits for
   is not done, that worker can take an item or finish its task, and once all are done the stop
   can complete.
   */
  lemma StopMovesOn(maxMessages: nat, maxBytes: nat, ops: seq<Op>, q: Queue, s: nat, i: nat)
    requires DisciplinedRun(Init(maxMessages, maxBytes), ops, q) && s in q.stops && i < |q.stops[s]|
    ensures q.stops[s][i] < |q.workers|
    ensures var w := q.stops[s][i];
            q.workers[w].Done? || Enabled(q, TakeOne(w)) || Enabled(q, FinishOne(w, false))
    ensures (forall j :: 0 <= j < |q.stops[s]| ==> q.stops[s][j] < |q.workers| && q.workers[q.stops[s][j]].Done?) ==> Enabled(q, StopEnd(s))
  {
    hide Count;
    ProvidedRun(Init(maxMessages, maxBytes), ops, q);
    hide DisciplinedRun, Inv;
    var w := q.stops[s][i];
    if q.workers[w].Idle? && q.items == [] {
      CountZero(q.workers, IsLive);
      CountZero(q.items, IsSentinel);
    }
  }

  /** A stop that completes forgets the workers and itself and empties the queue; what still runs stays reserved. */
  lemma StopEndExact(q: Queue, s: nat)
    requires Inv(q) && Enabled(q, StopEnd(s))
    ensures var r := Next(q, StopEnd(s));
            && r.items == [] && r.tasks == [] && r.workers == q.workers && r.callers == q.callers
            && r.stops == q.stops - {s} && r.active == q.active && r.reserved == q.active
  {
    hide CountsOk, CallersOk;
    EndStopInv(q, s);
    ForgetStops(q, [], q.stops - {s});
    DiscardInv(q.(tasks := [], stops := q.stops - {s}));
    var r := EndStop(q, s);
    hide Discard, RemovePending, BeginStop, EndStop;
    forall id ensures id in r.reserved <==> id in r.active { assert !Queued(r.items, id); }
  }

  /** A caller that gives up, an idle worker that is cancelled and a stop that is given up leave everything else alone. */
  lemma LeavingExact(q: Queue, c: nat, w: nat, s: nat)
    ensures c < |q.callers| && q.callers[c].Blocked? ==>
              Enabled(q, Leave(c)) && Next(q, Leave(c)) == q.(callers := q.callers[..c] + [Answered(false)] + q.callers[c + 1..])
    ensures w < |q.workers| && q.workers[w].Idle? ==>
              Enabled(q, CancelIdle(w)) && Next(q, CancelIdle(w)) == q.(workers := q.workers[..w] + [Done] + q.workers[w + 1..])
    ensures s in q.stops ==>
              Enabled(q, StopAbandon(s)) && s !in Next(q, StopAbandon(s)).stops
              && Next(q, StopAbandon(s)).stops.Keys == q.stops.Keys - {s} && Next(q, StopAbandon(s)).items == q.items
  {
    hide RemovePending, Discard, BeginStop, EndStop;
  }

  /** An idle worker takes the front of the queue: it runs the task, or ends at a sentinel. */
  lemma TakeExact(q: Queue, w: nat)
    requires w < |q.workers| && q.workers[w].Idle? && q.items != []
    ensures Enabled(q, TakeOne(w))
    ensures var x, r := q.items[0], Next(q, TakeOne(w));
            && q.items == [x] + r.items && r.reserved == q.reserved && r.messages == q.messages && r.bytes == q.bytes
            && (x.Sentinel? ==> r.workers == q.workers[w := Done] && r.active == q.active)
            && (x.Work? ==> r.workers == q.workers[w := Busy(x.task)] && r.active == q.active + {x.task.id})
  {
    hide RemovePending, Discard, BeginStop, EndStop;
  }
}
