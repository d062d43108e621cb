/**
 The parse queue: message and byte reservations shared by queued and running tasks,
 callers that wait for capacity on an event, and workers that sentinels or
 cancellation bring to an end.
 */
module ParseQueue {

  datatype Task = Task(id: int, size: nat)

  datatype Item = Work(task: Task) | Sentinel

  datatype Worker = Idle | Busy(task: Task) | Done

  /** A caller of `enqueue`: blocked since the event had been set `at` times, or finished. */
  datatype Caller = Blocked(task: Task, at: nat) | Answered(accepted: bool)

  datatype Queue = Queue(
    maxMessages: nat,
    maxBytes: nat,
    items: seq<Item>,
    workers: seq<Worker>,          // every worker ever started
    tasks: seq<nat>,               // the workers the queue knows of
    reserved: set<int>,
    active: set<int>,
    messages: int,
    bytes: int,
    signals: nat,                  // how often the capacity event was set
    callers: seq<Caller>,
    stops: map<nat, seq<nat>>      // the workers each stop in progress waits for
  )

  // ----- reservations -----

  predicate HasCapacity(q: Queue, t: Task) {
    q.messages < q.maxMessages && q.bytes + t.size <= q.maxBytes
  }

  predicate Admissible(q: Queue, t: Task) {
    t.size <= q.maxBytes && t.id !in q.reserved && HasCapacity(q, t)
  }

  function Reserve(q: Queue, t: Task): (r: Queue) {
    q.(reserved := q.reserved + {t.id}, messages := q.messages + 1, bytes := q.bytes + t.size, items := q.items + [Work(t)])
  }

  function TryEnqueue(q: Queue, t: Task): (r: Queue) {
    if Admissible(q, t) then Reserve(q, t) else q
  }

  /** Gives a reservation back and sets the capacity event. */
  function Release(q: Queue, t: Task): (r: Queue) {
    q.(reserved := q.reserved - {t.id}, messages := q.messages - 1, bytes := q.bytes - t.size, signals := q.signals + 1)
  }

  datatype Attempt = Enqueued | Duplicate | Waits

  /** One turn of the waiting loop. */
  function Try(q: Queue, t: Task): (r: (Queue, Attempt))
    requires t.size <= q.maxBytes
  {
    if t.id in q.reserved then (q, Duplicate)
    else if HasCapacity(q, t) then (Reserve(q, t), Enqueued)
    else (q, Waits)
  }

  function CallerAfter(q: Queue, t: Task, a: Attempt): (c: Caller) {
    match a
    case Enqueued => Answered(true)
    case Duplicate => Answered(false)
    case Waits => Blocked(t, q.signals)
  }

  /** A new caller of `enqueue`. */
  function Enqueue(q: Queue, t: Task): (r: Queue)
    requires t.size <= q.maxBytes
  {
    var (p, a) := Try(q, t);
    p.(callers := q.callers + [CallerAfter(q, t, a)])
  }

  /** A caller whose event was set looks again. */
  function Resume(q: Queue, c: nat): (r: Queue)
    requires c < |q.callers| && q.callers[c].Blocked? && q.callers[c].task.size <= q.maxBytes
  {
    var t := q.callers[c].task;
    var (p, a) := Try(q, t);
    p.(callers := q.callers[c := CallerAfter(q, t, a)])
  }

  /** Takes everything off the queue, releases the tasks named in `gone`, and puts the rest back. */
  ghost function RemoveFrom(q: Queue, kept: seq<Item>, gone: set<int>): (r: Queue)
    decreases |q.items|
  {
    if q.items == [] then q.(items := kept)
    else
      var item, rest := q.items[0], q.(items := q.items[1..]);
      if item.Work? && item.task.id in gone then RemoveFrom(Release(rest, item.task), kept, gone)
      else RemoveFrom(rest, kept + [item], gone)
  }

  ghost function RemovePending(q: Queue, gone: set<int>): (r: Queue) {
    RemoveFrom(q, [], gone)
  }

  /** Empties the queue, sentinels included. */
  ghost function Discard(q: Queue): (r: Queue)
    decreases |q.items|
  {
    if q.items == [] then q
    else
      var rest := q.(items := q.items[1..]);
      Discard(if q.items[0].Work? then Release(rest, q.items[0].task) else rest)
  }

  // ----- workers -----

  /** An idle worker takes the front of the queue; a sentinel ends it. */
  function Take(q: Queue, w: nat): (r: Queue)
    requires w < |q.workers| && q.items != []
  {
    var rest := q.(items := q.items[1..]);
    match q.items[0]
    case Sentinel => rest.(workers := q.workers[w := Done])
    case Work(t) => rest.(workers := q.workers[w := Busy(t)], active := q.active + {t.id})
  }

  /** A busy worker is through, failed or cancelled: in every case it lets go of its task. */
  function Finish(q: Queue, w: nat, cancelled: bool): (r: Queue)
    requires w < |q.workers| && q.workers[w].Busy?
  {
    var t := q.workers[w].task;
    Release(q.(workers := q.workers[w := if cancelled then Done else Idle], active := q.active - {t.id}), t)
  }

  function Repeat<T>(x: T, n: nat): (s: seq<T>)
    ensures |s| == n && forall i :: 0 <= i < n ==> s[i] == x
  {
    if n == 0 then [] else Repeat(x, n - 1) + [x]
  }

  function From(start: nat, n: nat): (s: seq<nat>)
    ensures |s| == n && forall i :: 0 <= i < n ==> s[i] == start + i
  {
    if n == 0 then [] else From(start, n - 1) + [start + n - 1]
  }

  function Start(q: Queue, n: nat): (r: Queue) {
    if q.tasks != [] then q
    else q.(workers := q.workers + Repeat(Idle, n), tasks := From(|q.workers|, n))
  }

  /** A stop remembers the workers it waits for and sends each a sentinel. */
  ghost function BeginStop(q: Queue, s: nat, discard: bool): (r: Queue) {
    var p := if discard then RemovePending(q, q.reserved) else q;
    p.(items := p.items + Repeat(Sentinel, |q.tasks|), stops := q.stops[s := q.tasks])
  }

  /** Once all the workers it waited for are done, a stop forgets the workers and empties the queue. */
  ghost function EndStop(q: Queue, s: nat): (r: Queue) {
    Discard(q.(tasks := [], stops := q.stops - {s}))
  }

  // ----- the invariant -----

  datatype What = Messages | Bytes

  function Cost(t: Task, what: What): (n: nat) {
    match what case Messages => 1 case Bytes => t.size
  }

  function ItemCost(i: Item, what: What): (n: nat) {
    if i.Work? then Cost(i.task, what) else 0
  }

  function WorkerCost(w: Worker, what: What): (n: nat) {
    if w.Busy? then Cost(w.task, what) else 0
  }

  function ItemsTotal(items: seq<Item>, what: What): (n: nat) {
    if items == [] then 0 else ItemsTotal(items[..|items| - 1], what) + ItemCost(items[|items| - 1], what)
  }

  function WorkersTotal(workers: seq<Worker>, what: What): (n: nat) {
    if workers == [] then 0 else WorkersTotal(workers[..|workers| - 1], what) + WorkerCost(workers[|workers| - 1], what)
  }

  ghost predicate Queued(items: seq<Item>, id: int) {
    exists i :: 0 <= i < |items| && items[i].Work? && items[i].task.id == id
  }

  ghost predicate Running(workers: seq<Worker>, id: int) {
    exists w :: 0 <= w < |workers| && workers[w].Busy? && workers[w].task.id == id
  }

  /** No id is held twice. */
  ghost predicate NoRepeats(items: seq<Item>, workers: seq<Worker>) {
    && (forall i, j :: 0 <= i < j < |items| && items[i].Work? && items[j].Work? ==> items[i].task.id != items[j].task.id)
    && (forall v, w :: 0 <= v < w < |workers| && workers[v].Busy? && workers[w].Busy? ==> workers[v].task.id != workers[w].task.id)
    && (forall i, w :: 0 <= i < |items| && 0 <= w < |workers| && items[i].Work? && workers[w].Busy? ==>
          items[i].task.id != workers[w].task.id)
  }

  /** The reserved ids are the queued and the running ones. */
  ghost predicate IdsOk(items: seq<Item>, workers: seq<Worker>, reserved: set<int>, active: set<int>) {
    && NoRepeats(items, workers)
    && (forall id :: id in reserved <==> Queued(items, id) || Running(workers, id))
    && (forall id :: id in active <==> Running(workers, id))
  }

  /** The counters are the number and the total size of what is held, within the budgets. */
  ghost predicate CountsOk(q: Queue) {
    && q.messages == ItemsTotal(q.items, Messages) + WorkersTotal(q.workers, Messages) <= q.maxMessages
    && q.bytes == ItemsTotal(q.items, Bytes) + WorkersTotal(q.workers, Bytes) <= q.maxBytes
  }

  /** A blocked caller whose event has not been set since lacks capacity. */
  ghost predicate CallersOk(q: Queue) {
    forall c :: 0 <= c < |q.callers| && q.callers[c].Blocked? ==>
      && q.callers[c].task.size <= q.maxBytes
      && q.callers[c].at <= q.signals
      && (q.callers[c].at == q.signals ==> !HasCapacity(q, q.callers[c].task))
  }

  ghost predicate Inv(q: Queue) {
    IdsOk(q.items, q.workers, q.reserved, q.active) && CountsOk(q) && CallersOk(q)
  }

  // ----- totals -----

  lemma {:induction false} ItemsConcat(a: seq<Item>, b: seq<Item>, what: What)
    ensures ItemsTotal(a + b, what) == ItemsTotal(a, what) + ItemsTotal(b, what)
  {
    if b == [] {
      assert a + b == a;
    } else {
      assert (a + b)[..|a + b| - 1] == a + b[..|b| - 1];
      ItemsConcat(a, b[..|b| - 1], what);
    }
  }

  lemma ItemsOne(i: Item, what: What)
    ensures ItemsTotal([i], what) == ItemCost(i, what)
  {
    assert [i][..0] == [];
  }

  lemma ItemsHead(items: seq<Item>, what: What)
    requires items != []
    ensures ItemsTotal(items, what) == ItemCost(items[0], what) + ItemsTotal(items[1..], what)
  {
    assert items == [items[0]] + items[1..];
    ItemsConcat([items[0]], items[1..], what);
    ItemsOne(items[0], what);
  }

  lemma {:induction false} SentinelsFree(n: nat, what: What)
    ensures ItemsTotal(Repeat(Sentinel, n), what) == 0
  {
    if n > 0 {
      var front := Repeat(Sentinel, n - 1);
      assert (front + [Sentinel])[..n - 1] == front;
      SentinelsFree(n - 1, what);
    }
  }

  lemma {:induction false} WorkersConcat(a: seq<Worker>, b: seq<Worker>, what: What)
    ensures WorkersTotal(a + b, what) == WorkersTotal(a, what) + WorkersTotal(b, what)
  {
    if b == [] {
      assert a + b == a;
    } else {
      assert (a + b)[..|a + b| - 1] == a + b[..|b| - 1];
      WorkersConcat(a, b[..|b| - 1], what);
    }
  }

  lemma {:induction false} IdleFree(n: nat, what: What)
    ensures WorkersTotal(Repeat(Idle, n), what) == 0
  {
    if n > 0 {
      var front := Repeat(Idle, n - 1);
      assert (front + [Idle])[..n - 1] == front;
      IdleFree(n - 1, what);
    }
  }

  lemma {:induction false} WorkersUpdate(workers: seq<Worker>, w: nat, x: Worker, what: What)
    requires w < |workers|
    ensures WorkersTotal(workers[w := x], what)
            == WorkersTotal(workers, what) - WorkerCost(workers[w], what) + WorkerCost(x, what)
  {
    var n := |workers| - 1;
    if w == n {
      assert workers[w := x][..n] == workers[..n];
    } else {
      assert workers[w := x][..n] == workers[..n][w := x];
      WorkersUpdate(workers[..n], w, x, what);
    }
  }

  // ----- ids -----

  lemma IdsAppend(items: seq<Item>, workers: seq<Worker>, reserved: set<int>, active: set<int>, t: Task)
    requires IdsOk(items, workers, reserved, active) && t.id !in reserved
    ensures IdsOk(items + [Work(t)], workers, reserved + {t.id}, active)
  {
    var more := items + [Work(t)];
    assert !Queued(items, t.id) && !Running(workers, t.id);
    forall id ensures Queued(more, id) <==> Queued(items, id) || id == t.id {
      assert more[|items|] == Work(t);
      if Queued(items, id) {
        var i :| 0 <= i < |items| && items[i].Work? && items[i].task.id == id;
        assert more[i] == items[i];
      }
    }
  }

  /** Taking the item at `k` out of the queue: its id is held nowhere else. */
  lemma IdsRemove(items: seq<Item>, k: nat, workers: seq<Worker>, reserved: set<int>, active: set<int>)
    requires IdsOk(items, workers, reserved, active) && k < |items|
    ensures var rest := items[..k] + items[k + 1..];
            && NoRepeats(rest, workers)
            && (items[k].Sentinel? ==> IdsOk(rest, workers, reserved, active))
            && (items[k].Work? ==> IdsOk(rest, workers, reserved - {items[k].task.id}, active))
            && (items[k].Work? ==> !Queued(rest, items[k].task.id) && !Running(workers, items[k].task.id))
            && (items[k].Work? ==> items[k].task.id in reserved)
  {
    var rest := items[..k] + items[k + 1..];
    assert forall i :: 0 <= i < |rest| ==> rest[i] == items[if i < k then i else i + 1];
    forall id ensures Queued(items, id) <==> Queued(rest, id) || (items[k].Work? && items[k].task.id == id) {
      if Queued(items, id) {
        var i :| 0 <= i < |items| && items[i].Work? && items[i].task.id == id;
        if i < k { assert rest[i] == items[i]; } else if i > k { assert rest[i - 1] == items[i]; }
      }
    }
    if items[k].Work? {
      assert Queued(items, items[k].task.id);
    }
  }

  lemma IdsTake(items: seq<Item>, workers: seq<Worker>, w: nat, t: Task, reserved: set<int>, active: set<int>)
    requires IdsOk(items, workers, reserved, active) && t.id !in reserved && w < |workers| && !workers[w].Busy?
    ensures IdsOk(items, workers[w := Busy(t)], reserved + {t.id}, active + {t.id})
  {
    var after := workers[w := Busy(t)];
    assert !Queued(items, t.id) && !Running(workers, t.id);
    forall id ensures Running(after, id) <==> Running(workers, id) || id == t.id {
      assert after[w] == Busy(t);
      if Running(workers, id) {
        var v :| 0 <= v < |workers| && workers[v].Busy? && workers[v].task.id == id;
        assert after[v] == workers[v];
      }
    }
  }

  lemma IdsFinish(items: seq<Item>, workers: seq<Worker>, w: nat, x: Worker, reserved: set<int>, active: set<int>)
    requires IdsOk(items, workers, reserved, active) && w < |workers| && workers[w].Busy? && !x.Busy?
    ensures IdsOk(items, workers[w := x], reserved - {workers[w].task.id}, active - {workers[w].task.id})
    ensures workers[w].task.id in reserved
  {
    var after, t := workers[w := x], workers[w].task;
    assert Running(workers, t.id);
    forall id ensures Running(after, id) <==> Running(workers, id) && id != t.id {
      if Running(workers, id) && id != t.id {
        var v :| 0 <= v < |workers| && workers[v].Busy? && workers[v].task.id == id;
        assert after[v] == workers[v];
      }
    }
  }

  lemma IdsSameWork(items: seq<Item>, more: seq<Item>, workers: seq<Worker>, others: seq<Worker>, reserved: set<int>, active: set<int>)
    requires IdsOk(items, workers, reserved, active)
    requires forall i :: 0 <= i < |more| ==> more[i].Sentinel?
    requires |others| >= |workers|
    requires forall w :: 0 <= w < |others| ==> (if w < |workers| && workers[w].Busy? then others[w] == workers[w] else !others[w].Busy?)
    ensures IdsOk(items + more, others, reserved, active)
  {
    forall id ensures Queued(items + more, id) <==> Queued(items, id) {
      if Queued(items, id) {
        var i :| 0 <= i < |items| && items[i].Work? && items[i].task.id == id;
        assert (items + more)[i] == items[i];
      }
    }
    forall id ensures Running(others, id) <==> Running(workers, id) {
      if Running(workers, id) {
        var w :| 0 <= w < |workers| && workers[w].Busy? && workers[w].task.id == id;
        assert others[w] == workers[w];
      }
    }
  }

  // ----- every operation keeps the invariant -----

  lemma ReserveInv(q: Queue, t: Task)
    requires Inv(q) && Admissible(q, t)
    ensures Inv(Reserve(q, t))
  {
    IdsAppend(q.items, q.workers, q.reserved, q.active, t);
    forall what ensures ItemsTotal(q.items + [Work(t)], what) == ItemsTotal(q.items, what) + Cost(t, what) {
      ItemsConcat(q.items, [Work(t)], what);
      ItemsOne(Work(t), what);
    }
    hide IdsOk, ItemsTotal, WorkersTotal;
  }

  /** The queue once the item at `k` is taken off and, if it is a task, released. */
  function Without(q: Queue, k: nat): (r: Queue)
    requires k < |q.items|
  {
    var rest := q.(items := q.items[..k] + q.items[k + 1..]);
    if q.items[k].Work? then Release(rest, q.items[k].task) else rest
  }

  lemma TotalWithout(items: seq<Item>, k: nat, what: What)
    requires k < |items|
    ensures ItemsTotal(items[..k] + items[k + 1..], what) == ItemsTotal(items, what) - ItemCost(items[k], what)
  {
    assert items == items[..k] + items[k..];
    ItemsConcat(items[..k], items[k..], what);
    ItemsHead(items[k..], what);
    assert items[k..][1..] == items[k + 1..];
    ItemsConcat(items[..k], items[k + 1..], what);
  }

  lemma WithoutInv(q: Queue, k: nat)
    requires Inv(q) && k < |q.items|
    ensures Inv(Without(q, k))
    ensures q.items[k].Work? ==> q.items[k].task.id in q.reserved && 0 <= Without(q, k).messages && 0 <= Without(q, k).bytes
  {
    IdsRemove(q.items, k, q.workers, q.reserved, q.active);
    TotalWithout(q.items, k, Messages);
    TotalWithout(q.items, k, Bytes);
    hide IdsOk, ItemsTotal, WorkersTotal;
  }

  /** The items that a removal leaves, in their order. */
  ghost function Keep(items: seq<Item>, gone: set<int>): (r: seq<Item>) {
    if items == [] then []
    else
      var rest := Keep(items[..|items| - 1], gone);
      var item := items[|items| - 1];
      if item.Work? && item.task.id in gone then rest else rest + [item]
  }

  lemma {:induction false} KeepHead(items: seq<Item>, gone: set<int>)
    requires items != []
    ensures Keep(items, gone) ==
              (if items[0].Work? && items[0].task.id in gone then [] else [items[0]]) + Keep(items[1..], gone)
  {
    if |items| > 1 {
      KeepHead(items[..|items| - 1], gone);
      assert items[..|items| - 1][1..] == items[1..][..|items| - 2];
      assert items[..|items| - 1][0] == items[0];
    } else {
      assert items[..0] == [] && items[1..] == [];
    }
  }

  ghost predicate SameBut(q: Queue, r: Queue) {
    r == q.(items := r.items, reserved := r.reserved, messages := r.messages, bytes := r.bytes, signals := r.signals)
  }

  lemma AsideThenRest(kept: seq<Item>, items: seq<Item>)
    requires items != []
    ensures (kept + items)[|kept|] == items[0]
    ensures (kept + items)[..|kept|] + (kept + items)[|kept| + 1..] == kept + items[1..]
    ensures kept + items == (kept + [items[0]]) + items[1..]
  {
  }

  /** One turn of the removal loop: either way the items put aside and the rest are sound together. */
  lemma RemoveTurn(q: Queue, kept: seq<Item>)
    requires Inv(q.(items := kept + q.items)) && q.items != []
    ensures var item, rest := q.items[0], q.(items := q.items[1..]);
            && Inv(rest.(items := (kept + [item]) + rest.items))
            && (item.Work? ==>
                  && item.task.id in q.reserved && q.messages >= 1 && q.bytes >= item.task.size
                  && Inv(Release(rest, item.task).(items := kept + rest.items)))
  {
    hide Inv;
    AsideThenRest(kept, q.items);
    WithoutInv(q.(items := kept + q.items), |kept|);
  }

  /** Removing keeps the order of what remains and every reservation of it. */
  lemma {:induction false} RemoveFromInv(q: Queue, kept: seq<Item>, gone: set<int>)
    requires Inv(q.(items := kept + q.items))
    ensures var r := RemoveFrom(q, kept, gone);
            Inv(r) && r.items == kept + Keep(q.items, gone) && SameBut(q, r)
    decreases |q.items|
  {
    hide Inv;
    if q.items == [] {
      assert kept + q.items == kept && kept + [] == kept;
    } else {
      var item, rest := q.items[0], q.(items := q.items[1..]);
      KeepHead(q.items, gone);
      RemoveTurn(q, kept);
      if item.Work? && item.task.id in gone {
        RemoveFromInv(Release(rest, item.task), kept, gone);
      } else {
        RemoveFromInv(rest, kept + [item], gone);
        assert kept + ([item] + Keep(q.items[1..], gone)) == (kept + [item]) + Keep(q.items[1..], gone);
      }
    }
  }

  lemma RemovePendingInv(q: Queue, gone: set<int>)
    requires Inv(q)
    ensures Inv(RemovePending(q, gone)) && RemovePending(q, gone).items == Keep(q.items, gone)
    ensures SameBut(q, RemovePending(q, gone))
  {
    assert [] + q.items == q.items;
    assert [] + Keep(q.items, gone) == Keep(q.items, gone);
    RemoveFromInv(q, [], gone);
  }

  lemma {:induction false} DiscardInv(q: Queue)
    requires Inv(q)
    ensures Inv(Discard(q)) && Discard(q).items == [] && SameBut(q, Discard(q))
    decreases |q.items|
  {
    if q.items != [] {
      WithoutInv(q, 0);
      assert q.items[..0] + q.items[1..] == q.items[1..];
      hide Inv;
      DiscardInv(Without(q, 0));
    }
  }

  lemma HeadGone(items: seq<Item>)
    requires items != []
    ensures items[..0] + items[1..] == items[1..]
  {
  }

  lemma TakeIds(q: Queue, w: nat, t: Task)
    requires IdsOk(q.items, q.workers, q.reserved, q.active) && w < |q.workers| && q.workers[w].Idle?
    requires q.items != [] && q.items[0] == Work(t)
    ensures IdsOk(q.items[1..], q.workers[w := Busy(t)], q.reserved, q.active + {t.id})
  {
    IdsRemove(q.items, 0, q.workers, q.reserved, q.active);
    HeadGone(q.items);
    IdsTake(q.items[1..], q.workers, w, t, q.reserved - {t.id}, q.active);
    hide IdsOk;
    assert q.reserved - {t.id} + {t.id} == q.reserved;
  }

  lemma TakeInv(q: Queue, w: nat)
    requires Inv(q) && w < |q.workers| && q.workers[w].Idle? && q.items != []
    ensures Inv(Take(q, w))
  {
    hide IdsOk, ItemsTotal, WorkersTotal;
    match q.items[0]
    case Work(t) =>
      TakeIds(q, w, t);
      ItemsHead(q.items, Messages);
      ItemsHead(q.items, Bytes);
      WorkersUpdate(q.workers, w, Busy(t), Messages);
      WorkersUpdate(q.workers, w, Busy(t), Bytes);
    case Sentinel =>
      WithoutInv(q, 0);
      HeadGone(q.items);
      SetIdleOrDone(q.(items := q.items[1..]), w, Done);
  }

  /** A worker that holds nothing may change its state. */
  lemma SetIdleOrDone(q: Queue, w: nat, x: Worker)
    requires Inv(q) && w < |q.workers| && !q.workers[w].Busy? && !x.Busy?
    ensures Inv(q.(workers := q.workers[w := x]))
  {
    IdsSameWork(q.items, [], q.workers, q.workers[w := x], q.reserved, q.active);
    assert q.items + [] == q.items;
    WorkersUpdate(q.workers, w, x, Messages);
    WorkersUpdate(q.workers, w, x, Bytes);
    hide IdsOk, ItemsTotal, WorkersTotal;
  }

  lemma FinishInv(q: Queue, w: nat, cancelled: bool)
    requires Inv(q) && w < |q.workers| && q.workers[w].Busy?
    ensures Inv(Finish(q, w, cancelled))
    ensures q.workers[w].task.id in q.reserved && 0 <= Finish(q, w, cancelled).messages && 0 <= Finish(q, w, cancelled).bytes
  {
    var x := if cancelled then Done else Idle;
    IdsFinish(q.items, q.workers, w, x, q.reserved, q.active);
    WorkersUpdate(q.workers, w, x, Messages);
    WorkersUpdate(q.workers, w, x, Bytes);
    hide IdsOk, ItemsTotal, WorkersTotal;
  }

  lemma StartInv(q: Queue, n: nat)
    requires Inv(q)
    ensures Inv(Start(q, n))
  {
    hide IdsOk, ItemsTotal, WorkersTotal;
    if q.tasks == [] {
      var fleet := q.workers + Repeat(Idle, n);
      IdsSameWork(q.items, [], q.workers, fleet, q.reserved, q.active);
      assert q.items + [] == q.items;
      WorkersConcat(q.workers, Repeat(Idle, n), Messages);
      WorkersConcat(q.workers, Repeat(Idle, n), Bytes);
      IdleFree(n, Messages);
      IdleFree(n, Bytes);
    }
  }

  lemma SentinelsInv(q: Queue, n: nat)
    requires Inv(q)
    ensures Inv(q.(items := q.items + Repeat(Sentinel, n)))
  {
    hide IdsOk, ItemsTotal, WorkersTotal;
    IdsSameWork(q.items, Repeat(Sentinel, n), q.workers, q.workers, q.reserved, q.active);
    ItemsConcat(q.items, Repeat(Sentinel, n), Messages);
    ItemsConcat(q.items, Repeat(Sentinel, n), Bytes);
    SentinelsFree(n, Messages);
    SentinelsFree(n, Bytes);
  }

  lemma TryInv(q: Queue, t: Task)
    requires Inv(q) && t.size <= q.maxBytes
    ensures Inv(Try(q, t).0)
    ensures Try(q, t).1 == Waits <==> t.id !in q.reserved && !HasCapacity(q, t)
  {
    if t.id !in q.reserved && HasCapacity(q, t) { ReserveInv(q, t); }
  }

  /** Only the waiting callers change. */
  lemma CallersInv(q: Queue, callers: seq<Caller>)
    requires Inv(q) && CallersOk(q.(callers := callers))
    ensures Inv(q.(callers := callers))
  {
    hide IdsOk, CallersOk, ItemsTotal, WorkersTotal;
  }

  /** A caller that waits after a turn lacks capacity. */
  lemma AnswerOk(q: Queue, t: Task, callers: seq<Caller>)
    requires t.size <= q.maxBytes && CallersOk(Try(q, t).0.(callers := q.callers))
    requires forall c :: 0 <= c < |callers| ==>
               (c < |q.callers| && callers[c] == q.callers[c]) || callers[c] == CallerAfter(q, t, Try(q, t).1)
    ensures CallersOk(Try(q, t).0.(callers := callers))
  {
  }

  lemma EnqueueInv(q: Queue, t: Task)
    requires Inv(q) && t.size <= q.maxBytes
    ensures Inv(Enqueue(q, t))
  {
    TryInv(q, t);
    var callers := q.callers + [CallerAfter(q, t, Try(q, t).1)];
    AnswerOk(q, t, callers);
    hide Inv, CallersOk;
    CallersInv(Try(q, t).0, callers);
  }

  lemma ResumeInv(q: Queue, c: nat)
    requires Inv(q) && c < |q.callers| && q.callers[c].Blocked?
    ensures q.callers[c].task.size <= q.maxBytes
    ensures Inv(Resume(q, c))
  {
    var t := q.callers[c].task;
    assert t.size <= q.maxBytes;
    TryInv(q, t);
    var callers := q.callers[c := CallerAfter(q, t, Try(q, t).1)];
    AnswerOk(q, t, callers);
    hide Inv, CallersOk;
    CallersInv(Try(q, t).0, callers);
  }

  lemma LeaveInv(q: Queue, c: nat)
    requires Inv(q) && c < |q.callers|
    ensures Inv(q.(callers := q.callers[c := Answered(false)]))
  {
    hide IdsOk, ItemsTotal, WorkersTotal;
  }

  // ----- runs -----

  datatype Op =
    | TryPut(task: Task)
    | Call(task: Task)
    | Wake(caller: nat)
    | Leave(caller: nat)
    | Remove(gone: set<int>)
    | TakeOne(worker: nat)
    | FinishOne(worker: nat, cancelled: bool)
    | CancelIdle(worker: nat)
    | StartWorkers(n: nat)
    | StopIdle
    | StopBegin(stop: nat, discard: bool)
    | StopEnd(stop: nat)
    | StopAbandon(stop: nat)

  ghost predicate AllDone(q: Queue, ws: seq<nat>) {
    forall i :: 0 <= i < |ws| ==> ws[i] < |q.workers| && q.workers[ws[i]].Done?
  }

  ghost predicate Enabled(q: Queue, op: Op) {
    match op
    case TryPut(_) => true
    case Call(t) => t.size <= q.maxBytes
    case Wake(c) => c < |q.callers| && q.callers[c].Blocked? && q.callers[c].at < q.signals && q.callers[c].task.size <= q.maxBytes
    case Leave(c) => c < |q.callers| && q.callers[c].Blocked?
    case Remove(_) => true
    case TakeOne(w) => w < |q.workers| && q.workers[w].Idle? && q.items != []
    case FinishOne(w, _) => w < |q.workers| && q.workers[w].Busy?
    case CancelIdle(w) => w < |q.workers| && q.workers[w].Idle?
    case StartWorkers(n) => n >= 1
    case StopIdle => q.tasks == []
    case StopBegin(s, _) => q.tasks != [] && s !in q.stops
    case StopEnd(s) => s in q.stops && AllDone(q, q.stops[s])
    case StopAbandon(s) => s in q.stops
  }

  ghost function Next(q: Queue, op: Op): (r: Queue)
    requires Enabled(q, op)
  {
    match op
    case TryPut(t) => TryEnqueue(q, t)
    case Call(t) => Enqueue(q, t)
    case Wake(c) => Resume(q, c)
    case Leave(c) => q.(callers := q.callers[c := Answered(false)])
    case Remove(gone) => RemovePending(q, gone)
    case TakeOne(w) => Take(q, w)
    case FinishOne(w, cancelled) => Finish(q, w, cancelled)
    case CancelIdle(w) => q.(workers := q.workers[w := Done])
    case StartWorkers(n) => Start(q, n)
    case StopIdle => Discard(q)
    case StopBegin(s, discard) => BeginStop(q, s, discard)
    case StopEnd(s) => EndStop(q, s)
    case StopAbandon(s) => q.(stops := q.stops - {s})
  }

  lemma StepInv(q: Queue, op: Op)
    requires Inv(q) && Enabled(q, op)
    ensures Inv(Next(q, op))
  {
    hide IdsOk, CountsOk;
    match op
    case TryPut(t) => if Admissible(q, t) { ReserveInv(q, t); }
    case Call(t) => EnqueueInv(q, t);
    case Wake(c) => ResumeInv(q, c);
    case Leave(c) => LeaveInv(q, c);
    case Remove(gone) => RemovePendingInv(q, gone);
    case TakeOne(w) => TakeInv(q, w);
    case FinishOne(w, cancelled) => FinishInv(q, w, cancelled);
    case CancelIdle(w) => SetIdleOrDone(q, w, Done);
    case StartWorkers(n) => StartInv(q, n);
    case StopIdle => DiscardInv(q);
    case StopBegin(s, discard) => BeginStopInv(q, s, discard);
    case StopEnd(s) => EndStopInv(q, s);
    case StopAbandon(s) => ForgetStops(q, q.tasks, q.stops - {s});
  }

  lemma ForgetStops(q: Queue, tasks: seq<nat>, stops: map<nat, seq<nat>>)
    requires Inv(q)
    ensures Inv(q.(tasks := tasks, stops := stops))
  {
    hide IdsOk;
  }

  lemma BeginStopInv(q: Queue, s: nat, discard: bool)
    requires Inv(q)
    ensures Inv(BeginStop(q, s, discard))
    ensures BeginStop(q, s, discard).workers == q.workers && BeginStop(q, s, discard).tasks == q.tasks
  {
    RemovePendingInv(q, q.reserved);
    var p := if discard then RemovePending(q, q.reserved) else q;
    hide Inv;
    SentinelsInv(p, |q.tasks|);
    ForgetStops(p.(items := p.items + Repeat(Sentinel, |q.tasks|)), q.tasks, q.stops[s := q.tasks]);
  }

  lemma EndStopInv(q: Queue, s: nat)
    requires Inv(q)
    ensures Inv(EndStop(q, s)) && EndStop(q, s).items == [] && EndStop(q, s).tasks == []
    ensures EndStop(q, s).workers == q.workers && EndStop(q, s).stops == q.stops - {s}
  {
    ForgetStops(q, [], q.stops - {s});
    hide Inv;
    DiscardInv(q.(tasks := [], stops := q.stops - {s}));
  }

  function Init(maxMessages: nat, maxBytes: nat): (q: Queue) {
    Queue(maxMessages, maxBytes, [], [], [], {}, {}, 0, 0, 0, [], map[])
  }

  ghost predicate Reaches(q: Queue, ops: seq<Op>, r: Queue)
    decreases |ops|
  {
    if ops == [] then q == r else Enabled(q, ops[0]) && Reaches(Next(q, ops[0]), ops[1..], r)
  }

  lemma {:induction false} RunInv(q: Queue, ops: seq<Op>, r: Queue)
    requires Inv(q) && Reaches(q, ops, r)
    ensures Inv(r)
    decreases |ops|
  {
    if ops != [] {
      StepInv(q, ops[0]);
      hide Inv, Next, Enabled;
      RunInv(Next(q, ops[0]), ops[1..], r);
    }
  }

  /** In every run: exactly the queued and running tasks are reserved, once each, and they are counted. */
  lemma ReservationsConserved(maxMessages: nat, maxBytes: nat, ops: seq<Op>, q: Queue)
    requires Reaches(Init(maxMessages, maxBytes), ops, q)
    ensures NoRepeats(q.items, q.workers)
    ensures forall id :: id in q.reserved <==> Queued(q.items, id) || Running(q.workers, id)
    ensures forall id :: id in q.active <==> Running(q.workers, id)
    ensures q.messages == ItemsTotal(q.items, Messages) + WorkersTotal(q.workers, Messages) <= q.maxMessages
    ensures q.bytes == ItemsTotal(q.items, Bytes) + WorkersTotal(q.workers, Bytes) <= q.maxBytes
  {
    RunInv(Init(maxMessages, maxBytes), ops, q);
    hide Reaches;
  }

  /** In every run, a caller blocked on an event that was not set since it looked lacks capacity. */
  lemma BlockedLacksCapacity(maxMessages: nat, maxBytes: nat, ops: seq<Op>, q: Queue, c: nat)
    requires Reaches(Init(maxMessages, maxBytes), ops, q)
    requires c < |q.callers| && q.callers[c].Blocked? && q.callers[c].at == q.signals
    ensures !HasCapacity(q, q.callers[c].task)
  {
    RunInv(Init(maxMessages, maxBytes), ops, q);
    hide Reaches, IdsOk, CountsOk;
  }

  // ----- stopping -----

  lemma NoElements<T(!new)>(s: set<T>)
    requires forall x :: x !in s
    ensures s == {}
  {
  }

  /** Nothing queued, nothing running, nothing reserved, nothing counted. */
  ghost predicate Clear(q: Queue) {
    q.items == [] && q.reserved == {} && q.active == {} && q.messages == 0 && q.bytes == 0
  }

  lemma NothingHeld(q: Queue)
    requires Inv(q) && q.items == [] && forall w :: 0 <= w < |q.workers| ==> !q.workers[w].Busy?
    ensures Clear(q)
  {
    NobodyBusy(q.workers, Messages);
    NobodyBusy(q.workers, Bytes);
    forall id ensures id !in q.reserved && id !in q.active {
      assert !Queued(q.items, id) && !Running(q.workers, id);
    }
    NoElements(q.reserved);
    NoElements(q.active);
  }

  lemma {:induction false} NobodyBusy(workers: seq<Worker>, what: What)
    requires forall w :: 0 <= w < |workers| ==> !workers[w].Busy?
    ensures WorkersTotal(workers, what) == 0
  {
    if workers != [] { NobodyBusy(workers[..|workers| - 1], what); }
  }

  /** No workers are created while a stop is in progress; a start that finds workers creates none. */
  ghost predicate Disciplined(q: Queue, op: Op) {
    op.StartWorkers? ==> q.tasks != [] || q.stops == map[]
  }

  ghost predicate Live(q: Queue, w: nat) {
    w < |q.workers| && !q.workers[w].Done?
  }

  ghost predicate AllWork(items: seq<Item>) {
    forall i :: 0 <= i < |items| ==> items[i].Work?
  }

  /** Every live worker is known to the queue and waited for by every stop; sentinels are for known workers. */
  ghost predicate Known(q: Queue) {
    && (forall w :: Live(q, w) ==> w in q.tasks)
    && (forall s, w :: s in q.stops && Live(q, w) ==> w in q.stops[s])
    && (forall i :: 0 <= i < |q.tasks| ==> q.tasks[i] < |q.workers|)
    && (forall s, i :: s in q.stops && 0 <= i < |q.stops[s]| ==> q.stops[s][i] < |q.workers|)
    && (q.tasks == [] ==> AllWork(q.items))
  }

  lemma NobodyLive(q: Queue, s: nat, w: nat)
    requires Known(q) && s in q.stops && AllDone(q, q.stops[s])
    ensures !Live(q, w)
  {
    if w in q.stops[s] {
      var i :| 0 <= i < |q.stops[s]| && q.stops[s][i] == w;
    }
  }

  lemma {:induction false} KeepWork(items: seq<Item>, gone: set<int>)
    requires AllWork(items)
    ensures AllWork(Keep(items, gone))
  {
    if items != [] { KeepWork(items[..|items| - 1], gone); }
  }

  lemma KnownStart(q: Queue, n: nat)
    requires Known(q) && Disciplined(q, StartWorkers(n)) && n >= 1
    ensures Known(Start(q, n))
  {
    if q.tasks == [] {
      var fleet := From(|q.workers|, n);
      forall w: nat | w < |q.workers| ensures q.workers[w].Done? { assert Live(q, w) ==> w in q.tasks; }
      forall w: nat | Live(Start(q, n), w) ensures w in fleet {
        assert fleet[w - |q.workers|] == w;
      }
    }
  }

  lemma KnownStopEnd(q: Queue, s: nat)
    requires Inv(q) && Known(q) && Enabled(q, StopEnd(s))
    ensures Known(Next(q, StopEnd(s)))
  {
    hide Inv;
    EndStopInv(q, s);
    forall w: nat ensures !Live(Next(q, StopEnd(s)), w) { NobodyLive(q, s, w); }
  }

  lemma KnownStep(q: Queue, op: Op)
    requires Inv(q) && Known(q) && Enabled(q, op) && Disciplined(q, op)
    ensures Known(Next(q, op))
  {
    hide Inv;
    match op
    case StartWorkers(n) => KnownStart(q, n);
    case StopBegin(s, discard) => BeginStopInv(q, s, discard); RemovePendingInv(q, q.reserved); KnownSame(q, Next(q, op));
    case StopEnd(s) => KnownStopEnd(q, s);
    case Remove(gone) =>
      RemovePendingInv(q, gone);
      if q.tasks == [] { KeepWork(q.items, gone); }
      KnownSame(q, Next(q, op));
    case StopIdle => DiscardInv(q); KnownSame(q, Next(q, op));
    case _ => KnownSame(q, Next(q, op));
  }

  /** Known is kept when workers only finish and stops only come with the known workers or go. */
  lemma KnownSame(q: Queue, r: Queue)
    requires Known(q) && r.tasks == q.tasks && |r.workers| == |q.workers|
    requires forall w :: Live(r, w) ==> Live(q, w)
    requires forall s :: s in r.stops ==> (s in q.stops && r.stops[s] == q.stops[s]) || r.stops[s] == q.tasks
    requires q.tasks == [] ==> AllWork(r.items)
    ensures Known(r)
  {
  }

  ghost predicate DisciplinedRun(q: Queue, ops: seq<Op>, r: Queue)
    decreases |ops|
  {
    if ops == [] then q == r
    else Enabled(q, ops[0]) && Disciplined(q, ops[0]) && DisciplinedRun(Next(q, ops[0]), ops[1..], r)
  }

  lemma {:induction false} KnownRun(q: Queue, ops: seq<Op>, r: Queue)
    requires Inv(q) && Known(q) && DisciplinedRun(q, ops, r)
    ensures Inv(r) && Known(r)
    decreases |ops|
  {
    if ops != [] {
      StepInv(q, ops[0]);
      KnownStep(q, ops[0]);
      hide Inv, Known, Next, Enabled;
      KnownRun(Next(q, ops[0]), ops[1..], r);
    }
  }

  /** The steps with which a stop completes: its workers are done, or it found none. */
  predicate Completes(op: Op) { op.StopEnd? || op.StopIdle? }

  lemma StopClears(q: Queue, op: Op)
    requires Inv(q) && Known(q) && Completes(op) && Enabled(q, op)
    ensures Clear(Next(q, op))
  {
    if op.StopEnd? {
      EndStopInv(q, op.stop);
      forall w: nat ensures !Live(q, w) { NobodyLive(q, op.stop, w); }
    } else {
      DiscardInv(q);
      assert forall w: nat :: !Live(q, w);
    }
    hide Inv, EndStop, Discard;
    forall w | 0 <= w < |q.workers| ensures !q.workers[w].Busy? { assert !Live(q, w); }
    NothingHeld(Next(q, op));
  }

  /** As long as no workers are created during a stop, every stop that completes leaves nothing reserved. */
  lemma CompletedStopLeavesNothing(maxMessages: nat, maxBytes: nat, ops: seq<Op>, q: Queue, op: Op)
    requires DisciplinedRun(Init(maxMessages, maxBytes), ops, q) && Completes(op) && Enabled(q, op)
    ensures Clear(Next(q, op))
  {
    KnownRun(Init(maxMessages, maxBytes), ops, q);
    StopClears(q, op);
    hide Inv, DisciplinedRun;
  }

  /** In every disciplined continuation a stop that completes leaves nothing reserved. */
  ghost predicate StopsClear(q: Queue) {
    forall ops, r, op :: DisciplinedRun(q, ops, r) && Completes(op) && Enabled(r, op) ==> Clear(Next(r, op))
  }

  /** A worker created during a stop can hold a task when that stop completes. */
  lemma StartDuringStop(q: Queue, n: nat) returns (ops: seq<Op>, r: Queue, s: nat)
    requires Inv(q) && Known(q) && n >= 1 && q.tasks == [] && q.stops != map[] && q.maxMessages >= 1
    ensures DisciplinedRun(Start(q, n), ops, r) && Enabled(r, StopEnd(s)) && !Clear(Next(r, StopEnd(s)))
  {
    s :| s in q.stops;
    assert AllDone(q, q.stops[s]) by {
      forall i | 0 <= i < |q.stops[s]| ensures q.workers[q.stops[s][i]].Done? {
        var w := q.stops[s][i];
        assert !Live(q, w);
      }
    }
    var p := Start(q, n);
    StartInv(q, n);
    var put := OneQueued(q, p);
    ops := put.0;
    var k := |q.workers|;
    r := Take(put.1, k);
    assert r.workers[k].Busy?;
    ops := ops + [TakeOne(k)];
    DisciplinedSnoc(p, put.0, put.1, TakeOne(k));
    TakeInv(put.1, k);
    EndStopInv(r, s);
    assert Running(r.workers, r.workers[k].task.id);
  }

  lemma DisciplinedSnoc(q: Queue, ops: seq<Op>, m: Queue, op: Op)
    requires DisciplinedRun(q, ops, m) && Enabled(m, op) && Disciplined(m, op)
    ensures DisciplinedRun(q, ops + [op], Next(m, op))
    decreases |ops|
  {
    hide Enabled, Next, Disciplined;
    if ops == [] {
      assert ops + [op] == [op] && [op][1..] == [];
    } else {
      assert (ops + [op])[0] == ops[0] && (ops + [op])[1..] == ops[1..] + [op];
      DisciplinedSnoc(Next(q, ops[0]), ops[1..], m, op);
    }
  }

  /** With fresh workers and no sentinel about, a task is at the front of the queue or can be put there. */
  lemma OneQueued(q: Queue, p: Queue) returns (put: (seq<Op>, Queue))
    requires Inv(p) && Known(q) && q.tasks == [] && p == q.(workers := p.workers, tasks := p.tasks) && q.maxMessages >= 1
    requires |q.workers| < |p.workers| && forall w :: 0 <= w < |p.workers| ==> p.workers[w] == if w < |q.workers| then q.workers[w] else Idle
    ensures DisciplinedRun(p, put.0, put.1) && Inv(put.1) && put.1.workers == p.workers && put.1.stops == p.stops
    ensures put.1.items != [] && put.1.items[0].Work?
  {
    if p.items != [] {
      put := ([], p);
    } else {
      forall w | 0 <= w < |p.workers| ensures !p.workers[w].Busy? {
        if w < |q.workers| { assert Live(q, w) ==> w in q.tasks; }
      }
      NothingHeld(p);
      var t := Task(0, 0);
      ReserveInv(p, t);
      put := ([TryPut(t)], Reserve(p, t));
      assert DisciplinedRun(Reserve(p, t), [], Reserve(p, t));
      assert [TryPut(t)][1..] == [];
    }
  }

  /**
   Among all operations from any state that disciplined runs reach, exactly a start that
   creates workers while a stop is in progress lets a later stop complete with something
   reserved. Whether it would is known before the call.
   */
  lemma StartDuringStopIsTheHazard(q: Queue, op: Op)
    requires Inv(q) && Known(q) && Enabled(q, op) && q.maxMessages >= 1
    ensures StopsClear(Next(q, op)) <==> !(op.StartWorkers? && q.tasks == [] && q.stops != map[])
  {
    if Disciplined(q, op) {
      StepInv(q, op);
      KnownStep(q, op);
      var m := Next(q, op);
      hide Inv, Known, Next;
      forall ops, r, e | DisciplinedRun(m, ops, r) && Completes(e) && Enabled(r, e) ensures Clear(Next(r, e)) {
        KnownRun(m, ops, r);
        StopClears(r, e);
      }
    } else {
      var ops, r, s := StartDuringStop(q, op.n);
      assert Completes(StopEnd(s)) && DisciplinedRun(Next(q, op), ops, r);
    }
  }

  lemma ReachesCons(q: Queue, op: Op, ops: seq<Op>, r: Queue)
    requires Enabled(q, op) && Reaches(Next(q, op), ops, r)
    ensures Reaches(q, [op] + ops, r)
  {
    assert ([op] + ops)[1..] == ops;
    hide Enabled, Next;
  }

  /** One of two overlapping stops has ended, the other has not. */
  function HalfStopped(): (q: Queue) {
    Queue(10, 100, [], [Done], [], {}, {}, 0, 0, 0, [], map[1 := [0]])
  }

  lemma {:induction false} ReachesConcat(q: Queue, a: seq<Op>, m: Queue, b: seq<Op>, r: Queue)
    requires Reaches(q, a, m) && Reaches(m, b, r)
    ensures Reaches(q, a + b, r)
    decreases |a|
  {
    if a == [] {
      assert a + b == b;
    } else {
      assert (a + b)[1..] == a[1..] + b;
      hide Enabled, Next;
      ReachesConcat(Next(q, a[0]), a[1..], m, b, r);
    }
  }

  /** Two stops wait for the same worker. */
  function TwoStops(): (q: Queue) {
    Queue(10, 100, [Sentinel, Sentinel], [Idle], [0], {}, {}, 0, 0, 0, [], map[0 := [0], 1 := [0]])
  }

  lemma OverlapBegins() returns (ops: seq<Op>)
    ensures Reaches(Init(10, 100), ops, TwoStops())
  {
    var q1 := Init(10, 100).(workers := [Idle], tasks := [0]);
    assert Repeat(Idle, 1) == [Idle] && From(0, 1) == [0] && Repeat(Sentinel, 1) == [Sentinel];
    var q2 := q1.(items := [Sentinel], stops := map[0 := [0]]);
    assert Next(Init(10, 100), StartWorkers(1)) == q1;
    assert Next(q1, StopBegin(0, false)) == q2;
    assert Next(q2, StopBegin(1, false)) == TwoStops();
    hide Next;
    ops := [];
    ReachesCons(q2, StopBegin(1, false), ops, TwoStops());
    ops := [StopBegin(1, false)] + ops;
    ReachesCons(q1, StopBegin(0, false), ops, TwoStops());
    ops := [StopBegin(0, false)] + ops;
    ReachesCons(Init(10, 100), StartWorkers(1), ops, TwoStops());
    ops := [StartWorkers(1)] + ops;
  }

  lemma OverlapFirstHalf() returns (ops: seq<Op>)
    ensures Reaches(TwoStops(), ops, HalfStopped())
  {
    var q4 := TwoStops().(items := [Sentinel], workers := [Done]);
    var q5 := q4.(tasks := [], stops := map[1 := [0]]);
    assert Next(TwoStops(), TakeOne(0)) == q4;
    assert map[0 := [0], 1 := [0]] - {0} == map[1 := [0]];
    assert Discard(q5) == Discard(HalfStopped()) == HalfStopped();
    assert Next(q4, StopEnd(0)) == HalfStopped();
    hide Next;
    ops := [];
    ReachesCons(q4, StopEnd(0), ops, HalfStopped());
    ops := [StopEnd(0)] + ops;
    ReachesCons(TwoStops(), TakeOne(0), ops, HalfStopped());
    ops := [TakeOne(0)] + ops;
  }

  lemma OverlapSecondHalf() returns (ops: seq<Op>, q: Queue)
    ensures Reaches(HalfStopped(), ops, q) && Enabled(q, StopEnd(1))
    ensures Next(q, StopEnd(1)).reserved == {7} && Next(q, StopEnd(1)).tasks == []
  {
    var t := Task(7, 5);
    var q6 := HalfStopped().(workers := [Done, Idle], tasks := [1]);
    assert From(1, 1) == [1] && Repeat(Idle, 1) == [Idle];
    assert Next(HalfStopped(), StartWorkers(1)) == q6;
    var q7 := q6.(reserved := {7}, messages := 1, bytes := 5, items := [Work(t)]);
    assert Next(q6, TryPut(t)) == q7;
    q := q7.(items := [], workers := [Done, Busy(t)], active := {7});
    assert Next(q7, TakeOne(1)) == q;
    assert Next(q, StopEnd(1)) == q.(tasks := [], stops := q.stops - {1});
    hide Next;
    ops := [];
    ReachesCons(q7, TakeOne(1), ops, q);
    ops := [TakeOne(1)] + ops;
    ReachesCons(q6, TryPut(t), ops, q);
    ops := [TryPut(t)] + ops;
    ReachesCons(HalfStopped(), StartWorkers(1), ops, q);
    ops := [StartWorkers(1)] + ops;
  }

  /**
   Two stops overlap, one ends, workers are started again and take a task: when the other
   stop ends, it reports completion although a task is reserved and running.
   */
  lemma OverlappingStartKeepsReservation() returns (ops: seq<Op>, q: Queue)
    ensures Reaches(Init(10, 100), ops, q) && Enabled(q, StopEnd(1))
    ensures Next(q, StopEnd(1)).reserved == {7} && Next(q, StopEnd(1)).tasks == []
  {
    var begun := OverlapBegins();
    var half := OverlapFirstHalf();
    ops, q := OverlapSecondHalf();
    hide Enabled, Next, HalfStopped, TwoStops;
    ReachesConcat(TwoStops(), half, HalfStopped(), ops, q);
    ReachesConcat(Init(10, 100), begun, TwoStops(), half + ops, q);
    ops := begun + (half + ops);
  }
}
