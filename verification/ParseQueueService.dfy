/** The queue object; each method is one stretch of code without a suspension point. */
module ParseQueueService {
  import opened ParseQueue

  class TaskQueue {
    const maxMessages: nat
    const maxBytes: nat
    var items: seq<Item>
    var workers: seq<Worker>
    var tasks: seq<nat>
    var reserved: set<int>
    var active: set<int>
    var messages: int
    var bytes: int
    var signals: nat
    var callers: seq<Caller>
    var stops: map<nat, seq<nat>>

    ghost function View(): (q: Queue)
      reads this
    {
      Queue(maxMessages, maxBytes, items, workers, tasks, reserved, active, messages, bytes, signals, callers, stops)
    }

    constructor (maxMessages: nat, maxBytes: nat)
      ensures View() == Init(maxMessages, maxBytes)
    {
      this.maxMessages, this.maxBytes := maxMessages, maxBytes;
      items, workers, tasks, reserved, active := [], [], [], {}, {};
      messages, bytes, signals, callers, stops := 0, 0, 0, [], map[];
    }

    method HasRoom(t: Task) returns (ok: bool)
      ensures ok == HasCapacity(View(), t)
    {
      ok := messages < maxMessages && bytes + t.size <= maxBytes;
    }

    /** Reserves and enqueues without waiting. */
    method TryEnqueueTask(t: Task) returns (ok: bool)
      modifies this
      ensures ok == Admissible(old(View()), t)
      ensures View() == TryEnqueue(old(View()), t)
    {
      if t.size > maxBytes { return false; }
      if t.id in reserved { return false; }
      var room := HasRoom(t);
      if !room { return false; }
      reserved := reserved + {t.id};
      messages := messages + 1;
      bytes := bytes + t.size;
      items := items + [Work(t)];
      ok := true;
    }

    /** The waiting loop up to its next suspension: answered, or blocked with the event cleared. */
    method EnqueueTurn(t: Task) returns (a: Attempt)
      requires t.size <= maxBytes
      modifies this
      ensures (View(), a) == Try(old(View()), t)
    {
      if t.id in reserved { return Duplicate; }
      var ok := TryEnqueueTask(t);
      if ok { return Enqueued; }
      a := Waits;
    }

    /** The underflow checks cannot fire: the id is reserved and both counters cover it. */
    method ReleaseTask(t: Task)
      requires t.id in reserved && messages >= 1 && bytes >= t.size
      modifies this
      ensures View() == Release(old(View()), t)
      ensures messages >= 0 && bytes >= 0
    {
      reserved := reserved - {t.id};
      messages := messages - 1;
      bytes := bytes - t.size;
      signals := signals + 1;
    }

    /** Removes the pending tasks named in `gone`; the rest goes back in order. */
    method RemovePendingTasks(gone: set<int>) returns (cleared: nat)
      requires Inv(View())
      modifies this
      ensures View() == RemovePending(old(View()), gone)
      ensures Inv(View()) && items == Keep(old(items), gone)
      ensures cleared == signals - old(signals)
    {
      hide Inv, Keep;
      cleared := 0;
      RemovePendingInv(View(), gone);
      var retained: seq<Item> := [];
      assert [] + items == items;
      while items != []
        invariant RemoveFrom(View(), retained, gone) == RemovePending(old(View()), gone)
        invariant Inv(View().(items := retained + items))
        invariant cleared == signals - old(signals)
        decreases |items|
      {
        RemoveTurn(View(), retained);
        var item := items[0];
        items := items[1..];
        if item.Work? && item.task.id in gone {
          cleared := cleared + 1;
          ReleaseTask(item.task);
        } else {
          retained := retained + [item];
        }
      }
      items := retained;
    }

    /** Empties the queue, sentinels included. */
    method DiscardContents()
      requires Inv(View())
      modifies this
      ensures View() == Discard(old(View())) && Inv(View()) && items == []
    {
      hide Inv;
      DiscardInv(View());
      while items != []
        invariant Discard(View()) == Discard(old(View())) && Inv(View())
        decreases |items|
      {
        var item := items[0];
        ghost var before := View();
        WithoutInv(before, 0);
        assert items[..0] + items[1..] == items[1..];
        items := items[1..];
        if item.Work? { ReleaseTask(item.task); }
        assert View() == Without(before, 0);
      }
    }

    method TakeTask(w: nat)
      requires w < |workers| && items != []
      modifies this
      ensures View() == Take(old(View()), w)
    {
      var item := items[0];
      items := items[1..];
      match item
      case Sentinel => workers := workers[w := Done];
      case Work(t) =>
        workers := workers[w := Busy(t)];
        active := active + {t.id};
    }

    /** Whatever ended the work, the worker lets go of its task. */
    method FinishTask(w: nat, cancelled: bool)
      requires Inv(View()) && w < |workers| && workers[w].Busy?
      modifies this
      ensures View() == Finish(old(View()), w, cancelled) && Inv(View())
    {
      FinishInv(View(), w, cancelled);
      hide Inv;
      var t := workers[w].task;
      active := active - {t.id};
      workers := workers[w := if cancelled then Done else Idle];
      ReleaseTask(t);
    }
  }
}
