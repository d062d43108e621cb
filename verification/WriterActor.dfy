/**
 The writer object.  Each method is one region the source runs under the writer lock, or
 the put of STOP that follows it, proved to be the corresponding action of the state machine.
 */
module WriterActor {
  import opened Admission
  import opened Writer

  class DatabaseWriter {
    const slots: Slots
    var life: Life
    var stopFlag: bool
    ghost var stopsDue: nat
    ghost var stopsPut: nat
    var queue: seq<Item>
    var activity: Activity

    ghost function View(): (s: Actor)
      reads this, slots
    {
      Actor(slots.View(), life, stopFlag, stopsDue, stopsPut, queue, activity)
    }

    constructor (queueCapacity: nat, maxWaiters: nat)
      ensures fresh(slots) && View() == Initial(queueCapacity, maxWaiters)
    {
      slots := new Slots(queueCapacity, maxWaiters, true);
      life, stopFlag, stopsDue, stopsPut, queue, activity := Open, false, 0, 0, [], NotStarted;
    }

    /** Whether the caller, once it has left the lock, must put STOP. */
    method DecideStop() returns (enqueueStop: bool)
      modifies this`stopFlag, this`stopsDue
      ensures View() == PrepareStop(old(View()))
      ensures enqueueStop <==> stopsDue == old(stopsDue) + 1
    {
      enqueueStop := life.Closing? && slots.outstanding == 0 && !stopFlag;
      if enqueueStop {
        stopFlag := true;
        stopsDue := stopsDue + 1;
      }
    }

    method PutStop()
      requires WriterInv(View()) && stopsDue > 0
      modifies this
      ensures View() == Next(old(View()), Action.PutStop)
      ensures queue == [StopToken]
    {
      RoomToStop(View());
      queue := queue + [StopToken];
      stopsDue, stopsPut := stopsDue - 1, stopsPut + 1;
    }

    method Close() returns (enqueueStop: bool)
      requires WellFormed(slots.View())
      modifies this, slots
      ensures View() == if old(life).Open? then Next(old(View()), RequestClose) else old(View())
      ensures !life.Open? && (enqueueStop <==> stopsDue == old(stopsDue) + 1)
    {
      enqueueStop := false;
      if life.Open? {
        life := Closing;
        slots.open := false;
        var _ := slots.RejectWaiters();
        if slots.outstanding == 0 && !stopFlag {
          if activity.NotStarted? {
            life := Closed;
          } else {
            stopFlag, enqueueStop := true, true;
            stopsDue := stopsDue + 1;
          }
        }
      }
    }

    /** The locked part of acquiring capacity; the worker thread is started first. */
    method Acquire(threadStarts: bool) returns (ok: bool, a: Arrival)
      requires WriterInv(View()) && (threadStarts || activity.NotStarted?)
      modifies this, slots
      ensures ok == (old(life).Open? && threadStarts)
      ensures View() == if old(life).Open? then Next(old(View()), Submit(threadStarts)) else old(View())
      ensures ok ==> a == Arrive(old(slots.View())).1
    {
      a, ok := Overloaded, false;
      if !life.Open? { return; }
      if activity.NotStarted? {
        if !threadStarts {
          life := Closed;
          slots.open := false;
          return;
        }
        activity := Idle;
      }
      var granted;
      a, granted := slots.Acquire();
      ok := true;
    }

    method CancelAdmission(t: nat) returns (enqueueStop: bool)
      requires WellFormed(slots.View()) && t < |slots.phase|
      modifies this, slots
      ensures View() == Next(old(View()), Withdraw(t))
    {
      var _ := slots.CancelAdmission(t);
      enqueueStop := DecideStop();
    }

    method ReleaseCapacity(t: nat) returns (enqueueStop: bool)
      requires WellFormed(slots.View()) && t < |slots.phase|
      modifies this, slots
      ensures View() == PrepareStop(old(View()).(gate := Release(old(slots.View()), t)))
    {
      var _ := slots.ReleaseCapacity(t);
      enqueueStop := DecideStop();
    }

    /** The locked part of `_submit`; the bounded put is proved to succeed. */
    method DispatchRequest(t: nat) returns (accepted: bool)
      requires WriterInv(View()) && t < |slots.phase| && slots.phase[t].Held?
      modifies this, slots
      ensures View() == Next(old(View()), Dispatch(t))
      ensures accepted <==> old(life).Open?
      ensures accepted ==> queue == old(queue) + [Req(t)] && |queue| <= slots.capacity
    {
      if !life.Open? {
        slots.ReturnSlot(t);
        var _ := DecideStop();
        return false;
      }
      RoomToDispatch(View(), t);
      queue := queue + [Req(t)];
      slots.phase := slots.phase[t := Queued(0)];
      accepted := true;
    }
  }
}
