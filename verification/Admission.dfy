/**
 Slot admission, which the read pool and the writer implement alike: a counter of
 outstanding slots, a FIFO deque of waiter records, and the hand-over of one slot
 from waiter record to coroutine to actor queue to worker.

 A submission is named by its ticket, its position in arrival order.
 */
module Admission {
  import opened Seqs

  /** Where a submission stands, and so who owns its slot, if it has one. */
  datatype Phase =
    | Waiting                 // waiter record in the deque, no slot
    | Granted                 // slot attached to the waiter record
    | Held                    // slot taken over by the coroutine, nothing dispatched yet
    | Queued(worker: nat)     // slot belongs to the request in that worker's queue
    | Running(worker: nat)    // slot belongs to the worker that executes the request
    | Cancelled               // gave up while waiting; never had a slot
    | Rejected                // turned away while waiting; never had a slot
    | Returned                // had a slot and gave it back

  predicate Owns(p: Phase) {
    p.Granted? || p.Held? || p.Queued? || p.Running?
  }

  predicate IsWaiting(p: Phase) {
    p.Waiting?
  }

  datatype Gate = Gate(
    capacity: nat,
    maxWaiters: nat,
    open: bool,
    outstanding: int,
    waiters: seq<nat>,        // the deque; cancelled records stay until popped
    phase: seq<Phase>,        // indexed by ticket
    grants: seq<nat>,         // history: tickets in the order they received a slot
    freed: seq<nat>           // history: how often each ticket gave a slot back
  )

  datatype Arrival = Admitted(ticket: nat) | MustWait(ticket: nat) | Overloaded

  ghost predicate WellFormed(g: Gate) {
    && |g.freed| == |g.phase|
    && forall i :: 0 <= i < |g.waiters| ==> g.waiters[i] < |g.phase|
  }

  ghost predicate NoneWaiting(g: Gate) {
    forall t :: 0 <= t < |g.phase| ==> !g.phase[t].Waiting?
  }

  // ----- the operations, as functions of the gate -----

  /** Attaches a slot to the record at the front of the deque, or drops a record that gave up. */
  function PopFront(g: Gate): (r: Gate)
    requires g.waiters != [] && g.waiters[0] < |g.phase|
  {
    var t, rest := g.waiters[0], g.waiters[1..];
    if g.phase[t].Waiting? then
      g.(waiters := rest, phase := g.phase[t := Granted], outstanding := g.outstanding + 1, grants := g.grants + [t])
    else
      g.(waiters := rest)
  }

  /** Pops waiter records and attaches slots while there is capacity. */
  ghost function Grant(g: Gate): (r: Gate)
    requires WellFormed(g)
    ensures WellFormed(r) && |r.phase| == |g.phase|
    decreases |g.waiters|
  {
    if !g.open || g.outstanding >= g.capacity || g.waiters == [] then g else Grant(PopFront(g))
  }

  /** Drops records that no longer wait from the front of the deque. */
  ghost function Discard(g: Gate): (r: Gate)
    requires WellFormed(g)
    ensures WellFormed(r)
    decreases |g.waiters|
  {
    if g.waiters == [] || g.phase[g.waiters[0]].Waiting? then g
    else Discard(g.(waiters := g.waiters[1..]))
  }

  /** A new submission reaches an open gate. */
  ghost function Arrive(g: Gate): (r: (Gate, Arrival))
    requires WellFormed(g)
    ensures WellFormed(r.0)
  {
    Join(Discard(g))
  }

  /** The arrival once the records at the front of the deque still wait. */
  ghost function Join(d: Gate): (r: (Gate, Arrival))
    requires WellFormed(d)
    ensures WellFormed(r.0)
  {
    var t := |d.phase|;
    if d.outstanding < d.capacity && d.waiters == [] then
      (Admit(d), Admitted(t))
    else if Count(d.phase, IsWaiting) >= d.maxWaiters then
      (d, Overloaded)
    else
      (Grant(Enrol(d)), MustWait(t))
  }

  function Enrol(g: Gate): (r: Gate) {
    g.(waiters := g.waiters + [|g.phase|], phase := g.phase + [Waiting], freed := g.freed + [0])
  }

  /** Gives the slot of `t` back. */
  function GiveBack(g: Gate, t: nat): (r: Gate)
    requires t < |g.phase| == |g.freed|
  {
    g.(phase := g.phase[t := Returned], outstanding := g.outstanding - 1, freed := g.freed[t := g.freed[t] + 1])
  }

  ghost function Release(g: Gate, t: nat): (r: Gate)
    requires WellFormed(g) && t < |g.phase|
  {
    Grant(GiveBack(g, t))
  }

  /** The coroutine of `t` leaves admission: timeout, cancellation or a vanished event loop. */
  ghost function Cancel(g: Gate, t: nat): (r: Gate)
    requires WellFormed(g) && t < |g.phase|
  {
    Grant(match g.phase[t]
          case Waiting => Hand(g, t, Cancelled)
          case Granted => GiveBack(g, t)
          case _ => g)
  }

  /** Changes only where submission `t` stands. */
  function Hand(g: Gate, t: nat, p: Phase): (r: Gate)
    requires t < |g.phase|
  {
    g.(phase := g.phase[t := p])
  }

  /** Empties the deque, turning every record that still waits away. */
  ghost function RejectAll(g: Gate): (r: Gate)
    requires WellFormed(g)
    ensures WellFormed(r)
    decreases |g.waiters|
  {
    if g.waiters == [] then g else RejectAll(RejectFront(g))
  }

  function RejectFront(g: Gate): (r: Gate)
    requires g.waiters != [] && g.waiters[0] < |g.phase|
  {
    var t := g.waiters[0];
    g.(waiters := g.waiters[1..], phase := if g.phase[t].Waiting? then g.phase[t := Rejected] else g.phase)
  }

  ghost function Shut(g: Gate): (r: Gate)
    requires WellFormed(g)
  {
    RejectAll(g.(open := false))
  }

  // ----- the invariant -----

  /** Every slot given out so far went to an earlier arrival than `t`. */
  ghost predicate AfterAllGrants(g: Gate, t: nat) {
    g.grants == [] || g.grants[|g.grants| - 1] < t
  }

  /** The deque holds the latest arrivals, in order, and nobody else waits. */
  ghost predicate DequeOk(g: Gate) {
    && WellFormed(g)
    && (forall i :: 0 <= i < |g.waiters| ==> g.waiters[i] == |g.phase| - |g.waiters| + i)
    && |g.waiters| <= |g.phase|
    && (forall t :: 0 <= t < |g.phase| && (g.phase[t].Waiting? || t >= |g.phase| - |g.waiters|) ==>
          (g.phase[t].Waiting? || g.phase[t].Cancelled?) && t >= |g.phase| - |g.waiters| && AfterAllGrants(g, t))
  }

  /** Slots are counted, handed out in arrival order, and given back once. */
  ghost predicate SlotsOk(g: Gate) {
    && g.outstanding == Count(g.phase, Owns) <= g.capacity
    && Ascending(g.grants)
    && (g.grants == [] || g.grants[|g.grants| - 1] < |g.phase|)
    && |g.freed| == |g.phase|
    && (forall t :: 0 <= t < |g.phase| ==> g.freed[t] == if g.phase[t].Returned? then 1 else 0)
  }

  ghost predicate Core(g: Gate) {
    && DequeOk(g)
    && SlotsOk(g)
    && Count(g.phase, IsWaiting) <= g.maxWaiters
  }

  /** While the gate is open, either all capacity is in use or nobody waits. */
  ghost predicate WorkConserving(g: Gate) {
    g.open ==> g.outstanding == g.capacity || NoneWaiting(g)
  }

  /** Everything but work conservation. */
  ghost predicate Sound(g: Gate) {
    Core(g) && (!g.open ==> NoneWaiting(g))
  }

  ghost predicate Inv(g: Gate) {
    Sound(g) && WorkConserving(g)
  }

  // ----- consequences -----

  /** Slot conservation: the counter is exactly the number of submissions that own a slot. */
  lemma Conservation(g: Gate)
    requires SlotsOk(g)
    ensures g.outstanding == |Positions(g.phase, Owns)|
    ensures 0 <= g.outstanding <= g.capacity
  {
    hide Count;
    CountIsSize(g.phase, Owns);
  }

  predicate IsGranted(p: Phase) { p.Granted? }

  predicate IsHeld(p: Phase) { p.Held? }

  predicate IsQueued(p: Phase) { p.Queued? }

  predicate IsRunning(p: Phase) { p.Running? }

  /** A slot has one owner: the waiter record, the coroutine, the queued request or the worker. */
  lemma {:induction false} OwnersSplit(phase: seq<Phase>)
    ensures Count(phase, Owns) == Count(phase, IsGranted) + Count(phase, IsHeld)
                                  + Count(phase, IsQueued) + Count(phase, IsRunning)
  {
    if phase != [] {
      OwnersSplit(phase[..|phase| - 1]);
    }
  }

  /** The underflow check in release can never fire. */
  lemma ZeroMeansNoOwner(g: Gate)
    requires SlotsOk(g)
    ensures g.outstanding == 0 <==> forall t :: 0 <= t < |g.phase| ==> !Owns(g.phase[t])
  {
    hide Count;
    CountZero(g.phase, Owns);
  }

  // ----- preservation -----

  lemma PopFrontDeque(g: Gate)
    requires DequeOk(g) && g.waiters != [] && (g.grants == [] || g.grants[|g.grants| - 1] < |g.phase|)
    ensures DequeOk(PopFront(g))
  {
    hide Count;
    var h, t := PopFront(g), g.waiters[0];
    assert forall u :: 0 <= u < |g.phase| && u != t ==> h.phase[u] == g.phase[u];
    assert forall i :: 0 <= i < |h.waiters| ==> h.waiters[i] == g.waiters[i + 1];
  }

  lemma PopFrontSlots(g: Gate)
    requires DequeOk(g) && SlotsOk(g) && g.outstanding < g.capacity && g.waiters != []
    ensures SlotsOk(PopFront(g))
    ensures Count(PopFront(g).phase, IsWaiting) <= Count(g.phase, IsWaiting)
  {
    hide Count;
    var t := g.waiters[0];
    if g.phase[t].Waiting? {
      CountUpdate(g.phase, t, Granted, Owns);
      CountUpdate(g.phase, t, Granted, IsWaiting);
      AscendingAppend(g.grants, t);
    }
  }

  lemma PopFrontCore(g: Gate)
    requires Core(g) && g.outstanding < g.capacity && g.waiters != []
    ensures Core(PopFront(g))
  {
    hide Count;
    PopFrontDeque(g);
    PopFrontSlots(g);
    hide DequeOk, SlotsOk;
  }

  /** What a grant pass may do to one submission. */
  ghost predicate Regranted(p: Phase, q: Phase) {
    q == p || (p.Waiting? && q.Granted?)
  }

  ghost predicate SameLimits(g: Gate, h: Gate) {
    g.capacity == h.capacity && g.maxWaiters == h.maxWaiters && g.open == h.open
  }

  lemma {:induction false} GrantInv(g: Gate)
    requires Core(g)
    ensures Core(Grant(g)) && SameLimits(g, Grant(g)) && (Sound(g) ==> Inv(Grant(g)))
    ensures forall t :: 0 <= t < |g.phase| ==> Regranted(g.phase[t], Grant(g).phase[t])
    ensures !g.open ==> Grant(g) == g
    decreases |g.waiters|
  {
    hide Count;
    if !g.open || g.outstanding >= g.capacity || g.waiters == [] {
    } else {
      PopFrontCore(g);
      GrantInv(PopFront(g));
    }
  }

  lemma {:induction false} DiscardInv(g: Gate)
    requires Core(g)
    ensures Core(Discard(g))
    ensures Discard(g) == g.(waiters := Discard(g).waiters)
    ensures Discard(g).waiters == [] || g.phase[Discard(g).waiters[0]].Waiting?
    decreases |g.waiters|
  {
    hide Count;
    if g.waiters == [] || g.phase[g.waiters[0]].Waiting? {
    } else {
      DiscardInv(g.(waiters := g.waiters[1..]));
    }
  }

  lemma EnrolDeque(g: Gate)
    requires DequeOk(g) && (g.grants == [] || g.grants[|g.grants| - 1] < |g.phase|)
    ensures DequeOk(Enrol(g))
  {
    hide Count;
    var h, n, base := Enrol(g), |g.phase|, |g.phase| - |g.waiters|;
    assert |h.phase| - |h.waiters| == base;
    forall i | 0 <= i < |h.waiters| ensures h.waiters[i] == base + i {
      if i < |g.waiters| { assert h.waiters[i] == g.waiters[i]; }
    }
    forall t | 0 <= t < |h.phase| && (h.phase[t].Waiting? || t >= base)
      ensures (h.phase[t].Waiting? || h.phase[t].Cancelled?) && t >= base && AfterAllGrants(h, t)
    {
      if t < n { assert h.phase[t] == g.phase[t] && AfterAllGrants(g, t); }
    }
  }

  lemma EnrolCore(g: Gate)
    requires Core(g) && Count(g.phase, IsWaiting) < g.maxWaiters
    ensures Core(Enrol(g))
  {
    hide Count;
    EnrolDeque(g);
    hide DequeOk;
    var h, n := Enrol(g), |g.phase|;
    assert forall t :: 0 <= t < n ==> h.phase[t] == g.phase[t] && h.freed[t] == g.freed[t];
    CountAppend(g.phase, Waiting, Owns);
    CountAppend(g.phase, Waiting, IsWaiting);
  }

  /** The fast path of an arrival: a free slot and an empty deque. */
  function Admit(g: Gate): (r: Gate) {
    g.(outstanding := g.outstanding + 1, phase := g.phase + [Held],
       grants := g.grants + [|g.phase|], freed := g.freed + [0])
  }

  lemma AdmitDeque(g: Gate)
    requires DequeOk(g) && g.waiters == []
    ensures DequeOk(Admit(g)) && (NoneWaiting(g) ==> NoneWaiting(Admit(g)))
  {
    hide Count;
    var h, n := Admit(g), |g.phase|;
    assert forall t :: 0 <= t < n ==> h.phase[t] == g.phase[t];
    assert h.phase[n] == Held;
  }

  lemma AdmitInv(g: Gate)
    requires Core(g) && g.outstanding < g.capacity && g.waiters == []
    ensures Core(Admit(g)) && (Sound(g) ==> Inv(Admit(g)))
  {
    hide Count;
    assert NoneWaiting(g);
    AdmitDeque(g);
    hide DequeOk, NoneWaiting;
    var h, n := Admit(g), |g.phase|;
    assert forall t :: 0 <= t < n ==> h.phase[t] == g.phase[t] && h.freed[t] == g.freed[t];
    CountAppend(g.phase, Held, Owns);
    CountAppend(g.phase, Held, IsWaiting);
    AscendingAppend(g.grants, n);
  }

  /**
   An arrival keeps the invariant; it is refused exactly when the waiter list is full
   and no slot is free, and it changes no earlier submission except by granting it.
   */
  lemma ArriveInv(g: Gate)
    requires Inv(g) && g.open
    ensures var (h, a) := Arrive(g);
            && Inv(h) && SameLimits(g, h)
            && (a.Admitted? <==> g.outstanding < g.capacity)
            && (a.Overloaded? <==> g.outstanding == g.capacity && Count(g.phase, IsWaiting) == g.maxWaiters)
            && (a.Overloaded? ==> h.phase == g.phase)
            && (!a.Overloaded? ==> |h.phase| == |g.phase| + 1 && a.ticket == |g.phase|)
            && (a.Admitted? ==> h.phase[a.ticket] == Held)
            && (a.MustWait? ==> h.phase[a.ticket] == Waiting)
            && (forall t :: 0 <= t < |g.phase| ==> h.phase[t] == g.phase[t])
  {
    hide Count;
    DiscardInv(g);
    var d := Discard(g);
    if d.outstanding < d.capacity {
      AdmitInv(d);
    } else if Count(d.phase, IsWaiting) < d.maxWaiters {
      EnrolCore(d);
    }
  }

  /** What any arrival may do to the submissions: earlier ones are at most granted, a new one is not dispatched. */
  ghost predicate Extended(p: seq<Phase>, q: seq<Phase>) {
    && |p| <= |q|
    && (forall t :: 0 <= t < |p| ==> Regranted(p[t], q[t]))
    && (forall t :: |p| <= t < |q| ==> q[t].Held? || q[t].Waiting? || q[t].Granted?)
  }

  lemma EnrolGrant(g: Gate)
    requires Core(g) && Count(g.phase, IsWaiting) < g.maxWaiters
    ensures Core(Grant(Enrol(g))) && SameLimits(g, Grant(Enrol(g)))
    ensures Extended(g.phase, Grant(Enrol(g)).phase)
  {
    hide Count;
    EnrolCore(g);
    var e := Enrol(g);
    assert WellFormed(e);
    hide Core, Grant, WellFormed;
    GrantInv(e);
    EnrolExtends(g.phase, e.phase, Grant(e).phase);
  }

  lemma EnrolExtends(p: seq<Phase>, e: seq<Phase>, q: seq<Phase>)
    requires e == p + [Waiting] && |q| == |e| && forall t :: 0 <= t < |e| ==> Regranted(e[t], q[t])
    ensures Extended(p, q)
  {
    forall t | 0 <= t < |p| ensures Regranted(p[t], q[t]) { assert e[t] == p[t]; }
  }

  lemma AdmitExtends(d: Gate)
    ensures SameLimits(d, Admit(d)) && Extended(d.phase, Admit(d).phase)
  {
  }

  lemma SelfExtends(d: Gate)
    ensures SameLimits(d, d) && Extended(d.phase, d.phase)
  {
  }

  lemma JoinCore(d: Gate)
    requires Core(d) && WellFormed(d)
    ensures Core(Join(d).0) && SameLimits(d, Join(d).0) && Extended(d.phase, Join(d).0.phase)
  {
    hide Core, Grant, Admit, Enrol, Extended, SameLimits, Count, WellFormed;
    if d.outstanding < d.capacity && d.waiters == [] {
      AdmitInv(d);
      AdmitExtends(d);
    } else if Count(d.phase, IsWaiting) < d.maxWaiters {
      EnrolGrant(d);
    } else {
      SelfExtends(d);
    }
  }

  /** On a gate that need not be work-conserving an arrival can also find its record granted at once. */
  lemma ArriveCore(g: Gate)
    requires Core(g)
    ensures Core(Arrive(g).0) && SameLimits(g, Arrive(g).0) && Extended(g.phase, Arrive(g).0.phase)
  {
    hide Count;
    DiscardInv(g);
    JoinCore(Discard(g));
    hide Join, Extended, Discard, SlotsOk;
  }

  /** The deque stays sound when owners change their phase and waiting records are cancelled. */
  lemma RephaseDeque(g: Gate, h: Gate)
    requires DequeOk(g) && h.waiters == g.waiters && h.grants == g.grants && |h.phase| == |g.phase| == |h.freed|
    requires forall u :: 0 <= u < |g.phase| ==>
               || h.phase[u] == g.phase[u]
               || (Owns(g.phase[u]) && !h.phase[u].Waiting?)
               || (g.phase[u].Waiting? && h.phase[u].Cancelled?)
    ensures DequeOk(h)
  {
    hide Count;
    var base := |g.phase| - |g.waiters|;
    forall t | 0 <= t < |h.phase| && (h.phase[t].Waiting? || t >= base)
      ensures (h.phase[t].Waiting? || h.phase[t].Cancelled?) && t >= base && AfterAllGrants(h, t)
    {
      assert g.phase[t].Waiting? || t >= base;
      assert AfterAllGrants(g, t) && (g.phase[t].Waiting? || g.phase[t].Cancelled?);
    }
  }

  lemma GiveBackDeque(g: Gate, t: nat)
    requires DequeOk(g) && t < |g.phase| == |g.freed| && Owns(g.phase[t])
    ensures DequeOk(GiveBack(g, t))
  {
    hide DequeOk;
    RephaseDeque(g, GiveBack(g, t));
  }

  lemma GiveBackSlots(g: Gate, t: nat)
    requires SlotsOk(g) && t < |g.phase| && Owns(g.phase[t])
    ensures SlotsOk(GiveBack(g, t)) && Count(GiveBack(g, t).phase, IsWaiting) == Count(g.phase, IsWaiting)
  {
    hide Count;
    var h := GiveBack(g, t);
    assert forall u :: 0 <= u < |g.phase| && u != t ==> h.phase[u] == g.phase[u] && h.freed[u] == g.freed[u];
    CountUpdate(g.phase, t, Returned, Owns);
    CountUpdate(g.phase, t, Returned, IsWaiting);
  }

  lemma GiveBackCore(g: Gate, t: nat)
    requires Core(g) && t < |g.phase| && Owns(g.phase[t])
    ensures Core(GiveBack(g, t))
  {
    hide Count;
    GiveBackDeque(g, t);
    GiveBackSlots(g, t);
    hide DequeOk, SlotsOk;
  }

  lemma ReleaseInv(g: Gate, t: nat)
    requires Core(g) && t < |g.phase| && Owns(g.phase[t])
    ensures Core(Release(g, t)) && SameLimits(g, Release(g, t)) && (Sound(g) ==> Inv(Release(g, t)))
    ensures |Release(g, t).phase| == |g.phase| && Release(g, t).phase[t] == Returned
    ensures forall s :: 0 <= s < |g.phase| && s != t ==> Regranted(g.phase[s], Release(g, t).phase[s])
    ensures !g.open ==> forall s :: 0 <= s < |g.phase| && s != t ==> Release(g, t).phase[s] == g.phase[s]
  {
    hide Count;
    GiveBackCore(g, t);
    GrantInv(GiveBack(g, t));
  }

  lemma WithdrawDeque(g: Gate, t: nat)
    requires DequeOk(g) && t < |g.phase| && g.phase[t].Waiting?
    ensures DequeOk(Hand(g, t, Cancelled))
  {
    assert |g.freed| == |g.phase|;
    hide DequeOk;
    RephaseDeque(g, Hand(g, t, Cancelled));
  }

  lemma WithdrawCore(g: Gate, t: nat)
    requires Core(g) && t < |g.phase| && g.phase[t].Waiting?
    ensures Core(Hand(g, t, Cancelled))
  {
    hide Count;
    WithdrawDeque(g, t);
    var h := Hand(g, t, Cancelled);
    assert forall u :: 0 <= u < |g.phase| && u != t ==> h.phase[u] == g.phase[u];
    CountUpdate(g.phase, t, Cancelled, Owns);
    CountUpdate(g.phase, t, Cancelled, IsWaiting);
    hide DequeOk;
  }

  lemma CancelInv(g: Gate, t: nat)
    requires Core(g) && t < |g.phase|
    ensures Core(Cancel(g, t)) && SameLimits(g, Cancel(g, t)) && (Sound(g) ==> Inv(Cancel(g, t)))
    ensures |Cancel(g, t).phase| == |g.phase|
    ensures Cancel(g, t).phase[t] ==
              if g.phase[t].Waiting? then Cancelled else if g.phase[t].Granted? then Returned else g.phase[t]
    ensures forall s :: 0 <= s < |g.phase| && s != t ==> Regranted(g.phase[s], Cancel(g, t).phase[s])
    ensures !g.open ==> forall s :: 0 <= s < |g.phase| && s != t ==> Cancel(g, t).phase[s] == g.phase[s]
  {
    hide Count;
    match g.phase[t]
    case Waiting =>
      WithdrawCore(g, t);
      GrantInv(Hand(g, t, Cancelled));
    case Granted =>
      ReleaseInv(g, t);
    case _ =>
      GrantInv(g);
  }

  /** An owner is older than everything in the deque, so a hand-over leaves the deque sound. */
  lemma HandDeque(g: Gate, t: nat, p: Phase)
    requires DequeOk(g) && t < |g.phase| && Owns(g.phase[t]) && Owns(p)
    ensures DequeOk(Hand(g, t, p))
  {
    assert |g.freed| == |g.phase|;
    hide DequeOk;
    RephaseDeque(g, Hand(g, t, p));
  }

  lemma HandSlots(g: Gate, t: nat, p: Phase)
    requires SlotsOk(g) && t < |g.phase| && Owns(g.phase[t]) && Owns(p)
    ensures SlotsOk(Hand(g, t, p))
    ensures Count(Hand(g, t, p).phase, IsWaiting) == Count(g.phase, IsWaiting)
  {
    hide Count;
    var h := Hand(g, t, p);
    assert forall u :: 0 <= u < |g.phase| && u != t ==> h.phase[u] == g.phase[u];
    CountUpdate(g.phase, t, p, Owns);
    CountUpdate(g.phase, t, p, IsWaiting);
  }

  lemma HandInv(g: Gate, t: nat, p: Phase)
    requires Core(g) && t < |g.phase| && Owns(g.phase[t]) && Owns(p)
    ensures Core(Hand(g, t, p)) && (Inv(g) ==> Inv(Hand(g, t, p)))
  {
    hide Count;
    HandDeque(g, t, p);
    HandSlots(g, t, p);
    hide DequeOk, SlotsOk;
  }

  /** The books do not depend on whether the gate is open. */
  lemma ReopenCore(g: Gate, open: bool)
    requires Core(g)
    ensures Core(g.(open := open)) && (NoneWaiting(g) ==> Inv(g.(open := open)))
  {
    hide Count;
  }

  lemma RejectFrontCore(g: Gate)
    requires Core(g) && g.waiters != []
    ensures Core(RejectFront(g))
  {
    hide Count;
    var t := g.waiters[0];
    if g.phase[t].Waiting? {
      CountUpdate(g.phase, t, Rejected, Owns);
      CountUpdate(g.phase, t, Rejected, IsWaiting);
    }
  }

  lemma {:induction false} RejectAllCore(g: Gate)
    requires Core(g)
    ensures Core(RejectAll(g)) && NoneWaiting(RejectAll(g))
    ensures RejectAll(g) == g.(waiters := [], phase := RejectAll(g).phase)
    ensures |RejectAll(g).phase| == |g.phase|
    ensures forall t :: 0 <= t < |g.phase| ==>
              RejectAll(g).phase[t] == if g.phase[t].Waiting? then Rejected else g.phase[t]
    decreases |g.waiters|
  {
    hide Count;
    if g.waiters != [] {
      RejectFrontCore(g);
      RejectAllCore(RejectFront(g));
    }
  }

  /** Shutting the gate touches no slot and leaves nobody waiting. */
  lemma ShutInv(g: Gate)
    requires Core(g)
    ensures Inv(Shut(g)) && NoneWaiting(Shut(g))
    ensures Shut(g) == g.(open := false, waiters := [], phase := Shut(g).phase)
    ensures |Shut(g).phase| == |g.phase|
    ensures forall t :: 0 <= t < |g.phase| ==>
              Shut(g).phase[t] == if g.phase[t].Waiting? then Rejected else g.phase[t]
  {
    hide Count;
    ReopenCore(g, false);
    hide Core, RejectAll;
    RejectAllCore(g.(open := false));
  }

  /** Nobody waits outside the deque, which holds the latest tickets. */
  lemma WaitingInDeque(g: Gate)
    requires DequeOk(g)
    ensures Count(g.phase, IsWaiting) == Count(g.phase[|g.phase| - |g.waiters|..], IsWaiting)
  {
    hide Count;
    var base := |g.phase| - |g.waiters|;
    assert g.phase == g.phase[..base] + g.phase[base..];
    CountConcat(g.phase[..base], g.phase[base..], IsWaiting);
    CountZero(g.phase[..base], IsWaiting);
  }

  // ----- the object both actors keep under their lock -----

  class Slots {
    const capacity: nat
    const maxWaiters: nat
    var open: bool
    var outstanding: int
    var waiters: seq<nat>
    var phase: seq<Phase>
    ghost var grants: seq<nat>
    ghost var freed: seq<nat>

    ghost function View(): (g: Gate)
      reads this
    {
      Gate(capacity, maxWaiters, open, outstanding, waiters, phase, grants, freed)
    }

    constructor (capacity: nat, maxWaiters: nat, open: bool)
      ensures View() == Gate(capacity, maxWaiters, open, 0, [], [], [], [])
    {
      this.capacity, this.maxWaiters, this.open := capacity, maxWaiters, open;
      outstanding, waiters, phase, grants, freed := 0, [], [], [], [];
    }

    /** Attaches free slots to waiter records from the front of the deque. */
    method GrantWaiters() returns (granted: seq<nat>)
      requires WellFormed(View())
      modifies this
      ensures View() == Grant(old(View()))
      ensures grants == old(grants) + granted
    {
      granted := [];
      if !open { return; }
      while outstanding < capacity && waiters != []
        invariant WellFormed(View()) && open && Grant(View()) == Grant(old(View()))
        invariant grants == old(grants) + granted
        decreases |waiters|
      {
        ghost var g := View();
        assert Grant(g) == Grant(PopFront(g));
        hide Grant;
        var t := waiters[0];
        waiters := waiters[1..];
        if phase[t].Waiting? {
          phase := phase[t := Granted];
          outstanding := outstanding + 1;
          grants := grants + [t];
          granted := granted + [t];
        }
        assert View() == PopFront(g);
      }
    }

    method DiscardInactive()
      requires WellFormed(View())
      modifies this`waiters
      ensures View() == Discard(old(View()))
    {
      while waiters != [] && !phase[waiters[0]].Waiting?
        invariant WellFormed(View()) && Discard(View()) == Discard(old(View()))
        decreases |waiters|
      {
        waiters := waiters[1..];
      }
    }

    /** How many records in the deque still wait; nobody waits outside the deque. */
    method CountWaiting() returns (n: nat)
      requires Core(View())
      ensures n == Count(phase, IsWaiting)
    {
      hide Count;
      n := 0;
      ghost var base := |phase| - |waiters|;
      ghost var tail := phase[base..];
      WaitingInDeque(View());
      assert forall i :: 0 <= i < |waiters| ==> waiters[i] == base + i;
      hide DequeOk, SlotsOk;
      for i := 0 to |waiters|
        invariant n == Count(tail[..i], IsWaiting)
      {
        assert tail[..i + 1] == tail[..i] + [tail[i]] && tail[i] == phase[waiters[i]];
        CountAppend(tail[..i], tail[i], IsWaiting);
        if phase[waiters[i]].Waiting? { n := n + 1; }
      }
      assert tail[..|waiters|] == tail;
    }

    /** The locked part of acquiring capacity, on an open actor. */
    method Acquire() returns (a: Arrival, granted: seq<nat>)
      requires Core(View()) && open
      modifies this
      ensures (View(), a) == Arrive(old(View()))
    {
      DiscardInv(View());
      hide SlotsOk, Discard, Join;
      DiscardInactive();
      a, granted := JoinFront();
    }

    /** Once the front of the deque still waits: take a slot, be refused, or wait. */
    method JoinFront() returns (a: Arrival, granted: seq<nat>)
      requires Core(View()) && open
      modifies this
      ensures (View(), a) == Join(old(View()))
    {
      hide SlotsOk, Grant, Count;
      granted := [];
      var t := |phase|;
      if outstanding < capacity && waiters == [] {
        outstanding := outstanding + 1;
        phase, freed := phase + [Held], freed + [0];
        grants := grants + [t];
        return Admitted(t), [];
      }
      var waiting := CountWaiting();
      if waiting >= maxWaiters {
        return Overloaded, [];
      }
      waiters := waiters + [t];
      phase, freed := phase + [Waiting], freed + [0];
      assert View() == Enrol(old(View()));
      granted := GrantWaiters();
      a := MustWait(t);
    }

    method CancelAdmission(t: nat) returns (granted: seq<nat>)
      requires WellFormed(View()) && t < |phase|
      modifies this
      ensures View() == Cancel(old(View()), t)
    {
      if phase[t].Waiting? {
        phase := phase[t := Cancelled];
      } else if phase[t].Granted? {
        ReturnSlot(t);
      }
      granted := GrantWaiters();
    }

    method ReturnSlot(t: nat)
      requires WellFormed(View()) && t < |phase|
      modifies this
      ensures View() == GiveBack(old(View()), t)
    {
      phase := phase[t := Returned];
      outstanding := outstanding - 1;
      freed := freed[t := freed[t] + 1];
    }

    method ReleaseCapacity(t: nat) returns (granted: seq<nat>)
      requires WellFormed(View()) && t < |phase|
      modifies this
      ensures View() == Release(old(View()), t)
    {
      ReturnSlot(t);
      granted := GrantWaiters();
    }

    method RejectWaiters() returns (rejected: seq<nat>)
      requires WellFormed(View())
      modifies this`waiters, this`phase
      ensures View() == RejectAll(old(View()))
      ensures forall i :: 0 <= i < |rejected| ==> rejected[i] < |phase| && phase[rejected[i]] == Rejected
    {
      rejected := [];
      while waiters != []
        invariant WellFormed(View()) && RejectAll(View()) == RejectAll(old(View()))
        invariant forall i :: 0 <= i < |rejected| ==> rejected[i] < |phase| && phase[rejected[i]] == Rejected
        decreases |waiters|
      {
        var t := waiters[0];
        waiters := waiters[1..];
        if phase[t].Waiting? {
          phase := phase[t := Rejected];
          rejected := rejected + [t];
        }
      }
    }
  }
}
